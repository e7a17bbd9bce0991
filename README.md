# Presence store and peer registry of a WebRTC room

A Dafny model of the two stateful parts of a browser video-chat room:

- **The server's presence store** (`server.js`): `activeRooms` maps a room name to a
  table from userId to `{peerId, timestamp}`. `GET /api/presence` validates its
  parameters, creates the room on first use, and evicts "duplicates". A duplicate is
  any other id whose stored peerId contains the caller's userId as a plain substring.
  The handler then upserts the caller, sweeps entries older than 30 s and returns the
  room's other members. `GET /api/room/:roomId/users` sweeps a known room and lists it.
  `PresenceStore` is a class over `rooms: map<string, map<string, Entry>>`. Its
  handlers take the clock reading `now` as a parameter and read it once per request.
- **The client's peer registry and discovery** (`public/js/room.js`): the `peers` map,
  the in-flight set `window.pendingConnections`, the room list in localStorage, and
  the 5 s discovery interval. `RoomClient` is a class with those four fields. Each
  handler of room.js is one method of it: `connectToUser` and the events of the call it
  places, the incoming-call handler, the join step, the storage event, the interval
  tick, the server poll's response, leave and unload, and the Socket.IO-path handlers.
  What the libraries decide becomes an input. `dial(id)` says whether `myPeer.call`
  returned a call, returned nothing, or threw. Timer expiries and the
  random gates become separate events.

The PeerJS-path handlers are also written as transitions on a value
(`Sessions.Registry`, with `Dial`, `Step` and `Run`). Each method's contract ties its new
state to that transition, and the lemmas are stated about the transitions. The room-list
rewrites are the functions `RoomList.Joined`, `Ticked` and `Departed`.

What the model shows about the code:

- `Sessions.Tracked` says every in-flight id has a `peers` entry. Every PeerJS-path
  event preserves it except the `close` of an answered call, which preserves it
  exactly when the caller is not in flight. `Sessions.StrandedPending` gives a run that
  leaves an id in flight with no entry. A late `close` of an earlier placed call deletes
  whatever entry is then stored under the id, whichever call it belongs to.
- The 15 s timeout clears only the in-flight mark. The `peers` entry stays, so the
  timeout does not by itself let a later discovery pass retry: the timer at
  public/js/room.js:583-590 deletes only the in-flight mark and never closes the call.
- The incoming-call handler dedups on `peers` only. It does not check the in-flight
  set or the own id.
- The server keeps an entry aged exactly 30000 ms (`> 30000` deletes). The client's
  tick drops an entry aged exactly 30000 ms (`< 30000` keeps). At join the client
  keeps entries younger than one hour.

## Model

| member | source | states |
|---|---|---|
| Strings.IncludesIffOccurs | server.js:58 | the substring test used for duplicate detection holds exactly when the userId occurs at some index of the stored peerId |
| Presence.TruthyPeerIds | server.js:84 | `peerIds` is no longer than `activeUsers`; each element is the truthy peerId of some listed user, and every listed user with a truthy peerId contributes it |
| Presence.Enumerate | server.js:79 | the keys of a table are listed each exactly once |
| Presence.ActiveReply | server.js:78-85 | the success reply names the room; `activeUsers` is every key of the swept table except the caller, each once; `peerIds` is their truthy peerIds, so there are no more peerIds than activeUsers |
| Presence.ListUsers | server.js:103-107 | one record per key, each carrying that key's peerId and its timestamp as `lastSeen` |
| Presence.PresenceStore.constructor | server.js:38 | the store starts with no rooms |
| Presence.PresenceStore.HandlePresence | server.js:41-86 | a missing or empty `room` or `userId` gives the 400 error and leaves `activeRooms` unchanged; otherwise only that room changes, to the table after eviction, upsert and sweep (created empty first if absent), and the reply lists exactly the other survivors and their truthy peerIds |
| Presence.PresenceStore.HandleRoomUsers | server.js:89-110 | an unknown room gives an empty list and is not created; a known room is swept (no other room changes) and listed one record per survivor |
| Presence.PresenceStore.EvictDuplicates | server.js:53-63 | the loop over `existingIds` leaves the room's table with exactly the non-duplicates and changes no other room |
| Presence.PresenceStore.SweepRoom | server.js:71-76 | the sweep leaves the room's table with exactly the entries with `now - timestamp <= 30000`, unchanged, and changes no other room |
| Presence.EvictionRemovesExactlyDuplicates | server.js:53-63 | eviction removes exactly the other ids whose stored peerId is defined and contains the userId; the caller's own entry and entries without a peerId survive; survivors are unchanged |
| Presence.RecordedTable | server.js:48-76 | after a valid presence request the caller's entry is `{peerId, now}`, no entry is stale, and another id survives exactly when it was neither a duplicate nor stale, keeping its old entry |
| Presence.SweepBoundary | server.js:73 | the sweep keeps an entry aged exactly 30000 ms and deletes one aged 30001 ms |
| Presence.ShortUserIdEvictsSeveral | server.js:58 | a one-letter userId contained in two other entries' peerIds evicts both |
| Sessions.Dial | public/js/room.js:536-654 | `connectToUser(p)` changes the registry only when `p` is not the own id, not in `peers`, not in flight and a call was placed; then `p` gets an outgoing entry and is marked in flight, and nothing else changes; a null call or a throw leaves both structures as they were |
| Sessions.DialEachOnlyAdds | public/js/room.js:343-351 | a discovery pass keeps every existing entry and in-flight mark; a new entry arises only for a listed id that is not the own id, was not connected and not in flight, and whose call was placed; it is an outgoing call and in flight; the in-flight invariant is preserved |
| Sessions.DialEachCallsEligible | public/js/room.js:343-351 | conversely, every listed id that is not the own id, was neither connected nor in flight, and whose call is placed ends the pass with an outgoing entry and in flight |
| Sessions.StepKeepsTracked | public/js/room.js:182-252 | every PeerJS-path event keeps "every in-flight id has an entry", except the answered call's `close`, which keeps it if and only if the caller is not in flight |
| Sessions.RunKeepsTracked | public/js/room.js:536-654 | any run of PeerJS-path events without an answered call's `close` keeps the invariant |
| Sessions.RunNeverSelfInFlight | public/js/room.js:538-540 | no run of any events marks the own id in flight, given that it starts out of flight |
| Sessions.RunNeverSelf | public/js/room.js:538-540 | in a run with no incoming call from itself, the client never holds an entry for its own id (nor has it in flight) |
| Sessions.StrandedPending | public/js/room.js:236-238 | a six-event run from the empty registry ends with an id in flight and no entry for it |
| Sessions.TimeoutDoesNotUnblock | public/js/room.js:583-590 | after the timeout, `p` is no longer in flight but `connectToUser(p)` is still a no-op; after `close` or `error` it places a new call |
| Sessions.AsWrittenTakesRoomSegment | public/js/room.js:184 | for a room id `a-b`, `call.peer.split('-')[1]` yields `b`, whatever the caller's userId |
| Sessions.AsWrittenMisreadsUuidRoom | public/js/room.js:184 | for room `9b1d-4b2d` and caller `k3j2` the extracted caller is `4b2d` |
| Sessions.AsWrittenMergesCallers | public/js/room.js:184-193 | in a room whose id is `a-b`, every caller is filed under `b`; once one caller is answered, a second, different caller leaves the registry unchanged |
| Sessions.AsWrittenRightForDashFreeRoom | public/js/room.js:184 | the split yields the caller's userId, the same key as the corrected extraction, when neither room id nor userId contains `-` |
| Sessions.CallerUserIdRoundTrip | public/js/room.js:144 | removing the `${roomId}-` prefix recovers the userId from every PeerJS id the client builds |
| RoomList.JoinedKeepsOneOwnEntry | public/js/room.js:338-365 | after the join step the list has exactly one own entry, last and stamped `now`, and it passes the one-hour filter; before it, in stored order, come exactly the other entries younger than one hour, each as many times as it was stored |
| RoomList.TickedKeepsOneOwnEntry | public/js/room.js:405-422 | after a tick the list has exactly one own entry, last and stamped `now`; before it, in stored order, come exactly the other entries younger than 30000 ms, each as many times as it was stored |
| RoomList.DepartedRemovesOnlyOwn | public/js/room.js:501-503 | leave and unload remove every own entry and keep every other entry, in order and as many times as it was stored |
| RoomList.TickDropsAtBoundary | public/js/room.js:418 | the tick drops another tab's entry aged exactly 30000 ms |
| Lists.FilterFullLength | public/js/room.js:417-422 | when the 30 s filter removes nothing its result is the list itself, so skipping the second write leaves the same value stored |
| Client.ServerCandidates | public/js/room.js:471-475 | the server poll's candidates are exactly the ids of listed users with a truthy peerId |
| Client.RoomClient.constructor | public/js/room.js:144-147 | a tab starts with no peers, nothing in flight, PeerJS id `${roomId}-${userId}` and no interval |
| Client.RoomClient.Reinitialize | public/js/room.js:147 | re-initialising PeerJS empties the in-flight set and keeps `peers` |
| Client.RoomClient.ConnectToUser | public/js/room.js:536-654 | the new registry is `Dial` of the old one |
| Client.RoomClient.OnCallStream | public/js/room.js:596-599 | `stream` removes `p` from the in-flight set only |
| Client.RoomClient.OnCallTimeout | public/js/room.js:583-590 | the timeout removes `p` from the in-flight set only; the `peers` entry stays |
| Client.RoomClient.OnCallClose | public/js/room.js:616-621 | `close` removes `p` from both the in-flight set and `peers` |
| Client.RoomClient.OnCallError | public/js/room.js:631-641 | `error` removes `p` from both the in-flight set and `peers` |
| Client.RoomClient.OnIncomingCall | public/js/room.js:182-252 | the call is filed under `call.peer.split('-')[1]`; when the PeerJS id has no `-` that key is `undefined`, the handler throws in `createVideoElement` before storing, and `peers` is unchanged; a key already in `peers` changes nothing; otherwise the key is stored as an answered call; the in-flight set is untouched |
| Client.RoomClient.OnIncomingClose | public/js/room.js:236-238 | the answered call's `close` removes the caller's entry and leaves the in-flight set |
| Client.RoomClient.ConnectNew | public/js/room.js:429-439 | calling every listed id that is not the own id, not in `peers` and not in flight gives the same registry as the discovery fold over the list |
| Client.RoomClient.CallStored | public/js/room.js:343-351 | calling `connectToUser` for each stored entry whose id is not the own id, in list order, gives the same registry as the discovery fold over the entries' ids |
| Client.RoomClient.JoinRoom | public/js/room.js:338-365 | every entry younger than one hour other than the own one is called in order, the stored list becomes `Joined`, and the interval starts |
| Client.RoomClient.OnStorageEvent | public/js/room.js:372-395 | every id of the written list passing the discovery guard is called; the stored list is the written value |
| Client.RoomClient.Tick | public/js/room.js:398-439 | a cleared interval or a destroyed peer changes nothing (and clears the interval); otherwise the stored list becomes `Ticked` and every id in it passing the guard is called |
| Client.RoomClient.OnServerUsers | public/js/room.js:462-481 | the poll response calls exactly the server candidates that pass the guard |
| Client.RoomClient.Leave | public/js/room.js:951-954 | the stored list loses the own entry |
| Client.RoomClient.Unload | public/js/room.js:499-504 | the interval stops and the stored list loses the own entry |
| Client.RoomClient.HandleUserConnected | public/js/room.js:689-692 | `user-connected` stores a new connection, overwriting any entry |
| Client.RoomClient.HandleOffer | public/js/room.js:758-764 | an offer creates a connection only when the sender has no entry |
| Client.RoomClient.HandleAnswer | public/js/room.js:796-800 | the handler can change no field (the method has no `modifies` clause), so `peers` is the same after it; whether the answer reaches a connection is decided by the sender having a stored connection |
| Client.RoomClient.HandleIceCandidate | public/js/room.js:747-751 | the handler can change no field (the method has no `modifies` clause), so `peers` is the same after it; whether the candidate reaches a connection is decided by the sender having a stored connection |
| Client.RoomClient.HandleUserDisconnected | public/js/room.js:722-737 | `user-disconnected` deletes the sender's stored connection, if any, and nothing else |

## Findings

| source | as written | input that shows it | evidently intended | confidence | as-written member | corrected member |
|---|---|---|---|---|---|---|
| public/js/room.js:184 | the caller's userId is taken as `call.peer.split('-')[1]` from the PeerJS id `${roomId}-${userId}` | room ids come from `uuidv4` (server.js:24) and contain `-`; for room `9b1d-4b2d` and caller `k3j2`, `"9b1d-4b2d-k3j2".split('-')[1]` is `4b2d` | the caller's userId, with the room id and its `-` removed | not executed | Sessions.AsWrittenTakesRoomSegment | Sessions.CallerUserIdRoundTrip |

`Client.RoomClient.OnIncomingCall` keeps the extraction as written (`Sessions.SplitSecondField`), so the client model shows its effect: in a uuid room all callers share one key, and `Sessions.AsWrittenMergesCallers` proves that a second caller is answered but not stored. `Sessions.CallerUserId` is the corrected extraction; `Sessions.CallerUserIdRoundTrip` proves it right for every room id, and `Sessions.AsWrittenRightForDashFreeRoom` proves the two agree when the room id has no `-`.

## Left out

- DOM and UI: video tiles, status text, peer counts, the clipboard and the buttons. They are browser output with no state the registry depends on.
- `Client.RoomClient.OnIncomingCall`: for a PeerJS id without `-` the model always leaves `peers` unchanged, because `createVideoElement(undefined)` throws (public/js/room.js:827). The one DOM state where it does not throw, a `video-undefined` element already on the page, is not modelled.
- Media capture, screen sharing and track replacement (`getUserMedia`, `getDisplayMedia`, `replaceTrack`): these are foreign browser APIs.
- PeerJS and RTCPeerConnection negotiation: offers, answers, ICE, `myPeer` reconnects and `myPeer.destroy()` on leave. Placing a call is the `dial` input. Library callbacks are method calls made by the environment.
- The socket.io relay on the server (server.js:126-153): room broadcast is library behaviour. The client-side Socket.IO wiring is left out too. Its handlers are modelled as methods.
- Express routing, CORS, static files and room-id generation (server.js:9-35).
- `fetch`, `JSON.parse` and `localStorage` are I/O. The stored room list is the field `roomList`, with no parse failures. `broadcastPresence` (the client side of `/api/presence`) is an HTTP request and is not modelled on the client.
- Timers and randomness: the 5 s interval, the 15 s timeout and the `Math.random` gates become method calls. The poll's response is the event `OnServerUsers`.
- Races between tabs writing the shared room list are concurrency and are not modelled. A write by another tab is the `OnStorageEvent` method.
- Query values are modelled as absent or one string. Repeated query keys (arrays) are not modelled. Nor are object keys that collide with JavaScript's prototype (`__proto__`, `constructor`).
- `Presence.Enumerate`: the key order of `Object.keys` (insertion order) is not modelled, so `activeUsers` and `users` are specified up to order.
- `Client.RoomClient.OnStorageEvent`: the event's `newValue` is taken to be both the value another tab wrote and the value now stored. A `null` value (key removed) is the empty list.
- The production-mode branch of `handleUserDisconnected` (public/js/room.js:726-730) is not modelled. That handler is registered only on the Socket.IO path.
- PeerJS's own `peerConnection` property on its call objects is not modelled. The Socket.IO handlers never see those objects, because the two paths run in different deployments.
- A re-initialised PeerJS peer runs `joinRoom` again and registers a second storage listener and interval. Only the reset of the in-flight set is modelled.
- Session states (pending, connecting, connected, closed) are not represented in the source. They appear only as the presence of an entry and of an in-flight mark, and no "no regression" property is stated.
