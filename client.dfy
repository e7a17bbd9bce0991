/**
 * One browser tab in a room (room.js): the `peers` map, the in-flight set
 * `window.pendingConnections`, the room list in localStorage and the
 * discovery interval, updated in place by the PeerJS-path handlers, the
 * discovery sources and the Socket.IO-path handlers. Library results are
 * inputs: `dial(id)` says what `myPeer.call` did for `id`.
 */
module Client {
  import Wrappers
  import Lists
  import Presence
  import Sessions
  import RoomList

  /** The ids a `/api/room/:roomId/users` response leads the tick to call: users with a truthy peerId. */
  function ServerCandidates(users: seq<Presence.UserRecord>): (ids: seq<string>)
    ensures forall id :: id in ids ==> exists u :: u in users && u.id == id && Presence.Truthy(u.peerId)
    ensures forall u :: u in users && Presence.Truthy(u.peerId) ==> u.id in ids
  {
    if users == [] then []
    else
      var rest := ServerCandidates(users[1..]);
      if Presence.Truthy(users[0].peerId) then [users[0].id] + rest else rest
  }

  class RoomClient {
    const roomId: string
    const userId: string
    /** `myPeer.id`, the PeerJS id `${roomId}-${userId}`. */
    const fullPeerId: string
    var peers: map<string, Sessions.Link>
    var pending: set<string>
    /** The value stored under `room-${roomId}`. */
    var roomList: seq<RoomList.StoredPeer>
    /** Whether the 5 s discovery interval is running. */
    var polling: bool

    /** The registry as a value. */
    function Snapshot(): Sessions.Registry
      reads this
    {
      Sessions.Registry(peers, pending)
    }

    /** Page load followed by `initializePeerJS`: no peers, nothing in flight. */
    constructor (roomId: string, userId: string, stored: seq<RoomList.StoredPeer>)
      ensures this.roomId == roomId && this.userId == userId && fullPeerId == roomId + "-" + userId
      ensures peers == map[] && pending == {} && roomList == stored && !polling
    {
      this.roomId := roomId;
      this.userId := userId;
      fullPeerId := roomId + "-" + userId;
      peers := map[];
      pending := {};
      roomList := stored;
      polling := false;
    }

    /** `initializePeerJS` run again after the peer was destroyed: the in-flight set is reset. */
    method Reinitialize()
      modifies this`pending
      ensures pending == {} && Sessions.Tracked(Snapshot())
    {
      pending := {};
    }

    // ----- connectToUser and the events of the call it places -----

    method ConnectToUser(p: string, outcome: Sessions.CallOutcome)
      modifies this`peers, this`pending
      ensures Snapshot() == Sessions.Dial(old(Snapshot()), userId, p, outcome)
    {
      if p == userId {
        return;
      }
      if p in peers {
        return;
      }
      if p in pending {
        return;
      }
      pending := pending + {p};
      match outcome
      case NoCall =>
        pending := pending - {p};
      case Threw =>
        pending := pending - {p};
      case Placed =>
        peers := peers[p := Sessions.Outgoing];
    }

    method OnCallStream(p: string)
      modifies this`pending
      ensures peers == old(peers) && pending == old(pending) - {p}
      ensures Snapshot() == Sessions.Step(old(Snapshot()), userId, Sessions.Stream(p))
    {
      pending := pending - {p};
    }

    method OnCallTimeout(p: string)
      modifies this`pending
      ensures peers == old(peers) && pending == old(pending) - {p}
      ensures Snapshot() == Sessions.Step(old(Snapshot()), userId, Sessions.Timeout(p))
    {
      if p in pending {
        pending := pending - {p};
      }
    }

    method OnCallClose(p: string)
      modifies this`peers, this`pending
      ensures peers == old(peers) - {p} && pending == old(pending) - {p}
      ensures Snapshot() == Sessions.Step(old(Snapshot()), userId, Sessions.Close(p))
    {
      pending := pending - {p};
      peers := peers - {p};
    }

    method OnCallError(p: string)
      modifies this`peers, this`pending
      ensures peers == old(peers) - {p} && pending == old(pending) - {p}
      ensures Snapshot() == Sessions.Step(old(Snapshot()), userId, Sessions.Error(p))
    {
      pending := pending - {p};
      peers := peers - {p};
    }

    // ----- Incoming calls -----

    /** myPeer's 'call' event for a call from PeerJS id `callPeer`; returns the key the
        call is filed under, `callPeer.split('-')[1]` as room.js computes it. When the id
        has no '-' that key is `undefined`: `peers[undefined]` is unset, so the handler
        goes on to `createVideoElement(undefined)`, which throws before the call is stored. */
    method OnIncomingCall(callPeer: string) returns (caller: Wrappers.Option<string>)
      modifies this`peers
      ensures caller == Sessions.SplitSecondField(callPeer)
      ensures caller.None? ==> peers == old(peers)
      ensures caller.Some? && caller.value in old(peers) ==> peers == old(peers)
      ensures caller.Some? && caller.value !in old(peers) ==> peers == old(peers)[caller.value := Sessions.Answered]
      ensures pending == old(pending)
      ensures caller.Some? ==> Snapshot() == Sessions.Step(old(Snapshot()), userId, Sessions.IncomingCall(caller.value))
    {
      caller := Sessions.SplitSecondField(callPeer);
      if caller.None? || caller.value in peers {
        return;
      }
      peers := peers[caller.value := Sessions.Answered];
    }

    /** The answered call's 'close': only the `peers` entry goes. */
    method OnIncomingClose(caller: string)
      modifies this`peers
      ensures peers == old(peers) - {caller} && pending == old(pending)
      ensures Snapshot() == Sessions.Step(old(Snapshot()), userId, Sessions.IncomingClose(caller))
    {
      peers := peers - {caller};
    }

    // ----- Discovery -----

    /** Calls `connectToUser` for each id of `ids` that is not the own id, not in `peers`
        and not in flight: the guard shared by the storage, tick and server sources. */
    method ConnectNew(ids: seq<string>, dial: string -> Sessions.CallOutcome)
      modifies this`peers, this`pending
      ensures Snapshot() == Sessions.DialEach(old(Snapshot()), userId, ids, dial)
    {
      var i := 0;
      while i < |ids|
        invariant 0 <= i <= |ids|
        invariant Snapshot() == Sessions.DialEach(old(Snapshot()), userId, ids[..i], dial)
      {
        var id := ids[i];
        if id != userId && id !in peers && id !in pending {
          ConnectToUser(id, dial(id));
        }
        Sessions.DialEachSnoc(old(Snapshot()), userId, ids[..i], id, dial);
        assert ids[..i + 1] == ids[..i] + [id];
        i := i + 1;
      }
      assert ids[..i] == ids;
    }

    /** `joinRoom`'s loop over the young entries: `connectToUser` for each id other than the own. */
    method CallStored(entries: seq<RoomList.StoredPeer>, dial: string -> Sessions.CallOutcome)
      modifies this`peers, this`pending
      ensures Snapshot() == Sessions.DialEach(old(Snapshot()), userId, RoomList.Ids(entries), dial)
    {
      var i := 0;
      while i < |entries|
        invariant 0 <= i <= |entries|
        invariant Snapshot() == Sessions.DialEach(old(Snapshot()), userId, RoomList.Ids(entries[..i]), dial)
      {
        var id := entries[i].id;
        if id != userId {
          ConnectToUser(id, dial(id));
        }
        Sessions.DialEachSnoc(old(Snapshot()), userId, RoomList.Ids(entries[..i]), id, dial);
        assert RoomList.Ids(entries[..i + 1]) == RoomList.Ids(entries[..i]) + [id];
        i := i + 1;
      }
      assert entries[..i] == entries;
    }

    /** `joinRoom`'s localStorage part: call every entry younger than one hour, then
        replace the own entry with a fresh one and start the interval. */
    method JoinRoom(now: int, dial: string -> Sessions.CallOutcome)
      modifies this
      ensures Snapshot() == Sessions.DialEach(old(Snapshot()), userId,
                RoomList.Ids(RoomList.JoinCandidates(old(roomList), now)), dial)
      ensures roomList == RoomList.Joined(old(roomList), userId, fullPeerId, now)
      ensures polling
    {
      var roomPeers := Lists.Filter(roomList, RoomList.FreshWithin(now, RoomList.JoinWindowMs));
      CallStored(roomPeers, dial);
      roomPeers := Lists.Filter(roomPeers, RoomList.NotMine(userId));
      roomPeers := roomPeers + [RoomList.StoredPeer(userId, now, fullPeerId)];
      roomList := roomPeers;
      polling := true;
    }

    /** The 'storage' event raised by another tab writing `newValue` to the room list. */
    method OnStorageEvent(newValue: seq<RoomList.StoredPeer>, dial: string -> Sessions.CallOutcome)
      modifies this
      ensures roomList == newValue && polling == old(polling)
      ensures Snapshot() == Sessions.DialEach(old(Snapshot()), userId, RoomList.Ids(newValue), dial)
    {
      roomList := newValue;
      ConnectNew(RoomList.Ids(newValue), dial);
    }

    /** One run of the 5 s interval. `peerDestroyed` is `!myPeer || myPeer.destroyed`. */
    method Tick(now: int, peerDestroyed: bool, dial: string -> Sessions.CallOutcome)
      modifies this
      ensures !old(polling) || peerDestroyed ==>
        roomList == old(roomList) && Snapshot() == old(Snapshot()) && !polling
      ensures old(polling) && !peerDestroyed ==>
        && polling
        && roomList == RoomList.Ticked(old(roomList), userId, fullPeerId, now)
        && Snapshot() == Sessions.DialEach(old(Snapshot()), userId, RoomList.Ids(roomList), dial)
    {
      if !polling || peerDestroyed {
        polling := false;
        return;
      }
      var currentPeers := Lists.Filter(roomList, RoomList.NotMine(userId));
      currentPeers := currentPeers + [RoomList.StoredPeer(userId, now, fullPeerId)];
      roomList := currentPeers;
      var oldPeers := currentPeers;
      currentPeers := Lists.Filter(currentPeers, RoomList.FreshWithin(now, RoomList.TickWindowMs));
      if |oldPeers| != |currentPeers| {
        roomList := currentPeers;
      } else {
        Lists.FilterFullLength(oldPeers, RoomList.FreshWithin(now, RoomList.TickWindowMs));
      }
      ConnectNew(RoomList.Ids(currentPeers), dial);
    }

    /** The response of the tick's `/api/room/:roomId/users` poll. */
    method OnServerUsers(users: seq<Presence.UserRecord>, dial: string -> Sessions.CallOutcome)
      modifies this`peers, this`pending
      ensures Snapshot() == Sessions.DialEach(old(Snapshot()), userId, ServerCandidates(users), dial)
    {
      ConnectNew(ServerCandidates(users), dial);
    }

    /** The leave button's update of the room list. */
    method Leave()
      modifies this`roomList
      ensures roomList == RoomList.Departed(old(roomList), userId)
    {
      roomList := Lists.Filter(roomList, RoomList.NotMine(userId));
    }

    /** 'beforeunload': stop the interval and remove the own entry. */
    method Unload()
      modifies this`roomList, this`polling
      ensures !polling && roomList == RoomList.Departed(old(roomList), userId)
    {
      polling := false;
      roomList := Lists.Filter(roomList, RoomList.NotMine(userId));
    }

    // ----- Socket.IO path -----

    /** 'user-connected': a new connection replaces whatever was stored. */
    method HandleUserConnected(newUserId: string)
      modifies this`peers
      ensures peers == old(peers)[newUserId := Sessions.Rtc]
    {
      peers := peers[newUserId := Sessions.Rtc];
    }

    /** 'offer': a connection is created only when none is stored. */
    method HandleOffer(fromUserId: string)
      modifies this`peers
      ensures fromUserId in old(peers) ==> peers == old(peers)
      ensures fromUserId !in old(peers) ==> peers == old(peers)[fromUserId := Sessions.Rtc]
    {
      if fromUserId !in peers {
        peers := peers[fromUserId := Sessions.Rtc];
      }
    }

    /** 'answer': applied to the stored connection, if there is one; nothing is stored. */
    method HandleAnswer(fromUserId: string) returns (applied: bool)
      ensures applied <==> fromUserId in peers && peers[fromUserId].Rtc?
    {
      applied := fromUserId in peers && peers[fromUserId].Rtc?;
    }

    /** 'ice-candidate': added to the stored connection, if there is one; nothing is stored. */
    method HandleIceCandidate(fromUserId: string) returns (applied: bool)
      ensures applied <==> fromUserId in peers && peers[fromUserId].Rtc?
    {
      applied := fromUserId in peers && peers[fromUserId].Rtc?;
    }

    /** 'user-disconnected': the stored connection is closed and removed. */
    method HandleUserDisconnected(leftUserId: string)
      modifies this`peers
      ensures leftUserId in old(peers) && old(peers)[leftUserId].Rtc? ==> peers == old(peers) - {leftUserId}
      ensures !(leftUserId in old(peers) && old(peers)[leftUserId].Rtc?) ==> peers == old(peers)
    {
      if leftUserId in peers && peers[leftUserId].Rtc? {
        peers := peers - {leftUserId};
      }
    }
  }
}
