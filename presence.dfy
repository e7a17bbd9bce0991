/**
 * The server's presence store: `activeRooms`, a map from room name to a table
 * from userId to the last presence record, with the two HTTP handlers that
 * read and update it. `Date.now()` is the explicit parameter `now`, read once
 * per request.
 */
module Presence {
  import opened Wrappers
  import Strings

  /** Entries older than this (strictly) are evicted by a sweep. */
  const StaleAfterMs: int := 30000

  /** `{peerId, timestamp}`: `peerId` is the raw query value and may be absent. */
  datatype Entry = Entry(peerId: Option<string>, timestamp: int)

  /** One room's table, from userId to its entry. */
  type Room = map<string, Entry>

  /** The JSON body of `/api/presence`: the 400 error, or the room's other members. */
  datatype PresenceReply =
    | MissingParameters
    | Active(room: string, activeUsers: seq<string>, peerIds: seq<string>)

  /** One element of the `users` list of `/api/room/:roomId/users`. */
  datatype UserRecord = UserRecord(id: string, peerId: Option<string>, lastSeen: int)

  /** JavaScript truthiness of a string that may be `undefined`. */
  predicate Truthy(s: Option<string>)
  {
    s.Some? && s.value != ""
  }

  /** The sweep's deletion test, `now - timestamp > 30000`. */
  predicate Stale(e: Entry, now: int)
  {
    now - e.timestamp > StaleAfterMs
  }

  /** The duplicate test: another id whose stored peerId contains the caller's userId. */
  predicate IsDuplicate(t: Room, userId: string, id: string)
    requires id in t
  {
    id != userId && t[id].peerId.Some? && Strings.Includes(t[id].peerId.value, userId)
  }

  /** The table after duplicate eviction. */
  function WithoutDuplicates(t: Room, userId: string): Room
  {
    map id | id in t && !IsDuplicate(t, userId, id) :: t[id]
  }

  /** The table after the stale sweep. */
  function Swept(t: Room, now: int): Room
  {
    map id | id in t && !Stale(t[id], now) :: t[id]
  }

  /** The table after a valid presence request: eviction, upsert of the caller, sweep. */
  function Recorded(t: Room, userId: string, peerId: Option<string>, now: int): Room
  {
    Swept(WithoutDuplicates(t, userId)[userId := Entry(peerId, now)], now)
  }

  /** `s` lists every element of `keys` exactly once. */
  ghost predicate ListsExactly(s: seq<string>, keys: set<string>)
  {
    && (forall x :: x in s <==> x in keys)
    && (forall i, j :: 0 <= i < j < |s| ==> s[i] != s[j])
  }

  /** `users` has one record per key of `t`, carrying that key's entry. */
  ghost predicate Describes(users: seq<UserRecord>, t: Room)
  {
    && ListsExactly(Ids(users), t.Keys)
    && (forall k :: 0 <= k < |users| ==>
          && users[k].id in t
          && users[k].peerId == t[users[k].id].peerId
          && users[k].lastSeen == t[users[k].id].timestamp)
  }

  function Ids(users: seq<UserRecord>): seq<string>
  {
    seq(|users|, k requires 0 <= k < |users| => users[k].id)
  }

  /** `activeUsers.map(id => room[id].peerId).filter(Boolean)`. */
  function TruthyPeerIds(ids: seq<string>, t: Room): (r: seq<string>)
    requires forall id :: id in ids ==> id in t
    ensures |r| <= |ids|
    ensures forall p :: p in r ==> exists id :: id in ids && Truthy(t[id].peerId) && t[id].peerId.value == p
    ensures forall id :: id in ids && Truthy(t[id].peerId) ==> t[id].peerId.value in r
  {
    if ids == [] then []
    else
      var rest := TruthyPeerIds(ids[1..], t);
      var e := t[ids[0]];
      if Truthy(e.peerId) then [e.peerId.value] + rest else rest
  }

  /** `Object.keys` of a table: every key once (insertion order is not modelled). */
  method Enumerate(keys: set<string>) returns (s: seq<string>)
    ensures ListsExactly(s, keys)
  {
    s := [];
    var rest := keys;
    while rest != {}
      invariant rest <= keys
      invariant forall x :: x in s <==> x in keys && x !in rest
      invariant forall i, j :: 0 <= i < j < |s| ==> s[i] != s[j]
      decreases rest
    {
      var x :| x in rest;
      s := s + [x];
      rest := rest - {x};
    }
  }

  /** The success body of `/api/presence` for a swept table `t`. */
  method ActiveReply(room: string, t: Room, userId: string) returns (reply: PresenceReply)
    ensures reply.Active? && reply.room == room
    ensures ListsExactly(reply.activeUsers, t.Keys - {userId})
    ensures forall id :: id in reply.activeUsers ==> id in t
    ensures reply.peerIds == TruthyPeerIds(reply.activeUsers, t)
    ensures |reply.peerIds| <= |reply.activeUsers|
  {
    var others := Enumerate(t.Keys - {userId});
    reply := Active(room, others, TruthyPeerIds(others, t));
  }

  /** The `users` body of `/api/room/:roomId/users` for a swept table `t`. */
  method ListUsers(t: Room) returns (users: seq<UserRecord>)
    ensures Describes(users, t)
  {
    var ids := Enumerate(t.Keys);
    users := seq(|ids|, k requires 0 <= k < |ids| => UserRecord(ids[k], t[ids[k]].peerId, t[ids[k]].timestamp));
    assert Ids(users) == ids;
  }

  class PresenceStore {
    /** `activeRooms`. Rooms are created on first presence and never deleted. */
    var rooms: map<string, Room>

    constructor ()
      ensures rooms == map[]
    {
      rooms := map[];
    }

    /** A room's table, empty when the room does not exist. */
    function RoomOf(name: string): Room
      reads this
    {
      if name in rooms then rooms[name] else map[]
    }

    /** The handler of `GET /api/presence?room=&userId=&peerId=`. */
    method HandlePresence(room: Option<string>, userId: Option<string>, peerId: Option<string>, now: int)
      returns (reply: PresenceReply)
      modifies this
      ensures !Truthy(room) || !Truthy(userId) ==> reply == MissingParameters && rooms == old(rooms)
      ensures Truthy(room) && Truthy(userId) ==>
        && rooms == old(rooms)[room.value := Recorded(old(RoomOf(room.value)), userId.value, peerId, now)]
        && reply.Active? && reply.room == room.value
        && ListsExactly(reply.activeUsers, rooms[room.value].Keys - {userId.value})
        && reply.peerIds == TruthyPeerIds(reply.activeUsers, rooms[room.value])
    {
      if !Truthy(room) || !Truthy(userId) {
        return MissingParameters;
      }
      var name, caller := room.value, userId.value;
      ghost var t0 := RoomOf(name);
      if name !in rooms {
        rooms := rooms[name := map[]];
      }
      assert rooms == old(rooms)[name := t0];
      EvictDuplicates(name, caller);
      ghost var t1 := WithoutDuplicates(t0, caller)[caller := Entry(peerId, now)];
      rooms := rooms[name := rooms[name][caller := Entry(peerId, now)]];
      assert rooms == old(rooms)[name := t1];
      SweepRoom(name, now);
      assert rooms == old(rooms)[name := Recorded(t0, caller, peerId, now)];
      reply := ActiveReply(name, rooms[name], caller);
    }

    /** The handler of `GET /api/room/:roomId/users`. */
    method HandleRoomUsers(roomId: string, now: int) returns (users: seq<UserRecord>)
      modifies this
      ensures roomId !in old(rooms) ==> users == [] && rooms == old(rooms)
      ensures roomId in old(rooms) ==>
        && rooms == old(rooms)[roomId := Swept(old(rooms[roomId]), now)]
        && Describes(users, rooms[roomId])
    {
      if roomId !in rooms {
        return [];
      }
      SweepRoom(roomId, now);
      users := ListUsers(rooms[roomId]);
    }

    /** The loop over `existingIds` that deletes duplicates of `userId`. */
    method EvictDuplicates(name: string, userId: string)
      requires name in rooms
      modifies this
      ensures rooms == old(rooms)[name := WithoutDuplicates(old(rooms[name]), userId)]
    {
      ghost var before := rooms[name];
      var existingIds := rooms[name].Keys;
      while existingIds != {}
        invariant name in rooms
        invariant existingIds <= before.Keys
        invariant rooms == old(rooms)[name := rooms[name]]
        invariant forall id :: id in rooms[name] <==>
                    id in before && (id in existingIds || !IsDuplicate(before, userId, id))
        invariant forall id :: id in rooms[name] ==> rooms[name][id] == before[id]
        decreases existingIds
      {
        var id :| id in existingIds;
        var e := rooms[name][id];
        if id != userId && e.peerId.Some? && Strings.Includes(e.peerId.value, userId) {
          rooms := rooms[name := rooms[name] - {id}];
        }
        existingIds := existingIds - {id};
      }
      assert rooms[name] == WithoutDuplicates(before, userId);
    }

    /** The `forEach` that deletes every entry with `now - timestamp > 30000`. */
    method SweepRoom(name: string, now: int)
      requires name in rooms
      modifies this
      ensures rooms == old(rooms)[name := Swept(old(rooms[name]), now)]
    {
      ghost var before := rooms[name];
      var ids := rooms[name].Keys;
      while ids != {}
        invariant name in rooms
        invariant ids <= before.Keys
        invariant rooms == old(rooms)[name := rooms[name]]
        invariant forall id :: id in rooms[name] <==> id in before && (id in ids || !Stale(before[id], now))
        invariant forall id :: id in rooms[name] ==> rooms[name][id] == before[id]
        decreases ids
      {
        var id :| id in ids;
        if now - rooms[name][id].timestamp > StaleAfterMs {
          rooms := rooms[name := rooms[name] - {id}];
        }
        ids := ids - {id};
      }
      assert rooms[name] == Swept(before, now);
    }
  }

  // ----- Properties of the handlers' table updates -----

  /** Eviction removes exactly the duplicates: never the caller, never an entry without a peerId. */
  lemma EvictionRemovesExactlyDuplicates(t: Room, userId: string)
    ensures forall id :: id in t && id !in WithoutDuplicates(t, userId) <==> id in t && IsDuplicate(t, userId, id)
    ensures forall id :: id in t && (id == userId || t[id].peerId.None?) ==> id in WithoutDuplicates(t, userId)
    ensures forall id :: id in WithoutDuplicates(t, userId) ==> id in t && WithoutDuplicates(t, userId)[id] == t[id]
  {
  }

  /** After a valid presence request the caller holds a fresh entry, no entry is stale,
      and every other surviving entry is the old one, kept because it was neither a
      duplicate nor stale. */
  lemma RecordedTable(t: Room, userId: string, peerId: Option<string>, now: int)
    ensures var r := Recorded(t, userId, peerId, now);
      && userId in r && r[userId] == Entry(peerId, now)
      && (forall id :: id in r ==> !Stale(r[id], now))
      && (forall id :: id in r && id != userId ==> id in t && r[id] == t[id])
      && (forall id :: id in t && id != userId ==>
            (id in r <==> !IsDuplicate(t, userId, id) && !Stale(t[id], now)))
  {
  }

  /** The sweep keeps an entry at exactly 30000 ms and drops one at 30001 ms. */
  lemma SweepBoundary(id: string, p: Option<string>, now: int)
    ensures id in Swept(map[id := Entry(p, now - 30000)], now)
    ensures id !in Swept(map[id := Entry(p, now - 30001)], now)
  {
  }

  /** A short userId contained in several stored peerIds evicts all of them. */
  lemma ShortUserIdEvictsSeveral()
    ensures WithoutDuplicates(map["x" := Entry(Some("r-ab"), 0), "y" := Entry(Some("r-ba"), 0)], "a") == map[]
  {
  }
}
