/**
 * The client's PeerJS-path bookkeeping as values: the `peers` map from remote
 * userId to the stored call or connection, and `window.pendingConnections`,
 * the set of userIds with a call in flight. Each handler of the client is one
 * transition here; the RoomClient class applies them in place.
 */
module Sessions {
  import opened Wrappers

  /** What `peers[id]` holds: a call this client placed, a call it answered,
      or a Socket.IO-path `{ peerConnection }` record. */
  datatype Link = Outgoing | Answered | Rtc

  /** What happened inside the `try` of `connectToUser`: `myPeer.call` returned a call,
      returned nothing, or something threw. */
  datatype CallOutcome = Placed | NoCall | Threw

  datatype Registry = Registry(peers: map<string, Link>, pending: set<string>)

  /** Every in-flight id has a `peers` entry. */
  predicate Tracked(r: Registry)
  {
    r.pending <= r.peers.Keys
  }

  /** `connectToUser(p)` run by client `self`. */
  function Dial(r: Registry, self: string, p: string, o: CallOutcome): (r': Registry)
    ensures r' != r <==> p != self && p !in r.peers && p !in r.pending && o == Placed
    ensures r' != r ==> r'.peers == r.peers[p := Outgoing] && r'.pending == r.pending + {p}
  {
    if p == self || p in r.peers || p in r.pending then r
    else match o
      case Placed => Registry(r.peers[p := Outgoing], r.pending + {p})
      case NoCall => Registry(r.peers, r.pending + {p} - {p})
      case Threw => Registry(r.peers, r.pending + {p} - {p})
  }

  /** `connectToUser` applied to each id of `ids` in turn, `dial` giving each call's outcome. */
  function DialEach(r: Registry, self: string, ids: seq<string>, dial: string -> CallOutcome): Registry
    decreases |ids|
  {
    if ids == [] then r
    else
      var last := |ids| - 1;
      Dial(DialEach(r, self, ids[..last], dial), self, ids[last], dial(ids[last]))
  }

  lemma DialEachSnoc(r: Registry, self: string, ids: seq<string>, id: string, dial: string -> CallOutcome)
    ensures DialEach(r, self, ids + [id], dial) == Dial(DialEach(r, self, ids, dial), self, id, dial(id))
  {
  }

  /** A discovery pass only adds: existing entries and in-flight marks stay, and every new
      entry is an outgoing call to a listed id other than `self` that was neither connected
      nor in flight, and is now in flight. */
  lemma {:induction false} DialEachOnlyAdds(r: Registry, self: string, ids: seq<string>, dial: string -> CallOutcome)
    ensures var r' := DialEach(r, self, ids, dial);
      && (forall k :: k in r.peers ==> k in r'.peers && r'.peers[k] == r.peers[k])
      && r.pending <= r'.pending
      && r'.pending - r.pending == r'.peers.Keys - r.peers.Keys
      && (forall k :: k in r'.peers && k !in r.peers ==>
            k in ids && k != self && k !in r.pending && dial(k) == Placed && r'.peers[k] == Outgoing)
      && (Tracked(r) ==> Tracked(r'))
    decreases |ids|
  {
    if ids != [] {
      var last := |ids| - 1;
      DialEachOnlyAdds(r, self, ids[..last], dial);
      var mid := DialEach(r, self, ids[..last], dial);
      assert forall k :: k in ids[..last] ==> k in ids;
      if DialEach(r, self, ids, dial) != mid {
        var r' := DialEach(r, self, ids, dial);
        assert ids[last] !in mid.peers && ids[last] !in mid.pending;
        assert r'.pending - r.pending == (mid.pending - r.pending) + {ids[last]};
        assert r'.peers.Keys - r.peers.Keys == (mid.peers.Keys - r.peers.Keys) + {ids[last]};
      }
    }
  }

  /** A discovery pass calls every listed id it may: one other than `self`, neither
      connected nor in flight, whose call is placed ends up an outgoing call in flight. */
  lemma {:induction false} DialEachCallsEligible(r: Registry, self: string, ids: seq<string>, dial: string -> CallOutcome)
    ensures var r' := DialEach(r, self, ids, dial);
      forall k :: k in ids && k != self && k !in r.peers && k !in r.pending && dial(k) == Placed ==>
        k in r'.peers && r'.peers[k] == Outgoing && k in r'.pending
    decreases |ids|
  {
    if ids != [] {
      var last := |ids| - 1;
      DialEachCallsEligible(r, self, ids[..last], dial);
      DialEachOnlyAdds(r, self, ids[..last], dial);
      var mid, r' := DialEach(r, self, ids[..last], dial), DialEach(r, self, ids, dial);
      forall k | k in ids && k != self && k !in r.peers && k !in r.pending && dial(k) == Placed
        ensures k in r'.peers && r'.peers[k] == Outgoing && k in r'.pending
      {
        if k !in ids[..last] {
          // Not listed earlier, so the earlier calls left `k` unconnected and not in flight.
          assert k == ids[last] && k !in mid.peers;
          assert k !in mid.peers.Keys - r.peers.Keys;
          assert k !in mid.pending - r.pending;
        }
      }
    }
  }

  /** The PeerJS-path events, each one handler of room.js. */
  datatype Event =
    | Connect(id: string, outcome: CallOutcome)  // connectToUser(id)
    | Stream(id: string)                         // the placed call's 'stream'
    | Close(id: string)                          // the placed call's 'close'
    | Error(id: string)                          // the placed call's 'error'
    | Timeout(id: string)                        // the 15 s timer of the placed call
    | IncomingCall(id: string)                   // myPeer 'call' from caller id
    | IncomingClose(id: string)                  // the answered call's 'close'

  function Step(r: Registry, self: string, e: Event): Registry
  {
    match e
    case Connect(p, o) => Dial(r, self, p, o)
    case Stream(p) => Registry(r.peers, r.pending - {p})
    case Timeout(p) => if p in r.pending then Registry(r.peers, r.pending - {p}) else r
    case Close(p) => Registry(r.peers - {p}, r.pending - {p})
    case Error(p) => Registry(r.peers - {p}, r.pending - {p})
    case IncomingCall(c) => if c in r.peers then r else Registry(r.peers[c := Answered], r.pending)
    case IncomingClose(c) => Registry(r.peers - {c}, r.pending)
  }

  function Run(r: Registry, self: string, es: seq<Event>): Registry
    decreases |es|
  {
    if es == [] then r else Run(Step(r, self, es[0]), self, es[1..])
  }

  /** Every event except closing an answered call keeps in-flight ids tracked; closing an
      answered call keeps them tracked exactly when the caller is not in flight. */
  lemma StepKeepsTracked(r: Registry, self: string, e: Event)
    requires Tracked(r)
    ensures !e.IncomingClose? ==> Tracked(Step(r, self, e))
    ensures e.IncomingClose? ==> (Tracked(Step(r, self, e)) <==> e.id !in r.pending)
  {
  }

  lemma {:induction false} RunKeepsTracked(r: Registry, self: string, es: seq<Event>)
    requires Tracked(r)
    requires forall k :: 0 <= k < |es| ==> !es[k].IncomingClose?
    ensures Tracked(Run(r, self, es))
    decreases |es|
  {
    if es != [] {
      StepKeepsTracked(r, self, es[0]);
      RunKeepsTracked(Step(r, self, es[0]), self, es[1..]);
    }
  }

  /** No run puts the client's own id in flight: `connectToUser` refuses its own id. */
  lemma {:induction false} RunNeverSelfInFlight(r: Registry, self: string, es: seq<Event>)
    requires self !in r.pending
    ensures self !in Run(r, self, es).pending
    decreases |es|
  {
    if es != [] {
      RunNeverSelfInFlight(Step(r, self, es[0]), self, es[1..]);
    }
  }

  /** Without an incoming call from itself the client never holds an entry for its own id
      (and, as in every run, never has it in flight). */
  lemma {:induction false} RunNeverSelf(r: Registry, self: string, es: seq<Event>)
    requires self !in r.peers && self !in r.pending
    requires forall k :: 0 <= k < |es| ==> es[k] != IncomingCall(self)
    ensures self !in Run(r, self, es).peers && self !in Run(r, self, es).pending
    decreases |es|
  {
    if es != [] {
      RunNeverSelf(Step(r, self, es[0]), self, es[1..]);
    }
  }

  /** An id can be in flight with no `peers` entry: a late 'close' of an earlier placed call
      removes the answered call that replaced it, and that answered call's own 'close' then
      removes the new placed call's entry while leaving its in-flight mark. */
  lemma StrandedPending()
    ensures Run(Registry(map[], {}), "me", [Connect("b", Placed), Error("b"), IncomingCall("b"),
              Close("b"), Connect("b", Placed), IncomingClose("b")]) == Registry(map[], {"b"})
    ensures !Tracked(Registry(map[], {"b"}))
  {
  }

  /** The timeout clears only the in-flight mark: the entry stays, so a later
      `connectToUser` for the same id is still refused. 'close' and 'error' remove the
      entry, so a later `connectToUser` places a new call. */
  lemma TimeoutDoesNotUnblock(r: Registry, self: string, p: string, o: CallOutcome)
    requires p in r.peers
    ensures p !in Step(r, self, Timeout(p)).pending
    ensures Dial(Step(r, self, Timeout(p)), self, p, o) == Step(r, self, Timeout(p))
    ensures p != self ==> Dial(Step(r, self, Close(p)), self, p, Placed).peers[p] == Outgoing
    ensures p != self ==> Dial(Step(r, self, Error(p)), self, p, Placed).peers[p] == Outgoing
  {
  }

  // ----- The caller's userId, from an incoming call's PeerJS id `${roomId}-${userId}` -----

  /** The text after the first '-', or None when there is none. */
  function AfterFirstDash(s: string): Option<string>
  {
    if s == [] then None else if s[0] == '-' then Some(s[1..]) else AfterFirstDash(s[1..])
  }

  /** The text before the first '-' (all of `s` when there is none). */
  function BeforeFirstDash(s: string): string
  {
    if s == [] || s[0] == '-' then [] else [s[0]] + BeforeFirstDash(s[1..])
  }

  /** `s.split('-')[1]` as room.js:184 computes it: None stands for `undefined`. */
  function SplitSecondField(s: string): Option<string>
  {
    match AfterFirstDash(s)
    case None => None
    case Some(rest) => Some(BeforeFirstDash(rest))
  }

  predicate DashFree(s: string)
  {
    forall i :: 0 <= i < |s| ==> s[i] != '-'
  }

  lemma {:induction false} AfterFirstDashOf(a: string, rest: string)
    requires DashFree(a)
    ensures AfterFirstDash(a + "-" + rest) == Some(rest)
  {
    if a != [] {
      assert (a + "-" + rest)[1..] == a[1..] + "-" + rest;
      AfterFirstDashOf(a[1..], rest);
    } else {
      assert a + "-" + rest == "-" + rest;
    }
  }

  lemma {:induction false} BeforeFirstDashOf(b: string, rest: string)
    requires DashFree(b)
    ensures BeforeFirstDash(b + "-" + rest) == b && BeforeFirstDash(b) == b
  {
    if b != [] {
      assert (b + "-" + rest)[1..] == b[1..] + "-" + rest;
      BeforeFirstDashOf(b[1..], rest);
    } else {
      assert b + "-" + rest == "-" + rest;
    }
  }

  /** With a room id made of two dash-free parts `a-b`, the split yields `b`, a piece of the
      room id, for every caller. */
  lemma AsWrittenTakesRoomSegment(a: string, b: string, userId: string)
    requires DashFree(a) && DashFree(b)
    ensures SplitSecondField(a + "-" + b + "-" + userId) == Some(b)
  {
    assert a + "-" + b + "-" + userId == a + "-" + (b + "-" + userId);
    AfterFirstDashOf(a, b + "-" + userId);
    BeforeFirstDashOf(b, userId);
  }

  /** A uuid-style room id gives the wrong caller. */
  lemma AsWrittenMisreadsUuidRoom()
    ensures SplitSecondField("9b1d" + "-" + "4b2d" + "-" + "k3j2") == Some("4b2d")
  {
    AsWrittenTakesRoomSegment("9b1d", "4b2d", "k3j2");
  }

  /** In a room whose id is `a-b`, every caller is filed under `b`: once one caller is
      answered, a second, different caller changes nothing (it is answered and dropped). */
  lemma AsWrittenMergesCallers(r: Registry, self: string, a: string, b: string, u1: string, u2: string)
    requires DashFree(a) && DashFree(b)
    ensures SplitSecondField(a + "-" + b + "-" + u1) == Some(b) && SplitSecondField(a + "-" + b + "-" + u2) == Some(b)
    ensures var r1 := Step(r, self, IncomingCall(b));
      b in r1.peers && Step(r1, self, IncomingCall(b)) == r1
  {
    AsWrittenTakesRoomSegment(a, b, u1);
    AsWrittenTakesRoomSegment(a, b, u2);
  }

  /** The split is right only when the room id has no '-'; then it agrees with the
      corrected extraction. */
  lemma AsWrittenRightForDashFreeRoom(roomId: string, userId: string)
    requires DashFree(roomId) && DashFree(userId)
    ensures SplitSecondField(roomId + "-" + userId) == Some(userId)
    ensures SplitSecondField(roomId + "-" + userId) == Some(CallerUserId(roomId, roomId + "-" + userId))
  {
    AfterFirstDashOf(roomId, userId);
    BeforeFirstDashOf(userId, []);
  }

  /** The caller's userId: the PeerJS id with this room's `${roomId}-` prefix removed
      (the whole id when the prefix is absent). */
  function CallerUserId(roomId: string, peer: string): string
  {
    var prefix := roomId + "-";
    if prefix <= peer then peer[|prefix|..] else peer
  }

  /** The corrected extraction inverts the client's PeerJS id for every room and userId. */
  lemma CallerUserIdRoundTrip(roomId: string, userId: string)
    ensures CallerUserId(roomId, roomId + "-" + userId) == userId
  {
  }
}
