/**
 * The room list the client keeps in localStorage under `room-${roomId}`:
 * one record per tab that joined, rewritten at join, on every tick and on
 * leave. `Date.now()` is the parameter `now`.
 */
module RoomList {
  import Lists

  /** Entries at least this old are dropped when joining. */
  const JoinWindowMs: int := 3600000
  /** Entries at least this old are dropped on each tick. */
  const TickWindowMs: int := 30000

  datatype StoredPeer = StoredPeer(id: string, timestamp: int, fullPeerId: string)

  /** The staleness filter `(now - peer.timestamp) < windowMs`. */
  function FreshWithin(now: int, windowMs: int): StoredPeer -> bool
  {
    (e: StoredPeer) => now - e.timestamp < windowMs
  }

  /** The self-removal filter `peer.id !== userId`. */
  function NotMine(self: string): StoredPeer -> bool
  {
    (e: StoredPeer) => e.id != self
  }

  function Ids(list: seq<StoredPeer>): seq<string>
  {
    Lists.Map(list, (e: StoredPeer) => e.id)
  }

  /** The entries the join step tries to connect to: those younger than one hour. */
  function JoinCandidates(stored: seq<StoredPeer>, now: int): seq<StoredPeer>
  {
    Lists.Filter(stored, FreshWithin(now, JoinWindowMs))
  }

  /** The list written at join. */
  function Joined(stored: seq<StoredPeer>, self: string, fullPeerId: string, now: int): seq<StoredPeer>
  {
    Lists.Filter(JoinCandidates(stored, now), NotMine(self)) + [StoredPeer(self, now, fullPeerId)]
  }

  /** The list left after one tick: own entry refreshed, then the 30 s filter. */
  function Ticked(stored: seq<StoredPeer>, self: string, fullPeerId: string, now: int): seq<StoredPeer>
  {
    Lists.Filter(Lists.Filter(stored, NotMine(self)) + [StoredPeer(self, now, fullPeerId)], FreshWithin(now, TickWindowMs))
  }

  /** The list written on leave and on unload. */
  function Departed(stored: seq<StoredPeer>, self: string): seq<StoredPeer>
  {
    Lists.Filter(stored, NotMine(self))
  }

  /** `list` ends with `me` and has no other entry for `self`. */
  predicate OwnEntryLast(list: seq<StoredPeer>, self: string, me: StoredPeer)
  {
    |list| > 0 && list[|list| - 1] == me && forall i :: 0 <= i < |list| - 1 ==> list[i].id != self
  }

  /** What is left of `stored` besides the own entry: the entries of other ids younger
      than `windowMs`, in stored order and as often as they were stored. */
  ghost predicate KeepsOthersWithin(others: seq<StoredPeer>, stored: seq<StoredPeer>, self: string, now: int, windowMs: int)
  {
    && Lists.IsSubseq(others, stored)
    && (forall i :: 0 <= i < |others| ==> others[i].id != self)
    && (forall e :: e in others <==> e in stored && e.id != self && now - e.timestamp < windowMs)
    && (forall e :: multiset(others)[e] ==
          if e.id != self && now - e.timestamp < windowMs then multiset(stored)[e] else 0)
  }

  /** The join's two filters (one hour, then not mine) keep the other young entries. */
  lemma JoinOthers(stored: seq<StoredPeer>, self: string, now: int)
    ensures KeepsOthersWithin(Lists.Filter(JoinCandidates(stored, now), NotMine(self)), stored, self, now, JoinWindowMs)
  {
    var others := Lists.Filter(JoinCandidates(stored, now), NotMine(self));
    Lists.FilterTwice(stored, FreshWithin(now, JoinWindowMs), NotMine(self));
    forall i | 0 <= i < |others| ensures others[i].id != self {
      assert others[i] in others;
    }
  }

  /** The tick's two filters (not mine, then 30 s) keep the other young entries. */
  lemma TickOthers(stored: seq<StoredPeer>, self: string, now: int)
    ensures KeepsOthersWithin(Lists.Filter(Lists.Filter(stored, NotMine(self)), FreshWithin(now, TickWindowMs)),
              stored, self, now, TickWindowMs)
  {
    var others := Lists.Filter(Lists.Filter(stored, NotMine(self)), FreshWithin(now, TickWindowMs));
    Lists.FilterTwice(stored, NotMine(self), FreshWithin(now, TickWindowMs));
    forall i | 0 <= i < |others| ensures others[i].id != self {
      assert others[i] in others;
    }
  }

  /** After the join step: exactly one own entry, last and stamped `now`; before it, in
      their stored order, exactly the other entries younger than one hour, each as often
      as it was stored. */
  lemma JoinedKeepsOneOwnEntry(stored: seq<StoredPeer>, self: string, fullPeerId: string, now: int)
    ensures var j := Joined(stored, self, fullPeerId, now);
      && OwnEntryLast(j, self, StoredPeer(self, now, fullPeerId))
      && FreshWithin(now, JoinWindowMs)(j[|j| - 1])
      && Lists.IsSubseq(j[..|j| - 1], stored)
      && (forall e :: e in j[..|j| - 1] <==> e in stored && e.id != self && now - e.timestamp < JoinWindowMs)
      && (forall e :: multiset(j[..|j| - 1])[e] ==
            if e.id != self && now - e.timestamp < JoinWindowMs then multiset(stored)[e] else 0)
  {
    var j := Joined(stored, self, fullPeerId, now);
    var others := Lists.Filter(JoinCandidates(stored, now), NotMine(self));
    assert j[..|j| - 1] == others;
    JoinOthers(stored, self, now);
  }

  /** After a tick: exactly one own entry, last and stamped `now`; before it, in their
      stored order, exactly the other entries younger than 30 s, each as often as it
      was stored. */
  lemma TickedKeepsOneOwnEntry(stored: seq<StoredPeer>, self: string, fullPeerId: string, now: int)
    ensures var t := Ticked(stored, self, fullPeerId, now);
      && OwnEntryLast(t, self, StoredPeer(self, now, fullPeerId))
      && Lists.IsSubseq(t[..|t| - 1], stored)
      && (forall e :: e in t[..|t| - 1] <==> e in stored && e.id != self && now - e.timestamp < TickWindowMs)
      && (forall e :: multiset(t[..|t| - 1])[e] ==
            if e.id != self && now - e.timestamp < TickWindowMs then multiset(stored)[e] else 0)
  {
    var me := StoredPeer(self, now, fullPeerId);
    var mine := Lists.Filter(stored, NotMine(self));
    var young := FreshWithin(now, TickWindowMs);
    var others := Lists.Filter(mine, young);
    var t := Ticked(stored, self, fullPeerId, now);
    Lists.FilterAppend(mine, [me], young);
    assert Lists.Filter([me], young) == [me] by {
      assert young(me);
      assert [me][1..] == [];
    }
    assert t == others + [me];
    assert t[..|t| - 1] == others;
    TickOthers(stored, self, now);
  }

  /** Leave and unload remove the own entries and keep every other entry, in order and
      as often as it was stored. */
  lemma DepartedRemovesOnlyOwn(stored: seq<StoredPeer>, self: string)
    ensures var d := Departed(stored, self);
      && (forall i :: 0 <= i < |d| ==> d[i].id != self)
      && (forall e :: e in d <==> e in stored && e.id != self)
      && Lists.IsSubseq(d, stored)
      && (forall e :: multiset(d)[e] == if e.id != self then multiset(stored)[e] else 0)
  {
    var d := Departed(stored, self);
    Lists.FilterCount(stored, NotMine(self));
    forall i | 0 <= i < |d| ensures d[i].id != self {
      assert d[i] in d;
    }
  }

  /** The client drops an entry aged exactly 30000 ms, which the server's sweep keeps. */
  lemma TickDropsAtBoundary(e: StoredPeer, self: string, fullPeerId: string, now: int)
    requires e.id != self && now - e.timestamp == TickWindowMs
    ensures e !in Ticked([e], self, fullPeerId, now)
  {
  }
}
