/** The transport's pool of sessions, kept in a slice that is compacted in place. */
module SessionPool {
  import opened Bytes
  import opened MuxSession
  import opened PoolRuns
  import opened Wrappers

  class Transport {
    /** The slice: the first `count` elements of `slots`. */
    var slots: array<MuxSession>
    var count: nat
    var active: int
    ghost var started: set<MuxSession>
    ghost var owned: set<MuxSession>

    ghost predicate Valid()
      reads this, slots
    {
      count <= slots.Length && owned <= started && forall s :: s in slots[..count] ==> s in started
    }

    ghost function Live(): set<MuxSession>
      reads this`started, started
    {
      set s | s in started && !s.closed
    }

    ghost function View(): Pool<MuxSession>
      requires Valid()
      reads this, slots, started
    {
      Pool(slots[..count], Live(), owned)
    }

    constructor ()
      ensures Valid() && View() == Pool([], {}, {}) && started == {} && active == 0
    {
      slots := new MuxSession[0];
      count, active, started, owned := 0, 0, {}, {};
    }

    /** A new session is wanted when the flows are many, or when no session is live. */
    ghost predicate WantsNew()
      requires Valid()
      reads this, slots, slots[..count]
    {
      && (active < 8 || count >= MAX_SESSIONS ==> forall i :: 0 <= i < count ==> slots[i].closed)
      && (forall i :: 0 <= i < count && !slots[i].closed ==> slots[i].PinCount() >= active / 2 + 1)
    }

    /** Session `i` is live and, when a second one is wanted, has few enough connections. */
    ghost predicate HasRoom(i: nat)
      requires Valid() && i < count
      reads this, slots, slots[..count]
    {
      !slots[i].closed && (active >= 8 && count < MAX_SESSIONS ==> slots[i].PinCount() < active / 2 + 1)
    }

    /** The first critical section of pickSession: the first session with room, or None to start one. */
    method PickFirst() returns (r: Option<MuxSession>)
      requires Valid()
      ensures r == None <==> WantsNew()
      ensures active < 8 || count >= 2 ==> (r == None <==> forall i :: 0 <= i < count ==> slots[i].closed)
      ensures active >= 8 && count < 2 ==>
        (r == None <==> forall i :: 0 <= i < count ==> slots[i].closed || 2 * slots[i].PinCount() > active)
      ensures r.Some? ==>
        exists i :: 0 <= i < count && r.value == slots[i] && HasRoom(i) && forall j :: 0 <= j < i ==> !HasRoom(j)
    {
      var needSecond := active >= 8 && count < MAX_SESSIONS;
      var i := 0;
      while i < count
        invariant 0 <= i <= count
        invariant forall j :: 0 <= j < i && !slots[j].closed ==> needSecond && slots[j].PinCount() >= active / 2 + 1
      {
        var s := slots[i];
        if !s.IsClosed() {
          if !needSecond || s.PinCount() < active / 2 + 1 {
            assert HasRoom(i);
            return Some(s);
          }
        }
        i := i + 1;
      }
      if count >= MAX_SESSIONS {
        i := 0;
        while i < count
          invariant 0 <= i <= count
          invariant forall j :: 0 <= j < i ==> slots[j].closed
        {
          if !slots[i].IsClosed() {
            assert false;  // no second session is wanted here, so the first loop would have returned it
          }
          i := i + 1;
        }
      }
      r := None;
    }

    method Append(s: MuxSession)
      requires Valid() && s in started
      modifies this`slots, this`count, slots
      ensures Valid() && slots[..count] == old(slots[..count]) + [s]
    {
      if count == slots.Length {
        var bigger := new MuxSession[2 * count + 1](_ => s);
        forall i | 0 <= i < count {
          bigger[i] := slots[i];
        }
        slots := bigger;
      }
      slots[count] := s;
      count := count + 1;
    }

    /** The second critical section of pickSession, once `s` has been started. */
    method PickSecond(s: MuxSession) returns (r: MuxSession)
      requires Valid() && s in owned && s.Valid()
      modifies this`slots, this`count, this`owned, slots, s, s.readers.Values
      ensures Valid() && View() == Finished(old(View()), s)
      ensures (r == s && s in View().sessions) || IsFirstLive(old(View()), r)
      ensures old(count) < 2 || (forall i :: 0 <= i < old(count) ==> old(slots[i].closed)) ==>
        r == s && slots[..count] == old(slots[..count]) + [s] && s.closed == old(s.closed)
      ensures old(count) >= 2 && (exists i :: 0 <= i < old(count) && !old(slots[i].closed)) ==>
        s.closed && slots[..count] == old(slots[..count])
    {
      if count >= MAX_SESSIONS {
        var i := 0;
        while i < count
          invariant 0 <= i <= count
          invariant forall j :: 0 <= j < i ==> slots[j].closed
        {
          if !slots[i].IsClosed() {
            assert slots[i] == old(View()).sessions[i] && slots[i] in old(View()).sessions;
            r := slots[i];
            owned := owned - {s};
            s.Close();
            return;
          }
          i := i + 1;
        }
      }
      Append(s);
      owned := owned - {s};
      r := s;
    }

    /** One turn of the loop below: moves session `i` forward if it is live. */
    method SweepOne(kept: nat, i: nat, live: bool, ghost ss: seq<MuxSession>, ghost alive: set<MuxSession>)
      returns (kept': nat, live': bool)
      requires kept <= i < |ss| <= slots.Length && live == (kept > 0)
      requires slots[i] == ss[i] && slots[..kept] == Filter(ss[..i], alive) && (ss[i] in alive <==> !ss[i].closed)
      modifies slots
      ensures kept' <= i + 1 && slots[..kept'] == Filter(ss[..i + 1], alive) && live' == (kept' > 0)
      ensures forall j :: i < j < |ss| ==> slots[j] == old(slots[j])
    {
      FilterStep(ss, i, alive);
      var s := slots[i];
      if s.IsClosed() {
        return kept, live;
      }
      slots[kept] := s;
      kept', live' := kept + 1, true;
      assert slots[..kept'] == slots[..kept] + [s];
    }

    method SweepAll(ghost alive: set<MuxSession>) returns (kept: nat, live: bool)
      requires Valid() && alive == Live()
      modifies slots
      ensures kept <= count && slots[..kept] == Filter(old(slots[..count]), alive) && live == (kept > 0)
    {
      ghost var before := slots[..count];
      var i := 0;
      kept, live := 0, false;
      while i < count
        invariant 0 <= kept <= i <= count == |before| <= slots.Length && live == (kept > 0)
        invariant slots[..kept] == Filter(before[..i], alive)
        invariant forall j :: i <= j < count ==> slots[j] == before[j]
      {
        kept, live := SweepOne(kept, i, live, before, alive);
        i := i + 1;
      }
      assert before[..i] == before;
    }

    method HasLiveSession() returns (live: bool)
      requires Valid()
      modifies this`count, slots
      ensures Valid() && View() == Swept(old(View())) && live == (View().sessions != [])
    {
      FilterMembers(slots[..count], Live());
      count, live := SweepAll(Live());
    }

    /** `pinned` are those of `ss` that have connections pinned, each with its reader. */
    ghost predicate ArePinned(ss: seq<MuxSession>, pinned: set<MuxSession>)
      reads ss
    {
      forall s :: s in ss ==> s.pinned == s.readers.Keys && (s in pinned <==> s.pinned != {})
    }

    /** The loop below after `i` turns: the first `i` sessions of `ss` are kept, or closed; the others are as before. */
    ghost predicate ShrunkTo(
        ss: seq<MuxSession>, i: nat, kept: nat, live: set<MuxSession>, pinned: set<MuxSession>)
      reads this, slots, started, ss
    {
      && ShrunkSoFar(ss, i, kept, slots[..], Live(), live, pinned)
      && (forall s :: s in ss ==> s in started)
      && ArePinned(ss[i..], pinned)
    }

    lemma NoneShrunk(pinned: set<MuxSession>)
      requires Valid() && NoDuplicates(slots[..count]) && ArePinned(slots[..count], pinned)
      ensures ShrunkTo(slots[..count], 0, 0, Live(), pinned)
    {
      assert slots[..count][..0] == [] && slots[..count][0..] == slots[..count] == slots[..][0..count];
    }

    lemma AllShrunk(ss: seq<MuxSession>, kept: nat, live: set<MuxSession>, pinned: set<MuxSession>)
      requires ShrunkTo(ss, |ss|, kept, live, pinned)
      ensures slots[..kept] == Kept(ss, live, pinned) && Live() == live - Dropped(ss, live, pinned)
      ensures forall s :: s in slots[..kept] ==> s in started
    {
      assert ss[..|ss|] == ss && slots[..][..kept] == slots[..kept];
      KeptMembers(ss, live, pinned);
    }

    /** Keeps session `i`, moved forward, or closes it, or drops it closed. */
    method KeepOrClose(kept: nat, i: nat) returns (kept': nat)
      requires kept <= i < slots.Length && slots[i].pinned == slots[i].readers.Keys
      modifies slots, slots[i]
      ensures var s := old(slots[i]);
              var keeps := !old(s.closed) && (i == 0 || old(s.pinned) != {});
              && Live() == (if keeps then old(Live()) else old(Live()) - {s})
              && kept' == (if keeps then kept + 1 else kept)
              && slots[..] == if keeps then old(slots[..])[kept := s] else old(slots[..])
    {
      var s := slots[i];
      kept' := kept;
      if !s.IsClosed() {
        if i > 0 && s.PinCount() == 0 {
          assert s.readers.Values == {};
          s.Close();
        } else {
          slots[kept] := s;
          kept' := kept + 1;
        }
      }
      assert Live() == old(Live()) - if s.closed then {s} else {};
    }

    method ShrinkOne(kept: nat, i: nat, ghost ss: seq<MuxSession>, ghost live: set<MuxSession>,
                     ghost pinned: set<MuxSession>) returns (kept': nat)
      requires i < |ss| && ShrunkTo(ss, i, kept, live, pinned)
      modifies slots, ss[i]
      ensures ShrunkTo(ss, i + 1, kept', live, pinned)
    {
      TheRest(ss, i);
      ghost var before, alive := slots[..], Live();
      NextToShrink(ss, i, kept, before, alive, live, pinned);
      kept' := KeepOrClose(kept, i);
      ShrunkFurther(ss, i, kept, before, alive, live, pinned);
    }

    method ShrinkAll(ghost live: set<MuxSession>, ghost pinned: set<MuxSession>)
      requires count <= slots.Length && ShrunkTo(slots[..count], 0, 0, live, pinned)
      modifies this`count, slots, slots[..count]
      ensures ShrunkTo(old(slots[..count]), old(count), count, live, pinned)
    {
      ghost var before := slots[..count];
      var kept, i := 0, 0;
      while i < count
        invariant 0 <= i <= count == |before| && ShrunkTo(before, i, kept, live, pinned)
      {
        kept := ShrinkOne(kept, i, before, live, pinned);
        i := i + 1;
      }
      count := kept;
    }

    method MaybeShrink()
      requires Valid() && NoDuplicates(slots[..count])
      requires forall i :: 0 <= i < count ==> slots[i].Valid()
      modifies this`count, slots, slots[..count]
      ensures Valid() && View() == Shrunk(old(View()), set s | s in old(started) && old(s.pinned) != {})
    {
      if count <= 1 {
        return;
      }
      ghost var live, pinned := Live(), set s | s in started && s.pinned != {};
      ghost var before := slots[..count];
      NoneShrunk(pinned);
      ShrinkAll(live, pinned);
      AllShrunk(before, count, live, pinned);
    }

    /** The session that has `connId` pinned, if any. */
    method SessionFor(connId: u32) returns (r: Option<MuxSession>)
      requires Valid()
      ensures r.Some? ==>
        exists i :: 0 <= i < count && r.value == slots[i] && connId in slots[i].pinned
                    && forall j :: 0 <= j < i ==> connId !in slots[j].pinned
      ensures r == None ==> forall i :: 0 <= i < count ==> connId !in slots[i].pinned
    {
      for i := 0 to count
        invariant forall j :: 0 <= j < i ==> connId !in slots[j].pinned
      {
        if slots[i].HasPin(connId) {
          return Some(slots[i]);
        }
      }
      r := None;
    }
  }
}
