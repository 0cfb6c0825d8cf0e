/** The invariant of the reusable timer list. */
module TimerPool {
  import opened Basics
  import opened Thresholds

  function UsedCount(slots: seq<Slot>): nat {
    if slots == [] then 0
    else UsedCount(slots[..|slots| - 1]) + if slots[|slots| - 1].used then 1 else 0
  }

  predicate Holds(slots: seq<Slot>, w: Wait) {
    w.slot < |slots| && slots[w.slot] == Slot(true, w.threshold.key, w.asserting)
  }

  ghost predicate Serves(waits: seq<Wait>, s: nat) {
    exists j :: 0 <= j < |waits| && waits[j].slot == s
  }

  ghost predicate WaitsHold(slots: seq<Slot>, waits: seq<Wait>) {
    && (forall j :: 0 <= j < |waits| ==> Holds(slots, waits[j]))
    && (forall i, j :: 0 <= i < j < |waits| ==> waits[i].slot != waits[j].slot)
  }

  ghost predicate UsedServes(slots: seq<Slot>, waits: seq<Wait>) {
    forall s: nat :: s < |slots| && slots[s].used ==> Serves(waits, s)
  }

  /** A slot is used exactly when one outstanding wait runs on it, and it records that wait. */
  ghost predicate PoolOk(e: Engine) {
    WaitsHold(e.slots, e.waits) && UsedServes(e.slots, e.waits) && |e.waits| == UsedCount(e.slots)
  }

  lemma {:induction false} UsedCountUpdate(slots: seq<Slot>, i: nat, s: Slot)
    requires i < |slots|
    ensures UsedCount(slots[i := s]) ==
      UsedCount(slots) - (if slots[i].used then 1 else 0) + if s.used then 1 else 0
  {
    var n := |slots| - 1;
    if i < n {
      UsedCountUpdate(slots[..n], i, s);
      assert slots[i := s][..n] == slots[..n][i := s];
    } else {
      assert slots[i := s][..n] == slots[..n];
    }
  }

  lemma {:induction false} UsedCountBounds(slots: seq<Slot>)
    ensures UsedCount(slots) <= |slots|
    ensures UsedCount(slots) == |slots| <==> FirstFree(slots) == |slots|
  {
    if slots != [] {
      var n := |slots| - 1;
      UsedCountBounds(slots[..n]);
      var f, g := FirstFree(slots), FirstFree(slots[..n]);
      if f < n { assert !slots[..n][f].used; }
      if g < n { assert !slots[g].used; }
    }
  }

  /** `after` is `before` with slot `i` taken over or appended. */
  ghost predicate Only(before: seq<Slot>, after: seq<Slot>, i: nat) {
    |before| <= |after| && forall s: nat :: s < |before| && s != i ==> after[s] == before[s]
  }

  lemma TakeKeepsWaits(slots: seq<Slot>, waits: seq<Wait>, slots': seq<Slot>, w: Wait)
    requires WaitsHold(slots, waits) && Only(slots, slots', w.slot) && Holds(slots', w)
    requires w.slot < |slots| ==> !slots[w.slot].used
    ensures WaitsHold(slots', waits + [w])
    ensures forall j :: 0 <= j < |waits| ==> Holds(slots', waits[j])
  {
    forall j | 0 <= j < |waits| ensures Holds(slots', waits[j]) && waits[j].slot != w.slot {
      assert Holds(slots, waits[j]);
    }
  }

  lemma TakeServes(slots: seq<Slot>, waits: seq<Wait>, slots': seq<Slot>, w: Wait)
    requires UsedServes(slots, waits) && Only(slots, slots', w.slot) && |slots'| == Max(|slots|, w.slot + 1)
    requires w.slot <= |slots|
    ensures UsedServes(slots', waits + [w])
  {
    var waits' := waits + [w];
    forall s: nat | s < |slots'| && slots'[s].used ensures Serves(waits', s) {
      if s == w.slot {
        assert waits'[|waits|].slot == s;
      } else {
        assert Serves(waits, s);
        var j :| 0 <= j < |waits| && waits[j].slot == s;
        assert waits'[j].slot == s;
      }
    }
  }

  lemma ReleaseKeepsWaits(slots: seq<Slot>, waits: seq<Wait>, i: nat, slots': seq<Slot>)
    requires WaitsHold(slots, waits) && i < |waits| && Only(slots, slots', waits[i].slot)
    ensures WaitsHold(slots', waits[..i] + waits[i + 1..])
  {
    var waits' := waits[..i] + waits[i + 1..];
    forall j | 0 <= j < |waits'| ensures Holds(slots', waits'[j]) {
      var k := if j < i then j else j + 1;
      assert waits'[j] == waits[k] && Holds(slots, waits[k]) && waits[k].slot != waits[i].slot;
    }
    forall j, k | 0 <= j < k < |waits'| ensures waits'[j].slot != waits'[k].slot {
      assert waits'[j] == waits[if j < i then j else j + 1] && waits'[k] == waits[if k < i then k else k + 1];
    }
  }

  lemma ReleaseServes(slots: seq<Slot>, waits: seq<Wait>, i: nat, slots': seq<Slot>)
    requires UsedServes(slots, waits) && i < |waits| && Only(slots, slots', waits[i].slot) && |slots'| == |slots|
    requires waits[i].slot < |slots'| && !slots'[waits[i].slot].used
    ensures UsedServes(slots', waits[..i] + waits[i + 1..])
  {
    var waits' := waits[..i] + waits[i + 1..];
    forall s: nat | s < |slots'| && slots'[s].used ensures Serves(waits', s) {
      assert Serves(waits, s);
      var j :| 0 <= j < |waits| && waits[j].slot == s;
      assert waits'[if j < i then j else j - 1] == waits[j];
    }
  }

  /** A new wait takes a free slot or a fresh one; every live wait keeps its slot as it was. */
  lemma StartTimerKeepsPool(e: Engine, c: Change, now: int)
    requires PoolOk(e)
    ensures var e' := StartTimer(e, c, now);
      && PoolOk(e')
      && (forall j :: 0 <= j < |e.waits| ==> Holds(e'.slots, e.waits[j]))
      && |e'.slots| == Max(|e.slots|, |e'.waits|)
  {
    var e' := StartTimer(e, c, now);
    var i := FirstFree(e.slots);
    TakeKeepsWaits(e.slots, e.waits, e'.slots, e'.waits[|e.waits|]);
    TakeServes(e.slots, e.waits, e'.slots, e'.waits[|e.waits|]);
    UsedCountBounds(e.slots);
    if i < |e.slots| {
      UsedCountUpdate(e.slots, i, e'.slots[i]);
    } else {
      assert e'.slots[..|e.slots|] == e.slots;
    }
  }

  /** A handler frees its own slot and no other. */
  lemma ExpireKeepsPool(e: Engine, i: nat, ok: bool, powerGood: bool)
    requires PoolOk(e) && i < |e.waits| && Holds(e.slots, e.waits[i])
    ensures var e' := Expire(e, i, ok, powerGood);
      && PoolOk(e')
      && !e'.slots[e.waits[i].slot].used
      && Only(e.slots, e'.slots, e.waits[i].slot)
      && |e'.slots| == |e.slots|
  {
    var e' := Expire(e, i, ok, powerGood);
    var slot := e.waits[i].slot;
    UsedCountUpdate(e.slots, slot, e'.slots[slot]);
    ReleaseKeepsWaits(e.slots, e.waits, i, e'.slots);
    ReleaseServes(e.slots, e.waits, i, e'.slots);
  }

  /** `hasActiveTimer` answers for the outstanding waits. */
  lemma HasActiveIsOutstanding(e: Engine, key: Key, asserting: bool)
    requires PoolOk(e)
    ensures HasActive(e.slots, key, asserting) <==>
      exists j :: 0 <= j < |e.waits| && e.waits[j].threshold.key == key && e.waits[j].asserting == asserting
  {
    if HasActive(e.slots, key, asserting) {
      var s: nat :| s < |e.slots| && e.slots[s] == Slot(true, key, asserting);
      assert Serves(e.waits, s);
      var j :| 0 <= j < |e.waits| && e.waits[j].slot == s;
      assert Holds(e.slots, e.waits[j]);
    }
    forall j | 0 <= j < |e.waits| && e.waits[j].threshold.key == key && e.waits[j].asserting == asserting
      ensures HasActive(e.slots, key, asserting)
    {
      assert Holds(e.slots, e.waits[j]);
      assert e.slots[e.waits[j].slot].used;
    }
  }
}
