/**
 Rolling back the transactions of a block (`wallet/src/sync.rs`): exactly when unapplying them, last
 to first, restores the coins.
 */
module Rollback {
  import opened Scale
  import opened Types
  import opened UtxoSet
  import opened Ledger
  import opened Sums
  import opened Wallet
  import opened Slots

  function ApplyAll<C>(rt: Runtime<OuterVerifier, C>, filter: Filter, c: Coins, ts: seq<Tx<C>>): Coins {
    if ts == [] then c else Wallet.Apply(rt, filter, ApplyAll(rt, filter, c, ts[..|ts| - 1]), ts[|ts| - 1])
  }

  /** The transactions of a block are unapplied last to first. */
  function UnapplyAll<C>(rt: Runtime<OuterVerifier, C>, c: Coins, ts: seq<Tx<C>>): Coins
    decreases |ts|
  {
    if ts == [] then c else UnapplyAll(rt, Unapply(rt, c, ts[|ts| - 1]), ts[..|ts| - 1])
  }

  // ----- The condition

  predicate SpentBy<C>(ts: seq<Tx<C>>, r: OutputRef) {
    exists k :: 0 <= k < |ts| && r in Refs(ts[k].inputs)
  }

  predicate CreatedBy<C>(rt: Runtime<OuterVerifier, C>, ts: seq<Tx<C>>, r: OutputRef) {
    exists k :: 0 <= k < |ts| && r in OutRefs(rt, ts[k])
  }

  /** Transaction `f` is the first of the list to create the reference. */
  predicate FirstToCreate<C>(rt: Runtime<OuterVerifier, C>, ts: seq<Tx<C>>, r: OutputRef, f: nat) {
    f < |ts| && r in OutRefs(rt, ts[f]) && forall k :: 0 <= k < f ==> r !in OutRefs(rt, ts[k])
  }

  /**
   The list spends nothing that is in the spent table already; and what it creates is not in the
   unspent table, or is spent before the list first creates it and not again from there on.
   */
  ghost predicate UndoableAt<C>(rt: Runtime<OuterVerifier, C>, c: Coins, ts: seq<Tx<C>>, r: OutputRef) {
    && (SpentBy(ts, r) ==> r !in c.spent)
    && (CreatedBy(rt, ts, r) ==>
          || r !in c.unspent
          || exists f: nat :: FirstToCreate(rt, ts, r, f) && SpentBy(ts[..f], r) && !SpentBy(ts[f..], r))
  }

  ghost predicate Undoable<C>(rt: Runtime<OuterVerifier, C>, c: Coins, ts: seq<Tx<C>>) {
    forall r :: UndoableAt(rt, c, ts, r)
  }

  // ----- One reference at a time

  function SlotOf(c: Coins, r: OutputRef): Slot<Owned> {
    Slot(if r in c.unspent then Some(c.unspent[r]) else None, if r in c.spent then Some(c.spent[r]) else None)
  }

  function MarkOf<C>(rt: Runtime<OuterVerifier, C>, filter: Filter, t: Tx<C>, r: OutputRef): Mark<Owned> {
    var n := TrackedOf(filter, Created(rt, t));
    Mark(if r in n then Some(n[r]) else None, r in OutRefs(rt, t), r in Refs(t.inputs))
  }

  lemma {:induction false} ApplyAtSlot<C>(rt: Runtime<OuterVerifier, C>, filter: Filter, c: Coins, t: Tx<C>,
                                          r: OutputRef)
    ensures SlotOf(Wallet.Apply(rt, filter, c, t), r) == Forth(SlotOf(c, r), MarkOf(rt, filter, t, r))
  {
    SpendAllMoves(c.(unspent := c.unspent + TrackedOf(filter, Created(rt, t))), Refs(t.inputs));
    assert r in RefSet(Refs(t.inputs)) <==> r in Refs(t.inputs);
  }

  lemma {:induction false} UnapplyAtSlot<C>(rt: Runtime<OuterVerifier, C>, filter: Filter, c: Coins, t: Tx<C>,
                                            r: OutputRef)
    ensures SlotOf(Unapply(rt, c, t), r) == Back(SlotOf(c, r), MarkOf(rt, filter, t, r))
  {
    UnspendAllMoves(c, Refs(t.inputs));
    assert r in RefSet(Refs(t.inputs)) <==> r in Refs(t.inputs);
    assert r in RefSet(OutRefs(rt, t)) <==> r in OutRefs(rt, t);
  }

  function Marks<C>(rt: Runtime<OuterVerifier, C>, filter: Filter, ts: seq<Tx<C>>, r: OutputRef): (ms: seq<Mark<Owned>>)
    ensures |ms| == |ts| && forall k :: 0 <= k < |ts| ==> ms[k] == MarkOf(rt, filter, ts[k], r)
  {
    seq(|ts|, k requires 0 <= k < |ts| => MarkOf(rt, filter, ts[k], r))
  }

  lemma {:induction false} ApplyAllAtSlot<C>(rt: Runtime<OuterVerifier, C>, filter: Filter, c: Coins, ts: seq<Tx<C>>,
                                             r: OutputRef)
    ensures SlotOf(ApplyAll(rt, filter, c, ts), r) == ForthAll(SlotOf(c, r), Marks(rt, filter, ts, r))
  {
    if ts == [] {
    } else {
      var n := |ts| - 1;
      ApplyAllAtSlot(rt, filter, c, ts[..n], r);
      ApplyAtSlot(rt, filter, ApplyAll(rt, filter, c, ts[..n]), ts[n], r);
      assert Marks(rt, filter, ts, r)[..n] == Marks(rt, filter, ts[..n], r);
    }
  }

  lemma {:induction false} UnapplyAllAtSlot<C>(rt: Runtime<OuterVerifier, C>, filter: Filter, c: Coins, ts: seq<Tx<C>>,
                                               r: OutputRef)
    ensures SlotOf(UnapplyAll(rt, c, ts), r) == BackAll(SlotOf(c, r), Marks(rt, filter, ts, r))
    decreases |ts|
  {
    if ts == [] {
    } else {
      var n := |ts| - 1;
      UnapplyAtSlot(rt, filter, c, ts[n], r);
      UnapplyAllAtSlot(rt, filter, Unapply(rt, c, ts[n]), ts[..n], r);
      assert Marks(rt, filter, ts, r)[..n] == Marks(rt, filter, ts[..n], r);
    }
  }

  lemma {:induction false} SpentIsMarked<C>(rt: Runtime<OuterVerifier, C>, filter: Filter, ts: seq<Tx<C>>, r: OutputRef)
    ensures Spends(Marks(rt, filter, ts, r)) <==> SpentBy(ts, r)
    ensures Creates(Marks(rt, filter, ts, r)) <==> CreatedBy(rt, ts, r)
    ensures forall f: nat :: FirstCreation(Marks(rt, filter, ts, r), f) <==> FirstToCreate(rt, ts, r, f)
  {
    var ms := Marks(rt, filter, ts, r);
    assert forall k :: 0 <= k < |ts| ==> (ms[k].spends <==> r in Refs(ts[k].inputs));
    assert forall k :: 0 <= k < |ts| ==> (ms[k].creates <==> r in OutRefs(rt, ts[k]));
  }

  lemma {:induction false} MarksAreSane<C>(rt: Runtime<OuterVerifier, C>, filter: Filter, ts: seq<Tx<C>>, r: OutputRef)
    ensures Sane(Marks(rt, filter, ts, r))
  {
    forall k | 0 <= k < |ts| && r in TrackedOf(filter, Created(rt, ts[k])) ensures r in OutRefs(rt, ts[k]) {
      OutRefsCover(rt, filter, ts[k]);
      assert r in RefSet(OutRefs(rt, ts[k]));
    }
  }

  lemma {:induction false} UndoneIsUndoable<C>(rt: Runtime<OuterVerifier, C>, filter: Filter, c: Coins, ts: seq<Tx<C>>,
                                               r: OutputRef)
    ensures Undone(SlotOf(c, r), Marks(rt, filter, ts, r)) <==> UndoableAt(rt, c, ts, r)
  {
    SpentIsMarked(rt, filter, ts, r);
    forall f: nat | f <= |ts|
      ensures Spends(Marks(rt, filter, ts, r)[..f]) <==> SpentBy(ts[..f], r)
      ensures Spends(Marks(rt, filter, ts, r)[f..]) <==> SpentBy(ts[f..], r)
    {
      SplitMarks(rt, filter, ts, r, f);
    }
  }

  lemma {:induction false} SplitMarks<C>(rt: Runtime<OuterVerifier, C>, filter: Filter, ts: seq<Tx<C>>, r: OutputRef,
                                         f: nat)
    requires f <= |ts|
    ensures Spends(Marks(rt, filter, ts, r)[..f]) <==> SpentBy(ts[..f], r)
    ensures Spends(Marks(rt, filter, ts, r)[f..]) <==> SpentBy(ts[f..], r)
  {
    var ms := Marks(rt, filter, ts, r);
    SpentIsMarked(rt, filter, ts[..f], r);
    SpentIsMarked(rt, filter, ts[f..], r);
    assert ms[..f] == Marks(rt, filter, ts[..f], r) && ms[f..] == Marks(rt, filter, ts[f..], r);
  }

  // ----- The result

  lemma SameSlots(a: Coins, b: Coins)
    ensures a == b <==> forall r :: SlotOf(a, r) == SlotOf(b, r)
  {
    if forall r :: SlotOf(a, r) == SlotOf(b, r) {
      forall r
        ensures (r in a.unspent <==> r in b.unspent) && (r in a.unspent ==> a.unspent[r] == b.unspent[r])
        ensures (r in a.spent <==> r in b.spent) && (r in a.spent ==> a.spent[r] == b.spent[r])
      {
        assert SlotOf(a, r) == SlotOf(b, r);
      }
      assert a.unspent == b.unspent && a.spent == b.spent;
    }
  }

  /** Unapplying a list last to first restores the coins, under any filter, exactly when the list is undoable. */
  lemma {:induction false} RollbackAllIff<C>(rt: Runtime<OuterVerifier, C>, filter: Filter, c: Coins, ts: seq<Tx<C>>)
    ensures UnapplyAll(rt, ApplyAll(rt, filter, c, ts), ts) == c <==> Undoable(rt, c, ts)
  {
    var c' := UnapplyAll(rt, ApplyAll(rt, filter, c, ts), ts);
    SameSlots(c', c);
    forall r ensures SlotOf(c', r) == SlotOf(c, r) <==> UndoableAt(rt, c, ts, r) {
      RollbackAtIff(rt, filter, c, ts, r);
    }
  }

  lemma {:induction false} RollbackAtIff<C>(rt: Runtime<OuterVerifier, C>, filter: Filter, c: Coins, ts: seq<Tx<C>>,
                                            r: OutputRef)
    ensures SlotOf(UnapplyAll(rt, ApplyAll(rt, filter, c, ts), ts), r) == SlotOf(c, r) <==> UndoableAt(rt, c, ts, r)
  {
    ApplyAllAtSlot(rt, filter, c, ts, r);
    UnapplyAllAtSlot(rt, filter, ApplyAll(rt, filter, c, ts), ts, r);
    MarksAreSane(rt, filter, ts, r);
    UndoneIff(SlotOf(c, r), Marks(rt, filter, ts, r));
    UndoneIsUndoable(rt, filter, c, ts, r);
  }

  /** It is enough that no input of the list is spent already and no output unspent already. */
  lemma FreshIsUndoable<C>(rt: Runtime<OuterVerifier, C>, c: Coins, ts: seq<Tx<C>>)
    requires forall j :: 0 <= j < |ts| ==> Reversible(rt, c, ts[j])
    ensures Undoable(rt, c, ts)
  {
    forall r ensures UndoableAt(rt, c, ts, r) {
      if SpentBy(ts, r) {
        var k :| 0 <= k < |ts| && r in Refs(ts[k].inputs);
        assert Reversible(rt, c, ts[k]);
      }
      if CreatedBy(rt, ts, r) {
        var k :| 0 <= k < |ts| && r in OutRefs(rt, ts[k]);
        assert Reversible(rt, c, ts[k]);
      }
    }
  }
}
