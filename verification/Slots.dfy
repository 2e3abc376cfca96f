/**
 Rolling back, seen at one reference. Whatever a list of transactions does to the wallet's coins, at
 a single reference it only matters which of them create it, which spend it, and what they track.
 */
module Slots {
  import opened Scale

  /** What the two tables hold at a reference. */
  datatype Slot<T> = Slot(unspent: Option<T>, spent: Option<T>)

  /** What a transaction does at a reference. Only created outputs are tracked. */
  datatype Mark<T> = Mark(tracked: Option<T>, creates: bool, spends: bool)

  /** Applying: first insert, then spend. */
  function Forth<T>(x: Slot<T>, m: Mark<T>): Slot<T> {
    var u := if m.tracked.Some? then m.tracked else x.unspent;
    if m.spends && u.Some? then Slot(None, u) else Slot(u, x.spent)
  }

  /** Unapplying: first unspend, then drop. */
  function Back<T>(x: Slot<T>, m: Mark<T>): Slot<T> {
    var y := if m.spends && x.spent.Some? then Slot(x.spent, None) else x;
    if m.creates then y.(unspent := None) else y
  }

  function ForthAll<T>(x: Slot<T>, ms: seq<Mark<T>>): Slot<T> {
    if ms == [] then x else Forth(ForthAll(x, ms[..|ms| - 1]), ms[|ms| - 1])
  }

  /** Last to first. */
  function BackAll<T>(x: Slot<T>, ms: seq<Mark<T>>): Slot<T>
    decreases |ms|
  {
    if ms == [] then x else BackAll(Back(x, ms[|ms| - 1]), ms[..|ms| - 1])
  }

  predicate Spends<T>(ms: seq<Mark<T>>) {
    exists k :: 0 <= k < |ms| && ms[k].spends
  }

  predicate Creates<T>(ms: seq<Mark<T>>) {
    exists k :: 0 <= k < |ms| && ms[k].creates
  }

  predicate Sane<T>(ms: seq<Mark<T>>) {
    forall k :: 0 <= k < |ms| ==> ms[k].tracked.Some? ==> ms[k].creates
  }

  lemma SpendsSnoc<T>(ms: seq<Mark<T>>)
    requires ms != []
    ensures Spends(ms) <==> Spends(ms[..|ms| - 1]) || ms[|ms| - 1].spends
  {
    var p := ms[..|ms| - 1];
    if Spends(ms) && !ms[|ms| - 1].spends {
      var k :| 0 <= k < |ms| && ms[k].spends;
      assert p[k].spends;
    }
    if Spends(p) {
      var k :| 0 <= k < |p| && p[k].spends;
      assert ms[k].spends;
    }
  }

  lemma SpendsConcat<T>(a: seq<Mark<T>>, b: seq<Mark<T>>)
    ensures Spends(a + b) <==> Spends(a) || Spends(b)
  {
    if Spends(a) {
      var k :| 0 <= k < |a| && a[k].spends;
      assert (a + b)[k].spends;
    }
    if Spends(b) {
      var k :| 0 <= k < |b| && b[k].spends;
      assert (a + b)[|a| + k].spends;
    }
  }

  lemma {:induction false} ForthConcat<T>(x: Slot<T>, a: seq<Mark<T>>, b: seq<Mark<T>>)
    ensures ForthAll(x, a + b) == ForthAll(ForthAll(x, a), b)
  {
    if b == [] {
      assert a + b == a;
    } else {
      ForthConcat(x, a, b[..|b| - 1]);
      assert (a + b)[..|a + b| - 1] == a + b[..|b| - 1];
    }
  }

  lemma {:induction false} BackConcat<T>(x: Slot<T>, a: seq<Mark<T>>, b: seq<Mark<T>>)
    ensures BackAll(x, a + b) == BackAll(BackAll(x, b), a)
    decreases |b|
  {
    if b == [] {
      assert a + b == a;
    } else {
      BackConcat(Back(x, b[|b| - 1]), a, b[..|b| - 1]);
      assert (a + b)[..|a + b| - 1] == a + b[..|b| - 1];
    }
  }

  // ----- Where a list leads

  /** A list that creates nothing at the reference can only move what is there. */
  lemma {:induction false} ForthUncreated<T>(x: Slot<T>, ms: seq<Mark<T>>)
    requires Sane(ms) && !Creates(ms)
    ensures ForthAll(x, ms) == if Spends(ms) && x.unspent.Some? then Slot(None, x.unspent) else x
  {
    if ms == [] {
    } else {
      assert Sane(ms[..|ms| - 1]) && !Creates(ms[..|ms| - 1]);
      ForthUncreated(x, ms[..|ms| - 1]);
      SpendsSnoc(ms);
    }
  }

  lemma {:induction false} ForthUnspent<T>(x: Slot<T>, ms: seq<Mark<T>>)
    requires !Spends(ms)
    ensures ForthAll(x, ms).spent == x.spent
  {
    if ms == [] {
    } else {
      SpendsSnoc(ms);
      ForthUnspent(x, ms[..|ms| - 1]);
    }
  }

  // ----- Where unapplying it leads

  lemma {:induction false} BackUncreated<T>(y: Slot<T>, ms: seq<Mark<T>>)
    requires !Creates(ms)
    ensures BackAll(y, ms) == if Spends(ms) && y.spent.Some? then Slot(y.spent, None) else y
    decreases |ms|
  {
    if ms == [] {
    } else {
      assert !Creates(ms[..|ms| - 1]);
      SpendsSnoc(ms);
      BackUncreated(Back(y, ms[|ms| - 1]), ms[..|ms| - 1]);
    }
  }

  /** Unapplying down to a transaction that creates the reference leaves nothing unspent. */
  lemma {:induction false} BackToCreation<T>(y: Slot<T>, ms: seq<Mark<T>>)
    requires ms != [] && ms[0].creates
    ensures BackAll(y, ms) == Slot(None, if Spends(ms) then None else y.spent)
    decreases |ms|
  {
    SpendsSnoc(ms);
    if |ms| == 1 {
      assert ms[..0] == [];
    } else {
      BackToCreation(Back(y, ms[|ms| - 1]), ms[..|ms| - 1]);
    }
  }

  /** The first transaction that creates the reference. */
  predicate FirstCreation<T>(ms: seq<Mark<T>>, f: nat) {
    f < |ms| && ms[f].creates && forall k :: 0 <= k < f ==> !ms[k].creates
  }

  lemma {:induction false} FirstExists<T>(ms: seq<Mark<T>>) returns (f: nat)
    requires Creates(ms)
    ensures FirstCreation(ms, f)
  {
    var p := ms[..|ms| - 1];
    if Creates(p) {
      f := FirstExists(p);
    } else {
      f := |ms| - 1;
      assert forall k :: 0 <= k < f ==> p[k] == ms[k];
    }
  }

  /** Both directions for a list that creates the reference. */
  lemma {:induction false} ThereAndBack<T>(x: Slot<T>, ms: seq<Mark<T>>, f: nat)
    requires Sane(ms) && FirstCreation(ms, f)
    ensures var (head, tail) := (Spends(ms[..f]), Spends(ms[f..]));
            BackAll(ForthAll(x, ms), ms) ==
            if head && !tail then Slot(if x.unspent.Some? then x.unspent else x.spent, None)
            else Slot(None, if head || tail then None else x.spent)
  {
    var a, b := ms[..f], ms[f..];
    assert ms == a + b && !Creates(a) && Sane(a);
    var y := ForthAll(x, ms);
    ForthConcat(x, a, b);
    BackConcat(y, a, b);
    BackToCreation(y, b);
    BackUncreated(BackAll(y, b), a);
    ForthUncreated(x, a);
    if !Spends(b) {
      ForthUnspent(ForthAll(x, a), b);
    }
  }

  /** When a list is undone at the reference. */
  ghost predicate Undone<T>(x: Slot<T>, ms: seq<Mark<T>>) {
    && (Spends(ms) ==> x.spent.None?)
    && (Creates(ms) ==> x.unspent.None? || exists f: nat :: FirstCreation(ms, f) && Spends(ms[..f]) && !Spends(ms[f..]))
  }

  lemma {:induction false} UndoneIff<T>(x: Slot<T>, ms: seq<Mark<T>>)
    requires Sane(ms)
    ensures BackAll(ForthAll(x, ms), ms) == x <==> Undone(x, ms)
  {
    if Creates(ms) {
      var f := FirstExists(ms);
      ThereAndBack(x, ms, f);
      assert ms == ms[..f] + ms[f..];
      SpendsConcat(ms[..f], ms[f..]);
      assert forall g: nat :: FirstCreation(ms, g) ==> g == f;
    } else {
      ForthUncreated(x, ms);
      BackUncreated(ForthAll(x, ms), ms);
    }
  }
}
