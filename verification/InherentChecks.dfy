/**
 Checking the inherents of a block through recursive aggregation (`tuxedo-core/src/executive.rs`,
 `tuxedo-core/aggregator/src/lib.rs`, `tuxedo-core/src/inherents.rs`,
 `tuxedo-core/src/constraint_checker.rs`). The recursion over the tree is proved equal to one pass
 over the inherent leaves, and that pass is characterised leaf by leaf.
 */
module InherentChecks {
  import opened Scale
  import opened Types
  import opened Wardrobe
  import opened Inherents

  // ----- The host's report

  datatype Finding = WrongNumberOfInherents | FromPiece(call: Call, code: nat, severe: bool) {
    predicate Fatal() { WrongNumberOfInherents? || severe }
  }

  /** An error as it is reported, under an identifier. */
  datatype Entry = Entry(identifier: Bytes, finding: Finding)

  /** A fatal error removes all others, nothing may follow it, and no identifier may be used twice. */
  datatype Report = Report(fatal: bool, errors: seq<Entry>)

  predicate Names(errors: seq<Entry>, identifier: Bytes) {
    exists k :: 0 <= k < |errors| && errors[k].identifier == identifier
  }

  /** Nothing where recording the error is refused. */
  function Put(rep: Report, e: Entry): Option<Report> {
    if rep.fatal then None
    else if e.finding.Fatal() then Some(Report(true, [e]))
    else if Names(rep.errors, e.identifier) then None
    else Some(Report(false, rep.errors + [e]))
  }

  /** The identifier under which the adapter itself reports. */
  const ADAPTER_IDENTIFIER: Bytes := [49, 50, 51, 52, 53, 54, 55, 56]

  // ----- The recursion over the tree

  function Judge<V, D>(hooks: Hooks<V, D>,
                       call: Call, data: D, t: Transaction<V, Checker>, rep: Report): Option<Report> {
    match hooks.check(call, data, t)
    case Silent => Some(rep)
    case Raised(code, severe) => Put(rep, Entry(hooks.identifier(call), FromPiece(call, code, severe)))
    case Panicked => None
  }

  /** Nothing where the source panics: the stub's assertion, a piece's own check, or an error that is refused. */
  function CheckAll<V, D>(hooks: Hooks<V, D>, tree: Tree, data: D, s: seq<Tagged<V, ()>>, rep: Report): Option<Report>
    decreases tree, Width(tree) + 1
  {
    match tree
    case Simple => if s != [] then None else Some(rep)
    case Inherent(call) =>
      if |s| != 1 then Put(rep, Entry(ADAPTER_IDENTIFIER, WrongNumberOfInherents))
      else Judge(hooks, call, data, AtLeaf(s[0].tx), rep)
    case Aggregate(_) => CheckFrom(hooks, tree, 0, data, s, rep)
  }

  function CheckFrom<V, D>(hooks: Hooks<V, D>,
                           tree: Tree, i: nat, data: D, s: seq<Tagged<V, ()>>, rep: Report): Option<Report>
    requires tree.Aggregate? && i <= |tree.variants|
    decreases tree, |tree.variants| - i
  {
    if i == |tree.variants| then Some(rep)
    else
      match CheckAll(hooks, tree.variants[i], data, Select(i, s), rep)
      case None => None
      case Some(rep') => if rep'.fatal then Some(rep') else CheckFrom(hooks, tree, i + 1, data, s, rep')
  }

  // ----- One pass over the leaves

  /** The check of one leaf, given all inherents of the block. */
  function CheckAt<V, D>(hooks: Hooks<V, D>, data: D, s: seq<Tagged<V, ()>>, l: Checker, rep: Report): Option<Report> {
    if CountOf(s, l) != 1 then Put(rep, Entry(ADAPTER_IDENTIFIER, WrongNumberOfInherents))
    else Judge(hooks, Leaf(l), data, AtLeaf(The(s, l).tx), rep)
  }

  /** Leaf by leaf, up to the first fatal error or panic. */
  function CheckLeaves<V, D>(hooks: Hooks<V, D>,
                             data: D, s: seq<Tagged<V, ()>>, leaves: seq<Checker>, rep: Report): Option<Report> {
    if leaves == [] then Some(rep)
    else
      var r := CheckLeaves(hooks, data, s, leaves[..|leaves| - 1], rep);
      if r.None? || r.value.fatal then r else CheckAt(hooks, data, s, leaves[|leaves| - 1], r.value)
  }

  lemma {:induction false} CheckLeavesConcat<V, D>(hooks: Hooks<V, D>, data: D, s: seq<Tagged<V, ()>>, a: seq<Checker>,
                                                   b: seq<Checker>, rep: Report)
    ensures var r := CheckLeaves(hooks, data, s, a, rep);
            CheckLeaves(hooks, data, s, a + b, rep) ==
            if r.None? || r.value.fatal then r else CheckLeaves(hooks, data, s, b, r.value)
  {
    if b == [] {
      assert a + b == a;
    } else {
      CheckLeavesConcat(hooks, data, s, a, b[..|b| - 1], rep);
      assert (a + b)[..|a + b| - 1] == a + b[..|b| - 1];
    }
  }

  lemma {:induction false} CheckAtLifts<V, D>(hooks: Hooks<V, D>, data: D, s: seq<Tagged<V, ()>>, i: nat, l: Checker,
                                              rep: Report)
    ensures CheckAt(hooks, data, s, Variant(i, l), rep) == CheckAt(hooks, data, Select(i, s), l, rep)
  {
    SelectCount(i, s, l);
    if CountOf(s, Variant(i, l)) == 1 {
      SelectThe(i, s, l);
    }
  }

  lemma {:induction false} CheckLeavesLift<V, D>(hooks: Hooks<V, D>, data: D, s: seq<Tagged<V, ()>>, i: nat,
                                                 leaves: seq<Checker>, rep: Report)
    ensures CheckLeaves(hooks, data, s, Lift(i, leaves), rep) == CheckLeaves(hooks, data, Select(i, s), leaves, rep)
  {
    if leaves == [] {
      assert Lift(i, leaves) == [];
    } else {
      var n := |leaves| - 1;
      CheckLeavesLift(hooks, data, s, i, leaves[..n], rep);
      assert Lift(i, leaves)[..n] == Lift(i, leaves[..n]) && Lift(i, leaves)[n] == Variant(i, leaves[n]);
      var r := CheckLeaves(hooks, data, Select(i, s), leaves[..n], rep);
      if r.Some? && !r.value.fatal {
        CheckAtLifts(hooks, data, s, i, leaves[n], r.value);
      }
    }
  }

  lemma {:induction false} CheckOneLeaf<V, D>(hooks: Hooks<V, D>, data: D, s: seq<Tagged<V, ()>>, l: Checker,
                                              rep: Report)
    requires !rep.fatal
    ensures CheckLeaves(hooks, data, s, [l], rep) == CheckAt(hooks, data, s, l, rep)
  {
    assert [l][..0] == [];
    assert CheckLeaves(hooks, data, s, [l][..0], rep) == Some(rep);
  }

  /** No inherent is ever handed to a plain checker. */
  lemma SimpleGetsNothing<V, T>(s: seq<Tagged<V, T>>)
    ensures s != [] ==> !AllTyped(Simple, s)
  {
    if s != [] {
      var c := s[0].tx.checker;
      assert WellTyped(Simple, c) ==> !IsInherent(c);
    }
  }

  /** Splitting by variant, handing down and returning early amounts to one pass over the leaves in tree order. */
  lemma {:induction false} CheckIsOnePass<V, D>(hooks: Hooks<V, D>, tree: Tree, data: D, s: seq<Tagged<V, ()>>,
                                                rep: Report)
    requires AllTyped(tree, s) && !rep.fatal
    ensures CheckAll(hooks, tree, data, s, rep) == CheckLeaves(hooks, data, s, Leaves(tree), rep)
    decreases tree, Width(tree) + 1
  {
    match tree
    case Simple =>
      SimpleGetsNothing(s);
    case Inherent(call) =>
      CountAll(s, Adapted(call));
      CheckOneLeaf(hooks, data, s, Adapted(call), rep);
      if |s| == 1 {
        assert The(s, Adapted(call)) == s[0];
      }
    case Aggregate(_) => CheckFromIsOnePass(hooks, tree, 0, data, s, rep);
  }

  lemma {:induction false} CheckFromIsOnePass<V, D>(hooks: Hooks<V, D>, tree: Tree, i: nat, data: D,
                                                    s: seq<Tagged<V, ()>>, rep: Report)
    requires tree.Aggregate? && i <= |tree.variants| && AllTyped(tree, s) && !rep.fatal
    ensures CheckFrom(hooks, tree, i, data, s, rep) == CheckLeaves(hooks, data, s, LeavesFrom(tree, i), rep)
    decreases tree, |tree.variants| - i
  {
    if i < |tree.variants| {
      var below, others := Leaves(tree.variants[i]), LeavesFrom(tree, i + 1);
      SelectTyped(tree, i, s);
      CheckIsOnePass(hooks, tree.variants[i], data, Select(i, s), rep);
      CheckLeavesLift(hooks, data, s, i, below, rep);
      CheckLeavesConcat(hooks, data, s, Lift(i, below), others, rep);
      var here := CheckAll(hooks, tree.variants[i], data, Select(i, s), rep);
      if here.Some? && !here.value.fatal {
        CheckFromIsOnePass(hooks, tree, i + 1, data, s, here.value);
      }
    }
  }

  // ----- What the pass finds

  /** What leaf `l`'s piece says about its inherent, if it has exactly one. */
  function OpinionOf<V, D>(hooks: Hooks<V, D>, data: D, s: seq<Tagged<V, ()>>, l: Checker): Option<Opinion> {
    if CountOf(s, l) != 1 then None else Some(hooks.check(Leaf(l), data, The(s, l).tx.(checker := Plain(Leaf(l)))))
  }

  /** The errors that are not fatal, in the order of the leaves. */
  function Complaints<V, D>(hooks: Hooks<V, D>, data: D, s: seq<Tagged<V, ()>>, leaves: seq<Checker>): seq<Entry> {
    if leaves == [] then []
    else
      var l := leaves[|leaves| - 1];
      Complaints(hooks, data, s, leaves[..|leaves| - 1]) +
      match OpinionOf(hooks, data, s, l)
      case Some(Raised(code, severe)) =>
        if severe then [] else [Entry(hooks.identifier(Leaf(l)), FromPiece(Leaf(l), code, severe))]
      case _ => []
  }

  /** Leaf `k` has one inherent, and its piece raises nothing fatal, nor a second error under one identifier. */
  ghost predicate Clears<V, D>(hooks: Hooks<V, D>, data: D, s: seq<Tagged<V, ()>>, leaves: seq<Checker>, rep: Report,
                               k: nat)
    requires k < |leaves|
  {
    match OpinionOf(hooks, data, s, leaves[k])
    case Some(Silent) => true
    case Some(Raised(_, severe)) =>
      !severe && !Names(rep.errors + Complaints(hooks, data, s, leaves[..k]), hooks.identifier(Leaf(leaves[k])))
    case _ => false
  }

  /** Leaf `k` has no inherent or several, or its piece raises a fatal error. */
  predicate Fails<V, D>(hooks: Hooks<V, D>, data: D, s: seq<Tagged<V, ()>>, leaves: seq<Checker>, k: nat)
    requires k < |leaves|
  {
    match OpinionOf(hooks, data, s, leaves[k])
    case None => true
    case Some(Raised(_, severe)) => severe
    case _ => false
  }

  /** Leaf `k`'s piece panics by itself, or because its error repeats an identifier. */
  ghost predicate Panics<V, D>(hooks: Hooks<V, D>, data: D, s: seq<Tagged<V, ()>>, leaves: seq<Checker>, rep: Report,
                               k: nat)
    requires k < |leaves|
  {
    match OpinionOf(hooks, data, s, leaves[k])
    case Some(Panicked) => true
    case Some(Raised(_, severe)) =>
      !severe && Names(rep.errors + Complaints(hooks, data, s, leaves[..k]), hooks.identifier(Leaf(leaves[k])))
    case _ => false
  }

  ghost predicate AllClear<V, D>(hooks: Hooks<V, D>, data: D, s: seq<Tagged<V, ()>>, leaves: seq<Checker>, rep: Report,
                                 n: nat)
    requires n <= |leaves|
  {
    forall k :: 0 <= k < n ==> Clears(hooks, data, s, leaves, rep, k)
  }

  /** The error that leaf `l` ends the check with: the wrong number of inherents, or the fatal one its piece raised. */
  ghost predicate Blames<V, D>(hooks: Hooks<V, D>, data: D, s: seq<Tagged<V, ()>>, l: Checker, e: Entry) {
    if CountOf(s, l) != 1 then e == Entry(ADAPTER_IDENTIFIER, WrongNumberOfInherents)
    else
      exists code ::
        && hooks.check(Leaf(l), data, The(s, l).tx.(checker := Plain(Leaf(l)))) == Raised(code, true)
        && e == Entry(hooks.identifier(Leaf(l)), FromPiece(Leaf(l), code, true))
  }

  /** The report holds nothing but the error that leaf `l` ends the check with. */
  ghost predicate EndsAt<V, D>(hooks: Hooks<V, D>, data: D, s: seq<Tagged<V, ()>>, l: Checker, rep: Report) {
    rep.fatal && |rep.errors| == 1 && Blames(hooks, data, s, l, rep.errors[0])
  }

  /** The check of leaf `k` on top of the complaints before it. */
  lemma {:induction false} CheckNext<V, D>(hooks: Hooks<V, D>, data: D, s: seq<Tagged<V, ()>>, leaves: seq<Checker>,
                                           rep: Report, k: nat)
    requires k < |leaves| && !rep.fatal
    ensures var r := CheckAt(hooks, data, s, leaves[k],
                             Report(false, rep.errors + Complaints(hooks, data, s, leaves[..k])));
            && (Clears(hooks, data, s, leaves, rep, k) ==>
                  r == Some(Report(false, rep.errors + Complaints(hooks, data, s, leaves[..k + 1]))))
            && (Fails(hooks, data, s, leaves, k) ==> r.Some? && EndsAt(hooks, data, s, leaves[k], r.value))
            && (Panics(hooks, data, s, leaves, rep, k) ==> r.None?)
  {
    var upTo, before := leaves[..k + 1], Complaints(hooks, data, s, leaves[..k]);
    assert upTo[..k] == leaves[..k] && upTo[k] == leaves[k];
    if CountOf(s, leaves[k]) == 1 {
      TheHasLeaf(s, leaves[k]);
    }
    var now := Complaints(hooks, data, s, upTo);
    if Clears(hooks, data, s, leaves, rep, k) {
      if OpinionOf(hooks, data, s, leaves[k]).value.Silent? {
        assert now == before;
      } else {
        assert rep.errors + now == (rep.errors + before) + [now[|now| - 1]];
      }
    }
  }

  lemma {:induction false} PassedSoFar<V, D>(hooks: Hooks<V, D>, data: D, s: seq<Tagged<V, ()>>, leaves: seq<Checker>,
                                             rep: Report, n: nat)
    requires n <= |leaves| && !rep.fatal && AllClear(hooks, data, s, leaves, rep, n)
    ensures CheckLeaves(hooks, data, s, leaves[..n], rep) ==
            Some(Report(false, rep.errors + Complaints(hooks, data, s, leaves[..n])))
  {
    if n == 0 {
      assert rep.errors + [] == rep.errors;
    } else {
      PassedSoFar(hooks, data, s, leaves, rep, n - 1);
      CheckNext(hooks, data, s, leaves, rep, n - 1);
      assert leaves[..n][..n - 1] == leaves[..n - 1];
    }
  }

  /** The first leaf that does not clear decides the outcome. */
  lemma {:induction false} FirstDecides<V, D>(hooks: Hooks<V, D>, data: D, s: seq<Tagged<V, ()>>, leaves: seq<Checker>,
                                              rep: Report, k: nat)
    requires k < |leaves| && !rep.fatal && AllClear(hooks, data, s, leaves, rep, k)
    requires !Clears(hooks, data, s, leaves, rep, k)
    ensures var r := CheckLeaves(hooks, data, s, leaves, rep);
            if Panics(hooks, data, s, leaves, rep, k) then r.None?
            else Fails(hooks, data, s, leaves, k) && r.Some? && EndsAt(hooks, data, s, leaves[k], r.value)
  {
    PassedSoFar(hooks, data, s, leaves, rep, k);
    CheckNext(hooks, data, s, leaves, rep, k);
    var upTo := leaves[..k + 1];
    assert upTo[..k] == leaves[..k] && upTo[k] == leaves[k];
    assert leaves == upTo + leaves[k + 1..];
    CheckLeavesConcat(hooks, data, s, upTo, leaves[k + 1..], rep);
  }

  lemma {:induction false} FirstThatDoesNot<V, D>(hooks: Hooks<V, D>, data: D, s: seq<Tagged<V, ()>>,
                                                  leaves: seq<Checker>, rep: Report, n: nat) returns (k: nat)
    requires n <= |leaves| && !AllClear(hooks, data, s, leaves, rep, n)
    ensures k < n && AllClear(hooks, data, s, leaves, rep, k) && !Clears(hooks, data, s, leaves, rep, k)
  {
    if AllClear(hooks, data, s, leaves, rep, n - 1) {
      k := n - 1;
    } else {
      k := FirstThatDoesNot(hooks, data, s, leaves, rep, n - 1);
    }
  }

  /** The outcome of the pass, in all three cases. */
  lemma {:induction false} PassExact<V, D>(hooks: Hooks<V, D>, data: D, s: seq<Tagged<V, ()>>, leaves: seq<Checker>,
                                           rep: Report)
    requires !rep.fatal
    ensures var r := CheckLeaves(hooks, data, s, leaves, rep);
            && (r.Some? && !r.value.fatal <==> AllClear(hooks, data, s, leaves, rep, |leaves|))
            && (r.Some? && !r.value.fatal ==> r.value.errors == rep.errors + Complaints(hooks, data, s, leaves))
            && (forall k ::
                  && 0 <= k < |leaves| && AllClear(hooks, data, s, leaves, rep, k)
                  && Fails(hooks, data, s, leaves, k) ==>
                    r.Some? && EndsAt(hooks, data, s, leaves[k], r.value))
            && (r.Some? && r.value.fatal <==>
                  exists k ::
                    0 <= k < |leaves| && AllClear(hooks, data, s, leaves, rep, k) && Fails(hooks, data, s, leaves, k))
            && (r.None? <==>
                  exists k ::
                    && 0 <= k < |leaves| && AllClear(hooks, data, s, leaves, rep, k)
                    && Panics(hooks, data, s, leaves, rep, k))
  {
    var n := |leaves|;
    forall k | 0 <= k < n && AllClear(hooks, data, s, leaves, rep, k) && !Clears(hooks, data, s, leaves, rep, k)
      ensures var r := CheckLeaves(hooks, data, s, leaves, rep);
              if Panics(hooks, data, s, leaves, rep, k) then r.None?
              else Fails(hooks, data, s, leaves, k) && r.Some? && EndsAt(hooks, data, s, leaves[k], r.value)
    {
      FirstDecides(hooks, data, s, leaves, rep, k);
    }
    if AllClear(hooks, data, s, leaves, rep, n) {
      assert leaves[..n] == leaves;
      PassedSoFar(hooks, data, s, leaves, rep, n);
    } else {
      var k := FirstThatDoesNot(hooks, data, s, leaves, rep, n);
      FirstDecides(hooks, data, s, leaves, rep, k);
    }
  }

  /**
   Checking ends without a fatal error exactly when every inherent leaf has exactly one transaction
   and clears; then the report holds the pieces' errors in tree order. It ends with a fatal error
   exactly when the first leaf that does not clear fails; then the report holds that leaf's error
   alone. It panics exactly when the first leaf that does not clear panics. The stub's assertion
   never fires.
   */
  lemma {:induction false} CheckExact<V, D>(hooks: Hooks<V, D>, tree: Tree, data: D, s: seq<Tagged<V, ()>>, rep: Report)
    requires AllTyped(tree, s) && !rep.fatal
    ensures var (r, leaves) := (CheckAll(hooks, tree, data, s, rep), Leaves(tree));
            && (r.Some? && !r.value.fatal <==> AllClear(hooks, data, s, leaves, rep, |leaves|))
            && (r.Some? && !r.value.fatal ==> r.value.errors == rep.errors + Complaints(hooks, data, s, leaves))
            && (forall k ::
                  && 0 <= k < |leaves| && AllClear(hooks, data, s, leaves, rep, k)
                  && Fails(hooks, data, s, leaves, k) ==>
                    r.Some? && EndsAt(hooks, data, s, leaves[k], r.value))
            && (r.Some? && r.value.fatal <==>
                  exists k ::
                    0 <= k < |leaves| && AllClear(hooks, data, s, leaves, rep, k) && Fails(hooks, data, s, leaves, k))
            && (r.None? <==>
                  exists k ::
                    && 0 <= k < |leaves| && AllClear(hooks, data, s, leaves, rep, k)
                    && Panics(hooks, data, s, leaves, rep, k))
  {
    CheckIsOnePass(hooks, tree, data, s, rep);
    PassExact(hooks, data, s, Leaves(tree), rep);
  }

  // ----- From checking to creating

  function Untagged<V>(ts: seq<Transaction<V, Checker>>): (r: seq<Tagged<V, ()>>)
    ensures |r| == |ts| && forall k :: 0 <= k < |ts| ==> r[k] == Tagged(ts[k], ())
  {
    seq(|ts|, k requires 0 <= k < |ts| => Tagged(ts[k], ()))
  }

  /** The report on a block's opening inherents. */
  function CheckBlock<V, D>(hooks: Hooks<V, D>, tree: Tree, data: D, ts: seq<Transaction<V, Checker>>): Option<Report> {
    CheckAll(hooks, tree, data, Untagged(OpeningInherents(ts)), Report(false, []))
  }

  lemma {:induction false} SameCount<V, S, T>(a: seq<Tagged<V, S>>, b: seq<Tagged<V, T>>, l: Checker)
    requires |a| == |b| && forall k :: 0 <= k < |a| ==> a[k].tx == b[k].tx
    ensures CountOf(a, l) == CountOf(b, l)
  {
    if a == [] {
    } else {
      assert forall k :: 0 <= k < |a| - 1 ==> a[1..][k] == a[k + 1] && b[1..][k] == b[k + 1];
      SameCount(a[1..], b[1..], l);
    }
  }

  /** A block whose inherents are checked without a fatal error lets its child be given inherents. */
  lemma {:induction false} CheckedHasChild<V(!new), D(!new)>(hooks: Hooks<V, D>, tree: Tree,
                                                             hash: Transaction<V, Checker> -> H256, importing: D,
                                                             authoring: D, ts: seq<Transaction<V, Checker>>)
    requires Faithful(hooks) && AllTyped(tree, Untagged(OpeningInherents(ts)))
    requires Supplies(hooks, Leaves(tree), authoring)
    requires var r := CheckBlock(hooks, tree, importing, ts); r.Some? && !r.value.fatal
    ensures InherentExtrinsics(hooks, tree, hash, authoring, ts).Some?
  {
    var opening, leaves := OpeningInherents(ts), Leaves(tree);
    var s, prev := Untagged(opening), Annotate(hash, opening);
    CheckExact(hooks, tree, importing, s, Report(false, []));
    forall k | 0 <= k < |leaves| ensures CountOf(prev, leaves[k]) == 1 {
      assert Clears(hooks, importing, s, leaves, Report(false, []), k);
      SameCount(s, prev, leaves[k]);
    }
    assert forall k :: 0 <= k < |prev| ==> prev[k].tx == s[k].tx;
    CreateSupplied(hooks, tree, authoring, prev);
  }
}
