/**
 The inherent pipeline through recursive aggregation (`tuxedo-core/aggregator/src/lib.rs`,
 `tuxedo-core/src/inherents.rs`, `tuxedo-core/src/constraint_checker.rs`).

 An aggregate checker type is a tree whose leaves are plain checkers and inherent adapters. At
 every aggregate the list of transactions is split by variant, handed down one layer, and what
 comes back is wrapped up again. A transaction is tagged on the way with its outermost hash.
 */
module Inherents {
  import opened Scale
  import opened Types
  import opened Ledger
  import opened Wardrobe

  datatype Tree = Simple | Inherent(call: Call) | Aggregate(variants: seq<Tree>)

  /** A transaction with whatever travels along with it. */
  datatype Tagged<V, T> = Tagged(tx: Transaction<V, Checker>, tag: T)

  /** What a piece's own check of its inherent does: nothing, put one error into the report, or panic. */
  datatype Opinion = Silent | Raised(code: nat, severe: bool) | Panicked

  /**
   What a piece with inherents provides; `D` is the inherent data of the authoring or importing
   node. `create` returns nothing where the piece panics, for instance for want of its data.
   `identifier` is the identifier under which the piece reports errors.
   */
  datatype Hooks<!V, !D> = Hooks(
    create: (Call, D, Transaction<V, Checker>, H256) -> Option<Transaction<V, Checker>>,
    check: (Call, D, Transaction<V, Checker>) -> Opinion,
    identifier: Call -> Bytes,
    genesis: Call -> seq<Transaction<V, Checker>>)

  function Width(tree: Tree): nat {
    if tree.Aggregate? then |tree.variants| else 0
  }

  /** The checker value `c` belongs to the checker type `tree`. */
  predicate WellTyped(tree: Tree, c: Checker)
    decreases tree
  {
    match tree
    case Simple => c.Plain?
    case Inherent(call) => c == Adapted(call)
    case Aggregate(vs) => c.Variant? && c.index < |vs| && WellTyped(vs[c.index], c.inner)
  }

  // ----- The inherent leaves, in tree order

  function Lift(i: nat, s: seq<Checker>): (r: seq<Checker>)
    ensures |r| == |s| && forall k :: 0 <= k < |s| ==> r[k] == Variant(i, s[k])
  {
    seq(|s|, k requires 0 <= k < |s| => Variant(i, s[k]))
  }

  function Leaves(tree: Tree): seq<Checker>
    decreases tree, Width(tree) + 1
  {
    match tree
    case Simple => []
    case Inherent(call) => [Adapted(call)]
    case Aggregate(_) => LeavesFrom(tree, 0)
  }

  function LeavesFrom(tree: Tree, i: nat): seq<Checker>
    requires tree.Aggregate? && i <= |tree.variants|
    decreases tree, |tree.variants| - i
  {
    if i == |tree.variants| then [] else Lift(i, Leaves(tree.variants[i])) + LeavesFrom(tree, i + 1)
  }

  lemma {:induction false} LeavesAreTyped(tree: Tree)
    ensures forall l :: l in Leaves(tree) ==> WellTyped(tree, l) && IsInherent(l)
    decreases tree, Width(tree) + 1
  {
    if tree.Aggregate? {
      LeavesFromAreTyped(tree, 0);
    }
  }

  lemma {:induction false} LeavesFromAreTyped(tree: Tree, i: nat)
    requires tree.Aggregate? && i <= |tree.variants|
    ensures forall l :: l in LeavesFrom(tree, i) ==> WellTyped(tree, l) && IsInherent(l) && l.index >= i
    decreases tree, |tree.variants| - i
  {
    if i < |tree.variants| {
      LeavesAreTyped(tree.variants[i]);
      LeavesFromAreTyped(tree, i + 1);
      var here := Lift(i, Leaves(tree.variants[i]));
      forall l | l in LeavesFrom(tree, i) ensures WellTyped(tree, l) && IsInherent(l) && l.index >= i {
        if l in here {
          var k :| 0 <= k < |here| && here[k] == l;
          assert l.inner in Leaves(tree.variants[i]);
        }
      }
    }
  }

  /** No leaf is listed twice. */
  lemma {:induction false} LeavesAreDistinct(tree: Tree)
    ensures NoDuplicates(Leaves(tree))
    decreases tree, Width(tree) + 1
  {
    if tree.Aggregate? {
      LeavesFromAreDistinct(tree, 0);
    }
  }

  lemma {:induction false} LeavesFromAreDistinct(tree: Tree, i: nat)
    requires tree.Aggregate? && i <= |tree.variants|
    ensures NoDuplicates(LeavesFrom(tree, i))
    decreases tree, |tree.variants| - i
  {
    if i < |tree.variants| {
      LeavesAreDistinct(tree.variants[i]);
      LeavesFromAreDistinct(tree, i + 1);
      LeavesFromAreTyped(tree, i + 1);
      var here, rest := Lift(i, Leaves(tree.variants[i])), LeavesFrom(tree, i + 1);
      forall a, b | 0 <= a < b < |here + rest| ensures (here + rest)[a] != (here + rest)[b] {
        if a < |here| <= b {
          assert (here + rest)[b] == rest[b - |here|];
          assert rest[b - |here|] in rest;
        }
      }
    }
  }

  // ----- Moving between layers

  function Down<V>(t: Transaction<V, Checker>): Transaction<V, Checker>
    requires t.checker.Variant?
  {
    t.(checker := t.checker.inner)
  }

  function Up<V>(i: nat, ts: seq<Transaction<V, Checker>>): (r: seq<Transaction<V, Checker>>)
    ensures |r| == |ts| && forall k :: 0 <= k < |ts| ==> r[k] == ts[k].(checker := Variant(i, ts[k].checker))
  {
    seq(|ts|, k requires 0 <= k < |ts| => ts[k].(checker := Variant(i, ts[k].checker)))
  }

  /** The transactions of variant `i`, one layer down. */
  function Select<V, T>(i: nat, s: seq<Tagged<V, T>>): seq<Tagged<V, T>> {
    if s == [] then []
    else
      var x := s[0];
      (if x.tx.checker.Variant? && x.tx.checker.index == i then [Tagged(Down(x.tx), x.tag)] else []) + Select(i, s[1..])
  }

  /** A transaction as its leaf sees it, with every wrapper taken off. */
  function AtLeaf<V>(t: Transaction<V, Checker>): Transaction<V, Checker> {
    t.(checker := Plain(Leaf(t.checker)))
  }

  function CountOf<V, T>(s: seq<Tagged<V, T>>, l: Checker): nat {
    if s == [] then 0 else (if s[0].tx.checker == l then 1 else 0) + CountOf(s[1..], l)
  }

  /** The first transaction with the given checker. */
  function The<V, T>(s: seq<Tagged<V, T>>, l: Checker): Tagged<V, T>
    requires CountOf(s, l) > 0
  {
    if s[0].tx.checker == l then s[0] else The(s[1..], l)
  }

  ghost predicate AllTyped<V, T>(tree: Tree, s: seq<Tagged<V, T>>) {
    forall k :: 0 <= k < |s| ==> WellTyped(tree, s[k].tx.checker) && IsInherent(s[k].tx.checker)
  }

  lemma {:induction false} SelectTyped<V, T>(tree: Tree, i: nat, s: seq<Tagged<V, T>>)
    requires tree.Aggregate? && i < |tree.variants| && AllTyped(tree, s)
    ensures AllTyped(tree.variants[i], Select(i, s))
  {
    if s == [] {
    } else {
      assert forall k :: 0 <= k < |s| - 1 ==> s[1..][k] == s[k + 1];
      SelectTyped(tree, i, s[1..]);
    }
  }

  lemma {:induction false} SelectCount<V, T>(i: nat, s: seq<Tagged<V, T>>, l: Checker)
    ensures CountOf(Select(i, s), l) == CountOf(s, Variant(i, l))
  {
    if s == [] {
    } else {
      SelectCount(i, s[1..], l);
      var x := s[0];
      if x.tx.checker.Variant? && x.tx.checker.index == i {
        assert Select(i, s)[1..] == Select(i, s[1..]);
      } else {
        assert Select(i, s) == Select(i, s[1..]);
      }
    }
  }

  lemma {:induction false} SelectThe<V, T>(i: nat, s: seq<Tagged<V, T>>, l: Checker)
    requires CountOf(s, Variant(i, l)) > 0
    ensures CountOf(Select(i, s), l) > 0
    ensures var (a, b) := (The(s, Variant(i, l)), The(Select(i, s), l));
            a.tag == b.tag && AtLeaf(a.tx) == AtLeaf(b.tx)
  {
    SelectCount(i, s, l);
    var x := s[0];
    if x.tx.checker != Variant(i, l) {
      SelectThe(i, s[1..], l);
      if x.tx.checker.Variant? && x.tx.checker.index == i {
        assert Select(i, s)[1..] == Select(i, s[1..]);
      } else {
        assert Select(i, s) == Select(i, s[1..]);
      }
    }
  }

  lemma {:induction false} TheHasLeaf<V, T>(s: seq<Tagged<V, T>>, l: Checker)
    requires CountOf(s, l) > 0
    ensures The(s, l) in s && The(s, l).tx.checker == l
  {
    if s[0].tx.checker != l {
      TheHasLeaf(s[1..], l);
    }
  }

  // ----- Creating inherents

  /** A piece's hooks return transactions of the piece itself. */
  ghost predicate Faithful<V(!new), D(!new)>(hooks: Hooks<V, D>) {
    && (forall call, d, t, h :: hooks.create(call, d, t, h).Some? ==>
          hooks.create(call, d, t, h).value.checker == Plain(call))
    && (forall call, k :: 0 <= k < |hooks.genesis(call)| ==> hooks.genesis(call)[k].checker == Plain(call))
  }

  /** Nothing where the source panics. */
  function Create<V, D>(hooks: Hooks<V, D>,
                        tree: Tree, data: D, prev: seq<Tagged<V, H256>>): Option<seq<Transaction<V, Checker>>>
    decreases tree, Width(tree) + 1
  {
    match tree
    case Simple => Some([])
    case Inherent(call) =>
      if |prev| > 1 || prev == [] then None
      else
        (match hooks.create(call, data, AtLeaf(prev[0].tx), prev[0].tag)
         case None => None
         case Some(made) => Some([made.(checker := Adapted(Leaf(made.checker)))]))
    case Aggregate(_) => CreateFrom(hooks, tree, 0, data, prev)
  }

  function CreateFrom<V, D>(hooks: Hooks<V, D>, tree: Tree,
                            i: nat, data: D, prev: seq<Tagged<V, H256>>): Option<seq<Transaction<V, Checker>>>
    requires tree.Aggregate? && i <= |tree.variants|
    decreases tree, |tree.variants| - i
  {
    if i == |tree.variants| then Some([])
    else
      match Create(hooks, tree.variants[i], data, Select(i, prev))
      case None => None
      case Some(here) =>
        match CreateFrom(hooks, tree, i + 1, data, prev)
        case None => None
        case Some(rest) => Some(Up(i, here) + rest)
  }

  /** Each of these leaves has exactly one transaction. */
  ghost predicate OneEach<V, T>(leaves: seq<Checker>, s: seq<Tagged<V, T>>) {
    forall k :: 0 <= k < |leaves| ==> CountOf(s, leaves[k]) == 1
  }

  /** What the piece at leaf `l` makes of its transaction in the previous block. */
  function MadeAt<V, D>(hooks: Hooks<V, D>,
                        data: D, prev: seq<Tagged<V, H256>>, l: Checker): Option<Transaction<V, Checker>>
    requires CountOf(prev, l) > 0
  {
    var x := The(prev, l);
    hooks.create(Leaf(l), data, x.tx.(checker := Plain(Leaf(l))), x.tag)
  }

  /** Leaf `l` has exactly one transaction, and its piece does not panic on it. */
  ghost predicate CanMake<V, D>(hooks: Hooks<V, D>, data: D, prev: seq<Tagged<V, H256>>, l: Checker) {
    CountOf(prev, l) == 1 && MadeAt(hooks, data, prev, l).Some?
  }

  ghost predicate CanMakeAll<V, D>(hooks: Hooks<V, D>, data: D, prev: seq<Tagged<V, H256>>, leaves: seq<Checker>) {
    forall k :: 0 <= k < |leaves| ==> CanMake(hooks, data, prev, leaves[k])
  }

  /** One transaction per leaf, each made by its own piece, in outermost form. */
  ghost predicate MadeForAll<V, D>(hooks: Hooks<V, D>, data: D, prev: seq<Tagged<V, H256>>, leaves: seq<Checker>,
                                   r: seq<Transaction<V, Checker>>) {
    && |r| == |leaves|
    && forall k :: 0 <= k < |r| ==>
         && CanMake(hooks, data, prev, leaves[k])
         && r[k] == MadeAt(hooks, data, prev, leaves[k]).value.(checker := leaves[k])
  }

  lemma {:induction false} CountAll<V, T>(s: seq<Tagged<V, T>>, l: Checker)
    requires forall k :: 0 <= k < |s| ==> s[k].tx.checker == l
    ensures CountOf(s, l) == |s|
  {
    if s == [] {
    } else {
      assert forall k :: 0 <= k < |s| - 1 ==> s[1..][k] == s[k + 1];
      CountAll(s[1..], l);
    }
  }

  lemma {:induction false} CanMakeLifts<V, D>(hooks: Hooks<V, D>, data: D, prev: seq<Tagged<V, H256>>, i: nat,
                                              l: Checker)
    ensures CanMake(hooks, data, prev, Variant(i, l)) <==> CanMake(hooks, data, Select(i, prev), l)
    ensures CanMake(hooks, data, prev, Variant(i, l)) ==>
              MadeAt(hooks, data, prev, Variant(i, l)) == MadeAt(hooks, data, Select(i, prev), l)
  {
    SelectCount(i, prev, l);
    if CountOf(prev, Variant(i, l)) == 1 {
      SelectThe(i, prev, l);
    }
  }

  lemma {:induction false} CanMakeAllLifts<V, D>(hooks: Hooks<V, D>, data: D, prev: seq<Tagged<V, H256>>, i: nat,
                                                 leaves: seq<Checker>)
    ensures CanMakeAll(hooks, data, prev, Lift(i, leaves)) <==> CanMakeAll(hooks, data, Select(i, prev), leaves)
  {
    forall k | 0 <= k < |leaves|
      ensures CanMake(hooks, data, prev, Lift(i, leaves)[k]) <==> CanMake(hooks, data, Select(i, prev), leaves[k])
    {
      CanMakeLifts(hooks, data, prev, i, leaves[k]);
    }
  }

  /** Lifting what variant `i` made gives what the whole tree should make for its leaves. */
  lemma {:induction false} MadeLifts<V, D>(hooks: Hooks<V, D>, data: D, prev: seq<Tagged<V, H256>>, i: nat,
                                           leaves: seq<Checker>, r: seq<Transaction<V, Checker>>)
    requires MadeForAll(hooks, data, Select(i, prev), leaves, r)
    ensures MadeForAll(hooks, data, prev, Lift(i, leaves), Up(i, r))
  {
    forall k | 0 <= k < |r|
      ensures CanMake(hooks, data, prev, Lift(i, leaves)[k])
      ensures Up(i, r)[k] == MadeAt(hooks, data, prev, Lift(i, leaves)[k]).value.(checker := Lift(i, leaves)[k])
    {
      CanMakeLifts(hooks, data, prev, i, leaves[k]);
    }
  }

  lemma CanMakeConcat<V, D>(hooks: Hooks<V, D>, data: D, prev: seq<Tagged<V, H256>>, a: seq<Checker>, b: seq<Checker>)
    ensures CanMakeAll(hooks, data, prev, a + b) <==>
            CanMakeAll(hooks, data, prev, a) && CanMakeAll(hooks, data, prev, b)
  {
    if CanMakeAll(hooks, data, prev, a + b) {
      forall k | 0 <= k < |a| ensures CanMake(hooks, data, prev, a[k]) {
        assert (a + b)[k] == a[k];
      }
      forall k | 0 <= k < |b| ensures CanMake(hooks, data, prev, b[k]) {
        assert (a + b)[|a| + k] == b[k];
      }
    }
  }

  lemma MadeConcat<V, D>(hooks: Hooks<V, D>, data: D, prev: seq<Tagged<V, H256>>, a: seq<Checker>, b: seq<Checker>,
                         x: seq<Transaction<V, Checker>>, y: seq<Transaction<V, Checker>>)
    requires MadeForAll(hooks, data, prev, a, x) && MadeForAll(hooks, data, prev, b, y)
    ensures MadeForAll(hooks, data, prev, a + b, x + y)
  {
  }

  /**
   Creation succeeds exactly when every inherent leaf had exactly one transaction in the previous
   block and no piece panics on its own, and then yields one transaction per leaf, in tree order,
   each made by its own piece from its own previous transaction and that transaction's outermost
   hash.
   */
  lemma {:induction false} CreateExact<V(!new), D(!new)>(hooks: Hooks<V, D>, tree: Tree, data: D,
                                                         prev: seq<Tagged<V, H256>>)
    requires Faithful(hooks) && AllTyped(tree, prev)
    ensures var r := Create(hooks, tree, data, prev);
            && (r.Some? <==> CanMakeAll(hooks, data, prev, Leaves(tree)))
            && (r.Some? ==> MadeForAll(hooks, data, prev, Leaves(tree), r.value))
    decreases tree, Width(tree) + 1
  {
    match tree
    case Simple =>
    case Inherent(call) =>
      CountAll(prev, Adapted(call));
      assert Leaves(tree)[0] == Adapted(call);
      if |prev| == 1 {
        assert The(prev, Adapted(call)) == prev[0];
      }
    case Aggregate(_) => CreateFromExact(hooks, tree, 0, data, prev);
  }

  lemma {:induction false} CreateFromExact<V(!new), D(!new)>(hooks: Hooks<V, D>, tree: Tree, i: nat, data: D,
                                                             prev: seq<Tagged<V, H256>>)
    requires Faithful(hooks) && tree.Aggregate? && i <= |tree.variants| && AllTyped(tree, prev)
    ensures var r := CreateFrom(hooks, tree, i, data, prev);
            && (r.Some? <==> CanMakeAll(hooks, data, prev, LeavesFrom(tree, i)))
            && (r.Some? ==> MadeForAll(hooks, data, prev, LeavesFrom(tree, i), r.value))
    decreases tree, |tree.variants| - i
  {
    if i < |tree.variants| {
      var below, others := Leaves(tree.variants[i]), LeavesFrom(tree, i + 1);
      var here := Create(hooks, tree.variants[i], data, Select(i, prev));
      var rest := CreateFrom(hooks, tree, i + 1, data, prev);
      SelectTyped(tree, i, prev);
      CreateExact(hooks, tree.variants[i], data, Select(i, prev));
      CreateFromExact(hooks, tree, i + 1, data, prev);
      CanMakeAllLifts(hooks, data, prev, i, below);
      CanMakeConcat(hooks, data, prev, Lift(i, below), others);
      if here.Some? && rest.Some? {
        MadeLifts(hooks, data, prev, i, below, here.value);
        MadeConcat(hooks, data, prev, Lift(i, below), others, Up(i, here.value), rest.value);
      }
    }
  }

  // ----- Genesis

  function WrapAll<V>(ts: seq<Transaction<V, Checker>>): (r: seq<Transaction<V, Checker>>)
    ensures |r| == |ts| && forall k :: 0 <= k < |ts| ==> r[k] == ts[k].(checker := Adapted(Leaf(ts[k].checker)))
  {
    seq(|ts|, k requires 0 <= k < |ts| => ts[k].(checker := Adapted(Leaf(ts[k].checker))))
  }

  function GenesisTransactions<V, D>(hooks: Hooks<V, D>, tree: Tree): seq<Transaction<V, Checker>>
    decreases tree, Width(tree) + 1
  {
    match tree
    case Simple => []
    case Inherent(call) => WrapAll(hooks.genesis(call))
    case Aggregate(_) => GenesisFrom(hooks, tree, 0)
  }

  function GenesisFrom<V, D>(hooks: Hooks<V, D>, tree: Tree, i: nat): seq<Transaction<V, Checker>>
    requires tree.Aggregate? && i <= |tree.variants|
    decreases tree, |tree.variants| - i
  {
    if i == |tree.variants| then []
    else Up(i, GenesisTransactions(hooks, tree.variants[i])) + GenesisFrom(hooks, tree, i + 1)
  }

  function Checkers<V>(ts: seq<Transaction<V, Checker>>): (r: seq<Checker>)
    ensures |r| == |ts| && forall k :: 0 <= k < |ts| ==> r[k] == ts[k].checker
  {
    seq(|ts|, k requires 0 <= k < |ts| => ts[k].checker)
  }

  /** Every piece with inherents supplies exactly one genesis transaction. */
  ghost predicate OneGenesisEach<V, D>(hooks: Hooks<V, D>) {
    forall call :: |hooks.genesis(call)| == 1
  }

  lemma {:induction false} GenesisLeaves<V(!new), D(!new)>(hooks: Hooks<V, D>, tree: Tree)
    requires Faithful(hooks) && OneGenesisEach(hooks)
    ensures Checkers(GenesisTransactions(hooks, tree)) == Leaves(tree)
    decreases tree, Width(tree) + 1
  {
    if tree.Aggregate? {
      GenesisFromLeaves(hooks, tree, 0);
    } else if tree.Inherent? {
      assert |hooks.genesis(tree.call)| == 1;
    }
  }

  lemma {:induction false} GenesisFromLeaves<V(!new), D(!new)>(hooks: Hooks<V, D>, tree: Tree, i: nat)
    requires Faithful(hooks) && OneGenesisEach(hooks) && tree.Aggregate? && i <= |tree.variants|
    ensures Checkers(GenesisFrom(hooks, tree, i)) == LeavesFrom(tree, i)
    decreases tree, |tree.variants| - i
  {
    if i < |tree.variants| {
      GenesisLeaves(hooks, tree.variants[i]);
      GenesisFromLeaves(hooks, tree, i + 1);
      var here, rest := Up(i, GenesisTransactions(hooks, tree.variants[i])), GenesisFrom(hooks, tree, i + 1);
      assert Checkers(here) == Lift(i, Leaves(tree.variants[i]));
      assert Checkers(here + rest) == Checkers(here) + Checkers(rest);
    }
  }

  /** The genesis transaction of each leaf is its piece's own, in outermost form. */
  lemma {:induction false} GenesisMade<V(!new), D(!new)>(hooks: Hooks<V, D>, tree: Tree, k: nat)
    requires Faithful(hooks) && OneGenesisEach(hooks) && k < |Leaves(tree)|
    ensures var l := Leaves(tree)[k];
            && |GenesisTransactions(hooks, tree)| == |Leaves(tree)|
            && GenesisTransactions(hooks, tree)[k] == hooks.genesis(Leaf(l))[0].(checker := l)
    decreases tree, Width(tree) + 1
  {
    GenesisLeaves(hooks, tree);
    assert |Checkers(GenesisTransactions(hooks, tree))| == |Leaves(tree)|;
    if tree.Aggregate? {
      GenesisFromMade(hooks, tree, 0, k);
    }
  }

  lemma {:induction false} GenesisFromMade<V(!new), D(!new)>(hooks: Hooks<V, D>, tree: Tree, i: nat, k: nat)
    requires Faithful(hooks) && OneGenesisEach(hooks) && tree.Aggregate?
    requires i <= |tree.variants| && k < |LeavesFrom(tree, i)|
    ensures var l := LeavesFrom(tree, i)[k];
            && |GenesisFrom(hooks, tree, i)| == |LeavesFrom(tree, i)|
            && GenesisFrom(hooks, tree, i)[k] == hooks.genesis(Leaf(l))[0].(checker := l)
    decreases tree, |tree.variants| - i
  {
    var below := Leaves(tree.variants[i]);
    GenesisFromLeaves(hooks, tree, i);
    assert |Checkers(GenesisFrom(hooks, tree, i))| == |LeavesFrom(tree, i)|;
    GenesisLeaves(hooks, tree.variants[i]);
    assert |Checkers(GenesisTransactions(hooks, tree.variants[i]))| == |below|;
    if k < |below| {
      GenesisMade(hooks, tree.variants[i], k);
    } else {
      GenesisFromMade(hooks, tree, i + 1, k - |below|);
    }
  }

  // ----- Whole chains

  /** The opening inherents of a block. */
  function OpeningInherents<V>(ts: seq<Transaction<V, Checker>>): seq<Transaction<V, Checker>> {
    if ts == [] || !IsInherent(ts[0].checker) then [] else [ts[0]] + OpeningInherents(ts[1..])
  }

  function Annotate<V>(hash: Transaction<V, Checker> -> H256,
                       ts: seq<Transaction<V, Checker>>): (r: seq<Tagged<V, H256>>)
    ensures |r| == |ts| && forall k :: 0 <= k < |ts| ==> r[k] == Tagged(ts[k], hash(ts[k]))
  {
    seq(|ts|, k requires 0 <= k < |ts| => Tagged(ts[k], hash(ts[k])))
  }

  /** The inherents for the child of a block. */
  function InherentExtrinsics<V, D>(hooks: Hooks<V, D>, tree: Tree, hash: Transaction<V, Checker> -> H256, data: D,
                                    parent: seq<Transaction<V, Checker>>): Option<seq<Transaction<V, Checker>>> {
    Create(hooks, tree, data, Annotate(hash, OpeningInherents(parent)))
  }

  /** A block body after its inherents. */
  predicate NoInherents<V>(ts: seq<Transaction<V, Checker>>) {
    forall k :: 0 <= k < |ts| ==> !IsInherent(ts[k].checker)
  }

  lemma {:induction false} OpeningOf<V>(inherents: seq<Transaction<V, Checker>>, body: seq<Transaction<V, Checker>>)
    requires forall k :: 0 <= k < |inherents| ==> IsInherent(inherents[k].checker)
    requires NoInherents(body)
    ensures OpeningInherents(inherents + body) == inherents
  {
    if inherents == [] {
      assert inherents + body == body;
    } else {
      assert (inherents + body)[1..] == inherents[1..] + body;
      OpeningOf(inherents[1..], body);
    }
  }

  lemma {:induction false} CountAbsent<V, T>(s: seq<Tagged<V, T>>, l: Checker)
    requires forall k :: 0 <= k < |s| ==> s[k].tx.checker != l
    ensures CountOf(s, l) == 0
  {
    if s == [] {
    } else {
      assert forall k :: 0 <= k < |s| - 1 ==> s[1..][k] == s[k + 1];
      CountAbsent(s[1..], l);
    }
  }

  lemma {:induction false} CountOnce<V, T>(s: seq<Tagged<V, T>>, i: nat)
    requires i < |s|
    requires forall a, b :: 0 <= a < b < |s| ==> s[a].tx.checker != s[b].tx.checker
    ensures CountOf(s, s[i].tx.checker) == 1
  {
    assert forall k :: 0 <= k < |s| - 1 ==> s[1..][k] == s[k + 1];
    if i == 0 {
      CountAbsent(s[1..], s[0].tx.checker);
    } else {
      CountOnce(s[1..], i - 1);
    }
  }

  /** The data has what every inherent leaf's piece needs to make its next transaction. */
  ghost predicate Supplies<V(!new), D>(hooks: Hooks<V, D>, leaves: seq<Checker>, data: D) {
    forall k, t, h :: 0 <= k < |leaves| ==> hooks.create(Leaf(leaves[k]), data, t, h).Some?
  }

  /** With the data at hand, creation succeeds exactly when every leaf has one transaction in the parent. */
  lemma {:induction false} CreateSupplied<V(!new), D(!new)>(hooks: Hooks<V, D>, tree: Tree, data: D,
                                                            prev: seq<Tagged<V, H256>>)
    requires Faithful(hooks) && AllTyped(tree, prev) && Supplies(hooks, Leaves(tree), data)
    ensures Create(hooks, tree, data, prev).Some? <==> OneEach(Leaves(tree), prev)
  {
    CreateExact(hooks, tree, data, prev);
  }

  lemma {:induction false} LeavesOnce<V, T>(tree: Tree, s: seq<Tagged<V, T>>)
    requires |s| == |Leaves(tree)| && forall k :: 0 <= k < |s| ==> s[k].tx.checker == Leaves(tree)[k]
    ensures AllTyped(tree, s) && OneEach(Leaves(tree), s)
    ensures forall k :: 0 <= k < |s| ==> CountOf(s, s[k].tx.checker) == 1 && The(s, s[k].tx.checker) == s[k]
  {
    LeavesAreTyped(tree);
    LeavesAreDistinct(tree);
    forall k | 0 <= k < |s| ensures WellTyped(tree, s[k].tx.checker) && IsInherent(s[k].tx.checker) {
      assert Leaves(tree)[k] in Leaves(tree);
    }
    assert forall a, b :: 0 <= a < b < |s| ==> s[a].tx.checker != s[b].tx.checker;
    forall k | 0 <= k < |s| ensures CountOf(s, s[k].tx.checker) == 1 && The(s, s[k].tx.checker) == s[k] {
      CountOnce(s, k);
      TheUnique(s, k);
    }
  }

  /** A block that opens with one inherent per leaf lets the next block do the same, if the data is there. */
  lemma {:induction false} ContinuityStep<V(!new), D(!new)>(hooks: Hooks<V, D>, tree: Tree,
                                                            hash: Transaction<V, Checker> -> H256, data: D,
                                                            inherents: seq<Transaction<V, Checker>>,
                                                            body: seq<Transaction<V, Checker>>)
    requires Faithful(hooks) && Checkers(inherents) == Leaves(tree) && NoInherents(body)
    requires Supplies(hooks, Leaves(tree), data)
    ensures var r := InherentExtrinsics(hooks, tree, hash, data, inherents + body);
            && r.Some? && Checkers(r.value) == Leaves(tree)
            && forall k :: 0 <= k < |inherents| ==>
                 var made := hooks.create(Leaf(inherents[k].checker), data, AtLeaf(inherents[k]), hash(inherents[k]));
                 made.Some? && r.value[k] == made.value.(checker := inherents[k].checker)
  {
    var prev := Annotate(hash, inherents);
    assert forall k :: 0 <= k < |prev| ==> prev[k].tx.checker == Checkers(inherents)[k];
    LeavesOnce(tree, prev);
    assert OpeningInherents(inherents + body) == inherents by {
      forall k | 0 <= k < |inherents| ensures IsInherent(inherents[k].checker) {
        assert prev[k].tx == inherents[k];
      }
      OpeningOf(inherents, body);
    }
    CreateSupplied(hooks, tree, data, prev);
    CreateExact(hooks, tree, data, prev);
    var r := Create(hooks, tree, data, prev).value;
    forall k | 0 <= k < |inherents|
      ensures var made := hooks.create(Leaf(inherents[k].checker), data, AtLeaf(inherents[k]), hash(inherents[k]));
              made.Some? && r[k] == made.value.(checker := inherents[k].checker)
    {
      assert prev[k].tx.checker == Leaves(tree)[k] && The(prev, Leaves(tree)[k]) == prev[k];
      assert CanMake(hooks, data, prev, Leaves(tree)[k]);
    }
    assert Checkers(r) == Leaves(tree);
  }

  lemma {:induction false} TheUnique<V, T>(s: seq<Tagged<V, T>>, i: nat)
    requires i < |s| && CountOf(s, s[i].tx.checker) > 0
    requires forall a, b :: 0 <= a < b < |s| ==> s[a].tx.checker != s[b].tx.checker
    ensures The(s, s[i].tx.checker) == s[i]
  {
    TheHasLeaf(s, s[i].tx.checker);
    var j :| 0 <= j < |s| && s[j] == The(s, s[i].tx.checker);
  }

  /**
   The inherents of block `n` of a chain that authors build one block after another, from the
   pieces' genesis transactions on, with arbitrary inherent data and arbitrary user transactions.
   */
  function InherentsOf<V, D>(hooks: Hooks<V, D>, tree: Tree, hash: Transaction<V, Checker> -> H256, data: nat -> D,
                             body: nat -> seq<Transaction<V, Checker>>, n: nat): Option<seq<Transaction<V, Checker>>> {
    if n == 0 then Some(GenesisTransactions(hooks, tree))
    else
      match InherentsOf(hooks, tree, hash, data, body, n - 1)
      case None => None
      case Some(inherents) => InherentExtrinsics(hooks, tree, hash, data(n), inherents + body(n - 1))
  }

  /**
   Given its data, creating inherents never panics on such a chain, and every block has one per
   leaf, in tree order.
   */
  lemma {:induction false} InherentsNeverFail<V(!new), D(!new)>(hooks: Hooks<V, D>, tree: Tree,
                                                                hash: Transaction<V, Checker> -> H256, data: nat -> D,
                                                                body: nat -> seq<Transaction<V, Checker>>, n: nat)
    requires Faithful(hooks) && OneGenesisEach(hooks) && forall k :: NoInherents(body(k))
    requires forall k :: 0 < k <= n ==> Supplies(hooks, Leaves(tree), data(k))
    ensures var r := InherentsOf(hooks, tree, hash, data, body, n);
            r.Some? && Checkers(r.value) == Leaves(tree)
  {
    if n == 0 {
      GenesisLeaves(hooks, tree);
    } else {
      InherentsNeverFail(hooks, tree, hash, data, body, n - 1);
      ContinuityStep(hooks, tree, hash, data(n), InherentsOf(hooks, tree, hash, data, body, n - 1).value, body(n - 1));
    }
  }
}
