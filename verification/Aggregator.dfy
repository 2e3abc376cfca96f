/**
 The code that the aggregation macro generates, statement by statement
 (`tuxedo-core/aggregator/src/lib.rs`): vectors that are extended variant by variant, and an error
 report that is written to in place and checked after every variant.
 */
module Aggregator {
  import opened Scale
  import opened Types
  import opened Wardrobe
  import opened Inherents
  import opened InherentChecks

  type Txs<V> = seq<Transaction<V, Checker>>

  /** What has been collected, followed by what is still to come; nothing if that fails. */
  function Prefixed<V>(done: Txs<V>, rest: Option<Txs<V>>): Option<Txs<V>> {
    match rest
    case None => None
    case Some(r) => Some(done + r)
  }

  lemma PrefixedStep<V>(done: Txs<V>, here: Txs<V>, rest: Option<Txs<V>>)
    ensures Prefixed(done, Prefixed(here, rest)) == Prefixed(done + here, rest)
  {
    if rest.Some? {
      assert done + (here + rest.value) == done + here + rest.value;
    }
  }

  /** Nothing stands for a panic. */
  method CreateInherents<V(!new), D(!new)>(hooks: Hooks<V, D>, tree: Tree, data: D, prev: seq<Tagged<V, H256>>)
    returns (r: Option<Txs<V>>)
    ensures r == Create(hooks, tree, data, prev)
    ensures Faithful(hooks) && AllTyped(tree, prev) ==> (r.Some? <==> CanMakeAll(hooks, data, prev, Leaves(tree)))
    decreases tree
  {
    if Faithful(hooks) && AllTyped(tree, prev) {
      CreateExact(hooks, tree, data, prev);
    }
    match tree
    case Simple => return Some([]);
    case Inherent(call) =>
      if |prev| > 1 || prev == [] {
        return None;
      }
      var made := hooks.create(call, data, AtLeaf(prev[0].tx), prev[0].tag);
      if made.None? {
        return None;
      }
      return Some([made.value.(checker := Adapted(Leaf(made.value.checker)))]);
    case Aggregate(variants) =>
      var all: Txs<V> := [];
      assert CreateFrom(hooks, tree, 0, data, prev).Some? ==>
               all + CreateFrom(hooks, tree, 0, data, prev).value == CreateFrom(hooks, tree, 0, data, prev).value;
      for i := 0 to |variants|
        invariant Prefixed(all, CreateFrom(hooks, tree, i, data, prev)) == Create(hooks, tree, data, prev)
      {
        var here := CreateInherents(hooks, variants[i], data, Select(i, prev));
        if here.None? {
          return None;
        }
        PrefixedStep(all, Up(i, here.value), CreateFrom(hooks, tree, i + 1, data, prev));
        all := all + Up(i, here.value);
      }
      assert all + [] == all;
      return Some(all);
  }

  method CollectGenesis<V(!new), D(!new)>(hooks: Hooks<V, D>, tree: Tree) returns (all: Txs<V>)
    ensures all == GenesisTransactions(hooks, tree)
    ensures Faithful(hooks) && OneGenesisEach(hooks) ==> Checkers(all) == Leaves(tree)
    decreases tree
  {
    if Faithful(hooks) && OneGenesisEach(hooks) {
      GenesisLeaves(hooks, tree);
    }
    match tree
    case Simple => return [];
    case Inherent(call) => return WrapAll(hooks.genesis(call));
    case Aggregate(variants) =>
      all := [];
      for i := 0 to |variants|
        invariant all + GenesisFrom(hooks, tree, i) == GenesisTransactions(hooks, tree)
      {
        var here := CollectGenesis(hooks, variants[i]);
        assert all + (Up(i, here) + GenesisFrom(hooks, tree, i + 1)) ==
               all + Up(i, here) + GenesisFrom(hooks, tree, i + 1);
        all := all + Up(i, here);
      }
  }

  /** The host's error report. */
  class CheckInherentsResult {
    var fatal: bool
    var errors: seq<Entry>

    ghost function Value(): Report
      reads this
    {
      Report(fatal, errors)
    }

    constructor ()
      ensures Value() == Report(false, [])
    {
      fatal, errors := false, [];
    }

    /** False, with nothing changed, after a fatal error or for a second error under one identifier. */
    method PutError(identifier: Bytes, f: Finding) returns (ok: bool)
      modifies this
      ensures ok == Put(old(Value()), Entry(identifier, f)).Some?
      ensures ok == (!old(fatal) &&
                     (f.Fatal() || forall k :: 0 <= k < |old(errors)| ==> old(errors)[k].identifier != identifier))
      ensures Value() == if ok then Put(old(Value()), Entry(identifier, f)).value else old(Value())
      ensures ok ==> fatal == f.Fatal() && errors == (if fatal then [] else old(errors)) + [Entry(identifier, f)]
    {
      if fatal {
        return false;
      }
      if f.Fatal() {
        fatal, errors := true, [Entry(identifier, f)];
        return true;
      }
      if exists k :: 0 <= k < |errors| && errors[k].identifier == identifier {
        return false;
      }
      errors := errors + [Entry(identifier, f)];
      return true;
    }
  }

  /** False stands for a panic: the stub's assertion, a piece's own check, or an error that cannot be recorded. */
  method CheckInherents<V, D>(hooks: Hooks<V, D>, tree: Tree, data: D, s: seq<Tagged<V, ()>>,
                              result: CheckInherentsResult) returns (ok: bool)
    modifies result
    ensures ok == CheckAll(hooks, tree, data, s, old(result.Value())).Some?
    ensures ok ==> result.Value() == CheckAll(hooks, tree, data, s, old(result.Value())).value
    ensures AllTyped(tree, s) && !old(result.fatal) ==>
              (ok && !result.fatal <==> AllClear(hooks, data, s, Leaves(tree), old(result.Value()), |Leaves(tree)|))
    ensures AllTyped(tree, s) && !old(result.fatal) ==> forall k ::
              && 0 <= k < |Leaves(tree)| && AllClear(hooks, data, s, Leaves(tree), old(result.Value()), k)
              && Fails(hooks, data, s, Leaves(tree), k) ==>
                ok && EndsAt(hooks, data, s, Leaves(tree)[k], result.Value())
    decreases tree
  {
    if AllTyped(tree, s) && !result.fatal {
      CheckExact(hooks, tree, data, s, result.Value());
    }
    match tree
    case Simple => return s == [];
    case Inherent(call) =>
      if |s| != 1 {
        ok := result.PutError(ADAPTER_IDENTIFIER, WrongNumberOfInherents);
        return;
      }
      match hooks.check(call, data, AtLeaf(s[0].tx)) {
        case Silent => return true;
        case Panicked => return false;
        case Raised(code, severe) => ok := result.PutError(hooks.identifier(call), FromPiece(call, code, severe));
      }
    case Aggregate(variants) =>
      ghost var rep := result.Value();
      for i := 0 to |variants|
        invariant CheckFrom(hooks, tree, i, data, s, result.Value()) == CheckAll(hooks, tree, data, s, rep)
      {
        ok := CheckInherents(hooks, variants[i], data, Select(i, s), result);
        if !ok || result.fatal {
          return;
        }
      }
      ok := true;
  }
}
