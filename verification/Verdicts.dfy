/**
 Which answer validation and application give (`tuxedo-core/src/executive.rs`): each error exactly
 on its own condition, and what is left behind.
 */
module Verdicts {
  import opened Scale
  import opened Types
  import opened UtxoSet
  import opened Ledger

  /** Input `k` is there and to be redeemed, but its redeemer does not do. */
  predicate Unredeemed<V, C>(rt: Runtime<V, C>, st: State<V>, t: Transaction<V, C>, k: nat)
    requires k < |t.inputs|
  {
    && t.inputs[k].outputRef in st.utxos && t.inputs[k].redeemer.Redemption?
    && var (v, r) := (st.utxos[t.inputs[k].outputRef].verifier, t.inputs[k].redeemer.redeemer);
       !rt.redeemable(v, r) || st.height.None? || !rt.verify(v, StrippedBytes(rt, t), st.height.value, r)
  }

  predicate RedeemedUpTo<V, C>(rt: Runtime<V, C>, st: State<V>, t: Transaction<V, C>, n: nat)
    requires n <= |t.inputs|
  {
    forall k :: 0 <= k < n ==> !Unredeemed(rt, st, t, k)
  }

  /** Everything the transaction refers to is there. */
  predicate AllThere<V, C>(st: State<V>, t: Transaction<V, C>) {
    && (forall k :: 0 <= k < |t.inputs| ==> t.inputs[k].outputRef in st.utxos)
    && (forall k :: 0 <= k < |t.peeks| ==> t.peeks[k] in st.utxos)
  }

  lemma {:induction false} FirstErrorAt<V, C>(rt: Runtime<V, C>, st: State<V>, t: Transaction<V, C>, n: nat)
    requires n <= |t.inputs|
    ensures var e := FirstError(rt, st, StrippedBytes(rt, t), t.inputs[..n]);
            && (e.None? <==> RedeemedUpTo(rt, st, t, n))
            && (forall k :: 0 <= k < n && RedeemedUpTo(rt, st, t, k) && Unredeemed(rt, st, t, k) ==>
                  e == Some(RefusalAt(rt, st, t, k)))
  {
    if n > 0 {
      assert t.inputs[..n][..n - 1] == t.inputs[..n - 1];
      FirstErrorAt(rt, st, t, n - 1);
      assert InputError(rt, st, StrippedBytes(rt, t), t.inputs[n - 1]).Some? <==> Unredeemed(rt, st, t, n - 1);
    }
  }

  /** Decoding the redeemer comes first; only then is the height looked up, which panics without one. */
  function RefusalAt<V, C>(rt: Runtime<V, C>, st: State<V>, t: Transaction<V, C>, k: nat): UtxoError
    requires k < |t.inputs| && Unredeemed(rt, st, t, k)
  {
    var v := st.utxos[t.inputs[k].outputRef].verifier;
    if rt.redeemable(v, t.inputs[k].redeemer.redeemer) && st.height.None? then HeightMissing else VerifierError
  }

  /** Each error of validation, exactly on its condition, in the order of the source. */
  lemma {:induction false} RefusedIff<V, C>(rt: Runtime<V, C>, st: State<V>, t: Transaction<V, C>)
    ensures var (r, n) := (Validate(rt, st, t).result, |t.inputs|);
            var passed := rt.check(t.checker, st.height, st.ambient, Args(st.utxos, t)).passed;
            && (r == Err(DuplicateInput) <==> !NoDuplicates(t.inputs))
            && (forall k :: 0 <= k < n && RedeemedUpTo(rt, st, t, k) && Unredeemed(rt, st, t, k) ==>
                  NoDuplicates(t.inputs) ==> r == Err(RefusalAt(rt, st, t, k)))
            && (r == Err(PreExistingOutput) <==>
                  NoDuplicates(t.inputs) && RedeemedUpTo(rt, st, t, n) && !Fresh(rt, st.utxos, t))
            && (r == Err(ConstraintCheckerError) <==>
                  && NoDuplicates(t.inputs) && RedeemedUpTo(rt, st, t, n) && Fresh(rt, st.utxos, t)
                  && AllThere(st, t) && !passed)
            && (r.Ok? <==>
                  && NoDuplicates(t.inputs) && RedeemedUpTo(rt, st, t, n) && Fresh(rt, st.utxos, t)
                  && (AllThere(st, t) ==> passed))
  {
    FirstErrorAt(rt, st, t, |t.inputs|);
    assert t.inputs[..|t.inputs|] == t.inputs;
    NothingMissing(st.utxos, t);
    if !RedeemedUpTo(rt, st, t, |t.inputs|) {
      var k := FirstUnredeemed(rt, st, t, |t.inputs|);
    }
  }

  lemma {:induction false} FirstUnredeemed<V, C>(rt: Runtime<V, C>, st: State<V>, t: Transaction<V, C>, n: nat)
    returns (k: nat)
    requires n <= |t.inputs| && !RedeemedUpTo(rt, st, t, n)
    ensures k < n && RedeemedUpTo(rt, st, t, k) && Unredeemed(rt, st, t, k)
  {
    if RedeemedUpTo(rt, st, t, n - 1) {
      k := n - 1;
    } else {
      k := FirstUnredeemed(rt, st, t, n - 1);
    }
  }

  /**
   Application repeats the verdict, except that something missing is now an error. The checker's
   writes stay whenever the checker was asked, also if it refused; nothing else changes on an error.
   */
  lemma {:induction false} AppliedOutcome<V, C>(rt: Runtime<V, C>, st: State<V>, t: Transaction<V, C>)
    ensures var ((st', r), v) := (Apply(rt, st, t), Validate(rt, st, t).result);
            var out := rt.check(t.checker, st.height, st.ambient, Args(st.utxos, t));
            && (r == Err(MissingInput) <==> v.Ok? && !AllThere(st, t))
            && (v.Err? ==> r == Err(v.error))
            && (r.Ok? || r == Err(ConstraintCheckerError) ==> st'.ambient == st.ambient + out.writes)
            && (r.Err? && r != Err(ConstraintCheckerError) ==> st' == st)
            && (r.Err? ==> st'.utxos == st.utxos)
            && st'.height == st.height
  {
    RefusedIff(rt, st, t);
    NothingMissing(st.utxos, t);
    assert st.ambient + map[] == st.ambient;
    if NoDuplicates(t.inputs) && RedeemedUpTo(rt, st, t, |t.inputs|) && Fresh(rt, st.utxos, t) && AllThere(st, t) {
      FirstErrorAt(rt, st, t, |t.inputs|);
      assert t.inputs[..|t.inputs|] == t.inputs;
      assert Validate(rt, st, t).writes == rt.check(t.checker, st.height, st.ambient, Args(st.utxos, t)).writes;
    }
    if !RedeemedUpTo(rt, st, t, |t.inputs|) {
      var k := FirstUnredeemed(rt, st, t, |t.inputs|);
    }
  }
}
