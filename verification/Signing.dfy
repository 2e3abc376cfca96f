/**
 What a verifier is shown (`tuxedo-core/src/executive.rs`), and why a transaction signed the way
 the wallet signs (`wallet/src/money.rs`) passes.
 */
module Signing {
  import opened Scale
  import opened Types
  import opened UtxoSet
  import opened Ledger
  import opened Sums

  /** The two transactions differ at most in their redeemers. */
  predicate SameButRedeemers<V(==), C(==)>(t: Transaction<V, C>, u: Transaction<V, C>) {
    && |t.inputs| == |u.inputs|
    && (forall k :: 0 <= k < |t.inputs| ==> t.inputs[k].outputRef == u.inputs[k].outputRef)
    && t.peeks == u.peeks && t.outputs == u.outputs && t.checker == u.checker
  }

  /** Verifiers cannot tell two transactions apart exactly when they differ at most in their redeemers. */
  lemma {:induction false} ShownAlikeIff<V(!new), C(!new)>(rt: Runtime<V, C>, t: Transaction<V, C>,
                                                           u: Transaction<V, C>)
    requires LawfulCodecs(rt.codecs)
    ensures StrippedBytes(rt, t) == StrippedBytes(rt, u) <==> SameButRedeemers(t, u)
  {
    var a, b := Stripped(t), Stripped(u);
    assert forall k :: 0 <= k < |t.inputs| ==> a.inputs[k].outputRef == t.inputs[k].outputRef;
    assert forall k :: 0 <= k < |u.inputs| ==> b.inputs[k].outputRef == u.inputs[k].outputRef;
    if SameButRedeemers(t, u) {
      assert a.inputs == b.inputs;
    }
    if StrippedBytes(rt, t) == StrippedBytes(rt, u) {
      LawfulInjective(rt.codecs.tx, a, b);
    }
  }

  // ----- Signing

  /** Every input is to be redeemed, and the redeemers are still empty. */
  predicate Unsigned<V, C>(t: Transaction<V, C>) {
    forall k :: 0 <= k < |t.inputs| ==> t.inputs[k].redeemer == Redemption([])
  }

  /** The transaction with its redeemers put in place. */
  function Signed<V, C>(t: Transaction<V, C>, redeemers: seq<Vec<Byte>>): Transaction<V, C>
    requires |redeemers| == |t.inputs|
  {
    t.(inputs := seq(|t.inputs|, k requires 0 <= k < |t.inputs| =>
      Input(t.inputs[k].outputRef, Redemption(redeemers[k]))))
  }

  lemma {:induction false} ShownUnsigned<V, C>(rt: Runtime<V, C>, t: Transaction<V, C>, redeemers: seq<Vec<Byte>>)
    requires Unsigned(t) && |redeemers| == |t.inputs|
    ensures StrippedBytes(rt, Signed(t, redeemers)) == rt.codecs.tx.enc(t)
  {
    var s := Stripped(Signed(t, redeemers));
    assert forall k :: 0 <= k < |t.inputs| ==> s.inputs[k] == t.inputs[k];
    assert s.inputs == t.inputs;
  }

  /** Redeemer `k` satisfies its input's verifier over the encoding of the unsigned transaction. */
  predicate SignedAt<V, C>(rt: Runtime<V, C>, st: State<V>, t: Transaction<V, C>, redeemers: seq<Vec<Byte>>, k: nat)
    requires |redeemers| == |t.inputs| && k < |t.inputs| && t.inputs[k].outputRef in st.utxos
  {
    var v := st.utxos[t.inputs[k].outputRef].verifier;
    && rt.redeemable(v, redeemers[k]) && st.height.Some?
    && rt.verify(v, rt.codecs.tx.enc(t), st.height.value, redeemers[k])
  }

  lemma {:induction false} SignedArgs<V>(u: Utxos<V>, s: seq<Input>, s': seq<Input>)
    requires |s| == |s'|
    requires forall k :: 0 <= k < |s| ==>
               s[k].outputRef == s'[k].outputRef && s[k].redeemer.Redemption? && s'[k].redeemer.Redemption?
    ensures Redeemed(u, s) == Redeemed(u, s') && Evicted(u, s) == Evicted(u, s')
  {
    if s == [] {
    } else {
      SignedArgs(u, s[..|s| - 1], s'[..|s| - 1]);
    }
  }

  /**
   Signing is what it takes: a transaction with empty redeemers that is otherwise in order is
   accepted, once its redeemers are in place, exactly when each of them satisfies its verifier over
   the encoding with empty redeemers.
   */
  lemma {:induction false} SignedAcceptedIff<V, C>(rt: Runtime<V, C>, st: State<V>, t: Transaction<V, C>,
                                                   redeemers: seq<Vec<Byte>>)
    requires Unsigned(t) && |redeemers| == |t.inputs| && NoDuplicates(t.inputs)
    requires forall k :: 0 <= k < |t.inputs| ==> t.inputs[k].outputRef in st.utxos
    requires forall k :: 0 <= k < |t.peeks| ==> t.peeks[k] in st.utxos
    requires Fresh(rt, st.utxos, Signed(t, redeemers))
    requires rt.check(t.checker, st.height, st.ambient, Args(st.utxos, t)).passed
    ensures Accepted(rt, st, Signed(t, redeemers)) <==>
            forall k :: 0 <= k < |t.inputs| ==> SignedAt(rt, st, t, redeemers, k)
  {
    var s := Signed(t, redeemers);
    ShownUnsigned(rt, t, redeemers);
    SignedArgs(st.utxos, s.inputs, t.inputs);
    assert Args(st.utxos, s) == Args(st.utxos, t);
    forall i, j | 0 <= i < j < |s.inputs| ensures s.inputs[i] != s.inputs[j] {
      assert t.inputs[i] != t.inputs[j];
    }
    forall k | 0 <= k < |t.inputs|
      ensures Spendable(rt, st, s, s.inputs[k]) <==> SignedAt(rt, st, t, redeemers, k)
    {
      assert s.inputs[k] == Input(t.inputs[k].outputRef, Redemption(redeemers[k]));
    }
  }
}
