/** Proofs of existence over whole runs: the earliest claim to a hash wins every dispute. */
module Claims {
  import opened Scale
  import opened Types
  import opened Typing
  import opened UtxoSet
  import opened Ledger
  import opened Sums
  import opened Wardrobe
  import opened Conservation
  import Poe

  /** The claim stored at a reference. */
  function ClaimAt<V>(u: Utxos<V>, r: OutputRef): Option<Poe.ClaimData> {
    if r in u then Poe.ExtractClaim(u[r].payload) else None
  }

  predicate Revokes<V>(e: Event<V, Checker>) {
    e.Applied? && Leaf(e.tx.checker) == PoeCall(Poe.Revoke)
  }

  predicate NoRevocation<V>(run: seq<Event<V, Checker>>) {
    forall i :: 0 <= i < |run| ==> !Revokes(run[i])
  }

  /** A claim disappears only through a dispute won by an earlier claim to the same hash, which stays. */
  lemma LostToEarlier<V(!new)>(rt: Runtime<V, Checker>, host: Host, st: State<V>, e: Event<V, Checker>, r: OutputRef)
    returns (w: OutputRef)
    requires Dresses(rt, host) && Enabled(rt, st, e) && !Revokes(e)
    requires ClaimAt(st.utxos, r).Some? && ClaimAt(Next(rt, st, e).utxos, r) != ClaimAt(st.utxos, r)
    ensures var (c, d) := (ClaimAt(st.utxos, r), ClaimAt(st.utxos, w));
            && d.Some? && d.value.claim == c.value.claim && d.value.effectiveHeight < c.value.effectiveHeight
            && ClaimAt(Next(rt, st, e).utxos, w) == d
  {
    var t := e.tx;
    OldStays(rt, st, t, r);
    if OwnType(Leaf(t.checker)) != CLAIM_ID {
      ForeignKeeps(rt, host, st, t, r);
      assert false;
    }
    TypeTellsPiece(Leaf(t.checker));
    w := Winner(rt, host, st, t, r);
  }

  lemma Winner<V(!new)>(rt: Runtime<V, Checker>, host: Host, st: State<V>, t: Transaction<V, Checker>, r: OutputRef)
    returns (w: OutputRef)
    requires Dresses(rt, host) && Accepted(rt, st, t)
    requires Leaf(t.checker).PoeCall? && Leaf(t.checker) != PoeCall(Poe.Revoke)
    requires r in InputRefs(t.inputs) && ClaimAt(st.utxos, r).Some?
    ensures var (c, d) := (ClaimAt(st.utxos, r), ClaimAt(st.utxos, w));
            && d.Some? && d.value.claim == c.value.claim && d.value.effectiveHeight < c.value.effectiveHeight
            && ClaimAt(Apply(rt, st, t).0.utxos, w) == d
  {
    var u, a := st.utxos, Args(st.utxos, t);
    PoePasses(rt, host, st, t);
    Poe.PoeMeaning(Leaf(t.checker).poe, st.height, a);
    InputsInUtxos(rt, st, t);
    ListedBefore(t.inputs, r);
    var k :| 0 <= k < |t.inputs| && t.inputs[k].outputRef == r;
    EvictedAll(u, t.inputs);
    assert a.evicted[k] == u[r].payload;
    PeekedAll(u, t.peeks);
    w := t.peeks[0];
    assert a.peeks[0] == u[w].payload;
    WinnerStays(rt, st, t, w, a.evicted);
  }

  /** A utxo whose payload is not among the evicted ones is not consumed by a transaction that only evicts. */
  lemma WinnerStays<V>(rt: Runtime<V, Checker>, st: State<V>, t: Transaction<V, Checker>, w: OutputRef,
                       evicted: seq<DynamicallyTypedData>)
    requires Accepted(rt, st, t) && w in st.utxos
    requires |evicted| == |t.inputs|
    requires forall k :: 0 <= k < |t.inputs| ==>
               t.inputs[k].outputRef in st.utxos && evicted[k] == st.utxos[t.inputs[k].outputRef].payload
    requires forall k :: 0 <= k < |evicted| ==> evicted[k] != st.utxos[w].payload
    ensures w in Apply(rt, st, t).0.utxos && Apply(rt, st, t).0.utxos[w] == st.utxos[w]
  {
    ListedBefore(t.inputs, w);
    OldStays(rt, st, t, w);
  }

  lemma NoRevocationTail<V>(run: seq<Event<V, Checker>>)
    requires run != [] && NoRevocation(run)
    ensures !Revokes(run[0]) && NoRevocation(run[1..])
  {
    assert forall i :: 0 <= i < |run| - 1 ==> run[1..][i] == run[i + 1];
  }

  /** Without revocations a hash stays claimed, and its earliest effective height never rises. */
  lemma {:induction false} StaysClaimed<V(!new)>(rt: Runtime<V, Checker>, host: Host, st: State<V>,
                                                 run: seq<Event<V, Checker>>, r: OutputRef)
    returns (w: OutputRef)
    requires Dresses(rt, host) && Run(rt, st, run) && NoRevocation(run) && ClaimAt(st.utxos, r).Some?
    ensures var (c, d) := (ClaimAt(st.utxos, r), ClaimAt(Final(rt, st, run).utxos, w));
            d.Some? && d.value.claim == c.value.claim && d.value.effectiveHeight <= c.value.effectiveHeight
    decreases |run|
  {
    if run == [] {
      w := r;
    } else {
      NoRevocationTail(run);
      var st' := Next(rt, st, run[0]);
      var next := r;
      if ClaimAt(st'.utxos, r) != ClaimAt(st.utxos, r) {
        next := LostToEarlier(rt, host, st, run[0], r);
      }
      w := StaysClaimed(rt, host, st', run[1..], next);
    }
  }

  /** No claim to the same hash is effective before `c`. */
  ghost predicate Earliest<V>(u: Utxos<V>, c: Poe.ClaimData) {
    forall r :: r in u && Poe.ExtractClaim(u[r].payload).Some? ==>
      var d := Poe.ExtractClaim(u[r].payload).value;
      d.claim == c.claim ==> d.effectiveHeight >= c.effectiveHeight
  }

  /** Blocks opened from here on are not before `n`. */
  predicate FromHeight<V>(n: nat, run: seq<Event<V, Checker>>) {
    forall i :: 0 <= i < |run| && run[i].Opened? ==> run[i].height >= n
  }

  lemma StaysEarliest<V(!new)>(rt: Runtime<V, Checker>, host: Host, st: State<V>, e: Event<V, Checker>,
                               c: Poe.ClaimData)
    requires Dresses(rt, host) && Enabled(rt, st, e) && Earliest(st.utxos, c)
    requires st.height.Some? && st.height.value >= c.effectiveHeight
    ensures Earliest(Next(rt, st, e).utxos, c)
  {
    if e.Applied? {
      var t, u' := e.tx, Next(rt, st, e).utxos;
      forall r | r in u' && Poe.ExtractClaim(u'[r].payload).Some?
        ensures var d := Poe.ExtractClaim(u'[r].payload).value;
                d.claim == c.claim ==> d.effectiveHeight >= c.effectiveHeight
      {
        if r in st.utxos {
          OldStays(rt, st, t, r);
        } else {
          NewClaimIsLate(rt, host, st, t, r);
        }
      }
    }
  }

  lemma NewClaimIsLate<V(!new)>(rt: Runtime<V, Checker>, host: Host, st: State<V>, t: Transaction<V, Checker>,
                                r: OutputRef)
    requires Dresses(rt, host) && Accepted(rt, st, t) && st.height.Some?
    requires r !in st.utxos && ClaimAt(Apply(rt, st, t).0.utxos, r).Some?
    ensures ClaimAt(Apply(rt, st, t).0.utxos, r).value.effectiveHeight >= st.height.value
  {
    var i := NewIsOwn(rt, host, st, t, r);
    TypeTellsPiece(Leaf(t.checker));
    PoePasses(rt, host, st, t);
    ClaimedLate(Leaf(t.checker).poe, st.height, st.utxos, t, i);
  }

  lemma ClaimedLate<V>(call: Poe.PoeCall, height: Option<U32>, u: Utxos<V>, t: Transaction<V, Checker>, i: nat)
    requires Poe.Check(call, height, Args(u, t)).Pass? && i < |t.outputs| && height.Some?
    ensures Poe.ExtractClaim(t.outputs[i].payload).Some?
    ensures Poe.ExtractClaim(t.outputs[i].payload).value.effectiveHeight >= height.value
  {
    Poe.PoeMeaning(call, height, Args(u, t));
    assert Args(u, t).outputs[i] == t.outputs[i].payload;
  }

  /**
   Once a claim is effective and no stored claim to its hash is earlier, it is permanent: no run
   of claims and disputes, however long, evicts it.
   */
  lemma {:induction false} EarliestClaimSurvives<V(!new)>(rt: Runtime<V, Checker>, host: Host, st: State<V>,
                                                          run: seq<Event<V, Checker>>, r: OutputRef)
    requires Dresses(rt, host) && Run(rt, st, run) && NoRevocation(run)
    requires ClaimAt(st.utxos, r).Some?
    requires var c := ClaimAt(st.utxos, r).value;
             && Earliest(st.utxos, c) && FromHeight(c.effectiveHeight, run)
             && st.height.Some? && st.height.value >= c.effectiveHeight
    ensures ClaimAt(Final(rt, st, run).utxos, r) == ClaimAt(st.utxos, r)
    decreases |run|
  {
    if run == [] {
    } else {
      NoRevocationTail(run);
      var st', c := Next(rt, st, run[0]), ClaimAt(st.utxos, r).value;
      assert FromHeight(c.effectiveHeight, run[1..]) by {
        assert forall i :: 0 <= i < |run| - 1 ==> run[1..][i] == run[i + 1];
      }
      StaysEarliest(rt, host, st, run[0], c);
      NextHeight(rt, st, run[0]);
      if ClaimAt(st'.utxos, r) != ClaimAt(st.utxos, r) {
        var w := LostToEarlier(rt, host, st, run[0], r);
        assert false;
      }
      EarliestClaimSurvives(rt, host, st', run[1..], r);
    }
  }
}
