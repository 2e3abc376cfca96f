/**
 What the transaction pool may rely on: the tags computed by validation are exact, and
 transactions that do not touch each other's inputs can be applied in any order.
 */
module Pool {
  import opened Scale
  import opened Types
  import opened UtxoSet
  import opened Ledger
  import opened Sums

  // ----- Tags

  /** `needed` names exactly the absent inputs and peeks. */
  lemma NeededTagsExact<V(!new), C(!new)>(rt: Runtime<V, C>, st: State<V>, t: Transaction<V, C>, r: OutputRef)
    requires LawfulCodecs(rt.codecs) && Validate(rt, st, t).result.Ok?
    ensures rt.codecs.ref.enc(r) in Validate(rt, st, t).result.value.needed <==>
            r in Mentioned(t) && r !in st.utxos
  {
    var m := Missing(st.utxos, t);
    AbsentMeaning(st.utxos, Refs(t.inputs));
    AbsentMeaning(st.utxos, t.peeks);
    assert r in m <==> (r in Refs(t.inputs) || r in t.peeks) && r !in st.utxos;
    RefsMembers(t.inputs, r);
    EncodedMember(rt, m, r);
    assert Validate(rt, st, t).result.value.needed == EncodeRefs(rt.codecs, m);
  }

  /** They are listed in the order in which the transaction names them, inputs before peeks. */
  lemma {:induction false} NeededTagsInOrder<V, C>(rt: Runtime<V, C>, st: State<V>, t: Transaction<V, C>)
    requires Validate(rt, st, t).result.Ok?
    ensures Validate(rt, st, t).result.value.needed ==
            EncodeRefs(rt.codecs, Absent(st.utxos, Refs(t.inputs) + t.peeks))
  {
    AbsentAppend(st.utxos, Refs(t.inputs), t.peeks);
    assert EncodeRefs(rt.codecs, []) == [];
  }

  lemma {:induction false} AbsentAppend<V>(u: Utxos<V>, a: seq<OutputRef>, b: seq<OutputRef>)
    ensures Absent(u, a + b) == Absent(u, a) + Absent(u, b)
  {
    if b == [] {
      assert a + b == a;
    } else {
      AbsentAppend(u, a, b[..|b| - 1]);
      assert (a + b)[..|a + b| - 1] == a + b[..|b| - 1];
    }
  }

  lemma {:induction false} RefsMembers(s: seq<Input>, r: OutputRef)
    ensures r in Refs(s) <==> r in InputRefs(s)
  {
    if r in Refs(s) {
      var k :| 0 <= k < |s| && Refs(s)[k] == r;
      assert s[k] in s;
    }
    if r in InputRefs(s) {
      var k :| 0 <= k < |s| && s[k].outputRef == r;
      assert Refs(s)[k] == r;
    }
  }

  lemma EncodedMember<V(!new), C(!new)>(rt: Runtime<V, C>, s: seq<OutputRef>, r: OutputRef)
    requires LawfulCodecs(rt.codecs)
    ensures rt.codecs.ref.enc(r) in EncodeRefs(rt.codecs, s) <==> r in s
  {
    var b := EncodeRefs(rt.codecs, s);
    if rt.codecs.ref.enc(r) in b {
      var k :| 0 <= k < |b| && b[k] == rt.codecs.ref.enc(r);
      RefKeyInjective(rt.codecs, r, s[k]);
    }
    if r in s {
      var k :| 0 <= k < |s| && s[k] == r;
      assert b[k] == rt.codecs.ref.enc(r);
    }
  }

  /** `provided` names exactly the transaction's own outputs, also while something is missing. */
  lemma {:induction false} ProvidedTagsExact<V(!new), C(!new)>(rt: Runtime<V, C>, st: State<V>, t: Transaction<V, C>,
                                                               r: OutputRef)
    requires LawfulCodecs(rt.codecs) && Validate(rt, st, t).result.Ok?
    ensures rt.codecs.ref.enc(r) in Validate(rt, st, t).result.value.provided <==>
            r.txHash == TxHash(rt, t) && r.index < |t.outputs|
  {
    EncodedMember(rt, OutRefs(rt, t), r);
    OwnOutputs(rt, t, r);
  }

  lemma {:induction false} OwnOutputs<V, C>(rt: Runtime<V, C>, t: Transaction<V, C>, r: OutputRef)
    ensures r in OutRefs(rt, t) <==> r.txHash == TxHash(rt, t) && r.index < |t.outputs|
  {
    if r.txHash == TxHash(rt, t) && r.index < |t.outputs| {
      assert OutRefs(rt, t)[r.index] == r;
    }
  }

  /** For an accepted transaction these are exactly the references that applying it adds. */
  lemma {:induction false} ProvidedIsAdded<V(!new), C(!new)>(rt: Runtime<V, C>, st: State<V>, t: Transaction<V, C>,
                                                             r: OutputRef)
    requires LawfulCodecs(rt.codecs) && Accepted(rt, st, t)
    ensures Validate(rt, st, t).result.Ok?
    ensures rt.codecs.ref.enc(r) in Validate(rt, st, t).result.value.provided <==>
            r in Apply(rt, st, t).0.utxos && r !in st.utxos
  {
    ValidateIff(rt, st, t);
    ProvidedTagsExact(rt, st, t, r);
    AcceptedIff(rt, st, t);
    AfterContents(rt, st, t, r);
    CreatedContents(rt, t, r);
  }

  // ----- Waiting for tags

  /** Some transaction of the run provided the reference, in a verdict it once got, and none after it consumes it. */
  ghost predicate ProvidedSince<V(!new), C(!new)>(rt: Runtime<V, C>, run: seq<Event<V, C>>, r: OutputRef) {
    exists i :: 0 <= i < |run| && Provides(rt, run[i], r) && NotConsumed(run[i + 1..], r)
  }

  ghost predicate Provides<V(!new), C(!new)>(rt: Runtime<V, C>, e: Event<V, C>, r: OutputRef) {
    e.Applied? && exists st: State<V> ::
      Validate(rt, st, e.tx).result.Ok? && rt.codecs.ref.enc(r) in Validate(rt, st, e.tx).result.value.provided
  }

  predicate NotConsumed<V, C>(run: seq<Event<V, C>>, r: OutputRef) {
    forall i :: 0 <= i < |run| && run[i].Applied? ==> r !in InputRefs(run[i].tx.inputs)
  }

  lemma {:induction false} StaysUnlessConsumed<V, C>(rt: Runtime<V, C>, st: State<V>, run: seq<Event<V, C>>,
                                                     r: OutputRef)
    requires Run(rt, st, run) && r in st.utxos && NotConsumed(run, r)
    ensures r in Final(rt, st, run).utxos
    decreases |run|
  {
    if run != [] {
      if run[0].Applied? {
        AcceptedIff(rt, st, run[0].tx);
        AfterContents(rt, st, run[0].tx, r);
      }
      assert forall i :: 0 <= i < |run| - 1 ==> run[1..][i] == run[i + 1];
      StaysUnlessConsumed(rt, Next(rt, st, run[0]), run[1..], r);
    }
  }

  lemma {:induction false} ProvidedIsThere<V(!new), C(!new)>(rt: Runtime<V, C>, st: State<V>, run: seq<Event<V, C>>,
                                                             r: OutputRef)
    requires LawfulCodecs(rt.codecs) && Run(rt, st, run) && ProvidedSince(rt, run, r)
    ensures r in Final(rt, st, run).utxos
  {
    var i :| 0 <= i < |run| && Provides(rt, run[i], r) && NotConsumed(run[i + 1..], r);
    ProvidesOwn(rt, run[i], r);
    RunAt(rt, st, run, i);
    var st' := Final(rt, st, run[..i]);
    AddsOwn(rt, st', run[i].tx, r);
    StaysUnlessConsumed(rt, Next(rt, st', run[i]), run[i + 1..], r);
  }

  lemma {:induction false} ProvidesOwn<V(!new), C(!new)>(rt: Runtime<V, C>, e: Event<V, C>, r: OutputRef)
    requires LawfulCodecs(rt.codecs) && Provides(rt, e, r)
    ensures r.txHash == TxHash(rt, e.tx) && r.index < |e.tx.outputs|
  {
    var st: State<V> :| Validate(rt, st, e.tx).result.Ok? &&
                        rt.codecs.ref.enc(r) in Validate(rt, st, e.tx).result.value.provided;
    ProvidedTagsExact(rt, st, e.tx, r);
  }

  lemma {:induction false} AddsOwn<V, C>(rt: Runtime<V, C>, st: State<V>, t: Transaction<V, C>, r: OutputRef)
    requires Accepted(rt, st, t) && r.txHash == TxHash(rt, t) && r.index < |t.outputs|
    ensures r in Apply(rt, st, t).0.utxos
  {
    CreatedContents(rt, t, r);
    AcceptedIff(rt, st, t);
    AfterContents(rt, st, t, r);
  }

  /** A run, seen from one of its events. */
  lemma {:induction false} RunAt<V, C>(rt: Runtime<V, C>, st: State<V>, run: seq<Event<V, C>>, i: nat)
    requires Run(rt, st, run) && i < |run|
    ensures var st' := Final(rt, st, run[..i]);
            && Enabled(rt, st', run[i]) && Run(rt, Next(rt, st', run[i]), run[i + 1..])
            && Final(rt, Next(rt, st', run[i]), run[i + 1..]) == Final(rt, st, run)
  {
    assert run == (run[..i] + [run[i]]) + run[i + 1..];
    RunAppend(rt, st, run[..i] + [run[i]], run[i + 1..]);
    RunSnoc(rt, st, run[..i], run[i]);
  }

  /**
   What the tags are for: once each tag that a verdict needs has been provided by a transaction
   applied since and not consumed again, and nothing else the transaction refers to has been
   consumed, validating it anew finds nothing missing, and it never fails for a missing input.
   */
  lemma {:induction false} ReleasedByTags<V(!new), C(!new)>(rt: Runtime<V, C>, st: State<V>, t: Transaction<V, C>,
                                                            run: seq<Event<V, C>>)
    requires LawfulCodecs(rt.codecs) && Validate(rt, st, t).result.Ok? && Run(rt, st, run)
    requires forall r :: rt.codecs.ref.enc(r) in Validate(rt, st, t).result.value.needed ==> ProvidedSince(rt, run, r)
    requires forall r :: r in Mentioned(t) && r in st.utxos ==> NotConsumed(run, r)
    ensures var v := Validate(rt, Final(rt, st, run), t).result; v.Ok? ==> v.value.needed == []
    ensures Apply(rt, Final(rt, st, run), t).1 != Err(MissingInput)
  {
    forall r | r in Mentioned(t) ensures r in Final(rt, st, run).utxos {
      if r in st.utxos {
        StaysUnlessConsumed(rt, st, run, r);
      } else {
        NeededTagsExact(rt, st, t, r);
        ProvidedIsThere(rt, st, run, r);
      }
    }
    NoMissingInput(rt, Final(rt, st, run), t);
  }

  /**
   The order the pool maintains: what a transaction mentions is there from the start or provided
   earlier in the list, and nothing earlier consumes it.
   */
  ghost predicate WellOrdered<V(!new), C(!new)>(rt: Runtime<V, C>, st: State<V>, ts: seq<Transaction<V, C>>) {
    forall j, r :: 0 <= j < |ts| && r in Mentioned(ts[j]) ==>
      && (r in st.utxos || exists i :: 0 <= i < j && r in Created(rt, ts[i]))
      && (forall i :: 0 <= i < j ==> r !in InputRefs(ts[i].inputs))
  }

  lemma {:induction false} Available<V, C>(rt: Runtime<V, C>, st: State<V>, ts: seq<Transaction<V, C>>, r: OutputRef)
    requires Run(rt, st, Txs(ts))
    requires r in st.utxos || exists i :: 0 <= i < |ts| && r in Created(rt, ts[i])
    requires forall i :: 0 <= i < |ts| ==> r !in InputRefs(ts[i].inputs)
    ensures r in Final(rt, st, Txs(ts)).utxos
    decreases |ts|
  {
    if ts == [] {
    } else {
      var st' := Next(rt, st, Applied(ts[0]));
      assert Txs(ts)[1..] == Txs(ts[1..]);
      AcceptedIff(rt, st, ts[0]);
      AfterContents(rt, st, ts[0], r);
      if r !in st.utxos && r !in Created(rt, ts[0]) {
        var i :| 0 <= i < |ts| && r in Created(rt, ts[i]);
        assert ts[1..][i - 1] == ts[i];
      }
      Available(rt, st', ts[1..], r);
    }
  }

  lemma {:induction false} FirstErrorKinds<V, C>(rt: Runtime<V, C>, st: State<V>, stripped: Bytes, s: seq<Input>)
    ensures var e := FirstError(rt, st, stripped, s);
            e.Some? ==> e.value == VerifierError || e.value == HeightMissing
  {
    if s == [] {
    } else {
      FirstErrorKinds(rt, st, stripped, s[..|s| - 1]);
    }
  }

  lemma NoMissingInput<V, C>(rt: Runtime<V, C>, st: State<V>, t: Transaction<V, C>)
    requires forall r :: r in Mentioned(t) ==> r in st.utxos
    ensures Apply(rt, st, t).1 != Err(MissingInput)
  {
    forall k | 0 <= k < |t.inputs| ensures t.inputs[k].outputRef in Mentioned(t) {
      assert t.inputs[k] in t.inputs;
    }
    NothingMissing(st.utxos, t);
    FirstErrorKinds(rt, st, StrippedBytes(rt, t), t.inputs);
  }

  lemma {:induction false} MentionedAvailable<V(!new), C(!new)>(rt: Runtime<V, C>, st: State<V>,
                                                                ts: seq<Transaction<V, C>>, n: nat, r: OutputRef)
    requires WellOrdered(rt, st, ts) && n < |ts| && r in Mentioned(ts[n])
    requires Run(rt, st, Txs(ts[..n]))
    ensures r in Final(rt, st, Txs(ts[..n])).utxos
  {
    OrderedAt(rt, st, ts, n, r);
    Available(rt, st, ts[..n], r);
  }

  lemma OrderedAt<V(!new), C(!new)>(rt: Runtime<V, C>, st: State<V>, ts: seq<Transaction<V, C>>, n: nat, r: OutputRef)
    requires WellOrdered(rt, st, ts) && n < |ts| && r in Mentioned(ts[n])
    ensures r in st.utxos || exists i :: 0 <= i < |ts[..n]| && r in Created(rt, ts[..n][i])
    ensures forall i :: 0 <= i < |ts[..n]| ==> r !in InputRefs(ts[..n][i].inputs)
  {
    if r !in st.utxos {
      var i :| 0 <= i < n && r in Created(rt, ts[i]);
      assert ts[..n][i] == ts[i];
    }
  }

  /** In a well ordered list, the first transaction to fail never fails for a missing input. */
  lemma {:induction false} FirstFailureIsNotMissing<V(!new), C(!new)>(rt: Runtime<V, C>, st: State<V>,
                                                                      ts: seq<Transaction<V, C>>, n: nat)
    requires WellOrdered(rt, st, ts) && n < |ts|
    requires Run(rt, st, Txs(ts[..n]))
    ensures Apply(rt, Final(rt, st, Txs(ts[..n])), ts[n]).1 != Err(MissingInput)
  {
    forall r | r in Mentioned(ts[n]) ensures r in Final(rt, st, Txs(ts[..n])).utxos {
      MentionedAvailable(rt, st, ts, n, r);
    }
    NoMissingInput(rt, Final(rt, st, Txs(ts[..n])), ts[n]);
  }

  // ----- Independent transactions commute

  ghost predicate Independent<V, C>(rt: Runtime<V, C>, t: Transaction<V, C>, u: Transaction<V, C>) {
    && Created(rt, t).Keys !! Created(rt, u).Keys
    && InputRefs(t.inputs) !! Mentioned(u)
    && InputRefs(u.inputs) !! Mentioned(t)
  }

  /** The checker sets no storage. */
  predicate Quiet<V, C>(rt: Runtime<V, C>, st: State<V>, t: Transaction<V, C>) {
    rt.check(t.checker, st.height, st.ambient, Args(st.utxos, t)).writes == map[]
  }

  ghost predicate PairwiseIndependent<V, C>(rt: Runtime<V, C>, ts: seq<Transaction<V, C>>) {
    forall i, j :: 0 <= i < j < |ts| ==> Independent(rt, ts[i], ts[j])
  }

  /** Each transaction could be applied on its own. */
  ghost predicate AllApplicable<V, C>(rt: Runtime<V, C>, st: State<V>, ts: seq<Transaction<V, C>>) {
    forall i :: 0 <= i < |ts| ==> Accepted(rt, st, ts[i]) && Quiet(rt, st, ts[i])
  }

  /** Applying one of two independent transactions leaves the other exactly as applicable. */
  lemma StillApplicable<V, C>(rt: Runtime<V, C>, st: State<V>, t: Transaction<V, C>, u: Transaction<V, C>)
    requires Accepted(rt, st, t) && Quiet(rt, st, t)
    requires Accepted(rt, st, u) && Quiet(rt, st, u)
    requires Independent(rt, t, u)
    ensures Apply(rt, st, t).0 == st.(utxos := After(rt, st.utxos, t))
    ensures Accepted(rt, Apply(rt, st, t).0, u) && Quiet(rt, Apply(rt, st, t).0, u)
  {
    AcceptedIff(rt, st, t);
    assert st.ambient + map[] == st.ambient;
    var st' := st.(utxos := After(rt, st.utxos, t));
    forall k | 0 <= k < |u.inputs| ensures u.inputs[k].outputRef in Mentioned(u) {
      assert u.inputs[k] in u.inputs;
    }
    forall r | r in Mentioned(u) ensures r in st.utxos && r in st'.utxos && st'.utxos[r] == st.utxos[r] {
      AfterContents(rt, st, t, r);
      assert r in st.utxos by {
        if r in InputRefs(u.inputs) {
          var k :| 0 <= k < |u.inputs| && u.inputs[k].outputRef == r;
          assert Spendable(rt, st, u, u.inputs[k]);
        }
      }
    }
    ArgsAgree(st.utxos, st'.utxos, u);
    forall k | 0 <= k < |u.inputs| ensures Spendable(rt, st', u, u.inputs[k]) {
      assert Spendable(rt, st, u, u.inputs[k]);
    }
    forall i | 0 <= i < |u.outputs| ensures OutRef(rt, u, i) !in st'.utxos {
      assert OutRef(rt, u, i) in Created(rt, u).Keys;
      AfterContents(rt, st, t, OutRef(rt, u, i));
    }
  }

  /** Where a list of transactions leads, at one reference and without mentioning their order. */
  ghost predicate LeadsAt<V(!new), C(!new)>(rt: Runtime<V, C>, u: Utxos<V>, ts: seq<Transaction<V, C>>, u': Utxos<V>,
                                            r: OutputRef) {
    && (forall t :: t in ts && r in Created(rt, t) ==> r in u' && u'[r] == Created(rt, t)[r])
    && ((forall t :: t in ts ==> r !in Created(rt, t)) ==>
          && (r in u' <==> r in u && forall t :: t in ts ==> r !in InputRefs(t.inputs))
          && (r in u' ==> u'[r] == u[r]))
  }

  ghost predicate LeadsTo<V(!new), C(!new)>(rt: Runtime<V, C>, u: Utxos<V>, ts: seq<Transaction<V, C>>, u': Utxos<V>) {
    forall r :: LeadsAt(rt, u, ts, u', r)
  }

  lemma {:induction false} AllApply<V(!new), C(!new)>(rt: Runtime<V, C>, st: State<V>, ts: seq<Transaction<V, C>>)
    requires AllApplicable(rt, st, ts) && PairwiseIndependent(rt, ts)
    ensures Run(rt, st, Txs(ts))
    ensures var f := Final(rt, st, Txs(ts));
            f == st.(utxos := f.utxos) && LeadsTo(rt, st.utxos, ts, f.utxos)
    decreases |ts|
  {
    if ts == [] {
    } else {
      var t, rest := ts[0], ts[1..];
      var st' := Apply(rt, st, t).0;
      assert Txs(ts)[1..] == Txs(rest);
      RestApplicable(rt, st, ts);
      AllApply(rt, st', rest);
      var u' := Final(rt, st', Txs(rest)).utxos;
      forall r ensures LeadsAt(rt, st.utxos, ts, u', r) {
        assert LeadsAt(rt, After(rt, st.utxos, t), rest, u', r);
        LeadsToCons(rt, st, ts, u', r);
      }
    }
  }

  lemma RestApplicable<V(!new), C(!new)>(rt: Runtime<V, C>, st: State<V>, ts: seq<Transaction<V, C>>)
    requires ts != [] && AllApplicable(rt, st, ts) && PairwiseIndependent(rt, ts)
    ensures Apply(rt, st, ts[0]).0 == st.(utxos := After(rt, st.utxos, ts[0]))
    ensures AllApplicable(rt, Apply(rt, st, ts[0]).0, ts[1..]) && PairwiseIndependent(rt, ts[1..])
  {
    var t, rest := ts[0], ts[1..];
    AcceptedIff(rt, st, t);
    assert st.ambient + map[] == st.ambient;
    forall i | 0 <= i < |rest|
      ensures Accepted(rt, Apply(rt, st, t).0, rest[i]) && Quiet(rt, Apply(rt, st, t).0, rest[i])
    {
      assert rest[i] == ts[i + 1];
      StillApplicable(rt, st, t, rest[i]);
    }
  }

  lemma LeadsToCons<V(!new), C(!new)>(rt: Runtime<V, C>, st: State<V>, ts: seq<Transaction<V, C>>, u': Utxos<V>,
                                      r: OutputRef)
    requires ts != [] && AllApplicable(rt, st, ts) && PairwiseIndependent(rt, ts)
    requires LeadsAt(rt, After(rt, st.utxos, ts[0]), ts[1..], u', r)
    ensures LeadsAt(rt, st.utxos, ts, u', r)
  {
    var t, rest := ts[0], ts[1..];
    AfterContents(rt, st, t, r);
    assert forall x :: x in ts <==> x == t || x in rest;
    if r in Created(rt, t) {
      forall x | x in rest ensures r !in Created(rt, x) && r !in InputRefs(x.inputs) {
        LeftAlone(rt, st, ts, x, r);
      }
    }
  }

  /** What the first transaction creates, the others neither create nor consume. */
  lemma LeftAlone<V(!new), C(!new)>(rt: Runtime<V, C>, st: State<V>, ts: seq<Transaction<V, C>>, x: Transaction<V, C>,
                                    r: OutputRef)
    requires ts != [] && AllApplicable(rt, st, ts) && PairwiseIndependent(rt, ts)
    requires r in Created(rt, ts[0]) && x in ts[1..]
    ensures r !in Created(rt, x) && r !in InputRefs(x.inputs)
  {
    var i :| 0 <= i < |ts[1..]| && ts[1..][i] == x;
    assert x == ts[i + 1];
    assert Independent(rt, ts[0], x) && r in Created(rt, ts[0]).Keys;
    AfterContents(rt, st, ts[0], r);
    if r in InputRefs(x.inputs) {
      InputsPresent(rt, st, x, r);
      assert false;
    }
  }

  lemma InputsPresent<V, C>(rt: Runtime<V, C>, st: State<V>, t: Transaction<V, C>, r: OutputRef)
    requires Accepted(rt, st, t) && r in InputRefs(t.inputs)
    ensures r in st.utxos
  {
    var k :| 0 <= k < |t.inputs| && t.inputs[k].outputRef == r;
    assert Spendable(rt, st, t, t.inputs[k]);
  }

  // Permutations keep the hypotheses.

  lemma {:induction false} TwoOccurrences<T>(s: seq<T>, x: T) returns (i: nat, j: nat)
    requires multiset(s)[x] >= 2
    ensures i < j < |s| && s[i] == s[j] == x
  {
    var p := s[..|s| - 1];
    assert s == p + [s[|s| - 1]];
    if multiset(p)[x] >= 2 {
      i, j := TwoOccurrences(p, x);
    } else {
      assert multiset(s) == multiset(p) + multiset{s[|s| - 1]};
      assert x in multiset(p);
      i :| 0 <= i < |p| && p[i] == x;
      j := |s| - 1;
    }
  }

  lemma Occurrences<T>(s: seq<T>, i: nat, j: nat)
    requires i < j < |s| && s[i] == s[j]
    ensures multiset(s)[s[i]] >= 2
  {
    var (a, b) := (s[..j], s[j..]);
    assert s == a + b;
    assert multiset(s) == multiset(a) + multiset(b);
    assert a[i] == s[i] && b[0] == s[j];
    assert s[i] in multiset(a) && s[i] in multiset(b);
  }

  lemma PermutationIndependent<V, C>(rt: Runtime<V, C>, ts: seq<Transaction<V, C>>, us: seq<Transaction<V, C>>)
    requires PairwiseIndependent(rt, ts) && multiset(ts) == multiset(us)
    ensures PairwiseIndependent(rt, us)
  {
    forall i, j | 0 <= i < j < |us| ensures Independent(rt, us[i], us[j]) {
      var x, y := us[i], us[j];
      if x == y {
        Occurrences(us, i, j);
        var a, b := TwoOccurrences(ts, x);
        assert Independent(rt, ts[a], ts[b]);
      } else {
        assert x in multiset(us) && y in multiset(us);
        var a :| 0 <= a < |ts| && ts[a] == x;
        var b :| 0 <= b < |ts| && ts[b] == y;
        assert if a < b then Independent(rt, ts[a], ts[b]) else Independent(rt, ts[b], ts[a]);
      }
    }
  }

  lemma PermutationMembers<T>(ts: seq<T>, us: seq<T>)
    requires multiset(ts) == multiset(us)
    ensures forall t :: t in ts <==> t in us
  {
    forall t ensures t in ts <==> t in us {
      assert t in ts <==> t in multiset(ts);
      assert t in us <==> t in multiset(us);
    }
  }

  lemma LeadsToOne<V(!new), C(!new)>(rt: Runtime<V, C>, u: Utxos<V>, ts: seq<Transaction<V, C>>,
                                     us: seq<Transaction<V, C>>, v: Utxos<V>, w: Utxos<V>)
    requires LeadsTo(rt, u, ts, v) && LeadsTo(rt, u, us, w)
    requires forall t :: t in ts <==> t in us
    ensures v == w
  {
    forall r ensures (r in v <==> r in w) && (r in v ==> v[r] == w[r]) {
      assert LeadsAt(rt, u, ts, v, r) && LeadsAt(rt, u, us, w, r);
    }
  }

  /** Any permutation of independent applicable transactions applies, and reaches the same state. */
  lemma {:induction false} IndependentCommute<V(!new), C(!new)>(rt: Runtime<V, C>, st: State<V>,
                                                                ts: seq<Transaction<V, C>>, us: seq<Transaction<V, C>>)
    requires AllApplicable(rt, st, ts) && PairwiseIndependent(rt, ts)
    requires multiset(ts) == multiset(us)
    ensures Run(rt, st, Txs(ts)) && Run(rt, st, Txs(us))
    ensures Final(rt, st, Txs(ts)) == Final(rt, st, Txs(us))
  {
    PermutationMembers(ts, us);
    PermutationIndependent(rt, ts, us);
    forall i | 0 <= i < |us| ensures Accepted(rt, st, us[i]) && Quiet(rt, st, us[i]) {
      assert us[i] in ts;
    }
    AllApply(rt, st, ts);
    AllApply(rt, st, us);
    LeadsToOne(rt, st.utxos, ts, us, Final(rt, st, Txs(ts)).utxos, Final(rt, st, Txs(us)).utxos);
  }
}
