/**
 One transaction as a step of the abstract state: pool validation, full application, and the
 declarative meaning of acceptance (`tuxedo-core/src/executive.rs`).
 */
module Ledger {
  import opened Scale
  import opened Types
  import opened UtxoSet

  /** `HeightMissing` stands for the panic of `block_height` when no height is stored. */
  datatype UtxoError =
    DuplicateInput | PreExistingOutput | ConstraintCheckerError | VerifierError | MissingInput | HeightMissing

  datatype Result<+T> = Ok(value: T) | Err(error: UtxoError)

  /** The tags the transaction pool orders transactions by. */
  datatype Tags = Tags(needed: seq<Bytes>, provided: seq<Bytes>)

  /** The outcome of validation, with the storage entries the checker set meanwhile. */
  datatype Verdict = Verdict(result: Result<Tags>, writes: Storage)

  // ----- Validation

  predicate NoDuplicates<T(==)>(s: seq<T>) {
    forall i, j :: 0 <= i < j < |s| ==> s[i] != s[j]
  }

  /** The transaction with its redeemers stripped, which is what the verifiers are shown. */
  function Stripped<V, C>(t: Transaction<V, C>): Transaction<V, C> {
    t.(inputs := seq(|t.inputs|, i requires 0 <= i < |t.inputs| =>
      Input(t.inputs[i].outputRef, Redemption([]))))
  }

  function StrippedBytes<V, C>(rt: Runtime<V, C>, t: Transaction<V, C>): Bytes {
    rt.codecs.tx.enc(Stripped(t))
  }

  /** The error raised by redeeming a present utxo, if any. */
  function RedeemError<V, C>(rt: Runtime<V, C>,
                             v: V, height: Option<U32>, stripped: Bytes, redeemer: Bytes): Option<UtxoError> {
    if !rt.redeemable(v, redeemer) then Some(VerifierError)
    else if height.None? then Some(HeightMissing)
    else if !rt.verify(v, stripped, height.value, redeemer) then Some(VerifierError)
    else None
  }

  /** The error raised by one input, if any; missing and evicted inputs raise none. */
  function InputError<V, C>(rt: Runtime<V, C>, st: State<V>, stripped: Bytes, i: Input): Option<UtxoError> {
    if i.outputRef !in st.utxos || i.redeemer.Eviction? then None
    else RedeemError(rt, st.utxos[i.outputRef].verifier, st.height, stripped, i.redeemer.redeemer)
  }

  function FirstError<V, C>(rt: Runtime<V, C>, st: State<V>, stripped: Bytes, s: seq<Input>): Option<UtxoError> {
    if s == [] then None
    else
      var e := FirstError(rt, st, stripped, s[..|s| - 1]);
      if e.Some? then e else InputError(rt, st, stripped, s[|s| - 1])
  }

  /** Payloads of the inputs that are present and redeemed. */
  function Redeemed<V>(u: Utxos<V>, s: seq<Input>): seq<DynamicallyTypedData> {
    if s == [] then []
    else
      var i := s[|s| - 1];
      Redeemed(u, s[..|s| - 1]) +
      if i.outputRef in u && i.redeemer.Redemption? then [u[i.outputRef].payload] else []
  }

  /** Payloads of the inputs that are present and evicted. */
  function Evicted<V>(u: Utxos<V>, s: seq<Input>): seq<DynamicallyTypedData> {
    if s == [] then []
    else
      var i := s[|s| - 1];
      Evicted(u, s[..|s| - 1]) +
      if i.outputRef in u && i.redeemer.Eviction? then [u[i.outputRef].payload] else []
  }

  function Peeked<V>(u: Utxos<V>, s: seq<OutputRef>): seq<DynamicallyTypedData> {
    if s == [] then []
    else
      var r := s[|s| - 1];
      Peeked(u, s[..|s| - 1]) + if r in u then [u[r].payload] else []
  }

  /** The references of `s` that are absent, in order. */
  function Absent<V>(u: Utxos<V>, s: seq<OutputRef>): seq<OutputRef> {
    if s == [] then []
    else
      var r := s[|s| - 1];
      Absent(u, s[..|s| - 1]) + if r in u then [] else [r]
  }

  function EncodeRefs<V, C>(k: Codecs<V, C>, s: seq<OutputRef>): (b: seq<Bytes>)
    ensures |b| == |s|
    ensures forall i :: 0 <= i < |s| ==> b[i] == k.ref.enc(s[i])
  {
    seq(|s|, i requires 0 <= i < |s| => k.ref.enc(s[i]))
  }

  function Refs(s: seq<Input>): (r: seq<OutputRef>)
    ensures |r| == |s|
    ensures forall k :: 0 <= k < |s| ==> r[k] == s[k].outputRef
  {
    if s == [] then [] else Refs(s[..|s| - 1]) + [s[|s| - 1].outputRef]
  }

  function Payloads<V>(s: seq<Output<V>>): seq<DynamicallyTypedData> {
    seq(|s|, i requires 0 <= i < |s| => s[i].payload)
  }

  function Args<V, C>(u: Utxos<V>, t: Transaction<V, C>): CheckArgs {
    CheckArgs(Redeemed(u, t.inputs), Evicted(u, t.inputs), Peeked(u, t.peeks), Payloads(t.outputs))
  }

  predicate Fresh<V, C>(rt: Runtime<V, C>, u: Utxos<V>, t: Transaction<V, C>) {
    forall i :: 0 <= i < |t.outputs| ==> OutRef(rt, t, i) !in u
  }

  function OutRefs<V, C>(rt: Runtime<V, C>, t: Transaction<V, C>): (s: seq<OutputRef>)
    ensures |s| == |t.outputs|
    ensures forall i :: 0 <= i < |t.outputs| ==> s[i] == OutRef(rt, t, i)
  {
    seq(|t.outputs|, i requires 0 <= i < |t.outputs| => OutRef(rt, t, i))
  }

  function Provided<V, C>(rt: Runtime<V, C>, t: Transaction<V, C>): seq<Bytes> {
    EncodeRefs(rt.codecs, OutRefs(rt, t))
  }

  /** The missing references: first the inputs, then the peeks. */
  function Missing<V, C>(u: Utxos<V>, t: Transaction<V, C>): seq<OutputRef> {
    Absent(u, Refs(t.inputs)) + Absent(u, t.peeks)
  }

  function Validate<V, C>(rt: Runtime<V, C>, st: State<V>, t: Transaction<V, C>): Verdict {
    var e := FirstError(rt, st, StrippedBytes(rt, t), t.inputs);
    if !NoDuplicates(t.inputs) then Verdict(Err(DuplicateInput), map[])
    else if e.Some? then Verdict(Err(e.value), map[])
    else if !Fresh(rt, st.utxos, t) then Verdict(Err(PreExistingOutput), map[])
    else if Missing(st.utxos, t) != [] then
      Verdict(Ok(Tags(EncodeRefs(rt.codecs, Missing(st.utxos, t)), Provided(rt, t))), map[])
    else
      var out := rt.check(t.checker, st.height, st.ambient, Args(st.utxos, t));
      Verdict(if out.passed then Ok(Tags([], Provided(rt, t))) else Err(ConstraintCheckerError), out.writes)
  }

  // ----- Application

  function InputRefs(s: seq<Input>): set<OutputRef> {
    set i | i in s :: i.outputRef
  }

  function Created<V, C>(rt: Runtime<V, C>, t: Transaction<V, C>): Utxos<V> {
    map i | 0 <= i < |t.outputs| :: OutRef(rt, t, i) := t.outputs[i]
  }

  /** The map update a transaction stands for. */
  function After<V, C>(rt: Runtime<V, C>, u: Utxos<V>, t: Transaction<V, C>): Utxos<V> {
    (u - InputRefs(t.inputs)) + Created(rt, t)
  }

  function Apply<V, C>(rt: Runtime<V, C>, st: State<V>, t: Transaction<V, C>): (State<V>, Result<()>) {
    var v := Validate(rt, st, t);
    var st' := st.(ambient := st.ambient + v.writes);
    if v.result.Err? then (st', Err(v.result.error))
    else if v.result.value.needed != [] then (st', Err(MissingInput))
    else (st'.(utxos := After(rt, st.utxos, t)), Ok(()))
  }

  // ----- What acceptance means

  predicate Spendable<V, C>(rt: Runtime<V, C>, st: State<V>, t: Transaction<V, C>, i: Input) {
    && i.outputRef in st.utxos
    && (i.redeemer.Redemption? ==>
          && st.height.Some?
          && var v := st.utxos[i.outputRef].verifier;
             && rt.redeemable(v, i.redeemer.redeemer)
             && rt.verify(v, StrippedBytes(rt, t), st.height.value, i.redeemer.redeemer))
  }

  /** Acceptance without the control flow of the validator. */
  predicate Accepted<V, C>(rt: Runtime<V, C>, st: State<V>, t: Transaction<V, C>) {
    && NoDuplicates(t.inputs)
    && (forall k :: 0 <= k < |t.inputs| ==> Spendable(rt, st, t, t.inputs[k]))
    && (forall k :: 0 <= k < |t.peeks| ==> t.peeks[k] in st.utxos)
    && Fresh(rt, st.utxos, t)
    && rt.check(t.checker, st.height, st.ambient, Args(st.utxos, t)).passed
  }

  lemma {:induction false} FirstErrorNone<V, C>(rt: Runtime<V, C>, st: State<V>, stripped: Bytes, s: seq<Input>)
    ensures FirstError(rt, st, stripped, s).None? <==>
            forall k :: 0 <= k < |s| ==> InputError(rt, st, stripped, s[k]).None?
  {
    if s == [] {
    } else {
      FirstErrorNone(rt, st, stripped, s[..|s| - 1]);
    }
  }

  /** What the input loop adds when it reaches input `k`. */
  lemma {:induction false} ScanStep<V, C>(rt: Runtime<V, C>, st: State<V>, stripped: Bytes, s: seq<Input>, k: nat)
    requires k < |s|
    ensures var (i, u) := (s[k], st.utxos);
            && Redeemed(u, s[..k + 1]) == Redeemed(u, s[..k]) +
                 (if i.outputRef in u && i.redeemer.Redemption? then [u[i.outputRef].payload] else [])
            && Evicted(u, s[..k + 1]) == Evicted(u, s[..k]) +
                 (if i.outputRef in u && i.redeemer.Eviction? then [u[i.outputRef].payload] else [])
            && Absent(u, Refs(s[..k + 1])) == Absent(u, Refs(s[..k])) +
                 (if i.outputRef in u then [] else [i.outputRef])
            && FirstError(rt, st, stripped, s[..k + 1]) ==
                 (if FirstError(rt, st, stripped, s[..k]).Some? then FirstError(rt, st, stripped, s[..k])
                  else InputError(rt, st, stripped, i))
  {
    var upTo := s[..k + 1];
    assert upTo[..k] == s[..k] && upTo[k] == s[k];
    assert Refs(upTo)[..k] == Refs(s[..k]);
  }

  /** An error found in a prefix is the error of the whole list. */
  lemma {:induction false} FirstErrorPrefix<V, C>(rt: Runtime<V, C>, st: State<V>, stripped: Bytes, s: seq<Input>,
                                                  n: nat)
    requires n <= |s| && FirstError(rt, st, stripped, s[..n]).Some?
    ensures FirstError(rt, st, stripped, s) == FirstError(rt, st, stripped, s[..n])
  {
    if n == |s| {
      assert s[..n] == s;
    } else {
      var p := s[..|s| - 1];
      assert p[..n] == s[..n];
      FirstErrorPrefix(rt, st, stripped, p, n);
    }
  }

  lemma {:induction false} AbsentMeaning<V>(u: Utxos<V>, s: seq<OutputRef>)
    ensures forall r :: r in Absent(u, s) <==> r in s && r !in u
    ensures Absent(u, s) == [] <==> forall k :: 0 <= k < |s| ==> s[k] in u
  {
    if s == [] {
    } else {
      var p := s[..|s| - 1];
      AbsentMeaning(u, p);
      assert s == p + [s[|s| - 1]];
    }
  }

  lemma NothingMissing<V, C>(u: Utxos<V>, t: Transaction<V, C>)
    ensures Missing(u, t) == [] <==>
            && (forall k :: 0 <= k < |t.inputs| ==> t.inputs[k].outputRef in u)
            && (forall k :: 0 <= k < |t.peeks| ==> t.peeks[k] in u)
  {
    var refs := Refs(t.inputs);
    AbsentMeaning(u, refs);
    AbsentMeaning(u, t.peeks);
    assert (forall k :: 0 <= k < |refs| ==> refs[k] in u) <==>
           (forall k :: 0 <= k < |t.inputs| ==> t.inputs[k].outputRef in u);
  }

  lemma {:induction false} AllSpendable<V, C>(rt: Runtime<V, C>, st: State<V>, t: Transaction<V, C>)
    requires forall k :: 0 <= k < |t.inputs| ==> t.inputs[k].outputRef in st.utxos
    ensures FirstError(rt, st, StrippedBytes(rt, t), t.inputs).None? <==>
            forall k :: 0 <= k < |t.inputs| ==> Spendable(rt, st, t, t.inputs[k])
  {
    var stripped := StrippedBytes(rt, t);
    FirstErrorNone(rt, st, stripped, t.inputs);
    forall k | 0 <= k < |t.inputs|
      ensures InputError(rt, st, stripped, t.inputs[k]).None? <==> Spendable(rt, st, t, t.inputs[k])
    {
    }
  }

  /** Validation without the control flow: it passes with nothing missing exactly on `Accepted`. */
  lemma ValidateIff<V, C>(rt: Runtime<V, C>, st: State<V>, t: Transaction<V, C>)
    ensures var v := Validate(rt, st, t);
            && (v.result.Ok? && v.result.value.needed == [] <==> Accepted(rt, st, t))
            && (Accepted(rt, st, t) ==>
                  v.writes == rt.check(t.checker, st.height, st.ambient, Args(st.utxos, t)).writes)
  {
    NothingMissing(st.utxos, t);
    if Missing(st.utxos, t) == [] {
      AllSpendable(rt, st, t);
    }
  }

  /** The validator, run to completion, accepts exactly the transactions of `Accepted`. */
  lemma AcceptedIff<V, C>(rt: Runtime<V, C>, st: State<V>, t: Transaction<V, C>)
    ensures Apply(rt, st, t).1.Ok? <==> Accepted(rt, st, t)
    ensures Accepted(rt, st, t) ==>
              Apply(rt, st, t).0 == State(
                st.height,
                st.ambient + rt.check(t.checker, st.height, st.ambient, Args(st.utxos, t)).writes,
                After(rt, st.utxos, t))
  {
    ValidateIff(rt, st, t);
  }

  /** The size of an update: what went in is exactly what was not there before. */
  lemma AfterContents<V, C>(rt: Runtime<V, C>, st: State<V>, t: Transaction<V, C>, r: OutputRef)
    requires Accepted(rt, st, t)
    ensures r in Created(rt, t) ==> r !in st.utxos && r !in InputRefs(t.inputs)
    ensures r in After(rt, st.utxos, t) <==>
            r in Created(rt, t) || (r in st.utxos && r !in InputRefs(t.inputs))
  {
    if r in Created(rt, t) {
      var i :| 0 <= i < |t.outputs| && r == OutRef(rt, t, i);
    }
  }

  /** All references a transaction reads. */
  function Mentioned<V, C>(t: Transaction<V, C>): set<OutputRef> {
    InputRefs(t.inputs) + set r | r in t.peeks
  }

  /** What the checker is shown depends only on the utxos the transaction mentions. */
  lemma ArgsAgree<V, C>(u: Utxos<V>, u': Utxos<V>, t: Transaction<V, C>)
    requires forall r :: r in Mentioned(t) ==> r in u && r in u' && u[r] == u'[r]
    ensures Args(u, t) == Args(u', t)
  {
    forall k | 0 <= k < |t.inputs| ensures t.inputs[k].outputRef in Mentioned(t) {
      assert t.inputs[k] in t.inputs;
    }
    InputsAgree(u, u', t.inputs);
    PeeksAgree(u, u', t.peeks);
  }

  lemma {:induction false} InputsAgree<V>(u: Utxos<V>, u': Utxos<V>, s: seq<Input>)
    requires forall k :: 0 <= k < |s| ==>
               s[k].outputRef in u && s[k].outputRef in u' && u[s[k].outputRef] == u'[s[k].outputRef]
    ensures Redeemed(u, s) == Redeemed(u', s) && Evicted(u, s) == Evicted(u', s)
  {
    if s == [] {
    } else {
      InputsAgree(u, u', s[..|s| - 1]);
    }
  }

  lemma {:induction false} PeeksAgree<V>(u: Utxos<V>, u': Utxos<V>, s: seq<OutputRef>)
    requires forall k :: 0 <= k < |s| ==> s[k] in u && s[k] in u' && u[s[k]] == u'[s[k]]
    ensures Peeked(u, s) == Peeked(u', s)
  {
    if s == [] {
    } else {
      PeeksAgree(u, u', s[..|s| - 1]);
    }
  }

  // ----- Runs

  /** What happens to a chain's state: a block is opened at a height, or a transaction is applied. */
  datatype Event<V, C> = Opened(height: U32) | Applied(tx: Transaction<V, C>)

  predicate Enabled<V, C>(rt: Runtime<V, C>, st: State<V>, e: Event<V, C>) {
    e.Applied? ==> Accepted(rt, st, e.tx)
  }

  function Next<V, C>(rt: Runtime<V, C>, st: State<V>, e: Event<V, C>): State<V> {
    match e
    case Opened(h) => st.(height := Some(h))
    case Applied(t) => Apply(rt, st, t).0
  }

  /** Only opening a block changes the height. */
  lemma NextHeight<V, C>(rt: Runtime<V, C>, st: State<V>, e: Event<V, C>)
    requires Enabled(rt, st, e)
    ensures Next(rt, st, e).height == if e.Opened? then Some(e.height) else st.height
  {
    if e.Applied? {
      AcceptedIff(rt, st, e.tx);
    }
  }

  /** Every transaction of the run is accepted in the state its predecessors lead to. */
  predicate Run<V, C>(rt: Runtime<V, C>, st: State<V>, run: seq<Event<V, C>>)
    decreases |run|
  {
    run == [] || (Enabled(rt, st, run[0]) && Run(rt, Next(rt, st, run[0]), run[1..]))
  }

  function Final<V, C>(rt: Runtime<V, C>, st: State<V>, run: seq<Event<V, C>>): State<V>
    decreases |run|
  {
    if run == [] then st else Final(rt, Next(rt, st, run[0]), run[1..])
  }

  lemma {:induction false} RunAppend<V, C>(rt: Runtime<V, C>, st: State<V>, a: seq<Event<V, C>>, b: seq<Event<V, C>>)
    ensures Run(rt, st, a + b) <==> Run(rt, st, a) && Run(rt, Final(rt, st, a), b)
    ensures Final(rt, st, a + b) == Final(rt, Final(rt, st, a), b)
    decreases |a|
  {
    if a == [] {
      assert a + b == b;
    } else {
      assert (a + b)[0] == a[0] && (a + b)[1..] == a[1..] + b;
      RunAppend(rt, Next(rt, st, a[0]), a[1..], b);
    }
  }

  lemma {:induction false} RunSnoc<V, C>(rt: Runtime<V, C>, st: State<V>, run: seq<Event<V, C>>, e: Event<V, C>)
    ensures Run(rt, st, run + [e]) <==> Run(rt, st, run) && Enabled(rt, Final(rt, st, run), e)
    ensures Final(rt, st, run + [e]) == Next(rt, Final(rt, st, run), e)
  {
    RunAppend(rt, st, run, [e]);
    var mid := Final(rt, st, run);
    assert [e][1..] == [];
    assert Run(rt, Next(rt, mid, e), []) && Final(rt, Next(rt, mid, e), []) == Next(rt, mid, e);
  }

  /** A list of transactions as a run. */
  function Txs<V, C>(ts: seq<Transaction<V, C>>): (run: seq<Event<V, C>>)
    ensures |run| == |ts|
    ensures forall i :: 0 <= i < |ts| ==> run[i] == Applied(ts[i])
  {
    seq(|ts|, i requires 0 <= i < |ts| => Applied(ts[i]))
  }

  lemma {:induction false} TxsSnoc<V, C>(rt: Runtime<V, C>, st: State<V>, ts: seq<Transaction<V, C>>)
    requires ts != []
    ensures var (p, e) := (Txs(ts[..|ts| - 1]), Event<V, C>.Applied(ts[|ts| - 1]));
            && (Run(rt, st, Txs(ts)) <==> Run(rt, st, p) && Enabled(rt, Final(rt, st, p), e))
            && Final(rt, st, Txs(ts)) == Next(rt, Final(rt, st, p), e)
  {
    var p, e := Txs(ts[..|ts| - 1]), Event<V, C>.Applied(ts[|ts| - 1]);
    assert Txs(ts) == p + [e];
    RunSnoc(rt, st, p, e);
  }

  /** A run of transactions, seen from one of them. */
  lemma {:induction false} RunAround<V, C>(rt: Runtime<V, C>, st: State<V>, ts: seq<Transaction<V, C>>, j: nat)
    requires Run(rt, st, Txs(ts)) && j < |ts|
    ensures var st1 := Final(rt, st, Txs(ts[..j]));
            && Run(rt, st, Txs(ts[..j])) && Accepted(rt, st1, ts[j])
            && Run(rt, Apply(rt, st1, ts[j]).0, Txs(ts[j + 1..]))
            && Final(rt, st, Txs(ts)) == Final(rt, Apply(rt, st1, ts[j]).0, Txs(ts[j + 1..]))
  {
    var upTo := ts[..j + 1];
    TxsSplit(ts, j + 1);
    RunAppend(rt, st, Txs(upTo), Txs(ts[j + 1..]));
    assert upTo[..j] == ts[..j] && upTo[j] == ts[j];
    TxsSnoc(rt, st, upTo);
  }

  lemma TxsSplit<V, C>(ts: seq<Transaction<V, C>>, n: nat)
    requires n <= |ts|
    ensures Txs(ts) == Txs(ts[..n]) + Txs(ts[n..])
  {
  }
}
