/**
 The transaction path on real storage: what application does to the host's key-value map, and
 the proof that this refines the abstract step of `Ledger`.
 */
module Refinement {
  import opened Scale
  import opened Types
  import opened UtxoSet
  import opened Ledger

  /** Checkers set only ambient storage: no UTXO and none of the executive's own keys. */
  ghost predicate Confined<V(!new), C(!new)>(rt: Runtime<V, C>) {
    forall c: C, h: Option<U32>, amb: Storage, args: CheckArgs, k: Bytes ::
      k in rt.check(c, h, amb, args).writes ==> !Reserved(k)
  }

  ghost predicate Sound<V(!new), C(!new)>(rt: Runtime<V, C>) {
    LawfulCodecs(rt.codecs) && Confined(rt)
  }

  // ----- Storage functions

  function InputKeys<V, C>(rt: Runtime<V, C>, s: seq<Input>): set<Bytes> {
    set i | i in s :: rt.codecs.ref.enc(i.outputRef)
  }

  /** The storage entries written for the outputs. */
  function Entries<V, C>(rt: Runtime<V, C>, t: Transaction<V, C>): Storage {
    EntriesUpTo(rt, t, |t.outputs|)
  }

  function EntriesUpTo<V, C>(rt: Runtime<V, C>, t: Transaction<V, C>, n: nat): Storage
    requires n <= |t.outputs|
  {
    if n == 0 then map[]
    else EntriesUpTo(rt, t, n - 1)
           [rt.codecs.ref.enc(OutRef(rt, t, n - 1)) := rt.codecs.output.enc(t.outputs[n - 1])]
  }

  function Updated<V, C>(rt: Runtime<V, C>, s: Storage, t: Transaction<V, C>): Storage {
    (s - InputKeys(rt, t.inputs)) + Entries(rt, t)
  }

  /** What follows from a verdict on storage. */
  function Commit<V, C>(rt: Runtime<V, C>, s: Storage, t: Transaction<V, C>, v: Verdict): (Storage, Result<()>) {
    if v.result.Err? then (s + v.writes, Err(v.result.error))
    else if v.result.value.needed != [] then (s + v.writes, Err(MissingInput))
    else (Updated(rt, s + v.writes, t), Ok(()))
  }

  /** Full application on storage. */
  ghost function ApplyOn<V(!new), C(!new)>(rt: Runtime<V, C>, s: Storage, t: Transaction<V, C>): (Storage, Result<()>) {
    Commit(rt, s, t, Validate(rt, Abs(rt.codecs, s), t))
  }

  // ----- The storage update means the map update

  lemma WriteOne(s: Storage, entries: Storage, key: Bytes, value: Bytes)
    ensures (s + entries)[key := value] == s + entries[key := value]
  {
  }

  lemma {:induction false} EntryPresent<V(!new), C(!new)>(rt: Runtime<V, C>, t: Transaction<V, C>, n: nat, i: nat)
    requires LawfulCodecs(rt.codecs) && i < n <= |t.outputs|
    ensures var (e, k) := (EntriesUpTo(rt, t, n), rt.codecs.ref.enc(OutRef(rt, t, i)));
            k in e && e[k] == rt.codecs.output.enc(t.outputs[i])
  {
    if i < n - 1 {
      EntryPresent(rt, t, n - 1, i);
      RefKeyInjective(rt.codecs, OutRef(rt, t, i), OutRef(rt, t, n - 1));
    }
  }

  lemma {:induction false} EntryOnly<V, C>(rt: Runtime<V, C>, t: Transaction<V, C>, n: nat, k: Bytes) returns (i: nat)
    requires n <= |t.outputs| && k in EntriesUpTo(rt, t, n)
    ensures i < n && k == rt.codecs.ref.enc(OutRef(rt, t, i))
  {
    if k == rt.codecs.ref.enc(OutRef(rt, t, n - 1)) {
      i := n - 1;
    } else {
      i := EntryOnly(rt, t, n - 1, k);
    }
  }

  lemma EntryOf<V(!new), C(!new)>(rt: Runtime<V, C>, t: Transaction<V, C>, r: OutputRef)
    requires LawfulCodecs(rt.codecs)
    ensures rt.codecs.ref.enc(r) in Entries(rt, t) <==> r in Created(rt, t)
    ensures r in Created(rt, t) ==>
              rt.codecs.output.dec(Entries(rt, t)[rt.codecs.ref.enc(r)]) == Some((Created(rt, t)[r], []))
  {
    if r in Created(rt, t) {
      var i :| 0 <= i < |t.outputs| && r == OutRef(rt, t, i);
      EntryPresent(rt, t, |t.outputs|, i);
      var e := rt.codecs.output.enc(t.outputs[i]);
      assert e + [] == e;
    }
    if rt.codecs.ref.enc(r) in Entries(rt, t) {
      var i := EntryOnly(rt, t, |t.outputs|, rt.codecs.ref.enc(r));
      RefKeyInjective(rt.codecs, r, OutRef(rt, t, i));
    }
  }

  lemma InputKeyOf<V(!new), C(!new)>(rt: Runtime<V, C>, s: seq<Input>, r: OutputRef)
    requires LawfulCodecs(rt.codecs)
    ensures rt.codecs.ref.enc(r) in InputKeys(rt, s) <==> r in InputRefs(s)
  {
    if rt.codecs.ref.enc(r) in InputKeys(rt, s) {
      var i :| i in s && rt.codecs.ref.enc(r) == rt.codecs.ref.enc(i.outputRef);
      RefKeyInjective(rt.codecs, r, i.outputRef);
    }
  }

  lemma UpdatedUtxos<V(!new), C(!new)>(rt: Runtime<V, C>, s: Storage, t: Transaction<V, C>)
    requires LawfulCodecs(rt.codecs)
    ensures UtxosOf(rt.codecs, Updated(rt, s, t)) == After(rt, UtxosOf(rt.codecs, s), t)
  {
    var k, s' := rt.codecs, Updated(rt, s, t);
    var u := UtxosOf(k, s);
    var u' := After(rt, u, t);
    forall r: OutputRef ensures PeekUtxo(k, s', r) == if r in u' then Some(u'[r]) else None {
      EntryOf(rt, t, r);
      InputKeyOf(rt, t.inputs, r);
      assert PeekUtxo(k, s, r) == if r in u then Some(u[r]) else None;
    }
    HoldsUnique(k, s', u', UtxosOf(k, s'));
  }

  /** Keys other than UTXO keys are left alone by the update. */
  lemma UpdatedElsewhere<V(!new), C(!new)>(rt: Runtime<V, C>, s: Storage, t: Transaction<V, C>, k: Bytes)
    requires LawfulCodecs(rt.codecs)
    requires |k| != 36
    ensures k in Updated(rt, s, t) <==> k in s
    ensures k in s ==> Updated(rt, s, t)[k] == s[k]
  {
    if k in Entries(rt, t) {
      var i := EntryOnly(rt, t, |t.outputs|, k);
    }
    assert k !in InputKeys(rt, t.inputs);
  }

  lemma AmbientSum(s: Storage, writes: Storage)
    requires forall b :: b in writes ==> !Reserved(b)
    ensures Ambient(s + writes) == Ambient(s) + writes
    ensures forall b :: Reserved(b) ==> (b in s + writes <==> b in s) && (b in s ==> (s + writes)[b] == s[b])
  {
  }

  lemma AmbientWrites<V(!new), C(!new)>(k: Codecs<V, C>, s: Storage, writes: Storage)
    requires LawfulCodecs(k)
    requires forall b :: b in writes ==> !Reserved(b)
    ensures Abs(k, s + writes) == Abs(k, s).(ambient := Ambient(s) + writes)
  {
    AmbientSum(s, writes);
    SameUtxos(k, s, s + writes);
    assert Reserved(HEIGHT_KEY);
    assert Height(k, s + writes) == Height(k, s);
  }

  lemma AbsUpdated<V(!new), C(!new)>(rt: Runtime<V, C>, s: Storage, t: Transaction<V, C>)
    requires LawfulCodecs(rt.codecs)
    ensures var st := Abs(rt.codecs, s);
            Abs(rt.codecs, Updated(rt, s, t)) == st.(utxos := After(rt, st.utxos, t))
  {
    UpdatedUtxos(rt, s, t);
    forall k: Bytes | |k| != 36
      ensures k in Updated(rt, s, t) <==> k in s
      ensures k in s ==> Updated(rt, s, t)[k] == s[k]
    {
      UpdatedElsewhere(rt, s, t, k);
    }
    assert Ambient(Updated(rt, s, t)) == Ambient(s);
  }

  lemma VerdictWrites<V(!new), C(!new)>(rt: Runtime<V, C>, st: State<V>, t: Transaction<V, C>)
    requires Confined(rt)
    ensures forall k :: k in Validate(rt, st, t).writes ==> !Reserved(k)
  {
  }

  /**
   Refinement: on storage, application does to the abstract state what `Ledger.Apply` says, with
   the same result; the executive's transient keys are untouched.
   */
  lemma ApplyRefines<V(!new), C(!new)>(rt: Runtime<V, C>, s: Storage, t: Transaction<V, C>)
    requires Sound(rt)
    ensures var st := Abs(rt.codecs, s);
            var (s', r) := ApplyOn(rt, s, t);
            && Abs(rt.codecs, s') == Apply(rt, st, t).0
            && r == Apply(rt, st, t).1
  {
    var v := Validate(rt, Abs(rt.codecs, s), t);
    VerdictWrites(rt, Abs(rt.codecs, s), t);
    AmbientWrites(rt.codecs, s, v.writes);
    AbsUpdated(rt, s + v.writes, t);
  }

  lemma ApplyKeeps<V(!new), C(!new)>(rt: Runtime<V, C>, s: Storage, t: Transaction<V, C>, k: Bytes)
    requires Sound(rt) && (k == HEADER_KEY || k == HEIGHT_KEY || k == EXTRINSIC_KEY)
    ensures var s' := ApplyOn(rt, s, t).0; (k in s' <==> k in s) && (k in s ==> s'[k] == s[k])
  {
    var v := Validate(rt, Abs(rt.codecs, s), t);
    VerdictWrites(rt, Abs(rt.codecs, s), t);
    UpdatedElsewhere(rt, s + v.writes, t, k);
  }

  /**
   What application leaves unchanged: the executive's own keys always, and for a transaction that
   fails everything except what its checker set, in particular the UTXO set.
   */
  lemma ApplyFrame<V(!new), C(!new)>(rt: Runtime<V, C>, s: Storage, t: Transaction<V, C>)
    requires Sound(rt)
    ensures var (s', r) := ApplyOn(rt, s, t);
            && (forall k :: k == HEADER_KEY || k == HEIGHT_KEY || k == EXTRINSIC_KEY ==>
                  (k in s' <==> k in s) && (k in s ==> s'[k] == s[k]))
            && (r.Err? ==> s' == s + Validate(rt, Abs(rt.codecs, s), t).writes)
            && (r.Err? ==> UtxosOf(rt.codecs, s') == UtxosOf(rt.codecs, s))
  {
    var v := Validate(rt, Abs(rt.codecs, s), t);
    VerdictWrites(rt, Abs(rt.codecs, s), t);
    AmbientWrites(rt.codecs, s, v.writes);
    ApplyKeeps(rt, s, t, HEADER_KEY);
    ApplyKeeps(rt, s, t, HEIGHT_KEY);
    ApplyKeeps(rt, s, t, EXTRINSIC_KEY);
  }

  // ----- The duplicate check

  function EncodedInputs<V, C>(rt: Runtime<V, C>, s: seq<Input>): set<Bytes> {
    set i | i in s :: rt.codecs.input.enc(i)
  }

  /** The set of encodings is as large as the list exactly when no input is repeated. */
  lemma {:induction false} EncodedSetSize<V, C>(rt: Runtime<V, C>, s: seq<Input>)
    requires Lawful(rt.codecs.input)
    ensures |EncodedInputs(rt, s)| == |s| <==> NoDuplicates(s)
    ensures |EncodedInputs(rt, s)| <= |s|
  {
    if s == [] {
      assert EncodedInputs(rt, s) == {};
    } else {
      EncodedSetSize(rt, s[..|s| - 1]);
      EncodedSetSnoc(rt, s, s[..|s| - 1], s[|s| - 1]);
      NoDuplicatesSnoc(s);
    }
  }

  lemma {:induction false} EncodedSetSnoc<V, C>(rt: Runtime<V, C>, s: seq<Input>, p: seq<Input>, last: Input)
    requires Lawful(rt.codecs.input) && s == p + [last]
    ensures var n := |EncodedInputs(rt, p)|; |EncodedInputs(rt, s)| == if last in p then n else n + 1
  {
    var e, x := EncodedInputs(rt, p), rt.codecs.input.enc(last);
    assert EncodedInputs(rt, s) == e + {x};
    if last in p {
      assert e + {x} == e;
    } else if x in e {
      var i :| i in p && x == rt.codecs.input.enc(i);
      LawfulInjective(rt.codecs.input, i, last);
    }
  }

  lemma NoDuplicatesSnoc<T>(s: seq<T>)
    requires s != []
    ensures NoDuplicates(s) <==> NoDuplicates(s[..|s| - 1]) && s[|s| - 1] !in s[..|s| - 1]
  {
  }
}
