/**
 The executive (`tuxedo-core/src/executive.rs`): a class over the host's key-value map, each
 method proved against the functions of `Ledger`, `Refinement` and `Blocks`.
 */
module Executive {
  import opened Scale
  import opened Types
  import opened UtxoSet
  import opened Ledger
  import opened Refinement
  import opened Blocks

  class Executive<V(!new), C(!new)> {
    const rt: Runtime<V, C>
    var storage: Storage

    constructor (rt: Runtime<V, C>, storage: Storage)
      ensures this.rt == rt && this.storage == storage
    {
      this.rt, this.storage := rt, storage;
    }

    /** One input: its error, if any, and what it adds to each of the three lists. */
    method ScanInput(input: Input, stripped: Bytes, ghost st: State<V>)
      returns (e: Option<UtxoError>, inputData: seq<DynamicallyTypedData>,
               evictedData: seq<DynamicallyTypedData>, missing: seq<OutputRef>)
      requires Holds(rt.codecs, storage, st.utxos) && st.height == Height(rt.codecs, storage)
      ensures e == InputError(rt, st, stripped, input)
      ensures var (r, u) := (input.outputRef, st.utxos);
              && (e.None? ==> inputData == if r in u && input.redeemer.Redemption? then [u[r].payload] else [])
              && evictedData == (if r in u && input.redeemer.Eviction? then [u[r].payload] else [])
              && missing == (if r in u then [] else [r])
    {
      e, inputData, evictedData, missing := None, [], [], [];
      var found := PeekUtxo(rt.codecs, storage, input.outputRef);
      assert found == if input.outputRef in st.utxos then Some(st.utxos[input.outputRef]) else None;
      match found {
        case Some(utxo) =>
          match input.redeemer {
            case Redemption(redeemer) =>
              e := RedeemError(rt, utxo.verifier, Height(rt.codecs, storage), stripped, redeemer);
              if e.None? {
                inputData := [utxo.payload];
              }
            case Eviction =>
              evictedData := [utxo.payload];
          }
        case None =>
          missing := [input.outputRef];
      }
    }

    /** The first loop of validation: sort the inputs, or stop at the first bad redeemer. */
    method ScanInputs(t: Transaction<V, C>, stripped: Bytes, ghost st: State<V>)
      returns (e: Option<UtxoError>, inputData: seq<DynamicallyTypedData>,
               evictedData: seq<DynamicallyTypedData>, missing: seq<OutputRef>)
      requires Holds(rt.codecs, storage, st.utxos) && st.height == Height(rt.codecs, storage)
      ensures e == FirstError(rt, st, stripped, t.inputs)
      ensures e.None? ==>
                && inputData == Redeemed(st.utxos, t.inputs)
                && evictedData == Evicted(st.utxos, t.inputs)
                && missing == Absent(st.utxos, Refs(t.inputs))
    {
      e, inputData, evictedData, missing := None, [], [], [];
      for k := 0 to |t.inputs|
        invariant e.None? && FirstError(rt, st, stripped, t.inputs[..k]).None?
        invariant inputData == Redeemed(st.utxos, t.inputs[..k])
        invariant evictedData == Evicted(st.utxos, t.inputs[..k])
        invariant missing == Absent(st.utxos, Refs(t.inputs[..k]))
      {
        var redeemed, evicted, absent;
        e, redeemed, evicted, absent := ScanInput(t.inputs[k], stripped, st);
        ScanStep(rt, st, stripped, t.inputs, k);
        if e.Some? {
          FirstErrorPrefix(rt, st, stripped, t.inputs, k + 1);
          return;
        }
        inputData, evictedData, missing := inputData + redeemed, evictedData + evicted, missing + absent;
      }
      assert t.inputs[..|t.inputs|] == t.inputs;
    }

    /** The second loop: peeked payloads and missing peeks. */
    method ScanPeeks(t: Transaction<V, C>, ghost u: Utxos<V>)
      returns (peekData: seq<DynamicallyTypedData>, missing: seq<OutputRef>)
      requires Holds(rt.codecs, storage, u)
      ensures peekData == Peeked(u, t.peeks) && missing == Absent(u, t.peeks)
    {
      peekData, missing := [], [];
      for k := 0 to |t.peeks|
        invariant peekData == Peeked(u, t.peeks[..k])
        invariant missing == Absent(u, t.peeks[..k])
      {
        ghost var upTo := t.peeks[..k + 1];
        assert upTo[..|upTo| - 1] == t.peeks[..k] && upTo[|upTo| - 1] == t.peeks[k];
        match PeekUtxo(rt.codecs, storage, t.peeks[k]) {
          case Some(utxo) => peekData := peekData + [utxo.payload];
          case None => missing := missing + [t.peeks[k]];
        }
      }
      assert t.peeks[..|t.peeks|] == t.peeks;
    }

    /** The third loop: no output may exist already. */
    method OutputsAreFresh(t: Transaction<V, C>, ghost u: Utxos<V>) returns (allFresh: bool)
      requires Holds(rt.codecs, storage, u)
      ensures allFresh == Fresh(rt, u, t)
    {
      for k := 0 to |t.outputs|
        invariant forall i :: 0 <= i < k ==> OutRef(rt, t, i) !in u
      {
        if PeekUtxo(rt.codecs, storage, OutRef(rt, t, k)).Some? {
          assert OutRef(rt, t, k) in u;
          return false;
        }
      }
      return true;
    }

    /** The duplicate check: the set of encoded inputs is as large as the list. */
    method InputsAreDistinct(t: Transaction<V, C>) returns (distinct: bool)
      requires Lawful(rt.codecs.input)
      ensures distinct == NoDuplicates(t.inputs)
    {
      EncodedSetSize(rt, t.inputs);
      var inputSet := set i | i in t.inputs :: rt.codecs.input.enc(i);
      assert inputSet == EncodedInputs(rt, t.inputs);
      distinct := |inputSet| == |t.inputs|;
    }

    /** Validation against the abstract state the storage holds. */
    method ValidateOn(t: Transaction<V, C>, ghost st: State<V>) returns (r: Result<Tags>)
      requires Lawful(rt.codecs.input) && Holds(rt.codecs, storage, st.utxos)
      requires st.height == Height(rt.codecs, storage) && st.ambient == Ambient(storage)
      modifies this`storage
      ensures r == Validate(rt, st, t).result && storage == old(storage) + Validate(rt, st, t).writes
    {
      assert storage + map[] == storage;
      var distinct := InputsAreDistinct(t);
      if !distinct {
        return Err(DuplicateInput);
      }
      var e, inputData, evictedData, missing := ScanInputs(t, StrippedBytes(rt, t), st);
      if e.Some? {
        return Err(e.value);
      }
      var peekData, missingPeeks := ScanPeeks(t, st.utxos);
      missing := missing + missingPeeks;
      var allFresh := OutputsAreFresh(t, st.utxos);
      if !allFresh {
        return Err(PreExistingOutput);
      }
      if missing != [] {
        return Ok(Tags(EncodeRefs(rt.codecs, missing), Provided(rt, t)));
      }
      var args := CheckArgs(inputData, evictedData, peekData, Payloads(t.outputs));
      var out := rt.check(t.checker, Height(rt.codecs, storage), Ambient(storage), args);
      storage := storage + out.writes;
      r := if out.passed then Ok(Tags([], Provided(rt, t))) else Err(ConstraintCheckerError);
    }

    /** Pool style validation; commits nothing but what the checker itself sets. */
    method ValidateTuxedoTransaction(t: Transaction<V, C>) returns (r: Result<Tags>)
      requires LawfulCodecs(rt.codecs)
      modifies this`storage
      ensures var v := Validate(rt, Abs(rt.codecs, old(storage)), t);
              r == v.result && storage == old(storage) + v.writes
    {
      r := ValidateOn(t, Abs(rt.codecs, storage));
    }

    method ConsumeInputs(t: Transaction<V, C>)
      modifies this`storage
      ensures storage == old(storage) - InputKeys(rt, t.inputs)
    {
      for k := 0 to |t.inputs|
        invariant storage == old(storage) - InputKeys(rt, t.inputs[..k])
      {
        var key := rt.codecs.ref.enc(t.inputs[k].outputRef);
        assert InputKeys(rt, t.inputs[..k + 1]) == InputKeys(rt, t.inputs[..k]) + {key} by {
          assert t.inputs[..k + 1] == t.inputs[..k] + [t.inputs[k]];
        }
        storage := storage - {key};
      }
      assert t.inputs[..|t.inputs|] == t.inputs;
    }

    /** Writes the changes of a transaction blindly to storage. */
    method UpdateStorage(t: Transaction<V, C>)
      modifies this`storage
      ensures storage == Updated(rt, old(storage), t)
    {
      ConsumeInputs(t);
      ghost var kept := storage;
      for k := 0 to |t.outputs|
        invariant storage == kept + EntriesUpTo(rt, t, k)
      {
        var key, value := rt.codecs.ref.enc(OutRef(rt, t, k)), rt.codecs.output.enc(t.outputs[k]);
        WriteOne(kept, EntriesUpTo(rt, t, k), key, value);
        storage := storage[key := value];
      }
    }

    /** Full verification and application of a transaction. */
    method ApplyTuxedoTransaction(t: Transaction<V, C>) returns (r: Result<()>)
      requires LawfulCodecs(rt.codecs)
      modifies this`storage
      ensures (storage, r) == ApplyOn(rt, old(storage), t)
    {
      var v := ValidateTuxedoTransaction(t);
      if v.Err? {
        return Err(v.error);
      }
      if v.value.needed != [] {
        return Err(MissingInput);
      }
      UpdateStorage(t);
      r := Ok(());
    }

    // ----- Authoring

    method OpenBlock(h: Header)
      modifies this`storage
      ensures storage == Opening(rt, old(storage), h)
    {
      storage := storage[HEADER_KEY := rt.codecs.header.enc(h)];
      storage := storage[HEIGHT_KEY := rt.codecs.number.enc(h.number)];
    }

    /** The extrinsic is noted before it is applied, and stays noted if the application fails. */
    method ApplyExtrinsic(t: Transaction<V, C>) returns (r: Result<()>)
      requires LawfulCodecs(rt.codecs) && CanNote(rt, storage, t)
      modifies this`storage
      ensures (storage, r) == ApplyOn(rt, Note(rt, old(storage), t), t)
    {
      var extrinsics := Noted(rt, storage);
      extrinsics := extrinsics + [rt.codecs.tx.enc(t)];
      storage := storage[EXTRINSIC_KEY := rt.codecs.list.enc(extrinsics)];
      r := ApplyTuxedoTransaction(t);
    }

    /** Nothing is returned where the source panics for want of a stored header. */
    method CloseBlock() returns (r: Option<Header>)
      modifies this`storage
      ensures match Close(rt, old(storage))
              case None => r == None && storage == old(storage)
              case Some((h, s)) => r == Some(h) && storage == s
    {
      if HEADER_KEY !in storage {
        return None;
      }
      match rt.codecs.header.dec(storage[HEADER_KEY]) {
        case None =>
          return None;
        case Some((h, _)) =>
          SpecialKeysDiffer();
          ghost var before := storage;
          storage := storage - {HEADER_KEY};
          var root := rt.extrinsicsRoot(Noted(rt, storage));
          assert Noted(rt, storage) == Noted(rt, before);
          storage := storage - {EXTRINSIC_KEY};
          r := Some(h.(extrinsicsRoot := root, stateRoot := rt.stateRoot(storage)));
      }
    }

    // ----- Import

    /** Returns false where the source panics. */
    method ExecuteBlock(b: Block<V, C>) returns (ok: bool)
      requires LawfulCodecs(rt.codecs)
      modifies this`storage
      ensures ok ==> Execute(rt, old(storage), b) == Some(storage)
      ensures !ok ==> Execute(rt, old(storage), b) == None
    {
      ghost var s0 := storage;
      OpenBlock(b.header);
      ok := RunExtrinsics(b.extrinsics);
      if !ok {
        return;
      }
      storage := storage - {HEADER_KEY};
      if b.header.stateRoot != rt.stateRoot(storage) {
        return false;
      }
      ok := b.header.extrinsicsRoot == rt.extrinsicsRoot(Encodings(rt, b.extrinsics));
    }

    /** The loop of import: opening inherents first, and every transaction must apply. */
    method RunExtrinsics(ts: seq<Transaction<V, C>>) returns (ok: bool)
      requires LawfulCodecs(rt.codecs)
      modifies this`storage
      ensures ok ==> InherentsFirst(rt, ts) && RunAll(rt, old(storage), ts) == Some(storage)
      ensures !ok ==> !InherentsFirst(rt, ts) || RunAll(rt, old(storage), ts).None?
    {
      ghost var s0 := storage;
      var finishedWithOpeningInherents := false;
      for k := 0 to |ts|
        invariant InherentsFirst(rt, ts[..k]) && RunAll(rt, s0, ts[..k]) == Some(storage)
        invariant finishedWithOpeningInherents == !AllInherent(rt, ts[..k])
      {
        var t := ts[k];
        var isInherent := rt.isInherent(t.checker);
        InherentsFirstStep(rt, ts, k);
        RunAllStep(rt, s0, ts, k);
        if isInherent && finishedWithOpeningInherents {
          return false;
        }
        if !isInherent && !finishedWithOpeningInherents {
          finishedWithOpeningInherents := true;
        }
        var r := ApplyTuxedoTransaction(t);
        if r.Err? {
          RunAllPrefix(rt, s0, ts, k + 1);
          return false;
        }
      }
      assert ts[..|ts|] == ts;
      ok := true;
    }
  }
}
