/**
 The initial state of every chain (`tuxedo-core/src/genesis/config_builder.rs`): the genesis
 transactions are not validated, only their shape is, and their outputs are written to storage.
 */
module Genesis {
  import opened Scale
  import opened Types
  import opened UtxoSet
  import opened Ledger
  import opened Refinement
  import opened Blocks
  import opened Sums

  /** No genesis transaction may read state. */
  predicate Rootless<V, C>(ts: seq<Transaction<V, C>>) {
    forall i :: 0 <= i < |ts| ==> ts[i].inputs == [] && ts[i].peeks == []
  }

  /** Storage with the outputs of all transactions written, later ones last. */
  function WithOutputs<V, C>(rt: Runtime<V, C>, s: Storage, ts: seq<Transaction<V, C>>): Storage {
    if ts == [] then s
    else WithOutputs(rt, s, ts[..|ts| - 1]) + Entries(rt, ts[|ts| - 1])
  }

  function Prepared<V, C>(rt: Runtime<V, C>, s: Storage, encoded: Bytes): Storage {
    s[EXTRINSIC_KEY := encoded][HEIGHT_KEY := rt.codecs.number.enc(0)]
  }

  /** The base holds nothing of the executive's, only such things as the runtime code. */
  ghost predicate Unreserved(base: Storage) {
    forall k :: k in base ==> !Reserved(k)
  }

  /** The storage a chain starts from: the block builder takes the transaction list out again. */
  function GenesisStorage<V, C>(rt: Runtime<V, C>, base: Storage, ts: seq<Transaction<V, C>>, encoded: Bytes): Storage {
    WithOutputs(rt, Prepared(rt, base, encoded), ts) - {EXTRINSIC_KEY}
  }

  /** The UTXO set that a list of genesis transactions describes. */
  function GenesisUtxos<V, C>(rt: Runtime<V, C>, ts: seq<Transaction<V, C>>): Utxos<V> {
    if ts == [] then map[]
    else GenesisUtxos(rt, ts[..|ts| - 1]) + Created(rt, ts[|ts| - 1])
  }

  class GenesisConfigBuilder<V(!new), C(!new)> {
    const rt: Runtime<V, C>
    var storage: Storage

    constructor (rt: Runtime<V, C>, storage: Storage)
      ensures this.rt == rt && this.storage == storage
    {
      this.rt, this.storage := rt, storage;
    }

    /** `encoded` is the encoding of the transaction list, kept for the block builder. */
    method Build(ts: seq<Transaction<V, C>>, encoded: Bytes) returns (ok: bool)
      modifies this`storage
      ensures ok <==> InherentsFirst(rt, ts) && Rootless(ts)
      ensures ok ==> storage == WithOutputs(rt, Prepared(rt, old(storage), encoded), ts)
    {
      storage := storage[EXTRINSIC_KEY := encoded];
      storage := storage[HEIGHT_KEY := rt.codecs.number.enc(0)];
      ghost var s0 := storage;
      var finishedWithOpeningInherents := false;
      for k := 0 to |ts|
        invariant InherentsFirst(rt, ts[..k]) && Rootless(ts[..k])
        invariant storage == WithOutputs(rt, s0, ts[..k])
        invariant finishedWithOpeningInherents == !AllInherent(rt, ts[..k])
      {
        var t := ts[k];
        var isInherent := rt.isInherent(t.checker);
        InherentsFirstStep(rt, ts, k);
        BuildStep(rt, s0, ts, k);
        if isInherent && finishedWithOpeningInherents {
          return false;
        }
        if !isInherent && !finishedWithOpeningInherents {
          finishedWithOpeningInherents := true;
        }
        if t.inputs != [] || t.peeks != [] {
          return false;
        }
        WriteOutputs(t);
      }
      assert ts[..|ts|] == ts;
      ok := true;
    }

    method WriteOutputs(t: Transaction<V, C>)
      modifies this`storage
      ensures storage == old(storage) + Entries(rt, t)
    {
      for k := 0 to |t.outputs|
        invariant storage == old(storage) + EntriesUpTo(rt, t, k)
      {
        var key, value := rt.codecs.ref.enc(OutRef(rt, t, k)), rt.codecs.output.enc(t.outputs[k]);
        WriteOne(old(storage), EntriesUpTo(rt, t, k), key, value);
        storage := storage[key := value];
      }
    }
  }

  lemma {:induction false} BuildStep<V, C>(rt: Runtime<V, C>, s: Storage, ts: seq<Transaction<V, C>>, k: nat)
    requires k < |ts|
    ensures WithOutputs(rt, s, ts[..k + 1]) == WithOutputs(rt, s, ts[..k]) + Entries(rt, ts[k])
    ensures Rootless(ts[..k + 1]) <==> Rootless(ts[..k]) && ts[k].inputs == [] && ts[k].peeks == []
    ensures Rootless(ts) ==> Rootless(ts[..k + 1])
  {
    var p := ts[..k + 1];
    assert p[..k] == ts[..k] && p[k] == ts[k];
    assert forall i :: 0 <= i < k ==> p[i] == ts[..k][i];
  }

  /** Writing the outputs of an input free transaction is the general storage update. */
  lemma WriteIsUpdate<V, C>(rt: Runtime<V, C>, s: Storage, t: Transaction<V, C>)
    requires t.inputs == []
    ensures s + Entries(rt, t) == Updated(rt, s, t)
  {
    assert InputKeys(rt, t.inputs) == {};
    assert s - {} == s;
  }

  /**
   The genesis state: exactly the described UTXO set on top of what was stored, height zero, and
   nothing else changed for transaction processing.
   */
  lemma {:induction false} GenesisState<V(!new), C(!new)>(rt: Runtime<V, C>, s: Storage, ts: seq<Transaction<V, C>>)
    requires LawfulCodecs(rt.codecs) && Rootless(ts)
    ensures var st := Abs(rt.codecs, s);
            Abs(rt.codecs, WithOutputs(rt, s, ts)) == st.(utxos := st.utxos + GenesisUtxos(rt, ts))
  {
    if ts == [] {
      assert UtxosOf(rt.codecs, s) + map[] == UtxosOf(rt.codecs, s);
    } else {
      var p, t := ts[..|ts| - 1], ts[|ts| - 1];
      var s1 := WithOutputs(rt, s, p);
      GenesisState(rt, s, p);
      WriteIsUpdate(rt, s1, t);
      AbsUpdated(rt, s1, t);
      GenesisStep(UtxosOf(rt.codecs, s), GenesisUtxos(rt, p), Created(rt, t));
      assert InputRefs(t.inputs) == {};
    }
  }

  lemma GenesisStep<V>(u: Utxos<V>, a: Utxos<V>, b: Utxos<V>)
    ensures (u + a - {}) + b == u + (a + b)
  {
  }

  lemma AbsPrepared<V(!new), C(!new)>(rt: Runtime<V, C>, base: Storage, encoded: Bytes)
    requires LawfulCodecs(rt.codecs) && Unreserved(base)
    ensures Abs(rt.codecs, Prepared(rt, base, encoded)) == State(Some(0), base, map[])
  {
    var s := Prepared(rt, base, encoded);
    SpecialKeysDiffer();
    var e := rt.codecs.number.enc(0);
    assert e + [] == e && rt.codecs.number.dec(e + []) == Some((0, []));
    assert Ambient(s) == base;
    forall r: OutputRef ensures PeekUtxo(rt.codecs, s, r) == None {
      RefKeysAreReserved(rt.codecs, r);
    }
    assert Holds(rt.codecs, s, map[]);
    HoldsUnique(rt.codecs, s, map[], UtxosOf(rt.codecs, s));
  }

  /** What a chain starts from. */
  lemma {:induction false} GenesisIsReady<V(!new), C(!new)>(rt: Runtime<V, C>, base: Storage,
                                                            ts: seq<Transaction<V, C>>, encoded: Bytes)
    requires LawfulCodecs(rt.codecs) && Unreserved(base) && Rootless(ts)
    ensures var s := GenesisStorage(rt, base, ts, encoded);
            && Abs(rt.codecs, s) == State(Some(0), base, GenesisUtxos(rt, ts))
            && HEADER_KEY !in s && EXTRINSIC_KEY !in s
  {
    var s0 := Prepared(rt, base, encoded);
    AbsPrepared(rt, base, encoded);
    GenesisOnEmpty(rt, s0, base, ts);
    NoTransientKeys(rt, base, ts, encoded);
    AbsWithoutExtrinsics(rt.codecs, WithOutputs(rt, s0, ts));
  }

  lemma {:induction false} GenesisOnEmpty<V(!new), C(!new)>(rt: Runtime<V, C>, s: Storage, base: Storage,
                                                            ts: seq<Transaction<V, C>>)
    requires LawfulCodecs(rt.codecs) && Rootless(ts) && Abs(rt.codecs, s) == State(Some(0), base, map[])
    ensures Abs(rt.codecs, WithOutputs(rt, s, ts)) == State(Some(0), base, GenesisUtxos(rt, ts))
  {
    GenesisState(rt, s, ts);
    OverlayOnNothing(Abs(rt.codecs, s), Abs(rt.codecs, WithOutputs(rt, s, ts)), base, GenesisUtxos(rt, ts));
  }

  lemma OverlayOnNothing<V>(st: State<V>, st': State<V>, base: Storage, u: Utxos<V>)
    requires st == State(Some(0), base, map[]) && st' == st.(utxos := st.utxos + u)
    ensures st' == State(Some(0), base, u)
  {
    assert map[] + u == u;
  }

  lemma {:induction false} NoTransientKeys<V(!new), C(!new)>(rt: Runtime<V, C>, base: Storage,
                                                             ts: seq<Transaction<V, C>>, encoded: Bytes)
    requires LawfulCodecs(rt.codecs) && Unreserved(base)
    ensures var s := GenesisStorage(rt, base, ts, encoded); HEADER_KEY !in s && EXTRINSIC_KEY !in s
  {
    var s0 := Prepared(rt, base, encoded);
    SpecialKeysDiffer();
    assert HEADER_KEY !in s0 by { assert Reserved(HEADER_KEY); }
    OutputsTouchNoSpecialKey(rt, s0, ts, HEADER_KEY);
  }

  lemma AbsWithoutExtrinsics<V(!new), C(!new)>(c: Codecs<V, C>, s: Storage)
    requires LawfulCodecs(c)
    ensures Abs(c, s - {EXTRINSIC_KEY}) == Abs(c, s)
  {
    SpecialKeysDiffer();
    SameUtxos(c, s, s - {EXTRINSIC_KEY});
    assert Ambient(s - {EXTRINSIC_KEY}) == Ambient(s);
  }

  lemma {:induction false} OutputsTouchNoSpecialKey<V(!new), C(!new)>(rt: Runtime<V, C>, s: Storage,
                                                                      ts: seq<Transaction<V, C>>, k: Bytes)
    requires LawfulCodecs(rt.codecs) && |k| != 36
    ensures k in WithOutputs(rt, s, ts) <==> k in s
  {
    if ts == [] {
    } else {
      OutputsTouchNoSpecialKey(rt, s, ts[..|ts| - 1], k);
      var t := ts[|ts| - 1];
      if k in Entries(rt, t) {
        var i := EntryOnly(rt, t, |t.outputs|, k);
      }
    }
  }

  /** Transactions that hash alike make the same outputs. */
  ghost predicate NoClash<V, C>(rt: Runtime<V, C>, ts: seq<Transaction<V, C>>) {
    forall i, j :: 0 <= i < |ts| && 0 <= j < |ts| && TxHash(rt, ts[i]) == TxHash(rt, ts[j]) ==>
      ts[i].outputs == ts[j].outputs
  }

  /** What the genesis UTXO set holds, when no hashes clash. */
  lemma {:induction false} GenesisContents<V, C>(rt: Runtime<V, C>, ts: seq<Transaction<V, C>>, r: OutputRef)
    requires NoClash(rt, ts)
    ensures var u := GenesisUtxos(rt, ts);
            && (forall i :: 0 <= i < |ts| && TxHash(rt, ts[i]) == r.txHash && r.index < |ts[i].outputs| ==>
                  r in u && u[r] == ts[i].outputs[r.index])
            && (r in u ==> exists i :: 0 <= i < |ts| && TxHash(rt, ts[i]) == r.txHash && r.index < |ts[i].outputs|)
  {
    if ts == [] {
    } else {
      var p, t := ts[..|ts| - 1], ts[|ts| - 1];
      assert forall i :: 0 <= i < |p| ==> p[i] == ts[i];
      GenesisContents(rt, p, r);
      CreatedContents(rt, t, r);
      if r in Created(rt, t) {
        forall i | 0 <= i < |ts| && TxHash(rt, ts[i]) == r.txHash ensures ts[i].outputs == t.outputs {
          assert TxHash(rt, ts[i]) == TxHash(rt, ts[|ts| - 1]);
        }
      } else if r in GenesisUtxos(rt, p) {
        var i :| 0 <= i < |p| && TxHash(rt, p[i]) == r.txHash && r.index < |p[i].outputs|;
        assert TxHash(rt, ts[i]) == r.txHash;
      }
    }
  }
}
