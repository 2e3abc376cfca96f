/**
 The UTXO set kept in the runtime's key-value storage (`tuxedo-core/src/utxo_set.rs`), the keys
 reserved by the executive (`tuxedo-core/src/lib.rs`), and the abstract state a storage stands for.
 */
module UtxoSet {
  import opened Scale
  import opened Types

  const HEADER_KEY: Bytes := [104, 101, 97, 100, 101, 114]
  const HEIGHT_KEY: Bytes := [104, 101, 105, 103, 104, 116]
  const EXTRINSIC_KEY: Bytes := [101, 120, 116, 114, 105, 110, 115, 105, 99, 115]

  /** Keys that belong to the executive: encoded output references and the three named ones. */
  predicate Reserved(k: Bytes) {
    |k| == 36 || k == HEADER_KEY || k == HEIGHT_KEY || k == EXTRINSIC_KEY
  }

  /** The part of storage that constraint checkers may read and set. */
  function Ambient(s: Storage): Storage {
    map k | k in s && !Reserved(k) :: s[k]
  }

  function Height<V, C>(k: Codecs<V, C>, s: Storage): Option<U32> {
    if HEIGHT_KEY !in s then None
    else
      match k.number.dec(s[HEIGHT_KEY])
      case None => None
      case Some((n, _)) => Some(n)
  }

  /** The height is what was stored last, and none if nothing is stored that decodes. */
  lemma HeightIsStored<V(!new), C(!new)>(k: Codecs<V, C>, s: Storage, n: U32)
    requires LawfulCodecs(k)
    ensures Height(k, s[HEIGHT_KEY := k.number.enc(n)]) == Some(n)
    ensures HEIGHT_KEY !in s || k.number.dec(s[HEIGHT_KEY]).None? ==> Height(k, s) == None
  {
    assert k.number.enc(n) + [] == k.number.enc(n);
  }

  /** Fetch a utxo from the set; a value that does not decode counts as absent. */
  function PeekUtxo<V, C>(k: Codecs<V, C>, s: Storage, r: OutputRef): Option<Output<V>> {
    if k.ref.enc(r) !in s then None
    else
      match k.output.dec(s[k.ref.enc(r)])
      case None => None
      case Some((o, _)) => Some(o)
  }

  type Utxos<V> = map<OutputRef, Output<V>>

  /** `u` is the UTXO set held by the storage. */
  ghost predicate Holds<V, C>(k: Codecs<V, C>, s: Storage, u: Utxos<V>) {
    forall r: OutputRef :: PeekUtxo(k, s, r) == if r in u then Some(u[r]) else None
  }

  lemma HoldsSome<V(!new), C(!new)>(k: Codecs<V, C>, s: Storage)
    requires LawfulCodecs(k)
    ensures exists u: Utxos<V> :: Holds(k, s, u)
  {
    var refs := set b | b in s && k.ref.dec(b).Some? :: k.ref.dec(b).value.0;
    var u: Utxos<V> := map r | r in refs && PeekUtxo(k, s, r).Some? :: PeekUtxo(k, s, r).value;
    forall r: OutputRef ensures PeekUtxo(k, s, r) == if r in u then Some(u[r]) else None {
      if k.ref.enc(r) in s {
        assert k.ref.enc(r) + [] == k.ref.enc(r);
        assert k.ref.dec(k.ref.enc(r)).value.0 == r;
      }
    }
    assert Holds(k, s, u);
  }

  /** The UTXO set as a map from references to outputs. */
  ghost function UtxosOf<V(!new), C(!new)>(k: Codecs<V, C>, s: Storage): (u: Utxos<V>)
    ensures LawfulCodecs(k) ==> Holds(k, s, u)
  {
    if LawfulCodecs(k) then
      HoldsSome(k, s);
      var u: Utxos<V> :| Holds(k, s, u); u
    else map[]
  }

  lemma HoldsUnique<V, C>(k: Codecs<V, C>, s: Storage, u: Utxos<V>, u': Utxos<V>)
    requires Holds(k, s, u) && Holds(k, s, u')
    ensures u == u'
  {
    forall r: OutputRef ensures r in u <==> r in u' && (r in u ==> u[r] == u'[r]) {
      assert PeekUtxo(k, s, r) == PeekUtxo(k, s, r);
    }
  }

  /** What transaction processing can see of a storage. */
  datatype State<V> = State(height: Option<U32>, ambient: Storage, utxos: Utxos<V>)

  ghost function Abs<V(!new), C(!new)>(k: Codecs<V, C>, s: Storage): State<V> {
    State(Height(k, s), Ambient(s), UtxosOf(k, s))
  }

  lemma RefKeysAreReserved<V(!new), C(!new)>(k: Codecs<V, C>, r: OutputRef)
    requires LawfulCodecs(k)
    ensures Reserved(k.ref.enc(r))
    ensures k.ref.enc(r) != HEADER_KEY && k.ref.enc(r) != HEIGHT_KEY && k.ref.enc(r) != EXTRINSIC_KEY
  {
  }

  lemma SpecialKeysDiffer()
    ensures HEADER_KEY != HEIGHT_KEY && HEADER_KEY != EXTRINSIC_KEY && HEIGHT_KEY != EXTRINSIC_KEY
  {
    assert HEADER_KEY[2] != HEIGHT_KEY[2];
  }

  /** Storages that agree on every key of a UTXO hold the same UTXO set. */
  lemma SameUtxos<V(!new), C(!new)>(k: Codecs<V, C>, s: Storage, t: Storage)
    requires LawfulCodecs(k)
    requires forall b: Bytes :: |b| == 36 ==> (b in s <==> b in t) && (b in s ==> s[b] == t[b])
    ensures UtxosOf(k, s) == UtxosOf(k, t)
  {
    var u := UtxosOf(k, s);
    forall r: OutputRef ensures PeekUtxo(k, s, r) == PeekUtxo(k, t, r) {
      assert |k.ref.enc(r)| == 36;
    }
    assert Holds(k, t, u);
    HoldsUnique(k, t, u, UtxosOf(k, t));
  }
}
