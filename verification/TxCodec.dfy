/**
 The SCALE encodings of Tuxedo's types, with the hand written transaction codec of
 `tuxedo-core/src/types.rs`, and the proof that they are lawful.
 */
module TxCodec {
  import opened Scale
  import opened Types

  // ----- Encodings of the parts

  function EncodeRef(r: OutputRef): (b: Bytes)
    ensures |b| == 36
  {
    r.txHash + EncodeU32(r.index)
  }

  function DecodeRef(b: Bytes): Option<(OutputRef, Bytes)> {
    if |b| < 32 then None
    else
      match DecodeU32(b[32..])
      case None => None
      case Some((i, rest)) => Some((OutputRef(b[..32], i), rest))
  }

  lemma RefRoundTrip(r: OutputRef, rest: Bytes)
    ensures DecodeRef(EncodeRef(r) + rest) == Some((r, rest))
  {
    var b := EncodeRef(r) + rest;
    assert b[..32] == r.txHash && b[32..] == EncodeU32(r.index) + rest;
    U32RoundTrip(r.index, rest);
  }

  function EncodeRedemption(c: Codec<Vec<Byte>>, s: RedemptionStrategy): Bytes {
    match s
    case Redemption(r) => [0] + c.enc(r)
    case Eviction => [1]
  }

  function DecodeRedemption(c: Codec<Vec<Byte>>, b: Bytes): Option<(RedemptionStrategy, Bytes)> {
    if b == [] then None
    else if b[0] == 0 then
      match c.dec(b[1..])
      case None => None
      case Some((r, rest)) => Some((Redemption(r), rest))
    else if b[0] == 1 then Some((Eviction, b[1..]))
    else None
  }

  lemma RedemptionRoundTrip(c: Codec<Vec<Byte>>, s: RedemptionStrategy, rest: Bytes)
    requires Lawful(c)
    ensures DecodeRedemption(c, EncodeRedemption(c, s) + rest) == Some((s, rest))
  {
    var b := EncodeRedemption(c, s) + rest;
    match s
    case Redemption(r) => assert b[1..] == c.enc(r) + rest;
    case Eviction => assert b[1..] == rest;
  }

  function RedemptionCodec(c: Codec<Vec<Byte>>): Codec<RedemptionStrategy> {
    Codec(s => EncodeRedemption(c, s), b => DecodeRedemption(c, b))
  }

  function RefCodec(): Codec<OutputRef> { Codec(EncodeRef, DecodeRef) }

  /** Four bytes: a type identifier, or the name of a consensus engine. */
  function TypeIdCodec(): Codec<TypeId> {
    Codec((e: TypeId) => e, b => if |b| < 4 then None else Some((b[..4], b[4..])))
  }

  function InputCodec(): Codec<Input> {
    MapCodec(PairCodec(RefCodec(), RedemptionCodec(ByteVecCodec())),
             (i: Input) => (i.outputRef, i.redeemer), (p: (OutputRef, RedemptionStrategy)) => Input(p.0, p.1))
  }

  function PayloadCodec(): Codec<DynamicallyTypedData> {
    MapCodec(PairCodec(ByteVecCodec(), TypeIdCodec()),
             (d: DynamicallyTypedData) => (d.data, d.typeId),
             (p: (Vec<Byte>, TypeId)) => DynamicallyTypedData(p.0, p.1))
  }

  function OutputCodec<V>(vc: Codec<V>): Codec<Output<V>> {
    MapCodec(PairCodec(PayloadCodec(), vc),
             (o: Output<V>) => (o.payload, o.verifier), (p: (DynamicallyTypedData, V)) => Output(p.0, p.1))
  }

  lemma BasicsLawful()
    ensures Lawful(RefCodec()) && Lawful(TypeIdCodec()) && Lawful(RedemptionCodec(ByteVecCodec()))
  {
    forall r: OutputRef, rest: Bytes ensures RefCodec().dec(RefCodec().enc(r) + rest) == Some((r, rest)) {
      RefRoundTrip(r, rest);
    }
    forall e: TypeId, rest: Bytes ensures TypeIdCodec().dec(TypeIdCodec().enc(e) + rest) == Some((e, rest)) {
      assert (e + rest)[..4] == e && (e + rest)[4..] == rest;
    }
    ByteVecLawful();
    RedemptionLawful(ByteVecCodec());
  }

  lemma RedemptionLawful(c: Codec<Vec<Byte>>)
    requires Lawful(c)
    ensures Lawful(RedemptionCodec(c))
  {
    var r := RedemptionCodec(c);
    forall s: RedemptionStrategy, rest: Bytes ensures r.dec(r.enc(s) + rest) == Some((s, rest)) {
      RedemptionRoundTrip(c, s, rest);
    }
  }

  lemma PartsLawful<V(!new)>(vc: Codec<V>)
    requires Lawful(vc)
    ensures Lawful(RefCodec()) && Lawful(InputCodec()) && Lawful(OutputCodec(vc))
  {
    BasicsLawful();
    ByteVecLawful();
    PairLawful(RefCodec(), RedemptionCodec(ByteVecCodec()));
    MapLawful(PairCodec(RefCodec(), RedemptionCodec(ByteVecCodec())),
              (i: Input) => (i.outputRef, i.redeemer), (p: (OutputRef, RedemptionStrategy)) => Input(p.0, p.1));
    PairLawful(ByteVecCodec(), TypeIdCodec());
    MapLawful(PairCodec(ByteVecCodec(), TypeIdCodec()),
              (d: DynamicallyTypedData) => (d.data, d.typeId),
              (p: (Vec<Byte>, TypeId)) => DynamicallyTypedData(p.0, p.1));
    PairLawful(PayloadCodec(), vc);
    MapLawful(PairCodec(PayloadCodec(), vc),
              (o: Output<V>) => (o.payload, o.verifier), (p: (DynamicallyTypedData, V)) => Output(p.0, p.1));
  }

  // ----- Numbers and hashes

  function H256Codec(): Codec<H256> {
    Codec((h: H256) => h, b => if |b| < 32 then None else Some((b[..32], b[32..])))
  }

  function CompactCodec(): Codec<U32> { Codec(EncodeCompact, DecodeCompact) }

  function U32Codec(): Codec<U32> { Codec(EncodeU32, DecodeU32) }

  lemma NumbersLawful()
    ensures Lawful(H256Codec()) && Lawful(CompactCodec()) && Lawful(U32Codec())
  {
    forall h: H256, rest: Bytes ensures H256Codec().dec(H256Codec().enc(h) + rest) == Some((h, rest)) {
      assert (h + rest)[..32] == h && (h + rest)[32..] == rest;
    }
    forall n: U32, rest: Bytes ensures CompactCodec().dec(CompactCodec().enc(n) + rest) == Some((n, rest)) {
      CompactRoundTrip(n, rest);
    }
    forall n: U32, rest: Bytes ensures U32Codec().dec(U32Codec().enc(n) + rest) == Some((n, rest)) {
      U32RoundTrip(n, rest);
    }
  }

  // ----- The hand written transaction codec

  /** The four fields, one after the other. */
  function BodyCodec<V, C>(vc: Codec<V>, cc: Codec<C>):
    Codec<(Vec<Input>, (Vec<OutputRef>, (Vec<Output<V>>, C)))>
  {
    PairCodec(VecCodec(InputCodec()),
              PairCodec(VecCodec(RefCodec()),
                        PairCodec(VecCodec(OutputCodec(vc)), cc)))
  }

  lemma BodyLawful<V(!new), C(!new)>(vc: Codec<V>, cc: Codec<C>)
    requires Lawful(vc) && Lawful(cc)
    ensures Lawful(BodyCodec(vc, cc))
  {
    PartsLawful(vc);
    var inputs, peeks, outputs :=
      VecCodec(InputCodec()), VecCodec(RefCodec()), VecCodec(OutputCodec(vc));
    VecLawful(InputCodec());
    VecLawful(RefCodec());
    VecLawful(OutputCodec(vc));
    PairLawful(outputs, cc);
    PairLawful(peeks, PairCodec(outputs, cc));
    PairLawful(inputs, PairCodec(peeks, PairCodec(outputs, cc)));
  }

  /** The length is cast to `u32`, so it is the low 32 bits of the real one. */
  function Frame<T>(len: Codec<U32>, c: Codec<T>, x: T): Bytes {
    len.enc(|c.enc(x)| % 0x1_0000_0000) + c.enc(x)
  }

  /** The decoder reads the length and throws it away. */
  function Unframe<T>(len: Codec<U32>, c: Codec<T>, b: Bytes): Option<(T, Bytes)> {
    match len.dec(b)
    case None => None
    case Some((_, b')) => c.dec(b')
  }

  lemma FrameRoundTrip<T(!new)>(len: Codec<U32>, c: Codec<T>, x: T, rest: Bytes)
    requires Lawful(len) && Lawful(c)
    ensures Unframe(len, c, Frame(len, c, x) + rest) == Some((x, rest))
  {
    var n, tail := |c.enc(x)| % 0x1_0000_0000, c.enc(x) + rest;
    assert Frame(len, c, x) + rest == len.enc(n) + tail;
  }

  function Fields<V, C>(t: Transaction<V, C>): (Vec<Input>, (Vec<OutputRef>, (Vec<Output<V>>, C))) {
    (t.inputs, (t.peeks, (t.outputs, t.checker)))
  }

  function Body<V, C>(vc: Codec<V>, cc: Codec<C>, t: Transaction<V, C>): Bytes {
    BodyCodec(vc, cc).enc(Fields(t))
  }

  function EncodeTx<V, C>(vc: Codec<V>, cc: Codec<C>, t: Transaction<V, C>): Bytes {
    Frame(CompactCodec(), BodyCodec(vc, cc), Fields(t))
  }

  function DecodeTx<V, C>(vc: Codec<V>, cc: Codec<C>, b: Bytes): Option<(Transaction<V, C>, Bytes)> {
    match Unframe(CompactCodec(), BodyCodec(vc, cc), b)
    case None => None
    case Some(((inputs, (peeks, (outputs, checker))), rest)) =>
      Some((Transaction(inputs, peeks, outputs, checker), rest))
  }

  /** Decoding an encoded transaction gives it back and consumes exactly its encoding. */
  lemma TxRoundTrip<V(!new), C(!new)>(vc: Codec<V>, cc: Codec<C>, t: Transaction<V, C>, rest: Bytes)
    requires Lawful(vc) && Lawful(cc)
    ensures DecodeTx(vc, cc, EncodeTx(vc, cc, t) + rest) == Some((t, rest))
  {
    NumbersLawful();
    BodyLawful(vc, cc);
    FrameRoundTrip(CompactCodec(), BodyCodec(vc, cc), Fields(t), rest);
  }

  lemma TxInjective<V(!new), C(!new)>(vc: Codec<V>, cc: Codec<C>, t: Transaction<V, C>, u: Transaction<V, C>)
    requires Lawful(vc) && Lawful(cc)
    ensures EncodeTx(vc, cc, t) == EncodeTx(vc, cc, u) <==> t == u
  {
    TxRoundTrip(vc, cc, t, []);
    TxRoundTrip(vc, cc, u, []);
  }

  /** A body as it travels in a block: an opaque byte vector. */
  predicate Fits<V, C>(vc: Codec<V>, cc: Codec<C>, t: Transaction<V, C>) {
    |Body(vc, cc, t)| < 0x1_0000_0000
  }

  /**
   For a body that fits, the typed encoding of a transaction is its encoding as an opaque byte
   vector. This is what makes the wallet's two ways of hashing a transaction agree.
   */
  lemma OpaqueEncodingAgrees<V, C>(vc: Codec<V>, cc: Codec<C>, t: Transaction<V, C>)
    requires Fits(vc, cc, t)
    ensures EncodeTx(vc, cc, t) == EncodeBytes(Body(vc, cc, t))
  {
    EncodeBytesLength(Body(vc, cc, t));
  }

  lemma OpaqueDecodes<V(!new), C(!new)>(vc: Codec<V>, cc: Codec<C>, t: Transaction<V, C>)
    requires Lawful(vc) && Lawful(cc) && Fits(vc, cc, t)
    ensures DecodeTx(vc, cc, EncodeBytes(Body(vc, cc, t))) == Some((t, []))
  {
    var e := EncodeTx(vc, cc, t);
    TxRoundTrip(vc, cc, t, []);
    assert e + [] == e;
    OpaqueEncodingAgrees(vc, cc, t);
  }

  // ----- Headers and block contents

  // Digest items carry a tag; the tags are not consecutive.

  function EncodeDigest(c: Codec<(TypeId, Vec<Byte>)>, bytes: Codec<Vec<Byte>>, d: DigestItem): Bytes {
    match d
    case Other(data) => [0] + bytes.enc(data)
    case Consensus(e, data) => [4] + c.enc((e, data))
    case Seal(e, data) => [5] + c.enc((e, data))
    case PreRuntime(e, data) => [6] + c.enc((e, data))
    case RuntimeEnvironmentUpdated => [8]
  }

  function DecodeDigest(c: Codec<(TypeId, Vec<Byte>)>, bytes: Codec<Vec<Byte>>, b: Bytes): Option<(DigestItem, Bytes)> {
    if b == [] then None
    else if b[0] == 0 then
      match bytes.dec(b[1..])
      case None => None
      case Some((data, rest)) => Some((Other(data), rest))
    else if b[0] == 8 then Some((RuntimeEnvironmentUpdated, b[1..]))
    else if b[0] == 4 || b[0] == 5 || b[0] == 6 then
      match c.dec(b[1..])
      case None => None
      case Some(((e, data), rest)) =>
        Some((if b[0] == 4 then Consensus(e, data) else if b[0] == 5 then Seal(e, data) else PreRuntime(e, data), rest))
    else None
  }

  lemma DigestRoundTrip(c: Codec<(TypeId, Vec<Byte>)>, bytes: Codec<Vec<Byte>>, d: DigestItem, rest: Bytes)
    requires Lawful(c) && Lawful(bytes)
    ensures DecodeDigest(c, bytes, EncodeDigest(c, bytes, d) + rest) == Some((d, rest))
  {
    var b := EncodeDigest(c, bytes, d) + rest;
    match d
    case Other(data) => assert b[1..] == bytes.enc(data) + rest;
    case RuntimeEnvironmentUpdated => assert b[1..] == rest;
    case _ => assert b[1..] == c.enc((d.engine, d.data)) + rest;
  }

  function DigestCodec(c: Codec<(TypeId, Vec<Byte>)>, bytes: Codec<Vec<Byte>>): Codec<DigestItem> {
    Codec(d => EncodeDigest(c, bytes, d), b => DecodeDigest(c, bytes, b))
  }

  lemma DigestLawful(c: Codec<(TypeId, Vec<Byte>)>, bytes: Codec<Vec<Byte>>)
    requires Lawful(c) && Lawful(bytes)
    ensures Lawful(DigestCodec(c, bytes))
  {
    var k := DigestCodec(c, bytes);
    forall d: DigestItem, rest: Bytes ensures k.dec(k.enc(d) + rest) == Some((d, rest)) {
      DigestRoundTrip(c, bytes, d, rest);
    }
  }

  function LogsCodec(): Codec<Vec<DigestItem>> {
    VecCodec(DigestCodec(PairCodec(TypeIdCodec(), ByteVecCodec()), ByteVecCodec()))
  }

  lemma LogsLawful()
    ensures Lawful(LogsCodec())
  {
    BasicsLawful();
    ByteVecLawful();
    var c := PairCodec(TypeIdCodec(), ByteVecCodec());
    PairLawful(TypeIdCodec(), ByteVecCodec());
    DigestLawful(c, ByteVecCodec());
    VecLawful(DigestCodec(c, ByteVecCodec()));
  }

  function HeaderFields(): Codec<(H256, (U32, (H256, (H256, Vec<DigestItem>))))> {
    PairCodec(H256Codec(), PairCodec(CompactCodec(), PairCodec(H256Codec(), PairCodec(H256Codec(), LogsCodec()))))
  }

  function HeaderCodec(): Codec<Header> {
    Codec((h: Header) => HeaderFields().enc((h.parentHash, (h.number, (h.stateRoot, (h.extrinsicsRoot, h.digest))))),
          b => match HeaderFields().dec(b)
               case None => None
               case Some(((p, (n, (s, (x, d)))), rest)) => Some((Header(p, n, s, x, d), rest)))
  }

  lemma HeaderFieldsLawful()
    ensures Lawful(HeaderFields())
  {
    NumbersLawful();
    LogsLawful();
    var h, d := H256Codec(), LogsCodec();
    PairLawful(h, d);
    PairLawful(h, PairCodec(h, d));
    PairLawful(CompactCodec(), PairCodec(h, PairCodec(h, d)));
    PairLawful(h, PairCodec(CompactCodec(), PairCodec(h, PairCodec(h, d))));
  }

  lemma HeaderLawful()
    ensures Lawful(HeaderCodec())
  {
    HeaderFieldsLawful();
    var f := HeaderFields();
    forall h: Header, rest: Bytes ensures HeaderCodec().dec(HeaderCodec().enc(h) + rest) == Some((h, rest)) {
      var p := (h.parentHash, (h.number, (h.stateRoot, (h.extrinsicsRoot, h.digest))));
      assert f.dec(f.enc(p) + rest) == Some((p, rest));
    }
  }

  function TransactionCodec<V, C>(vc: Codec<V>, cc: Codec<C>): Codec<Transaction<V, C>> {
    Codec((t: Transaction<V, C>) => EncodeTx(vc, cc, t), b => DecodeTx(vc, cc, b))
  }

  lemma TransactionLawful<V(!new), C(!new)>(vc: Codec<V>, cc: Codec<C>)
    requires Lawful(vc) && Lawful(cc)
    ensures Lawful(TransactionCodec(vc, cc))
  {
    var c := TransactionCodec(vc, cc);
    forall t: Transaction<V, C>, rest: Bytes ensures c.dec(c.enc(t) + rest) == Some((t, rest)) {
      TxRoundTrip(vc, cc, t, rest);
    }
  }

  /** The list of genesis transactions, stored by the config builder, is what the block builder reads back. */
  lemma GenesisListRoundTrip<V(!new), C(!new)>(vc: Codec<V>, cc: Codec<C>, ts: Vec<Transaction<V, C>>)
    requires Lawful(vc) && Lawful(cc)
    ensures var c := TransactionCodec(vc, cc); DecodeVec(c, EncodeVec(c, ts)) == Some((ts, []))
  {
    var c := TransactionCodec(vc, cc);
    TransactionLawful(vc, cc);
    VecRoundTrip(c, ts, []);
    assert EncodeVec(c, ts) + [] == EncodeVec(c, ts);
  }

  /** The encodings Tuxedo really uses, given those of the verifier and the checker. */
  function ScaleCodecs<V, C>(vc: Codec<V>, cc: Codec<C>): Codecs<V, C> {
    Codecs(RefCodec(), InputCodec(), OutputCodec(vc), TransactionCodec(vc, cc), U32Codec(), HeaderCodec(),
           ByteVecCodec(), VecCodec(ByteVecCodec()), (t: Transaction<V, C>) => Body(vc, cc, t))
  }

  /** Everything proved about lawful codecs holds of Tuxedo's own. */
  lemma ScaleIsLawful<V(!new), C(!new)>(vc: Codec<V>, cc: Codec<C>)
    requires Lawful(vc) && Lawful(cc)
    ensures LawfulCodecs(ScaleCodecs(vc, cc))
  {
    PartsLawful(vc);
    TransactionLawful(vc, cc);
    NumbersLawful();
    HeaderLawful();
    ByteVecLawful();
    VecLawful(ByteVecCodec());
    var k := ScaleCodecs(vc, cc);
    forall t: Transaction<V, C> | |k.body(t)| < 0x1_0000_0000
      ensures k.tx.enc(t) == k.bytes.enc(k.body(t))
    {
      OpaqueEncodingAgrees(vc, cc, t);
    }
  }
}
