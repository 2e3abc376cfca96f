/**
 The encodings seen from the decoder: whatever decodes was encoded that way, so no value has two
 encodings, except that a transaction's length prefix is read and thrown away; and what the bytes
 are (section A.2.2 of the Polkadot Protocol Specification).
 */
module Canon {
  import opened Scale
  import opened Types
  import opened TxCodec

  /** What decodes is the encoding of the value, followed by what is left over. */
  ghost predicate Canonical<T(!new)>(c: Codec<T>) {
    forall b: Bytes :: CanonicalAt(c, b)
  }

  ghost predicate CanonicalAt<T(!new)>(c: Codec<T>, b: Bytes) {
    var d := c.dec(b); d.Some? ==> b == c.enc(d.value.0) + d.value.1
  }

  /** With both laws, the decodable byte strings are exactly the encodings with something after them. */
  lemma {:induction false} DecodesIff<T(!new)>(c: Codec<T>, b: Bytes, t: T, rest: Bytes)
    requires Lawful(c) && Canonical(c)
    ensures c.dec(b) == Some((t, rest)) <==> b == c.enc(t) + rest
  {
    assert CanonicalAt(c, b);
    if b == c.enc(t) + rest {
      assert c.dec(c.enc(t) + rest) == Some((t, rest));
    }
  }

  // ----- Numbers

  lemma {:induction false} LeBytesOfLeNat(b: Bytes)
    ensures LeBytes(LeNat(b), |b|) == b
  {
    if b != [] {
      LeBytesOfLeNat(b[1..]);
      LowByte(b[0], LeNat(b[1..]));
      assert b == [b[0]] + b[1..];
    }
  }

  lemma LowByte(low: Byte, high: nat)
    ensures (low as int + 256 * high) % 256 == low as int && (low as int + 256 * high) / 256 == high
  {
  }

  lemma {:induction false} U32Canonical()
    ensures Canonical(U32Codec())
  {
    forall b: Bytes ensures CanonicalAt(U32Codec(), b) {
      if |b| >= 4 {
        LeBytesOfLeNat(b[..4]);
        assert b == b[..4] + b[4..];
      }
    }
  }

  lemma ModeByte(b: Bytes, k: nat)
    requires 0 < k <= |b|
    ensures LeNat(b[..k]) % 4 == b[0] as int % 4
  {
    assert b[..k][0] == b[0];
  }

  lemma {:induction false} SplitAt(b: Bytes, k: nat)
    requires k <= |b|
    ensures b == b[..k] + b[k..] && LeBytes(LeNat(b[..k]), k) == b[..k]
  {
    LeBytesOfLeNat(b[..k]);
  }

  /** A compact number is only read back in the shortest mode that holds it. */
  lemma {:induction false} CompactCanonical(b: Bytes)
    ensures var d := DecodeCompact(b); d.Some? ==> b == EncodeCompact(d.value.0) + d.value.1
  {
    var d := DecodeCompact(b);
    if d.Some? {
      U32Width();
      match (b[0] as int) % 4
      case 0 =>
        SplitAt(b, 1);
        OneByte(b[0]);
        assert b[..1] == [b[0]];
      case 1 =>
        if |b| >= 2 {
          LeNatBound(b[..2]);
          assert Pow256(2) == 0x1_0000;
          CompactShort(b, 2, 1);
        }
      case 2 =>
        if |b| >= 4 {
          LeNatBound(b[..4]);
          CompactShort(b, 4, 2);
        }
      case _ =>
        assert Pow256(2) == 0x1_0000;
        LeBytesOfLeNat(b[1..5]);
        assert b == [3] + b[1..5] + b[5..];
    }
  }

  lemma {:induction false} OneByte(x: Byte)
    requires x as int % 4 == 0
    ensures LeBytes(4 * (x as int / 4), 1) == [x]
  {
    assert LeBytes(0, 0) == [];
    assert 4 * (x as int / 4) == x as int;
  }

  lemma CompactShort(b: Bytes, k: nat, mode: nat)
    requires 0 < k <= |b| && b[0] as int % 4 == mode
    ensures b == LeBytes(4 * (LeNat(b[..k]) / 4) + mode, k) + b[k..]
  {
    SplitAt(b, k);
    ModeByte(b, k);
    assert 4 * (LeNat(b[..k]) / 4) + mode == LeNat(b[..k]);
  }

  // ----- Composition

  lemma {:induction false} AllCanonical<T(!new)>(c: Codec<T>, n: nat, b: Bytes)
    requires Canonical(c)
    ensures var d := DecodeAll(c, n, b); d.Some? ==> b == EncodeAll(c, d.value.0) + d.value.1
    decreases n
  {
    if n == 0 {
      assert b == [] + b;
    } else {
      assert CanonicalAt(c, b);
      var d := c.dec(b);
      if d.Some? {
        AllCanonical(c, n - 1, d.value.1);
        var e := DecodeAll(c, n - 1, d.value.1);
        if e.Some? {
          var s := [d.value.0] + e.value.0;
          assert s[1..] == e.value.0;
          assert EncodeAll(c, s) == c.enc(d.value.0) + EncodeAll(c, e.value.0);
        }
      }
    }
  }

  lemma {:induction false} VecCanonical<T(!new)>(c: Codec<T>)
    requires Canonical(c)
    ensures Canonical(VecCodec(c))
  {
    forall b: Bytes ensures CanonicalAt(VecCodec(c), b) {
      VecDecodes(c, b);
    }
  }

  lemma {:induction false} VecDecodes<T(!new)>(c: Codec<T>, b: Bytes)
    requires Canonical(c)
    ensures var d := DecodeVec(c, b); d.Some? ==> b == EncodeVec(c, d.value.0) + d.value.1
  {
    CompactCanonical(b);
    var n := DecodeCompact(b);
    if n.Some? {
      AllCanonical(c, n.value.0, n.value.1);
    }
  }

  lemma {:induction false} PairCanonical<A(!new), B(!new)>(a: Codec<A>, b: Codec<B>)
    requires Canonical(a) && Canonical(b)
    ensures Canonical(PairCodec(a, b))
  {
    forall s: Bytes ensures CanonicalAt(PairCodec(a, b), s) {
      assert CanonicalAt(a, s);
      var d := a.dec(s);
      if d.Some? {
        assert CanonicalAt(b, d.value.1);
      }
    }
  }

  lemma {:induction false} MapCanonical<A(!new), T(!new)>(c: Codec<A>, to: T -> A, from: A -> T)
    requires Canonical(c) && forall a: A :: to(from(a)) == a
    ensures Canonical(MapCodec(c, to, from))
  {
    forall s: Bytes ensures CanonicalAt(MapCodec(c, to, from), s) {
      assert CanonicalAt(c, s);
    }
  }

  lemma {:induction false} ByteVecCanonical()
    ensures Canonical(ByteVecCodec())
  {
    forall b: Bytes ensures CanonicalAt(ByteVecCodec(), b) {
      CompactCanonical(b);
      var n := DecodeCompact(b);
      if n.Some? && |n.value.1| >= n.value.0 {
        var tail := n.value.1;
        assert tail == tail[..n.value.0] + tail[n.value.0..];
      }
    }
  }

  // ----- Tuxedo's types

  lemma {:induction false} RefCanonical()
    ensures Canonical(RefCodec())
  {
    U32Canonical();
    forall b: Bytes ensures CanonicalAt(RefCodec(), b) {
      if |b| >= 32 {
        assert b == b[..32] + b[32..];
        assert CanonicalAt(U32Codec(), b[32..]);
      }
    }
  }

  lemma {:induction false} FixedCanonical()
    ensures Canonical(TypeIdCodec()) && Canonical(H256Codec()) && Canonical(CompactCodec())
  {
    forall b: Bytes
      ensures CanonicalAt(TypeIdCodec(), b) && CanonicalAt(H256Codec(), b) && CanonicalAt(CompactCodec(), b)
    {
      CompactCanonical(b);
      if |b| >= 4 {
        assert b == b[..4] + b[4..];
      }
      if |b| >= 32 {
        assert b == b[..32] + b[32..];
      }
    }
  }

  lemma {:induction false} RedemptionCanonical(c: Codec<Vec<Byte>>)
    requires Canonical(c)
    ensures Canonical(RedemptionCodec(c))
  {
    forall b: Bytes ensures CanonicalAt(RedemptionCodec(c), b) {
      if b != [] {
        assert b == [b[0]] + b[1..];
        assert CanonicalAt(c, b[1..]);
      }
    }
  }

  lemma {:induction false} DigestCanonical(c: Codec<(TypeId, Vec<Byte>)>, bytes: Codec<Vec<Byte>>)
    requires Canonical(c) && Canonical(bytes)
    ensures Canonical(DigestCodec(c, bytes))
  {
    forall b: Bytes ensures CanonicalAt(DigestCodec(c, bytes), b) {
      if b != [] {
        assert b == [b[0]] + b[1..];
        assert CanonicalAt(c, b[1..]) && CanonicalAt(bytes, b[1..]);
      }
    }
  }

  lemma {:induction false} PartsCanonical<V(!new)>(vc: Codec<V>)
    requires Canonical(vc)
    ensures Canonical(InputCodec()) && Canonical(OutputCodec(vc))
  {
    RefCanonical();
    FixedCanonical();
    ByteVecCanonical();
    RedemptionCanonical(ByteVecCodec());
    PairCanonical(RefCodec(), RedemptionCodec(ByteVecCodec()));
    MapCanonical(PairCodec(RefCodec(), RedemptionCodec(ByteVecCodec())),
                 (i: Input) => (i.outputRef, i.redeemer), (p: (OutputRef, RedemptionStrategy)) => Input(p.0, p.1));
    PairCanonical(ByteVecCodec(), TypeIdCodec());
    MapCanonical(PairCodec(ByteVecCodec(), TypeIdCodec()),
                 (d: DynamicallyTypedData) => (d.data, d.typeId),
                 (p: (Vec<Byte>, TypeId)) => DynamicallyTypedData(p.0, p.1));
    PairCanonical(PayloadCodec(), vc);
    MapCanonical(PairCodec(PayloadCodec(), vc),
                 (o: Output<V>) => (o.payload, o.verifier), (p: (DynamicallyTypedData, V)) => Output(p.0, p.1));
  }

  /** A header has one encoding. */
  lemma {:induction false} HeaderCanonical()
    ensures Canonical(HeaderCodec())
  {
    FixedCanonical();
    ByteVecCanonical();
    PairCanonical(TypeIdCodec(), ByteVecCodec());
    DigestCanonical(PairCodec(TypeIdCodec(), ByteVecCodec()), ByteVecCodec());
    VecCanonical(DigestCodec(PairCodec(TypeIdCodec(), ByteVecCodec()), ByteVecCodec()));
    var h, d := H256Codec(), LogsCodec();
    PairCanonical(h, d);
    PairCanonical(h, PairCodec(h, d));
    PairCanonical(CompactCodec(), PairCodec(h, PairCodec(h, d)));
    PairCanonical(h, PairCodec(CompactCodec(), PairCodec(h, PairCodec(h, d))));
    forall b: Bytes ensures CanonicalAt(HeaderCodec(), b) {
      assert CanonicalAt(HeaderFields(), b);
    }
  }

  lemma {:induction false} BodyCanonical<V(!new), C(!new)>(vc: Codec<V>, cc: Codec<C>)
    requires Canonical(vc) && Canonical(cc)
    ensures Canonical(BodyCodec(vc, cc))
  {
    RefCanonical();
    PartsCanonical(vc);
    var inputs, peeks, outputs := VecCodec(InputCodec()), VecCodec(RefCodec()), VecCodec(OutputCodec(vc));
    VecCanonical(InputCodec());
    VecCanonical(RefCodec());
    VecCanonical(OutputCodec(vc));
    PairCanonical(outputs, cc);
    PairCanonical(peeks, PairCodec(outputs, cc));
    PairCanonical(inputs, PairCodec(peeks, PairCodec(outputs, cc)));
  }

  /**
   A transaction decodes from exactly those bytes that hold some compact number, the four fields,
   and what is left over. The number is free, so it is the only thing that can be changed about the
   encoding of a transaction without changing the transaction.
   */
  lemma {:induction false} TxDecodesIff<V(!new), C(!new)>(vc: Codec<V>, cc: Codec<C>, b: Bytes, t: Transaction<V, C>,
                                                          rest: Bytes)
    requires Lawful(vc) && Lawful(cc) && Canonical(vc) && Canonical(cc)
    ensures DecodeTx(vc, cc, b) == Some((t, rest)) <==>
            exists n: U32 :: b == EncodeCompact(n) + (Layout(vc, cc, t) + rest)
  {
    TxLayout(vc, cc, t);
    BodyLawful(vc, cc);
    BodyCanonical(vc, cc);
    if DecodeTx(vc, cc, b) == Some((t, rest)) {
      CompactCanonical(b);
      var (n, tail) := DecodeCompact(b).value;
      DecodesIff(BodyCodec(vc, cc), tail, Fields(t), rest);
      assert b == EncodeCompact(n) + (Layout(vc, cc, t) + rest);
    }
    if n: U32 :| b == EncodeCompact(n) + (Layout(vc, cc, t) + rest) {
      CompactRoundTrip(n, Layout(vc, cc, t) + rest);
      DecodesIff(BodyCodec(vc, cc), Layout(vc, cc, t) + rest, Fields(t), rest);
    }
  }

  /** The prefix of a byte vector is a length that the transaction decoder ignores. */
  lemma {:induction false} OpaqueReadsBody<V(!new), C(!new)>(vc: Codec<V>, cc: Codec<C>, e: Vec<Byte>)
    ensures var (d, f) := (DecodeTx(vc, cc, EncodeBytes(e)), BodyCodec(vc, cc).dec(e));
            && (d.Some? <==> f.Some?)
            && (d.Some? ==> Fields(d.value.0) == f.value.0 && d.value.1 == f.value.1)
  {
    CompactRoundTrip(|e|, e);
  }

  /** An opaque extrinsic decodes to exactly the transaction whose fields it begins with. */
  lemma {:induction false} OpaqueDecodesIff<V(!new), C(!new)>(vc: Codec<V>, cc: Codec<C>, e: Vec<Byte>,
                                                              t: Transaction<V, C>)
    requires Lawful(vc) && Lawful(cc) && Canonical(vc) && Canonical(cc)
    ensures (DecodeTx(vc, cc, EncodeBytes(e)).Some? && DecodeTx(vc, cc, EncodeBytes(e)).value.0 == t) <==>
            exists rest: Bytes :: e == Layout(vc, cc, t) + rest
  {
    TxLayout(vc, cc, t);
    BodyLawful(vc, cc);
    BodyCanonical(vc, cc);
    OpaqueReadsBody(vc, cc, e);
    BodyBegins(BodyCodec(vc, cc), e, Fields(t));
    if DecodeTx(vc, cc, EncodeBytes(e)).Some? {
      var u := DecodeTx(vc, cc, EncodeBytes(e)).value.0;
      assert Fields(u) == Fields(t) <==> u == t;
    }
  }

  lemma {:induction false} BodyBegins<T(!new)>(c: Codec<T>, b: Bytes, t: T)
    requires Lawful(c) && Canonical(c)
    ensures (c.dec(b).Some? && c.dec(b).value.0 == t) <==> exists rest: Bytes :: b == c.enc(t) + rest
  {
    if c.dec(b).Some? && c.dec(b).value.0 == t {
      DecodesIff(c, b, t, c.dec(b).value.1);
      assert b == c.enc(t) + c.dec(b).value.1;
    }
    if rest: Bytes :| b == c.enc(t) + rest {
      DecodesIff(c, b, t, rest);
    }
  }

  // ----- The bytes

  /** The fields of a transaction, one after the other. */
  function Layout<V, C>(vc: Codec<V>, cc: Codec<C>, t: Transaction<V, C>): Bytes {
    EncodeVec(InputCodec(), t.inputs) + EncodeVec(RefCodec(), t.peeks) + EncodeVec(OutputCodec(vc), t.outputs) +
    cc.enc(t.checker)
  }

  lemma {:induction false} TxLayout<V, C>(vc: Codec<V>, cc: Codec<C>, t: Transaction<V, C>)
    ensures Body(vc, cc, t) == Layout(vc, cc, t)
    ensures EncodeTx(vc, cc, t) == EncodeCompact(|Layout(vc, cc, t)| % 0x1_0000_0000) + Layout(vc, cc, t)
  {
    Flatten(EncodeVec(InputCodec(), t.inputs), EncodeVec(RefCodec(), t.peeks), EncodeVec(OutputCodec(vc), t.outputs),
            cc.enc(t.checker), []);
  }

  lemma {:induction false} RefLayout(r: OutputRef)
    ensures RefCodec().enc(r) == r.txHash + LeBytes(r.index, 4)
  {
  }

  lemma {:induction false} InputLayout(r: OutputRef, x: Vec<Byte>)
    ensures InputCodec().enc(Input(r, Redemption(x))) == RefCodec().enc(r) + [0] + EncodeCompact(|x|) + x
    ensures InputCodec().enc(Input(r, Eviction)) == RefCodec().enc(r) + [1]
  {
    assert [0] + (EncodeCompact(|x|) + x) == [0] + EncodeCompact(|x|) + x;
  }

  lemma {:induction false} OutputLayout<V>(vc: Codec<V>, o: Output<V>)
    ensures OutputCodec(vc).enc(o) ==
            EncodeCompact(|o.payload.data|) + o.payload.data + o.payload.typeId + vc.enc(o.verifier)
  {
  }

  lemma {:induction false} HeaderLayout(h: Header)
    ensures HeaderCodec().enc(h) ==
            h.parentHash + EncodeCompact(h.number) + h.stateRoot + h.extrinsicsRoot + LogsCodec().enc(h.digest)
  {
    var hash, logs := H256Codec(), LogsCodec();
    var tail := PairCodec(hash, PairCodec(hash, logs));
    assert PairCodec(hash, logs).enc((h.extrinsicsRoot, h.digest)) == h.extrinsicsRoot + logs.enc(h.digest);
    assert tail.enc((h.stateRoot, (h.extrinsicsRoot, h.digest))) ==
           h.stateRoot + (h.extrinsicsRoot + logs.enc(h.digest));
    var f := (h.stateRoot, (h.extrinsicsRoot, h.digest));
    var rest := PairCodec(CompactCodec(), tail);
    assert rest.enc((h.number, f)) == EncodeCompact(h.number) + tail.enc(f);
    assert HeaderFields() == PairCodec(hash, rest);
    assert HeaderFields().enc((h.parentHash, (h.number, f))) == h.parentHash + rest.enc((h.number, f));
    Flatten(h.parentHash, EncodeCompact(h.number), h.stateRoot, h.extrinsicsRoot, logs.enc(h.digest));
  }

  lemma {:induction false} DigestLayout(c: Codec<(TypeId, Vec<Byte>)>, bytes: Codec<Vec<Byte>>, e: TypeId, x: Vec<Byte>)
    ensures EncodeDigest(c, bytes, Other(x)) == [0] + bytes.enc(x)
    ensures EncodeDigest(c, bytes, Consensus(e, x)) == [4] + c.enc((e, x))
    ensures EncodeDigest(c, bytes, Seal(e, x)) == [5] + c.enc((e, x))
    ensures EncodeDigest(c, bytes, PreRuntime(e, x)) == [6] + c.enc((e, x))
    ensures EncodeDigest(c, bytes, RuntimeEnvironmentUpdated) == [8]
  {
  }

  lemma Flatten(a: Bytes, b: Bytes, c: Bytes, d: Bytes, e: Bytes)
    ensures a + (b + (c + d)) == a + b + c + d
    ensures a + (b + (c + (d + e))) == a + b + c + d + e
  {
  }

  /** Byte `i` of a little endian number has the weight `256^i`. */
  lemma {:induction false} LittleEndian(n: nat, k: nat, i: nat)
    requires i < k
    ensures LeBytes(n, k)[i] as int == n / Pow256(i) % 256
    decreases k
  {
    if i > 0 {
      LittleEndian(n / 256, k - 1, i - 1);
      DivideTwice(n, Pow256(i - 1));
    } else {
      assert Pow256(0) == 1;
    }
  }

  lemma DivideTwice(n: nat, p: nat)
    requires p > 0
    ensures n / 256 / p == n / (256 * p)
  {
    var q, r := n / 256, n % 256;
    var a, b := q / p, q % p;
    assert n == 256 * q + r && q == p * a + b;
    assert n == (256 * p) * a + (256 * b + r) by {
      assert 256 * (p * a) == (256 * p) * a;
    }
    assert 256 * b + r < 256 * p;
    DivisionIs(n, 256 * p, a, 256 * b + r);
  }

  lemma DivisionIs(n: nat, d: nat, q: nat, r: nat)
    requires d > 0 && n == d * q + r && r < d
    ensures n / d == q
  {
    var x := n / d - q;
    assert n == d * (n / d) + n % d;
    assert d * x == d * (n / d) - d * q;
    Multiples(d, x);
  }

  lemma Multiples(d: nat, x: int)
    ensures x > 0 ==> d * x >= d
    ensures x < 0 ==> d * x + d <= 0
  {
  }

  /** One value at each border of the compact modes. */
  lemma CompactBytes()
    ensures EncodeCompact(0) == [0] && EncodeCompact(1) == [4] && EncodeCompact(63) == [252]
    ensures EncodeCompact(64) == [1, 1] && EncodeCompact(16_383) == [253, 255]
    ensures EncodeCompact(16_384) == [2, 0, 1, 0] && EncodeCompact(0x3FFF_FFFF) == [254, 255, 255, 255]
    ensures EncodeCompact(0x4000_0000) == [3, 0, 0, 0, 64]
  {
    FourBytes(0, 0, 0, 0);
    OneLow(0);
    OneLow(4);
    OneLow(252);
    TwoBytes(1, 1);
    TwoBytes(253, 255);
    FourBytes(2, 0, 1, 0);
    FourBytes(254, 255, 255, 255);
    FourBytes(0, 0, 0, 64);
  }

  lemma {:induction false} OneLow(a: Byte)
    ensures LeBytes(a as int, 1) == [a]
  {
    assert LeBytes(0, 0) == [];
  }

  lemma {:induction false} TwoBytes(a: Byte, b: Byte)
    ensures LeBytes(a as int + 256 * b as int, 2) == [a, b]
  {
    OneLow(b);
    LowByte(a, b as int);
    assert [a] + [b] == [a, b];
  }

  lemma {:induction false} FourBytes(a: Byte, b: Byte, c: Byte, d: Byte)
    ensures LeBytes(a as int + 256 * (b as int + 256 * (c as int + 256 * d as int)), 4) == [a, b, c, d]
  {
    var y := c as int + 256 * d as int;
    var x := b as int + 256 * y;
    TwoBytes(c, d);
    LowByte(b, y);
    assert LeBytes(x, 3) == [b] + LeBytes(y, 2);
    LowByte(a, x);
    assert LeBytes(a as int + 256 * x, 4) == [a] + LeBytes(x, 3);
    assert [a] + ([b] + [c, d]) == [a, b, c, d];
  }
}
