/**
 The part of the SCALE codec that Tuxedo's types are built from: fixed width little endian
 integers, compact lengths and vectors (section A.2.2 of the Polkadot Protocol Specification).

 A `Codec` is an encoder with the decoder meant for it. `Lawful` says that decoding what was
 encoded gives the value back and leaves the following bytes untouched, which is what lets
 encodings be concatenated.
 */
module Scale {

  newtype Byte = b: int | 0 <= b < 256

  type Bytes = seq<Byte>

  type U32 = n: nat | n < 0x1_0000_0000

  /** A vector that can be encoded: the encoder refuses collections longer than a `u32`. */
  type Vec<T> = s: seq<T> | |s| < 0x1_0000_0000 witness []

  datatype Option<+T> = None | Some(value: T)

  datatype Codec<!T> = Codec(enc: T -> Bytes, dec: Bytes -> Option<(T, Bytes)>)

  ghost predicate Lawful<T(!new)>(c: Codec<T>) {
    forall t: T, rest: Bytes :: c.dec(c.enc(t) + rest) == Some((t, rest))
  }

  // ----- Little endian integers

  function Pow256(k: nat): (p: nat)
    ensures p > 0
  {
    if k == 0 then 1 else 256 * Pow256(k - 1)
  }

  /** The `k` low bytes of `n`, least significant first. */
  function LeBytes(n: nat, k: nat): (b: Bytes)
    ensures |b| == k
    decreases k
  {
    if k == 0 then [] else [(n % 256) as Byte] + LeBytes(n / 256, k - 1)
  }

  function LeNat(b: Bytes): nat {
    if b == [] then 0 else b[0] as int + 256 * LeNat(b[1..])
  }

  lemma {:induction false} LeNatOfLeBytes(n: nat, k: nat)
    requires n < Pow256(k)
    ensures LeNat(LeBytes(n, k)) == n
    decreases k
  {
    if k == 0 {
    } else {
      LeNatOfLeBytes(n / 256, k - 1);
      assert LeBytes(n, k)[1..] == LeBytes(n / 256, k - 1);
    }
  }

  lemma {:induction false} LeNatBound(b: Bytes)
    ensures LeNat(b) < Pow256(|b|)
  {
    if b == [] {
    } else {
      LeNatBound(b[1..]);
    }
  }

  lemma U32Width()
    ensures Pow256(4) == 0x1_0000_0000
  {
    assert Pow256(2) == 0x1_0000;
    assert Pow256(3) == 0x100_0000;
  }

  function EncodeU32(n: U32): Bytes {
    LeBytes(n, 4)
  }

  function DecodeU32(b: Bytes): Option<(U32, Bytes)> {
    if |b| < 4 then None
    else
      U32Width();
      LeNatBound(b[..4]);
      Some((LeNat(b[..4]), b[4..]))
  }

  lemma U32RoundTrip(n: U32, rest: Bytes)
    ensures DecodeU32(EncodeU32(n) + rest) == Some((n, rest))
  {
    U32Width();
    LeNatOfLeBytes(n, 4);
    var b := EncodeU32(n) + rest;
    assert b[..4] == EncodeU32(n) && b[4..] == rest;
  }

  // ----- Compact lengths

  /** The shortest of the four compact modes that holds `n`. */
  function EncodeCompact(n: U32): (b: Bytes)
    ensures |b| >= 1
  {
    if n < 0x40 then LeBytes(4 * n, 1)
    else if n < 0x4000 then LeBytes(4 * n + 1, 2)
    else if n < 0x4000_0000 then LeBytes(4 * n + 2, 4)
    else [3] + LeBytes(n, 4)
  }

  /** Decoding refuses a value written in a longer mode than it needs. */
  function DecodeCompact(b: Bytes): Option<(U32, Bytes)> {
    if b == [] then None
    else
      U32Width();
      match (b[0] as int) % 4
      case 0 => Some((b[0] as int / 4, b[1..]))
      case 1 =>
        if |b| < 2 then None
        else
          LeNatBound(b[..2]);
          assert Pow256(2) == 0x1_0000;
          var n := LeNat(b[..2]) / 4;
          if n < 0x40 then None else Some((n, b[2..]))
      case 2 =>
        if |b| < 4 then None
        else
          LeNatBound(b[..4]);
          var n := LeNat(b[..4]) / 4;
          if n < 0x4000 then None else Some((n, b[4..]))
      case _ =>
        if b[0] != 3 || |b| < 5 then None
        else
          LeNatBound(b[1..5]);
          var n := LeNat(b[1..5]);
          if n < 0x4000_0000 then None else Some((n, b[5..]))
  }

  /** The low byte of `4 * n + mode` carries the mode, and dividing by four drops it again. */
  lemma CompactMode(n: nat, mode: nat, k: nat)
    requires mode < 4 && k > 0 && 4 * n + mode < Pow256(k)
    ensures var e := LeBytes(4 * n + mode, k);
            e[0] as int % 4 == mode && LeNat(e) / 4 == n
  {
    LeNatOfLeBytes(4 * n + mode, k);
    LowBits(n, mode);
    assert LeBytes(4 * n + mode, k)[0] as int == (4 * n + mode) % 256;
  }

  lemma LowBits(n: nat, mode: nat)
    requires mode < 4
    ensures (4 * n + mode) % 256 % 4 == mode && (4 * n + mode) / 4 == n
  {
  }

  lemma CompactRoundTrip(n: U32, rest: Bytes)
    ensures DecodeCompact(EncodeCompact(n) + rest) == Some((n, rest))
  {
    U32Width();
    if n < 0x40 {
      CompactMode(n, 0, 1);
      CompactPrefix(LeBytes(4 * n, 1), rest);
    } else if n < 0x4000 {
      assert Pow256(2) == 0x1_0000;
      CompactMode(n, 1, 2);
      CompactPrefix(LeBytes(4 * n + 1, 2), rest);
    } else if n < 0x4000_0000 {
      CompactMode(n, 2, 4);
      CompactPrefix(LeBytes(4 * n + 2, 4), rest);
    } else {
      LeNatOfLeBytes(n, 4);
      var b := [3] + LeBytes(n, 4) + rest;
      assert b[1..5] == LeBytes(n, 4) && b[5..] == rest;
    }
  }

  lemma CompactPrefix(e: Bytes, rest: Bytes)
    requires e != []
    ensures (e + rest)[0] == e[0] && (e + rest)[..|e|] == e && (e + rest)[|e|..] == rest
  {
  }

  // ----- Vectors

  function EncodeAll<T>(c: Codec<T>, s: seq<T>): Bytes {
    if s == [] then [] else c.enc(s[0]) + EncodeAll(c, s[1..])
  }

  function DecodeAll<T>(c: Codec<T>, n: nat, b: Bytes): (r: Option<(seq<T>, Bytes)>)
    ensures r.Some? ==> |r.value.0| == n
    decreases n
  {
    if n == 0 then Some(([], b))
    else
      match c.dec(b)
      case None => None
      case Some((t, b')) =>
        match DecodeAll(c, n - 1, b')
        case None => None
        case Some((ts, b'')) => Some(([t] + ts, b''))
  }

  function EncodeVec<T>(c: Codec<T>, s: Vec<T>): Bytes {
    EncodeCompact(|s|) + EncodeAll(c, s)
  }

  function DecodeVec<T>(c: Codec<T>, b: Bytes): Option<(Vec<T>, Bytes)> {
    match DecodeCompact(b)
    case None => None
    case Some((n, b')) =>
      match DecodeAll(c, n, b')
      case None => None
      case Some((ts, b'')) => Some((ts, b''))
  }

  lemma {:induction false} AllRoundTrip<T(!new)>(c: Codec<T>, s: seq<T>, rest: Bytes)
    requires Lawful(c)
    ensures DecodeAll(c, |s|, EncodeAll(c, s) + rest) == Some((s, rest))
  {
    if s == [] {
      assert EncodeAll(c, s) + rest == rest;
    } else {
      var tail := EncodeAll(c, s[1..]) + rest;
      assert EncodeAll(c, s) + rest == c.enc(s[0]) + tail;
      AllRoundTrip(c, s[1..], rest);
      assert [s[0]] + s[1..] == s;
    }
  }

  lemma VecRoundTrip<T(!new)>(c: Codec<T>, s: Vec<T>, rest: Bytes)
    requires Lawful(c)
    ensures DecodeVec(c, EncodeVec(c, s) + rest) == Some((s, rest))
  {
    var tail := EncodeAll(c, s) + rest;
    assert EncodeVec(c, s) + rest == EncodeCompact(|s|) + tail;
    CompactRoundTrip(|s|, tail);
    AllRoundTrip(c, s, rest);
  }

  // ----- Byte vectors

  function EncodeBytes(s: Vec<Byte>): Bytes {
    EncodeCompact(|s|) + s
  }

  function DecodeBytes(b: Bytes): Option<(Vec<Byte>, Bytes)> {
    match DecodeCompact(b)
    case None => None
    case Some((n, b')) => if |b'| < n then None else Some((b'[..n], b'[n..]))
  }

  lemma EncodeBytesLength(s: Vec<Byte>)
    ensures EncodeCompact(|s| % 0x1_0000_0000) + s == EncodeBytes(s)
  {
    SmallModulus(|s|);
  }

  lemma SmallModulus(n: nat)
    requires n < 0x1_0000_0000
    ensures n % 0x1_0000_0000 == n
  {
  }

  lemma BytesRoundTrip(s: Vec<Byte>, rest: Bytes)
    ensures DecodeBytes(EncodeBytes(s) + rest) == Some((s, rest))
  {
    assert EncodeBytes(s) + rest == EncodeCompact(|s|) + (s + rest);
    CompactRoundTrip(|s|, s + rest);
    assert (s + rest)[..|s|] == s && (s + rest)[|s|..] == rest;
  }

  function ByteVecCodec(): Codec<Vec<Byte>> {
    Codec(EncodeBytes, DecodeBytes)
  }

  lemma ByteVecLawful()
    ensures Lawful(ByteVecCodec())
  {
    forall s: Vec<Byte>, rest: Bytes
      ensures ByteVecCodec().dec(ByteVecCodec().enc(s) + rest) == Some((s, rest))
    {
      BytesRoundTrip(s, rest);
    }
  }

  // ----- Composition

  /** One value after the other, as the fields of a struct are encoded. */
  function PairCodec<A, B>(a: Codec<A>, b: Codec<B>): Codec<(A, B)> {
    Codec((p: (A, B)) => a.enc(p.0) + b.enc(p.1), bytes => DecodePair(a, b, bytes))
  }

  function DecodePair<A, B>(a: Codec<A>, b: Codec<B>, bytes: Bytes): Option<((A, B), Bytes)> {
    match a.dec(bytes)
    case None => None
    case Some((x, rest)) =>
      match b.dec(rest)
      case None => None
      case Some((y, rest')) => Some(((x, y), rest'))
  }

  lemma PairLawful<A(!new), B(!new)>(a: Codec<A>, b: Codec<B>)
    requires Lawful(a) && Lawful(b)
    ensures Lawful(PairCodec(a, b))
  {
    var c := PairCodec(a, b);
    forall p: (A, B), rest: Bytes
      ensures c.dec(c.enc(p) + rest) == Some((p, rest))
    {
      assert c.enc(p) + rest == a.enc(p.0) + (b.enc(p.1) + rest);
    }
  }

  /** A type that is encoded as another one, such as a struct as the tuple of its fields. */
  function MapCodec<A, T>(c: Codec<A>, to: T -> A, from: A -> T): Codec<T> {
    Codec((t: T) => c.enc(to(t)),
          b => match c.dec(b)
               case None => None
               case Some((a, rest)) => Some((from(a), rest)))
  }

  lemma MapLawful<A(!new), T(!new)>(c: Codec<A>, to: T -> A, from: A -> T)
    requires Lawful(c) && forall t: T :: from(to(t)) == t
    ensures Lawful(MapCodec(c, to, from))
  {
    var m := MapCodec(c, to, from);
    forall t: T, rest: Bytes ensures m.dec(m.enc(t) + rest) == Some((t, rest)) {
      assert c.dec(c.enc(to(t)) + rest) == Some((to(t), rest));
    }
  }

  function VecCodec<T>(c: Codec<T>): Codec<Vec<T>> {
    Codec((s: Vec<T>) => EncodeVec(c, s), b => DecodeVec(c, b))
  }

  lemma VecLawful<T(!new)>(c: Codec<T>)
    requires Lawful(c)
    ensures Lawful(VecCodec(c))
  {
    forall s: Vec<T>, rest: Bytes
      ensures VecCodec(c).dec(VecCodec(c).enc(s) + rest) == Some((s, rest))
    {
      VecRoundTrip(c, s, rest);
    }
  }

  /** Two values with the same encoding are the same value. */
  lemma LawfulInjective<T(!new)>(c: Codec<T>, x: T, y: T)
    requires Lawful(c)
    requires c.enc(x) == c.enc(y)
    ensures x == y
  {
    assert c.dec(c.enc(x) + []) == Some((x, [])) && c.dec(c.enc(y) + []) == Some((y, []));
  }
}
