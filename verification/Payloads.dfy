/**
 What the pieces' data looks like on chain: each payload reads as a value exactly when it carries
 the piece's type identifier and begins with that value's encoding
 (`tuxedo-core/src/dynamic_typing.rs` and the data types of the wardrobe).
 */
module Payloads {
  import opened Scale
  import opened Types
  import opened Typing
  import opened UtxoSet
  import opened Canon
  import opened Wardrobe
  import Money
  import Kitties
  import Amoeba
  import Poe
  import Timestamps
  import Parachain

  /** The payload is of the type and begins with these bytes. */
  predicate Reads(d: DynamicallyTypedData, id: TypeId, b: Bytes) {
    d.typeId == id && |d.data| >= |b| && d.data[..|b|] == b
  }

  /** The first field of a payload, and what follows. */
  lemma {:induction false} NumberReads(b: Bytes, k: nat, n: nat)
    requires k <= |b| && n < Pow256(k)
    ensures LeNat(b[..k]) == n <==> b[..k] == LeBytes(n, k)
  {
    LeNatOfLeBytes(n, k);
    LeBytesOfLeNat(b[..k]);
  }

  /** Two fields, one after the other. */
  lemma TwoFields(b: Bytes, x: Bytes, y: Bytes)
    requires |b| >= |x| + |y|
    ensures b[..|x| + |y|] == x + y <==> b[..|x|] == x && b[|x|..|x| + |y|] == y
  {
    assert b[..|x| + |y|] == b[..|x|] + b[|x|..|x| + |y|];
  }

  lemma {:induction false} CoinReads(d: DynamicallyTypedData, v: U128)
    ensures Money.ExtractCoin(d) == Some(v) <==> Reads(d, COIN_ID, LeBytes(v, 16))
  {
    Widths();
    if |d.data| >= 16 {
      NumberReads(d.data, 16, v);
    }
  }

  lemma {:induction false} AmoebaReads(d: DynamicallyTypedData, g: U32)
    ensures Amoeba.ExtractGeneration(d) == Some(g) <==> Reads(d, AMOEBA_ID, LeBytes(g, 4)) && |d.data| >= 8
  {
    Widths();
    if |d.data| >= 4 {
      NumberReads(d.data, 4, g);
    }
  }

  lemma {:induction false} ClaimReads(d: DynamicallyTypedData, c: Poe.ClaimData)
    ensures Poe.ExtractClaim(d) == Some(c) <==> Reads(d, CLAIM_ID, c.claim + LeBytes(c.effectiveHeight, 4))
  {
    Widths();
    if |d.data| >= 36 {
      NumberReads(d.data[32..], 4, c.effectiveHeight);
      assert d.data[32..][..4] == d.data[32..36];
      TwoFields(d.data, c.claim, LeBytes(c.effectiveHeight, 4));
    }
  }

  lemma {:induction false} TimestampReads(d: DynamicallyTypedData, t: Timestamps.Timestamp)
    ensures Timestamps.ExtractTimestamp(d) == Some(t) <==>
            Reads(d, TIMESTAMP_ID, LeBytes(t.time, 8) + LeBytes(t.block, 4))
  {
    Widths();
    if |d.data| >= 12 {
      NumberReads(d.data, 8, t.time);
      NumberReads(d.data[8..], 4, t.block);
      assert d.data[8..][..4] == d.data[8..12];
      TwoFields(d.data, LeBytes(t.time, 8), LeBytes(t.block, 4));
    }
  }

  lemma {:induction false} RuntimeRefReads(d: DynamicallyTypedData, h: H256)
    ensures ExtractRuntimeRef(d) == Some(h) <==> Reads(d, RUNTIME_ID, h)
  {
  }

  /** The gender, then the status of that gender. */
  function ParentBytes(p: Kitties.Parent): Bytes {
    match p
    case Mom(m) => [0, if m == Kitties.MomRearinToGo then 0 else 1]
    case Dad(d) => [1, if d == Kitties.DadRearinToGo then 0 else 1]
  }

  lemma ParentReads(b: Bytes, p: Kitties.Parent)
    requires |b| == 2
    ensures Kitties.DecodeParent(b) == Some(p) <==> b == ParentBytes(p)
  {
    assert b == [b[0], b[1]];
  }

  function KittyBytes(k: Kitties.KittyData): Bytes {
    ParentBytes(k.parent) + (LeBytes(k.freeBreedings, 8) + (k.dna + LeBytes(k.numBreedings, 16)))
  }

  lemma {:induction false} KittyReads(d: DynamicallyTypedData, k: Kitties.KittyData)
    ensures Kitties.ExtractKitty(d) == Some(k) <==> Reads(d, KITTY_ID, KittyBytes(k))
  {
    if |d.data| >= 58 {
      KittyFields(d.data, k);
    }
  }

  lemma {:induction false} KittyFields(b: Bytes, k: Kitties.KittyData)
    requires |b| >= 58
    ensures b[..58] == KittyBytes(k) <==>
            && Kitties.DecodeParent(b[..2]) == Some(k.parent) && LeNat(b[2..10]) == k.freeBreedings
            && b[10..42] == k.dna && LeNat(b[42..58]) == k.numBreedings
  {
    Widths();
    ParentReads(b[..2], k.parent);
    NumberAt(b, 2, 8, k.freeBreedings);
    NumberAt(b, 42, 16, k.numBreedings);
    FourFields(b, ParentBytes(k.parent), LeBytes(k.freeBreedings, 8), k.dna, LeBytes(k.numBreedings, 16));
  }

  lemma {:induction false} NumberAt(b: Bytes, from: nat, k: nat, n: nat)
    requires from + k <= |b| && n < Pow256(k)
    ensures LeNat(b[from..from + k]) == n <==> b[from..from + k] == LeBytes(n, k)
  {
    NumberReads(b[from..from + k], k, n);
    assert b[from..from + k][..k] == b[from..from + k];
  }

  lemma FourFields(b: Bytes, x: Bytes, y: Bytes, z: Bytes, w: Bytes)
    requires |b| >= 58 && |x| == 2 && |y| == 8 && |z| == 32 && |w| == 16
    ensures b[..58] == x + (y + (z + w)) <==> b[..2] == x && b[2..10] == y && b[10..42] == z && b[42..58] == w
  {
    TwoFields(b, x, y + (z + w));
    TwoFields(b[2..], y, z + w);
    TwoFields(b[10..], z, w);
    assert b[2..][..8] == b[2..10] && b[2..][8..56] == b[10..58] && b[2..][..56] == b[2..58];
    assert b[10..][..32] == b[10..42] && b[10..][32..48] == b[42..58] && b[10..][..48] == b[10..58];
  }

  // ----- Names

  function Ascii(s: string): Bytes
    requires forall i :: 0 <= i < |s| ==> s[i] as int < 128
  {
    seq(|s|, i requires 0 <= i < |s| => (s[i] as int) as Byte)
  }

  /** Types, storage keys and the adapter's identifier are named as in the source. */
  lemma Names()
    ensures COIN_ID == Ascii("coi") + [0] && KITTY_ID == Ascii("Kitt") && AMOEBA_ID == Ascii("amoe")
    ensures CLAIM_ID == Ascii("poe_") && TIMESTAMP_ID == Ascii("time") && RUNTIME_ID == Ascii("upgd")
    ensures HEADER_KEY == Ascii("header") && HEIGHT_KEY == Ascii("height") && EXTRINSIC_KEY == Ascii("extrinsics")
    ensures Parachain.RELAY_PARENT_NUMBER_KEY == Ascii("relay_parent_number") && CODE_KEY == Ascii(":code")
  {
  }
}
