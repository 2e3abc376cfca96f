/**
 The wallet's local database (`wallet/src/sync.rs`): an index of the coins that pass a filter,
 maintained block by block and rolled back on re-organisations.

 These are the four tables as values and what applying and unapplying does to them; `WalletSync`
 holds the class that updates them in place.
 */
module Wallet {
  import opened Scale
  import opened Types
  import opened Typing
  import opened UtxoSet
  import opened Ledger
  import opened Sums
  import Money
  import Timestamps

  datatype OuterVerifier =
    | Sr25519Signature(ownerPubkey: H256)
    | UpForGrabs
    | ThresholdMultiSignature(encoded: Vec<Byte>)

  datatype Owned = Owned(owner: H256, amount: U128)

  /** A block as the node serves it: typed header, opaque extrinsics. */
  datatype OpaqueBlock = OpaqueBlock(header: Header, extrinsics: seq<Vec<Byte>>)

  datatype Coins = Coins(unspent: map<OutputRef, Owned>, spent: map<OutputRef, Owned>)

  datatype Tables = Tables(blockHashes: map<nat, H256>, blocks: map<H256, OpaqueBlock>, coins: Coins)

  type Filter = OuterVerifier -> bool

  type Tx<C> = Transaction<OuterVerifier, C>

  // ----- Outputs

  /** What the wallet does with an output. */
  datatype Entry = Ignored | Tracked(coin: Owned) | Unreadable

  function EntryOf(filter: Filter, o: Output<OuterVerifier>): Entry {
    if o.payload.typeId == COIN_ID then
      if !filter(o.verifier) then Ignored
      else
        match (Money.ExtractCoin(o.payload), o.verifier)
        case (Some(amount), Sr25519Signature(owner)) => Tracked(Owned(owner, amount))
        case _ => Unreadable
    else if o.payload.typeId == TIMESTAMP_ID then
      if Timestamps.ExtractTimestamp(o.payload).None? then Unreadable else Ignored
    else Ignored
  }

  /** The unspent table after the first `n` outputs, and whether all of them could be read. */
  function InsertOutputs(filter: Filter, u: map<OutputRef, Owned>, hash: H256, outputs: Vec<Output<OuterVerifier>>,
                         n: nat):
    (map<OutputRef, Owned>, bool)
    requires n <= |outputs|
  {
    if n == 0 then (u, true)
    else
      var (u', ok) := InsertOutputs(filter, u, hash, outputs, n - 1);
      if !ok then (u', false)
      else
        match EntryOf(filter, outputs[n - 1])
        case Ignored => (u', true)
        case Tracked(coin) => (u'[OutputRef(hash, n - 1) := coin], true)
        case Unreadable => (u', false)
  }

  // ----- Spending and unspending

  function Spend(c: Coins, r: OutputRef): Coins {
    if r in c.unspent then Coins(c.unspent - {r}, c.spent[r := c.unspent[r]]) else c
  }

  function Unspend(c: Coins, r: OutputRef): Coins {
    if r in c.spent then Coins(c.unspent[r := c.spent[r]], c.spent - {r}) else c
  }

  function SpendAll(c: Coins, s: seq<OutputRef>): Coins {
    if s == [] then c else Spend(SpendAll(c, s[..|s| - 1]), s[|s| - 1])
  }

  function UnspendAll(c: Coins, s: seq<OutputRef>): Coins {
    if s == [] then c else Unspend(UnspendAll(c, s[..|s| - 1]), s[|s| - 1])
  }

  function RefSet(s: seq<OutputRef>): set<OutputRef> {
    set r | r in s
  }

  lemma RefSetSnoc(s: seq<OutputRef>)
    requires s != []
    ensures RefSet(s) == RefSet(s[..|s| - 1]) + {s[|s| - 1]}
  {
    assert s == s[..|s| - 1] + [s[|s| - 1]];
  }

  /** Spending a list moves exactly the listed coins, whatever the order or repetitions. */
  lemma {:induction false} SpendAllMoves(c: Coins, s: seq<OutputRef>)
    ensures SpendAll(c, s) == Coins(c.unspent - RefSet(s), c.spent + Restrict(c.unspent, RefSet(s)))
  {
    if s == [] {
      assert c.unspent - {} == c.unspent && c.spent + Restrict(c.unspent, {}) == c.spent;
    } else {
      SpendAllMoves(c, s[..|s| - 1]);
      RefSetSnoc(s);
      SpendOne(c, RefSet(s[..|s| - 1]), s[|s| - 1]);
    }
  }

  lemma SpendOne(c: Coins, m: set<OutputRef>, r: OutputRef)
    ensures Spend(Coins(c.unspent - m, c.spent + Restrict(c.unspent, m)), r) ==
            Coins(c.unspent - (m + {r}), c.spent + Restrict(c.unspent, m + {r}))
  {
    assert c.unspent - m - {r} == c.unspent - (m + {r});
    if r in c.unspent && r !in m {
      assert Restrict(c.unspent, m + {r}) == Restrict(c.unspent, m)[r := c.unspent[r]];
      assert (c.spent + Restrict(c.unspent, m))[r := c.unspent[r]] == c.spent + Restrict(c.unspent, m + {r});
    } else {
      assert Restrict(c.unspent, m + {r}) == Restrict(c.unspent, m);
      assert c.unspent - (m + {r}) == c.unspent - m;
    }
  }

  lemma {:induction false} UnspendAllMoves(c: Coins, s: seq<OutputRef>)
    ensures UnspendAll(c, s) == Coins(c.unspent + Restrict(c.spent, RefSet(s)), c.spent - RefSet(s))
  {
    if s == [] {
      assert c.spent - {} == c.spent && c.unspent + Restrict(c.spent, {}) == c.unspent;
    } else {
      UnspendAllMoves(c, s[..|s| - 1]);
      RefSetSnoc(s);
      var swapped := Coins(c.spent, c.unspent);
      SpendOne(swapped, RefSet(s[..|s| - 1]), s[|s| - 1]);
    }
  }

  // ----- Transactions, as opaque bytes

  function Decoded<C>(rt: Runtime<OuterVerifier, C>, e: Vec<Byte>): Option<Tx<C>> {
    match rt.codecs.tx.dec(rt.codecs.bytes.enc(e))
    case None => None
    case Some((t, _)) => Some(t)
  }

  /** Outputs are inserted first, then inputs are spent; false where the source returns an error. */
  function ApplyTransaction<C>(rt: Runtime<OuterVerifier, C>, filter: Filter, c: Coins, e: Vec<Byte>): (Coins, bool) {
    match Decoded(rt, e)
    case None => (c, false)
    case Some(t) =>
      var (u, ok) := InsertOutputs(filter, c.unspent, rt.hashOf(rt.codecs.bytes.enc(e)), t.outputs, |t.outputs|);
      if !ok then (c.(unspent := u), false)
      else (SpendAll(c.(unspent := u), Refs(t.inputs)), true)
  }

  /** Inputs are unspent first, then the outputs are dropped; the hash is that of the re-encoded transaction. */
  function UnapplyTransaction<C>(rt: Runtime<OuterVerifier, C>, c: Coins, e: Vec<Byte>): (Coins, bool) {
    match Decoded(rt, e)
    case None => (c, false)
    case Some(t) => (Unapply(rt, c, t), true)
  }

  function Unapply<C>(rt: Runtime<OuterVerifier, C>, c: Coins, t: Tx<C>): Coins {
    var c' := UnspendAll(c, Refs(t.inputs));
    c'.(unspent := c'.unspent - RefSet(OutRefs(rt, t)))
  }

  // ----- Typed transactions

  /** The wallet reads every output of the transaction without error. */
  predicate Readable<C>(filter: Filter, t: Tx<C>) {
    forall i :: 0 <= i < |t.outputs| ==> !EntryOf(filter, t.outputs[i]).Unreadable?
  }

  /** The tracked part of a UTXO set. */
  function TrackedOf(filter: Filter, u: Utxos<OuterVerifier>): map<OutputRef, Owned> {
    map r | r in u && EntryOf(filter, u[r]).Tracked? :: EntryOf(filter, u[r]).coin
  }

  function Apply<C>(rt: Runtime<OuterVerifier, C>, filter: Filter, c: Coins, t: Tx<C>): Coins {
    SpendAll(c.(unspent := c.unspent + TrackedOf(filter, Created(rt, t))), Refs(t.inputs))
  }

  /** Output `r.index` of the transaction with that hash is tracked under `r`. */
  predicate Tracks(filter: Filter, hash: H256, outputs: Vec<Output<OuterVerifier>>, n: nat, r: OutputRef)
    requires n <= |outputs|
  {
    r.txHash == hash && r.index < n && EntryOf(filter, outputs[r.index]).Tracked?
  }

  lemma {:induction false} InsertReadable(filter: Filter, u: map<OutputRef, Owned>, hash: H256,
                                          outputs: Vec<Output<OuterVerifier>>, n: nat, r: OutputRef)
    requires n <= |outputs|
    requires forall i :: 0 <= i < n ==> !EntryOf(filter, outputs[i]).Unreadable?
    ensures var (u', ok) := InsertOutputs(filter, u, hash, outputs, n);
            && ok && (r in u' <==> r in u || Tracks(filter, hash, outputs, n, r))
            && (r in u' ==>
                  u'[r] == if Tracks(filter, hash, outputs, n, r) then EntryOf(filter, outputs[r.index]).coin else u[r])
  {
    if n > 0 {
      InsertReadable(filter, u, hash, outputs, n - 1, r);
    }
  }

  /** On the opaque form of a transaction that fits, the wallet does what the typed function says. */
  lemma ApplyOpaque<C(!new)>(rt: Runtime<OuterVerifier, C>, filter: Filter, c: Coins, t: Tx<C>)
    requires LawfulCodecs(rt.codecs) && |rt.codecs.body(t)| < 0x1_0000_0000 && Readable(filter, t)
    ensures ApplyTransaction(rt, filter, c, rt.codecs.body(t)) == (Apply(rt, filter, c, t), true)
  {
    OpaqueDecodes(rt, t);
    InsertedIsTracked(rt, filter, c.unspent, t);
  }

  lemma TrackedContents<C>(rt: Runtime<OuterVerifier, C>, filter: Filter, t: Tx<C>, r: OutputRef)
    ensures var n := TrackedOf(filter, Created(rt, t));
            && (r in n <==>
                r.txHash == TxHash(rt, t) && r.index < |t.outputs| && EntryOf(filter, t.outputs[r.index]).Tracked?)
            && (r in n ==> n[r] == EntryOf(filter, t.outputs[r.index]).coin)
  {
    CreatedContents(rt, t, r);
  }

  lemma {:induction false} InsertedIsTracked<C>(rt: Runtime<OuterVerifier, C>, filter: Filter, u: map<OutputRef, Owned>,
                                                t: Tx<C>)
    requires Readable(filter, t)
    ensures InsertOutputs(filter, u, TxHash(rt, t), t.outputs, |t.outputs|) ==
            (u + TrackedOf(filter, Created(rt, t)), true)
  {
    var u' := InsertOutputs(filter, u, TxHash(rt, t), t.outputs, |t.outputs|).0;
    var n := TrackedOf(filter, Created(rt, t));
    InsertReadable(filter, u, TxHash(rt, t), t.outputs, |t.outputs|, OutputRef(TxHash(rt, t), 0));
    forall r
      ensures r in u' <==> r in u + n
      ensures r in u' ==> u'[r] == (u + n)[r]
    {
      InsertReadable(filter, u, TxHash(rt, t), t.outputs, |t.outputs|, r);
      TrackedContents(rt, filter, t, r);
    }
    assert u' == u + n;
  }

  /** The wallet's two ways of reading and hashing a canonical transaction agree. */
  lemma OpaqueDecodes<C(!new)>(rt: Runtime<OuterVerifier, C>, t: Tx<C>)
    requires LawfulCodecs(rt.codecs) && |rt.codecs.body(t)| < 0x1_0000_0000
    ensures Decoded(rt, rt.codecs.body(t)) == Some(t)
    ensures rt.hashOf(rt.codecs.bytes.enc(rt.codecs.body(t))) == TxHash(rt, t)
  {
    var e := rt.codecs.tx.enc(t);
    assert rt.codecs.bytes.enc(rt.codecs.body(t)) == e;
    assert e + [] == e;
    assert rt.codecs.tx.dec(e + []) == Some((t, []));
  }

  // ----- Rollback

  /** When rolling a transaction back restores the coins. */
  predicate Reversible<C>(rt: Runtime<OuterVerifier, C>, c: Coins, t: Tx<C>) {
    && (forall r :: r in Refs(t.inputs) ==> r !in c.spent)
    && (forall r :: r in OutRefs(rt, t) ==> r !in c.unspent)
  }

  lemma OutRefsCover<C>(rt: Runtime<OuterVerifier, C>, filter: Filter, t: Tx<C>)
    ensures TrackedOf(filter, Created(rt, t)).Keys <= RefSet(OutRefs(rt, t))
  {
    forall r | r in TrackedOf(filter, Created(rt, t)) ensures r in OutRefs(rt, t) {
      CreatedContents(rt, t, r);
      assert OutRefs(rt, t)[r.index] == r;
    }
  }

  /** The effect of applying and unapplying, in one formula. */
  lemma RoundTrip<C>(rt: Runtime<OuterVerifier, C>, filter: Filter, c: Coins, t: Tx<C>)
    ensures var (i, o) := (RefSet(Refs(t.inputs)), RefSet(OutRefs(rt, t)));
            var x := c.unspent + TrackedOf(filter, Created(rt, t));
            Unapply(rt, Apply(rt, filter, c, t), t) ==
            Coins((x - i) + Restrict(c.spent + Restrict(x, i), i) - o, (c.spent + Restrict(x, i)) - i)
  {
    var x := c.unspent + TrackedOf(filter, Created(rt, t));
    SpendAllMoves(c.(unspent := x), Refs(t.inputs));
    UnspendAllMoves(Apply(rt, filter, c, t), Refs(t.inputs));
  }

  /** Rolling back is an exact inverse, under any filter, exactly for reversible transactions. */
  lemma RollbackIff<C>(rt: Runtime<OuterVerifier, C>, filter: Filter, c: Coins, t: Tx<C>)
    ensures Unapply(rt, Apply(rt, filter, c, t), t) == c <==> Reversible(rt, c, t)
  {
    RoundTrip(rt, filter, c, t);
    OutRefsCover(rt, filter, t);
    var i, o := RefSet(Refs(t.inputs)), RefSet(OutRefs(rt, t));
    RollbackMaps(c.unspent, c.spent, TrackedOf(filter, Created(rt, t)), i, o);
    assert (forall r :: r in Refs(t.inputs) ==> r !in c.spent) <==> i !! c.spent.Keys;
    assert (forall r :: r in OutRefs(rt, t) ==> r !in c.unspent) <==> o !! c.unspent.Keys;
  }

  lemma RollbackMaps(u: map<OutputRef, Owned>, s: map<OutputRef, Owned>, n: map<OutputRef, Owned>, i: set<OutputRef>,
                     o: set<OutputRef>)
    requires n.Keys <= o
    ensures var x := u + n;
            ((x - i) + Restrict(s + Restrict(x, i), i) - o == u && (s + Restrict(x, i)) - i == s) <==>
            i !! s.Keys && o !! u.Keys
  {
    var x := u + n;
    var s' := (s + Restrict(x, i)) - i;
    var u' := (x - i) + Restrict(s + Restrict(x, i), i) - o;
    assert s' == s - i;
    assert forall r :: r in i ==> r !in s';
    assert forall r :: r in o ==> r !in u';
    if i !! s.Keys && o !! u.Keys {
      assert Restrict(s + Restrict(x, i), i) == Restrict(x, i);
      assert (x - i) + Restrict(x, i) == x;
      assert x - o == u;
      assert s - i == s;
    }
  }
}
