/**
 What the wallet's unspent table holds (`wallet/src/sync.rs`, `wallet/src/money.rs`), in terms of
 the stored outputs alone: whose coins, of what worth, and what they add up to.
 */
module Holdings {
  import opened Scale
  import opened Types
  import opened Typing
  import opened UtxoSet
  import opened Ledger
  import Refinement
  import opened Genesis
  import opened Sums
  import opened Wallet
  import opened WalletChain
  import opened WalletLedger
  import TxCodec
  import Canon
  import Money
  import Timestamps
  import Supply

  // ----- Outputs the wallet reads

  /** A coin under the signature of an owner who passes the filter. */
  predicate OwnCoin(filter: Filter, o: Output<OuterVerifier>) {
    Money.ExtractCoin(o.payload).Some? && o.verifier.Sr25519Signature? && filter(o.verifier)
  }

  /** What the wallet cannot do: read a coin that passes the filter, or any timestamp. */
  predicate Spoils(filter: Filter, o: Output<OuterVerifier>) {
    || (o.payload.typeId == COIN_ID && filter(o.verifier) && !OwnCoin(filter, o))
    || (o.payload.typeId == TIMESTAMP_ID && Timestamps.ExtractTimestamp(o.payload).None?)
  }

  function EntryFor(o: Output<OuterVerifier>): Owned
    requires Money.ExtractCoin(o.payload).Some? && o.verifier.Sr25519Signature?
  {
    Owned(o.verifier.ownerPubkey, Money.ExtractCoin(o.payload).value)
  }

  lemma EntryMeaning(filter: Filter, o: Output<OuterVerifier>)
    ensures EntryOf(filter, o).Unreadable? <==> Spoils(filter, o)
    ensures EntryOf(filter, o).Tracked? <==> OwnCoin(filter, o)
    ensures OwnCoin(filter, o) ==> EntryOf(filter, o).coin == EntryFor(o)
  {
    assert COIN_ID[0] != TIMESTAMP_ID[0];
  }

  /** The wallet reads an extrinsic as the transaction whose fields it begins with, and ignores what follows. */
  lemma {:induction false} DecodedIff<C(!new)>(rt: Runtime<OuterVerifier, C>, vc: Codec<OuterVerifier>, cc: Codec<C>,
                                               e: Vec<Byte>, t: Tx<C>)
    requires Lawful(vc) && Lawful(cc) && Canon.Canonical(vc) && Canon.Canonical(cc)
    requires rt.codecs == TxCodec.ScaleCodecs(vc, cc)
    ensures Decoded(rt, e) == Some(t) <==> exists rest: Bytes :: e == Canon.Layout(vc, cc, t) + rest
  {
    Canon.OpaqueDecodesIff(vc, cc, e, t);
  }

  /**
   Applying a transaction succeeds exactly when it decodes and no output spoils it. Otherwise the
   coins of the outputs before the first that does have been entered, and nothing has been spent.
   */
  lemma {:induction false} AppliesIff<C>(rt: Runtime<OuterVerifier, C>, filter: Filter, c: Coins, e: Vec<Byte>)
    ensures var ((c', ok), t) := (ApplyTransaction(rt, filter, c, e), Decoded(rt, e));
            && (ok <==> t.Some? && forall i :: 0 <= i < |t.value.outputs| ==> !Spoils(filter, t.value.outputs[i]))
            && (!ok ==> c'.spent == c.spent)
            && (t.None? ==> c' == c)
  {
    var t := Decoded(rt, e);
    if t.Some? {
      forall i | 0 <= i < |t.value.outputs|
        ensures EntryOf(filter, t.value.outputs[i]).Unreadable? <==> Spoils(filter, t.value.outputs[i])
      {
        EntryMeaning(filter, t.value.outputs[i]);
      }
      InsertsIff(filter, c.unspent, rt.hashOf(rt.codecs.bytes.enc(e)), t.value.outputs, |t.value.outputs|);
    }
  }

  lemma {:induction false} InsertsIff(filter: Filter, u: map<OutputRef, Owned>, hash: H256,
                                      outputs: Vec<Output<OuterVerifier>>, n: nat)
    requires n <= |outputs|
    ensures InsertOutputs(filter, u, hash, outputs, n).1 <==>
            forall i :: 0 <= i < n ==> !EntryOf(filter, outputs[i]).Unreadable?
  {
    if n > 0 {
      InsertsIff(filter, u, hash, outputs, n - 1);
    }
  }

  /** What has been entered when output `n` spoils the transaction. */
  lemma {:induction false} EnteredBefore(filter: Filter, u: map<OutputRef, Owned>, hash: H256,
                                         outputs: Vec<Output<OuterVerifier>>, n: nat, m: nat, r: OutputRef)
    requires n < m <= |outputs| && Spoils(filter, outputs[n])
    requires forall i :: 0 <= i < n ==> !Spoils(filter, outputs[i])
    ensures var (u', ok) := InsertOutputs(filter, u, hash, outputs, m);
            var own := r.txHash == hash && r.index < n && OwnCoin(filter, outputs[r.index]);
            && !ok && (r in u' <==> r in u || own)
            && (r in u' ==> u'[r] == if own then EntryFor(outputs[r.index]) else u[r])
    decreases m
  {
    forall i | 0 <= i <= n
      ensures EntryOf(filter, outputs[i]).Unreadable? <==> Spoils(filter, outputs[i])
    {
      EntryMeaning(filter, outputs[i]);
    }
    if m == n + 1 {
      InsertReadable(filter, u, hash, outputs, n, r);
      if r.index < n {
        EntryMeaning(filter, outputs[r.index]);
      }
    } else {
      EnteredBefore(filter, u, hash, outputs, n, m - 1, r);
    }
  }

  /** The wallet can apply the extrinsic. */
  predicate Applicable<C>(rt: Runtime<OuterVerifier, C>, filter: Filter, e: Vec<Byte>) {
    && Decoded(rt, e).Some?
    && forall i :: 0 <= i < |Decoded(rt, e).value.outputs| ==> !Spoils(filter, Decoded(rt, e).value.outputs[i])
  }

  lemma {:induction false} ExtrinsicsApplyIff<C>(rt: Runtime<OuterVerifier, C>, filter: Filter, c: Coins,
                                                 es: seq<Vec<Byte>>, can: Vec<Byte> -> bool)
    requires forall e :: can(e) <==> Applicable(rt, filter, e)
    ensures ApplyExtrinsics(rt, filter, c, es).1 <==> forall k :: 0 <= k < |es| ==> can(es[k])
  {
    if es != [] {
      var n := |es| - 1;
      ExtrinsicsApplyIff(rt, filter, c, es[..n], can);
      LastApplies(rt, filter, c, es);
      assert can(es[n]) <==> Applicable(rt, filter, es[n]);
      assert forall k :: 0 <= k < n ==> es[..n][k] == es[k];
    }
  }

  lemma {:induction false} LastApplies<C>(rt: Runtime<OuterVerifier, C>, filter: Filter, c: Coins, es: seq<Vec<Byte>>)
    requires es != []
    ensures var n := |es| - 1;
            ApplyExtrinsics(rt, filter, c, es).1 <==>
            ApplyExtrinsics(rt, filter, c, es[..n]).1 && Applicable(rt, filter, es[n])
  {
    AppliesIff(rt, filter, ApplyExtrinsics(rt, filter, c, es[..|es| - 1]).0, es[|es| - 1]);
  }

  /** A block is recorded in any case; applying it succeeds exactly when all its extrinsics can be applied. */
  lemma {:induction false} ApplyOutcome<C>(rt: Runtime<OuterVerifier, C>, filter: Filter, db: Tables, b: OpaqueBlock,
                                           hash: H256)
    ensures var (db', ok) := ApplyBlock(rt, filter, db, b, hash);
            && (ok <==> forall k :: 0 <= k < |b.extrinsics| ==> Applicable(rt, filter, b.extrinsics[k]))
            && db'.blockHashes == db.blockHashes[b.header.number := hash] && db'.blocks == db.blocks[hash := b]
  {
    ExtrinsicsApplyIff(rt, filter, db.coins, b.extrinsics, (e: Vec<Byte>) => Applicable(rt, filter, e));
  }

  // ----- The unspent table

  /** The stored output at the reference is a coin of one of the wallet's owners. */
  predicate OwnedAt(filter: Filter, u: Utxos<OuterVerifier>, r: OutputRef) {
    r in u && OwnCoin(filter, u[r])
  }

  /**
   After every imported chain a reference is in the unspent table exactly when a coin is stored
   there under the signature of an owner who passes the filter; and the table's entry is that owner
   with that coin's value.
   */
  lemma {:induction false} UnspentIsStored<C(!new)>(rt: Runtime<OuterVerifier, C>, filter: Filter, base: Storage,
                                                    chain: Chain<C>, encoded: Bytes, r: OutputRef)
    requires Refinement.Sound(rt) && Unreserved(base) && chain != [] && AllFit(rt, chain) && AllLegible(filter, chain)
    requires NoClash(rt, chain[0].block.extrinsics) && StorageOf(rt, base, chain, encoded).Some?
    ensures var unspent := Replay(rt, filter, chain).coins.unspent;
            var u := UtxosOf(rt.codecs, StorageOf(rt, base, chain, encoded).value);
            && (r in unspent <==> OwnedAt(filter, u, r))
            && (r in unspent ==> unspent[r] == EntryFor(u[r]))
  {
    IndexAgreesWithStorage(rt, filter, base, chain, encoded);
    var u := UtxosOf(rt.codecs, StorageOf(rt, base, chain, encoded).value);
    if r in u {
      EntryMeaning(filter, u[r]);
    }
  }

  // ----- Balances

  /** What an entry adds to the balance of an owner. */
  function AmountFor(owner: H256): Owned -> int {
    (e: Owned) => if e.owner == owner then e.amount else 0
  }

  /** What a stored output is worth to an owner. */
  function WorthTo(owner: H256): Output<OuterVerifier> -> int {
    (o: Output<OuterVerifier>) => if o.verifier == Sr25519Signature(owner) then Money.Worth(o.payload) else 0
  }

  /** What a stored output is worth to the wallet. */
  function WorthToAll(filter: Filter): Output<OuterVerifier> -> int {
    (o: Output<OuterVerifier>) =>
      if o.verifier.Sr25519Signature? && filter(o.verifier) then Money.Worth(o.payload) else 0
  }

  /** Each entry adds what the output at its reference adds, and what has no entry adds nothing. */
  ghost predicate Corresponds(m: map<OutputRef, Owned>, f: Owned -> int, u: Utxos<OuterVerifier>,
                              g: Output<OuterVerifier> -> int) {
    && m.Keys <= u.Keys
    && (forall r :: r in m ==> f(m[r]) == g(u[r]))
    && (forall r :: r in u && r !in m ==> g(u[r]) == 0)
  }

  lemma CorrespondsBelow(m: map<OutputRef, Owned>, f: Owned -> int, u: Utxos<OuterVerifier>,
                         g: Output<OuterVerifier> -> int, r: OutputRef)
    requires Corresponds(m, f, u, g)
    ensures Corresponds(m - {r}, f, u - {r}, g)
  {
  }

  lemma {:induction false} SameChange(m: map<OutputRef, Owned>, f: Owned -> int, u: Utxos<OuterVerifier>,
                                      g: Output<OuterVerifier> -> int, r: OutputRef)
    requires Corresponds(m, f, u, g) && r in u
    ensures Total(m, f) - Total(m - {r}, f) == Total(u, g) - Total(u - {r}, g)
  {
    TotalRemove(u, g, r);
    if r in m {
      TotalRemove(m, f, r);
    } else {
      assert m - {r} == m;
    }
  }

  lemma {:induction false} SameTotal(m: map<OutputRef, Owned>, f: Owned -> int, u: Utxos<OuterVerifier>,
                                     g: Output<OuterVerifier> -> int)
    requires Corresponds(m, f, u, g)
    ensures Total(m, f) == Total(u, g)
    decreases |u|
  {
    if u == map[] {
      assert m == map[];
    } else {
      var r :| r in u;
      SameChange(m, f, u, g, r);
      CorrespondsBelow(m, f, u, g, r);
      SameTotal(m - {r}, f, u - {r}, g);
    }
  }

  /**
   After every imported chain, the wallet's balance of an owner who passes the filter is exactly
   what the coins stored under that owner's signature are worth, and all its balances together are
   what the stored coins of all such owners are worth.
   */
  lemma {:induction false} BalancesAreWorth<C(!new)>(rt: Runtime<OuterVerifier, C>, filter: Filter, base: Storage,
                                                     chain: Chain<C>, encoded: Bytes, owner: H256)
    requires Refinement.Sound(rt) && Unreserved(base) && chain != [] && AllFit(rt, chain) && AllLegible(filter, chain)
    requires NoClash(rt, chain[0].block.extrinsics) && StorageOf(rt, base, chain, encoded).Some?
    ensures var unspent := Replay(rt, filter, chain).coins.unspent;
            var u := UtxosOf(rt.codecs, StorageOf(rt, base, chain, encoded).value);
            && Total(unspent, AmountFor(owner)) ==
               (if filter(Sr25519Signature(owner)) then Total(u, WorthTo(owner)) else 0)
            && Total(unspent, (e: Owned) => e.amount) == Total(u, WorthToAll(filter))
  {
    var unspent := Replay(rt, filter, chain).coins.unspent;
    var u := UtxosOf(rt.codecs, StorageOf(rt, base, chain, encoded).value);
    forall r
      ensures r in unspent <==> OwnedAt(filter, u, r)
      ensures r in unspent ==> unspent[r] == EntryFor(u[r])
    {
      UnspentIsStored(rt, filter, base, chain, encoded, r);
    }
    Balances(filter, unspent, u, owner);
  }

  lemma {:induction false} Balances(filter: Filter, unspent: map<OutputRef, Owned>, u: Utxos<OuterVerifier>,
                                    owner: H256)
    requires forall r :: r in unspent <==> OwnedAt(filter, u, r)
    requires forall r :: r in unspent ==> OwnedAt(filter, u, r) && unspent[r] == EntryFor(u[r])
    ensures Total(unspent, AmountFor(owner)) ==
            if filter(Sr25519Signature(owner)) then Total(u, WorthTo(owner)) else 0
    ensures Total(unspent, (e: Owned) => e.amount) == Total(u, WorthToAll(filter))
  {
    SameTotal(unspent, (e: Owned) => e.amount, u, WorthToAll(filter));
    if filter(Sr25519Signature(owner)) {
      SameTotal(unspent, AmountFor(owner), u, WorthTo(owner));
    } else {
      TotalBounds(unspent, AmountFor(owner));
    }
  }

  lemma {:induction false} AmountsGrow(unspent: map<OutputRef, Owned>, rest: map<OutputRef, Owned>, owner: H256)
    requires rest.Keys <= unspent.Keys && forall r :: r in rest ==> rest[r] == unspent[r]
    ensures 0 <= Total(rest, AmountFor(owner)) <= Total(unspent, AmountFor(owner))
  {
    assert Restrict(unspent, rest.Keys) == rest;
    TotalSplit(unspent, rest.Keys, AmountFor(owner));
    TotalBounds(rest, AmountFor(owner));
    TotalBounds(unspent - rest.Keys, AmountFor(owner));
  }

  /** What has been visited of the table, and what is left. */
  ghost predicate Visited(unspent: map<OutputRef, Owned>, rest: map<OutputRef, Owned>, done: map<OutputRef, Owned>,
                          balances: map<H256, U128>) {
    && done.Keys !! rest.Keys && done + rest == unspent
    && forall owner :: Balanced(done, balances, owner)
  }

  /** The owner has a balance exactly if there is an entry, and it is the sum of the amounts. */
  ghost predicate Balanced(done: map<OutputRef, Owned>, balances: map<H256, U128>, owner: H256) {
    && (owner in balances <==> exists r :: r in done && done[r].owner == owner)
    && BalanceIn(balances, owner) == Total(done, AmountFor(owner))
  }

  function BalanceIn(balances: map<H256, U128>, owner: H256): U128 {
    if owner in balances then balances[owner] else 0
  }

  lemma {:induction false} BalanceOne(done: map<OutputRef, Owned>, balances: map<H256, U128>, r: OutputRef, e: Owned,
                                      done': map<OutputRef, Owned>, balances': map<H256, U128>, owner: H256)
    requires Balanced(done, balances, owner) && r !in done && BalanceIn(balances, e.owner) + e.amount <= MAX_U128
    requires done' == done[r := e] && balances' == balances[e.owner := BalanceIn(balances, e.owner) + e.amount]
    ensures Balanced(done', balances', owner)
  {
    TotalInsert(done, AmountFor(owner), r, e);
    if owner == e.owner {
      assert done'[r].owner == owner;
    }
    forall q | q in done && done[q].owner == owner ensures q in done' && done'[q].owner == owner {
      assert q != r;
    }
  }

  lemma {:induction false} VisitOne(unspent: map<OutputRef, Owned>, rest: map<OutputRef, Owned>,
                                    done: map<OutputRef, Owned>, balances: map<H256, U128>, r: OutputRef)
    requires Visited(unspent, rest, done, balances) && r in rest
    requires BalanceIn(balances, rest[r].owner) + rest[r].amount <= MAX_U128
    ensures var e := rest[r];
            Visited(unspent, rest - {r}, done[r := e], balances[e.owner := BalanceIn(balances, e.owner) + e.amount])
  {
    var e := rest[r];
    var done', balances' := done[r := e], balances[e.owner := BalanceIn(balances, e.owner) + e.amount];
    assert done' + (rest - {r}) == unspent;
    forall owner ensures Balanced(done', balances', owner) {
      assert Balanced(done, balances, owner);
      BalanceOne(done, balances, r, e, done', balances', owner);
    }
  }

  /** No owner's amounts exceed 128 bits together. */
  ghost predicate InRange(unspent: map<OutputRef, Owned>) {
    forall owner :: Total(unspent, AmountFor(owner)) <= MAX_U128
  }

  lemma {:induction false} TooMuch(unspent: map<OutputRef, Owned>, rest: map<OutputRef, Owned>,
                                   done: map<OutputRef, Owned>, balances: map<H256, U128>, r: OutputRef)
    requires Visited(unspent, rest, done, balances) && r in rest
    requires BalanceIn(balances, rest[r].owner) + rest[r].amount > MAX_U128
    ensures !InRange(unspent)
  {
    var e := rest[r];
    assert Balanced(done, balances, e.owner);
    TotalInsert(done, AmountFor(e.owner), r, e);
    AmountsGrow(unspent, done[r := e], e.owner);
  }

  lemma {:induction false} AllVisited(unspent: map<OutputRef, Owned>, done: map<OutputRef, Owned>,
                                      balances: map<H256, U128>)
    requires Visited(unspent, map[], done, balances)
    ensures InRange(unspent) && forall owner :: Balanced(unspent, balances, owner)
  {
    assert done + map[] == done;
    forall owner ensures Total(unspent, AmountFor(owner)) <= MAX_U128 {
      assert Balanced(done, balances, owner);
      assert BalanceIn(balances, owner) == Total(unspent, AmountFor(owner));
    }
  }

  lemma {:induction false} NoneVisited(unspent: map<OutputRef, Owned>)
    ensures Visited(unspent, unspent, map[], map[])
  {
    var none: map<OutputRef, Owned> := map[];
    assert none + unspent == unspent;
  }

  /**
   The balances by owner, in whatever order the table is visited. False where an addition exceeds
   128 bits, which does not depend on the order either.
   */
  method GetBalances(unspent: map<OutputRef, Owned>) returns (ok: bool, balances: map<H256, U128>)
    ensures ok <==> InRange(unspent)
    ensures ok ==> forall owner :: Balanced(unspent, balances, owner)
  {
    balances := map[];
    var rest := unspent;
    ghost var done: map<OutputRef, Owned> := map[];
    NoneVisited(unspent);
    while rest != map[]
      invariant Visited(unspent, rest, done, balances)
      decreases rest.Keys
    {
      var r :| r in rest;
      var e := rest[r];
      var sum: nat := BalanceIn(balances, e.owner) + e.amount;
      if sum > MAX_U128 {
        TooMuch(unspent, rest, done, balances, r);
        return false, balances;
      }
      VisitOne(unspent, rest, done, balances, r);
      balances := balances[e.owner := sum];
      done := done[r := e];
      rest := rest - {r};
    }
    AllVisited(unspent, done, balances);
    ok := true;
  }

  /** The wallet's balances together never exceed the supply. */
  lemma {:induction false} BalancesWithinSupply(filter: Filter, u: Utxos<OuterVerifier>)
    ensures 0 <= Total(u, WorthToAll(filter)) <= Supply.SupplyOf(u)
  {
    forall r | r in u ensures 0 <= WorthToAll(filter)(u[r]) <= Supply.Worth()(u[r]) {
      var worth: nat := Money.Worth(u[r].payload);
    }
    TotalBounds(u, WorthToAll(filter));
    TotalAtMost(u, WorthToAll(filter), Supply.Worth());
  }

  lemma {:induction false} TotalAtMost<K, T>(m: map<K, T>, f: T -> int, g: T -> int)
    requires forall k :: k in m ==> f(m[k]) <= g(m[k])
    ensures Total(m, f) <= Total(m, g)
    decreases |m|
  {
    if m != map[] {
      var k :| k in m;
      TotalRemove(m, f, k);
      TotalRemove(m, g, k);
      TotalAtMost(m - {k}, f, g);
    }
  }
}
