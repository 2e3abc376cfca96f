/**
 The wallet and the executive: on every chain that the executive imports, the wallet's unspent
 table is exactly the tracked part of the UTXO set in the runtime's storage.
 */
module WalletLedger {
  import opened Scale
  import opened Types
  import opened UtxoSet
  import opened Ledger
  import opened Refinement
  import opened Blocks
  import opened Genesis
  import opened Sums
  import opened Wallet
  import opened WalletChain
  import opened Wardrobe
  import Money
  import Timestamps

  // ----- Lists of transactions and the books

  /** Every input is present where it is spent. */
  ghost predicate Funded<C>(rt: Runtime<OuterVerifier, C>, book: Book, ts: seq<Tx<C>>) {
    ts == [] ||
    (Funded(rt, book, ts[..|ts| - 1]) && Affords(EnteredAll(rt, book, ts[..|ts| - 1]), ts[|ts| - 1]))
  }

  /** No two of the transactions create the same reference. */
  ghost predicate CreatedOnce<C>(rt: Runtime<OuterVerifier, C>, ts: seq<Tx<C>>) {
    forall i, j :: 0 <= i < j < |ts| ==> RefSet(OutRefs(rt, ts[i])) !! RefSet(OutRefs(rt, ts[j]))
  }

  ghost predicate NoneIn<C>(rt: Runtime<OuterVerifier, C>, ever: set<OutputRef>, ts: seq<Tx<C>>) {
    forall i :: 0 <= i < |ts| ==> RefSet(OutRefs(rt, ts[i])) !! ever
  }

  lemma {:induction false} EverCreated<C>(rt: Runtime<OuterVerifier, C>, book: Book, ts: seq<Tx<C>>, r: OutputRef)
    requires r in EnteredAll(rt, book, ts).ever && r !in book.ever
    ensures exists i :: 0 <= i < |ts| && r in RefSet(OutRefs(rt, ts[i]))
  {
    var p, t := ts[..|ts| - 1], ts[|ts| - 1];
    if r in RefSet(OutRefs(rt, t)) {
    } else {
      EverCreated(rt, book, p, r);
      var i :| 0 <= i < |p| && r in RefSet(OutRefs(rt, p[i]));
      assert p[i] == ts[i];
    }
  }

  lemma {:induction false} NotInEver<C>(rt: Runtime<OuterVerifier, C>, book: Book, ts: seq<Tx<C>>, refs: set<OutputRef>)
    requires refs !! book.ever && forall i :: 0 <= i < |ts| ==> RefSet(OutRefs(rt, ts[i])) !! refs
    ensures refs !! EnteredAll(rt, book, ts).ever
  {
    forall r | r in refs ensures r !in EnteredAll(rt, book, ts).ever {
      if r in EnteredAll(rt, book, ts).ever {
        EverCreated(rt, book, ts, r);
        assert false;
      }
    }
  }

  lemma {:induction false} FundedIsFair<C>(rt: Runtime<OuterVerifier, C>, book: Book, ts: seq<Tx<C>>)
    requires Funded(rt, book, ts) && CreatedOnce(rt, ts) && NoneIn(rt, book.ever, ts)
    ensures FairAll(rt, book, ts)
  {
    if ts == [] {
    } else {
      var n := |ts| - 1;
      var p, t := ts[..n], ts[n];
      assert forall i :: 0 <= i < n ==> p[i] == ts[i];
      FundedIsFair(rt, book, p);
      NotInEver(rt, book, p, RefSet(OutRefs(rt, t)));
      forall i | 0 <= i < |t.outputs| ensures OutRef(rt, t, i) !in EnteredAll(rt, book, p).ever {
        assert OutRefs(rt, t)[i] in RefSet(OutRefs(rt, t));
      }
    }
  }

  /** A run of accepted transactions is funded, and moves the books as it moves the state. */
  lemma {:induction false} RunIsFunded<C>(rt: Runtime<OuterVerifier, C>, st: State<OuterVerifier>, ever: set<OutputRef>,
                                          ts: seq<Tx<C>>)
    requires Run(rt, st, Txs(ts))
    ensures Funded(rt, Book(st.utxos, ever), ts)
    ensures Final(rt, st, Txs(ts)).utxos == EnteredAll(rt, Book(st.utxos, ever), ts).utxos
  {
    if ts == [] {
    } else {
      var p, t := ts[..|ts| - 1], ts[|ts| - 1];
      TxsSnoc(rt, st, ts);
      RunIsFunded(rt, st, ever, p);
      AcceptedIff(rt, Final(rt, st, Txs(p)), t);
    }
  }

  lemma {:induction false} GenesisIsFunded<C>(rt: Runtime<OuterVerifier, C>, ts: seq<Tx<C>>)
    requires Rootless(ts)
    ensures Funded(rt, Book(map[], {}), ts)
    ensures EnteredAll(rt, Book(map[], {}), ts).utxos == GenesisUtxos(rt, ts)
  {
    if ts == [] {
    } else {
      var p, t := ts[..|ts| - 1], ts[|ts| - 1];
      GenesisIsFunded(rt, p);
      assert InputRefs(t.inputs) == {};
      assert GenesisUtxos(rt, p) - {} == GenesisUtxos(rt, p);
    }
  }

  /** Accepted transactions are harmless, and move the books as they move the state. */
  lemma {:induction false} RunIsHarmless<C>(rt: Runtime<OuterVerifier, C>, st: State<OuterVerifier>,
                                            ever: set<OutputRef>, ts: seq<Tx<C>>)
    requires Run(rt, st, Txs(ts))
    ensures HarmlessAll(rt, Book(st.utxos, ever), ts)
  {
    if ts == [] {
    } else {
      var p, t := ts[..|ts| - 1], ts[|ts| - 1];
      var st' := Final(rt, st, Txs(p));
      TxsSnoc(rt, st, ts);
      RunIsHarmless(rt, st, ever, p);
      RunIsFunded(rt, st, ever, p);
      forall r | r in Created(rt, t) ensures r !in st'.utxos && r !in InputRefs(t.inputs) {
        AfterContents(rt, st', t, r);
      }
    }
  }

  lemma {:induction false} GenesisIsHarmless<C>(rt: Runtime<OuterVerifier, C>, ts: seq<Tx<C>>)
    requires Rootless(ts) && NoClash(rt, ts)
    ensures HarmlessAll(rt, Book(map[], {}), ts)
  {
    if ts == [] {
    } else {
      var n := |ts| - 1;
      var p, t := ts[..n], ts[n];
      assert NoClash(rt, p) by { assert forall i :: 0 <= i < n ==> p[i] == ts[i]; }
      GenesisIsHarmless(rt, p);
      GenesisIsFunded(rt, p);
      assert InputRefs(t.inputs) == {};
      forall r | r in Created(rt, t) && r in GenesisUtxos(rt, p) ensures GenesisUtxos(rt, p)[r] == Created(rt, t)[r] {
        GenesisContents(rt, p, r);
        CreatedContents(rt, t, r);
        var i :| 0 <= i < |p| && TxHash(rt, p[i]) == r.txHash && r.index < |p[i].outputs|;
        assert TxHash(rt, ts[i]) == TxHash(rt, ts[n]);
      }
    }
  }

  // ----- Chains

  function AllTxs<C>(chain: Chain<C>): seq<Tx<C>> {
    if chain == [] then [] else AllTxs(chain[..|chain| - 1]) + chain[|chain| - 1].block.extrinsics
  }

  lemma {:induction false} EnteredAppend<C>(rt: Runtime<OuterVerifier, C>, book: Book, a: seq<Tx<C>>, b: seq<Tx<C>>)
    ensures EnteredAll(rt, book, a + b) == EnteredAll(rt, EnteredAll(rt, book, a), b)
  {
    if b == [] {
      assert a + b == a;
    } else {
      EnteredAppend(rt, book, a, b[..|b| - 1]);
      assert (a + b)[..|a + b| - 1] == a + b[..|b| - 1] && (a + b)[|a + b| - 1] == b[|b| - 1];
    }
  }

  lemma {:induction false} BookIsFlat<C>(rt: Runtime<OuterVerifier, C>, chain: Chain<C>)
    ensures BookOf(rt, chain) == EnteredAll(rt, Book(map[], {}), AllTxs(chain))
  {
    if chain == [] {
    } else {
      BookIsFlat(rt, chain[..|chain| - 1]);
      EnteredAppend(rt, Book(map[], {}), AllTxs(chain[..|chain| - 1]), chain[|chain| - 1].block.extrinsics);
    }
  }

  /** The top block creates nothing that was created below it. */
  lemma {:induction false} TopCreatesNew<C>(rt: Runtime<OuterVerifier, C>, chain: Chain<C>)
    requires chain != [] && CreatedOnce(rt, AllTxs(chain))
    ensures var (p, ts) := (chain[..|chain| - 1], chain[|chain| - 1].block.extrinsics);
            CreatedOnce(rt, AllTxs(p)) && CreatedOnce(rt, ts) && NoneIn(rt, BookOf(rt, p).ever, ts)
  {
    var p, ts := chain[..|chain| - 1], chain[|chain| - 1].block.extrinsics;
    var all, below := AllTxs(chain), AllTxs(p);
    assert forall i :: 0 <= i < |below| ==> all[i] == below[i];
    assert forall i :: 0 <= i < |ts| ==> all[|below| + i] == ts[i];
    BookIsFlat(rt, p);
    forall i | 0 <= i < |ts| ensures RefSet(OutRefs(rt, ts[i])) !! BookOf(rt, p).ever {
      assert forall k :: 0 <= k < |below| ==> RefSet(OutRefs(rt, all[k])) !! RefSet(OutRefs(rt, all[|below| + i]));
      NotInEver(rt, Book(map[], {}), below, RefSet(OutRefs(rt, ts[i])));
    }
  }

  /** The blocks that follow genesis. */
  function BlocksAfterGenesis<C>(chain: Chain<C>): (bs: seq<TxBlock<C>>)
    requires chain != []
    ensures |bs| == |chain| - 1
    ensures forall i :: 0 <= i < |bs| ==> bs[i] == chain[i + 1].block
  {
    seq(|chain| - 1, i requires 0 <= i < |chain| - 1 => chain[i + 1].block)
  }

  /** The storage after importing the whole chain on top of its genesis storage. */
  ghost function StorageOf<C(!new)>(rt: Runtime<OuterVerifier, C>,
                                    base: Storage, chain: Chain<C>, encoded: Bytes): Option<Storage>
    requires chain != []
  {
    if !Rootless(chain[0].block.extrinsics) then None
    else Import(rt, GenesisStorage(rt, base, chain[0].block.extrinsics, encoded), BlocksAfterGenesis(chain))
  }

  lemma StorageSnoc<C(!new)>(rt: Runtime<OuterVerifier, C>, base: Storage, chain: Chain<C>, encoded: Bytes)
    requires |chain| > 1 && StorageOf(rt, base, chain, encoded).Some?
    ensures var s := StorageOf(rt, base, chain[..|chain| - 1], encoded);
            s.Some? && Execute(rt, s.value, chain[|chain| - 1].block) == StorageOf(rt, base, chain, encoded)
  {
    var bs, b := BlocksAfterGenesis(chain[..|chain| - 1]), chain[|chain| - 1].block;
    assert BlocksAfterGenesis(chain) == bs + [b];
    ImportSnoc(rt, GenesisStorage(rt, base, chain[0].block.extrinsics, encoded), bs, b);
  }

  lemma {:induction false} ExecuteFair<C(!new)>(rt: Runtime<OuterVerifier, C>, s: Storage, b: TxBlock<C>,
                                                ever: set<OutputRef>)
    requires Sound(rt) && Execute(rt, s, b).Some?
    ensures var book := Book(UtxosOf(rt.codecs, s), ever);
            && Funded(rt, book, b.extrinsics) && HarmlessAll(rt, book, b.extrinsics)
            && UtxosOf(rt.codecs, Execute(rt, s, b).value) == EnteredAll(rt, book, b.extrinsics).utxos
  {
    ExecutedIsRun(rt, s, b);
    RunIsFunded(rt, Abs(rt.codecs, s).(height := Some(b.header.number)), ever, b.extrinsics);
    RunIsHarmless(rt, Abs(rt.codecs, s).(height := Some(b.header.number)), ever, b.extrinsics);
  }

  /** On every imported chain the books show the stored UTXO set and every transaction is harmless. */
  lemma {:induction false} ImportedIsHarmless<C(!new)>(rt: Runtime<OuterVerifier, C>, base: Storage, chain: Chain<C>,
                                                       encoded: Bytes)
    requires Sound(rt) && Unreserved(base) && chain != [] && StorageOf(rt, base, chain, encoded).Some?
    ensures BookOf(rt, chain).utxos == UtxosOf(rt.codecs, StorageOf(rt, base, chain, encoded).value)
    ensures NoClash(rt, chain[0].block.extrinsics) ==> HarmlessChain(rt, chain)
  {
    var n := |chain| - 1;
    var p, b := chain[..n], chain[n].block;
    if n == 0 {
      GenesisIsFunded(rt, b.extrinsics);
      GenesisIsReady(rt, base, b.extrinsics, encoded);
      if NoClash(rt, b.extrinsics) {
        GenesisIsHarmless(rt, b.extrinsics);
      }
    } else {
      StorageSnoc(rt, base, chain, encoded);
      ImportedIsHarmless(rt, base, p, encoded);
      ExecuteFair(rt, StorageOf(rt, base, p, encoded).value, b, BookOf(rt, p).ever);
    }
  }

  /** If moreover no reference is created twice, the chain is fair, so the wallet can roll it back. */
  lemma {:induction false} ImportedIsFair<C(!new)>(rt: Runtime<OuterVerifier, C>, base: Storage, chain: Chain<C>,
                                                   encoded: Bytes)
    requires Sound(rt) && Unreserved(base) && chain != [] && CreatedOnce(rt, AllTxs(chain))
    requires StorageOf(rt, base, chain, encoded).Some?
    ensures FairChain(rt, chain)
  {
    var n := |chain| - 1;
    var p, ts := chain[..n], chain[n].block.extrinsics;
    TopCreatesNew(rt, chain);
    if n == 0 {
      GenesisIsFunded(rt, ts);
      FundedIsFair(rt, Book(map[], {}), ts);
    } else {
      StorageSnoc(rt, base, chain, encoded);
      ImportedIsFair(rt, base, p, encoded);
      ImportedIsHarmless(rt, base, p, encoded);
      ExecuteFair(rt, StorageOf(rt, base, p, encoded).value, chain[n].block, BookOf(rt, p).ever);
      FundedIsFair(rt, BookOf(rt, p), ts);
    }
  }

  /**
   The main result: the wallet, built from opaque blocks alone, knows exactly the tracked utxos of
   the chain, also where a spent reference is created again.
   */
  lemma {:induction false} IndexAgreesWithStorage<C(!new)>(rt: Runtime<OuterVerifier, C>, filter: Filter, base: Storage,
                                                           chain: Chain<C>, encoded: Bytes)
    requires Sound(rt) && Unreserved(base) && chain != [] && AllFit(rt, chain) && AllLegible(filter, chain)
    requires NoClash(rt, chain[0].block.extrinsics) && StorageOf(rt, base, chain, encoded).Some?
    ensures Replay(rt, filter, chain).coins.unspent ==
            TrackedOf(filter, UtxosOf(rt.codecs, StorageOf(rt, base, chain, encoded).value))
  {
    ImportedIsHarmless(rt, base, chain, encoded);
    IndexAgreesWithChain(rt, filter, chain);
  }

  // ----- The wardrobe's runtime and the keystore filter

  /** The wallet's own filter passes only signature owners. */
  ghost predicate Keystore(filter: Filter) {
    forall v: OuterVerifier :: filter(v) ==> v.Sr25519Signature?
  }

  lemma OwnOutputsExtract(host: Host, call: Call, height: Option<U32>, ambient: Storage, a: CheckArgs, k: nat)
    requires Passes(host, call, height, ambient, a) && k < |a.outputs|
    ensures call.MoneyCall? ==> Money.ExtractCoin(a.outputs[k]).Some?
    ensures call.TimestampCall? ==> Timestamps.ExtractTimestamp(a.outputs[k]).Some?
  {
    if call.MoneyCall? {
      Money.SpendMeaning(a);
      Money.MintPasses(a);
    }
  }

  /** The wallet can read whatever the runtime accepts. */
  lemma AcceptedIsReadable(rt: Runtime<OuterVerifier, Checker>, host: Host, filter: Filter, st: State<OuterVerifier>,
                           t: Tx<Checker>)
    requires Dresses(rt, host) && Accepted(rt, st, t) && Keystore(filter)
    ensures Readable(filter, t)
  {
    AcceptedKeepsToOwnType(rt, host, st, t);
    LeafPasses(rt, host, st, t);
    TypeTellsPiece(Leaf(t.checker));
    var a := Args(st.utxos, t);
    forall k | 0 <= k < |t.outputs| ensures !Wallet.EntryOf(filter, t.outputs[k]).Unreadable? {
      assert a.outputs[k] == t.outputs[k].payload;
      OwnOutputsExtract(host, Leaf(t.checker), st.height, st.ambient, a, k);
    }
  }

  lemma ExecutedIsLegible(rt: Runtime<OuterVerifier, Checker>, host: Host, filter: Filter, s: Storage,
                          b: TxBlock<Checker>)
    requires LawfulCodecs(rt.codecs) && Dresses(rt, host) && Keystore(filter) && Execute(rt, s, b).Some?
    ensures Legible(filter, b)
  {
    WardrobeConfined(rt, host);
    ExecutedIsRun(rt, s, b);
    var st := Abs(rt.codecs, s).(height := Some(b.header.number));
    forall k | 0 <= k < |b.extrinsics| ensures Readable(filter, b.extrinsics[k]) {
      RunAround(rt, st, b.extrinsics, k);
      AcceptedIsReadable(rt, host, filter, Final(rt, st, Txs(b.extrinsics[..k])), b.extrinsics[k]);
    }
  }

  lemma BlockSomewhere<C(!new)>(rt: Runtime<OuterVerifier, C>, base: Storage, chain: Chain<C>, encoded: Bytes, i: nat)
    returns (s: Storage)
    requires chain != [] && StorageOf(rt, base, chain, encoded).Some? && 0 < i < |chain|
    ensures Execute(rt, s, chain[i].block).Some?
  {
    var s0, bs := GenesisStorage(rt, base, chain[0].block.extrinsics, encoded), BlocksAfterGenesis(chain);
    ImportReaches(rt, s0, bs, i - 1);
    s := Import(rt, s0, bs[..i - 1]).value;
  }

  lemma ImportedIsLegible(rt: Runtime<OuterVerifier, Checker>, host: Host, filter: Filter, base: Storage,
                          chain: Chain<Checker>, encoded: Bytes, i: nat)
    requires LawfulCodecs(rt.codecs) && Dresses(rt, host) && Keystore(filter)
    requires chain != [] && StorageOf(rt, base, chain, encoded).Some? && 0 < i < |chain|
    ensures Legible(filter, chain[i].block)
  {
    var s := BlockSomewhere(rt, base, chain, encoded, i);
    ExecutedIsLegible(rt, host, filter, s, chain[i].block);
  }

  lemma {:induction false} ImportedIsAllLegible(rt: Runtime<OuterVerifier, Checker>, host: Host, filter: Filter,
                                                base: Storage, chain: Chain<Checker>, encoded: Bytes)
    requires LawfulCodecs(rt.codecs) && Dresses(rt, host) && Keystore(filter)
    requires chain != [] && StorageOf(rt, base, chain, encoded).Some? && Legible(filter, chain[0].block)
    ensures AllLegible(filter, chain)
  {
    forall i | 0 < i < |chain| ensures Legible(filter, chain[i].block) {
      ImportedIsLegible(rt, host, filter, base, chain, encoded, i);
    }
  }

  /**
   For the wardrobe's runtime and the keystore filter no block has to be assumed legible except
   genesis, which nothing validates.
   */
  lemma {:induction false} WalletMirrorsRuntime(rt: Runtime<OuterVerifier, Checker>, host: Host, filter: Filter,
                                                base: Storage, chain: Chain<Checker>, encoded: Bytes)
    requires LawfulCodecs(rt.codecs) && Dresses(rt, host) && Keystore(filter) && Unreserved(base)
    requires chain != [] && AllFit(rt, chain) && Legible(filter, chain[0].block)
    requires NoClash(rt, chain[0].block.extrinsics) && StorageOf(rt, base, chain, encoded).Some?
    ensures Replay(rt, filter, chain).coins.unspent ==
            TrackedOf(filter, UtxosOf(rt.codecs, StorageOf(rt, base, chain, encoded).value))
  {
    WardrobeConfined(rt, host);
    ImportedIsAllLegible(rt, host, filter, base, chain, encoded);
    IndexAgreesWithStorage(rt, filter, base, chain, encoded);
  }
}
