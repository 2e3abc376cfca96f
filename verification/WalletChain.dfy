/**
 The wallet and a chain: over every harmless chain the index agrees with the chain's UTXO set,
 and a block is rolled back exactly when it is undoable.
 */
module WalletChain {
  import opened Scale
  import opened Types
  import opened UtxoSet
  import opened Ledger
  import opened Sums
  import opened Wallet
  import opened Rollback

  type TxBlock<C> = Block<OuterVerifier, C>

  /** A block with its hash. */
  datatype Sealed<C> = Sealed(hash: H256, block: TxBlock<C>)

  type Chain<C> = seq<Sealed<C>>

  // ----- Blocks as the node serves them

  function Opaque<C>(rt: Runtime<OuterVerifier, C>, b: TxBlock<C>): OpaqueBlock
    requires Fits(rt, b)
  {
    OpaqueBlock(b.header, seq(|b.extrinsics|, i requires 0 <= i < |b.extrinsics| => rt.codecs.body(b.extrinsics[i])))
  }

  /** Every extrinsic of the block can travel as an opaque byte vector. */
  predicate Fits<C>(rt: Runtime<OuterVerifier, C>, b: TxBlock<C>) {
    forall i :: 0 <= i < |b.extrinsics| ==> |rt.codecs.body(b.extrinsics[i])| < 0x1_0000_0000
  }

  /** The wallet can read every output of the block. */
  predicate Legible<C>(filter: Filter, b: TxBlock<C>) {
    forall k :: 0 <= k < |b.extrinsics| ==> Readable(filter, b.extrinsics[k])
  }

  function ApplyExtrinsics<C>(rt: Runtime<OuterVerifier, C>,
                              filter: Filter, c: Coins, es: seq<Vec<Byte>>): (Coins, bool) {
    if es == [] then (c, true)
    else
      var (c', ok) := ApplyExtrinsics(rt, filter, c, es[..|es| - 1]);
      if !ok then (c', false) else ApplyTransaction(rt, filter, c', es[|es| - 1])
  }

  function UnapplyExtrinsics<C>(rt: Runtime<OuterVerifier, C>, c: Coins, es: seq<Vec<Byte>>): (Coins, bool)
    decreases |es|
  {
    if es == [] then (c, true)
    else
      var (c', ok) := UnapplyTransaction(rt, c, es[|es| - 1]);
      if !ok then (c', false) else UnapplyExtrinsics(rt, c', es[..|es| - 1])
  }

  lemma {:induction false} ApplyOpaqueAll<C(!new)>(rt: Runtime<OuterVerifier, C>, filter: Filter, c: Coins,
                                                   ts: seq<Tx<C>>, es: seq<Vec<Byte>>)
    requires LawfulCodecs(rt.codecs) && |es| == |ts|
    requires forall i :: 0 <= i < |ts| ==> Readable(filter, ts[i]) && es[i] == rt.codecs.body(ts[i])
    ensures ApplyExtrinsics(rt, filter, c, es) == (ApplyAll(rt, filter, c, ts), true)
  {
    if ts == [] {
    } else {
      ApplyOpaqueAll(rt, filter, c, ts[..|ts| - 1], es[..|es| - 1]);
      ApplyOpaque(rt, filter, ApplyAll(rt, filter, c, ts[..|ts| - 1]), ts[|ts| - 1]);
    }
  }

  lemma {:induction false} UnapplyOpaqueAll<C(!new)>(rt: Runtime<OuterVerifier, C>, c: Coins, ts: seq<Tx<C>>,
                                                     es: seq<Vec<Byte>>)
    requires LawfulCodecs(rt.codecs) && |es| == |ts|
    requires forall i :: 0 <= i < |ts| ==> es[i] == rt.codecs.body(ts[i])
    ensures UnapplyExtrinsics(rt, c, es) == (UnapplyAll(rt, c, ts), true)
    decreases |ts|
  {
    if ts == [] {
    } else {
      Wallet.OpaqueDecodes(rt, ts[|ts| - 1]);
      UnapplyOpaqueAll(rt, Unapply(rt, c, ts[|ts| - 1]), ts[..|ts| - 1], es[..|es| - 1]);
    }
  }

  // ----- The database

  function ApplyBlock<C>(rt: Runtime<OuterVerifier, C>,
                         filter: Filter, db: Tables, b: OpaqueBlock, hash: H256): (Tables, bool) {
    var (c, ok) := ApplyExtrinsics(rt, filter, db.coins, b.extrinsics);
    (Tables(db.blockHashes[b.header.number := hash], db.blocks[hash := b], c), ok)
  }

  /** The wallet's idea of its best height: one less than the number of block hashes, in 32 bits. */
  function BestHeight(db: Tables): Option<nat> {
    if |db.blockHashes| == 0 then None else Some(Predecessor32(|db.blockHashes|))
  }

  function Predecessor32(n: nat): nat { (n % 0x1_0000_0000 - 1) % 0x1_0000_0000 }

  /** The size is cast to 32 bits before one is subtracted, which wraps at zero. */
  lemma PredecessorWraps(n: nat, k: nat)
    requires n <= 0xFFFF_FFFF
    ensures Predecessor32(0x1_0000_0000 * k + n) == if n == 0 then 0xFFFF_FFFF else n - 1
  {
    assert (0x1_0000_0000 * k + n) % 0x1_0000_0000 == n;
  }

  lemma PredecessorFits(n: nat)
    requires 0 < n <= 0x1_0000_0000
    ensures Predecessor32(n) == n - 1
  {
    if n < 0x1_0000_0000 {
      SmallModulus(n);
      SmallModulus(n - 1);
    }
  }

  /** False where the source returns an error, possibly after the first removals. */
  function UnapplyHighestBlock<C>(rt: Runtime<OuterVerifier, C>, db: Tables): (Tables, bool) {
    match BestHeight(db)
    case None => (db, false)
    case Some(h) =>
      if h !in db.blockHashes then (db, false)
      else
        var hash := db.blockHashes[h];
        var db' := db.(blockHashes := db.blockHashes - {h});
        if hash !in db.blocks then (db', false)
        else
          var (c, ok) := UnapplyExtrinsics(rt, db.coins, db.blocks[hash].extrinsics);
          (Tables(db'.blockHashes, db.blocks - {hash}, c), ok)
  }

  predicate AllDecode<C>(rt: Runtime<OuterVerifier, C>, es: seq<Vec<Byte>>) {
    forall k :: 0 <= k < |es| ==> Decoded(rt, es[k]).Some?
  }

  lemma {:induction false} UnappliesIff<C>(rt: Runtime<OuterVerifier, C>, c: Coins, es: seq<Vec<Byte>>)
    ensures UnapplyExtrinsics(rt, c, es).1 <==> AllDecode(rt, es)
    decreases |es|
  {
    if es != [] {
      var n := |es| - 1;
      UnappliesIff(rt, UnapplyTransaction(rt, c, es[n]).0, es[..n]);
      assert UnapplyExtrinsics(rt, c, es).1 <==>
             Decoded(rt, es[n]).Some? && UnapplyExtrinsics(rt, UnapplyTransaction(rt, c, es[n]).0, es[..n]).1;
      AllOrLast(rt, es);
    }
  }

  lemma AllOrLast<C>(rt: Runtime<OuterVerifier, C>, es: seq<Vec<Byte>>)
    requires es != []
    ensures AllDecode(rt, es) <==> AllDecode(rt, es[..|es| - 1]) && Decoded(rt, es[|es| - 1]).Some?
  {
  }

  /**
   Unapplying the highest block succeeds exactly when there is one, it is in the table, and its
   extrinsics decode. On an error, what has been removed so far stays removed.
   */
  lemma {:induction false} UnapplyOutcome<C>(rt: Runtime<OuterVerifier, C>, db: Tables)
    ensures var ((db', ok), h) := (UnapplyHighestBlock(rt, db), BestHeight(db));
            var found := h.Some? && h.value in db.blockHashes;
            var there := found && db.blockHashes[h.value] in db.blocks;
            && (ok <==> there && AllDecode(rt, db.blocks[db.blockHashes[h.value]].extrinsics))
            && db'.blockHashes == (if found then db.blockHashes - {h.value} else db.blockHashes)
            && db'.blocks == (if there then db.blocks - {db.blockHashes[h.value]} else db.blocks)
            && (!there ==> db'.coins == db.coins)
  {
    var h := BestHeight(db);
    if h.Some? && h.value in db.blockHashes && db.blockHashes[h.value] in db.blocks {
      UnappliesIff(rt, db.coins, db.blocks[db.blockHashes[h.value]].extrinsics);
    }
  }

  /** Unapplying a block on top of what is below it. */
  lemma {:induction false} UnapplyTop<C>(rt: Runtime<OuterVerifier, C>, db: Tables, b: OpaqueBlock, hash: H256,
                                         c: Coins)
    requires |db.blockHashes| == b.header.number && b.header.number !in db.blockHashes && hash !in db.blocks
    ensures var (c', ok) := UnapplyExtrinsics(rt, c, b.extrinsics);
            UnapplyHighestBlock(rt, Tables(db.blockHashes[b.header.number := hash], db.blocks[hash := b], c)) ==
            (Tables(db.blockHashes, db.blocks, c'), ok)
  {
    var n := b.header.number;
    var top := Tables(db.blockHashes[n := hash], db.blocks[hash := b], c);
    PutAndTake(db.blockHashes, n, hash);
    PutAndTake(db.blocks, hash, b);
    TopHeight(top, n);
    UnapplyAt(rt, top, n);
  }

  lemma TopHeight(db: Tables, n: nat)
    requires |db.blockHashes| == n + 1 <= 0x1_0000_0000
    ensures BestHeight(db) == Some(n)
  {
    PredecessorFits(n + 1);
  }

  lemma {:induction false} UnapplyAt<C>(rt: Runtime<OuterVerifier, C>, db: Tables, n: nat)
    requires BestHeight(db) == Some(n) && n in db.blockHashes && db.blockHashes[n] in db.blocks
    ensures var hash := db.blockHashes[n];
            var (c, ok) := UnapplyExtrinsics(rt, db.coins, db.blocks[hash].extrinsics);
            UnapplyHighestBlock(rt, db) == (Tables(db.blockHashes - {n}, db.blocks - {hash}, c), ok)
  {
  }

  lemma PutAndTake<K, T>(m: map<K, T>, k: K, x: T)
    requires k !in m
    ensures m[k := x] - {k} == m && |m[k := x]| == |m| + 1
  {
  }

  /** A block is the next one for the database, and new to it. */
  predicate NextBlock<C>(db: Tables, b: TxBlock<C>, hash: H256) {
    |db.blockHashes| == b.header.number && b.header.number !in db.blockHashes && hash !in db.blocks
  }

  /**
   Unapplying the highest block after applying the next one leaves the tables of blocks as they were
   and the coins with the block's transactions unapplied. It never fails.
   */
  lemma {:induction false} ThereAndBack<C(!new)>(rt: Runtime<OuterVerifier, C>, filter: Filter, db: Tables,
                                                 b: TxBlock<C>, hash: H256)
    requires LawfulCodecs(rt.codecs) && Fits(rt, b) && Legible(filter, b) && NextBlock(db, b, hash)
    ensures var (db', ok) := ApplyBlock(rt, filter, db, Opaque(rt, b), hash);
            && ok && db'.coins == ApplyAll(rt, filter, db.coins, b.extrinsics)
            && UnapplyHighestBlock(rt, db') == (db.(coins := UnapplyAll(rt, db'.coins, b.extrinsics)), true)
  {
    var c := ApplyAll(rt, filter, db.coins, b.extrinsics);
    ApplyOpaqueAll(rt, filter, db.coins, b.extrinsics, Opaque(rt, b).extrinsics);
    UnapplyOpaqueAll(rt, c, b.extrinsics, Opaque(rt, b).extrinsics);
    UnapplyTop(rt, db, Opaque(rt, b), hash, c);
  }

  /**
   Unapplying the highest block undoes applying the next block, in all four tables and under any
   filter, exactly when the block's transactions are undoable on the coins.
   */
  lemma {:induction false} RollbackExact<C(!new)>(rt: Runtime<OuterVerifier, C>, filter: Filter, db: Tables,
                                                  b: TxBlock<C>, hash: H256)
    requires LawfulCodecs(rt.codecs) && Fits(rt, b) && Legible(filter, b) && NextBlock(db, b, hash)
    ensures UnapplyHighestBlock(rt, ApplyBlock(rt, filter, db, Opaque(rt, b), hash).0) == (db, true) <==>
            Undoable(rt, db.coins, b.extrinsics)
  {
    ThereAndBack(rt, filter, db, b, hash);
    RollbackAllIff(rt, filter, db.coins, b.extrinsics);
  }

  /**
   In particular when none of its inputs is in the spent table and none of its outputs in the
   unspent table beforehand, whatever the transactions of the block do among themselves.
   */
  lemma RollbackFreshBlock<C(!new)>(rt: Runtime<OuterVerifier, C>, filter: Filter, db: Tables, b: TxBlock<C>,
                                    hash: H256)
    requires LawfulCodecs(rt.codecs) && Fits(rt, b) && Legible(filter, b) && NextBlock(db, b, hash)
    requires forall j :: 0 <= j < |b.extrinsics| ==> Reversible(rt, db.coins, b.extrinsics[j])
    ensures UnapplyHighestBlock(rt, ApplyBlock(rt, filter, db, Opaque(rt, b), hash).0) == (db, true)
  {
    FreshIsUndoable(rt, db.coins, b.extrinsics);
    RollbackExact(rt, filter, db, b, hash);
  }

  const EMPTY: Tables := Tables(map[], map[], Coins(map[], map[]))

  predicate AllFit<C>(rt: Runtime<OuterVerifier, C>, chain: Chain<C>) {
    forall i :: 0 <= i < |chain| ==> Fits(rt, chain[i].block)
  }

  /** The database built from scratch, block by block. */
  function Replay<C>(rt: Runtime<OuterVerifier, C>, filter: Filter, chain: Chain<C>): Tables
    requires AllFit(rt, chain)
  {
    if chain == [] then EMPTY
    else
      var top := chain[|chain| - 1];
      ApplyBlock(rt, filter, Replay(rt, filter, chain[..|chain| - 1]), Opaque(rt, top.block), top.hash).0
  }

  lemma {:induction false} ReplaySnoc<C>(rt: Runtime<OuterVerifier, C>, filter: Filter, chain: Chain<C>)
    requires AllFit(rt, chain) && chain != []
    ensures var (p, top) := (chain[..|chain| - 1], chain[|chain| - 1]);
            && Replay(rt, filter, chain).blockHashes ==
               Replay(rt, filter, p).blockHashes[top.block.header.number := top.hash]
            && Replay(rt, filter, chain).blocks == Replay(rt, filter, p).blocks[top.hash := Opaque(rt, top.block)]
  {
  }

  // ----- The chain's own books

  /** The UTXO set, and every reference that was ever created. */
  datatype Book = Book(utxos: Utxos<OuterVerifier>, ever: set<OutputRef>)

  ghost predicate Affords<C>(book: Book, t: Tx<C>) {
    forall k :: 0 <= k < |t.inputs| ==> t.inputs[k].outputRef in book.utxos
  }

  /** The transaction spends what is there and creates what never was there. */
  ghost predicate Fair<C>(rt: Runtime<OuterVerifier, C>, book: Book, t: Tx<C>) {
    && Affords(book, t)
    && (forall i :: 0 <= i < |t.outputs| ==> OutRef(rt, t, i) !in book.ever)
  }

  function Entered<C>(rt: Runtime<OuterVerifier, C>, book: Book, t: Tx<C>): Book {
    Book(After(rt, book.utxos, t), book.ever + RefSet(OutRefs(rt, t)))
  }

  function EnteredAll<C>(rt: Runtime<OuterVerifier, C>, book: Book, ts: seq<Tx<C>>): Book {
    if ts == [] then book else Entered(rt, EnteredAll(rt, book, ts[..|ts| - 1]), ts[|ts| - 1])
  }

  ghost predicate FairAll<C>(rt: Runtime<OuterVerifier, C>, book: Book, ts: seq<Tx<C>>) {
    ts == [] ||
    (FairAll(rt, book, ts[..|ts| - 1]) && Fair(rt, EnteredAll(rt, book, ts[..|ts| - 1]), ts[|ts| - 1]))
  }

  function BookOf<C>(rt: Runtime<OuterVerifier, C>, chain: Chain<C>): Book {
    if chain == [] then Book(map[], {})
    else EnteredAll(rt, BookOf(rt, chain[..|chain| - 1]), chain[|chain| - 1].block.extrinsics)
  }

  // ----- The index agrees with the books

  /** The unspent table is the tracked part of the UTXO set; the spent table holds only bygone outputs. */
  ghost predicate Agrees(filter: Filter, c: Coins, book: Book) {
    && c.unspent == TrackedOf(filter, book.utxos)
    && book.utxos.Keys <= book.ever && c.spent.Keys <= book.ever
    && c.spent.Keys !! book.utxos.Keys
  }

  lemma {:induction false} RefsOfInputs(s: seq<Input>)
    ensures RefSet(Refs(s)) == InputRefs(s)
  {
    forall r ensures r in RefSet(Refs(s)) <==> r in InputRefs(s) {
      ListedBefore(s, r);
      if r in RefSet(Refs(s)) {
        var k :| 0 <= k < |s| && Refs(s)[k] == r;
        assert s[k].outputRef == r;
      }
      if r in InputRefs(s) {
        var k :| 0 <= k < |s| && s[k].outputRef == r;
        assert Refs(s)[k] == r;
      }
    }
  }

  lemma OutRefsAreCreated<C>(rt: Runtime<OuterVerifier, C>, t: Tx<C>)
    ensures RefSet(OutRefs(rt, t)) == Created(rt, t).Keys
  {
    forall r ensures r in RefSet(OutRefs(rt, t)) <==> r in Created(rt, t) {
      CreatedContents(rt, t, r);
      if r in RefSet(OutRefs(rt, t)) {
        var i :| 0 <= i < |t.outputs| && OutRefs(rt, t)[i] == r;
        assert r == OutRef(rt, t, i);
      }
      if r in Created(rt, t) {
        assert OutRefs(rt, t)[r.index] == r;
      }
    }
  }

  /** The transaction creates nothing that it spends, and replaces no UTXO by a different one. */
  ghost predicate Harmless<C>(rt: Runtime<OuterVerifier, C>, u: Utxos<OuterVerifier>, t: Tx<C>) {
    && Created(rt, t).Keys !! InputRefs(t.inputs)
    && forall r :: r in Created(rt, t) && r in u ==> u[r] == Created(rt, t)[r]
  }

  ghost predicate HarmlessAll<C>(rt: Runtime<OuterVerifier, C>, book: Book, ts: seq<Tx<C>>) {
    ts == [] ||
    (HarmlessAll(rt, book, ts[..|ts| - 1]) && Harmless(rt, EnteredAll(rt, book, ts[..|ts| - 1]).utxos, ts[|ts| - 1]))
  }

  /**
   Inserting before spending keeps the unspent table the tracked part of the UTXO set, although the
   chain removes before it adds. A reference may come back after it was spent.
   */
  lemma TrackStep<C>(rt: Runtime<OuterVerifier, C>, filter: Filter, c: Coins, u: Utxos<OuterVerifier>, t: Tx<C>)
    requires c.unspent == TrackedOf(filter, u) && Harmless(rt, u, t)
    ensures Wallet.Apply(rt, filter, c, t).unspent == TrackedOf(filter, After(rt, u, t))
  {
    RefsOfInputs(t.inputs);
    SpendAllMoves(c.(unspent := c.unspent + TrackedOf(filter, Created(rt, t))), Refs(t.inputs));
    TrackedUpdate(filter, u, InputRefs(t.inputs), Created(rt, t));
  }

  lemma {:induction false} TrackAll<C>(rt: Runtime<OuterVerifier, C>, filter: Filter, c: Coins, book: Book,
                                       ts: seq<Tx<C>>)
    requires c.unspent == TrackedOf(filter, book.utxos) && HarmlessAll(rt, book, ts)
    ensures ApplyAll(rt, filter, c, ts).unspent == TrackedOf(filter, EnteredAll(rt, book, ts).utxos)
  {
    if ts == [] {
    } else {
      var p := ts[..|ts| - 1];
      TrackAll(rt, filter, c, book, p);
      TrackStep(rt, filter, ApplyAll(rt, filter, c, p), EnteredAll(rt, book, p).utxos, ts[|ts| - 1]);
    }
  }

  /** A fair transaction is reversible, and keeps wallet and chain in agreement, though they work in opposite orders. */
  lemma AgreeStep<C>(rt: Runtime<OuterVerifier, C>, filter: Filter, c: Coins, book: Book, t: Tx<C>)
    requires Agrees(filter, c, book) && Fair(rt, book, t)
    ensures Reversible(rt, c, t)
    ensures Agrees(filter, Wallet.Apply(rt, filter, c, t), Entered(rt, book, t))
  {
    var i, n := InputRefs(t.inputs), Created(rt, t);
    RefsOfInputs(t.inputs);
    OutRefsAreCreated(rt, t);
    assert i <= book.utxos.Keys by {
      forall r | r in i ensures r in book.utxos { ListedBefore(t.inputs, r); }
    }
    assert n.Keys !! book.ever by {
      forall r | r in n.Keys ensures r !in book.ever { CreatedContents(rt, t, r); assert r == OutRef(rt, t, r.index); }
    }
    SpendAllMoves(c.(unspent := c.unspent + TrackedOf(filter, n)), Refs(t.inputs));
    AgreeMaps(filter, c, book, i, n);
    assert forall r :: r in Refs(t.inputs) ==> r in RefSet(Refs(t.inputs));
    assert forall r :: r in OutRefs(rt, t) ==> r in RefSet(OutRefs(rt, t));
  }

  lemma AgreeMaps(filter: Filter, c: Coins, book: Book, i: set<OutputRef>, n: Utxos<OuterVerifier>)
    requires Agrees(filter, c, book) && i <= book.utxos.Keys && n.Keys !! book.ever
    ensures var x := c.unspent + TrackedOf(filter, n);
            Agrees(filter, Coins(x - i, c.spent + Restrict(x, i)), Book((book.utxos - i) + n, book.ever + n.Keys))
  {
    var x := c.unspent + TrackedOf(filter, n);
    TrackedUpdate(filter, book.utxos, i, n);
    assert Restrict(x, i).Keys <= i;
  }

  /** Tracking commutes with the update of the UTXO set, in the other order. */
  lemma TrackedUpdate(filter: Filter, u: Utxos<OuterVerifier>, i: set<OutputRef>, n: Utxos<OuterVerifier>)
    requires n.Keys !! i && forall r :: r in n && r in u ==> u[r] == n[r]
    ensures (TrackedOf(filter, u) + TrackedOf(filter, n)) - i == TrackedOf(filter, (u - i) + n)
  {
  }

  lemma {:induction false} AgreeAll<C>(rt: Runtime<OuterVerifier, C>, filter: Filter, c: Coins, book: Book,
                                       ts: seq<Tx<C>>)
    requires Agrees(filter, c, book) && FairAll(rt, book, ts)
    ensures UnapplyAll(rt, ApplyAll(rt, filter, c, ts), ts) == c
    ensures Agrees(filter, ApplyAll(rt, filter, c, ts), EnteredAll(rt, book, ts))
  {
    if ts == [] {
    } else {
      var p := ts[..|ts| - 1];
      AgreeAll(rt, filter, c, book, p);
      AgreeStep(rt, filter, ApplyAll(rt, filter, c, p), EnteredAll(rt, book, p), ts[|ts| - 1]);
      RollbackIff(rt, filter, ApplyAll(rt, filter, c, p), ts[|ts| - 1]);
    }
  }

  // ----- Valid chains

  /** Blocks are numbered from genesis on and point to their predecessors. */
  predicate Linked<C(==)>(chain: Chain<C>) {
    forall i :: 0 <= i < |chain| ==>
      && chain[i].block.header.number == i
      && (i > 0 ==> chain[i].block.header.parentHash == chain[i - 1].hash)
  }

  /** A hash identifies its block. */
  ghost predicate SameHashSameBlock<C>(a: Chain<C>, b: Chain<C>) {
    forall i, j :: 0 <= i < |a| && 0 <= j < |b| && a[i].hash == b[j].hash ==> a[i].block == b[j].block
  }

  predicate AllLegible<C>(filter: Filter, chain: Chain<C>) {
    forall i :: 0 <= i < |chain| ==> Legible(filter, chain[i].block)
  }

  /** Every transaction is fair where it stands: it spends what exists and never recreates a reference. */
  ghost predicate FairChain<C>(rt: Runtime<OuterVerifier, C>, chain: Chain<C>) {
    chain == [] ||
    (FairChain(rt, chain[..|chain| - 1]) &&
     FairAll(rt, BookOf(rt, chain[..|chain| - 1]), chain[|chain| - 1].block.extrinsics))
  }

  /** Every transaction is harmless where it stands. */
  ghost predicate HarmlessChain<C>(rt: Runtime<OuterVerifier, C>, chain: Chain<C>) {
    chain == [] ||
    (HarmlessChain(rt, chain[..|chain| - 1]) &&
     HarmlessAll(rt, BookOf(rt, chain[..|chain| - 1]), chain[|chain| - 1].block.extrinsics))
  }

  /** What a chain must be for the wallet to follow it. */
  ghost predicate Followable<C>(rt: Runtime<OuterVerifier, C>, filter: Filter, chain: Chain<C>) {
    AllFit(rt, chain) && AllLegible(filter, chain) && Linked(chain)
  }

  lemma FollowablePrefix<C>(rt: Runtime<OuterVerifier, C>, filter: Filter, chain: Chain<C>, n: nat)
    requires Followable(rt, filter, chain) && n <= |chain|
    ensures Followable(rt, filter, chain[..n])
    ensures SameHashSameBlock(chain, chain) ==> SameHashSameBlock(chain[..n], chain[..n])
  {
  }

  /** Block `h` of the chain is undoable on the replay of what is below it. */
  ghost predicate UndoableBlock<C>(rt: Runtime<OuterVerifier, C>, filter: Filter, chain: Chain<C>, h: nat)
    requires AllFit(rt, chain) && h < |chain|
  {
    Undoable(rt, Replay(rt, filter, chain[..h]).coins, chain[h].block.extrinsics)
  }

  lemma {:induction false} FairPrefix<C>(rt: Runtime<OuterVerifier, C>, chain: Chain<C>, n: nat)
    requires FairChain(rt, chain) && n <= |chain|
    ensures FairChain(rt, chain[..n])
  {
    if n == |chain| {
      assert chain[..n] == chain;
    } else {
      var p := chain[..|chain| - 1];
      FairPrefix(rt, p, n);
      assert p[..n] == chain[..n];
    }
  }

  // ----- The four tables after replaying a chain

  function HashTable<C>(chain: Chain<C>): map<nat, H256> {
    map i: nat | i < |chain| :: chain[i].hash
  }

  lemma HashTableSnoc<C>(chain: Chain<C>)
    requires chain != []
    ensures var n := |chain| - 1;
            n !in HashTable(chain[..n]) && HashTable(chain) == HashTable(chain[..n])[n := chain[n].hash]
  {
  }

  lemma {:induction false} ReplayHashes<C>(rt: Runtime<OuterVerifier, C>, filter: Filter, chain: Chain<C>)
    requires AllFit(rt, chain) && Linked(chain)
    ensures Replay(rt, filter, chain).blockHashes == HashTable(chain)
    ensures |HashTable(chain)| == |chain|
  {
    if chain == [] {
      assert HashTable(chain) == map[];
    } else {
      ReplayHashes(rt, filter, chain[..|chain| - 1]);
      ReplaySnoc(rt, filter, chain);
      HashTableSnoc(chain);
    }
  }

  /** The table holds exactly the chain's blocks. */
  ghost predicate BlockTable<C>(rt: Runtime<OuterVerifier, C>, chain: Chain<C>, t: map<H256, OpaqueBlock>)
    requires AllFit(rt, chain)
  {
    && (forall i :: 0 <= i < |chain| ==> chain[i].hash in t && t[chain[i].hash] == Opaque(rt, chain[i].block))
    && (forall x :: x in t ==> exists i :: 0 <= i < |chain| && chain[i].hash == x)
  }

  lemma BlockTableSnoc<C>(rt: Runtime<OuterVerifier, C>, chain: Chain<C>, t: map<H256, OpaqueBlock>)
    requires AllFit(rt, chain) && SameHashSameBlock(chain, chain) && chain != []
    requires BlockTable(rt, chain[..|chain| - 1], t)
    ensures var top := chain[|chain| - 1]; BlockTable(rt, chain, t[top.hash := Opaque(rt, top.block)])
  {
    var n := |chain| - 1;
    var p, t' := chain[..n], t[chain[n].hash := Opaque(rt, chain[n].block)];
    forall i | 0 <= i < |chain| ensures chain[i].hash in t' && t'[chain[i].hash] == Opaque(rt, chain[i].block) {
      if i < n {
        assert p[i] == chain[i];
        assert chain[i].hash == chain[n].hash ==> chain[i].block == chain[n].block;
      }
    }
    forall x | x in t' ensures exists i :: 0 <= i < |chain| && chain[i].hash == x {
      if x != chain[n].hash {
        var i :| 0 <= i < |p| && p[i].hash == x;
        assert chain[i].hash == x;
      }
    }
  }

  lemma {:induction false} ReplayBlocks<C>(rt: Runtime<OuterVerifier, C>, filter: Filter, chain: Chain<C>)
    requires AllFit(rt, chain) && SameHashSameBlock(chain, chain)
    ensures BlockTable(rt, chain, Replay(rt, filter, chain).blocks)
  {
    if chain == [] {
    } else {
      ReplayBlocks(rt, filter, chain[..|chain| - 1]);
      ReplaySnoc(rt, filter, chain);
      BlockTableSnoc(rt, chain, Replay(rt, filter, chain[..|chain| - 1]).blocks);
    }
  }

  /** A block applied on top of a replay never fails. */
  lemma {:induction false} ReplayStep<C(!new)>(rt: Runtime<OuterVerifier, C>, filter: Filter, chain: Chain<C>)
    requires LawfulCodecs(rt.codecs) && AllFit(rt, chain) && AllLegible(filter, chain) && chain != []
    ensures var (p, top) := (chain[..|chain| - 1], chain[|chain| - 1]);
            && ApplyBlock(rt, filter, Replay(rt, filter, p), Opaque(rt, top.block), top.hash) ==
               (Replay(rt, filter, chain), true)
            && Replay(rt, filter, chain).coins ==
               ApplyAll(rt, filter, Replay(rt, filter, p).coins, top.block.extrinsics)
  {
    var p, top := chain[..|chain| - 1], chain[|chain| - 1];
    assert Legible(filter, top.block);
    ApplyOpaqueAll(rt, filter, Replay(rt, filter, p).coins, top.block.extrinsics, Opaque(rt, top.block).extrinsics);
  }

  lemma {:induction false} ReplayCoins<C(!new)>(rt: Runtime<OuterVerifier, C>, filter: Filter, chain: Chain<C>)
    requires LawfulCodecs(rt.codecs) && AllFit(rt, chain) && AllLegible(filter, chain) && FairChain(rt, chain)
    ensures Agrees(filter, Replay(rt, filter, chain).coins, BookOf(rt, chain))
  {
    if chain == [] {
    } else {
      var p, top := chain[..|chain| - 1], chain[|chain| - 1];
      ReplayCoins(rt, filter, p);
      ReplayStep(rt, filter, chain);
      AgreeAll(rt, filter, Replay(rt, filter, p).coins, BookOf(rt, p), top.block.extrinsics);
    }
  }

  /**
   After every harmless chain the wallet's unspent table is exactly the tracked part of the chain's
   UTXO set. Unlike rolling back, this does not need references to be created only once.
   */
  lemma {:induction false} IndexAgreesWithChain<C(!new)>(rt: Runtime<OuterVerifier, C>, filter: Filter, chain: Chain<C>)
    requires LawfulCodecs(rt.codecs) && AllFit(rt, chain) && AllLegible(filter, chain) && HarmlessChain(rt, chain)
    ensures Replay(rt, filter, chain).coins.unspent == TrackedOf(filter, BookOf(rt, chain).utxos)
  {
    if chain == [] {
    } else {
      var p, top := chain[..|chain| - 1], chain[|chain| - 1];
      IndexAgreesWithChain(rt, filter, p);
      ReplayStep(rt, filter, chain);
      TrackAll(rt, filter, Replay(rt, filter, p).coins, BookOf(rt, p), top.block.extrinsics);
    }
  }

  // ----- Rolling back a replayed chain

  lemma HashIsNew<C>(chain: Chain<C>, i: nat)
    requires Linked(chain) && SameHashSameBlock(chain, chain) && i < |chain| - 1
    ensures chain[i].hash != chain[|chain| - 1].hash
  {
    assert chain[i].block.header.number != chain[|chain| - 1].block.header.number;
  }

  lemma {:induction false} TopIsNew<C>(rt: Runtime<OuterVerifier, C>, filter: Filter, chain: Chain<C>)
    requires AllFit(rt, chain) && Linked(chain) && SameHashSameBlock(chain, chain) && chain != []
    ensures var (n, db) := (|chain| - 1, Replay(rt, filter, chain[..|chain| - 1]));
            |db.blockHashes| == n && n !in db.blockHashes && chain[n].hash !in db.blocks
  {
    var n := |chain| - 1;
    ReplayHashes(rt, filter, chain[..n]);
    assert n !in HashTable(chain[..n]);
    TopHashIsNew(rt, filter, chain);
  }

  lemma {:induction false} TopHashIsNew<C>(rt: Runtime<OuterVerifier, C>, filter: Filter, chain: Chain<C>)
    requires AllFit(rt, chain) && Linked(chain) && SameHashSameBlock(chain, chain) && chain != []
    ensures chain[|chain| - 1].hash !in Replay(rt, filter, chain[..|chain| - 1]).blocks
  {
    ReplayBlocks(rt, filter, chain[..|chain| - 1]);
    NewToTable(rt, chain, Replay(rt, filter, chain[..|chain| - 1]).blocks);
  }

  lemma NewToTable<C>(rt: Runtime<OuterVerifier, C>, chain: Chain<C>, t: map<H256, OpaqueBlock>)
    requires AllFit(rt, chain) && Linked(chain) && SameHashSameBlock(chain, chain) && chain != []
    requires BlockTable(rt, chain[..|chain| - 1], t)
    ensures chain[|chain| - 1].hash !in t
  {
    var p := chain[..|chain| - 1];
    forall x | x in t ensures x != chain[|chain| - 1].hash {
      var i :| 0 <= i < |p| && p[i].hash == x;
      HashIsNew(chain, i);
    }
  }

  /** Unapplying the best block of a chain, whatever the coins are. */
  lemma {:induction false} UnapplyBest<C(!new)>(rt: Runtime<OuterVerifier, C>, filter: Filter, chain: Chain<C>,
                                                c: Coins)
    requires LawfulCodecs(rt.codecs) && Followable(rt, filter, chain) && SameHashSameBlock(chain, chain) && chain != []
    ensures var (p, top) := (chain[..|chain| - 1], chain[|chain| - 1]);
            UnapplyHighestBlock(rt, Replay(rt, filter, chain).(coins := c)) ==
            (Replay(rt, filter, p).(coins := UnapplyAll(rt, c, top.block.extrinsics)), true)
  {
    var top := chain[|chain| - 1];
    TopIsNew(rt, filter, chain);
    ReplaySnoc(rt, filter, chain);
    UnapplyOpaqueAll(rt, c, top.block.extrinsics, Opaque(rt, top.block).extrinsics);
    UnapplyTop(rt, Replay(rt, filter, chain[..|chain| - 1]), Opaque(rt, top.block), top.hash, c);
  }

  /**
   Unapplying the best block of a replayed chain gives the replay of the chain without it, exactly
   when that block is undoable.
   */
  lemma {:induction false} RollbackBlock<C(!new)>(rt: Runtime<OuterVerifier, C>, filter: Filter, chain: Chain<C>)
    requires LawfulCodecs(rt.codecs) && Followable(rt, filter, chain) && SameHashSameBlock(chain, chain) && chain != []
    ensures UnapplyHighestBlock(rt, Replay(rt, filter, chain)) == (Replay(rt, filter, chain[..|chain| - 1]), true) <==>
            UndoableBlock(rt, filter, chain, |chain| - 1)
  {
    var top := chain[|chain| - 1];
    TopIsNew(rt, filter, chain);
    RollbackExact(rt, filter, Replay(rt, filter, chain[..|chain| - 1]), top.block, top.hash);
  }

  /** Every block of a fair chain is undoable. */
  lemma {:induction false} FairIsUndoable<C(!new)>(rt: Runtime<OuterVerifier, C>, filter: Filter, chain: Chain<C>,
                                                   h: nat)
    requires LawfulCodecs(rt.codecs) && AllFit(rt, chain) && AllLegible(filter, chain)
    requires FairChain(rt, chain) && h < |chain|
    ensures UndoableBlock(rt, filter, chain, h)
  {
    var p, top := chain[..h], chain[h];
    var c := Replay(rt, filter, p).coins;
    FairPrefix(rt, chain, h + 1);
    assert chain[..h + 1][..h] == p;
    ReplayCoins(rt, filter, p);
    AgreeAll(rt, filter, c, BookOf(rt, p), top.block.extrinsics);
    RollbackAllIff(rt, filter, c, top.block.extrinsics);
  }

  /** Two linked chains that agree on the hash at one height agree on everything up to it. */
  lemma {:induction false} CommonAncestor<C>(a: Chain<C>, b: Chain<C>, h: nat)
    requires Linked(a) && Linked(b) && SameHashSameBlock(a, b)
    requires h < |a| && h < |b| && a[h].hash == b[h].hash
    ensures a[..h + 1] == b[..h + 1]
  {
    assert a[h] == b[h];
    if h > 0 {
      CommonAncestor(a, b, h - 1);
    }
    assert a[..h + 1] == a[..h] + [a[h]] && b[..h + 1] == b[..h] + [b[h]];
  }
}
