/**
 A reference that comes back: the executive accepts an input free transaction again once its
 outputs are spent. The wallet can follow such a chain, and roll it back if all happens in one block,
 but not if it happens in several.
 */
module Remint {
  import opened Scale
  import opened Types
  import opened Typing
  import opened UtxoSet
  import opened Ledger
  import opened Sums
  import opened Wardrobe
  import opened Wallet
  import opened Slots
  import opened Rollback
  import opened WalletChain
  import opened Supply
  import Money

  /** Mints one coin for an owner. */
  function MintFor(owner: H256, value: U128, path: Checker): Tx<Checker> {
    Transaction([], [], [Output(Coin(value), Sr25519Signature(owner))], path)
  }

  /** Burns the coin at `r`. */
  function Burn(r: OutputRef, redeemer: Vec<Byte>, path: Checker): Tx<Checker> {
    Transaction([Input(r, Redemption(redeemer))], [], [], path)
  }

  /** The two checkers, an owner who can redeem, and a coin that is not there yet. */
  ghost predicate Setting(rt: Runtime<OuterVerifier, Checker>, st: State<OuterVerifier>, owner: H256, value: U128,
                          redeemer: Vec<Byte>, minting: Checker, spending: Checker) {
    && Leaf(minting) == MoneyCall(Money.Mint) && Leaf(spending) == MoneyCall(Money.Spend)
    && value > 0 && st.height.Some?
    && var (v, r) := (Sr25519Signature(owner), OutRef(rt, MintFor(owner, value, minting), 0));
       && r !in st.utxos
       && rt.redeemable(v, redeemer)
       && rt.verify(v, StrippedBytes(rt, Burn(r, redeemer, spending)), st.height.value, redeemer)
  }

  lemma {:induction false} MintPassesCheck(rt: Runtime<OuterVerifier, Checker>, host: Host, st: State<OuterVerifier>,
                                           owner: H256, value: U128, path: Checker)
    requires Dresses(rt, host) && Leaf(path) == MoneyCall(Money.Mint) && value > 0
    ensures var out := rt.check(path, st.height, st.ambient, Args(st.utxos, MintFor(owner, value, path)));
            out.passed && out.writes == map[]
  {
    var a := Args(st.utxos, MintFor(owner, value, path));
    CoinWorth(value);
    assert a == CheckArgs([], [], [], [Coin(value)]);
    Money.MintPasses(a);
    assert Dressed(rt, host, path, st.height, st.ambient, a);
  }

  lemma {:induction false} OneNewUtxo<C>(rt: Runtime<OuterVerifier, C>, u: Utxos<OuterVerifier>, t: Tx<C>)
    requires t.inputs == [] && |t.outputs| == 1
    ensures After(rt, u, t) == u[OutRef(rt, t, 0) := t.outputs[0]]
  {
    forall r ensures r in Created(rt, t) <==> r == OutRef(rt, t, 0) {
      CreatedContents(rt, t, r);
    }
    assert Created(rt, t)[OutRef(rt, t, 0)] == t.outputs[0];
    assert InputRefs(t.inputs) == {};
  }

  lemma {:induction false} MintAccepted(rt: Runtime<OuterVerifier, Checker>, host: Host, st: State<OuterVerifier>,
                                        owner: H256, value: U128, path: Checker)
    requires Dresses(rt, host) && Leaf(path) == MoneyCall(Money.Mint) && value > 0
    requires OutRef(rt, MintFor(owner, value, path), 0) !in st.utxos
    ensures var t := MintFor(owner, value, path);
            Accepted(rt, st, t) && Ledger.Apply(rt, st, t).0 == st.(utxos := st.utxos[OutRef(rt, t, 0) := t.outputs[0]])
  {
    var t := MintFor(owner, value, path);
    assert Accepted(rt, st, t) by { MintPassesCheck(rt, host, st, owner, value, path); }
    assert rt.check(path, st.height, st.ambient, Args(st.utxos, t)).writes == map[] by {
      MintPassesCheck(rt, host, st, owner, value, path);
    }
    AcceptedIff(rt, st, t);
    OneNewUtxo(rt, st.utxos, t);
    assert st.ambient + map[] == st.ambient;
  }

  lemma {:induction false} BurnPasses(rt: Runtime<OuterVerifier, Checker>, host: Host, st: State<OuterVerifier>,
                                      r: OutputRef, value: U128, redeemer: Vec<Byte>, path: Checker)
    requires Dresses(rt, host) && Leaf(path) == MoneyCall(Money.Spend)
    requires r in st.utxos && st.utxos[r].payload == Coin(value)
    ensures var out := rt.check(path, st.height, st.ambient, Args(st.utxos, Burn(r, redeemer, path)));
            out.passed && out.writes == map[]
  {
    var s := [Input(r, Redemption(redeemer))];
    var a := Args(st.utxos, Burn(r, redeemer, path));
    assert s[..0] == [];
    assert Redeemed(st.utxos, s[..0]) == [] && Evicted(st.utxos, s[..0]) == [];
    assert a == CheckArgs([Coin(value)], [], [], []);
    CoinWorth(value);
    ValuesOfTwice(Coin(value), Coin(value));
    Money.SpendMeaning(a);
    assert Dressed(rt, host, path, st.height, st.ambient, a);
  }

  lemma {:induction false} BurnAccepted(rt: Runtime<OuterVerifier, Checker>, host: Host, st: State<OuterVerifier>,
                                        r: OutputRef, value: U128, redeemer: Vec<Byte>, path: Checker)
    requires Dresses(rt, host) && Leaf(path) == MoneyCall(Money.Spend)
    requires r in st.utxos && st.utxos[r].payload == Coin(value) && st.height.Some?
    requires rt.redeemable(st.utxos[r].verifier, redeemer)
    requires rt.verify(st.utxos[r].verifier, StrippedBytes(rt, Burn(r, redeemer, path)), st.height.value, redeemer)
    ensures var t := Burn(r, redeemer, path);
            Accepted(rt, st, t) && Ledger.Apply(rt, st, t).0 == st.(utxos := st.utxos - {r})
  {
    var t := Burn(r, redeemer, path);
    BurnPasses(rt, host, st, r, value, redeemer, path);
    assert Spendable(rt, st, t, t.inputs[0]);
    AcceptedIff(rt, st, t);
    assert InputRefs(t.inputs) == {r} by { assert t.inputs[0] in t.inputs; }
    assert Created(rt, t) == map[];
    assert (st.utxos - {r}) + map[] == st.utxos - {r};
    assert st.ambient + map[] == st.ambient;
  }

  /** Minting and burning the coin is a run that leads back to where it started. */
  lemma {:induction false} MintAndBurn(rt: Runtime<OuterVerifier, Checker>, host: Host, st: State<OuterVerifier>,
                                       owner: H256, value: U128, redeemer: Vec<Byte>, minting: Checker,
                                       spending: Checker)
    requires Dresses(rt, host) && Setting(rt, st, owner, value, redeemer, minting, spending)
    ensures var mint := MintFor(owner, value, minting);
            var both := Txs([mint, Burn(OutRef(rt, mint, 0), redeemer, spending)]);
            Run(rt, st, both) && Final(rt, st, both) == st
  {
    var mint := MintFor(owner, value, minting);
    var r := OutRef(rt, mint, 0);
    MintAccepted(rt, host, st, owner, value, minting);
    BurnOfMinted(rt, host, st, mint.outputs[0], r, value, redeemer, spending);
    TwoSteps(rt, st, mint, Burn(r, redeemer, spending));
  }

  lemma {:induction false} BurnOfMinted(rt: Runtime<OuterVerifier, Checker>, host: Host, st: State<OuterVerifier>,
                                        o: Output<OuterVerifier>, r: OutputRef, value: U128, redeemer: Vec<Byte>,
                                        path: Checker)
    requires Dresses(rt, host) && Leaf(path) == MoneyCall(Money.Spend)
    requires r !in st.utxos && o.payload == Coin(value) && st.height.Some?
    requires rt.redeemable(o.verifier, redeemer)
    requires rt.verify(o.verifier, StrippedBytes(rt, Burn(r, redeemer, path)), st.height.value, redeemer)
    ensures var (st', t) := (st.(utxos := st.utxos[r := o]), Burn(r, redeemer, path));
            Accepted(rt, st', t) && Ledger.Apply(rt, st', t).0 == st
  {
    var st' := st.(utxos := st.utxos[r := o]);
    BurnAccepted(rt, host, st', r, value, redeemer, path);
    assert st'.utxos - {r} == st.utxos;
  }

  lemma {:induction false} TwoSteps<V, C>(rt: Runtime<V, C>, st: State<V>, a: Transaction<V, C>, b: Transaction<V, C>)
    requires Accepted(rt, st, a) && Accepted(rt, Ledger.Apply(rt, st, a).0, b)
    ensures Run(rt, st, Txs([a, b])) && Final(rt, st, Txs([a, b])) == Ledger.Apply(rt, Ledger.Apply(rt, st, a).0, b).0
  {
    var x, y := Event<V, C>.Applied(a), Event<V, C>.Applied(b);
    assert [] + [x] == [x] && Txs([a, b]) == [x] + [y];
    RunSnoc(rt, st, [], x);
    RunSnoc(rt, st, [x], y);
  }

  /** The same coin, minted and burned twice, is a run. */
  lemma {:induction false} TwiceAccepted(rt: Runtime<OuterVerifier, Checker>, host: Host, st: State<OuterVerifier>,
                                         owner: H256, value: U128, redeemer: Vec<Byte>, minting: Checker,
                                         spending: Checker)
    requires Dresses(rt, host) && Setting(rt, st, owner, value, redeemer, minting, spending)
    ensures var mint := MintFor(owner, value, minting);
            var burn := Burn(OutRef(rt, mint, 0), redeemer, spending);
            Run(rt, st, Txs([mint, burn, mint, burn]))
  {
    var mint := MintFor(owner, value, minting);
    var burn := Burn(OutRef(rt, mint, 0), redeemer, spending);
    var both := Txs([mint, burn]);
    MintAndBurn(rt, host, st, owner, value, redeemer, minting, spending);
    RunAppend(rt, st, both, both);
    assert Txs([mint, burn, mint, burn]) == both + both;
  }

  // ----- One transaction per block

  lemma {:induction false} FourEvents<V, C>(rt: Runtime<V, C>, st: State<V>, a: Event<V, C>, b: Event<V, C>,
                                            c: Event<V, C>, d: Event<V, C>)
    requires Enabled(rt, st, a) && Enabled(rt, Next(rt, st, a), b)
    requires var st2 := Next(rt, Next(rt, st, a), b); Enabled(rt, st2, c) && Enabled(rt, Next(rt, st2, c), d)
    ensures Run(rt, st, [a, b, c, d])
    ensures Final(rt, st, [a, b, c, d]) == Next(rt, Next(rt, Next(rt, Next(rt, st, a), b), c), d)
  {
    assert [] + [a] == [a] && [a] + [b] == [a, b] && [a, b] + [c] == [a, b, c] && [a, b, c] + [d] == [a, b, c, d];
    RunSnoc(rt, st, [], a);
    RunSnoc(rt, st, [a], b);
    RunSnoc(rt, st, [a, b], c);
    RunSnoc(rt, st, [a, b, c], d);
  }

  /** The events of minting the coin in one block and burning it in another. */
  function TwoBlocks(h: U32, h': U32, mint: Tx<Checker>, burn: Tx<Checker>): seq<Event<OuterVerifier, Checker>> {
    [Opened(h), Applied(mint), Opened(h'), Applied(burn)]
  }

  lemma {:induction false} MintAndBurnInBlocks(rt: Runtime<OuterVerifier, Checker>, host: Host,
                                               st: State<OuterVerifier>, h: U32, h': U32, owner: H256, value: U128,
                                               redeemer: Vec<Byte>, minting: Checker, spending: Checker)
    requires Dresses(rt, host) && Setting(rt, st.(height := Some(h')), owner, value, redeemer, minting, spending)
    ensures var mint := MintFor(owner, value, minting);
            var blocks := TwoBlocks(h, h', mint, Burn(OutRef(rt, mint, 0), redeemer, spending));
            Run(rt, st, blocks) && Final(rt, st, blocks) == st.(height := Some(h'))
  {
    var mint := MintFor(owner, value, minting);
    var r := OutRef(rt, mint, 0);
    MintAccepted(rt, host, st.(height := Some(h)), owner, value, minting);
    BurnOfMinted(rt, host, st.(height := Some(h')), mint.outputs[0], r, value, redeemer, spending);
    FourEvents(rt, st, Opened(h), Applied(mint), Opened(h'), Applied(Burn(r, redeemer, spending)));
  }

  /** The same coin, minted and burned twice, in four blocks. */
  lemma {:induction false} TwiceAcceptedInBlocks(rt: Runtime<OuterVerifier, Checker>, host: Host,
                                                 st: State<OuterVerifier>, h: seq<U32>, owner: H256, value: U128,
                                                 redeemer: Vec<Byte>, minting: Checker, spending: Checker)
    requires Dresses(rt, host) && |h| == 4
    requires Setting(rt, st.(height := Some(h[1])), owner, value, redeemer, minting, spending)
    requires Setting(rt, st.(height := Some(h[3])), owner, value, redeemer, minting, spending)
    ensures var mint := MintFor(owner, value, minting);
            var burn := Burn(OutRef(rt, mint, 0), redeemer, spending);
            Run(rt, st, TwoBlocks(h[0], h[1], mint, burn) + TwoBlocks(h[2], h[3], mint, burn))
  {
    var mint := MintFor(owner, value, minting);
    var burn := Burn(OutRef(rt, mint, 0), redeemer, spending);
    MintAndBurnInBlocks(rt, host, st, h[0], h[1], owner, value, redeemer, minting, spending);
    MintAndBurnInBlocks(rt, host, st.(height := Some(h[1])), h[2], h[3], owner, value, redeemer, minting, spending);
    RunAppend(rt, st, TwoBlocks(h[0], h[1], mint, burn), TwoBlocks(h[2], h[3], mint, burn));
  }

  // ----- What the wallet makes of it

  /** One transaction creates the reference and nothing else, the other spends it and nothing else. */
  ghost predicate MakesAndSpends<C>(rt: Runtime<OuterVerifier, C>, r: OutputRef, make: Tx<C>, spend: Tx<C>) {
    && OutRefs(rt, make) == [r] && Refs(make.inputs) == []
    && OutRefs(rt, spend) == [] && Refs(spend.inputs) == [r]
  }

  lemma {:induction false} CoinPair(rt: Runtime<OuterVerifier, Checker>, owner: H256, value: U128, redeemer: Vec<Byte>,
                                    minting: Checker, spending: Checker)
    ensures var mint := MintFor(owner, value, minting);
            var r := OutRef(rt, mint, 0);
            MakesAndSpends(rt, r, mint, Burn(r, redeemer, spending))
  {
    var mint := MintFor(owner, value, minting);
    var r := OutRef(rt, mint, 0);
    var burn := Burn(r, redeemer, spending);
    assert OutRefs(rt, mint) == [r] && Refs(mint.inputs) == [];
    assert OutRefs(rt, burn) == [] && Refs(burn.inputs) == [r];
  }

  lemma {:induction false} CoinIsTracked(rt: Runtime<OuterVerifier, Checker>, filter: Filter, owner: H256, value: U128,
                                         path: Checker)
    requires filter(Sr25519Signature(owner))
    ensures var t := MintFor(owner, value, path); OutRef(rt, t, 0) in TrackedOf(filter, Created(rt, t))
  {
    var t := MintFor(owner, value, path);
    CoinWorth(value);
    TrackedContents(rt, filter, t, OutRef(rt, t, 0));
  }

  /** In one block, the four transactions are undone exactly, unless the tables know the reference already. */
  lemma {:induction false} UndoneTogether<C>(rt: Runtime<OuterVerifier, C>, c: Coins, r: OutputRef, make: Tx<C>,
                                             spend: Tx<C>)
    requires MakesAndSpends(rt, r, make, spend)
    ensures Undoable(rt, c, [make, spend, make, spend]) <==> r !in c.unspent && r !in c.spent
  {
    var ts := [make, spend, make, spend];
    forall x ensures UndoableAt(rt, c, ts, x) <==> x != r || (r !in c.unspent && r !in c.spent) {
      TogetherAt(rt, c, r, make, spend, x);
    }
    assert UndoableAt(rt, c, ts, r) <==> r !in c.unspent && r !in c.spent;
  }

  lemma {:induction false} TogetherAt<C>(rt: Runtime<OuterVerifier, C>, c: Coins, r: OutputRef, make: Tx<C>,
                                         spend: Tx<C>, x: OutputRef)
    requires MakesAndSpends(rt, r, make, spend)
    ensures UndoableAt(rt, c, [make, spend, make, spend], x) <==> x != r || (r !in c.unspent && r !in c.spent)
  {
    var ts := [make, spend, make, spend];
    if x == r {
      FourMarks(rt, r, make, spend);
    } else {
      NotMentioned(rt, r, make, spend, x);
    }
  }

  lemma {:induction false} FourMarks<C>(rt: Runtime<OuterVerifier, C>, r: OutputRef, make: Tx<C>, spend: Tx<C>)
    requires MakesAndSpends(rt, r, make, spend)
    ensures var ts := [make, spend, make, spend];
            && SpentBy(ts, r) && CreatedBy(rt, ts, r)
            && forall f: nat :: FirstToCreate(rt, ts, r, f) ==> !SpentBy(ts[..f], r)
  {
    var ts := [make, spend, make, spend];
    assert r in Refs(ts[1].inputs) && r in OutRefs(rt, ts[0]);
    forall f: nat | FirstToCreate(rt, ts, r, f) ensures !SpentBy(ts[..f], r) {
      assert f == 0;
    }
  }

  lemma {:induction false} NotMentioned<C>(rt: Runtime<OuterVerifier, C>, r: OutputRef, make: Tx<C>, spend: Tx<C>,
                                           x: OutputRef)
    requires MakesAndSpends(rt, r, make, spend) && x != r
    ensures !SpentBy([make, spend, make, spend], x) && !CreatedBy(rt, [make, spend, make, spend], x)
  {
  }

  /** The marks of the two transactions, under a filter that tracks what is made. */
  lemma {:induction false} PairMarks<C>(rt: Runtime<OuterVerifier, C>, filter: Filter, r: OutputRef, make: Tx<C>,
                                        spend: Tx<C>)
    requires MakesAndSpends(rt, r, make, spend) && r in TrackedOf(filter, Created(rt, make))
    ensures var (m, b) := (MarkOf(rt, filter, make, r), MarkOf(rt, filter, spend, r));
            m.tracked.Some? && m.creates && !m.spends && b == Mark(None, false, true)
  {
    assert r in OutRefs(rt, make) && r in Refs(spend.inputs);
    OutRefsCover(rt, filter, spend);
    assert RefSet(OutRefs(rt, spend)) == {};
  }

  /** Applied one by one, the reference ends up in both tables; unapplied one by one, it is lost. */
  lemma {:induction false} LostApart<C>(rt: Runtime<OuterVerifier, C>, filter: Filter, c: Coins, r: OutputRef,
                                        make: Tx<C>, spend: Tx<C>)
    requires MakesAndSpends(rt, r, make, spend) && r in TrackedOf(filter, Created(rt, make))
    ensures var c1 := Wallet.Apply(rt, filter, c, make);
            var c3 := Wallet.Apply(rt, filter, Wallet.Apply(rt, filter, c1, spend), make);
            var d3 := Unapply(rt, Wallet.Apply(rt, filter, c3, spend), spend);
            var d1 := Unapply(rt, Unapply(rt, d3, make), spend);
            && r in c1.unspent && r !in d1.unspent
            && r in c3.spent && r !in d3.spent
  {
    var m, b := MarkOf(rt, filter, make, r), MarkOf(rt, filter, spend, r);
    PairMarks(rt, filter, r, make, spend);
    var c1 := Wallet.Apply(rt, filter, c, make);
    ApplyAtSlot(rt, filter, c, make, r);
    var c2 := Wallet.Apply(rt, filter, c1, spend);
    ApplyAtSlot(rt, filter, c1, spend, r);
    var c3 := Wallet.Apply(rt, filter, c2, make);
    ApplyAtSlot(rt, filter, c2, make, r);
    var c4 := Wallet.Apply(rt, filter, c3, spend);
    ApplyAtSlot(rt, filter, c3, spend, r);
    var d3 := Unapply(rt, c4, spend);
    UnapplyAtSlot(rt, filter, c4, spend, r);
    var d2 := Unapply(rt, d3, make);
    UnapplyAtSlot(rt, filter, d3, make, r);
    UnapplyAtSlot(rt, filter, d2, spend, r);
    assert SlotOf(c3, r) == Slot(m.tracked, m.tracked) && SlotOf(c4, r) == Slot(None, m.tracked);
    assert SlotOf(d3, r) == Slot(m.tracked, None) && SlotOf(d2, r) == Slot(None, None);
  }

  // ----- Blocks of one transaction each

  lemma {:induction false} OneTransaction<C>(rt: Runtime<OuterVerifier, C>, filter: Filter, c: Coins, t: Tx<C>)
    ensures ApplyAll(rt, filter, c, [t]) == Wallet.Apply(rt, filter, c, t)
    ensures UnapplyAll(rt, c, [t]) == Unapply(rt, c, t)
  {
    assert [t][..0] == [];
    assert ApplyAll(rt, filter, c, [t][..0]) == c;
    assert UnapplyAll(rt, Unapply(rt, c, t), [t][..0]) == Unapply(rt, c, t);
  }

  /** A chain that the wallet can follow, in which a hash identifies its block. */
  ghost predicate Replayable<C>(rt: Runtime<OuterVerifier, C>, filter: Filter, chain: Chain<C>) {
    Followable(rt, filter, chain) && SameHashSameBlock(chain, chain)
  }

  /** A chain with a block of a single transaction on top. */
  ghost predicate Grows<C>(p: Chain<C>, q: Chain<C>, t: Tx<C>) {
    |q| == |p| + 1 && q[..|p|] == p && q[|p|].block.extrinsics == [t]
  }

  lemma ReplayableBelow<C>(rt: Runtime<OuterVerifier, C>, filter: Filter, p: Chain<C>, q: Chain<C>, t: Tx<C>)
    requires Replayable(rt, filter, q) && Grows(p, q, t)
    ensures Replayable(rt, filter, p)
  {
    FollowablePrefix(rt, filter, q, |p|);
  }

  /** The block is applied on top. */
  lemma {:induction false} GrownCoins<C(!new)>(rt: Runtime<OuterVerifier, C>, filter: Filter,
                                               p: Chain<C>, q: Chain<C>, t: Tx<C>)
    requires LawfulCodecs(rt.codecs) && Replayable(rt, filter, p) && Replayable(rt, filter, q) && Grows(p, q, t)
    ensures Replay(rt, filter, q).coins == Wallet.Apply(rt, filter, Replay(rt, filter, p).coins, t)
  {
    OneTransaction(rt, filter, Replay(rt, filter, p).coins, t);
    ReplayStep(rt, filter, q);
  }

  /** The block is unapplied, whatever the coins are. */
  lemma {:induction false} ShrunkTables<C(!new)>(rt: Runtime<OuterVerifier, C>, filter: Filter,
                                                 p: Chain<C>, q: Chain<C>, t: Tx<C>, c: Coins)
    requires LawfulCodecs(rt.codecs) && Replayable(rt, filter, p) && Replayable(rt, filter, q) && Grows(p, q, t)
    ensures UnapplyHighestBlock(rt, Replay(rt, filter, q).(coins := c)) ==
            (Replay(rt, filter, p).(coins := Unapply(rt, c, t)), true)
  {
    OneTransaction(rt, filter, c, t);
    UnapplyBest(rt, filter, q, c);
  }

  /** A chain grows by four blocks of one transaction each, in which a coin is minted and burned twice. */
  ghost predicate GrowsByFour<C>(g: seq<Chain<C>>, make: Tx<C>, spend: Tx<C>) {
    && |g| == 5
    && Grows(g[0], g[1], make) && Grows(g[1], g[2], spend)
    && Grows(g[2], g[3], make) && Grows(g[3], g[4], spend)
  }

  lemma ReplayableThroughout<C>(rt: Runtime<OuterVerifier, C>, filter: Filter, g: seq<Chain<C>>, make: Tx<C>,
                                spend: Tx<C>)
    requires GrowsByFour(g, make, spend) && Replayable(rt, filter, g[4])
    ensures Replayable(rt, filter, g[0]) && Replayable(rt, filter, g[1])
    ensures Replayable(rt, filter, g[2]) && Replayable(rt, filter, g[3])
  {
    ReplayableBelow(rt, filter, g[3], g[4], spend);
    ReplayableBelow(rt, filter, g[2], g[3], make);
    ReplayableBelow(rt, filter, g[1], g[2], spend);
    ReplayableBelow(rt, filter, g[0], g[1], make);
  }

  /** The coins of the four blocks, on top of those of the base. */
  lemma {:induction false} CoinsOfFour<C(!new)>(rt: Runtime<OuterVerifier, C>, filter: Filter, g: seq<Chain<C>>,
                                                make: Tx<C>, spend: Tx<C>)
    requires LawfulCodecs(rt.codecs) && GrowsByFour(g, make, spend) && Replayable(rt, filter, g[4])
    requires Replayable(rt, filter, g[0]) && Replayable(rt, filter, g[1])
    requires Replayable(rt, filter, g[2]) && Replayable(rt, filter, g[3])
    ensures var c1 := Wallet.Apply(rt, filter, Replay(rt, filter, g[0]).coins, make);
            var c3 := Wallet.Apply(rt, filter, Wallet.Apply(rt, filter, c1, spend), make);
            && Replay(rt, filter, g[1]).coins == c1
            && Replay(rt, filter, g[3]).coins == c3
            && Replay(rt, filter, g[4]).coins == Wallet.Apply(rt, filter, c3, spend)
  {
    GrownCoins(rt, filter, g[0], g[1], make);
    GrownCoins(rt, filter, g[1], g[2], spend);
    GrownCoins(rt, filter, g[2], g[3], make);
    GrownCoins(rt, filter, g[3], g[4], spend);
  }

  /** Unapplies the highest block three times. */
  function UnapplyThree<C>(rt: Runtime<OuterVerifier, C>, db: Tables): (Tables, bool) {
    var (db1, ok1) := UnapplyHighestBlock(rt, db);
    var (db2, ok2) := UnapplyHighestBlock(rt, db1);
    var (db3, ok3) := UnapplyHighestBlock(rt, db2);
    (db3, ok1 && ok2 && ok3)
  }

  /** Unapplying the last three of the four blocks. */
  lemma {:induction false} ThreeBack<C(!new)>(rt: Runtime<OuterVerifier, C>, filter: Filter, g: seq<Chain<C>>,
                                              make: Tx<C>, spend: Tx<C>)
    requires LawfulCodecs(rt.codecs) && GrowsByFour(g, make, spend) && Replayable(rt, filter, g[4])
    requires Replayable(rt, filter, g[1]) && Replayable(rt, filter, g[2]) && Replayable(rt, filter, g[3])
    ensures var top := Replay(rt, filter, g[4]);
            var d3 := Unapply(rt, top.coins, spend);
            var d1 := Unapply(rt, Unapply(rt, d3, make), spend);
            UnapplyThree(rt, top) == (Replay(rt, filter, g[1]).(coins := d1), true)
  {
    var top := Replay(rt, filter, g[4]);
    var d3 := Unapply(rt, top.coins, spend);
    assert top.(coins := top.coins) == top;
    ShrunkTables(rt, filter, g[3], g[4], spend, top.coins);
    ShrunkTables(rt, filter, g[2], g[3], make, d3);
    ShrunkTables(rt, filter, g[1], g[2], spend, Unapply(rt, d3, make));
  }

  /**
   A wallet loses a coin. On any chain that ends with four blocks of one transaction each, minting
   and burning a tracked coin twice, unapplying the last three blocks succeeds and restores the
   tables of blocks, but the coin that the first of the four minted is then missing.
   */
  lemma {:induction false} LosesACoin<C(!new)>(rt: Runtime<OuterVerifier, C>, filter: Filter, g: seq<Chain<C>>,
                                               r: OutputRef, make: Tx<C>, spend: Tx<C>)
    requires LawfulCodecs(rt.codecs) && GrowsByFour(g, make, spend) && Replayable(rt, filter, g[4])
    requires MakesAndSpends(rt, r, make, spend) && r in TrackedOf(filter, Created(rt, make))
    ensures Replayable(rt, filter, g[1])
    ensures var below := Replay(rt, filter, g[1]);
            var (db, ok) := UnapplyThree(rt, Replay(rt, filter, g[4]));
            && ok && db.blockHashes == below.blockHashes && db.blocks == below.blocks
            && r in below.coins.unspent && r !in db.coins.unspent
  {
    ReplayableThroughout(rt, filter, g, make, spend);
    CoinsOfFour(rt, filter, g, make, spend);
    ThreeBack(rt, filter, g, make, spend);
    LostApart(rt, filter, Replay(rt, filter, g[0]).coins, r, make, spend);
  }

  /** Already the last of the four blocks cannot be undone. */
  lemma {:induction false} CannotRollBack<C(!new)>(rt: Runtime<OuterVerifier, C>, filter: Filter, g: seq<Chain<C>>,
                                                   r: OutputRef, make: Tx<C>, spend: Tx<C>)
    requires LawfulCodecs(rt.codecs) && GrowsByFour(g, make, spend) && Replayable(rt, filter, g[4])
    requires MakesAndSpends(rt, r, make, spend) && r in TrackedOf(filter, Created(rt, make))
    ensures Replayable(rt, filter, g[3])
    ensures UnapplyHighestBlock(rt, Replay(rt, filter, g[4])) != (Replay(rt, filter, g[3]), true)
  {
    ReplayableThroughout(rt, filter, g, make, spend);
    CoinsOfFour(rt, filter, g, make, spend);
    LostApart(rt, filter, Replay(rt, filter, g[0]).coins, r, make, spend);
    var top := Replay(rt, filter, g[4]);
    ShrunkTables(rt, filter, g[3], g[4], spend, top.coins);
    assert top.(coins := top.coins) == top;
    assert r in Replay(rt, filter, g[3]).coins.spent && r !in Unapply(rt, top.coins, spend).spent;
  }

  /** So it goes with every tracked coin, on every chain whose last four blocks mint and burn it twice. */
  lemma {:induction false} MintedCoinIsLost(rt: Runtime<OuterVerifier, Checker>, filter: Filter, g: seq<Chain<Checker>>,
                                            owner: H256, value: U128, redeemer: Vec<Byte>, minting: Checker,
                                            spending: Checker)
    requires LawfulCodecs(rt.codecs) && filter(Sr25519Signature(owner))
    requires var mint := MintFor(owner, value, minting);
             GrowsByFour(g, mint, Burn(OutRef(rt, mint, 0), redeemer, spending)) && Replayable(rt, filter, g[4])
    ensures Replayable(rt, filter, g[1])
    ensures var r := OutRef(rt, MintFor(owner, value, minting), 0);
            && r in Replay(rt, filter, g[1]).coins.unspent
            && r !in UnapplyThree(rt, Replay(rt, filter, g[4])).0.coins.unspent
  {
    var mint := MintFor(owner, value, minting);
    var r := OutRef(rt, mint, 0);
    CoinPair(rt, owner, value, redeemer, minting, spending);
    CoinIsTracked(rt, filter, owner, value, minting);
    LosesACoin(rt, filter, g, r, mint, Burn(r, redeemer, spending));
  }
}
