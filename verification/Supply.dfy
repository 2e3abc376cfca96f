/** The money supply over whole runs. */
module Supply {
  import opened Scale
  import opened Types
  import opened Typing
  import opened UtxoSet
  import opened Ledger
  import opened Sums
  import opened Wardrobe
  import opened Conservation
  import Money

  function Worth<V>(): Output<V> -> int {
    (o: Output<V>) => Money.Worth(o.payload)
  }

  /** The value of all coins in the UTXO set. */
  ghost function SupplyOf<V>(u: Utxos<V>): int {
    Total(u, Worth())
  }

  lemma {:induction false} ValueOfOutputs<V>(s: seq<Output<V>>)
    ensures SumSeq(s, Worth()) == Money.Value(Payloads(s))
  {
    if s == [] {
    } else {
      ValueOfOutputs(s[..|s| - 1]);
      assert Payloads(s)[..|s| - 1] == Payloads(s[..|s| - 1]);
    }
  }

  lemma {:induction false} ValueOfInputs<V>(u: Utxos<V>, s: seq<Input>)
    requires forall k :: 0 <= k < |s| ==> s[k].outputRef in u
    requires Evicted(u, s) == []
    ensures SumInputs(u, s, Worth()) == Money.Value(Redeemed(u, s))
  {
    if s == [] {
    } else {
      var p := s[..|s| - 1];
      assert Evicted(u, p) == [];
      ValueOfInputs(u, p);
      if s[|s| - 1].redeemer.Redemption? {
        var d := u[s[|s| - 1].outputRef].payload;
        assert Redeemed(u, s) == Redeemed(u, p) + [d];
        assert Redeemed(u, s)[..|Redeemed(u, s)| - 1] == Redeemed(u, p);
      }
    }
  }

  function Minted<V>(t: Transaction<V, Checker>): int {
    if Leaf(t.checker) == MoneyCall(Money.Mint) then Money.Value(Payloads(t.outputs)) else 0
  }

  /** What a spend declares as burned: the surplus its priority is computed from. */
  function Burned<V>(u: Utxos<V>, t: Transaction<V, Checker>): int {
    if Leaf(t.checker) == MoneyCall(Money.Spend)
    then Money.Value(Redeemed(u, t.inputs)) - Money.Value(Payloads(t.outputs)) else 0
  }

  /** The worth of inputs that name a coin already named by an earlier input. */
  function DoubleCounted<V>(u: Utxos<V>, t: Transaction<V, Checker>): int {
    if forall k :: 0 <= k < |t.inputs| ==> t.inputs[k].outputRef in u
    then SumRepeats(u, t.inputs, Worth()) else 0
  }

  /** Both sides of a transaction, in terms of what it mints and burns. */
  lemma Sides<V(!new)>(rt: Runtime<V, Checker>, host: Host, st: State<V>, t: Transaction<V, Checker>)
    requires Dresses(rt, host) && Accepted(rt, st, t)
    ensures forall k :: 0 <= k < |t.inputs| ==> t.inputs[k].outputRef in st.utxos
    ensures SumSeq(t.outputs, Worth()) - SumInputs(st.utxos, t.inputs, Worth()) == Minted(t) - Burned(st.utxos, t)
    ensures Minted(t) >= 0 && Burned(st.utxos, t) >= 0
  {
    AcceptedKeepsToOwnType(rt, host, st, t);
    if Leaf(t.checker).MoneyCall? {
      MoneyPasses(rt, host, st, t);
      MoneySides(Leaf(t.checker).money, st.utxos, t);
    } else {
      TypeTellsPiece(Leaf(t.checker));
      SumsVanish(st.utxos, t.inputs, Worth());
      SumSeqVanishes(t.outputs, Worth());
    }
  }

  lemma {:induction false} MoneySides<V>(call: Money.MoneyCall, u: Utxos<V>, t: Transaction<V, Checker>)
    requires Leaf(t.checker) == MoneyCall(call) && Money.Check(call, Args(u, t)).Pass?
    requires forall k :: 0 <= k < |t.inputs| ==> t.inputs[k].outputRef in u
    ensures SumSeq(t.outputs, Worth()) - SumInputs(u, t.inputs, Worth()) == Minted(t) - Burned(u, t)
    ensures Burned(u, t) >= 0
  {
    Money.SpendMeaning(Args(u, t));
    Money.MintPasses(Args(u, t));
    ValueOfInputs(u, t.inputs);
    ValueOfOutputs(t.outputs);
  }

  /** The exact balance of every accepted transaction of every piece. */
  lemma SupplyStep<V(!new)>(rt: Runtime<V, Checker>, host: Host, st: State<V>, t: Transaction<V, Checker>)
    requires Dresses(rt, host) && Accepted(rt, st, t)
    ensures SupplyOf(Apply(rt, st, t).0.utxos) ==
            SupplyOf(st.utxos) + Minted(t) - Burned(st.utxos, t) + DoubleCounted(st.utxos, t)
    ensures Minted(t) >= 0 && Burned(st.utxos, t) >= 0 && DoubleCounted(st.utxos, t) >= 0
  {
    TotalAfter(rt, st, t, Worth());
    Sides(rt, host, st, t);
    RepeatsWorthNothing(st.utxos, t.inputs, Worth());
  }

  /** No coin of value is named twice. */
  ghost predicate NamesCoinsOnce<V>(u: Utxos<V>, t: Transaction<V, Checker>) {
    forall i, j :: 0 <= i < j < |t.inputs| && t.inputs[i].outputRef == t.inputs[j].outputRef ==>
      (t.inputs[i].outputRef in u ==> Money.Worth(u[t.inputs[i].outputRef].payload) == 0)
  }

  /** The books balance exactly for the transactions that name no coin of value twice. */
  lemma BalancedIff<V(!new)>(rt: Runtime<V, Checker>, host: Host, st: State<V>, t: Transaction<V, Checker>)
    requires Dresses(rt, host) && Accepted(rt, st, t)
    ensures SupplyOf(Apply(rt, st, t).0.utxos) == SupplyOf(st.utxos) + Minted(t) - Burned(st.utxos, t) <==>
            NamesCoinsOnce(st.utxos, t)
  {
    SupplyStep(rt, host, st, t);
    AcceptedKeepsToOwnType(rt, host, st, t);
    RepeatsWorthNothing(st.utxos, t.inputs, Worth());
  }

  // ----- Runs

  ghost function MintedOver<V>(rt: Runtime<V, Checker>, st: State<V>, run: seq<Event<V, Checker>>): int
    decreases |run|
  {
    if run == [] then 0
    else (if run[0].Applied? then Minted(run[0].tx) else 0) + MintedOver(rt, Next(rt, st, run[0]), run[1..])
  }

  ghost function BurnedOver<V>(rt: Runtime<V, Checker>, st: State<V>, run: seq<Event<V, Checker>>): int
    decreases |run|
  {
    if run == [] then 0
    else (if run[0].Applied? then Burned(st.utxos, run[0].tx) else 0) + BurnedOver(rt, Next(rt, st, run[0]), run[1..])
  }

  ghost function DoubleCountedOver<V>(rt: Runtime<V, Checker>, st: State<V>, run: seq<Event<V, Checker>>): int
    decreases |run|
  {
    if run == [] then 0
    else
      (if run[0].Applied? then DoubleCounted(st.utxos, run[0].tx) else 0) +
      DoubleCountedOver(rt, Next(rt, st, run[0]), run[1..])
  }

  /** The law of the supply over every run: minted, minus burned, plus what was counted twice. */
  lemma {:induction false} SupplyOverAllRuns<V(!new)>(rt: Runtime<V, Checker>, host: Host, st: State<V>,
                                                      run: seq<Event<V, Checker>>)
    requires Dresses(rt, host) && Run(rt, st, run)
    ensures SupplyOf(Final(rt, st, run).utxos) ==
            SupplyOf(st.utxos) + MintedOver(rt, st, run) - BurnedOver(rt, st, run) + DoubleCountedOver(rt, st, run)
    ensures MintedOver(rt, st, run) >= 0 && BurnedOver(rt, st, run) >= 0 && DoubleCountedOver(rt, st, run) >= 0
    decreases |run|
  {
    if run == [] {
    } else {
      SupplyOverAllRuns(rt, host, Next(rt, st, run[0]), run[1..]);
      if run[0].Applied? {
        SupplyStep(rt, host, st, run[0].tx);
      }
    }
  }

  /** Every transaction of the run refers to each of its inputs once. */
  predicate SingleRefs<V>(run: seq<Event<V, Checker>>) {
    forall i :: 0 <= i < |run| && run[i].Applied? ==> DistinctRefs(run[i].tx.inputs)
  }

  lemma {:induction false} NothingCountedTwice<V>(rt: Runtime<V, Checker>, st: State<V>, run: seq<Event<V, Checker>>)
    requires Run(rt, st, run) && SingleRefs(run)
    ensures DoubleCountedOver(rt, st, run) == 0
    decreases |run|
  {
    if run == [] {
    } else {
      assert SingleRefs(run[1..]) by {
        assert forall i :: 0 <= i < |run| - 1 ==> run[1..][i] == run[i + 1];
      }
      NothingCountedTwice(rt, Next(rt, st, run[0]), run[1..]);
      if run[0].Applied? {
        InputsInUtxos(rt, st, run[0].tx);
        NoRepeats(st.utxos, run[0].tx.inputs, Worth());
      }
    }
  }

  /** With distinct references, the supply is what it was, plus what was minted, minus what was burned. */
  lemma {:induction false} SupplyOverRuns<V(!new)>(rt: Runtime<V, Checker>, host: Host, st: State<V>,
                                                   run: seq<Event<V, Checker>>)
    requires Dresses(rt, host) && Run(rt, st, run) && SingleRefs(run)
    ensures SupplyOf(Final(rt, st, run).utxos) ==
            SupplyOf(st.utxos) + MintedOver(rt, st, run) - BurnedOver(rt, st, run)
    ensures MintedOver(rt, st, run) >= 0 && BurnedOver(rt, st, run) >= 0
  {
    SupplyOverAllRuns(rt, host, st, run);
    NothingCountedTwice(rt, st, run);
  }

  /** Only minting can raise the supply. */
  lemma {:induction false} OnlyMintRaises<V(!new)>(rt: Runtime<V, Checker>, host: Host, st: State<V>,
                                                   run: seq<Event<V, Checker>>)
    requires Dresses(rt, host) && Run(rt, st, run) && SingleRefs(run)
    requires forall i :: 0 <= i < |run| && run[i].Applied? ==> Leaf(run[i].tx.checker) != MoneyCall(Money.Mint)
    ensures SupplyOf(Final(rt, st, run).utxos) <= SupplyOf(st.utxos)
  {
    SupplyOverRuns(rt, host, st, run);
    NothingMinted(rt, st, run);
  }

  lemma {:induction false} NothingMinted<V>(rt: Runtime<V, Checker>, st: State<V>, run: seq<Event<V, Checker>>)
    requires forall i :: 0 <= i < |run| && run[i].Applied? ==> Leaf(run[i].tx.checker) != MoneyCall(Money.Mint)
    ensures MintedOver(rt, st, run) == 0
    decreases |run|
  {
    if run == [] {
    } else {
      assert forall i :: 0 <= i < |run| - 1 ==> run[1..][i] == run[i + 1];
      NothingMinted(rt, Next(rt, st, run[0]), run[1..]);
    }
  }

  // ----- What the duplicate check does not catch

  function Coin(value: U128): DynamicallyTypedData {
    DynamicallyTypedData(LeBytes(value, 16), COIN_ID)
  }

  lemma CoinWorth(value: U128)
    ensures Money.ExtractCoin(Coin(value)) == Some(value)
  {
    Widths();
    LeNatOfLeBytes(value, 16);
    assert Coin(value).data[0..16] == LeBytes(value, 16);
  }

  /** Spends the coin at `r` under two redeemers, creating twice its value. */
  function Twice<V>(r: OutputRef, a: Vec<Byte>, b: Vec<Byte>, value: U128, v: V, path: Checker): Transaction<V, Checker>
    requires 2 * value <= MAX_U128
  {
    Transaction([Input(r, Redemption(a)), Input(r, Redemption(b))], [], [Output(Coin(2 * value), v)], path)
  }

  /**
   Inputs are compared with their redeemers, so one coin redeemed in two ways is counted twice:
   whenever its verifier accepts two different redeemers, the transaction above is accepted and
   the supply grows by the coin's value although nothing is minted.
   */
  lemma {:induction false} CountedTwice<V(!new)>(rt: Runtime<V, Checker>, host: Host, st: State<V>, r: OutputRef,
                              a: Vec<Byte>, b: Vec<Byte>, value: U128, v: V, path: Checker)
    requires Dresses(rt, host) && Leaf(path) == MoneyCall(Money.Spend) && a != b
    requires 0 < value && 2 * value <= MAX_U128
    requires st.height.Some? && r in st.utxos && st.utxos[r] == Output(Coin(value), v)
    requires var t := Twice(r, a, b, value, v, path);
             && OutRef(rt, t, 0) !in st.utxos
             && forall x :: x in [a, b] ==>
                  rt.redeemable(v, x) && rt.verify(v, StrippedBytes(rt, t), st.height.value, x)
    ensures var t := Twice(r, a, b, value, v, path);
            && Accepted(rt, st, t) && Minted(t) == 0 && !NamesCoinsOnce(st.utxos, t)
            && SupplyOf(Apply(rt, st, t).0.utxos) == SupplyOf(st.utxos) + value
  {
    var t := Twice(r, a, b, value, v, path);
    TwiceAccepted(rt, host, st, r, a, b, value, v, path);
    TwiceBalance(st.utxos, r, a, b, value, v, path);
    SupplyStep(rt, host, st, t);
    CoinWorth(value);
    assert t.inputs[0].outputRef == t.inputs[1].outputRef;
  }

  /** What the checker is shown of the transaction, and what it is worth. */
  lemma TwiceArgs<V>(u: Utxos<V>, r: OutputRef, a: Vec<Byte>, b: Vec<Byte>, value: U128, v: V, path: Checker)
    requires 2 * value <= MAX_U128 && r in u && u[r] == Output(Coin(value), v)
    ensures Args(u, Twice(r, a, b, value, v, path)) == CheckArgs([Coin(value), Coin(value)], [], [], [Coin(2 * value)])
    ensures Money.Value([Coin(value), Coin(value)]) == Money.Value([Coin(2 * value)]) == 2 * value
  {
    RedeemedTwice(u, r, a, b);
    ValuesOfTwice(Coin(value), Coin(2 * value));
    CoinWorth(value);
    CoinWorth(2 * value);
    assert Payloads([Output(Coin(2 * value), v)]) == [Coin(2 * value)];
  }

  lemma {:induction false} RedeemedTwice<V>(u: Utxos<V>, r: OutputRef, a: Vec<Byte>, b: Vec<Byte>)
    requires r in u
    ensures var s := [Input(r, Redemption(a)), Input(r, Redemption(b))];
            Redeemed(u, s) == [u[r].payload, u[r].payload] && Evicted(u, s) == []
  {
    var x, y := Input(r, Redemption(a)), Input(r, Redemption(b));
    assert [x, y][..1] == [x] && [x][..0] == [];
    assert Redeemed(u, [x]) == [u[r].payload] && Evicted(u, [x]) == [];
  }

  lemma ValuesOfTwice(c: DynamicallyTypedData, d: DynamicallyTypedData)
    ensures Money.Value([c, c]) == 2 * Money.Worth(c) && Money.Value([d]) == Money.Worth(d)
  {
    assert [c, c][..1] == [c] && [c][..0] == [] && [d][..0] == [];
    assert Money.Value([c]) == Money.Worth(c);
  }

  lemma {:induction false} TwiceBalance<V>(u: Utxos<V>, r: OutputRef, a: Vec<Byte>, b: Vec<Byte>, value: U128, v: V,
                                           path: Checker)
    requires Leaf(path) == MoneyCall(Money.Spend) && 2 * value <= MAX_U128 && r in u && u[r] == Output(Coin(value), v)
    ensures var t := Twice(r, a, b, value, v, path); Burned(u, t) == 0 && DoubleCounted(u, t) == value
  {
    var t := Twice(r, a, b, value, v, path);
    TwiceArgs(u, r, a, b, value, v, path);
    CoinWorth(value);
    var x := t.inputs[0];
    assert t.inputs[..1] == [x] && [x][..0] == [];
    assert x in [x];
    assert SumRepeats(u, [x], Worth()) == 0;
  }

  lemma {:induction false} TwicePasses<V(!new)>(rt: Runtime<V, Checker>, host: Host, st: State<V>, r: OutputRef,
                             a: Vec<Byte>, b: Vec<Byte>, value: U128, v: V, path: Checker)
    requires Dresses(rt, host) && Leaf(path) == MoneyCall(Money.Spend)
    requires 0 < value && 2 * value <= MAX_U128 && r in st.utxos && st.utxos[r] == Output(Coin(value), v)
    ensures rt.check(path, st.height, st.ambient, Args(st.utxos, Twice(r, a, b, value, v, path))).passed
  {
    var args := Args(st.utxos, Twice(r, a, b, value, v, path));
    CoinWorth(value);
    CoinWorth(2 * value);
    TwiceArgs(st.utxos, r, a, b, value, v, path);
    Money.SpendMeaning(args);
    assert Dressed(rt, host, path, st.height, st.ambient, args);
  }

  lemma {:induction false} TwiceAccepted<V(!new)>(rt: Runtime<V, Checker>, host: Host, st: State<V>, r: OutputRef,
                               a: Vec<Byte>, b: Vec<Byte>, value: U128, v: V, path: Checker)
    requires Dresses(rt, host) && Leaf(path) == MoneyCall(Money.Spend) && a != b
    requires 0 < value && 2 * value <= MAX_U128
    requires st.height.Some? && r in st.utxos && st.utxos[r] == Output(Coin(value), v)
    requires var t := Twice(r, a, b, value, v, path);
             && OutRef(rt, t, 0) !in st.utxos
             && forall x :: x in [a, b] ==>
                  rt.redeemable(v, x) && rt.verify(v, StrippedBytes(rt, t), st.height.value, x)
    ensures Accepted(rt, st, Twice(r, a, b, value, v, path))
  {
    var t := Twice(r, a, b, value, v, path);
    assert a in [a, b] && b in [a, b];
    assert Spendable(rt, st, t, t.inputs[0]) && Spendable(rt, st, t, t.inputs[1]);
    TwicePasses(rt, host, st, r, a, b, value, v, path);
    assert OutRef(rt, t, 0) !in st.utxos;
  }
}
