/**
 The wardrobe's pieces behind one checker type, as the aggregation macro puts them
 (`tuxedo-core/aggregator/src/lib.rs`, `tuxedo-template-runtime/src/lib.rs`).

 A checker value is a path through nested aggregates to a leaf. On chain only the leaf matters,
 so what is proved here holds for any way of aggregating the pieces.
 */
module Wardrobe {
  import opened Scale
  import opened Types
  import opened Typing
  import opened UtxoSet
  import opened Ledger
  import opened Refinement
  import Money
  import Kitties
  import Amoeba
  import Poe
  import Timestamps
  import Parachain

  datatype Call =
    | MoneyCall(money: Money.MoneyCall)
    | FreeKitty
    | AmoebaCall(amoeba: Amoeba.AmoebaCall)
    | PoeCall(poe: Poe.PoeCall)
    | TimestampCall(timestamp: Timestamps.TimestampCall)
    | SetParachainInfo
    | RuntimeUpgrade(fullWasm: Vec<Byte>)

  /** A leaf checker, plain or behind the inherent adapter, inside any number of aggregates. */
  datatype Checker = Plain(call: Call) | Adapted(call: Call) | Variant(index: nat, inner: Checker)

  function Leaf(c: Checker): Call {
    match c
    case Plain(call) => call
    case Adapted(call) => call
    case Variant(_, inner) => Leaf(inner)
  }

  predicate IsInherent(c: Checker) {
    match c
    case Plain(_) => false
    case Adapted(_) => true
    case Variant(_, inner) => IsInherent(inner)
  }

  /** Hashes and library decoders that the pieces call. */
  datatype Host = Host(dna: Kitties.DnaHash, blake2: Bytes -> H256, info: Parachain.InfoDecoder)

  const CODE_KEY: Bytes := [58, 99, 111, 100, 101]

  // ----- The runtime upgrade piece (wardrobe/runtime_upgrade/src/lib.rs)

  function ExtractRuntimeRef(d: DynamicallyTypedData): Option<H256> {
    if d.typeId == RUNTIME_ID && |d.data| >= 32 then Some(d.data[..32]) else None
  }

  predicate UpgradePasses(host: Host, wasm: Bytes, ambient: Storage, a: CheckArgs) {
    && a.evicted == [] && |a.inputs| == 1 && |a.outputs| == 1
    && ExtractRuntimeRef(a.inputs[0]).Some? && ExtractRuntimeRef(a.outputs[0]).Some?
    && CODE_KEY in ambient && ExtractRuntimeRef(a.inputs[0]).value == host.blake2(ambient[CODE_KEY])
    && ExtractRuntimeRef(a.outputs[0]).value == host.blake2(wasm)
  }

  // ----- Dispatch

  predicate Passes(host: Host, call: Call, height: Option<U32>, ambient: Storage, a: CheckArgs) {
    match call
    case MoneyCall(m) => Money.Check(m, a).Pass?
    case FreeKitty => Kitties.Check(host.dna, a).Pass?
    case AmoebaCall(m) => Amoeba.Check(m, a).Pass?
    case PoeCall(p) => Poe.Check(p, height, a).Pass?
    case TimestampCall(t) => Timestamps.Check(t, height, a).Pass?
    case SetParachainInfo => Parachain.Check(host.info, a).Pass?
    case RuntimeUpgrade(wasm) => UpgradePasses(host, wasm, ambient, a)
  }

  function Writes(host: Host, call: Call, height: Option<U32>, ambient: Storage, a: CheckArgs): Storage {
    match call
    case SetParachainInfo => Parachain.Writes(host.info, a)
    case RuntimeUpgrade(wasm) => if UpgradePasses(host, wasm, ambient, a) then map[CODE_KEY := wasm] else map[]
    case _ => map[]
  }

  ghost predicate Dressed<V(!new)>(rt: Runtime<V, Checker>, host: Host, c: Checker, h: Option<U32>, amb: Storage,
                                   a: CheckArgs) {
    && rt.check(c, h, amb, a) == CheckOutcome(Passes(host, Leaf(c), h, amb, a), Writes(host, Leaf(c), h, amb, a))
    && rt.isInherent(c) == IsInherent(c)
  }

  /** `rt` runs the wardrobe's pieces, aggregated in whatever way. */
  ghost predicate Dresses<V(!new)>(rt: Runtime<V, Checker>, host: Host) {
    forall c: Checker, h: Option<U32>, amb: Storage, a: CheckArgs :: Dressed(rt, host, c, h, amb, a)
  }

  /** Any runtime with the wardrobe's dispatch in place of its checkers. */
  function Dress<V>(rt: Runtime<V, Checker>, host: Host): Runtime<V, Checker> {
    rt.(check := (c: Checker, h: Option<U32>, amb: Storage, a: CheckArgs) =>
          CheckOutcome(Passes(host, Leaf(c), h, amb, a), Writes(host, Leaf(c), h, amb, a)),
        isInherent := (c: Checker) => IsInherent(c))
  }

  /** Such runtimes exist over any lawful codecs, so the theorems about them are about something. */
  lemma DressFits<V(!new)>(rt: Runtime<V, Checker>, host: Host)
    requires LawfulCodecs(rt.codecs)
    ensures Dresses(Dress(rt, host), host) && Sound(Dress(rt, host))
  {
    assert Dresses(Dress(rt, host), host);
    WardrobeConfined(Dress(rt, host), host);
  }

  lemma {:induction false} InherentLeaf<V(!new)>(rt: Runtime<V, Checker>, host: Host, c: Checker)
    requires Dresses(rt, host)
    ensures rt.isInherent(c) == IsInherent(c)
  {
    assert Dressed(rt, host, c, None, map[], CheckArgs([], [], [], []));
  }

  /** The wardrobe's checkers set no storage that belongs to the executive. */
  lemma WardrobeConfined<V(!new)>(rt: Runtime<V, Checker>, host: Host)
    requires Dresses(rt, host)
    ensures Confined(rt)
  {
    assert |Parachain.RELAY_PARENT_NUMBER_KEY| == 19 && |CODE_KEY| == 5;
    forall c: Checker, h: Option<U32>, amb: Storage, a: CheckArgs, k: Bytes
      | k in rt.check(c, h, amb, a).writes
      ensures !Reserved(k)
    {
      assert Dressed(rt, host, c, h, amb, a);
      assert k in Writes(host, Leaf(c), h, amb, a);
      assert k == Parachain.RELAY_PARENT_NUMBER_KEY || k == CODE_KEY;
    }
  }

  // ----- Every piece keeps to its own type

  function OwnType(call: Call): TypeId {
    match call
    case MoneyCall(_) => COIN_ID
    case FreeKitty => KITTY_ID
    case AmoebaCall(_) => AMOEBA_ID
    case PoeCall(_) => CLAIM_ID
    case TimestampCall(_) => TIMESTAMP_ID
    case SetParachainInfo => PARACHAIN_ID
    case RuntimeUpgrade(_) => RUNTIME_ID
  }

  lemma TypesDiffer()
    ensures COIN_ID != KITTY_ID && COIN_ID != AMOEBA_ID && COIN_ID != CLAIM_ID && COIN_ID != TIMESTAMP_ID
    ensures COIN_ID != PARACHAIN_ID && COIN_ID != RUNTIME_ID
    ensures KITTY_ID != AMOEBA_ID && KITTY_ID != CLAIM_ID && KITTY_ID != TIMESTAMP_ID
    ensures KITTY_ID != PARACHAIN_ID && KITTY_ID != RUNTIME_ID
    ensures AMOEBA_ID != CLAIM_ID && AMOEBA_ID != TIMESTAMP_ID && AMOEBA_ID != PARACHAIN_ID && AMOEBA_ID != RUNTIME_ID
    ensures CLAIM_ID != TIMESTAMP_ID && CLAIM_ID != PARACHAIN_ID && CLAIM_ID != RUNTIME_ID
    ensures TIMESTAMP_ID != PARACHAIN_ID && TIMESTAMP_ID != RUNTIME_ID && PARACHAIN_ID != RUNTIME_ID
  {
    assert COIN_ID[0] == 99 && KITTY_ID[0] == 75 && AMOEBA_ID[0] == 97 && TIMESTAMP_ID[0] == 116;
    assert RUNTIME_ID[0] == 117 && CLAIM_ID[0] == PARACHAIN_ID[0] == 112;
    assert CLAIM_ID[1] == 111 && PARACHAIN_ID[1] == 97;
  }

  /** The type of what a call handles tells which piece it belongs to. */
  lemma TypeTellsPiece(call: Call)
    ensures OwnType(call) == COIN_ID <==> call.MoneyCall?
    ensures OwnType(call) == KITTY_ID <==> call.FreeKitty?
    ensures OwnType(call) == AMOEBA_ID <==> call.AmoebaCall?
    ensures OwnType(call) == CLAIM_ID <==> call.PoeCall?
    ensures OwnType(call) == TIMESTAMP_ID <==> call.TimestampCall?
    ensures OwnType(call) == PARACHAIN_ID <==> call.SetParachainInfo?
  {
    TypesDiffer();
  }

  predicate Only(id: TypeId, s: seq<DynamicallyTypedData>) {
    forall i :: 0 <= i < |s| ==> s[i].typeId == id
  }

  lemma CleanUpKeepsToTimestamps(height: Option<U32>, a: CheckArgs)
    requires Timestamps.CheckCleanUp(height, a).Pass?
    ensures a.inputs == [] && a.outputs == [] && Only(TIMESTAMP_ID, a.evicted)
  {
    var reference := Timestamps.ExtractTimestamp(a.peeks[0]).value;
    Timestamps.CleanUpMeaning(height, reference, a.evicted);
  }

  lemma MoneyKeepsToCoins(call: Money.MoneyCall, a: CheckArgs)
    requires Money.Check(call, a).Pass?
    ensures Only(COIN_ID, a.inputs) && Only(COIN_ID, a.evicted) && Only(COIN_ID, a.outputs)
  {
    Money.SpendMeaning(a);
    Money.MintPasses(a);
  }

  lemma BreedingKeepsToKitties(hash: Kitties.DnaHash, a: CheckArgs)
    requires Kitties.Check(hash, a).Pass?
    ensures Only(KITTY_ID, a.inputs) && Only(KITTY_ID, a.evicted) && Only(KITTY_ID, a.outputs)
  {
    Kitties.BreedingMeaning(hash, a);
  }

  lemma AmoebasKeepToAmoebas(call: Amoeba.AmoebaCall, a: CheckArgs)
    requires Amoeba.Check(call, a).Pass?
    ensures Only(AMOEBA_ID, a.inputs) && Only(AMOEBA_ID, a.evicted) && Only(AMOEBA_ID, a.outputs)
  {
  }

  lemma PoeKeepsToClaims(call: Poe.PoeCall, height: Option<U32>, a: CheckArgs)
    requires Poe.Check(call, height, a).Pass?
    ensures Only(CLAIM_ID, a.inputs) && Only(CLAIM_ID, a.evicted) && Only(CLAIM_ID, a.outputs)
  {
    Poe.PoeMeaning(call, height, a);
  }

  /** What a passing check consumes and creates is of its piece's own type. */
  lemma KeepsToOwnType(host: Host, call: Call, height: Option<U32>, ambient: Storage, a: CheckArgs)
    requires Passes(host, call, height, ambient, a)
    ensures var id := OwnType(call); Only(id, a.inputs) && Only(id, a.evicted) && Only(id, a.outputs)
  {
    match call
    case MoneyCall(m) => MoneyKeepsToCoins(m, a);
    case FreeKitty => BreedingKeepsToKitties(host.dna, a);
    case AmoebaCall(m) => AmoebasKeepToAmoebas(m, a);
    case PoeCall(p) => PoeKeepsToClaims(p, height, a);
    case TimestampCall(t) => if t.CleanUp? { CleanUpKeepsToTimestamps(height, a); }
    case SetParachainInfo =>
    case RuntimeUpgrade(_) =>
  }

  lemma {:induction false} ConsumedPayload<V>(u: Utxos<V>, s: seq<Input>, k: nat)
    requires k < |s| && forall i :: 0 <= i < |s| ==> s[i].outputRef in u
    ensures var d := u[s[k].outputRef].payload;
            if s[k].redeemer.Redemption? then d in Redeemed(u, s) else d in Evicted(u, s)
  {
    if k < |s| - 1 {
      ConsumedPayload(u, s[..|s| - 1], k);
    }
  }

  // What acceptance says of each piece's own check.

  lemma LeafPasses<V(!new)>(rt: Runtime<V, Checker>, host: Host, st: State<V>, t: Transaction<V, Checker>)
    requires Dresses(rt, host) && Accepted(rt, st, t)
    ensures Passes(host, Leaf(t.checker), st.height, st.ambient, Args(st.utxos, t))
    ensures rt.check(t.checker, st.height, st.ambient, Args(st.utxos, t)).writes ==
            Writes(host, Leaf(t.checker), st.height, st.ambient, Args(st.utxos, t))
  {
    assert Dressed(rt, host, t.checker, st.height, st.ambient, Args(st.utxos, t));
  }

  /** What an accepted transaction adds to the ambient storage. */
  lemma AppliedAmbient<V(!new)>(rt: Runtime<V, Checker>, host: Host, st: State<V>, t: Transaction<V, Checker>)
    requires Dresses(rt, host) && Accepted(rt, st, t)
    ensures Apply(rt, st, t).0.ambient ==
            st.ambient + Writes(host, Leaf(t.checker), st.height, st.ambient, Args(st.utxos, t))
  {
    AcceptedIff(rt, st, t);
    LeafPasses(rt, host, st, t);
  }

  lemma MoneyPasses<V(!new)>(rt: Runtime<V, Checker>, host: Host, st: State<V>, t: Transaction<V, Checker>)
    requires Dresses(rt, host) && Accepted(rt, st, t) && Leaf(t.checker).MoneyCall?
    ensures Money.Check(Leaf(t.checker).money, Args(st.utxos, t)).Pass?
  {
    LeafPasses(rt, host, st, t);
  }

  lemma KittyPasses<V(!new)>(rt: Runtime<V, Checker>, host: Host, st: State<V>, t: Transaction<V, Checker>)
    requires Dresses(rt, host) && Accepted(rt, st, t) && Leaf(t.checker).FreeKitty?
    ensures Kitties.Check(host.dna, Args(st.utxos, t)).Pass?
  {
    LeafPasses(rt, host, st, t);
  }

  lemma AmoebaPasses<V(!new)>(rt: Runtime<V, Checker>, host: Host, st: State<V>, t: Transaction<V, Checker>)
    requires Dresses(rt, host) && Accepted(rt, st, t) && Leaf(t.checker).AmoebaCall?
    ensures Amoeba.Check(Leaf(t.checker).amoeba, Args(st.utxos, t)).Pass?
  {
    LeafPasses(rt, host, st, t);
  }

  lemma PoePasses<V(!new)>(rt: Runtime<V, Checker>, host: Host, st: State<V>, t: Transaction<V, Checker>)
    requires Dresses(rt, host) && Accepted(rt, st, t) && Leaf(t.checker).PoeCall?
    ensures Poe.Check(Leaf(t.checker).poe, st.height, Args(st.utxos, t)).Pass?
  {
    LeafPasses(rt, host, st, t);
  }

  lemma TimestampPasses<V(!new)>(rt: Runtime<V, Checker>, host: Host, st: State<V>, t: Transaction<V, Checker>)
    requires Dresses(rt, host) && Accepted(rt, st, t) && Leaf(t.checker).TimestampCall?
    ensures Timestamps.Check(Leaf(t.checker).timestamp, st.height, Args(st.utxos, t)).Pass?
  {
    LeafPasses(rt, host, st, t);
  }

  lemma ParachainPasses<V(!new)>(rt: Runtime<V, Checker>, host: Host, st: State<V>, t: Transaction<V, Checker>)
    requires Dresses(rt, host) && Accepted(rt, st, t) && Leaf(t.checker).SetParachainInfo?
    ensures Parachain.Check(host.info, Args(st.utxos, t)).Pass?
  {
    LeafPasses(rt, host, st, t);
  }

  /** Everything an accepted transaction consumes or creates has the type of its piece. */
  lemma AcceptedKeepsToOwnType<V(!new)>(rt: Runtime<V, Checker>, host: Host, st: State<V>, t: Transaction<V, Checker>)
    requires Dresses(rt, host) && Accepted(rt, st, t)
    ensures forall k :: 0 <= k < |t.inputs| ==>
              t.inputs[k].outputRef in st.utxos &&
              st.utxos[t.inputs[k].outputRef].payload.typeId == OwnType(Leaf(t.checker))
    ensures forall k :: 0 <= k < |t.outputs| ==> t.outputs[k].payload.typeId == OwnType(Leaf(t.checker))
  {
    var call, a := Leaf(t.checker), Args(st.utxos, t);
    LeafPasses(rt, host, st, t);
    KeepsToOwnType(host, call, st.height, st.ambient, a);
    forall k | 0 <= k < |t.inputs| ensures t.inputs[k].outputRef in st.utxos {
      assert Spendable(rt, st, t, t.inputs[k]);
    }
    forall k | 0 <= k < |t.inputs| ensures st.utxos[t.inputs[k].outputRef].payload.typeId == OwnType(call) {
      ConsumedPayload(st.utxos, t.inputs, k);
    }
    forall k | 0 <= k < |t.outputs| ensures t.outputs[k].payload.typeId == OwnType(call) {
      assert a.outputs[k] == t.outputs[k].payload;
    }
  }
}
