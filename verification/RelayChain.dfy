/**
 The parachain runtime over whole runs: one parachain info, an ever growing relay parent number,
 and the watermark that `validate_block` reports (`tuxedo-parachain-core/src/validate_block.rs`).
 */
module RelayChain {
  import opened Scale
  import opened Types
  import opened Typing
  import opened UtxoSet
  import opened Ledger
  import opened Sums
  import opened Wardrobe
  import opened Conservation
  import opened Refinement
  import opened Blocks
  import opened Parachain
  import opened Executive
  import Inherents

  predicate Updates<V>(t: Transaction<V, Checker>) {
    Leaf(t.checker) == SetParachainInfo
  }

  /** A utxo of the parachain type, whether or not its data decodes. */
  predicate IsInfo<V>(o: Output<V>) {
    o.payload.typeId == PARACHAIN_ID
  }

  /** `r` holds the only parachain info, and it carries the relay parent number `n`. */
  ghost predicate Sole<V>(host: Host, u: Utxos<V>, r: OutputRef, n: U32) {
    && r in u && ExtractInfo(host.info, u[r].payload).Some?
    && ExtractInfo(host.info, u[r].payload).value.relayParentNumber == n
    && forall s :: s in u && IsInfo(u[s]) ==> s == r
  }

  lemma UpdateShape<V(!new)>(rt: Runtime<V, Checker>, host: Host, st: State<V>, t: Transaction<V, Checker>)
    requires Dresses(rt, host) && Accepted(rt, st, t) && Updates(t)
    ensures |t.inputs| == 1 && |t.outputs| == 1 && t.inputs[0].outputRef in st.utxos
    ensures var o := ExtractInfo(host.info, st.utxos[t.inputs[0].outputRef].payload);
            var n := ExtractInfo(host.info, t.outputs[0].payload);
            && o.Some? && n.Some? && o.value.relayParentNumber < n.value.relayParentNumber
            && Apply(rt, st, t).0.ambient ==
                 st.ambient[RELAY_PARENT_NUMBER_KEY := EncodeU32(n.value.relayParentNumber)]
  {
    InputsInUtxos(rt, st, t);
    ParachainPasses(rt, host, st, t);
    UpdateShapeFromCheck(host, st.utxos, t);
    UpdateWrites(rt, host, st, t, ExtractInfo(host.info, t.outputs[0].payload).value.relayParentNumber);
  }

  lemma {:induction false} UpdateWrites<V(!new)>(rt: Runtime<V, Checker>, host: Host, st: State<V>,
                                                 t: Transaction<V, Checker>, n: U32)
    requires Dresses(rt, host) && Accepted(rt, st, t) && Updates(t)
    requires Parachain.Writes(host.info, Args(st.utxos, t)) == map[RELAY_PARENT_NUMBER_KEY := EncodeU32(n)]
    ensures Apply(rt, st, t).0.ambient == st.ambient[RELAY_PARENT_NUMBER_KEY := EncodeU32(n)]
  {
    AppliedAmbient(rt, host, st, t);
    PutOne(st.ambient, RELAY_PARENT_NUMBER_KEY, EncodeU32(n));
  }

  lemma PutOne(s: Storage, k: Bytes, x: Bytes)
    ensures s + map[k := x] == s[k := x]
  {
  }

  lemma UpdateShapeFromCheck<V>(host: Host, u: Utxos<V>, t: Transaction<V, Checker>)
    requires Parachain.Check(host.info, Args(u, t)).Pass?
    requires forall k :: 0 <= k < |t.inputs| ==> t.inputs[k].outputRef in u
    ensures |t.inputs| == 1 && |t.outputs| == 1
    ensures var o := ExtractInfo(host.info, u[t.inputs[0].outputRef].payload);
            var n := ExtractInfo(host.info, t.outputs[0].payload);
            && o.Some? && n.Some? && o.value.relayParentNumber < n.value.relayParentNumber
            && Parachain.Writes(host.info, Args(u, t)) ==
               map[RELAY_PARENT_NUMBER_KEY := EncodeU32(n.value.relayParentNumber)]
  {
    var a := Args(u, t);
    EvictedAll(u, t.inputs);
    assert a.outputs[0] == t.outputs[0].payload && a.evicted[0] == u[t.inputs[0].outputRef].payload;
  }

  /** An update moves the info to its own output and raises the number. */
  lemma UpdateStep<V(!new)>(rt: Runtime<V, Checker>, host: Host, st: State<V>, t: Transaction<V, Checker>, r: OutputRef,
                            n: U32)
    returns (r': OutputRef, n': U32)
    requires Dresses(rt, host) && Accepted(rt, st, t) && Updates(t) && Sole(host, st.utxos, r, n)
    ensures |t.outputs| == 1 && r' == OutRef(rt, t, 0)
    ensures ExtractInfo(host.info, t.outputs[0].payload).Some?
    ensures n' == ExtractInfo(host.info, t.outputs[0].payload).value.relayParentNumber
    ensures n' > n && Sole(host, Apply(rt, st, t).0.utxos, r', n')
    ensures RELAY_PARENT_NUMBER_KEY in Apply(rt, st, t).0.ambient
    ensures Apply(rt, st, t).0.ambient[RELAY_PARENT_NUMBER_KEY] == EncodeU32(n')
  {
    UpdateShape(rt, host, st, t);
    AcceptedIff(rt, st, t);
    r', n' := OutRef(rt, t, 0), ExtractInfo(host.info, t.outputs[0].payload).value.relayParentNumber;
    assert t.inputs[0].outputRef == r;
    var u' := Apply(rt, st, t).0.utxos;
    CreatedContents(rt, t, r');
    forall s | s in u' && IsInfo(u'[s]) ensures s == r' {
      AfterContents(rt, st, t, s);
      CreatedContents(rt, t, s);
      ListedBefore(t.inputs, s);
    }
  }

  /** Everything else leaves the info, and the stored number, where they are. */
  lemma OtherStep<V(!new)>(rt: Runtime<V, Checker>, host: Host, st: State<V>, e: Event<V, Checker>, r: OutputRef,
                           n: U32)
    requires Dresses(rt, host) && Enabled(rt, st, e) && Sole(host, st.utxos, r, n)
    requires e.Applied? ==> !Updates(e.tx)
    ensures Sole(host, Next(rt, st, e).utxos, r, n)
    ensures RELAY_PARENT_NUMBER_KEY in st.ambient ==>
              RELAY_PARENT_NUMBER_KEY in Next(rt, st, e).ambient &&
              Next(rt, st, e).ambient[RELAY_PARENT_NUMBER_KEY] == st.ambient[RELAY_PARENT_NUMBER_KEY]
  {
    if e.Applied? {
      var t, u' := e.tx, Next(rt, st, e).utxos;
      TypeTellsPiece(Leaf(t.checker));
      ForeignKeeps(rt, host, st, t, r);
      forall s | s in u' && IsInfo(u'[s]) ensures s == r {
        if s in st.utxos {
          OldStays(rt, st, t, s);
        } else {
          var i := NewIsOwn(rt, host, st, t, s);
        }
      }
      OtherWrites(rt, host, st, t);
    }
  }

  lemma OtherWrites<V(!new)>(rt: Runtime<V, Checker>, host: Host, st: State<V>, t: Transaction<V, Checker>)
    requires Dresses(rt, host) && Accepted(rt, st, t) && !Updates(t)
    ensures RELAY_PARENT_NUMBER_KEY in st.ambient ==>
              RELAY_PARENT_NUMBER_KEY in Apply(rt, st, t).0.ambient &&
              Apply(rt, st, t).0.ambient[RELAY_PARENT_NUMBER_KEY] == st.ambient[RELAY_PARENT_NUMBER_KEY]
  {
    AppliedAmbient(rt, host, st, t);
    assert |CODE_KEY| != |RELAY_PARENT_NUMBER_KEY|;
    assert RELAY_PARENT_NUMBER_KEY !in Wardrobe.Writes(host, Leaf(t.checker), st.height, st.ambient, Args(st.utxos, t));
  }

  // ----- Runs

  /** The relay parent numbers announced by the parachain inherents of a run, in order. */
  function Announced<V>(host: Host, run: seq<Event<V, Checker>>): seq<U32> {
    if run == [] then []
    else AnnouncedBy(host, run[0]) + Announced(host, run[1..])
  }

  function AnnouncedBy<V>(host: Host, e: Event<V, Checker>): seq<U32> {
    if e.Applied? && Updates(e.tx) && |e.tx.outputs| > 0 && ExtractInfo(host.info, e.tx.outputs[0].payload).Some?
    then [ExtractInfo(host.info, e.tx.outputs[0].payload).value.relayParentNumber] else []
  }

  predicate Increasing(n: int, s: seq<U32>)
    decreases |s|
  {
    s == [] || (s[0] > n && Increasing(s[0], s[1..]))
  }

  /** The number stored for the collator. */
  predicate Carries(ambient: Storage, n: U32) {
    RELAY_PARENT_NUMBER_KEY in ambient && ambient[RELAY_PARENT_NUMBER_KEY] == EncodeU32(n)
  }

  /** One event: either it announces a number, which is larger and gets stored, or the info stays as it is. */
  lemma {:induction false} SoleStep<V(!new)>(rt: Runtime<V, Checker>, host: Host, st: State<V>, e: Event<V, Checker>,
                                             r: OutputRef, n: U32)
    returns (r': OutputRef, n': U32)
    requires Dresses(rt, host) && Enabled(rt, st, e) && Sole(host, st.utxos, r, n)
    ensures Sole(host, Next(rt, st, e).utxos, r', n')
    ensures AnnouncedBy(host, e) == [] ==> n' == n && (Carries(st.ambient, n) ==> Carries(Next(rt, st, e).ambient, n))
    ensures AnnouncedBy(host, e) != [] ==>
              AnnouncedBy(host, e) == [n'] && n' > n && Carries(Next(rt, st, e).ambient, n')
  {
    if e.Applied? && Updates(e.tx) {
      r', n' := UpdateStep(rt, host, st, e.tx, r, n);
    } else {
      OtherStep(rt, host, st, e, r, n);
      r', n' := r, n;
    }
  }

  lemma {:induction false} IncreasingCons(n: int, m: U32, s: seq<U32>)
    requires n < m && Increasing(m, s)
    ensures Increasing(n, [m] + s) && forall k: U32 :: LastOf(k, [m] + s) == LastOf(m, s)
  {
    assert ([m] + s)[1..] == s;
  }

  function LastOf(n: U32, s: seq<U32>): U32 {
    if s == [] then n else s[|s| - 1]
  }

  /**
   Over every run there stays exactly one parachain info; the announced numbers strictly increase
   from the initial one, and the number stored for the collator is the last one announced.
   */
  lemma {:induction false} SoleOverRuns<V(!new)>(rt: Runtime<V, Checker>, host: Host, st: State<V>,
                                                 run: seq<Event<V, Checker>>, r: OutputRef, n: U32)
    returns (r': OutputRef, n': U32)
    requires Dresses(rt, host) && Run(rt, st, run) && Sole(host, st.utxos, r, n)
    ensures Sole(host, Final(rt, st, run).utxos, r', n')
    ensures Increasing(n, Announced(host, run)) && n' == LastOf(n, Announced(host, run))
    ensures Announced(host, run) != [] || Carries(st.ambient, n) ==> Carries(Final(rt, st, run).ambient, n')
    decreases |run|
  {
    if run == [] {
      r', n' := r, n;
    } else {
      var r1, n1 := SoleStep(rt, host, st, run[0], r, n);
      r', n' := SoleOverRuns(rt, host, Next(rt, st, run[0]), run[1..], r1, n1);
      var now, later := AnnouncedBy(host, run[0]), Announced(host, run[1..]);
      assert Announced(host, run) == now + later;
      if now == [] {
        assert now + later == later;
      } else {
        IncreasingCons(n, n1, later);
      }
    }
  }

  // ----- Validating a block for the relay chain

  datatype ValidationParams = ValidationParams(parentHead: Bytes, relayParentNumber: U32, relayParentStorageRoot: H256)

  /** The outer variant that the parachain runtime reserves for the parachain piece. */
  predicate IsParachain(c: Checker) {
    c.Variant? && c.index == 1
  }

  /** The checker type of the parachain runtime: the inner runtime, or the parachain inherent. */
  predicate ParachainTyped(c: Checker) {
    && c.Variant?
    && (if c.index == 1 then c.inner == Adapted(SetParachainInfo)
        else c.index == 0 && Leaf(c.inner) != SetParachainInfo)
  }

  function FirstParachain<V>(ts: seq<Transaction<V, Checker>>): Option<Transaction<V, Checker>> {
    if ts == [] then None
    else if IsParachain(ts[0].checker) then Some(ts[0])
    else FirstParachain(ts[1..])
  }

  /** The validation data announced by a block's parachain inherent, if everything about it is in place. */
  function AnnouncedData<V>(host: Host, ts: seq<Transaction<V, Checker>>): Option<ParachainInfo> {
    match FirstParachain(Inherents.OpeningInherents(ts))
    case None => None
    case Some(t) => if t.outputs == [] then None else ExtractInfo(host.info, t.outputs[0].payload)
  }

  predicate DataMatches(info: ParachainInfo, p: ValidationParams) {
    && p.parentHead == info.parentHead
    && p.relayParentNumber == info.relayParentNumber
    && p.relayParentStorageRoot == info.relayParentStorageRoot
  }

  predicate ParentMatches<V>(rt: Runtime<V, Checker>, host: Host, p: ValidationParams, h: Header) {
    match rt.codecs.header.dec(p.parentHead)
    case None => false
    case Some((parent, _)) => host.blake2(rt.codecs.header.enc(parent)) == h.parentHash
  }

  function StoredNumber(s: Storage): Option<U32> {
    if RELAY_PARENT_NUMBER_KEY !in s then None
    else
      match DecodeU32(s[RELAY_PARENT_NUMBER_KEY])
      case None => None
      case Some((n, _)) => Some(n)
  }

  /** What the relay chain gets to know: the new head, and how far messages have been processed. */
  datatype ValidationResult = ValidationResult(headData: Bytes, watermark: U32)

  /** Nothing where the source panics. */
  ghost function Validated<V(!new)>(rt: Runtime<V, Checker>, host: Host, s: Storage, p: ValidationParams,
                                    b: Block<V, Checker>): Option<ValidationResult> {
    if !ParentMatches(rt, host, p, b.header) then None
    else
      match AnnouncedData(host, b.extrinsics)
      case None => None
      case Some(info) =>
        if !DataMatches(info, p) then None
        else
          match Execute(rt, s, b)
          case None => None
          case Some(s') => Reported(rt, s', b.header)
  }

  function Reported<V>(rt: Runtime<V, Checker>, s: Storage, h: Header): Option<ValidationResult> {
    match StoredNumber(s)
    case None => None
    case Some(n) => Some(ValidationResult(rt.codecs.header.enc(h), n))
  }

  method ValidateBlock<V(!new)>(ex: Executive<V, Checker>, host: Host, p: ValidationParams, b: Block<V, Checker>)
    returns (result: Option<ValidationResult>)
    requires LawfulCodecs(ex.rt.codecs)
    modifies ex`storage
    ensures result == Validated(ex.rt, host, old(ex.storage), p, b)
  {
    if !ParentMatches(ex.rt, host, p, b.header) {
      return None;
    }
    var info := AnnouncedData(host, b.extrinsics);
    if info.None? || !DataMatches(info.value, p) {
      return None;
    }
    var ok := ex.ExecuteBlock(b);
    if !ok {
      return None;
    }
    result := Reported(ex.rt, ex.storage, b.header);
  }

  // ----- When a block is valid

  /** Transaction `k` is the first parachain inherent among those that open the block. */
  predicate FirstInherentOfParachain<V>(ts: seq<Transaction<V, Checker>>, k: nat) {
    && k < |ts| && IsInherent(ts[k].checker) && IsParachain(ts[k].checker)
    && forall i :: 0 <= i < k ==> IsInherent(ts[i].checker) && !IsParachain(ts[i].checker)
  }

  /** The first parachain inherent that opens the block announces the three values. */
  ghost predicate Announces<V>(host: Host, ts: seq<Transaction<V, Checker>>, info: ParachainInfo) {
    exists k :: 0 <= k < |ts| && FirstInherentOfParachain(ts, k) && AnnouncesAt(host, ts[k], info)
  }

  predicate AnnouncesAt<V>(host: Host, t: Transaction<V, Checker>, info: ParachainInfo) {
    t.outputs != [] && ExtractInfo(host.info, t.outputs[0].payload) == Some(info)
  }

  /** How the data found first depends on the first transaction. */
  lemma {:induction false} AnnouncedDataCons<V>(host: Host, ts: seq<Transaction<V, Checker>>)
    requires ts != []
    ensures AnnouncedData(host, ts) ==
            if !IsInherent(ts[0].checker) then None
            else if !IsParachain(ts[0].checker) then AnnouncedData(host, ts[1..])
            else if ts[0].outputs == [] then None else ExtractInfo(host.info, ts[0].outputs[0].payload)
  {
    if IsInherent(ts[0].checker) {
      assert Inherents.OpeningInherents(ts)[1..] == Inherents.OpeningInherents(ts[1..]);
    }
  }

  lemma {:induction false} AnnouncedIff<V>(host: Host, ts: seq<Transaction<V, Checker>>, info: ParachainInfo)
    ensures AnnouncedData(host, ts) == Some(info) <==> Announces(host, ts, info)
  {
    if ts == [] {
    } else {
      var rest := ts[1..];
      AnnouncedDataCons(host, ts);
      AnnouncedIff(host, rest, info);
      if Announces(host, ts, info) {
        var k :| 0 <= k < |ts| && FirstInherentOfParachain(ts, k) && AnnouncesAt(host, ts[k], info);
        if k > 0 {
          assert rest[k - 1] == ts[k] && FirstInherentOfParachain(rest, k - 1);
        }
      }
      if AnnouncedData(host, ts) == Some(info) {
        if IsParachain(ts[0].checker) {
          assert FirstInherentOfParachain(ts, 0);
        } else {
          var k :| 0 <= k < |rest| && FirstInherentOfParachain(rest, k) && AnnouncesAt(host, rest[k], info);
          assert rest[k] == ts[k + 1] && FirstInherentOfParachain(ts, k + 1);
        }
      }
    }
  }

  /** The head data is that of a header with this hash. */
  predicate HeadOf<V>(rt: Runtime<V, Checker>, host: Host, head: Bytes, hash: H256) {
    var h := rt.codecs.header.dec(head);
    h.Some? && host.blake2(rt.codecs.header.enc(h.value.0)) == hash
  }

  /** The number stored for the collator reads as this one. */
  predicate Stores(s: Storage, n: U32) {
    && RELAY_PARENT_NUMBER_KEY in s
    && var d := DecodeU32(s[RELAY_PARENT_NUMBER_KEY]); d.Some? && d.value.0 == n
  }

  /**
   A block is valid exactly when the given head is that of its parent, its first parachain inherent
   announces the given values, it executes, and that leaves a number stored. The result is then the
   block's header and that number.
   */
  lemma {:induction false} ValidIff<V(!new)>(rt: Runtime<V, Checker>, host: Host, s: Storage, p: ValidationParams,
                                             b: Block<V, Checker>, result: ValidationResult)
    requires LawfulCodecs(rt.codecs)
    ensures Validated(rt, host, s, p, b) == Some(result) <==>
            && HeadOf(rt, host, p.parentHead, b.header.parentHash)
            && Announces(host, b.extrinsics,
                         ParachainInfo(p.parentHead, p.relayParentNumber, p.relayParentStorageRoot))
            && Execute(rt, s, b).Some? && Stores(Execute(rt, s, b).value, result.watermark)
            && result.headData == rt.codecs.header.enc(b.header)
  {
    AnnouncedIff(host, b.extrinsics, ParachainInfo(p.parentHead, p.relayParentNumber, p.relayParentStorageRoot));
  }

  /** A block validated against the head data of an earlier result is a child of that result's block. */
  lemma {:induction false} NextIsChild<V(!new)>(rt: Runtime<V, Checker>, host: Host, s: Storage, p: ValidationParams,
                                                b: Block<V, Checker>, s': Storage, p': ValidationParams,
                                                b': Block<V, Checker>)
    requires LawfulCodecs(rt.codecs)
    requires Validated(rt, host, s, p, b).Some? && Validated(rt, host, s', p', b').Some?
    requires p'.parentHead == Validated(rt, host, s, p, b).value.headData
    ensures b'.header.parentHash == host.blake2(rt.codecs.header.enc(b.header))
  {
    ValidIff(rt, host, s, p, b, Validated(rt, host, s, p, b).value);
    ValidIff(rt, host, s', p', b', Validated(rt, host, s', p', b').value);
    HeadDecodes(rt.codecs, b.header);
  }

  // ----- The watermark

  function UpdateCount<V>(ts: seq<Transaction<V, Checker>>): nat {
    if ts == [] then 0 else (if Updates(ts[0]) then 1 else 0) + UpdateCount(ts[1..])
  }

  ghost predicate AllParachainTyped<V>(ts: seq<Transaction<V, Checker>>) {
    forall k :: 0 <= k < |ts| ==> ParachainTyped(ts[k].checker)
  }

  lemma {:induction false} UpdateAnnounces<V(!new)>(rt: Runtime<V, Checker>, host: Host, st: State<V>,
                                                    t: Transaction<V, Checker>)
    requires Dresses(rt, host) && Accepted(rt, st, t)
    ensures |AnnouncedBy(host, Applied(t))| == if Updates(t) then 1 else 0
  {
    if Updates(t) {
      UpdateShape(rt, host, st, t);
    }
  }

  /** Every update announces its number, and the data found first is the first number announced. */
  lemma {:induction false} AnnouncedNumbers<V(!new)>(rt: Runtime<V, Checker>, host: Host, st: State<V>,
                                                     ts: seq<Transaction<V, Checker>>)
    requires Dresses(rt, host) && Run(rt, st, Txs(ts)) && AllParachainTyped(ts)
    ensures |Announced(host, Txs(ts))| == UpdateCount(ts)
    ensures AnnouncedData(host, ts).Some? ==>
              UpdateCount(ts) > 0 && Announced(host, Txs(ts))[0] == AnnouncedData(host, ts).value.relayParentNumber
    decreases |ts|
  {
    if ts == [] {
    } else {
      var t, rest := ts[0], ts[1..];
      var e := Event<V, Checker>.Applied(t);
      assert Txs(ts)[0] == e && Txs(ts)[1..] == Txs(rest);
      assert AllParachainTyped(rest) by { assert forall k :: 0 <= k < |rest| ==> rest[k] == ts[k + 1]; }
      AnnouncedNumbers(rt, host, Next(rt, st, e), rest);
      assert ParachainTyped(t.checker);
      UpdateAnnounces(rt, host, st, t);
      AnnouncedDataCons(host, ts);
    }
  }

  lemma {:induction false} IncreasingEnds(n: int, s: seq<U32>)
    requires Increasing(n, s) && s != []
    ensures s[|s| - 1] >= s[0] && (s[|s| - 1] == s[0] <==> |s| == 1)
    decreases |s|
  {
    if |s| > 1 {
      IncreasingEnds(s[0], s[1..]);
      assert s[1..][0] > s[0];
    }
  }

  /** A block's transactions, run from a state with a sole info, leave the last announced number stored. */
  lemma {:induction false} BlockAnnounces<V(!new)>(rt: Runtime<V, Checker>, host: Host, st: State<V>,
                                                   ts: seq<Transaction<V, Checker>>, r: OutputRef, n: U32)
    returns (n': U32)
    requires Dresses(rt, host) && Run(rt, st, Txs(ts)) && AllParachainTyped(ts) && Sole(host, st.utxos, r, n)
    requires AnnouncedData(host, ts).Some?
    ensures Carries(Final(rt, st, Txs(ts)).ambient, n')
    ensures var first := AnnouncedData(host, ts).value.relayParentNumber;
            n' >= first > n && (n' == first <==> UpdateCount(ts) == 1)
  {
    AnnouncedNumbers(rt, host, st, ts);
    var r', m := SoleOverRuns(rt, host, st, Txs(ts), r, n);
    IncreasingEnds(n, Announced(host, Txs(ts)));
    n' := m;
  }

  /**
   From any state with a sole parachain info, the watermark of a validated block is at least the
   relay parent number it was validated against, and equal to it exactly when the block holds one
   parachain inherent. The head data is the block's header.
   */
  lemma {:induction false} WatermarkMeaning<V(!new)>(rt: Runtime<V, Checker>, host: Host, s: Storage,
                                                     p: ValidationParams, b: Block<V, Checker>, r: OutputRef, n: U32)
    requires LawfulCodecs(rt.codecs) && Dresses(rt, host) && AllParachainTyped(b.extrinsics)
    requires Sole(host, UtxosOf(rt.codecs, s), r, n)
    requires Validated(rt, host, s, p, b).Some?
    ensures var result := Validated(rt, host, s, p, b).value;
            && result.watermark >= p.relayParentNumber > n
            && (result.watermark == p.relayParentNumber <==> UpdateCount(b.extrinsics) == 1)
            && rt.codecs.header.dec(result.headData) == Some((b.header, []))
  {
    WardrobeConfined(rt, host);
    ExecutedIsRun(rt, s, b);
    var n' := BlockAnnounces(rt, host, Abs(rt.codecs, s).(height := Some(b.header.number)), b.extrinsics, r, n);
    StoredIsAmbient(Execute(rt, s, b).value, n');
    HeadDecodes(rt.codecs, b.header);
  }

  lemma HeadDecodes<V(!new), C(!new)>(k: Codecs<V, C>, h: Header)
    requires LawfulCodecs(k)
    ensures k.header.dec(k.header.enc(h)) == Some((h, []))
  {
    assert k.header.enc(h) + [] == k.header.enc(h);
    assert k.header.dec(k.header.enc(h) + []) == Some((h, []));
  }

  lemma StoredIsAmbient(s: Storage, n: U32)
    requires RELAY_PARENT_NUMBER_KEY in Ambient(s) && Ambient(s)[RELAY_PARENT_NUMBER_KEY] == EncodeU32(n)
    ensures StoredNumber(s) == Some(n)
  {
    U32RoundTrip(n, []);
    assert EncodeU32(n) + [] == EncodeU32(n);
  }
}
