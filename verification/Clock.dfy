/** Timestamps over whole runs: a clock that never runs slower than the minimum interval. */
module Clock {
  import opened Scale
  import opened Types
  import opened Typing
  import opened UtxoSet
  import opened Ledger
  import opened Sums
  import opened Wardrobe
  import opened Conservation
  import opened Timestamps

  /** The timestamp stored at a reference. */
  function NotedAt<V>(u: Utxos<V>, r: OutputRef): Option<Timestamp> {
    if r in u then ExtractTimestamp(u[r].payload) else None
  }

  /** Additions on this timestamp cannot wrap around; those on its block matter only when cleaning up. */
  predicate InRange(t: Timestamp, cleaned: bool) {
    && t.time + MINIMUM_TIME_INTERVAL <= MAX_U64
    && (cleaned ==> t.block + MIN_BLOCKS_BEFORE_CLEANUP <= MAX_U32)
  }

  /** The time is at least what the minimum interval allows since block one. */
  predicate NotSlow(t: Timestamp) {
    t.block >= 1 ==> t.time >= MINIMUM_TIME_INTERVAL * (t.block - 1)
  }

  /** Some stored timestamp of the block before is at least the minimum interval earlier. */
  ghost predicate HasPredecessor<V>(u: Utxos<V>, t: Timestamp) {
    exists r :: Precedes(NotedAt(u, r), t)
  }

  predicate Precedes(p: Option<Timestamp>, t: Timestamp) {
    p.Some? && p.value.block + 1 == t.block && p.value.time + MINIMUM_TIME_INTERVAL <= t.time
  }

  /** Recent enough, at a height, that cleaning up may not touch the block before it. */
  predicate Recent(height: Option<U32>, t: Timestamp) {
    height.Some? ==> t.block - 1 + MIN_BLOCKS_BEFORE_CLEANUP >= height.value
  }

  /**
   The invariant of the clock. With `cleaned` set, timestamps may have been cleaned up, and only
   recent ones still have their predecessor.
   */
  ghost predicate Ticking<V>(st: State<V>, cleaned: bool) {
    forall r :: NotedAt(st.utxos, r).Some? ==>
      var t := NotedAt(st.utxos, r).value;
      && InRange(t, cleaned) && NotSlow(t)
      && (t.block >= 2 && (cleaned ==> Recent(st.height, t)) ==> HasPredecessor(st.utxos, t))
  }

  predicate Sets<V>(e: Event<V, Checker>) {
    e.Applied? && Leaf(e.tx.checker) == TimestampCall(Set)
  }

  predicate CleansUp<V>(e: Event<V, Checker>) {
    e.Applied? && Leaf(e.tx.checker) == TimestampCall(CleanUp)
  }

  /** The timestamps that enter the run do not come near the end of their number range. */
  predicate NewInRange<V>(e: Event<V, Checker>, cleaned: bool) {
    Sets(e) ==> forall i :: 0 <= i < |e.tx.outputs| ==>
      var t := ExtractTimestamp(e.tx.outputs[i].payload); t.Some? ==> InRange(t.value, cleaned)
  }

  predicate AllInRange<V>(run: seq<Event<V, Checker>>, cleaned: bool) {
    forall i :: 0 <= i < |run| ==> NewInRange(run[i], cleaned)
  }

  /** Heights do not go down. */
  ghost predicate Ascending<V>(height: Option<U32>, run: seq<Event<V, Checker>>)
    decreases |run|
  {
    run == [] ||
    (&& (run[0].Opened? && height.Some? ==> run[0].height >= height.value)
     && Ascending(if run[0].Opened? then Some(run[0].height) else height, run[1..]))
  }

  // ----- Setting

  /** What an accepted update of the clock looks like. */
  lemma SetShape<V(!new)>(rt: Runtime<V, Checker>, host: Host, st: State<V>, t: Transaction<V, Checker>)
    requires Dresses(rt, host) && Accepted(rt, st, t) && Leaf(t.checker) == TimestampCall(Set)
    ensures t.inputs == [] && |t.outputs| == 1 && t.peeks != []
    ensures ExtractTimestamp(t.outputs[0].payload).Some? && NotedAt(st.utxos, t.peeks[0]).Some?
    ensures var (n, o) := (ExtractTimestamp(t.outputs[0].payload).value, NotedAt(st.utxos, t.peeks[0]).value);
            && Some(n.block) == st.height && n.block == Add32(o.block, 1)
            && (o.block == 0 || n.time >= Add64(o.time, MINIMUM_TIME_INTERVAL))
  {
    InputsInUtxos(rt, st, t);
    TimestampPasses(rt, host, st, t);
    assert forall k :: 0 <= k < |t.peeks| ==> t.peeks[k] in st.utxos;
    SetShapeFromCheck(st.height, st.utxos, t);
  }

  lemma SetShapeFromCheck<V>(height: Option<U32>, u: Utxos<V>, t: Transaction<V, Checker>)
    requires CheckSet(height, Args(u, t)).Pass?
    requires forall k :: 0 <= k < |t.inputs| ==> t.inputs[k].outputRef in u
    requires forall k :: 0 <= k < |t.peeks| ==> t.peeks[k] in u
    ensures t.inputs == [] && |t.outputs| == 1 && t.peeks != []
    ensures ExtractTimestamp(t.outputs[0].payload).Some? && NotedAt(u, t.peeks[0]).Some?
    ensures var (n, o) := (ExtractTimestamp(t.outputs[0].payload).value, NotedAt(u, t.peeks[0]).value);
            && Some(n.block) == height && n.block == Add32(o.block, 1)
            && (o.block == 0 || n.time >= Add64(o.time, MINIMUM_TIME_INTERVAL))
  {
    var a := Args(u, t);
    RedeemedAll(u, t.inputs);
    PeekedAll(u, t.peeks);
    assert a.outputs[0] == t.outputs[0].payload && a.peeks[0] == u[t.peeks[0]].payload;
  }

  /** The new timestamp continues the clock from the one it peeks at. */
  lemma NewTick(o: Timestamp, n: Timestamp)
    requires o.time + MINIMUM_TIME_INTERVAL <= MAX_U64 && NotSlow(o)
    requires n.block == Add32(o.block, 1) && (o.block == 0 || n.time >= Add64(o.time, MINIMUM_TIME_INTERVAL))
    ensures NotSlow(n) && (n.block >= 2 ==> Precedes(Some(o), n))
  {
  }

  // ----- Cleaning up

  /** What is cleaned up is old in time and in blocks. */
  lemma CleanedIsOld<V(!new)>(rt: Runtime<V, Checker>, host: Host, st: State<V>, t: Transaction<V, Checker>,
                              r: OutputRef)
    requires Dresses(rt, host) && Accepted(rt, st, t) && Leaf(t.checker) == TimestampCall(CleanUp)
    requires r in InputRefs(t.inputs)
    ensures NotedAt(st.utxos, r).Some? && st.height.Some?
    ensures Add32(NotedAt(st.utxos, r).value.block, MIN_BLOCKS_BEFORE_CLEANUP) < st.height.value
  {
    InputsInUtxos(rt, st, t);
    TimestampPasses(rt, host, st, t);
    CleanedFromCheck(st.height, st.utxos, t, r);
  }

  lemma CleanedFromCheck<V>(height: Option<U32>, u: Utxos<V>, t: Transaction<V, Checker>, r: OutputRef)
    requires CheckCleanUp(height, Args(u, t)).Pass? && r in InputRefs(t.inputs)
    requires forall k :: 0 <= k < |t.inputs| ==> t.inputs[k].outputRef in u
    ensures NotedAt(u, r).Some? && height.Some?
    ensures Add32(NotedAt(u, r).value.block, MIN_BLOCKS_BEFORE_CLEANUP) < height.value
  {
    var a := Args(u, t);
    EvictedAll(u, t.inputs);
    CleanUpMeaning(height, ExtractTimestamp(a.peeks[0]).value, a.evicted);
    ListedBefore(t.inputs, r);
    var k :| 0 <= k < |t.inputs| && t.inputs[k].outputRef == r;
    assert a.evicted[k] == u[r].payload;
  }

  lemma CleanUpCreatesNothing<V(!new)>(rt: Runtime<V, Checker>, host: Host, st: State<V>, t: Transaction<V, Checker>)
    requires Dresses(rt, host) && Accepted(rt, st, t) && Leaf(t.checker) == TimestampCall(CleanUp)
    ensures t.outputs == []
  {
    TimestampPasses(rt, host, st, t);
    assert |Args(st.utxos, t).outputs| == |t.outputs|;
  }

  // ----- One step

  /** A timestamp survives every event, unless the event cleans up and finds it old enough. */
  lemma RecentSurvives<V(!new)>(rt: Runtime<V, Checker>, host: Host, st: State<V>, e: Event<V, Checker>, r: OutputRef)
    requires Dresses(rt, host) && Enabled(rt, st, e)
    requires NotedAt(st.utxos, r).Some?
    requires CleansUp(e) && st.height.Some? ==>
               Add32(NotedAt(st.utxos, r).value.block, MIN_BLOCKS_BEFORE_CLEANUP) >= st.height.value
    ensures NotedAt(Next(rt, st, e).utxos, r) == NotedAt(st.utxos, r)
  {
    if e.Applied? {
      var t := e.tx;
      TypeTellsPiece(Leaf(t.checker));
      if Leaf(t.checker).TimestampCall? {
        match Leaf(t.checker).timestamp {
          case Set =>
            SetShape(rt, host, st, t);
          case CleanUp =>
            if r in InputRefs(t.inputs) {
              CleanedIsOld(rt, host, st, t, r);
              assert false;
            }
        }
        OldStays(rt, st, t, r);
      } else {
        ForeignKeeps(rt, host, st, t, r);
      }
    }
  }

  /** Only setting the clock makes a new timestamp, and the timestamp it continues stays. */
  lemma NewComesFromSet<V(!new)>(rt: Runtime<V, Checker>, host: Host, st: State<V>, e: Event<V, Checker>, r: OutputRef)
    requires Dresses(rt, host) && Enabled(rt, st, e)
    requires NotedAt(Next(rt, st, e).utxos, r).Some? && NotedAt(Next(rt, st, e).utxos, r) != NotedAt(st.utxos, r)
    ensures Sets(e) && |e.tx.outputs| == 1
    ensures ExtractTimestamp(e.tx.outputs[0].payload) == NotedAt(Next(rt, st, e).utxos, r)
  {
    var t := e.tx;
    if r in st.utxos {
      OldStays(rt, st, t, r);
      assert false;
    }
    var i := NewIsOwn(rt, host, st, t, r);
    TypeTellsPiece(Leaf(t.checker));
    OneTimestamp(rt, host, st, t, i);
  }

  lemma OneTimestamp<V(!new)>(rt: Runtime<V, Checker>, host: Host, st: State<V>, t: Transaction<V, Checker>, i: nat)
    requires Dresses(rt, host) && Accepted(rt, st, t) && Leaf(t.checker).TimestampCall? && i < |t.outputs|
    ensures Leaf(t.checker) == TimestampCall(Set) && |t.outputs| == 1 && i == 0
  {
    match Leaf(t.checker).timestamp
    case Set => SetShape(rt, host, st, t);
    case CleanUp => CleanUpCreatesNothing(rt, host, st, t);
  }

  /** The invariant is kept at one timestamp. */
  lemma TickAt<V(!new)>(rt: Runtime<V, Checker>, host: Host, st: State<V>, e: Event<V, Checker>, cleaned: bool,
                        r: OutputRef)
    requires Dresses(rt, host) && Enabled(rt, st, e) && Ticking(st, cleaned)
    requires NewInRange(e, cleaned) && (CleansUp(e) ==> cleaned)
    requires cleaned && e.Opened? && st.height.Some? ==> e.height >= st.height.value
    requires NotedAt(Next(rt, st, e).utxos, r).Some?
    ensures var (st', t) := (Next(rt, st, e), NotedAt(Next(rt, st, e).utxos, r).value);
            && InRange(t, cleaned) && NotSlow(t)
            && (t.block >= 2 && (cleaned ==> Recent(st'.height, t)) ==> HasPredecessor(st'.utxos, t))
  {
    var st' := Next(rt, st, e);
    var t := NotedAt(st'.utxos, r).value;
    NextHeight(rt, st, e);
    if NotedAt(st.utxos, r) == Some(t) {
      assert InRange(t, cleaned) && NotSlow(t);
      if t.block >= 2 && (cleaned ==> Recent(st'.height, t)) {
        assert cleaned ==> Recent(st.height, t);
        PredecessorStays(rt, host, st, e, cleaned, t);
      }
    } else {
      NewComesFromSet(rt, host, st, e, r);
      SetTicks(rt, host, st, e, cleaned);
    }
  }

  /** The predecessor of a recent timestamp stays. */
  lemma {:induction false} PredecessorStays<V(!new)>(rt: Runtime<V, Checker>, host: Host, st: State<V>,
                                                     e: Event<V, Checker>, cleaned: bool, t: Timestamp)
    requires Dresses(rt, host) && Enabled(rt, st, e) && (CleansUp(e) ==> cleaned)
    requires cleaned ==> InRange(t, true) && Recent(st.height, t)
    requires HasPredecessor(st.utxos, t)
    ensures HasPredecessor(Next(rt, st, e).utxos, t)
  {
    var p :| Precedes(NotedAt(st.utxos, p), t);
    RecentSurvives(rt, host, st, e, p);
    assert Precedes(NotedAt(Next(rt, st, e).utxos, p), t);
  }

  /** A new timestamp continues the clock, and has its predecessor. */
  lemma {:induction false} SetTicks<V(!new)>(rt: Runtime<V, Checker>, host: Host, st: State<V>, e: Event<V, Checker>,
                                             cleaned: bool)
    requires Dresses(rt, host) && Enabled(rt, st, e) && Sets(e) && Ticking(st, cleaned)
    requires |e.tx.outputs| == 1 && ExtractTimestamp(e.tx.outputs[0].payload).Some?
    ensures var t := ExtractTimestamp(e.tx.outputs[0].payload).value;
            NotSlow(t) && (t.block >= 2 ==> HasPredecessor(Next(rt, st, e).utxos, t))
  {
    var t := ExtractTimestamp(e.tx.outputs[0].payload).value;
    SetShape(rt, host, st, e.tx);
    var p := e.tx.peeks[0];
    NewTick(NotedAt(st.utxos, p).value, t);
    RecentSurvives(rt, host, st, e, p);
    if t.block >= 2 {
      assert Precedes(NotedAt(Next(rt, st, e).utxos, p), t);
    }
  }

  /**
   The clock over every run. Without cleaning up, every timestamp of block two or later has its
   predecessor in the UTXO set; with cleaning up, every one from the last 15000 blocks still has.
   Either way the clock has advanced by at least the minimum interval per block.
   */
  lemma {:induction false} ClockOverRuns<V(!new)>(rt: Runtime<V, Checker>, host: Host, st: State<V>,
                                                  run: seq<Event<V, Checker>>, cleaned: bool)
    requires Dresses(rt, host) && Run(rt, st, run) && Ticking(st, cleaned) && AllInRange(run, cleaned)
    requires if cleaned then Ascending(st.height, run) else forall i :: 0 <= i < |run| ==> !CleansUp(run[i])
    ensures Ticking(Final(rt, st, run), cleaned)
    decreases |run|
  {
    if run == [] {
    } else {
      var e, st' := run[0], Next(rt, st, run[0]);
      NextHeight(rt, st, e);
      forall r | NotedAt(st'.utxos, r).Some?
        ensures var t := NotedAt(st'.utxos, r).value;
                && InRange(t, cleaned) && NotSlow(t)
                && (t.block >= 2 && (cleaned ==> Recent(st'.height, t)) ==> HasPredecessor(st'.utxos, t))
      {
        TickAt(rt, host, st, e, cleaned, r);
      }
      assert forall i :: 0 <= i < |run| - 1 ==> run[1..][i] == run[i + 1];
      ClockOverRuns(rt, host, st', run[1..], cleaned);
    }
  }

  /** The genesis timestamp starts the clock. */
  lemma GenesisTicks<V>(st: State<V>, cleaned: bool)
    requires forall r :: NotedAt(st.utxos, r).Some? ==> NotedAt(st.utxos, r).value == Timestamp(0, 0)
    ensures Ticking(st, cleaned)
  {
  }
}
