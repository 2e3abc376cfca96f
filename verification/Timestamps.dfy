/** The timestamp piece (`wardrobe/timestamp/src/lib.rs`) with its default configuration. */
module Timestamps {
  import opened Scale
  import opened Types
  import opened Typing

  const MINIMUM_TIME_INTERVAL: nat := 2_000
  const MAX_DRIFT: nat := 60_000
  const MIN_TIME_BEFORE_CLEANUP: nat := 86_400_000
  const MIN_BLOCKS_BEFORE_CLEANUP: nat := 15_000

  datatype TimestampCall = Set | CleanUp

  datatype Timestamp = Timestamp(time: U64, block: U32)

  /** `HeightUnknown` stands for the panic of `block_height` when no height is stored. */
  datatype TimestampError =
    BadlyTyped | MissingNewTimestamp | NewTimestampWrongHeight | TooManyOutputsWhileSettingTimestamp |
    PreviousTimestampWrongHeight | MissingPreviousTimestamp | InputsWhileSettingTimestamp | TimestampTooOld |
    CleanupRequiresOneReference | CleanupCannotCreateState | DontBeSoHasty | CleanupEvictionsOnly | HeightUnknown

  function ExtractTimestamp(d: DynamicallyTypedData): Option<Timestamp> {
    if d.typeId == TIMESTAMP_ID && |d.data| >= 12
    then Some(Timestamp(U64At(d.data, 0), U32At(d.data, 8))) else None
  }

  // The additions of the source, with machine wrap-around.

  function Add64(a: nat, b: nat): nat { (a + b) % 0x1_0000_0000_0000_0000 }

  function Add32(a: nat, b: nat): nat { (a + b) % 0x1_0000_0000 }

  function CheckSet(height: Option<U32>, a: CheckArgs): CheckResult<TimestampError> {
    if a.inputs != [] || a.evicted != [] then Fail(InputsWhileSettingTimestamp)
    else if a.outputs == [] then Fail(MissingNewTimestamp)
    else
      match ExtractTimestamp(a.outputs[0])
      case None => Fail(BadlyTyped)
      case Some(new_) =>
        if |a.outputs| != 1 then Fail(TooManyOutputsWhileSettingTimestamp)
        else if height.None? then Fail(HeightUnknown)
        else if new_.block != height.value then Fail(NewTimestampWrongHeight)
        else if a.peeks == [] then Fail(MissingPreviousTimestamp)
        else
          match ExtractTimestamp(a.peeks[0])
          case None => Fail(BadlyTyped)
          case Some(old_) =>
            if old_.block != 0 && new_.time < Add64(old_.time, MINIMUM_TIME_INTERVAL) then Fail(TimestampTooOld)
            else if new_.block != Add32(old_.block, 1) then Fail(PreviousTimestampWrongHeight)
            else Pass(0)
  }

  function EvictionError(height: Option<U32>, reference: Timestamp, d: DynamicallyTypedData): Option<TimestampError> {
    match ExtractTimestamp(d)
    case None => Some(BadlyTyped)
    case Some(old_) =>
      if Add64(old_.time, MIN_TIME_BEFORE_CLEANUP) >= reference.time then Some(DontBeSoHasty)
      else if height.None? then Some(HeightUnknown)
      else if Add32(old_.block, MIN_BLOCKS_BEFORE_CLEANUP) >= height.value then Some(DontBeSoHasty)
      else None
  }

  function FirstEvictionError(height: Option<U32>,
                              reference: Timestamp, s: seq<DynamicallyTypedData>): Option<TimestampError> {
    if s == [] then None
    else if EvictionError(height, reference, s[0]).Some? then EvictionError(height, reference, s[0])
    else FirstEvictionError(height, reference, s[1..])
  }

  function CheckCleanUp(height: Option<U32>, a: CheckArgs): CheckResult<TimestampError> {
    if a.inputs != [] then Fail(CleanupEvictionsOnly)
    else if a.peeks == [] then Fail(CleanupRequiresOneReference)
    else
      match ExtractTimestamp(a.peeks[0])
      case None => Fail(BadlyTyped)
      case Some(reference) =>
        if a.outputs != [] then Fail(CleanupCannotCreateState)
        else
          match FirstEvictionError(height, reference, a.evicted)
          case Some(e) => Fail(e)
          case None => Pass(0)
  }

  function Check(call: TimestampCall, height: Option<U32>, a: CheckArgs): CheckResult<TimestampError> {
    match call
    case Set => CheckSet(height, a)
    case CleanUp => CheckCleanUp(height, a)
  }

  lemma {:induction false} CleanUpMeaning(height: Option<U32>, reference: Timestamp, s: seq<DynamicallyTypedData>)
    ensures FirstEvictionError(height, reference, s).None? <==>
            forall i :: 0 <= i < |s| ==> EvictionError(height, reference, s[i]).None?
  {
    if s == [] {
    } else {
      CleanUpMeaning(height, reference, s[1..]);
      assert forall i :: 0 < i < |s| ==> s[i] == s[1..][i - 1];
    }
  }

  /** The payload is a timestamp older than the reference by a day and than the block by 15000 blocks. */
  predicate Expired(height: U32, reference: Timestamp, d: DynamicallyTypedData) {
    && ExtractTimestamp(d).Some?
    && var t := ExtractTimestamp(d).value;
       Add64(t.time, MIN_TIME_BEFORE_CLEANUP) < reference.time && Add32(t.block, MIN_BLOCKS_BEFORE_CLEANUP) < height
  }

  /** A clean up passes exactly when it only evicts, and everything it evicts has expired. */
  lemma CleanUpPassesIff(height: U32, a: CheckArgs)
    ensures CheckCleanUp(Some(height), a).Pass? <==>
            && a.inputs == [] && a.outputs == [] && a.peeks != [] && ExtractTimestamp(a.peeks[0]).Some?
            && forall i :: 0 <= i < |a.evicted| ==> Expired(height, ExtractTimestamp(a.peeks[0]).value, a.evicted[i])
  {
    if a.peeks != [] && ExtractTimestamp(a.peeks[0]).Some? {
      CleanUpMeaning(Some(height), ExtractTimestamp(a.peeks[0]).value, a.evicted);
    }
  }

  // ----- What each call asks for, in the order of the source

  function SetRules(height: Option<U32>, a: CheckArgs): seq<Rule<TimestampError>> {
    var n := if a.outputs == [] then None else ExtractTimestamp(a.outputs[0]);
    var o := if a.peeks == [] then None else ExtractTimestamp(a.peeks[0]);
    [Rule(a.inputs == [] && a.evicted == [], InputsWhileSettingTimestamp),
     Rule(a.outputs != [], MissingNewTimestamp), Rule(n.Some?, BadlyTyped),
     Rule(|a.outputs| == 1, TooManyOutputsWhileSettingTimestamp), Rule(height.Some?, HeightUnknown),
     Rule(n.Some? ==> Some(n.value.block) == height, NewTimestampWrongHeight)] +
    [Rule(a.peeks != [], MissingPreviousTimestamp), Rule(o.Some?, BadlyTyped),
     Rule(n.Some? && o.Some? ==> o.value.block == 0 || n.value.time >= Add64(o.value.time, 2_000), TimestampTooOld),
     Rule(n.Some? && o.Some? ==> n.value.block == Add32(o.value.block, 1), PreviousTimestampWrongHeight)]
  }

  /** An evicted timestamp must be a day older than the reference, and 15000 blocks older than the block. */
  function EvictionRules(height: Option<U32>, reference: Option<Timestamp>,
                         d: DynamicallyTypedData): seq<Rule<TimestampError>> {
    var t := ExtractTimestamp(d);
    [Rule(t.Some?, BadlyTyped),
     Rule(t.Some? && reference.Some? ==> Add64(t.value.time, 86_400_000) < reference.value.time, DontBeSoHasty),
     Rule(height.Some?, HeightUnknown),
     Rule(t.Some? && height.Some? ==> Add32(t.value.block, 15_000) < height.value, DontBeSoHasty)]
  }

  function CleanUpRules(height: Option<U32>, a: CheckArgs): seq<Rule<TimestampError>> {
    var reference := if a.peeks == [] then None else ExtractTimestamp(a.peeks[0]);
    [Rule(a.inputs == [], CleanupEvictionsOnly), Rule(a.peeks != [], CleanupRequiresOneReference),
     Rule(reference.Some?, BadlyTyped), Rule(a.outputs == [], CleanupCannotCreateState)] +
    EachRules(a.evicted, d => EvictionRules(height, reference, d))
  }

  /** Setting the clock reports the first of these that does not hold. */
  lemma {:induction false} SetObeysRules(height: Option<U32>, a: CheckArgs)
    ensures Obeys(CheckSet(height, a), SetRules(height, a), 0)
  {
    var early, late := SetRules(height, a)[..6], SetRules(height, a)[6..];
    var r := CheckSet(height, a);
    if forall i :: 0 <= i < 6 ==> early[i].holds {
      assert early[0].holds && early[1].holds && early[2].holds && early[3].holds && early[4].holds && early[5].holds;
      assert FirstBroken(late, 0) || FirstBroken(late, 1) || FirstBroken(late, 2) || FirstBroken(late, 3) || r.Pass?;
    } else {
      assert FirstBroken(early, 0) || FirstBroken(early, 1) || FirstBroken(early, 2) || FirstBroken(early, 3) ||
             FirstBroken(early, 4) || FirstBroken(early, 5);
    }
    ObeysStages(r, early, late, 0);
    assert early + late == SetRules(height, a);
  }

  lemma {:induction false} EvictionsAreFirst(height: Option<U32>, reference: Timestamp, s: seq<DynamicallyTypedData>)
    ensures FirstEvictionError(height, reference, s) == First(s, d => EvictionError(height, reference, d))
  {
    if s != [] {
      EvictionsAreFirst(height, reference, s[1..]);
    }
  }

  /** Cleaning up reports the first of these that does not hold. */
  lemma {:induction false} CleanUpObeysRules(height: Option<U32>, a: CheckArgs)
    ensures Obeys(CheckCleanUp(height, a), CleanUpRules(height, a), 0)
  {
    var reference := if a.peeks == [] then None else ExtractTimestamp(a.peeks[0]);
    var each := (d: DynamicallyTypedData) => EvictionRules(height, reference, d);
    var early := [Rule(a.inputs == [], CleanupEvictionsOnly), Rule(a.peeks != [], CleanupRequiresOneReference),
                  Rule(reference.Some?, BadlyTyped), Rule(a.outputs == [], CleanupCannotCreateState)];
    assert FirstBroken(early, 0) || FirstBroken(early, 1) || FirstBroken(early, 2) || FirstBroken(early, 3) ||
           (early[0].holds && early[1].holds && early[2].holds && early[3].holds);
    if reference.Some? {
      EvictionsObey(height, reference.value, a.evicted);
    }
    ObeysStages(CheckCleanUp(height, a), early, EachRules(a.evicted, each), 0);
  }

  lemma {:induction false} EvictionsObey(height: Option<U32>, reference: Timestamp, s: seq<DynamicallyTypedData>)
    ensures Obeys(Refusal(FirstEvictionError(height, reference, s)),
                  EachRules(s, d => EvictionRules(height, Some(reference), d)), 0)
  {
    var e := (d: DynamicallyTypedData) => EvictionError(height, reference, d);
    var each := (d: DynamicallyTypedData) => EvictionRules(height, Some(reference), d);
    forall d ensures Obeys(Refusal(e(d)), each(d), 0) {
      assert FirstBroken(each(d), 0) || FirstBroken(each(d), 1) || FirstBroken(each(d), 2) ||
             FirstBroken(each(d), 3) || e(d).None?;
    }
    ObeysEach(s, e, each);
    EvictionsAreFirst(height, reference, s);
  }
}
