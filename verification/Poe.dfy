/** The proof of existence piece (`wardrobe/poe/src/lib.rs`). */
module Poe {
  import opened Scale
  import opened Types
  import opened Typing

  datatype PoeCall = Claim | Revoke | Dispute

  datatype ClaimData = ClaimData(claim: H256, effectiveHeight: U32)

  /** `HeightUnknown` stands for the panic of `block_height` when no height is stored. */
  datatype PoeError =
    WrongNumberInputs | WrongNumberOutputs | BadlyTypedInput | BadlyTypedOutput | EffectiveHeightInPast |
    DisputingMismatchedClaims | IncorrectDisputeWinner | HeightUnknown

  function ExtractClaim(d: DynamicallyTypedData): Option<ClaimData> {
    if d.typeId == CLAIM_ID && |d.data| >= 36 then Some(ClaimData(d.data[..32], U32At(d.data, 32))) else None
  }

  function ClaimError(d: DynamicallyTypedData, height: Option<U32>): Option<PoeError> {
    match ExtractClaim(d)
    case None => Some(BadlyTypedOutput)
    case Some(c) =>
      if height.None? then Some(HeightUnknown)
      else if c.effectiveHeight < height.value then Some(EffectiveHeightInPast)
      else None
  }

  function RevokeError(d: DynamicallyTypedData): Option<PoeError> {
    if ExtractClaim(d).None? then Some(BadlyTypedInput) else None
  }

  function LoserError(winner: ClaimData, d: DynamicallyTypedData): Option<PoeError> {
    match ExtractClaim(d)
    case None => Some(BadlyTypedInput)
    case Some(loser) =>
      if winner.claim != loser.claim then Some(DisputingMismatchedClaims)
      else if winner.effectiveHeight >= loser.effectiveHeight then Some(IncorrectDisputeWinner)
      else None
  }

  function Check(call: PoeCall, height: Option<U32>, a: CheckArgs): CheckResult<PoeError> {
    match call
    case Claim =>
      if a.inputs != [] || a.evicted != [] then Fail(WrongNumberInputs)
      else Refusal(First(a.outputs, d => ClaimError(d, height)))
    case Revoke =>
      if a.evicted != [] then Fail(WrongNumberInputs)
      else if a.outputs != [] then Fail(WrongNumberOutputs)
      else Refusal(First(a.inputs, RevokeError))
    case Dispute =>
      if a.inputs != [] then Fail(WrongNumberInputs)
      else if a.outputs != [] then Fail(WrongNumberOutputs)
      else if a.peeks == [] then Fail(WrongNumberInputs)
      else
        match ExtractClaim(a.peeks[0])
        case None => Fail(BadlyTypedInput)
        case Some(winner) => Refusal(First(a.evicted, d => LoserError(winner, d)))
  }

  predicate ClaimsOnly(s: seq<DynamicallyTypedData>) {
    forall i :: 0 <= i < |s| ==> ExtractClaim(s[i]).Some?
  }

  /** What each call is for, without the loops: claim from now on, take back, or let the earlier claim win. */
  predicate Rightful(call: PoeCall, height: Option<U32>, a: CheckArgs) {
    && ClaimsOnly(a.inputs) && ClaimsOnly(a.evicted) && ClaimsOnly(a.outputs)
    && (!call.Revoke? ==> a.inputs == []) && (!call.Dispute? ==> a.evicted == []) && (!call.Claim? ==> a.outputs == [])
    && (forall i :: 0 <= i < |a.outputs| ==>
          height.Some? && ExtractClaim(a.outputs[i]).value.effectiveHeight >= height.value)
    && (call.Dispute? ==>
          && a.peeks != [] && ExtractClaim(a.peeks[0]).Some?
          && forall i :: 0 <= i < |a.evicted| ==>
               var (w, l) := (ExtractClaim(a.peeks[0]).value, ExtractClaim(a.evicted[i]).value);
               w.claim == l.claim && w.effectiveHeight < l.effectiveHeight)
  }

  lemma PoeMeaning(call: PoeCall, height: Option<U32>, a: CheckArgs)
    ensures Check(call, height, a).Pass? <==> Rightful(call, height, a)
  {
    match call
    case Claim =>
      var e := (d: DynamicallyTypedData) => ClaimError(d, height);
      FirstNone(a.outputs, e);
      assert forall i :: 0 <= i < |a.outputs| ==> (e(a.outputs[i]).None? <==> ClaimError(a.outputs[i], height).None?);
    case Revoke =>
      FirstNone(a.inputs, RevokeError);
    case Dispute =>
      if a.peeks != [] && ExtractClaim(a.peeks[0]).Some? {
        var winner := ExtractClaim(a.peeks[0]).value;
        var e := (d: DynamicallyTypedData) => LoserError(winner, d);
        FirstNone(a.evicted, e);
        assert forall i :: 0 <= i < |a.evicted| ==> (e(a.evicted[i]).None? <==> LoserError(winner, a.evicted[i]).None?);
      }
  }

  // ----- What each call asks for, in the order of the source

  function ClaimRules(height: Option<U32>, d: DynamicallyTypedData): seq<Rule<PoeError>> {
    var c := ExtractClaim(d);
    [Rule(c.Some?, BadlyTypedOutput), Rule(height.Some?, HeightUnknown),
     Rule(c.Some? && height.Some? ==> c.value.effectiveHeight >= height.value, EffectiveHeightInPast)]
  }

  function RevokeRules(d: DynamicallyTypedData): seq<Rule<PoeError>> {
    [Rule(ExtractClaim(d).Some?, BadlyTypedInput)]
  }

  function LoserRules(winner: Option<ClaimData>, d: DynamicallyTypedData): seq<Rule<PoeError>> {
    var c := ExtractClaim(d);
    [Rule(c.Some?, BadlyTypedInput),
     Rule(c.Some? && winner.Some? ==> winner.value.claim == c.value.claim, DisputingMismatchedClaims),
     Rule(c.Some? && winner.Some? ==> winner.value.effectiveHeight < c.value.effectiveHeight, IncorrectDisputeWinner)]
  }

  function Rules(call: PoeCall, height: Option<U32>, a: CheckArgs): seq<Rule<PoeError>> {
    match call
    case Claim =>
      [Rule(a.inputs == [] && a.evicted == [], WrongNumberInputs)] +
      EachRules(a.outputs, d => ClaimRules(height, d))
    case Revoke =>
      [Rule(a.evicted == [], WrongNumberInputs), Rule(a.outputs == [], WrongNumberOutputs)] +
      EachRules(a.inputs, RevokeRules)
    case Dispute =>
      var winner := if a.peeks == [] then None else ExtractClaim(a.peeks[0]);
      [Rule(a.inputs == [], WrongNumberInputs), Rule(a.outputs == [], WrongNumberOutputs),
       Rule(a.peeks != [], WrongNumberInputs), Rule(winner.Some?, BadlyTypedInput)] +
      EachRules(a.evicted, d => LoserRules(winner, d))
  }

  /** The check reports the first of these that does not hold. */
  lemma {:induction false} ObeysRules(call: PoeCall, height: Option<U32>, a: CheckArgs)
    ensures Obeys(Check(call, height, a), Rules(call, height, a), 0)
  {
    match call
    case Claim => ClaimObeys(height, a);
    case Revoke => RevokeObeys(a);
    case Dispute => DisputeObeys(a);
  }

  lemma {:induction false} ClaimObeys(height: Option<U32>, a: CheckArgs)
    ensures Obeys(Check(Claim, height, a), Rules(Claim, height, a), 0)
  {
    var e := (d: DynamicallyTypedData) => ClaimError(d, height);
    var each := (d: DynamicallyTypedData) => ClaimRules(height, d);
    forall d ensures Obeys(Refusal(e(d)), each(d), 0) {
      assert FirstBroken(each(d), 0) || FirstBroken(each(d), 1) || FirstBroken(each(d), 2) || e(d).None?;
    }
    ObeysEach(a.outputs, e, each);
    var early := [Rule(a.inputs == [] && a.evicted == [], WrongNumberInputs)];
    assert FirstBroken(early, 0) || early[0].holds;
    ObeysStages(Check(Claim, height, a), early, EachRules(a.outputs, each), 0);
  }

  lemma {:induction false} RevokeObeys(a: CheckArgs)
    ensures Obeys(Check(Revoke, None, a), Rules(Revoke, None, a), 0)
  {
    forall d ensures Obeys(Refusal(RevokeError(d)), RevokeRules(d), 0) {
      assert FirstBroken(RevokeRules(d), 0) || RevokeError(d).None?;
    }
    ObeysEach(a.inputs, RevokeError, RevokeRules);
    var early := [Rule(a.evicted == [], WrongNumberInputs), Rule(a.outputs == [], WrongNumberOutputs)];
    assert FirstBroken(early, 0) || FirstBroken(early, 1) || (early[0].holds && early[1].holds);
    ObeysStages(Check(Revoke, None, a), early, EachRules(a.inputs, RevokeRules), 0);
  }

  lemma {:induction false} DisputeObeys(a: CheckArgs)
    ensures Obeys(Check(Dispute, None, a), Rules(Dispute, None, a), 0)
  {
    var winner := if a.peeks == [] then None else ExtractClaim(a.peeks[0]);
    var each := (d: DynamicallyTypedData) => LoserRules(winner, d);
    var early := [Rule(a.inputs == [], WrongNumberInputs), Rule(a.outputs == [], WrongNumberOutputs),
                  Rule(a.peeks != [], WrongNumberInputs), Rule(winner.Some?, BadlyTypedInput)];
    assert FirstBroken(early, 0) || FirstBroken(early, 1) || FirstBroken(early, 2) || FirstBroken(early, 3) ||
           (early[0].holds && early[1].holds && early[2].holds && early[3].holds);
    if winner.Some? {
      var e := (d: DynamicallyTypedData) => LoserError(winner.value, d);
      forall d ensures Obeys(Refusal(e(d)), each(d), 0) {
        assert FirstBroken(each(d), 0) || FirstBroken(each(d), 1) || FirstBroken(each(d), 2) || e(d).None?;
      }
      ObeysEach(a.evicted, e, each);
    }
    ObeysStages(Check(Dispute, None, a), early, EachRules(a.evicted, each), 0);
  }
}
