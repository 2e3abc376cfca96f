/** The kitties piece (`wardrobe/kitties/src/lib.rs`). */
module Kitties {
  import opened Scale
  import opened Types
  import opened Typing

  datatype MomStatus = MomRearinToGo | HadBirthRecently
  datatype DadStatus = DadRearinToGo | Tired
  datatype Parent = Mom(mom: MomStatus) | Dad(dad: DadStatus)
  datatype KittyData = KittyData(parent: Parent, freeBreedings: U64, dna: H256, numBreedings: U128)

  datatype KittyError =
    BadlyTyped | NoEvictionsAllowed | TwoParentsDoNotExist | NotEnoughFamilyMembers | MomNotReadyYet |
    DadTooTired | TwoMomsNotValid | TwoDadsNotValid | NewMomIsStillRearinToGo | NewDadIsStillRearinToGo |
    NewParentFreeBreedingsIncorrect | NewParentDnaDoesntMatchOld | NewParentNumberBreedingsIncorrect |
    NewChildDnaIncorrect | NewChildFreeBreedingsIncorrect | NewChildHasNonZeroBreedings |
    NewChildIncorrectParentInfo | TooManyBreedingsForKitty | NotEnoughFreeBreedings

  const NUM_FREE_BREEDINGS: U64 := 2

  /** How a child's DNA is hashed from its parents' DNA and breeding counts. */
  type DnaHash = (H256, H256, U128, U128) -> H256

  function DecodeParent(b: Bytes): Option<Parent>
    requires |b| >= 2
  {
    match (b[0] as int, b[1] as int)
    case (0, 0) => Some(Mom(MomRearinToGo))
    case (0, 1) => Some(Mom(HadBirthRecently))
    case (1, 0) => Some(Dad(DadRearinToGo))
    case (1, 1) => Some(Dad(Tired))
    case _ => None
  }

  function ExtractKitty(d: DynamicallyTypedData): Option<KittyData> {
    if d.typeId != KITTY_ID || |d.data| < 58 then None
    else
      match DecodeParent(d.data[..2])
      case None => None
      case Some(p) => Some(KittyData(p, U64At(d.data, 2), d.data[10..42], U128At(d.data, 42)))
  }

  predicate Ready(k: KittyData) {
    k.parent == Mom(MomRearinToGo) || k.parent == Dad(DadRearinToGo)
  }

  // The subtraction and the addition of the source, with machine wrap-around.

  function Decrement(n: U64): U64 { if n == 0 then MAX_U64 else n - 1 }

  function Increment(n: U128): U128 { if n == MAX_U128 then 0 else n + 1 }

  function MomCanBreed(mom: KittyData): Option<KittyError> {
    match mom.parent
    case Mom(HadBirthRecently) => Some(MomNotReadyYet)
    case Dad(_) => Some(TwoDadsNotValid)
    case Mom(MomRearinToGo) => if mom.numBreedings == MAX_U128 then Some(TooManyBreedingsForKitty) else None
  }

  function DadCanBreed(dad: KittyData): Option<KittyError> {
    match dad.parent
    case Dad(Tired) => Some(DadTooTired)
    case Mom(_) => Some(TwoMomsNotValid)
    case Dad(DadRearinToGo) => if dad.numBreedings == MAX_U128 then Some(TooManyBreedingsForKitty) else None
  }

  function CanBreed(mom: KittyData, dad: KittyData): Option<KittyError> {
    if MomCanBreed(mom).Some? then MomCanBreed(mom)
    else if DadCanBreed(dad).Some? then DadCanBreed(dad)
    else if mom.freeBreedings == 0 || dad.freeBreedings == 0 then Some(NotEnoughFreeBreedings)
    else None
  }

  function NewParent(old_: KittyData, new_: KittyData): Option<KittyError> {
    if new_.freeBreedings != Decrement(old_.freeBreedings) then Some(NewParentFreeBreedingsIncorrect)
    else if new_.numBreedings != Increment(old_.numBreedings) then Some(NewParentNumberBreedingsIncorrect)
    else if new_.dna != old_.dna then Some(NewParentDnaDoesntMatchOld)
    else None
  }

  function NewMom(old_: KittyData, new_: KittyData): Option<KittyError> {
    match new_.parent
    case Mom(MomRearinToGo) => Some(NewMomIsStillRearinToGo)
    case Dad(_) => Some(TwoDadsNotValid)
    case Mom(HadBirthRecently) => NewParent(old_, new_)
  }

  function NewDad(old_: KittyData, new_: KittyData): Option<KittyError> {
    match new_.parent
    case Dad(DadRearinToGo) => Some(NewDadIsStillRearinToGo)
    case Mom(_) => Some(TwoMomsNotValid)
    case Dad(Tired) => NewParent(old_, new_)
  }

  function Child(hash: DnaHash, mom: KittyData, dad: KittyData, child: KittyData): Option<KittyError> {
    if child.dna != hash(mom.dna, dad.dna, mom.numBreedings, dad.numBreedings) then Some(NewChildDnaIncorrect)
    else if child.freeBreedings != NUM_FREE_BREEDINGS then Some(NewChildFreeBreedingsIncorrect)
    else if child.numBreedings != 0 then Some(NewChildHasNonZeroBreedings)
    else if !Ready(child) then Some(NewChildIncorrectParentInfo)
    else None
  }

  function NewFamily(hash: DnaHash, mom: KittyData, dad: KittyData, s: seq<DynamicallyTypedData>): Option<KittyError> {
    if |s| != 3 then Some(NotEnoughFamilyMembers)
    else
      match (ExtractKitty(s[0]), ExtractKitty(s[1]), ExtractKitty(s[2]))
      case (Some(m), Some(d), Some(c)) =>
        if NewMom(mom, m).Some? then NewMom(mom, m)
        else if NewDad(dad, d).Some? then NewDad(dad, d)
        else Child(hash, m, d, c)
      case _ => Some(BadlyTyped)
  }

  function Check(hash: DnaHash, a: CheckArgs): CheckResult<KittyError> {
    if a.evicted != [] then Fail(NoEvictionsAllowed)
    else if |a.inputs| != 2 then Fail(TwoParentsDoNotExist)
    else
      match (ExtractKitty(a.inputs[0]), ExtractKitty(a.inputs[1]))
      case (Some(mom), Some(dad)) =>
        var e := CanBreed(mom, dad);
        if e.Some? then Fail(e.value)
        else
          var f := NewFamily(hash, mom, dad, a.outputs);
          if f.Some? then Fail(f.value) else Pass(0)
      case _ => Fail(BadlyTyped)
  }

  /** The counters of a parent after breeding, as mathematical integers. */
  predicate Aged(old_: KittyData, new_: KittyData) {
    && new_.freeBreedings as int == old_.freeBreedings - 1
    && new_.numBreedings as int == old_.numBreedings + 1
    && new_.dna == old_.dna && !Ready(new_)
  }

  /** The declarative form of a valid breeding, over typed data. */
  predicate Bred(hash: DnaHash, mom: KittyData, dad: KittyData, m: KittyData, d: KittyData, c: KittyData) {
    && mom.parent == Mom(MomRearinToGo) && dad.parent == Dad(DadRearinToGo)
    && mom.freeBreedings > 0 && dad.freeBreedings > 0
    && mom.numBreedings < MAX_U128 && dad.numBreedings < MAX_U128
    && m.parent == Mom(HadBirthRecently) && d.parent == Dad(Tired)
    && Aged(mom, m) && Aged(dad, d)
    && Ready(c) && c.numBreedings == 0 && c.freeBreedings == NUM_FREE_BREEDINGS
    && c.dna == hash(mom.dna, dad.dna, m.numBreedings, d.numBreedings)
  }

  lemma FamilyMeaning(hash: DnaHash, mom: KittyData, dad: KittyData, m: KittyData, d: KittyData, c: KittyData)
    ensures CanBreed(mom, dad).None? && NewMom(mom, m).None? && NewDad(dad, d).None? && Child(hash, m, d, c).None? <==>
            Bred(hash, mom, dad, m, d, c)
  {
  }

  /**
   The check passes exactly when two ready kitties become two tired ones whose counters moved by
   one (nothing wraps) and one ready kitten that has never bred.
   */
  lemma BreedingMeaning(hash: DnaHash, a: CheckArgs)
    ensures Check(hash, a).Pass? <==>
            && a.evicted == [] && |a.inputs| == 2 && |a.outputs| == 3
            && var (mom, dad) := (ExtractKitty(a.inputs[0]), ExtractKitty(a.inputs[1]));
               var (m, d, c) := (ExtractKitty(a.outputs[0]), ExtractKitty(a.outputs[1]), ExtractKitty(a.outputs[2]));
               && mom.Some? && dad.Some? && m.Some? && d.Some? && c.Some?
               && Bred(hash, mom.value, dad.value, m.value, d.value, c.value)
  {
    if |a.inputs| == 2 && |a.outputs| == 3 {
      var (mom, dad) := (ExtractKitty(a.inputs[0]), ExtractKitty(a.inputs[1]));
      var (m, d, c) := (ExtractKitty(a.outputs[0]), ExtractKitty(a.outputs[1]), ExtractKitty(a.outputs[2]));
      if mom.Some? && dad.Some? && m.Some? && d.Some? && c.Some? {
        FamilyMeaning(hash, mom.value, dad.value, m.value, d.value, c.value);
      }
    }
  }

  predicate IsKitty(d: DynamicallyTypedData) { ExtractKitty(d).Some? }

  predicate IsReady(d: DynamicallyTypedData) { IsKitty(d) && Ready(ExtractKitty(d).value) }

  /** Who is ready before and after a breeding. */
  predicate Family(a: CheckArgs) {
    && a.evicted == [] && |a.inputs| == 2 && |a.outputs| == 3
    && IsReady(a.inputs[0]) && IsReady(a.inputs[1]) && a.inputs[0] != a.inputs[1]
    && IsKitty(a.outputs[0]) && !IsReady(a.outputs[0])
    && IsKitty(a.outputs[1]) && !IsReady(a.outputs[1])
    && IsReady(a.outputs[2])
  }

  lemma ParentsAndKitten(hash: DnaHash, a: CheckArgs)
    requires Check(hash, a).Pass?
    ensures Family(a)
  {
    BreedingMeaning(hash, a);
  }

  // ----- What breeding asks for, in the order of the source

  /** The parents: a mom who has not just given birth, and a dad who is not tired. */
  function ParentRules(mom: KittyData, dad: KittyData): seq<Rule<KittyError>> {
    [Rule(mom.parent != Mom(HadBirthRecently), MomNotReadyYet), Rule(mom.parent.Mom?, TwoDadsNotValid),
     Rule(mom.numBreedings < MAX_U128, TooManyBreedingsForKitty)] +
    [Rule(dad.parent != Dad(Tired), DadTooTired), Rule(dad.parent.Dad?, TwoMomsNotValid),
     Rule(dad.numBreedings < MAX_U128, TooManyBreedingsForKitty),
     Rule(mom.freeBreedings > 0 && dad.freeBreedings > 0, NotEnoughFreeBreedings)]
  }

  /** A parent afterwards: one free breeding less and one breeding more, in machine integers. */
  function AgedRules(old_: KittyData, new_: KittyData): seq<Rule<KittyError>> {
    [Rule(new_.freeBreedings == (old_.freeBreedings - 1) % (MAX_U64 + 1), NewParentFreeBreedingsIncorrect),
     Rule(new_.numBreedings == (old_.numBreedings + 1) % (MAX_U128 + 1), NewParentNumberBreedingsIncorrect),
     Rule(new_.dna == old_.dna, NewParentDnaDoesntMatchOld)]
  }

  function MomRules(old_: KittyData, new_: KittyData): seq<Rule<KittyError>> {
    [Rule(new_.parent != Mom(MomRearinToGo), NewMomIsStillRearinToGo), Rule(new_.parent.Mom?, TwoDadsNotValid)] +
    AgedRules(old_, new_)
  }

  function DadRules(old_: KittyData, new_: KittyData): seq<Rule<KittyError>> {
    [Rule(new_.parent != Dad(DadRearinToGo), NewDadIsStillRearinToGo), Rule(new_.parent.Dad?, TwoMomsNotValid)] +
    AgedRules(old_, new_)
  }

  function ChildRules(hash: DnaHash, mom: KittyData, dad: KittyData, child: KittyData): seq<Rule<KittyError>> {
    [Rule(child.dna == hash(mom.dna, dad.dna, mom.numBreedings, dad.numBreedings), NewChildDnaIncorrect),
     Rule(child.freeBreedings == 2, NewChildFreeBreedingsIncorrect),
     Rule(child.numBreedings == 0, NewChildHasNonZeroBreedings),
     Rule(child.parent == Mom(MomRearinToGo) || child.parent == Dad(DadRearinToGo), NewChildIncorrectParentInfo)]
  }

  function FamilyRules(hash: DnaHash, a: CheckArgs): seq<Rule<KittyError>>
    requires |a.inputs| == 2 && ExtractKitty(a.inputs[0]).Some? && ExtractKitty(a.inputs[1]).Some?
  {
    var mom, dad := ExtractKitty(a.inputs[0]).value, ExtractKitty(a.inputs[1]).value;
    ParentRules(mom, dad) + OutputRules(hash, mom, dad, a.outputs)
  }

  function OutputRules(hash: DnaHash, mom: KittyData, dad: KittyData,
                       s: seq<DynamicallyTypedData>): seq<Rule<KittyError>> {
    [Rule(|s| == 3, NotEnoughFamilyMembers)] + if |s| == 3 then TypedRules(hash, mom, dad, s) else []
  }

  function TypedRules(hash: DnaHash, mom: KittyData, dad: KittyData,
                      s: seq<DynamicallyTypedData>): seq<Rule<KittyError>>
    requires |s| == 3
  {
    var (m, d, c) := (ExtractKitty(s[0]), ExtractKitty(s[1]), ExtractKitty(s[2]));
    var typed := m.Some? && d.Some? && c.Some?;
    [Rule(typed, BadlyTyped)] +
    if typed then MomRules(mom, m.value) + (DadRules(dad, d.value) + ChildRules(hash, m.value, d.value, c.value))
    else []
  }

  function Rules(hash: DnaHash, a: CheckArgs): seq<Rule<KittyError>> {
    var typed := |a.inputs| == 2 && ExtractKitty(a.inputs[0]).Some? && ExtractKitty(a.inputs[1]).Some?;
    [Rule(a.evicted == [], NoEvictionsAllowed), Rule(|a.inputs| == 2, TwoParentsDoNotExist),
     Rule(typed, BadlyTyped)] +
    if typed then FamilyRules(hash, a) else []
  }

  lemma {:induction false} ParentsObey(mom: KittyData, dad: KittyData)
    ensures Obeys(Refusal(CanBreed(mom, dad)), ParentRules(mom, dad), 0)
  {
    var early, late := ParentRules(mom, dad)[..3], ParentRules(mom, dad)[3..];
    var r := Refusal(CanBreed(mom, dad));
    if MomCanBreed(mom).None? {
      assert FirstBroken(late, 0) || FirstBroken(late, 1) || FirstBroken(late, 2) || FirstBroken(late, 3) || r.Pass?;
    } else {
      assert FirstBroken(early, 0) || FirstBroken(early, 1) || FirstBroken(early, 2);
    }
    ObeysStages(r, early, late, 0);
    assert early + late == ParentRules(mom, dad);
  }

  lemma Wraps(o: KittyData)
    ensures Decrement(o.freeBreedings) == (o.freeBreedings - 1) % (MAX_U64 + 1)
    ensures Increment(o.numBreedings) == (o.numBreedings + 1) % (MAX_U128 + 1)
  {
  }

  lemma {:induction false} AgedObeys(old_: KittyData, new_: KittyData)
    ensures Obeys(Refusal(NewParent(old_, new_)), AgedRules(old_, new_), 0)
  {
    Wraps(old_);
    var rules := AgedRules(old_, new_);
    assert FirstBroken(rules, 0) || FirstBroken(rules, 1) || FirstBroken(rules, 2) || NewParent(old_, new_).None?;
  }

  lemma {:induction false} NewParentsObey(old_: KittyData, new_: KittyData)
    ensures Obeys(Refusal(NewMom(old_, new_)), MomRules(old_, new_), 0)
    ensures Obeys(Refusal(NewDad(old_, new_)), DadRules(old_, new_), 0)
  {
    AgedObeys(old_, new_);
    var m := [Rule(new_.parent != Mom(MomRearinToGo), NewMomIsStillRearinToGo),
              Rule(new_.parent.Mom?, TwoDadsNotValid)];
    var d := [Rule(new_.parent != Dad(DadRearinToGo), NewDadIsStillRearinToGo),
              Rule(new_.parent.Dad?, TwoMomsNotValid)];
    assert FirstBroken(m, 0) || FirstBroken(m, 1) || (m[0].holds && m[1].holds);
    assert FirstBroken(d, 0) || FirstBroken(d, 1) || (d[0].holds && d[1].holds);
    ObeysStages(Refusal(NewMom(old_, new_)), m, AgedRules(old_, new_), 0);
    ObeysStages(Refusal(NewDad(old_, new_)), d, AgedRules(old_, new_), 0);
  }

  lemma {:induction false} ChildObeys(hash: DnaHash, m: KittyData, d: KittyData, c: KittyData)
    ensures Obeys(Refusal(Child(hash, m, d, c)), ChildRules(hash, m, d, c), 0)
  {
    var rules := ChildRules(hash, m, d, c);
    assert FirstBroken(rules, 0) || FirstBroken(rules, 1) || FirstBroken(rules, 2) || FirstBroken(rules, 3) ||
           Child(hash, m, d, c).None?;
  }

  lemma {:induction false} FamilyObeys(hash: DnaHash, mom: KittyData, dad: KittyData, m: KittyData, d: KittyData,
                                       c: KittyData, r: Option<KittyError>)
    requires r == if NewMom(mom, m).Some? then NewMom(mom, m)
                  else if NewDad(dad, d).Some? then NewDad(dad, d)
                  else Child(hash, m, d, c)
    ensures Obeys(Refusal(r), MomRules(mom, m) + (DadRules(dad, d) + ChildRules(hash, m, d, c)), 0)
  {
    NewParentsObey(mom, m);
    NewParentsObey(dad, d);
    ChildObeys(hash, m, d, c);
    if NewMom(mom, m).None? {
      ObeysStages(Refusal(r), DadRules(dad, d), ChildRules(hash, m, d, c), 0);
    }
    ObeysStages(Refusal(r), MomRules(mom, m), DadRules(dad, d) + ChildRules(hash, m, d, c), 0);
  }

  lemma {:induction false} OutputsObey(hash: DnaHash, mom: KittyData, dad: KittyData, s: seq<DynamicallyTypedData>)
    ensures Obeys(Refusal(NewFamily(hash, mom, dad, s)), OutputRules(hash, mom, dad, s), 0)
  {
    var r := NewFamily(hash, mom, dad, s);
    if |s| == 3 {
      var (m, d, c) := (ExtractKitty(s[0]), ExtractKitty(s[1]), ExtractKitty(s[2]));
      var typed := m.Some? && d.Some? && c.Some?;
      if typed {
        FamilyObeys(hash, mom, dad, m.value, d.value, c.value, r);
      }
      OneRule(Refusal(r), Rule(typed, BadlyTyped),
              if typed
              then MomRules(mom, m.value) + (DadRules(dad, d.value) + ChildRules(hash, m.value, d.value, c.value))
              else []);
    }
    OneRule(Refusal(r), Rule(|s| == 3, NotEnoughFamilyMembers),
            if |s| == 3 then TypedRules(hash, mom, dad, s) else []);
  }

  lemma {:induction false} OneRule<E>(r: CheckResult<E>, rule: Rule<E>, rest: seq<Rule<E>>)
    requires if rule.holds then Obeys(r, rest, 0) else r == Fail(rule.otherwise)
    ensures Obeys(r, [rule] + rest, 0)
  {
    assert rule.holds || FirstBroken([rule], 0);
    ObeysStages(r, [rule], rest, 0);
  }

  /** The check reports the first of these that does not hold. */
  lemma {:induction false} ObeysRules(hash: DnaHash, a: CheckArgs)
    ensures Obeys(Check(hash, a), Rules(hash, a), 0)
  {
    var typed := |a.inputs| == 2 && ExtractKitty(a.inputs[0]).Some? && ExtractKitty(a.inputs[1]).Some?;
    if typed && a.evicted == [] {
      FamilyRulesObeyed(hash, a);
    }
    EarlyRules(Check(hash, a), a, typed, if typed then FamilyRules(hash, a) else []);
  }

  lemma {:induction false} FamilyRulesObeyed(hash: DnaHash, a: CheckArgs)
    requires a.evicted == [] && |a.inputs| == 2
    requires ExtractKitty(a.inputs[0]).Some? && ExtractKitty(a.inputs[1]).Some?
    ensures Obeys(Check(hash, a), FamilyRules(hash, a), 0)
  {
    var mom, dad := ExtractKitty(a.inputs[0]).value, ExtractKitty(a.inputs[1]).value;
    ParentsObey(mom, dad);
    OutputsObey(hash, mom, dad, a.outputs);
    ObeysStages(Check(hash, a), ParentRules(mom, dad), OutputRules(hash, mom, dad, a.outputs), 0);
  }

  lemma {:induction false} EarlyRules(r: CheckResult<KittyError>, a: CheckArgs, typed: bool,
                                      late: seq<Rule<KittyError>>)
    requires typed ==> |a.inputs| == 2
    requires if a.evicted != [] then r == Fail(NoEvictionsAllowed)
             else if |a.inputs| != 2 then r == Fail(TwoParentsDoNotExist)
             else if !typed then r == Fail(BadlyTyped)
             else Obeys(r, late, 0)
    ensures Obeys(r, [Rule(a.evicted == [], NoEvictionsAllowed), Rule(|a.inputs| == 2, TwoParentsDoNotExist),
                      Rule(typed, BadlyTyped)] + late, 0)
  {
    var early := [Rule(a.evicted == [], NoEvictionsAllowed), Rule(|a.inputs| == 2, TwoParentsDoNotExist),
                  Rule(typed, BadlyTyped)];
    assert FirstBroken(early, 0) || FirstBroken(early, 1) || FirstBroken(early, 2) ||
           (early[0].holds && early[1].holds && early[2].holds);
    ObeysStages(r, early, late, 0);
  }
}
