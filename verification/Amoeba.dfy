/** The amoeba piece (`wardrobe/amoeba/src/lib.rs`). */
module Amoeba {
  import opened Scale
  import opened Types
  import opened Typing

  datatype AmoebaCall = Mitosis | Death | Creation

  datatype AmoebaError =
    BadlyTypedInput | BadlyTypedOutput | NoEvictionsAllowed | CreatedNothing | CreatedTooMany |
    CreationMayNotConsume | NoVictim | TooManyVictims | DeathMayNotCreate | WrongNumberOfDaughters |
    WrongNumberOfMothers | WrongGeneration

  /** An amoeba's generation; the four arbitrary bytes after it are only required to be there. */
  function ExtractGeneration(d: DynamicallyTypedData): Option<U32> {
    if d.typeId == AMOEBA_ID && |d.data| >= 8 then Some(U32At(d.data, 0)) else None
  }

  /** The addition of the source, with machine wrap-around. */
  function NextGeneration(g: U32): U32 { if g == MAX_U32 then 0 else g + 1 }

  function Check(call: AmoebaCall, a: CheckArgs): CheckResult<AmoebaError> {
    if a.evicted != [] then Fail(NoEvictionsAllowed)
    else
      match call
      case Mitosis =>
        if |a.inputs| != 1 then Fail(WrongNumberOfMothers)
        else if ExtractGeneration(a.inputs[0]).None? then Fail(BadlyTypedInput)
        else if |a.outputs| != 2 then Fail(WrongNumberOfDaughters)
        else if ExtractGeneration(a.outputs[0]).None? || ExtractGeneration(a.outputs[1]).None?
        then Fail(BadlyTypedOutput)
        else
          var g := NextGeneration(ExtractGeneration(a.inputs[0]).value);
          if ExtractGeneration(a.outputs[0]).value != g || ExtractGeneration(a.outputs[1]).value != g
          then Fail(WrongGeneration) else Pass(0)
      case Death =>
        if a.inputs == [] then Fail(NoVictim)
        else if |a.inputs| != 1 then Fail(TooManyVictims)
        else if ExtractGeneration(a.inputs[0]).None? then Fail(BadlyTypedInput)
        else if a.outputs != [] then Fail(DeathMayNotCreate)
        else Pass(0)
      case Creation =>
        if a.outputs == [] then Fail(CreatedNothing)
        else if |a.outputs| != 1 then Fail(CreatedTooMany)
        else if ExtractGeneration(a.outputs[0]).None? then Fail(BadlyTypedOutput)
        else if ExtractGeneration(a.outputs[0]).value != 0 then Fail(WrongGeneration)
        else if a.inputs != [] then Fail(CreationMayNotConsume)
        else Pass(0)
  }

  /** The generations of a list of amoebas; nothing if one of them is no amoeba. */
  function Generations(s: seq<DynamicallyTypedData>): Option<seq<U32>> {
    if s == [] then Some([])
    else
      match (ExtractGeneration(s[0]), Generations(s[1..]))
      case (Some(g), Some(rest)) => Some([g] + rest)
      case _ => None
  }

  /** The life cycle in terms of generations only: from nothing, into two of the next one, into nothing. */
  lemma LifeCycle(call: AmoebaCall, a: CheckArgs)
    ensures Check(call, a).Pass? <==>
            && a.evicted == []
            && match call
               case Creation => a.inputs == [] && Generations(a.outputs) == Some([0])
               case Death => a.outputs == [] && |a.inputs| == 1 && Generations(a.inputs).Some?
               case Mitosis =>
                 && |a.inputs| == 1 && Generations(a.inputs).Some?
                 && var g := NextGeneration(Generations(a.inputs).value[0]);
                    Generations(a.outputs) == Some([g, g])
  {
    GenerationsLength(a.inputs);
    GenerationsLength(a.outputs);
    FewGenerations(a.inputs);
    FewGenerations(a.outputs);
  }

  lemma {:induction false} GenerationsLength(s: seq<DynamicallyTypedData>)
    ensures Generations(s).Some? ==> |Generations(s).value| == |s|
  {
    if s != [] {
      GenerationsLength(s[1..]);
    }
  }

  lemma {:induction false} FewGenerations(s: seq<DynamicallyTypedData>)
    ensures |s| == 1 ==> (Generations(s).Some? <==> ExtractGeneration(s[0]).Some?)
    ensures |s| == 1 && Generations(s).Some? ==> Generations(s).value == [ExtractGeneration(s[0]).value]
    ensures |s| == 2 ==> (Generations(s).Some? <==> ExtractGeneration(s[0]).Some? && ExtractGeneration(s[1]).Some?)
    ensures |s| == 2 && Generations(s).Some? ==>
              Generations(s).value == [ExtractGeneration(s[0]).value, ExtractGeneration(s[1]).value]
  {
    if |s| == 1 {
      assert s[1..] == [];
    } else if |s| == 2 {
      FewGenerations(s[1..]);
      assert s[1..][0] == s[1];
    }
  }

  /** What each call asks for, in the order of the source, and the error that reports its absence. */
  function Rules(call: AmoebaCall, a: CheckArgs): seq<Rule<AmoebaError>> {
    var ins, outs := Generations(a.inputs), Generations(a.outputs);
    [Rule(a.evicted == [], NoEvictionsAllowed)] +
    match call
    case Mitosis =>
      [Rule(|a.inputs| == 1, WrongNumberOfMothers), Rule(ins.Some?, BadlyTypedInput),
       Rule(|a.outputs| == 2, WrongNumberOfDaughters), Rule(outs.Some?, BadlyTypedOutput),
       Rule(|a.inputs| == 1 && ins.Some? ==>
              outs == Some([NextGeneration(ins.value[0]), NextGeneration(ins.value[0])]), WrongGeneration)]
    case Death =>
      [Rule(a.inputs != [], NoVictim), Rule(|a.inputs| == 1, TooManyVictims), Rule(ins.Some?, BadlyTypedInput),
       Rule(a.outputs == [], DeathMayNotCreate)]
    case Creation =>
      [Rule(a.outputs != [], CreatedNothing), Rule(|a.outputs| == 1, CreatedTooMany),
       Rule(outs.Some?, BadlyTypedOutput), Rule(outs == Some([0]), WrongGeneration),
       Rule(a.inputs == [], CreationMayNotConsume)]
  }

  /** The check reports the first of these that does not hold. */
  lemma {:induction false} ObeysRules(call: AmoebaCall, a: CheckArgs)
    ensures Obeys(Check(call, a), Rules(call, a), 0)
  {
    GenerationsLength(a.inputs);
    GenerationsLength(a.outputs);
    FewGenerations(a.inputs);
    FewGenerations(a.outputs);
    var early, late := Rules(call, a)[..1], Rules(call, a)[1..];
    var r := Check(call, a);
    if a.evicted == [] {
      match call {
        case Mitosis =>
          assert FirstBroken(late, 0) || FirstBroken(late, 1) || FirstBroken(late, 2) || FirstBroken(late, 3) ||
                 FirstBroken(late, 4) || r.Pass?;
        case Death =>
          assert FirstBroken(late, 0) || FirstBroken(late, 1) || FirstBroken(late, 2) || FirstBroken(late, 3) ||
                 r.Pass?;
        case Creation =>
          assert FirstBroken(late, 0) || FirstBroken(late, 1) || FirstBroken(late, 2) || FirstBroken(late, 3) ||
                 FirstBroken(late, 4) || r.Pass?;
      }
    } else {
      assert FirstBroken(early, 0);
    }
    ObeysStages(r, early, late, 0);
    assert early + late == Rules(call, a);
  }
}
