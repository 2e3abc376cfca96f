/** The parachain piece (`wardrobe/parachain/src/lib.rs`). */
module Parachain {
  import opened Scale
  import opened Types
  import opened Typing

  /** The part of the parachain inherent data that the runtime looks at. */
  datatype ParachainInfo = ParachainInfo(parentHead: Bytes, relayParentNumber: U32, relayParentStorageRoot: H256)

  datatype ParachainError =
    BadlyTyped | MissingNewInfo | ExtraOutputs | MissingPreviousInfo | ExtraInputs | RelayBlockNotIncreasing

  /** How the (library defined) inherent data decodes. */
  type InfoDecoder = Bytes -> Option<ParachainInfo>

  const RELAY_PARENT_NUMBER_KEY: Bytes :=
    [114, 101, 108, 97, 121, 95, 112, 97, 114, 101, 110, 116, 95, 110, 117, 109, 98, 101, 114]

  function ExtractInfo(dec: InfoDecoder, d: DynamicallyTypedData): Option<ParachainInfo> {
    if d.typeId == PARACHAIN_ID then dec(d.data) else None
  }

  function Check(dec: InfoDecoder, a: CheckArgs): CheckResult<ParachainError> {
    if a.outputs == [] then Fail(MissingNewInfo)
    else if |a.outputs| != 1 then Fail(ExtraOutputs)
    else
      match ExtractInfo(dec, a.outputs[0])
      case None => Fail(BadlyTyped)
      case Some(current) =>
        if a.inputs != [] then Fail(ExtraInputs)
        else if a.evicted == [] then Fail(MissingPreviousInfo)
        else if |a.evicted| != 1 then Fail(ExtraInputs)
        else
          match ExtractInfo(dec, a.evicted[0])
          case None => Fail(BadlyTyped)
          case Some(previous) =>
            if current.relayParentNumber <= previous.relayParentNumber then Fail(RelayBlockNotIncreasing)
            else Pass(0)
  }

  /** The side effect: the number is stored once the output decodes, even if a later test fails. */
  function Writes(dec: InfoDecoder, a: CheckArgs): Storage {
    if |a.outputs| != 1 then map[]
    else
      match ExtractInfo(dec, a.outputs[0])
      case None => map[]
      case Some(current) => map[RELAY_PARENT_NUMBER_KEY := EncodeU32(current.relayParentNumber)]
  }

  /** What the check asks for, in the order of the source. */
  function Rules(dec: InfoDecoder, a: CheckArgs): seq<Rule<ParachainError>> {
    var n := if a.outputs == [] then None else ExtractInfo(dec, a.outputs[0]);
    var o := if a.evicted == [] then None else ExtractInfo(dec, a.evicted[0]);
    [Rule(a.outputs != [], MissingNewInfo), Rule(|a.outputs| == 1, ExtraOutputs), Rule(n.Some?, BadlyTyped),
     Rule(a.inputs == [], ExtraInputs)] +
    [Rule(a.evicted != [], MissingPreviousInfo), Rule(|a.evicted| == 1, ExtraInputs), Rule(o.Some?, BadlyTyped),
     Rule(n.Some? && o.Some? ==> n.value.relayParentNumber > o.value.relayParentNumber, RelayBlockNotIncreasing)]
  }

  /**
   The check reports the first of these that does not hold. The new number is stored as soon as the
   first three hold, whatever the check says in the end.
   */
  lemma {:induction false} ObeysRules(dec: InfoDecoder, a: CheckArgs)
    ensures Obeys(Check(dec, a), Rules(dec, a), 0)
    ensures if |a.outputs| == 1 && ExtractInfo(dec, a.outputs[0]).Some?
            then Writes(dec, a) ==
                 map[RELAY_PARENT_NUMBER_KEY := EncodeU32(ExtractInfo(dec, a.outputs[0]).value.relayParentNumber)]
            else Writes(dec, a) == map[]
  {
    var early, late := Rules(dec, a)[..4], Rules(dec, a)[4..];
    var r := Check(dec, a);
    if forall i :: 0 <= i < 4 ==> early[i].holds {
      assert early[0].holds && early[1].holds && early[2].holds && early[3].holds;
      assert FirstBroken(late, 0) || FirstBroken(late, 1) || FirstBroken(late, 2) || FirstBroken(late, 3) || r.Pass?;
    } else {
      assert FirstBroken(early, 0) || FirstBroken(early, 1) || FirstBroken(early, 2) || FirstBroken(early, 3);
    }
    ObeysStages(r, early, late, 0);
    assert early + late == Rules(dec, a);
  }
}
