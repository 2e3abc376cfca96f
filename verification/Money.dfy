/** The money piece (`wardrobe/money/src/lib.rs`) for the coin with identifier zero. */
module Money {
  import opened Scale
  import opened Types
  import opened Typing

  datatype MoneyCall = Spend | Mint

  datatype MoneyError =
    BadlyTyped | NoEvictionsAllowed | MintingWithInputs | MintingNothing | SpendingNothing |
    OutputsExceedInputs | ValueOverflow | ZeroValueCoin

  function ExtractCoin(d: DynamicallyTypedData): Option<U128> {
    if d.typeId == COIN_ID && |d.data| >= 16 then Some(U128At(d.data, 0)) else None
  }

  /** The value a payload carries; anything that is not a coin is worth nothing. */
  function Worth(d: DynamicallyTypedData): nat {
    match ExtractCoin(d)
    case Some(v) => v
    case None => 0
  }

  function Value(s: seq<DynamicallyTypedData>): nat {
    if s == [] then 0 else Value(s[..|s| - 1]) + Worth(s[|s| - 1])
  }

  datatype Tally = Sum(total: U128) | Bad(error: MoneyError)

  /** The checked running total of a list, or the error that stops it. */
  function TallyOf(s: seq<DynamicallyTypedData>, allowZero: bool): Tally {
    if s == [] then Sum(0)
    else
      match TallyOf(s[..|s| - 1], allowZero)
      case Bad(e) => Bad(e)
      case Sum(total) => TallyNext(total, s[|s| - 1], allowZero)
  }

  function TallyNext(total: U128, d: DynamicallyTypedData, allowZero: bool): Tally {
    match ExtractCoin(d)
    case None => Bad(BadlyTyped)
    case Some(v) =>
      if v == 0 && !allowZero then Bad(ZeroValueCoin)
      else if total + v > MAX_U128 then Bad(ValueOverflow)
      else Sum(total + v)
  }

  /** The first badly typed or worthless coin of a list. */
  function MintError(s: seq<DynamicallyTypedData>): Option<MoneyError> {
    if s == [] then None
    else
      match MintError(s[..|s| - 1])
      case Some(e) => Some(e)
      case None => MintErrorOf(s[|s| - 1])
  }

  function MintErrorOf(d: DynamicallyTypedData): Option<MoneyError> {
    match ExtractCoin(d)
    case None => Some(BadlyTyped)
    case Some(v) => if v == 0 then Some(ZeroValueCoin) else None
  }

  function Check(call: MoneyCall, a: CheckArgs): CheckResult<MoneyError> {
    if a.evicted != [] then Fail(NoEvictionsAllowed)
    else
      match call
      case Spend =>
        if a.inputs == [] then Fail(SpendingNothing)
        else
          (match TallyOf(a.inputs, true)
           case Bad(e) => Fail(e)
           case Sum(totalIn) =>
             match TallyOf(a.outputs, false)
             case Bad(e) => Fail(e)
             case Sum(totalOut) =>
               if totalOut > totalIn then Fail(OutputsExceedInputs)
               else Pass(if totalIn - totalOut < MAX_U64 then totalIn - totalOut else MAX_U64))
      case Mint =>
        if a.inputs != [] then Fail(MintingWithInputs)
        else if a.outputs == [] then Fail(MintingNothing)
        else
          match MintError(a.outputs)
          case Some(e) => Fail(e)
          case None => Pass(0)
  }

  // ----- The loops of the check

  lemma {:induction false} TallyPrefix(s: seq<DynamicallyTypedData>, allowZero: bool, n: nat)
    requires n <= |s| && TallyOf(s[..n], allowZero).Bad?
    ensures TallyOf(s, allowZero) == TallyOf(s[..n], allowZero)
  {
    if n == |s| {
      assert s[..n] == s;
    } else {
      assert s[..|s| - 1][..n] == s[..n];
      TallyPrefix(s[..|s| - 1], allowZero, n);
    }
  }

  method AddUp(s: seq<DynamicallyTypedData>, allowZero: bool) returns (r: Tally)
    ensures r == TallyOf(s, allowZero)
  {
    var total: U128 := 0;
    for k := 0 to |s|
      invariant TallyOf(s[..k], allowZero) == Sum(total)
    {
      assert s[..k + 1][..k] == s[..k];
      match ExtractCoin(s[k]) {
        case None =>
          TallyPrefix(s, allowZero, k + 1);
          return Bad(BadlyTyped);
        case Some(v) =>
          if v == 0 && !allowZero {
            TallyPrefix(s, allowZero, k + 1);
            return Bad(ZeroValueCoin);
          }
          if total + v > MAX_U128 {
            TallyPrefix(s, allowZero, k + 1);
            return Bad(ValueOverflow);
          }
          total := total + v;
      }
    }
    assert s[..|s|] == s;
    r := Sum(total);
  }

  lemma {:induction false} MintErrorPrefix(s: seq<DynamicallyTypedData>, n: nat)
    requires n <= |s| && MintError(s[..n]).Some?
    ensures MintError(s) == MintError(s[..n])
  {
    if n == |s| {
      assert s[..n] == s;
    } else {
      assert s[..|s| - 1][..n] == s[..n];
      MintErrorPrefix(s[..|s| - 1], n);
    }
  }

  method CheckMoney(call: MoneyCall, a: CheckArgs) returns (r: CheckResult<MoneyError>)
    ensures r == Check(call, a)
  {
    if a.evicted != [] {
      return Fail(NoEvictionsAllowed);
    }
    match call {
      case Spend =>
        if a.inputs == [] {
          return Fail(SpendingNothing);
        }
        var totalIn := AddUp(a.inputs, true);
        if totalIn.Bad? {
          return Fail(totalIn.error);
        }
        var totalOut := AddUp(a.outputs, false);
        if totalOut.Bad? {
          return Fail(totalOut.error);
        }
        if totalOut.total > totalIn.total {
          return Fail(OutputsExceedInputs);
        }
        var burned := totalIn.total - totalOut.total;
        r := Pass(if burned < MAX_U64 then burned else MAX_U64);
      case Mint =>
        if a.inputs != [] {
          return Fail(MintingWithInputs);
        }
        if a.outputs == [] {
          return Fail(MintingNothing);
        }
        for k := 0 to |a.outputs|
          invariant MintError(a.outputs[..k]).None?
        {
          assert a.outputs[..k + 1][..k] == a.outputs[..k];
          var e := MintErrorOf(a.outputs[k]);
          if e.Some? {
            MintErrorPrefix(a.outputs, k + 1);
            return Fail(e.value);
          }
        }
        assert a.outputs[..|a.outputs|] == a.outputs;
        r := Pass(0);
    }
  }

  // ----- What passing means

  predicate Coins(s: seq<DynamicallyTypedData>) {
    forall i :: 0 <= i < |s| ==> ExtractCoin(s[i]).Some?
  }

  predicate Positive(s: seq<DynamicallyTypedData>) {
    forall i :: 0 <= i < |s| ==> ExtractCoin(s[i]).Some? && ExtractCoin(s[i]).value > 0
  }

  lemma {:induction false} TallyMeaning(s: seq<DynamicallyTypedData>, allowZero: bool)
    ensures TallyOf(s, allowZero).Sum? <==>
            (if allowZero then Coins(s) else Positive(s)) && Value(s) <= MAX_U128
    ensures TallyOf(s, allowZero).Sum? ==> TallyOf(s, allowZero).total == Value(s)
  {
    if s == [] {
    } else {
      var p := s[..|s| - 1];
      TallyMeaning(p, allowZero);
      assert Coins(s) <==> Coins(p) && ExtractCoin(s[|s| - 1]).Some?;
      assert Positive(s) <==> Positive(p) && ExtractCoin(s[|s| - 1]).Some? && ExtractCoin(s[|s| - 1]).value > 0;
    }
  }

  lemma {:induction false} MintMeaning(s: seq<DynamicallyTypedData>)
    ensures MintError(s).None? <==> Positive(s)
  {
    if s == [] {
    } else {
      var p := s[..|s| - 1];
      MintMeaning(p);
      assert Positive(s) <==> Positive(p) && MintErrorOf(s[|s| - 1]).None?;
    }
  }

  /** A spend passes exactly when real coins pay for positive coins; the surplus sets the priority. */
  lemma SpendMeaning(a: CheckArgs)
    ensures Check(Spend, a).Pass? <==>
            && a.evicted == [] && a.inputs != [] && Coins(a.inputs) && Positive(a.outputs)
            && Value(a.outputs) <= Value(a.inputs) <= MAX_U128
    ensures Check(Spend, a).Pass? && Value(a.inputs) - Value(a.outputs) < MAX_U64 ==>
              Check(Spend, a).priority == Value(a.inputs) - Value(a.outputs)
  {
    TallyMeaning(a.inputs, true);
    TallyMeaning(a.outputs, false);
  }

  lemma MintPasses(a: CheckArgs)
    ensures Check(Mint, a).Pass? <==> a.evicted == [] && a.inputs == [] && a.outputs != [] && Positive(a.outputs)
  {
    MintMeaning(a.outputs);
  }

  // ----- What each call asks for, in the order of the source

  /** Coin after coin: typed, worth something, and adding up within 128 bits. */
  function TallyRules(s: seq<DynamicallyTypedData>, allowZero: bool): seq<Rule<MoneyError>> {
    if s == [] then []
    else
      var d := s[|s| - 1];
      TallyRules(s[..|s| - 1], allowZero) +
      [Rule(ExtractCoin(d).Some?, BadlyTyped), Rule(allowZero || Worth(d) > 0, ZeroValueCoin),
       Rule(Value(s) <= MAX_U128, ValueOverflow)]
  }

  function MintRules(s: seq<DynamicallyTypedData>): seq<Rule<MoneyError>> {
    if s == [] then []
    else
      var d := s[|s| - 1];
      MintRules(s[..|s| - 1]) + [Rule(ExtractCoin(d).Some?, BadlyTyped), Rule(Worth(d) > 0, ZeroValueCoin)]
  }

  function Rules(call: MoneyCall, a: CheckArgs): seq<Rule<MoneyError>> {
    match call
    case Spend =>
      [Rule(a.evicted == [], NoEvictionsAllowed), Rule(a.inputs != [], SpendingNothing)] +
      (TallyRules(a.inputs, true) +
       (TallyRules(a.outputs, false) + [Rule(Value(a.outputs) <= Value(a.inputs), OutputsExceedInputs)]))
    case Mint =>
      [Rule(a.evicted == [], NoEvictionsAllowed), Rule(a.inputs == [], MintingWithInputs),
       Rule(a.outputs != [], MintingNothing)] + MintRules(a.outputs)
  }

  /** What is burned, capped at 64 bits, is the priority. */
  function Priority(call: MoneyCall, a: CheckArgs): nat {
    var burned := Value(a.inputs) - Value(a.outputs);
    if call.Mint? || burned < 0 then 0 else if burned < MAX_U64 then burned else MAX_U64
  }

  function TallyResult(t: Tally): CheckResult<MoneyError> {
    if t.Bad? then Fail(t.error) else Pass(0)
  }

  lemma {:induction false} TallyObeys(s: seq<DynamicallyTypedData>, allowZero: bool)
    ensures Obeys(TallyResult(TallyOf(s, allowZero)), TallyRules(s, allowZero), 0)
  {
    if s != [] {
      var p, d := s[..|s| - 1], s[|s| - 1];
      TallyObeys(p, allowZero);
      TallyMeaning(p, allowZero);
      var late := [Rule(ExtractCoin(d).Some?, BadlyTyped), Rule(allowZero || Worth(d) > 0, ZeroValueCoin),
                   Rule(Value(s) <= MAX_U128, ValueOverflow)];
      var r := TallyResult(TallyOf(s, allowZero));
      if TallyOf(p, allowZero).Sum? {
        assert FirstBroken(late, 0) || FirstBroken(late, 1) || FirstBroken(late, 2) || r.Pass?;
      }
      ObeysStages(r, TallyRules(p, allowZero), late, 0);
    }
  }

  lemma {:induction false} MintObeys(s: seq<DynamicallyTypedData>)
    ensures Obeys(Refusal(MintError(s)), MintRules(s), 0)
  {
    if s != [] {
      var p, d := s[..|s| - 1], s[|s| - 1];
      MintObeys(p);
      var late := [Rule(ExtractCoin(d).Some?, BadlyTyped), Rule(Worth(d) > 0, ZeroValueCoin)];
      if MintError(p).None? {
        assert FirstBroken(late, 0) || FirstBroken(late, 1) || MintError(s).None?;
      }
      ObeysStages(Refusal(MintError(s)), MintRules(p), late, 0);
    }
  }

  /** The check reports the first of these that does not hold, and passes with that priority if all do. */
  lemma {:induction false} ObeysRules(call: MoneyCall, a: CheckArgs)
    ensures Obeys(Check(call, a), Rules(call, a), Priority(call, a))
  {
    match call
    case Spend => SpendObeys(a);
    case Mint =>
      MintObeys(a.outputs);
      var early := [Rule(a.evicted == [], NoEvictionsAllowed), Rule(a.inputs == [], MintingWithInputs),
                    Rule(a.outputs != [], MintingNothing)];
      assert FirstBroken(early, 0) || FirstBroken(early, 1) || FirstBroken(early, 2) ||
             (early[0].holds && early[1].holds && early[2].holds);
      ObeysStages(Check(Mint, a), early, MintRules(a.outputs), 0);
  }

  lemma {:induction false} SpendObeys(a: CheckArgs)
    ensures Obeys(Check(Spend, a), Rules(Spend, a), Priority(Spend, a))
  {
    var r, q := Check(Spend, a), Priority(Spend, a);
    var ins, outs := TallyOf(a.inputs, true), TallyOf(a.outputs, false);
    TallyObeys(a.inputs, true);
    TallyObeys(a.outputs, false);
    TallyMeaning(a.inputs, true);
    TallyMeaning(a.outputs, false);
    var early := [Rule(a.evicted == [], NoEvictionsAllowed), Rule(a.inputs != [], SpendingNothing)];
    var last := [Rule(Value(a.outputs) <= Value(a.inputs), OutputsExceedInputs)];
    assert FirstBroken(early, 0) || FirstBroken(early, 1) || (early[0].holds && early[1].holds);
    if a.evicted == [] && a.inputs != [] {
      if ins.Sum? {
        if outs.Sum? {
          assert FirstBroken(last, 0) || r.Pass?;
          assert Obeys(r, last, q);
        }
        ObeysStages(r, TallyRules(a.outputs, false), last, q);
      }
      ObeysStages(r, TallyRules(a.inputs, true), TallyRules(a.outputs, false) + last, q);
    }
    ObeysStages(r, early, TallyRules(a.inputs, true) + (TallyRules(a.outputs, false) + last), q);
  }
}
