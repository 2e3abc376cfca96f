/**
 Dynamic typing of UTXO payloads (`tuxedo-core/src/dynamic_typing.rs`): the type identifiers of
 the wardrobe's pieces and the fixed width fields of their data.
 */
module Typing {
  import opened Scale
  import opened Types

  const COIN_ID: TypeId := [99, 111, 105, 0]
  const KITTY_ID: TypeId := [75, 105, 116, 116]
  const AMOEBA_ID: TypeId := [97, 109, 111, 101]
  const CLAIM_ID: TypeId := [112, 111, 101, 95]
  const TIMESTAMP_ID: TypeId := [116, 105, 109, 101]
  const PARACHAIN_ID: TypeId := [112, 97, 114, 97]
  const RUNTIME_ID: TypeId := [117, 112, 103, 100]

  const MAX_U32: nat := 0xFFFF_FFFF
  const MAX_U64: nat := 0xFFFF_FFFF_FFFF_FFFF
  const MAX_U128: nat := 0xFFFF_FFFF_FFFF_FFFF_FFFF_FFFF_FFFF_FFFF

  type U64 = n: nat | n <= MAX_U64
  type U128 = n: nat | n <= MAX_U128

  /** What a check returns: the priority of a valid transaction, or the reason for refusing it. */
  datatype CheckResult<+E> = Pass(priority: nat) | Fail(error: E)

  /** What a check must find, and what it reports if it does not. */
  datatype Rule<E> = Rule(holds: bool, otherwise: E)

  /** The result reports the first rule that does not hold, and passes when all do. */
  predicate Obeys<E(==)>(r: CheckResult<E>, rules: seq<Rule<E>>, priority: nat) {
    && (r.Pass? <==> forall i :: 0 <= i < |rules| ==> rules[i].holds)
    && (r.Pass? ==> r.priority == priority)
    && (r.Fail? ==> exists k :: 0 <= k < |rules| && FirstBroken(rules, k) && r.error == rules[k].otherwise)
  }

  predicate FirstBroken<E>(rules: seq<Rule<E>>, k: nat) {
    k < |rules| && !rules[k].holds && forall i :: 0 <= i < k ==> rules[i].holds
  }

  /** Which determines the result. */
  lemma ObeysOne<E>(r: CheckResult<E>, r': CheckResult<E>, rules: seq<Rule<E>>, priority: nat)
    requires Obeys(r, rules, priority) && Obeys(r', rules, priority)
    ensures r == r'
  {
    if r.Fail? {
      var k :| 0 <= k < |rules| && FirstBroken(rules, k) && r.error == rules[k].otherwise;
      var k' :| 0 <= k' < |rules| && FirstBroken(rules, k') && r'.error == rules[k'].otherwise;
      assert k == k';
    }
  }

  /** Rules checked in two stages. */
  lemma ObeysStages<E>(r: CheckResult<E>, early: seq<Rule<E>>, late: seq<Rule<E>>, priority: nat)
    requires if forall i :: 0 <= i < |early| ==> early[i].holds then Obeys(r, late, priority)
             else Obeys(r, early, priority)
    ensures Obeys(r, early + late, priority)
  {
    var rules := early + late;
    assert forall i :: 0 <= i < |early| ==> rules[i] == early[i];
    assert forall i :: 0 <= i < |late| ==> rules[|early| + i] == late[i];
    if forall i :: 0 <= i < |early| ==> early[i].holds {
      if r.Fail? {
        var k :| 0 <= k < |late| && FirstBroken(late, k) && r.error == late[k].otherwise;
        assert FirstBroken(rules, |early| + k);
      } else {
        assert forall i :: |early| <= i < |rules| ==> rules[i] == late[i - |early|];
      }
    } else {
      var k :| 0 <= k < |early| && FirstBroken(early, k) && r.error == early[k].otherwise;
      assert FirstBroken(rules, k);
    }
  }

  /** The result that stands for an error, if any. */
  function Refusal<E>(e: Option<E>): CheckResult<E> {
    if e.Some? then Fail(e.value) else Pass(0)
  }

  /** The first error of a list, given the error of each element. */
  function First<E>(s: seq<DynamicallyTypedData>, e: DynamicallyTypedData -> Option<E>): Option<E> {
    if s == [] then None
    else if e(s[0]).Some? then e(s[0])
    else First(s[1..], e)
  }

  lemma {:induction false} FirstNone<E>(s: seq<DynamicallyTypedData>, e: DynamicallyTypedData -> Option<E>)
    ensures First(s, e).None? <==> forall i :: 0 <= i < |s| ==> e(s[i]).None?
  {
    if s == [] {
    } else {
      FirstNone(s[1..], e);
      assert forall i :: 0 < i < |s| ==> s[i] == s[1..][i - 1];
    }
  }

  lemma {:induction false} FirstAt<E>(s: seq<DynamicallyTypedData>, e: DynamicallyTypedData -> Option<E>, k: nat)
    requires k < |s| && e(s[k]).Some? && forall i :: 0 <= i < k ==> e(s[i]).None?
    ensures First(s, e) == e(s[k])
  {
    if k > 0 {
      assert forall i :: 0 <= i < k - 1 ==> s[1..][i] == s[i + 1];
      FirstAt(s[1..], e, k - 1);
    }
  }

  /** The rules for each element of a list in turn. */
  function EachRules<E>(s: seq<DynamicallyTypedData>, rules: DynamicallyTypedData -> seq<Rule<E>>): seq<Rule<E>> {
    if s == [] then [] else rules(s[0]) + EachRules(s[1..], rules)
  }

  lemma {:induction false} ObeysEach<E(!new)>(s: seq<DynamicallyTypedData>, e: DynamicallyTypedData -> Option<E>,
                                                rules: DynamicallyTypedData -> seq<Rule<E>>)
    requires forall d :: Obeys(Refusal(e(d)), rules(d), 0)
    ensures Obeys(Refusal(First(s, e)), EachRules(s, rules), 0)
  {
    if s != [] {
      ObeysEach(s[1..], e, rules);
      assert Obeys(Refusal(e(s[0])), rules(s[0]), 0);
      ObeysStages(Refusal(First(s, e)), rules(s[0]), EachRules(s[1..], rules), 0);
    }
  }

  lemma Widths()
    ensures Pow256(4) == MAX_U32 + 1 && Pow256(8) == MAX_U64 + 1 && Pow256(16) == MAX_U128 + 1
  {
    U32Width();
    assert Pow256(5) == 256 * Pow256(4);
    assert Pow256(6) == 256 * Pow256(5);
    assert Pow256(7) == 256 * Pow256(6);
    assert Pow256(8) == 256 * Pow256(7);
    assert Pow256(9) == 256 * Pow256(8);
    assert Pow256(10) == 256 * Pow256(9);
    assert Pow256(11) == 256 * Pow256(10);
    assert Pow256(12) == 256 * Pow256(11);
    assert Pow256(13) == 256 * Pow256(12);
    assert Pow256(14) == 256 * Pow256(13);
    assert Pow256(15) == 256 * Pow256(14);
    assert Pow256(16) == 256 * Pow256(15);
  }

  function U32At(b: Bytes, from: nat): U32
    requires from + 4 <= |b|
  {
    Widths();
    LeNatBound(b[from..from + 4]);
    LeNat(b[from..from + 4])
  }

  function U64At(b: Bytes, from: nat): U64
    requires from + 8 <= |b|
  {
    Widths();
    LeNatBound(b[from..from + 8]);
    LeNat(b[from..from + 8])
  }

  function U128At(b: Bytes, from: nat): U128
    requires from + 16 <= |b|
  {
    Widths();
    LeNatBound(b[from..from + 16]);
    LeNat(b[from..from + 16])
  }
}
