/**
 Totals over the UTXO set, and how a transaction changes them. Every conservation law of the
 pieces is an instance of `TotalAfter`.
 */
module Sums {
  import opened Scale
  import opened Types
  import opened UtxoSet
  import opened Ledger

  ghost function Total<K, T>(m: map<K, T>, f: T -> int): int
    decreases |m|
  {
    if m == map[] then 0
    else
      var k :| k in m;
      f(m[k]) + Total(m - {k}, f)
  }

  lemma {:induction false} TotalRemove<K, T>(m: map<K, T>, f: T -> int, k: K)
    requires k in m
    ensures Total(m, f) == f(m[k]) + Total(m - {k}, f)
    decreases |m|
  {
    var j :| j in m && Total(m, f) == f(m[j]) + Total(m - {j}, f);
    if j != k {
      TotalRemove(m - {j}, f, k);
      TotalRemove(m - {k}, f, j);
      assert m - {j} - {k} == m - {k} - {j};
    }
  }

  lemma TotalInsert<K, T>(m: map<K, T>, f: T -> int, k: K, v: T)
    requires k !in m
    ensures Total(m[k := v], f) == f(v) + Total(m, f)
  {
    TotalRemove(m[k := v], f, k);
    assert m[k := v] - {k} == m;
  }

  lemma UnionMinus<K, T>(a: map<K, T>, b: map<K, T>, k: K)
    requires k in b && k !in a
    ensures k in a + b && (a + b)[k] == b[k] && (a + b) - {k} == a + (b - {k})
  {
  }

  lemma {:induction false} TotalUnion<K, T>(a: map<K, T>, b: map<K, T>, f: T -> int)
    requires a.Keys !! b.Keys
    ensures Total(a + b, f) == Total(a, f) + Total(b, f)
    decreases |b|
  {
    if b == map[] {
      assert a + b == a;
      assert Total(b, f) == 0;
    } else {
      var k :| k in b;
      var c := b - {k};
      UnionMinus(a, b, k);
      TotalUnion(a, c, f);
      assert Total(a + b, f) == f(b[k]) + Total(a + c, f) by { TotalRemove(a + b, f, k); }
      assert Total(b, f) == f(b[k]) + Total(c, f) by { TotalRemove(b, f, k); }
    }
  }

  function Restrict<K, T>(m: map<K, T>, s: set<K>): map<K, T> {
    map k | k in m && k in s :: m[k]
  }

  lemma {:induction false} TotalSplit<K, T>(m: map<K, T>, s: set<K>, f: T -> int)
    ensures Total(m, f) == Total(Restrict(m, s), f) + Total(m - s, f)
  {
    assert Restrict(m, s) + (m - s) == m;
    TotalUnion(Restrict(m, s), m - s, f);
  }

  lemma {:induction false} TotalBounds<K, T>(m: map<K, T>, f: T -> int)
    requires forall k :: k in m ==> f(m[k]) >= 0
    ensures Total(m, f) >= 0
    ensures Total(m, f) == 0 <==> forall k :: k in m ==> f(m[k]) == 0
    decreases |m|
  {
    if m == map[] {
    } else {
      var k :| k in m;
      TotalRemove(m, f, k);
      TotalBounds(m - {k}, f);
      assert forall j :: j in m <==> j == k || j in m - {k};
    }
  }

  function SumSeq<T>(s: seq<T>, f: T -> int): int {
    if s == [] then 0 else SumSeq(s[..|s| - 1], f) + f(s[|s| - 1])
  }

  // ----- What a transaction creates

  function CreatedUpTo<V, C>(rt: Runtime<V, C>, t: Transaction<V, C>, n: nat): Utxos<V>
    requires n <= |t.outputs|
  {
    if n == 0 then map[] else CreatedUpTo(rt, t, n - 1)[OutRef(rt, t, n - 1) := t.outputs[n - 1]]
  }

  lemma {:induction false} CreatedUpToContents<V, C>(rt: Runtime<V, C>, t: Transaction<V, C>, n: nat, r: OutputRef)
    requires n <= |t.outputs|
    ensures var c := CreatedUpTo(rt, t, n);
            && (r in c <==> r.txHash == TxHash(rt, t) && r.index < n)
            && (r in c ==> c[r] == t.outputs[r.index])
  {
    if n > 0 {
      CreatedUpToContents(rt, t, n - 1, r);
    }
  }

  lemma {:induction false} TotalCreatedUpTo<V, C>(rt: Runtime<V, C>, t: Transaction<V, C>, n: nat, f: Output<V> -> int)
    requires n <= |t.outputs|
    ensures Total(CreatedUpTo(rt, t, n), f) == SumSeq(t.outputs[..n], f)
  {
    if n == 0 {
    } else {
      TotalCreatedUpTo(rt, t, n - 1, f);
      var r := OutRef(rt, t, n - 1);
      CreatedUpToContents(rt, t, n - 1, r);
      TotalInsert(CreatedUpTo(rt, t, n - 1), f, r, t.outputs[n - 1]);
      assert t.outputs[..n][..n - 1] == t.outputs[..n - 1];
    }
  }

  lemma CreatedContents<V, C>(rt: Runtime<V, C>, t: Transaction<V, C>, r: OutputRef)
    ensures var c := Created(rt, t);
            && (r in c <==> r.txHash == TxHash(rt, t) && r.index < |t.outputs|)
            && (r in c ==> c[r] == t.outputs[r.index])
  {
    if r.txHash == TxHash(rt, t) && r.index < |t.outputs| {
      assert r == OutRef(rt, t, r.index);
    }
  }

  lemma TotalCreated<V, C>(rt: Runtime<V, C>, t: Transaction<V, C>, f: Output<V> -> int)
    ensures Total(Created(rt, t), f) == SumSeq(t.outputs, f)
  {
    TotalCreatedUpTo(rt, t, |t.outputs|, f);
    forall r ensures r in CreatedUpTo(rt, t, |t.outputs|) <==> r in Created(rt, t) {
      CreatedUpToContents(rt, t, |t.outputs|, r);
      CreatedContents(rt, t, r);
    }
    forall r | r in Created(rt, t) ensures CreatedUpTo(rt, t, |t.outputs|)[r] == Created(rt, t)[r] {
      CreatedUpToContents(rt, t, |t.outputs|, r);
      CreatedContents(rt, t, r);
    }
    assert CreatedUpTo(rt, t, |t.outputs|) == Created(rt, t);
    assert t.outputs[..|t.outputs|] == t.outputs;
  }

  // ----- What a transaction consumes

  function SumInputs<V>(u: Utxos<V>, s: seq<Input>, f: Output<V> -> int): int
    requires forall k :: 0 <= k < |s| ==> s[k].outputRef in u
  {
    if s == [] then 0
    else SumInputs(u, s[..|s| - 1], f) + f(u[s[|s| - 1].outputRef])
  }

  /** What is counted again by inputs whose reference was listed before. */
  function SumRepeats<V>(u: Utxos<V>, s: seq<Input>, f: Output<V> -> int): int
    requires forall k :: 0 <= k < |s| ==> s[k].outputRef in u
  {
    if s == [] then 0
    else
      var (p, r) := (s[..|s| - 1], s[|s| - 1].outputRef);
      SumRepeats(u, p, f) + if r in InputRefs(p) then f(u[r]) else 0
  }

  lemma {:induction false} TotalConsumed<V>(u: Utxos<V>, s: seq<Input>, f: Output<V> -> int)
    requires forall k :: 0 <= k < |s| ==> s[k].outputRef in u
    ensures Total(Restrict(u, InputRefs(s)), f) == SumInputs(u, s, f) - SumRepeats(u, s, f)
  {
    if s == [] {
      assert Restrict(u, InputRefs(s)) == map[];
    } else {
      var p, r := s[..|s| - 1], s[|s| - 1].outputRef;
      TotalConsumed(u, p, f);
      assert s == p + [s[|s| - 1]];
      assert InputRefs(s) == InputRefs(p) + {r};
      if r in InputRefs(p) {
        assert InputRefs(s) == InputRefs(p);
      } else {
        assert Restrict(u, InputRefs(s)) == Restrict(u, InputRefs(p))[r := u[r]];
        TotalInsert(Restrict(u, InputRefs(p)), f, r, u[r]);
      }
    }
  }

  predicate DistinctRefs(s: seq<Input>) {
    forall i, j :: 0 <= i < j < |s| ==> s[i].outputRef != s[j].outputRef
  }

  /** Nothing is counted twice exactly when every repeated reference is worth nothing. */
  lemma {:induction false} RepeatsWorthNothing<V>(u: Utxos<V>, s: seq<Input>, f: Output<V> -> int)
    requires forall k :: 0 <= k < |s| ==> s[k].outputRef in u && f(u[s[k].outputRef]) >= 0
    ensures SumRepeats(u, s, f) >= 0
    ensures SumRepeats(u, s, f) == 0 <==>
            forall i, j :: 0 <= i < j < |s| && s[i].outputRef == s[j].outputRef ==> f(u[s[i].outputRef]) == 0
  {
    if s == [] {
    } else {
      var p, r := s[..|s| - 1], s[|s| - 1].outputRef;
      RepeatsWorthNothing(u, p, f);
      ListedBefore(p, r);
      assert forall i :: 0 <= i < |p| ==> p[i] == s[i];
    }
  }

  lemma ListedBefore(s: seq<Input>, r: OutputRef)
    ensures r in InputRefs(s) <==> exists i :: 0 <= i < |s| && s[i].outputRef == r
  {
    if r in InputRefs(s) {
      var x :| x in s && x.outputRef == r;
      var i :| 0 <= i < |s| && s[i] == x;
    }
  }

  // ----- The balance of a step

  lemma InputsInUtxos<V, C>(rt: Runtime<V, C>, st: State<V>, t: Transaction<V, C>)
    requires Accepted(rt, st, t)
    ensures forall k :: 0 <= k < |t.inputs| ==> t.inputs[k].outputRef in st.utxos
  {
    forall k | 0 <= k < |t.inputs| ensures t.inputs[k].outputRef in st.utxos {
      assert Spendable(rt, st, t, t.inputs[k]);
    }
  }

  /** The change of any total: minus the inputs, plus the outputs, plus what was counted repeatedly. */
  lemma TotalAfter<V, C>(rt: Runtime<V, C>, st: State<V>, t: Transaction<V, C>, f: Output<V> -> int)
    requires Accepted(rt, st, t)
    ensures forall k :: 0 <= k < |t.inputs| ==> t.inputs[k].outputRef in st.utxos
    ensures Apply(rt, st, t).0.utxos == After(rt, st.utxos, t)
    ensures Total(After(rt, st.utxos, t), f) ==
            Total(st.utxos, f) - SumInputs(st.utxos, t.inputs, f) + SumRepeats(st.utxos, t.inputs, f) +
            SumSeq(t.outputs, f)
  {
    var u, gone := st.utxos, InputRefs(t.inputs);
    InputsInUtxos(rt, st, t);
    AcceptedIff(rt, st, t);
    TotalSplit(u, gone, f);
    TotalConsumed(u, t.inputs, f);
    TotalCreated(rt, t, f);
    forall r | r in Created(rt, t) ensures r !in u - gone {
      AfterContents(rt, st, t, r);
    }
    TotalUnion(u - gone, Created(rt, t), f);
  }

  lemma {:induction false} SumsVanish<V>(u: Utxos<V>, s: seq<Input>, f: Output<V> -> int)
    requires forall k :: 0 <= k < |s| ==> s[k].outputRef in u && f(u[s[k].outputRef]) == 0
    ensures SumInputs(u, s, f) == 0 && SumRepeats(u, s, f) == 0
  {
    if s == [] {
    } else {
      SumsVanish(u, s[..|s| - 1], f);
    }
  }

  lemma {:induction false} SumSeqVanishes<T>(s: seq<T>, f: T -> int)
    requires forall k :: 0 <= k < |s| ==> f(s[k]) == 0
    ensures SumSeq(s, f) == 0
  {
    if s == [] {
    } else {
      SumSeqVanishes(s[..|s| - 1], f);
    }
  }

  /** No reference is listed twice, so nothing is counted repeatedly. */
  lemma {:induction false} NoRepeats<V>(u: Utxos<V>, s: seq<Input>, f: Output<V> -> int)
    requires DistinctRefs(s) && forall k :: 0 <= k < |s| ==> s[k].outputRef in u
    ensures SumRepeats(u, s, f) == 0
  {
    if s == [] {
    } else {
      var p := s[..|s| - 1];
      NoRepeats(u, p, f);
      ListedBefore(p, s[|s| - 1].outputRef);
    }
  }

  // ----- Inputs in terms of what the checker is shown

  lemma {:induction false} RedeemedAll<V>(u: Utxos<V>, s: seq<Input>)
    requires Evicted(u, s) == [] && forall k :: 0 <= k < |s| ==> s[k].outputRef in u
    ensures |Redeemed(u, s)| == |s|
    ensures forall k :: 0 <= k < |s| ==> Redeemed(u, s)[k] == u[s[k].outputRef].payload
  {
    if s == [] {
    } else {
      RedeemedAll(u, s[..|s| - 1]);
    }
  }

  lemma {:induction false} EvictedAll<V>(u: Utxos<V>, s: seq<Input>)
    requires Redeemed(u, s) == [] && forall k :: 0 <= k < |s| ==> s[k].outputRef in u
    ensures |Evicted(u, s)| == |s|
    ensures forall k :: 0 <= k < |s| ==> Evicted(u, s)[k] == u[s[k].outputRef].payload
  {
    if s == [] {
    } else {
      EvictedAll(u, s[..|s| - 1]);
    }
  }

  lemma {:induction false} PeekedAll<V>(u: Utxos<V>, s: seq<OutputRef>)
    requires forall k :: 0 <= k < |s| ==> s[k] in u
    ensures |Peeked(u, s)| == |s|
    ensures forall k :: 0 <= k < |s| ==> Peeked(u, s)[k] == u[s[k]].payload
  {
    if s == [] {
    } else {
      PeekedAll(u, s[..|s| - 1]);
    }
  }

  lemma {:induction false} RedeemedOne<V>(u: Utxos<V>, s: seq<Input>)
    requires Evicted(u, s) == [] && forall k :: 0 <= k < |s| ==> s[k].outputRef in u
    requires |Redeemed(u, s)| == 1
    ensures |s| == 1 && Redeemed(u, s)[0] == u[s[0].outputRef].payload
  {
    RedeemedAll(u, s);
  }

  lemma {:induction false} RedeemedPair<V>(u: Utxos<V>, s: seq<Input>)
    requires Evicted(u, s) == [] && forall k :: 0 <= k < |s| ==> s[k].outputRef in u
    requires |Redeemed(u, s)| == 2
    ensures |s| == 2
    ensures Redeemed(u, s)[0] == u[s[0].outputRef].payload && Redeemed(u, s)[1] == u[s[1].outputRef].payload
  {
    RedeemedAll(u, s);
  }

  lemma SumOne<T>(a: T, f: T -> int)
    ensures SumSeq([a], f) == f(a)
  {
    assert [a][..0] == [];
  }

  lemma SumTwo<T>(a: T, b: T, f: T -> int)
    ensures SumSeq([a, b], f) == f(a) + f(b)
  {
    SumOne(a, f);
    assert [a, b][..1] == [a];
  }

  lemma SumThree<T>(a: T, b: T, c: T, f: T -> int)
    ensures SumSeq([a, b, c], f) == f(a) + f(b) + f(c)
  {
    SumTwo(a, b, f);
    assert [a, b, c][..2] == [a, b];
  }

  lemma {:induction false} SumOneInput<V>(u: Utxos<V>, s: seq<Input>, f: Output<V> -> int)
    requires |s| == 1 && s[0].outputRef in u
    ensures SumInputs(u, s, f) == f(u[s[0].outputRef]) && SumRepeats(u, s, f) == 0
  {
    assert s[..0] == [];
    assert InputRefs([]) == {};
  }

  lemma {:induction false} SumTwoInputs<V>(u: Utxos<V>, s: seq<Input>, f: Output<V> -> int)
    requires |s| == 2 && s[0].outputRef in u && s[1].outputRef in u && s[0].outputRef != s[1].outputRef
    ensures SumInputs(u, s, f) == f(u[s[0].outputRef]) + f(u[s[1].outputRef]) && SumRepeats(u, s, f) == 0
  {
    SumOneInput(u, s[..1], f);
    ListedBefore(s[..1], s[1].outputRef);
  }
}
