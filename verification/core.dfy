/** The balance check of a record: the magnitudes of its debit variations
    must add up to exactly the magnitudes of all its other variations. */
module Core {
  import opened Variations

  function Abs(x: int): (r: nat)
    ensures r == x || r == -x
  {
    if x < 0 then -x else x
  }

  /** Sum of the magnitudes of the variations of `vs` whose derived type is
      `t`, read from the end so that it follows a left-to-right loop. */
  function SideSum(vs: seq<Variation>, t: VariationType): nat
  {
    if vs == [] then 0
    else
      SideSum(vs[..|vs| - 1], t) + Share(vs[|vs| - 1], t)
  }

  /** What one variation adds to side `t`: its magnitude when its derived
      type is `t`, nothing otherwise. */
  function Share(v: Variation, t: VariationType): nat
  {
    if v.Type() == t then Abs(v.amount) else 0
  }

  /** Sum of all magnitudes, whatever the type. */
  function MagnitudeSum(vs: seq<Variation>): nat
  {
    if vs == [] then 0 else MagnitudeSum(vs[..|vs| - 1]) + Abs(vs[|vs| - 1].amount)
  }

  /** The balance condition on a sequence of variations. */
  predicate Balanced(vs: seq<Variation>)
  {
    SideSum(vs, Debit) == SideSum(vs, Credit)
  }

  /** `record_is_balanced`: one pass over the variations, adding each
      magnitude to the debit accumulator when the variation is a debit and
      to the credit accumulator otherwise. */
  method RecordIsBalanced(vs: seq<Variation>) returns (balanced: bool)
    ensures balanced <==> SideSum(vs, Debit) == SideSum(vs, Credit)
  {
    var debitSum, creditSum := 0, 0;
    var i := 0;
    while i < |vs|
      invariant 0 <= i <= |vs|
      invariant debitSum == SideSum(vs[..i], Debit)
      invariant creditSum == SideSum(vs[..i], Credit)
    {
      assert vs[..i + 1][..i] == vs[..i];
      var amount := Abs(vs[i].amount);
      if vs[i].Type() == Debit {
        debitSum := debitSum + amount;
      } else {
        creditSum := creditSum + amount;
      }
      i := i + 1;
    }
    assert vs[..i] == vs;
    balanced := debitSum == creditSum;
  }

  /** The two sides together account for every magnitude: there is no third
      bucket, every non-debit is counted as a credit. */
  lemma {:induction false} SidesCoverAll(vs: seq<Variation>)
    ensures SideSum(vs, Debit) + SideSum(vs, Credit) == MagnitudeSum(vs)
  {
    if vs != [] {
      SidesCoverAll(vs[..|vs| - 1]);
    }
  }

  /** A record without variations is balanced: 0 == 0. */
  lemma EmptyIsBalanced()
    ensures Balanced([])
  {
  }

  /** The side sums are additive over concatenation. */
  lemma {:induction false} SideSumAppend(a: seq<Variation>, b: seq<Variation>, t: VariationType)
    ensures SideSum(a + b, t) == SideSum(a, t) + SideSum(b, t)
  {
    if b == [] {
      assert a + b == a;
    } else {
      assert (a + b)[..|a + b| - 1] == a + b[..|b| - 1];
      SideSumAppend(a, b[..|b| - 1], t);
    }
  }

  /** The side sum of a single variation. */
  lemma {:induction false} SideSumSingle(v: Variation, t: VariationType)
    ensures SideSum([v], t) == Share(v, t)
  {
    assert [v][..0] == [];
  }

  /** Every amount negated, with the account unchanged. */
  function NegateAll(vs: seq<Variation>): (r: seq<Variation>)
    ensures |r| == |vs|
    ensures forall k :: 0 <= k < |vs| ==> r[k] == vs[k].(amount := -vs[k].amount)
  {
    if vs == [] then [] else NegateAll(vs[..|vs| - 1]) + [vs[|vs| - 1].(amount := -vs[|vs| - 1].amount)]
  }

  /** Negating every amount swaps the two sides: a nonzero amount changes
      type, a zero amount contributes nothing on either side. */
  lemma {:induction false} NegateAllSwapsSides(vs: seq<Variation>)
    ensures SideSum(NegateAll(vs), Debit) == SideSum(vs, Credit)
    ensures SideSum(NegateAll(vs), Credit) == SideSum(vs, Debit)
  {
    if vs != [] {
      var n := NegateAll(vs);
      var last := vs[|vs| - 1];
      assert n[..|n| - 1] == NegateAll(vs[..|vs| - 1]);
      NegateAllSwapsSides(vs[..|vs| - 1]);
      if last.amount != 0 {
        NegationFlipsType(last.accountType, last.amount);
      }
    }
  }

  /** Hence negating every amount keeps the record balanced or unbalanced. */
  lemma {:induction false} NegateAllKeepsBalance(vs: seq<Variation>)
    ensures Balanced(NegateAll(vs)) <==> Balanced(vs)
  {
    NegateAllSwapsSides(vs);
  }

  /** Only magnitudes count: replacing one variation by another of the same
      derived type and the same magnitude leaves both sides unchanged. This
      covers negating one amount together with switching its account type. */
  lemma {:induction false} SameTypeSameMagnitude(vs: seq<Variation>, k: nat, w: Variation, t: VariationType)
    requires k < |vs|
    requires w.Type() == vs[k].Type() && Abs(w.amount) == Abs(vs[k].amount)
    ensures SideSum(vs[k := w], t) == SideSum(vs, t)
  {
    SideSumUpdate(vs, k, w, t);
  }

  /** Negating one nonzero amount moves its magnitude to the other side. */
  lemma {:induction false} NegateOneMovesSide(vs: seq<Variation>, k: nat)
    requires k < |vs| && vs[k].amount != 0
    ensures var w := vs[k].(amount := -vs[k].amount);
      var t := vs[k].Type();
      SideSum(vs[k := w], t) + Abs(vs[k].amount) == SideSum(vs, t) &&
      SideSum(vs[k := w], OtherType(t)) == SideSum(vs, OtherType(t)) + Abs(vs[k].amount)
  {
    var v := vs[k];
    var w := v.(amount := -v.amount);
    var t := v.Type();
    NegationFlipsType(v.accountType, v.amount);
    assert w.Type() == OtherType(t);
    SideSumUpdate(vs, k, w, t);
    SideSumUpdate(vs, k, w, OtherType(t));
  }

  /** Replacing the variation at `k` by `w` trades its share for the share
      of `w`, on each side. */
  lemma {:induction false} SideSumUpdate(vs: seq<Variation>, k: nat, w: Variation, t: VariationType)
    requires k < |vs|
    ensures SideSum(vs[k := w], t) + Share(vs[k], t) == SideSum(vs, t) + Share(w, t)
  {
    var n := |vs|;
    if k == n - 1 {
      assert vs[k := w][..n - 1] == vs[..n - 1];
    } else {
      assert vs[k := w][..n - 1] == vs[..n - 1][k := w];
      SideSumUpdate(vs[..n - 1], k, w, t);
    }
  }

  /** The side sums do not depend on the order of the variations. */
  lemma {:induction false} SideSumPermutation(vs: seq<Variation>, ws: seq<Variation>, t: VariationType)
    requires multiset(vs) == multiset(ws)
    ensures SideSum(vs, t) == SideSum(ws, t)
    decreases |vs|
  {
    if vs == [] {
      assert |ws| == |multiset(ws)| == 0;
    } else {
      var i := MatchLast(vs, ws);
      var init, last := vs[..|vs| - 1], vs[|vs| - 1];
      SideSumPermutation(init, ws[..i] + ws[i + 1..], t);
      assert ws == ws[..i] + [last] + ws[i + 1..];
      SideSumDrop(ws[..i], last, ws[i + 1..], t);
    }
  }

  /** In a permutation of a nonempty `vs`, the last element of `vs` sits at
      some position `i`, and the rest of `vs` is a permutation of the rest. */
  lemma {:induction false} MatchLast(vs: seq<Variation>, ws: seq<Variation>) returns (i: nat)
    requires vs != [] && multiset(vs) == multiset(ws)
    ensures i < |ws| && ws[i] == vs[|vs| - 1]
    ensures multiset(vs[..|vs| - 1]) == multiset(ws[..i] + ws[i + 1..])
  {
    var last := vs[|vs| - 1];
    assert vs == vs[..|vs| - 1] + [last];
    assert last in multiset(ws);
    i :| 0 <= i < |ws| && ws[i] == last;
    assert ws == ws[..i] + [last] + ws[i + 1..];
    assert multiset(ws) == multiset(ws[..i]) + multiset{last} + multiset(ws[i + 1..]);
    assert multiset(ws[..i] + ws[i + 1..]) == multiset(ws[..i]) + multiset(ws[i + 1..]);
    assert multiset(vs) == multiset(vs[..|vs| - 1]) + multiset{last};
    assert multiset(vs[..|vs| - 1]) == multiset(vs) - multiset{last};
    assert multiset(ws) - multiset{last} == multiset(ws[..i]) + multiset(ws[i + 1..]);
  }

  /** Removing one variation from a sequence removes exactly its share. */
  lemma {:induction false} SideSumDrop(a: seq<Variation>, x: Variation, b: seq<Variation>, t: VariationType)
    ensures SideSum(a + [x] + b, t) == SideSum(a + b, t) + Share(x, t)
    decreases |b|
  {
    if b == [] {
      assert a + [x] + b == a + [x] && (a + [x])[..|a|] == a && a + b == a;
    } else {
      var init := b[..|b| - 1];
      assert (a + [x] + b)[..|a| + |b|] == a + [x] + init;
      assert (a + b)[..|a| + |b| - 1] == a + init;
      SideSumDrop(a, x, init, t);
    }
  }

  /** Hence the balance check is invariant under any reordering. */
  lemma {:induction false} PermutationKeepsBalance(vs: seq<Variation>, ws: seq<Variation>)
    requires multiset(vs) == multiset(ws)
    ensures Balanced(vs) <==> Balanced(ws)
  {
    SideSumPermutation(vs, ws, Debit);
    SideSumPermutation(vs, ws, Credit);
  }

  /** Appending a debit and a credit of equal magnitude keeps a balanced
      record balanced and an unbalanced one unbalanced. */
  lemma {:induction false} AppendPairKeepsBalance(vs: seq<Variation>, d: Variation, c: Variation)
    requires d.Type() == Debit && c.Type() == Credit
    requires Abs(d.amount) == Abs(c.amount)
    ensures Balanced(vs + [d, c]) <==> Balanced(vs)
  {
    assert [d, c] == [d] + [c];
    SideSumAppend(vs, [d, c], Debit);
    SideSumAppend(vs, [d, c], Credit);
    SideSumAppend([d], [c], Debit);
    SideSumAppend([d], [c], Credit);
    SideSumSingle(d, Debit);
    SideSumSingle(d, Credit);
    SideSumSingle(c, Debit);
    SideSumSingle(c, Credit);
  }

  /** The side sums of a three-variation record, term by term. */
  lemma {:induction false} ExampleSums(x: Variation, y: Variation, z: Variation)
    ensures forall t :: SideSum([x, y, z], t) == SideSum([x], t) + SideSum([y], t) + SideSum([z], t)
  {
    forall t: VariationType ensures SideSum([x, y, z], t) == SideSum([x], t) + SideSum([y], t) + SideSum([z], t) {
      assert [x, y, z] == [x] + [y] + [z];
      SideSumAppend([x] + [y], [z], t);
      SideSumAppend([x], [y], t);
    }
    forall t: VariationType, v: Variation ensures SideSum([v], t) == Share(v, t) {
      SideSumSingle(v, t);
    }
  }

  /** The test fixture, in cents (the test's 100 is 10000 here): a debit of
      100 against credits of 80 and 20 is balanced; against credits of 80
      and 40 it is not. The debit is an
      increase of a Destination account, the credits increases of Origin
      accounts. */
  lemma IncreasesExample()
    ensures Balanced([Variation(1, 1, Destination, 10000), Variation(2, 2, Origin, 8000), Variation(3, 3, Origin, 2000)])
    ensures !Balanced([Variation(1, 1, Destination, 10000), Variation(2, 2, Origin, 8000), Variation(3, 3, Origin, 4000)])
  {
    var a := [Variation(1, 1, Destination, 10000), Variation(2, 2, Origin, 8000), Variation(3, 3, Origin, 2000)];
    var b := [Variation(1, 1, Destination, 10000), Variation(2, 2, Origin, 8000), Variation(3, 3, Origin, 4000)];
    ExampleSums(a[0], a[1], a[2]);
    ExampleSums(b[0], b[1], b[2]);
  }

  /** The same with decreases, again in cents: a debit of -100 on an Origin account against
      credits of -80 and -20 on Destination accounts is balanced; against
      -80 and -30 it is not. */
  lemma DecreasesExample()
    ensures Balanced([Variation(1, 1, Origin, -10000), Variation(2, 2, Destination, -8000), Variation(3, 3, Destination, -2000)])
    ensures !Balanced([Variation(1, 1, Origin, -10000), Variation(2, 2, Destination, -8000), Variation(3, 3, Destination, -3000)])
  {
    var a := [Variation(1, 1, Origin, -10000), Variation(2, 2, Destination, -8000), Variation(3, 3, Destination, -2000)];
    var b := [Variation(1, 1, Origin, -10000), Variation(2, 2, Destination, -8000), Variation(3, 3, Destination, -3000)];
    ExampleSums(a[0], a[1], a[2]);
    ExampleSums(b[0], b[1], b[2]);
  }

  /** The mixed fixtures, in cents. A debit of 100, a debit of -80 (a
      decrease of an Origin account) and a credit of 20 put 180 on the debit
      side and 20 on the credit side, so the record is not balanced although the
      signed amounts cancel. A debit of 100, a credit of -70 (a decrease of a
      Destination account) and a credit of 20 put 100 against 90: not
      balanced either. */
  lemma MixedExample()
    ensures SideSum([Variation(1, 1, Destination, 10000), Variation(2, 2, Origin, -8000), Variation(3, 3, Origin, 2000)], Debit) == 18000
    ensures SideSum([Variation(1, 1, Destination, 10000), Variation(2, 2, Origin, -8000), Variation(3, 3, Origin, 2000)], Credit) == 2000
    ensures !Balanced([Variation(1, 1, Destination, 10000), Variation(2, 2, Origin, -8000), Variation(3, 3, Origin, 2000)])
    ensures !Balanced([Variation(1, 1, Destination, 10000), Variation(2, 2, Destination, -7000), Variation(3, 3, Origin, 2000)])
  {
    var a := [Variation(1, 1, Destination, 10000), Variation(2, 2, Origin, -8000), Variation(3, 3, Origin, 2000)];
    var b := [Variation(1, 1, Destination, 10000), Variation(2, 2, Destination, -7000), Variation(3, 3, Origin, 2000)];
    ExampleSums(a[0], a[1], a[2]);
    ExampleSums(b[0], b[1], b[2]);
  }
}
