/** The grouping of a record's variations by derived type: the variations
    are copied into a list, stably sorted by their type, and consecutive
    runs of the same type become the groups of a dictionary. */
module Records {
  import opened Variations

  /** The sort key order: the type strings compare as 'credit' < 'debit'. */
  predicate Before(t: VariationType, u: VariationType)
  {
    t == Credit && u == Debit
  }

  /** The variations of `vs` of type `t`, in input order. */
  function Filter(vs: seq<Variation>, t: VariationType): (r: seq<Variation>)
    ensures forall k :: 0 <= k < |r| ==> r[k].Type() == t
    ensures |r| <= |vs|
  {
    if vs == [] then []
    else if vs[|vs| - 1].Type() == t then Filter(vs[..|vs| - 1], t) + [vs[|vs| - 1]]
    else Filter(vs[..|vs| - 1], t)
  }

  /** No debit comes before a credit. */
  ghost predicate SortedByType(s: seq<Variation>)
  {
    forall p, q :: 0 <= p < q < |s| ==> !Before(s[q].Type(), s[p].Type())
  }

  /** The result of a stable sort by type: the credits, then the debits, each
      in input order. */
  function StablySorted(vs: seq<Variation>): seq<Variation>
  {
    Filter(vs, Credit) + Filter(vs, Debit)
  }

  /** The dictionary built from the sorted runs: one key per type that
      occurs, mapped to the variations of that type. */
  function GroupsOf(s: seq<Variation>): map<VariationType, seq<Variation>>
  {
    var credits, debits := Filter(s, Credit), Filter(s, Debit);
    var m := if credits == [] then map[] else map[Credit := credits];
    if debits == [] then m else m[Debit := debits]
  }

  lemma {:induction false} FilterAppend(a: seq<Variation>, b: seq<Variation>, t: VariationType)
    ensures Filter(a + b, t) == Filter(a, t) + Filter(b, t)
    decreases |b|
  {
    if b == [] {
      assert a + b == a;
    } else {
      assert (a + b)[..|a + b| - 1] == a + b[..|b| - 1];
      FilterAppend(a, b[..|b| - 1], t);
    }
  }

  /** Filtering a sequence whose elements all have type `t`. */
  lemma {:induction false} FilterAll(s: seq<Variation>, t: VariationType)
    requires forall k :: 0 <= k < |s| ==> s[k].Type() == t
    ensures Filter(s, t) == s
    ensures Filter(s, OtherType(t)) == []
  {
    if s != [] {
      FilterAll(s[..|s| - 1], t);
    }
  }

  /** Filtering by a type that does not occur. */
  lemma {:induction false} FilterNone(s: seq<Variation>, t: VariationType)
    requires forall k :: 0 <= k < |s| ==> s[k].Type() != t
    ensures Filter(s, t) == []
  {
    if s != [] {
      FilterNone(s[..|s| - 1], t);
    }
  }

  lemma {:induction false} FilterSingle(v: Variation, t: VariationType)
    ensures Filter([v], t) == if v.Type() == t then [v] else []
  {
    assert [v][..0] == [];
  }

  /** A filtered sequence is a sub-multiset of its input, and the two
      filters together are a permutation of it. */
  lemma {:induction false} FilterPartition(vs: seq<Variation>)
    ensures multiset(Filter(vs, Credit)) + multiset(Filter(vs, Debit)) == multiset(vs)
  {
    if vs != [] {
      FilterPartition(vs[..|vs| - 1]);
      assert vs == vs[..|vs| - 1] + [vs[|vs| - 1]];
    }
  }

  /** The stable sort puts every credit before every debit and keeps every
      variation exactly once. */
  lemma {:induction false} StablySortedIsSortedPermutation(vs: seq<Variation>)
    ensures SortedByType(StablySorted(vs))
    ensures multiset(StablySorted(vs)) == multiset(vs)
  {
    FilterPartition(vs);
  }

  /** Sorting does not change what a filter selects, so it does not change
      the groups. */
  lemma {:induction false} FilterOfStablySorted(vs: seq<Variation>, t: VariationType)
    ensures Filter(StablySorted(vs), t) == Filter(vs, t)
  {
    var c, d := Filter(vs, Credit), Filter(vs, Debit);
    FilterAppend(c, d, t);
    FilterAll(c, Credit);
    FilterAll(d, Debit);
  }

  /** The stable sort of one more element, when that element is a debit. */
  lemma {:induction false} StablySortedAppendDebit(p: seq<Variation>, x: Variation)
    requires x.Type() == Debit
    ensures StablySorted(p + [x]) == StablySorted(p) + [x]
  {
    assert (p + [x])[..|p|] == p;
  }

  /** The stable sort of one more element, when that element is a credit:
      it goes right after the credits already there. */
  lemma {:induction false} StablySortedAppendCredit(p: seq<Variation>, x: Variation)
    requires x.Type() == Credit
    ensures StablySorted(p + [x]) == Filter(p, Credit) + [x] + Filter(p, Debit)
  {
    assert (p + [x])[..|p|] == p;
  }

  /** One step of the insertion sort: the sorted prefix `a[..i]` (the stable
      sort of `p`) takes in `a[i]`, which moves left past the debits when it
      is a credit. */
  method InsertAt(a: array<Variation>, i: nat, ghost p: seq<Variation>)
    requires i < a.Length
    requires a[..i] == StablySorted(p)
    modifies a
    ensures a[..i + 1] == StablySorted(p + [old(a[i])])
    ensures forall k :: i < k < a.Length ==> a[k] == old(a[k])
  {
    ghost var s := a[..i];
    var x := a[i];
    var j := i;
    while j > 0 && Before(x.Type(), a[j - 1].Type())
      invariant 0 <= j <= i
      invariant forall k :: 0 <= k < j ==> a[k] == s[k]
      invariant forall k :: j < k <= i ==> a[k] == s[k - 1]
      invariant forall k :: j <= k < i ==> s[k].Type() == Debit
      invariant j < i ==> x.Type() == Credit
      invariant forall k :: i < k < a.Length ==> a[k] == old(a[k])
    {
      a[j] := a[j - 1];
      j := j - 1;
    }
    a[j] := x;
    ghost var r := s[..j] + [x] + s[j..];
    assert forall k :: 0 <= k <= i ==> a[k] == r[k];
    assert a[..i + 1] == r;
    InsertIntoStablySorted(p, x, j);
  }

  /** Where the insertion stops: before the first debit for a credit, at the
      end for a debit. Putting `x` there gives the stable sort of `p + [x]`. */
  lemma {:induction false} InsertIntoStablySorted(p: seq<Variation>, x: Variation, j: nat)
    requires j <= |StablySorted(p)|
    requires forall k :: j <= k < |StablySorted(p)| ==> StablySorted(p)[k].Type() == Debit
    requires j < |StablySorted(p)| ==> x.Type() == Credit
    requires j > 0 ==> !Before(x.Type(), StablySorted(p)[j - 1].Type())
    ensures StablySorted(p)[..j] + [x] + StablySorted(p)[j..] == StablySorted(p + [x])
  {
    var s, c := StablySorted(p), Filter(p, Credit);
    if x.Type() == Debit {
      StablySortedAppendDebit(p, x);
      assert s[..j] == s && s[j..] == [];
    } else {
      StablySortedAppendCredit(p, x);
      assert forall k :: 0 <= k < |s| ==> (s[k].Type() == Credit <==> k < |c|);
      assert j > 0 ==> s[j - 1].Type() == Credit;
      assert j < |s| ==> s[j].Type() == Debit;
      assert j == |c|;
      assert s[..j] == c && s[j..] == Filter(p, Debit);
    }
  }

  /** `variations.sort(key=get_type)` on the copied list: a stable insertion
      sort by type. Any stable sort gives this same result. */
  method SortByType(a: array<Variation>)
    modifies a
    ensures a[..] == StablySorted(old(a[..]))
  {
    var i := 0;
    while i < a.Length
      invariant 0 <= i <= a.Length
      invariant a[..i] == StablySorted(old(a[..])[..i])
      invariant forall k :: i <= k < a.Length ==> a[k] == old(a[k])
    {
      assert old(a[..])[..i + 1] == old(a[..])[..i] + [old(a[i])];
      InsertAt(a, i, old(a[..])[..i]);
      i := i + 1;
    }
    assert a[..] == a[..a.Length];
    assert old(a[..])[..a.Length] == old(a[..]);
  }

  /** `groupby` over the sorted list, collected into a dictionary: each
      maximal run of one type is stored under that type. On a list sorted by
      type this gives one key per type that occurs. */
  method GroupRuns(sorted: seq<Variation>) returns (groups: map<VariationType, seq<Variation>>)
    requires SortedByType(sorted)
    ensures groups == GroupsOf(sorted)
  {
    var n := |sorted|;
    groups := map[];
    var start, i := 0, 0;
    while i < n
      invariant 0 <= start <= i <= n
      invariant forall k :: start <= k <= i && k < n ==> sorted[k].Type() == sorted[start].Type()
      invariant forall p, q :: 0 <= p < start <= q < n ==> sorted[p].Type() != sorted[q].Type()
      invariant i == n ==> start == n
      invariant groups == GroupsOf(sorted[..start])
    {
      if i + 1 == n || sorted[i + 1].Type() != sorted[i].Type() {
        var t := sorted[i].Type();
        EmitRun(sorted, start, i + 1);
        groups := groups[t := sorted[start..i + 1]];
        start := i + 1;
      }
      i := i + 1;
    }
    assert sorted[..start] == sorted;
  }

  /** `Record.variations_by_type`: copy the variations into a list, sort the
      list by type, then group its runs. The dictionary holds exactly the
      types that occur, each mapped to the variations of that type in their
      original order. */
  method VariationsByType(vs: seq<Variation>) returns (groups: map<VariationType, seq<Variation>>)
    ensures forall t :: t in groups <==> Filter(vs, t) != []
    ensures forall t :: t in groups ==> groups[t] == Filter(vs, t)
  {
    var a := new Variation[|vs|](k requires 0 <= k < |vs| => vs[k]);
    assert a[..] == vs;
    SortByType(a);
    StablySortedIsSortedPermutation(vs);
    groups := GroupRuns(a[..]);
    FilterOfStablySorted(vs, Credit);
    FilterOfStablySorted(vs, Debit);
    GroupsOfKeys(a[..]);
  }

  /** The groups of `s` are keyed by the types that occur in `s`, each
      mapped to its filter. */
  lemma {:induction false} GroupsOfKeys(s: seq<Variation>)
    ensures forall t :: t in GroupsOf(s) <==> Filter(s, t) != []
    ensures forall t :: t in GroupsOf(s) ==> GroupsOf(s)[t] == Filter(s, t)
  {
    forall t ensures t in GroupsOf(s) <==> Filter(s, t) != [] {
      if t == Credit { } else { assert t == Debit; }
    }
  }

  /** Appending a nonempty run of type `t` to a sequence without any `t`
      adds the key `t` to its groups and changes nothing else. */
  lemma {:induction false} GroupsExtend(x: seq<Variation>, y: seq<Variation>, t: VariationType)
    requires Filter(x, t) == []
    requires y != [] && forall k :: 0 <= k < |y| ==> y[k].Type() == t
    ensures GroupsOf(x)[t := y] == GroupsOf(x + y)
  {
    FilterAll(y, t);
    FilterAppend(x, y, t);
    FilterAppend(x, y, OtherType(t));
    if t == Credit {
      GroupsAddCredits(x, y);
    } else {
      GroupsAddDebits(x, y);
    }
  }

  lemma {:induction false} GroupsAddCredits(x: seq<Variation>, y: seq<Variation>)
    requires Filter(x, Credit) == [] && y != []
    requires Filter(x + y, Credit) == y && Filter(x + y, Debit) == Filter(x, Debit)
    ensures GroupsOf(x)[Credit := y] == GroupsOf(x + y)
  {
    var debits := Filter(x, Debit);
    if debits == [] {
      assert GroupsOf(x) == map[];
      assert GroupsOf(x + y) == map[Credit := y];
    } else {
      assert GroupsOf(x) == map[Debit := debits];
      assert GroupsOf(x + y) == map[Credit := y, Debit := debits];
    }
  }

  lemma {:induction false} GroupsAddDebits(x: seq<Variation>, y: seq<Variation>)
    requires Filter(x, Debit) == [] && y != []
    requires Filter(x + y, Debit) == y && Filter(x + y, Credit) == Filter(x, Credit)
    ensures GroupsOf(x)[Debit := y] == GroupsOf(x + y)
  {
    var credits := Filter(x, Credit);
    if credits == [] {
      assert GroupsOf(x) == map[];
      assert GroupsOf(x + y) == map[Debit := y];
    } else {
      assert GroupsOf(x) == map[Credit := credits];
      assert GroupsOf(x + y) == map[Credit := credits, Debit := y];
    }
  }

  /** In a sequence sorted by type, a change of type between positions
      `end - 1` and `end` separates everything before `end` from everything
      after it. */
  lemma {:induction false} BoundaryAt(s: seq<Variation>, end: nat)
    requires 0 < end < |s|
    requires SortedByType(s)
    requires s[end].Type() != s[end - 1].Type()
    ensures forall p, q :: 0 <= p < end <= q < |s| ==> s[p].Type() != s[q].Type()
  {
    assert s[end - 1].Type() == Credit && s[end].Type() == Debit;
    forall p, q | 0 <= p < end <= q < |s| ensures s[p].Type() != s[q].Type() {
      assert p <= end - 1 && end <= q;
      assert p < end - 1 ==> !Before(s[end - 1].Type(), s[p].Type());
      assert q > end ==> !Before(s[q].Type(), s[end].Type());
    }
  }

  /** One step of the grouping loop: a run `s[start..end]` of one type that
      ends at a type boundary extends the groups of `s[..start]` to those of
      `s[..end]`, and `end` becomes a boundary. */
  lemma {:induction false} EmitRun(s: seq<Variation>, start: nat, end: nat)
    requires start < end <= |s|
    requires SortedByType(s)
    requires forall k :: start <= k < end ==> s[k].Type() == s[start].Type()
    requires forall p, q :: 0 <= p < start <= q < |s| ==> s[p].Type() != s[q].Type()
    requires end == |s| || s[end].Type() != s[end - 1].Type()
    ensures GroupsOf(s[..start])[s[start].Type() := s[start..end]] == GroupsOf(s[..end])
    ensures forall p, q :: 0 <= p < end <= q < |s| ==> s[p].Type() != s[q].Type()
  {
    var t := s[start].Type();
    assert s[..end] == s[..start] + s[start..end];
    FilterNone(s[..start], t);
    GroupsExtend(s[..start], s[start..end], t);
    if end < |s| {
      BoundaryAt(s, end);
    }
  }

  /** The positions in `vs` of the variations of type `t`, in increasing
      order: the group of type `t` lists exactly these variations, so the
      input order is kept within a group. */
  function Positions(vs: seq<Variation>, t: VariationType): (ps: seq<nat>)
    ensures |ps| == |Filter(vs, t)|
    ensures forall k :: 0 <= k < |ps| ==> ps[k] < |vs| && vs[ps[k]] == Filter(vs, t)[k]
    ensures forall k, m :: 0 <= k < m < |ps| ==> ps[k] < ps[m]
    ensures forall i :: 0 <= i < |vs| && vs[i].Type() == t ==> i in ps
  {
    if vs == [] then []
    else
      var init := vs[..|vs| - 1];
      if vs[|vs| - 1].Type() == t then Positions(init, t) + [|vs| - 1]
      else Positions(init, t)
  }

  /** Every variation lands in exactly one group, the one of its own type. */
  lemma {:induction false} ExactlyOneGroup(vs: seq<Variation>, v: Variation)
    requires v in vs
    ensures v in Filter(vs, v.Type())
    ensures v !in Filter(vs, OtherType(v.Type()))
  {
    var i :| 0 <= i < |vs| && vs[i] == v;
    var ps := Positions(vs, v.Type());
    assert i in ps;
    var k :| 0 <= k < |ps| && ps[k] == i;
    assert Filter(vs, v.Type())[k] == v;
  }

  /** The record of the model tests, in cents: a credit of -100 on the Destination
      account 'cash' (id 1), then debits of -40 and -60 on the Origin
      accounts 'expense one' and 'expense two' (ids 2 and 3). The debit group
      keeps the input order, expense one first. */
  lemma FixtureGroups()
    ensures var vs := [Variation(1, 1, Destination, -10000), Variation(2, 2, Origin, -4000), Variation(3, 3, Origin, -6000)];
      GroupsOf(vs) == map[Credit := [vs[0]], Debit := [vs[1], vs[2]]]
  {
    var vs := [Variation(1, 1, Destination, -10000), Variation(2, 2, Origin, -4000), Variation(3, 3, Origin, -6000)];
    var empty: seq<Variation> := [];
    assert GroupsOf(empty) == map[];
    GroupsExtend(empty, [vs[0]], Credit);
    assert empty + [vs[0]] == [vs[0]];
    FilterSingle(vs[0], Debit);
    GroupsExtend([vs[0]], [vs[1], vs[2]], Debit);
    assert [vs[0]] + [vs[1], vs[2]] == vs;
  }

}
