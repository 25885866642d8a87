/** The account tree of the ledgers: accounts kept in a table keyed by their
    primary key, each with an optional parent, and the signed amounts of the
    variations booked on it. Computes totals, breadcrumbs and full names, and
    lists the root accounts of one type. */
module Accounts {
  import opened Options
  import opened Variations

  /** One account. `amounts` are the signed amounts, in cents, of the
      variations booked on it. */
  datatype Account = Account(name: string, kind: AccountType, parent: Option<nat>, ledger: nat, amounts: seq<int>)

  /** The account table. `next` is the next primary key to be handed out:
      every key in use is below it. */
  datatype Chart = Chart(table: map<nat, Account>, next: nat)

  /** Every key is below `next`, and every parent is an existing account
      created before its child, hence with a smaller key. */
  predicate Valid(c: Chart)
  {
    forall id | id in c.table ::
      id < c.next &&
      (c.table[id].parent.Some? ==> c.table[id].parent.value in c.table && c.table[id].parent.value < id)
  }

  // ---------------------------------------------------------------- totals

  /** The plain signed sum of a sequence of amounts. */
  function Sum(xs: seq<int>): int
  {
    if xs == [] then 0 else Sum(xs[..|xs| - 1]) + xs[|xs| - 1]
  }

  /** `VariationManager.total`: the aggregated sum of the amounts, which is
      `None` when there are no variations at all. */
  function VariationsTotal(amounts: seq<int>): (r: Option<int>)
    ensures r.None? <==> amounts == []
    ensures r.Some? ==> r.value == Sum(amounts)
  {
    if amounts == [] then None else Some(Sum(amounts))
  }

  lemma {:induction false} SumAppend(xs: seq<int>, ys: seq<int>)
    ensures Sum(xs + ys) == Sum(xs) + Sum(ys)
    decreases |ys|
  {
    if ys == [] {
      assert xs + ys == xs;
    } else {
      assert (xs + ys)[..|xs + ys| - 1] == xs + ys[..|ys| - 1];
      SumAppend(xs, ys[..|ys| - 1]);
    }
  }

  /** The test fixture, in cents: -100 and -200 booked on one account add up
      to -300. */
  lemma VariationsTotalExample()
    ensures VariationsTotal([-10000, -20000]) == Some(-30000)
    ensures VariationsTotal([]) == None
  {
    assert [-10000, -20000][..1] == [-10000];
    assert [-10000][..0] == [];
  }

  /** The children of `id` among the keys `from`, `from + 1`, ... below
      `next`, in key order. */
  function ChildrenFrom(c: Chart, id: nat, from: nat): (r: seq<nat>)
    ensures forall k :: 0 <= k < |r| ==> from <= r[k] && r[k] in c.table && c.table[r[k]].parent == Some(id)
    ensures forall j :: from <= j < c.next && j in c.table && c.table[j].parent == Some(id) ==> j in r
    ensures forall k, m :: 0 <= k < m < |r| ==> r[k] < r[m]
    decreases c.next - from
  {
    if from >= c.next then []
    else if from in c.table && c.table[from].parent == Some(id) then [from] + ChildrenFrom(c, id, from + 1)
    else ChildrenFrom(c, id, from + 1)
  }

  /** `account.children`: the accounts whose parent is `id`, in key order. */
  function Children(c: Chart, id: nat): (r: seq<nat>)
    requires Valid(c)
    ensures forall k :: 0 <= k < |r| ==> id < r[k] && r[k] in c.table && c.table[r[k]].parent == Some(id)
    ensures forall j :: j in c.table && c.table[j].parent == Some(id) ==> j in r
    ensures forall k, m :: 0 <= k < m < |r| ==> r[k] < r[m]
  {
    ChildrenFrom(c, id, id + 1)
  }

  /** An account without children. */
  predicate IsLeaf(c: Chart, id: nat)
    requires Valid(c)
  {
    Children(c, id) == []
  }

  /** What a leaf shows as its total: the total of its variations, or 0
      when it has none. */
  function LeafValue(c: Chart, id: nat): int
    requires id in c.table
  {
    match VariationsTotal(c.table[id].amounts)
    case Some(s) => s
    case None => 0
  }

  /** `Account.total`: the sum of the children's totals when there are
      children, the leaf value otherwise. */
  function Total(c: Chart, id: nat): (r: int)
    requires Valid(c) && id in c.table
    ensures IsLeaf(c, id) ==> r == Sum(c.table[id].amounts)
    decreases c.next - id, 1, 0
  {
    var kids := Children(c, id);
    if kids != [] then SumTotals(c, id, kids) else LeafValue(c, id)
  }

  /** The sum of the totals of some children of `id`. */
  function SumTotals(c: Chart, id: nat, kids: seq<nat>): int
    requires Valid(c)
    requires forall k :: 0 <= k < |kids| ==> kids[k] in c.table && id < kids[k]
    decreases c.next - id, 0, |kids|
  {
    if kids == [] then 0 else Total(c, kids[0]) + SumTotals(c, id, kids[1..])
  }

  // ----------------------------------------------------------- breadcrumbs

  /** `p` is a path of accounts from a root down to `id`: it starts at an
      account without parent, ends with `id`, and each element is the parent
      of the next. */
  predicate IsPathTo(c: Chart, p: seq<nat>, id: nat)
  {
    && |p| >= 1
    && p[|p| - 1] == id
    && (forall k :: 0 <= k < |p| ==> p[k] in c.table)
    && c.table[p[0]].parent == None
    && (forall k :: 0 <= k < |p| - 1 ==> c.table[p[k + 1]].parent == Some(p[k]))
  }

  /** `Account.get_breadcrumbs`: the path from the root to the account. */
  function Breadcrumbs(c: Chart, id: nat): (r: seq<nat>)
    requires Valid(c) && id in c.table
    ensures IsPathTo(c, r, id)
    decreases id
  {
    match c.table[id].parent
    case None => [id]
    case Some(p) => Breadcrumbs(c, p) + [id]
  }

  /** The number of ancestors of an account. */
  function Depth(c: Chart, id: nat): nat
    requires Valid(c) && id in c.table
    decreases id
  {
    match c.table[id].parent
    case None => 0
    case Some(p) => Depth(c, p) + 1
  }

  /** The breadcrumbs have one element per ancestor, plus the account. */
  lemma {:induction false} BreadcrumbsLength(c: Chart, id: nat)
    requires Valid(c) && id in c.table
    ensures |Breadcrumbs(c, id)| == Depth(c, id) + 1
    decreases id
  {
    match c.table[id].parent
    case None =>
    case Some(p) => BreadcrumbsLength(c, p);
  }

  /** A path to an account is unique: it is the breadcrumbs. */
  lemma {:induction false} BreadcrumbsUnique(c: Chart, p: seq<nat>, id: nat)
    requires Valid(c) && IsPathTo(c, p, id)
    ensures p == Breadcrumbs(c, id)
    decreases |p|
  {
    if |p| > 1 {
      var init := p[..|p| - 1];
      assert IsPathTo(c, init, p[|p| - 2]);
      BreadcrumbsUnique(c, init, p[|p| - 2]);
    }
  }

  /** Keys strictly increase along a path, so no account occurs twice. */
  lemma {:induction false} PathIncreasing(c: Chart, p: seq<nat>, id: nat)
    requires Valid(c) && IsPathTo(c, p, id)
    ensures forall k, m :: 0 <= k < m < |p| ==> p[k] < p[m]
    decreases |p|
  {
    if |p| > 1 {
      var init := p[..|p| - 1];
      assert IsPathTo(c, init, p[|p| - 2]);
      PathIncreasing(c, init, p[|p| - 2]);
      assert p[|p| - 2] < p[|p| - 1];
    }
  }

  // ------------------------------------------------------------- full name

  /** Python's `sep.join(parts)`. */
  function Join(parts: seq<string>, sep: string): (r: string)
    ensures |parts| == 1 ==> r == parts[0]
    ensures parts != [] ==> |parts[0]| <= |r| && r[..|parts[0]|] == parts[0]
    ensures parts != [] ==> |parts[|parts| - 1]| <= |r| && r[|r| - |parts[|parts| - 1]|..] == parts[|parts| - 1]
  {
    if |parts| == 0 then ""
    else if |parts| == 1 then parts[0]
    else Join(parts[..|parts| - 1], sep) + sep + parts[|parts| - 1]
  }

  /** Appending one part to a nonempty list adds the separator and the part. */
  lemma JoinSnoc(parts: seq<string>, x: string, sep: string)
    requires parts != []
    ensures Join(parts + [x], sep) == Join(parts, sep) + sep + x
  {
    var px := parts + [x];
    assert px[..|px| - 1] == parts;
  }

  /** Joining two nonempty lists of parts puts the separator between their
      joins. With the one-part case of `Join` this fixes every join: the
      parts, in order, with `sep` between each two neighbours. */
  lemma {:induction false} JoinConcat(a: seq<string>, b: seq<string>, sep: string)
    requires a != [] && b != []
    ensures Join(a + b, sep) == Join(a, sep) + sep + Join(b, sep)
    decreases |b|
  {
    var last := b[|b| - 1];
    if |b| == 1 {
      assert b == [last];
      JoinSnoc(a, last, sep);
    } else {
      var init := b[..|b| - 1];
      assert b == init + [last];
      assert a + b == (a + init) + [last];
      JoinConcat(a, init, sep);
      JoinSnoc(a + init, last, sep);
      JoinSnoc(init, last, sep);
    }
  }

  /** The names of the accounts `ids`, in order. */
  function Names(c: Chart, ids: seq<nat>): (r: seq<string>)
    requires forall k :: 0 <= k < |ids| ==> ids[k] in c.table
    ensures |r| == |ids|
    ensures forall k :: 0 <= k < |ids| ==> r[k] == c.table[ids[k]].name
  {
    if ids == [] then [] else Names(c, ids[..|ids| - 1]) + [c.table[ids[|ids| - 1]].name]
  }

  const Separator := " / "

  /** `Account.full_name`: the breadcrumb names joined by " / ". */
  function FullName(c: Chart, id: nat): (r: string)
    requires Valid(c) && id in c.table
    ensures c.table[id].parent.None? ==> r == c.table[id].name
    ensures |c.table[id].name| <= |r| && r[|r| - |c.table[id].name|..] == c.table[id].name
  {
    Join(Names(c, Breadcrumbs(c, id)), Separator)
  }

  /** The full name of a root is its own name; that of any other account is
      its parent's full name, " / ", and its own name. */
  lemma {:induction false} FullNameStep(c: Chart, id: nat)
    requires Valid(c) && id in c.table
    ensures c.table[id].parent.None? ==> FullName(c, id) == c.table[id].name
    ensures c.table[id].parent.Some? ==>
      FullName(c, id) == FullName(c, c.table[id].parent.value) + Separator + c.table[id].name
  {
    var bc := Breadcrumbs(c, id);
    if c.table[id].parent.Some? {
      var p := c.table[id].parent.value;
      assert bc[..|bc| - 1] == Breadcrumbs(c, p);
    } else {
      assert bc[..0] == [];
    }
  }

  // ---------------------------------------------------------------- roots

  /** The accounts of `ledger` without parent whose type is `kind`. */
  function RootsOfType(c: Chart, ledger: nat, kind: AccountType): set<nat>
  {
    set id | id in c.table && c.table[id].parent.None? && c.table[id].kind == kind && c.table[id].ledger == ledger
  }

  /** `AccountManager.destination_accounts`. */
  function DestinationAccounts(c: Chart, ledger: nat): (r: set<nat>)
    ensures forall id :: id in r ==> id in c.table && c.table[id].kind == Destination
  {
    RootsOfType(c, ledger, Destination)
  }

  /** `AccountManager.origin_accounts`. */
  function OriginAccounts(c: Chart, ledger: nat): (r: set<nat>)
    ensures forall id :: id in r ==> id in c.table && c.table[id].kind == Origin
  {
    RootsOfType(c, ledger, Origin)
  }

  /** The two lists split the root accounts of a ledger: each root is in
      exactly one of them, and nothing else is. */
  lemma {:induction false} RootsPartition(c: Chart, ledger: nat, id: nat)
    ensures id in DestinationAccounts(c, ledger) + OriginAccounts(c, ledger) <==>
      id in c.table && c.table[id].parent.None? && c.table[id].ledger == ledger
    ensures id !in DestinationAccounts(c, ledger) * OriginAccounts(c, ledger)
  {
    if id in c.table && c.table[id].parent.None? && c.table[id].ledger == ledger {
      if c.table[id].kind == Destination {
        assert id in DestinationAccounts(c, ledger);
      } else {
        assert id in OriginAccounts(c, ledger);
      }
    }
  }

  /** Children share their parent's type, as the account creation view sets
      it. */
  predicate ChildrenShareType(c: Chart)
  {
    forall id | id in c.table && c.table[id].parent.Some? && c.table[id].parent.value in c.table ::
      c.table[id].kind == c.table[c.table[id].parent.value].kind
  }

  /** When children share their parent's type, the root of every account is
      listed among the roots of the account's own type, in the root's
      ledger. A child's ledger is not tied to its parent's, so the root's
      ledger may differ from the account's. */
  lemma {:induction false} RootIsListed(c: Chart, id: nat)
    requires Valid(c) && ChildrenShareType(c) && id in c.table
    ensures var root := Breadcrumbs(c, id)[0];
      root in RootsOfType(c, c.table[root].ledger, c.table[id].kind)
    decreases id
  {
    match c.table[id].parent
    case None =>
    case Some(p) =>
      RootIsListed(c, p);
      assert Breadcrumbs(c, id)[0] == Breadcrumbs(c, p)[0];
  }

  // ------------------------------------------------------ totals at any depth

  /** What leaf `j` adds to the total of account `a`: its leaf value when `a`
      is on its breadcrumbs (`a` is `j` or an ancestor of `j`), else 0. */
  function Contribution(c: Chart, a: nat, j: nat): int
    requires Valid(c)
  {
    if j in c.table && IsLeaf(c, j) && a in Breadcrumbs(c, j) then LeafValue(c, j) else 0
  }

  /** The leaf values of the leaves under `a` whose keys are below `hi`: an
      account total defined without recursion over the children. */
  function LeafSumUnder(c: Chart, a: nat, hi: nat): int
    requires Valid(c)
  {
    if hi == 0 then 0 else LeafSumUnder(c, a, hi - 1) + Contribution(c, a, hi - 1)
  }

  /** The sum over some accounts `kids` of what leaf `j` adds to each. */
  function SumContributions(c: Chart, kids: seq<nat>, j: nat): int
    requires Valid(c)
  {
    if kids == [] then 0 else Contribution(c, kids[0], j) + SumContributions(c, kids[1..], j)
  }

  /** The sum over some accounts `kids` of their leaf sums below `hi`. */
  function SumLeafSums(c: Chart, kids: seq<nat>, hi: nat): int
    requires Valid(c)
  {
    if kids == [] then 0 else LeafSumUnder(c, kids[0], hi) + SumLeafSums(c, kids[1..], hi)
  }

  /** Every account on breadcrumbs except the last has a child, so a leaf
      occurs only on its own breadcrumbs. */
  lemma {:induction false} LeafOnlyUnderItself(c: Chart, a: nat, j: nat)
    requires Valid(c) && IsLeaf(c, a)
    ensures j in c.table && a in Breadcrumbs(c, j) ==> j == a
  {
    if j in c.table {
      var bc := Breadcrumbs(c, j);
      forall m | 0 <= m < |bc| - 1 ensures bc[m] != a {
        assert bc[m + 1] in Children(c, bc[m]);
      }
    }
  }

  /** Under a leaf, the only leaf is the account itself. */
  lemma {:induction false} LeafSumOfLeaf(c: Chart, a: nat, hi: nat)
    requires Valid(c) && a in c.table && IsLeaf(c, a)
    ensures LeafSumUnder(c, a, hi) == if a < hi then LeafValue(c, a) else 0
  {
    if hi > 0 {
      var j := hi - 1;
      LeafSumOfLeaf(c, a, j);
      LeafOnlyUnderItself(c, a, j);
      if j == a {
        var bc := Breadcrumbs(c, a);
        assert bc[|bc| - 1] == a;
        assert Contribution(c, a, j) == LeafValue(c, a);
      } else {
        assert Contribution(c, a, j) == 0;
      }
    }
  }

  /** The sum of the leaf sums of `kids` grows, from `hi` to `hi + 1`, by what
      leaf `hi` adds to them. */
  lemma {:induction false} SumLeafSumsStep(c: Chart, kids: seq<nat>, hi: nat)
    requires Valid(c)
    ensures SumLeafSums(c, kids, hi + 1) == SumLeafSums(c, kids, hi) + SumContributions(c, kids, hi)
  {
    if kids != [] {
      SumLeafSumsStep(c, kids[1..], hi);
    }
  }

  /** A sum over distinct `kids` of which only `hit` can be nonzero. */
  lemma {:induction false} SumOfOneHit(c: Chart, kids: seq<nat>, j: nat, hit: nat)
    requires Valid(c)
    requires forall k, m :: 0 <= k < m < |kids| ==> kids[k] < kids[m]
    requires forall k :: 0 <= k < |kids| && kids[k] != hit ==> Contribution(c, kids[k], j) == 0
    ensures SumContributions(c, kids, j) == if hit in kids then Contribution(c, hit, j) else 0
  {
    if kids != [] {
      SumOfOneHit(c, kids[1..], j, hit);
      assert kids[0] == hit ==> hit !in kids[1..];
    }
  }

  /** A child `k` of `a` on the breadcrumbs of `j` comes right after `a`. */
  lemma {:induction false} ChildOnPath(c: Chart, a: nat, j: nat, k: nat)
    requires Valid(c) && j in c.table && k in c.table && c.table[k].parent == Some(a)
    ensures k in Breadcrumbs(c, j) ==>
      exists m :: 0 <= m < |Breadcrumbs(c, j)| - 1 && Breadcrumbs(c, j)[m] == a && Breadcrumbs(c, j)[m + 1] == k
  {
    var bc := Breadcrumbs(c, j);
    if k in bc {
      var m :| 0 <= m < |bc| && bc[m] == k;
      assert m > 0 && bc[m - 1] == a;
    }
  }

  /** On the breadcrumbs of `j`, at most one child of `a` occurs, the one
      right after `a`. */
  lemma {:induction false} OneChildOnPath(c: Chart, a: nat, j: nat, m: nat)
    requires Valid(c) && j in c.table
    requires m < |Breadcrumbs(c, j)| - 1 && Breadcrumbs(c, j)[m] == a
    ensures forall k :: k in Children(c, a) && k in Breadcrumbs(c, j) ==> k == Breadcrumbs(c, j)[m + 1]
  {
    var bc := Breadcrumbs(c, j);
    PathIncreasing(c, bc, j);
    forall k | k in Children(c, a) && k in bc ensures k == bc[m + 1] {
      ChildOnPath(c, a, j, k);
      var m2 :| 0 <= m2 < |bc| - 1 && bc[m2] == a && bc[m2 + 1] == k;
      assert m2 == m;
    }
  }

  /** The key fact of the tree: each leaf under a non-leaf `a` is under
      exactly one child of `a`, so what it adds to `a` is what it adds to the
      children together. */
  lemma {:induction false} SplitAmongChildren(c: Chart, a: nat, j: nat)
    requires Valid(c) && a in c.table && !IsLeaf(c, a)
    ensures SumContributions(c, Children(c, a), j) == Contribution(c, a, j)
  {
    var kids := Children(c, a);
    if j in c.table && IsLeaf(c, j) && a in Breadcrumbs(c, j) {
      var bc := Breadcrumbs(c, j);
      var m :| 0 <= m < |bc| && bc[m] == a;
      assert a != j;
      assert m < |bc| - 1;
      var hit := bc[m + 1];
      assert hit in kids;
      OneChildOnPath(c, a, j, m);
      SumOfOneHit(c, kids, j, hit);
    } else {
      forall k | 0 <= k < |kids| ensures Contribution(c, kids[k], j) == 0 {
        if j in c.table {
          ChildOnPath(c, a, j, kids[k]);
        }
      }
      SumOfOneHit(c, kids, j, a);
    }
  }

  /** Summing the split of every leaf below `hi`. */
  lemma {:induction false} SplitBelow(c: Chart, a: nat, hi: nat)
    requires Valid(c) && a in c.table && !IsLeaf(c, a)
    ensures SumLeafSums(c, Children(c, a), hi) == LeafSumUnder(c, a, hi)
  {
    if hi == 0 {
      SumLeafSumsZero(c, Children(c, a));
    } else {
      SplitBelow(c, a, hi - 1);
      ChildrenGrowTogether(c, a, hi - 1);
    }
  }

  /** From `j` to `j + 1`, the leaf sums of the children of `a` and the leaf
      sum of `a` grow by the same amount: what leaf `j` adds to `a`. */
  lemma {:induction false} ChildrenGrowTogether(c: Chart, a: nat, j: nat)
    requires Valid(c) && a in c.table && !IsLeaf(c, a)
    ensures SumLeafSums(c, Children(c, a), j + 1) - LeafSumUnder(c, a, j + 1) ==
      SumLeafSums(c, Children(c, a), j) - LeafSumUnder(c, a, j)
  {
    SumLeafSumsStep(c, Children(c, a), j);
    SplitAmongChildren(c, a, j);
  }

  lemma {:induction false} SumLeafSumsZero(c: Chart, kids: seq<nat>)
    requires Valid(c)
    ensures SumLeafSums(c, kids, 0) == 0
  {
    if kids != [] {
      SumLeafSumsZero(c, kids[1..]);
    }
  }

  /** The total of an account, computed by recursion over its children at
      any depth, is the sum of the leaf values of the leaves under it; the
      account's own variations count only when it is a leaf. */
  lemma {:induction false} TotalIsLeafSum(c: Chart, a: nat)
    requires Valid(c) && a in c.table
    ensures Total(c, a) == LeafSumUnder(c, a, c.next)
    decreases c.next - a, 1, 0
  {
    var kids := Children(c, a);
    if kids == [] {
      LeafSumOfLeaf(c, a, c.next);
    } else {
      SumTotalsIsSumLeafSums(c, a, kids);
      SplitBelow(c, a, c.next);
    }
  }

  lemma {:induction false} SumTotalsIsSumLeafSums(c: Chart, a: nat, kids: seq<nat>)
    requires Valid(c)
    requires forall k :: 0 <= k < |kids| ==> kids[k] in c.table && a < kids[k]
    ensures SumTotals(c, a, kids) == SumLeafSums(c, kids, c.next)
    decreases c.next - a, 0, |kids|
  {
    if kids != [] {
      TotalIsLeafSum(c, kids[0]);
      SumTotalsIsSumLeafSums(c, a, kids[1..]);
    }
  }

  // ------------------------------------------------- own variations ignored

  /** Two tables with the same accounts, keys and parents, that may differ
      only in the amounts booked on each account. */
  predicate SameTree(c: Chart, d: Chart)
  {
    && c.next == d.next
    && c.table.Keys == d.table.Keys
    && (forall id | id in c.table :: d.table[id].parent == c.table[id].parent)
  }

  lemma {:induction false} ChildrenFromSameTree(c: Chart, d: Chart, id: nat, from: nat)
    requires SameTree(c, d)
    ensures ChildrenFrom(d, id, from) == ChildrenFrom(c, id, from)
    decreases c.next - from
  {
    if from < c.next {
      ChildrenFromSameTree(c, d, id, from + 1);
      assert (from in c.table && c.table[from].parent == Some(id)) == (from in d.table && d.table[from].parent == Some(id));
    }
  }

  /** An account with children shows the sum of its children's totals: the
      variations booked on it directly never count. Changing the amounts of
      any accounts that have children leaves every total unchanged. */
  lemma {:induction false} OwnVariationsIgnored(c: Chart, d: Chart, id: nat)
    requires Valid(c) && SameTree(c, d) && id in c.table
    requires forall k | k in c.table && IsLeaf(c, k) :: d.table[k].amounts == c.table[k].amounts
    ensures Valid(d) && Total(d, id) == Total(c, id)
    decreases c.next - id, 1, 0
  {
    ChildrenSameTree(c, d, id);
    var kids := Children(c, id);
    if kids != [] {
      OwnVariationsIgnoredBelow(c, d, id, kids);
    } else {
      assert IsLeaf(c, id);
    }
  }

  /** Tables with the same tree have the same children everywhere. */
  lemma {:induction false} ChildrenSameTree(c: Chart, d: Chart, id: nat)
    requires Valid(c) && SameTree(c, d)
    ensures Valid(d) && Children(d, id) == Children(c, id)
  {
    SameTreeValid(c, d);
    ChildrenFromSameTree(c, d, id, id + 1);
  }

  lemma {:induction false} SameTreeValid(c: Chart, d: Chart)
    requires Valid(c) && SameTree(c, d)
    ensures Valid(d)
  {
    forall id | id in d.table
      ensures id < d.next
      ensures d.table[id].parent.Some? ==> d.table[id].parent.value in d.table && d.table[id].parent.value < id
    {
      assert id in c.table;
    }
  }

  lemma {:induction false} OwnVariationsIgnoredBelow(c: Chart, d: Chart, id: nat, kids: seq<nat>)
    requires Valid(c) && SameTree(c, d)
    requires forall k | k in c.table && IsLeaf(c, k) :: d.table[k].amounts == c.table[k].amounts
    requires forall k :: 0 <= k < |kids| ==> kids[k] in c.table && id < kids[k]
    ensures Valid(d) && SumTotals(d, id, kids) == SumTotals(c, id, kids)
    decreases c.next - id, 0, |kids|
  {
    if kids != [] {
      OwnVariationsIgnored(c, d, kids[0]);
      OwnVariationsIgnoredBelow(c, d, id, kids[1..]);
    }
  }

  // -------------------------------------------------------------- examples

  /** The accounts of the model tests: 'cash' (1, Destination) with the
      children 'bank one' (3) and 'bank two' (4), the latter with the child
      'sub bank two' (5); 'wealth' (2, Origin) is a second root. 'bank one'
      and 'sub bank two' hold 80 each, 'wealth' holds 160. */
  function TestChart(): Chart
  {
    Chart(map[
      1 := Account("cash", Destination, None, 1, []),
      2 := Account("wealth", Origin, None, 1, [16000]),
      3 := Account("bank one", Destination, Some(1), 1, [8000]),
      4 := Account("bank two", Origin, Some(1), 1, []),
      5 := Account("sub bank two", Origin, Some(4), 1, [8000])
    ], 6)
  }

  lemma TestChartValid()
    ensures Valid(TestChart())
  {
    var c := TestChart();
    assert c.table.Keys == {1, 2, 3, 4, 5};
  }

  /** The breadcrumbs of 'sub bank two'. */
  lemma BreadcrumbsExample()
    ensures Valid(TestChart())
    ensures Breadcrumbs(TestChart(), 5) == [1, 4, 5]
  {
    var c := TestChart();
    TestChartValid();
    assert c.table[5].parent == Some(4) && c.table[4].parent == Some(1) && c.table[1].parent == None;
    assert Breadcrumbs(c, 1) == [1];
    assert Breadcrumbs(c, 4) == Breadcrumbs(c, 1) + [4];
    assert Breadcrumbs(c, 5) == Breadcrumbs(c, 4) + [5];
  }

  lemma {:induction false} JoinThree(x: string, y: string, z: string, sep: string)
    ensures Join([x, y, z], sep) == x + sep + y + sep + z
  {
    assert [x, y][..1] == [x];
    assert Join([x, y], sep) == x + sep + y;
    assert [x, y, z][..2] == [x, y];
    assert Join([x, y, z], sep) == Join([x, y], sep) + sep + z;
  }

  lemma NamesExample()
    ensures Names(TestChart(), [1, 4, 5]) == ["cash", "bank two", "sub bank two"]
  {
    var c := TestChart();
    var ids: seq<nat> := [1, 4, 5];
    var one: seq<nat> := [1];
    var two: seq<nat> := [1, 4];
    assert one[..0] == [] && two[..1] == one && ids[..2] == two;
    assert c.table[1].name == "cash" && c.table[4].name == "bank two" && c.table[5].name == "sub bank two";
  }

  /** The full name of 'sub bank two'. */
  lemma FullNameExample()
    ensures Valid(TestChart())
    ensures FullName(TestChart(), 5) == "cash / bank two / sub bank two"
  {
    var c := TestChart();
    BreadcrumbsExample();
    NamesExample();
    var names := Names(c, [1, 4, 5]);
    assert FullName(c, 5) == Join(names, Separator);
    JoinThree("cash", "bank two", "sub bank two", Separator);
    SubBankTwoName();
  }

  lemma SubBankTwoName()
    ensures "cash" + Separator + "bank two" + Separator + "sub bank two" == "cash / bank two / sub bank two"
  {
  }

  /** The children of the test accounts. */
  lemma TestChildren()
    ensures Valid(TestChart())
    ensures Children(TestChart(), 1) == [3, 4]
    ensures Children(TestChart(), 3) == []
    ensures Children(TestChart(), 4) == [5]
    ensures Children(TestChart(), 5) == []
  {
    TestChartValid();
    ChildrenOfCash();
    ChildrenOfBankOne();
    ChildrenOfBankTwo();
    ChildrenOfSubBankTwo();
  }

  lemma ChildrenOfCash()
    ensures ChildrenFrom(TestChart(), 1, 2) == [3, 4]
  {
    var c := TestChart();
    assert ChildrenFrom(c, 1, 6) == [];
    assert ChildrenFrom(c, 1, 5) == [];
    assert ChildrenFrom(c, 1, 4) == [4];
    assert ChildrenFrom(c, 1, 3) == [3, 4];
  }

  lemma ChildrenOfBankOne()
    ensures ChildrenFrom(TestChart(), 3, 4) == []
  {
    var c := TestChart();
    assert ChildrenFrom(c, 3, 6) == [];
    assert ChildrenFrom(c, 3, 5) == [];
  }

  lemma ChildrenOfBankTwo()
    ensures ChildrenFrom(TestChart(), 4, 5) == [5]
  {
    var c := TestChart();
    assert ChildrenFrom(c, 4, 6) == [];
  }

  lemma ChildrenOfSubBankTwo()
    ensures ChildrenFrom(TestChart(), 5, 6) == []
  {
  }

  /** The total of 'cash' is 80 + 80 = 160.00, in cents. */
  lemma TotalExample()
    ensures Valid(TestChart())
    ensures Total(TestChart(), 1) == 16000
  {
    var c := TestChart();
    TestChildren();
    LeafTotalsExample();
    assert Total(c, 4) == Total(c, 5) + SumTotals(c, 4, []);
    assert Total(c, 1) == SumTotals(c, 1, [3, 4]);
    assert [3, 4][1..] == [4] && [4][1..] == [];
  }

  /** The two leaves below 'cash' hold 80.00 each. */
  lemma LeafTotalsExample()
    ensures Valid(TestChart())
    ensures Total(TestChart(), 3) == 8000 && Total(TestChart(), 5) == 8000
  {
    var c := TestChart();
    TestChildren();
    assert [8000][..0] == [];
    assert LeafValue(c, 3) == 8000 && LeafValue(c, 5) == 8000;
  }

  /** The root lists of the test ledger. */
  lemma RootsExample()
    ensures DestinationAccounts(TestChart(), 1) == {1}
    ensures OriginAccounts(TestChart(), 1) == {2}
  {
  }
}
