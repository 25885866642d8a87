# leanledger accounting core in Dafny

This project models the accounting logic of leanledger, a double-entry
bookkeeping web application. The application has three parts:

- A **ledger** holds **accounts**. Each account is either an *Origin* or a
  *Destination* account, and accounts form a tree through an optional parent.
- A **record** groups signed **variations**, one per account movement.
- A variation is a *debit* or a *credit*, derived from the sign of its amount
  and the type of its account. A record is *balanced* when its debit
  magnitudes add up to its credit magnitudes.

The modules follow the source:

| module | file | source |
|---|---|---|
| `Variations` | `variations.dfy` | the sign convention (`Variation.type`, `DEBIT`/`CREDIT`) |
| `Core` | `core.dfy` | `record_is_balanced`, as a loop proved against a recursive side sum |
| `Accounts` | `accounts.dfy` | the account tree: an arena of accounts keyed by primary key, with totals, breadcrumbs, full names and the root filters |
| `Records` | `records.dfy` | `Record.variations_by_type`: copy into an array, in-place stable sort by type, then a grouping loop |
| `RecordEditor` | `record_editor.dfy` | the browser component that edits a record snapshot: a class with the snapshot and the edit flag |
| `Options` | `options.dfy` | the optional value (`None`/`null`) |

Amounts are whole cents, because the stored decimals have two fractional
digits. The account table is a map from primary key to account, together
with the next key to be handed out. `Accounts.Valid` states that a parent is
always an existing account with a smaller key. This holds because a parent
must exist when its child is created, and no code changes a parent. The
same fact makes the recursion down the tree (totals) and up the tree
(breadcrumbs) terminate.

## Model

| member | source | states |
|---|---|---|
| Variations.TypeOf | leanledger/ledger/models.py:99-109 | the derived type is debit exactly when "the account is a Destination" and "the amount is positive" are both true or both false |
| Variations.Variation.Type | leanledger/ledger/models.py:99-109 | a variation is a debit exactly when "its account is a Destination" and "its amount is positive" are both true or both false |
| Variations.TypeTable | leanledger/ledger/models.py:102-109 | the four rows of the table: Origin increase is credit, Origin decrease is debit, Destination increase is debit, Destination decrease is credit |
| Variations.NegationFlipsType | leanledger/ledger/models.py:108-109 | for a nonzero amount, negating it gives the other type |
| Variations.AccountTypeFlipsType | leanledger/ledger/models.py:102-109 | for any amount, switching the account type gives the other type |
| Variations.ZeroIsDecrease | leanledger/ledger/models.py:108 | an amount of 0 is classed like any negative amount, as a decrease |
| Core.RecordIsBalanced | leanledger/ledger/core.py:5-13 | the loop answers true exactly when the debit-side magnitude sum equals the credit-side magnitude sum |
| Core.SidesCoverAll | leanledger/ledger/core.py:9-12 | the two side sums add up to the sum of all magnitudes: every variation that is not a debit is counted as a credit |
| Core.EmptyIsBalanced | leanledger/ledger/core.py:6 | a record without variations is balanced |
| Core.SideSumAppend | leanledger/ledger/core.py:7-12 | each side sum of a concatenation is the sum of the parts' side sums |
| Core.NegateAll | leanledger/ledger/core.py:8 | the record with every amount negated has the same length and the same accounts |
| Core.NegateAllSwapsSides | leanledger/ledger/core.py:8-12 | negating every amount exchanges the debit and the credit sums |
| Core.NegateAllKeepsBalance | leanledger/ledger/core.py:8-13 | negating every amount keeps a balanced record balanced and an unbalanced one unbalanced |
| Core.SameTypeSameMagnitude | leanledger/ledger/core.py:8-12 | replacing one variation by one with the same derived type and magnitude leaves both sums unchanged |
| Core.NegateOneMovesSide | leanledger/ledger/core.py:8-12 | negating one nonzero amount removes its magnitude from its side and adds it to the other side |
| Core.SideSumUpdate | leanledger/ledger/core.py:7-12 | replacing one variation changes a side sum by exactly the difference of the two shares |
| Core.SideSumPermutation | leanledger/ledger/core.py:7-12 | the side sums of two permutations of one another are equal |
| Core.PermutationKeepsBalance | leanledger/ledger/core.py:7-13 | reordering the variations does not change the balance |
| Core.AppendPairKeepsBalance | leanledger/ledger/core.py:8-13 | appending a debit and a credit of equal magnitude keeps the balance status |
| Core.IncreasesExample | leanledger/ledger/tests/test_core.py:9-25 | with the test's amounts taken as units of currency (10000 cents for 100), a debit of 100 against credits of 80 and 20 is balanced; against 80 and 40 it is not |
| Core.DecreasesExample | leanledger/ledger/tests/test_core.py:27-43 | the same with decreases, in the same units: -100 against -80 and -20 is balanced, against -80 and -30 it is not |
| Core.MixedExample | leanledger/ledger/tests/test_core.py:45-61 | in the same units, debit 100, debit -80 and credit 20 give 180 against 20 and are not balanced; debit 100, credit -70 and credit 20 are not balanced |
| Accounts.VariationsTotal | leanledger/ledger/models.py:83-86 | the aggregate is absent exactly when there are no amounts, otherwise it is their signed sum |
| Accounts.SumAppend | leanledger/ledger/models.py:86 | the signed sum is additive over concatenation |
| Accounts.VariationsTotalExample | leanledger/ledger/tests/test_models.py:155-166 | -100 and -200 (as -10000 and -20000 cents) total -300; no amounts give no total |
| Accounts.Children | leanledger/ledger/models.py:33-34 | the children of an account are exactly the accounts whose parent it is, each once, in key order, all with larger keys |
| Accounts.Total | leanledger/ledger/models.py:42-47 | a leaf's total is the signed sum of its amounts, 0 when it has none; what the total of any account is comes from `Accounts.TotalIsLeafSum` and `Accounts.OwnVariationsIgnored` |
| Accounts.TotalIsLeafSum | leanledger/ledger/models.py:43-47 | the recursive total of any account equals the sum of the leaf values of all leaves under it, at any depth |
| Accounts.SplitAmongChildren | leanledger/ledger/models.py:44-45 | what a leaf adds to a non-leaf account is what it adds to the account's children together: it lies under exactly one child |
| Accounts.OwnVariationsIgnored | leanledger/ledger/models.py:44-45 | changing the amounts booked on accounts that have children leaves every total unchanged |
| Accounts.TotalExample | leanledger/ledger/tests/test_models.py:61-90 | in the fixture tree, 'cash' totals 160.00 from 80.00 on a child and 80.00 on a grandchild |
| Accounts.TestChildren | leanledger/ledger/tests/test_models.py:81-85 | in the fixture tree, the children of 'cash' are 'bank one' and 'bank two' |
| Accounts.Breadcrumbs | leanledger/ledger/models.py:49-50 | the result is a path: it starts at a root, ends at the account, and each element is the parent of the next |
| Accounts.BreadcrumbsLength | leanledger/ledger/models.py:49-50 | the breadcrumbs have depth + 1 elements |
| Accounts.BreadcrumbsUnique | leanledger/ledger/models.py:49-50 | every root-to-account path is the breadcrumbs: the path is unique |
| Accounts.PathIncreasing | leanledger/ledger/models.py:49-50 | keys strictly increase along the breadcrumbs, so no account occurs twice |
| Accounts.BreadcrumbsExample | leanledger/ledger/tests/test_models.py:92-94 | the breadcrumbs of 'sub bank two' are cash, bank two, sub bank two |
| Accounts.Join | leanledger/ledger/models.py:54 | joining one part gives that part; a join of some parts begins with the first part and ends with the last; `Accounts.JoinConcat` places the separator |
| Accounts.JoinConcat | leanledger/ledger/models.py:54 | the join of two nonempty lists of parts is the first join, the separator, then the second join; with the one-part case this determines every join |
| Accounts.Names | leanledger/ledger/models.py:54 | the k-th name is the name of the k-th account |
| Accounts.FullName | leanledger/ledger/models.py:52-54 | a root's full name is its own name, and every full name ends with the account's own name; the recursive step is `Accounts.FullNameStep` |
| Accounts.FullNameStep | leanledger/ledger/models.py:52-54 | a root's full name is its name; any other account's is its parent's full name, " / " and its name |
| Accounts.FullNameExample | leanledger/ledger/tests/test_models.py:96-97 | the full name of 'sub bank two' is "cash / bank two / sub bank two" |
| Accounts.DestinationAccounts | leanledger/ledger/models.py:16-17 | every listed account exists and is a Destination account |
| Accounts.OriginAccounts | leanledger/ledger/models.py:19-20 | every listed account exists and is an Origin account |
| Accounts.RootsPartition | leanledger/ledger/models.py:15-20 | together the two lists hold exactly the parentless accounts of the ledger, and no account is in both |
| Accounts.RootIsListed | leanledger/ledger/views.py:124 | when children take their parent's type, every account's root is listed among the roots of that account's type, in the root's own ledger |
| Accounts.RootsExample | leanledger/ledger/tests/test_models.py:61-77 | in the fixture ledger the only Destination root is 'cash' and the only Origin root is 'wealth' |
| Records.Filter | leanledger/ledger/models.py:76-78 | the selected variations all have the requested type and are no more than the input |
| Records.FilterPartition | leanledger/ledger/models.py:73-78 | the credit and the debit selections together are a permutation of the variations |
| Records.StablySortedIsSortedPermutation | leanledger/ledger/models.py:76 | the stable sort puts no debit before a credit and is a permutation of its input |
| Records.FilterOfStablySorted | leanledger/ledger/models.py:76-78 | sorting by type does not change which variations of a type are selected, nor their order |
| Records.InsertAt | leanledger/ledger/models.py:76 | one insertion step: the sorted prefix grows to the stable sort of one more element, and the rest of the array is untouched |
| Records.InsertIntoStablySorted | leanledger/ledger/models.py:76 | inserting an element before the trailing debits (a credit) or at the end (a debit) gives the stable sort of the extended input |
| Records.SortByType | leanledger/ledger/models.py:76 | the array ends up holding the stable sort by type of its old contents |
| Records.GroupRuns | leanledger/ledger/models.py:77-78 | on a list sorted by type, collecting the runs gives one key per type that occurs, mapped to the variations of that type |
| Records.VariationsByType | leanledger/ledger/models.py:73-78 | a type is a key exactly when some variation has it, and its group is the variations of that type in input order |
| Records.GroupsExtend | leanledger/ledger/models.py:77-78 | appending a nonempty run of a type not yet present adds exactly that key |
| Records.EmitRun | leanledger/ledger/models.py:77-78 | one step of the grouping loop extends the groups of the prefix to those of the longer prefix |
| Records.Positions | leanledger/ledger/models.py:76 | a group lists the variations of its type at strictly increasing input positions, and every such position is listed: the sort is stable |
| Records.ExactlyOneGroup | leanledger/ledger/models.py:73-78 | every variation is in the group of its own type and not in the other |
| Records.FixtureGroups | leanledger/ledger/tests/test_models.py:10-25 | for the fixture record (its amounts in cents), the credit group is the cash variation and the debit group is expense one then expense two |
| RecordEditor.Snapshot.WithGroup | static/js/Record.js:61-63 | replacing one group of the snapshot leaves the other group and the record fields alone |
| RecordEditor.Snapshot.WithField | static/js/Record.js:53-56 | setting one field leaves the other field and both groups alone |
| RecordEditor.Max | static/js/Record.js:62 | the maximum of a nonempty list is one of its elements and no element exceeds it |
| RecordEditor.JsMax | static/js/Record.js:62 | `Math.max` of no arguments is -Infinity; of some arguments it is one of them; it is -Infinity exactly when every argument is, and otherwise no integer argument exceeds it |
| RecordEditor.JsNewId | static/js/Record.js:62 | the id as written is -Infinity exactly when every id of the group is (in particular when the group is empty); otherwise it exceeds every integer id of the group |
| RecordEditor.JsNewIdOnNonempty | static/js/Record.js:62 | as written, on a nonempty group the new id is the largest id plus one |
| RecordEditor.EmptyGroupIdCollision | static/js/Record.js:62 | as written, on an empty group the new id is -Infinity, and a second add computes the same id again |
| RecordEditor.NewId | static/js/Record.js:62 | the corrected id is larger than every id of the group: max + 1 on a nonempty group, 1 on an empty one |
| RecordEditor.NewIdAgrees | static/js/Record.js:62 | wherever the code as written yields a number, the corrected id is that number |
| RecordEditor.BlankRow | static/js/Record.js:63-69 | the new row has the new id, an empty amount and the id, name and url of the first offered account |
| RecordEditor.WithoutId | static/js/Record.js:75 | the kept rows are exactly the rows whose id differs from the argument |
| RecordEditor.WithoutIdAppend | static/js/Record.js:75 | filtering distributes over concatenation, so kept rows keep their relative order |
| RecordEditor.WithoutAbsentId | static/js/Record.js:75 | deleting an id that no row has changes nothing |
| RecordEditor.WithoutIdIdempotent | static/js/Record.js:75 | deleting the same id twice is deleting it once |
| RecordEditor.AddThenDelete | static/js/Record.js:62-63 | adding a row and then deleting the id just allocated gives back the original group |
| RecordEditor.RecordComponent.constructor | static/js/Record.js:9-17 | the component starts with no snapshot and edit mode off |
| RecordEditor.RecordComponent.Receive | static/js/Record.js:28-30 | the fetched data becomes the snapshot; the edit flag is unchanged |
| RecordEditor.RecordComponent.EnterEditMode | static/js/Record.js:43-46 | edit mode becomes true; the snapshot is unchanged |
| RecordEditor.RecordComponent.FinishUpdate | static/js/Record.js:48-51 | edit mode becomes false; the snapshot is unchanged |
| RecordEditor.RecordComponent.OnChange | static/js/Record.js:53-57 | the named field takes the new value; everything else is unchanged |
| RecordEditor.RecordComponent.AddVariation | static/js/Record.js:59-71 | the chosen group grows by one blank row at its end, with a fresh id and the first account; the other group, the fields and the edit flag are unchanged |
| RecordEditor.RecordComponent.DeleteVariation | static/js/Record.js:73-77 | the chosen group loses exactly its rows with the given id; the other group, the fields and the edit flag are unchanged |

## Left out

- Persistence: the ORM queries, `children.exists()`, `aggregate(Sum)`, cascading deletes and key assignment. They become maps, sequences and recursive sums.
- Decimal amounts are whole cents, because the stored decimals have two fractional digits. The test amounts are units of currency, so the example lemmas state them multiplied by 100.
- The order in which the database returns `variations.all()` and `children.all()` is not modelled. The input sequence stands for it, and children are taken in key order. The side sums of a record do not depend on the order of its variations (`Core.SideSumPermutation`). An account's total does not depend on the order of its children, because it is the sum of the leaves under it (`Accounts.TotalIsLeafSum`).
- `variations.sort` is modelled by a stable insertion sort. Every stable sort yields the same list, `Records.StablySorted`.
- Records.VariationsByType: the key order of the Python dictionary (credit before debit, the order of the sorted runs) is not stated, because a Dafny map has no key order.
- The test of `variations_by_type` (leanledger/ledger/tests/test_models.py:104-118) expects the debit group in the order expense two, expense one. The code keeps input order, and the model follows the code (`Records.FixtureGroups`).
- `Record.as_dict` and ordering a group by magnitude are asserted by the tests (leanledger/ledger/tests/test_models.py:120-152), but leanledger/ledger/models.py does not contain them.
- `test_mixed_ok` (leanledger/ledger/tests/test_core.py:45-52) expects a signed sum, which contradicts the `abs` at leanledger/ledger/core.py:8. The model follows the code, and `Core.MixedExample` proves that record unbalanced. The expected results of the other five tests agree with the code: `Core.IncreasesExample`, `Core.DecreasesExample`, and `test_mixed_ko` in `Core.MixedExample`. The tests give the record a plain list of variations, while leanledger/ledger/core.py:7 calls `.all()` on it, so only their expected results are compared here.
- The TODO invariants at leanledger/ledger/models.py:38-40 are not enforced by the code and not assumed by the model.
  - "Children share the parent's type" comes from the account creation view (leanledger/ledger/views.py:124). It appears only as a hypothesis of `Accounts.RootIsListed`.
  - A child's ledger is taken from the request (leanledger/ledger/views.py:123), not from its parent, and the form lets any account be chosen as parent (leanledger/ledger/forms.py:6-9). The model does not assume that a child shares its parent's ledger, so `Accounts.RootIsListed` places the root in the root's own ledger.
  - Accounts with children may hold amounts. `Accounts.OwnVariationsIgnored` proves those amounts never count.
- The variation carries its account's type and key directly, instead of reaching the account through a foreign key.
- `RecordManager.variations_by_type`, `Account.__str__` and the `Ledger` entity hold no logic beyond what is modelled.
- Record.js outside the editing state is not modelled:
  - rendering;
  - `fetch` in `getRecord` (only the arrival of its data is modelled, as `Receive`);
  - `getRecordUrl`, which reads `window.location`.
- Sending an edited record to the server is not in the code (`finishUpdate` only leaves edit mode), so it is not modelled.
- Record.js mutates the state object in place and then calls `setState`. The model assigns the new snapshot value to `record`. Aliasing between that object and other references to it, and React's deferred state updates, are not captured.
- RecordEditor.RecordComponent.AddVariation: allocates the corrected `RecordEditor.NewId`, 1 on an empty group. The code at static/js/Record.js:62 allocates -Infinity there, and -Infinity again on the next add to that group (see "## Findings", modelled as written by `RecordEditor.JsNewId` and `RecordEditor.EmptyGroupIdCollision`).
- The new id is fresh only within its own group. It may equal an id in the other group, and the model does not exclude this.

## Findings

| source | as written | input that shows it | evidently intended | confidence | as-written member | corrected member |
|---|---|---|---|---|---|---|
| static/js/Record.js:62 | the new id is `Math.max(...ids) + 1` over the ids of the group | a record whose credit group is empty, then two successive adds to that group: both rows get the id -Infinity, and deleting one deletes both | a fresh integer id in every case: max + 1, or 1 for an empty group | high, not executed | RecordEditor.EmptyGroupIdCollision | RecordEditor.NewId |
