/** The browser-side editor of one record: it holds the record snapshot
    fetched from the server and an edit-mode flag, and edits the snapshot in
    place (adding a blank variation row to one type group, deleting rows by
    id, replacing the date or the description). */
module RecordEditor {
  import opened Options
  import opened Variations

  /** The amount of a row: the unsigned number sent by the server, or the
      empty string of a freshly added row. */
  datatype Amount = Blank | Cents(value: nat)

  /** One variation row of the snapshot. */
  datatype Row = Row(id: int, amount: Amount, accountId: nat, accountName: string, accountUrl: string)

  /** The record snapshot: its fields and its two type groups. */
  datatype Snapshot = Snapshot(id: nat, isBalanced: bool, date: string, description: string, debit: seq<Row>, credit: seq<Row>)
  {
    /** `record.variations[variationType]`. */
    function Group(t: VariationType): seq<Row>
    {
      if t == Debit then debit else credit
    }

    /** The snapshot with group `t` replaced by `rows`: the other group and
        the record fields are those of this snapshot. */
    function WithGroup(t: VariationType, rows: seq<Row>): (r: Snapshot)
      ensures r.Group(t) == rows && r.Group(OtherType(t)) == Group(OtherType(t))
      ensures r.id == id && r.isBalanced == isBalanced && r.date == date && r.description == description
    {
      if t == Debit then this.(debit := rows) else this.(credit := rows)
    }

    /** The snapshot with the field `f` set to `value`; nothing else changes. */
    function WithField(f: Field, value: string): (r: Snapshot)
      ensures r.Get(f) == value && r.Get(OtherField(f)) == Get(OtherField(f))
      ensures r.id == id && r.isBalanced == isBalanced && r.debit == debit && r.credit == credit
    {
      match f
      case Date => this.(date := value)
      case Description => this.(description := value)
    }

    function Get(f: Field): string
    {
      match f
      case Date => date
      case Description => description
    }
  }

  /** The two editable text fields of the record header. */
  datatype Field = Date | Description

  function OtherField(f: Field): (r: Field)
    ensures r != f
  {
    if f == Date then Description else Date
  }

  /** An account the editor offers for a row. */
  datatype AccountChoice = AccountChoice(id: nat, kind: AccountType, name: string, url: string)

  /** The fixed list of accounts the editor offers. */
  const Choices: seq<AccountChoice> := [
    AccountChoice(1, Destination, "cash", ""),
    AccountChoice(2, Origin, "expense one", ""),
    AccountChoice(3, Origin, "expense two", ""),
    AccountChoice(4, Destination, "lent", "")
  ]

  /** The ids of the rows, in order. */
  function Ids(rows: seq<Row>): (r: seq<int>)
    ensures |r| == |rows|
    ensures forall k :: 0 <= k < |rows| ==> r[k] == rows[k].id
  {
    if rows == [] then [] else Ids(rows[..|rows| - 1]) + [rows[|rows| - 1].id]
  }

  /** The largest of some integers. */
  function Max(xs: seq<int>): (r: int)
    requires xs != []
    ensures r in xs
    ensures forall k :: 0 <= k < |xs| ==> xs[k] <= r
  {
    if |xs| == 1 then xs[0]
    else
      var m := Max(xs[..|xs| - 1]);
      if xs[|xs| - 1] > m then xs[|xs| - 1] else m
  }

  // ------------------------------------------------------ the id, as written

  /** A JavaScript number as `Math.max` can return it for integer
      arguments: an integer, or -Infinity when it gets no argument. */
  datatype JsNumber = NegInfinity | Int(n: int)

  /** `Math.max(...xs)`. */
  function JsMax(xs: seq<JsNumber>): (r: JsNumber)
    ensures xs == [] ==> r == NegInfinity
    ensures xs != [] ==> r in xs
    ensures r == NegInfinity <==> forall k :: 0 <= k < |xs| ==> xs[k] == NegInfinity
    ensures forall k :: 0 <= k < |xs| && xs[k].Int? ==> r.Int? && xs[k].n <= r.n
  {
    if xs == [] then NegInfinity
    else
      var m := JsMax(xs[..|xs| - 1]);
      var x := xs[|xs| - 1];
      match (m, x)
      case (NegInfinity, _) => x
      case (_, NegInfinity) => m
      case (Int(a), Int(b)) => if b > a then x else m
  }

  /** `x + 1`; -Infinity stays -Infinity. */
  function JsIncrement(x: JsNumber): JsNumber
  {
    match x
    case NegInfinity => NegInfinity
    case Int(n) => Int(n + 1)
  }

  /** The id `addVariation` computes: `Math.max(...ids) + 1`. */
  function JsNewId(ids: seq<JsNumber>): (r: JsNumber)
    ensures r == NegInfinity <==> forall k :: 0 <= k < |ids| ==> ids[k] == NegInfinity
    ensures forall k :: 0 <= k < |ids| && ids[k].Int? ==> r.Int? && ids[k].n < r.n
  {
    JsIncrement(JsMax(ids))
  }

  /** The integer ids as JavaScript numbers. */
  function AsJs(ids: seq<int>): (r: seq<JsNumber>)
    ensures |r| == |ids|
    ensures forall k :: 0 <= k < |ids| ==> r[k] == Int(ids[k])
  {
    if ids == [] then [] else AsJs(ids[..|ids| - 1]) + [Int(ids[|ids| - 1])]
  }

  /** On a nonempty group the id as written is the largest id plus one. */
  lemma {:induction false} JsNewIdOnNonempty(ids: seq<int>)
    requires ids != []
    ensures JsNewId(AsJs(ids)) == Int(Max(ids) + 1)
  {
    JsMaxOfInts(ids);
  }

  lemma {:induction false} JsMaxOfInts(ids: seq<int>)
    requires ids != []
    ensures JsMax(AsJs(ids)) == Int(Max(ids))
  {
    var n := |ids|;
    var js := AsJs(ids);
    if n == 1 {
      assert js[..0] == [];
      assert JsMax(js) == js[0];
    } else {
      var init := ids[..n - 1];
      JsMaxOfInts(init);
      assert js[..n - 1] == AsJs(init);
      assert JsMax(js[..n - 1]) == Int(Max(init));
      assert js[n - 1] == Int(ids[n - 1]);
      assert Max(ids) == if ids[n - 1] > Max(init) then ids[n - 1] else Max(init);
    }
  }

  /** On an empty group the id as written is -Infinity, not an integer, and
      adding a second row to that group computes -Infinity again: the two
      new rows share one id, so deleting either deletes both. */
  lemma EmptyGroupIdCollision()
    ensures JsNewId([]) == NegInfinity
    ensures JsNewId([JsNewId([])]) == JsNewId([])
  {
    assert [NegInfinity][..0] == [];
  }

  // ------------------------------------------------------ the id, corrected

  /** The id of a new row of a group: one more than the largest id in the
      group, and 1 for an empty group. */
  function NewId(ids: seq<int>): (r: int)
    ensures forall k :: 0 <= k < |ids| ==> ids[k] < r
    ensures ids != [] ==> r - 1 in ids
    ensures ids == [] ==> r == 1
  {
    if ids == [] then 1 else Max(ids) + 1
  }

  /** Wherever the id as written is a number, the corrected id is that
      number. */
  lemma {:induction false} NewIdAgrees(ids: seq<int>)
    requires ids != []
    ensures JsNewId(AsJs(ids)) == Int(NewId(ids))
  {
    JsNewIdOnNonempty(ids);
  }

  // --------------------------------------------------------- rows of a group

  /** The blank row `addVariation` appends: the new id, an empty amount and
      the first offered account. */
  function BlankRow(id: int, account: AccountChoice): (r: Row)
    ensures r.id == id && r.amount == Blank
    ensures r.accountId == account.id && r.accountName == account.name && r.accountUrl == account.url
  {
    Row(id, Blank, account.id, account.name, account.url)
  }

  /** `variations.filter((variation) => variation.id !== id)`. */
  function WithoutId(rows: seq<Row>, id: int): (r: seq<Row>)
    ensures forall row :: row in r <==> row in rows && row.id != id
    ensures |r| <= |rows|
  {
    if rows == [] then []
    else
      var rest := WithoutId(rows[..|rows| - 1], id);
      var last := rows[|rows| - 1];
      assert rows == rows[..|rows| - 1] + [last];
      if last.id != id then rest + [last] else rest
  }

  /** Filtering distributes over concatenation: the kept rows keep their
      relative order. */
  lemma {:induction false} WithoutIdAppend(a: seq<Row>, b: seq<Row>, id: int)
    ensures WithoutId(a + b, id) == WithoutId(a, id) + WithoutId(b, id)
    decreases |b|
  {
    if b == [] {
      assert a + b == a;
    } else {
      assert (a + b)[..|a + b| - 1] == a + b[..|b| - 1];
      WithoutIdAppend(a, b[..|b| - 1], id);
    }
  }

  /** Deleting an id no row has changes nothing. */
  lemma {:induction false} WithoutAbsentId(rows: seq<Row>, id: int)
    requires forall k :: 0 <= k < |rows| ==> rows[k].id != id
    ensures WithoutId(rows, id) == rows
  {
    if rows != [] {
      WithoutAbsentId(rows[..|rows| - 1], id);
      assert rows == rows[..|rows| - 1] + [rows[|rows| - 1]];
    }
  }

  /** Deleting an id twice is deleting it once. */
  lemma {:induction false} WithoutIdIdempotent(rows: seq<Row>, id: int)
    ensures WithoutId(WithoutId(rows, id), id) == WithoutId(rows, id)
  {
    var r := WithoutId(rows, id);
    assert forall k :: 0 <= k < |r| ==> r[k] in r;
    WithoutAbsentId(r, id);
  }

  /** Adding a row to a group and deleting the id just allocated gives the
      group back. */
  lemma {:induction false} AddThenDelete(rows: seq<Row>, account: AccountChoice)
    ensures var id := NewId(Ids(rows));
      WithoutId(rows + [BlankRow(id, account)], id) == rows
  {
    var id := NewId(Ids(rows));
    WithoutIdAppend(rows, [BlankRow(id, account)], id);
    WithoutAbsentId(rows, id);
    assert [BlankRow(id, account)][..0] == [];
  }

  /** The React component: the fixed account list, the snapshot (null until
      the server has answered) and the edit-mode flag. */
  class RecordComponent {
    const accounts: seq<AccountChoice> := Choices
    var record: Option<Snapshot>
    var editMode: bool

    /** The initial state `{record: null, editMode: false}`. */
    constructor ()
      ensures record == None && !editMode
    {
      record := None;
      editMode := false;
    }

    /** The answer of the server is stored as the snapshot. */
    method Receive(data: Snapshot)
      modifies this
      ensures record == Some(data) && editMode == old(editMode)
    {
      record := Some(data);
    }

    /** `enterEditMode`: the flag becomes true; the snapshot is unchanged. */
    method EnterEditMode()
      modifies this
      ensures editMode && record == old(record)
    {
      editMode := true;
    }

    /** `finishUpdate`: the flag becomes false; the snapshot is unchanged. */
    method FinishUpdate()
      modifies this
      ensures !editMode && record == old(record)
    {
      editMode := false;
    }

    /** `onChange`: the named field takes the new value. */
    method OnChange(field: Field, value: string)
      requires record.Some?
      modifies this
      ensures record == Some(old(record.value).WithField(field, value))
      ensures editMode == old(editMode)
    {
      record := Some(record.value.WithField(field, value));
    }

    /** `addVariation`: a blank row with a fresh id is appended to the group
        of type `t`. */
    method AddVariation(t: VariationType)
      requires record.Some?
      modifies this
      ensures var before := old(record.value).Group(t);
        record == Some(old(record.value).WithGroup(t, before + [BlankRow(NewId(Ids(before)), accounts[0])]))
      ensures editMode == old(editMode)
    {
      var rows := record.value.Group(t);
      var newId := NewId(Ids(rows));
      record := Some(record.value.WithGroup(t, rows + [BlankRow(newId, accounts[0])]));
    }

    /** `deleteVariation`: every row of group `t` with id `id` is removed. */
    method DeleteVariation(t: VariationType, id: int)
      requires record.Some?
      modifies this
      ensures record == Some(old(record.value).WithGroup(t, WithoutId(old(record.value).Group(t), id)))
      ensures editMode == old(editMode)
    {
      record := Some(record.value.WithGroup(t, WithoutId(record.value.Group(t), id)));
    }
  }

  /** What a client of the component can rely on: after adding a row to a
      group and deleting the id it got, the snapshot is what it was. */
  method AddThenDeleteClient(data: Snapshot, t: VariationType)
  {
    var component := new RecordComponent();
    component.Receive(data);
    component.EnterEditMode();
    var newId := NewId(Ids(data.Group(t)));
    component.AddVariation(t);
    assert component.record.value.Group(t) == data.Group(t) + [BlankRow(newId, Choices[0])];
    component.DeleteVariation(t, newId);
    AddThenDelete(data.Group(t), Choices[0]);
    assert component.record == Some(data);
    component.FinishUpdate();
    assert component.record == Some(data) && !component.editMode;
  }
}
