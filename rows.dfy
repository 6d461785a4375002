/** The rows of the two tables kept by `src/db.ts`, the sentinels returned
    for a miss, the table layouts, and the row-level effect of each UPDATE
    statement, stated as functions on the table's sequence of rows. */
module Rows {
  import opened Base

  /** A row of `hubs`. */
  datatype Hub = Hub(id: string, created: int, active: int)

  /** A row of `datas`. */
  datatype DataItem = DataItem(id: string, hub_id: string, added: int, active: int, count: nat, content: seq<byte>)

  /** The "not found" values: every field empty or zero. */
  const EmptyHub: Hub := Hub("", 0, 0)
  const EmptyData: DataItem := DataItem("", "", 0, 0, 0, [])

  /** The column types of `createTableQuery`. */
  datatype DataType = Text | Integer | Blob {
    function Name(): string {
      match this
      case Text => "TEXT"
      case Integer => "INTEGER"
      case Blob => "BLOB"
    }
  }

  /** One column definition, `name TYPE`. */
  function ColumnDef(col: (string, DataType)): string {
    col.0 + " " + col.1.Name()
  }

  /** The column definitions joined by `, `. */
  function ColumnList(cols: seq<(string, DataType)>): string {
    if |cols| == 0 then ""
    else if |cols| == 1 then ColumnDef(cols[0])
    else ColumnDef(cols[0]) + ", " + ColumnList(cols[1..])
  }

  const CreatePrefix: string := "CREATE TABLE IF NOT EXISTS"

  /** `createTableQuery(table, values)`: the three parts joined by a space. */
  function CreateTableQuery(table: string, cols: seq<(string, DataType)>): (q: string)
    ensures |q| == |CreatePrefix| + |table| + |ColumnList(cols)| + 5
    ensures q[..|CreatePrefix| + |table| + 3] == CreatePrefix + " " + table + " ("
    ensures q[|CreatePrefix| + |table| + 3..|q| - 2] == ColumnList(cols)
    ensures q[|q| - 2..] == ");"
  {
    CreatePrefix + " " + table + " " + ("(" + ColumnList(cols) + ");")
  }

  const HubsColumns: seq<(string, DataType)> := [("id", Text), ("created", Integer), ("active", Integer)]
  const DatasColumns: seq<(string, DataType)> :=
    [("id", Text), ("hub_id", Text), ("added", Integer), ("active", Integer), ("count", Integer), ("content", Blob)]

  /** The two layouts the store creates at start-up:
      `hubs (id TEXT, created INTEGER, active INTEGER)` and
      `datas (id TEXT, hub_id TEXT, added INTEGER, active INTEGER, count INTEGER, content BLOB)`. */
  lemma HubsLayout()
    ensures CreateTableQuery("hubs", HubsColumns)
         == CreatePrefix + " " + "hubs" + " "
            + ("(" + ("id TEXT" + ", " + ("created INTEGER" + ", " + "active INTEGER")) + ");")
  {
    var cols := HubsColumns;
    assert ColumnDef(cols[0]) == "id TEXT";
    assert ColumnDef(cols[1]) == "created INTEGER";
    assert ColumnDef(cols[2]) == "active INTEGER";
    assert cols[1..][1..] == cols[2..];
  }

  lemma DatasLayout()
    ensures CreateTableQuery("datas", DatasColumns)
         == CreatePrefix + " " + "datas" + " "
            + ("(" + ("id TEXT" + ", " + ("hub_id TEXT" + ", " + ("added INTEGER" + ", "
            + ("active INTEGER" + ", " + ("count INTEGER" + ", " + "content BLOB"))))) + ");")
  {
    var cols := DatasColumns;
    assert ColumnDef(cols[0]) == "id TEXT";
    assert ColumnDef(cols[1]) == "hub_id TEXT";
    assert ColumnDef(cols[2]) == "added INTEGER";
    assert ColumnDef(cols[3]) == "active INTEGER";
    assert ColumnDef(cols[4]) == "count INTEGER";
    assert ColumnDef(cols[5]) == "content BLOB";
    assert cols[1..][1..] == cols[2..];
    assert cols[2..][1..] == cols[3..];
    assert cols[3..][1..] == cols[4..];
    assert cols[4..][1..] == cols[5..];
  }

  /** What every row written by the store satisfies: the flag is 0 or 1. */
  predicate HubRowOk(h: Hub) { 0 <= h.active <= 1 }
  predicate DataRowOk(d: DataItem) { 0 <= d.active <= 1 }

  predicate HubRowsOk(hubs: seq<Hub>) { forall i :: 0 <= i < |hubs| ==> HubRowOk(hubs[i]) }
  predicate DataRowsOk(datas: seq<DataItem>) { forall i :: 0 <= i < |datas| ==> DataRowOk(datas[i]) }

  /** `row` may follow `before` in the same table position: the identity
      columns are fixed, `active` is kept or cleared, `count` does not drop. */
  predicate DataStep(before: DataItem, after: DataItem) {
    && after.id == before.id && after.hub_id == before.hub_id
    && after.added == before.added && after.content == before.content
    && (after.active == before.active || after.active == 0)
    && after.count >= before.count
  }

  predicate HubStep(before: Hub, after: Hub) {
    && after.id == before.id && after.created == before.created
    && (after.active == before.active || after.active == 0)
  }

  /** The table only grows (rows are never deleted), and every row it had
      moved by an allowed step. */
  predicate DataEvolves(before: seq<DataItem>, after: seq<DataItem>) {
    |before| <= |after| && forall i :: 0 <= i < |before| ==> DataStep(before[i], after[i])
  }

  predicate HubsEvolve(before: seq<Hub>, after: seq<Hub>) {
    |before| <= |after| && forall i :: 0 <= i < |before| ==> HubStep(before[i], after[i])
  }

  /** No two rows of the table share an identifier. */
  predicate UniqueIds(datas: seq<DataItem>) {
    forall i, j :: 0 <= i < j < |datas| ==> datas[i].id != datas[j].id
  }

  /** `UPDATE datas SET count = c WHERE id = id`: each row is rewritten on
      its own, in place. */
  function SetCount(datas: seq<DataItem>, id: string, c: nat): (r: seq<DataItem>)
    ensures |r| == |datas|
    ensures forall i :: 0 <= i < |r| ==> r[i] == datas[i].(count := r[i].count)
    ensures forall i :: 0 <= i < |r| ==> r[i].count == if datas[i].id == id then c else datas[i].count
  {
    seq(|datas|, i requires 0 <= i < |datas| => if datas[i].id == id then datas[i].(count := c) else datas[i])
  }

  /** `UPDATE datas SET active = 0 WHERE id = id`. */
  function DeactivateRows(datas: seq<DataItem>, id: string): (r: seq<DataItem>)
    ensures |r| == |datas|
    ensures forall i :: 0 <= i < |r| ==> r[i] == datas[i].(active := r[i].active)
    ensures forall i :: 0 <= i < |r| ==> r[i].active == if datas[i].id == id then 0 else datas[i].active
  {
    seq(|datas|, i requires 0 <= i < |datas| => if datas[i].id == id then datas[i].(active := 0) else datas[i])
  }

  /** `UPDATE hubs SET active = 0 WHERE id = id`. */
  function DeactivateHubRows(hubs: seq<Hub>, id: string): (r: seq<Hub>)
    ensures |r| == |hubs|
    ensures forall i :: 0 <= i < |r| ==> r[i] == hubs[i].(active := r[i].active)
    ensures forall i :: 0 <= i < |r| ==> r[i].active == if hubs[i].id == id then 0 else hubs[i].active
  {
    seq(|hubs|, i requires 0 <= i < |hubs| => if hubs[i].id == id then hubs[i].(active := 0) else hubs[i])
  }

  /** `SELECT * FROM datas WHERE id = id LIMIT 1`, scanning in table order. */
  function FirstDataWithId(datas: seq<DataItem>, id: string): (r: Option<DataItem>)
    ensures r == None <==> forall i :: 0 <= i < |datas| ==> datas[i].id != id
    ensures r.Some? ==> r.value in datas && r.value.id == id
    ensures r.Some? ==> exists i :: 0 <= i < |datas| && datas[i] == r.value
                          && forall j :: 0 <= j < i ==> datas[j].id != id
  {
    if datas == [] then None
    else if datas[0].id == id then Some(datas[0])
    else
      var r := FirstDataWithId(datas[1..], id);
      if r.Some? then
        var i :| 0 <= i < |datas[1..]| && datas[1..][i] == r.value
                 && forall j :: 0 <= j < i ==> datas[1..][j].id != id;
        assert datas[i + 1] == r.value;
        r
      else r
  }

  /** `SELECT * FROM hubs WHERE id = id LIMIT 1`. */
  function FirstHubWithId(hubs: seq<Hub>, id: string): (r: Option<Hub>)
    ensures r == None <==> forall i :: 0 <= i < |hubs| ==> hubs[i].id != id
    ensures r.Some? ==> r.value in hubs && r.value.id == id
    ensures r.Some? ==> exists i :: 0 <= i < |hubs| && hubs[i] == r.value
                          && forall j :: 0 <= j < i ==> hubs[j].id != id
  {
    if hubs == [] then None
    else if hubs[0].id == id then Some(hubs[0])
    else
      var r := FirstHubWithId(hubs[1..], id);
      if r.Some? then
        var i :| 0 <= i < |hubs[1..]| && hubs[1..][i] == r.value
                 && forall j :: 0 <= j < i ==> hubs[1..][j].id != id;
        assert hubs[i + 1] == r.value;
        r
      else r
  }

  /** No active row carries identifier `id`. */
  predicate NoActiveWithId(datas: seq<DataItem>, id: string) {
    forall i :: 0 <= i < |datas| && datas[i].id == id ==> datas[i].active != 1
  }

  /** Deactivating an item twice leaves the table as deactivating it once. */
  lemma DeactivateIdempotent(datas: seq<DataItem>, id: string)
    ensures DeactivateRows(DeactivateRows(datas, id), id) == DeactivateRows(datas, id)
  {
  }

  lemma DeactivateHubIdempotent(hubs: seq<Hub>, id: string)
    ensures DeactivateHubRows(DeactivateHubRows(hubs, id), id) == DeactivateHubRows(hubs, id)
  {
  }

  /** Deactivation only clears flags: the table evolves, keeps its row
      invariant, and afterwards no active row has the identifier. */
  lemma DeactivateEvolves(datas: seq<DataItem>, id: string)
    ensures DataEvolves(datas, DeactivateRows(datas, id))
    ensures DataRowsOk(datas) ==> DataRowsOk(DeactivateRows(datas, id))
    ensures NoActiveWithId(DeactivateRows(datas, id), id)
  {
  }

  lemma DeactivateHubEvolves(hubs: seq<Hub>, id: string)
    ensures HubsEvolve(hubs, DeactivateHubRows(hubs, id))
    ensures HubRowsOk(hubs) ==> HubRowsOk(DeactivateHubRows(hubs, id))
    ensures forall i :: 0 <= i < |hubs| && hubs[i].id == id ==> DeactivateHubRows(hubs, id)[i].active == 0
  {
  }

  /** Writing `count = c` lowers no count as long as no row with that
      identifier already counts above `c`. */
  lemma SetCountEvolves(datas: seq<DataItem>, id: string, c: nat)
    requires forall i :: 0 <= i < |datas| && datas[i].id == id ==> datas[i].count <= c
    ensures DataEvolves(datas, SetCount(datas, id, c))
    ensures DataRowsOk(datas) ==> DataRowsOk(SetCount(datas, id, c))
  {
  }

  /** A count update touches no `active` flag, so a deactivated identifier
      stays deactivated; so does appending a row with another identifier
      or deactivating another identifier. */
  lemma NoActiveWithIdPreserved(datas: seq<DataItem>, id: string, other: string, c: nat, row: DataItem)
    requires NoActiveWithId(datas, id)
    ensures NoActiveWithId(SetCount(datas, other, c), id)
    ensures NoActiveWithId(DeactivateRows(datas, other), id)
    ensures row.id != id ==> NoActiveWithId(datas + [row], id)
  {
  }
}
