/**
 * The calculator's table: up to five default rows picked from the projection,
 * the overlay of user-edited rows keyed by id, the merge of the two, and which
 * cell of which row may be edited.
 */
module Table {
  import opened Common
  import opened Projection

  /** `EditableRowData`: a projection record with an id and the `isCustom` flag. */
  datatype Row = Row(id: string, isCustom: bool, point: ProjectionPoint)

  /** The table's columns, as the cells name them. */
  datatype Field = NetWorth | Date | Age | TimeFromNow | PassiveIncome | PassiveIncomeInflationAdjusted

  predicate DistinctIds(rows: seq<Row>) {
    forall i, j :: 0 <= i < j < |rows| ==> rows[i].id != rows[j].id
  }

  /** `rows.findIndex((row) => row.id === id)`. */
  function FindIndex(rows: seq<Row>, id: string): (r: int)
    ensures -1 <= r < |rows|
    ensures r >= 0 ==> rows[r].id == id && forall j :: 0 <= j < r ==> rows[j].id != id
    ensures r == -1 ==> forall j :: 0 <= j < |rows| ==> rows[j].id != id
  {
    if rows == [] then -1
    else if rows[0].id == id then 0
    else
      var k := FindIndex(rows[1..], id);
      if k < 0 then -1 else k + 1
  }

  /** `findIndex` returns the first position holding the id. */
  lemma FindIndexFirst(rows: seq<Row>, id: string, k: nat)
    requires k < |rows| && rows[k].id == id
    requires forall j :: 0 <= j < k ==> rows[j].id != id
    ensures FindIndex(rows, id) == k
  {
  }

  // ---------------------------------------------------------------------------
  // The overlay: a new row replaces the entry with its id, or is appended.
  // ---------------------------------------------------------------------------

  function Upsert(rows: seq<Row>, row: Row): seq<Row> {
    var k := FindIndex(rows, row.id);
    if k >= 0 then rows[k := row] else rows + [row]
  }

  /**
   * The new row takes the place of the first entry with its id, all other
   * entries kept as they were; with no such entry it is appended.
   */
  lemma UpsertSpec(rows: seq<Row>, row: Row)
    ensures forall k :: 0 <= k < |rows| && rows[k].id == row.id && (forall j :: 0 <= j < k ==> rows[j].id != row.id)
              ==> Upsert(rows, row) == rows[k := row]
    ensures (forall j :: 0 <= j < |rows| ==> rows[j].id != row.id) ==> Upsert(rows, row) == rows + [row]
  {
    var k := FindIndex(rows, row.id);
    forall k' | 0 <= k' < |rows| && rows[k'].id == row.id && (forall j :: 0 <= j < k' ==> rows[j].id != row.id)
      ensures Upsert(rows, row) == rows[k' := row]
    {
      assert k == k';
    }
  }

  /** Upserting keeps the overlay keyed by id: distinct ids stay distinct. */
  lemma UpsertKeepsIdsDistinct(rows: seq<Row>, row: Row)
    requires DistinctIds(rows)
    ensures DistinctIds(Upsert(rows, row))
    ensures FindIndex(Upsert(rows, row), row.id) >= 0
  {
    var r := Upsert(rows, row);
    var k := FindIndex(rows, row.id);
    if k >= 0 {
      assert r[k] == row;
    } else {
      assert r[|rows|] == row;
      assert forall j :: 0 <= j < |rows| ==> r[j].id != row.id;
    }
  }

  /** Applying the same edit twice leaves the overlay as applying it once. */
  lemma UpsertIdempotent(rows: seq<Row>, row: Row)
    ensures Upsert(Upsert(rows, row), row) == Upsert(rows, row)
  {
    var once := Upsert(rows, row);
    var k := FindIndex(rows, row.id);
    if k >= 0 {
      assert forall j :: 0 <= j < k ==> once[j].id != row.id;
      assert once[k].id == row.id;
      FindIndexFirst(once, row.id, k);
    } else {
      assert forall j :: 0 <= j < |rows| ==> once[j].id != row.id;
      assert once[|rows|].id == row.id;
      FindIndexFirst(once, row.id, |rows|);
    }
  }

  // ---------------------------------------------------------------------------
  // The default rows picked from the projection.
  // ---------------------------------------------------------------------------

  const Million: real := 1000000.0
  const MaxDefaultRows: nat := 5

  /** The filter of `tableData`: the first point, every fifth year, and the month net worth first reaches a million. */
  predicate KeepPoint(data: seq<ProjectionPoint>, i: nat)
    requires i < |data|
  {
    i == 0 || i % 60 == 0 || (data[i].netWorth >= Million && data[i - 1].netWorth < Million)
  }

  /** The indices at or after `from` the filter keeps, in ascending order. */
  function KeptFrom(data: seq<ProjectionPoint>, from: nat): (r: seq<nat>)
    requires from <= |data|
    decreases |data| - from
    ensures forall k :: 0 <= k < |r| ==> from <= r[k] < |data| && KeepPoint(data, r[k])
    ensures forall k, l :: 0 <= k < l < |r| ==> r[k] < r[l]
    ensures forall i :: from <= i < |data| && KeepPoint(data, i) ==> i in r
  {
    if from == |data| then []
    else if KeepPoint(data, from) then [from] + KeptFrom(data, from + 1)
    else KeptFrom(data, from + 1)
  }

  function DefaultId(k: nat): string {
    "default-" + NatToString(k)
  }

  /** `.filter(...).slice(0, 5).map((row, index) => ({ ...row, id: `default-${index}`, isCustom: false }))`. */
  function DefaultRows(data: seq<ProjectionPoint>): seq<Row> {
    var kept := KeptFrom(data, 0);
    var n := if |kept| < MaxDefaultRows then |kept| else MaxDefaultRows;
    seq(n, k requires 0 <= k < n => Row(DefaultId(k), false, data[kept[k]]))
  }

  /**
   * At most five default rows, numbered `default-0`, `default-1`, ... with
   * distinct ids, taken from kept points in ascending month order; the first
   * is the month-0 point.
   */
  lemma DefaultRowsSpec(data: seq<ProjectionPoint>)
    ensures |DefaultRows(data)| <= MaxDefaultRows
    ensures |data| > 0 ==> |DefaultRows(data)| >= 1 && DefaultRows(data)[0] == Row("default-0", false, data[0])
    ensures forall k :: 0 <= k < |DefaultRows(data)| ==> DefaultRows(data)[k].id == DefaultId(k) && !DefaultRows(data)[k].isCustom
    ensures DistinctIds(DefaultRows(data))
    ensures forall k :: 0 <= k < |DefaultRows(data)| ==>
              exists i :: 0 <= i < |data| && KeepPoint(data, i) && DefaultRows(data)[k].point == data[i]
  {
    var rows := DefaultRows(data);
    var kept := KeptFrom(data, 0);
    if |data| > 0 {
      assert KeepPoint(data, 0);
      assert 0 in kept;
      assert kept[0] == 0;
      assert DefaultId(0) == "default-0";
    }
    forall i, j | 0 <= i < j < |rows|
      ensures rows[i].id != rows[j].id
    {
      if rows[i].id == rows[j].id {
        assert NatToString(i) == rows[i].id[8..];
        assert NatToString(j) == rows[j].id[8..];
        NatToStringInjective(i, j);
      }
    }
    forall k | 0 <= k < |rows|
      ensures exists i :: 0 <= i < |data| && KeepPoint(data, i) && rows[k].point == data[i]
    {
      assert KeepPoint(data, kept[k]) && rows[k].point == data[kept[k]];
    }
  }

  // ---------------------------------------------------------------------------
  // Merging the overlay into the default rows.
  // ---------------------------------------------------------------------------

  /** One step of the merge: replace the row with the custom row's id, if there is one. */
  function ReplaceById(rows: seq<Row>, custom: Row): seq<Row> {
    var k := FindIndex(rows, custom.id);
    if k >= 0 then rows[k := custom] else rows
  }

  /** The merge over the custom rows in order. */
  function Merged(defaults: seq<Row>, customs: seq<Row>): (r: seq<Row>)
    decreases |customs|
    ensures |r| == |defaults|
  {
    if customs == [] then defaults
    else ReplaceById(Merged(defaults, customs[..|customs| - 1]), customs[|customs| - 1])
  }

  /** The last custom row with the given id, if any: the one the merge leaves in place. */
  function LastWithId(customs: seq<Row>, id: string): (r: Option<Row>)
    ensures r.Some? ==> r.value in customs && r.value.id == id
    ensures r.None? ==> forall c :: c in customs ==> c.id != id
  {
    if customs == [] then None
    else if customs[|customs| - 1].id == id then Some(customs[|customs| - 1])
    else LastWithId(customs[..|customs| - 1], id)
  }

  /**
   * The merge never adds or removes a row and never changes a row's id; each
   * default row is shown as the last custom row with its id, or as itself.
   */
  lemma {:induction false} MergedSpec(defaults: seq<Row>, customs: seq<Row>)
    requires DistinctIds(defaults)
    ensures |Merged(defaults, customs)| == |defaults|
    ensures forall i :: 0 <= i < |defaults| ==> Merged(defaults, customs)[i].id == defaults[i].id
    ensures forall i :: 0 <= i < |defaults| ==>
              Merged(defaults, customs)[i] == match LastWithId(customs, defaults[i].id)
                                              case Some(c) => c
                                              case None => defaults[i]
    decreases |customs|
  {
    if customs != [] {
      var prefix := customs[..|customs| - 1];
      var c := customs[|customs| - 1];
      MergedSpec(defaults, prefix);
      var before := Merged(defaults, prefix);
      var k := FindIndex(before, c.id);
      forall i | 0 <= i < |defaults|
        ensures Merged(defaults, customs)[i] == match LastWithId(customs, defaults[i].id)
                                                case Some(c) => c
                                                case None => defaults[i]
      {
        if defaults[i].id == c.id {
          assert LastWithId(customs, defaults[i].id) == Some(c);
          assert k == i;
        } else {
          assert LastWithId(customs, defaults[i].id) == LastWithId(prefix, defaults[i].id);
        }
      }
    }
  }

  /** `tableData`'s merge loop: each custom row replaces the merged row with its id. */
  method MergeRows(defaultRows: seq<Row>, customRows: seq<Row>) returns (mergedRows: seq<Row>)
    ensures mergedRows == Merged(defaultRows, customRows)
  {
    mergedRows := defaultRows;
    for n := 0 to |customRows|
      invariant mergedRows == Merged(defaultRows, customRows[..n])
    {
      var customRow := customRows[n];
      var existingIndex := FindIndex(mergedRows, customRow.id);
      if existingIndex >= 0 {
        mergedRows := mergedRows[existingIndex := customRow];
      }
      assert customRows[..n + 1][..n] == customRows[..n];
    }
    assert customRows[..|customRows|] == customRows;
  }

  /** The last occurrence of an id is the one the merge keeps. */
  lemma {:induction false} LastWithIdAt(customs: seq<Row>, k: nat)
    requires k < |customs|
    requires forall j :: k < j < |customs| ==> customs[j].id != customs[k].id
    ensures LastWithId(customs, customs[k].id) == Some(customs[k])
    decreases |customs|
  {
    if k < |customs| - 1 {
      var prefix := customs[..|customs| - 1];
      LastWithIdAt(prefix, k);
    }
  }

  /** With the overlay keyed by id, the row just upserted is the one the merge keeps for its id. */
  lemma UpsertedRowIsLast(customs: seq<Row>, row: Row)
    requires DistinctIds(customs)
    ensures LastWithId(Upsert(customs, row), row.id) == Some(row)
  {
    var r := Upsert(customs, row);
    var k := FindIndex(customs, row.id);
    if k >= 0 {
      LastWithIdAt(r, k);
    } else {
      LastWithIdAt(r, |customs|);
    }
  }

  /** `tableData`: the default rows of the series with the overlay merged in. */
  function TableRows(data: seq<ProjectionPoint>, customs: seq<Row>): (r: seq<Row>)
    ensures |r| == |DefaultRows(data)|
  {
    Merged(DefaultRows(data), customs)
  }

  /**
   * The table has as many rows as there are default rows (at most five), row
   * `k` has id `default-k`, and shows the latest custom row with that id or
   * else the default row.
   */
  lemma TableRowsSpec(data: seq<ProjectionPoint>, customs: seq<Row>)
    ensures |TableRows(data, customs)| == |DefaultRows(data)| <= MaxDefaultRows
    ensures forall k :: 0 <= k < |TableRows(data, customs)| ==>
              TableRows(data, customs)[k].id == DefaultId(k)
              && TableRows(data, customs)[k] == match LastWithId(customs, DefaultId(k))
                                                case Some(c) => c
                                                case None => DefaultRows(data)[k]
  {
    DefaultRowsSpec(data);
    MergedSpec(DefaultRows(data), customs);
  }

  /** Editing the row with id `default-k` shows the new row at position `k` of the table. */
  lemma EditShowsInTable(data: seq<ProjectionPoint>, customs: seq<Row>, row: Row, k: nat)
    requires DistinctIds(customs)
    requires k < |DefaultRows(data)| && row.id == DefaultId(k)
    ensures TableRows(data, Upsert(customs, row))[k] == row
  {
    TableRowsSpec(data, Upsert(customs, row));
    UpsertedRowIsLast(customs, row);
  }

  // ---------------------------------------------------------------------------
  // Which cells may be edited.
  // ---------------------------------------------------------------------------

  function IsCellEditable(rowIndex: int, field: Field): bool {
    if field == PassiveIncomeInflationAdjusted then false
    else match rowIndex
      case 0 => field == NetWorth
      case 1 => field == Date
      case 2 => field == Age
      case 3 => field == TimeFromNow
      case 4 => field == PassiveIncome
      case _ => false
  }

  /**
   * The inflation-adjusted column is never editable; each of rows 0..4 has
   * exactly one editable cell, each in a different column; other rows have none.
   */
  lemma CellEditability(rowIndex: int)
    ensures !IsCellEditable(rowIndex, PassiveIncomeInflationAdjusted)
    ensures 0 <= rowIndex < MaxDefaultRows ==> exists f :: IsCellEditable(rowIndex, f)
    ensures forall f, g :: IsCellEditable(rowIndex, f) && IsCellEditable(rowIndex, g) ==> f == g
    ensures !(0 <= rowIndex < MaxDefaultRows) ==> forall f :: !IsCellEditable(rowIndex, f)
    ensures forall f, other ::
              (0 <= other < MaxDefaultRows && other != rowIndex && IsCellEditable(rowIndex, f)) ==>
              !IsCellEditable(other, f)
  {
    if 0 <= rowIndex < MaxDefaultRows {
      var f := [NetWorth, Date, Age, TimeFromNow, PassiveIncome][rowIndex];
      assert IsCellEditable(rowIndex, f);
    }
  }
}
