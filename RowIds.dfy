/**
 * Row-ID assignment in the `insert` branch of `engine.py`: the new record
 * gets 1 in an empty table, otherwise the largest existing `ID` plus one,
 * and is appended to the table's rows.
 */
module RowIds {
  import opened Wrappers

  /** A stored value, as the row files hold it. */
  datatype Value = Int(intValue: int) | Str(strValue: string) | Bool(boolValue: bool)

  /** A record: column name to value. */
  type Row = map<string, Value>

  /** A string `ID` makes Python's `max` or the following `+ 1` raise. */
  datatype InsertError = IncomparableId

  /**
   * `record.get('ID', 0)` as the number `max` compares: a missing ID is 0,
   * a bool counts as 0 or 1, and a string is not a number.
   */
  function IdNumber(row: Row): (r: Option<int>)
    ensures r.None? <==> "ID" in row && row["ID"].Str?
    ensures "ID" !in row ==> r == Some(0)
    ensures "ID" in row && row["ID"].Int? ==> r == Some(row["ID"].intValue)
    ensures "ID" in row && row["ID"].Bool? ==> r.Some? && 0 <= r.value <= 1 && (r.value == 1 <==> row["ID"].boolValue)
  {
    if "ID" !in row then Some(0)
    else match row["ID"]
      case Int(i) => Some(i)
      case Bool(b) => Some(if b then 1 else 0)
      case Str(_) => None
  }

  predicate NumericIds(rows: seq<Row>)
  {
    forall k :: 0 <= k < |rows| ==> IdNumber(rows[k]).Some?
  }

  /** The largest ID, taken left to right as `max` does. */
  function MaxId(rows: seq<Row>): int
    requires |rows| > 0 && NumericIds(rows)
  {
    var last := IdNumber(rows[|rows| - 1]).value;
    if |rows| == 1 then last
    else
      var before := MaxId(rows[..|rows| - 1]);
      if last > before then last else before
  }

  /**
   * The ID the next inserted record receives: 1 for an empty table and
   * otherwise one more than the largest existing ID, so it is larger than,
   * hence distinct from, every existing ID. The assignment fails exactly
   * when some ID is a string.
   */
  function NextId(rows: seq<Row>): (r: Result<int, InsertError>)
    ensures r.Success? <==> NumericIds(rows)
    ensures |rows| == 0 ==> r == Success(1)
    ensures r.Success? ==> forall k :: 0 <= k < |rows| ==>
      IdNumber(rows[k]).value < r.value &&
      ("ID" in rows[k] ==> rows[k]["ID"] != Int(r.value))
    ensures r.Success? && |rows| > 0 ==>
      exists k :: 0 <= k < |rows| && IdNumber(rows[k]).value == r.value - 1
  {
    if |rows| == 0 then Success(1)
    else if !NumericIds(rows) then Failure(IncomparableId)
    else
      MaxIdIsMaximum(rows);
      Success(MaxId(rows) + 1)
  }

  /**
   * The record with its new ID set, appended after the existing rows: the
   * earlier rows are unchanged and the new row's ID exceeds all of theirs.
   */
  function InsertRow(rows: seq<Row>, record: Row): (r: Result<seq<Row>, InsertError>)
    ensures r.Success? <==> NumericIds(rows)
    ensures r.Success? ==>
      && |r.value| == |rows| + 1
      && r.value[..|rows|] == rows
      && r.value[|rows|] == record["ID" := Int(NextId(rows).value)]
      && r.value[|rows|].Keys == record.Keys + {"ID"}
      && forall k :: 0 <= k < |rows| ==> IdNumber(rows[k]).value < IdNumber(r.value[|rows|]).value
  {
    match NextId(rows)
    case Failure(e) => Failure(e)
    case Success(id) =>
      var rows' := rows + [record["ID" := Int(id)]];
      assert rows'[..|rows|] == rows;
      Success(rows')
  }

  /** MaxId is the maximum: no ID exceeds it and some row carries it. */
  lemma {:induction false} MaxIdIsMaximum(rows: seq<Row>)
    requires |rows| > 0 && NumericIds(rows)
    ensures forall k :: 0 <= k < |rows| ==> IdNumber(rows[k]).value <= MaxId(rows)
    ensures exists k :: 0 <= k < |rows| && IdNumber(rows[k]).value == MaxId(rows)
  {
    var last := |rows| - 1;
    if |rows| == 1 {
      assert IdNumber(rows[0]).value == MaxId(rows);
    } else {
      var init := rows[..last];
      MaxIdIsMaximum(init);
      assert forall k :: 0 <= k < |init| ==> rows[k] == init[k];
      if IdNumber(rows[last]).value <= MaxId(init) {
        var k :| 0 <= k < |init| && IdNumber(init[k]).value == MaxId(init);
        assert IdNumber(rows[k]).value == MaxId(rows);
      } else {
        assert IdNumber(rows[last]).value == MaxId(rows);
      }
    }
  }

  /** After an insert that assigned `id`, the next insert assigns `id + 1`. */
  lemma {:induction false} NextIdAfterInsert(rows: seq<Row>, record: Row, id: int)
    requires NextId(rows) == Success(id)
    ensures InsertRow(rows, record).Success?
    ensures NextId(InsertRow(rows, record).value) == Success(id + 1)
  {
    var rows' := InsertRow(rows, record).value;
    assert IdNumber(rows'[|rows|]) == Some(id);
    assert NumericIds(rows');
    if |rows| > 0 {
      MaxIdIsMaximum(rows);
      assert MaxId(rows) == id - 1;
    }
  }

  /** Inserting records one after another; the first failure stops the series. */
  function InsertAll(rows: seq<Row>, records: seq<Row>): Result<seq<Row>, InsertError>
    decreases |records|
  {
    if |records| == 0 then Success(rows)
    else match InsertRow(rows, records[0])
      case Failure(e) => Failure(e)
      case Success(rows') => InsertAll(rows', records[1..])
  }

  /** Rows numbered 1, 2, ... in order, as inserts into an empty table leave them. */
  predicate NumberedFromOne(rows: seq<Row>)
  {
    forall k :: 0 <= k < |rows| ==> "ID" in rows[k] && rows[k]["ID"] == Int(k + 1)
  }

  /**
   * Inserts into a table numbered 1..n assign n+1, n+2, ...: starting from
   * an empty table the k-th inserted record gets ID k, and keeps its other
   * columns.
   */
  lemma {:induction false} SequentialIds(rows: seq<Row>, records: seq<Row>)
    requires NumberedFromOne(rows)
    ensures InsertAll(rows, records).Success?
    ensures var all := InsertAll(rows, records).value;
      |all| == |rows| + |records| && all[..|rows|] == rows && NumberedFromOne(all) &&
      forall j :: 0 <= j < |records| ==> all[|rows| + j] == records[j]["ID" := Int(|rows| + j + 1)]
    decreases |records|
  {
    if |records| > 0 {
      NumberedNextId(rows);
      var rows' := InsertRow(rows, records[0]).value;
      assert NumberedFromOne(rows');
      SequentialIds(rows', records[1..]);
      ShiftedInserts(rows, rows', records, InsertAll(rows', records[1..]).value);
    }
  }

  /** A table numbered 1..n gives the next record ID n + 1. */
  lemma NumberedNextId(rows: seq<Row>)
    requires NumberedFromOne(rows)
    ensures NextId(rows) == Success(|rows| + 1)
  {
    assert NumericIds(rows);
    if |rows| > 0 {
      assert IdNumber(rows[|rows| - 1]).value == |rows|;
    }
  }

  /** One step of SequentialIds: what holds after the first insert holds from the start. */
  lemma ShiftedInserts(rows: seq<Row>, rows': seq<Row>, records: seq<Row>, all: seq<Row>)
    requires |records| > 0 && rows' == rows + [records[0]["ID" := Int(|rows| + 1)]]
    requires |all| == |rows'| + |records| - 1 && all[..|rows'|] == rows'
    requires forall j :: 0 <= j < |records| - 1 ==>
      all[|rows'| + j] == records[1..][j]["ID" := Int(|rows'| + j + 1)]
    ensures all[..|rows|] == rows
    ensures forall j :: 0 <= j < |records| ==> all[|rows| + j] == records[j]["ID" := Int(|rows| + j + 1)]
  {
    assert all[..|rows|] == all[..|rows'|][..|rows|];
    forall j | 0 <= j < |records| ensures all[|rows| + j] == records[j]["ID" := Int(|rows| + j + 1)] {
      if j > 0 {
        assert records[j] == records[1..][j - 1];
      } else {
        assert all[|rows|] == all[..|rows'|][|rows|];
      }
    }
  }

  /**
   * IDs are reused: deleting the row with the largest ID and inserting again
   * hands out that ID a second time.
   */
  lemma IdReusedAfterDeletingLast()
    ensures NextId([map["ID" := Int(1)], map["ID" := Int(2)]]) == Success(3)
    ensures NextId([map["ID" := Int(1)]]) == Success(2)
  {
  }

  /**
   * The `insert` branch: computes the largest ID with a loop, sets the new
   * record's ID and appends it; earlier rows are unchanged.
   */
  method AppendWithNewId(rows: seq<Row>, record: Row) returns (r: Result<(seq<Row>, int), InsertError>)
    ensures r.Success? <==> NumericIds(rows)
    ensures r.Success? ==> NextId(rows) == Success(r.value.1)
    ensures r.Success? ==> InsertRow(rows, record) == Success(r.value.0)
    ensures r.Success? ==> forall k :: 0 <= k < |rows| ==> IdNumber(rows[k]).value < r.value.1
    ensures r.Success? ==>
      && |r.value.0| == |rows| + 1
      && r.value.0[..|rows|] == rows
      && r.value.0[|rows|] == record["ID" := Int(r.value.1)]
  {
    var id: int;
    if |rows| == 0 {
      id := 1;
    } else {
      var maxId := 0;
      for i := 0 to |rows|
        invariant NumericIds(rows[..i])
        invariant i > 0 ==> maxId == MaxId(rows[..i])
      {
        match IdNumber(rows[i])
        case None =>
          return Failure(IncomparableId);
        case Some(n) =>
          assert rows[..i + 1][..i] == rows[..i];
          if i == 0 || n > maxId {
            maxId := n;
          }
      }
      assert rows[..|rows|] == rows;
      id := maxId + 1;
    }
    var rows' := rows + [record["ID" := Int(id)]];
    assert rows'[..|rows|] == rows;
    return Success((rows', id));
  }
}
