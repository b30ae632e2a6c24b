/**
 * The schema store of `core.py`: the metadata dictionary from table name to
 * its list of "name:type" column specs, with `create_table`, `drop_table`
 * and `list_tables`. A Python dict remembers insertion order, so the store
 * keeps the names in a sequence beside the map.
 */
module Schema {
  import opened Wrappers
  import opened Text

  datatype SchemaError =
    | DuplicateTable(table: string)
    | TableNotFound(table: string)
    | MalformedColumn(column: string)
    | UnsupportedType(columnType: string)

  /** The column types `create_table` accepts. */
  const ValidTypes: set<string> := {"int", "str", "bool"}

  /** The column every table starts with. */
  const IdColumn: string := "ID:int"

  /** `spec.split(':', 1)`: the name before the first ':' and everything after it. */
  function SplitColumn(spec: string): (r: Option<(string, string)>)
    ensures r.None? <==> ':' !in spec
    ensures r.Some? ==> ':' !in r.value.0 && r.value.0 + ":" + r.value.1 == spec
  {
    match FirstIndex(spec, ':')
    case None => None
    case Some(i) =>
      assert spec == spec[..i] + ":" + spec[i + 1..];
      Some((spec[..i], spec[i + 1..]))
  }

  /**
   * The check applied to one column spec, and the entry it contributes. A
   * well-formed spec is stored exactly as written: splitting at the first
   * ':' and joining the two halves again gives the spec back.
   */
  function CheckColumn(spec: string): (r: Result<string, SchemaError>)
    ensures r.Success? <==> WellFormed(spec)
    ensures WellFormed(spec) ==> r == Success(spec)
    ensures ':' !in spec ==> r == Failure(MalformedColumn(spec))
    ensures ':' in spec && !WellFormed(spec) ==> r == Failure(UnsupportedType(SplitColumn(spec).value.1))
  {
    match SplitColumn(spec)
    case None => Failure(MalformedColumn(spec))
    case Some((name, columnType)) =>
      if columnType in ValidTypes then Success(name + ":" + columnType)
      else Failure(UnsupportedType(columnType))
  }

  /** A spec that has a ':' and, after the first one, a supported type. */
  predicate WellFormed(spec: string)
  {
    SplitColumn(spec).Some? && SplitColumn(spec).value.1 in ValidTypes
  }

  /** The column list `create_table` stores, or the error of the first bad spec. */
  function CheckColumns(columns: seq<string>): (r: Result<seq<string>, SchemaError>)
    ensures r.Success? ==> r.value == columns
    ensures r.Failure? ==> exists k :: 0 <= k < |columns| && !WellFormed(columns[k]) && r.error == CheckColumn(columns[k]).error
  {
    if |columns| == 0 then Success([])
    else match CheckColumn(columns[0])
      case Failure(e) => Failure(e)
      case Success(entry) =>
        match CheckColumns(columns[1..])
        case Failure(e) =>
          ghost var k :| 0 <= k < |columns[1..]| && !WellFormed(columns[1..][k]) && e == CheckColumn(columns[1..][k]).error;
          assert columns[1..][k] == columns[k + 1];
          Failure(e)
        case Success(rest) =>
          assert columns == [columns[0]] + columns[1..];
          Success([entry] + rest)
  }

  /** What `create_table` stores for a new table, before the duplicate check. */
  function BuildSchema(columns: seq<string>): (r: Result<seq<string>, SchemaError>)
    ensures r.Success? ==> r.value == [IdColumn] + columns
    ensures r.Failure? ==> exists k :: 0 <= k < |columns| && !WellFormed(columns[k]) && r.error == CheckColumn(columns[k]).error
  {
    match CheckColumns(columns)
    case Failure(e) => Failure(e)
    case Success(entries) => Success([IdColumn] + entries)
  }

  /** Success exactly when every spec is well-formed; the entries are then the specs themselves. */
  lemma {:induction false} CheckColumnsAllWellFormed(columns: seq<string>)
    ensures CheckColumns(columns).Success? <==> forall k :: 0 <= k < |columns| ==> WellFormed(columns[k])
    ensures CheckColumns(columns).Success? ==> CheckColumns(columns).value == columns
  {
    if |columns| > 0 {
      CheckColumnsAllWellFormed(columns[1..]);
      assert columns == [columns[0]] + columns[1..];
      if !WellFormed(columns[0]) {
        assert CheckColumns(columns).Failure?;
      } else if CheckColumns(columns[1..]).Failure? {
        var k :| 0 <= k < |columns[1..]| && !WellFormed(columns[1..][k]);
        assert !WellFormed(columns[k + 1]);
      } else {
        forall k | 0 <= k < |columns| ensures WellFormed(columns[k]) {
          if k > 0 { assert columns[k] == columns[1..][k - 1]; }
        }
      }
    }
  }

  /** The error reported is the one of the first spec that is not well-formed. */
  lemma {:induction false} CheckColumnsFirstError(columns: seq<string>, i: nat)
    requires i < |columns|
    requires forall k :: 0 <= k < i ==> WellFormed(columns[k])
    requires !WellFormed(columns[i])
    ensures CheckColumns(columns) == Failure(CheckColumn(columns[i]).error)
  {
    if i > 0 {
      CheckColumnsFirstError(columns[1..], i - 1);
    }
  }

  /**
   * On success the stored list is "ID:int" followed by the given specs in
   * the given order; on failure it names the first bad spec.
   */
  lemma BuildSchemaShape(columns: seq<string>)
    ensures BuildSchema(columns).Success? <==> forall k :: 0 <= k < |columns| ==> WellFormed(columns[k])
    ensures BuildSchema(columns).Success? ==>
      BuildSchema(columns).value == [IdColumn] + columns && |BuildSchema(columns).value| == |columns| + 1
    ensures forall i ::
      (0 <= i < |columns| && !WellFormed(columns[i]) && forall k :: 0 <= k < i ==> WellFormed(columns[k]))
      ==> BuildSchema(columns) == Failure(CheckColumn(columns[i]).error)
  {
    CheckColumnsAllWellFormed(columns);
    forall i | 0 <= i < |columns| && !WellFormed(columns[i]) &&
      (forall k :: 0 <= k < i ==> WellFormed(columns[k]))
      ensures BuildSchema(columns) == Failure(CheckColumn(columns[i]).error)
    {
      CheckColumnsFirstError(columns, i);
    }
  }

  /** The type is everything after the first ':', so "a:b:int" has type "b:int" and is refused. */
  lemma SplitAtFirstColon()
    ensures CheckColumn("a:b:int") == Failure(UnsupportedType("b:int"))
  {
    assert FirstIndex("a:b:int", ':') == Some(1);
  }

  /** Column names are not checked: empty and repeated names are kept as given. */
  lemma ColumnNamesUnchecked()
    ensures BuildSchema([":int", "x:str", "x:bool"]) == Success([IdColumn, ":int", "x:str", "x:bool"])
  {
    assert WellFormed(":int") by { assert FirstIndex(":int", ':') == Some(0); }
    assert WellFormed("x:str") by { assert FirstIndex("x:str", ':') == Some(1); }
    assert WellFormed("x:bool") by { assert FirstIndex("x:bool", ':') == Some(1); }
    var columns := [":int", "x:str", "x:bool"];
    assert forall k :: 0 <= k < |columns| ==> WellFormed(columns[k]);
    BuildSchemaShape(columns);
    assert [IdColumn] + columns == [IdColumn, ":int", "x:str", "x:bool"];
  }

  /** `names` without the entries equal to `x`, the others in their order. */
  function Without(names: seq<string>, x: string): (r: seq<string>)
    ensures x !in r
    ensures forall n :: n in r <==> n in names && n != x
  {
    if |names| == 0 then []
    else if names[0] == x then Without(names[1..], x)
    else [names[0]] + Without(names[1..], x)
  }

  predicate Distinct(names: seq<string>)
  {
    forall i, j :: 0 <= i < j < |names| ==> names[i] != names[j]
  }

  /** Removing one name from a list without repeats closes the gap and keeps the rest in order. */
  lemma {:induction false} WithoutKeepsOrder(names: seq<string>, k: nat)
    requires Distinct(names) && k < |names|
    ensures Without(names, names[k]) == names[..k] + names[k + 1..]
    ensures Distinct(Without(names, names[k]))
  {
    var x := names[k];
    if k == 0 {
      WithoutAbsent(names[1..], x);
    } else {
      WithoutKeepsOrder(names[1..], k - 1);
      assert names[1..][k - 1] == x;
      assert names[..k] == [names[0]] + names[1..][..k - 1];
      assert names[k + 1..] == names[1..][k..];
    }
  }

  lemma {:induction false} WithoutAbsent(names: seq<string>, x: string)
    requires x !in names
    ensures Without(names, x) == names
  {
    if |names| > 0 {
      WithoutAbsent(names[1..], x);
    }
  }

  /**
   * The metadata dictionary. `names` is the dict's key order; `tables`
   * maps each name to its column specs.
   */
  class SchemaStore {
    var names: seq<string>
    var tables: map<string, seq<string>>

    ghost predicate Valid()
      reads this
    {
      Distinct(names) && (forall n :: n in tables <==> n in names)
    }

    /** An empty store, as loaded when no metadata file exists. */
    constructor ()
      ensures Valid() && names == [] && tables == map[]
    {
      names := [];
      tables := map[];
    }

    /**
     * `create_table`: refuses a name already present, checks every spec
     * in order and, only when all pass, stores "ID:int" followed by them.
     */
    method CreateTable(name: string, columns: seq<string>) returns (r: Result<seq<string>, SchemaError>)
      requires Valid()
      modifies this
      ensures Valid()
      ensures r == (if name in old(tables) then Failure(DuplicateTable(name)) else BuildSchema(columns))
      ensures r.Success? ==> tables == old(tables)[name := r.value] && names == old(names) + [name]
      ensures r.Failure? ==> tables == old(tables) && names == old(names)
    {
      if name in tables {
        return Failure(DuplicateTable(name));
      }
      var validated := [IdColumn];
      for i := 0 to |columns|
        invariant validated == [IdColumn] + columns[..i]
        invariant forall k :: 0 <= k < i ==> WellFormed(columns[k])
      {
        var column := columns[i];
        match SplitColumn(column)
        case None =>
          CheckColumnsFirstError(columns, i);
          return Failure(MalformedColumn(column));
        case Some((columnName, columnType)) =>
          if columnType !in ValidTypes {
            CheckColumnsFirstError(columns, i);
            return Failure(UnsupportedType(columnType));
          }
          validated := validated + [columnName + ":" + columnType];
      }
      assert columns[..|columns|] == columns;
      BuildSchemaShape(columns);
      tables := tables[name := validated];
      names := names + [name];
      return Success(validated);
    }

    /** `drop_table`: refuses an absent name, otherwise removes exactly that entry. */
    method DropTable(name: string) returns (r: Result<(), SchemaError>)
      requires Valid()
      modifies this
      ensures Valid()
      ensures r == (if name in old(tables) then Success(()) else Failure(TableNotFound(name)))
      ensures r.Success? ==> tables == old(tables) - {name} && names == Without(old(names), name)
      ensures r.Failure? ==> tables == old(tables) && names == old(names)
    {
      if name !in tables {
        return Failure(TableNotFound(name));
      }
      tables := tables - {name};
      var k :| 0 <= k < |names| && names[k] == name;
      WithoutKeepsOrder(names, k);
      names := Without(names, name);
      return Success(());
    }

    /** `list_tables`: the table names in insertion order. */
    method ListTables() returns (r: seq<string>)
      requires Valid()
      ensures r == names
      ensures Distinct(r) && forall n :: n in r <==> n in tables
    {
      return names;
    }
  }
}
