/**
 * The argument checks of the command loop in `engine.py`. The loop splits a
 * line into a verb and its arguments; each branch checks the shape of the
 * arguments and slices out the table name and the clause text it hands on
 * to the clause parsers. Those parsers, and everything printed, lie outside
 * this model.
 */
module Commands {
  import opened Wrappers
  import opened Text

  /**
   * Why a line is refused: `Usage` is a branch printing its usage line;
   * `LookupFailed` is `list.index` raising, which the loop's outer handler
   * reports as an unexpected error.
   */
  datatype ArgError = Usage | LookupFailed

  datatype Command =
    | CreateTable(table: string, columns: seq<string>)
    | DropTable(table: string)
    | ListTables
    | Insert(table: string, valuesText: string)
    | Select(table: string, condition: Option<string>)
    | Update(table: string, setText: string, whereText: string)
    | Delete(table: string, whereText: string)
    | Info(table: string)
    | Help
    | Exit
    | Unknown(verb: string)

  /** `insert into <table> values <values...>` */
  function ParseInsert(args: seq<string>): (r: Result<Command, ArgError>)
    ensures r.Success? <==> |args| >= 4 && Lower(args[0]) == "into" && Lower(args[2]) == "values"
    ensures r.Failure? ==> r.error == Usage
    ensures r.Success? ==> r.value.Insert? && r.value.table == args[1]
  {
    if |args| < 4 || Lower(args[0]) != "into" || Lower(args[2]) != "values" then Failure(Usage)
    else Success(Insert(args[1], Join(args[3..])))
  }

  /**
   * `select from <table> [where <condition...>]`: a condition is taken only
   * when the third argument is the keyword; otherwise the rest is ignored.
   */
  function ParseSelect(args: seq<string>): (r: Result<Command, ArgError>)
    ensures r.Success? <==> |args| >= 2 && Lower(args[0]) == "from"
    ensures r.Failure? ==> r.error == Usage
    ensures r.Success? ==> r.value.Select? && r.value.table == args[1]
    ensures r.Success? ==> (r.value.condition.Some? <==> |args| > 2 && Lower(args[2]) == "where")
  {
    if |args| < 2 || Lower(args[0]) != "from" then Failure(Usage)
    else if |args| > 2 && Lower(args[2]) == "where" then Success(Select(args[1], Some(Join(args[3..]))))
    else Success(Select(args[1], None))
  }

  /** The check the `update` branch makes before looking anything up. */
  predicate UpdateGuard(args: seq<string>)
    ensures UpdateGuard(args) <==>
      && |args| >= 6
      && Lower(args[1]) == "set"
      && exists k :: 0 <= k < |args| && Lower(args[k]) == "where"
  {
    |args| >= 6 && Lower(args[1]) == "set" && "where" in LowerAll(args)
  }

  /** Python's `args[lo:hi]` for bounds within the list: empty when `lo > hi`. */
  function Slice(args: seq<string>, lo: nat, hi: nat): (r: seq<string>)
    requires lo <= |args| && hi <= |args|
    ensures lo <= hi ==> r == args[lo..hi]
    ensures lo > hi ==> r == []
  {
    if lo <= hi then args[lo..hi] else []
  }

  /** The update command once both keyword positions are known. */
  function UpdateAt(args: seq<string>, setIndex: nat, whereIndex: nat): Command
    requires setIndex < |args| && whereIndex < |args|
    requires |args| >= 1
  {
    Update(args[0], Join(Slice(args, setIndex + 1, whereIndex)), Join(args[whereIndex + 1..]))
  }

  /**
   * `update <table> set <assignments...> where <condition...>` as written:
   * the guard compares lower-cased words, but the positions are then looked
   * up under the exact spellings "set"/"SET" and "where"/"WHERE" only.
   */
  function ParseUpdateAsWritten(args: seq<string>): (r: Result<Command, ArgError>)
    ensures r.Success? ==> UpdateGuard(args) && r.value.Update? && r.value.table == args[0]
    ensures !UpdateGuard(args) ==> r == Failure(Usage)
    ensures UpdateGuard(args) ==>
      (r == Failure(LookupFailed) <==> ("set" !in args && "SET" !in args) || ("where" !in args && "WHERE" !in args))
  {
    if !UpdateGuard(args) then Failure(Usage)
    else
      var setIndex := if "set" in args then FirstIndex(args, "set") else FirstIndex(args, "SET");
      var whereIndex := if "where" in args then FirstIndex(args, "where") else FirstIndex(args, "WHERE");
      if setIndex.None? || whereIndex.None? then Failure(LookupFailed)
      else Success(UpdateAt(args, setIndex.value, whereIndex.value))
  }

  /**
   * The corrected search for the WHERE keyword: the source's order of
   * spellings, exact "where" first, then exact "WHERE", then, where the
   * source would raise, any spelling that lower-cases to "where"; but only
   * among the words after the SET keyword.
   */
  function WhereIndex(args: seq<string>): (r: Option<nat>)
    requires |args| >= 2
    ensures r.None? <==> "where" !in LowerAll(args)[2..]
    ensures r.Some? ==> 2 <= r.value < |args| && Lower(args[r.value]) == "where"
    ensures "where" in args[2..] ==> r.Some? && args[r.value] == "where" && "where" !in args[2..r.value]
    ensures "where" !in args[2..] && "WHERE" in args[2..] ==>
      r.Some? && args[r.value] == "WHERE" && "WHERE" !in args[2..r.value]
    ensures "where" !in args[2..] && "WHERE" !in args[2..] && r.Some? ==>
      forall k :: 2 <= k < r.value ==> Lower(args[k]) != "where"
  {
    var rest := args[2..];
    if "where" in rest then
      var i := FirstIndex(rest, "where").value;
      WhereIndexExact(args, "where", i);
      Some(2 + i)
    else if "WHERE" in rest then
      var i := FirstIndex(rest, "WHERE").value;
      WhereIndexExact(args, "WHERE", i);
      Some(2 + i)
    else match FirstIndex(LowerAll(args)[2..], "where")
      case None => None
      case Some(i) =>
        WhereIndexLowered(args, i);
        Some(2 + i)
  }

  /** What an exact-spelling search among the words after the SET keyword finds. */
  lemma WhereIndexExact(args: seq<string>, word: string, i: nat)
    requires |args| >= 2 && Lower(word) == "where"
    requires FirstIndex(args[2..], word) == Some(i)
    ensures 2 + i < |args| && args[2 + i] == word && word !in args[2..2 + i]
    ensures "where" in LowerAll(args)[2..]
  {
    assert args[2..][i] == word;
    assert args[2..2 + i] == args[2..][..i];
    assert LowerAll(args)[2..][i] == Lower(word);
  }

  /** What the lower-cased search among the words after the SET keyword finds. */
  lemma WhereIndexLowered(args: seq<string>, i: nat)
    requires |args| >= 2
    requires FirstIndex(LowerAll(args)[2..], "where") == Some(i)
    ensures 2 + i < |args| && Lower(args[2 + i]) == "where"
    ensures forall k :: 2 <= k < 2 + i ==> Lower(args[k]) != "where"
  {
    var lowered := LowerAll(args)[2..];
    assert lowered[i] == Lower(args[2 + i]);
    forall k | 2 <= k < 2 + i
      ensures Lower(args[k]) != "where"
    {
      assert lowered[..i][k - 2] == Lower(args[k]);
    }
  }

  /**
   * `update` as evidently intended: the SET keyword is the second word,
   * where the guard found it, and the WHERE keyword is the one WhereIndex
   * finds after it. A guard-passing line whose only "where" is the table
   * name has no condition and gets the usage error.
   */
  function ParseUpdate(args: seq<string>): (r: Result<Command, ArgError>)
    ensures r.Success? <==> UpdateGuard(args) && "where" in LowerAll(args)[2..]
    ensures r.Failure? ==> r.error == Usage
    ensures r.Success? ==> r.value.Update? && r.value.table == args[0]
  {
    if !UpdateGuard(args) then Failure(Usage)
    else match WhereIndex(args)
      case None => Failure(Usage)
      case Some(w) => Success(UpdateAt(args, 1, w))
  }

  /** `delete from <table> where <condition...>` */
  function ParseDelete(args: seq<string>): (r: Result<Command, ArgError>)
    ensures r.Success? <==> |args| >= 3 && Lower(args[0]) == "from" && Lower(args[2]) == "where"
    ensures r.Failure? ==> r.error == Usage
    ensures r.Success? ==> r.value.Delete? && r.value.table == args[1]
  {
    if |args| < 3 || Lower(args[0]) != "from" || Lower(args[2]) != "where" then Failure(Usage)
    else Success(Delete(args[1], Join(args[3..])))
  }

  /** `info <table>` and `drop_table <table>` take exactly one argument. */
  function ParseOneTable(args: seq<string>): (r: Result<string, ArgError>)
    ensures r.Success? <==> |args| == 1
    ensures r.Success? ==> r.value == args[0]
  {
    if |args| != 1 then Failure(Usage) else Success(args[0])
  }

  /** `create_table <table> <column:type...>` needs a name and at least one spec. */
  function ParseCreateTable(args: seq<string>): (r: Result<Command, ArgError>)
    ensures r.Success? <==> |args| >= 2
    ensures r.Success? ==> r.value == CreateTable(args[0], args[1..]) && |r.value.columns| >= 1
  {
    if |args| < 2 then Failure(Usage) else Success(CreateTable(args[0], args[1..]))
  }

  /** The verbs whose branch checks its arguments. */
  const ArgumentVerbs: set<string> := {"insert", "select", "update", "delete", "info", "create_table", "drop_table"}

  const KnownVerbs: set<string> := ArgumentVerbs + {"exit", "help", "list_tables"}

  /**
   * The dispatch on the lower-cased verb; the arguments are the words after
   * it. An `update` goes to the corrected ParseUpdate.
   */
  function ParseCommand(verb: string, args: seq<string>): (r: Result<Command, ArgError>)
    ensures r.Failure? ==> r.error == Usage && Lower(verb) in ArgumentVerbs
    ensures Lower(verb) !in KnownVerbs ==> r == Success(Unknown(Lower(verb)))
    ensures r.Success? && r.value.CreateTable? ==> |args| >= 2 && r.value.table == args[0] && r.value.columns == args[1..]
    ensures Lower(verb) == "exit" ==> r == Success(Exit)
    ensures Lower(verb) == "help" ==> r == Success(Help)
    ensures Lower(verb) == "list_tables" ==> r == Success(ListTables)
    ensures Lower(verb) == "insert" ==> r == ParseInsert(args)
    ensures Lower(verb) == "select" ==> r == ParseSelect(args)
    ensures Lower(verb) == "update" ==> r == ParseUpdate(args)
    ensures Lower(verb) == "delete" ==> r == ParseDelete(args)
    ensures Lower(verb) == "create_table" ==> r == ParseCreateTable(args)
    ensures Lower(verb) == "info" ==> r == (if |args| == 1 then Success(Info(args[0])) else Failure(Usage))
    ensures Lower(verb) == "drop_table" ==> r == (if |args| == 1 then Success(DropTable(args[0])) else Failure(Usage))
  {
    var command := Lower(verb);
    if command == "exit" then Success(Exit)
    else if command == "help" then Success(Help)
    else if command == "insert" then ParseInsert(args)
    else if command == "select" then ParseSelect(args)
    else if command == "update" then ParseUpdate(args)
    else if command == "delete" then ParseDelete(args)
    else if command == "info" then
      match ParseOneTable(args)
      case Failure(e) => Failure(e)
      case Success(t) => Success(Info(t))
    else if command == "create_table" then ParseCreateTable(args)
    else if command == "list_tables" then Success(ListTables)
    else if command == "drop_table" then
      match ParseOneTable(args)
      case Failure(e) => Failure(e)
      case Success(t) => Success(DropTable(t))
    else Success(Unknown(command))
  }

  /** The words of an insert line come back out: the table, and the value words joined by spaces. */
  lemma InsertRoundTrip(intoKw: string, table: string, valuesKw: string, words: seq<string>)
    requires Lower(intoKw) == "into" && Lower(valuesKw) == "values" && |words| >= 1
    ensures ParseInsert([intoKw, table, valuesKw] + words) == Success(Insert(table, Join(words)))
  {
    var args := [intoKw, table, valuesKw] + words;
    assert args[0] == intoKw && args[1] == table && args[2] == valuesKw;
    assert args[3..] == words;
  }

  /** Without the keyword in third place, the words after the table name are ignored. */
  lemma SelectIgnoresExtra(args: seq<string>)
    requires |args| > 2 ==> Lower(args[2]) != "where"
    ensures ParseSelect(args) == ParseSelect(args[..if |args| < 2 then |args| else 2])
    ensures ParseSelect(args).Success? ==> ParseSelect(args).value.condition.None?
  {
  }

  /** A select line with a condition gives back the table and the condition words. */
  lemma SelectRoundTrip(fromKw: string, table: string, whereKw: string, words: seq<string>)
    requires Lower(fromKw) == "from" && Lower(whereKw) == "where"
    ensures ParseSelect([fromKw, table, whereKw] + words) == Success(Select(table, Some(Join(words))))
    ensures ParseSelect([fromKw, table]) == Success(Select(table, None))
  {
    assert ([fromKw, table, whereKw] + words)[3..] == words;
  }

  /** A delete line gives back the table and the condition words. */
  lemma DeleteRoundTrip(fromKw: string, table: string, whereKw: string, words: seq<string>)
    requires Lower(fromKw) == "from" && Lower(whereKw) == "where"
    ensures ParseDelete([fromKw, table, whereKw] + words) == Success(Delete(table, Join(words)))
  {
    assert ([fromKw, table, whereKw] + words)[3..] == words;
  }

  /** The words of an update line: the table, the keywords and the two clauses. */
  function UpdateLine(table: string, setKw: string, setWords: seq<string>, whereKw: string, whereWords: seq<string>): seq<string>
  {
    [table, setKw] + setWords + [whereKw] + whereWords
  }

  /**
   * The conditions under which the corrected parse takes `whereKw` as the
   * WHERE keyword: no assignment word before it, and no condition word after
   * it, comes first in WhereIndex's order of spellings.
   */
  predicate UpdateLineReadable(setWords: seq<string>, whereKw: string, whereWords: seq<string>)
  {
    && |setWords| + |whereWords| >= 3
    && "where" !in setWords
    && (whereKw != "where" ==> "where" !in whereWords && "WHERE" !in setWords)
    && (whereKw != "where" && whereKw != "WHERE" ==>
          && "WHERE" !in whereWords
          && forall k :: 0 <= k < |setWords| ==> Lower(setWords[k]) != "where")
  }

  /**
   * Whatever the case of the keywords and whatever the table is called, the
   * update line gives back the table, the assignment words and the
   * condition words, provided no other word is taken for the WHERE keyword.
   */
  lemma {:induction false} UpdateRoundTrip(table: string, setKw: string, setWords: seq<string>, whereKw: string, whereWords: seq<string>)
    requires Lower(setKw) == "set" && Lower(whereKw) == "where"
    requires UpdateLineReadable(setWords, whereKw, whereWords)
    ensures ParseUpdate(UpdateLine(table, setKw, setWords, whereKw, whereWords)) ==
      Success(Update(table, Join(setWords), Join(whereWords)))
  {
    var args := UpdateLine(table, setKw, setWords, whereKw, whereWords);
    var w := 2 + |setWords|;
    UpdateLineParts(table, setKw, setWords, whereKw, whereWords);
    assert UpdateGuard(args) by {
      assert Lower(args[1]) == "set" && Lower(args[w]) == "where";
    }
    UpdateLineWhere(table, setKw, setWords, whereKw, whereWords);
    assert ParseUpdate(args) == Success(UpdateAt(args, 1, w));
  }

  /** WhereIndex finds the WHERE keyword of a readable update line. */
  lemma UpdateLineWhere(table: string, setKw: string, setWords: seq<string>, whereKw: string, whereWords: seq<string>)
    requires Lower(whereKw) == "where"
    requires UpdateLineReadable(setWords, whereKw, whereWords)
    ensures WhereIndex(UpdateLine(table, setKw, setWords, whereKw, whereWords)) == Some(2 + |setWords|)
  {
    var args := UpdateLine(table, setKw, setWords, whereKw, whereWords);
    var n := |setWords|;
    assert args[2..] == setWords + [whereKw] + whereWords;
    assert args[2..2 + n] == setWords;
    assert args[2 + n] == whereKw;
    var r := WhereIndex(args);
    if whereKw == "where" {
      assert "where" in args[2..];
      assert r.value == 2 + n;
    } else if whereKw == "WHERE" {
      assert "where" !in args[2..] && "WHERE" in args[2..];
      assert r.value == 2 + n;
    } else {
      assert "where" !in args[2..] && "WHERE" !in args[2..];
      assert "where" in LowerAll(args)[2..] by { assert LowerAll(args)[2..][n] == "where"; }
      assert r.value == 2 + n;
    }
  }

  /** Where the parts of an update line sit. */
  lemma UpdateLineParts(table: string, setKw: string, setWords: seq<string>, whereKw: string, whereWords: seq<string>)
    ensures var args := UpdateLine(table, setKw, setWords, whereKw, whereWords);
      && |args| == 3 + |setWords| + |whereWords|
      && args[0] == table && args[1] == setKw && args[2 + |setWords|] == whereKw
      && args[2..2 + |setWords|] == setWords && args[3 + |setWords|..] == whereWords
      && forall k :: 2 <= k < 2 + |setWords| ==> args[k] == setWords[k - 2]
  {
    var args := UpdateLine(table, setKw, setWords, whereKw, whereWords);
    var w := 2 + |setWords|;
    assert forall k :: 2 <= k < w ==> args[k] == setWords[k - 2];
    assert args[2..w] == setWords;
    assert args[w + 1..] == whereWords;
  }

  /**
   * As written, the same line is recovered when both keywords are spelled
   * exactly "set" and "where", the table is not called exactly either, and
   * no assignment word is exactly "where".
   */
  lemma {:induction false} UpdateAsWrittenRoundTrip(table: string, setWords: seq<string>, whereWords: seq<string>)
    requires forall k :: 0 <= k < |setWords| ==> setWords[k] != "where"
    requires |setWords| + |whereWords| >= 3
    requires table != "set" && table != "where"
    ensures ParseUpdateAsWritten(UpdateLine(table, "set", setWords, "where", whereWords)) ==
      Success(Update(table, Join(setWords), Join(whereWords)))
  {
    var args := UpdateLine(table, "set", setWords, "where", whereWords);
    var w := 2 + |setWords|;
    UpdateLineParts(table, "set", setWords, "where", whereWords);
    assert Lower("set") == "set" && Lower("where") == "where";
    assert UpdateGuard(args) by {
      assert Lower(args[1]) == "set" && Lower(args[w]) == "where";
    }
    FirstIndexAt(args, "set", 1);
    FirstIndexAt(args, "where", w);
  }

  /** An update line whose keywords are written "Set" and "Where". */
  const MixedCaseLine: seq<string> := ["users", "Set", "age=31", "Where", "name", "=", "Ana"]

  /**
   * The guard accepts "Set" and "Where", but neither spelling is looked up,
   * so this line ends in the loop's generic error instead of an update.
   */
  lemma MixedCaseUpdateRefused()
    ensures UpdateGuard(MixedCaseLine)
    ensures ParseUpdateAsWritten(MixedCaseLine) == Failure(LookupFailed)
  {
    var args := MixedCaseLine;
    assert Lower("Set") == "set" && LowerAll(args)[1] == "set";
    assert Lower("Where") == "where" && LowerAll(args)[3] == "where";
    assert "set" !in args && "SET" !in args by {
      forall k | 0 <= k < |args| ensures args[k] != "set" && args[k] != "SET" {
        assert (args[k][0] != 's' && args[k][0] != 'S') || args[k] == "Set";
      }
    }
  }

  /** With the positions found case-insensitively, the same line is an update. */
  lemma MixedCaseUpdateParsed()
    ensures ParseUpdate(MixedCaseLine) == Success(Update("users", "age=31", "name = Ana"))
  {
    MixedCaseReadable();
    MixedCaseJoins();
    UpdateRoundTrip("users", "Set", ["age=31"], "Where", ["name", "=", "Ana"]);
    assert UpdateLine("users", "Set", ["age=31"], "Where", ["name", "=", "Ana"]) == MixedCaseLine;
  }

  /** "Set" and "Where" are keywords in any case, and the assignment word is not "where". */
  lemma MixedCaseReadable()
    ensures Lower("Set") == "set" && Lower("Where") == "where"
    ensures UpdateLineReadable(["age=31"], "Where", ["name", "=", "Ana"])
  {
    assert Lower("age=31")[0] == 'a';
  }

  /** The clause texts of the mixed-case line. */
  lemma MixedCaseJoins()
    ensures Join(["age=31"]) == "age=31" && Join(["name", "=", "Ana"]) == "name = Ana"
  {
    assert Join(["Ana"]) == "Ana";
    assert Join(["=", "Ana"]) == "= Ana";
  }

  /** An update line with "SET" in second place and a later "set" among the assignments. */
  const TwoSetLine: seq<string> := ["t", "SET", "a", "set", "b", "where", "c"]

  /**
   * As written, the exact spelling "set" is looked up first, so the
   * assignment text starts after the later "set" and "a set" is dropped;
   * the case-insensitive lookup starts after the keyword in second place.
   */
  lemma MisSlicedUpdate()
    ensures ParseUpdateAsWritten(TwoSetLine) == Success(Update("t", "b", "c"))
    ensures ParseUpdate(TwoSetLine) == Success(Update("t", "a set b", "c"))
  {
    TwoSetAsWritten();
    TwoSetCorrected();
  }

  /** The exact lookups find "set" at 3 and "where" at 5. */
  lemma TwoSetAsWritten()
    ensures ParseUpdateAsWritten(TwoSetLine) == Success(Update("t", "b", "c"))
  {
    var args := TwoSetLine;
    TwoSetGuard();
    assert args[0] != "set" && args[2] != "set";
    assert args[1] != "set" by { assert args[1][0] == 'S'; }
    FirstIndexAt(args, "set", 3);
    FirstIndexAt(args, "where", 5);
    TwoSetSlices();
  }

  /** Slicing at 3 and 5 leaves "b" and "c". */
  lemma TwoSetSlices()
    ensures UpdateAt(TwoSetLine, 3, 5) == Update("t", "b", "c")
  {
    var args := TwoSetLine;
    assert args[4..5] == ["b"] && args[6..] == ["c"];
  }

  /** The guard accepts the line: "SET" lowers to "set". */
  lemma TwoSetGuard()
    ensures UpdateGuard(TwoSetLine)
  {
    assert Lower("SET") == "set" && Lower("where") == "where";
    assert Lower(TwoSetLine[5]) == "where";
  }

  /** The line read as an update line whose assignment words are "a set b". */
  lemma TwoSetCorrected()
    ensures ParseUpdate(TwoSetLine) == Success(Update("t", "a set b", "c"))
  {
    TwoSetReadable();
    TwoSetJoins();
    UpdateRoundTrip("t", "SET", ["a", "set", "b"], "where", ["c"]);
    assert UpdateLine("t", "SET", ["a", "set", "b"], "where", ["c"]) == TwoSetLine;
  }

  /** Neither the table name nor an assignment word is a keyword. */
  lemma TwoSetReadable()
    ensures Lower("SET") == "set" && Lower("where") == "where"
    ensures UpdateLineReadable(["a", "set", "b"], "where", ["c"])
  {
    assert Lower("t")[0] == 't' && Lower("a")[0] == 'a' && Lower("b")[0] == 'b';
    assert Lower("set") == "set";
  }

  /** The clause texts the corrected lookup hands on. */
  lemma TwoSetJoins()
    ensures Join(["a", "set", "b"]) == "a set b" && Join(["c"]) == "c"
  {
    assert Join(["b"]) == "b";
    assert Join(["set", "b"]) == "set b";
  }

  /** Update lines for tables named "set" and "where", which `create_table` accepts. */
  const SetTableLine: seq<string> := ["set", "SET", "a=1", "b=2", "where", "c=3"]
  const WhereTableLine: seq<string> := ["where", "set", "a=1", "where", "b=2", "x"]

  /**
   * As written, a table named like a keyword is found by the exact lookup:
   * the SET text of the first line takes in the keyword "SET", and the
   * second line's SET text is empty while its WHERE text takes in the whole
   * assignment. With the SET keyword fixed at the second word, both lines
   * give their assignment and condition words.
   */
  lemma KeywordTableUpdate()
    ensures ParseUpdateAsWritten(SetTableLine) == Success(Update("set", "SET a=1 b=2", "c=3"))
    ensures ParseUpdate(SetTableLine) == Success(Update("set", "a=1 b=2", "c=3"))
    ensures ParseUpdateAsWritten(WhereTableLine) == Success(Update("where", "", "set a=1 where b=2 x"))
    ensures ParseUpdate(WhereTableLine) == Success(Update("where", "a=1", "b=2 x"))
  {
    SetTableAsWritten();
    SetTableCorrected();
    WhereTableAsWritten();
    WhereTableCorrected();
  }

  /** The exact lookups find the table name "set" at 0 and "where" at 4. */
  lemma SetTableAsWritten()
    ensures ParseUpdateAsWritten(SetTableLine) == Success(Update("set", "SET a=1 b=2", "c=3"))
  {
    var args := SetTableLine;
    assert Lower("SET") == "set" && Lower("where") == "where";
    assert LowerAll(args)[1] == "set" && LowerAll(args)[4] == "where";
    assert UpdateGuard(args);
    FirstIndexAt(args, "set", 0);
    assert args[1] != "where" by { assert args[1][0] == 'S'; }
    FirstIndexAt(args, "where", 4);
    SetTableSlices();
  }

  /** Slicing the first line at 0 and 4. */
  lemma SetTableSlices()
    ensures UpdateAt(SetTableLine, 0, 4) == Update("set", "SET a=1 b=2", "c=3")
  {
    var args := SetTableLine;
    assert args[1..4] == ["SET", "a=1", "b=2"] && args[5..] == ["c=3"];
    SetTableJoins();
  }

  /** The clause texts of the first line. */
  lemma SetTableJoins()
    ensures Join(["SET", "a=1", "b=2"]) == "SET a=1 b=2" && Join(["c=3"]) == "c=3"
    ensures Join(["a=1", "b=2"]) == "a=1 b=2"
  {
    assert Join(["b=2"]) == "b=2";
    assert Join(["a=1", "b=2"]) == "a=1 b=2";
  }

  /** The first line read as an update of table "set". */
  lemma SetTableCorrected()
    ensures ParseUpdate(SetTableLine) == Success(Update("set", "a=1 b=2", "c=3"))
  {
    assert Lower("SET") == "set" && Lower("where") == "where";
    assert Lower("a=1")[0] == 'a' && Lower("b=2")[0] == 'b';
    assert UpdateLineReadable(["a=1", "b=2"], "where", ["c=3"]);
    SetTableJoins();
    UpdateRoundTrip("set", "SET", ["a=1", "b=2"], "where", ["c=3"]);
    assert UpdateLine("set", "SET", ["a=1", "b=2"], "where", ["c=3"]) == SetTableLine;
  }

  /** The exact lookups find "set" at 1 and the table name "where" at 0. */
  lemma WhereTableAsWritten()
    ensures ParseUpdateAsWritten(WhereTableLine) == Success(Update("where", "", "set a=1 where b=2 x"))
  {
    var args := WhereTableLine;
    assert Lower("set") == "set" && Lower("where") == "where";
    assert LowerAll(args)[1] == "set" && LowerAll(args)[0] == "where";
    assert UpdateGuard(args);
    FirstIndexAt(args, "set", 1);
    FirstIndexAt(args, "where", 0);
    WhereTableSlices();
  }

  /** Slicing the second line at 1 and 0. */
  lemma WhereTableSlices()
    ensures UpdateAt(WhereTableLine, 1, 0) == Update("where", "", "set a=1 where b=2 x")
  {
    var args := WhereTableLine;
    assert args[1..] == ["set", "a=1", "where", "b=2", "x"];
    assert Slice(args, 2, 0) == [];
    WhereTableJoins();
  }

  /** The clause texts of the second line. */
  lemma WhereTableJoins()
    ensures Join(["set", "a=1", "where", "b=2", "x"]) == "set a=1 where b=2 x" && Join([]) == ""
    ensures Join(["a=1"]) == "a=1" && Join(["b=2", "x"]) == "b=2 x"
  {
    WhereTableTailJoins();
    assert ["set", "a=1", "where", "b=2", "x"][1..] == ["a=1", "where", "b=2", "x"];
  }

  /** The last words of the second line, joined. */
  lemma WhereTableTailJoins()
    ensures Join(["a=1", "where", "b=2", "x"]) == "a=1 where b=2 x"
    ensures Join(["a=1"]) == "a=1" && Join(["b=2", "x"]) == "b=2 x"
  {
    assert Join(["x"]) == "x";
    assert Join(["b=2", "x"]) == "b=2 x";
    assert Join(["where", "b=2", "x"]) == "where b=2 x";
  }

  /** The second line read as an update of table "where". */
  lemma WhereTableCorrected()
    ensures ParseUpdate(WhereTableLine) == Success(Update("where", "a=1", "b=2 x"))
  {
    assert Lower("set") == "set" && Lower("where") == "where";
    assert Lower("a=1")[0] == 'a';
    assert UpdateLineReadable(["a=1"], "where", ["b=2", "x"]);
    WhereTableJoins();
    UpdateRoundTrip("where", "set", ["a=1"], "where", ["b=2", "x"]);
    assert UpdateLine("where", "set", ["a=1"], "where", ["b=2", "x"]) == WhereTableLine;
  }

  /** An update line whose assignment contains the word "Where". */
  const CapitalWhereLine: seq<string> := ["t", "set", "a", "Where", "b", "where", "c"]

  /**
   * The exact "where" is preferred to other spellings, as written and in
   * the corrected parse alike, so an assignment word "Where" stays in the
   * SET text.
   */
  lemma CapitalWhereKept()
    ensures ParseUpdateAsWritten(CapitalWhereLine) == Success(Update("t", "a Where b", "c"))
    ensures ParseUpdate(CapitalWhereLine) == Success(Update("t", "a Where b", "c"))
  {
    CapitalWhereAsWritten();
    CapitalWhereCorrected();
  }

  /** The line is the update line of table "t" with assignment words a, Where, b. */
  lemma CapitalWhereShape()
    ensures UpdateLine("t", "set", ["a", "Where", "b"], "where", ["c"]) == CapitalWhereLine
  {
  }

  /** As written: the exact "where" at 5 ends the SET text. */
  lemma CapitalWhereAsWritten()
    ensures ParseUpdateAsWritten(CapitalWhereLine) == Success(Update("t", "a Where b", "c"))
  {
    CapitalWhereShape();
    CapitalWhereJoins();
    UpdateAsWrittenRoundTrip("t", ["a", "Where", "b"], ["c"]);
  }

  /** Corrected: WhereIndex also prefers the exact "where" at 5. */
  lemma CapitalWhereCorrected()
    ensures ParseUpdate(CapitalWhereLine) == Success(Update("t", "a Where b", "c"))
  {
    CapitalWhereShape();
    CapitalWhereJoins();
    assert Lower("set") == "set" && Lower("where") == "where";
    UpdateRoundTrip("t", "set", ["a", "Where", "b"], "where", ["c"]);
  }

  /** The clause texts of the line with "Where" in its assignment. */
  lemma CapitalWhereJoins()
    ensures Join(["a", "Where", "b"]) == "a Where b" && Join(["c"]) == "c"
  {
    assert Join(["b"]) == "b";
    assert Join(["Where", "b"]) == "Where b";
  }
}
