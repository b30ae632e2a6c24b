/**
 * The process-wide select cache of `engine.py` across a series of commands.
 * Each `select` looks up `f"{table}:{str(where_clause)}"` in the cacher and
 * computes the selection only on a miss; `insert`, `update` and `delete`
 * rewrite the table's row file. The selection itself and the row files are
 * abstract: `select` is a parameter, the files a map from table name to data.
 */
module SelectCache {
  import opened Wrappers
  import opened Decorators
  import opened Text

  /**
   * The cache key: the table name, ':' and the printed form of the parsed
   * condition, which is "None" for a select without one.
   */
  function CacheKey(table: string, clause: string): (r: string)
    ensures |r| == |table| + 1 + |clause|
    ensures r[..|table|] == table && r[|table|] == ':' && r[|table| + 1..] == clause
  {
    table + ":" + clause
  }

  /** In the key of a colon-free table name the first ':' is the separator. */
  lemma SeparatorIsFirstColon(table: string, clause: string)
    requires ':' !in table
    ensures FirstIndex(CacheKey(table, clause), ':') == Some(|table|)
  {
    var key := CacheKey(table, clause);
    assert forall k :: 0 <= k < |table| ==> key[k] == table[k];
    FirstIndexAt(key, ':', |table|);
  }

  /** Keys of tables whose names hold no ':' identify the table and the condition. */
  lemma CacheKeyInjective(t1: string, c1: string, t2: string, c2: string)
    requires ':' !in t1 && ':' !in t2
    requires CacheKey(t1, c1) == CacheKey(t2, c2)
    ensures t1 == t2 && c1 == c2
  {
    var key := CacheKey(t1, c1);
    SeparatorIsFirstColon(t1, c1);
    SeparatorIsFirstColon(t2, c2);
    assert t1 == key[..|t1|] == t2;
    assert c1 == key[|t1| + 1..] == c2;
  }

  /** With a ':' in a table name, two (table, condition text) pairs share a key. */
  lemma CacheKeyCollides()
    ensures CacheKey("a:b", "c") == CacheKey("a", "b:c")
  {
  }

  /** A command as the cache sees it: a select, or a rewrite of a table's rows. */
  datatype Request<D> = Select(table: string, clause: string) | Write(table: string, data: D)

  /** The row files and the cacher's table. */
  datatype Session<D, V> = Session(files: map<string, D>, cache: map<string, V>)

  /** `load_table_data`: a table without a file reads as `empty`. */
  function Load<D>(files: map<string, D>, table: string, empty: D): D
  {
    if table in files then files[table] else empty
  }

  /**
   * How a select of `table` with `clause` leaves session `s`, as seen from
   * outside: the files are untouched, the key then maps to the printed
   * value, a hit prints the cached value and keeps the cache, a miss prints
   * the selection of the current rows and adds only that key.
   */
  ghost predicate SelectAnswer<D, V>(s: Session<D, V>, table: string, clause: string, select: (D, string) -> V, empty: D, o: (Session<D, V>, Option<V>))
  {
    var key := CacheKey(table, clause);
    && o.0.files == s.files
    && o.1.Some?
    && key in o.0.cache && o.0.cache[key] == o.1.value
    && (key in s.cache ==> o.1.value == s.cache[key] && o.0.cache == s.cache)
    && (key !in s.cache ==> o.1.value == select(Load(s.files, table, empty), clause) && o.0.cache == s.cache[key := o.1.value])
  }

  /** What a select prints, and the cache it leaves, given the current files. */
  function SelectStep<D, V>(s: Session<D, V>, table: string, clause: string, select: (D, string) -> V, empty: D): (Session<D, V>, V)
  {
    var step := CacheStep(s.cache, CacheKey(table, clause), select(Load(s.files, table, empty), clause));
    (Session(s.files, step.cache), step.result)
  }

  /**
   * One command as written: a select answers from the cache on a hit and
   * stores a fresh selection on a miss; a write changes the table's file and
   * leaves the cache as it is.
   */
  function StepAsWritten<D, V>(s: Session<D, V>, r: Request<D>, select: (D, string) -> V, empty: D): (o: (Session<D, V>, Option<V>))
    ensures r.Write? ==> o.0 == Session(s.files[r.table := r.data], s.cache) && o.1.None?
    ensures r.Select? ==> SelectAnswer(s, r.table, r.clause, select, empty, o)
  {
    match r
    case Select(t, c) =>
      var (s', v) := SelectStep(s, t, c, select, empty);
      (s', Some(v))
    case Write(t, d) => (Session(s.files[t := d], s.cache), None)
  }

  /**
   * One command with the cache cleared after every write: a select behaves
   * as in StepAsWritten, a write changes the table's file and empties the
   * cache.
   */
  function Step<D, V>(s: Session<D, V>, r: Request<D>, select: (D, string) -> V, empty: D): (o: (Session<D, V>, Option<V>))
    ensures r.Write? ==> o.0 == Session(s.files[r.table := r.data], map[]) && o.1.None?
    ensures r.Select? ==> SelectAnswer(s, r.table, r.clause, select, empty, o)
  {
    match r
    case Select(t, c) =>
      var (s', v) := SelectStep(s, t, c, select, empty);
      (s', Some(v))
    case Write(t, d) => (Session(s.files[t := d], map[]), None)
  }

  /** What each command of a series prints (None for a write), as written. */
  function RunAsWritten<D, V>(s: Session<D, V>, rs: seq<Request<D>>, select: (D, string) -> V, empty: D): (out: seq<Option<V>>)
    ensures |out| == |rs|
    ensures forall k :: 0 <= k < |rs| ==> (out[k].None? <==> rs[k].Write?)
    decreases |rs|
  {
    if |rs| == 0 then []
    else
      var (s', o) := StepAsWritten(s, rs[0], select, empty);
      [o] + RunAsWritten(s', rs[1..], select, empty)
  }

  /** What each command prints with the cache cleared after writes. */
  function Run<D, V>(s: Session<D, V>, rs: seq<Request<D>>, select: (D, string) -> V, empty: D): (out: seq<Option<V>>)
    ensures |out| == |rs|
    ensures forall k :: 0 <= k < |rs| ==> (out[k].None? <==> rs[k].Write?)
    decreases |rs|
  {
    if |rs| == 0 then []
    else
      var (s', o) := Step(s, rs[0], select, empty);
      [o] + Run(s', rs[1..], select, empty)
  }

  /** The reference: every select computed afresh from the current files. */
  function RunUncached<D, V>(files: map<string, D>, rs: seq<Request<D>>, select: (D, string) -> V, empty: D): (out: seq<Option<V>>)
    ensures |out| == |rs|
    ensures forall k :: 0 <= k < |rs| ==> (out[k].None? <==> rs[k].Write?)
    decreases |rs|
  {
    if |rs| == 0 then []
    else match rs[0]
      case Select(t, c) => [Some(select(Load(files, t, empty), c))] + RunUncached(files, rs[1..], select, empty)
      case Write(t, d) => [None] + RunUncached(files[t := d], rs[1..], select, empty)
  }

  /** Every cached entry of a colon-free table is the selection of its current rows. */
  ghost predicate Coherent<D, V>(s: Session<D, V>, select: (D, string) -> V, empty: D)
  {
    forall t, c :: ':' !in t && CacheKey(t, c) in s.cache ==>
      s.cache[CacheKey(t, c)] == select(Load(s.files, t, empty), c)
  }

  predicate ColonFreeSelects<D>(rs: seq<Request<D>>)
  {
    forall k :: 0 <= k < |rs| && rs[k].Select? ==> ':' !in rs[k].table
  }

  /** A select of a colon-free table returns the fresh selection and keeps the cache coherent. */
  lemma SelectStepCoherent<D, V>(s: Session<D, V>, table: string, clause: string, select: (D, string) -> V, empty: D)
    requires Coherent(s, select, empty) && ':' !in table
    ensures SelectStep(s, table, clause, select, empty).1 == select(Load(s.files, table, empty), clause)
    ensures Coherent(SelectStep(s, table, clause, select, empty).0, select, empty)
  {
    var s' := SelectStep(s, table, clause, select, empty).0;
    forall t, c | ':' !in t && CacheKey(t, c) in s'.cache
      ensures s'.cache[CacheKey(t, c)] == select(Load(s'.files, t, empty), c)
    {
      if CacheKey(t, c) == CacheKey(table, clause) {
        CacheKeyInjective(t, c, table, clause);
      }
    }
  }

  /**
   * With the cache cleared after every write, caching is invisible: each
   * select prints what computing it afresh would print.
   */
  lemma {:induction false} CacheIsTransparent<D, V>(s: Session<D, V>, rs: seq<Request<D>>, select: (D, string) -> V, empty: D)
    requires Coherent(s, select, empty) && ColonFreeSelects(rs)
    ensures Run(s, rs, select, empty) == RunUncached(s.files, rs, select, empty)
    decreases |rs|
  {
    if |rs| > 0 {
      assert ColonFreeSelects(rs[1..]) by {
        forall k | 0 <= k < |rs[1..]| && rs[1..][k].Select? ensures ':' !in rs[1..][k].table {
          assert rs[1..][k] == rs[k + 1];
        }
      }
      match rs[0]
      case Select(t, c) =>
        SelectStepCoherent(s, t, c, select, empty);
        CacheIsTransparent(SelectStep(s, t, c, select, empty).0, rs[1..], select, empty);
      case Write(t, d) =>
        CacheIsTransparent(Session(s.files[t := d], map[]), rs[1..], select, empty);
    }
  }

  /** A fresh process starts with an empty cache, which is coherent. */
  lemma FreshSessionTransparent<D, V>(files: map<string, D>, rs: seq<Request<D>>, select: (D, string) -> V, empty: D)
    requires ColonFreeSelects(rs)
    ensures Run(Session(files, map[]), rs, select, empty) == RunUncached(files, rs, select, empty)
  {
    CacheIsTransparent(Session(files, map[]), rs, select, empty);
  }

  /**
   * As written, a select repeated after its table was rewritten prints the
   * first result, even when the new rows select differently.
   */
  lemma StaleSelectAsWritten<D, V>(files: map<string, D>, table: string, clause: string, data: D, select: (D, string) -> V, empty: D)
    requires select(data, clause) != select(Load(files, table, empty), clause)
    ensures var rs := [Select(table, clause), Write(table, data), Select(table, clause)];
      && RunAsWritten(Session(files, map[]), rs, select, empty)[2] == Some(select(Load(files, table, empty), clause))
      && RunUncached(files, rs, select, empty)[2] == Some(select(data, clause))
      && RunAsWritten(Session(files, map[]), rs, select, empty) != RunUncached(files, rs, select, empty)
  {
    var rs := [Select(table, clause), Write(table, data), Select(table, clause)];
    var first := select(Load(files, table, empty), clause);
    var key := CacheKey(table, clause);
    var s0: Session<D, V> := Session(files, map[]);
    var s1 := Session(files, map[key := first]);
    var s2 := Session(files[table := data], map[key := first]);
    assert StepAsWritten(s0, rs[0], select, empty) == (s1, Some(first));
    assert StepAsWritten(s1, rs[1], select, empty) == (s2, None);
    assert StepAsWritten(s2, rs[2], select, empty) == (s2, Some(first));
    assert rs[1..] == [Write(table, data), Select(table, clause)];
    assert rs[1..][1..] == [Select(table, clause)];
    assert RunAsWritten(s2, rs[1..][1..], select, empty) == [Some(first)];
    assert RunAsWritten(s1, rs[1..], select, empty) == [None, Some(first)];
    assert RunAsWritten(s0, rs, select, empty) == [Some(first), None, Some(first)];
    var files' := files[table := data];
    assert Load(files', table, empty) == data;
    assert RunUncached(files', rs[1..][1..], select, empty) == [Some(select(data, clause))];
    assert RunUncached(files, rs[1..], select, empty) == [None, Some(select(data, clause))];
    assert RunUncached(files, rs, select, empty) == [Some(first), None, Some(select(data, clause))];
  }
}
