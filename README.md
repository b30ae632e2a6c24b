# primitive_db core, modelled in Dafny

`primitive_db` is a small flat-file table store driven by a command loop.
This project models the parts of it that hold state or make decisions:

- **Schema store** (`core.py`): the metadata dictionary from table name to its
  column specs. `create_table` refuses a duplicate name, checks each
  `name:type` spec and stores `"ID:int"` followed by the specs. `drop_table`
  refuses an absent name and otherwise removes it. `list_tables` gives the names
  in insertion order. Modelled as the class `Schema.SchemaStore`, with the key
  order as a `seq` beside a `map`.
- **Select cache and confirmation rule** (`decorators.py`): the memo table made
  by `create_cacher` is the class `Decorators.Cacher`, with the pure step
  `Decorators.CacheStep` beside it. The accept rule of `confirm_action` is
  `Decorators.Accepts`.
- **Command loop decisions** (`engine.py`): the argument checks and slicing of
  each command branch (`Commands`), the row-ID assignment of `insert`
  (`RowIds`), and the select cache as seen across a series of commands
  (`SelectCache`).

Files: `Wrappers.dfy` (Option, Result), `Text.dfy` (`str.lower`,
`' '.join`, `list.index`), `Schema.dfy`, `Decorators.dfy`, `Commands.dfy`,
`RowIds.dfy`, `SelectCache.dfy`.

Where the code departs from what a record store is usually expected to do,
the model follows the code:

- Row IDs can be reused. The next ID is the largest remaining ID plus one, so
  after the row with the largest ID is deleted, its ID is handed out again
  (`RowIds.IdReusedAfterDeletingLast`).
- The select cache is never invalidated. See Findings.
- `drop_table` in `core.py` removes only the metadata entry. Neither
  `drop_table` nor the `drop_table` branch of `engine.py` removes the row file.
- Column names are not checked. Empty and repeated names are accepted
  (`Schema.ColumnNamesUnchecked`).
- `drop_table` in `core.py` carries no `confirm_action` decorator, and
  `engine.py` applies none. The accept rule is modelled on its own.

`str.lower()` is modelled as lower-casing ASCII letters and the basic
Cyrillic capitals (U+0400..U+042F). Every literal the code compares a
lower-cased string against (`into`, `values`, `from`, `where`, `set`, the verbs,
`y`, `yes`, `д`, `да`) is made of such letters and '_'. '_' is left unchanged
by both lowerings, and no other character lower-cases to one of these
characters under Python's rules. So for every comparison the code makes,
this lowering and Python's agree.

## Model

| member | source | states |
|---|---|---|
| `Text.Lower` | src/primitive_db/engine.py:77-78 | lower-casing keeps the length and maps each character on its own |
| `Text.FirstIndex` | src/primitive_db/engine.py:173-178 | `list.index`: the position holds the element and no earlier position does; none exactly when the element is absent |
| `Text.Join` | src/primitive_db/engine.py:87 | joining no words gives the empty text; otherwise the text is as long as all the words plus one space between each pair, and starts with the first word |
| `Text.JoinLaidOut` | src/primitive_db/engine.py:87 | every word, spaces inside it included, sits in the joined text at the position after all earlier words and one space each, with a single space before every word but the first |
| `Text.JoinSnoc` | src/primitive_db/engine.py:87 | joining one more word onto at least one word appends a space and that word |
| `Text.LowerCharOnto` | src/primitive_db/decorators.py:41 | a character lower-cases to a given lower-case ASCII or basic Cyrillic letter exactly when it is that letter or its capital |
| `Text.LowerEqualsLiteral` | src/primitive_db/decorators.py:41 | a string lower-cases to a literal of such letters exactly when it has the literal's length and each character is the letter or its capital |
| `Text.JoinSplitRoundTrip` | src/primitive_db/engine.py:87 | joining argument words that contain no space with single spaces loses nothing: splitting at spaces gives the words back |
| `Schema.SplitColumn` | src/primitive_db/core.py:23-26 | a spec is split only when it contains ':'; the name has no ':' and name + ":" + type is the spec again |
| `Schema.CheckColumn` | src/primitive_db/core.py:22-30 | one spec passes exactly when it is well-formed, and is then stored exactly as written; a spec without ':' fails as malformed; one with ':' but an unsupported type after the first ':' fails naming that type |
| `Schema.CheckColumns` | src/primitive_db/core.py:22-30 | on success the stored entries are the specs themselves; on failure the error is that of a spec that is not well-formed |
| `Schema.BuildSchema` | src/primitive_db/core.py:20-30 | on success the list is "ID:int" followed by the given specs; on failure the error is that of a spec that is not well-formed |
| `Schema.CheckColumnsAllWellFormed` | src/primitive_db/core.py:22-30 | the specs pass exactly when every one is well-formed, and the stored entries are then the specs themselves |
| `Schema.CheckColumnsFirstError` | src/primitive_db/core.py:22-28 | the error reported is that of the first spec that is not well-formed |
| `Schema.BuildSchemaShape` | src/primitive_db/core.py:20-33 | on success the stored list is "ID:int" followed by the given specs in order, of length len(columns) + 1; on failure it names the first bad spec |
| `Schema.SplitAtFirstColon` | src/primitive_db/core.py:26-28 | "a:b:int" has type "b:int" and is refused as an unsupported type |
| `Schema.ColumnNamesUnchecked` | src/primitive_db/core.py:26-30 | empty and repeated column names are accepted and stored as given |
| `Schema.Without` | src/primitive_db/core.py:51 | removing a name from the key order leaves exactly the other names |
| `Schema.WithoutKeepsOrder` | src/primitive_db/core.py:51 | removing one name from a list without repeats closes the gap: the remaining names keep their relative order |
| `Schema.SchemaStore.constructor` | src/primitive_db/utils.py:13-14 | a store without a metadata file is empty |
| `Schema.SchemaStore.CreateTable` | src/primitive_db/core.py:3-34 | a duplicate name fails and nothing changes; otherwise the result is the checked column list; on success only the new key is added and its name goes last in the order; on any failure every entry is unchanged |
| `Schema.SchemaStore.DropTable` | src/primitive_db/core.py:37-52 | an absent name fails and nothing changes; otherwise exactly that key is removed and the other names keep their order |
| `Schema.SchemaStore.ListTables` | src/primitive_db/core.py:55-65 | the table names in insertion order, each once, exactly the keys of the store |
| `Decorators.CacheStep` | src/primitive_db/decorators.py:71-76 | the value is computed exactly when the key is absent; afterwards the key maps to the returned value; a miss returns the computed value and adds only that key; a hit returns the stored value and changes nothing |
| `Decorators.CallKeepsOtherKeys` | src/primitive_db/decorators.py:71-76 | a call adds or keeps only the entry for its key; every other entry is unchanged |
| `Decorators.StoredValueSticks` | src/primitive_db/decorators.py:71-72 | once a key is stored, every later call with it returns the stored value, whatever it would compute, and the entry survives |
| `Decorators.FirstValueWins` | src/primitive_db/decorators.py:71-76 | from a table without the key, every call with the key returns the value computed by the first such call |
| `Decorators.Cacher.constructor` | src/primitive_db/decorators.py:67 | a new cacher starts empty |
| `Decorators.Cacher.CacheResult` | src/primitive_db/decorators.py:69-76 | a hit returns the stored value without computing; a miss computes once, stores the value under the key and returns it; no other key changes |
| `Decorators.Cacher.Clear` | src/primitive_db/decorators.py:78-83 | clear empties the table, so the next call for any key computes |
| `Decorators.PromptTable` | src/primitive_db/decorators.py:34 | the prompt names the second positional argument when there is one, else the fixed placeholder |
| `Decorators.ConfirmAction` | src/primitive_db/decorators.py:41-45 | the wrapped action runs, and its result is returned, exactly when the answer is accepted; otherwise nothing runs and None is returned |
| `Decorators.AcceptsExactly` | src/primitive_db/decorators.py:41 | the lower-cased answer is one of y, yes, д, да exactly when the answer is one of their 16 spellings in any mix of upper and lower case |
| `Decorators.Accepts` | src/primitive_db/decorators.py:41 | an answer is accepted exactly when it is y, yes, д or да in any mix of upper and lower case |
| `Commands.ParseInsert` | src/primitive_db/engine.py:75-87 | accepted exactly when there are at least 4 words, the first lower-cases to "into" and the third to "values"; the table is the second word |
| `Commands.InsertRoundTrip` | src/primitive_db/engine.py:86-87 | an insert line gives back its table and its value words joined by spaces |
| `Commands.ParseSelect` | src/primitive_db/engine.py:119-135 | accepted exactly when there are at least 2 words and the first lower-cases to "from"; a condition is taken exactly when a third word lower-cases to "where" |
| `Commands.SelectIgnoresExtra` | src/primitive_db/engine.py:125-129 | without "where" in third place the words after the table are ignored and there is no condition |
| `Commands.SelectRoundTrip` | src/primitive_db/engine.py:125-130 | a select line gives back its table and its condition words |
| `Commands.UpdateGuard` | src/primitive_db/engine.py:159-163 | holds exactly when there are at least 6 words, the second lower-cases to "set" and some word lower-cases to "where" |
| `Commands.ParseUpdateAsWritten` | src/primitive_db/engine.py:159-181 | as written: success only past the guard, the table being the first word; a refused guard is a usage error; past the guard the lookup fails exactly when neither "set" nor "SET", or neither "where" nor "WHERE", is among the words |
| `Commands.UpdateAsWrittenRoundTrip` | src/primitive_db/engine.py:170-181 | as written: with keywords spelled "set" and "where", a table not called exactly either, at least six words, and provided no SET word is exactly "where", the SET text is the words strictly between the keywords and the WHERE text the words after |
| `Commands.MixedCaseUpdateRefused` | src/primitive_db/engine.py:159-178 | the line `users Set age=31 Where name = Ana` passes the guard, but the exact-spelling lookup fails |
| `Commands.WhereIndex` | src/primitive_db/engine.py:174-178 | corrected: among the words after the SET keyword, the first exact "where" if there is one, else the first exact "WHERE", else the first word lowering to "where"; none exactly when no later word lowers to "where" |
| `Commands.ParseUpdate` | src/primitive_db/engine.py:159-181 | corrected: the SET keyword is the second word and the WHERE keyword the one `WhereIndex` finds, in the source's order of spellings; a line is parsed exactly when the guard passes and a later word lowers to "where", otherwise it gets the usage error; the table is the first word |
| `Commands.CapitalWhereKept` | src/primitive_db/engine.py:174-181 | in `update t set a Where b where c`, the exact "where" is the keyword, so "Where" stays in the SET text, as written and corrected alike |
| `Commands.UpdateRoundTrip` | src/primitive_db/engine.py:170-181 | corrected: with keywords in any case and any table name, including "set" and "where", an update line gives back the table, the SET words and the WHERE words, provided the line has at least six words, no SET word is exactly "where", a WHERE keyword not spelled "where" has no "where" after it and no "WHERE" before it, and one spelled neither "where" nor "WHERE" has no "WHERE" after it and no SET word lowering to "where" |
| `Commands.MisSlicedUpdate` | src/primitive_db/engine.py:173-181 | as written, `t SET a set b where c` gives the SET text "b"; the case-insensitive lookup gives "a set b" |
| `Commands.KeywordTableUpdate` | src/primitive_db/engine.py:173-181 | as written, a table called "set" puts the keyword "SET" into the SET text, and a table called "where" leaves the SET text empty and puts the assignment into the WHERE text; the corrected parse gives the assignment and condition words of both lines |
| `Commands.MixedCaseUpdateParsed` | src/primitive_db/engine.py:159-181 | corrected: the mixed-case line is an update of `users` with SET text "age=31" and WHERE text "name = Ana" |
| `Commands.ParseDelete` | src/primitive_db/engine.py:209-221 | accepted exactly when there are at least 3 words, the first lower-cases to "from" and the third to "where"; the table is the second word |
| `Commands.DeleteRoundTrip` | src/primitive_db/engine.py:220-221 | a delete line gives back its table and its condition words |
| `Commands.ParseOneTable` | src/primitive_db/engine.py:240-244 | `info` and `drop_table` accept exactly one argument, which is the table |
| `Commands.ParseCreateTable` | src/primitive_db/engine.py:257-265 | accepted exactly when there are at least 2 words: the table and at least one column spec |
| `Commands.ParseCommand` | src/primitive_db/engine.py:59-300 | corrected: `update` goes to the corrected `ParseUpdate`; every other verb goes to its branch's check: insert, select, delete and create_table to their parsers, info and drop_table take exactly one argument, exit, help and list_tables always succeed; only the argument-checking verbs can refuse a line, always with their usage error; an unknown verb is reported lower-cased |
| `RowIds.IdNumber` | src/primitive_db/engine.py:102 | the ID `max` compares: 0 when the record has no ID, the integer itself, 1 or 0 for a bool, and no number exactly when the ID is a string |
| `RowIds.MaxIdIsMaximum` | src/primitive_db/engine.py:102 | the computed maximum bounds every row's ID and is carried by some row |
| `RowIds.NextId` | src/primitive_db/engine.py:100-105 | an empty table gives ID 1; otherwise the new ID is one more than some existing ID and larger than, hence distinct from, all of them; it fails exactly when some ID is a string |
| `RowIds.InsertRow` | src/primitive_db/engine.py:100-107 | fails exactly when some ID is a string; otherwise the rows grow by one, earlier rows are unchanged, and the new last row is the record with only its ID set, to an ID larger than every earlier one |
| `RowIds.NextIdAfterInsert` | src/primitive_db/engine.py:100-107 | after an insert that assigned `id`, the next insert assigns `id + 1` |
| `RowIds.SequentialIds` | src/primitive_db/engine.py:100-107 | inserts into an empty table assign 1, 2, 3, ... in order; each record keeps its other columns |
| `RowIds.IdReusedAfterDeletingLast` | src/primitive_db/engine.py:101-103 | with rows 1 and 2 the next ID is 3; with only row 1 left it is 2 again |
| `RowIds.AppendWithNewId` | src/primitive_db/engine.py:100-107 | the loop finds the ID `NextId` gives; the row list grows by one, earlier rows are unchanged and the new record, with its ID set, is last |
| `SelectCache.CacheKey` | src/primitive_db/engine.py:142 | the key is the table name, then ':', then the condition text, and nothing else |
| `SelectCache.CacheKeyInjective` | src/primitive_db/engine.py:142 | for table names without ':' the cache key identifies the table and the condition |
| `SelectCache.CacheKeyCollides` | src/primitive_db/engine.py:142 | with a ':' in a table name, two (table, condition text) pairs share a key |
| `SelectCache.StepAsWritten` | src/primitive_db/engine.py:142-148 | as written: a select answers from the cache on a hit and stores the fresh selection on a miss, leaving the files alone; a write replaces the table's rows and leaves the cache as it is |
| `SelectCache.Step` | src/primitive_db/engine.py:142-148 | corrected: a select as in `StepAsWritten`; a write replaces the table's rows and empties the cache |
| `SelectCache.RunAsWritten` | src/primitive_db/engine.py:142-148 | as written: one output per command, absent exactly for the writes |
| `SelectCache.Run` | src/primitive_db/engine.py:142-148 | corrected: one output per command, absent exactly for the writes |
| `SelectCache.RunUncached` | src/primitive_db/engine.py:139-145 | the reference, in which every select is computed from the current rows: one output per command, absent exactly for the writes |
| `SelectCache.SelectStepCoherent` | src/primitive_db/engine.py:142-148 | for table names without ':', from a coherent cache, a select returns the fresh selection and leaves the cache coherent |
| `SelectCache.CacheIsTransparent` | src/primitive_db/engine.py:142-148 | corrected: for table names without ':', with the cache cleared after every write, each select returns what computing it afresh returns |
| `SelectCache.FreshSessionTransparent` | src/primitive_db/engine.py:12 | corrected: for table names without ':', from the empty cache of a new process, caching changes no result |
| `SelectCache.StaleSelectAsWritten` | src/primitive_db/engine.py:142-148 | as written: a select repeated after its table was rewritten returns the first result, not the selection of the new rows |

## Findings

| source | as written | input that shows it | evidently intended | confidence | as-written member | corrected member |
|---|---|---|---|---|---|---|
| src/primitive_db/engine.py:142-148 | `select_cache` is keyed by table and condition and is never cleared; the `insert`, `update` and `delete` branches (lines 107-108, 193-198, 231-232) rewrite the rows without calling `select_cache.clear` | `select from users`, then `insert into users values ...`, then `select from users` again: the second select prints the rows from before the insert | a select reflects the current rows, so the cache changes no result | not executed; high | `SelectCache.StaleSelectAsWritten` | `SelectCache.CacheIsTransparent` |
| src/primitive_db/engine.py:159-178 | the guard lower-cases the words, but the positions are looked up only under the exact spellings `set`/`SET` and `where`/`WHERE`; `list.index` then raises and the outer handler prints a generic error | `update users Set age=31 Where name = Ana` | any spelling the guard accepts is parsed like the lower-case one | not executed; medium | `Commands.MixedCaseUpdateRefused` | `Commands.ParseUpdate` |
| src/primitive_db/engine.py:173-181 | the exact spelling `set` is looked up before `SET`, so when the keyword is written `SET` and a later word is `set`, the SET text starts after that later word | `update t SET a set b where c`: the SET text is "b" instead of "a set b" | the SET text is the words between the keyword in second place and the WHERE keyword, found among the later words in the source's order of spellings: exact "where", then "WHERE", then any spelling | not executed; medium | `Commands.MisSlicedUpdate` | `Commands.UpdateRoundTrip` |
| src/primitive_db/engine.py:173-181 | `args.index` searches from the first word, which is the table name, so a table called `set` or `where` (accepted by `create_table`) is taken for a keyword | `update set SET a=1 b=2 where c=3`: the SET text is "SET a=1 b=2" instead of "a=1 b=2"; `update where set a=1 where b=2 x`: the SET text is empty and the WHERE text "set a=1 where b=2 x" | the keywords are searched for after the table name | not executed; medium | `Commands.KeywordTableUpdate` | `Commands.UpdateRoundTrip` |

In the model, `Commands.ParseCommand` dispatches `update` to the corrected
`Commands.ParseUpdate`. `SelectCache.Step` clears the cache after every write.
The as-written forms are `Commands.ParseUpdateAsWritten` and
`SelectCache.StepAsWritten`.

## Left out

- Clause parsing: `parse_values`, `parse_where_condition` and `parse_set_clause` are imported from `parser.py`, and `parser.py` is not part of this model. The command model stops at the clause text.
- Row operations: `insert`, `select`, `update`, `delete`, `get_table_info`, `format_table_output` and `get_table_schema` are imported from `core.py`, but they are not defined in the `core.py` modelled here. The select is a parameter of `SelectCache`, and a write supplies the new rows directly. The select is taken to be a function of the table's rows and of the printed condition `str(where_clause)` that the cache key uses; for conditions that are dicts of int, str and bool literals the printed form determines the parsed condition.
- File I/O in `utils.py` (JSON, `open`, `os.makedirs`): the row files are a map in `SelectCache`, where a missing file reads as the supplied empty value. An empty `SchemaStore` stands for a missing metadata file.
- Console plumbing in `engine.py`: `prompt.string`, `shlex.split` tokenisation, `print`, `show_help`, and the `while True` loop with its exception handlers. A command is its lower-cased verb plus its argument words.
- `log_time` and `handle_db_errors`: wall-clock timing with floating-point durations, and printing driven by exceptions.
- `constants.py`: message strings and command names only.
- `Text.Lower`: does not model full Unicode case mapping. This changes no comparison the code makes, but an unknown verb outside ASCII and Cyrillic may be shown differently.
- `RowIds.AppendWithNewId`: returns the extended row list instead of appending in place, so sharing of `table_data` is not captured.
- `RowIds.IdNumber`: row values are integers, strings and booleans. Floats, nulls and nested JSON values in a row file are not modelled.
- `Decorators.Cacher.CacheResult`: `value_func` is given as its value; a ghost flag records whether it would have been called. A `value_func` that raises (the select raising `ValueError`, engine.py lines 144-156) leaves the key unstored and propagates; in the model the value always exists.
- `SelectCache.CacheIsTransparent`: proved only for table names without ':'. For other names the key `table:condition` is ambiguous (`SelectCache.CacheKeyCollides`), so a stored entry may belong to another table and condition; the same restriction holds for `SelectCache.SelectStepCoherent` and `SelectCache.FreshSessionTransparent`.
- `Decorators.ConfirmAction`: the prompt text, the printed cancellation message and the blocking read of the answer are left out; the answer is a parameter.
