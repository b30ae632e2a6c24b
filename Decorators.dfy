/**
 * The two pieces of `decorators.py` with logic of their own: the memo table
 * built by `create_cacher` (a dict closed over by `cache_result`, emptied by
 * its `clear` hook) and the accept rule of `confirm_action`.
 */
module Decorators {
  import opened Wrappers
  import opened Text

  /**
   * What one `cache_result(key, value_func)` call does to the table:
   * `value` is what `value_func()` would return, and `computed` records
   * whether it was called.
   */
  datatype CacheOutcome<V> = CacheOutcome(result: V, cache: map<string, V>, computed: bool)

  function CacheStep<V>(cache: map<string, V>, key: string, value: V): (r: CacheOutcome<V>)
    ensures r.computed <==> key !in cache
    ensures key in r.cache && r.cache[key] == r.result
    ensures r.computed ==> r.result == value && r.cache.Keys == cache.Keys + {key}
    ensures !r.computed ==> r.result == cache[key] && r.cache == cache
  {
    if key in cache then CacheOutcome(cache[key], cache, false)
    else CacheOutcome(value, cache[key := value], true)
  }

  /** The results and final table of a series of calls with no `clear` between them. */
  datatype CacheRun<V> = CacheRun(results: seq<V>, cache: map<string, V>)

  function RunCalls<V>(cache: map<string, V>, calls: seq<(string, V)>): (r: CacheRun<V>)
    ensures |r.results| == |calls|
    decreases |calls|
  {
    if |calls| == 0 then CacheRun([], cache)
    else
      var step := CacheStep(cache, calls[0].0, calls[0].1);
      var rest := RunCalls(step.cache, calls[1..]);
      CacheRun([step.result] + rest.results, rest.cache)
  }

  /**
   * A call adds or keeps only the entry for its own key: every other key is
   * present afterwards exactly when it was before, with the same value.
   */
  lemma CallKeepsOtherKeys<V>(cache: map<string, V>, key: string, value: V, other: string)
    requires other != key
    ensures var c := CacheStep(cache, key, value).cache;
      (other in c <==> other in cache) && (other in cache ==> c[other] == cache[other])
    ensures key in CacheStep(cache, key, value).cache
  {
  }

  /**
   * Once a key is stored, every later call with it, whatever value it
   * supplies, returns the stored value and computes nothing, and the entry
   * survives the whole series.
   */
  lemma {:induction false} StoredValueSticks<V>(cache: map<string, V>, calls: seq<(string, V)>, key: string)
    requires key in cache
    ensures key in RunCalls(cache, calls).cache && RunCalls(cache, calls).cache[key] == cache[key]
    ensures forall i :: 0 <= i < |calls| && calls[i].0 == key ==> RunCalls(cache, calls).results[i] == cache[key]
    decreases |calls|
  {
    if |calls| > 0 {
      var step := CacheStep(cache, calls[0].0, calls[0].1);
      assert key in step.cache && step.cache[key] == cache[key];
      StoredValueSticks(step.cache, calls[1..], key);
      var r := RunCalls(cache, calls);
      forall i | 0 <= i < |calls| && calls[i].0 == key ensures r.results[i] == cache[key] {
        if i > 0 {
          assert calls[i] == calls[1..][i - 1];
        }
      }
    }
  }

  /**
   * First value wins: starting from a table without `key`, every call with
   * `key` returns the value supplied by the first such call.
   */
  lemma {:induction false} FirstValueWins<V>(cache: map<string, V>, calls: seq<(string, V)>, key: string, first: nat)
    requires key !in cache
    requires first < |calls| && calls[first].0 == key
    requires forall i :: 0 <= i < first ==> calls[i].0 != key
    ensures forall i :: first <= i < |calls| && calls[i].0 == key ==> RunCalls(cache, calls).results[i] == calls[first].1
    decreases |calls|
  {
    var step := CacheStep(cache, calls[0].0, calls[0].1);
    var r := RunCalls(cache, calls);
    if first == 0 {
      assert step.cache[key] == calls[0].1;
      StoredValueSticks(step.cache, calls[1..], key);
      forall i | 0 <= i < |calls| && calls[i].0 == key ensures r.results[i] == calls[0].1 {
        if i > 0 {
          assert calls[i] == calls[1..][i - 1];
        }
      }
    } else {
      assert key !in step.cache;
      FirstValueWins(step.cache, calls[1..], key, first - 1);
      forall i | first <= i < |calls| && calls[i].0 == key ensures r.results[i] == calls[first].1 {
        assert calls[i] == calls[1..][i - 1];
      }
    }
  }

  /** The object returned by `create_cacher`: `cache_result` with its `clear` hook. */
  class Cacher<V> {
    var cache: map<string, V>

    constructor ()
      ensures cache == map[]
    {
      cache := map[];
    }

    /**
     * `cache_result(key, value_func)`: on a hit returns the stored value and
     * leaves `value_func` uncalled; on a miss returns `value`, the result of
     * calling it once, and stores it under `key`.
     */
    method CacheResult(key: string, value: V) returns (r: V, ghost computed: bool)
      modifies this
      ensures computed == (key !in old(cache))
      ensures r == (if computed then value else old(cache)[key])
      ensures cache == old(cache)[key := r]
      ensures CacheOutcome(r, cache, computed) == CacheStep(old(cache), key, value)
    {
      if key in cache {
        return cache[key], false;
      }
      r := value;
      cache := cache[key := r];
      computed := true;
    }

    /** `clear_cache`: empties the table, so the next call for any key computes. */
    method Clear()
      modifies this
      ensures cache == map[]
      ensures forall key, value :: CacheStep(cache, key, value).computed
    {
      cache := map[];
    }
  }

  /** The answers `confirm_action` accepts once lower-cased: y, yes, д, да. */
  const AcceptAnswers: set<string> := {"y", "yes", "\U{0434}", "\U{0434}\U{0430}"}

  /** The placeholder shown when the wrapped call has no second positional argument. */
  const UnknownTable: string :=
    "\U{043D}\U{0435}\U{0438}\U{0437}\U{0432}\U{0435}\U{0441}\U{0442}\U{043D}\U{0430}\U{044F} "
    + "\U{0442}\U{0430}\U{0431}\U{043B}\U{0438}\U{0446}\U{0430}"

  /** The test of `confirm_action`: the lower-cased answer is one of the accepted answers. */
  predicate Accepts(answer: string)
    ensures Accepts(answer) <==> answer in AcceptSpellings
  {
    AcceptsExactly(answer);
    Lower(answer) in AcceptAnswers
  }

  /** The table named in the prompt: the second positional argument, when there is one. */
  function PromptTable(args: seq<string>): (r: string)
    ensures |args| > 1 ==> r == args[1]
    ensures |args| <= 1 ==> r == UnknownTable
  {
    if |args| > 1 then args[1] else UnknownTable
  }

  /**
   * The wrapper of `confirm_action`: `action` is what the wrapped function
   * would return; a declined answer returns None and does not run it.
   */
  function ConfirmAction<R>(answer: string, action: R): (r: Option<R>)
    ensures r.Some? <==> Accepts(answer)
    ensures r.Some? ==> r.value == action
  {
    if Accepts(answer) then Some(action) else None
  }

  /** Every spelling of the accepted answers, in any mix of cases. */
  const AcceptSpellings: set<string> := {
    "y", "Y",
    "yes", "yeS", "yEs", "yES", "Yes", "YeS", "YEs", "YES",
    "\U{0434}", "\U{0414}",
    "\U{0434}\U{0430}", "\U{0434}\U{0410}", "\U{0414}\U{0430}", "\U{0414}\U{0410}"
  }

  /** The lower-cased answer is accepted exactly when the answer is one of the case variants. */
  lemma AcceptsExactly(answer: string)
    ensures Lower(answer) in AcceptAnswers <==> answer in AcceptSpellings
  {
    var low := Lower(answer);
    if |answer| == 1 {
      var c := answer[0];
      assert answer == [c];
      LowerCharOnto(c, 'y');
      LowerCharOnto(c, '\U{0434}');
      assert low in AcceptAnswers <==> low == "y" || low == "\U{0434}";
    } else if |answer| == 2 {
      var c0, c1 := answer[0], answer[1];
      assert answer == [c0, c1];
      LowerCharOnto(c0, '\U{0434}');
      LowerCharOnto(c1, '\U{0430}');
      assert low in AcceptAnswers <==> low == "\U{0434}\U{0430}";
    } else if |answer| == 3 {
      var c0, c1, c2 := answer[0], answer[1], answer[2];
      assert answer == [c0, c1, c2];
      LowerCharOnto(c0, 'y');
      LowerCharOnto(c1, 'e');
      LowerCharOnto(c2, 's');
      assert low in AcceptAnswers <==> low == "yes";
    } else {
      assert low !in AcceptAnswers;
    }
  }
}
