/**
 * The few Python string and list builtins the command layer relies on:
 * `str.lower()` on the literals it compares against, `' '.join(words)`
 * and `list.index(x)`.
 */
module Text {
  import opened Wrappers

  /**
   * Lower-casing of one character: ASCII letters and the basic Cyrillic
   * capitals (U+0400..U+042F). Every literal the program compares a
   * lower-cased string with is made of such letters and '_', which
   * lower-casing leaves unchanged.
   */
  function LowerChar(c: char): char
  {
    if 'A' <= c <= 'Z' then (c as int + 32) as char
    else if '\U{0410}' <= c <= '\U{042F}' then (c as int + 32) as char
    else if '\U{0400}' <= c <= '\U{040F}' then (c as int + 80) as char
    else c
  }

  function Lower(s: string): (r: string)
    ensures |r| == |s|
    ensures forall i :: 0 <= i < |s| ==> r[i] == LowerChar(s[i])
  {
    seq(|s|, i requires 0 <= i < |s| => LowerChar(s[i]))
  }

  /** A lower-case letter of the alphabets LowerChar covers. */
  predicate LowerLetter(l: char)
  {
    'a' <= l <= 'z' || '\U{0430}' <= l <= '\U{044F}'
  }

  /** LowerChar maps exactly the letter itself and its capital onto a lower-case letter. */
  lemma LowerCharOnto(c: char, l: char)
    requires LowerLetter(l)
    ensures LowerChar(c) == l <==> c == l || c as int == l as int - 32
  {
  }

  /**
   * A word lower-cases to a literal of lower-case letters exactly when it
   * spells that literal with each letter in either case.
   */
  lemma {:induction false} LowerEqualsLiteral(s: string, literal: string)
    requires forall i :: 0 <= i < |literal| ==> LowerLetter(literal[i])
    ensures Lower(s) == literal <==>
      |s| == |literal| && forall i :: 0 <= i < |s| ==> s[i] == literal[i] || s[i] as int == literal[i] as int - 32
  {
    if |s| == |literal| {
      forall i | 0 <= i < |s| {
        LowerCharOnto(s[i], literal[i]);
      }
      if forall i :: 0 <= i < |s| ==> s[i] == literal[i] || s[i] as int == literal[i] as int - 32 {
        assert forall i :: 0 <= i < |s| ==> Lower(s)[i] == literal[i];
      }
    }
  }

  /** `[arg.lower() for arg in args]` */
  function LowerAll(args: seq<string>): (r: seq<string>)
    ensures |r| == |args|
    ensures forall i :: 0 <= i < |args| ==> r[i] == Lower(args[i])
  {
    seq(|args|, i requires 0 <= i < |args| => Lower(args[i]))
  }

  /** The number of characters in all the words together. */
  function TotalLength(words: seq<string>): nat
  {
    if |words| == 0 then 0 else |words[0]| + TotalLength(words[1..])
  }

  /** Where `words[k]` starts in the joined text: the words before it and one space after each. */
  function Offset(words: seq<string>, k: nat): nat
    requires k <= |words|
  {
    TotalLength(words[..k]) + k
  }

  /** Every word after the first starts one word and one space further into the rest. */
  lemma OffsetShift(words: seq<string>, k: nat)
    requires 1 <= k <= |words|
    ensures Offset(words, k) == |words[0]| + 1 + Offset(words[1..], k - 1)
  {
    assert words[..k][0] == words[0];
    assert words[..k][1..] == words[1..][..k - 1];
  }

  /** Whether `text` holds each word at its offset, with a space before every word but the first. */
  predicate LaidOut(words: seq<string>, text: string)
  {
    && (forall k :: 0 <= k < |words| ==>
          Offset(words, k) + |words[k]| <= |text| &&
          text[Offset(words, k)..Offset(words, k) + |words[k]|] == words[k])
    && (forall k :: 0 < k < |words| ==> Offset(words, k) <= |text| && text[Offset(words, k) - 1] == ' ')
  }

  /** Putting the first word and a space in front of the laid-out rest lays out all the words. */
  lemma {:induction false} ConsLaidOut(words: seq<string>, tail: string)
    requires |words| > 1 && LaidOut(words[1..], tail)
    ensures LaidOut(words, words[0] + " " + tail)
  {
    var text := words[0] + " " + tail;
    var n := |words[0]| + 1;
    assert Offset(words, 0) == 0 by { assert words[..0] == []; }
    assert text[..|words[0]|] == words[0];
    forall k | 1 <= k < |words|
      ensures Offset(words, k) + |words[k]| <= |text|
      ensures text[Offset(words, k)..Offset(words, k) + |words[k]|] == words[k]
      ensures text[Offset(words, k) - 1] == ' '
    {
      OffsetShift(words, k);
      var o := Offset(words[1..], k - 1);
      assert words[1..][k - 1] == words[k];
      assert text[n + o..n + o + |words[k]|] == tail[o..o + |words[k]|];
      if k > 1 {
        assert text[n + o - 1] == tail[o - 1];
      }
    }
  }

  /**
   * `' '.join(words)`: the words in order with one space between each two,
   * so the text is as long as the words together plus one per gap.
   */
  function Join(words: seq<string>): (r: string)
    ensures |words| == 0 ==> r == ""
    ensures |words| > 0 ==> |r| == TotalLength(words) + |words| - 1
    ensures |words| > 0 ==> r[..|words[0]|] == words[0]
  {
    if |words| == 0 then ""
    else if |words| == 1 then words[0]
    else words[0] + " " + Join(words[1..])
  }

  /** Every word sits at its offset in the joined text, with a single space before all but the first. */
  lemma {:induction false} JoinLaidOut(words: seq<string>)
    ensures LaidOut(words, Join(words))
  {
    if |words| == 1 {
      assert Offset(words, 0) == 0 by { assert words[..0] == []; }
    } else if |words| > 1 {
      JoinLaidOut(words[1..]);
      ConsLaidOut(words, Join(words[1..]));
    }
  }

  /** Joining one more word appends a space and that word. */
  lemma {:induction false} JoinSnoc(words: seq<string>, w: string)
    requires |words| > 0
    ensures Join(words + [w]) == Join(words) + " " + w
  {
    if |words| > 1 {
      assert (words + [w])[1..] == words[1..] + [w];
      JoinSnoc(words[1..], w);
    } else {
      assert (words + [w])[1..] == [w];
    }
  }

  /** Python's `text.split(' ')`: cut at every space, keeping empty pieces. */
  function SplitOnSpace(text: string): (r: seq<string>)
    ensures |r| >= 1
    decreases |text|
  {
    match FirstIndex(text, ' ')
    case None => [text]
    case Some(i) => [text[..i]] + SplitOnSpace(text[i + 1..])
  }

  /** The position of the first occurrence of `x` in `s`, if any. */
  function FirstIndex<T(==)>(s: seq<T>, x: T): (r: Option<nat>)
    ensures r.None? <==> x !in s
    ensures r.Some? ==> r.value < |s| && s[r.value] == x && x !in s[..r.value]
  {
    if |s| == 0 then None
    else if s[0] == x then Some(0)
    else match FirstIndex(s[1..], x)
      case None => None
      case Some(i) =>
        assert s[..i + 1] == [s[0]] + s[1..][..i];
        Some(i + 1)
  }

  /** The first occurrence is the position before which `x` does not occur. */
  lemma FirstIndexAt<T>(s: seq<T>, x: T, i: nat)
    requires i < |s| && s[i] == x
    requires forall k :: 0 <= k < i ==> s[k] != x
    ensures FirstIndex(s, x) == Some(i)
  {
  }

  /**
   * Joining words that hold no space and splitting the text again at
   * spaces gives the words back: the clause text handed to a clause
   * parser carries the argument words unchanged and in order.
   */
  lemma {:induction false} JoinSplitRoundTrip(words: seq<string>)
    requires |words| >= 1
    requires forall k :: 0 <= k < |words| ==> ' ' !in words[k]
    ensures SplitOnSpace(Join(words)) == words
  {
    if |words| == 1 {
      assert FirstIndex(words[0], ' ').None?;
    } else {
      var w, rest := words[0], words[1..];
      var text := w + " " + Join(rest);
      assert text[..|w|] == w;
      assert text[|w|] == ' ';
      assert FirstIndex(text, ' ') == Some(|w|);
      assert text[|w| + 1..] == Join(rest);
      JoinSplitRoundTrip(rest);
    }
  }
}
