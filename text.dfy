/**
 * The string operations the source borrows from JavaScript's `String` and
 * `Array` prototypes: `toLowerCase`, `startsWith`, `endsWith`, `includes`,
 * `split`, `join`, `pop` and a global, literal `replace`.
 */
module Text {

  /** `toLowerCase` on one character, for the ASCII letters. */
  function LowerChar(c: char): char {
    if 'A' <= c <= 'Z' then (c as int + 32) as char else c
  }

  /** `toLowerCase` on the ASCII letters; every other character is kept. */
  function Lower(s: string): (r: string)
    ensures |r| == |s|
    ensures forall i :: 0 <= i < |s| ==> r[i] == LowerChar(s[i])
  {
    if s == [] then [] else [LowerChar(s[0])] + Lower(s[1..])
  }

  /**
   * `s.length`: JavaScript counts UTF-16 code units, so a character beyond
   * U+FFFF (a surrogate pair) counts twice.
   */
  function Utf16Length(s: string): (n: nat)
    ensures |s| <= n <= 2 * |s|
    ensures n == |s| <==> forall i :: 0 <= i < |s| ==> s[i] as int < 0x1_0000
  {
    if s == [] then 0
    else
      var init := s[..|s| - 1];
      assert forall i :: 0 <= i < |init| ==> init[i] == s[i];
      Utf16Length(init) + (if s[|s| - 1] as int < 0x1_0000 then 1 else 2)
  }

  predicate StartsWith(s: string, prefix: string) {
    |prefix| <= |s| && s[..|prefix|] == prefix
  }

  predicate EndsWith(s: string, suffix: string) {
    |suffix| <= |s| && s[|s| - |suffix|..] == suffix
  }

  /** `s.includes(part)`: `part` occurs somewhere in `s`. */
  predicate Contains(s: string, part: string) {
    exists i :: 0 <= i <= |s| && StartsWith(s[i..], part)
  }

  /** `s.split(sep)` for a one-character separator: never empty, and no part holds `sep`. */
  function Split(s: string, sep: char): (parts: seq<string>)
    ensures |parts| >= 1
    ensures forall i :: 0 <= i < |parts| ==> sep !in parts[i]
  {
    if s == [] then [""]
    else
      var init := Split(s[..|s| - 1], sep);
      var x := s[|s| - 1];
      if x == sep then init + [""]
      else init[..|init| - 1] + [init[|init| - 1] + [x]]
  }

  /** `parts.join(sep)`. */
  function Join(parts: seq<string>, sep: string): string {
    if |parts| == 0 then ""
    else if |parts| == 1 then parts[0]
    else Join(parts[..|parts| - 1], sep) + sep + parts[|parts| - 1]
  }

  /** `parts.pop()` on the non-empty result of `split`. */
  function Last(parts: seq<string>): string
    requires |parts| >= 1
  {
    parts[|parts| - 1]
  }

  /** Joining the parts of a split with the separator gives back the string. */
  lemma {:induction false} JoinSplit(s: string, sep: char)
    ensures Join(Split(s, sep), [sep]) == s
  {
    if s != [] {
      var init := Split(s[..|s| - 1], sep);
      JoinSplit(s[..|s| - 1], sep);
      var x := s[|s| - 1];
      if x == sep {
        assert Split(s, sep)[..|init|] == init;
      } else {
        var parts := Split(s, sep);
        if |init| == 1 {
          assert parts == [init[0] + [x]];
        } else {
          assert parts[..|parts| - 1] == init[..|init| - 1];
          assert Join(init, [sep]) == Join(init[..|init| - 1], [sep]) + [sep] + init[|init| - 1];
        }
      }
      assert s == s[..|s| - 1] + [s[|s| - 1]];
    }
  }

  /** Splitting a join of separator-free parts gives back the parts. */
  lemma {:induction false} SplitJoin(parts: seq<string>, sep: char)
    requires |parts| >= 1
    requires forall i :: 0 <= i < |parts| ==> sep !in parts[i]
    ensures Split(Join(parts, [sep]), sep) == parts
  {
    if |parts| == 1 {
      SplitFree(parts[0], sep);
    } else {
      var init := parts[..|parts| - 1];
      SplitJoin(init, sep);
      SplitAppendFree(Join(init, [sep]), sep, parts[|parts| - 1]);
      assert init + [parts[|parts| - 1]] == parts;
    }
  }

  /** A string without the separator splits into itself alone. */
  lemma {:induction false} SplitFree(s: string, sep: char)
    requires sep !in s
    ensures Split(s, sep) == [s]
  {
    if s != [] {
      SplitFree(s[..|s| - 1], sep);
      assert s[..|s| - 1] + [s[|s| - 1]] == s;
    }
  }

  /** Appending the separator and a separator-free tail adds that tail as one more part. */
  lemma {:induction false} SplitAppendFree(s: string, sep: char, tail: string)
    requires sep !in tail
    ensures Split(s + [sep] + tail, sep) == Split(s, sep) + [tail]
    decreases |tail|
  {
    var t := s + [sep] + tail;
    if tail == [] {
      assert t[..|t| - 1] == s;
    } else {
      var shorter := tail[..|tail| - 1];
      SplitAppendFree(s, sep, shorter);
      assert t[..|t| - 1] == s + [sep] + shorter;
      assert shorter + [tail[|tail| - 1]] == tail;
    }
  }

  /**
   * The text after the last `sep` (all of `s` when there is none): it holds
   * no separator, ends `s`, and is preceded either by nothing or by `sep`.
   */
  function AfterLast(s: string, sep: char): (r: string)
    ensures sep !in r
    ensures EndsWith(s, r)
    ensures |r| == |s| || s[|s| - |r| - 1] == sep
  {
    if s == [] then ""
    else if s[|s| - 1] == sep then ""
    else
      var r' := AfterLast(s[..|s| - 1], sep);
      assert s[|s| - 1 - |r'|..] == s[..|s| - 1][|s| - 1 - |r'|..] + [s[|s| - 1]];
      r' + [s[|s| - 1]]
  }

  /** `s.split(sep).pop()` is the text after the last separator. */
  lemma {:induction false} LastOfSplit(s: string, sep: char)
    ensures Last(Split(s, sep)) == AfterLast(s, sep)
  {
    if s != [] && s[|s| - 1] != sep {
      LastOfSplit(s[..|s| - 1], sep);
    }
  }

  /**
   * `s.replace(new RegExp(pattern, "g"), value)` for a pattern without
   * special characters: scanning from the left, every occurrence of
   * `pattern` is replaced and scanning resumes after it.
   */
  function ReplaceAll(s: string, pattern: string, value: string): string
    requires |pattern| > 0
    decreases |s|
  {
    if |s| < |pattern| then s
    else if s[..|pattern|] == pattern then value + ReplaceAll(s[|pattern|..], pattern, value)
    else [s[0]] + ReplaceAll(s[1..], pattern, value)
  }

  /** Text in which the pattern does not occur is left as it is. */
  lemma {:induction false} ReplaceAllAbsent(s: string, pattern: string, value: string)
    requires |pattern| > 0
    requires !Contains(s, pattern)
    ensures ReplaceAll(s, pattern, value) == s
    decreases |s|
  {
    if |s| >= |pattern| {
      assert s[0..] == s;
      forall i | 0 <= i <= |s[1..]|
        ensures !StartsWith(s[1..][i..], pattern)
      {
        assert s[1..][i..] == s[i + 1..];
      }
      ReplaceAllAbsent(s[1..], pattern, value);
    }
  }

  /** Replacing a pattern by itself changes nothing. */
  lemma {:induction false} ReplaceAllSelf(s: string, pattern: string)
    requires |pattern| > 0
    ensures ReplaceAll(s, pattern, pattern) == s
    decreases |s|
  {
    if |s| >= |pattern| {
      if s[..|pattern|] == pattern {
        ReplaceAllSelf(s[|pattern|..], pattern);
        assert s == s[..|pattern|] + s[|pattern|..];
      } else {
        ReplaceAllSelf(s[1..], pattern);
      }
    }
  }

  /** No occurrence of `pattern` in `s` starts before position `k`. */
  predicate NoneBefore(s: string, pattern: string, k: nat) {
    forall i :: 0 <= i < k && i <= |s| ==> !StartsWith(s[i..], pattern)
  }

  /**
   * When the first occurrence of the pattern in `before + pattern + after`
   * is the one after `before`, the text before it is kept, that occurrence
   * becomes `value`, and the scan goes on in `after`.
   */
  lemma {:induction false} ReplaceAllFirst(before: string, pattern: string, after: string, value: string)
    requires |pattern| > 0
    requires NoneBefore(before + pattern + after, pattern, |before|)
    ensures ReplaceAll(before + pattern + after, pattern, value)
         == before + value + ReplaceAll(after, pattern, value)
    decreases |before|
  {
    var s := before + pattern + after;
    if before == [] {
      assert s[..|pattern|] == pattern && s[|pattern|..] == after;
    } else {
      var rest := before[1..] + pattern + after;
      assert s[1..] == rest;
      assert !StartsWith(s[0..], pattern);
      assert s[0..] == s;
      assert s[..|pattern|] != pattern;
      forall i | 0 <= i < |before[1..]| && i <= |rest|
        ensures !StartsWith(rest[i..], pattern)
      {
        assert rest[i..] == s[i + 1..];
        assert !StartsWith(s[i + 1..], pattern);
      }
      ReplaceAllFirst(before[1..], pattern, after, value);
      calc {
        ReplaceAll(s, pattern, value);
        [s[0]] + ReplaceAll(rest, pattern, value);
        [before[0]] + (before[1..] + value + ReplaceAll(after, pattern, value));
        { assert [before[0]] + before[1..] == before; }
        before + value + ReplaceAll(after, pattern, value);
      }
    }
  }
}
