/**
 * The handful of Python string operations the mail sender relies on:
 * `str.split` and `str.rsplit(sep, 1)` with a one-character separator,
 * `str.lower`, the substring test `sub in s` and decimal formatting of a
 * counter inside an f-string.
 */
module Strings {

  /** Index of the first occurrence of `c` in `s`, or `|s|` when there is none. */
  function FirstIndex(s: string, c: char): (i: nat)
    ensures i <= |s|
    ensures c !in s[..i]
    ensures i < |s| ==> s[i] == c
    ensures c in s <==> i < |s|
    decreases |s|
  {
    if |s| == 0 then 0
    else if s[0] == c then 0
    else
      var i' := FirstIndex(s[1..], c);
      assert s[1..][..i'] == s[1..i' + 1];
      assert s[..i' + 1] == [s[0]] + s[1..][..i'];
      assert c in s ==> c in s[1..] by {
        if c in s {
          var k :| 0 <= k < |s| && s[k] == c;
          assert s[1..][k - 1] == c;
        }
      }
      i' + 1
  }

  /** Puts the separator `c` back between consecutive parts (Python's `c.join(parts)`). */
  function Join(parts: seq<string>, c: char): string
    requires |parts| >= 1
  {
    if |parts| == 1 then parts[0] else parts[0] + [c] + Join(parts[1..], c)
  }

  /**
   * Python's `s.split(c)`: the maximal runs of `s` between occurrences of `c`.
   * There is always at least one part, there are two or more exactly when `c`
   * occurs, and no part contains `c`.
   */
  function Split(s: string, c: char): (parts: seq<string>)
    ensures |parts| >= 1
    ensures c in s <==> |parts| >= 2
    ensures forall k :: 0 <= k < |parts| ==> c !in parts[k]
    decreases |s|
  {
    if |s| == 0 then [""]
    else
      var rest := Split(s[1..], c);
      if s[0] == c then [""] + rest
      else
        var parts := [[s[0]] + rest[0]] + rest[1..];
        assert forall k :: 1 <= k < |parts| ==> parts[k] == rest[k];
        parts
  }

  /** Joining the parts of a split with the separator gives the string back. */
  lemma {:induction false} SplitJoin(s: string, c: char)
    ensures Join(Split(s, c), c) == s
    decreases |s|
  {
    if |s| > 0 {
      var rest := Split(s[1..], c);
      SplitJoin(s[1..], c);
      assert s == [s[0]] + s[1..];
      var parts := Split(s, c);
      if s[0] == c {
        assert parts[1..] == rest;
      } else if |rest| > 1 {
        assert parts[1..] == rest[1..];
      }
    }
  }

  /** The first part of a split is the text before the first separator, and the
      parts after it are the split of what follows that separator. */
  lemma {:induction false} SplitAtFirst(s: string, c: char)
    ensures Split(s, c)[0] == s[..FirstIndex(s, c)]
    ensures FirstIndex(s, c) < |s| ==>
      Split(s, c)[1..] == Split(s[FirstIndex(s, c) + 1..], c)
    decreases |s|
  {
    if |s| > 0 && s[0] != c {
      SplitAtFirst(s[1..], c);
      var i' := FirstIndex(s[1..], c);
      assert s[..i' + 1] == [s[0]] + s[1..][..i'];
      if i' < |s[1..]| {
        assert s[1..][i' + 1..] == s[i' + 2..];
      }
    }
  }

  /**
   * Python's `s.rsplit(c, 1)` when `c` occurs in `s`: the text before and the
   * text after the LAST occurrence of `c`.
   */
  function RSplitOnce(s: string, c: char): (r: (string, string))
    requires c in s
    ensures r.0 + [c] + r.1 == s
    ensures c !in r.1
    decreases |s|
  {
    var last := s[|s| - 1];
    assert s == s[..|s| - 1] + [last];
    if last == c then (s[..|s| - 1], "")
    else
      var r' := RSplitOnce(s[..|s| - 1], c);
      (r'.0, r'.1 + [last])
  }

  /** Lower-cases an ASCII letter and leaves every other character alone. */
  function LowerChar(ch: char): char
  {
    if 'A' <= ch <= 'Z' then (ch as int + 32) as char else ch
  }

  /** `s.lower()`, restricted to ASCII letters: same length, lowered letter by letter. */
  function Lower(s: string): (r: string)
    ensures |r| == |s|
    ensures forall k :: 0 <= k < |s| ==> r[k] == LowerChar(s[k])
    decreases |s|
  {
    if |s| == 0 then "" else [LowerChar(s[0])] + Lower(s[1..])
  }

  /** Python's substring test `sub in s`. */
  predicate Contains(s: string, sub: string)
    decreases |s|
  {
    (|sub| <= |s| && s[..|sub|] == sub) || (|s| > 0 && Contains(s[1..], sub))
  }

  /** `sub in s` holds exactly when `sub` occurs at some offset of `s`. */
  lemma {:induction false} ContainsIff(s: string, sub: string)
    ensures Contains(s, sub) <==>
      exists i :: 0 <= i <= |s| - |sub| && s[i..][..|sub|] == sub
    decreases |s|
  {
    assert s[0..] == s;
    if |s| > 0 {
      ContainsIff(s[1..], sub);
      if Contains(s[1..], sub) {
        var i :| 0 <= i <= |s[1..]| - |sub| && s[1..][i..][..|sub|] == sub;
        assert s[i + 1..] == s[1..][i..];
      }
      forall i | 1 <= i <= |s| - |sub| && s[i..][..|sub|] == sub
        ensures Contains(s[1..], sub)
      {
        assert s[1..][i - 1..] == s[i..];
      }
    }
  }

  /** The decimal digit for `d`. */
  function DigitChar(d: nat): char
    requires d < 10
  {
    "0123456789"[d]
  }

  /** The value of a decimal digit. */
  function DigitValue(ch: char): nat
    requires '0' <= ch <= '9'
  {
    ch as int - '0' as int
  }

  /** Reads a string of decimal digits back as a number. */
  function ParseDecimal(s: string): nat
    requires forall k :: 0 <= k < |s| ==> '0' <= s[k] <= '9'
  {
    if |s| == 0 then 0 else 10 * ParseDecimal(s[..|s| - 1]) + DigitValue(s[|s| - 1])
  }

  /** How an integer is written inside an f-string (`f'{n}'`): its decimal digits,
      with no leading zero. Reading the digits back gives `n`. */
  function NatToString(n: nat): (s: string)
    ensures |s| >= 1
    ensures forall k :: 0 <= k < |s| ==> '0' <= s[k] <= '9'
    ensures |s| == 1 || s[0] != '0'
    ensures ParseDecimal(s) == n
    decreases n
  {
    if n < 10 then [DigitChar(n)]
    else
      var s := NatToString(n / 10) + [DigitChar(n % 10)];
      assert s[..|s| - 1] == NatToString(n / 10);
      s
  }
}
