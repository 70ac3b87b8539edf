/** The string operations the pages and routes use: decimal rendering of
    numbers (template literals), String.prototype.trim, lower-casing and
    substring search. */
module Text {

  predicate IsDigit(c: char) { '0' <= c <= '9' }

  predicate AllDigits(s: string) {
    forall i :: 0 <= i < |s| ==> IsDigit(s[i])
  }

  function DigitChar(d: nat): (c: char)
    requires d < 10
    ensures IsDigit(c) && c as int - '0' as int == d
  {
    ('0' as int + d) as char
  }

  function DigitValue(c: char): (d: nat)
    requires IsDigit(c)
    ensures d < 10
  {
    c as int - '0' as int
  }

  /** How JavaScript renders a non-negative integer: decimal digits with
      no leading zero. */
  function NatToString(n: nat): (s: string)
    ensures |s| >= 1 && AllDigits(s)
    ensures |s| > 1 ==> s[0] != '0'
  {
    if n < 10 then [DigitChar(n)]
    else NatToString(n / 10) + [DigitChar(n % 10)]
  }

  /** The number a string of decimal digits denotes. */
  function DecimalValue(s: string): nat
    requires AllDigits(s)
  {
    if s == [] then 0
    else 10 * DecimalValue(s[..|s| - 1]) + DigitValue(s[|s| - 1])
  }

  /** Rendering a number and reading it back gives the number. */
  lemma {:induction false} DecimalRoundTrip(n: nat)
    ensures DecimalValue(NatToString(n)) == n
  {
    if n >= 10 {
      var s := NatToString(n);
      assert s[..|s| - 1] == NatToString(n / 10);
      DecimalRoundTrip(n / 10);
    }
  }

  /** How JavaScript renders an integer: a minus sign before the digits of
      a negative one. */
  function IntToString(i: int): (s: string)
    ensures |s| >= 1
  {
    if i < 0 then "-" + NatToString(-i) else NatToString(i)
  }

  /** The integer an optionally signed digit string denotes. */
  function IntValue(s: string): int
    requires s != [] && (s[0] == '-' ==> AllDigits(s[1..])) && (s[0] != '-' ==> AllDigits(s))
  {
    if s[0] == '-' then -(DecimalValue(s[1..]) as int) else DecimalValue(s)
  }

  lemma IntRoundTrip(i: int)
    ensures var s := IntToString(i);
      s != [] && (s[0] == '-' ==> AllDigits(s[1..])) && (s[0] != '-' ==> AllDigits(s)) &&
      IntValue(s) == i
  {
    var s := IntToString(i);
    if i < 0 {
      assert s[1..] == NatToString(-i);
      DecimalRoundTrip(-i);
    } else {
      DecimalRoundTrip(i);
    }
  }

  /** The characters String.prototype.trim removes: ECMAScript WhiteSpace
      (tab, vertical tab, form feed, byte order mark and the space
      separators) and LineTerminator. */
  predicate IsSpace(c: char) {
    || c == ' ' || c == '\t' || c == '\n' || c == '\r'
    || c == '\U{000B}' || c == '\U{000C}' || c == '\U{00A0}' || c == '\U{1680}'
    || ('\U{2000}' <= c <= '\U{200A}')
    || c == '\U{2028}' || c == '\U{2029}' || c == '\U{202F}' || c == '\U{205F}'
    || c == '\U{3000}' || c == '\U{FEFF}'
  }

  predicate IsBlank(s: string) {
    forall k :: 0 <= k < |s| ==> IsSpace(s[k])
  }

  function TrimStart(s: string): (r: string)
    ensures |r| <= |s| && r == s[|s| - |r|..]
    ensures r == [] || !IsSpace(r[0])
    ensures forall k :: 0 <= k < |s| - |r| ==> IsSpace(s[k])
  {
    if s != [] && IsSpace(s[0]) then TrimStart(s[1..]) else s
  }

  function TrimEnd(s: string): (r: string)
    ensures |r| <= |s| && r == s[..|r|]
    ensures r == [] || !IsSpace(r[|r| - 1])
    ensures forall k :: |r| <= k < |s| ==> IsSpace(s[k])
  {
    if s != [] && IsSpace(s[|s| - 1]) then TrimEnd(s[..|s| - 1]) else s
  }

  /** The characters of `r` are those of `s` from `start` on, for `|r|`
      characters. */
  ghost predicate SliceOf(r: string, s: string, start: int) {
    0 <= start && start + |r| <= |s| && r == s[start..start + |r|]
  }

  /** String.prototype.trim: `s` without its leading and trailing white
      space. */
  function Trim(s: string): (r: string)
    ensures r == [] <==> IsBlank(s)
    ensures r != [] ==> !IsSpace(r[0]) && !IsSpace(r[|r| - 1])
    ensures |r| <= |s|
    ensures SliceOf(r, s, |s| - |TrimStart(s)|)
    ensures forall k :: 0 <= k < |s| - |TrimStart(s)| ==> IsSpace(s[k])
    ensures forall k :: |s| - |TrimStart(s)| + |r| <= k < |s| ==> IsSpace(s[k])
  {
    var front := TrimStart(s);
    var r := TrimEnd(front);
    assert r != [] ==> r[0] == front[0];
    TrimKeepsSlice(s, front, r);
    r
  }

  /** Cutting a prefix and then a suffix leaves a slice of `s`, and when
      the cut suffix is white space, so is everything of `s` after the
      slice. */
  lemma TrimKeepsSlice(s: string, front: string, r: string)
    requires |front| <= |s| && front == s[|s| - |front|..]
    requires |r| <= |front| && r == front[..|r|]
    requires forall k :: |r| <= k < |front| ==> IsSpace(front[k])
    ensures SliceOf(r, s, |s| - |front|)
    ensures forall k :: |s| - |front| + |r| <= k < |s| ==> IsSpace(s[k])
  {
    var start := |s| - |front|;
    forall k | start + |r| <= k < |s| ensures IsSpace(s[k]) {
      assert s[k] == front[k - start];
    }
  }

  /** Leading white space is all `TrimStart` drops. */
  lemma {:induction false} TrimStartDropsPadding(pre: string, rest: string)
    requires IsBlank(pre) && (rest == [] || !IsSpace(rest[0]))
    ensures TrimStart(pre + rest) == rest
  {
    if pre != [] {
      assert (pre + rest)[1..] == pre[1..] + rest;
      TrimStartDropsPadding(pre[1..], rest);
    }
  }

  /** Trailing white space is all `TrimEnd` drops. */
  lemma {:induction false} TrimEndDropsPadding(rest: string, post: string)
    requires IsBlank(post) && (rest == [] || !IsSpace(rest[|rest| - 1]))
    ensures TrimEnd(rest + post) == rest
  {
    if post != [] {
      assert (rest + post)[..|rest + post| - 1] == rest + post[..|post| - 1];
      TrimEndDropsPadding(rest, post[..|post| - 1]);
    }
  }

  /** Trimming a text padded with white space on both sides gives back
      exactly the text, whatever the padding. */
  lemma TrimRemovesPadding(pre: string, core: string, post: string)
    requires IsBlank(pre) && IsBlank(post)
    requires core == [] || (!IsSpace(core[0]) && !IsSpace(core[|core| - 1]))
    ensures Trim(pre + core + post) == core
  {
    var s := pre + core + post;
    if core == [] {
      assert IsBlank(s) by {
        forall k | 0 <= k < |s| ensures IsSpace(s[k]) {
          if k < |pre| { assert s[k] == pre[k]; } else { assert s[k] == post[k - |pre|]; }
        }
      }
    } else {
      assert s == pre + (core + post);
      TrimStartDropsPadding(pre, core + post);
      TrimEndDropsPadding(core, post);
    }
  }

  /** ASCII lower-casing of one character. */
  function LowerChar(c: char): (l: char)
    ensures !('A' <= l <= 'Z')
    ensures !('A' <= c <= 'Z') ==> l == c
  {
    if 'A' <= c <= 'Z' then (c as int - 'A' as int + 'a' as int) as char else c
  }

  /** LOWER(...) on ASCII text. */
  function Lower(s: string): (r: string)
    ensures |r| == |s|
    ensures forall i :: 0 <= i < |s| ==> r[i] == LowerChar(s[i])
    ensures forall i :: 0 <= i < |r| ==> !('A' <= r[i] <= 'Z')
  {
    seq(|s|, i requires 0 <= i < |s| => LowerChar(s[i]))
  }

  /** `needle` occurs in `hay` starting at position `i`. */
  ghost predicate OccursAt(needle: string, hay: string, i: int) {
    0 <= i && i + |needle| <= |hay| && hay[i..i + |needle|] == needle
  }

  /** Substring test, as LIKE '%needle%' with no wildcard in `needle`. */
  function Contains(hay: string, needle: string): bool
  {
    |needle| <= |hay| && (hay[..|needle|] == needle || Contains(hay[1..], needle))
  }

  lemma {:induction false} ContainsIff(hay: string, needle: string)
    ensures Contains(hay, needle) <==> exists i :: OccursAt(needle, hay, i)
  {
    if |needle| <= |hay| {
      if hay[..|needle|] == needle {
        assert OccursAt(needle, hay, 0);
        return;
      }
      ContainsIff(hay[1..], needle);
      if Contains(hay[1..], needle) {
        var i :| OccursAt(needle, hay[1..], i);
        assert hay[1..][i..i + |needle|] == hay[i + 1..i + 1 + |needle|];
        assert OccursAt(needle, hay, i + 1);
      } else {
        forall i | OccursAt(needle, hay, i) && i > 0 ensures OccursAt(needle, hay[1..], i - 1) {
          assert hay[1..][i - 1..i - 1 + |needle|] == hay[i..i + |needle|];
        }
      }
    }
  }
}
