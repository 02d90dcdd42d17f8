/** The Python built-ins the core leans on, stated exactly: str(int), int(str),
    str.split(), str.strip(), str.replace(pattern, ''), string comparison and max(). */
module Builtins {
  import opened Wrappers

  // ---------------------------------------------------------------------------
  // Characters
  // ---------------------------------------------------------------------------

  predicate IsDigit(c: char) {
    '0' <= c <= '9'
  }

  /** Python's str.isspace() for a single character. */
  predicate IsSpace(c: char) {
    c == ' ' || c == '\t' || c == '\n' || c == '\r' || c == '\U{0B}' || c == '\U{0C}' ||
    ('\U{1C}' <= c <= '\U{1F}') || c == '\U{85}' || c == '\U{A0}' || c == '\U{1680}' ||
    ('\U{2000}' <= c <= '\U{200A}') || c == '\U{2028}' || c == '\U{2029}' ||
    c == '\U{202F}' || c == '\U{205F}' || c == '\U{3000}'
  }

  predicate AllDigits(s: string) {
    forall i :: 0 <= i < |s| ==> IsDigit(s[i])
  }

  function DigitChar(d: nat): (c: char)
    requires d < 10
    ensures IsDigit(c) && c as int - '0' as int == d
  {
    (d + '0' as int) as char
  }

  // ---------------------------------------------------------------------------
  // str(int)
  // ---------------------------------------------------------------------------

  /** Decimal digits of n, most significant first, without leading zeros. */
  function NatToString(n: nat): (s: string)
    ensures |s| > 0 && AllDigits(s)
    ensures s[0] == '0' ==> n == 0
  {
    if n < 10 then [DigitChar(n)] else NatToString(n / 10) + [DigitChar(n % 10)]
  }

  /** Python's str(n) for an int: an optional '-' and the decimal digits. */
  function IntToString(n: int): (s: string)
    ensures |s| > 0
    ensures n < 0 <==> s[0] == '-'
    ensures n >= 0 ==> AllDigits(s)
    ensures n < 0 ==> |s| > 1 && AllDigits(s[1..])
  {
    if n < 0 then "-" + NatToString(-n) else NatToString(n)
  }

  /** The number denoted by a string of decimal digits. */
  function DigitsValue(s: string): nat
    requires AllDigits(s)
  {
    if s == [] then 0 else DigitsValue(s[..|s| - 1]) * 10 + (s[|s| - 1] as int - '0' as int)
  }

  lemma {:induction false} NatToStringValue(n: nat)
    ensures DigitsValue(NatToString(n)) == n
  {
    if n >= 10 {
      NatToStringValue(n / 10);
      var s := NatToString(n);
      assert s[..|s| - 1] == NatToString(n / 10);
    }
  }

  // ---------------------------------------------------------------------------
  // int(str)
  // ---------------------------------------------------------------------------

  function StripLeft(s: string): (r: string)
    ensures r == [] || !IsSpace(r[0])
    ensures |r| <= |s| && r == s[|s| - |r|..]
  {
    if s != [] && IsSpace(s[0]) then StripLeft(s[1..]) else s
  }

  function StripRight(s: string): (r: string)
    ensures r == [] || !IsSpace(r[|r| - 1])
    ensures |r| <= |s| && r == s[..|r|]
  {
    if s != [] && IsSpace(s[|s| - 1]) then StripRight(s[..|s| - 1]) else s
  }

  /** Python's str.strip() without arguments. */
  function Strip(s: string): string {
    StripRight(StripLeft(s))
  }

  /** Digits with single underscores between them, as int() accepts ("1_000"). */
  predicate IsNumeral(s: string) {
    |s| > 0 && IsDigit(s[0]) && forall i :: 0 <= i < |s| ==> NumeralCharAt(s, i)
  }

  /** s[i] is a digit, or an underscore followed by a digit. */
  predicate NumeralCharAt(s: string, i: nat)
    requires i < |s|
  {
    IsDigit(s[i]) || (s[i] == '_' && i + 1 < |s| && IsDigit(s[i + 1]))
  }

  function DropUnderscores(s: string): (r: string)
    requires forall i :: 0 <= i < |s| ==> IsDigit(s[i]) || s[i] == '_'
    ensures AllDigits(r)
    ensures AllDigits(s) ==> r == s
  {
    if s == [] then []
    else if s[0] == '_' then DropUnderscores(s[1..])
    else [s[0]] + DropUnderscores(s[1..])
  }

  function NumeralValue(s: string): nat
    requires IsNumeral(s)
  {
    NumeralChars(s);
    DigitsValue(DropUnderscores(s))
  }

  lemma NumeralChars(s: string)
    requires IsNumeral(s)
    ensures forall i :: 0 <= i < |s| ==> IsDigit(s[i]) || s[i] == '_'
  {
    forall i | 0 <= i < |s| ensures IsDigit(s[i]) || s[i] == '_' {
      assert NumeralCharAt(s, i);
    }
  }

  lemma NotNumeralAt(s: string, i: int)
    requires 0 <= i < |s| && !IsDigit(s[i]) && s[i] != '_'
    ensures !IsNumeral(s)
  {
    assert !NumeralCharAt(s, i);
  }

  /** Python's int(s) for base 10: surrounding white space, an optional sign and a
      numeral; anything else raises ValueError, modelled as None.
      Non-ASCII decimal digits, which int() also accepts, are not modelled. */
  function ParsePythonInt(s: string): Option<int> {
    var t := Strip(s);
    if |t| > 0 && (t[0] == '+' || t[0] == '-') then
      if IsNumeral(t[1..]) then
        var v: int := NumeralValue(t[1..]);
        Some(if t[0] == '-' then -v else v)
      else None
    else if IsNumeral(t) then Some(NumeralValue(t))
    else None
  }

  lemma StripNoSpaceEnds(s: string)
    requires |s| > 0 && !IsSpace(s[0]) && !IsSpace(s[|s| - 1])
    ensures Strip(s) == s
  {
  }

  /** int(str(n)) == n: a timestamp key written as str(n) reads back as n. */
  lemma {:induction false} ParseIntToString(n: int)
    ensures ParsePythonInt(IntToString(n)) == Some(n)
  {
    var s := IntToString(n);
    var m: nat := if n < 0 then -n else n;
    var d := NatToString(m);
    assert !IsSpace(d[|d| - 1]);
    StripNoSpaceEnds(s);
    NatToStringValue(m);
    assert IsNumeral(d);
    if n < 0 {
      assert s[1..] == d;
    } else {
      assert s == d;
    }
  }

  /** int() rejects anything whose stripped text holds a character that is
      neither a sign, a digit nor an underscore. */
  lemma ParseRejectsForeign(s: string, i: int)
    requires 0 <= i < |Strip(s)|
    requires !IsDigit(Strip(s)[i]) && Strip(s)[i] != '_' && Strip(s)[i] != '+' && Strip(s)[i] != '-'
    ensures ParsePythonInt(s) == None
  {
    var t := Strip(s);
    if |t| > 0 && (t[0] == '+' || t[0] == '-') {
      assert i > 0;
      assert t[1..][i - 1] == t[i];
      NotNumeralAt(t[1..], i - 1);
    } else {
      NotNumeralAt(t, i);
    }
  }

  // ---------------------------------------------------------------------------
  // str.split()
  // ---------------------------------------------------------------------------

  /** Index of the first white-space character of s at or after i, or |s|. */
  function WordEnd(s: string, i: nat): (k: nat)
    requires i <= |s|
    ensures i <= k <= |s|
    ensures forall j :: i <= j < k ==> !IsSpace(s[j])
    ensures k < |s| ==> IsSpace(s[k])
    decreases |s| - i
  {
    if i == |s| || IsSpace(s[i]) then i else WordEnd(s, i + 1)
  }

  /** Python's str.split() without arguments: the maximal runs of non-white-space. */
  function Split(s: string): (words: seq<string>)
    ensures forall w :: w in words ==> IsWord(w)
    decreases |s|
  {
    if s == [] then []
    else if IsSpace(s[0]) then Split(s[1..])
    else
      var k := WordEnd(s, 0);
      [s[..k]] + Split(s[k..])
  }

  predicate IsWord(w: string) {
    |w| > 0 && forall i :: 0 <= i < |w| ==> !IsSpace(w[i])
  }

  /** The words joined by single blanks: what a user types at the prompt. */
  function JoinWords(words: seq<string>): string {
    if words == [] then ""
    else if |words| == 1 then words[0]
    else words[0] + " " + JoinWords(words[1..])
  }

  lemma {:induction false} SplitSkipsSpaces(pre: string, s: string)
    requires forall i :: 0 <= i < |pre| ==> IsSpace(pre[i])
    ensures Split(pre + s) == Split(s)
    decreases |pre|
  {
    if pre != [] {
      assert IsSpace((pre + s)[0]);
      assert Split(pre + s) == Split((pre + s)[1..]);
      assert (pre + s)[1..] == pre[1..] + s;
      SplitSkipsSpaces(pre[1..], s);
    } else {
      assert pre + s == s;
    }
  }

  lemma SplitWordThen(w: string, rest: string)
    requires IsWord(w)
    requires rest == [] || IsSpace(rest[0])
    ensures Split(w + rest) == [w] + Split(rest)
  {
    var s := w + rest;
    var k := WordEnd(s, 0);
    assert forall j :: 0 <= j < |w| ==> s[j] == w[j];
    assert |rest| > 0 ==> s[|w|] == rest[0];
    assert k == |w|;
    assert s[..k] == w && s[k..] == rest;
  }

  /** Splitting words joined by blanks gives the words back. */
  lemma {:induction false} SplitJoinWords(words: seq<string>)
    requires forall w :: w in words ==> IsWord(w)
    ensures Split(JoinWords(words)) == words
  {
    if words == [] {
    } else if |words| == 1 {
      SplitWordThen(words[0], "");
      assert words[0] + "" == words[0];
    } else {
      var rest := " " + JoinWords(words[1..]);
      assert JoinWords(words) == words[0] + rest;
      SplitWordThen(words[0], rest);
      SplitSkipsSpaces(" ", JoinWords(words[1..]));
      SplitJoinWords(words[1..]);
    }
  }

  // ---------------------------------------------------------------------------
  // str.replace(pattern, '')
  // ---------------------------------------------------------------------------

  /** Python's s.replace(pattern, '') for a non-empty pattern: the occurrences of
      pattern found scanning left to right, without overlap, are deleted. */
  function RemoveAll(s: string, pattern: string): (r: string)
    requires |pattern| > 0
    ensures |r| <= |s|
    decreases |s|
  {
    if |s| < |pattern| then s
    else if s[..|pattern|] == pattern then RemoveAll(s[|pattern|..], pattern)
    else [s[0]] + RemoveAll(s[1..], pattern)
  }

  /** A string without the pattern's last character holds no occurrence of it. */
  lemma {:induction false} RemoveAllAbsent(s: string, pattern: string)
    requires |pattern| > 0
    requires pattern[|pattern| - 1] !in s
    ensures RemoveAll(s, pattern) == s
    decreases |s|
  {
    if |s| >= |pattern| {
      assert s[|pattern| - 1] in s;
      assert s[..|pattern|] != pattern;
      RemoveAllAbsent(s[1..], pattern);
    }
  }

  /** A tail without the pattern's last character is never touched by the
      deletion: it is kept verbatim at the end. */
  lemma {:induction false} RemoveAllKeepsTail(x: string, tail: string, pattern: string)
    requires |pattern| > 0
    requires pattern[|pattern| - 1] !in tail
    ensures RemoveAll(x + tail, pattern) == RemoveAll(x, pattern) + tail
    decreases |x|
  {
    var s := x + tail;
    var c := pattern[|pattern| - 1];
    if x == [] {
      assert s == tail;
      RemoveAllAbsent(tail, pattern);
    } else if |s| < |pattern| {
    } else if s[..|pattern|] == pattern {
      assert forall j :: |x| <= j < |s| ==> s[j] == tail[j - |x|];
      assert forall j :: |x| <= j < |s| ==> s[j] != c;
      assert s[|pattern| - 1] == c;
      assert x[..|pattern|] == pattern;
      assert s[|pattern|..] == x[|pattern|..] + tail;
      RemoveAllKeepsTail(x[|pattern|..], tail, pattern);
    } else {
      assert s[1..] == x[1..] + tail;
      RemoveAllKeepsTail(x[1..], tail, pattern);
      if |x| >= |pattern| {
        assert x[..|pattern|] == s[..|pattern|];
      }
    }
  }

  // ---------------------------------------------------------------------------
  // String comparison and max()
  // ---------------------------------------------------------------------------

  /** Python's a <= b on str: lexicographic by code point, a prefix first. */
  predicate LexLe(a: string, b: string)
    decreases |a|
  {
    a == [] || (b != [] && (a[0] < b[0] || (a[0] == b[0] && LexLe(a[1..], b[1..]))))
  }

  lemma {:induction false} LexLeTotal(a: string, b: string)
    ensures LexLe(a, b) || LexLe(b, a)
    decreases |a|
  {
    if a != [] && b != [] && a[0] == b[0] {
      LexLeTotal(a[1..], b[1..]);
    }
  }

  lemma {:induction false} LexLeAntisymmetric(a: string, b: string)
    requires LexLe(a, b) && LexLe(b, a)
    ensures a == b
    decreases |a|
  {
    if a != [] {
      LexLeAntisymmetric(a[1..], b[1..]);
    }
  }

  lemma {:induction false} LexLeTransitive(a: string, b: string, c: string)
    requires LexLe(a, b) && LexLe(b, c)
    ensures LexLe(a, c)
    decreases |a|
  {
    if a != [] && a[0] == b[0] && b[0] == c[0] {
      LexLeTransitive(a[1..], b[1..], c[1..]);
    }
  }

  predicate IsLexMax(m: string, keys: set<string>) {
    m in keys && forall k :: k in keys ==> LexLe(k, m)
  }

  lemma {:induction false} LexMaxExists(keys: set<string>)
    requires keys != {}
    ensures exists m :: IsLexMax(m, keys)
    decreases |keys|
  {
    var k :| k in keys;
    if keys == {k} {
      assert LexLe(k, k) by { LexLeTotal(k, k); }
      assert IsLexMax(k, keys);
    } else {
      var rest := keys - {k};
      LexMaxExists(rest);
      var m :| IsLexMax(m, rest);
      LexLeTotal(k, m);
      if LexLe(k, m) {
        assert IsLexMax(m, keys);
      } else {
        forall j | j in keys ensures LexLe(j, k) {
          if j != k {
            LexLeTransitive(j, m, k);
          } else {
            LexLeTotal(k, k);
          }
        }
        assert IsLexMax(k, keys);
      }
    }
  }

  lemma LexMaxUnique(m1: string, m2: string, keys: set<string>)
    requires IsLexMax(m1, keys) && IsLexMax(m2, keys)
    ensures m1 == m2
  {
    LexLeAntisymmetric(m1, m2);
  }

  /** The greatest string of a non-empty set, as Python's max() over str. */
  ghost function LexMax(keys: set<string>): (m: string)
    requires keys != {}
    ensures IsLexMax(m, keys)
  {
    LexMaxExists(keys);
    var m :| IsLexMax(m, keys); m
  }

  /** max(keys), computed as Python does: keep the current best and replace it by
      any later element that compares greater. */
  method MaxString(keys: set<string>) returns (m: string)
    requires keys != {}
    ensures IsLexMax(m, keys)
    ensures m == LexMax(keys)
  {
    var rest := keys;
    m :| m in rest;
    rest := rest - {m};
    LexLeTotal(m, m);
    while rest != {}
      invariant rest <= keys && m in keys && m !in rest
      invariant forall k :: k in keys && k !in rest ==> LexLe(k, m)
      decreases |rest|
    {
      var k :| k in rest;
      if !LexLe(k, m) {
        LexLeTotal(k, m);
        LexLeTotal(k, k);
        forall j | j in keys && j !in rest ensures LexLe(j, k) {
          LexLeTransitive(j, m, k);
        }
        m := k;
      }
      rest := rest - {k};
    }
    LexMaxUnique(m, LexMax(keys), keys);
  }
}
