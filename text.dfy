/**
 * String primitives that the reply generator relies on: JavaScript's
 * `String.prototype.trim` and `toLowerCase`, unanchored substring search
 * (what a regular expression made only of literal alternatives does),
 * `Array.prototype.reverse`, `Array.prototype.join`, and the decimal
 * rendering of a number inside a template literal.
 *
 * Lowercasing is modelled on ASCII letters only; every other character is
 * left unchanged.
 */
module Text {

  // ---------------------------------------------------------------------
  // Characters
  // ---------------------------------------------------------------------

  /** The characters `trim` removes: ECMAScript WhiteSpace and LineTerminator. */
  const Whitespace: set<char> := {
    '\t', '\n', '\U{000B}', '\U{000C}', '\r', ' ', '\U{00A0}', '\U{1680}',
    '\U{2000}', '\U{2001}', '\U{2002}', '\U{2003}', '\U{2004}', '\U{2005}',
    '\U{2006}', '\U{2007}', '\U{2008}', '\U{2009}', '\U{200A}',
    '\U{2028}', '\U{2029}', '\U{202F}', '\U{205F}', '\U{3000}', '\U{FEFF}'
  }

  predicate IsWhitespace(c: char) {
    c in Whitespace
  }

  predicate IsUpper(c: char) {
    'A' <= c <= 'Z'
  }

  function LowerChar(c: char): (r: char)
    ensures IsUpper(c) ==> r as int == c as int + 32
    ensures !IsUpper(c) ==> r == c
    ensures !IsUpper(r)
  {
    if IsUpper(c) then (c as int + 32) as char else c
  }

  /** `toLowerCase`, restricted to ASCII letters. */
  function Lower(s: string): (r: string)
    ensures |r| == |s|
    ensures forall i :: 0 <= i < |s| ==> r[i] == LowerChar(s[i])
  {
    if s == [] then [] else [LowerChar(s[0])] + Lower(s[1..])
  }

  /** `s` and `t` differ at most in the letter case of their characters. */
  predicate SameIgnoringCase(s: string, t: string) {
    |s| == |t| && forall i :: 0 <= i < |s| ==> LowerChar(s[i]) == LowerChar(t[i])
  }

  /** Strings that lowercase alike are exactly those equal up to case. */
  lemma LowerEqualIff(s: string, t: string)
    ensures Lower(s) == Lower(t) <==> SameIgnoringCase(s, t)
  {
    if SameIgnoringCase(s, t) {
      assert forall i :: 0 <= i < |s| ==> Lower(s)[i] == Lower(t)[i];
    }
    if Lower(s) == Lower(t) {
      assert forall i :: 0 <= i < |s| ==> LowerChar(s[i]) == Lower(s)[i];
    }
  }

  lemma LowerAppend(a: string, b: string)
    ensures Lower(a + b) == Lower(a) + Lower(b)
  {
    var l, r := Lower(a + b), Lower(a) + Lower(b);
    forall i | 0 <= i < |a + b|
      ensures l[i] == r[i]
    {
      if i < |a| {
        assert (a + b)[i] == a[i] && r[i] == Lower(a)[i];
      } else {
        assert (a + b)[i] == b[i - |a|] && r[i] == Lower(b)[i - |a|];
      }
    }
  }

  /** A whitespace character is never a letter, so case never changes it. */
  lemma WhitespaceIgnoresCase(c: char, d: char)
    requires LowerChar(c) == LowerChar(d)
    ensures IsWhitespace(c) <==> IsWhitespace(d)
    ensures IsWhitespace(c) ==> c == d
  {
  }

  // ---------------------------------------------------------------------
  // trim
  // ---------------------------------------------------------------------

  predicate AllWhitespace(s: string) {
    forall i :: 0 <= i < |s| ==> IsWhitespace(s[i])
  }

  /** Drops the leading whitespace: what is left is a suffix of `s` that
      does not start with whitespace, and what was dropped is all whitespace. */
  function TrimStart(s: string): (r: string)
    ensures |r| <= |s| && r == s[|s| - |r|..]
    ensures forall i :: 0 <= i < |s| - |r| ==> IsWhitespace(s[i])
    ensures r == [] || !IsWhitespace(r[0])
  {
    if |s| > 0 && IsWhitespace(s[0]) then TrimStart(s[1..]) else s
  }

  /** Drops the trailing whitespace: what is left is a prefix of `s` that
      does not end with whitespace, and what was dropped is all whitespace. */
  function TrimEnd(s: string): (r: string)
    ensures |r| <= |s| && r == s[..|r|]
    ensures forall i :: |r| <= i < |s| ==> IsWhitespace(s[i])
    ensures r == [] || !IsWhitespace(r[|r| - 1])
  {
    if |s| > 0 && IsWhitespace(s[|s| - 1]) then TrimEnd(s[..|s| - 1]) else s
  }

  /** `String.prototype.trim`. */
  function Trim(s: string): string {
    TrimEnd(TrimStart(s))
  }

  /** Where the part kept by `trim` starts. */
  function TrimOffset(s: string): nat
    requires |TrimStart(s)| <= |s|
  {
    |s| - |TrimStart(s)|
  }

  /** `trim` keeps a contiguous part of `s`: the slice that starts at TrimOffset. */
  lemma TrimIsSlice(s: string)
    ensures TrimOffset(s) + |Trim(s)| <= |s|
    ensures Trim(s) == s[TrimOffset(s)..TrimOffset(s) + |Trim(s)|]
  {
    TrimmedTail(TrimStart(s), s[TrimOffset(s)..]);
  }

  /** Everything `trim` drops, before or after the part it keeps, is whitespace. */
  lemma TrimDropsWhitespace(s: string)
    ensures forall i :: 0 <= i < TrimOffset(s) ==> IsWhitespace(s[i])
    ensures forall i :: TrimOffset(s) + |Trim(s)| <= i < |s| ==> IsWhitespace(s[i])
  {
    TrimmedTail(TrimStart(s), s[TrimOffset(s)..]);
  }

  lemma TrimmedTail(m: string, t: string)
    requires m == t
    ensures forall i :: |TrimEnd(m)| <= i < |t| ==> IsWhitespace(t[i])
    ensures TrimEnd(m) == t[..|TrimEnd(m)|]
  {
  }

  /** Neither end of a trimmed string is whitespace. */
  lemma TrimEnds(s: string)
    requires Trim(s) != []
    ensures !IsWhitespace(Trim(s)[0]) && !IsWhitespace(Trim(s)[|Trim(s)| - 1])
  {
    var m := TrimStart(s);
    assert Trim(s)[0] == m[0];
  }

  /** `trim` gives the empty string exactly when `s` is all whitespace. */
  lemma TrimEmptyIff(s: string)
    ensures Trim(s) == [] <==> AllWhitespace(s)
  {
    TrimIsSlice(s);
    TrimDropsWhitespace(s);
    if Trim(s) != [] { TrimEnds(s); }
    var lo := TrimOffset(s);
    if Trim(s) != [] {
      assert s[lo] == Trim(s)[0];
    }
  }

  lemma {:induction false} TrimStartIgnoresCase(s: string, t: string)
    requires SameIgnoringCase(s, t)
    ensures SameIgnoringCase(TrimStart(s), TrimStart(t))
    decreases |s|
  {
    if |s| > 0 {
      WhitespaceIgnoresCase(s[0], t[0]);
      if IsWhitespace(s[0]) {
        TrimStartIgnoresCase(s[1..], t[1..]);
      }
    }
  }

  lemma {:induction false} TrimEndIgnoresCase(s: string, t: string)
    requires SameIgnoringCase(s, t)
    ensures SameIgnoringCase(TrimEnd(s), TrimEnd(t))
    decreases |s|
  {
    if |s| > 0 {
      WhitespaceIgnoresCase(s[|s| - 1], t[|t| - 1]);
      if IsWhitespace(s[|s| - 1]) {
        TrimEndIgnoresCase(s[..|s| - 1], t[..|t| - 1]);
      }
    }
  }

  /** Changing letter case does not change where `trim` cuts. */
  lemma TrimIgnoresCase(s: string, t: string)
    requires SameIgnoringCase(s, t)
    ensures SameIgnoringCase(Trim(s), Trim(t))
  {
    TrimStartIgnoresCase(s, t);
    TrimEndIgnoresCase(TrimStart(s), TrimStart(t));
  }

  // ---------------------------------------------------------------------
  // Substring search
  // ---------------------------------------------------------------------

  predicate StartsWith(text: string, word: string) {
    |word| == 0 || (|text| > 0 && text[0] == word[0] && StartsWith(text[1..], word[1..]))
  }

  /** `word` occurs somewhere in `text`, with no anchors or word boundaries. */
  predicate Contains(text: string, word: string) {
    |word| <= |text| && (StartsWith(text, word) || Contains(text[1..], word))
  }

  /** Some word of `words` occurs in `text`: a regular expression that is an
      unanchored alternation of literal words. */
  predicate ContainsAny(text: string, words: seq<string>) {
    |words| > 0 && (Contains(text, words[0]) || ContainsAny(text, words[1..]))
  }

  predicate OccursAt(text: string, word: string, i: int) {
    0 <= i && i + |word| <= |text| && text[i..i + |word|] == word
  }

  lemma {:induction false} StartsWithIff(text: string, word: string)
    ensures StartsWith(text, word) <==> OccursAt(text, word, 0)
    decreases |word|
  {
    if |word| > 0 && |text| > 0 {
      StartsWithIff(text[1..], word[1..]);
      if OccursAt(text, word, 0) {
        assert text[1..][..|word| - 1] == word[1..];
      }
      if StartsWith(text, word) {
        assert text[..|word|] == [text[0]] + text[1..][..|word| - 1];
      }
    }
  }

  lemma OccursShift(text: string, word: string, i: int)
    requires |text| > 0 && i >= 0
    ensures OccursAt(text[1..], word, i) <==> OccursAt(text, word, i + 1)
  {
    if 0 <= i && i + |word| < |text| {
      assert text[1..][i..i + |word|] == text[i + 1..i + 1 + |word|];
    }
  }

  /** The search finds `word` exactly when it occurs at some position. */
  lemma {:induction false} ContainsIff(text: string, word: string)
    ensures Contains(text, word) <==> exists i :: OccursAt(text, word, i)
    decreases |text|
  {
    StartsWithIff(text, word);
    if |word| <= |text| && |text| > 0 {
      ContainsIff(text[1..], word);
      if Contains(text, word) && !StartsWith(text, word) {
        var i :| OccursAt(text[1..], word, i);
        OccursShift(text, word, i);
      }
      if exists i :: OccursAt(text, word, i) {
        var i :| OccursAt(text, word, i);
        if i > 0 {
          OccursShift(text, word, i - 1);
        }
      }
    }
  }

  /** A word that occurs in a part of a text occurs in the whole text. */
  lemma ContainsInPart(a: string, b: string, c: string, word: string)
    requires Contains(b, word)
    ensures Contains(a + b + c, word)
  {
    ContainsIff(b, word);
    var i :| OccursAt(b, word, i);
    assert (a + b + c)[|a| + i..|a| + i + |word|] == b[i..i + |word|];
    assert OccursAt(a + b + c, word, |a| + i);
    ContainsIff(a + b + c, word);
  }

  lemma StraddleMeetsSeparator(a: string, sep: char, b: string, word: string, i: int)
    requires OccursAt(a + [sep] + b, word, i) && i <= |a| < i + |word|
    ensures word[|a| - i] == sep
  {
    var t := a + [sep] + b;
    assert word[|a| - i] == t[i..i + |word|][|a| - i] == t[|a|];
  }

  /** A word without `sep` in it occurs in `a + [sep] + b` exactly when it
      occurs in `a` or in `b`: a match can never straddle the separator. */
  lemma ContainsAcross(a: string, sep: char, b: string, word: string)
    requires sep !in word
    ensures Contains(a + [sep] + b, word) <==> Contains(a, word) || Contains(b, word)
  {
    var t := a + [sep] + b;
    ContainsIff(t, word);
    ContainsIff(a, word);
    ContainsIff(b, word);
    if Contains(t, word) {
      var i :| OccursAt(t, word, i);
      if i + |word| <= |a| {
        assert t[i..i + |word|] == a[i..i + |word|];
        assert OccursAt(a, word, i);
      } else if i > |a| {
        assert t[|a| + 1..] == b;
        assert t[i..i + |word|] == b[i - |a| - 1..i - |a| - 1 + |word|];
        assert OccursAt(b, word, i - |a| - 1);
      } else {
        StraddleMeetsSeparator(a, sep, b, word, i);
        assert false;
      }
    }
    if Contains(a, word) {
      var i :| OccursAt(a, word, i);
      assert t[i..i + |word|] == a[i..i + |word|];
      assert OccursAt(t, word, i);
    }
    if Contains(b, word) {
      ContainsInPart(a + [sep], b, [], word);
      assert a + [sep] + b + [] == t;
    }
  }

  /** In a text of space-separated words, a keyword without a space occurs
      exactly when it occurs inside one of the words (lowercased). */
  lemma {:induction false} ContainsInWords(words: seq<string>, word: string)
    requires |words| > 0 && ' ' !in word
    ensures Contains(Lower(Join(words, " ")), word) <==>
      exists i :: 0 <= i < |words| && Contains(Lower(words[i]), word)
    decreases |words|
  {
    if |words| > 1 {
      var rest := Join(words[1..], " ");
      assert Join(words, " ") == words[0] + [' '] + rest;
      LowerAppend(words[0] + [' '], rest);
      LowerAppend(words[0], [' ']);
      assert Lower([' ']) == [' '];
      ContainsAcross(Lower(words[0]), ' ', Lower(rest), word);
      ContainsInWords(words[1..], word);
      if exists i :: 0 <= i < |words[1..]| && Contains(Lower(words[1..][i]), word) {
        var i :| 0 <= i < |words[1..]| && Contains(Lower(words[1..][i]), word);
        assert words[1..][i] == words[i + 1];
      }
      if exists i :: 0 <= i < |words| && Contains(Lower(words[i]), word) {
        var i :| 0 <= i < |words| && Contains(Lower(words[i]), word);
        if i > 0 {
          assert words[i] == words[1..][i - 1];
        }
      }
    }
  }

  lemma {:induction false} ContainsAnyIff(text: string, words: seq<string>)
    ensures ContainsAny(text, words) <==> exists k :: k in words && Contains(text, k)
    decreases |words|
  {
    if |words| > 0 {
      ContainsAnyIff(text, words[1..]);
      if Contains(text, words[0]) {
        assert words[0] in words;
      } else if ContainsAny(text, words[1..]) {
        var k :| k in words[1..] && Contains(text, k);
        assert k in words;
      }
      if exists k :: k in words && Contains(text, k) {
        var k :| k in words && Contains(text, k);
        if k != words[0] {
          assert k in words[1..];
        }
      }
    }
  }

  // ---------------------------------------------------------------------
  // Sequences
  // ---------------------------------------------------------------------

  /** `[...s].reverse()`. */
  function Reversed<T>(s: seq<T>): (r: seq<T>)
    ensures |r| == |s|
    ensures forall i :: 0 <= i < |s| ==> r[i] == s[|s| - 1 - i]
  {
    if s == [] then [] else [s[|s| - 1]] + Reversed(s[..|s| - 1])
  }

  lemma ReversedAppend<T>(a: seq<T>, b: seq<T>)
    ensures Reversed(a + b) == Reversed(b) + Reversed(a)
  {
    assert forall i :: 0 <= i < |a + b| ==> Reversed(a + b)[i] == (Reversed(b) + Reversed(a))[i];
  }

  /** `lines.join(sep)`. */
  function Join(lines: seq<string>, sep: string): string {
    if |lines| == 0 then []
    else if |lines| == 1 then lines[0]
    else lines[0] + sep + Join(lines[1..], sep)
  }

  /** `s.split(sep)` for a one-character separator. The route never splits;
      this is the inverse of Join, used to read a joined block back. */
  function Split(s: string, sep: char): (r: seq<string>)
    ensures |r| > 0
  {
    if s == [] then [[]]
    else
      var rest := Split(s[1..], sep);
      if s[0] == sep then [[]] + rest else [[s[0]] + rest[0]] + rest[1..]
  }

  lemma {:induction false} SplitWithout(s: string, sep: char)
    requires sep !in s
    ensures Split(s, sep) == [s]
  {
    if s != [] {
      SplitWithout(s[1..], sep);
      assert [s[0]] + s[1..] == s;
    }
  }

  lemma {:induction false} SplitAfter(a: string, sep: char, b: string)
    requires sep !in a
    ensures Split(a + [sep] + b, sep) == [a] + Split(b, sep)
    decreases |a|
  {
    if a == [] {
      assert [] + [sep] + b == [sep] + b;
      assert ([sep] + b)[1..] == b;
    } else {
      SplitAfter(a[1..], sep, b);
      assert (a + [sep] + b)[1..] == a[1..] + [sep] + b;
      assert [a[0]] + a[1..] == a;
    }
  }

  /** Splitting a joined text on the separator gives back the lines, provided
      no line contains the separator. */
  lemma {:induction false} SplitJoin(lines: seq<string>, sep: char)
    requires |lines| > 0
    requires forall i :: 0 <= i < |lines| ==> sep !in lines[i]
    ensures Split(Join(lines, [sep]), sep) == lines
    decreases |lines|
  {
    if |lines| == 1 {
      SplitWithout(lines[0], sep);
    } else {
      SplitJoin(lines[1..], sep);
      SplitAfter(lines[0], sep, Join(lines[1..], [sep]));
    }
  }

  // ---------------------------------------------------------------------
  // Decimal numerals
  // ---------------------------------------------------------------------

  function DigitChar(d: nat): char
    requires d < 10
  {
    ('0' as int + d) as char
  }

  predicate IsDigit(c: char) {
    '0' <= c <= '9'
  }

  /** The decimal numeral of `n`, as `${n}` renders a non-negative integer. */
  function Decimal(n: nat): (r: string)
    ensures |r| > 0
    ensures forall i :: 0 <= i < |r| ==> IsDigit(r[i])
    ensures r[0] == '0' ==> n == 0
  {
    if n < 10 then [DigitChar(n)] else Decimal(n / 10) + [DigitChar(n % 10)]
  }

  /** The value of a string of decimal digits. */
  function DecimalValue(s: string): nat
    requires forall i :: 0 <= i < |s| ==> IsDigit(s[i])
  {
    if s == [] then 0 else assert IsDigit(s[|s| - 1]); DecimalValue(s[..|s| - 1]) * 10 + (s[|s| - 1] as int - '0' as int)
  }

  /** Reading a rendered numeral gives back the number. */
  lemma {:induction false} DecimalRoundTrip(n: nat)
    ensures DecimalValue(Decimal(n)) == n
  {
    if n >= 10 {
      DecimalRoundTrip(n / 10);
      var r := Decimal(n);
      assert r[..|r| - 1] == Decimal(n / 10);
    }
  }
}
