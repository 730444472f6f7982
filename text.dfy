/**
 * The Python string operations the cleaning code relies on, over `seq<char>`:
 * `str.strip()`, `str.lower()`, `str.title()` and the substring test `p in s`.
 * Lower- and title-casing are modelled for ASCII letters only.
 */
module Text {
  import opened Values

  /** `str.isspace()` for one character: the ASCII controls 9-13 and 28-31, the
      space, and the Unicode separators Python counts as whitespace. */
  predicate IsSpace(c: char) {
    || ('\t' <= c <= '\r')
    || ('\U{1C}' <= c <= '\U{1F}')
    || c == ' '
    || c == '\U{85}'
    || c == '\U{A0}'
    || c == '\U{1680}'
    || ('\U{2000}' <= c <= '\U{200A}')
    || c == '\U{2028}'
    || c == '\U{2029}'
    || c == '\U{202F}'
    || c == '\U{205F}'
    || c == '\U{3000}'
  }

  predicate AllSpace(s: string) {
    forall k :: 0 <= k < |s| ==> IsSpace(s[k])
  }

  /** Neither end of `s` is whitespace. */
  predicate Stripped(s: string) {
    s == [] || (!IsSpace(s[0]) && !IsSpace(s[|s| - 1]))
  }

  /** `str.lstrip()`: what is left after the leading whitespace. */
  function TrimStart(s: string): string {
    if s != [] && IsSpace(s[0]) then TrimStart(s[1..]) else s
  }

  /** `str.rstrip()`: what is left before the trailing whitespace. */
  function TrimEnd(s: string): string {
    if s != [] && IsSpace(s[|s| - 1]) then TrimEnd(s[..|s| - 1]) else s
  }

  /** `str.strip()`. */
  function Strip(s: string): string {
    TrimEnd(TrimStart(s))
  }

  /** `str.lstrip()` removes exactly the leading whitespace. */
  lemma {:induction false} TrimStartFacts(s: string)
    ensures |TrimStart(s)| <= |s| && TrimStart(s) == s[|s| - |TrimStart(s)|..]
    ensures AllSpace(s[..|s| - |TrimStart(s)|])
    ensures TrimStart(s) == [] || !IsSpace(TrimStart(s)[0])
  {
    if s != [] && IsSpace(s[0]) {
      var r := TrimStart(s[1..]);
      TrimStartFacts(s[1..]);
      assert s[1..][..|s| - 1 - |r|] == s[1..|s| - |r|];
    }
  }

  /** `str.rstrip()` removes exactly the trailing whitespace. */
  lemma {:induction false} TrimEndFacts(s: string)
    ensures |TrimEnd(s)| <= |s| && TrimEnd(s) == s[..|TrimEnd(s)|]
    ensures AllSpace(s[|TrimEnd(s)|..])
    ensures TrimEnd(s) == [] || !IsSpace(TrimEnd(s)[|TrimEnd(s)| - 1])
  {
    if s != [] && IsSpace(s[|s| - 1]) {
      var r := TrimEnd(s[..|s| - 1]);
      TrimEndFacts(s[..|s| - 1]);
      assert forall k :: |r| <= k < |s| - 1 ==> s[k] == s[..|s| - 1][|r|..][k - |r|];
    }
  }

  /** `str.strip()` leaves the part of `s` between its leading and its
      trailing whitespace, and neither end of it is whitespace. */
  lemma StripFacts(s: string)
    ensures exists i, j :: 0 <= i <= j <= |s| && Strip(s) == s[i..j] && AllSpace(s[..i]) && AllSpace(s[j..])
    ensures Stripped(Strip(s))
  {
    var t := TrimStart(s);
    var r := TrimEnd(t);
    TrimStartFacts(s);
    StripSlice(s, t, r);
    StripSpace(s, t, r);
    StripEnds(t, r);
    var i, j := |s| - |t|, |s| - |t| + |r|;
    assert 0 <= i <= j <= |s| && r == s[i..j] && AllSpace(s[..i]) && AllSpace(s[j..]);
  }

  /** The two trims leave a slice of `s`. */
  lemma StripSlice(s: string, t: string, r: string)
    requires t == TrimStart(s) && r == TrimEnd(t)
    ensures |t| <= |s| && |s| - |t| + |r| <= |s|
    ensures r == s[|s| - |t|..|s| - |t| + |r|]
  {
    TrimStartFacts(s);
    TrimEndFacts(t);
    PrefixOfSuffix(s, t, r);
  }

  /** A prefix of a suffix of `s` is a slice of `s`. */
  lemma PrefixOfSuffix(s: string, t: string, r: string)
    requires |t| <= |s| && t == s[|s| - |t|..]
    requires |r| <= |t| && r == t[..|r|]
    ensures r == s[|s| - |t|..|s| - |t| + |r|]
  {
  }

  /** What the two trims cut off is whitespace. */
  lemma StripSpace(s: string, t: string, r: string)
    requires t == TrimStart(s) && r == TrimEnd(t)
    ensures |t| <= |s| && |s| - |t| + |r| <= |s|
    ensures AllSpace(s[..|s| - |t|]) && AllSpace(s[|s| - |t| + |r|..])
  {
    TrimStartFacts(s);
    TrimEndFacts(t);
    SuffixOfSuffix(s, t, |r|);
  }

  /** A suffix of a suffix of `s` is a suffix of `s`. */
  lemma SuffixOfSuffix(s: string, t: string, k: nat)
    requires |t| <= |s| && t == s[|s| - |t|..] && k <= |t|
    ensures s[|s| - |t| + k..] == t[k..]
  {
  }

  /** Neither end of what the two trims leave is whitespace. */
  lemma StripEnds(t: string, r: string)
    requires t == [] || !IsSpace(t[0])
    requires r == TrimEnd(t)
    ensures Stripped(r)
  {
    TrimEndFacts(t);
    assert r != [] ==> r[0] == t[0];
  }

  function LowerChar(c: char): char {
    if 'A' <= c <= 'Z' then (c as int + 32) as char else c
  }

  function UpperChar(c: char): char {
    if 'a' <= c <= 'z' then (c as int - 32) as char else c
  }

  /** A character `str.title()` treats as cased (ASCII letters only here). */
  predicate IsLetter(c: char) {
    'A' <= c <= 'Z' || 'a' <= c <= 'z'
  }

  /** `str.lower()`, for ASCII letters. */
  function Lower(s: string): (r: string)
    ensures |r| == |s|
    ensures forall i :: 0 <= i < |s| ==> r[i] == LowerChar(s[i])
  {
    if s == [] then [] else [LowerChar(s[0])] + Lower(s[1..])
  }

  /** How `str.title()` rewrites one character: upper case at the start of a
      word, lower case right after a letter. */
  function TitleChar(c: char, afterLetter: bool): char {
    if afterLetter then LowerChar(c) else UpperChar(c)
  }

  function TitleFrom(s: string, afterLetter: bool): (r: string)
    ensures |r| == |s|
    ensures forall i :: 0 <= i < |s| ==>
      r[i] == TitleChar(s[i], if i == 0 then afterLetter else IsLetter(s[i - 1]))
  {
    if s == [] then [] else [TitleChar(s[0], afterLetter)] + TitleFrom(s[1..], IsLetter(s[0]))
  }

  /** `str.title()`, for ASCII letters: every letter that follows a non-letter
      (or starts the text) is upper-cased, every other letter lower-cased. */
  function Title(s: string): string {
    TitleFrom(s, false)
  }

  /** `s` begins with `p`. */
  predicate StartsWith(s: string, p: string) {
    p == [] || (s != [] && s[0] == p[0] && StartsWith(s[1..], p[1..]))
  }

  /** `p` occurs in `s` starting at position `i`. */
  predicate OccursAt(s: string, p: string, i: int) {
    0 <= i && i + |p| <= |s| && s[i..i + |p|] == p
  }

  /** Python's `p in s` for strings: `p` occurs in `s` as a substring. */
  predicate Contains(s: string, p: string) {
    StartsWith(s, p) || (s != [] && Contains(s[1..], p))
  }

  predicate IsDigit(c: char) {
    '0' <= c <= '9'
  }

  predicate AllDigits(s: string) {
    forall k :: 0 <= k < |s| ==> IsDigit(s[k])
  }

  /** The number a string of decimal digits denotes. */
  function DigitsValue(s: string): nat
    requires AllDigits(s)
  {
    if s == [] then 0 else 10 * DigitsValue(s[..|s| - 1]) + (s[|s| - 1] as int - '0' as int)
  }

  /** Reading text as an integer: an optional sign followed by one or more
      decimal digits; any other text is not an integer. */
  function ParseInteger(s: string): Option<int> {
    var signed := |s| > 0 && (s[0] == '-' || s[0] == '+');
    var digits := if signed then s[1..] else s;
    if digits != [] && AllDigits(digits) then
      Some(if signed && s[0] == '-' then 0 - DigitsValue(digits) as int else DigitsValue(digits))
    else
      None
  }

  /** The decimal digits of `n`, without leading zeros. */
  function DecimalText(n: nat): (r: string)
    ensures r != [] && AllDigits(r)
  {
    (if n < 10 then [] else DecimalText(n / 10)) + [('0' as int + n % 10) as char]
  }

  /** Python's `str(n)` for an integer. */
  function IntegerText(n: int): string {
    if n < 0 then "-" + DecimalText(-n) else DecimalText(n)
  }

  // ---------------------------------------------------------------------
  // Properties

  lemma {:induction false} DecimalTextValue(n: nat)
    ensures DigitsValue(DecimalText(n)) == n
  {
    var r := DecimalText(n);
    assert r[..|r| - 1] == if n < 10 then [] else DecimalText(n / 10);
    if n >= 10 {
      DecimalTextValue(n / 10);
    }
  }

  /** Reading back the text of an integer gives that integer. */
  lemma ParseIntegerOfText(n: int)
    ensures ParseInteger(IntegerText(n)) == Some(n)
  {
    if n < 0 {
      DecimalTextValue(-n);
      ParseNegative(DecimalText(-n));
    } else {
      DecimalTextValue(n);
      ParseDigits(DecimalText(n));
    }
  }

  lemma ParseDigits(d: string)
    requires d != [] && AllDigits(d)
    ensures ParseInteger(d) == Some(DigitsValue(d) as int)
  {
    assert IsDigit(d[0]);
  }

  lemma ParseNegative(d: string)
    requires d != [] && AllDigits(d)
    ensures ParseInteger("-" + d) == Some(0 - DigitsValue(d) as int)
  {
    var t := "-" + d;
    assert t[0] == '-' && t[1..] == d;
  }

  lemma {:induction false} StartsWithIff(s: string, p: string)
    ensures StartsWith(s, p) <==> |p| <= |s| && s[..|p|] == p
  {
    if p != [] && s != [] {
      StartsWithIff(s[1..], p[1..]);
      if |p| <= |s| && s[..|p|] == p {
        assert s[1..][..|p| - 1] == s[..|p|][1..];
      }
    }
  }

  lemma TailSlice(s: string, k: nat, n: nat)
    requires s != [] && k + n <= |s| - 1
    ensures s[1..][k..k + n] == s[k + 1..k + 1 + n]
  {
  }

  /** The recursive substring test agrees with "occurs at some position". */
  lemma {:induction false} ContainsIff(s: string, p: string)
    ensures Contains(s, p) <==> exists i :: OccursAt(s, p, i)
  {
    StartsWithIff(s, p);
    if StartsWith(s, p) {
      assert OccursAt(s, p, 0);
    }
    if s != [] {
      ContainsIff(s[1..], p);
      if exists i :: OccursAt(s, p, i) {
        var i :| OccursAt(s, p, i);
        if i > 0 {
          TailSlice(s, i - 1, |p|);
          assert OccursAt(s[1..], p, i - 1);
        }
      }
      if exists i :: OccursAt(s[1..], p, i) {
        var i :| OccursAt(s[1..], p, i);
        TailSlice(s, i, |p|);
        assert OccursAt(s, p, i + 1);
      }
    } else if p == [] {
      assert OccursAt(s, p, 0);
    }
  }

  /** A keyword whose first character never occurs in the text does not occur. */
  lemma {:induction false} NotContainsFirstChar(s: string, p: string)
    requires p != [] && p[0] !in s
    ensures !Contains(s, p)
  {
    if s != [] {
      assert p[0] !in s[1..] by {
        assert forall k :: 0 <= k < |s[1..]| ==> s[1..][k] == s[k + 1];
      }
      NotContainsFirstChar(s[1..], p);
    }
  }

  /** A keyword longer than the text does not occur in it. */
  lemma {:induction false} NotContainsLonger(s: string, p: string)
    requires |s| < |p|
    ensures !Contains(s, p)
  {
    StartsWithIff(s, p);
    if s != [] {
      NotContainsLonger(s[1..], p);
    }
  }

  /** A prefix of the text occurs in it. */
  lemma PrefixContained(s: string, p: string)
    requires |p| <= |s| && s[..|p|] == p
    ensures Contains(s, p)
  {
    StartsWithIff(s, p);
  }

  /** A substring of a substring is a substring. */
  lemma ContainsOfSlice(s: string, i: nat, j: nat, p: string)
    requires i <= j <= |s| && Contains(s[i..j], p)
    ensures Contains(s, p)
  {
    ContainsIff(s[i..j], p);
    var k :| OccursAt(s[i..j], p, k);
    var q := s[i..j];
    forall t | 0 <= t < |p|
      ensures s[i + k..i + k + |p|][t] == p[t]
    {
      assert q[k..k + |p|][t] == q[k + t] == s[i + k + t];
    }
    assert OccursAt(s, p, i + k);
    ContainsIff(s, p);
  }

  lemma LowerOfSlice(s: string, i: nat, j: nat)
    requires i <= j <= |s|
    ensures Lower(s[i..j]) == Lower(s)[i..j]
  {
  }

  /** Text without whitespace at either end is its own strip. */
  lemma StripOfStripped(s: string)
    requires Stripped(s)
    ensures Strip(s) == s
  {
  }

  /** Stripping twice is stripping once. */
  lemma StripIdempotent(s: string)
    ensures Strip(Strip(s)) == Strip(s)
  {
    StripFacts(s);
    StripOfStripped(Strip(s));
  }

  /** `s.strip()` is empty exactly when `s` is all whitespace. */
  lemma StripEmptyIff(s: string)
    ensures Strip(s) == [] <==> AllSpace(s)
  {
    StripFacts(s);
    var i, j :| 0 <= i <= j <= |s| && Strip(s) == s[i..j] && AllSpace(s[..i]) && AllSpace(s[j..]);
    if Strip(s) == [] {
      forall k | 0 <= k < |s|
        ensures IsSpace(s[k])
      {
        if k < i {
          assert s[k] == s[..i][k];
        } else {
          assert s[k] == s[j..][k - j];
        }
      }
    }
  }

  /** What title-casing does to one character: only its letter case. */
  lemma TitleCharFacts(c: char, afterLetter: bool)
    ensures IsLetter(TitleChar(c, afterLetter)) == IsLetter(c)
    ensures IsSpace(TitleChar(c, afterLetter)) == IsSpace(c)
    ensures LowerChar(TitleChar(c, afterLetter)) == LowerChar(c)
    ensures TitleChar(TitleChar(c, afterLetter), afterLetter) == TitleChar(c, afterLetter)
  {
  }

  /** Title-casing changes only letter case, so lower-casing forgets it. */
  lemma LowerOfTitle(s: string)
    ensures Lower(Title(s)) == Lower(s)
  {
    forall i | 0 <= i < |s|
      ensures Lower(Title(s))[i] == Lower(s)[i]
    {
      TitleCharFacts(s[i], i > 0 && IsLetter(s[i - 1]));
    }
  }

  /** Title-casing a title-cased text changes nothing. */
  lemma TitleIdempotent(s: string)
    ensures Title(Title(s)) == Title(s)
  {
    var t := Title(s);
    forall i | 0 <= i < |s|
      ensures Title(t)[i] == t[i]
    {
      TitleCharFacts(s[i], i > 0 && IsLetter(s[i - 1]));
      if i > 0 {
        TitleCharFacts(s[i - 1], i > 1 && IsLetter(s[i - 2]));
      }
    }
  }

  /** Title-casing does not move whitespace, so stripped text stays stripped. */
  lemma TitleKeepsStripped(s: string)
    requires Stripped(s)
    ensures Stripped(Title(s))
  {
    if s != [] {
      TitleCharFacts(s[0], false);
      TitleCharFacts(s[|s| - 1], |s| > 1 && IsLetter(s[|s| - 2]));
    }
  }
}
