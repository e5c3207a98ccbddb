/** The JavaScript semantics the front end leans on, written out: truthiness and `||`,
    `String(n)` for integers, `String.prototype.split` on one character and
    `String.prototype.trim`. */
module Js {
  import opened Wrappers

  /** An optional string is truthy when present and non-empty. */
  predicate StrTruthy(s: Option<string>) {
    s.Some? && s.value != ""
  }

  /** An optional number is truthy when present and non-zero (NaN is not modelled). */
  predicate NumTruthy(n: Option<int>) {
    n.Some? && n.value != 0
  }

  /** `a || fallback` for an optional string. */
  function StrOr(a: Option<string>, fallback: string): string {
    if StrTruthy(a) then a.value else fallback
  }

  /** `a || fallback` for an optional number. */
  function NumOr(a: Option<int>, fallback: int): int {
    if NumTruthy(a) then a.value else fallback
  }

  // ---------------------------------------------------------------------------
  // Decimal rendering of integers: what `${n}` and `n.toString()` produce.

  predicate IsDigit(c: char) {
    '0' <= c <= '9'
  }

  function DigitChar(d: nat): (c: char)
    requires d < 10
    ensures IsDigit(c)
  {
    "0123456789"[d]
  }

  function DigitValue(c: char): (d: nat)
    requires IsDigit(c)
    ensures d < 10
  {
    (c as int) - ('0' as int)
  }

  lemma DigitRoundTrip(d: nat)
    requires d < 10
    ensures DigitValue(DigitChar(d)) == d
  {
  }

  /** The decimal digits of `n`, without leading zeros. */
  function NatToString(n: nat): (r: string)
    ensures |r| >= 1
    ensures forall k :: 0 <= k < |r| ==> IsDigit(r[k])
    ensures r[0] == '0' ==> r == "0"
  {
    if n < 10 then [DigitChar(n)] else NatToString(n / 10) + [DigitChar(n % 10)]
  }

  /** `String(n)` for an integer `n`. */
  function NumberToString(n: int): string {
    if n < 0 then "-" + NatToString(-n) else NatToString(n)
  }

  predicate AllDigits(s: string) {
    forall k :: 0 <= k < |s| ==> IsDigit(s[k])
  }

  /** The value of a string of decimal digits. */
  function DigitsValue(s: string): nat
    requires AllDigits(s)
  {
    if s == [] then 0 else DigitsValue(s[..|s| - 1]) * 10 + DigitValue(s[|s| - 1])
  }

  /** Reads back an integer written by NumberToString; None for anything else. */
  function ParseNumber(s: string): Option<int> {
    if |s| >= 2 && s[0] == '-' && AllDigits(s[1..]) then Some(0 - DigitsValue(s[1..]))
    else if |s| >= 1 && AllDigits(s) then Some(DigitsValue(s))
    else None
  }

  lemma {:induction false} NatToStringRoundTrip(n: nat)
    ensures DigitsValue(NatToString(n)) == n
  {
    var r := NatToString(n);
    if n < 10 {
      DigitRoundTrip(n);
      assert r[..|r| - 1] == [];
    } else {
      NatToStringRoundTrip(n / 10);
      DigitRoundTrip(n % 10);
      assert r[..|r| - 1] == NatToString(n / 10);
    }
  }

  /** The text a number is rendered as determines the number. */
  lemma NumberToStringRoundTrip(n: int)
    ensures ParseNumber(NumberToString(n)) == Some(n)
  {
    var s := NumberToString(n);
    if n < 0 {
      var m: nat := -n;
      assert s == "-" + NatToString(m);
      NegativeRoundTrip(m);
      assert ParseNumber(s) == Some(-(m as int));
    } else {
      assert s == NatToString(n);
      NonNegativeRoundTrip(n);
      assert ParseNumber(s) == Some(n);
    }
  }

  lemma NonNegativeRoundTrip(n: nat)
    ensures ParseNumber(NatToString(n)) == Some(n)
  {
    var d := NatToString(n);
    NatToStringRoundTrip(n);
    assert AllDigits(d);
    assert d[0] != '-' by { assert IsDigit(d[0]); }
  }

  lemma NegativeRoundTrip(m: nat)
    requires m > 0
    ensures ParseNumber("-" + NatToString(m)) == Some(-(m as int))
  {
    var d := NatToString(m);
    var s := "-" + d;
    NatToStringRoundTrip(m);
    assert s[1..] == d;
    assert AllDigits(d);
    assert |s| >= 2 && s[0] == '-';
  }

  lemma NumberToStringInjective(a: int, b: int)
    ensures NumberToString(a) == NumberToString(b) ==> a == b
  {
    NumberToStringRoundTrip(a);
    NumberToStringRoundTrip(b);
  }

  // ---------------------------------------------------------------------------
  // `s.split(sep)` for a one-character separator, and its inverse `parts.join(sep)`.

  function Split(s: string, sep: char): (r: seq<string>)
    ensures |r| >= 1
    ensures forall k :: 0 <= k < |r| ==> sep !in r[k]
  {
    if s == [] then [""]
    else
      var rest := Split(s[1..], sep);
      if s[0] == sep then [""] + rest else [[s[0]] + rest[0]] + rest[1..]
  }

  function Join(parts: seq<string>, sep: char): string
    requires |parts| >= 1
  {
    if |parts| == 1 then parts[0] else parts[0] + [sep] + Join(parts[1..], sep)
  }

  /** The number of occurrences of `c` in `s`. */
  function Occurrences(s: string, c: char): nat {
    if s == [] then 0 else (if s[0] == c then 1 else 0) + Occurrences(s[1..], c)
  }

  /** Splitting loses nothing: joining the pieces with the separator gives the input back. */
  lemma {:induction false} JoinSplit(s: string, sep: char)
    ensures Join(Split(s, sep), sep) == s
  {
    if s != [] {
      var rest := Split(s[1..], sep);
      JoinSplit(s[1..], sep);
      var r := Split(s, sep);
      if s[0] == sep {
        assert r == [""] + rest;
        assert r[1..] == rest;
        assert Join(r, sep) == "" + [sep] + Join(rest, sep);
        assert [s[0]] + s[1..] == s;
      } else {
        assert r == [[s[0]] + rest[0]] + rest[1..];
        if |rest| == 1 {
          assert Join(r, sep) == [s[0]] + rest[0];
          assert Join(rest, sep) == rest[0];
        } else {
          assert r[1..] == rest[1..];
          assert Join(r, sep) == ([s[0]] + rest[0]) + [sep] + Join(rest[1..], sep);
          assert Join(rest, sep) == rest[0] + [sep] + Join(rest[1..], sep);
        }
        assert [s[0]] + s[1..] == s;
      }
    }
  }

  /** A split yields one more piece than there are separators. */
  lemma {:induction false} SplitCount(s: string, sep: char)
    ensures |Split(s, sep)| == Occurrences(s, sep) + 1
  {
    if s != [] {
      SplitCount(s[1..], sep);
    }
  }

  /** Splitting a string that does not contain the separator gives that string alone. */
  lemma {:induction false} SplitWithoutSeparator(s: string, sep: char)
    requires sep !in s
    ensures Split(s, sep) == [s]
  {
    if s != [] {
      assert s[0] != sep;
      assert forall k :: 0 <= k < |s[1..]| ==> s[1..][k] == s[k + 1];
      assert sep !in s[1..];
      SplitWithoutSeparator(s[1..], sep);
      assert [s[0]] + s[1..] == s;
    }
  }

  /** Splitting `a + [sep] + b`, where `a` has no separator, splits off `a`. */
  lemma {:induction false} SplitAtSeparator(a: string, b: string, sep: char)
    requires sep !in a
    ensures Split(a + [sep] + b, sep) == [a] + Split(b, sep)
  {
    if a == [] {
      assert a + [sep] + b == [sep] + b;
      assert ([sep] + b)[1..] == b;
    } else {
      SplitAtSeparator(a[1..], b, sep);
      assert (a + [sep] + b)[1..] == a[1..] + [sep] + b;
      assert [a[0]] + a[1..] == a;
    }
  }

  /** The other round trip: pieces free of the separator are recovered from their join. */
  lemma {:induction false} SplitJoin(parts: seq<string>, sep: char)
    requires |parts| >= 1
    requires forall k :: 0 <= k < |parts| ==> sep !in parts[k]
    ensures Split(Join(parts, sep), sep) == parts
  {
    if |parts| == 1 {
      SplitWithoutSeparator(parts[0], sep);
    } else {
      SplitJoin(parts[1..], sep);
      SplitAtSeparator(parts[0], Join(parts[1..], sep), sep);
      assert [parts[0]] + parts[1..] == parts;
    }
  }

  // ---------------------------------------------------------------------------
  // `s.trim()`: ECMAScript's WhiteSpace and LineTerminator code points.

  predicate IsWhiteSpace(c: char) {
    || c == '\t' || c == '\n' || c == '\U{B}' || c == '\U{C}' || c == '\r' || c == ' '
    || c == '\U{A0}' || c == '\U{1680}' || ('\U{2000}' <= c <= '\U{200A}')
    || c == '\U{2028}' || c == '\U{2029}' || c == '\U{202F}' || c == '\U{205F}'
    || c == '\U{3000}' || c == '\U{FEFF}'
  }

  /** `s` with its leading white space removed: a suffix of `s`. */
  function TrimStart(s: string): (r: string)
    ensures |r| <= |s| && r == s[|s| - |r|..]
    ensures forall k :: 0 <= k < |s| - |r| ==> IsWhiteSpace(s[k])
    ensures r == [] || !IsWhiteSpace(r[0])
  {
    if s != [] && IsWhiteSpace(s[0]) then TrimStart(s[1..]) else s
  }

  /** `s` with its trailing white space removed: a prefix of `s`. */
  function TrimEnd(s: string): (r: string)
    ensures |r| <= |s| && r == s[..|r|]
    ensures forall k :: |r| <= k < |s| ==> IsWhiteSpace(s[k])
    ensures r == [] || !IsWhiteSpace(r[|r| - 1])
  {
    if s != [] && IsWhiteSpace(s[|s| - 1]) then TrimEnd(s[..|s| - 1]) else s
  }

  function Trim(s: string): string {
    TrimEnd(TrimStart(s))
  }

  /** Where `trim`'s result starts in its input: the length of the leading white space. */
  function TrimOffset(s: string): nat {
    |s| - |TrimStart(s)|
  }

  /** `trim` keeps a contiguous middle part of its input and cuts only white space around it;
      what it keeps neither starts nor ends with white space. */
  lemma TrimShape(s: string)
    ensures var r, i := Trim(s), TrimOffset(s);
      && i + |r| <= |s| && r == s[i..i + |r|]
      && (forall k :: 0 <= k < i ==> IsWhiteSpace(s[k]))
      && (forall k :: i + |r| <= k < |s| ==> IsWhiteSpace(s[k]))
      && (r == [] || (!IsWhiteSpace(r[0]) && !IsWhiteSpace(r[|r| - 1])))
  {
    TrimKeepsMiddle(s);
    TrimCutsTrailing(s);
    TrimEndsClean(s);
  }

  lemma TrimKeepsMiddle(s: string)
    ensures TrimOffset(s) + |Trim(s)| <= |s|
    ensures Trim(s) == s[TrimOffset(s)..TrimOffset(s) + |Trim(s)|]
  {
    var t := TrimStart(s);
    PrefixOfSuffix(s, |s| - |t|, |TrimEnd(t)|);
  }

  lemma PrefixOfSuffix(s: string, i: nat, n: nat)
    requires i + n <= |s|
    ensures s[i..][..n] == s[i..i + n]
  {
  }

  lemma TrimCutsTrailing(s: string)
    ensures forall k :: TrimOffset(s) + |Trim(s)| <= k < |s| ==> IsWhiteSpace(s[k])
  {
    var t := TrimStart(s);
    var r := TrimEnd(t);
    var i := |s| - |t|;
    forall k | i + |r| <= k < |s| ensures IsWhiteSpace(s[k]) {
      var j := k - i;
      assert |r| <= j < |t|;
      assert IsWhiteSpace(t[j]);
      assert s[k] == t[j];
    }
  }

  lemma TrimEndsClean(s: string)
    ensures Trim(s) == [] || (!IsWhiteSpace(Trim(s)[0]) && !IsWhiteSpace(Trim(s)[|Trim(s)| - 1]))
  {
    var t := TrimStart(s);
    var r := TrimEnd(t);
    if r != [] {
      assert r[0] == t[0];
    }
  }

  /** `trim` adds no character: one absent from the input is absent from the result. */
  lemma TrimExcludes(s: string, c: char)
    requires c !in s
    ensures c !in Trim(s)
  {
    TrimKeepsMiddle(s);
  }

  /** A text without white space at either end is its own trim. */
  lemma TrimUnchanged(s: string)
    requires s == [] || (!IsWhiteSpace(s[0]) && !IsWhiteSpace(s[|s| - 1]))
    ensures Trim(s) == s
  {
  }

  lemma TrimIdempotent(s: string)
    ensures Trim(Trim(s)) == Trim(s)
  {
    TrimShape(s);
    TrimUnchanged(Trim(s));
  }
}
