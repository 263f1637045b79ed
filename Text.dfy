/**
  String primitives of Go's `strings`, `strconv` and `unicode` packages, and the
  character classes of Go's RE2 regular expressions, on strings of Unicode
  scalar values.
 */
module Text {
  import opened Wrappers

  /** An ASCII decimal digit, the test `char >= '0' && char <= '9'`. */
  predicate IsDigit(c: char) { '0' <= c <= '9' }

  /** RE2's `\s`: ASCII space, tab, line feed, form feed, carriage return. */
  predicate IsRegexSpace(c: char) { c == ' ' || c == '\t' || c == '\n' || c == '\r' || c == '\U{000C}' }

  /** RE2's `\w`: `[0-9A-Za-z_]`. */
  predicate IsWordChar(c: char) { IsDigit(c) || 'a' <= c <= 'z' || 'A' <= c <= 'Z' || c == '_' }

  /** Go's `unicode.IsSpace`, the White_Space property, which `strings.TrimSpace` uses. */
  predicate IsUnicodeSpace(c: char)
  {
    || ('\t' <= c <= '\r') || c == ' ' || c == '\U{0085}' || c == '\U{00A0}' || c == '\U{1680}'
    || ('\U{2000}' <= c <= '\U{200A}') || c == '\U{2028}' || c == '\U{2029}' || c == '\U{202F}'
    || c == '\U{205F}' || c == '\U{3000}'
  }

  predicate IsUpperAscii(c: char) { 'A' <= c <= 'Z' }

  /**
    The lower-case mapping of `unicode.ToLower`, exact on every character
    whose lower case is ASCII: the ASCII capitals, U+0130 (dotted capital I)
    and U+212A (Kelvin sign). Other characters are kept as they are; their
    Go lower case is non-ASCII too, and every use of a lowered string in this
    core looks only at ASCII characters.
   */
  function LowerChar(c: char): (r: char)
    ensures !IsUpperAscii(r)
    ensures IsDigit(r) <==> IsDigit(c)
    ensures c == r <==> !IsUpperAscii(c) && c != '\U{0130}' && c != '\U{212A}'
  {
    if IsUpperAscii(c) then (c as int + 32) as char
    else if c == '\U{0130}' then 'i'
    else if c == '\U{212A}' then 'k'
    else c
  }

  /** `strings.ToLower`, one character at a time. */
  function ToLower(s: string): (r: string)
    ensures |r| == |s|
    ensures forall i :: 0 <= i < |s| ==> r[i] == LowerChar(s[i])
  {
    seq(|s|, i requires 0 <= i < |s| => LowerChar(s[i]))
  }

  predicate HasPrefix(s: string, p: string) { |p| <= |s| && s[..|p|] == p }

  predicate HasSuffix(s: string, p: string) { |p| <= |s| && s[|s| - |p|..] == p }

  /** `strings.Contains`: `p` occurs somewhere in `s`. */
  predicate Contains(s: string, p: string)
    decreases |s|
  {
    HasPrefix(s, p) || (|s| > 0 && Contains(s[1..], p))
  }

  /** `p` occurs in `s` at index `i`. */
  predicate OccursAt(s: string, p: string, i: int)
  {
    0 <= i && i + |p| <= |s| && s[i..i + |p|] == p
  }

  /** An occurrence at a known index makes `Contains` hold. */
  lemma {:induction false} ContainsOfOccursAt(s: string, p: string, i: int)
    requires OccursAt(s, p, i)
    ensures Contains(s, p)
    decreases i
  {
    if i == 0 {
      assert s[..|p|] == s[0..0 + |p|];
    } else {
      assert s[1..][i - 1..i - 1 + |p|] == s[i..i + |p|];
      ContainsOfOccursAt(s[1..], p, i - 1);
    }
  }

  /** `Contains` is witnessed by an index. */
  lemma {:induction false} OccursAtOfContains(s: string, p: string) returns (i: nat)
    requires Contains(s, p)
    ensures OccursAt(s, p, i)
    decreases |s|
  {
    if HasPrefix(s, p) {
      i := 0;
      assert s[0..0 + |p|] == s[..|p|];
    } else {
      var j := OccursAtOfContains(s[1..], p);
      assert s[1..][j..j + |p|] == s[j + 1..j + 1 + |p|];
      i := j + 1;
    }
  }

  /** `strings.TrimSuffix`. */
  function TrimSuffix(s: string, suffix: string): (r: string)
    ensures HasSuffix(s, suffix) ==> r + suffix == s
    ensures !HasSuffix(s, suffix) ==> r == s
  {
    if HasSuffix(s, suffix) then s[..|s| - |suffix|] else s
  }

  /** Drops leading characters of `s` that satisfy `IsUnicodeSpace`. */
  function TrimLeftSpace(s: string): (r: string)
    ensures |r| <= |s| && r == s[|s| - |r|..]
    ensures r == [] || !IsUnicodeSpace(r[0])
    ensures forall i :: 0 <= i < |s| - |r| ==> IsUnicodeSpace(s[i])
    decreases |s|
  {
    if |s| > 0 && IsUnicodeSpace(s[0]) then TrimLeftSpace(s[1..]) else s
  }

  /** Drops trailing characters of `s` that satisfy `IsUnicodeSpace`. */
  function TrimRightSpace(s: string): (r: string)
    ensures |r| <= |s| && r == s[..|r|]
    ensures r == [] || !IsUnicodeSpace(r[|r| - 1])
    ensures forall i :: |r| <= i < |s| ==> IsUnicodeSpace(s[i])
    decreases |s|
  {
    if |s| > 0 && IsUnicodeSpace(s[|s| - 1]) then TrimRightSpace(s[..|s| - 1]) else s
  }

  /** `strings.TrimSpace`: no white space is left at either end. */
  function TrimSpace(s: string): (r: string)
    ensures r == [] || (!IsUnicodeSpace(r[0]) && !IsUnicodeSpace(r[|r| - 1]))
  {
    var u := TrimLeftSpace(s);
    var r := TrimRightSpace(u);
    assert r != [] ==> r[0] == u[0];
    r
  }

  /** Trimming is idempotent, and it removes exactly the white space at both ends. */
  lemma TrimSpaceProperties(s: string)
    ensures TrimSpace(TrimSpace(s)) == TrimSpace(s)
    ensures TrimSpace(s) == [] || (!IsUnicodeSpace(TrimSpace(s)[0]) && !IsUnicodeSpace(TrimSpace(s)[|TrimSpace(s)| - 1]))
    ensures TrimSpace(s) == [] <==> forall i :: 0 <= i < |s| ==> IsUnicodeSpace(s[i])
  {
    var u := TrimLeftSpace(s);
    var t := TrimRightSpace(u);
    if t != [] {
      assert t[0] == u[0];
      assert TrimLeftSpace(t) == t;
      TrimRightFixed(t);
    }
    if t == [] {
      forall i | 0 <= i < |s| ensures IsUnicodeSpace(s[i]) {
        if i >= |s| - |u| { assert s[i] == u[i - (|s| - |u|)]; }
      }
    } else {
      assert s[|s| - |u|] == u[0];
    }
  }

  lemma TrimRightFixed(t: string)
    requires t == [] || !IsUnicodeSpace(t[|t| - 1])
    ensures TrimRightSpace(t) == t
  {
  }

  // ----- decimal numbers -----

  function DigitValue(c: char): (d: nat)
    requires IsDigit(c)
    ensures d < 10
  {
    c as int - '0' as int
  }

  function DigitChar(d: nat): (c: char)
    requires d < 10
    ensures IsDigit(c) && DigitValue(c) == d
  {
    ('0' as int + d) as char
  }

  predicate AllDigits(s: string) { forall i :: 0 <= i < |s| ==> IsDigit(s[i]) }

  /** The value of a string of decimal digits, what `strconv.Atoi` returns for it. */
  function DecimalValue(s: string): (v: nat)
    requires AllDigits(s)
    decreases |s|
  {
    if s == [] then 0 else DecimalValue(s[..|s| - 1]) * 10 + DigitValue(s[|s| - 1])
  }

  /** `x` is a decimal numeral that reads back as `n`. */
  predicate IsDecimalOf(x: string, n: int)
  {
    x != [] && AllDigits(x) && DecimalValue(x) == n
  }

  /** The decimal digits of `n`, as `%d` prints it. */
  function NatToString(n: nat): (s: string)
    ensures |s| > 0 && AllDigits(s)
    decreases n
  {
    if n < 10 then [DigitChar(n)] else NatToString(n / 10) + [DigitChar(n % 10)]
  }

  /** `%d` of an integer: a minus sign before the digits of a negative one. */
  function IntToString(n: int): (s: string)
  {
    if n < 0 then "-" + NatToString(-n) else NatToString(n)
  }

  /** Reading the digits `%d` printed gives the number back: its magnitude after the sign. */
  lemma IntToStringReadsBack(n: int)
    ensures n >= 0 ==> IsDecimalOf(IntToString(n), n)
    ensures n < 0 ==> var s := IntToString(n); |s| > 1 && s[0] == '-' && IsDecimalOf(s[1..], -n)
  {
    if n < 0 {
      DecimalValueOfNatToString(-n);
      assert ("-" + NatToString(-n))[1..] == NatToString(-n);
    } else {
      DecimalValueOfNatToString(n);
    }
  }

  /** Printing a number and reading it back gives the number. */
  lemma {:induction false} DecimalValueOfNatToString(n: nat)
    ensures DecimalValue(NatToString(n)) == n
    decreases n
  {
    if n >= 10 {
      var a := NatToString(n / 10);
      var s := a + [DigitChar(n % 10)];
      assert s[..|s| - 1] == a;
      DecimalValueOfNatToString(n / 10);
    }
  }

  const MaxInt64: int := 0x7FFF_FFFF_FFFF_FFFF

  /**
    `strconv.Atoi` on a 64-bit platform: an optional sign, then at least one
    decimal digit; a value outside the 64-bit range is an error.
   */
  function Atoi(s: string): (r: Option<int>)
    ensures r.Some? ==> -MaxInt64 - 1 <= r.value <= MaxInt64
    ensures AllDigits(s) && s != [] && DecimalValue(s) <= MaxInt64 ==> r == Some(DecimalValue(s))
    ensures s == [] ==> r.None?
  {
    if s == [] then None
    else if (s[0] == '+' || s[0] == '-') && |s| > 1 && AllDigits(s[1..]) then
      var magnitude: int := DecimalValue(s[1..]);
      var v := if s[0] == '-' then -magnitude else magnitude;
      if -MaxInt64 - 1 <= v <= MaxInt64 then Some(v) else None
    else if AllDigits(s) && DecimalValue(s) <= MaxInt64 then Some(DecimalValue(s))
    else None
  }

  /** A non-empty string of digits parses exactly when its value fits 64 bits. */
  lemma AtoiOfDigits(s: string)
    requires AllDigits(s) && s != []
    ensures Atoi(s) == if DecimalValue(s) <= MaxInt64 then Some(DecimalValue(s)) else None
  {
    assert IsDigit(s[0]);
  }

  // ----- searching -----

  /** `strings.Index` for a non-empty separator: the first occurrence of `sep` in `s`. */
  function IndexOf(s: string, sep: string): (r: Option<nat>)
    requires |sep| > 0
    ensures r.Some? ==> OccursAt(s, sep, r.value)
    ensures r.Some? ==> forall i :: 0 <= i < r.value ==> !OccursAt(s, sep, i)
    ensures r.None? ==> forall i :: !OccursAt(s, sep, i)
    decreases |s|
  {
    if |s| < |sep| then None
    else if s[..|sep|] == sep then Some(0)
    else
      var r := IndexOf(s[1..], sep);
      ShiftOccurrence(s, sep);
      if r.Some? then Some(r.value + 1) else None
  }

  /** An occurrence in `s` past the first character is an occurrence in `s[1..]`. */
  lemma ShiftOccurrence(s: string, sep: string)
    requires |s| > 0
    ensures forall i :: 1 <= i ==> (OccursAt(s, sep, i) <==> OccursAt(s[1..], sep, i - 1))
  {
    forall i | 1 <= i ensures OccursAt(s, sep, i) <==> OccursAt(s[1..], sep, i - 1) {
      if i + |sep| <= |s| {
        assert s[1..][i - 1..i - 1 + |sep|] == s[i..i + |sep|];
      }
    }
  }
}
