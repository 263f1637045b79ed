/**
  The week extractor: `extractWeekFromFilename`, which all three servers share
  except for the upper bound of an accepted week (48 in the sectioned server,
  100 in the embedded one, 10 in the minimal one).
 */
module WeekNumbers {
  import opened Wrappers
  import opened Text

  /** The substrings that mark a file name as naming a week, in the order they are tried. */
  const WeekTokens: seq<string> := ["week", "lesson", "chapter"]

  /** Every decimal digit of `s`, in order. */
  function Digits(s: string): (r: string)
    ensures AllDigits(r) && |r| <= |s|
    decreases |s|
  {
    if s == [] then [] else Digits(s[..|s| - 1]) + (if IsDigit(s[|s| - 1]) then [s[|s| - 1]] else [])
  }

  /** The name, lower-cased and without a trailing `.md`. */
  function Normalized(filename: string): string
  {
    TrimSuffix(ToLower(filename), ".md")
  }

  predicate HasWeekToken(s: string)
  {
    Contains(s, WeekTokens[0]) || Contains(s, WeekTokens[1]) || Contains(s, WeekTokens[2])
  }

  /**
    The week that `extractWeekFromFilename` reads from a file name: the number
    spelled by all digits of the normalized name, when that name contains one
    of the tokens and the number lies in [1, maxWeek]; 0 otherwise.
   */
  function FilenameWeek(filename: string, maxWeek: int): (w: int)
    ensures w == 0 || 1 <= w <= maxWeek
  {
    var lower := Normalized(filename);
    var parsed := Atoi(Digits(lower));
    if HasWeekToken(lower) && parsed.Some? && 1 <= parsed.value <= maxWeek then parsed.value else 0
  }

  /** The name contains one of `tokens`. */
  predicate ContainsSome(s: string, tokens: seq<string>)
  {
    exists q :: 0 <= q < |tokens| && Contains(s, tokens[q])
  }

  lemma HasWeekTokenIsContainsSome(s: string)
    ensures HasWeekToken(s) <==> ContainsSome(s, WeekTokens)
  {
    if HasWeekToken(s) {
      if Contains(s, WeekTokens[0]) { assert Contains(s, WeekTokens[0]); }
      else if Contains(s, WeekTokens[1]) { assert Contains(s, WeekTokens[1]); }
      else { assert Contains(s, WeekTokens[2]); }
    }
  }

  /**
    The source's extraction: lower-case the name, strip `.md`, then try the
    tokens in turn.
   */
  method ExtractWeekFromFilename(filename: string, maxWeek: int) returns (week: int)
    ensures week == FilenameWeek(filename, maxWeek)
  {
    var lower := ToLower(filename);
    lower := TrimSuffix(lower, ".md");
    HasWeekTokenIsContainsSome(lower);
    week := TryTokens(lower, WeekTokens, maxWeek);
  }

  /**
    The loop of the source: for each token the name contains, collect every
    digit of the name into `num` and accept `num` when it parses into a week
    in range.
   */
  method TryTokens(lower: string, tokens: seq<string>, maxWeek: int) returns (week: int)
    ensures var parsed := Atoi(Digits(lower));
            week == if ContainsSome(lower, tokens) && parsed.Some? && 1 <= parsed.value <= maxWeek
                    then parsed.value else 0
  {
    ghost var accepted := Atoi(Digits(lower)).Some? && 1 <= Atoi(Digits(lower)).value <= maxWeek;
    for p := 0 to |tokens|
      invariant forall q :: 0 <= q < p ==> !Contains(lower, tokens[q]) || !accepted
    {
      if Contains(lower, tokens[p]) {
        var num := CollectDigits(lower);
        var parsed := Atoi(num);
        if parsed.Some? && 1 <= parsed.value <= maxWeek {
          return parsed.value;
        }
      }
    }
    return 0;
  }

  /** The inner loop of the source: append every digit of `s` to `num`. */
  method CollectDigits(s: string) returns (num: string)
    ensures num == Digits(s)
  {
    num := "";
    var i := 0;
    while i < |s|
      invariant 0 <= i <= |s|
      invariant num == Digits(s[..i])
    {
      assert s[..i + 1][..i] == s[..i];
      if IsDigit(s[i]) {
        num := num + [s[i]];
      }
      i := i + 1;
    }
    assert s[..|s|] == s;
  }

  // ----- what the digits are -----

  lemma {:induction false} DigitsAppend(a: string, b: string)
    ensures Digits(a + b) == Digits(a) + Digits(b)
    decreases |b|
  {
    if b == [] {
      assert a + b == a;
    } else {
      var b' := b[..|b| - 1];
      assert (a + b)[..|a + b| - 1] == a + b';
      DigitsAppend(a, b');
    }
  }

  lemma {:induction false} DigitsOfDigitString(s: string)
    requires AllDigits(s)
    ensures Digits(s) == s
    decreases |s|
  {
    if s != [] {
      DigitsOfDigitString(s[..|s| - 1]);
    }
  }

  lemma {:induction false} DigitsOfNonDigits(s: string)
    requires forall i :: 0 <= i < |s| ==> !IsDigit(s[i])
    ensures Digits(s) == []
    decreases |s|
  {
    if s != [] {
      DigitsOfNonDigits(s[..|s| - 1]);
    }
  }

  /** Lower-casing never adds, drops or changes a digit. */
  lemma {:induction false} DigitsOfLower(s: string)
    ensures Digits(ToLower(s)) == Digits(s)
    decreases |s|
  {
    if s != [] {
      var n := |s| - 1;
      assert ToLower(s)[..n] == ToLower(s[..n]);
      DigitsOfLower(s[..n]);
    }
  }

  /** The digits of the normalized name are the digits of the name itself. */
  lemma DigitsOfNormalized(filename: string)
    ensures Digits(Normalized(filename)) == Digits(filename)
  {
    var lower := ToLower(filename);
    DigitsOfLower(filename);
    if HasSuffix(lower, ".md") {
      DigitsAppend(Normalized(filename), ".md");
      DigitsOfNonDigits(".md");
    }
  }

  /**
    Week extraction reads the integer formed by ALL digits of the name (not
    just those next to the token), and rejects it, giving 0, when there is no
    token, no digit, or the number is outside [1, maxWeek].
   */
  lemma WeekIsConcatenatedDigits(filename: string, maxWeek: int)
    requires maxWeek <= MaxInt64
    ensures FilenameWeek(filename, maxWeek) != 0 <==>
              HasWeekToken(Normalized(filename)) && Digits(filename) != [] &&
              1 <= DecimalValue(Digits(filename)) <= maxWeek
    ensures FilenameWeek(filename, maxWeek) != 0 ==>
              FilenameWeek(filename, maxWeek) == DecimalValue(Digits(filename))
  {
    DigitsOfNormalized(filename);
    var digits := Digits(filename);
    if digits != [] {
      AtoiOfDigits(digits);
    }
  }

  lemma ToLowerOfLower(s: string)
    requires forall i :: 0 <= i < |s| ==> !IsUpperAscii(s[i]) && s[i] != '\U{0130}' && s[i] != '\U{212A}'
    ensures ToLower(s) == s
  {
  }

  /**
    A file named by a lower-case prefix holding a token, then a number, such as
    `chapter3.md` or `week01.md`, is that number's week when the number is in
    range, and no week otherwise.
   */
  lemma TokenNumberName(token: string, d: string, maxWeek: int)
    requires forall i :: 0 <= i < |token| ==> 'a' <= token[i] <= 'z'
    requires HasWeekToken(token)
    requires AllDigits(d) && d != [] && DecimalValue(d) <= MaxInt64
    ensures FilenameWeek(token + d + ".md", maxWeek) == if 1 <= DecimalValue(d) <= maxWeek then DecimalValue(d) else 0
  {
    var stem := token + d;
    NormalizedOfLowerName(stem);
    DigitsOfTokenNumber(token, d);
    TokenOfPrefix(token, d);
    FilenameWeekFromDigits(stem + ".md", maxWeek, stem, d);
  }

  lemma DigitsOfTokenNumber(token: string, d: string)
    requires forall i :: 0 <= i < |token| ==> 'a' <= token[i] <= 'z'
    requires AllDigits(d)
    ensures Digits(token + d) == d
  {
    DigitsAppend(token, d);
    DigitsOfNonDigits(token);
    DigitsOfDigitString(d);
  }

  lemma TokenOfPrefix(s: string, t: string)
    requires HasWeekToken(s)
    ensures HasWeekToken(s + t)
  {
    if Contains(s, WeekTokens[0]) {
      ContainsOfPrefix(s, t, WeekTokens[0]);
    } else if Contains(s, WeekTokens[1]) {
      ContainsOfPrefix(s, t, WeekTokens[1]);
    } else {
      ContainsOfPrefix(s, t, WeekTokens[2]);
    }
  }

  /** What a string contains, every extension of it contains. */
  lemma ContainsOfPrefix(s: string, t: string, p: string)
    requires Contains(s, p)
    ensures Contains(s + t, p)
  {
    var i := OccursAtOfContains(s, p);
    assert (s + t)[i..i + |p|] == s[i..i + |p|];
    ContainsOfOccursAt(s + t, p, i);
  }

  /** The week depends on the name only through its normalized form. */
  lemma FilenameWeekOfNormalized(f: string, g: string, maxWeek: int)
    requires Normalized(f) == Normalized(g)
    ensures FilenameWeek(f, maxWeek) == FilenameWeek(g, maxWeek)
  {
  }

  /** Naming a file `week<n>.md` gives back week n, for every n in range. */
  lemma CanonicalNameRoundTrip(n: nat, maxWeek: int)
    requires 1 <= n <= maxWeek <= MaxInt64
    ensures FilenameWeek("week" + NatToString(n) + ".md", maxWeek) == n
  {
    DecimalValueOfNatToString(n);
    WeekIsToken();
    TokenNumberName("week", NatToString(n), maxWeek);
  }

  /** How the examples below are evaluated: by the normalized name and its digits. */
  lemma FilenameWeekFromDigits(filename: string, maxWeek: int, lower: string, digits: string)
    requires Normalized(filename) == lower && Digits(lower) == digits && digits != []
    requires DecimalValue(digits) <= MaxInt64
    ensures FilenameWeek(filename, maxWeek) ==
              if HasWeekToken(lower) && 1 <= DecimalValue(digits) <= maxWeek then DecimalValue(digits) else 0
  {
    AtoiOfDigits(digits);
  }

  /** A name already in lower case loses only its `.md`. */
  lemma NormalizedOfLowerName(stem: string)
    requires forall i :: 0 <= i < |stem| ==> !IsUpperAscii(stem[i]) && stem[i] != '\U{0130}' && stem[i] != '\U{212A}'
    ensures Normalized(stem + ".md") == stem
  {
    ToLowerOfLower(stem + ".md");
    assert HasSuffix(stem + ".md", ".md");
  }

  /** A string that lacks the first character of `p` does not contain `p`. */
  lemma {:induction false} NotContainsOfMissingChar(s: string, p: string)
    requires |p| > 0 && forall i :: 0 <= i < |s| ==> s[i] != p[0]
    ensures !Contains(s, p)
    decreases |s|
  {
    if |p| <= |s| {
      assert s[..|p|][0] == s[0];
    }
    if |s| > 0 {
      NotContainsOfMissingChar(s[1..], p);
    }
  }

  /** The digits of a name made of a non-digit part, digits, a non-digit part and digits. */
  lemma DigitsOfTwoNumbers(a: string, b: string, c: string, d: string)
    requires forall i :: 0 <= i < |a| ==> !IsDigit(a[i])
    requires forall i :: 0 <= i < |c| ==> !IsDigit(c[i])
    requires AllDigits(b) && AllDigits(d)
    ensures Digits(a + b + c + d) == b + d
  {
    DigitsAppend(a + b + c, d);
    DigitsAppend(a + b, c);
    DigitsAppend(a, b);
    DigitsOfNonDigits(a);
    DigitsOfNonDigits(c);
    DigitsOfDigitString(b);
    DigitsOfDigitString(d);
    assert Digits(a + b) == b;
    assert Digits(a + b + c) == b;
  }

  // ----- the file names the design calls out -----

  lemma TwoNumbersDigits() ensures Digits("week-1-lesson-2") == "12"
  {
    DigitsOfTwoNumbers("week-", "1", "-lesson-", "2");
    assert "week-" + "1" + "-lesson-" + "2" == "week-1-lesson-2";
  }

  lemma TwoNumbersToken() ensures HasWeekToken("week-1-lesson-2")
  {
    ContainsOfOccursAt("week-1-lesson-2", "week", 0);
  }

  lemma TwoNumbersNormalized() ensures Normalized("week-1-lesson-2.md") == "week-1-lesson-2"
  {
    NormalizedOfLowerName("week-1-lesson-2");
  }

  /** `week-1-lesson-2.md` is week 12: the digits of both numbers are concatenated. */
  lemma ExampleTwoNumbers()
    ensures FilenameWeek("week-1-lesson-2.md", 48) == 12
  {
    TwoNumbersNormalized();
    TwoNumbersDigits();
    TwoNumbersToken();
    assert DecimalValue("12") == 12 by {
      assert "12"[..1] == "1";
    }
    FilenameWeekFromDigits("week-1-lesson-2.md", 48, "week-1-lesson-2", "12");
  }

  /** Leading zeros do not matter. */
  lemma ExampleLeadingZero()
    ensures FilenameWeek("week01.md", 48) == 1
  {
    assert DecimalValue("01") == 1 by {
      assert "01"[..1] == "0";
      assert "0"[..0] == "";
    }
    WeekIsToken();
    TokenNumberName("week", "01", 48);
    assert "week" + "01" + ".md" == "week01.md";
  }

  /** Any of the tokens will do. */
  lemma ExampleChapter()
    ensures FilenameWeek("chapter3.md", 10) == 3
  {
    ContainsOfOccursAt("chapter", "chapter", 0);
    TokenNumberName("chapter", "3", 10);
    assert "chapter" + "3" + ".md" == "chapter3.md";
  }

  lemma WeekIsToken() ensures HasWeekToken("week")
  {
    ContainsOfOccursAt("week", "week", 0);
  }

  lemma UpperCaseNormalized() ensures Normalized("Week7.MD") == "week7"
  {
    var l := ToLower("Week7.MD");
    assert l == "week7.md";
    assert HasSuffix(l, ".md");
  }

  /** The case of the name, extension included, does not matter. */
  lemma ExampleUpperCase()
    ensures FilenameWeek("Week7.MD", 48) == 7
  {
    UpperCaseNormalized();
    LowerCaseWeek7();
    FilenameWeekOfNormalized("Week7.MD", "week7.md", 48);
  }

  lemma LowerCaseWeek7()
    ensures Normalized("week7.md") == "week7" && FilenameWeek("week7.md", 48) == 7
  {
    WeekIsToken();
    TokenNumberName("week", "7", 48);
    NormalizedOfLowerName("week7");
    assert "week" + "7" + ".md" == "week7.md";
  }

  /** Without a token there is no week, whatever the digits. */
  lemma ExampleNoToken()
    ensures FilenameWeek("intro-2.md", 48) == 0
  {
    NormalizedOfLowerName("intro-2");
    assert "intro-2" + ".md" == "intro-2.md";
    IntroHasNoToken();
  }

  lemma TokenInitials()
    ensures |WeekTokens| == 3
    ensures |WeekTokens[0]| > 0 && WeekTokens[0][0] == 'w'
    ensures |WeekTokens[1]| > 0 && WeekTokens[1][0] == 'l'
    ensures |WeekTokens[2]| > 0 && WeekTokens[2][0] == 'c'
  {
    assert WeekTokens[0] == "week";
    assert WeekTokens[1] == "lesson";
    assert WeekTokens[2] == "chapter";
  }

  lemma IntroHasNoToken()
    ensures !HasWeekToken("intro-2")
  {
    var s := "intro-2";
    assert s == ['i', 'n', 't', 'r', 'o', '-', '2'];
    TokenInitials();
    NotContainsOfMissingChar(s, WeekTokens[0]);
    NotContainsOfMissingChar(s, WeekTokens[1]);
    NotContainsOfMissingChar(s, WeekTokens[2]);
  }

  /** Without a digit there is no week. */
  lemma ExampleNoDigits()
    ensures FilenameWeek("week.md", 48) == 0
  {
    NormalizedOfLowerName("week");
    assert "week" + ".md" == "week.md";
    DigitsOfNonDigits("week");
  }

  /** The bound decides: week 49 exists for the embedded server only. */
  lemma ExampleBound()
    ensures FilenameWeek("week49.md", 48) == 0
    ensures FilenameWeek("week49.md", 100) == 49
  {
    assert DecimalValue("49") == 49 by {
      assert "49"[..1] == "4";
      assert "4"[..0] == "";
    }
    WeekIsToken();
    TokenNumberName("week", "49", 48);
    TokenNumberName("week", "49", 100);
    assert "week" + "49" + ".md" == "week49.md";
  }
}
