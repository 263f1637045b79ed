/**
  The two title transformations of the table-of-contents code:
  `cleanTitle`, which strips inline markdown for display, and
  `generateIDFromTitle`, which turns a heading into an anchor slug. Each
  regular expression of the source is written out as a scanner with RE2's
  leftmost-first, non-overlapping `ReplaceAllString` semantics.
 */
module Markdown {
  import opened Wrappers
  import opened Text

  /** The inline forms stripped, in the order they are stripped. */
  datatype Markup =
    | Bold    // \*\*([^*]+)\*\*
    | Italic  // \*([^*]+)\*
    | Code    // `([^`]+)`
    | Link    // \[([^\]]+)\]\([^)]+\)

  /** A match starting at some index: where it ends, and the text `$1` keeps. */
  datatype Match = Match(end: nat, text: string)

  /** The character every match of `kind` starts with. */
  function Opener(kind: Markup): char
  {
    match kind
    case Bold => '*'
    case Italic => '*'
    case Code => '`'
    case Link => '['
  }

  /** The first index from `i` on that holds `stop`, or `|s|`: the end of a `[^stop]*` run. */
  function RunEnd(s: string, i: nat, stop: char): (j: nat)
    requires i <= |s|
    ensures i <= j <= |s|
    ensures forall k :: i <= k < j ==> s[k] != stop
    ensures j < |s| ==> s[j] == stop
    decreases |s| - i
  {
    if i == |s| || s[i] == stop then i else RunEnd(s, i + 1, stop)
  }

  /** `d([^d]+)d` at `i`. */
  function Delimited(s: string, i: nat, d: char): (r: Option<Match>)
    requires i < |s|
    ensures r.Some? ==> i < r.value.end <= |s| && |r.value.text| + 2 == r.value.end - i
  {
    if s[i] == d then
      var j := RunEnd(s, i + 1, d);
      if j > i + 1 && j < |s| then Some(Match(j + 1, s[i + 1..j])) else None
    else None
  }

  /**
    The match of `kind`'s expression that starts at `i`, if any. A `[^c]+`
    run can only stop at the next `c`, so each expression has at most one
    match at a given start.
   */
  function MatchAt(kind: Markup, s: string, i: nat): (r: Option<Match>)
    requires i < |s|
    ensures r.Some? ==> s[i] == Opener(kind)
    ensures r.Some? ==> i < r.value.end <= |s| && |r.value.text| + 2 <= r.value.end - i
  {
    match kind
    case Bold =>
      if i + 1 < |s| && s[i] == '*' && s[i + 1] == '*' then
        var j := RunEnd(s, i + 2, '*');
        if j > i + 2 && j + 1 < |s| && s[j + 1] == '*' then Some(Match(j + 2, s[i + 2..j])) else None
      else None
    case Italic => Delimited(s, i, '*')
    case Code => Delimited(s, i, '`')
    case Link =>
      if s[i] == '[' then
        var j := RunEnd(s, i + 1, ']');
        if j > i + 1 && j + 1 < |s| && s[j + 1] == '(' then
          var k := RunEnd(s, j + 2, ')');
          if k > j + 2 && k < |s| then Some(Match(k + 1, s[i + 1..j])) else None
        else None
      else None
  }

  /**
    `ReplaceAllString(s[i..], "$1")`: scanning left to right, each match is
    replaced by its group and the scan resumes after it; other characters
    are copied. Every match drops at least its two delimiters.
   */
  function ReplaceFrom(kind: Markup, s: string, i: nat): (r: string)
    requires i <= |s|
    ensures |r| <= |s| - i
    decreases |s| - i
  {
    if i == |s| then []
    else
      match MatchAt(kind, s, i)
      case Some(m) => m.text + ReplaceFrom(kind, s, m.end)
      case None => [s[i]] + ReplaceFrom(kind, s, i + 1)
  }

  function StripPass(kind: Markup, s: string): string
  {
    ReplaceFrom(kind, s, 0)
  }

  /** The four replacements both title functions start with: bold, italic, code, links. */
  function StripMarkdown(title: string): string
  {
    StripPass(Link, StripPass(Code, StripPass(Italic, StripPass(Bold, title))))
  }

  /** `cleanTitle`: the title without inline markdown, trimmed, so with no white space at either end. */
  function CleanTitle(title: string): (t: string)
    ensures t == [] || (!IsUnicodeSpace(t[0]) && !IsUnicodeSpace(t[|t| - 1]))
  {
    TrimSpace(StripMarkdown(title))
  }

  // ----- what stripping does -----

  /** A pass changes nothing in text without its opening character. */
  lemma {:induction false} PassWithoutOpener(kind: Markup, s: string, i: nat)
    requires i <= |s|
    requires forall k :: i <= k < |s| ==> s[k] != Opener(kind)
    ensures ReplaceFrom(kind, s, i) == s[i..]
    decreases |s| - i
  {
    if i < |s| {
      PassWithoutOpener(kind, s, i + 1);
      assert s[i..] == [s[i]] + s[i + 1..];
    }
  }

  /** Text with none of `*`, `` ` `` and `[` is kept as it is by all four passes. */
  predicate NoMarkup(s: string)
  {
    forall k :: 0 <= k < |s| ==> s[k] != '*' && s[k] != '`' && s[k] != '['
  }

  lemma PlainTextUnchanged(s: string)
    requires NoMarkup(s)
    ensures StripMarkdown(s) == s
  {
    PassWithoutOpener(Bold, s, 0);
    PassWithoutOpener(Italic, s, 0);
    PassWithoutOpener(Code, s, 0);
    PassWithoutOpener(Link, s, 0);
  }

  /** `**w**` becomes `w` when `w` is a non-empty run without `*`. */
  lemma BoldUnwrapped(w: string)
    requires w != [] && forall k :: 0 <= k < |w| ==> w[k] != '*'
    ensures StripPass(Bold, "**" + w + "**") == w
  {
    var s := "**" + w + "**";
    assert forall k :: 2 <= k < 2 + |w| ==> s[k] == w[k - 2];
    assert s[2 + |w|] == '*' && s[3 + |w|] == '*';
    var j := RunEnd(s, 2, '*');
    assert j == 2 + |w|;
    assert s[2..j] == w;
    assert MatchAt(Bold, s, 0) == Some(Match(|s|, w));
  }

  /** `[t](u)` becomes `t` when `t` has no `]`, `u` no `)`, and neither is empty. */
  lemma LinkUnwrapped(t: string, u: string)
    requires t != [] && forall k :: 0 <= k < |t| ==> t[k] != ']'
    requires u != [] && forall k :: 0 <= k < |u| ==> u[k] != ')'
    ensures StripPass(Link, "[" + t + "](" + u + ")") == t
  {
    var s := "[" + t + "](" + u + ")";
    var n := |t|;
    assert forall k :: 1 <= k < 1 + n ==> s[k] == t[k - 1];
    assert s[1 + n] == ']' && s[2 + n] == '(';
    assert forall k :: 3 + n <= k < 3 + n + |u| ==> s[k] == u[k - 3 - n];
    assert s[3 + n + |u|] == ')';
    assert RunEnd(s, 1, ']') == 1 + n;
    assert RunEnd(s, 3 + n, ')') == 3 + n + |u|;
    assert s[1..1 + n] == t;
    assert MatchAt(Link, s, 0) == Some(Match(|s|, t));
  }

  // ----- the slug -----

  predicate IsDash(c: char) { c == '-' }

  /** What `[^\w\s-]` does not match: word characters, `\s` and `-`. */
  predicate KeptBySlug(c: char) { IsWordChar(c) || IsRegexSpace(c) || c == '-' }

  /** `ReplaceAllString(s, "")` for `[^\w\s-]`. */
  function RemoveSpecial(s: string): (r: string)
    ensures forall k :: 0 <= k < |r| ==> KeptBySlug(r[k]) && r[k] in s
    decreases |s|
  {
    if s == [] then []
    else (if KeptBySlug(s[0]) then [s[0]] else []) + RemoveSpecial(s[1..])
  }

  /** `s` without its leading characters that satisfy `p` (`strings.TrimLeft` for one character). */
  function DropRun(s: string, p: char -> bool): (r: string)
    ensures |r| <= |s| && r == s[|s| - |r|..]
    ensures r == [] || !p(r[0])
    ensures forall k :: 0 <= k < |s| - |r| ==> p(s[k])
    decreases |s|
  {
    if s != [] && p(s[0]) then
      var r := DropRun(s[1..], p);
      assert s[1..][|s| - 1 - |r|..] == s[|s| - |r|..];
      assert forall k :: 1 <= k < |s| - |r| ==> s[k] == s[1..][k - 1];
      r
    else s
  }

  /** `s` without its trailing characters that satisfy `p`. */
  function DropRunBack(s: string, p: char -> bool): (r: string)
    ensures |r| <= |s| && r == s[..|r|]
    ensures r == [] || !p(r[|r| - 1])
    ensures forall k :: |r| <= k < |s| ==> p(s[k])
    decreases |s|
  {
    if s != [] && p(s[|s| - 1]) then DropRunBack(s[..|s| - 1], p) else s
  }

  /**
    `ReplaceAllString(s, rep)` for `c+` where `c` is the class `inRun`:
    every maximal run of such characters becomes the one character `rep`.
   */
  function SquashRuns(s: string, inRun: char -> bool, rep: char): (r: string)
    ensures s != [] ==> r != [] && r[0] == (if inRun(s[0]) then rep else s[0])
    decreases |s|
  {
    if s == [] then []
    else if inRun(s[0]) then [rep] + SquashRuns(DropRun(s[1..], inRun), inRun, rep)
    else [s[0]] + SquashRuns(s[1..], inRun, rep)
  }

  /**
    What squashing leaves: each character is `rep` or an original character
    outside the class, and no class character follows a `rep`.
   */
  predicate Squashed(s: string, r: string, inRun: char -> bool, rep: char)
  {
    && (forall k :: 0 <= k < |r| ==> r[k] == rep || (!inRun(r[k]) && r[k] in s))
    && (forall k :: 0 <= k < |r| - 1 && r[k] == rep ==> !inRun(r[k + 1]))
  }

  lemma {:induction false} SquashRunsShape(s: string, inRun: char -> bool, rep: char)
    ensures Squashed(s, SquashRuns(s, inRun, rep), inRun, rep)
    decreases |s|
  {
    if s == [] {
    } else if inRun(s[0]) {
      var rest := DropRun(s[1..], inRun);
      var tail := SquashRuns(rest, inRun, rep);
      SquashRunsShape(rest, inRun, rep);
      InSuffix(s[1..], rest);
      InSuffix(s, s[1..]);
      var r := [rep] + tail;
      assert r == SquashRuns(s, inRun, rep);
      forall k | 0 <= k < |r| ensures r[k] == rep || (!inRun(r[k]) && r[k] in s) {
        if k > 0 {
          assert r[k] == tail[k - 1];
        }
      }
      forall k | 0 <= k < |r| - 1 && r[k] == rep ensures !inRun(r[k + 1]) {
        assert r[k + 1] == tail[k];
        if k > 0 {
          assert r[k] == tail[k - 1];
        }
      }
    } else {
      var tail := SquashRuns(s[1..], inRun, rep);
      SquashRunsShape(s[1..], inRun, rep);
      InSuffix(s, s[1..]);
      var r := [s[0]] + tail;
      assert r == SquashRuns(s, inRun, rep);
      forall k | 0 <= k < |r| ensures r[k] == rep || (!inRun(r[k]) && r[k] in s) {
        if k > 0 {
          assert r[k] == tail[k - 1];
        }
      }
      forall k | 0 <= k < |r| - 1 && r[k] == rep ensures !inRun(r[k + 1]) {
        assert r[k + 1] == tail[k];
        if k > 0 {
          assert r[k] == tail[k - 1];
        }
      }
    }
  }

  /** Every character of a suffix occurs in the whole string. */
  lemma InSuffix(s: string, t: string)
    requires |t| <= |s| && t == s[|s| - |t|..]
    ensures forall c :: c in t ==> c in s
  {
    forall c | c in t ensures c in s {
      var m :| 0 <= m < |t| && t[m] == c;
      assert s[|s| - |t| + m] == c;
    }
  }

  /** The steps after the markdown is stripped and the title lowered. */
  function Normalize(s: string): string
  {
    var kept := RemoveSpecial(s);
    var dashed := SquashRuns(kept, IsRegexSpace, '-');
    var single := SquashRuns(dashed, IsDash, '-');
    DropRunBack(DropRun(single, IsDash), IsDash)
  }

  /**
    `generateIDFromTitle`: strip the markdown, lower-case, delete what is not
    a word character, white space or `-`, turn white-space runs into `-`,
    collapse runs of `-`, and trim `-` from both ends.
   */
  function Slug(title: string): string
  {
    Normalize(ToLower(StripMarkdown(title)))
  }

  /** A character a slug may hold: a digit, a lower-case ASCII letter, `_` or `-`. */
  predicate IsSlugChar(c: char) { IsDigit(c) || 'a' <= c <= 'z' || c == '_' || c == '-' }

  /** The shape of every slug. */
  predicate SlugShaped(u: string)
  {
    AllSlugChars(u) && NoDoubleDash(u) && (u == [] || (u[0] != '-' && u[|u| - 1] != '-'))
  }

  predicate AllSlugChars(u: string) { forall k :: 0 <= k < |u| ==> IsSlugChar(u[k]) }

  predicate NoDoubleDash(u: string) { forall k :: 0 <= k < |u| - 1 ==> !(u[k] == '-' && u[k + 1] == '-') }

  /** Normalizing lower-cased text gives a slug. */
  lemma NormalizeShaped(s: string)
    requires forall k :: 0 <= k < |s| ==> !IsUpperAscii(s[k])
    ensures SlugShaped(Normalize(s))
  {
    var kept := RemoveSpecial(s);
    KeptChars(s);
    var dashed := SquashRuns(kept, IsRegexSpace, '-');
    DashedChars(kept);
    var single := SquashRuns(dashed, IsDash, '-');
    SingleChars(dashed);
    TrimShaped(single);
  }

  lemma KeptChars(s: string)
    requires forall k :: 0 <= k < |s| ==> !IsUpperAscii(s[k])
    ensures forall k :: 0 <= k < |RemoveSpecial(s)| ==>
      IsSlugChar(RemoveSpecial(s)[k]) || IsRegexSpace(RemoveSpecial(s)[k])
  {
    var kept := RemoveSpecial(s);
    forall k | 0 <= k < |kept| ensures IsSlugChar(kept[k]) || IsRegexSpace(kept[k]) {
      var m :| 0 <= m < |s| && s[m] == kept[k];
      assert !IsUpperAscii(s[m]);
    }
  }

  /** Squashing white space into `-` leaves only slug characters. */
  lemma DashedChars(kept: string)
    requires forall k :: 0 <= k < |kept| ==> IsSlugChar(kept[k]) || IsRegexSpace(kept[k])
    ensures AllSlugChars(SquashRuns(kept, IsRegexSpace, '-'))
  {
    var dashed := SquashRuns(kept, IsRegexSpace, '-');
    SquashRunsShape(kept, IsRegexSpace, '-');
    forall k | 0 <= k < |dashed| ensures IsSlugChar(dashed[k]) {
      if dashed[k] != '-' {
        var m :| 0 <= m < |kept| && kept[m] == dashed[k];
      }
    }
  }

  /** Squashing runs of `-` keeps slug characters and leaves no `--`. */
  lemma SingleChars(dashed: string)
    requires AllSlugChars(dashed)
    ensures AllSlugChars(SquashRuns(dashed, IsDash, '-'))
    ensures NoDoubleDash(SquashRuns(dashed, IsDash, '-'))
  {
    var single := SquashRuns(dashed, IsDash, '-');
    SquashRunsShape(dashed, IsDash, '-');
    forall k | 0 <= k < |single| ensures IsSlugChar(single[k]) {
      if single[k] != '-' {
        var m :| 0 <= m < |dashed| && dashed[m] == single[k];
      }
    }
  }

  /** Trimming `-` from both ends of such a string gives a slug. */
  lemma TrimShaped(single: string)
    requires AllSlugChars(single) && NoDoubleDash(single)
    ensures SlugShaped(DropRunBack(DropRun(single, IsDash), IsDash))
  {
    var left := DropRun(single, IsDash);
    var u := DropRunBack(left, IsDash);
    var off := |single| - |left|;
    forall k | 0 <= k < |u| ensures u[k] == single[off + k] {
      assert u[k] == left[k];
    }
    assert AllSlugChars(u);
    forall k | 0 <= k < |u| - 1 ensures !(u[k] == '-' && u[k + 1] == '-') {
      assert u[k] == single[off + k] && u[k + 1] == single[off + k + 1];
    }
    if u != [] {
      assert u[0] == left[0];
    }
  }

  /**
    A slug has no white space, no `--`, and no `-` at either end, whatever
    the title.
   */
  lemma SlugIsShaped(title: string)
    ensures SlugShaped(Slug(title))
    ensures forall k :: 0 <= k < |Slug(title)| ==> !IsUnicodeSpace(Slug(title)[k])
  {
    NormalizeShaped(ToLower(StripMarkdown(title)));
  }

  /** Every step of the slug leaves a slug as it is. */
  lemma NormalizeFixed(u: string)
    requires SlugShaped(u)
    ensures Normalize(u) == u
  {
    RemoveSpecialFixed(u);
    SquashFixed(u, IsRegexSpace, '-');
    SquashFixed(u, IsDash, '-');
    assert DropRun(u, IsDash) == u;
    assert DropRunBack(u, IsDash) == u;
  }

  lemma {:induction false} RemoveSpecialFixed(s: string)
    requires forall k :: 0 <= k < |s| ==> KeptBySlug(s[k])
    ensures RemoveSpecial(s) == s
    decreases |s|
  {
    if s != [] {
      RemoveSpecialFixed(s[1..]);
      assert s == [s[0]] + s[1..];
    }
  }

  /** A string whose run characters are single copies of `rep` is its own squash. */
  lemma {:induction false} SquashFixed(s: string, inRun: char -> bool, rep: char)
    requires forall k :: 0 <= k < |s| && inRun(s[k]) ==> s[k] == rep && (k + 1 < |s| ==> !inRun(s[k + 1]))
    ensures SquashRuns(s, inRun, rep) == s
    decreases |s|
  {
    if s != [] {
      SquashFixed(s[1..], inRun, rep);
      if inRun(s[0]) {
        assert DropRun(s[1..], inRun) == s[1..];
      }
      assert s == [s[0]] + s[1..];
    }
  }

  /** A slug has no markup and no capitals, so every step keeps it. */
  lemma SlugOfSlug(u: string)
    requires SlugShaped(u)
    ensures Slug(u) == u
  {
    PlainTextUnchanged(u);
    assert ToLower(u) == u;
    NormalizeFixed(u);
  }

  /** Generating the id of an id gives the id back. */
  lemma SlugIdempotent(title: string)
    ensures Slug(Slug(title)) == Slug(title)
  {
    SlugIsShaped(title);
    SlugOfSlug(Slug(title));
  }
}
