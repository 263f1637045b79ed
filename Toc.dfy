/**
  The table of contents `extractTOCFromContent` reads from a lesson's
  markdown: the links listed under an explicit "Table of Contents" heading,
  or else one item per heading of level two to six.
 */
module Toc {
  import opened Wrappers
  import opened Text
  import opened Markdown

  datatype TocItem = TocItem(id: string, title: string, level: int)

  // ----- lines -----

  predicate NoNewline(s: string) { forall k :: 0 <= k < |s| ==> s[k] != '\n' }

  /** `strings.Split(s, "\n")`: never empty; the pieces hold no line feed. */
  function Lines(s: string): (ls: seq<string>)
    ensures |ls| >= 1
    ensures forall k :: 0 <= k < |ls| ==> NoNewline(ls[k])
    decreases |s|
  {
    var j := RunEnd(s, 0, '\n');
    if j == |s| then [s] else [s[..j]] + Lines(s[j + 1..])
  }

  /** `strings.Join(ls, "\n")`. */
  function JoinLines(ls: seq<string>): string
    requires |ls| >= 1
    decreases |ls|
  {
    if |ls| == 1 then ls[0] else ls[0] + "\n" + JoinLines(ls[1..])
  }

  /** Joining the lines of `s` gives `s` back. */
  lemma {:induction false} JoinOfLines(s: string)
    ensures JoinLines(Lines(s)) == s
    decreases |s|
  {
    var j := RunEnd(s, 0, '\n');
    if j < |s| {
      JoinOfLines(s[j + 1..]);
      assert Lines(s)[1..] == Lines(s[j + 1..]);
      assert s == s[..j] + "\n" + s[j + 1..];
    }
  }

  /** A text without line feeds is a single line. */
  lemma LinesOfSingle(s: string)
    requires NoNewline(s)
    ensures Lines(s) == [s]
  {
    assert RunEnd(s, 0, '\n') == |s|;
  }

  /** A line feed after a line without one cuts exactly there. */
  lemma LineThenRest(head: string, rest: string)
    requires NoNewline(head)
    ensures Lines(head + "\n" + rest) == [head] + Lines(rest)
  {
    var s := head + "\n" + rest;
    var n := |head|;
    assert forall k :: 0 <= k < n ==> s[k] == head[k];
    assert s[n] == '\n';
    assert RunEnd(s, 0, '\n') == n;
    assert s[..n] == head;
    assert s[n + 1..] == rest;
  }

  /** Splitting joined lines that hold no line feed gives the lines back. */
  lemma {:induction false} LinesOfJoin(ls: seq<string>)
    requires |ls| >= 1 && forall k :: 0 <= k < |ls| ==> NoNewline(ls[k])
    ensures Lines(JoinLines(ls)) == ls
    decreases |ls|
  {
    if |ls| == 1 {
      LinesOfSingle(ls[0]);
    } else {
      LineThenRest(ls[0], JoinLines(ls[1..]));
      LinesOfJoin(ls[1..]);
      assert ls == [ls[0]] + ls[1..];
    }
  }

  /** The first index from `i` on whose character does not satisfy `p`, or `|s|`. */
  function Skip(s: string, i: nat, p: char -> bool): (j: nat)
    requires i <= |s|
    ensures i <= j <= |s|
    ensures forall k :: i <= k < j ==> p(s[k])
    ensures j < |s| ==> !p(s[j])
    decreases |s| - i
  {
    if i < |s| && p(s[i]) then Skip(s, i + 1, p) else i
  }

  /** `Skip` stops at the first character past a run of `p` characters. */
  lemma {:induction false} SkipRun(s: string, i: nat, j: nat, p: char -> bool)
    requires i <= j <= |s| && forall k :: i <= k < j ==> p(s[k])
    requires j == |s| || !p(s[j])
    ensures Skip(s, i, p) == j
    decreases j - i
  {
    if i < j {
      SkipRun(s, i + 1, j, p);
    }
  }

  predicate IsHash(c: char) { c == '#' }

  predicate IsSpaceOrTab(c: char) { c == ' ' || c == '\t' }

  // ----- headings: ^(#{1,6})\s+(.+)$ -----

  datatype Heading = Heading(level: nat, title: string)

  /**
    The two groups of `^(#{1,6})\s+(.+)$` on `line`. The `#` run must be
    one to six long and followed by white space; `\s+` is greedy but leaves
    at least one character to `.+`, which cannot cross a line feed.
   */
  function HeadingOf(line: string): (r: Option<Heading>)
    ensures r.Some? ==> 1 <= r.value.level <= 6 && r.value.title != [] && NoNewline(r.value.title)
    ensures r.Some? ==> r.value.level < |line| && forall k :: 0 <= k < r.value.level ==> line[k] == '#'
    ensures r.Some? ==> IsRegexSpace(line[r.value.level])
    ensures r.Some? ==> r.value.level < |line| - |r.value.title| && r.value.title == line[|line| - |r.value.title|..]
  {
    var hashes := Skip(line, 0, IsHash);
    if 1 <= hashes <= 6 && hashes + 1 < |line| && IsRegexSpace(line[hashes]) then
      var titleStart := Skip(line, hashes, IsRegexSpace);
      var title := if titleStart < |line| then line[titleStart..] else line[|line| - 1..];
      if NoNewline(title) then Some(Heading(hashes, title)) else None
    else None
  }

  /** The item a heading line gives: none for level one or a blank title. */
  function HeadingItem(line: string): (r: Option<TocItem>)
    ensures r.Some? ==> 2 <= r.value.level <= 6 && SlugShaped(r.value.id)
    ensures r.Some? <==> HeadingOf(line).Some? && HeadingOf(line).value.level >= 2 &&
                         TrimSpace(HeadingOf(line).value.title) != []
  {
    match HeadingOf(line)
    case None => None
    case Some(h) =>
      if h.level <= 1 || TrimSpace(h.title) == [] then None
      else
        SlugIsShaped(h.title);
        Some(TocItem(Slug(h.title), CleanTitle(h.title), h.level))
  }

  function AsSeq(r: Option<TocItem>): seq<TocItem>
  {
    if r.Some? then [r.value] else []
  }

  /** `extractTOCFromHeadings` over `lines`: the heading items in line order. */
  function HeadingItems(lines: seq<string>): seq<TocItem>
    decreases |lines|
  {
    if lines == [] then [] else HeadingItems(lines[..|lines| - 1]) + AsSeq(HeadingItem(lines[|lines| - 1]))
  }

  /** `extractTOCFromHeadings`: one pass over the lines. */
  method ExtractTocFromHeadings(content: string) returns (items: seq<TocItem>)
    ensures items == HeadingItems(Lines(content))
  {
    var lines := Lines(content);
    items := [];
    for i := 0 to |lines|
      invariant items == HeadingItems(lines[..i])
    {
      HeadingItemsStep(lines, i);
      items := items + AsSeq(HeadingItem(lines[i]));
    }
    assert lines[..|lines|] == lines;
  }

  /** One more line adds its heading item, if any, at the end. */
  lemma HeadingItemsStep(lines: seq<string>, i: nat)
    requires i < |lines|
    ensures HeadingItems(lines[..i + 1]) == HeadingItems(lines[..i]) + AsSeq(HeadingItem(lines[i]))
  {
    assert lines[..i + 1][..i] == lines[..i];
  }

  /** A level in 2..6 and a slug for its id. */
  predicate ItemShaped(t: TocItem) { 2 <= t.level <= 6 && SlugShaped(t.id) }

  /** Every heading item has a level in 2..6 and a slug for its id. */
  lemma {:induction false} HeadingItemsShape(lines: seq<string>)
    ensures forall k :: 0 <= k < |HeadingItems(lines)| ==> ItemShaped(HeadingItems(lines)[k])
    decreases |lines|
  {
    if lines != [] {
      var prev := HeadingItems(lines[..|lines| - 1]);
      var last := HeadingItem(lines[|lines| - 1]);
      HeadingItemsShape(lines[..|lines| - 1]);
      var items := prev + AsSeq(last);
      assert items == HeadingItems(lines);
      forall k | 0 <= k < |items| ensures ItemShaped(items[k]) {
        if k < |prev| {
          assert items[k] == prev[k];
        } else {
          assert items[k] == last.value;
        }
      }
    }
  }

  // ----- the explicit table of contents -----

  /** A character `(?i)` lets match the lower-case pattern character `x` (no phrase has a `k`). */
  predicate FoldsTo(c: char, x: char)
  {
    c == x || ('a' <= x <= 'z' && c as int == x as int - 32) || (x == 's' && c == '\U{017F}')
  }

  predicate FoldEquals(s: string, p: string)
  {
    |s| == |p| && forall k :: 0 <= k < |s| ==> FoldsTo(s[k], p[k])
  }

  const TocPhrases: seq<string> := ["table of contents", "contents", "toc"]

  lemma PhraseInitials()
    ensures forall q :: 0 <= q < |TocPhrases| ==> TocPhrases[q] != [] && (TocPhrases[q][0] == 't' || TocPhrases[q][0] == 'c')
  {
  }

  function TrimRegexSpace(s: string): string
  {
    DropRunBack(DropRun(s, IsRegexSpace), IsRegexSpace)
  }

  /**
    `(?i)^##?\s*(table of contents|contents|toc)\s*$`: one or two `#`, then
    one of the phrases in any case, with only white space around it.
   */
  predicate IsTocHeader(line: string)
  {
    var h := if HasPrefix(line, "##") then 2 else 1;
    HasPrefix(line, "#") && exists q :: 0 <= q < |TocPhrases| && FoldEquals(TrimRegexSpace(line[h..]), TocPhrases[q])
  }

  predicate NoBracket(s: string) { forall k :: 0 <= k < |s| ==> s[k] != '[' }

  /**
    `^##?\s+[^[]+$`, the next major heading that ends the explicit list: one
    or two `#`, white space, then at least one character and no `[` to the end.
   */
  predicate IsSectionBreak(line: string)
  {
    || (HasPrefix(line, "##") && |line| >= 4 && IsRegexSpace(line[2]) && NoBracket(line[3..]))
    || (HasPrefix(line, "#") && |line| >= 3 && IsRegexSpace(line[1]) && NoBracket(line[2..]))
  }

  /** `len(line) - len(strings.TrimLeft(line, " \t"))`. */
  function Indentation(line: string): nat
  {
    Skip(line, 0, IsSpaceOrTab)
  }

  /** The heading level an explicit entry gets from its indentation: two per two columns, at most six. */
  function LinkLevel(indentation: nat): (level: int)
    ensures 2 <= level <= 6
    ensures indentation < 8 ==> level == indentation / 2 + 2
  {
    var level := indentation / 2 + 2;
    if level > 6 then 6 else level
  }

  /**
    `^\s*[-*]\s*\[([^\]]+)\]\(#([^)]+)\)`: a list mark, then a link to an
    anchor; the item is titled by the link text and identified by the anchor.
   */
  function LinkItem(line: string): (r: Option<TocItem>)
    ensures r.Some? ==> 2 <= r.value.level <= 6 && r.value.title != [] && r.value.id != []
  {
    var p := Skip(line, 0, IsRegexSpace);
    if p < |line| && (line[p] == '-' || line[p] == '*') then LinkAfterMark(line, Skip(line, p + 1, IsRegexSpace))
    else None
  }

  /** The rest of the pattern from `q`, past the list mark and its blanks: `\[([^\]]+)\]\(#`, then the anchor. */
  function LinkAfterMark(line: string, q: nat): (r: Option<TocItem>)
    requires q <= |line|
    ensures r.Some? ==> 2 <= r.value.level <= 6 && r.value.title != [] && r.value.id != []
  {
    if q < |line| && line[q] == '[' then
      var j := RunEnd(line, q + 1, ']');
      if j > q + 1 && j + 2 < |line| && line[j + 1] == '(' && line[j + 2] == '#' then LinkAnchor(line, q, j)
      else None
    else None
  }

  /** `([^)]+)\)` after `](#`, the link text being `line[q + 1..j]`. */
  function LinkAnchor(line: string, q: nat, j: nat): (r: Option<TocItem>)
    requires q + 1 < j && j + 3 <= |line|
    ensures r.Some? ==> 2 <= r.value.level <= 6 && r.value.title != [] && r.value.id != []
  {
    var k := RunEnd(line, j + 3, ')');
    if k > j + 3 && k < |line| then Some(TocItem(line[j + 3..k], line[q + 1..j], LinkLevel(Indentation(line))))
    else None
  }

  /**
    The explicit entries collected from `lines` on, `inToc` telling whether
    a table-of-contents heading has been seen: a header (re)opens the
    list, a major heading inside it ends the scan.
   */
  function ExplicitFrom(lines: seq<string>, inToc: bool): seq<TocItem>
    decreases |lines|
  {
    if lines == [] then []
    else if IsTocHeader(lines[0]) then ExplicitFrom(lines[1..], true)
    else if inToc && IsSectionBreak(lines[0]) then []
    else (if inToc then AsSeq(LinkItem(lines[0])) else []) + ExplicitFrom(lines[1..], inToc)
  }

  /** Every explicit entry has a level in 2..6. */
  lemma {:induction false} ExplicitLevels(lines: seq<string>, inToc: bool)
    ensures forall k :: 0 <= k < |ExplicitFrom(lines, inToc)| ==> 2 <= ExplicitFrom(lines, inToc)[k].level <= 6
    decreases |lines|
  {
    if lines != [] && !IsTocHeader(lines[0]) && !(inToc && IsSectionBreak(lines[0])) {
      var head: seq<TocItem> := if inToc then AsSeq(LinkItem(lines[0])) else [];
      var tail := ExplicitFrom(lines[1..], inToc);
      ExplicitLevels(lines[1..], inToc);
      assert ExplicitFrom(lines, inToc) == head + tail;
      forall k | 0 <= k < |head + tail| ensures 2 <= (head + tail)[k].level <= 6 {
        if k < |head| {
          assert (head + tail)[k] == LinkItem(lines[0]).value;
        } else {
          assert (head + tail)[k] == tail[k - |head|];
        }
      }
    } else if lines != [] && IsTocHeader(lines[0]) {
      ExplicitLevels(lines[1..], true);
    }
  }

  /** Without a table-of-contents heading there are no explicit entries. */
  lemma {:induction false} NoHeaderNoEntries(lines: seq<string>)
    requires forall k :: 0 <= k < |lines| ==> !IsTocHeader(lines[k])
    ensures ExplicitFrom(lines, false) == []
    decreases |lines|
  {
    if lines != [] {
      NoHeaderNoEntries(lines[1..]);
    }
  }

  /** `extractTOCFromContent`: the explicit entries, or the heading items when there are none. */
  function TocFromContent(content: string): seq<TocItem>
  {
    var explicit := ExplicitFrom(Lines(content), false);
    if explicit == [] then HeadingItems(Lines(content)) else explicit
  }

  /** Whichever mode produced them, the items have levels in 2..6. */
  lemma TocLevels(content: string)
    ensures forall k :: 0 <= k < |TocFromContent(content)| ==> 2 <= TocFromContent(content)[k].level <= 6
  {
    ExplicitLevels(Lines(content), false);
    HeadingItemsShape(Lines(content));
  }

  /** One step of the explicit scan, at line `i`. */
  lemma ExplicitStep(lines: seq<string>, i: nat, inToc: bool)
    requires i < |lines|
    ensures ExplicitFrom(lines[i..], inToc) ==
              if IsTocHeader(lines[i]) then ExplicitFrom(lines[i + 1..], true)
              else if inToc && IsSectionBreak(lines[i]) then []
              else (if inToc then AsSeq(LinkItem(lines[i])) else []) + ExplicitFrom(lines[i + 1..], inToc)
  {
    assert lines[i..][1..] == lines[i + 1..];
  }

  lemma AppendAssociates(a: seq<TocItem>, b: seq<TocItem>, c: seq<TocItem>)
    ensures (a + b) + c == a + (b + c)
  { }

  /** A table-of-contents header (re)opens the table, whatever came before. */
  lemma AdvanceOnHeader(lines: seq<string>, i: nat, inToc: bool, items: seq<TocItem>)
    requires i < |lines| && IsTocHeader(lines[i])
    ensures items + ExplicitFrom(lines[i..], inToc) == items + ExplicitFrom(lines[i + 1..], true)
  {
    ExplicitStep(lines, i, inToc);
  }

  /** A major heading inside the table ends the scan with the entries found so far. */
  lemma AdvanceOnBreak(lines: seq<string>, i: nat, items: seq<TocItem>)
    requires i < |lines| && !IsTocHeader(lines[i]) && IsSectionBreak(lines[i])
    ensures items + ExplicitFrom(lines[i..], true) == items
  {
    ExplicitStep(lines, i, true);
  }

  /** Any other line inside the table adds its link, if it has one. */
  lemma AdvanceInToc(lines: seq<string>, i: nat, items: seq<TocItem>)
    requires i < |lines| && !IsTocHeader(lines[i]) && !IsSectionBreak(lines[i])
    ensures items + ExplicitFrom(lines[i..], true) ==
              (items + AsSeq(LinkItem(lines[i]))) + ExplicitFrom(lines[i + 1..], true)
  {
    ExplicitStep(lines, i, true);
    AppendAssociates(items, AsSeq(LinkItem(lines[i])), ExplicitFrom(lines[i + 1..], true));
  }

  /** Outside the table, a line that is not a header adds nothing. */
  lemma AdvanceOutside(lines: seq<string>, i: nat, items: seq<TocItem>)
    requires i < |lines| && !IsTocHeader(lines[i])
    ensures items + ExplicitFrom(lines[i..], false) == items + ExplicitFrom(lines[i + 1..], false)
  {
    ExplicitStep(lines, i, false);
    assert [] + ExplicitFrom(lines[i + 1..], false) == ExplicitFrom(lines[i + 1..], false);
  }

  /** The first pass of `extractTOCFromContent`: one scan with the `inTOCSection` flag. */
  method ExplicitEntries(lines: seq<string>) returns (items: seq<TocItem>)
    ensures items == ExplicitFrom(lines, false)
  {
    ghost var explicit := ExplicitFrom(lines, false);
    items := [];
    var inToc := false;
    var i := 0;
    assert lines[0..] == lines;
    while i < |lines|
      invariant 0 <= i <= |lines|
      invariant items + ExplicitFrom(lines[i..], inToc) == explicit
    {
      var line := lines[i];
      if IsTocHeader(line) {
        AdvanceOnHeader(lines, i, inToc, items);
        inToc := true;
      } else if inToc && IsSectionBreak(line) {
        AdvanceOnBreak(lines, i, items);
        break;
      } else if inToc {
        AdvanceInToc(lines, i, items);
        items := items + AsSeq(LinkItem(line));
      } else {
        AdvanceOutside(lines, i, items);
      }
      i := i + 1;
    }
  }

  /** `extractTOCFromContent`: the explicit entries, or the heading scan when there are none. */
  method ExtractTocFromContent(content: string) returns (items: seq<TocItem>)
    ensures items == TocFromContent(content)
  {
    var lines := Lines(content);
    items := ExplicitEntries(lines);
    if |items| == 0 {
      items := ExtractTocFromHeadings(content);
    }
  }

  // ----- the heading scan on a small document -----

  predicate IsAsciiLetter(c: char) { 'a' <= c <= 'z' || 'A' <= c <= 'Z' }

  /** A non-empty run of ASCII letters. */
  predicate IsWord(w: string) { w != [] && forall k :: 0 <= k < |w| ==> IsAsciiLetter(w[k]) }

  function Hashes(n: nat): (s: string)
    ensures |s| == n && forall k :: 0 <= k < n ==> s[k] == '#'
  {
    seq(n, k => '#')
  }

  /** The heading line of `level` `#`s, one space and `word`. */
  function WordHeading(level: nat, word: string): string
  {
    Hashes(level) + " " + word
  }

  lemma WordHeadingChars(level: nat, word: string)
    ensures var line := WordHeading(level, word);
            |line| == level + 1 + |word| && line[level] == ' ' && line[level + 1..] == word &&
            forall k :: 0 <= k < level ==> line[k] == '#'
  {
    var line := WordHeading(level, word);
    assert forall k :: 0 <= k < |word| ==> line[level + 1 + k] == word[k];
  }

  /**
    A line of `level` `#`s, a run of white space and a title that does not
    start with white space is the heading of that level and that title.
   */
  lemma HeadingOfParts(level: nat, ws: string, title: string)
    requires 1 <= level <= 6
    requires ws != [] && forall k :: 0 <= k < |ws| ==> IsRegexSpace(ws[k])
    requires title != [] && NoNewline(title) && !IsRegexSpace(title[0])
    ensures HeadingOf(Hashes(level) + ws + title) == Some(Heading(level, title))
  {
    var line := Hashes(level) + ws + title;
    var start := level + |ws|;
    assert forall k :: 0 <= k < level ==> line[k] == '#';
    assert line[level] == ws[0];
    SkipRun(line, 0, level, IsHash);
    assert forall k :: level <= k < start ==> line[k] == ws[k - level];
    assert line[start] == title[0];
    SkipRun(line, level, start, IsRegexSpace);
    assert line[start..] == title;
  }

  /** `## Hello World` is a level-two heading titled `Hello World`. */
  lemma HelloWorldHeading()
    ensures HeadingOf("## Hello World") == Some(Heading(2, "Hello World"))
  {
    assert Hashes(2) + " " + "Hello World" == "## Hello World";
    HeadingOfParts(2, " ", "Hello World");
  }

  lemma HeadingOfWord(level: nat, word: string)
    requires 1 <= level <= 6 && IsWord(word)
    ensures HeadingOf(WordHeading(level, word)) == Some(Heading(level, word))
  {
    var line := WordHeading(level, word);
    WordHeadingChars(level, word);
    SkipRun(line, 0, level, IsHash);
    SkipRun(line, level, level + 1, IsRegexSpace);
  }

  lemma WordTrimmed(word: string)
    requires IsWord(word)
    ensures TrimSpace(word) == word
  {
    assert TrimLeftSpace(word) == word;
    TrimRightFixed(word);
  }

  lemma LowerWordShaped(word: string)
    requires IsWord(word)
    ensures SlugShaped(ToLower(word))
  {
    var u := ToLower(word);
    assert forall k :: 0 <= k < |u| ==> 'a' <= u[k] <= 'z';
  }

  /** A word is its own clean title, and its id is the word lower-cased. */
  lemma SlugOfWord(word: string)
    requires IsWord(word)
    ensures Slug(word) == ToLower(word) && CleanTitle(word) == word
  {
    PlainTextUnchanged(word);
    LowerWordShaped(word);
    NormalizeFixed(ToLower(word));
    WordTrimmed(word);
  }

  /** A one-word heading of level 2..6 gives the word, lower-cased, as its id. */
  lemma WordHeadingItem(level: nat, word: string)
    requires 2 <= level <= 6 && IsWord(word)
    ensures HeadingItem(WordHeading(level, word)) == Some(TocItem(ToLower(word), word, level))
  {
    HeadingOfWord(level, word);
    WordTrimmed(word);
    SlugOfWord(word);
  }

  /** Where `IsTocHeader` looks for its phrase. */
  function PhraseArea(line: string): string
    requires HasPrefix(line, "#")
  {
    var h := if HasPrefix(line, "##") then 2 else 1;
    TrimRegexSpace(line[h..])
  }

  /** A table-of-contents header has a phrase area that starts like one of the phrases. */
  lemma NotHeaderByInitial(line: string)
    requires HasPrefix(line, "#")
    requires var t := PhraseArea(line); t == [] || (!FoldsTo(t[0], 't') && !FoldsTo(t[0], 'c'))
    ensures !IsTocHeader(line)
  {
    PhraseInitials();
  }

  /** After the first `h` hashes of a word heading, skipping blanks leaves more hashes or the word. */
  lemma WordHeadingRest(level: nat, word: string, h: nat)
    requires 1 <= h <= level && IsWord(word)
    ensures var left := DropRun(WordHeading(level, word)[h..], IsRegexSpace);
            left != [] && !IsRegexSpace(left[|left| - 1]) && (left[0] == '#' || left == word)
  {
    if level > h {
      MoreHashes(level, word, h);
    } else {
      assert h == level;
      WordAfterBlank(level, word);
    }
  }

  lemma MoreHashes(level: nat, word: string, h: nat)
    requires 1 <= h < level && IsWord(word)
    ensures var rest := WordHeading(level, word)[h..];
            DropRun(rest, IsRegexSpace) == rest && rest[0] == '#' && !IsRegexSpace(rest[|rest| - 1])
  {
    var line := WordHeading(level, word);
    WordHeadingChars(level, word);
    var rest := line[h..];
    assert rest[0] == '#' && !IsRegexSpace(rest[0]);
    assert rest[|rest| - 1] == word[|word| - 1];
    assert IsAsciiLetter(word[|word| - 1]) && !IsRegexSpace(word[|word| - 1]);
  }

  lemma WordAfterBlank(level: nat, word: string)
    requires 1 <= level && IsWord(word)
    ensures DropRun(WordHeading(level, word)[level..], IsRegexSpace) == word
    ensures !IsRegexSpace(word[|word| - 1])
  {
    AfterPrefix(Hashes(level), " ", word);
    BlankThenWord(word);
  }

  /** Cutting `a` off `a + b + c` leaves `b + c`. */
  lemma AfterPrefix(a: string, b: string, c: string)
    ensures |a| <= |a + b + c| && (a + b + c)[|a|..] == b + c
  {
  }

  /** Blanks are skipped up to the word after them, and the word ends in a letter. */
  lemma BlankThenWord(word: string)
    requires IsWord(word)
    ensures DropRun(" " + word, IsRegexSpace) == word
    ensures !IsRegexSpace(word[|word| - 1])
  {
    assert (" " + word)[1..] == word;
    assert !IsRegexSpace(word[0]);
    assert DropRun(word, IsRegexSpace) == word;
    assert IsAsciiLetter(word[|word| - 1]);
  }

  /** A word heading is no table-of-contents header unless its word could start a phrase. */
  lemma WordHeadingNotHeader(level: nat, word: string)
    requires 1 <= level && IsWord(word)
    requires !FoldsTo(word[0], 't') && !FoldsTo(word[0], 'c')
    ensures !IsTocHeader(WordHeading(level, word))
  {
    var line := WordHeading(level, word);
    WordHeadingChars(level, word);
    assert line[..1] == "#";
    var h := if HasPrefix(line, "##") then 2 else 1;
    if level >= 2 {
      assert line[..2] == "##";
    }
    WordHeadingRest(level, word, h);
    var left := DropRun(line[h..], IsRegexSpace);
    assert DropRunBack(left, IsRegexSpace) == left;
    NotHeaderByInitial(line);
  }

  lemma WordHeadingNoNewline(level: nat, word: string)
    requires IsWord(word)
    ensures NoNewline(WordHeading(level, word))
  {
    WordHeadingChars(level, word);
    var line := WordHeading(level, word);
    forall k | level + 1 <= k < |line| ensures line[k] != '\n' {
      assert line[k] == word[k - level - 1];
    }
  }

  lemma SplitThree(a: string, b: string, c: string)
    requires NoNewline(a) && NoNewline(b) && NoNewline(c)
    ensures Lines(a + "\n" + b + "\n" + c) == [a, b, c]
  {
    var ls := [a, b, c];
    assert ls[1..] == [b, c] && [b, c][1..] == [c];
    assert JoinLines([c]) == c;
    assert JoinLines([b, c]) == b + "\n" + c;
    assert JoinLines(ls) == a + "\n" + (b + "\n" + c);
    assert a + "\n" + (b + "\n" + c) == a + "\n" + b + "\n" + c;
    LinesOfJoin(ls);
  }

  lemma ThreeHeadingItems(a: string, b: string, c: string)
    ensures HeadingItems([a, b, c]) == AsSeq(HeadingItem(a)) + AsSeq(HeadingItem(b)) + AsSeq(HeadingItem(c))
  {
    var ls := [a, b, c];
    assert ls[..2] == [a, b];
    assert [a, b][..1] == [a];
    assert [a][..0] == [];
    assert HeadingItems([a]) == AsSeq(HeadingItem(a));
    assert HeadingItems([a, b]) == HeadingItems([a]) + AsSeq(HeadingItem(b));
  }

  lemma ThreeWithoutHeader(a: string, b: string, c: string)
    requires !IsTocHeader(a) && !IsTocHeader(b) && !IsTocHeader(c)
    ensures ExplicitFrom([a, b, c], false) == []
  {
    var ls := [a, b, c];
    assert ls[1..] == [b, c];
    assert [b, c][1..] == [c];
    assert [c][1..] == [];
    assert ExplicitFrom([c], false) == [];
    assert ExplicitFrom([b, c], false) == [];
  }

  /** Three word headings joined by newlines split back into those three lines. */
  lemma SplitWordHeadings(l1: nat, w1: string, l2: nat, w2: string, l3: nat, w3: string)
    requires IsWord(w1) && IsWord(w2) && IsWord(w3)
    ensures Lines(WordHeading(l1, w1) + "\n" + WordHeading(l2, w2) + "\n" + WordHeading(l3, w3)) ==
            [WordHeading(l1, w1), WordHeading(l2, w2), WordHeading(l3, w3)]
  {
    WordHeadingNoNewline(l1, w1);
    WordHeadingNoNewline(l2, w2);
    WordHeadingNoNewline(l3, w3);
    SplitThree(WordHeading(l1, w1), WordHeading(l2, w2), WordHeading(l3, w3));
  }

  /** Word headings whose words cannot start a phrase open no explicit table. */
  lemma WordHeadingsNoTable(l1: nat, w1: string, l2: nat, w2: string, l3: nat, w3: string)
    requires 1 <= l1 && 1 <= l2 && 1 <= l3 && IsWord(w1) && IsWord(w2) && IsWord(w3)
    requires !FoldsTo(w1[0], 't') && !FoldsTo(w1[0], 'c')
    requires !FoldsTo(w2[0], 't') && !FoldsTo(w2[0], 'c')
    requires !FoldsTo(w3[0], 't') && !FoldsTo(w3[0], 'c')
    ensures ExplicitFrom([WordHeading(l1, w1), WordHeading(l2, w2), WordHeading(l3, w3)], false) == []
  {
    WordHeadingNotHeader(l1, w1);
    WordHeadingNotHeader(l2, w2);
    WordHeadingNotHeader(l3, w3);
    ThreeWithoutHeader(WordHeading(l1, w1), WordHeading(l2, w2), WordHeading(l3, w3));
  }

  lemma ThreeAsSeq(p: Option<TocItem>, q: Option<TocItem>, r: Option<TocItem>, x: TocItem, y: TocItem, z: TocItem)
    requires p == Some(x) && q == Some(y) && r == Some(z)
    ensures AsSeq(p) + AsSeq(q) + AsSeq(r) == [x, y, z]
  {
  }

  /** Three lines that are each a heading give their three items, in order. */
  lemma ThreeItems(a: string, b: string, c: string, x: TocItem, y: TocItem, z: TocItem)
    requires HeadingItem(a) == Some(x) && HeadingItem(b) == Some(y) && HeadingItem(c) == Some(z)
    ensures HeadingItems([a, b, c]) == [x, y, z]
  {
    ThreeHeadingItems(a, b, c);
    ThreeAsSeq(HeadingItem(a), HeadingItem(b), HeadingItem(c), x, y, z);
  }

  const SampleDocument: string := "## Setup\n### Install\n## Run"

  lemma SampleWords()
    ensures IsWord("Setup") && IsWord("Install") && IsWord("Run")
    ensures !FoldsTo('S', 't') && !FoldsTo('S', 'c') && !FoldsTo('I', 't') && !FoldsTo('I', 'c')
    ensures !FoldsTo('R', 't') && !FoldsTo('R', 'c')
  {
  }

  lemma SampleLowered()
    ensures ToLower("Setup") == "setup" && ToLower("Install") == "install" && ToLower("Run") == "run"
  {
  }

  lemma SampleText()
    ensures SampleDocument == WordHeading(2, "Setup") + "\n" + WordHeading(3, "Install") + "\n" + WordHeading(2, "Run")
  {
    assert Hashes(2) == "##" && Hashes(3) == "###";
  }

  lemma SampleSplit()
    ensures Lines(SampleDocument) == [WordHeading(2, "Setup"), WordHeading(3, "Install"), WordHeading(2, "Run")]
  {
    SampleWords();
    SampleText();
    SplitWordHeadings(2, "Setup", 3, "Install", 2, "Run");
  }

  lemma SampleHasNoExplicitTable()
    ensures ExplicitFrom([WordHeading(2, "Setup"), WordHeading(3, "Install"), WordHeading(2, "Run")], false) == []
  {
    SampleWords();
    WordHeadingsNoTable(2, "Setup", 3, "Install", 2, "Run");
  }

  lemma SampleHeadings()
    ensures HeadingItems([WordHeading(2, "Setup"), WordHeading(3, "Install"), WordHeading(2, "Run")]) ==
            [TocItem("setup", "Setup", 2), TocItem("install", "Install", 3), TocItem("run", "Run", 2)]
  {
    SampleWords();
    SampleLowered();
    WordHeadingItem(2, "Setup");
    WordHeadingItem(3, "Install");
    WordHeadingItem(2, "Run");
    ThreeItems(WordHeading(2, "Setup"), WordHeading(3, "Install"), WordHeading(2, "Run"),
               TocItem("setup", "Setup", 2), TocItem("install", "Install", 3), TocItem("run", "Run", 2));
  }

  /** The heading scan of `## Setup\n### Install\n## Run`: (setup, 2), (install, 3), (run, 2). */
  lemma SetupInstallRun()
    ensures TocFromContent(SampleDocument) ==
            [TocItem("setup", "Setup", 2), TocItem("install", "Install", 3), TocItem("run", "Run", 2)]
  {
    SampleSplit();
    SampleHasNoExplicitTable();
    SampleHeadings();
  }

  // ----- explicit tables, worked through -----

  /** `RunEnd` stops at the first `stop` at or after `i`. */
  lemma RunEndAt(s: string, i: nat, j: nat, stop: char)
    requires i <= j <= |s| && forall k :: i <= k < j ==> s[k] != stop
    requires j == |s| || s[j] == stop
    ensures RunEnd(s, i, stop) == j
  {
  }

  function Spaces(n: nat): (s: string)
    ensures |s| == n && forall k :: 0 <= k < n ==> s[k] == ' '
  {
    seq(n, _ => ' ')
  }

  /** The list entry `- [title](#id)`, indented by `indent` spaces. */
  function LinkLine(indent: nat, title: string, id: string): string
  {
    Spaces(indent) + "- [" + title + "](#" + id + ")"
  }

  /** The list mark of a link line: `indent` blanks, `-`, a blank and `[`. */
  lemma LinkLineMark(indent: nat, title: string, id: string)
    ensures var line := LinkLine(indent, title, id);
            && |line| == indent + 7 + |title| + |id|
            && Skip(line, 0, IsRegexSpace) == indent && Indentation(line) == indent
            && line[indent] == '-' && Skip(line, indent + 1, IsRegexSpace) == indent + 2 && line[indent + 2] == '['
  {
    var line := LinkLine(indent, title, id);
    var a := Spaces(indent) + "- [";
    assert line == a + (title + "](#" + id + ")");
    assert forall k :: 0 <= k < |a| ==> line[k] == a[k];
    SkipRun(line, 0, indent, IsRegexSpace);
    SkipRun(line, indent + 1, indent + 2, IsRegexSpace);
    SkipRun(line, 0, indent, IsSpaceOrTab);
  }

  /** The link text of a link line runs from `indent + 3` to the first `]`, followed by `(#`. */
  lemma LinkLineTitle(indent: nat, title: string, id: string)
    requires forall k :: 0 <= k < |title| ==> title[k] != ']'
    ensures var line := LinkLine(indent, title, id);
            var j := indent + 3 + |title|;
            && j + 3 <= |line| && RunEnd(line, indent + 3, ']') == j && line[j + 1] == '(' && line[j + 2] == '#'
            && line[indent + 3..j] == title
  {
    var line := LinkLine(indent, title, id);
    var j := indent + 3 + |title|;
    var a := Spaces(indent) + "- [";
    var c := a + title + "](#";
    assert line == c + (id + ")");
    assert forall k :: 0 <= k < |c| ==> line[k] == c[k];
    assert forall k :: |a| <= k < j ==> c[k] == title[k - |a|];
    RunEndAt(line, indent + 3, j, ']');
    assert line[indent + 3..j] == c[|a|..j] == title;
  }

  /** The anchor of a link line runs from `j + 3` to the first `)`, the line's last character. */
  lemma LinkLineAnchor(indent: nat, title: string, id: string)
    requires forall k :: 0 <= k < |id| ==> id[k] != ')'
    ensures var line := LinkLine(indent, title, id);
            var j := indent + 3 + |title|;
            var k := j + 3 + |id|;
            && k < |line| && RunEnd(line, j + 3, ')') == k && line[j + 3..k] == id
  {
    var line := LinkLine(indent, title, id);
    var j := indent + 3 + |title|;
    var c := Spaces(indent) + "- [" + title + "](#";
    assert |c| == j + 3;
    assert line == c + id + ")";
    assert forall k :: |c| <= k < |c| + |id| ==> line[k] == id[k - |c|];
    assert line[|c| + |id|] == ')';
    RunEndAt(line, j + 3, j + 3 + |id|, ')');
    assert line[j + 3..j + 3 + |id|] == id;
  }

  /** `LinkItem` on a line whose marks sit at `p`, `q`, `j` and `k`. */
  lemma LinkItemAt(line: string, p: nat, q: nat, j: nat, k: nat)
    requires p == Skip(line, 0, IsRegexSpace) && p < |line| && line[p] == '-'
    requires p + 1 <= |line| && q == Skip(line, p + 1, IsRegexSpace) && q < |line| && line[q] == '['
    requires j == RunEnd(line, q + 1, ']') && j > q + 1 && j + 2 < |line| && line[j + 1] == '(' && line[j + 2] == '#'
    requires k == RunEnd(line, j + 3, ')') && j + 3 < k < |line|
    ensures LinkItem(line) == Some(TocItem(line[j + 3..k], line[q + 1..j], LinkLevel(Indentation(line))))
  {
    MarkAt(line, p, q);
    TitleAt(line, q, j);
    AnchorAt(line, q, j, k);
  }

  lemma MarkAt(line: string, p: nat, q: nat)
    requires p == Skip(line, 0, IsRegexSpace) && p < |line| && line[p] == '-'
    requires p + 1 <= |line| && q == Skip(line, p + 1, IsRegexSpace)
    ensures LinkItem(line) == LinkAfterMark(line, q)
  {
  }

  lemma TitleAt(line: string, q: nat, j: nat)
    requires q < |line| && line[q] == '['
    requires j == RunEnd(line, q + 1, ']') && j > q + 1 && j + 2 < |line| && line[j + 1] == '(' && line[j + 2] == '#'
    ensures LinkAfterMark(line, q) == LinkAnchor(line, q, j)
  {
  }

  lemma AnchorAt(line: string, q: nat, j: nat, k: nat)
    requires q + 1 < j && j + 3 <= |line|
    requires k == RunEnd(line, j + 3, ')') && j + 3 < k < |line|
    ensures LinkAnchor(line, q, j) == Some(TocItem(line[j + 3..k], line[q + 1..j], LinkLevel(Indentation(line))))
  {
  }

  /**
    A link line whose title holds no `]` and whose anchor holds no `)` is
    read back as exactly that entry, at the level its indentation gives.
   */
  lemma LinkItemOfLine(indent: nat, title: string, id: string)
    requires title != [] && id != []
    requires forall k :: 0 <= k < |title| ==> title[k] != ']'
    requires forall k :: 0 <= k < |id| ==> id[k] != ')'
    ensures LinkItem(LinkLine(indent, title, id)) == Some(TocItem(id, title, LinkLevel(indent)))
  {
    LinkLineMark(indent, title, id);
    LinkLineTitle(indent, title, id);
    LinkLineAnchor(indent, title, id);
    LinkItemOfMarks(LinkLine(indent, title, id), indent, title, id);
  }

  /** A line with the marks of a link line where `LinkLine` puts them reads as that entry. */
  lemma LinkItemOfMarks(line: string, indent: nat, title: string, id: string)
    requires title != [] && id != [] && |line| == indent + 7 + |title| + |id|
    requires Skip(line, 0, IsRegexSpace) == indent && Indentation(line) == indent
    requires line[indent] == '-' && Skip(line, indent + 1, IsRegexSpace) == indent + 2 && line[indent + 2] == '['
    requires var j := indent + 3 + |title|;
             RunEnd(line, indent + 3, ']') == j && line[j + 1] == '(' && line[j + 2] == '#' && line[indent + 3..j] == title
    requires var j := indent + 3 + |title|;
             RunEnd(line, j + 3, ')') == j + 3 + |id| && line[j + 3..j + 3 + |id|] == id
    ensures LinkItem(line) == Some(TocItem(id, title, LinkLevel(indent)))
  {
    var j := indent + 3 + |title|;
    LinkItemAt(line, indent, indent + 2, j, j + 3 + |id|);
  }

  /** `- [Intro](#intro)` is the entry (intro, Intro) at level two. */
  lemma IntroLink()
    ensures LinkItem("- [Intro](#intro)") == Some(TocItem("intro", "Intro", 2))
  {
    assert LinkLine(0, "Intro", "intro") == "- [Intro](#intro)";
    LinkItemOfLine(0, "Intro", "intro");
  }

  /** Two spaces of indentation put `  - [Setup](#setup)` one level deeper. */
  lemma IndentedSetupLink()
    ensures LinkItem("  - [Setup](#setup)") == Some(TocItem("setup", "Setup", 3))
  {
    assert LinkLine(2, "Setup", "setup") == "  - [Setup](#setup)";
    LinkItemOfLine(2, "Setup", "setup");
  }

  /** Trimming white space off blanks followed by a word that starts and ends with no blank. */
  lemma TrimBlanksBefore(pre: string, t: string)
    requires forall k :: 0 <= k < |pre| ==> IsRegexSpace(pre[k])
    requires t != [] && !IsRegexSpace(t[0]) && !IsRegexSpace(t[|t| - 1])
    ensures TrimRegexSpace(pre + t) == t
  {
    var s := pre + t;
    var r := DropRun(s, IsRegexSpace);
    var d := |s| - |r|;
    assert s[|pre|] == t[0];
    assert d <= |pre|;
    assert r != [] && r[0] == s[d];
    assert d == |pre|;
    assert r == s[|pre|..] == t;
    var b := DropRunBack(t, IsRegexSpace);
    assert !IsRegexSpace(t[|t| - 1]);
    assert |b| == |t|;
  }

  lemma TrimmedTableHeader()
    ensures TrimRegexSpace("## Table of Contents"[2..]) == "Table of Contents"
  {
    assert "## Table of Contents"[2..] == " Table of Contents";
    assert " Table of Contents" == " " + "Table of Contents";
    TrimBlanksBefore(" ", "Table of Contents");
  }

  lemma TableFolds()
    ensures FoldEquals("Table of Contents", TocPhrases[0])
  {
    var s := "Table of Contents";
    var p := TocPhrases[0];
    assert p == "table of contents";
    assert s[1..9] == p[1..9] && s[10..] == p[10..];
    forall k | 0 <= k < |s| ensures FoldsTo(s[k], p[k]) {
      if k == 0 || k == 9 {
      } else if k < 9 {
        assert s[k] == s[1..9][k - 1];
      } else {
        assert s[k] == s[10..][k - 10];
      }
    }
  }

  /** `## Table of Contents` opens the explicit table. */
  lemma TableOfContentsHeader()
    ensures IsTocHeader("## Table of Contents")
  {
    assert "## Table of Contents"[..2] == "##";
    TrimmedTableHeader();
    TableFolds();
    HeaderByPhrase("## Table of Contents", 0);
  }

  /** Two `#` and then, up to blanks, phrase `q`: a table-of-contents header. */
  lemma HeaderByPhrase(line: string, q: nat)
    requires HasPrefix(line, "##") && q < |TocPhrases|
    requires FoldEquals(TrimRegexSpace(line[2..]), TocPhrases[q])
    ensures IsTocHeader(line)
  {
    assert line[..1] == line[..2][..1];
  }

  /** A line starts with a non-empty prefix only if it starts with the prefix's first character. */
  lemma PrefixHead(line: string, p: string)
    ensures p != [] && HasPrefix(line, p) ==> line != [] && line[0] == p[0]
  {
    if p != [] && HasPrefix(line, p) {
      assert line[0] == line[..|p|][0];
    }
  }

  /** A line that does not start with `#` neither opens nor ends a table. */
  lemma NoHashNoHeader(line: string)
    requires line == [] || line[0] != '#'
    ensures !IsTocHeader(line) && !IsSectionBreak(line)
  {
    PrefixHead(line, "#");
    PrefixHead(line, "##");
  }

  /** The entries a run of lines inside an open table lists: each line's link, if it has one. */
  function LinkItems(lines: seq<string>): seq<TocItem>
    decreases |lines|
  {
    if lines == [] then [] else AsSeq(LinkItem(lines[0])) + LinkItems(lines[1..])
  }

  predicate NoHashStart(lines: seq<string>)
  {
    forall k :: 0 <= k < |lines| ==> lines[k] == [] || lines[k][0] != '#'
  }

  /**
    Inside an open table, lines that do not start with `#` contribute their
    links in order, and what follows them is scanned as before.
   */
  lemma {:induction false} LinksInTable(links: seq<string>, rest: seq<string>)
    requires NoHashStart(links)
    ensures ExplicitFrom(links + rest, true) == LinkItems(links) + ExplicitFrom(rest, true)
    decreases |links|
  {
    if links != [] {
      NoHashTail(links);
      LinksInTable(links[1..], rest);
      LinkThenRest(links, rest);
    } else {
      EmptyPrefix(links, rest);
    }
  }

  lemma NoHashTail(lines: seq<string>)
    requires lines != [] && NoHashStart(lines)
    ensures lines[0] == [] || lines[0][0] != '#'
    ensures NoHashStart(lines[1..])
  {
    forall k | 0 <= k < |lines| - 1 ensures lines[1..][k] == lines[k + 1] { }
  }

  /** The first line of a run inside an open table, then the rest of the run. */
  lemma LinkThenRest(links: seq<string>, rest: seq<string>)
    requires links != [] && (links[0] == [] || links[0][0] != '#')
    requires ExplicitFrom(links[1..] + rest, true) == LinkItems(links[1..]) + ExplicitFrom(rest, true)
    ensures ExplicitFrom(links + rest, true) == LinkItems(links) + ExplicitFrom(rest, true)
  {
    ConsAppend(links, rest);
    LinkStep(links[0], links[1..] + rest);
    AppendAssociates(AsSeq(LinkItem(links[0])), LinkItems(links[1..]), ExplicitFrom(rest, true));
  }

  lemma ConsAppend(a: seq<string>, b: seq<string>)
    requires a != []
    ensures a + b == [a[0]] + (a[1..] + b)
  {
  }

  lemma EmptyPrefix(a: seq<string>, b: seq<string>)
    requires a == []
    ensures a + b == b
  {
  }

  /** One link line inside an open table. */
  lemma LinkStep(line: string, tail: seq<string>)
    requires line == [] || line[0] != '#'
    ensures ExplicitFrom([line] + tail, true) == AsSeq(LinkItem(line)) + ExplicitFrom(tail, true)
  {
    NoHashNoHeader(line);
    assert ([line] + tail)[1..] == tail;
  }

  const ExplicitSample: seq<string> :=
    ["## Table of Contents", "- [Intro](#intro)", "  - [Setup](#setup)", "## Intro"]

  /** The four lines above, one per line of the document. */
  const ExplicitDocument: string := JoinLines(ExplicitSample)

  lemma ExplicitLines()
    ensures Lines(ExplicitDocument) == ExplicitSample
  {
    forall k | 0 <= k < |ExplicitSample| ensures NoNewline(ExplicitSample[k]) {
      var line := ExplicitSample[k];
      forall i | 0 <= i < |line| ensures line[i] != '\n' {
        assert k == 0 || k == 1 || k == 2 || k == 3;
      }
    }
    LinesOfJoin(ExplicitSample);
  }

  lemma TrimmedIntro()
    ensures TrimRegexSpace("## Intro"[2..]) == "Intro"
  {
    assert "## Intro"[2..] == " Intro";
    assert " Intro" == " " + "Intro";
    TrimBlanksBefore(" ", "Intro");
  }

  /** A `##` line whose trimmed text starts with neither `t` nor `c`, in any case, is not a header. */
  lemma NotHeaderAfterTwo(line: string, t: string)
    requires HasPrefix(line, "##") && TrimRegexSpace(line[2..]) == t
    requires t != [] && t[0] != 't' && t[0] != 'T' && t[0] != 'c' && t[0] != 'C'
    ensures !IsTocHeader(line)
  {
    NotHeaderByInitial(line);
  }

  lemma IntroNotHeader()
    ensures !IsTocHeader("## Intro")
  {
    assert "## Intro"[..2] == "##";
    TrimmedIntro();
    assert "Intro"[0] == 'I';
    NotHeaderAfterTwo("## Intro", "Intro");
  }

  lemma IntroIsBreak()
    ensures IsSectionBreak("## Intro")
  {
    var line := "## Intro";
    assert line[..2] == "##";
    assert line[3..] == "Intro";
  }

  /** `## Intro` ends an open table: it is a major heading but not a header. */
  lemma IntroBreak()
    ensures !IsTocHeader("## Intro") && IsSectionBreak("## Intro")
  {
    IntroNotHeader();
    IntroIsBreak();
  }

  const SampleLinks: seq<string> := ["- [Intro](#intro)", "  - [Setup](#setup)"]

  lemma SampleShape()
    ensures ExplicitSample == ["## Table of Contents"] + (SampleLinks + ["## Intro"])
  {
  }

  lemma HeaderOpens(header: string, more: seq<string>)
    requires IsTocHeader(header)
    ensures ExplicitFrom([header] + more, false) == ExplicitFrom(more, true)
  {
    assert ([header] + more)[1..] == more;
  }

  lemma BreakCloses(line: string)
    requires !IsTocHeader(line) && IsSectionBreak(line)
    ensures ExplicitFrom([line], true) == []
  {
  }

  lemma SampleLinkItems()
    ensures LinkItems(SampleLinks) == [TocItem("intro", "Intro", 2), TocItem("setup", "Setup", 3)]
  {
    IntroLink();
    IndentedSetupLink();
    TwoLinkItems("- [Intro](#intro)", "  - [Setup](#setup)", TocItem("intro", "Intro", 2), TocItem("setup", "Setup", 3));
  }

  lemma TwoLinkItems(a: string, b: string, x: TocItem, y: TocItem)
    requires LinkItem(a) == Some(x) && LinkItem(b) == Some(y)
    ensures LinkItems([a, b]) == [x, y]
  {
    assert [a, b][1..] == [b] && [b][1..] == [];
    assert LinkItems([b]) == AsSeq(LinkItem(b)) + [] == [y];
  }

  lemma SampleLinksNoHash()
    ensures NoHashStart(SampleLinks)
  {
  }

  /**
    A header, two links and a major heading: the table of contents is
    exactly the two listed entries, the heading scan does not run.
   */
  lemma IntroSetupTable()
    ensures TocFromContent(ExplicitDocument) ==
            [TocItem("intro", "Intro", 2), TocItem("setup", "Setup", 3)]
  {
    ExplicitLines();
    SampleShape();
    TableOfContentsHeader();
    HeaderOpens("## Table of Contents", SampleLinks + ["## Intro"]);
    SampleLinksNoHash();
    LinksInTable(SampleLinks, ["## Intro"]);
    IntroBreak();
    BreakCloses("## Intro");
    SampleLinkItems();
    AppendEmpty(LinkItems(SampleLinks));
  }

  lemma AppendEmpty(a: seq<TocItem>)
    ensures a + [] == a
  {
  }
}
