/**
  The order of a section's list after a scan. As written, `scanLessons`
  sorts each section's list right after walking its directory and only then
  appends the top-level `week*.md` files, so a top-level file with an early
  week lands after the section's own, later lessons. The corrected scan
  sorts at the end; `CatalogProperties.ScanValid` proves every list of it
  ordered.
 */
module ScanOrder {
  import opened Wrappers
  import opened Text
  import opened Files
  import opened FrontMatter
  import opened WeekNumbers
  import opened Lessons
  import opened Catalog
  import opened CatalogProperties

  const SectionFile: string := "section1-html-css/week5.md"
  const TopLevelFile: string := "week3.md"

  /** A readable, stat-able file with no front matter. */
  const PlainFile: Node := File(Some(""), Some(FileInfo(0, NoTime)))

  /** A lessons directory holding the first section's directory, a file in it and a top-level file. */
  function TwoFileTree(inSection: string, topLevel: string, node: Node): FileSystem
  {
    FileSystem(true, [Entry(SectionTable[0].id, Dir), Entry(inSection, node), Entry(topLevel, node)])
  }

  /** The two files' weeks as the sectioned parser reads them from their names. */
  lemma ParsedWeeks(decode: MetadataDecoder)
    ensures SectionedParse(decode)(SectionFile, SectionOrigin(SectionTable[0]), PlainFile).Success?
    ensures SectionedParse(decode)(SectionFile, SectionOrigin(SectionTable[0]), PlainFile).value.week == 5
    ensures SectionedParse(decode)(TopLevelFile, NoSection, PlainFile).Success?
    ensures SectionedParse(decode)(TopLevelFile, NoSection, PlainFile).value.week == 3
  {
    assert SplitFrontMatter("").None?;
    LessonWithoutFrontMatter(Sectioned, SectionFile, SectionOrigin(SectionTable[0]), "", FileInfo(0, NoTime), NoTime, decode);
    LessonWithoutFrontMatter(Sectioned, TopLevelFile, NoSection, "", FileInfo(0, NoTime), NoTime, decode);
    NameWeek5();
    NameWeek3();
  }

  lemma NameWeek5()
    ensures FilenameWeek(Base(SectionFile), 48) == 5
  {
    BaseOfSectionFile();
    Week5();
  }

  lemma BaseOfSectionFile()
    ensures Base(SectionFile) == "week5.md"
  {
    assert SectionFile == SectionTable[0].id + "/" + "week5.md";
    BaseOfJoin(SectionTable[0].id, "week5.md");
  }

  lemma Week5()
    ensures FilenameWeek("week5.md", 48) == 5
  {
    WeekIsToken();
    TokenNumberName("week", "5", 48);
    assert "week" + "5" + ".md" == "week5.md";
  }

  lemma NameWeek3()
    ensures FilenameWeek(Base(TopLevelFile), 48) == 3
  {
    BaseOfPlainName(TopLevelFile);
    Week3();
  }

  lemma Week3()
    ensures FilenameWeek("week3.md", 48) == 3
  {
    WeekIsToken();
    TokenNumberName("week", "3", 48);
    assert "week" + "3" + ".md" == "week3.md";
  }

  /** Where the two names sit: one a Markdown file inside the first section, one a top-level `week*.md`. */
  predicate Placed(inSection: string, topLevel: string)
  {
    HasPrefix(inSection, SectionTable[0].id + "/") && IsMarkdownName(Base(inSection)) && !IsTopLevel(inSection) &&
    IsLegacyName(topLevel) && !InDir(topLevel, SectionTable[0].id) && |inSection| > 7 && inSection[7] == '1'
  }

  /** The ids of the second to fifth section differ from the first's at position 7 and all start with `s`. */
  lemma TableIdShapes()
    ensures forall k :: 0 <= k < |SectionTable| ==> |SectionTable[k].id| > 7 && SectionTable[k].id[0] == 's'
    ensures forall k :: 1 <= k < |SectionTable| ==> SectionTable[k].id[7] != '1'
    ensures SectionTable[0].id[7] == '1'
  {
  }

  lemma SectionFileInSection()
    ensures HasPrefix(SectionFile, SectionTable[0].id + "/") && !IsTopLevel(SectionFile)
    ensures |SectionFile| > 7 && SectionFile[7] == '1'
  {
    assert SectionFile == SectionTable[0].id + "/" + "week5.md";
    assert SectionFile[17] == '/';
  }

  lemma SectionFileIsMarkdown()
    ensures IsMarkdownName(Base(SectionFile))
  {
    BaseOfSectionFile();
    LowerWeek5();
  }

  lemma LowerWeek5()
    ensures IsMarkdownName("week5.md")
  {
    var l := ToLower("week5.md");
    assert l == "week5.md";
    assert l[|l| - 3..] == ".md";
  }

  lemma TopLevelFileIsLegacy()
    ensures IsLegacyName(TopLevelFile)
  {
    assert TopLevelFile[..4] == "week";
    assert TopLevelFile[|TopLevelFile| - 3..] == ".md";
  }

  lemma TopLevelFileOutside()
    ensures !InDir(TopLevelFile, SectionTable[0].id)
  {
    var id := SectionTable[0].id;
    assert TopLevelFile[0] != (id + "/")[0];
    assert TopLevelFile != id;
  }

  lemma ConcretePlaced()
    ensures Placed(SectionFile, TopLevelFile)
  {
    SectionFileInSection();
    SectionFileIsMarkdown();
    TopLevelFileIsLegacy();
    TopLevelFileOutside();
  }

  /**
    `section1-html-css/week5.md` and a top-level `week3.md`, both without front
    matter: the as-written scan lists week 5 before week 3 in the first section.
   */
  lemma SortBeforeLegacy(decode: MetadataDecoder)
    ensures var c := ScanAsWritten(TwoFileTree(SectionFile, TopLevelFile, PlainFile), SectionedParse(decode));
            SectionTable[0].id in c.sections &&
            var s := c.sections[SectionTable[0].id].lessons;
            |s| == 2 && s[0].week == 5 && s[1].week == 3 && !SortedByWeek(s)
  {
    var p := SectionedParse(decode);
    ParsedWeeks(decode);
    ConcretePlaced();
    SortBeforeLegacyFor(p, SectionFile, TopLevelFile, PlainFile,
      p(SectionFile, SectionOrigin(SectionTable[0]), PlainFile).value, p(TopLevelFile, NoSection, PlainFile).value);
  }

  /** The same for any two such names and any parser that gives them weeks 5 and 3. */
  lemma SortBeforeLegacyFor(p: LessonParser, inSection: string, topLevel: string, node: Node, l5: Lesson, l3: Lesson)
    requires Placed(inSection, topLevel) && node.File?
    requires p(inSection, SectionOrigin(SectionTable[0]), node) == Success(l5) && l5.week == 5
    requires p(topLevel, NoSection, node) == Success(l3) && l3.week == 3
    ensures var c := ScanAsWritten(TwoFileTree(inSection, topLevel, node), p);
            SectionTable[0].id in c.sections &&
            var s := c.sections[SectionTable[0].id].lessons;
            |s| == 2 && s[0].week == 5 && s[1].week == 3 && !SortedByWeek(s)
  {
    var fs := TwoFileTree(inSection, topLevel, node);
    var c0 := EmptyCatalog();
    EmptyFirstSection();
    var c1 := SectionsAfterWalk(p, inSection, topLevel, node, l5, c0);
    var c := LegacyAfterSections(p, inSection, topLevel, node, c1, l3);
    assert c == ScanAsWritten(fs, p);
    UnsortedPair(c1.sections[SectionTable[0].id].lessons, c.sections[SectionTable[0].id].lessons, l5);
  }

  lemma EmptyFirstSection()
    ensures SectionTable[0].id in EmptyCatalog().sections && EmptyCatalog().sections[SectionTable[0].id].lessons == []
  {
    RowInTable(0);
  }

  /** A week-5 lesson followed by a week-3 one is out of order. */
  lemma UnsortedPair(before: seq<Lesson>, after: seq<Lesson>, l5: Lesson)
    requires before == [l5] && l5.week == 5
    requires exists l: Lesson :: l.week == 3 && after == before + [l]
    ensures |after| == 2 && after[0].week == 5 && after[1].week == 3 && !SortedByWeek(after)
  {
    var l: Lesson :| l.week == 3 && after == before + [l];
    assert after == [l5, l];
  }

  /**
    The section phase from a catalog whose first section is empty: that
    section gets the week-5 lesson, and nothing else changes.
   */
  lemma SectionsAfterWalk(p: LessonParser, inSection: string, topLevel: string, node: Node, l5: Lesson, c0: Catalog)
    returns (c: Catalog)
    requires Placed(inSection, topLevel) && node.File?
    requires p(inSection, SectionOrigin(SectionTable[0]), node) == Success(l5) && l5.week == 5
    requires SectionTable[0].id in c0.sections && c0.sections[SectionTable[0].id].lessons == []
    ensures c == SectionPhase(c0, TwoFileTree(inSection, topLevel, node), p, 0)
    ensures c.sections.Keys == c0.sections.Keys
    ensures c.sections[SectionTable[0].id].lessons == [l5]
  {
    var fs := TwoFileTree(inSection, topLevel, node);
    var c1 := FirstWalk(p, inSection, topLevel, node, l5, c0);
    c := FirstSectionStep(p, fs, l5, c0, c1);
    OtherSectionsAbsent(inSection, topLevel, node);
    SectionPhaseOfAbsent(c, fs, p, 1);
  }

  /** The first round of the section loop: walk, then sort the one-lesson list. */
  lemma FirstSectionStep(p: LessonParser, fs: FileSystem, l5: Lesson, c0: Catalog, c1: Catalog)
    returns (c: Catalog)
    requires |fs.entries| > 0 && fs.entries[0].path == SectionTable[0].id && fs.rootExists
    requires SectionTable[0].id in c0.sections && c0.sections[SectionTable[0].id].lessons == []
    requires c1 == WalkSection(c0, SectionTable[0], fs.entries, p) && c1 == Add(c0, SectionTable[0].id, l5)
    ensures c == SectionStep(c0, fs, SectionTable[0], p)
    ensures c.sections.Keys == c0.sections.Keys
    ensures c.sections[SectionTable[0].id].lessons == [l5]
  {
    var cfg := SectionTable[0];
    c := SortSection(c1, cfg.id);
    assert Exists(fs, cfg.id) by { assert fs.entries[0].path == cfg.id; }
    SortSingle(l5);
  }

  lemma SortSingle(l: Lesson)
    ensures SortByWeek([l]) == [l]
  {
    assert [l][..0] == [];
  }

  /** The walk of the first section's directory appends the week-5 lesson. */
  lemma FirstWalk(p: LessonParser, inSection: string, topLevel: string, node: Node, l5: Lesson, c0: Catalog)
    returns (c1: Catalog)
    requires Placed(inSection, topLevel) && node.File?
    requires p(inSection, SectionOrigin(SectionTable[0]), node) == Success(l5) && l5.week == 5
    requires SectionTable[0].id in c0.sections
    ensures c1 == WalkSection(c0, SectionTable[0], TwoFileTree(inSection, topLevel, node).entries, p)
    ensures c1 == Add(c0, SectionTable[0].id, l5)
  {
    var cfg := SectionTable[0];
    var es := TwoFileTree(inSection, topLevel, node).entries;
    c1 := Add(c0, cfg.id, l5);
    StepOnDirectory(p, c0);
    StepOnLesson(p, inSection, topLevel, node, l5, c0);
    StepOnTopLevel(p, inSection, topLevel, node, c1);
    WalkOfThree(c0, cfg, es[0], es[1], es[2], p);
    assert es == [es[0], es[1], es[2]];
  }

  /** A walk over three entries, none of which stops it, takes the three steps in order. */
  lemma WalkOfThree(c: Catalog, cfg: SectionConfig, a: Entry, b: Entry, d: Entry, p: LessonParser)
    requires !StopsWalk(cfg, a) && !StopsWalk(cfg, b) && !StopsWalk(cfg, d)
    ensures WalkSection(c, cfg, [a, b, d], p) == WalkStep(WalkStep(WalkStep(c, cfg, a, p), cfg, b, p), cfg, d, p)
  {
    assert [a, b, d][1..] == [b, d];
    assert [b, d][1..] == [d];
    assert [d][1..] == [];
    var c1 := WalkStep(c, cfg, a, p);
    var c2 := WalkStep(c1, cfg, b, p);
    var c3 := WalkStep(c2, cfg, d, p);
    assert WalkSection(c3, cfg, [], p) == c3;
    assert WalkSection(c2, cfg, [d], p) == WalkSection(c3, cfg, [], p);
    assert WalkSection(c1, cfg, [b, d], p) == WalkSection(c2, cfg, [d], p);
    assert WalkSection(c, cfg, [a, b, d], p) == WalkSection(c1, cfg, [b, d], p);
  }

  lemma StepOnDirectory(p: LessonParser, c: Catalog)
    ensures !StopsWalk(SectionTable[0], Entry(SectionTable[0].id, Dir))
    ensures WalkStep(c, SectionTable[0], Entry(SectionTable[0].id, Dir), p) == c
  {
  }

  lemma StepOnLesson(p: LessonParser, inSection: string, topLevel: string, node: Node, l5: Lesson, c: Catalog)
    requires Placed(inSection, topLevel) && node.File?
    requires p(inSection, SectionOrigin(SectionTable[0]), node) == Success(l5) && l5.week == 5
    ensures !StopsWalk(SectionTable[0], Entry(inSection, node))
    ensures WalkStep(c, SectionTable[0], Entry(inSection, node), p) == Add(c, SectionTable[0].id, l5)
  {
    TableRanges();
  }

  lemma StepOnTopLevel(p: LessonParser, inSection: string, topLevel: string, node: Node, c: Catalog)
    requires Placed(inSection, topLevel) && node.File?
    ensures !StopsWalk(SectionTable[0], Entry(topLevel, node))
    ensures WalkStep(c, SectionTable[0], Entry(topLevel, node), p) == c
  {
  }

  /** No entry of the tree is the directory of the second to fifth section. */
  lemma OtherSectionsAbsent(inSection: string, topLevel: string, node: Node)
    requires |inSection| > 7 && inSection[7] == '1' && HasPrefix(topLevel, "week")
    ensures forall k :: 1 <= k < |SectionTable| ==> !Exists(TwoFileTree(inSection, topLevel, node), SectionTable[k].id)
  {
    TableIdShapes();
    var es := TwoFileTree(inSection, topLevel, node).entries;
    assert es[0].path == SectionTable[0].id;
    assert topLevel[0] == 'w' by { assert topLevel[..4][0] == "week"[0]; }
    forall k | 1 <= k < |SectionTable| ensures !Exists(TwoFileTree(inSection, topLevel, node), SectionTable[k].id) {
      NotAnotherSection(es[0].path, k);
      NotAnotherSection(es[1].path, k);
      NotAnotherSection(es[2].path, k);
      assert forall i :: 0 <= i < |es| ==> es[i].path != SectionTable[k].id;
    }
  }

  /** A path with `1` at position 7, or not starting with `s`, is not a later section's id. */
  lemma NotAnotherSection(path: string, k: nat)
    requires 1 <= k < |SectionTable|
    requires (|path| > 7 && path[7] == '1') || (|path| > 0 && path[0] != 's')
    ensures path != SectionTable[k].id
  {
    TableIdShapes();
  }

  /** The rounds of the section loop for sections whose directory is absent change nothing. */
  lemma {:induction false} SectionPhaseOfAbsent(c: Catalog, fs: FileSystem, p: LessonParser, k: nat)
    requires k <= |SectionTable|
    requires forall j :: k <= j < |SectionTable| ==> !Exists(fs, SectionTable[j].id)
    ensures SectionPhase(c, fs, p, k) == c
    decreases |SectionTable| - k
  {
    if k < |SectionTable| {
      SectionPhaseOfAbsent(c, fs, p, k + 1);
    }
  }

  /** A top-level file of week 3 goes to the first section. */
  lemma LegacyWeek3(p: LessonParser, topLevel: string, node: Node, l3: Lesson) returns (l: Lesson)
    requires p(topLevel, NoSection, node) == Success(l3) && l3.week == 3
    ensures l.week == 3
    ensures LegacyLesson(Entry(topLevel, node), p) == Some((SectionTable[0], l))
  {
    var cfg := SectionTable[0];
    assert SectionIndexOfWeek(3) == 0;
    assert SectionOfWeek(3) == Some(cfg);
    l := l3.(section := cfg.id, sectionName := cfg.name);
  }

  /** The legacy loop appends the week-3 lesson to the first section. */
  lemma LegacyAfterSections(p: LessonParser, inSection: string, topLevel: string, node: Node, c: Catalog, l3: Lesson)
    returns (r: Catalog)
    requires Placed(inSection, topLevel)
    requires p(topLevel, NoSection, node) == Success(l3) && l3.week == 3
    requires SectionTable[0].id in c.sections
    ensures r == LegacyPhase(c, TwoFileTree(inSection, topLevel, node).entries, p)
    ensures SectionTable[0].id in r.sections
    ensures exists l: Lesson :: l.week == 3 && r.sections[SectionTable[0].id].lessons == c.sections[SectionTable[0].id].lessons + [l]
  {
    var es := TwoFileTree(inSection, topLevel, node).entries;
    var cfg := SectionTable[0];
    assert !IsLegacyName(es[0].path) by {
      TableIdShapes();
      assert es[0].path == SectionTable[0].id;
      assert es[0].path[..4][0] != "week"[0];
    }
    assert !IsLegacyName(es[1].path);
    assert AddLegacy(c, es[0], p) == c;
    assert AddLegacy(c, es[1], p) == c;
    var l := LegacyWeek3(p, topLevel, node, l3);
    r := Add(c, cfg.id, l);
    assert AddLegacy(c, es[2], p) == r;
    assert es[2..][1..] == [];
    assert LegacyPhase(r, es[2..][1..], p) == r;
    assert LegacyPhase(c, es[2..], p) == r;
    assert es[1..][1..] == es[2..];
    assert LegacyPhase(c, es[1..], p) == LegacyPhase(c, es[2..], p);
    assert LegacyPhase(c, es, p) == LegacyPhase(c, es[1..], p);
  }
}
