/**
  The catalog the sectioned server of `main.go` rebuilds in `scanLessons`:
  the week map and the five sections, each with the lessons found in its
  directory and the top-level `week*.md` files whose week it holds.
 */
module Catalog {
  import opened Wrappers
  import opened Text
  import opened Files
  import opened Lessons

  datatype SectionConfig = SectionConfig(id: string, name: string, weekStart: int, weekEnd: int)

  /** The static section table: id, display name and the global weeks the section spans. */
  const SectionTable: seq<SectionConfig> := [
    SectionConfig("section1-html-css", "HTML/CSS Fundamentals", 1, 12),
    SectionConfig("section2-javascript", "JavaScript Programming", 13, 24),
    SectionConfig("section3-backend", "Backend Development", 25, 36),
    SectionConfig("section4-react", "React & Frontend", 37, 48),
    SectionConfig("section5", "Section 5", 49, 60)
  ]

  /** The largest week a top-level lesson file may have (section 5 gets none). */
  const LegacyMaxWeek: int := 48

  /**
    A placeholder creation time: the sectioned server rejects files it cannot
    stat, so the parser never falls back to it.
   */
  const NoTime: Time := Time(0)

  datatype Section = Section(
    id: string,
    name: string,
    description: string,
    weekStart: int,
    weekEnd: int,
    lessons: seq<Lesson>)

  /**
    How the scan turns a file into a lesson: its path, the section it was
    found in, and the entry. The sectioned server uses `SectionedParse`; the
    properties of the catalog hold for any parser.
   */
  type LessonParser = (string, Origin, Node) -> Result<Lesson, ParseError>

  /** `parseLesson` of the sectioned server, metadata read by `decode`. */
  function SectionedParse(decode: MetadataDecoder): LessonParser
  {
    (path: string, origin: Origin, node: Node) => ParsedLesson(Sectioned, path, origin, node, NoTime, decode)
  }

  /** The origin of a file found in the directory of `cfg`: weeks count from the section's first. */
  function SectionOrigin(cfg: SectionConfig): Origin
  {
    Origin(cfg.id, cfg.name, cfg.weekStart)
  }

  /** The two maps the server swaps in at the end of a scan. */
  datatype Catalog = Catalog(lessons: map<int, Lesson>, sections: map<string, Section>)

  /** `fmt.Sprintf("Weeks %d-%d", start, end)`. */
  function RangeDescription(weekStart: int, weekEnd: int): (d: string)
    ensures HasPrefix(d, "Weeks ")
  {
    "Weeks " + IntToString(weekStart) + "-" + IntToString(weekEnd)
  }

  /** The description reads back: the two numbers after `Weeks `, around a dash, are the range's ends. */
  lemma RangeDescriptionDigits(weekStart: int, weekEnd: int)
    requires weekStart >= 0 && weekEnd >= 0
    ensures exists x, y :: RangeDescription(weekStart, weekEnd) == "Weeks " + x + "-" + y &&
                           IsDecimalOf(x, weekStart) && IsDecimalOf(y, weekEnd)
  {
    IntToStringReadsBack(weekStart);
    IntToStringReadsBack(weekEnd);
    var x := IntToString(weekStart);
    var y := IntToString(weekEnd);
    assert RangeDescription(weekStart, weekEnd) == "Weeks " + x + "-" + y;
  }

  /** The descriptions of the five table rows. */
  lemma TableDescriptions()
    ensures EmptySection(SectionTable[0]).description == "Weeks 1-12"
    ensures EmptySection(SectionTable[1]).description == "Weeks 13-24"
    ensures EmptySection(SectionTable[2]).description == "Weeks 25-36"
    ensures EmptySection(SectionTable[3]).description == "Weeks 37-48"
    ensures EmptySection(SectionTable[4]).description == "Weeks 49-60"
  {
    DescriptionOfRow0();
    DescriptionOfRow1();
    DescriptionOfRow2();
    DescriptionOfRow3();
    DescriptionOfRow4();
  }

  lemma DescriptionOfRow0()
    ensures EmptySection(SectionTable[0]).description == "Weeks 1-12"
  {
    assert NatToString(1) == "1";
    TwoDigits(1, 2, "12");
    Describe(SectionTable[0], "1", "12", "Weeks 1-12");
  }

  lemma DescriptionOfRow1()
    ensures EmptySection(SectionTable[1]).description == "Weeks 13-24"
  {
    TwoDigits(1, 3, "13");
    TwoDigits(2, 4, "24");
    Describe(SectionTable[1], "13", "24", "Weeks 13-24");
  }

  lemma DescriptionOfRow2()
    ensures EmptySection(SectionTable[2]).description == "Weeks 25-36"
  {
    TwoDigits(2, 5, "25");
    TwoDigits(3, 6, "36");
    Describe(SectionTable[2], "25", "36", "Weeks 25-36");
  }

  lemma DescriptionOfRow3()
    ensures EmptySection(SectionTable[3]).description == "Weeks 37-48"
  {
    TwoDigits(3, 7, "37");
    TwoDigits(4, 8, "48");
    Describe(SectionTable[3], "37", "48", "Weeks 37-48");
  }

  lemma DescriptionOfRow4()
    ensures EmptySection(SectionTable[4]).description == "Weeks 49-60"
  {
    TwoDigits(4, 9, "49");
    TwoDigits(6, 0, "60");
    Describe(SectionTable[4], "49", "60", "Weeks 49-60");
  }

  lemma Describe(cfg: SectionConfig, a: string, b: string, d: string)
    requires IntToString(cfg.weekStart) == a && IntToString(cfg.weekEnd) == b
    requires d == "Weeks " + a + "-" + b
    ensures EmptySection(cfg).description == d
  {
  }

  /** The rendering of a two-digit number. */
  lemma TwoDigits(tens: nat, units: nat, s: string)
    requires 1 <= tens <= 9 && units <= 9
    requires s == [DigitChar(tens), DigitChar(units)]
    ensures IntToString(10 * tens + units) == s
  {
    var n := 10 * tens + units;
    assert n / 10 == tens && n % 10 == units;
    assert NatToString(tens) == [DigitChar(tens)];
  }

  function EmptySection(cfg: SectionConfig): Section
  {
    Section(cfg.id, cfg.name, RangeDescription(cfg.weekStart, cfg.weekEnd), cfg.weekStart, cfg.weekEnd, [])
  }

  /** The ids of the table. */
  function TableIds(): set<string>
  {
    set k | 0 <= k < |SectionTable| :: SectionTable[k].id
  }

  /** One empty section per row of `configs`, keyed by its id. */
  function SectionsOf(configs: seq<SectionConfig>): (sections: map<string, Section>)
    ensures sections.Keys == set k | 0 <= k < |configs| :: configs[k].id
    decreases |configs|
  {
    if configs == [] then map[]
    else
      var n := |configs| - 1;
      var prefix := SectionsOf(configs[..n]);
      assert forall k :: 0 <= k < n ==> configs[..n][k] == configs[k];
      prefix[configs[n].id := EmptySection(configs[n])]
  }

  /** With distinct ids, every row's id maps to that row's empty section. */
  lemma SectionsOfRows(configs: seq<SectionConfig>)
    requires forall i, j :: 0 <= i < j < |configs| ==> configs[i].id != configs[j].id
    ensures forall k :: 0 <= k < |configs| ==> SectionsOf(configs)[configs[k].id] == EmptySection(configs[k])
  {
    forall k | 0 <= k < |configs|
      ensures SectionsOf(configs)[configs[k].id] == EmptySection(configs[k])
    {
      SectionsOfRow(configs, k);
    }
  }

  /** Row `k`'s id maps to row `k`'s empty section: no later row overwrites it. */
  lemma {:induction false} SectionsOfRow(configs: seq<SectionConfig>, k: nat)
    requires forall i, j :: 0 <= i < j < |configs| ==> configs[i].id != configs[j].id
    requires k < |configs|
    ensures configs[k].id in SectionsOf(configs)
    ensures SectionsOf(configs)[configs[k].id] == EmptySection(configs[k])
    decreases |configs|
  {
    var n := |configs| - 1;
    if k < n {
      var prefix := configs[..n];
      assert forall i :: 0 <= i < n ==> prefix[i] == configs[i];
      SectionsOfRow(prefix, k);
      assert prefix[k] == configs[k];
      assert configs[k].id != configs[n].id;
    }
  }

  /** The section map every scan starts from: one empty section per table row. */
  function InitialSections(): (sections: map<string, Section>)
    ensures sections.Keys == TableIds()
    ensures forall k :: 0 <= k < |SectionTable| ==> sections[SectionTable[k].id] == EmptySection(SectionTable[k])
  {
    DistinctIds();
    SectionsOfRows(SectionTable);
    SectionsOf(SectionTable)
  }

  /** No two rows of the table share an id. */
  lemma DistinctIds()
    ensures forall i, j :: 0 <= i < j < |SectionTable| ==> SectionTable[i].id != SectionTable[j].id
  {
    var t := SectionTable;
    assert t[0].id[7] == '1' && t[1].id[7] == '2' && t[2].id[7] == '3' && t[3].id[7] == '4' && t[4].id[7] == '5';
  }

  /** The rows of the table hold disjoint, ascending ranges of twelve weeks each. */
  lemma TableRanges()
    ensures forall k :: 0 <= k < |SectionTable| ==>
              SectionTable[k].weekStart == 12 * k + 1 && SectionTable[k].weekEnd == 12 * k + 12
  {
  }

  /** The index of the one table row whose range holds week `w`. */
  function SectionIndexOfWeek(w: int): (k: nat)
    requires 1 <= w <= 60
    ensures k < |SectionTable| && SectionTable[k].weekStart <= w <= SectionTable[k].weekEnd
    ensures forall j :: 0 <= j < |SectionTable| && SectionTable[j].weekStart <= w <= SectionTable[j].weekEnd ==> j == k
  {
    TableRanges();
    (w - 1) / 12
  }

  /**
    The section a top-level lesson goes to, as the legacy loop finds it: the
    first (and, the ranges being disjoint, only) section whose range holds `w`.
   */
  function SectionOfWeek(w: int): (r: Option<SectionConfig>)
    ensures r.Some? <==> 1 <= w <= 60
    ensures r.Some? ==> r.value == SectionTable[SectionIndexOfWeek(w)]
  {
    FirstSectionHolding(w, 0)
  }

  function FirstSectionHolding(w: int, k: nat): (r: Option<SectionConfig>)
    requires k <= |SectionTable|
    ensures r.Some? <==> exists j :: k <= j < |SectionTable| && SectionTable[j].weekStart <= w <= SectionTable[j].weekEnd
    ensures r.Some? ==> exists j :: k <= j < |SectionTable| && SectionTable[j] == r.value &&
                          SectionTable[j].weekStart <= w <= SectionTable[j].weekEnd
    decreases |SectionTable| - k
  {
    if k == |SectionTable| then None
    else if SectionTable[k].weekStart <= w <= SectionTable[k].weekEnd then Some(SectionTable[k])
    else FirstSectionHolding(w, k + 1)
  }

  // ----- sorting a section's lessons by week -----

  predicate SortedByWeek(s: seq<Lesson>)
  {
    forall i, j :: 0 <= i < j < |s| ==> s[i].week <= s[j].week
  }

  /** Inserts `l` into a list sorted by week, after the lessons of the same week. */
  function InsertByWeek(l: Lesson, s: seq<Lesson>): (r: seq<Lesson>)
    requires SortedByWeek(s)
    ensures SortedByWeek(r) && multiset(r) == multiset(s) + multiset{l}
    decreases |s|
  {
    if s == [] then [l]
    else if l.week < s[0].week then [l] + s
    else
      var rest := InsertByWeek(l, s[1..]);
      assert s == [s[0]] + s[1..];
      HeadBelowInsert(l, s, rest);
      [s[0]] + rest
  }

  /** Every lesson of `rest` (`l` or one of `s[1..]`) has a week no smaller than `s[0]`'s. */
  lemma HeadBelowInsert(l: Lesson, s: seq<Lesson>, rest: seq<Lesson>)
    requires SortedByWeek(s) && s != [] && s[0].week <= l.week
    requires multiset(rest) == multiset(s[1..]) + multiset{l}
    ensures forall i :: 0 <= i < |rest| ==> s[0].week <= rest[i].week
  {
    forall i | 0 <= i < |rest| ensures s[0].week <= rest[i].week {
      assert rest[i] in multiset(rest);
      if rest[i] != l {
        assert rest[i] in multiset(s[1..]);
        var j :| 0 <= j < |s[1..]| && s[1..][j] == rest[i];
        assert s[j + 1] == rest[i];
      }
    }
  }

  /**
    `sort.Slice(lessons, by week)`: the lessons ordered by week. The library
    sort is not stable; only that the result is ordered and a permutation is
    relied on.
   */
  function SortByWeek(s: seq<Lesson>): (r: seq<Lesson>)
    ensures SortedByWeek(r) && multiset(r) == multiset(s)
    decreases |s|
  {
    if s == [] then []
    else
      assert s == s[..|s| - 1] + [s[|s| - 1]];
      InsertByWeek(s[|s| - 1], SortByWeek(s[..|s| - 1]))
  }

  // ----- the scan -----

  /** Records a lesson: in the week map under its week, and at the end of section `id`'s list. */
  function Add(c: Catalog, id: string, l: Lesson): Catalog
  {
    if id in c.sections then
      Catalog(c.lessons[l.week := l], c.sections[id := c.sections[id].(lessons := c.sections[id].lessons + [l])])
    else c
  }

  function SortSection(c: Catalog, id: string): Catalog
  {
    if id in c.sections then
      c.(sections := c.sections[id := c.sections[id].(lessons := SortByWeek(c.sections[id].lessons))])
    else c
  }

  /**
    What the walk of a section directory does with one entry: a Markdown file
    that parses and has a week in the section's range is added; anything else
    is skipped.
   */
  function WalkStep(c: Catalog, cfg: SectionConfig, e: Entry, parse: LessonParser): Catalog
  {
    if !InDir(e.path, cfg.id) || e.node.Dir? || e.node.Unreadable? || !IsMarkdownName(Base(e.path)) then c
    else
      match parse(e.path, SectionOrigin(cfg), e.node)
      case Failure(_) => c
      case Success(l) => if cfg.weekStart <= l.week <= cfg.weekEnd then Add(c, cfg.id, l) else c
  }

  /** The walk reports an error on this entry of the section directory, which ends it. */
  predicate StopsWalk(cfg: SectionConfig, e: Entry)
  {
    InDir(e.path, cfg.id) && e.node.Unreadable?
  }

  /** The walk of one section directory over the entries in walk order. */
  function WalkSection(c: Catalog, cfg: SectionConfig, es: seq<Entry>, parse: LessonParser): Catalog
    decreases |es|
  {
    if es == [] || StopsWalk(cfg, es[0]) then c
    else WalkSection(WalkStep(c, cfg, es[0], parse), cfg, es[1..], parse)
  }

  /** One round of the section loop: walk the directory of `cfg` if it exists, then sort its list. */
  function SectionStep(c: Catalog, fs: FileSystem, cfg: SectionConfig, parse: LessonParser): Catalog
  {
    if Exists(fs, cfg.id) then SortSection(WalkSection(c, cfg, fs.entries, parse), cfg.id) else c
  }

  /** The section loop, from table row `k` on. */
  function SectionPhase(c: Catalog, fs: FileSystem, parse: LessonParser, k: nat): Catalog
    requires k <= |SectionTable|
    decreases |SectionTable| - k
  {
    if k == |SectionTable| then c
    else SectionPhase(SectionStep(c, fs, SectionTable[k], parse), fs, parse, k + 1)
  }

  /** `filepath.Glob(dir, "week*.md")`: a top-level name starting with `week` and ending in `.md`. */
  predicate IsLegacyName(path: string)
  {
    IsTopLevel(path) && HasPrefix(path, "week") && HasSuffix(path, ".md")
  }

  /**
    A top-level file as the legacy loop takes it: parsed without a section,
    kept when its week is in [1, 48], and then given the section holding
    that week.
   */
  function LegacyLesson(e: Entry, parse: LessonParser): (r: Option<(SectionConfig, Lesson)>)
    ensures r.Some? ==> 1 <= r.value.1.week <= LegacyMaxWeek && SectionOfWeek(r.value.1.week) == Some(r.value.0)
    ensures r.Some? ==> r.value.1.section == r.value.0.id && r.value.1.sectionName == r.value.0.name
  {
    match parse(e.path, NoSection, e.node)
    case Failure(_) => None
    case Success(l) =>
      if 1 <= l.week <= LegacyMaxWeek then
        match SectionOfWeek(l.week)
        case None => None
        case Some(cfg) => Some((cfg, l.(section := cfg.id, sectionName := cfg.name)))
      else None
  }

  function AddLegacy(c: Catalog, e: Entry, parse: LessonParser): Catalog
  {
    if !IsLegacyName(e.path) then c
    else match LegacyLesson(e, parse)
      case None => c
      case Some((cfg, l)) => Add(c, cfg.id, l)
  }

  /** The legacy loop over the top-level entries, in the sorted order `Glob` returns them. */
  function LegacyPhase(c: Catalog, es: seq<Entry>, parse: LessonParser): Catalog
    decreases |es|
  {
    if es == [] then c else LegacyPhase(AddLegacy(c, es[0], parse), es[1..], parse)
  }

  function EmptyCatalog(): Catalog
  {
    Catalog(map[], InitialSections())
  }

  /**
    `scanLessons` as written: the sections are sorted before the legacy
    files are appended to them.
   */
  function ScanAsWritten(fs: FileSystem, parse: LessonParser): Catalog
  {
    if !fs.rootExists then EmptyCatalog()
    else LegacyPhase(SectionPhase(EmptyCatalog(), fs, parse, 0), fs.entries, parse)
  }

  /** Sorts every section's list, table row `k` on. */
  function SortAll(c: Catalog, k: nat): Catalog
    requires k <= |SectionTable|
    decreases |SectionTable| - k
  {
    if k == |SectionTable| then c else SortAll(SortSection(c, SectionTable[k].id), k + 1)
  }

  /** `scanLessons` with the sort moved after the legacy loop, so that every list ends up ordered. */
  function Scan(fs: FileSystem, parse: LessonParser): Catalog
  {
    SortAll(ScanAsWritten(fs, parse), 0)
  }
}
