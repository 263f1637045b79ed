/**
  What a rebuilt catalog guarantees: the five configured sections, lessons
  only inside their section's range, a week map keyed by each lesson's own
  week whose every lesson sits in its section's list, and (once the sort
  runs after the legacy files) lists ordered by week.
 */
module CatalogProperties {
  import opened Wrappers
  import opened Text
  import opened Files
  import opened WeekNumbers
  import opened FrontMatter
  import opened Lessons
  import opened Catalog

  /** The section keeps the fields of its table row. */
  predicate MatchesConfig(s: Section, cfg: SectionConfig)
  {
    s.id == cfg.id && s.name == cfg.name && s.description == RangeDescription(s.weekStart, s.weekEnd) &&
    s.weekStart == cfg.weekStart && s.weekEnd == cfg.weekEnd
  }

  predicate InSection(w: int, s: Section)
  {
    s.weekStart <= w <= s.weekEnd
  }

  /** The sections are the table's, each with the fields of its row. */
  predicate HeadersMatchTable(sections: map<string, Section>)
  {
    sections.Keys == TableIds() &&
    forall k :: 0 <= k < |SectionTable| ==> MatchesConfig(sections[SectionTable[k].id], SectionTable[k])
  }

  /** The week map is keyed by each lesson's own week. */
  predicate KeyedByWeek(lessons: map<int, Lesson>)
  {
    forall w :: w in lessons ==> lessons[w].week == w
  }

  /** Every listed lesson lies in its section's range and has its week in the week map. */
  predicate ListsInRange(c: Catalog)
  {
    forall id, i :: id in c.sections && 0 <= i < |c.sections[id].lessons| ==>
      InSection(c.sections[id].lessons[i].week, c.sections[id]) && c.sections[id].lessons[i].week in c.lessons
  }

  /** The id of the table row whose range holds `w`. */
  function SectionIdOfWeek(w: int): string
    requires 1 <= w <= 60
  {
    SectionTable[SectionIndexOfWeek(w)].id
  }

  /** Every lesson of the week map is listed in the section whose range holds its week. */
  predicate MapInLists(c: Catalog)
  {
    forall w :: w in c.lessons ==>
      1 <= w <= 60 && SectionIdOfWeek(w) in c.sections && c.lessons[w] in c.sections[SectionIdOfWeek(w)].lessons
  }

  /** The invariant of a catalog built by a scan. */
  predicate Valid(c: Catalog)
  {
    HeadersMatchTable(c.sections) && KeyedByWeek(c.lessons) && ListsInRange(c) && MapInLists(c)
  }

  /** Every section's list is ordered by week. */
  predicate AllSorted(c: Catalog)
  {
    forall id :: id in c.sections ==> SortedByWeek(c.sections[id].lessons)
  }

  lemma EmptyCatalogValid()
    ensures Valid(EmptyCatalog()) && AllSorted(EmptyCatalog())
  {
    var c := EmptyCatalog();
    forall id | id in c.sections ensures c.sections[id].lessons == [] {
      var k := IdInTable(id);
    }
  }

  /** Every id of the table names a row. */
  lemma IdInTable(id: string) returns (k: nat)
    requires id in TableIds()
    ensures k < |SectionTable| && SectionTable[k].id == id
  {
    k :| 0 <= k < |SectionTable| && SectionTable[k].id == id;
  }

  /** Replacing a section by one with the same fields but another list keeps the headers. */
  lemma HeadersKept(sections: map<string, Section>, id: string, s: Section)
    requires HeadersMatchTable(sections) && id in sections
    requires s == sections[id].(lessons := s.lessons)
    ensures HeadersMatchTable(sections[id := s])
  {
    var t := sections[id := s];
    forall k | 0 <= k < |SectionTable| ensures MatchesConfig(t[SectionTable[k].id], SectionTable[k]) {
      assert MatchesConfig(sections[SectionTable[k].id], SectionTable[k]);
    }
  }

  /** Adding a lesson to the section whose range holds its week keeps the invariant. */
  lemma AddValid(c: Catalog, k: nat, l: Lesson)
    requires Valid(c) && k < |SectionTable|
    requires SectionTable[k].weekStart <= l.week <= SectionTable[k].weekEnd
    ensures Valid(Add(c, SectionTable[k].id, l))
    ensures Add(c, SectionTable[k].id, l).lessons == c.lessons[l.week := l]
  {
    RowInTable(k);
    AddHeaders(c, k, l);
    AddKeyed(c, SectionTable[k].id, l);
    AddListsInRange(c, k, l);
    AddMapInLists(c, k, l);
  }

  lemma AddKeyed(c: Catalog, id: string, l: Lesson)
    requires KeyedByWeek(c.lessons) && id in c.sections
    ensures KeyedByWeek(Add(c, id, l).lessons)
    ensures Add(c, id, l).lessons == c.lessons[l.week := l]
  {
  }

  lemma RowInTable(k: nat)
    requires k < |SectionTable|
    ensures SectionTable[k].id in TableIds()
  {
  }

  lemma AddHeaders(c: Catalog, k: nat, l: Lesson)
    requires HeadersMatchTable(c.sections) && k < |SectionTable|
    ensures HeadersMatchTable(Add(c, SectionTable[k].id, l).sections)
  {
    var id := SectionTable[k].id;
    RowInTable(k);
    var c' := Add(c, id, l);
    assert c'.sections == c.sections[id := c'.sections[id]];
    HeadersKept(c.sections, id, c'.sections[id]);
  }

  lemma AddListsInRange(c: Catalog, k: nat, l: Lesson)
    requires Valid(c) && k < |SectionTable|
    requires SectionTable[k].weekStart <= l.week <= SectionTable[k].weekEnd
    ensures ListsInRange(Add(c, SectionTable[k].id, l))
  {
    var id := SectionTable[k].id;
    assert id in c.sections;
    var c' := Add(c, id, l);
    forall id2, i | id2 in c'.sections && 0 <= i < |c'.sections[id2].lessons|
      ensures InSection(c'.sections[id2].lessons[i].week, c'.sections[id2]) && c'.sections[id2].lessons[i].week in c'.lessons
    {
      if id2 == id && i == |c.sections[id].lessons| {
        assert MatchesConfig(c.sections[id], SectionTable[k]);
      } else if id2 == id {
        assert c'.sections[id].lessons[i] == c.sections[id].lessons[i];
      }
    }
  }

  lemma AddMapInLists(c: Catalog, k: nat, l: Lesson)
    requires Valid(c) && k < |SectionTable|
    requires SectionTable[k].weekStart <= l.week <= SectionTable[k].weekEnd
    ensures MapInLists(Add(c, SectionTable[k].id, l))
  {
    var c' := Add(c, SectionTable[k].id, l);
    forall w | w in c'.lessons
      ensures 1 <= w <= 60 && SectionIdOfWeek(w) in c'.sections && c'.lessons[w] in c'.sections[SectionIdOfWeek(w)].lessons
    {
      AddMapInListsAt(c, k, l, w);
    }
  }

  /** One week of the map after `Add`: its lesson is still in the list of the week's section. */
  lemma AddMapInListsAt(c: Catalog, k: nat, l: Lesson, w: int)
    requires Valid(c) && k < |SectionTable|
    requires SectionTable[k].weekStart <= l.week <= SectionTable[k].weekEnd
    requires w in Add(c, SectionTable[k].id, l).lessons
    ensures var c' := Add(c, SectionTable[k].id, l);
            1 <= w <= 60 && SectionIdOfWeek(w) in c'.sections && c'.lessons[w] in c'.sections[SectionIdOfWeek(w)].lessons
  {
    if w == l.week {
      AddedWeekInList(c, k, l);
    } else {
      OtherWeekInList(c, k, l, w);
    }
  }

  lemma AddedWeekInList(c: Catalog, k: nat, l: Lesson)
    requires Valid(c) && k < |SectionTable|
    requires SectionTable[k].weekStart <= l.week <= SectionTable[k].weekEnd
    ensures var c' := Add(c, SectionTable[k].id, l);
            1 <= l.week <= 60 && SectionIdOfWeek(l.week) in c'.sections && c'.lessons[l.week] in c'.sections[SectionIdOfWeek(l.week)].lessons
  {
    var id := SectionTable[k].id;
    assert id in c.sections;
    assert SectionIndexOfWeek(l.week) == k;
    var c' := Add(c, id, l);
    assert c'.sections[id].lessons == c.sections[id].lessons + [l];
  }

  lemma OtherWeekInList(c: Catalog, k: nat, l: Lesson, w: int)
    requires Valid(c) && k < |SectionTable|
    requires w in c.lessons && w != l.week
    ensures var c' := Add(c, SectionTable[k].id, l);
            1 <= w <= 60 && SectionIdOfWeek(w) in c'.sections && c'.lessons[w] in c'.sections[SectionIdOfWeek(w)].lessons
  {
    var id := SectionTable[k].id;
    assert id in c.sections;
    var c' := Add(c, id, l);
    var id2 := SectionIdOfWeek(w);
    assert c.lessons[w] in c.sections[id2].lessons;
    if id2 == id {
      assert c'.sections[id2].lessons == c.sections[id2].lessons + [l];
    } else {
      assert c'.sections[id2] == c.sections[id2];
    }
  }

  /** Sorting a list keeps the lessons it holds. */
  lemma SortKeepsMembers(s: seq<Lesson>)
    ensures forall x :: x in SortByWeek(s) <==> x in s
  {
    var t := SortByWeek(s);
    forall x ensures x in t <==> x in s {
      assert x in t <==> x in multiset(t);
      assert x in s <==> x in multiset(s);
    }
  }

  /** Sorting one section's list keeps the invariant and orders that list. */
  lemma SortSectionValid(c: Catalog, id: string)
    requires Valid(c)
    ensures Valid(SortSection(c, id))
    ensures id in c.sections ==> SortedByWeek(SortSection(c, id).sections[id].lessons)
  {
    if id in c.sections {
      SortHeaders(c, id);
      SortLists(c, id);
      SortMap(c, id);
    }
  }

  lemma SortHeaders(c: Catalog, id: string)
    requires HeadersMatchTable(c.sections) && id in c.sections
    ensures HeadersMatchTable(SortSection(c, id).sections)
  {
    var c' := SortSection(c, id);
    HeadersKept(c.sections, id, c'.sections[id]);
  }

  lemma SortLists(c: Catalog, id: string)
    requires ListsInRange(c) && id in c.sections
    ensures ListsInRange(SortSection(c, id))
    ensures SortSection(c, id).lessons == c.lessons
  {
    var c' := SortSection(c, id);
    SortKeepsMembers(c.sections[id].lessons);
    forall id2, i | id2 in c'.sections && 0 <= i < |c'.sections[id2].lessons|
      ensures InSection(c'.sections[id2].lessons[i].week, c'.sections[id2]) && c'.sections[id2].lessons[i].week in c'.lessons
    {
      var x := c'.sections[id2].lessons[i];
      assert x in c.sections[id2].lessons;
      var j :| 0 <= j < |c.sections[id2].lessons| && c.sections[id2].lessons[j] == x;
    }
  }

  lemma SortMap(c: Catalog, id: string)
    requires MapInLists(c) && id in c.sections
    ensures MapInLists(SortSection(c, id))
  {
    var c' := SortSection(c, id);
    SortKeepsMembers(c.sections[id].lessons);
    forall w | w in c'.lessons
      ensures 1 <= w <= 60 && SectionIdOfWeek(w) in c'.sections && c'.lessons[w] in c'.sections[SectionIdOfWeek(w)].lessons
    {
      assert c.lessons[w] in c.sections[SectionIdOfWeek(w)].lessons;
    }
  }

  /** One entry of a section walk keeps the invariant. */
  lemma WalkStepValid(c: Catalog, k: nat, e: Entry, parse: LessonParser)
    requires Valid(c) && k < |SectionTable|
    ensures Valid(WalkStep(c, SectionTable[k], e, parse))
  {
    var cfg := SectionTable[k];
    if InDir(e.path, cfg.id) && !e.node.Dir? && !e.node.Unreadable? && IsMarkdownName(Base(e.path)) {
      match parse(e.path, SectionOrigin(cfg), e.node)
      case Failure(_) =>
      case Success(l) =>
        if cfg.weekStart <= l.week <= cfg.weekEnd {
          AddValid(c, k, l);
        }
    }
  }

  /** Walking a section adds only lessons of its range and keeps the invariant. */
  lemma {:induction false} WalkSectionValid(c: Catalog, k: nat, es: seq<Entry>, parse: LessonParser)
    requires Valid(c) && k < |SectionTable|
    ensures Valid(WalkSection(c, SectionTable[k], es, parse))
    decreases |es|
  {
    if es != [] && !StopsWalk(SectionTable[k], es[0]) {
      WalkStepValid(c, k, es[0], parse);
      WalkSectionValid(WalkStep(c, SectionTable[k], es[0], parse), k, es[1..], parse);
    }
  }

  lemma SectionStepValid(c: Catalog, fs: FileSystem, k: nat, parse: LessonParser)
    requires Valid(c) && k < |SectionTable|
    ensures Valid(SectionStep(c, fs, SectionTable[k], parse))
  {
    var cfg := SectionTable[k];
    if Exists(fs, cfg.id) {
      WalkSectionValid(c, k, fs.entries, parse);
      SortSectionValid(WalkSection(c, cfg, fs.entries, parse), cfg.id);
    }
  }

  lemma {:induction false} SectionPhaseValid(c: Catalog, fs: FileSystem, parse: LessonParser, k: nat)
    requires Valid(c) && k <= |SectionTable|
    ensures Valid(SectionPhase(c, fs, parse, k))
    decreases |SectionTable| - k
  {
    if k < |SectionTable| {
      SectionStepValid(c, fs, k, parse);
      SectionPhaseValid(SectionStep(c, fs, SectionTable[k], parse), fs, parse, k + 1);
    }
  }

  lemma AddLegacyValid(c: Catalog, e: Entry, parse: LessonParser)
    requires Valid(c)
    ensures Valid(AddLegacy(c, e, parse))
  {
    if IsLegacyName(e.path) {
      match LegacyLesson(e, parse)
      case None =>
      case Some((cfg, l)) =>
        AddValid(c, SectionIndexOfWeek(l.week), l);
    }
  }

  lemma {:induction false} LegacyPhaseValid(c: Catalog, es: seq<Entry>, parse: LessonParser)
    requires Valid(c)
    ensures Valid(LegacyPhase(c, es, parse))
    decreases |es|
  {
    if es != [] {
      AddLegacyValid(c, es[0], parse);
      LegacyPhaseValid(AddLegacy(c, es[0], parse), es[1..], parse);
    }
  }

  /** The lists `SortSection` leaves alone, and that it keeps the section ids. */
  lemma SortSectionFrame(c: Catalog, id: string)
    ensures SortSection(c, id).sections.Keys == c.sections.Keys
    ensures forall id2 :: id2 in c.sections && id2 != id ==> SortSection(c, id).sections[id2] == c.sections[id2]
    ensures id in c.sections ==> SortedByWeek(SortSection(c, id).sections[id].lessons)
  {
  }

  lemma {:induction false} SortAllValid(c: Catalog, k: nat)
    requires Valid(c) && k <= |SectionTable|
    ensures Valid(SortAll(c, k))
    decreases |SectionTable| - k
  {
    if k < |SectionTable| {
      SortSectionValid(c, SectionTable[k].id);
      SortAllValid(SortSection(c, SectionTable[k].id), k + 1);
    }
  }

  /** After sorting rows `k` on, the lists of rows `k` on are ordered and the rest untouched. */
  lemma {:induction false} SortAllSorts(c: Catalog, k: nat)
    requires k <= |SectionTable| && c.sections.Keys == TableIds()
    ensures SortAll(c, k).sections.Keys == TableIds()
    ensures forall j :: k <= j < |SectionTable| ==> SortedByWeek(SortAll(c, k).sections[SectionTable[j].id].lessons)
    ensures forall j :: 0 <= j < k ==> SortAll(c, k).sections[SectionTable[j].id] == c.sections[SectionTable[j].id]
    decreases |SectionTable| - k
  {
    if k < |SectionTable| {
      var id := SectionTable[k].id;
      var c1 := SortSection(c, id);
      SortSectionFrame(c, id);
      SortAllSorts(c1, k + 1);
      DistinctIds();
    }
  }

  /**
    Every catalog a scan produces, as written or corrected, has the five
    configured sections, keeps each lesson inside its section's range, and
    keys the week map by each lesson's own week with that lesson in its
    section's list; the corrected scan also orders every list by week.
   */
  lemma ScanValid(fs: FileSystem, parse: LessonParser)
    ensures Valid(ScanAsWritten(fs, parse))
    ensures Valid(Scan(fs, parse)) && AllSorted(Scan(fs, parse))
  {
    EmptyCatalogValid();
    if fs.rootExists {
      SectionPhaseValid(EmptyCatalog(), fs, parse, 0);
      LegacyPhaseValid(SectionPhase(EmptyCatalog(), fs, parse, 0), fs.entries, parse);
    }
    var c := ScanAsWritten(fs, parse);
    SortAllValid(c, 0);
    SortAllSorts(c, 0);
    forall id | id in Scan(fs, parse).sections ensures SortedByWeek(Scan(fs, parse).sections[id].lessons) {
      var k := IdInTable(id);
    }
  }

  /**
    A file in the directory of row `k` whose name gives week n is read at the
    global week `weekStart + n - 1`; it lands inside the section's range
    exactly when n is in 1..12.
   */
  lemma SectionFileWeek(k: nat, path: string)
    requires k < |SectionTable|
    ensures var cfg := SectionTable[k];
            var n := FilenameWeek(Base(path), Sectioned.maxWeek);
            var w := FileWeek(Sectioned, SectionOrigin(cfg), path);
            && (n == 0 ==> w == 0)
            && (n != 0 ==> w == cfg.weekStart + n - 1)
            && (cfg.weekStart <= w <= cfg.weekEnd <==> 1 <= n <= 12)
  {
    var cfg := SectionTable[k];
    TableRanges();
    assert cfg.weekStart == 12 * k + 1 && cfg.weekEnd == 12 * k + 12;
    assert cfg.id != "" by {
      if k == 0 {} else if k == 1 {} else if k == 2 {} else if k == 3 {} else {}
    }
  }

  /** `week<n>.md` is lower case, a Markdown name, and holds no separator. */
  lemma CanonicalNameShape(n: nat)
    ensures var name := "week" + NatToString(n) + ".md";
            ToLower(name) == name && IsMarkdownName(name) && forall i :: 0 <= i < |name| ==> name[i] != '/'
  {
    var d := NatToString(n);
    var name := "week" + d + ".md";
    forall i | 0 <= i < |name|
      ensures !IsUpperAscii(name[i]) && name[i] != '\U{0130}' && name[i] != '\U{212A}' && name[i] != '/'
    {
      if i < 4 {
        assert name[i] == "week"[i];
      } else if i < 4 + |d| {
        assert name[i] == d[i - 4] && IsDigit(d[i - 4]);
      } else {
        assert name[i] == ".md"[i - 4 - |d|];
      }
    }
    ToLowerOfLower(name);
    assert name[|name| - 3..] == ".md";
  }

  /**
    A plain `week<n>.md` without front matter in the directory of row `k`:
    it is read at week `weekStart + n - 1`, and the walk adds it when n is at
    most 12 and skips it otherwise (so `section2-javascript/week13.md`, read
    at week 25, is dropped).
   */
  lemma SectionNamedFile(k: nat, n: nat, raw: string, info: FileInfo, c: Catalog, decode: MetadataDecoder)
    requires k < |SectionTable| && 1 <= n <= LegacyMaxWeek
    requires SplitFrontMatter(raw).None?
    ensures var cfg := SectionTable[k];
            var path := cfg.id + "/" + ("week" + NatToString(n) + ".md");
            var e := Entry(path, File(Some(raw), Some(info)));
            var r := ParsedLesson(Sectioned, path, SectionOrigin(cfg), e.node, NoTime, decode);
            && r.Success? && r.value.week == cfg.weekStart + n - 1
            && WalkStep(c, cfg, e, SectionedParse(decode)) == if n <= 12 then Add(c, cfg.id, r.value) else c
  {
    var cfg := SectionTable[k];
    var name := "week" + NatToString(n) + ".md";
    var path := cfg.id + "/" + name;
    CanonicalNameShape(n);
    BaseOfJoin(cfg.id, name);
    CanonicalNameRoundTrip(n, Sectioned.maxWeek);
    SectionFileWeek(k, path);
    LessonWithoutFrontMatter(Sectioned, path, SectionOrigin(cfg), raw, info, NoTime, decode);
    assert path[..|cfg.id| + 1] == cfg.id + "/";
    TableRanges();
  }

  /**
    A lesson of the week map is in the list of exactly one section: the one
    whose range holds its week.
   */
  lemma WeekInExactlyOneSection(c: Catalog, w: int)
    requires Valid(c) && w in c.lessons
    ensures var id := SectionTable[SectionIndexOfWeek(w)].id;
            c.lessons[w] in c.sections[id].lessons &&
            forall id2 :: id2 in c.sections && c.lessons[w] in c.sections[id2].lessons ==> id2 == id
  {
    var id := SectionTable[SectionIndexOfWeek(w)].id;
    forall id2 | id2 in c.sections && c.lessons[w] in c.sections[id2].lessons ensures id2 == id {
      var i :| 0 <= i < |c.sections[id2].lessons| && c.sections[id2].lessons[i] == c.lessons[w];
      var j := IdInTable(id2);
      assert InSection(w, c.sections[id2]);
      assert MatchesConfig(c.sections[id2], SectionTable[j]);
      assert j == SectionIndexOfWeek(w);
    }
  }

  /** Without a lessons directory the scan yields no lessons and five empty sections. */
  lemma MissingDirectoryScan(fs: FileSystem, parse: LessonParser)
    requires !fs.rootExists
    ensures Scan(fs, parse).lessons == map[]
    ensures Scan(fs, parse).sections.Keys == TableIds()
    ensures forall k :: 0 <= k < |SectionTable| ==>
              Scan(fs, parse).sections[SectionTable[k].id] == EmptySection(SectionTable[k])
  {
    EmptyCatalogValid();
    SortAllEmpty(EmptyCatalog(), 0);
  }

  /** Sorting lists that are empty changes nothing. */
  lemma {:induction false} SortAllEmpty(c: Catalog, k: nat)
    requires k <= |SectionTable|
    requires forall id :: id in c.sections ==> c.sections[id].lessons == []
    ensures SortAll(c, k) == c
    decreases |SectionTable| - k
  {
    if k < |SectionTable| {
      var id := SectionTable[k].id;
      if id in c.sections {
        assert c.sections[id].(lessons := SortByWeek([])) == c.sections[id];
        assert c.sections[id := c.sections[id]] == c.sections;
      }
      SortAllEmpty(c, k + 1);
    }
  }

  /**
    A top-level file is kept only with a week in [1, 48]; it then goes, with
    its section fields set, into the week map and into the list of the
    section whose range holds that week.
   */
  lemma LegacyLessonAttached(c: Catalog, e: Entry, parse: LessonParser)
    requires Valid(c) && IsLegacyName(e.path)
    ensures match parse(e.path, NoSection, e.node)
            case Failure(_) => AddLegacy(c, e, parse) == c
            case Success(l) =>
              if 1 <= l.week <= LegacyMaxWeek then
                var cfg := SectionTable[SectionIndexOfWeek(l.week)];
                var l' := l.(section := cfg.id, sectionName := cfg.name);
                AddLegacy(c, e, parse).lessons == c.lessons[l.week := l'] &&
                cfg.id in AddLegacy(c, e, parse).sections &&
                AddLegacy(c, e, parse).sections[cfg.id].lessons == c.sections[cfg.id].lessons + [l']
              else AddLegacy(c, e, parse) == c
  {
    match parse(e.path, NoSection, e.node)
    case Failure(_) =>
    case Success(l) =>
      if 1 <= l.week <= LegacyMaxWeek {
        var k := SectionIndexOfWeek(l.week);
        var cfg := SectionTable[k];
        var l' := l.(section := cfg.id, sectionName := cfg.name);
        assert SectionOfWeek(l.week) == Some(cfg);
        assert LegacyLesson(e, parse) == Some((cfg, l'));
        assert AddLegacy(c, e, parse) == Add(c, cfg.id, l');
        assert cfg.id in c.sections;
        AddValid(c, k, l');
      }
  }

  /**
    Two lessons of one week added to a section both stay in its list, while
    the week map keeps only the one added last.
   */
  lemma DuplicateWeek(c: Catalog, k: nat, l1: Lesson, l2: Lesson)
    requires Valid(c) && k < |SectionTable| && l1.week == l2.week
    requires SectionTable[k].weekStart <= l1.week <= SectionTable[k].weekEnd
    ensures var c' := Add(Add(c, SectionTable[k].id, l1), SectionTable[k].id, l2);
            c'.lessons[l1.week] == l2 &&
            c'.sections[SectionTable[k].id].lessons == c.sections[SectionTable[k].id].lessons + [l1, l2]
  {
    RowInTable(k);
    AddTwice(c, SectionTable[k].id, l1, l2);
  }

  lemma AddTwice(c: Catalog, id: string, l1: Lesson, l2: Lesson)
    requires id in c.sections && l1.week == l2.week
    ensures var c' := Add(Add(c, id, l1), id, l2);
            c'.lessons[l1.week] == l2 && c'.sections[id].lessons == c.sections[id].lessons + [l1, l2]
  {
    var s := c.sections[id].lessons;
    assert Add(c, id, l1).sections[id].lessons == s + [l1];
    assert (s + [l1]) + [l2] == s + [l1, l2];
  }
}
