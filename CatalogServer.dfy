/**
  The sectioned server of `main.go` as an object: the course, the week map
  and the section map it serves, and the two operations that replace them,
  `loadCourseInfo` and `scanLessons`. The scan is written as the source's
  loops over local maps, each loop proved to compute the matching phase of
  `Catalog.Scan`.
 */
module CatalogServer {
  import opened Wrappers
  import opened Text
  import opened Files
  import opened Lessons
  import opened Catalog
  import opened CatalogProperties
  import opened Courses
  import opened Watcher

  /** The section map the scan starts from, built row by row from `configs`. */
  method InitSections(configs: seq<SectionConfig>) returns (newSections: map<string, Section>)
    ensures newSections == SectionsOf(configs)
  {
    newSections := map[];
    for k := 0 to |configs|
      invariant newSections == SectionsOf(configs[..k])
    {
      var config := configs[k];
      assert configs[..k + 1][..k] == configs[..k];
      newSections := newSections[config.id := EmptySection(config)];
    }
    assert configs[..|configs|] == configs;
  }

  /** `sections` with the list of section `id` replaced by `list`. */
  function WithList(sections: map<string, Section>, id: string, list: seq<Lesson>): map<string, Section>
    requires id in sections
  {
    sections[id := sections[id].(lessons := list)]
  }

  lemma WithOwnList(sections: map<string, Section>, id: string)
    requires id in sections
    ensures WithList(sections, id, sections[id].lessons) == sections
  {
  }

  /** Appending to the list held aside is `Add` on the catalog it stands for. */
  lemma AddToList(lessons: map<int, Lesson>, sections: map<string, Section>, id: string, list: seq<Lesson>, l: Lesson)
    requires id in sections
    ensures Add(Catalog(lessons, WithList(sections, id, list)), id, l)
            == Catalog(lessons[l.week := l], WithList(sections, id, list + [l]))
  {
  }

  /** Sorting the list held aside is `SortSection` on the catalog it stands for. */
  lemma SortList(lessons: map<int, Lesson>, sections: map<string, Section>, id: string, list: seq<Lesson>)
    requires id in sections
    ensures SortSection(Catalog(lessons, WithList(sections, id, list)), id)
            == Catalog(lessons, WithList(sections, id, SortByWeek(list)))
  {
    var held := WithList(sections, id, list);
    assert held[id].lessons == list;
    var sorted := SortByWeek(list);
    assert held[id := held[id].(lessons := sorted)] == WithList(sections, id, sorted);
  }

  /**
    The walk callback on one entry of a section directory: a Markdown file
    is parsed for the section and kept, in the week map and at the end of
    the section's list, when its week lies in the section's range.
   */
  method WalkEntry(lessons0: map<int, Lesson>, sections: map<string, Section>, cfg: SectionConfig, e: Entry,
                   list0: seq<Lesson>, decode: MetadataDecoder)
    returns (lessons: map<int, Lesson>, list: seq<Lesson>)
    requires cfg.id in sections && !StopsWalk(cfg, e)
    ensures Catalog(lessons, WithList(sections, cfg.id, list))
            == WalkStep(Catalog(lessons0, WithList(sections, cfg.id, list0)), cfg, e, SectionedParse(decode))
  {
    lessons, list := lessons0, list0;
    if !InDir(e.path, cfg.id) || e.node.Dir? || !IsMarkdownName(Base(e.path)) {
      return;
    }
    var r := ParseLesson(Sectioned, e.path, SectionOrigin(cfg), e.node, NoTime, decode);
    if r.Failure? {
      return;
    }
    var lesson := r.value;
    if cfg.weekStart <= lesson.week <= cfg.weekEnd {
      AddToList(lessons, sections, cfg.id, list, lesson);
      lessons := lessons[lesson.week := lesson];
      list := list + [lesson];
    }
  }

  /**
    The walk of one section directory, entry by entry in walk order. A walk
    error ends the walk with what was collected so far.
   */
  method WalkSectionDir(newLessons: map<int, Lesson>, newSections: map<string, Section>, cfg: SectionConfig,
                        entries: seq<Entry>, decode: MetadataDecoder)
    returns (lessons: map<int, Lesson>, sectionLessons: seq<Lesson>)
    requires cfg.id in newSections
    ensures Catalog(lessons, WithList(newSections, cfg.id, sectionLessons))
            == WalkSection(Catalog(newLessons, newSections), cfg, entries, SectionedParse(decode))
  {
    ghost var parse := SectionedParse(decode);
    lessons, sectionLessons := newLessons, newSections[cfg.id].lessons;
    WithOwnList(newSections, cfg.id);
    var i := 0;
    while i < |entries|
      invariant 0 <= i <= |entries|
      invariant WalkSection(Catalog(newLessons, newSections), cfg, entries, parse)
                == WalkSection(Catalog(lessons, WithList(newSections, cfg.id, sectionLessons)), cfg, entries[i..], parse)
    {
      if StopsWalk(cfg, entries[i]) {
        break;
      }
      assert entries[i..][1..] == entries[i + 1..];
      lessons, sectionLessons := WalkEntry(lessons, newSections, cfg, entries[i], sectionLessons, decode);
      i := i + 1;
    }
  }

  /**
    The section loop: every section whose directory exists is walked, then
    its list is sorted by week (`sort.Slice`, the library sort, is the
    function `SortByWeek`).
   */
  method ScanSections(lessons0: map<int, Lesson>, sections0: map<string, Section>, fs: FileSystem,
                      decode: MetadataDecoder)
    returns (lessons: map<int, Lesson>, sections: map<string, Section>)
    requires sections0.Keys == TableIds()
    ensures Catalog(lessons, sections) == SectionPhase(Catalog(lessons0, sections0), fs, SectionedParse(decode), 0)
    ensures sections.Keys == TableIds()
  {
    ghost var parse := SectionedParse(decode);
    lessons, sections := lessons0, sections0;
    for k := 0 to |SectionTable|
      invariant sections.Keys == TableIds()
      invariant SectionPhase(Catalog(lessons0, sections0), fs, parse, 0)
                == SectionPhase(Catalog(lessons, sections), fs, parse, k)
    {
      var cfg := SectionTable[k];
      if Exists(fs, cfg.id) {
        assert cfg.id in TableIds();
        var sectionLessons;
        lessons, sectionLessons := WalkSectionDir(lessons, sections, cfg, fs.entries, decode);
        SortList(lessons, sections, cfg.id, sectionLessons);
        sectionLessons := SortByWeek(sectionLessons);
        sections := sections[cfg.id := sections[cfg.id].(lessons := sectionLessons)];
      }
    }
  }

  /** The search for the section holding week `w`, in table order, stopping at the first. */
  method FindSection(w: int) returns (r: Option<SectionConfig>)
    ensures r == SectionOfWeek(w)
  {
    for k := 0 to |SectionTable|
      invariant FirstSectionHolding(w, k) == FirstSectionHolding(w, 0)
    {
      if SectionTable[k].weekStart <= w <= SectionTable[k].weekEnd {
        return Some(SectionTable[k]);
      }
    }
    return None;
  }

  /**
    The legacy loop over the top-level `week*.md` files: each is parsed
    without a section and, when its week lies in [1, 48], given the
    section holding that week and appended to it.
   */
  method ScanLegacy(lessons0: map<int, Lesson>, sections0: map<string, Section>, entries: seq<Entry>,
                    decode: MetadataDecoder)
    returns (lessons: map<int, Lesson>, sections: map<string, Section>)
    requires sections0.Keys == TableIds()
    ensures Catalog(lessons, sections) == LegacyPhase(Catalog(lessons0, sections0), entries, SectionedParse(decode))
    ensures sections.Keys == TableIds()
  {
    ghost var parse := SectionedParse(decode);
    lessons, sections := lessons0, sections0;
    for i := 0 to |entries|
      invariant sections.Keys == TableIds()
      invariant LegacyPhase(Catalog(lessons0, sections0), entries, parse)
                == LegacyPhase(Catalog(lessons, sections), entries[i..], parse)
    {
      var e := entries[i];
      ghost var before := Catalog(lessons, sections);
      if IsLegacyName(e.path) {
        var r := ParseLesson(Sectioned, e.path, NoSection, e.node, NoTime, decode);
        if r.Success? && 1 <= r.value.week <= LegacyMaxWeek {
          var lesson := r.value;
          var found := FindSection(lesson.week);
          if found.Some? {
            var cfg := found.value;
            assert cfg.id in TableIds();
            lesson := lesson.(section := cfg.id, sectionName := cfg.name);
            lessons := lessons[lesson.week := lesson];
            sections := sections[cfg.id := sections[cfg.id].(lessons := sections[cfg.id].lessons + [lesson])];
          }
        }
      }
      assert entries[i..][1..] == entries[i + 1..];
      assert Catalog(lessons, sections) == AddLegacy(before, e, parse);
    }
  }

  /** Sorts every section's list by week, in table order. */
  method SortEverySection(lessons: map<int, Lesson>, sections0: map<string, Section>)
    returns (sections: map<string, Section>)
    ensures Catalog(lessons, sections) == SortAll(Catalog(lessons, sections0), 0)
  {
    sections := sections0;
    for k := 0 to |SectionTable|
      invariant SortAll(Catalog(lessons, sections0), 0) == SortAll(Catalog(lessons, sections), k)
    {
      var id := SectionTable[k].id;
      if id in sections {
        sections := sections[id := sections[id].(lessons := SortByWeek(sections[id].lessons))];
      }
    }
  }

  /** The final sort leaves the catalog of a missing directory as it is. */
  lemma NothingToSort()
    ensures SortAll(EmptyCatalog(), 0) == EmptyCatalog()
  {
    var c := EmptyCatalog();
    forall id | id in c.sections ensures c.sections[id].lessons == [] {
      var k := IdInTable(id);
    }
    SortAllEmpty(c, 0);
  }

  /**
    The body of `scanLessons` up to the final swap: fresh maps, then (when
    the lessons directory exists) the section loop, the legacy loop and
    the sort of every list.
   */
  method RebuildCatalog(fs: FileSystem, decode: MetadataDecoder)
    returns (newLessons: map<int, Lesson>, newSections: map<string, Section>)
    ensures Catalog(newLessons, newSections) == Scan(fs, SectionedParse(decode))
  {
    newLessons := map[];
    newSections := InitSections(SectionTable);
    if !fs.rootExists {
      NothingToSort();
      return;
    }
    newLessons, newSections := ScanSections(newLessons, newSections, fs, decode);
    newLessons, newSections := ScanLegacy(newLessons, newSections, fs.entries, decode);
    newSections := SortEverySection(newLessons, newSections);
  }

  /** What `ScanValid` says about the scan, stated for the two maps the rebuild returns. */
  lemma ScanOutcome(fs: FileSystem, decode: MetadataDecoder, lessons: map<int, Lesson>, sections: map<string, Section>)
    requires Catalog(lessons, sections) == Scan(fs, SectionedParse(decode))
    ensures Valid(Catalog(lessons, sections)) && AllSorted(Catalog(lessons, sections))
  {
    ScanValid(fs, SectionedParse(decode));
  }

  class Server {
    var course: Course
    var lessons: map<int, Lesson>
    var sections: map<string, Section>

    /** `NewServer`: no course yet, empty maps. */
    constructor()
      ensures course == NoCourse && lessons == map[] && sections == map[]
    {
      course := NoCourse;
      lessons := map[];
      sections := map[];
    }

    /**
      `loadCourseInfo`: the course becomes the loaded one; on a read or
      parse error the error is returned and the course kept.
     */
    method LoadCourseInfo(fs: FileSystem, decode: CourseDecoder) returns (err: Option<CourseError>)
      modifies this
      ensures var r := LoadedCourse(fs, BothNames, SectionedDefault, old(course), decode);
              (r.Success? ==> course == r.value && err == None) &&
              (r.Failure? ==> course == old(course) && err == Some(r.error))
      ensures lessons == old(lessons) && sections == old(sections)
    {
      var r := LoadCourse(fs, true, SectionedDefault, course, decode);
      if r.Success? {
        course := r.value;
        err := None;
      } else {
        err := Some(r.error);
      }
    }

    /**
      `scanLessons`, with the sort of every list moved after the legacy
      loop: the two new maps replace the old ones together, and the result
      has the five configured sections, every lesson inside its section's
      range, a week map keyed by week and every list ordered by week.
     */
    method ScanLessons(fs: FileSystem, decode: MetadataDecoder)
      modifies this
      ensures Catalog(lessons, sections) == Scan(fs, SectionedParse(decode))
      ensures Valid(Catalog(lessons, sections)) && AllSorted(Catalog(lessons, sections))
      ensures course == old(course)
    {
      var newLessons, newSections := RebuildCatalog(fs, decode);
      ScanOutcome(fs, decode, newLessons, newSections);
      Install(newLessons, newSections);
    }

    /**
      One event of `startFileWatcher`, with the file system as it is after
      the event: the course is reloaded first when `React` says so, then the
      lessons are rescanned when it says so; errors are only logged.
     */
    method HandleEvent(e: Event, fs: FileSystem, courseDecode: CourseDecoder, decode: MetadataDecoder)
      modifies this
      ensures var r := LoadedCourse(fs, BothNames, SectionedDefault, old(course), courseDecode);
              course == (if React(e).reloadCourse && r.Success? then r.value else old(course))
      ensures React(e).rescan ==> Catalog(lessons, sections) == Scan(fs, SectionedParse(decode))
      ensures !React(e).rescan ==> lessons == old(lessons) && sections == old(sections)
    {
      var reaction := React(e);
      if reaction.reloadCourse {
        var _ := LoadCourseInfo(fs, courseDecode);
      }
      if reaction.rescan {
        ScanLessons(fs, decode);
      }
    }

    /** The swap at the end of a scan: both maps are replaced together, the course is kept. */
    method Install(newLessons: map<int, Lesson>, newSections: map<string, Section>)
      modifies this
      ensures lessons == newLessons && sections == newSections && course == old(course)
    {
      lessons := newLessons;
      sections := newSections;
    }
  }
}
