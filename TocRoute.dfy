/**
  The table-of-contents and content routes of the sectioned server
  (`handleLessonTOC`, `handleLessonContent`): a section week is turned into
  a global week, and the lesson there (if any) supplies the contents or the
  markdown; without one, or without a table, the fixed eight-item outline
  is served.
 */
module TocRoute {
  import opened Wrappers
  import opened Text
  import opened Lessons
  import opened Catalog
  import opened CatalogProperties
  import opened Queries
  import opened Toc

  /** `getDefaultTOCItems`: the fixed outline, all at level two. */
  const DefaultTocItems: seq<TocItem> := [
    TocItem("learning-objectives", "Learning Objectives", 2),
    TocItem("introduction", "Introduction", 2),
    TocItem("main-concepts", "Main Concepts", 2),
    TocItem("practical-examples", "Practical Examples", 2),
    TocItem("hands-on-practice", "Hands-on Practice", 2),
    TocItem("review-summary", "Review & Summary", 2),
    TocItem("assignments", "Assignments", 2),
    TocItem("resources", "Additional Resources", 2)
  ]

  lemma DefaultOutline()
    ensures |DefaultTocItems| == 8 && forall k :: 0 <= k < 8 ==> DefaultTocItems[k].level == 2
  {
  }

  const SourceDefault: string := "default"
  const SourceMarkdown: string := "markdown"
  const SourceError: string := "error"

  datatype TocResponse = TocResponse(items: seq<TocItem>, source: string, week: int, section: string)

  /**
    The section-week lookup of `handleLessonTOC` and `handleLessonContent`:
    the week must parse and be at least 1 (there is no upper bound), the
    section must exist; then the week and the lesson at the global week,
    if any.
   */
  function SectionWeek(c: Catalog, sectionId: string, weekStr: string): (r: Result<(int, Option<Lesson>), HttpError>)
    ensures r == Failure(BadRequest) <==> Atoi(weekStr).None? || Atoi(weekStr).value < 1
    ensures r.Failure? ==> r.error == BadRequest || sectionId !in c.sections
    ensures r.Success? ==>
              && sectionId in c.sections && r.value.0 == Atoi(weekStr).value
              && var g := GlobalWeek(c.sections[sectionId].weekStart, r.value.0);
                 r.value.1 == (if g in c.lessons then Some(c.lessons[g]) else None)
  {
    match Atoi(weekStr)
    case None => Failure(BadRequest)
    case Some(week) =>
      if week < 1 then Failure(BadRequest)
      else if sectionId !in c.sections then Failure(NotFound)
      else
        var globalWeek := GlobalWeek(c.sections[sectionId].weekStart, week);
        Success((week, if globalWeek in c.lessons then Some(c.lessons[globalWeek]) else None))
  }

  /** `handleLessonTOC`: the response starts out marked "error" and every path overwrites the mark. */
  method LessonToc(c: Catalog, sectionId: string, weekStr: string) returns (r: Result<TocResponse, HttpError>)
    ensures r.Failure? <==> SectionWeek(c, sectionId, weekStr).Failure?
    ensures r.Failure? ==> r.error == SectionWeek(c, sectionId, weekStr).error
    ensures r.Success? ==> r.value == TocOf(SectionWeek(c, sectionId, weekStr).value, sectionId)
  {
    var found := SectionWeek(c, sectionId, weekStr);
    if found.Failure? {
      return Failure(found.error);
    }
    var (week, lesson) := found.value;
    var response := TocResponse([], SourceError, week, sectionId);
    if lesson.None? {
      response := response.(items := DefaultTocItems, source := SourceDefault);
    } else {
      var items := ExtractTocFromContent(lesson.value.content);
      if |items| == 0 {
        response := response.(items := DefaultTocItems, source := SourceDefault);
      } else {
        response := response.(items := items, source := SourceMarkdown);
      }
    }
    return Success(response);
  }

  /** The response for section week `found.0`, whose lesson (if any) is `found.1`. */
  function TocOf(found: (int, Option<Lesson>), sectionId: string): TocResponse
  {
    match found.1
    case None => TocResponse(DefaultTocItems, SourceDefault, found.0, sectionId)
    case Some(l) =>
      var items := TocFromContent(l.content);
      if items == [] then TocResponse(DefaultTocItems, SourceDefault, found.0, sectionId)
      else TocResponse(items, SourceMarkdown, found.0, sectionId)
  }

  /**
    The response is never marked "error": it is the default outline, marked
    "default", or the lesson's own non-empty table, marked "markdown"; its
    items are never empty and all have levels in 2..6.
   */
  lemma TocSource(found: (int, Option<Lesson>), sectionId: string)
    ensures var t := TocOf(found, sectionId);
            && t.source != SourceError
            && (t.source == SourceDefault || t.source == SourceMarkdown)
            && (t.source == SourceDefault ==> t.items == DefaultTocItems)
            && (t.source == SourceMarkdown ==> found.1.Some? && t.items == TocFromContent(found.1.value.content))
            && (found.1.None? ==> t.source == SourceDefault)
            && t.items != []
            && forall k :: 0 <= k < |t.items| ==> 2 <= t.items[k].level <= 6
  {
    DefaultOutline();
    if found.1.Some? {
      TocLevels(found.1.value.content);
    }
  }

  /** `handleLessonContent`: the raw markdown of the lesson at the section week. */
  function LessonContent(c: Catalog, sectionId: string, weekStr: string): (r: Result<string, HttpError>)
    ensures r.Success? <==> SectionWeek(c, sectionId, weekStr).Success? && SectionWeek(c, sectionId, weekStr).value.1.Some?
    ensures r.Success? ==> r.value == SectionWeek(c, sectionId, weekStr).value.1.value.content
  {
    match SectionWeek(c, sectionId, weekStr)
    case Failure(e) => Failure(e)
    case Success((_, lesson)) => if lesson.None? then Failure(NotFound) else Success(lesson.value.content)
  }

  /**
    Unlike the section-lesson route, the table-of-contents and content routes
    accept section weeks past twelve: on a scanned catalog such a week
    names a lesson that is not in the section asked for.
   */
  lemma PastSectionEnd(c: Catalog, sectionId: string, weekStr: string)
    requires Valid(c)
    requires SectionWeek(c, sectionId, weekStr).Success?
    requires SectionWeek(c, sectionId, weekStr).value.0 > WeeksPerSection
    requires SectionWeek(c, sectionId, weekStr).value.1.Some?
    ensures var l := SectionWeek(c, sectionId, weekStr).value.1.value;
            l.week > c.sections[sectionId].weekEnd && l !in c.sections[sectionId].lessons
  {
    var s := c.sections[sectionId];
    var k := IdInTable(sectionId);
    assert MatchesConfig(s, SectionTable[k]);
    TableRanges();
    var l := SectionWeek(c, sectionId, weekStr).value.1.value;
    forall i | 0 <= i < |s.lessons| ensures s.lessons[i] != l {
      assert InSection(s.lessons[i].week, s);
    }
  }
}
