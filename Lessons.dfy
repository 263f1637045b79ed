/**
  `parseLesson`: reading one Markdown file into a lesson record, with the
  fallbacks for week, title and content that all three servers share.
 */
module Lessons {
  import opened Wrappers
  import opened Text
  import opened Files
  import opened WeekNumbers
  import opened FrontMatter

  /** The YAML front matter fields a lesson file may set. */
  datatype Metadata = Metadata(title: string, description: string, week: int, section: string)

  /**
    `yaml.Unmarshal` into a fresh metadata record: `None` when decoding fails.
    The YAML library is not part of this model; every server takes it as given.
   */
  type MetadataDecoder = string -> Option<Metadata>

  datatype Lesson = Lesson(
    week: int,
    section: string,
    sectionName: string,
    title: string,
    description: string,
    content: string,
    createdAt: Time,
    filePath: string,
    fileSize: int)

  /**
    What tells the three servers apart in parsing: the largest week a file
    name may give, whether the front matter may name a section, and whether
    a failed `os.Stat` rejects the file.
   */
  datatype Variant = Variant(maxWeek: int, sectionOverride: bool, statFatal: bool)

  /** The sectioned server of `main.go`. */
  const Sectioned: Variant := Variant(48, true, true)

  /** The flat server of `embedded_server.go`. */
  const Embedded: Variant := Variant(100, false, true)

  /** The minimal server of `from_claude/course_backend.go`. */
  const Minimal: Variant := Variant(10, false, false)

  /** The section a file is parsed for, and the first global week of that section. */
  datatype Origin = Origin(sectionId: string, sectionName: string, weekOffset: int)

  /** How the flat servers, and the sectioned one for top-level files, call the parser. */
  const NoSection: Origin := Origin("", "", 1)

  datatype ParseError = ReadError | StatError

  /**
    The decoded metadata and the trimmed body: present exactly when the raw
    document is `---m---b`, `m` reaching only to the first closing `---`,
    and `m` decodes.
   */
  function FrontMatterOf(raw: string, decode: MetadataDecoder): (r: Option<(Metadata, string)>)
    ensures r.Some? <==> exists m, b :: FrontMatterParts(raw, m, b) && decode(m).Some?
    ensures forall m, b :: FrontMatterParts(raw, m, b) && decode(m).Some? ==>
              r == Some((decode(m).value, TrimSpace(b)))
  {
    SplitOfParts(raw);
    match SplitFrontMatter(raw)
    case None => None
    case Some(parts) =>
      assert FrontMatterParts(raw, parts.0, parts.1);
      match decode(parts.0)
      case None => None
      case Some(metadata) => Some((metadata, TrimSpace(parts.1)))
  }

  /**
    The week read from the file name: the name's week, moved into the section
    (`weekOffset + n - 1`) when the file belongs to a section whose first week
    is past 1; 0 when the name gives none.
   */
  function FileWeek(v: Variant, origin: Origin, path: string): (w: int)
    ensures var n := FilenameWeek(Base(path), v.maxWeek);
            (n == 0 ==> w == 0) &&
            (n != 0 && origin.sectionId != "" && origin.weekOffset > 1 ==> w == origin.weekOffset + n - 1) &&
            (n != 0 && (origin.sectionId == "" || origin.weekOffset <= 1) ==> w == n)
  {
    var n := FilenameWeek(Base(path), v.maxWeek);
    if n > 0 then
      if origin.sectionId != "" && origin.weekOffset > 1 then origin.weekOffset + n - 1 else n
    else 0
  }

  /** The title a lesson without one gets: `fmt.Sprintf("Week %d Lesson", week)`. */
  function DefaultTitle(week: int): (t: string)
    ensures HasPrefix(t, "Week ") && HasSuffix(t, " Lesson")
  {
    "Week " + IntToString(week) + " Lesson"
  }

  /** The default title reads back: the number between `Week ` and ` Lesson` is the week, signed. */
  lemma DefaultTitleDigits(week: int)
    ensures week >= 0 ==> exists x :: DefaultTitle(week) == "Week " + x + " Lesson" && IsDecimalOf(x, week)
    ensures week < 0 ==> exists x :: DefaultTitle(week) == "Week -" + x + " Lesson" && IsDecimalOf(x, -week)
  {
    IntToStringReadsBack(week);
    var x := IntToString(week);
    if week >= 0 {
      assert IsDecimalOf(x, week);
    } else {
      var digits := x[1..];
      assert x == "-" + digits;
      assert IsDecimalOf(digits, -week);
      assert "Week " + x + " Lesson" == "Week -" + digits + " Lesson";
    }
  }

  /** The record `parseLesson` starts from: path, stat data and the caller's section. */
  function StartLesson(v: Variant, path: string, origin: Origin, info: Option<FileInfo>, now: Time): Lesson
  {
    Lesson(
      week := 0,
      section := origin.sectionId,
      sectionName := origin.sectionName,
      title := "",
      description := "",
      content := "",
      createdAt := if info.Some? then info.value.modTime else now,
      filePath := path,
      fileSize := if v.statFatal && info.Some? then info.value.size else 0)
  }

  /** What decoded front matter sets on the record. */
  function WithFrontMatter(lesson: Lesson, v: Variant, fm: Option<(Metadata, string)>): Lesson
  {
    match fm
    case None => lesson
    case Some((m, body)) =>
      lesson.(
        title := m.title,
        description := m.description,
        week := m.week,
        content := body,
        section := if v.sectionOverride && m.section != "" then m.section else lesson.section)
  }

  /** The fallbacks: week from the file name, default title, whole document as content. */
  function WithFallbacks(lesson: Lesson, v: Variant, origin: Origin, path: string, raw: string): Lesson
  {
    var week := if lesson.week == 0 then FileWeek(v, origin, path) else lesson.week;
    lesson.(
      week := week,
      title := if lesson.title == "" then DefaultTitle(week) else lesson.title,
      content := if lesson.content == "" then raw else lesson.content)
  }

  /**
    The lesson `parseLesson` returns for the file at `path`, or why it
    returns none. `now` is the creation time a lesson keeps when the minimal
    server cannot stat its file.
   */
  function ParsedLesson(v: Variant, path: string, origin: Origin, node: Node, now: Time, decode: MetadataDecoder)
    : (r: Result<Lesson, ParseError>)
    ensures r.Success? <==> ReadData(node).Some? && (v.statFatal ==> node.info.Some?)
    ensures ReadData(node).None? ==> r == Failure(ReadError)
    ensures r.Success? ==> r.value.title != [] && r.value.filePath == path && r.value.sectionName == origin.sectionName
    ensures r.Success? ==> (r.value.content == [] <==> ReadData(node).value == [])
    ensures r.Success? ==> r.value.createdAt == if node.info.Some? then node.info.value.modTime else now
  {
    match ReadData(node)
    case None => Failure(ReadError)
    case Some(raw) =>
      if v.statFatal && node.info.None? then Failure(StatError)
      else
        var fm := FrontMatterOf(raw, decode);
        RawNonEmptyWithFrontMatter(raw, decode);
        Success(WithFallbacks(WithFrontMatter(StartLesson(v, path, origin, node.info, now), v, fm), v, origin, path, raw))
  }

  /** A document with front matter is not empty: it starts with `---`. */
  lemma RawNonEmptyWithFrontMatter(raw: string, decode: MetadataDecoder)
    ensures FrontMatterOf(raw, decode).Some? ==> raw != []
  {
  }

  /** The source's test on the `SplitN` parts is the test of `SplitFrontMatter`. */
  lemma PartsOfFrontMatter(text: string)
    requires HasPrefix(text, Delimiter)
    ensures var parts := SplitN(text, Delimiter, 3);
            (|parts| >= 3 <==> SplitFrontMatter(text).Some?) &&
            (|parts| >= 3 ==> SplitFrontMatter(text) == Some((parts[1], parts[2])))
  {
    var parts := SplitN(text, Delimiter, 3);
    FirstPartEmpty(text, parts);
    if |parts| >= 3 {
      assert Join(parts[1..], Delimiter) == parts[1] + Delimiter + parts[2];
    }
  }

  /**
    `parseLesson` as the source writes it: read, stat, start a record with
    the path, the stat data and the caller's section, then apply the front
    matter and the fallbacks one field at a time.
   */
  method ParseLesson(v: Variant, path: string, origin: Origin, node: Node, now: Time, decode: MetadataDecoder)
    returns (r: Result<Lesson, ParseError>)
    ensures r == ParsedLesson(v, path, origin, node, now, decode)
  {
    if !(node.File? && node.data.Some?) {
      return Failure(ReadError);
    }
    var contentStr := node.data.value;
    var lesson := Lesson(0, origin.sectionId, origin.sectionName, "", "", "", now, path, 0);
    if node.info.Some? {
      lesson := lesson.(createdAt := node.info.value.modTime);
      if v.statFatal {
        lesson := lesson.(fileSize := node.info.value.size);
      }
    } else if v.statFatal {
      return Failure(StatError);
    }
    ghost var start := lesson;
    assert start == StartLesson(v, path, origin, node.info, now);

    if HasPrefix(contentStr, Delimiter) {
      var parts := SplitN(contentStr, Delimiter, 3);
      PartsOfFrontMatter(contentStr);
      if |parts| >= 3 {
        var metadata := decode(parts[1]);
        if metadata.Some? {
          lesson := lesson.(title := metadata.value.title, description := metadata.value.description,
                            week := metadata.value.week, content := TrimSpace(parts[2]));
          if v.sectionOverride && metadata.value.section != "" {
            lesson := lesson.(section := metadata.value.section);
          }
        }
      }
    }
    assert lesson == WithFrontMatter(start, v, FrontMatterOf(contentStr, decode));

    lesson := ApplyFallbacks(lesson, v, origin, path, contentStr);
    return Success(lesson);
  }

  /** The fallback steps at the end of `parseLesson`, one field at a time. */
  method ApplyFallbacks(lesson: Lesson, v: Variant, origin: Origin, path: string, contentStr: string)
    returns (result: Lesson)
    ensures result == WithFallbacks(lesson, v, origin, path, contentStr)
  {
    var week := lesson.week;
    if week == 0 {
      var filename := Base(path);
      var weekNum := ExtractWeekFromFilename(filename, v.maxWeek);
      if weekNum > 0 {
        if origin.sectionId != "" && origin.weekOffset > 1 {
          week := origin.weekOffset + weekNum - 1;
        } else {
          week := weekNum;
        }
      }
    }
    assert week == if lesson.week == 0 then FileWeek(v, origin, path) else lesson.week;
    result := lesson.(week := week);

    if result.title == "" {
      result := result.(title := DefaultTitle(result.week));
    }

    if result.content == "" {
      result := result.(content := contentStr);
    }
  }

  // ----- the resolution rules -----

  /**
    A document `---` metadata `---` body whose metadata decodes: title,
    description and a non-zero week come from the metadata, the content is
    the trimmed body unless that is blank, and the metadata's section, when
    given, replaces the caller's in the sectioned server.
   */
  lemma LessonFromFrontMatter(v: Variant, path: string, origin: Origin, metadata: string, body: string,
                              info: FileInfo, now: Time, decode: MetadataDecoder)
    requires EndsAtFirstSeparator(metadata, Delimiter) && decode(metadata).Some?
    ensures var raw := Delimiter + metadata + Delimiter + body;
            var m := decode(metadata).value;
            var r := ParsedLesson(v, path, origin, File(Some(raw), Some(info)), now, decode);
            r.Success? &&
            r.value.description == m.description &&
            r.value.title == (if m.title == "" then DefaultTitle(r.value.week) else m.title) &&
            (m.week != 0 ==> r.value.week == m.week) &&
            (m.week == 0 ==> r.value.week == FileWeek(v, origin, path)) &&
            r.value.content == (if TrimSpace(body) == "" then raw else TrimSpace(body)) &&
            r.value.section == (if v.sectionOverride && m.section != "" then m.section else origin.sectionId)
  {
    SplitFrontMatterRoundTrip(metadata, body);
  }

  /**
    Without usable front matter (no leading `---`, no closing `---`, or
    metadata that does not decode) the week comes from the file name, the
    title is the default one and the content is the whole document.
   */
  lemma LessonWithoutFrontMatter(v: Variant, path: string, origin: Origin, raw: string, info: FileInfo,
                                 now: Time, decode: MetadataDecoder)
    requires SplitFrontMatter(raw).None? || decode(SplitFrontMatter(raw).value.0).None?
    ensures var r := ParsedLesson(v, path, origin, File(Some(raw), Some(info)), now, decode);
            r.Success? && r.value.week == FileWeek(v, origin, path) &&
            r.value.title == DefaultTitle(r.value.week) && r.value.description == "" &&
            r.value.content == raw && r.value.section == origin.sectionId
  {
  }

  /** A file whose name and front matter both give no week keeps week 0, titled `Week 0 Lesson`. */
  lemma UnresolvedWeekIsZero(v: Variant, path: string, origin: Origin, raw: string, info: FileInfo,
                             now: Time, decode: MetadataDecoder)
    requires FilenameWeek(Base(path), v.maxWeek) == 0
    requires FrontMatterOf(raw, decode).None? || FrontMatterOf(raw, decode).value.0.week == 0
    requires FrontMatterOf(raw, decode).None? || FrontMatterOf(raw, decode).value.0.title == ""
    ensures var r := ParsedLesson(v, path, origin, File(Some(raw), Some(info)), now, decode);
            r.Success? && r.value.week == 0 && r.value.title == DefaultTitle(0)
  {
  }

  /** The title of a lesson without a week. */
  lemma DefaultTitleOfZero()
    ensures DefaultTitle(0) == "Week 0 Lesson"
  {
    assert IntToString(0) == "0";
  }

  /**
    The minimal server keeps a file it cannot stat, with the creation time
    it started from and no size; the other two reject it.
   */
  lemma StatFailure(path: string, origin: Origin, raw: string, now: Time, decode: MetadataDecoder)
    ensures var r := ParsedLesson(Minimal, path, origin, File(Some(raw), None), now, decode);
            r.Success? && r.value.createdAt == now && r.value.fileSize == 0
    ensures ParsedLesson(Sectioned, path, origin, File(Some(raw), None), now, decode) == Failure(StatError)
    ensures ParsedLesson(Embedded, path, origin, File(Some(raw), None), now, decode) == Failure(StatError)
  {
  }
}
