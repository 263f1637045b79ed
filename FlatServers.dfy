/**
  The two servers without sections: the flat server of `embedded_server.go`
  (weeks 1..100, a rebuilt map that replaces the old one only when the walk
  succeeds) and the minimal server of `from_claude/course_backend.go`
  (weeks 1..10, the map cleared and then filled in place during the walk).
  Both walk the whole lessons directory and key every lesson by its week.
 */
module FlatServers {
  import opened Wrappers
  import opened Text
  import opened Files
  import opened Lessons
  import opened Catalog
  import opened Courses
  import opened Watcher
  import opened Queries

  /** `parseLesson` of a flat server: no section, and `now` as the fallback creation time. */
  function FlatParse(v: Variant, now: Time, decode: MetadataDecoder): LessonParser
  {
    (path: string, origin: Origin, node: Node) => ParsedLesson(v, path, origin, node, now, decode)
  }

  /** The lesson the walk callback keeps for an entry, if any: a Markdown file that parses, with a week in [1, maxWeek]. */
  function Kept(e: Entry, maxWeek: int, parse: LessonParser): (r: Option<Lesson>)
    ensures r.Some? ==> 1 <= r.value.week <= maxWeek
    ensures r.Some? ==> !e.node.Dir? && !e.node.Unreadable? && IsMarkdownName(Base(e.path))
  {
    if e.node.Dir? || e.node.Unreadable? || !IsMarkdownName(Base(e.path)) then None
    else
      match parse(e.path, NoSection, e.node)
      case Failure(_) => None
      case Success(l) => if 1 <= l.week <= maxWeek then Some(l) else None
  }

  /** The entry yields a kept lesson of week `w`. */
  predicate KeepsWeek(e: Entry, maxWeek: int, parse: LessonParser, w: int)
  {
    Yields(Kept(e, maxWeek, parse), w)
  }

  predicate Yields(k: Option<Lesson>, w: int) { k.Some? && k.value.week == w }

  /** A kept lesson, if there is one, overwrites the map entry of its week. */
  function Put(m: map<int, Lesson>, k: Option<Lesson>): map<int, Lesson>
  {
    match k
    case None => m
    case Some(l) => m[l.week := l]
  }

  /** One call of the walk callback. */
  function FlatStep(m: map<int, Lesson>, maxWeek: int, e: Entry, parse: LessonParser): map<int, Lesson>
  {
    Put(m, Kept(e, maxWeek, parse))
  }

  /** The map after the walk, and whether the walk stopped on an error. */
  datatype WalkOutcome = WalkOutcome(lessons: map<int, Lesson>, failed: bool)

  /** `filepath.WalkDir` over the entries in walk order; an entry the walk cannot visit ends it with an error. */
  function FlatWalk(m: map<int, Lesson>, maxWeek: int, es: seq<Entry>, parse: LessonParser): WalkOutcome
    decreases |es|
  {
    if es == [] then WalkOutcome(m, false)
    else if es[0].node.Unreadable? then WalkOutcome(m, true)
    else FlatWalk(FlatStep(m, maxWeek, es[0], parse), maxWeek, es[1..], parse)
  }

  /** No entry stops the walk. */
  predicate Walkable(es: seq<Entry>)
  {
    forall i :: 0 <= i < |es| ==> !es[i].node.Unreadable?
  }

  /** The map is keyed by each lesson's own week, all inside [1, maxWeek]. */
  predicate KeyedInRange(m: map<int, Lesson>, maxWeek: int)
  {
    forall w :: w in m ==> 1 <= w <= maxWeek && m[w].week == w
  }

  // ----- what a walk produces -----

  /** Every walk keeps the map keyed by week and inside the range. */
  lemma {:induction false} FlatWalkKeyed(m: map<int, Lesson>, maxWeek: int, es: seq<Entry>, parse: LessonParser)
    requires KeyedInRange(m, maxWeek)
    ensures KeyedInRange(FlatWalk(m, maxWeek, es, parse).lessons, maxWeek)
    decreases |es|
  {
    if es != [] && !es[0].node.Unreadable? {
      FlatWalkKeyed(FlatStep(m, maxWeek, es[0], parse), maxWeek, es[1..], parse);
    }
  }

  /** The walk fails exactly when some entry stops it. */
  lemma {:induction false} FlatWalkFails(m: map<int, Lesson>, maxWeek: int, es: seq<Entry>, parse: LessonParser)
    ensures FlatWalk(m, maxWeek, es, parse).failed <==> !Walkable(es)
    decreases |es|
  {
    if es != [] && !es[0].node.Unreadable? {
      FlatWalkFails(FlatStep(m, maxWeek, es[0], parse), maxWeek, es[1..], parse);
      assert forall i :: 1 <= i < |es| ==> es[i] == es[1..][i - 1];
    }
  }

  /** A week no entry yields keeps what the map held for it. */
  lemma {:induction false} UntouchedWeek(m: map<int, Lesson>, maxWeek: int, es: seq<Entry>, parse: LessonParser, w: int)
    requires forall j :: 0 <= j < |es| ==> !KeepsWeek(es[j], maxWeek, parse, w)
    ensures var r := FlatWalk(m, maxWeek, es, parse).lessons;
            (w in r <==> w in m) && (w in m ==> r[w] == m[w])
    decreases |es|
  {
    if es != [] && !es[0].node.Unreadable? {
      assert !KeepsWeek(es[0], maxWeek, parse, w);
      assert forall j :: 1 <= j < |es| ==> es[1..][j - 1] == es[j];
      UntouchedWeek(FlatStep(m, maxWeek, es[0], parse), maxWeek, es[1..], parse, w);
    }
  }

  /** What each entry of a walk keeps, in walk order. */
  function KeptAll(es: seq<Entry>, maxWeek: int, parse: LessonParser): (ks: seq<Option<Lesson>>)
    ensures |ks| == |es| && forall j :: 0 <= j < |es| ==> ks[j] == Kept(es[j], maxWeek, parse)
  {
    seq(|es|, j requires 0 <= j < |es| => Kept(es[j], maxWeek, parse))
  }

  /** The map after putting the kept lessons `ks` one after the other. */
  function Overwrite(m: map<int, Lesson>, ks: seq<Option<Lesson>>): map<int, Lesson>
    decreases |ks|
  {
    if ks == [] then m else Overwrite(Put(m, ks[0]), ks[1..])
  }

  /** A walk that does not fail puts what its entries keep, in walk order. */
  lemma {:induction false} WalkOverwrites(m: map<int, Lesson>, maxWeek: int, es: seq<Entry>, parse: LessonParser)
    requires Walkable(es)
    ensures FlatWalk(m, maxWeek, es, parse).lessons == Overwrite(m, KeptAll(es, maxWeek, parse))
    decreases |es|
  {
    if es != [] {
      var ks := KeptAll(es, maxWeek, parse);
      assert !es[0].node.Unreadable?;
      assert forall j :: 1 <= j < |es| ==> es[1..][j - 1] == es[j];
      assert KeptAll(es[1..], maxWeek, parse) == ks[1..];
      WalkOverwrites(FlatStep(m, maxWeek, es[0], parse), maxWeek, es[1..], parse);
    }
  }

  /** Putting lessons of other weeks leaves week `w` as it was. */
  lemma {:induction false} OverwriteMisses(m: map<int, Lesson>, ks: seq<Option<Lesson>>, w: int)
    requires forall j :: 0 <= j < |ks| ==> !Yields(ks[j], w)
    ensures (w in Overwrite(m, ks) <==> w in m) && (w in m ==> Overwrite(m, ks)[w] == m[w])
    decreases |ks|
  {
    if ks != [] {
      assert !Yields(ks[0], w);
      assert forall j :: 1 <= j < |ks| ==> ks[1..][j - 1] == ks[j];
      OverwriteMisses(Put(m, ks[0]), ks[1..], w);
    }
  }

  /** The last lesson of week `w` put is the one the map ends with. */
  lemma {:induction false} OverwriteLast(m: map<int, Lesson>, ks: seq<Option<Lesson>>, w: int, i: nat)
    requires i < |ks| && Yields(ks[i], w)
    requires forall j :: i < j < |ks| ==> !Yields(ks[j], w)
    ensures w in Overwrite(m, ks) && Overwrite(m, ks)[w] == ks[i].value
    decreases |ks|
  {
    assert forall j :: 1 <= j < |ks| ==> ks[1..][j - 1] == ks[j];
    if i == 0 {
      OverwriteMisses(Put(m, ks[0]), ks[1..], w);
    } else {
      OverwriteLast(Put(m, ks[0]), ks[1..], w, i - 1);
    }
  }

  /**
    Last write wins: in a walk that does not fail, the lesson of week `w` is
    the one kept from the last entry that yields week `w`.
   */
  lemma LastWriteWins(m: map<int, Lesson>, maxWeek: int, es: seq<Entry>, parse: LessonParser, w: int, i: nat)
    requires Walkable(es) && i < |es| && KeepsWeek(es[i], maxWeek, parse, w)
    requires forall j :: i < j < |es| ==> !KeepsWeek(es[j], maxWeek, parse, w)
    ensures var r := FlatWalk(m, maxWeek, es, parse).lessons;
            w in r && r[w] == Kept(es[i], maxWeek, parse).value
  {
    WalkOverwrites(m, maxWeek, es, parse);
    OverwriteLast(m, KeptAll(es, maxWeek, parse), w, i);
  }

  /**
    A week is in the map after a walk that does not fail exactly when the
    map held it or some entry yields it.
   */
  lemma {:induction false} WeeksOfWalk(m: map<int, Lesson>, maxWeek: int, es: seq<Entry>, parse: LessonParser, w: int)
    requires Walkable(es)
    ensures w in FlatWalk(m, maxWeek, es, parse).lessons <==>
            w in m || exists j :: 0 <= j < |es| && KeepsWeek(es[j], maxWeek, parse, w)
    decreases |es|
  {
    if es != [] {
      var next := FlatStep(m, maxWeek, es[0], parse);
      assert forall j :: 1 <= j < |es| ==> es[1..][j - 1] == es[j];
      WeeksOfWalk(next, maxWeek, es[1..], parse, w);
      if KeepsWeek(es[0], maxWeek, parse, w) {
        assert w in next;
      }
      if w in next && w !in m {
        assert KeepsWeek(es[0], maxWeek, parse, w);
      }
      if exists j :: 0 <= j < |es| && KeepsWeek(es[j], maxWeek, parse, w) {
        var j :| 0 <= j < |es| && KeepsWeek(es[j], maxWeek, parse, w);
        if j > 0 {
          assert KeepsWeek(es[1..][j - 1], maxWeek, parse, w);
        }
      }
    }
  }

  /**
    An error at entry `k` ends the walk with what the entries before `k`
    left: a partial map.
   */
  lemma {:induction false} PartialOnError(m: map<int, Lesson>, maxWeek: int, es: seq<Entry>, parse: LessonParser, k: nat)
    requires k < |es| && es[k].node.Unreadable? && Walkable(es[..k])
    ensures FlatWalk(m, maxWeek, es, parse) == WalkOutcome(FlatWalk(m, maxWeek, es[..k], parse).lessons, true)
    decreases |es|
  {
    if k > 0 {
      assert !es[..k][0].node.Unreadable?;
      assert es[..k][1..] == es[1..][..k - 1];
      PartialOnError(FlatStep(m, maxWeek, es[0], parse), maxWeek, es[1..], parse, k - 1);
    }
  }

  // ----- the flat server of embedded_server.go -----

  datatype ScanError = WalkFailed

  /**
    `scanLessons` of the flat server: a missing directory gives an empty map
    and no error; a walk that fails returns the error and keeps the map the
    server had; otherwise the new map replaces it.
   */
  function EmbeddedScan(fs: FileSystem, current: map<int, Lesson>, now: Time, decode: MetadataDecoder)
    : (map<int, Lesson>, Option<ScanError>)
  {
    if !fs.rootExists then (map[], None)
    else
      var walk := FlatWalk(map[], Embedded.maxWeek, fs.entries, FlatParse(Embedded, now, decode));
      if walk.failed then (current, Some(WalkFailed)) else (walk.lessons, None)
  }

  /** What the flat server's scan guarantees: a map keyed by week inside [1, 100], whatever happens. */
  lemma EmbeddedScanKeyed(fs: FileSystem, current: map<int, Lesson>, now: Time, decode: MetadataDecoder)
    requires KeyedInRange(current, Embedded.maxWeek)
    ensures KeyedInRange(EmbeddedScan(fs, current, now, decode).0, Embedded.maxWeek)
    ensures EmbeddedScan(fs, current, now, decode).1.Some? <==> fs.rootExists && !Walkable(fs.entries)
    ensures EmbeddedScan(fs, current, now, decode).1.Some? ==> EmbeddedScan(fs, current, now, decode).0 == current
  {
    var parse := FlatParse(Embedded, now, decode);
    FlatWalkKeyed(map[], Embedded.maxWeek, fs.entries, parse);
    FlatWalkFails(map[], Embedded.maxWeek, fs.entries, parse);
  }

  /**
    The walk callback of a flat server on one entry: Markdown files are
    parsed and kept under their week when it lies in [1, maxWeek].
   */
  method FlatEntry(m: map<int, Lesson>, v: Variant, e: Entry, now: Time, decode: MetadataDecoder)
    returns (r: map<int, Lesson>)
    requires !e.node.Unreadable?
    ensures r == FlatStep(m, v.maxWeek, e, FlatParse(v, now, decode))
  {
    r := m;
    if e.node.Dir? || !IsMarkdownName(Base(e.path)) {
      return;
    }
    var lesson := ParseLesson(v, e.path, NoSection, e.node, now, decode);
    if lesson.Failure? {
      return;
    }
    if 1 <= lesson.value.week <= v.maxWeek {
      r := r[lesson.value.week := lesson.value];
    }
  }

  /** The walk of the lessons directory into a fresh map, for the flat server. */
  method WalkInto(v: Variant, entries: seq<Entry>, now: Time, decode: MetadataDecoder)
    returns (newLessons: map<int, Lesson>, failed: bool)
    ensures WalkOutcome(newLessons, failed) == FlatWalk(map[], v.maxWeek, entries, FlatParse(v, now, decode))
  {
    ghost var parse := FlatParse(v, now, decode);
    newLessons := map[];
    for i := 0 to |entries|
      invariant FlatWalk(map[], v.maxWeek, entries, parse) == FlatWalk(newLessons, v.maxWeek, entries[i..], parse)
    {
      if entries[i].node.Unreadable? {
        return newLessons, true;
      }
      assert entries[i..][1..] == entries[i + 1..];
      newLessons := FlatEntry(newLessons, v, entries[i], now, decode);
    }
    return newLessons, false;
  }

  class EmbeddedServer {
    var course: Course
    var lessons: map<int, Lesson>

    constructor()
      ensures course == NoCourse && lessons == map[]
    {
      course := NoCourse;
      lessons := map[];
    }

    /** `loadCourseInfo`: `course.yaml`, then `course.yml`, then the built-in course. */
    method LoadCourseInfo(fs: FileSystem, decode: CourseDecoder) returns (err: Option<CourseError>)
      modifies this
      ensures var r := LoadedCourse(fs, BothNames, EmbeddedDefault, old(course), decode);
              (r.Success? ==> course == r.value && err == None) &&
              (r.Failure? ==> course == old(course) && err == Some(r.error))
      ensures lessons == old(lessons)
    {
      var r := LoadCourse(fs, true, EmbeddedDefault, course, decode);
      if r.Success? {
        course := r.value;
        err := None;
      } else {
        err := Some(r.error);
      }
    }

    /** `scanLessons`: the new map replaces the old one only when the walk succeeds. */
    method ScanLessons(fs: FileSystem, decode: MetadataDecoder) returns (err: Option<ScanError>)
      modifies this
      ensures (lessons, err) == EmbeddedScan(fs, old(lessons), NoTime, decode)
      ensures course == old(course)
    {
      if !fs.rootExists {
        lessons := map[];
        return None;
      }
      var newLessons, failed := WalkInto(Embedded, fs.entries, NoTime, decode);
      if failed {
        return Some(WalkFailed);
      }
      lessons := newLessons;
      return None;
    }

    /**
      One event of `startFileWatcher`: the course reload, then the rescan,
      each only when `React` calls for it; errors are only logged.
     */
    method HandleEvent(e: Event, fs: FileSystem, courseDecode: CourseDecoder, decode: MetadataDecoder)
      modifies this
      ensures var r := LoadedCourse(fs, BothNames, EmbeddedDefault, old(course), courseDecode);
              course == (if React(e).reloadCourse && r.Success? then r.value else old(course))
      ensures lessons == (if React(e).rescan then EmbeddedScan(fs, old(lessons), NoTime, decode).0 else old(lessons))
    {
      var reaction := React(e);
      if reaction.reloadCourse {
        var _ := LoadCourseInfo(fs, courseDecode);
      }
      if reaction.rescan {
        var _ := ScanLessons(fs, decode);
      }
    }
  }

  // ----- the minimal server of from_claude/course_backend.go -----

  /**
    `scanLessons` of the minimal server: the map is cleared and then filled
    during the walk, so a walk error (a missing directory included) returns
    the error with the map as far as the walk got.
   */
  function MinimalScan(fs: FileSystem, now: Time, decode: MetadataDecoder): (map<int, Lesson>, Option<ScanError>)
  {
    if !fs.rootExists then (map[], Some(WalkFailed))
    else
      var walk := FlatWalk(map[], Minimal.maxWeek, fs.entries, FlatParse(Minimal, now, decode));
      (walk.lessons, if walk.failed then Some(WalkFailed) else None)
  }

  /** What the minimal server's scan guarantees: a map keyed by week inside [1, 10], even after an error. */
  lemma MinimalScanKeyed(fs: FileSystem, now: Time, decode: MetadataDecoder)
    ensures KeyedInRange(MinimalScan(fs, now, decode).0, Minimal.maxWeek)
    ensures MinimalScan(fs, now, decode).1.Some? <==> !fs.rootExists || !Walkable(fs.entries)
  {
    var parse := FlatParse(Minimal, now, decode);
    FlatWalkKeyed(map[], Minimal.maxWeek, fs.entries, parse);
    FlatWalkFails(map[], Minimal.maxWeek, fs.entries, parse);
  }

  class MinimalServer {
    var course: Course
    var lessons: map<int, Lesson>

    constructor()
      ensures course == NoCourse && lessons == map[]
    {
      course := NoCourse;
      lessons := map[];
    }

    /** `loadCourseInfo`: `course.yaml` only, else the built-in ten-week course. */
    method LoadCourseInfo(fs: FileSystem, decode: CourseDecoder) returns (err: Option<CourseError>)
      modifies this
      ensures var r := LoadedCourse(fs, YamlOnly, MinimalDefault, old(course), decode);
              (r.Success? ==> course == r.value && err == None) &&
              (r.Failure? ==> course == old(course) && err == Some(r.error))
      ensures lessons == old(lessons)
    {
      var r := LoadCourse(fs, false, MinimalDefault, course, decode);
      if r.Success? {
        course := r.value;
        err := None;
      } else {
        err := Some(r.error);
      }
    }

    /**
      `scanLessons`: clears the map and writes each kept lesson into it as
      the walk goes. `now` stands for the time a lesson gets when its file
      cannot be stat'ed.
     */
    method ScanLessons(fs: FileSystem, now: Time, decode: MetadataDecoder) returns (err: Option<ScanError>)
      modifies this
      ensures (lessons, err) == MinimalScan(fs, now, decode)
      ensures course == old(course)
    {
      ghost var parse := FlatParse(Minimal, now, decode);
      lessons := map[];
      if !fs.rootExists {
        return Some(WalkFailed);
      }
      var entries := fs.entries;
      for i := 0 to |entries|
        invariant course == old(course)
        invariant FlatWalk(map[], Minimal.maxWeek, entries, parse) == FlatWalk(lessons, Minimal.maxWeek, entries[i..], parse)
      {
        if entries[i].node.Unreadable? {
          return Some(WalkFailed);
        }
        assert entries[i..][1..] == entries[i + 1..];
        lessons := FlatEntry(lessons, Minimal, entries[i], now, decode);
      }
      return None;
    }

    /** `handleLessons`: a rescan, then the lessons of weeks 1..10 in week order; a failed rescan is a 500. */
    method HandleLessons(fs: FileSystem, now: Time, decode: MetadataDecoder) returns (r: Result<seq<Lesson>, HttpError>)
      modifies this
      ensures lessons == MinimalScan(fs, now, decode).0 && course == old(course)
      ensures MinimalScan(fs, now, decode).1.Some? ==> r == Failure(InternalError)
      ensures MinimalScan(fs, now, decode).1.None? ==> r == Success(InWeekOrder(lessons, MinimalListBound))
    {
      var err := ScanLessons(fs, now, decode);
      if err.Some? {
        return Failure(InternalError);
      }
      var list := ListLessons(lessons, MinimalListBound);
      return Success(list);
    }

    /**
      `handleLesson`: the week is checked before anything else; only a
      valid week triggers the rescan, whose failure is a 500, and then the
      lookup.
     */
    method HandleLesson(fs: FileSystem, now: Time, decode: MetadataDecoder, weekStr: string)
      returns (r: Result<Lesson, HttpError>)
      modifies this
      ensures course == old(course)
      ensures Atoi(weekStr).None? || !(1 <= Atoi(weekStr).value <= MinimalListBound) ==>
                r == Failure(BadRequest) && lessons == old(lessons)
      ensures Atoi(weekStr).Some? && 1 <= Atoi(weekStr).value <= MinimalListBound ==>
                lessons == MinimalScan(fs, now, decode).0 &&
                r == (if MinimalScan(fs, now, decode).1.Some? then Failure(InternalError)
                      else LessonByWeek(lessons, weekStr, MinimalListBound))
    {
      var week := Atoi(weekStr);
      if week.None? || week.value < 1 || week.value > MinimalListBound {
        return Failure(BadRequest);
      }
      var err := ScanLessons(fs, now, decode);
      if err.Some? {
        return Failure(InternalError);
      }
      return LessonByWeek(lessons, weekStr, MinimalListBound);
    }

    /** `handleSyllabus`: a rescan, then every week of the map, ascending; a failed rescan is a 500. */
    method HandleSyllabus(fs: FileSystem, now: Time, decode: MetadataDecoder) returns (r: Result<seq<int>, HttpError>)
      modifies this
      ensures lessons == MinimalScan(fs, now, decode).0 && course == old(course)
      ensures MinimalScan(fs, now, decode).1.Some? ==> r == Failure(InternalError)
      ensures r.Success? ==> StrictlyAscending(r.value) && (forall w :: w in r.value <==> w in lessons) &&
                             |r.value| == |lessons|
      ensures MinimalScan(fs, now, decode).1.None? ==> r.Success?
    {
      var err := ScanLessons(fs, now, decode);
      if err.Some? {
        return Failure(InternalError);
      }
      var weeks := SortedWeeks(lessons);
      return Success(weeks);
    }
  }
}
