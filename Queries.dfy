/**
  The read side of the servers: looking a lesson up by its global week or by
  its week within a section, listing the lessons in week order, and the
  sorted list of weeks the syllabus reports.
 */
module Queries {
  import opened Wrappers
  import opened Text
  import opened Lessons
  import opened Catalog
  import opened CatalogProperties

  /** The HTTP failures of the handlers: 400, 404 and, for a failed rescan, 500. */
  datatype HttpError = BadRequest | NotFound | InternalError

  /** How far `handleLesson` accepts and `handleLessons` lists, per server. */
  const SectionedListBound: int := 60
  const EmbeddedListBound: int := 100
  const MinimalListBound: int := 10

  /** Weeks within a section run from 1 to 12 on the section-lesson route. */
  const WeeksPerSection: int := 12

  /** Week `week` of a section starting at global week `weekStart`. */
  function GlobalWeek(weekStart: int, week: int): int
  {
    weekStart + week - 1
  }

  /** Section week `week` of row `k` is a week the row holds, and no other row does. */
  lemma GlobalWeekInRow(k: nat, week: int)
    requires k < |SectionTable| && 1 <= week <= WeeksPerSection
    ensures var g := GlobalWeek(SectionTable[k].weekStart, week);
            1 <= g <= 60 && SectionTable[k].weekStart <= g <= SectionTable[k].weekEnd && SectionIndexOfWeek(g) == k
  {
    TableRanges();
  }

  // ----- lookup by global week: handleLesson -----

  /**
    `handleLesson`: the week must parse and lie in 1..`bound`; then the
    lesson stored at that week, if any.
   */
  function LessonByWeek(lessons: map<int, Lesson>, weekStr: string, bound: int): (r: Result<Lesson, HttpError>)
    ensures r == Failure(BadRequest) <==> Atoi(weekStr).None? || !(1 <= Atoi(weekStr).value <= bound)
    ensures r.Success? ==> Atoi(weekStr).value in lessons && r.value == lessons[Atoi(weekStr).value]
    ensures r.Failure? && r.error == NotFound ==> Atoi(weekStr).value !in lessons
  {
    match Atoi(weekStr)
    case None => Failure(BadRequest)
    case Some(week) =>
      if week < 1 || week > bound then Failure(BadRequest)
      else if week !in lessons then Failure(NotFound)
      else Success(lessons[week])
  }

  /** A lesson of a scanned week map comes back for the decimal form of its week. */
  lemma LessonByWeekFinds(lessons: map<int, Lesson>, w: nat, bound: int)
    requires KeyedByWeek(lessons) && w in lessons && 1 <= w <= bound && w <= MaxInt64
    ensures LessonByWeek(lessons, NatToString(w), bound) == Success(lessons[w])
    ensures LessonByWeek(lessons, NatToString(w), bound).value.week == w
  {
    AtoiOfNatToString(w);
  }

  /** `strconv.Atoi` reads back what `%d` prints, for every value that fits 64 bits. */
  lemma AtoiOfNatToString(n: nat)
    requires n <= MaxInt64
    ensures Atoi(NatToString(n)) == Some(n)
  {
    DecimalValueOfNatToString(n);
    AtoiOfDigits(NatToString(n));
  }

  // ----- lookup by section week: handleSectionLesson -----

  /**
    `handleSectionLesson`: the week must parse and lie in 1..12, the section
    must exist, and the lesson is the one at the corresponding global week.
   */
  function SectionLesson(c: Catalog, sectionId: string, weekStr: string): (r: Result<Lesson, HttpError>)
    ensures r == Failure(BadRequest) <==> Atoi(weekStr).None? || !(1 <= Atoi(weekStr).value <= WeeksPerSection)
    ensures r.Failure? && r.error == NotFound ==>
              sectionId !in c.sections ||
              GlobalWeek(c.sections[sectionId].weekStart, Atoi(weekStr).value) !in c.lessons
    ensures r.Success? ==>
              && sectionId in c.sections
              && GlobalWeek(c.sections[sectionId].weekStart, Atoi(weekStr).value) in c.lessons
              && r.value == c.lessons[GlobalWeek(c.sections[sectionId].weekStart, Atoi(weekStr).value)]
  {
    match Atoi(weekStr)
    case None => Failure(BadRequest)
    case Some(week) =>
      if week < 1 || week > WeeksPerSection then Failure(BadRequest)
      else if sectionId !in c.sections then Failure(NotFound)
      else
        var globalWeek := GlobalWeek(c.sections[sectionId].weekStart, week);
        if globalWeek !in c.lessons then Failure(NotFound) else Success(c.lessons[globalWeek])
  }

  /**
    On a scanned catalog the section-lesson route only ever returns a lesson
    of the section asked for, at the global week the section week names.
   */
  lemma SectionLessonInSection(c: Catalog, sectionId: string, weekStr: string)
    requires Valid(c) && SectionLesson(c, sectionId, weekStr).Success?
    ensures var l := SectionLesson(c, sectionId, weekStr).value;
            var s := c.sections[sectionId];
            l in s.lessons && l.week == GlobalWeek(s.weekStart, Atoi(weekStr).value) && s.weekStart <= l.week <= s.weekEnd
  {
    var week := Atoi(weekStr).value;
    var k := IdInTable(sectionId);
    assert MatchesConfig(c.sections[sectionId], SectionTable[k]);
    var g := GlobalWeek(c.sections[sectionId].weekStart, week);
    GlobalWeekInRow(k, week);
    assert SectionIdOfWeek(g) == sectionId;
  }

  /** Conversely, every lesson listed in a section is reachable through the route. */
  lemma SectionLessonComplete(c: Catalog, sectionId: string, i: nat)
    requires Valid(c) && sectionId in c.sections && i < |c.sections[sectionId].lessons|
    ensures var s := c.sections[sectionId];
            var l := s.lessons[i];
            var week := l.week - s.weekStart + 1;
            1 <= week <= WeeksPerSection &&
            SectionLesson(c, sectionId, NatToString(week)) == Success(c.lessons[l.week])
  {
    var s := c.sections[sectionId];
    var l := s.lessons[i];
    var k := IdInTable(sectionId);
    assert MatchesConfig(s, SectionTable[k]);
    TableRanges();
    assert InSection(l.week, s) && l.week in c.lessons;
    var week: nat := l.week - s.weekStart + 1;
    AtoiOfNatToString(week);
    assert GlobalWeek(s.weekStart, week) == l.week;
  }

  // ----- listing in week order: handleLessons -----

  /** The lessons stored at weeks 1..`hi`, in ascending week order. */
  function InWeekOrder(lessons: map<int, Lesson>, hi: int): seq<Lesson>
    decreases hi
  {
    if hi < 1 then [] else InWeekOrder(lessons, hi - 1) + (if hi in lessons then [lessons[hi]] else [])
  }

  /** `handleLessons`: walk the weeks 1..`bound` and collect the lessons present. */
  method ListLessons(lessons: map<int, Lesson>, bound: int) returns (r: seq<Lesson>)
    ensures r == InWeekOrder(lessons, bound)
  {
    r := [];
    var i := 1;
    while i <= bound
      invariant bound < 1 ==> i == 1
      invariant 1 <= i && (bound >= 1 ==> i <= bound + 1)
      invariant r == InWeekOrder(lessons, i - 1)
    {
      if i in lessons {
        r := r + [lessons[i]];
      }
      i := i + 1;
    }
  }

  /** The listing holds exactly the lessons stored at weeks 1..`hi`. */
  lemma {:induction false} InWeekOrderMembers(lessons: map<int, Lesson>, hi: int, l: Lesson)
    ensures l in InWeekOrder(lessons, hi) <==> exists w :: 1 <= w <= hi && w in lessons && lessons[w] == l
    decreases hi
  {
    if hi >= 1 {
      InWeekOrderMembers(lessons, hi - 1, l);
      if hi in lessons && lessons[hi] == l {
        assert l in InWeekOrder(lessons, hi);
      }
    }
  }

  /** Each week present contributes one lesson, so the listing is as long as the weeks present. */
  lemma {:induction false} InWeekOrderLength(lessons: map<int, Lesson>, hi: int)
    ensures |InWeekOrder(lessons, hi)| == |set w | w in lessons && 1 <= w <= hi|
    decreases hi
  {
    if hi >= 1 {
      InWeekOrderLength(lessons, hi - 1);
      var before := set w | w in lessons && 1 <= w <= hi - 1;
      var now := set w | w in lessons && 1 <= w <= hi;
      if hi in lessons {
        assert now == before + {hi};
      } else {
        assert now == before;
      }
    }
  }

  /** With lessons keyed by their own week, the listing's weeks are at most `hi`... */
  lemma {:induction false} InWeekOrderBounded(lessons: map<int, Lesson>, hi: int)
    requires KeyedByWeek(lessons)
    ensures forall i :: 0 <= i < |InWeekOrder(lessons, hi)| ==> 1 <= InWeekOrder(lessons, hi)[i].week <= hi
    decreases hi
  {
    if hi >= 1 {
      InWeekOrderBounded(lessons, hi - 1);
    }
  }

  predicate StrictlyAscendingWeeks(s: seq<Lesson>)
  {
    forall i, j :: 0 <= i < j < |s| ==> s[i].week < s[j].week
  }

  /** ...and strictly ascending. */
  lemma {:induction false} InWeekOrderAscending(lessons: map<int, Lesson>, hi: int)
    requires KeyedByWeek(lessons)
    ensures StrictlyAscendingWeeks(InWeekOrder(lessons, hi))
    decreases hi
  {
    if hi >= 1 {
      InWeekOrderAscending(lessons, hi - 1);
      InWeekOrderBounded(lessons, hi - 1);
      var pre := InWeekOrder(lessons, hi - 1);
      var r := InWeekOrder(lessons, hi);
      if hi in lessons {
        assert r == pre + [lessons[hi]];
        forall i, j | 0 <= i < j < |r| ensures r[i].week < r[j].week {
          if j == |pre| {
            assert r[j] == lessons[hi] && r[i] == pre[i];
            assert pre[i].week <= hi - 1;
          } else {
            assert r[i] == pre[i] && r[j] == pre[j];
          }
        }
      } else {
        assert r == pre;
      }
    }
  }

  // ----- the syllabus week list -----

  /** Each element is smaller than every later one. */
  predicate StrictlyAscending(s: seq<int>)
  {
    forall i, j :: 0 <= i < j < |s| ==> s[i] < s[j]
  }

  predicate Ascending(s: seq<int>)
  {
    forall i, j :: 0 <= i < j < |s| ==> s[i] <= s[j]
  }

  /** Insert `x` into an ascending list. */
  function InsertInt(x: int, s: seq<int>): (r: seq<int>)
    requires Ascending(s)
    ensures Ascending(r) && multiset(r) == multiset(s) + multiset{x}
    decreases |s|
  {
    if s == [] || x <= s[0] then [x] + s
    else
      var rest := InsertInt(x, s[1..]);
      assert s == [s[0]] + s[1..];
      HeadBelowInsertInt(x, s, rest);
      [s[0]] + rest
  }

  /** Every element of `rest` (`x` or one of `s[1..]`) is at least `s[0]`. */
  lemma HeadBelowInsertInt(x: int, s: seq<int>, rest: seq<int>)
    requires Ascending(s) && s != [] && s[0] <= x
    requires multiset(rest) == multiset(s[1..]) + multiset{x}
    ensures forall i :: 0 <= i < |rest| ==> s[0] <= rest[i]
  {
    forall i | 0 <= i < |rest| ensures s[0] <= rest[i] {
      assert rest[i] in multiset(rest);
      if rest[i] != x {
        assert rest[i] in multiset(s[1..]);
        var j :| 0 <= j < |s[1..]| && s[1..][j] == rest[i];
        assert s[j + 1] == rest[i];
      }
    }
  }

  /** `sort.Ints`: an ascending permutation of `s`. */
  function SortInts(s: seq<int>): (r: seq<int>)
    ensures Ascending(r) && multiset(r) == multiset(s)
    decreases |s|
  {
    if s == [] then []
    else
      assert s == [s[0]] + s[1..];
      InsertInt(s[0], SortInts(s[1..]))
  }

  /** Two equal entries of a sequence make its element count at least two. */
  lemma TwiceCounted(s: seq<int>, i: nat, j: nat)
    requires i < j < |s| && s[i] == s[j]
    ensures multiset(s)[s[i]] >= 2
  {
    assert s == s[..j] + s[j..];
    assert s[..j][i] == s[i];
    assert s[j..][0] == s[j];
    assert multiset(s) == multiset(s[..j]) + multiset(s[j..]);
  }

  /** A non-empty set has a member to pick. */
  lemma HasMember(s: set<int>)
    requires s != {}
    ensures exists x :: x in s
  {
    if !(exists x :: x in s) {
      assert false;
    }
  }

  /**
    `handleSyllabus`'s week list: the keys of the week map, appended in
    the map's (unspecified) iteration order, then sorted.
   */
  method SortedWeeks(lessons: map<int, Lesson>) returns (weeks: seq<int>)
    ensures StrictlyAscending(weeks)
    ensures forall w :: w in weeks <==> w in lessons
    ensures |weeks| == |lessons|
  {
    var collected: seq<int> := [];
    var rest := lessons.Keys;
    while rest != {}
      invariant rest <= lessons.Keys
      invariant forall w :: multiset(collected)[w] == if w in lessons && w !in rest then 1 else 0
      invariant |collected| + |rest| == |lessons.Keys|
      decreases |rest|
    {
      HasMember(rest);
      var week :| week in rest;
      collected := collected + [week];
      rest := rest - {week};
    }
    weeks := SortInts(collected);
    SortedOnce(collected, lessons.Keys);
  }

  /** Sorting a list that holds each key once gives the keys, strictly ascending. */
  lemma SortedOnce(collected: seq<int>, keys: set<int>)
    requires forall w :: multiset(collected)[w] == if w in keys then 1 else 0
    ensures var weeks := SortInts(collected);
            StrictlyAscending(weeks) && (forall w :: w in weeks <==> w in keys) && |weeks| == |collected|
  {
    var weeks := SortInts(collected);
    forall i, j | 0 <= i < j < |weeks| ensures weeks[i] < weeks[j] {
      if weeks[i] == weeks[j] {
        TwiceCounted(weeks, i, j);
      }
    }
    forall w ensures w in weeks <==> w in keys {
      assert w in weeks <==> multiset(weeks)[w] > 0;
    }
    assert |weeks| == |multiset(weeks)| == |multiset(collected)| == |collected|;
  }
}
