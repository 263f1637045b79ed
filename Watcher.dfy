/**
  The file-watcher rule shared by the sectioned and the flat server: which
  change events reload the course file and which ones rescan the lessons.
 */
module Watcher {
  import opened Text

  /** The operations an `fsnotify` event can carry. */
  datatype Op = Create | Write | Remove | Rename | Chmod

  datatype Event = Event(name: string, ops: set<Op>)

  /** What the watcher does with one event. */
  datatype Reaction = Reaction(reloadCourse: bool, rescan: bool)

  const Idle := Reaction(false, false)

  predicate WritesOrCreates(e: Event) { Write in e.ops || Create in e.ops }

  /** The lower-cased name ends in `.md`, `.yaml` or `.yml`. */
  predicate Watched(name: string)
  {
    var lower := ToLower(name);
    HasSuffix(lower, ".md") || HasSuffix(lower, ".yaml") || HasSuffix(lower, ".yml")
  }

  /** The raw name, case and all, mentions a course file. */
  predicate NamesCourseFile(name: string)
  {
    Contains(name, "course.yaml") || Contains(name, "course.yml")
  }

  /** A write or a creation of a watched file: the only events that do anything. */
  predicate Acts(e: Event) { WritesOrCreates(e) && Watched(e.name) }

  /**
    The body of the event case of `startFileWatcher`: an acting event
    reloads the course when its name mentions a course file and rescans
    the lessons when its lower-cased name ends in `.md`.
   */
  function React(e: Event): (r: Reaction)
    ensures r.reloadCourse <==> Acts(e) && NamesCourseFile(e.name)
    ensures r.rescan <==> WritesOrCreates(e) && HasSuffix(ToLower(e.name), ".md")
    ensures r.rescan ==> Acts(e)
  {
    if Acts(e) then Reaction(NamesCourseFile(e.name), HasSuffix(ToLower(e.name), ".md")) else Idle
  }

  /** Removals, renames and mode changes alone never reload or rescan anything. */
  lemma OnlyWritesReact(e: Event)
    requires e.ops <= {Remove, Rename, Chmod}
    ensures React(e) == Idle
  {
    assert Write !in e.ops && Create !in e.ops;
  }

  /** Lower-casing a string keeps its suffix `p`, lower-cased. */
  lemma LowerSuffix(s: string, p: string)
    requires HasSuffix(s, p)
    ensures HasSuffix(ToLower(s), ToLower(p))
  {
    var n := |s| - |p|;
    assert forall k :: 0 <= k < |p| ==> ToLower(s)[n..][k] == LowerChar(s[n + k]) == LowerChar(p[k]);
  }

  /** A string ending in `p` ends in every suffix of `p`. */
  lemma SuffixOfSuffix(s: string, p: string, q: string)
    requires HasSuffix(s, p) && HasSuffix(p, q)
    ensures HasSuffix(s, q)
  {
    assert s[|s| - |q|..] == s[|s| - |p|..][|p| - |q|..];
  }

  /** A string without the first character of `p` does not contain `p`. */
  lemma {:induction false} MissingInitial(s: string, p: string)
    requires p != [] && forall k :: 0 <= k < |s| ==> s[k] != p[0]
    ensures !Contains(s, p)
    decreases |s|
  {
    if |s| > 0 {
      assert !HasPrefix(s, p) by { if |p| <= |s| { assert s[..|p|][0] == s[0]; } }
      MissingInitial(s[1..], p);
    }
  }

  lemma LowerLiterals()
    ensures ToLower(".md") == ".md" && ToLower("course.yaml") == "course.yaml"
    ensures ToLower("Course.yaml") == "course.yaml"
  {
  }

  /** A file named `course.yaml.md` reloads the course and rescans the lessons. */
  lemma BothFire(dir: string, ops: set<Op>)
    requires Write in ops || Create in ops
    ensures React(Event(dir + "course.yaml.md", ops)) == Reaction(true, true)
  {
    var name := dir + "course.yaml.md";
    assert name[|dir|..|dir| + |"course.yaml"|] == "course.yaml";
    ContainsOfOccursAt(name, "course.yaml", |dir|);
    assert HasSuffix(name, ".md");
    LowerLiterals();
    LowerSuffix(name, ".md");
  }

  /** Writing `course.yaml` reloads the course but does not rescan the lessons. */
  lemma CourseFileOnly(dir: string, ops: set<Op>)
    requires Write in ops || Create in ops
    ensures React(Event(dir + "course.yaml", ops)) == Reaction(true, false)
  {
    var name := dir + "course.yaml";
    assert name[|dir|..|dir| + |"course.yaml"|] == "course.yaml";
    ContainsOfOccursAt(name, "course.yaml", |dir|);
    assert HasSuffix(name, "course.yaml");
    LowerLiterals();
    LowerSuffix(name, "course.yaml");
    SuffixOfSuffix(ToLower(name), "course.yaml", ".yaml");
    assert ToLower(name)[|name| - 3..] == "aml";
  }

  /**
    `Course.yaml` is watched (its lower case ends in `.yaml`) but does not
    reload the course: the name test is case-sensitive.
   */
  lemma CapitalizedCourseFile(dir: string, ops: set<Op>)
    requires Write in ops || Create in ops
    requires forall k :: 0 <= k < |dir| ==> dir[k] != 'c'
    ensures Acts(Event(dir + "Course.yaml", ops))
    ensures React(Event(dir + "Course.yaml", ops)) == Idle
  {
    var name := dir + "Course.yaml";
    assert HasSuffix(name, "Course.yaml");
    LowerLiterals();
    LowerSuffix(name, "Course.yaml");
    SuffixOfSuffix(ToLower(name), "course.yaml", ".yaml");
    assert ToLower(name)[|name| - 3..] == "aml";
    assert forall k :: 0 <= k < |name| ==> name[k] != 'c' by {
      forall k | 0 <= k < |name| ensures name[k] != 'c' {
        if k >= |dir| {
          assert name[k] == "Course.yaml"[k - |dir|];
        }
      }
    }
    MissingInitial(name, "course.yaml");
    MissingInitial(name, "course.yml");
  }
}
