/**
  `loadCourseInfo`: which course file a server reads, and the course it ends
  up with. The sectioned and the flat server look for `course.yaml` and then
  `course.yml`; the minimal server looks for `course.yaml` only. Each falls
  back to its own built-in course when no file exists.
 */
module Courses {
  import opened Wrappers
  import opened Files

  datatype Course = Course(
    title: string,
    description: string,
    duration: string,
    instructor: string,
    requirements: seq<string>)

  /** The zero value a server starts with before its first load. */
  const NoCourse: Course := Course("", "", "", "", [])

  /**
    `yaml.Unmarshal(data, &s.course)`: the course after decoding `data`
    into the current one (fields the document sets replace the current
    ones), or `None` when decoding fails. The YAML library is not part of
    this model; it is a parameter.
   */
  type CourseDecoder = (Course, string) -> Option<Course>

  datatype CourseError = ReadFailed | ParseFailed

  const DefaultRequirements: seq<string> := [
    "Build and maintain websites.",
    "Work with stakeholders to create websites.",
    "Research, assess, and appropriately apply emerging technology to support websites as needed in industry.",
    "Comply with the ethics related to the use of copyrighted materials and intellectual property rights.",
    "Demonstrate an entrepreneurial approach to web development sites and pages.",
    "Manage career goals through creating effective resumes/CVs, developing interviewing skills, and setting goals."
  ]

  /** The built-in course of the sectioned server. */
  const SectionedDefault: Course := Course(
    "Web Application Developer Certificate",
    "A comprehensive program covering web development fundamentals",
    "48 weeks (4 sections)",
    "Course Instructor",
    DefaultRequirements)

  /** The built-in course of the flat server: the same, but announced as ten weeks. */
  const EmbeddedDefault: Course := SectionedDefault.(duration := "10 weeks")

  /** The built-in course of the minimal server, which has no requirements field. */
  const MinimalDefault: Course := Course(
    "Programming Fundamentals",
    "A comprehensive 10-week course covering programming fundamentals",
    "10 weeks",
    "Course Instructor",
    [])

  const YamlName: string := "course.yaml"
  const YmlName: string := "course.yml"

  /** The names the sectioned and the flat server try, in order. */
  const BothNames: seq<string> := [YamlName, YmlName]

  /** The names the minimal server tries. */
  const YamlOnly: seq<string> := [YamlName]

  /** The index of the first of `names`, from `k` on, that `os.Stat` finds. */
  function FirstExisting(fs: FileSystem, names: seq<string>, k: nat): (r: Option<nat>)
    requires k <= |names|
    ensures r.Some? ==> k <= r.value < |names| && Exists(fs, names[r.value]) &&
                        forall j :: k <= j < r.value ==> !Exists(fs, names[j])
    ensures r.None? ==> forall j :: k <= j < |names| ==> !Exists(fs, names[j])
    decreases |names| - k
  {
    if k == |names| then None
    else if Exists(fs, names[k]) then Some(k)
    else FirstExisting(fs, names, k + 1)
  }

  /** A name `os.Stat` finds has an entry. */
  lemma LookupOfExisting(fs: FileSystem, path: string)
    requires Exists(fs, path)
    ensures Lookup(fs.entries, path).Some?
  {
  }

  /** Reading and decoding the course file found at `node`. */
  function CourseFromFile(node: Node, current: Course, decode: CourseDecoder): (r: Result<Course, CourseError>)
    ensures r.Failure? <==> ReadData(node).None? || decode(current, ReadData(node).value).None?
    ensures ReadData(node).None? ==> r == Failure(ReadFailed)
    ensures r.Success? ==> r.value == decode(current, ReadData(node).value).value
  {
    match ReadData(node)
    case None => Failure(ReadFailed)
    case Some(data) =>
      match decode(current, data)
      case None => Failure(ParseFailed)
      case Some(c) => Success(c)
  }

  /**
    The outcome of `loadCourseInfo` for a server that tries `names` and
    falls back to `fallback`: the new course, or the error it returns.
   */
  function LoadedCourse(fs: FileSystem, names: seq<string>, fallback: Course, current: Course, decode: CourseDecoder)
    : Result<Course, CourseError>
  {
    match FirstExisting(fs, names, 0)
    case None => Success(fallback)
    case Some(k) =>
      LookupOfExisting(fs, names[k]);
      CourseFromFile(Lookup(fs.entries, names[k]).value, current, decode)
  }

  /** With none of the names present the built-in course is loaded, without error. */
  lemma DefaultWhenMissing(fs: FileSystem, names: seq<string>, fallback: Course, current: Course, decode: CourseDecoder)
    requires forall j :: 0 <= j < |names| ==> !Exists(fs, names[j])
    ensures LoadedCourse(fs, names, fallback, current, decode) == Success(fallback)
  {
    assert FirstExisting(fs, names, 0) == None;
  }

  /** A missing lessons directory has no course file either. */
  lemma DefaultWithoutRoot(fs: FileSystem, names: seq<string>, fallback: Course, current: Course, decode: CourseDecoder)
    requires !fs.rootExists
    ensures LoadedCourse(fs, names, fallback, current, decode) == Success(fallback)
  {
    DefaultWhenMissing(fs, names, fallback, current, decode);
  }

  /**
    Otherwise the first name present is read: a file that cannot be read
    is a read error, one that does not decode a parse error, and the
    course is what decoding gives.
   */
  lemma FirstPresentIsRead(fs: FileSystem, names: seq<string>, k: nat, fallback: Course, current: Course,
                           decode: CourseDecoder)
    requires k < |names| && Exists(fs, names[k])
    requires forall j :: 0 <= j < k ==> !Exists(fs, names[j])
    ensures var node := Lookup(fs.entries, names[k]).value;
            LoadedCourse(fs, names, fallback, current, decode) == CourseFromFile(node, current, decode)
  {
    var r := FirstExisting(fs, names, 0);
    assert r == Some(k);
  }

  /** When both files exist, `course.yaml` wins. */
  lemma YamlBeforeYml(fs: FileSystem, fallback: Course, current: Course, decode: CourseDecoder)
    requires Exists(fs, YamlName)
    ensures LoadedCourse(fs, BothNames, fallback, current, decode)
            == CourseFromFile(Lookup(fs.entries, YamlName).value, current, decode)
  {
    FirstPresentIsRead(fs, BothNames, 0, fallback, current, decode);
  }

  /** `course.yml` is read by the sectioned and the flat server when `course.yaml` is absent... */
  lemma YmlFallback(fs: FileSystem, fallback: Course, current: Course, decode: CourseDecoder)
    requires !Exists(fs, YamlName) && Exists(fs, YmlName)
    ensures LoadedCourse(fs, BothNames, fallback, current, decode)
            == CourseFromFile(Lookup(fs.entries, YmlName).value, current, decode)
  {
    FirstPresentIsRead(fs, BothNames, 1, fallback, current, decode);
  }

  /** ...and ignored by the minimal server, which then uses its built-in course. */
  lemma MinimalIgnoresYml(fs: FileSystem, current: Course, decode: CourseDecoder)
    requires !Exists(fs, YamlName)
    ensures LoadedCourse(fs, YamlOnly, MinimalDefault, current, decode) == Success(MinimalDefault)
  {
    DefaultWhenMissing(fs, YamlOnly, MinimalDefault, current, decode);
  }

  /**
    `loadCourseInfo` as the source writes it: stat `course.yaml`, then
    (when `tryYml`) `course.yml`, and fall back to the built-in course;
    otherwise read the file and decode it into the current course.
   */
  method LoadCourse(fs: FileSystem, tryYml: bool, fallback: Course, current: Course, decode: CourseDecoder)
    returns (r: Result<Course, CourseError>)
    ensures r == LoadedCourse(fs, if tryYml then BothNames else YamlOnly, fallback, current, decode)
  {
    ghost var names := if tryYml then BothNames else YamlOnly;
    var courseFile := YamlName;
    if !Exists(fs, courseFile) {
      if !tryYml {
        DefaultWhenMissing(fs, names, fallback, current, decode);
        return Success(fallback);
      }
      courseFile := YmlName;
      if !Exists(fs, courseFile) {
        DefaultWhenMissing(fs, names, fallback, current, decode);
        return Success(fallback);
      }
      FirstPresentIsRead(fs, names, 1, fallback, current, decode);
    } else {
      FirstPresentIsRead(fs, names, 0, fallback, current, decode);
    }
    LookupOfExisting(fs, courseFile);
    var node := Lookup(fs.entries, courseFile).value;
    if !(node.File? && node.data.Some?) {
      return Failure(ReadFailed);
    }
    var data := node.data.value;
    var decoded := decode(current, data);
    if decoded.None? {
      return Failure(ParseFailed);
    }
    return Success(decoded.value);
  }
}
