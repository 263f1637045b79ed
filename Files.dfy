/**
  The lessons directory as the servers see it: whether the directory exists,
  and its entries in the order `filepath.WalkDir` visits them (lexical order,
  a directory before what it holds). Paths are relative to the lessons
  directory, with `/` as the separator.
 */
module Files {
  import opened Wrappers
  import opened Text

  /** A modification time; the servers only carry it, never compare it. */
  datatype Time = Time(stamp: int)

  /** What `os.Stat` reports about a file. */
  datatype FileInfo = FileInfo(size: int, modTime: Time)

  /**
    One entry of the tree. A `File` whose `data` is `None` cannot be read
    (`os.ReadFile` fails), one whose `info` is `None` cannot be stat'ed.
    `Unreadable` is an entry on which the walk itself reports an error, a
    directory that cannot be listed for instance, so the walk stops there.
   */
  datatype Node = Dir | File(data: Option<string>, info: Option<FileInfo>) | Unreadable

  datatype Entry = Entry(path: string, node: Node)

  datatype FileSystem = FileSystem(rootExists: bool, entries: seq<Entry>)

  /** Drops trailing `/` characters. */
  function TrimTrailingSlashes(s: string): (r: string)
    ensures HasPrefix(s, r)
    ensures r == [] || r[|r| - 1] != '/'
    ensures forall i :: |r| <= i < |s| ==> s[i] == '/'
    decreases |s|
  {
    if |s| > 0 && s[|s| - 1] == '/' then TrimTrailingSlashes(s[..|s| - 1]) else s
  }

  /** The part of `s` after its last `/`, all of `s` if it has none. */
  function AfterLastSlash(s: string): (r: string)
    ensures HasSuffix(s, r)
    ensures forall i :: 0 <= i < |r| ==> r[i] != '/'
    ensures |r| < |s| ==> s[|s| - |r| - 1] == '/'
    decreases |s|
  {
    if s == [] then []
    else if s[|s| - 1] == '/' then []
    else AfterLastSlash(s[..|s| - 1]) + [s[|s| - 1]]
  }

  /**
    `filepath.Base`: the last element of a path, trailing separators removed;
    `.` for the empty path and `/` for a path of separators only.
   */
  function Base(path: string): (b: string)
    ensures b != []
    ensures path == [] ==> b == "."
    ensures b == "/" || forall i :: 0 <= i < |b| ==> b[i] != '/'
  {
    if path == [] then "."
    else
      var trimmed := TrimTrailingSlashes(path);
      var last := AfterLastSlash(trimmed);
      if last == [] then "/" else last
  }

  /** A path without separators is its own base name. */
  lemma BaseOfPlainName(name: string)
    requires name != [] && forall i :: 0 <= i < |name| ==> name[i] != '/'
    ensures Base(name) == name
  {
    assert TrimTrailingSlashes(name) == name;
    assert |AfterLastSlash(name)| == |name|;
  }

  /** The base name of `dir/name` is `name`. */
  lemma BaseOfJoin(dir: string, name: string)
    requires name != [] && forall i :: 0 <= i < |name| ==> name[i] != '/'
    ensures Base(dir + "/" + name) == name
  {
    var p := dir + "/" + name;
    assert TrimTrailingSlashes(p) == p;
    AfterLastSlashOfJoin(dir, name);
  }

  lemma {:induction false} AfterLastSlashOfJoin(dir: string, name: string)
    requires forall i :: 0 <= i < |name| ==> name[i] != '/'
    ensures AfterLastSlash(dir + "/" + name) == name
    decreases |name|
  {
    var p := dir + "/" + name;
    if name != [] {
      var n := |name| - 1;
      assert p[..|p| - 1] == dir + "/" + name[..n];
      AfterLastSlashOfJoin(dir, name[..n]);
      assert name == name[..n] + [name[n]];
    }
  }

  /** The walk's test for a lesson file: its base name ends in `.md`, in any case. */
  predicate IsMarkdownName(name: string)
  {
    HasSuffix(ToLower(name), ".md")
  }

  /** The name has no separator: the entry sits directly in the lessons directory. */
  predicate IsTopLevel(path: string)
  {
    forall i :: 0 <= i < |path| ==> path[i] != '/'
  }

  /** The entry is the directory `dir` itself or lies inside it. */
  predicate InDir(path: string, dir: string)
  {
    path == dir || HasPrefix(path, dir + "/")
  }

  /** `os.Stat` succeeds on `path` (a file, a directory or an unreadable entry). */
  predicate Exists(fs: FileSystem, path: string)
  {
    fs.rootExists && exists i :: 0 <= i < |fs.entries| && fs.entries[i].path == path
  }

  /** The node at `path`, if any: the first entry with that path. */
  function Lookup(entries: seq<Entry>, path: string): (r: Option<Node>)
    ensures r.None? <==> forall i :: 0 <= i < |entries| ==> entries[i].path != path
    ensures r.Some? ==> exists i :: 0 <= i < |entries| && entries[i] == Entry(path, r.value)
    decreases |entries|
  {
    if entries == [] then None
    else if entries[0].path == path then Some(entries[0].node)
    else
      var r := Lookup(entries[1..], path);
      assert forall i :: 1 <= i < |entries| ==> entries[i] == entries[1..][i - 1];
      r
  }

  /** The contents `os.ReadFile` returns for a node, if it can be read. */
  function ReadData(node: Node): (r: Option<string>)
    ensures r.Some? <==> node.File? && node.data.Some?
  {
    if node.File? then node.data else None
  }
}
