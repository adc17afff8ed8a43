/** A model of the operating system's file tree as far as the downloader uses it:
    a map from path to file contents and a set of directory paths. Paths are
    '/'-separated strings; the empty path names nothing. */
module FileSystem {
  import opened Wrappers

  newtype byte = b: int | 0 <= b < 256

  type Path = string

  /** What a regular file holds: raw bytes, or text written as characters. */
  datatype Contents = Bytes(data: seq<byte>) | Text(text: string)

  datatype FsState = FsState(files: map<Path, Contents>, dirs: set<Path>)

  /** The error kinds the model's operating system reports. */
  datatype OsError = NoSuchFileOrDirectory | IsADirectory | NotADirectory

  /** The state after an operation, and the error it returned if any. */
  datatype Effect<E> = Effect(after: FsState, outcome: Outcome<E>)

  /** `os.Stat` finds something at `p`: a file or a directory. */
  predicate Present(st: FsState, p: Path) {
    p in st.files || p in st.dirs
  }

  /** No path is both a file and a directory, and the empty path is neither. */
  predicate Consistent(st: FsState) {
    st.files.Keys !! st.dirs && "" !in st.files && "" !in st.dirs
  }

  /** `after` differs from `st` at most in the file stored at `path`. */
  predicate OnlyTouches(st: FsState, after: FsState, path: Path) {
    after.dirs == st.dirs && after.files - {path} == st.files - {path}
  }

  /** The index of the last '/' in `p`, or -1. */
  function LastSlash(p: Path): (k: int)
    ensures -1 <= k < |p|
    ensures k >= 0 ==> p[k] == '/'
    ensures forall i :: k < i < |p| ==> p[i] != '/'
  {
    if p == [] then -1
    else if p[|p| - 1] == '/' then |p| - 1
    else LastSlash(p[..|p| - 1])
  }

  /** The directory part of `p`; "" when `p` has no '/' or sits right under the root. */
  function Parent(p: Path): Path {
    var k := LastSlash(p);
    if k < 0 then "" else p[..k]
  }

  /** The directory a new file at `p` would go into exists ("" stands for the working
      directory or the root, which always exist). */
  predicate ParentPresent(st: FsState, p: Path) {
    Parent(p) == "" || Parent(p) in st.dirs
  }

  /** `dir` and each of its ancestors, every prefix that ends just before a '/'. */
  function Lineage(dir: Path): (l: set<Path>)
    ensures dir != "" ==> dir in l
    ensures "" !in l
    ensures forall p :: p in l ==> |p| <= |dir|
  {
    var l := set i | 0 < i <= |dir| && (i == |dir| || dir[i] == '/') :: dir[..i];
    assert dir != "" ==> dir[..|dir|] in l && dir[..|dir|] == dir;
    l
  }

  /** The members of Lineage(dir) are exactly `dir` and the non-empty prefixes of `dir`
      that end just before one of its '/'. */
  lemma LineageIsAncestors(dir: Path, p: Path)
    ensures p in Lineage(dir) <==>
      p != "" && (p == dir || (|p| < |dir| && dir[..|p|] == p && dir[|p|] == '/'))
  {
    if p != "" && (p == dir || (|p| < |dir| && dir[..|p|] == p && dir[|p|] == '/')) {
      assert dir[..|p|] == p;
    }
  }

  /** `os.Create`: an empty regular file at `path`, truncating one that is there. */
  function CreateEffect(st: FsState, path: Path): Effect<OsError> {
    if path in st.dirs then Effect(st, Fail(IsADirectory))
    else if path == "" || !ParentPresent(st, path) then Effect(st, Fail(NoSuchFileOrDirectory))
    else Effect(st.(files := st.files[path := Bytes([])]), Pass)
  }

  /** `os.MkdirAll`: `dir` and all its missing ancestors become directories, unless
      one of them is a regular file. */
  function MkdirAllEffect(st: FsState, dir: Path): Effect<OsError> {
    if dir == "" then Effect(st, Fail(NoSuchFileOrDirectory))
    else if Lineage(dir) !! st.files.Keys then Effect(st.(dirs := st.dirs + Lineage(dir)), Pass)
    else Effect(st, Fail(NotADirectory))
  }

  /** Creating a file keeps the tree consistent, and either changes nothing or adds
      exactly the empty file at `path`. */
  lemma CreatePreservesConsistency(st: FsState, path: Path)
    requires Consistent(st)
    ensures var e := CreateEffect(st, path);
      && Consistent(e.after)
      && OnlyTouches(st, e.after, path)
      && (e.outcome.Pass? <==> path !in st.dirs && path != "" && ParentPresent(st, path))
      && (e.outcome.Pass? ==> e.after.files[path] == Bytes([]))
      && (e.outcome.Fail? ==> e.after == st)
  {
  }

  /** MkdirAll keeps the tree consistent, never changes a file, and on success leaves
      `dir` a directory. */
  lemma MkdirAllPreservesConsistency(st: FsState, dir: Path)
    requires Consistent(st)
    ensures var e := MkdirAllEffect(st, dir);
      && Consistent(e.after)
      && e.after.files == st.files
      && st.dirs <= e.after.dirs
      && e.after.dirs <= st.dirs + Lineage(dir)
      && (e.outcome.Pass? ==> dir in e.after.dirs)
      && (e.outcome.Fail? ==> e.after == st)
  {
  }

  /** The part of `a + "/" + b` before its last '/' is `a` when `b` has no '/'. */
  lemma {:induction false} ParentOfJoined(a: Path, b: Path)
    requires '/' !in b
    ensures Parent(a + "/" + b) == a
    decreases |b|
  {
    var p := a + "/" + b;
    if b == [] {
      assert p[|p| - 1] == '/';
      assert p[..|a|] == a;
    } else {
      assert p[..|p| - 1] == a + "/" + b[..|b| - 1];
      assert p[|p| - 1] == b[|b| - 1];
      ParentOfJoined(a, b[..|b| - 1]);
    }
  }

  /** The machine's file tree. */
  class FileTree {
    var files: map<Path, Contents>
    var dirs: set<Path>

    function State(): FsState
      reads this
    {
      FsState(files, dirs)
    }

    constructor (st: FsState)
      ensures State() == st
    {
      files := st.files;
      dirs := st.dirs;
    }

    method Create(path: Path) returns (err: Outcome<OsError>)
      modifies this
      ensures Effect(State(), err) == CreateEffect(old(State()), path)
    {
      if path in dirs {
        return Fail(IsADirectory);
      }
      if path == "" || !ParentPresent(State(), path) {
        return Fail(NoSuchFileOrDirectory);
      }
      files := files[path := Bytes([])];
      return Pass;
    }

    /** Writes through an open file: the file at `path` now holds `c`. */
    method Write(path: Path, c: Contents)
      requires path in files
      modifies this
      ensures State() == old(State()).(files := old(files)[path := c])
    {
      files := files[path := c];
    }

    method MkdirAll(dir: Path) returns (err: Outcome<OsError>)
      modifies this
      ensures Effect(State(), err) == MkdirAllEffect(old(State()), dir)
    {
      if dir == "" {
        return Fail(NoSuchFileOrDirectory);
      }
      var lineage := Lineage(dir);
      if lineage !! files.Keys {
        dirs := dirs + lineage;
        return Pass;
      }
      return Fail(NotADirectory);
    }
  }
}
