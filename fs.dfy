/**
 * The abstract filesystem that transactions run against, and the operating
 * system calls they make on it.
 *
 * A filesystem is a map from paths to nodes. Paths are looked up literally: a
 * final symlink is followed one level by the queries that follow links, but a
 * symlinked directory in the middle of a path is not. The two root paths ([] and
 * "/") always exist as directories and are never keys of the map. A set of
 * `unreachable` paths stands for entries whose metadata cannot be read (a
 * permission error): every query and every operation on them fails.
 */
module Fs {
  import opened Wrappers
  import opened Paths

  datatype Node = File(contents: seq<bv8>) | Symlink(target: Path) | Dir

  /** The failures of the operations of the model, each with the offending path. */
  datatype Error =
    | AlreadyExists(path: Path)
    | NotFound(path: Path)
    | NotADirectory(path: Path)
    | IsADirectory(path: Path)
    | DirectoryNotEmpty(path: Path)
    | PermissionDenied(path: Path)
    | Busy(path: Path)
    | UnreachablePath(path: Path)
    | NoParent(path: Path)
    | NotUnder(path: Path, prefix: Path)
    | External(reason: string)

  datatype Snapshot = Snapshot(nodes: map<Path, Node>, unreachable: set<Path>)

  /** The entry stored at `p`, the root paths being directories. */
  function At(nodes: map<Path, Node>, p: Path): Option<Node> {
    if IsRoot(p) then Some(Dir) else if p in nodes then Some(nodes[p]) else None
  }

  /** `symlink_metadata`: the entry itself, without following a symlink. */
  function Lookup(s: Snapshot, p: Path): Option<Node> {
    if p in s.unreachable then None else At(s.nodes, p)
  }

  /** `symlink_metadata(p).is_ok()` */
  predicate HasEntry(s: Snapshot, p: Path) {
    Lookup(s, p).Some?
  }

  /** `metadata`: the entry with a final symlink followed one level. */
  function Follow(s: Snapshot, p: Path): Option<Node> {
    match Lookup(s, p)
    case Some(Symlink(t)) =>
      (match Lookup(s, t)
       case Some(Symlink(_)) => None
       case other => other)
    case other => other
  }

  /** The three answers of `try_exists`. */
  datatype Probe = Present | Absent | Unknown

  /** `try_exists`: follows a final symlink; an unreadable entry is an error. */
  function TryExists(s: Snapshot, p: Path): Probe {
    if p in s.unreachable then Unknown
    else match At(s.nodes, p)
      case None => Absent
      case Some(Symlink(t)) =>
        if t in s.unreachable then Unknown else if Follow(s, p).Some? then Present else Absent
      case Some(_) => Present
  }

  /** `Path::is_file` (follows a symlink) */
  predicate IsFile(s: Snapshot, p: Path) {
    Follow(s, p).Some? && Follow(s, p).value.File?
  }

  /**
   * `Path::is_dir` (follows a symlink). The empty relative path is no
   * directory: its metadata cannot be read.
   */
  predicate IsDir(s: Snapshot, p: Path) {
    p != [] && Follow(s, p) == Some(Dir)
  }

  /** `Path::is_symlink` */
  predicate IsSymlink(s: Snapshot, p: Path) {
    Lookup(s, p).Some? && Lookup(s, p).value.Symlink?
  }

  /** Every stored entry hangs below a directory, and the root paths are not stored. */
  ghost predicate WellFormed(nodes: map<Path, Node>) {
    forall q :: q in nodes ==> !IsRoot(q) && At(nodes, q[..|q| - 1]) == Some(Dir)
  }

  /** `WalkDir::new(root)` without following links: the root and everything below it. */
  function Walk(s: Snapshot, root: Path): set<Path> {
    if HasEntry(s, root) then
      {root} + set q | q in s.nodes && q !in s.unreachable && StrictlyUnder(q, root)
    else {}
  }

  /** `read_dir`: the entries directly below `p`. */
  function Children(s: Snapshot, p: Path): set<Path> {
    set q | q in s.nodes && |q| == |p| + 1 && q[..|p|] == p
  }

  /** The checks shared by every call that creates an entry at `p`. */
  function CreationCheck(nodes: map<Path, Node>, unreachable: set<Path>, p: Path): (r: Option<Error>)
    ensures r.None? <==> p !in unreachable && !IsRoot(p) && p !in nodes && At(nodes, p[..|p| - 1]) == Some(Dir)
  {
    if p in unreachable then Some(PermissionDenied(p))
    else if At(nodes, p).Some? then Some(AlreadyExists(p))
    else match At(nodes, p[..|p| - 1])
      case None => Some(NotFound(p[..|p| - 1]))
      case Some(Dir) => None
      case Some(_) => Some(NotADirectory(p[..|p| - 1]))
  }

  /** `std::os::unix::fs::symlink(original, target)` */
  function SymlinkOp(s: Snapshot, original: Path, target: Path): Result<map<Path, Node>, Error> {
    match CreationCheck(s.nodes, s.unreachable, target)
    case Some(e) => Failure(e)
    case None => Success(s.nodes[target := Symlink(original)])
  }

  /**
   * `utils::copy_file_or_symlink(source, target)`: a file is copied with its
   * contents, a symlink is copied as a symlink to the same target. The helper is
   * not part of this model; it is taken to refuse an existing target.
   */
  function CopyOp(s: Snapshot, source: Path, target: Path): Result<map<Path, Node>, Error> {
    if source in s.unreachable then Failure(PermissionDenied(source))
    else match At(s.nodes, source)
      case None => Failure(NotFound(source))
      case Some(Dir) => Failure(IsADirectory(source))
      case Some(n) =>
        match CreationCheck(s.nodes, s.unreachable, target)
        case Some(e) => Failure(e)
        case None => Success(s.nodes[target := n])
  }

  /** `std::fs::remove_file`: removes a file or a symlink, never a directory. */
  function RemoveFileOp(s: Snapshot, p: Path): Result<map<Path, Node>, Error> {
    if p in s.unreachable then Failure(PermissionDenied(p))
    else match At(s.nodes, p)
      case None => Failure(NotFound(p))
      case Some(Dir) => Failure(IsADirectory(p))
      case Some(_) => Success(s.nodes - {p})
  }

  /** Some stored entry lies strictly below `p`. */
  predicate HasDescendant(nodes: map<Path, Node>, p: Path) {
    exists q :: q in nodes && StrictlyUnder(q, p)
  }

  /** `std::fs::remove_dir`: removes an empty directory (not a symlink to one). */
  function RemoveDirOp(s: Snapshot, p: Path): Result<map<Path, Node>, Error> {
    if p in s.unreachable then Failure(PermissionDenied(p))
    else match At(s.nodes, p)
      case None => Failure(NotFound(p))
      case Some(Dir) =>
        if IsRoot(p) then Failure(Busy(p))
        else if HasDescendant(s.nodes, p) then Failure(DirectoryNotEmpty(p))
        else Success(s.nodes - {p})
      case Some(_) => Failure(NotADirectory(p))
  }

  /**
   * `std::fs::create_dir_all`: creates `p` and every missing ancestor, or nothing.
   * As the standard library does, it first tries `p` itself, and walks up only
   * when the parent is missing.
   */
  function CreateDirAllOp(s: Snapshot, p: Path): (r: Result<map<Path, Node>, Error>)
    ensures r.Success? ==> At(r.value, p) == Some(Dir)
    ensures r.Success? ==> forall q :: q in s.nodes ==> q in r.value && r.value[q] == s.nodes[q]
    ensures r.Success? ==> forall q :: q in r.value && q !in s.nodes ==> StartsWith(p, q) && r.value[q] == Dir
    decreases |p|
  {
    if p in s.unreachable then Failure(PermissionDenied(p))
    else match At(s.nodes, p)
      case Some(Dir) => Success(s.nodes)
      case Some(_) => Failure(AlreadyExists(p))
      case None =>
        match At(s.nodes, p[..|p| - 1])
        case Some(Dir) => Success(s.nodes[p := Dir])
        case Some(_) => Failure(NotADirectory(p[..|p| - 1]))
        case None =>
          match CreateDirAllOp(s, p[..|p| - 1])
          case Failure(e) => Failure(e)
          case Success(n) => Success(n[p := Dir])
  }

  /** Whatever hangs below a path of a well-formed filesystem makes that path a directory. */
  lemma {:induction false} AncestorIsDir(nodes: map<Path, Node>, p: Path, q: Path)
    requires WellFormed(nodes)
    requires q in nodes && StrictlyUnder(q, p)
    ensures At(nodes, p) == Some(Dir)
    decreases |q|
  {
    var parent := q[..|q| - 1];
    assert At(nodes, parent) == Some(Dir);
    if !IsRoot(p) && |parent| != |p| {
      assert parent[..|p|] == p;
      assert |parent| >= 2;
      AncestorIsDir(nodes, p, parent);
    }
  }

  lemma SymlinkKeepsWellFormed(s: Snapshot, original: Path, target: Path)
    requires WellFormed(s.nodes)
    requires SymlinkOp(s, original, target).Success?
    ensures WellFormed(SymlinkOp(s, original, target).value)
  {
    var n := SymlinkOp(s, original, target).value;
    forall q | q in n ensures !IsRoot(q) && At(n, q[..|q| - 1]) == Some(Dir) {
      if q != target {
        assert At(s.nodes, q[..|q| - 1]) == Some(Dir);
      }
    }
  }

  lemma CopyKeepsWellFormed(s: Snapshot, source: Path, target: Path)
    requires WellFormed(s.nodes)
    requires CopyOp(s, source, target).Success?
    ensures WellFormed(CopyOp(s, source, target).value)
  {
    var n := CopyOp(s, source, target).value;
    forall q | q in n ensures !IsRoot(q) && At(n, q[..|q| - 1]) == Some(Dir) {
      if q != target {
        assert At(s.nodes, q[..|q| - 1]) == Some(Dir);
      }
    }
  }

  lemma RemoveFileKeepsWellFormed(s: Snapshot, p: Path)
    requires WellFormed(s.nodes)
    requires RemoveFileOp(s, p).Success?
    ensures WellFormed(RemoveFileOp(s, p).value)
  {
    var n := RemoveFileOp(s, p).value;
    forall q | q in n ensures !IsRoot(q) && At(n, q[..|q| - 1]) == Some(Dir) {
      assert At(s.nodes, q[..|q| - 1]) == Some(Dir);
    }
  }

  lemma RemoveDirKeepsWellFormed(s: Snapshot, p: Path)
    requires WellFormed(s.nodes)
    requires RemoveDirOp(s, p).Success?
    ensures WellFormed(RemoveDirOp(s, p).value)
  {
    var n := RemoveDirOp(s, p).value;
    forall q | q in n ensures !IsRoot(q) && At(n, q[..|q| - 1]) == Some(Dir) {
      assert At(s.nodes, q[..|q| - 1]) == Some(Dir);
      assert !StrictlyUnder(q, p);
    }
  }

  /** Adding a directory below an existing directory keeps the filesystem well formed. */
  lemma AddDirKeepsWellFormed(nodes: map<Path, Node>, p: Path)
    requires WellFormed(nodes) && !IsRoot(p) && At(nodes, p[..|p| - 1]) == Some(Dir)
    ensures WellFormed(nodes[p := Dir])
  {
    var n := nodes[p := Dir];
    forall q | q in n ensures !IsRoot(q) && At(n, q[..|q| - 1]) == Some(Dir) {
      if q != p {
        assert At(nodes, q[..|q| - 1]) == Some(Dir);
      }
    }
  }

  lemma {:induction false} CreateDirAllKeepsWellFormed(s: Snapshot, p: Path)
    requires WellFormed(s.nodes)
    requires CreateDirAllOp(s, p).Success?
    ensures WellFormed(CreateDirAllOp(s, p).value)
    decreases |p|
  {
    if At(s.nodes, p).None? {
      var parent := p[..|p| - 1];
      if At(s.nodes, parent).None? {
        CreateDirAllKeepsWellFormed(s, parent);
        var n := CreateDirAllOp(s, parent).value;
        assert At(n, parent) == Some(Dir);
        AddDirKeepsWellFormed(n, p);
      } else {
        AddDirKeepsWellFormed(s.nodes, p);
      }
    }
  }

  /** The one-call wrappers around the operations, for the state-changing code. */
  predicate Performed(before: map<Path, Node>, op: Result<map<Path, Node>, Error>,
                      after: map<Path, Node>, r: Result<Unit, Error>) {
    match op
    case Success(n) => after == n && r == Success(Unit)
    case Failure(e) => after == before && r == Failure(e)
  }

  /** The real filesystem, changed in place by the operating system calls. */
  class FileSystem {
    var nodes: map<Path, Node>
    const unreachable: set<Path>

    function View(): Snapshot
      reads this
    {
      Snapshot(nodes, unreachable)
    }

    constructor (nodes: map<Path, Node>, unreachable: set<Path>)
      ensures this.nodes == nodes && this.unreachable == unreachable
    {
      this.nodes := nodes;
      this.unreachable := unreachable;
    }

    method Perform(op: Result<map<Path, Node>, Error>) returns (r: Result<Unit, Error>)
      modifies this
      ensures Performed(old(nodes), op, nodes, r)
    {
      match op
      case Success(n) =>
        nodes := n;
        r := Success(Unit);
      case Failure(e) =>
        r := Failure(e);
    }

    method Symlink(original: Path, target: Path) returns (r: Result<Unit, Error>)
      modifies this
      ensures Performed(old(nodes), SymlinkOp(old(View()), original, target), nodes, r)
    {
      r := Perform(SymlinkOp(View(), original, target));
    }

    method CopyFileOrSymlink(source: Path, target: Path) returns (r: Result<Unit, Error>)
      modifies this
      ensures Performed(old(nodes), CopyOp(old(View()), source, target), nodes, r)
    {
      r := Perform(CopyOp(View(), source, target));
    }

    method RemoveFile(p: Path) returns (r: Result<Unit, Error>)
      modifies this
      ensures Performed(old(nodes), RemoveFileOp(old(View()), p), nodes, r)
    {
      r := Perform(RemoveFileOp(View(), p));
    }

    method RemoveDir(p: Path) returns (r: Result<Unit, Error>)
      modifies this
      ensures Performed(old(nodes), RemoveDirOp(old(View()), p), nodes, r)
    {
      r := Perform(RemoveDirOp(View(), p));
    }

    method CreateDirAll(p: Path) returns (r: Result<Unit, Error>)
      modifies this
      ensures Performed(old(nodes), CreateDirAllOp(old(View()), p), nodes, r)
    {
      r := Perform(CreateDirAllOp(View(), p));
    }
  }
}
