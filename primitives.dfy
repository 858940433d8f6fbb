/**
 * The filesystem primitives of the executing layer and what applying one does:
 * each application changes the filesystem and returns the inverse primitive
 * meant to restore the previous state.
 */
module Primitives {
  import opened Wrappers
  import opened Paths
  import opened Fs

  datatype FsPrimitive =
    | Link(original: Path, target: Path)
    | CopyFile(source: Path, target: Path)
    | RemoveFile(path: Path)
    | RemoveDir(path: Path)
    | TryCreateDirs(path: Path)
    | Nop

  /** The first path of `xs` that `try_exists` says definitely does not exist. */
  function FirstAbsent(s: Snapshot, xs: seq<Path>): (r: Option<Path>)
    ensures r.Some? ==> exists i :: 0 <= i < |xs| && xs[i] == r.value && TryExists(s, xs[i]) == Absent &&
                          forall j :: 0 <= j < i ==> TryExists(s, xs[j]) != Absent
    ensures r.None? <==> forall j :: 0 <= j < |xs| ==> TryExists(s, xs[j]) != Absent
  {
    if xs == [] then None
    else if TryExists(s, xs[0]) == Absent then Some(xs[0])
    else
      var r := FirstAbsent(s, xs[1..]);
      assert forall j :: 1 <= j < |xs| ==> xs[j] == xs[1..][j - 1];
      r
  }

  /** The filesystem after an application, and the inverse primitive or the error. */
  datatype Applied = Applied(nodes: map<Path, Node>, result: Result<FsPrimitive, Error>)

  /**
   * What `apply` does. `backupName` is the fresh name a removed file is backed
   * up under when there is a backup directory.
   */
  function ApplySpec(s: Snapshot, prim: FsPrimitive, backupDir: Option<Path>, backupName: string): Applied {
    match prim
    case Link(original, target) =>
      (match SymlinkOp(s, original, target)
       case Failure(e) => Applied(s.nodes, Failure(e))
       case Success(n) => Applied(n, Success(RemoveFile(target))))
    case CopyFile(source, target) =>
      if HasEntry(s, target) then Applied(s.nodes, Failure(AlreadyExists(target)))
      else
        (match CopyOp(s, source, target)
         case Failure(e) => Applied(s.nodes, Failure(e))
         case Success(n) => Applied(n, Success(RemoveFile(target))))
    case RemoveFile(path) =>
      (match backupDir
       case Some(dir) =>
         var backup := Join(dir, [backupName]);
         (match CopyOp(s, path, backup)
          case Failure(e) => Applied(s.nodes, Failure(e))
          case Success(n) =>
            (match RemoveFileOp(Snapshot(n, s.unreachable), path)
             case Failure(e) => Applied(n, Failure(e))
             case Success(n') => Applied(n', Success(CopyFile(backup, path)))))
       case None =>
         (match RemoveFileOp(s, path)
          case Failure(e) => Applied(s.nodes, Failure(e))
          case Success(n) => Applied(n, Success(Nop))))
    case RemoveDir(path) =>
      (match RemoveDirOp(s, path)
       case Failure(e) => Applied(s.nodes, Failure(e))
       case Success(n) => Applied(n, Success(TryCreateDirs(path))))
    case TryCreateDirs(path) =>
      if HasEntry(s, path) then Applied(s.nodes, Success(Nop))
      else
        var first := FirstAbsent(s, Ancestors(path));
        (match CreateDirAllOp(s, path)
         case Failure(e) => Applied(s.nodes, Failure(e))
         case Success(n) => Applied(n, Success(if first.Some? then RemoveDir(first.value) else Nop)))
    case Nop => Applied(s.nodes, Success(Nop))
  }

  /** `FsPrimitive::apply`, performed on the filesystem through its system calls. */
  method Apply(fs: FileSystem, prim: FsPrimitive, backupDir: Option<Path>, backupName: string)
    returns (r: Result<FsPrimitive, Error>)
    modifies fs
    ensures ApplySpec(old(fs.View()), prim, backupDir, backupName) == Applied(fs.nodes, r)
  {
    match prim
    case Link(original, target) =>
      var res := fs.Symlink(original, target);
      if res.Failure? {
        return Failure(res.error);
      }
      return Success(RemoveFile(target));
    case CopyFile(source, target) =>
      if HasEntry(fs.View(), target) {
        return Failure(AlreadyExists(target));
      }
      var res := fs.CopyFileOrSymlink(source, target);
      if res.Failure? {
        return Failure(res.error);
      }
      return Success(RemoveFile(target));
    case RemoveFile(path) =>
      var undo := Nop;
      if backupDir.Some? {
        var backup := Join(backupDir.value, [backupName]);
        var res := fs.CopyFileOrSymlink(path, backup);
        if res.Failure? {
          return Failure(res.error);
        }
        undo := CopyFile(backup, path);
      }
      var res := fs.RemoveFile(path);
      if res.Failure? {
        return Failure(res.error);
      }
      return Success(undo);
    case RemoveDir(path) =>
      var res := fs.RemoveDir(path);
      if res.Failure? {
        return Failure(res.error);
      }
      return Success(TryCreateDirs(path));
    case TryCreateDirs(path) =>
      if HasEntry(fs.View(), path) {
        return Success(Nop);
      }
      var first := FirstAbsent(fs.View(), Ancestors(path));
      var res := fs.CreateDirAll(path);
      if res.Failure? {
        return Failure(res.error);
      }
      if first.Some? {
        return Success(RemoveDir(first.value));
      }
      return Success(Nop);
    case Nop =>
      return Success(Nop);
  }

  /** Without a backup directory, the backup name plays no part. */
  lemma IgnoresNameWithoutBackup(s: Snapshot, prim: FsPrimitive, name: string, name': string)
    ensures ApplySpec(s, prim, None, name) == ApplySpec(s, prim, None, name')
  {
  }

  /** A failed application changes nothing, except that a removal may leave its backup copy behind. */
  lemma FailureChangesNothing(s: Snapshot, prim: FsPrimitive, backupDir: Option<Path>, backupName: string)
    requires ApplySpec(s, prim, backupDir, backupName).result.Failure?
    requires !(prim.RemoveFile? && backupDir.Some?)
    ensures ApplySpec(s, prim, backupDir, backupName).nodes == s.nodes
  {
  }

  /** `Link`: succeeds exactly when `target` can be created; then it is a symlink to `original`. */
  lemma LinkSemantics(s: Snapshot, original: Path, target: Path, backupDir: Option<Path>, backupName: string)
    ensures var a := ApplySpec(s, Link(original, target), backupDir, backupName);
      (a.result.Success? <==> target !in s.unreachable && !IsRoot(target) && target !in s.nodes &&
                               At(s.nodes, target[..|target| - 1]) == Some(Dir)) &&
      (a.result.Success? ==> a.nodes == s.nodes[target := Symlink(original)] && a.result.value == RemoveFile(target)) &&
      (a.result.Failure? ==> a.nodes == s.nodes)
  {
  }

  /** `CopyFile` refuses any existing entry at the target, a dangling symlink included. */
  lemma CopyRefusesExisting(s: Snapshot, source: Path, target: Path, backupDir: Option<Path>, backupName: string)
    requires HasEntry(s, target)
    ensures ApplySpec(s, CopyFile(source, target), backupDir, backupName) == Applied(s.nodes, Failure(AlreadyExists(target)))
  {
  }

  /** A successful `CopyFile` puts the copied entry at the target and returns `RemoveFile(target)`. */
  lemma CopySemantics(s: Snapshot, source: Path, target: Path, backupDir: Option<Path>, backupName: string)
    requires ApplySpec(s, CopyFile(source, target), backupDir, backupName).result.Success?
    ensures var a := ApplySpec(s, CopyFile(source, target), backupDir, backupName);
      target !in s.nodes && source in s.nodes && s.nodes[source] != Dir &&
      a.nodes == s.nodes[target := s.nodes[source]] && a.result.value == RemoveFile(target)
  {
  }

  /**
   * `RemoveFile` with a backup directory: the entry is copied to the backup path
   * first; when that fails nothing is removed. On success the entry sits at the
   * backup path only, and the inverse copies it back.
   */
  lemma RemoveWithBackupSemantics(s: Snapshot, path: Path, dir: Path, backupName: string)
    ensures var a := ApplySpec(s, RemoveFile(path), Some(dir), backupName);
      var backup := Join(dir, [backupName]);
      (CopyOp(s, path, backup).Failure? ==> a.nodes == s.nodes && a.result.Failure?) &&
      (a.result.Success? ==>
         path in s.nodes && s.nodes[path] != Dir && backup != path &&
         a.nodes == (s.nodes[backup := s.nodes[path]]) - {path} && a.result.value == CopyFile(backup, path))
  {
  }

  /** `RemoveFile` without a backup directory deletes the entry and has `Nop` as its inverse. */
  lemma RemoveWithoutBackupSemantics(s: Snapshot, path: Path, backupName: string)
    ensures var a := ApplySpec(s, RemoveFile(path), None, backupName);
      (a.result.Success? <==> path !in s.unreachable && !IsRoot(path) && path in s.nodes && s.nodes[path] != Dir) &&
      (a.result.Success? ==> a.nodes == s.nodes - {path} && a.result.value == Nop) &&
      (a.result.Failure? ==> a.nodes == s.nodes)
  {
  }

  /** `Nop` changes nothing and is its own inverse. */
  lemma NopSemantics(s: Snapshot, backupDir: Option<Path>, backupName: string)
    ensures ApplySpec(s, Nop, backupDir, backupName) == Applied(s.nodes, Success(Nop))
  {
  }

  /** `RemoveDir` deletes an empty directory and returns `TryCreateDirs` of it. */
  lemma RemoveDirSemantics(s: Snapshot, path: Path, backupDir: Option<Path>, backupName: string)
    ensures var a := ApplySpec(s, RemoveDir(path), backupDir, backupName);
      (a.result.Success? <==> path !in s.unreachable && !IsRoot(path) && path in s.nodes && s.nodes[path] == Dir &&
                               !HasDescendant(s.nodes, path)) &&
      (a.result.Success? ==> a.nodes == s.nodes - {path} && a.result.value == TryCreateDirs(path)) &&
      (a.result.Failure? ==> a.nodes == s.nodes)
  {
  }

  /** `TryCreateDirs` of a path that has an entry (of any kind) changes nothing. */
  lemma TryCreateExistingIsNop(s: Snapshot, path: Path, backupDir: Option<Path>, backupName: string)
    requires HasEntry(s, path)
    ensures ApplySpec(s, TryCreateDirs(path), backupDir, backupName) == Applied(s.nodes, Success(Nop))
  {
  }

  /**
   * `TryCreateDirs` of a missing, readable path: its inverse removes `path`
   * itself, the first entry of its ancestors, whatever else had to be created.
   */
  lemma TryCreateInverseIsDeepest(s: Snapshot, path: Path, backupDir: Option<Path>, backupName: string)
    requires path !in s.unreachable && !HasEntry(s, path)
    requires ApplySpec(s, TryCreateDirs(path), backupDir, backupName).result.Success?
    ensures ApplySpec(s, TryCreateDirs(path), backupDir, backupName).result.value == RemoveDir(path)
  {
    AncestorsAt(path, 0);
    assert TryExists(s, Ancestors(path)[0]) == Absent;
  }

  /** A readable, missing path below an existing directory is created alone. */
  lemma CreateOneLevel(s: Snapshot, path: Path)
    requires path !in s.unreachable && !IsRoot(path) && path !in s.nodes
    requires At(s.nodes, path[..|path| - 1]) == Some(Dir)
    ensures CreateDirAllOp(s, path) == Success(s.nodes[path := Dir])
  {
  }

  /** Applying a primitive, then its inverse (with no backup), gives back the filesystem it started from. */
  ghost predicate Restores(s: Snapshot, prim: FsPrimitive, backupDir: Option<Path>, backupName: string) {
    var a := ApplySpec(s, prim, backupDir, backupName);
    a.result.Success? ==>
      var b := ApplySpec(Snapshot(a.nodes, s.unreachable), a.result.value, None, backupName);
      b.result.Success? && b.nodes == s.nodes
  }

  /** As `apply` promises, the inverse of a link restores the previous state. */
  lemma LinkInverseRestores(s: Snapshot, original: Path, target: Path, backupDir: Option<Path>, backupName: string)
    ensures Restores(s, Link(original, target), backupDir, backupName)
  {
    var a := ApplySpec(s, Link(original, target), backupDir, backupName);
    if a.result.Success? {
      assert a.nodes - {target} == s.nodes;
    }
  }

  /** The inverse of a copy restores the previous state. */
  lemma CopyInverseRestores(s: Snapshot, source: Path, target: Path, backupDir: Option<Path>, backupName: string)
    ensures Restores(s, CopyFile(source, target), backupDir, backupName)
  {
    var a := ApplySpec(s, CopyFile(source, target), backupDir, backupName);
    if a.result.Success? {
      assert a.nodes - {target} == s.nodes;
    }
  }

  /** On a well-formed filesystem, the inverse of a directory removal recreates exactly that directory. */
  lemma RemoveDirInverseRestores(s: Snapshot, path: Path, backupDir: Option<Path>, backupName: string)
    requires WellFormed(s.nodes)
    ensures Restores(s, RemoveDir(path), backupDir, backupName)
  {
    RemoveDirSemantics(s, path, backupDir, backupName);
    var a := ApplySpec(s, RemoveDir(path), backupDir, backupName);
    if a.result.Success? {
      var rest := s.nodes - {path};
      assert a.nodes == rest;
      var parent := path[..|path| - 1];
      assert At(s.nodes, parent) == Some(Dir);
      assert parent != path;
      assert At(rest, parent) == Some(Dir);
      var s' := Snapshot(rest, s.unreachable);
      assert !HasEntry(s', path);
      CreateOneLevel(s', path);
      assert ApplySpec(s', TryCreateDirs(path), None, backupName).nodes == rest[path := Dir];
      assert rest[path := Dir] == s.nodes;
    }
  }

  /**
   * On a well-formed filesystem, the inverse of a removal with a backup, run
   * with no backup, brings the entry back; the backup copy stays behind, so
   * the result is the previous state plus that copy.
   */
  lemma RemoveWithBackupInverseRestores(s: Snapshot, path: Path, dir: Path, backupName: string)
    requires WellFormed(s.nodes)
    ensures var a := ApplySpec(s, RemoveFile(path), Some(dir), backupName);
      var backup := Join(dir, [backupName]);
      a.result.Success? ==>
        var b := ApplySpec(Snapshot(a.nodes, s.unreachable), a.result.value, None, backupName);
        backup !in s.nodes && b.result.Success? && b.nodes == s.nodes[backup := s.nodes[path]] &&
        b.nodes - {backup} == s.nodes
  {
    RemoveWithBackupSemantics(s, path, dir, backupName);
    var a := ApplySpec(s, RemoveFile(path), Some(dir), backupName);
    var backup := Join(dir, [backupName]);
    if a.result.Success? {
      var e := s.nodes[path];
      assert CopyOp(s, path, backup).Success?;
      assert backup !in s.nodes && backup !in s.unreachable;
      var parent := path[..|path| - 1];
      assert At(s.nodes, parent) == Some(Dir);
      assert parent != backup && parent != path;
      assert At(a.nodes, parent) == Some(Dir);
      var s' := Snapshot(a.nodes, s.unreachable);
      assert !HasEntry(s', path);
      assert CopyOp(s', backup, path) == Success(a.nodes[path := e]);
      assert a.nodes[path := e] == s.nodes[backup := e];
      assert s.nodes[backup := e] - {backup} == s.nodes;
    }
  }

  /**
   * Without a backup directory a successful file removal cannot be undone:
   * its `Nop` inverse leaves the entry deleted.
   */
  lemma RemoveWithoutBackupLosesEntry(s: Snapshot, path: Path, backupName: string)
    ensures ApplySpec(s, RemoveFile(path), None, backupName).result.Success? ==>
      !Restores(s, RemoveFile(path), None, backupName)
  {
    RemoveWithoutBackupSemantics(s, path, backupName);
    var a := ApplySpec(s, RemoveFile(path), None, backupName);
    if a.result.Success? {
      NopSemantics(Snapshot(a.nodes, s.unreachable), None, backupName);
      assert path !in a.nodes;
    }
  }

  /**
   * The inverse of a directory creation restores the previous state when the
   * path existed already or its parent was an existing directory.
   */
  lemma TryCreateInverseRestores(s: Snapshot, path: Path, backupDir: Option<Path>, backupName: string)
    requires WellFormed(s.nodes)
    requires HasEntry(s, path) || (!IsRoot(path) && At(s.nodes, path[..|path| - 1]) == Some(Dir))
    ensures Restores(s, TryCreateDirs(path), backupDir, backupName)
  {
    var a := ApplySpec(s, TryCreateDirs(path), backupDir, backupName);
    if a.result.Success? && !HasEntry(s, path) {
      CreateOneLevel(s, path);
      TryCreateInverseIsDeepest(s, path, backupDir, backupName);
      assert !HasDescendant(a.nodes, path) by {
        forall q | q in a.nodes ensures !StrictlyUnder(q, path) {
          if StrictlyUnder(q, path) {
            AncestorIsDir(s.nodes, path, q);
          }
        }
      }
      assert a.nodes - {path} == s.nodes;
    }
  }

  /**
   * The deepest-only inverse of `TryCreateDirs`: when the parent was missing too,
   * creating then undoing leaves the parent behind.
   */
  lemma TryCreateUndoLeavesParent(s: Snapshot, path: Path, backupName: string)
    requires WellFormed(s.nodes)
    requires |path| >= 1 && !IsRoot(path[..|path| - 1])
    requires path !in s.unreachable && path[..|path| - 1] !in s.unreachable
    requires path !in s.nodes && path[..|path| - 1] !in s.nodes
    requires ApplySpec(s, TryCreateDirs(path), None, backupName).result.Success?
    ensures var a := ApplySpec(s, TryCreateDirs(path), None, backupName);
      var b := ApplySpec(Snapshot(a.nodes, s.unreachable), a.result.value, None, backupName);
      b.result.Success? && path[..|path| - 1] in b.nodes && b.nodes != s.nodes
  {
    var parent := path[..|path| - 1];
    TryCreateInverseIsDeepest(s, path, None, backupName);
    var a := ApplySpec(s, TryCreateDirs(path), None, backupName);
    assert parent in a.nodes by {
      assert At(a.nodes, path) == Some(Dir);
    }
    assert !HasDescendant(a.nodes, path) by {
      forall q | q in a.nodes ensures !StrictlyUnder(q, path) {
        if q !in s.nodes {
          assert StartsWith(path, q);
        } else if StrictlyUnder(q, path) {
          AncestorIsDir(s.nodes, path, q);
        }
      }
    }
  }

  /** Every application keeps the filesystem well formed. */
  lemma ApplyKeepsWellFormed(s: Snapshot, prim: FsPrimitive, backupDir: Option<Path>, backupName: string)
    requires WellFormed(s.nodes)
    ensures WellFormed(ApplySpec(s, prim, backupDir, backupName).nodes)
  {
    match prim
    case Link(o, t) =>
      if SymlinkOp(s, o, t).Success? { SymlinkKeepsWellFormed(s, o, t); }
    case CopyFile(src, t) =>
      if !HasEntry(s, t) && CopyOp(s, src, t).Success? { CopyKeepsWellFormed(s, src, t); }
    case RemoveFile(p) =>
      if backupDir.Some? {
        var backup := Join(backupDir.value, [backupName]);
        if CopyOp(s, p, backup).Success? {
          CopyKeepsWellFormed(s, p, backup);
          var s1 := Snapshot(CopyOp(s, p, backup).value, s.unreachable);
          if RemoveFileOp(s1, p).Success? { RemoveFileKeepsWellFormed(s1, p); }
        }
      } else if RemoveFileOp(s, p).Success? {
        RemoveFileKeepsWellFormed(s, p);
      }
    case RemoveDir(p) =>
      if RemoveDirOp(s, p).Success? { RemoveDirKeepsWellFormed(s, p); }
    case TryCreateDirs(p) =>
      if !HasEntry(s, p) && CreateDirAllOp(s, p).Success? { CreateDirAllKeepsWellFormed(s, p); }
    case Nop =>
  }
}
