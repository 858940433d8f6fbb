/**
 * Running a transaction: primitives are applied in order until one fails,
 * collecting their inverses; the atomic run rolls back with those inverses
 * when anything fails.
 */
module TxApply {
  import opened Wrappers
  import opened Paths
  import opened Fs
  import opened Primitives
  import B = TxBuilding
  import R = TxResults

  /** The builder's `CreateDir` is executed as `TryCreateDirs`. */
  function Raise(p: B.Primitive): FsPrimitive {
    match p
    case Link(o, t) => Link(o, t)
    case CopyFile(src, t) => CopyFile(src, t)
    case RemoveFile(t) => RemoveFile(t)
    case RemoveDir(t) => RemoveDir(t)
    case CreateDir(t) => TryCreateDirs(t)
    case Nop => Nop
  }

  /** An inverse is planned in the undo builder as the builder primitive that executes as it. */
  function Lower(p: FsPrimitive): (r: B.Primitive)
    ensures Raise(r) == p
  {
    match p
    case Link(o, t) => B.Link(o, t)
    case CopyFile(src, t) => B.CopyFile(src, t)
    case RemoveFile(t) => B.RemoveFile(t)
    case RemoveDir(t) => B.RemoveDir(t)
    case TryCreateDirs(t) => B.CreateDir(t)
    case Nop => B.Nop
  }

  lemma LowerRaise(p: B.Primitive)
    ensures Lower(Raise(p)) == p
  {
  }

  function RaiseAll(ps: seq<B.Primitive>): (r: seq<FsPrimitive>)
    ensures |r| == |ps| && forall i :: 0 <= i < |ps| ==> r[i] == Raise(ps[i])
  {
    seq(|ps|, i requires 0 <= i < |ps| => Raise(ps[i]))
  }

  /** The state after some primitives: the filesystem, the inverses so far, and the error that stopped the run. */
  datatype Progress = Progress(nodes: map<Path, Node>, inverses: seq<FsPrimitive>, failure: Option<Error>)

  /**
   * Applies `mods` in order, the i-th with backup name `names(i)`, and stops at
   * the first failure.
   */
  function RunPrefix(s: Snapshot, mods: seq<FsPrimitive>, backupDir: Option<Path>, names: nat -> string): Progress
    decreases |mods|
  {
    if mods == [] then Progress(s.nodes, [], None)
    else
      var r := RunPrefix(s, mods[..|mods| - 1], backupDir, names);
      if r.failure.Some? then r
      else
        var a := ApplySpec(Snapshot(r.nodes, s.unreachable), mods[|mods| - 1], backupDir, names(|mods| - 1));
        match a.result
        case Failure(e) => Progress(a.nodes, r.inverses, Some(e))
        case Success(inv) => Progress(a.nodes, r.inverses + [inv], None)
  }

  /** What `run_sequentially` leaves: the filesystem, its result, and the recorded inverse list. */
  datatype Outcome = Outcome(nodes: map<Path, Node>, result: Result<Unit, Error>, inverses: seq<FsPrimitive>)

  /**
   * `run_sequentially`: when recording, a run that succeeds reverses its
   * inverses, while a run that fails returns before the reversal.
   */
  function RunSequentiallySpec(s: Snapshot, mods: seq<FsPrimitive>, backupDir: Option<Path>,
                               names: nat -> string, record: bool): Outcome
  {
    var r := RunPrefix(s, mods, backupDir, names);
    Outcome(r.nodes,
            if r.failure.Some? then Failure(r.failure.value) else Success(Unit),
            if !record then [] else if r.failure.Some? then r.inverses else Reverse(r.inverses))
  }

  /** A run records at most one inverse per primitive, exactly one when nothing failed. */
  lemma {:induction false} InverseCount(s: Snapshot, mods: seq<FsPrimitive>, backupDir: Option<Path>,
                                        names: nat -> string, i: nat)
    requires i <= |mods|
    ensures |RunPrefix(s, mods[..i], backupDir, names).inverses| <= i
    ensures RunPrefix(s, mods[..i], backupDir, names).failure.None? ==>
      |RunPrefix(s, mods[..i], backupDir, names).inverses| == i
    decreases i
  {
    if i > 0 {
      assert mods[..i][..i - 1] == mods[..i - 1];
      InverseCount(s, mods, backupDir, names, i - 1);
    }
  }

  /** `run_sequentially` as the loop that applies each primitive to the filesystem. */
  method RunSequentially(fs: FileSystem, mods: seq<FsPrimitive>, backupDir: Option<Path>,
                         names: nat -> string, record: bool)
    returns (r: Result<Unit, Error>, inverses: seq<FsPrimitive>)
    modifies fs
    ensures Outcome(fs.nodes, r, inverses) == RunSequentiallySpec(old(fs.View()), mods, backupDir, names, record)
  {
    ghost var s := fs.View();
    var collected: seq<FsPrimitive> := [];
    var i := 0;
    while i < |mods|
      invariant 0 <= i <= |mods|
      invariant fs.unreachable == s.unreachable
      invariant RunPrefix(s, mods[..i], backupDir, names) == Progress(fs.nodes, collected, None)
    {
      assert mods[..i + 1][..i] == mods[..i];
      var inv := Apply(fs, mods[i], backupDir, names(i));
      if inv.Failure? {
        StopsAtFirstFailure(s, mods, backupDir, names, i + 1, |mods|);
        assert mods[..|mods|] == mods;
        inverses := if record then collected else [];
        return Failure(inv.error), inverses;
      }
      collected := collected + [inv.value];
      i := i + 1;
    }
    assert mods[..i] == mods;
    inverses := if record then Reverse(collected) else [];
    r := Success(Unit);
  }

  /** Once a primitive has failed, no later primitive is applied. */
  lemma {:induction false} StopsAtFirstFailure(s: Snapshot, mods: seq<FsPrimitive>, backupDir: Option<Path>,
                                                names: nat -> string, i: nat, j: nat)
    requires i <= j <= |mods|
    requires RunPrefix(s, mods[..i], backupDir, names).failure.Some?
    ensures RunPrefix(s, mods[..j], backupDir, names) == RunPrefix(s, mods[..i], backupDir, names)
    decreases j - i
  {
    if i < j {
      StopsAtFirstFailure(s, mods, backupDir, names, i, j - 1);
      assert mods[..j][..j - 1] == mods[..j - 1];
    }
  }

  /** One more primitive: a failed run stays as it is, otherwise the primitive is applied. */
  lemma RunStep(s: Snapshot, mods: seq<FsPrimitive>, backupDir: Option<Path>, names: nat -> string, n: nat)
    requires 0 < n <= |mods|
    ensures var prev := RunPrefix(s, mods[..n - 1], backupDir, names);
      var cur := RunPrefix(s, mods[..n], backupDir, names);
      (prev.failure.Some? ==> cur == prev) &&
      (prev.failure.None? ==>
        var a := ApplySpec(Snapshot(prev.nodes, s.unreachable), mods[n - 1], backupDir, names(n - 1));
        cur.nodes == a.nodes && cur.failure == (if a.result.Success? then None else Some(a.result.error)) &&
        cur.inverses == if a.result.Success? then prev.inverses + [a.result.value] else prev.inverses)
  {
    assert mods[..n][..n - 1] == mods[..n - 1];
  }

  /** Inverses recorded once are kept by every longer prefix of the run. */
  lemma {:induction false} InverseKept(s: Snapshot, mods: seq<FsPrimitive>, backupDir: Option<Path>,
                                       names: nat -> string, i: nat, n: nat)
    requires i < n <= |mods|
    requires i < |RunPrefix(s, mods[..n], backupDir, names).inverses|
    ensures i < |RunPrefix(s, mods[..i + 1], backupDir, names).inverses|
    ensures RunPrefix(s, mods[..n], backupDir, names).inverses[i] == RunPrefix(s, mods[..i + 1], backupDir, names).inverses[i]
    decreases n
  {
    if i + 1 < n {
      RunStep(s, mods, backupDir, names, n);
      InverseCount(s, mods, backupDir, names, n - 1);
      InverseKept(s, mods, backupDir, names, i, n - 1);
    }
  }

  /**
   * The inverses a run collects: the i-th is the inverse that applying the i-th
   * primitive returned, in the state the earlier primitives left.
   */
  lemma InverseAt(s: Snapshot, mods: seq<FsPrimitive>, backupDir: Option<Path>,
                  names: nat -> string, i: nat, n: nat)
    requires i < n <= |mods|
    requires i < |RunPrefix(s, mods[..n], backupDir, names).inverses|
    ensures var before := RunPrefix(s, mods[..i], backupDir, names);
      before.failure.None? && |before.inverses| == i &&
      ApplySpec(Snapshot(before.nodes, s.unreachable), mods[i], backupDir, names(i)) ==
        Applied(RunPrefix(s, mods[..i + 1], backupDir, names).nodes,
                Success(RunPrefix(s, mods[..n], backupDir, names).inverses[i]))
  {
    InverseKept(s, mods, backupDir, names, i, n);
    RunStep(s, mods, backupDir, names, i + 1);
    InverseCount(s, mods, backupDir, names, i);
  }

  /**
   * When a run fails, the state it leaves is the failed application of the
   * primitive at the position of the first missing inverse.
   */
  lemma FailureIsAtFirstMissingInverse(s: Snapshot, mods: seq<FsPrimitive>, backupDir: Option<Path>,
                                       names: nat -> string)
    requires RunPrefix(s, mods, backupDir, names).failure.Some?
    ensures var r := RunPrefix(s, mods, backupDir, names);
      var k := |r.inverses|;
      k < |mods| &&
      RunPrefix(s, mods[..k], backupDir, names) == Progress(RunPrefix(s, mods[..k], backupDir, names).nodes, r.inverses, None) &&
      var a := ApplySpec(Snapshot(RunPrefix(s, mods[..k], backupDir, names).nodes, s.unreachable), mods[k], backupDir, names(k));
      a.result == Failure(r.failure.value) && a.nodes == r.nodes
  {
    var j := FirstFailing(s, mods, backupDir, names);
    StopsAtFirstFailure(s, mods, backupDir, names, j, |mods|);
    assert mods[..|mods|] == mods;
    RunStep(s, mods, backupDir, names, j);
    InverseCount(s, mods, backupDir, names, j - 1);
  }

  /** The length of the shortest prefix of a failing run that fails. */
  lemma {:induction false} FirstFailingPrefix(s: Snapshot, mods: seq<FsPrimitive>, backupDir: Option<Path>,
                                              names: nat -> string, n: nat)
    returns (j: nat)
    requires n <= |mods| && RunPrefix(s, mods[..n], backupDir, names).failure.Some?
    ensures 1 <= j <= n
    ensures RunPrefix(s, mods[..j], backupDir, names).failure.Some?
    ensures RunPrefix(s, mods[..j - 1], backupDir, names).failure.None?
    decreases n
  {
    assert n > 0;
    if RunPrefix(s, mods[..n - 1], backupDir, names).failure.None? {
      j := n;
    } else {
      j := FirstFailingPrefix(s, mods, backupDir, names, n - 1);
    }
  }

  lemma FirstFailing(s: Snapshot, mods: seq<FsPrimitive>, backupDir: Option<Path>, names: nat -> string)
    returns (j: nat)
    requires RunPrefix(s, mods, backupDir, names).failure.Some?
    ensures 1 <= j <= |mods|
    ensures RunPrefix(s, mods[..j], backupDir, names).failure.Some?
    ensures RunPrefix(s, mods[..j - 1], backupDir, names).failure.None?
  {
    assert mods[..|mods|] == mods;
    j := FirstFailingPrefix(s, mods, backupDir, names, |mods|);
  }

  /** Without a backup directory, the backup names play no part. */
  lemma {:induction false} NoBackupIgnoresNames(s: Snapshot, mods: seq<FsPrimitive>, names: nat -> string,
                                                names': nat -> string)
    ensures RunPrefix(s, mods, None, names) == RunPrefix(s, mods, None, names')
    decreases |mods|
  {
    if mods != [] {
      NoBackupIgnoresNames(s, mods[..|mods| - 1], names, names');
      var r := RunPrefix(s, mods[..|mods| - 1], None, names);
      var m := mods[|mods| - 1];
      var t := Snapshot(r.nodes, s.unreachable);
      assert ApplySpec(t, m, None, names(|mods| - 1)) == ApplySpec(t, m, None, names'(|mods| - 1));
    }
  }

  /** The names used by the runs that have no backup directory. */
  function Unnamed(i: nat): string {
    ""
  }

  /** Every step of the run restores, under its inverse, the state before it. */
  ghost predicate StepsInvertible(s: Snapshot, mods: seq<FsPrimitive>, backupDir: Option<Path>, names: nat -> string) {
    forall i :: 0 <= i < |mods| ==>
      Restores(Snapshot(RunPrefix(s, mods[..i], backupDir, names).nodes, s.unreachable), mods[i], backupDir, names(i))
  }

  /**
   * The design of the undo list: when every step is inverted exactly, running
   * the reversed inverses of a successful run, with no backup, gives back the
   * filesystem the run started from.
   */
  lemma ReversedInversesRestore(s: Snapshot, mods: seq<FsPrimitive>, backupDir: Option<Path>,
                                 names: nat -> string)
    requires RunPrefix(s, mods, backupDir, names).failure.None?
    requires StepsInvertible(s, mods, backupDir, names)
    ensures var r := RunPrefix(s, mods, backupDir, names);
      RunSequentiallySpec(Snapshot(r.nodes, s.unreachable), Reverse(r.inverses), None, Unnamed, false) ==
        Outcome(s.nodes, Success(Unit), [])
  {
    assert mods[..|mods|] == mods;
    RollbackRestores(s, mods, backupDir, names, |mods|);
  }

  /**
   * Induction for the rollback: undoing the first `n` steps in reverse order
   * from the state after them gives back the initial state.
   */
  lemma {:induction false} RollbackRestores(s: Snapshot, mods: seq<FsPrimitive>, backupDir: Option<Path>,
                                            names: nat -> string, n: nat)
    requires n <= |mods|
    requires RunPrefix(s, mods[..n], backupDir, names).failure.None?
    requires StepsInvertible(s, mods, backupDir, names)
    ensures var r := RunPrefix(s, mods[..n], backupDir, names);
      RunSequentiallySpec(Snapshot(r.nodes, s.unreachable), Reverse(r.inverses), None, Unnamed, false) == Outcome(s.nodes, Success(Unit), [])
    decreases n
  {
    if n > 0 {
      var r := RunPrefix(s, mods[..n], backupDir, names);
      var before := RunPrefix(s, mods[..n - 1], backupDir, names);
      var inv := LastStepUndone(s, mods, backupDir, names, n);
      RollbackRestores(s, mods, backupDir, names, n - 1);
      ReverseSnoc(before.inverses, inv);
      UndoFirstThenRest(Snapshot(r.nodes, s.unreachable), inv, Reverse(before.inverses), before.nodes);
    }
  }

  /** The last step of a successful prefix is undone by the inverse it recorded. */
  lemma LastStepUndone(s: Snapshot, mods: seq<FsPrimitive>, backupDir: Option<Path>,
                       names: nat -> string, n: nat) returns (inv: FsPrimitive)
    requires 0 < n <= |mods|
    requires RunPrefix(s, mods[..n], backupDir, names).failure.None?
    requires StepsInvertible(s, mods, backupDir, names)
    ensures var r := RunPrefix(s, mods[..n], backupDir, names);
      var before := RunPrefix(s, mods[..n - 1], backupDir, names);
      before.failure.None? && r.inverses == before.inverses + [inv] &&
      var undone := ApplySpec(Snapshot(r.nodes, s.unreachable), inv, None, Unnamed(0));
      undone.result.Success? && undone.nodes == before.nodes
  {
    RunStep(s, mods, backupDir, names, n);
    var r := RunPrefix(s, mods[..n], backupDir, names);
    var before := RunPrefix(s, mods[..n - 1], backupDir, names);
    var t := Snapshot(before.nodes, s.unreachable);
    var a := ApplySpec(t, mods[n - 1], backupDir, names(n - 1));
    inv := a.result.value;
    assert Restores(t, mods[n - 1], backupDir, names(n - 1));
    IgnoresNameWithoutBackup(Snapshot(r.nodes, s.unreachable), inv, names(n - 1), Unnamed(0));
  }

  lemma ReverseSnoc<T>(xs: seq<T>, x: T)
    ensures Reverse(xs + [x]) == [x] + Reverse(xs)
  {
    assert forall i :: 0 <= i < |xs| + 1 ==> Reverse(xs + [x])[i] == ([x] + Reverse(xs))[i];
  }

  /**
   * Running `[m] + rest` with no backup: when `m` succeeds and leads to `mid`,
   * it is running `rest` from `mid`.
   */
  lemma {:induction false} UndoFirstThenRest(t: Snapshot, m: FsPrimitive, rest: seq<FsPrimitive>, mid: map<Path, Node>)
    requires ApplySpec(t, m, None, Unnamed(0)).result.Success? && ApplySpec(t, m, None, Unnamed(0)).nodes == mid
    requires RunSequentiallySpec(Snapshot(mid, t.unreachable), rest, None, Unnamed, false).result.Success?
    ensures RunSequentiallySpec(t, [m] + rest, None, Unnamed, false) ==
            RunSequentiallySpec(Snapshot(mid, t.unreachable), rest, None, Unnamed, false)
  {
    ShiftedRun(t, m, rest, mid, |rest|);
    assert ([m] + rest)[..|rest| + 1] == [m] + rest;
    assert rest[..|rest|] == rest;
  }

  lemma {:induction false} ShiftedRun(t: Snapshot, m: FsPrimitive, rest: seq<FsPrimitive>, mid: map<Path, Node>, k: nat)
    requires k <= |rest|
    requires ApplySpec(t, m, None, Unnamed(0)).result.Success? && ApplySpec(t, m, None, Unnamed(0)).nodes == mid
    ensures var a := RunPrefix(t, ([m] + rest)[..k + 1], None, Unnamed);
            var b := RunPrefix(Snapshot(mid, t.unreachable), rest[..k], None, Unnamed);
            a.nodes == b.nodes && a.failure == b.failure
    decreases k
  {
    if k == 0 {
      assert ([m] + rest)[..1] == [m];
      assert [m][..0] == [];
    } else {
      ShiftedRun(t, m, rest, mid, k - 1);
      var xs := ([m] + rest)[..k + 1];
      var ys := rest[..k];
      ShiftSlices(m, rest, k);
      var pa := RunPrefix(t, xs[..k], None, Unnamed);
      var pb := RunPrefix(Snapshot(mid, t.unreachable), ys[..k - 1], None, Unnamed);
      assert pa.nodes == pb.nodes && pa.failure == pb.failure;
      assert Unnamed(k) == Unnamed(k - 1);
    }
  }

  /** The prefixes of `[m] + rest` are those of `rest`, one longer, ending in the same element. */
  lemma ShiftSlices<T>(m: T, rest: seq<T>, k: nat)
    requires 0 < k <= |rest|
    ensures var xs := ([m] + rest)[..k + 1];
      var ys := rest[..k];
      |xs| == k + 1 && |ys| == k && xs[..k] == ([m] + rest)[..k] && ys[..k - 1] == rest[..k - 1] && xs[k] == ys[k - 1]
  {
  }

  /** The example of `UnreversedRollbackCanFail`: a directory and a link inside it. */
  const ExampleDir: Path := ["/", "a"]
  const ExampleLink: Path := ["/", "a", "x"]
  const ExampleMods: seq<FsPrimitive> :=
    [TryCreateDirs(ExampleDir), Link(["/", "o"], ExampleLink), Link(["/", "p"], ExampleLink)]
  const ExampleBackup: Option<Path> := Some(["/", "backup"])

  lemma ExampleSteps()
    ensures ApplySpec(Snapshot(map[], {}), ExampleMods[0], ExampleBackup, "")
      == Applied(map[ExampleDir := Dir], Success(RemoveDir(ExampleDir)))
    ensures ApplySpec(Snapshot(map[ExampleDir := Dir], {}), ExampleMods[1], ExampleBackup, "")
      == Applied(map[ExampleDir := Dir, ExampleLink := Symlink(["/", "o"])], Success(RemoveFile(ExampleLink)))
    ensures ApplySpec(Snapshot(map[ExampleDir := Dir, ExampleLink := Symlink(["/", "o"])], {}), ExampleMods[2], ExampleBackup, "")
      == Applied(map[ExampleDir := Dir, ExampleLink := Symlink(["/", "o"])], Failure(AlreadyExists(ExampleLink)))
  {
    AncestorsAt(ExampleDir, 0);
    assert ExampleDir[..1] == Root;
    assert ExampleLink[..2] == ExampleDir;
  }

  lemma ExampleUndoSteps()
    ensures ApplySpec(Snapshot(map[ExampleDir := Dir, ExampleLink := Symlink(["/", "o"])], {}), RemoveDir(ExampleDir), None, "")
      == Applied(map[ExampleDir := Dir, ExampleLink := Symlink(["/", "o"])], Failure(DirectoryNotEmpty(ExampleDir)))
    ensures ApplySpec(Snapshot(map[ExampleDir := Dir, ExampleLink := Symlink(["/", "o"])], {}), RemoveFile(ExampleLink), None, "")
      == Applied(map[ExampleDir := Dir], Success(Nop))
    ensures ApplySpec(Snapshot(map[ExampleDir := Dir], {}), RemoveDir(ExampleDir), None, "")
      == Applied(map[], Success(TryCreateDirs(ExampleDir)))
  {
    assert StrictlyUnder(ExampleLink, ExampleDir);
    assert map[ExampleDir := Dir, ExampleLink := Symlink(["/", "o"])] - {ExampleLink} == map[ExampleDir := Dir];
    assert !HasDescendant(map[ExampleDir := Dir], ExampleDir);
    assert map[ExampleDir := Dir] - {ExampleDir} == map[];
  }

  /** The run of the example: the third primitive fails, after two inverses were recorded. */
  lemma ExampleRun()
    ensures RunSequentiallySpec(Snapshot(map[], {}), ExampleMods, ExampleBackup, Unnamed, true)
      == Outcome(map[ExampleDir := Dir, ExampleLink := Symlink(["/", "o"])], Failure(AlreadyExists(ExampleLink)),
                 [RemoveDir(ExampleDir), RemoveFile(ExampleLink)])
  {
    var s := Snapshot(map[], {});
    ExampleSteps();
    assert ExampleMods[..0] == [];
    RunStep(s, ExampleMods, ExampleBackup, Unnamed, 1);
    RunStep(s, ExampleMods, ExampleBackup, Unnamed, 2);
    RunStep(s, ExampleMods, ExampleBackup, Unnamed, 3);
    assert ExampleMods[..3] == ExampleMods;
  }

  /**
   * A failed run hands back its inverses in application order, so the rollback
   * can undo an outer step before an inner one. In the example a directory is
   * created, a link is made inside it, and a second link onto the same path
   * fails: the rollback tries to remove the directory while the link is still in
   * it, and fails, where the reversed list would have restored the empty
   * filesystem.
   */
  lemma UnreversedRollbackCanFail()
    ensures var run := RunSequentiallySpec(Snapshot(map[], {}), ExampleMods, ExampleBackup, Unnamed, true);
      run.result.Failure? &&
      RunSequentiallySpec(Snapshot(run.nodes, {}), run.inverses, None, Unnamed, false).result
        == Failure(DirectoryNotEmpty(ExampleDir)) &&
      RunSequentiallySpec(Snapshot(run.nodes, {}), Reverse(run.inverses), None, Unnamed, false)
        == Outcome(map[], Success(Unit), [])
  {
    ExampleRun();
    var undo := [RemoveDir(ExampleDir), RemoveFile(ExampleLink)];
    ExampleUndoInOrder();
    assert Reverse(undo) == [RemoveFile(ExampleLink), RemoveDir(ExampleDir)];
    ExampleUndoReversed();
  }

  /** The example's inverses in application order: removing the directory fails first. */
  lemma ExampleUndoInOrder()
    ensures RunSequentiallySpec(Snapshot(map[ExampleDir := Dir, ExampleLink := Symlink(["/", "o"])], {}),
                                [RemoveDir(ExampleDir), RemoveFile(ExampleLink)], None, Unnamed, false).result
      == Failure(DirectoryNotEmpty(ExampleDir))
  {
    ExampleUndoSteps();
    var t := Snapshot(map[ExampleDir := Dir, ExampleLink := Symlink(["/", "o"])], {});
    var undo := [RemoveDir(ExampleDir), RemoveFile(ExampleLink)];
    assert undo[..0] == [];
    RunStep(t, undo, None, Unnamed, 1);
    StopsAtFirstFailure(t, undo, None, Unnamed, 1, 2);
    assert undo[..2] == undo;
  }

  /** The example's inverses reversed: the link goes, then the directory, leaving nothing. */
  lemma ExampleUndoReversed()
    ensures RunSequentiallySpec(Snapshot(map[ExampleDir := Dir, ExampleLink := Symlink(["/", "o"])], {}),
                                [RemoveFile(ExampleLink), RemoveDir(ExampleDir)], None, Unnamed, false)
      == Outcome(map[], Success(Unit), [])
  {
    ExampleUndoSteps();
    var t := Snapshot(map[ExampleDir := Dir, ExampleLink := Symlink(["/", "o"])], {});
    var redo := [RemoveFile(ExampleLink), RemoveDir(ExampleDir)];
    assert redo[..0] == [];
    RunStep(t, redo, None, Unnamed, 1);
    RunStep(t, redo, None, Unnamed, 2);
    assert redo[..2] == redo;
  }

  /** `Transaction::run_haphazard`: the primitives, in order, with no backup and no inverses. */
  method RunHaphazard(fs: FileSystem, tx: B.Transaction) returns (r: Result<Unit, Error>)
    modifies fs
    ensures Outcome(fs.nodes, r, []) == RunSequentiallySpec(old(fs.View()), RaiseAll(tx.primitives), None, Unnamed, false)
  {
    var inverses;
    r, inverses := RunSequentially(fs, RaiseAll(tx.primitives), None, Unnamed, false);
  }

  /** The primitives an undo builder plans after pushing the lowered inverses, in order. */
  function UndoPlan(inverses: seq<FsPrimitive>): B.Plan {
    B.PushAll(B.EmptyPlan, LowerAll(inverses))
  }

  function LowerAll(ps: seq<FsPrimitive>): (r: seq<B.Primitive>)
    ensures |r| == |ps| && forall i :: 0 <= i < |ps| ==> r[i] == Lower(ps[i])
  {
    seq(|ps|, i requires 0 <= i < |ps| => Lower(ps[i]))
  }

  /**
   * The undo transaction of a successful run: every inverse, in order, pushed
   * into a fresh builder, then built.
   */
  method BuildUndo(inverses: seq<FsPrimitive>, name: string, generated: Result<Path, Error>)
    returns (undo: Result<B.Transaction, Error>)
    ensures generated.Failure? ==> undo == Failure(generated.error)
    ensures generated.Success? ==>
      undo.Success? && undo.value.name == name && undo.value.backupDir == generated.value &&
      B.Emits(UndoPlan(inverses), undo.value.primitives)
  {
    var txb := new B.TxBuilder.Empty();
    var i := 0;
    while i < |inverses|
      invariant 0 <= i <= |inverses|
      invariant txb.State() == B.PushAll(B.EmptyPlan, LowerAll(inverses)[..i]) && txb.Valid()
    {
      assert LowerAll(inverses)[..i + 1][..i] == LowerAll(inverses)[..i];
      txb.Push(Lower(inverses[i]));
      i := i + 1;
    }
    assert LowerAll(inverses)[..i] == LowerAll(inverses);
    undo := txb.Build(name, generated);
  }

  /** The result of `run_atomic`, given the run and, after a failure, the rollback run. */
  predicate AtomicResult(run: Outcome, rollback: Outcome, txErr: Error, r: R.TxResult) {
    r == if rollback.result.Failure? then R.FatalFailure(txErr, rollback.result.error) else R.TxFailure(txErr)
  }

  /**
   * What `run_atomic` does from `s`, ending with the nodes `nodes` and the
   * result `r`: when the run and the undo build succeed, the run's state stays
   * and the undo transaction plans the run's inverses; otherwise the recorded
   * inverses are run with no backup (in application order after a primitive
   * failure, reversed after an undo-build failure), and the result is a
   * `TxFailure` or, when that rollback fails too, a `FatalFailure`.
   */
  predicate AtomicSpec(s: Snapshot, tx: B.Transaction, names: nat -> string, generated: Result<Path, Error>,
                       nodes: map<Path, Node>, r: R.TxResult) {
    var run := RunSequentiallySpec(s, RaiseAll(tx.primitives), Some(tx.backupDir), names, true);
    if run.result.Success? && generated.Success? then
      nodes == run.nodes && r.Success? && r.undo.name == "Undo" + tx.name && r.undo.backupDir == generated.value &&
      B.Emits(UndoPlan(run.inverses), r.undo.primitives)
    else
      var txErr := if run.result.Failure? then run.result.error else generated.error;
      var rollback := RunSequentiallySpec(Snapshot(run.nodes, s.unreachable), run.inverses, None, Unnamed, false);
      nodes == rollback.nodes && AtomicResult(run, rollback, txErr, r)
  }

  /**
   * `Transaction::run_atomic`. `names` are the backup names of the run,
   * `generated` the backup directory `Transaction::generate` provides for the
   * undo transaction, or its failure.
   */
  method RunAtomic(fs: FileSystem, tx: B.Transaction, names: nat -> string, generated: Result<Path, Error>)
    returns (r: R.TxResult)
    modifies fs
    ensures AtomicSpec(old(fs.View()), tx, names, generated, fs.nodes, r)
  {
    ghost var s := fs.View();
    var runResult, inverses := RunSequentially(fs, RaiseAll(tx.primitives), Some(tx.backupDir), names, true);
    var txErr;
    if runResult.Success? {
      var undo := BuildUndo(inverses, "Undo" + tx.name, generated);
      if undo.Success? {
        return R.Success(undo.value);
      }
      txErr := undo.error;
    } else {
      txErr := runResult.error;
    }
    var rollback, _ := RunSequentially(fs, inverses, None, Unnamed, false);
    if rollback.Failure? {
      r := R.FatalFailure(txErr, rollback.error);
    } else {
      r := R.TxFailure(txErr);
    }
  }
}
