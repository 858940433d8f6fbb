/**
 * The transaction processor: it runs transactions atomically and keeps the
 * undo transactions of those that succeeded, so that a later required failure
 * can roll all of them back, newest first.
 */
module TxProcessors {
  import opened Wrappers
  import opened Paths
  import opened Fs
  import opened TxApply
  import B = TxBuilding
  import R = TxResults

  /** How a processor call ends: `Ok(())`, `Err(error)`, or a panic. */
  datatype Status = Done | Failed(error: Error) | Panicked

  /** Where a rollback leaves the filesystem, and whether an undo failed (which panics). */
  datatype RollbackOutcome = RollbackOutcome(nodes: map<Path, Node>, panicked: bool)

  /**
   * `rollback`: the undo transactions run haphazardly from the last one to the
   * first; the first one that fails stops everything with a panic.
   */
  function RollbackSpec(s: Snapshot, undos: seq<B.Transaction>): RollbackOutcome
    decreases |undos|
  {
    if undos == [] then RollbackOutcome(s.nodes, false)
    else
      var run := RunSequentiallySpec(s, RaiseAll(undos[|undos| - 1].primitives), None, Unnamed, false);
      if run.result.Failure? then RollbackOutcome(run.nodes, true)
      else RollbackSpec(Snapshot(run.nodes, s.unreachable), undos[..|undos| - 1])
  }

  /**
   * Rolling back `older + newer` rolls back the newer undo transactions first,
   * and the older ones from where they left the filesystem, unless one of the
   * newer ones panicked.
   */
  lemma {:induction false} RollbackNewestFirst(s: Snapshot, older: seq<B.Transaction>, newer: seq<B.Transaction>)
    ensures var first := RollbackSpec(s, newer);
      RollbackSpec(s, older + newer) ==
        if first.panicked then first else RollbackSpec(Snapshot(first.nodes, s.unreachable), older)
    decreases |newer|
  {
    if newer == [] {
      assert older + newer == older;
    } else {
      var all := older + newer;
      var undo := newer[|newer| - 1];
      assert all[..|all| - 1] == older + newer[..|newer| - 1];
      assert all[|all| - 1] == undo;
      var run := RunSequentiallySpec(s, RaiseAll(undo.primitives), None, Unnamed, false);
      var t := Snapshot(run.nodes, s.unreachable);
      if run.result.Success? {
        assert RollbackSpec(s, all) == RollbackSpec(t, older + newer[..|newer| - 1]);
        assert RollbackSpec(s, newer) == RollbackSpec(t, newer[..|newer| - 1]);
        RollbackNewestFirst(t, older, newer[..|newer| - 1]);
      } else {
        assert RollbackSpec(s, all) == RollbackOutcome(run.nodes, true);
        assert RollbackSpec(s, newer) == RollbackOutcome(run.nodes, true);
      }
    }
  }

  /** A rollback with nothing to undo changes nothing and does not panic. */
  lemma RollbackOfNothing(s: Snapshot)
    ensures RollbackSpec(s, []) == RollbackOutcome(s.nodes, false)
  {
  }

  /** A processor with the undo transactions of the transactions it ran so far. */
  class TxProcessor {
    const name: string
    var processed: seq<B.Transaction>

    /** `TxProcessor::new` */
    constructor(name: string)
      ensures this.name == name && processed == []
    {
      this.name := name;
      processed := [];
    }

    /**
     * `run_optional`: the transaction runs atomically (`tr` is its result);
     * a success keeps its undo transaction, a failure is returned and changes
     * nothing here, and a failure whose rollback failed too panics.
     */
    method RunOptional(fs: FileSystem, tx: B.Transaction, names: nat -> string, generated: Result<Path, Error>)
      returns (st: Status, ghost tr: R.TxResult)
      modifies this, fs
      ensures AtomicSpec(old(fs.View()), tx, names, generated, fs.nodes, tr)
      ensures st == if tr.FatalFailure? then Panicked else if tr.TxFailure? then Failed(tr.txErr) else Done
      ensures processed == if tr.Success? then old(processed) + [tr.undo] else old(processed)
    {
      var txResult := RunAtomic(fs, tx, names, generated);
      tr := txResult;
      if R.IsFatalFailure(txResult) {
        return Panicked, tr;
      }
      var undo := R.AsTxResult(txResult);
      if undo.Failure? {
        return Failed(undo.error), tr;
      }
      processed := processed + [undo.value];
      st := Done;
    }

    /**
     * `run_required`: as `run_optional`, except that a returned failure first
     * rolls back every processed transaction, emptying the stack; the error is
     * then returned, unless an undo failed, which panics. `mid` is the state
     * `run_atomic` left.
     */
    method RunRequired(fs: FileSystem, tx: B.Transaction, names: nat -> string, generated: Result<Path, Error>)
      returns (st: Status, ghost tr: R.TxResult, ghost mid: map<Path, Node>)
      modifies this, fs
      ensures AtomicSpec(old(fs.View()), tx, names, generated, mid, tr)
      ensures tr.Success? ==> st == Done && fs.nodes == mid && processed == old(processed) + [tr.undo]
      ensures tr.FatalFailure? ==> st == Panicked && fs.nodes == mid && processed == old(processed)
      ensures tr.TxFailure? ==>
        var rb := RollbackSpec(Snapshot(mid, fs.unreachable), old(processed));
        fs.nodes == rb.nodes && processed == [] && st == (if rb.panicked then Panicked else Failed(tr.txErr))
    {
      st, tr := RunOptional(fs, tx, names, generated);
      mid := fs.nodes;
      if st.Failed? {
        var rb := Rollback(fs);
        if rb.Panicked? {
          st := Panicked;
        }
      }
    }

    /** `rollback`: the processed undo transactions run newest first, and the stack is emptied. */
    method Rollback(fs: FileSystem) returns (st: Status)
      modifies this, fs
      ensures var rb := RollbackSpec(old(fs.View()), old(processed));
        fs.nodes == rb.nodes && processed == [] && st == (if rb.panicked then Panicked else Done)
    {
      ghost var s := fs.View();
      var undos := processed;
      processed := [];
      var i := |undos|;
      assert undos[..i] == undos;
      while i > 0
        invariant 0 <= i <= |undos|
        invariant RollbackSpec(s, undos) == RollbackSpec(fs.View(), undos[..i])
        invariant fs.unreachable == s.unreachable && processed == []
      {
        assert undos[..i][..i - 1] == undos[..i - 1];
        assert undos[..i][i - 1] == undos[i - 1];
        var r := RunHaphazard(fs, undos[i - 1]);
        if r.Failure? {
          return Panicked;
        }
        i := i - 1;
      }
      st := Done;
    }
  }
}
