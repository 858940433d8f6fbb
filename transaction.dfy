/**
 * The ephemeral transaction: a name and a list of primitives that builder
 * methods append to, and the summary of what such a list creates and removes.
 */
module Transactions {
  import opened Wrappers
  import opened Paths
  import opened Fs

  /** The primitives of this transaction layer. */
  datatype Primitive =
    | Link(original: Path, target: Path)
    | CopyFile(source: Path, target: Path)
    | RemoveFile(path: Path)
    | RemoveEmptyDir(path: Path)
    | CreateDirs(path: Path)
    | Nop

  /** The files and directories a list of primitives ends up creating and removing. */
  datatype TxSummary = TxSummary(filesToCreate: set<Path>, filesToRemove: set<Path>,
                                 dirsToCreate: set<Path>, dirsToRemove: set<Path>)
  {
    predicate CreatesFile(p: Path) { p in filesToCreate }
    predicate RemovesFile(p: Path) { p in filesToRemove }
    predicate CreatesDirs(p: Path) { p in dirsToCreate }
    predicate RemovesEmptyDir(p: Path) { p in dirsToRemove }
  }

  const EmptySummary := TxSummary({}, {}, {}, {})

  /**
   * One step of the summary: what one primitive changes in the four sets. It
   * keeps each pair of sets disjoint, and leaves alone every path the
   * primitive does not bear on.
   */
  function SummaryStep(s: TxSummary, m: Primitive): (r: TxSummary)
    ensures s.filesToCreate !! s.filesToRemove ==> r.filesToCreate !! r.filesToRemove
    ensures s.dirsToCreate !! s.dirsToRemove ==> r.dirsToCreate !! r.dirsToRemove
    ensures forall q :: !Touches(m, q, FileEntry) ==>
      (q in r.filesToCreate <==> q in s.filesToCreate) && (q in r.filesToRemove <==> q in s.filesToRemove)
    ensures forall q :: !Touches(m, q, DirCreation) ==> (q in r.dirsToCreate <==> q in s.dirsToCreate)
    ensures forall q :: !Touches(m, q, DirRemoval) ==> (q in r.dirsToRemove <==> q in s.dirsToRemove)
  {
    match m
    case RemoveFile(p) => s.(filesToRemove := s.filesToRemove + {p}, filesToCreate := s.filesToCreate - {p})
    case CopyFile(_, p) => s.(filesToCreate := s.filesToCreate + {p}, filesToRemove := s.filesToRemove - {p})
    case Link(_, p) => s.(filesToCreate := s.filesToCreate + {p}, filesToRemove := s.filesToRemove - {p})
    case RemoveEmptyDir(p) => s.(dirsToRemove := s.dirsToRemove + {p}, dirsToCreate := s.dirsToCreate - {p})
    case CreateDirs(p) =>
      s.(dirsToCreate := s.dirsToCreate + {p},
         dirsToRemove := set r | r in s.dirsToRemove && !StartsWith(p, r))
    case Nop => s
  }

  /** `TxSummary::from`: the steps of all primitives, in order. */
  function Summarize(mods: seq<Primitive>): TxSummary
    decreases |mods|
  {
    if mods == [] then EmptySummary else SummaryStep(Summarize(mods[..|mods| - 1]), mods[|mods| - 1])
  }

  /** The three ways a primitive can bear on the summary entry of a path. */
  datatype Aspect = FileEntry | DirCreation | DirRemoval

  /** `m` decides whether `p` is in the sets of the given aspect. */
  predicate Touches(m: Primitive, p: Path, aspect: Aspect) {
    match aspect
    case FileEntry => (m.Link? && m.target == p) || (m.CopyFile? && m.target == p) || (m.RemoveFile? && m.path == p)
    case DirCreation => (m.RemoveEmptyDir? || m.CreateDirs?) && m.path == p
    case DirRemoval => (m.RemoveEmptyDir? && m.path == p) || (m.CreateDirs? && StartsWith(m.path, p))
  }

  /** The last primitive of `mods` that bears on `p` in the given aspect. */
  function LastTouch(mods: seq<Primitive>, p: Path, aspect: Aspect): (r: Option<Primitive>)
    ensures r.Some? ==> r.value in mods && Touches(r.value, p, aspect)
    decreases |mods|
  {
    if mods == [] then None
    else if Touches(mods[|mods| - 1], p, aspect) then Some(mods[|mods| - 1])
    else LastTouch(mods[..|mods| - 1], p, aspect)
  }

  /**
   * The summary holds exactly what the last relevant primitive says: a file is
   * created (removed) when the last primitive on it creates (removes) it; a
   * directory is created when the last `CreateDirs`/`RemoveEmptyDir` of it is a
   * creation; it is removed when the last primitive on it is `RemoveEmptyDir`,
   * a later `CreateDirs` of it or of anything below it cancelling the removal.
   */
  lemma {:induction false} SummaryIsLastTouch(mods: seq<Primitive>, p: Path)
    ensures var s := Summarize(mods);
      (s.CreatesFile(p) <==> LastTouch(mods, p, FileEntry).Some? && !LastTouch(mods, p, FileEntry).value.RemoveFile?) &&
      (s.RemovesFile(p) <==> LastTouch(mods, p, FileEntry).Some? && LastTouch(mods, p, FileEntry).value.RemoveFile?) &&
      (s.CreatesDirs(p) <==> LastTouch(mods, p, DirCreation).Some? && LastTouch(mods, p, DirCreation).value.CreateDirs?) &&
      (s.RemovesEmptyDir(p) <==> LastTouch(mods, p, DirRemoval).Some? && LastTouch(mods, p, DirRemoval).value.RemoveEmptyDir?)
    decreases |mods|
  {
    if mods != [] {
      SummaryIsLastTouch(mods[..|mods| - 1], p);
    }
  }

  /** After every step, no file is both created and removed, and no directory either. */
  lemma {:induction false} SummaryDisjoint(mods: seq<Primitive>)
    ensures Summarize(mods).filesToCreate !! Summarize(mods).filesToRemove
    ensures Summarize(mods).dirsToCreate !! Summarize(mods).dirsToRemove
    decreases |mods|
  {
    if mods != [] {
      SummaryDisjoint(mods[..|mods| - 1]);
      var m := mods[|mods| - 1];
      if m.CreateDirs? {
        assert StartsWith(m.path, m.path);
      }
    }
  }

  /** `try_create_dirs`: the primitives after the call. */
  function TryCreateDirsSpec(mods: seq<Primitive>, path: Path, s: Snapshot): seq<Primitive> {
    if TryExists(s, path) != Absent || Summarize(mods).CreatesDirs(path) then mods
    else mods + [CreateDirs(path)]
  }

  /**
   * `try_create_dirs` adds nothing for a path that exists or cannot be probed,
   * or that the transaction already creates; otherwise it adds one `CreateDirs`.
   * Calling it twice is calling it once.
   */
  lemma TryCreateDirsIdempotent(mods: seq<Primitive>, path: Path, s: Snapshot)
    ensures var once := TryCreateDirsSpec(mods, path, s);
      TryCreateDirsSpec(once, path, s) == once &&
      (once == mods || once == mods + [CreateDirs(path)]) &&
      (once == mods <==> TryExists(s, path) != Absent || Summarize(mods).CreatesDirs(path))
  {
    var once := TryCreateDirsSpec(mods, path, s);
    if once != mods {
      assert once[..|once| - 1] == mods;
    }
  }

  /** A transaction under construction. */
  class Transaction {
    var name: string
    var mods: seq<Primitive>

    /** `Transaction::empty` */
    constructor Empty(name: string)
      ensures this.name == name && mods == []
    {
      this.name := name;
      mods := [];
    }

    /** `Transaction::from_primitives` */
    constructor FromPrimitives(name: string, mods: seq<Primitive>)
      ensures this.name == name && this.mods == mods
    {
      this.name := name;
      this.mods := mods;
    }

    /** The primitives of `other` follow those of this transaction. */
    method Append(other: Transaction)
      modifies this
      ensures mods == old(mods) + old(other.mods) && name == old(name)
    {
      mods := mods + other.mods;
    }

    method WithName(name: string)
      modifies this
      ensures this.name == name && mods == old(mods)
    {
      this.name := name;
    }

    method Push(m: Primitive)
      modifies this
      ensures mods == old(mods) + [m] && name == old(name)
    {
      mods := mods + [m];
    }

    method Link(original: Path, target: Path)
      modifies this
      ensures mods == old(mods) + [Primitive.Link(original, target)] && name == old(name)
    {
      Push(Primitive.Link(original, target));
    }

    method CopyFile(source: Path, target: Path)
      modifies this
      ensures mods == old(mods) + [Primitive.CopyFile(source, target)] && name == old(name)
    {
      Push(Primitive.CopyFile(source, target));
    }

    method RemoveFile(target: Path)
      modifies this
      ensures mods == old(mods) + [Primitive.RemoveFile(target)] && name == old(name)
    {
      Push(Primitive.RemoveFile(target));
    }

    method RemoveEmptyDir(target: Path)
      modifies this
      ensures mods == old(mods) + [Primitive.RemoveEmptyDir(target)] && name == old(name)
    {
      Push(Primitive.RemoveEmptyDir(target));
    }

    method CreateDirs(target: Path)
      modifies this
      ensures mods == old(mods) + [Primitive.CreateDirs(target)] && name == old(name)
    {
      Push(Primitive.CreateDirs(target));
    }

    /** `try_create_dirs`, probing the filesystem `s`. */
    method TryCreateDirs(path: Path, s: Snapshot)
      modifies this
      ensures mods == TryCreateDirsSpec(old(mods), path, s) && name == old(name)
    {
      var summary := SummaryFrom(this);
      if TryExists(s, path) != Absent || summary.CreatesDirs(path) {
        return;
      }
      Push(Primitive.CreateDirs(path));
    }
  }

  /** `TxSummary::from`, as the loop over the primitives that updates four sets. */
  method SummaryFrom(tx: Transaction) returns (s: TxSummary)
    ensures s == Summarize(tx.mods)
  {
    var filesToCreate: set<Path> := {};
    var filesToRemove: set<Path> := {};
    var dirsToCreate: set<Path> := {};
    var dirsToRemove: set<Path> := {};
    var i := 0;
    while i < |tx.mods|
      invariant 0 <= i <= |tx.mods|
      invariant TxSummary(filesToCreate, filesToRemove, dirsToCreate, dirsToRemove) == Summarize(tx.mods[..i])
    {
      assert tx.mods[..i + 1][..i] == tx.mods[..i];
      match tx.mods[i] {
      case RemoveFile(p) =>
        filesToRemove := filesToRemove + {p};
        filesToCreate := filesToCreate - {p};
      case CopyFile(_, p) =>
        filesToCreate := filesToCreate + {p};
        filesToRemove := filesToRemove - {p};
      case Link(_, p) =>
        filesToCreate := filesToCreate + {p};
        filesToRemove := filesToRemove - {p};
      case RemoveEmptyDir(p) =>
        dirsToRemove := dirsToRemove + {p};
        dirsToCreate := dirsToCreate - {p};
      case CreateDirs(p) =>
        dirsToCreate := dirsToCreate + {p};
        dirsToRemove := set r | r in dirsToRemove && !StartsWith(p, r);
      case Nop =>
      }
      i := i + 1;
    }
    assert tx.mods[..i] == tx.mods;
    s := TxSummary(filesToCreate, filesToRemove, dirsToCreate, dirsToRemove);
  }
}
