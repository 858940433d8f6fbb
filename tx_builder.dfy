/**
 * The transaction builder: four plans keyed by path (files to create, files to
 * remove, directories to create, directories to remove). A push replaces the
 * entry for its path and cancels the opposite entry; `build` lists the plans in
 * a fixed order, sorted by depth.
 */
module TxBuilding {
  import opened Wrappers
  import opened Paths
  import opened Fs

  /** The primitives the builder knows. */
  datatype Primitive =
    | Link(original: Path, target: Path)
    | CopyFile(source: Path, target: Path)
    | RemoveFile(path: Path)
    | RemoveDir(path: Path)
    | CreateDir(path: Path)
    | Nop

  /** The path a primitive acts on, the key it is planned under. */
  function Key(p: Primitive): Path {
    match p
    case Link(_, target) => target
    case CopyFile(_, target) => target
    case RemoveFile(path) => path
    case RemoveDir(path) => path
    case CreateDir(path) => path
    case Nop => []
  }

  /** A primitive that acts on files (`files` set) or on directories. */
  predicate IsMod(p: Primitive, files: bool) {
    if files then p.Link? || p.CopyFile? || p.RemoveFile? else p.CreateDir? || p.RemoveDir?
  }

  predicate IsRemoval(p: Primitive) {
    p.RemoveFile? || p.RemoveDir?
  }

  /** An executable transaction: its name, its primitives, and its backup directory. */
  datatype Transaction = Transaction(name: string, primitives: seq<Primitive>, backupDir: Path)

  /** The four maps of a builder. */
  datatype Plan = Plan(filesToCreate: map<Path, Primitive>, filesToRemove: map<Path, Primitive>,
                       dirsToCreate: map<Path, Primitive>, dirsToRemove: map<Path, Primitive>)
  {
    /** The creation map of files (`files` set) or of directories. */
    function Creates(files: bool): map<Path, Primitive> {
      if files then filesToCreate else dirsToCreate
    }

    function Removes(files: bool): map<Path, Primitive> {
      if files then filesToRemove else dirsToRemove
    }
  }

  const EmptyPlan := Plan(map[], map[], map[], map[])

  /** What a push does to the four maps. */
  function PushSpec(plan: Plan, p: Primitive): Plan {
    match p
    case Link(_, t) => plan.(filesToRemove := plan.filesToRemove - {t}, filesToCreate := plan.filesToCreate[t := p])
    case CopyFile(_, t) => plan.(filesToRemove := plan.filesToRemove - {t}, filesToCreate := plan.filesToCreate[t := p])
    case RemoveFile(t) => plan.(filesToCreate := plan.filesToCreate - {t}, filesToRemove := plan.filesToRemove[t := p])
    case RemoveDir(t) => plan.(dirsToCreate := plan.dirsToCreate - {t}, dirsToRemove := plan.dirsToRemove[t := p])
    case CreateDir(t) => plan.(dirsToRemove := plan.dirsToRemove - {t}, dirsToCreate := plan.dirsToCreate[t := p])
    case Nop => plan
  }

  /** Pushes a sequence of primitives, in order. */
  function PushAll(plan: Plan, ps: seq<Primitive>): Plan
    decreases |ps|
  {
    if ps == [] then plan else PushSpec(PushAll(plan, ps[..|ps| - 1]), ps[|ps| - 1])
  }

  /** Every entry of `m` is a primitive of the expected kind planned under its own path. */
  predicate KeyedMap(m: map<Path, Primitive>, files: bool, removal: bool) {
    forall k :: k in m ==> Key(m[k]) == k && IsMod(m[k], files) && IsRemoval(m[k]) == removal
  }

  /** The builder invariant: entries under their own paths, and no path planned both ways. */
  predicate ValidPlan(plan: Plan) {
    KeyedMap(plan.filesToCreate, true, false) && KeyedMap(plan.filesToRemove, true, true) &&
    KeyedMap(plan.dirsToCreate, false, false) && KeyedMap(plan.dirsToRemove, false, true) &&
    (forall k :: k in plan.filesToCreate ==> k !in plan.filesToRemove) &&
    (forall k :: k in plan.dirsToCreate ==> k !in plan.dirsToRemove)
  }

  lemma PushKeepsValid(plan: Plan, p: Primitive)
    requires ValidPlan(plan)
    ensures ValidPlan(PushSpec(plan, p))
  {
  }

  /** The last primitive of `ps` that acts on path `k`, on files or on directories. */
  function LastMod(ps: seq<Primitive>, k: Path, files: bool): (r: Option<Primitive>)
    ensures r.Some? ==> IsMod(r.value, files) && Key(r.value) == k && r.value in ps
    decreases |ps|
  {
    if ps == [] then None
    else if IsMod(ps[|ps| - 1], files) && Key(ps[|ps| - 1]) == k then Some(ps[|ps| - 1])
    else LastMod(ps[..|ps| - 1], k, files)
  }

  /**
   * Last write wins: after a sequence of pushes, a path is planned by the last
   * primitive that acted on it (creations and removals cancelling each other),
   * and a path no primitive acted on keeps its earlier plan.
   */
  lemma {:induction false} LastWriteWins(plan: Plan, ps: seq<Primitive>, k: Path, files: bool)
    ensures var r := PushAll(plan, ps);
      match LastMod(ps, k, files)
      case None =>
        (k in r.Creates(files) <==> k in plan.Creates(files)) &&
        (k in r.Creates(files) ==> r.Creates(files)[k] == plan.Creates(files)[k]) &&
        (k in r.Removes(files) <==> k in plan.Removes(files)) &&
        (k in r.Removes(files) ==> r.Removes(files)[k] == plan.Removes(files)[k])
      case Some(m) =>
        if IsRemoval(m) then k in r.Removes(files) && r.Removes(files)[k] == m && k !in r.Creates(files)
        else k in r.Creates(files) && r.Creates(files)[k] == m && k !in r.Removes(files)
    decreases |ps|
  {
    if ps != [] {
      LastWriteWins(plan, ps[..|ps| - 1], k, files);
      PushEntry(PushAll(plan, ps[..|ps| - 1]), ps[|ps| - 1], k, files);
    }
  }

  /** One push: the entry for `k` is set by a primitive on `k`, and left alone by any other. */
  lemma PushEntry(plan: Plan, p: Primitive, k: Path, files: bool)
    ensures var r := PushSpec(plan, p);
      if IsMod(p, files) && Key(p) == k then
        if IsRemoval(p) then k in r.Removes(files) && r.Removes(files)[k] == p && k !in r.Creates(files)
        else k in r.Creates(files) && r.Creates(files)[k] == p && k !in r.Removes(files)
      else
        (k in r.Creates(files) <==> k in plan.Creates(files)) &&
        (k in r.Creates(files) ==> r.Creates(files)[k] == plan.Creates(files)[k]) &&
        (k in r.Removes(files) <==> k in plan.Removes(files)) &&
        (k in r.Removes(files) ==> r.Removes(files)[k] == plan.Removes(files)[k])
  {
  }

  /** `xs` lists the entries of `m`, one per key, sorted by the depth of their paths. */
  predicate Listing(m: map<Path, Primitive>, xs: seq<Primitive>, ascending: bool) {
    |xs| == |m| &&
    (forall i, j :: 0 <= i < j < |xs| ==> Key(xs[i]) != Key(xs[j])) &&
    (forall i :: 0 <= i < |xs| ==> Key(xs[i]) in m && m[Key(xs[i])] == xs[i]) &&
    (forall i, j :: 0 <= i < j < |xs| ==> InDepthOrder(Key(xs[i]), Key(xs[j]), ascending))
  }

  /** The paths a list of primitives is keyed under. */
  function KeysOf(xs: seq<Primitive>): set<Path>
    decreases |xs|
  {
    if xs == [] then {} else KeysOf(xs[..|xs| - 1]) + {Key(xs[|xs| - 1])}
  }

  /** Every path of `KeysOf(xs)` is the key of some element of `xs`. */
  lemma {:induction false} KeyIndex(xs: seq<Primitive>, k: Path) returns (i: nat)
    requires k in KeysOf(xs)
    ensures i < |xs| && Key(xs[i]) == k
    decreases |xs|
  {
    var init := xs[..|xs| - 1];
    if k == Key(xs[|xs| - 1]) {
      i := |xs| - 1;
    } else {
      i := KeyIndex(init, k);
      assert init[i] == xs[i];
    }
  }

  /** The keys of a list of distinct keys form a set of the same size, holding each key. */
  lemma {:induction false} KeySetSize(xs: seq<Primitive>)
    requires forall i, j :: 0 <= i < j < |xs| ==> Key(xs[i]) != Key(xs[j])
    ensures |KeysOf(xs)| == |xs|
    ensures forall i :: 0 <= i < |xs| ==> Key(xs[i]) in KeysOf(xs)
    decreases |xs|
  {
    if xs != [] {
      var init := xs[..|xs| - 1];
      var last := Key(xs[|xs| - 1]);
      assert forall i, j :: 0 <= i < j < |init| ==> Key(init[i]) != Key(init[j]) by {
        forall i, j | 0 <= i < j < |init| ensures Key(init[i]) != Key(init[j]) {
          assert init[i] == xs[i] && init[j] == xs[j];
        }
      }
      KeySetSize(init);
      if last in KeysOf(init) {
        var i := KeyIndex(init, last);
        assert false;
      }
      forall i | 0 <= i < |xs| ensures Key(xs[i]) in KeysOf(xs) {
        if i < |init| {
          assert init[i] == xs[i];
        }
      }
    }
  }

  lemma {:induction false} SubsetOfSameSize<T>(a: set<T>, b: set<T>)
    requires a <= b && |a| == |b|
    ensures a == b
    decreases |a|
  {
    if a != {} {
      var x :| x in a;
      assert |b - {x}| == |b| - 1;
      SubsetOfSameSize(a - {x}, b - {x});
      assert a == (a - {x}) + {x} && b == (b - {x}) + {x};
    }
  }

  /** A listing holds every entry of its map (one primitive per entry, by counting). */
  lemma ListingCovers(m: map<Path, Primitive>, xs: seq<Primitive>, ascending: bool, k: Path)
    requires Listing(m, xs, ascending)
    requires k in m
    ensures exists i :: 0 <= i < |xs| && xs[i] == m[k]
  {
    KeySetSize(xs);
    assert KeysOf(xs) <= m.Keys by {
      forall k' | k' in KeysOf(xs) ensures k' in m.Keys {
        var i := KeyIndex(xs, k');
      }
    }
    assert |m.Keys| == |m|;
    SubsetOfSameSize(KeysOf(xs), m.Keys);
    var i := KeyIndex(xs, k);
  }

  /** The output order of `build`: directory creations, file creations, file removals, directory removals. */
  predicate Emits(plan: Plan, ps: seq<Primitive>) {
    var n1 := |plan.dirsToCreate|;
    var n2 := n1 + |plan.filesToCreate|;
    var n3 := n2 + |plan.filesToRemove|;
    |ps| == n3 + |plan.dirsToRemove| &&
    Listing(plan.dirsToCreate, ps[..n1], true) &&
    Listing(plan.filesToCreate, ps[n1..n2], true) &&
    Listing(plan.filesToRemove, ps[n2..n3], false) &&
    Listing(plan.dirsToRemove, ps[n3..], false)
  }

  /** Four groups, concatenated, can be cut back out at their offsets. */
  lemma CutGroups<T>(g1: seq<T>, g2: seq<T>, g3: seq<T>, g4: seq<T>)
    ensures var ps := g1 + g2 + g3 + g4;
      var n1 := |g1|;
      var n2 := n1 + |g2|;
      var n3 := n2 + |g3|;
      |ps| == n3 + |g4| && ps[..n1] == g1 && ps[n1..n2] == g2 && ps[n2..n3] == g3 && ps[n3..] == g4
  {
  }

  /** Four listings, concatenated in group order, are what `build` emits. */
  lemma EmitsGroups(plan: Plan, g1: seq<Primitive>, g2: seq<Primitive>, g3: seq<Primitive>, g4: seq<Primitive>)
    requires Listing(plan.dirsToCreate, g1, true) && Listing(plan.filesToCreate, g2, true)
    requires Listing(plan.filesToRemove, g3, false) && Listing(plan.dirsToRemove, g4, false)
    ensures Emits(plan, g1 + g2 + g3 + g4)
  {
    CutGroups(g1, g2, g3, g4);
  }

  /** Lists one map of the builder, sorted by depth. */
  method ListGroup(m: map<Path, Primitive>, ascending: bool) returns (xs: seq<Primitive>)
    requires forall k :: k in m ==> Key(m[k]) == k
    ensures Listing(m, xs, ascending)
  {
    var keys := SortByDepth(m.Keys, ascending);
    xs := [];
    var i := 0;
    while i < |keys|
      invariant 0 <= i <= |keys|
      invariant |xs| == i
      invariant forall j :: 0 <= j < i ==> xs[j] == m[keys[j]] && Key(xs[j]) == keys[j]
    {
      xs := xs + [m[keys[i]]];
      i := i + 1;
    }
    assert |m.Keys| == |m|;
  }

  /** The builder, whose four maps are updated in place. */
  class TxBuilder {
    var filesToCreate: map<Path, Primitive>
    var filesToRemove: map<Path, Primitive>
    var dirsToCreate: map<Path, Primitive>
    var dirsToRemove: map<Path, Primitive>

    function State(): Plan
      reads this
    {
      Plan(filesToCreate, filesToRemove, dirsToCreate, dirsToRemove)
    }

    predicate Valid()
      reads this
    {
      ValidPlan(State())
    }

    /** `TxBuilder::empty` */
    constructor Empty()
      ensures State() == EmptyPlan && Valid()
    {
      filesToCreate := map[];
      filesToRemove := map[];
      dirsToCreate := map[];
      dirsToRemove := map[];
    }

    /** `will_create_dir`: the builder plans to create the directory `p`. */
    predicate WillCreateDir(p: Path)
      reads this
    {
      p in dirsToCreate
    }

    /** `len`: the number of primitives `build` emits. */
    function Len(): nat
      reads this
    {
      |dirsToCreate| + |dirsToRemove| + |filesToCreate| + |filesToRemove|
    }

    method Push(p: Primitive)
      modifies this
      ensures State() == PushSpec(old(State()), p)
      ensures old(Valid()) ==> Valid()
    {
      match p
      case Link(_, t) =>
        filesToRemove := filesToRemove - {t};
        filesToCreate := filesToCreate[t := p];
      case CopyFile(_, t) =>
        filesToRemove := filesToRemove - {t};
        filesToCreate := filesToCreate[t := p];
      case RemoveFile(t) =>
        filesToCreate := filesToCreate - {t};
        filesToRemove := filesToRemove[t := p];
      case RemoveDir(t) =>
        dirsToCreate := dirsToCreate - {t};
        dirsToRemove := dirsToRemove[t := p];
      case CreateDir(t) =>
        dirsToRemove := dirsToRemove - {t};
        dirsToCreate := dirsToCreate[t := p];
      case Nop =>
    }

    method Link(original: Path, target: Path)
      modifies this
      ensures State() == PushSpec(old(State()), Primitive.Link(original, target))
      ensures old(Valid()) ==> Valid()
    {
      Push(Primitive.Link(original, target));
    }

    method CopyFile(source: Path, target: Path)
      modifies this
      ensures State() == PushSpec(old(State()), Primitive.CopyFile(source, target))
      ensures old(Valid()) ==> Valid()
    {
      Push(Primitive.CopyFile(source, target));
    }

    method RemoveFile(target: Path)
      modifies this
      ensures State() == PushSpec(old(State()), Primitive.RemoveFile(target))
      ensures old(Valid()) ==> Valid()
    {
      Push(Primitive.RemoveFile(target));
    }

    method CreateDir(target: Path)
      modifies this
      ensures State() == PushSpec(old(State()), Primitive.CreateDir(target))
      ensures old(Valid()) ==> Valid()
    {
      Push(Primitive.CreateDir(target));
    }

    method RemoveDir(target: Path)
      modifies this
      ensures State() == PushSpec(old(State()), Primitive.RemoveDir(target))
      ensures old(Valid()) ==> Valid()
    {
      Push(Primitive.RemoveDir(target));
    }

    /**
     * `build`: the primitives of the four maps in group order, each group sorted
     * by depth (ascending for creations, descending for removals). `generated`
     * is the backup directory `Transaction::generate` provides, or its failure.
     */
    method Build(name: string, generated: Result<Path, Error>) returns (r: Result<Transaction, Error>)
      requires Valid()
      ensures generated.Failure? ==> r == Failure(generated.error)
      ensures generated.Success? ==>
        r.Success? && r.value.name == name && r.value.backupDir == generated.value &&
        |r.value.primitives| == Len() && Emits(State(), r.value.primitives)
    {
      var g1 := ListGroup(dirsToCreate, true);
      var g2 := ListGroup(filesToCreate, true);
      var g3 := ListGroup(filesToRemove, false);
      var g4 := ListGroup(dirsToRemove, false);
      var primitives := g1 + g2 + g3 + g4;
      EmitsGroups(State(), g1, g2, g3, g4);
      if generated.Failure? {
        return Failure(generated.error);
      }
      return Success(Transaction(name, primitives, generated.value));
    }
  }

  /** `will_create_dir` after a sequence of pushes: the last directory primitive on `p` was a creation. */
  lemma WillCreateDirAfterPushes(ps: seq<Primitive>, p: Path)
    ensures p in PushAll(EmptyPlan, ps).dirsToCreate <==> LastMod(ps, p, false).Some? && LastMod(ps, p, false).value.CreateDir?
  {
    LastWriteWins(EmptyPlan, ps, p, false);
  }
}
