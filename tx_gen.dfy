/**
 * Planners that push primitives into a transaction builder after querying a
 * snapshot of the filesystem: removing a tree, removing anything, ensuring
 * directories, and creating links below a root.
 */
module TxGen {
  import opened Wrappers
  import opened Paths
  import opened Fs
  import opened TxBuilding

  /** The removal `remove_dir_all` plans for a walked entry: a file or symlink, or a directory. */
  function RemovalFor(s: Snapshot, p: Path): (r: Primitive)
    ensures Key(r) == p && IsRemoval(r)
    ensures r.RemoveFile? <==> IsSymlink(s, p) || IsFile(s, p)
  {
    if IsSymlink(s, p) || IsFile(s, p) then RemoveFile(p) else RemoveDir(p)
  }

  function Removals(s: Snapshot, order: seq<Path>): (r: seq<Primitive>)
    ensures |r| == |order| && forall i :: 0 <= i < |order| ==> r[i] == RemovalFor(s, order[i])
  {
    seq(|order|, i requires 0 <= i < |order| => RemovalFor(s, order[i]))
  }

  /** The last removal of `k` in a list of removals is the removal planned for `k`. */
  lemma {:induction false} LastRemoval(s: Snapshot, order: seq<Path>, k: Path, files: bool)
    ensures LastMod(Removals(s, order), k, files) ==
      if k in order && RemovalFor(s, k).RemoveFile? == files then Some(RemovalFor(s, k)) else None
    decreases |order|
  {
    if order != [] {
      var ps := Removals(s, order);
      assert ps[..|ps| - 1] == Removals(s, order[..|order| - 1]);
      assert order == order[..|order| - 1] + [order[|order| - 1]];
      LastRemoval(s, order[..|order| - 1], k, files);
    }
  }

  /** `plan` removes `p` the way `remove_dir_all` plans it, and does not also create it. */
  predicate PlansRemoval(plan: Plan, s: Snapshot, p: Path) {
    var files := RemovalFor(s, p).RemoveFile?;
    p in plan.Removes(files) && plan.Removes(files)[p] == RemovalFor(s, p) && p !in plan.Creates(files)
  }

  /** After pushing the removals of `order`, each path of `order` is planned for removal. */
  lemma RemovalsPlanned(plan: Plan, s: Snapshot, order: seq<Path>, p: Path)
    requires p in order
    ensures PlansRemoval(PushAll(plan, Removals(s, order)), s, p)
  {
    var files := RemovalFor(s, p).RemoveFile?;
    LastRemoval(s, order, p, files);
    LastWriteWins(plan, Removals(s, order), p, files);
  }

  /**
   * What `remove_dir_all` leaves in the builder: the removal of every walked
   * entry, target included, pushed in non-increasing depth (`order`).
   */
  ghost predicate RemovedAll(before: Plan, after: Plan, s: Snapshot, target: Path, order: seq<Path>) {
    NoDup(order) && (forall p :: p in order <==> p in Walk(s, target)) && DepthSorted(order, false) &&
    after == PushAll(before, Removals(s, order)) &&
    forall p :: p in Walk(s, target) ==> PlansRemoval(after, s, p)
  }

  /**
   * `remove_dir_all`: refuses a target that is a symlink or a file, pushing
   * nothing; otherwise removes the whole walk, deepest entries first.
   */
  method RemoveDirAll(b: TxBuilder, target: Path, s: Snapshot) returns (r: Result<Unit, Error>, ghost order: seq<Path>)
    modifies b
    ensures r.Failure? <==> IsSymlink(s, target) || IsFile(s, target)
    ensures r.Failure? ==> r.error == NotADirectory(target) && b.State() == old(b.State())
    ensures r.Success? ==> RemovedAll(old(b.State()), b.State(), s, target, order)
    ensures old(b.Valid()) ==> b.Valid()
  {
    if IsSymlink(s, target) || IsFile(s, target) {
      return Failure(NotADirectory(target)), [];
    }
    var keys := SortByDepth(Walk(s, target), false);
    order := keys;
    PushRemovals(b, s, keys);
    forall p | p in Walk(s, target) ensures PlansRemoval(b.State(), s, p) {
      RemovalsPlanned(old(b.State()), s, keys, p);
    }
    r := Success(Unit);
  }

  /** The loop of `remove_dir_all`: the removal of each path, in order. */
  method PushRemovals(b: TxBuilder, s: Snapshot, keys: seq<Path>)
    modifies b
    ensures b.State() == PushAll(old(b.State()), Removals(s, keys))
    ensures old(b.Valid()) ==> b.Valid()
  {
    var i := 0;
    while i < |keys|
      invariant 0 <= i <= |keys|
      invariant b.State() == PushAll(old(b.State()), Removals(s, keys[..i]))
      invariant old(b.Valid()) ==> b.Valid()
    {
      assert Removals(s, keys[..i + 1])[..i] == Removals(s, keys[..i]);
      var p := keys[i];
      if IsSymlink(s, p) || IsFile(s, p) {
        b.RemoveFile(p);
      } else {
        b.RemoveDir(p);
      }
      i := i + 1;
    }
    assert keys[..i] == keys;
  }

  /** `remove_any`: a file or symlink is removed by itself, anything else as a tree; it never fails. */
  method RemoveAny(b: TxBuilder, target: Path, s: Snapshot) returns (r: Result<Unit, Error>, ghost order: seq<Path>)
    modifies b
    ensures r.Success?
    ensures IsSymlink(s, target) || IsFile(s, target) ==> b.State() == PushSpec(old(b.State()), RemoveFile(target))
    ensures !(IsSymlink(s, target) || IsFile(s, target)) ==> RemovedAll(old(b.State()), b.State(), s, target, order)
    ensures old(b.Valid()) ==> b.Valid()
  {
    if IsSymlink(s, target) || IsFile(s, target) {
      b.RemoveFile(target);
      return Success(Unit), [target];
    }
    r, order := RemoveDirAll(b, target, s);
  }

  /** The paths of `xs`, in order, that have no entry in `s` and are not planned in `dirs`. */
  function Missing(dirs: map<Path, Primitive>, s: Snapshot, xs: seq<Path>): seq<Path>
    decreases |xs|
  {
    if xs == [] then []
    else
      var x := xs[|xs| - 1];
      Missing(dirs, s, xs[..|xs| - 1]) + (if !HasEntry(s, x) && x !in dirs then [x] else [])
  }

  lemma {:induction false} MissingMembers(dirs: map<Path, Primitive>, s: Snapshot, xs: seq<Path>, x: Path)
    ensures x in Missing(dirs, s, xs) <==> x in xs && !HasEntry(s, x) && x !in dirs
    decreases |xs|
  {
    if xs != [] {
      assert xs == xs[..|xs| - 1] + [xs[|xs| - 1]];
      MissingMembers(dirs, s, xs[..|xs| - 1], x);
    }
  }

  /** Filtering keeps the order: a list sorted by ascending depth stays sorted. */
  lemma {:induction false} MissingSorted(dirs: map<Path, Primitive>, s: Snapshot, xs: seq<Path>)
    requires DepthSorted(xs, true)
    ensures DepthSorted(Missing(dirs, s, xs), true)
    decreases |xs|
  {
    if xs != [] {
      var init := xs[..|xs| - 1];
      var x := xs[|xs| - 1];
      MissingSorted(dirs, s, init);
      var m := Missing(dirs, s, init);
      forall i | 0 <= i < |m| ensures Depth(m[i]) <= Depth(x) {
        MissingMembers(dirs, s, init, m[i]);
        var j :| 0 <= j < |init| && init[j] == m[i];
      }
    }
  }

  /** The ancestors `ensure_dirs` creates: outermost first, absent and not yet planned. */
  function MissingAncestors(plan: Plan, s: Snapshot, path: Path): seq<Path> {
    Missing(plan.dirsToCreate, s, Reverse(Ancestors(path)))
  }

  function CreateDirs(xs: seq<Path>): (r: seq<Primitive>)
    ensures |r| == |xs| && forall i :: 0 <= i < |xs| ==> r[i] == CreateDir(xs[i])
  {
    seq(|xs|, i requires 0 <= i < |xs| => CreateDir(xs[i]))
  }

  /** Reversed, the ancestors of a path go from the outermost to the path itself. */
  lemma AncestorsOutermostFirst(path: Path)
    ensures DepthSorted(Reverse(Ancestors(path)), true)
  {
    var anc := Ancestors(path);
    var rev := Reverse(anc);
    forall i, j | 0 <= i < j < |rev| ensures InDepthOrder(rev[i], rev[j], true) {
      AncestorsAt(path, |anc| - 1 - i);
      AncestorsAt(path, |anc| - 1 - j);
    }
  }

  /**
   * Pushing directory creations plans exactly those directories on top of the
   * earlier ones, cancels their removals, and leaves the file maps alone.
   */
  lemma {:induction false} PushCreateDirs(plan: Plan, xs: seq<Path>)
    ensures var r := PushAll(plan, CreateDirs(xs));
      r.dirsToCreate.Keys == plan.dirsToCreate.Keys + (set x | x in xs) &&
      r.dirsToRemove.Keys == plan.dirsToRemove.Keys - (set x | x in xs) &&
      r.filesToCreate == plan.filesToCreate && r.filesToRemove == plan.filesToRemove
    decreases |xs|
  {
    if xs != [] {
      var ps := CreateDirs(xs);
      assert ps[..|ps| - 1] == CreateDirs(xs[..|xs| - 1]);
      assert xs == xs[..|xs| - 1] + [xs[|xs| - 1]];
      PushCreateDirs(plan, xs[..|xs| - 1]);
    }
  }

  /** The ancestors `ensure_dirs` plans: those that have no entry and are not planned yet. */
  lemma MissingAncestorsMembers(plan: Plan, s: Snapshot, path: Path, a: Path)
    ensures a in MissingAncestors(plan, s, path) <==> a in Ancestors(path) && !HasEntry(s, a) && a !in plan.dirsToCreate
  {
    var anc := Ancestors(path);
    var rev := Reverse(anc);
    MissingMembers(plan.dirsToCreate, s, rev, a);
    ReverseMembers(anc, a);
  }

  lemma ReverseMembers<T>(xs: seq<T>, x: T)
    ensures x in Reverse(xs) <==> x in xs
  {
    var rev := Reverse(xs);
    if x in xs {
      var i :| 0 <= i < |xs| && xs[i] == x;
      assert rev[|xs| - 1 - i] == x;
    }
    if x in rev {
      var j :| 0 <= j < |rev| && rev[j] == x;
      assert xs[|xs| - 1 - j] == x;
    }
  }

  /** After `ensure_dirs`, the builder creates every ancestor that has no entry. */
  lemma EnsureDirsCovers(plan: Plan, s: Snapshot, path: Path, a: Path)
    requires a in Ancestors(path) && !HasEntry(s, a)
    ensures a in PushAll(plan, CreateDirs(MissingAncestors(plan, s, path))).dirsToCreate
  {
    var missing := MissingAncestors(plan, s, path);
    MissingAncestorsMembers(plan, s, path, a);
    PushCreateDirs(plan, missing);
    if a !in plan.dirsToCreate {
      assert a in (set x | x in missing);
    }
  }

  /**
   * `ensure_dirs` plans exactly the absent, unplanned ancestors, outermost
   * first; a second call with the same path against the same snapshot finds
   * nothing left to plan.
   */
  lemma EnsureDirsIdempotent(plan: Plan, s: Snapshot, path: Path)
    ensures var missing := MissingAncestors(plan, s, path);
      DepthSorted(missing, true) &&
      (forall a :: a in missing <==> a in Ancestors(path) && !HasEntry(s, a) && a !in plan.dirsToCreate) &&
      MissingAncestors(PushAll(plan, CreateDirs(missing)), s, path) == []
  {
    var missing := MissingAncestors(plan, s, path);
    var after := PushAll(plan, CreateDirs(missing));
    AncestorsOutermostFirst(path);
    MissingSorted(plan.dirsToCreate, s, Reverse(Ancestors(path)));
    forall a ensures a in missing <==> a in Ancestors(path) && !HasEntry(s, a) && a !in plan.dirsToCreate {
      MissingAncestorsMembers(plan, s, path, a);
    }
    var again := MissingAncestors(after, s, path);
    if again != [] {
      var a := again[0];
      MissingAncestorsMembers(after, s, path, a);
      EnsureDirsCovers(plan, s, path, a);
      assert false;
    }
  }

  /** `ensure_dirs`: pushes `create_dir` for each absent, unplanned ancestor, outermost first. */
  method EnsureDirs(b: TxBuilder, path: Path, s: Snapshot) returns (r: Result<Unit, Error>)
    modifies b
    ensures r.Success?
    ensures b.State() == PushAll(old(b.State()), CreateDirs(MissingAncestors(old(b.State()), s, path)))
    ensures forall a :: a in Ancestors(path) && !HasEntry(s, a) ==> b.WillCreateDir(a)
    ensures old(b.Valid()) ==> b.Valid()
  {
    var rev := Reverse(Ancestors(path));
    var todo: seq<Path> := [];
    var i := 0;
    while i < |rev|
      invariant 0 <= i <= |rev|
      invariant todo == Missing(b.dirsToCreate, s, rev[..i])
    {
      assert rev[..i + 1][..i] == rev[..i];
      if !HasEntry(s, rev[i]) && !b.WillCreateDir(rev[i]) {
        todo := todo + [rev[i]];
      }
      i := i + 1;
    }
    assert rev[..i] == rev;
    i := 0;
    while i < |todo|
      invariant 0 <= i <= |todo|
      invariant b.State() == PushAll(old(b.State()), CreateDirs(todo[..i]))
      invariant old(b.Valid()) ==> b.Valid()
    {
      assert CreateDirs(todo[..i + 1])[..i] == CreateDirs(todo[..i]);
      b.CreateDir(todo[i]);
      i := i + 1;
    }
    assert todo[..i] == todo;
    forall a | a in Ancestors(path) && !HasEntry(s, a) ensures b.WillCreateDir(a) {
      EnsureDirsCovers(old(b.State()), s, path, a);
    }
    r := Success(Unit);
  }

  /** The builder after the links so far, or the error that stopped `create_links`. */
  datatype Planned = Planned(plan: Plan, error: Option<Error>)

  /** One link: ensure the parent of its virtual target, then link it. */
  function LinkStep(plan: Plan, root: Path, link: ResolvedLink, s: Snapshot): Planned {
    var v := VirtualTarget(root, link.absTarget);
    match Parent(v)
    case None => Planned(plan, Some(NoParent(v)))
    case Some(parent) =>
      Planned(PushSpec(PushAll(plan, CreateDirs(MissingAncestors(plan, s, parent))), Link(link.absSource, v)), None)
  }

  /** `create_links`: the links in order, stopping at the first that has no parent. */
  function CreateLinksSpec(plan: Plan, root: Path, links: seq<ResolvedLink>, s: Snapshot): Planned
    decreases |links|
  {
    if links == [] then Planned(plan, None)
    else
      var prev := CreateLinksSpec(plan, root, links[..|links| - 1], s);
      if prev.error.Some? then prev else LinkStep(prev.plan, root, links[|links| - 1], s)
  }

  /** A later link step keeps every planned file creation planned. */
  lemma LinkStepKeepsCreations(plan: Plan, root: Path, link: ResolvedLink, s: Snapshot, v: Path)
    requires v in plan.filesToCreate
    ensures v in LinkStep(plan, root, link, s).plan.filesToCreate
  {
    var w := VirtualTarget(root, link.absTarget);
    match Parent(w)
    case None =>
    case Some(parent) =>
      PushCreateDirs(plan, MissingAncestors(plan, s, parent));
  }

  /**
   * When `create_links` succeeds, the virtual target of every link is a
   * planned file creation, and the last link onto the last target is planned
   * as that link.
   */
  lemma {:induction false} CreateLinksPlansEveryTarget(plan: Plan, root: Path, links: seq<ResolvedLink>, s: Snapshot)
    ensures var r := CreateLinksSpec(plan, root, links, s);
      r.error.None? ==>
        (forall i :: 0 <= i < |links| ==> VirtualTarget(root, links[i].absTarget) in r.plan.filesToCreate) &&
        (links != [] ==>
          var last := links[|links| - 1];
          var v := VirtualTarget(root, last.absTarget);
          r.plan.filesToCreate[v] == Link(last.absSource, v))
    decreases |links|
  {
    if links != [] {
      var init := links[..|links| - 1];
      var last := links[|links| - 1];
      var prev := CreateLinksSpec(plan, root, init, s);
      CreateLinksPlansEveryTarget(plan, root, init, s);
      var r := CreateLinksSpec(plan, root, links, s);
      if prev.error.None? && r.error.None? {
        assert r == LinkStep(prev.plan, root, last, s);
        LinkStepPlansLink(prev.plan, root, last, s);
        forall i | 0 <= i < |links| ensures VirtualTarget(root, links[i].absTarget) in r.plan.filesToCreate {
          if i < |links| - 1 {
            assert links[i] == init[i];
            LinkStepKeepsCreations(prev.plan, root, last, s, VirtualTarget(root, links[i].absTarget));
          }
        }
      }
    }
  }

  /** A later link step keeps every planned directory creation planned. */
  lemma LinkStepKeepsDirs(plan: Plan, root: Path, link: ResolvedLink, s: Snapshot, d: Path)
    requires d in plan.dirsToCreate
    ensures d in LinkStep(plan, root, link, s).plan.dirsToCreate
  {
    var w := VirtualTarget(root, link.absTarget);
    match Parent(w)
    case None =>
    case Some(parent) =>
      PushCreateDirs(plan, MissingAncestors(plan, s, parent));
  }

  /** A link step that succeeds plans every absent ancestor of its target's parent for creation. */
  lemma LinkStepCoversParent(plan: Plan, root: Path, link: ResolvedLink, s: Snapshot, a: Path)
    requires Parent(VirtualTarget(root, link.absTarget)).Some?
    requires a in Ancestors(Parent(VirtualTarget(root, link.absTarget)).value) && !HasEntry(s, a)
    ensures a in LinkStep(plan, root, link, s).plan.dirsToCreate
  {
    var parent := Parent(VirtualTarget(root, link.absTarget)).value;
    EnsureDirsCovers(plan, s, parent, a);
  }

  /**
   * When `create_links` succeeds, the virtual directory of every link exists
   * or is planned: every ancestor of the parent of its virtual target that has
   * no entry stays planned for creation through all the later link steps.
   */
  lemma {:induction false} CreateLinksPlansParents(plan: Plan, root: Path, links: seq<ResolvedLink>, s: Snapshot,
                                                   i: nat, a: Path)
    requires i < |links|
    requires CreateLinksSpec(plan, root, links, s).error.None?
    requires Parent(VirtualTarget(root, links[i].absTarget)).Some?
    requires a in Ancestors(Parent(VirtualTarget(root, links[i].absTarget)).value) && !HasEntry(s, a)
    ensures a in CreateLinksSpec(plan, root, links, s).plan.dirsToCreate
    decreases |links|
  {
    var init := links[..|links| - 1];
    var last := links[|links| - 1];
    var prev := CreateLinksSpec(plan, root, init, s);
    assert CreateLinksSpec(plan, root, links, s) == LinkStep(prev.plan, root, last, s);
    if i == |links| - 1 {
      LinkStepCoversParent(prev.plan, root, last, s, a);
    } else {
      assert links[i] == init[i];
      CreateLinksPlansParents(plan, root, init, s, i, a);
      LinkStepKeepsDirs(prev.plan, root, last, s, a);
    }
  }

  /** A link step that succeeds plans its link at its virtual target. */
  lemma LinkStepPlansLink(plan: Plan, root: Path, link: ResolvedLink, s: Snapshot)
    ensures var r := LinkStep(plan, root, link, s);
      var v := VirtualTarget(root, link.absTarget);
      r.error.None? ==> v in r.plan.filesToCreate && r.plan.filesToCreate[v] == Link(link.absSource, v)
  {
  }

  /**
   * `create_links`: for each link, in order, the parent directories of its
   * virtual target are ensured and the link is pushed; a virtual target with
   * no parent stops the planning with an error, the earlier links staying
   * planned.
   */
  method CreateLinks(b: TxBuilder, root: Path, links: seq<ResolvedLink>, s: Snapshot) returns (r: Result<Unit, Error>)
    modifies b
    ensures var spec := CreateLinksSpec(old(b.State()), root, links, s);
      b.State() == spec.plan && (r.Failure? <==> spec.error.Some?) && (r.Failure? ==> r.error == spec.error.value)
    ensures old(b.Valid()) ==> b.Valid()
  {
    var i := 0;
    while i < |links|
      invariant 0 <= i <= |links|
      invariant CreateLinksSpec(old(b.State()), root, links[..i], s) == Planned(b.State(), None)
      invariant old(b.Valid()) ==> b.Valid()
    {
      assert links[..i + 1][..i] == links[..i];
      var link := links[i];
      var v := VirtualTarget(root, link.absTarget);
      var parent := Parent(v);
      if parent.None? {
        assert CreateLinksSpec(old(b.State()), root, links[..i + 1], s) == Planned(b.State(), Some(NoParent(v)));
        CreateLinksStops(old(b.State()), root, links, s, i + 1);
        return Failure(NoParent(v));
      }
      var _ := EnsureDirs(b, parent.value, s);
      b.Link(link.absSource, v);
      i := i + 1;
    }
    assert links[..i] == links;
    r := Success(Unit);
  }

  /** Once `create_links` has failed, the remaining links change nothing. */
  lemma {:induction false} CreateLinksStops(plan: Plan, root: Path, links: seq<ResolvedLink>, s: Snapshot, n: nat)
    requires n <= |links|
    requires CreateLinksSpec(plan, root, links[..n], s).error.Some?
    ensures CreateLinksSpec(plan, root, links, s) == CreateLinksSpec(plan, root, links[..n], s)
    decreases |links| - n
  {
    if n < |links| {
      assert links[..n + 1][..n] == links[..n];
      CreateLinksStops(plan, root, links, s, n + 1);
    } else {
      assert links[..n] == links;
    }
  }
}
