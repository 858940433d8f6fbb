/**
 * The virtual system: a build directory holding one symlink per exposed
 * source, at the source's target path re-rooted below the build directory.
 * Building plans those links; deploying decodes each leaf of the build back
 * into its real target and links (or copies) it there; undeploying removes
 * those targets.
 */
module VirtualSystems {
  import opened Wrappers
  import opened Paths
  import opened Fs
  import opened ModuleParsing

  /** The modifications of the filesystem transactions this layer builds. */
  datatype FsMod = CreateDirs(path: Path) | Link(original: Path, target: Path) | RemoveAll(path: Path)

  /** A filesystem transaction under construction. */
  class FsTransaction {
    var mods: seq<FsMod>

    /** `FsTransaction::empty` */
    constructor Empty()
      ensures mods == []
    {
      mods := [];
    }

    method Push(m: FsMod)
      modifies this
      ensures mods == old(mods) + [m]
    {
      mods := mods + [m];
    }

    method Append(ms: seq<FsMod>)
      modifies this
      ensures mods == old(mods) + ms
    {
      mods := mods + ms;
    }
  }

  /** A built virtual system: its name and its directory. */
  datatype VirtualSystem = VirtualSystem(name: string, path: Path)

  /** `PathBuf::from("builds").join(name)` */
  function BuildDir(name: string): Path {
    ["builds", name]
  }

  /** A path in normal form: the root component, if any, comes first and only there. */
  predicate Normalized(p: Path) {
    forall i :: 1 <= i < |p| ==> p[i] != "/"
  }

  /** The two modifications `build_at_root` plans for one link: its parent directories, then the link. */
  function LinkMods(root: Path, link: ResolvedLink): Result<seq<FsMod>, Error> {
    var v := VirtualTarget(root, link.absTarget);
    match Parent(v)
    case None => Failure(NoParent(v))
    case Some(parent) => Success([CreateDirs(parent), Link(link.absSource, v)])
  }

  /** `build_at_root`: the modifications of every link in order, failing at the first without a parent. */
  function BuildAtRootSpec(root: Path, links: seq<ResolvedLink>): Result<seq<FsMod>, Error>
    decreases |links|
  {
    if links == [] then Success([])
    else
      var prev :- BuildAtRootSpec(root, links[..|links| - 1]);
      var last :- LinkMods(root, links[|links| - 1]);
      Success(prev + last)
  }

  /**
   * `build_at_root` fails exactly when the virtual target of some link has no
   * parent; otherwise it plans two modifications per link, in link order:
   * `CreateDirs` of the parent of the virtual target, then the link to it.
   */
  lemma BuildAtRootShape(root: Path, links: seq<ResolvedLink>)
    ensures var r := BuildAtRootSpec(root, links);
      (r.Failure? <==> exists i :: 0 <= i < |links| && IsRoot(VirtualTarget(root, links[i].absTarget))) &&
      (r.Success? ==>
        |r.value| == 2 * |links| &&
        forall i :: 0 <= i < |links| ==>
          var v := VirtualTarget(root, links[i].absTarget);
          r.value[2 * i] == CreateDirs(v[..|v| - 1]) && r.value[2 * i + 1] == Link(links[i].absSource, v))
  {
    BuildAtRootFails(root, links);
    BuildAtRootPairs(root, links);
  }

  lemma {:induction false} BuildAtRootFails(root: Path, links: seq<ResolvedLink>)
    ensures BuildAtRootSpec(root, links).Failure? <==>
      exists i :: 0 <= i < |links| && IsRoot(VirtualTarget(root, links[i].absTarget))
    decreases |links|
  {
    if links != [] {
      var init := links[..|links| - 1];
      var link := links[|links| - 1];
      BuildAtRootFails(root, init);
      if BuildAtRootSpec(root, init).Failure? {
        var i :| 0 <= i < |init| && IsRoot(VirtualTarget(root, init[i].absTarget));
        assert links[i] == init[i];
      } else if BuildAtRootSpec(root, links).Failure? {
        assert IsRoot(VirtualTarget(root, link.absTarget));
      } else {
        forall i | 0 <= i < |links| ensures !IsRoot(VirtualTarget(root, links[i].absTarget)) {
          if i < |init| {
            assert links[i] == init[i];
          }
        }
      }
    }
  }

  lemma {:induction false} BuildAtRootPairs(root: Path, links: seq<ResolvedLink>)
    ensures var r := BuildAtRootSpec(root, links);
      r.Success? ==>
        |r.value| == 2 * |links| &&
        forall i :: 0 <= i < |links| ==>
          var v := VirtualTarget(root, links[i].absTarget);
          !IsRoot(v) && r.value[2 * i] == CreateDirs(v[..|v| - 1]) && r.value[2 * i + 1] == Link(links[i].absSource, v)
    decreases |links|
  {
    if links != [] {
      var init := links[..|links| - 1];
      var link := links[|links| - 1];
      BuildAtRootPairs(root, init);
      var r := BuildAtRootSpec(root, links);
      if r.Success? {
        var prev := BuildAtRootSpec(root, init).value;
        var last := LinkMods(root, link).value;
        assert r.value == prev + last;
        forall i | 0 <= i < |links|
          ensures var v := VirtualTarget(root, links[i].absTarget);
            !IsRoot(v) && r.value[2 * i] == CreateDirs(v[..|v| - 1]) && r.value[2 * i + 1] == Link(links[i].absSource, v)
        {
          if i < |init| {
            assert links[i] == init[i];
            assert r.value[2 * i] == prev[2 * i] && r.value[2 * i + 1] == prev[2 * i + 1];
          } else {
            assert r.value[2 * i] == last[0] && r.value[2 * i + 1] == last[1];
          }
        }
      }
    }
  }

  /** `VirtualSystemBuilder::build_at_root`: one `CreateDirs` and one `Link` pushed per link. */
  method BuildAtRoot(root: Path, links: seq<ResolvedLink>) returns (r: Result<FsTransaction, Error>)
    ensures var spec := BuildAtRootSpec(root, links);
      (r.Success? <==> spec.Success?) && (r.Success? ==> r.value.mods == spec.value) &&
      (r.Failure? ==> r.error == spec.error)
  {
    var tx := new FsTransaction.Empty();
    var i := 0;
    while i < |links|
      invariant 0 <= i <= |links|
      invariant BuildAtRootSpec(root, links[..i]) == Success(tx.mods)
    {
      assert links[..i + 1][..i] == links[..i];
      var v := VirtualTarget(root, links[i].absTarget);
      var parent := Parent(v);
      if parent.None? {
        BuildAtRootStops(root, links, i + 1);
        return Failure(NoParent(v));
      }
      assert LinkMods(root, links[i]) == Success([CreateDirs(parent.value), Link(links[i].absSource, v)]);
      ghost var before := tx.mods;
      assert BuildAtRootSpec(root, links[..i + 1]) ==
        Success(before + [CreateDirs(parent.value), Link(links[i].absSource, v)]);
      tx.Push(CreateDirs(parent.value));
      tx.Push(Link(links[i].absSource, v));
      assert tx.mods == before + [CreateDirs(parent.value), Link(links[i].absSource, v)];
      i := i + 1;
    }
    assert links[..i] == links;
    r := Success(tx);
  }

  /** Once `build_at_root` has failed, the remaining links do not matter. */
  lemma {:induction false} BuildAtRootStops(root: Path, links: seq<ResolvedLink>, n: nat)
    requires n <= |links| && BuildAtRootSpec(root, links[..n]).Failure?
    ensures BuildAtRootSpec(root, links) == BuildAtRootSpec(root, links[..n])
    decreases |links| - n
  {
    if n < |links| {
      assert links[..n + 1][..n] == links[..n];
      BuildAtRootStops(root, links, n + 1);
    } else {
      assert links[..n] == links;
    }
  }

  /** The real target a leaf of the build directory `dir` stands for: "/" joined with the leaf below `dir`. */
  function Decode(dir: Path, leaf: Path): (r: Result<Path, Error>)
    ensures r.Failure? <==> !StartsWith(leaf, dir)
  {
    match StripPrefix(leaf, dir)
    case None => Failure(NotUnder(leaf, dir))
    case Some(rel) => Success(Join(Root, rel))
  }

  /**
   * The round trip of the build encoding: the leaf `build_at_root` places for
   * an absolute target in normal form decodes back to that target, and a leaf
   * below the build directory is where its decoded target is placed.
   */
  lemma DecodeEncode(root: Path, target: Path)
    requires IsAbsolute(target) && Normalized(target)
    ensures Decode(root, VirtualTarget(root, target)) == Success(target)
  {
    var rel := target[1..];
    assert !IsAbsolute(rel);
    assert VirtualTarget(root, target) == root + rel;
    assert StartsWith(root + rel, root) && (root + rel)[|root|..] == rel;
    assert [target[0]] + rel == target;
  }

  lemma EncodeDecode(root: Path, leaf: Path)
    requires StartsWith(leaf, root) && !IsAbsolute(leaf[|root|..])
    ensures Decode(root, leaf).Success? && VirtualTarget(root, Decode(root, leaf).value) == leaf
  {
    var rel := leaf[|root|..];
    assert Root + rel == ["/"] + rel;
    assert (["/"] + rel)[1..] == rel;
    assert root + rel == leaf;
  }

  /** `undeploy`: one `RemoveAll` of the decoded target per leaf, failing at the first leaf outside the build. */
  function UndeploySpec(dir: Path, leaves: seq<Path>): Result<seq<FsMod>, Error>
    decreases |leaves|
  {
    if leaves == [] then Success([])
    else
      var prev :- UndeploySpec(dir, leaves[..|leaves| - 1]);
      var target :- Decode(dir, leaves[|leaves| - 1]);
      Success(prev + [RemoveAll(target)])
  }

  /** `undeploy` fails exactly when a leaf lies outside the build directory, and otherwise removes one target per leaf. */
  lemma {:induction false} UndeployShape(dir: Path, leaves: seq<Path>)
    ensures var r := UndeploySpec(dir, leaves);
      (r.Failure? <==> exists i :: 0 <= i < |leaves| && !StartsWith(leaves[i], dir)) &&
      (r.Success? ==>
        |r.value| == |leaves| &&
        forall i :: 0 <= i < |leaves| ==> r.value[i] == RemoveAll(Decode(dir, leaves[i]).value))
    decreases |leaves|
  {
    if leaves != [] {
      var init := leaves[..|leaves| - 1];
      UndeployShape(dir, init);
      var r := UndeploySpec(dir, leaves);
      if UndeploySpec(dir, init).Failure? {
        var i :| 0 <= i < |init| && !StartsWith(init[i], dir);
        assert leaves[i] == init[i];
      } else if r.Success? {
        forall i | 0 <= i < |leaves| ensures r.value[i] == RemoveAll(Decode(dir, leaves[i]).value) {
          if i < |init| {
            assert leaves[i] == init[i];
          }
        }
      } else {
        forall i | 0 <= i < |init| ensures StartsWith(leaves[i], dir) {
          assert leaves[i] == init[i];
        }
      }
    }
  }

  /**
   * Undeploying a build removes exactly the original targets: the leaves that
   * `build_at_root` placed for absolute targets in normal form decode to them.
   */
  lemma UndeployRemovesTargets(dir: Path, targets: seq<Path>)
    requires forall i :: 0 <= i < |targets| ==> IsAbsolute(targets[i]) && Normalized(targets[i])
    ensures var leaves := seq(|targets|, i requires 0 <= i < |targets| => VirtualTarget(dir, targets[i]));
      UndeploySpec(dir, leaves) == Success(seq(|targets|, i requires 0 <= i < |targets| => RemoveAll(targets[i])))
  {
    var leaves := seq(|targets|, i requires 0 <= i < |targets| => VirtualTarget(dir, targets[i]));
    forall i | 0 <= i < |targets| ensures Decode(dir, leaves[i]) == Success(targets[i]) {
      DecodeEncode(dir, targets[i]);
    }
    UndeployShape(dir, leaves);
    var r := UndeploySpec(dir, leaves);
    assert r.Success?;
    assert r.value == seq(|targets|, i requires 0 <= i < |targets| => RemoveAll(targets[i]));
  }

  /**
   * `VirtualSystem::undeploy`. `leaves` are the symlinks found below the
   * build directory, in the order the walk found them.
   */
  method Undeploy(vs: VirtualSystem, leaves: seq<Path>) returns (r: Result<FsTransaction, Error>)
    ensures var spec := UndeploySpec(vs.path, leaves);
      (r.Success? <==> spec.Success?) && (r.Success? ==> r.value.mods == spec.value) &&
      (r.Failure? ==> r.error == spec.error)
  {
    var tx := new FsTransaction.Empty();
    var i := 0;
    while i < |leaves|
      invariant 0 <= i <= |leaves|
      invariant UndeploySpec(vs.path, leaves[..i]) == Success(tx.mods)
    {
      assert leaves[..i + 1][..i] == leaves[..i];
      var target := Decode(vs.path, leaves[i]);
      if target.Failure? {
        UndeployStops(vs.path, leaves, i + 1);
        return Failure(target.error);
      }
      tx.Push(RemoveAll(target.value));
      i := i + 1;
    }
    assert leaves[..i] == leaves;
    r := Success(tx);
  }

  lemma {:induction false} UndeployStops(dir: Path, leaves: seq<Path>, n: nat)
    requires n <= |leaves| && UndeploySpec(dir, leaves[..n]).Failure?
    ensures UndeploySpec(dir, leaves) == UndeploySpec(dir, leaves[..n])
    decreases |leaves| - n
  {
    if n < |leaves| {
      assert leaves[..n + 1][..n] == leaves[..n];
      UndeployStops(dir, leaves, n + 1);
    } else {
      assert leaves[..n] == leaves;
    }
  }

  /**
   * The modifications `deploy` plans for one leaf: the parent directories of
   * its target, then a copy of the leaf (`hard`) or a link to its canonical
   * source. `canonical` stands for `canonicalize`, `copies` for
   * `copy_recursively`.
   */
  function DeployMods(dir: Path, leaf: Path, hard: bool, canonical: Path -> Result<Path, Error>,
                      copies: (Path, Path) -> Result<seq<FsMod>, Error>): Result<seq<FsMod>, Error> {
    var target :- Decode(dir, leaf);
    match Parent(target)
    case None => Failure(NoParent(target))
    case Some(parent) =>
      if hard then
        var copy :- copies(leaf, target);
        Success([CreateDirs(parent)] + copy)
      else
        var source :- canonical(leaf);
        Success([CreateDirs(parent), Link(source, target)])
  }

  /** `deploy`: the modifications of every leaf in order, failing at the first leaf that fails. */
  function DeploySpec(dir: Path, leaves: seq<Path>, hard: bool, canonical: Path -> Result<Path, Error>,
                      copies: (Path, Path) -> Result<seq<FsMod>, Error>): Result<seq<FsMod>, Error>
    decreases |leaves|
  {
    if leaves == [] then Success([])
    else
      var prev :- DeploySpec(dir, leaves[..|leaves| - 1], hard, canonical, copies);
      var last :- DeployMods(dir, leaves[|leaves| - 1], hard, canonical, copies);
      Success(prev + last)
  }

  /**
   * A soft `deploy` that succeeds plans, per leaf and in order, `CreateDirs`
   * of the parent of the decoded target and then a link from the canonical
   * source to that target.
   */
  lemma {:induction false} SoftDeployShape(dir: Path, leaves: seq<Path>, canonical: Path -> Result<Path, Error>,
                                           copies: (Path, Path) -> Result<seq<FsMod>, Error>)
    ensures var r := DeploySpec(dir, leaves, false, canonical, copies);
      r.Success? ==>
        |r.value| == 2 * |leaves| &&
        forall i :: 0 <= i < |leaves| ==>
          Decode(dir, leaves[i]).Success? && canonical(leaves[i]).Success? &&
          var target := Decode(dir, leaves[i]).value;
          !IsRoot(target) &&
          r.value[2 * i] == CreateDirs(target[..|target| - 1]) &&
          r.value[2 * i + 1] == Link(canonical(leaves[i]).value, target)
    decreases |leaves|
  {
    if leaves != [] {
      var init := leaves[..|leaves| - 1];
      SoftDeployShape(dir, init, canonical, copies);
      var r := DeploySpec(dir, leaves, false, canonical, copies);
      if r.Success? {
        var prev := DeploySpec(dir, init, false, canonical, copies).value;
        var last := DeployMods(dir, leaves[|leaves| - 1], false, canonical, copies).value;
        assert r.value == prev + last && |last| == 2;
        forall i | 0 <= i < |leaves|
          ensures Decode(dir, leaves[i]).Success? && canonical(leaves[i]).Success? &&
            var target := Decode(dir, leaves[i]).value;
            !IsRoot(target) &&
            r.value[2 * i] == CreateDirs(target[..|target| - 1]) &&
            r.value[2 * i + 1] == Link(canonical(leaves[i]).value, target)
        {
          if i < |init| {
            assert leaves[i] == init[i];
            assert r.value[2 * i] == prev[2 * i] && r.value[2 * i + 1] == prev[2 * i + 1];
          } else {
            assert r.value[2 * i] == last[0] && r.value[2 * i + 1] == last[1];
          }
        }
      }
    }
  }

  /**
   * `VirtualSystem::deploy`, without the `clear_target` removals: per leaf,
   * `CreateDirs` of the target's parent, then a copy (`hard`) or a link.
   */
  method Deploy(vs: VirtualSystem, hard: bool, leaves: seq<Path>, canonical: Path -> Result<Path, Error>,
                copies: (Path, Path) -> Result<seq<FsMod>, Error>) returns (r: Result<FsTransaction, Error>)
    ensures var spec := DeploySpec(vs.path, leaves, hard, canonical, copies);
      (r.Success? <==> spec.Success?) && (r.Success? ==> r.value.mods == spec.value) &&
      (r.Failure? ==> r.error == spec.error)
  {
    var tx := new FsTransaction.Empty();
    var i := 0;
    while i < |leaves|
      invariant 0 <= i <= |leaves|
      invariant DeploySpec(vs.path, leaves[..i], hard, canonical, copies) == Success(tx.mods)
    {
      assert leaves[..i + 1][..i] == leaves[..i];
      var leaf := leaves[i];
      var mods := DeployMods(vs.path, leaf, hard, canonical, copies);
      if mods.Failure? {
        DeployStops(vs.path, leaves, hard, canonical, copies, i + 1);
        return Failure(mods.error);
      }
      DeployLeaf(tx, vs.path, leaf, hard, canonical, copies);
      i := i + 1;
    }
    assert leaves[..i] == leaves;
    r := Success(tx);
  }

  /** The pushes of one leaf of `deploy`. */
  method DeployLeaf(tx: FsTransaction, dir: Path, leaf: Path, hard: bool, canonical: Path -> Result<Path, Error>,
                    copies: (Path, Path) -> Result<seq<FsMod>, Error>)
    requires DeployMods(dir, leaf, hard, canonical, copies).Success?
    modifies tx
    ensures tx.mods == old(tx.mods) + DeployMods(dir, leaf, hard, canonical, copies).value
  {
    var target := Decode(dir, leaf).value;
    var parent := Parent(target).value;
    tx.Push(CreateDirs(parent));
    if hard {
      tx.Append(copies(leaf, target).value);
    } else {
      tx.Push(Link(canonical(leaf).value, target));
    }
  }

  lemma {:induction false} DeployStops(dir: Path, leaves: seq<Path>, hard: bool, canonical: Path -> Result<Path, Error>,
                                       copies: (Path, Path) -> Result<seq<FsMod>, Error>, n: nat)
    requires n <= |leaves| && DeploySpec(dir, leaves[..n], hard, canonical, copies).Failure?
    ensures DeploySpec(dir, leaves, hard, canonical, copies) == DeploySpec(dir, leaves[..n], hard, canonical, copies)
    decreases |leaves| - n
  {
    if n < |leaves| {
      assert leaves[..n + 1][..n] == leaves[..n];
      DeployStops(dir, leaves, hard, canonical, copies, n + 1);
    } else {
      assert leaves[..n] == leaves;
    }
  }

  /** The links of parsed modules: each module's `emplace` under its configured target, in configuration order. */
  function AllLinks(modules: seq<Module>, configs: seq<ModuleConfig>): seq<ResolvedLink>
    requires |modules| == |configs|
    decreases |modules|
  {
    if modules == [] then []
    else AllLinks(modules[..|modules| - 1], configs[..|configs| - 1]) +
         Emplace(modules[|modules| - 1], configs[|configs| - 1].target)
  }

  /** The first module configuration whose source is not a directory. */
  function FirstNonDir(configs: seq<ModuleConfig>, s: Snapshot): (r: Option<nat>)
    ensures r.Some? ==>
      r.value < |configs| && !IsDir(s, configs[r.value].source) &&
      forall j :: 0 <= j < r.value ==> IsDir(s, configs[j].source)
    ensures r.None? ==> forall j :: 0 <= j < |configs| ==> IsDir(s, configs[j].source)
    decreases |configs|
  {
    if configs == [] then None
    else if !IsDir(s, configs[0].source) then Some(0)
    else match FirstNonDir(configs[1..], s)
      case None => None
      case Some(k) => Some(k + 1)
  }

  /** The name a build gets: the one supplied, or the random one. */
  function BuildName(buildName: Option<string>, randomName: string): string {
    buildName.GetOr(randomName)
  }

  /** A build: the virtual system and the transaction that generates it. */
  datatype Build = Build(system: VirtualSystem, tx: FsTransaction)

  /**
   * `VirtualSystemBuilder::build`, up to running the transaction: every module
   * is parsed (the first that cannot be aborts the build), their links are
   * emplaced in configuration order, and `build_at_root` plans them under
   * `builds/<name>`. `randomName` stands for the random `u32` name used when
   * none is supplied; `modules` are the parsed modules.
   */
  method BuildSystem(configs: seq<ModuleConfig>, g: GlobalConfig, s: Snapshot, buildName: Option<string>,
                     randomName: string)
    returns (r: Result<Build, Error>, ghost modules: seq<Module>)
    ensures FirstNonDir(configs, s).Some? ==>
      r == Failure(NotADirectory(configs[FirstNonDir(configs, s).value].source))
    ensures FirstNonDir(configs, s).None? ==>
      |modules| == |configs| && (forall i :: 0 <= i < |configs| ==> ParsedModule(configs[i], g, s, modules[i])) &&
      var name := BuildName(buildName, randomName);
      var spec := BuildAtRootSpec(BuildDir(name), AllLinks(modules, configs));
      (r.Success? <==> spec.Success?) &&
      (r.Success? ==> r.value.system == VirtualSystem(name, BuildDir(name)) && r.value.tx.mods == spec.value) &&
      (r.Failure? ==> r.error == spec.error)
  {
    var parsed: seq<Module> := [];
    var i := 0;
    while i < |configs|
      invariant 0 <= i <= |configs| && |parsed| == i
      invariant forall j :: 0 <= j < i ==> IsDir(s, configs[j].source) && ParsedModule(configs[j], g, s, parsed[j])
    {
      var m := Parse(configs[i], g, s);
      if m.Failure? {
        FirstNonDirAt(configs, s, i);
        return Failure(m.error), parsed;
      }
      parsed := parsed + [m.value];
      i := i + 1;
    }
    modules := parsed;
    FirstNonDirAt(configs, s, i);
    var links := AllLinks(parsed, configs);
    var name := BuildName(buildName, randomName);
    var tx := BuildAtRoot(BuildDir(name), links);
    if tx.Failure? {
      return Failure(tx.error), modules;
    }
    r := Success(Build(VirtualSystem(name, BuildDir(name)), tx.value));
  }

  /** A module whose source is the empty relative path is no directory, so it stops the build. */
  lemma EmptySourceRejected(configs: seq<ModuleConfig>, s: Snapshot)
    requires |configs| > 0 && configs[0].source == []
    ensures FirstNonDir(configs, s) == Some(0)
  {
  }

  /** `FirstNonDir` finds the first source that is not a directory. */
  lemma FirstNonDirAt(configs: seq<ModuleConfig>, s: Snapshot, i: nat)
    requires i <= |configs| && forall j :: 0 <= j < i ==> IsDir(s, configs[j].source)
    requires i < |configs| ==> !IsDir(s, configs[i].source)
    ensures i < |configs| ==> FirstNonDir(configs, s) == Some(i)
    ensures i == |configs| ==> FirstNonDir(configs, s) == None
  {
  }
}
