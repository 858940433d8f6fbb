/**
 * Module resolution: which files and directories of a module's source tree
 * are exposed as link sources, decided by marker files, configured
 * directives and a traversal of the tree; and `emplace`, which rebases the
 * sources under a target prefix.
 */
module ModuleParsing {
  import opened Wrappers
  import opened Paths
  import opened Fs

  /** The global configuration: the names of the marker, build and state files. */
  datatype GlobalConfig = GlobalConfig(linkthisFile: string, linktheseFile: string, buildFile: string, stateFile: string)

  const DefaultGlobalConfig := GlobalConfig(".dull-linkthis", ".dull-linkthese", ".dull-build", ".dull-state")

  /** The configuration of one module: its source tree, its target, and extra directives. */
  datatype ModuleConfig = ModuleConfig(source: Path, target: Path, linkthis: seq<Path>, linkthese: seq<Path>)

  /** A parsed module: its root and the sources it exposes, in the order they were collected. */
  datatype Module = Module(modulePath: Path, sources: seq<Path>)

  /** A request to link a directory as a whole, or each of its entries. */
  datatype Directive = LinkThisDir(dir: Path) | LinkTheseDir(dir: Path)

  /** What the traversal does with a path. */
  datatype Strategy = LinkThis(path: Path) | LinkThese(paths: seq<Path>) | Recurse(paths: seq<Path>) | Skip

  /** `utils::ignore_filenames`: the two marker file names. */
  function IgnoreFilenames(g: GlobalConfig): seq<string> {
    [g.linkthisFile, g.linktheseFile]
  }

  /** The file name is one of the ignored names (a root path has the empty name). */
  predicate Ignored(p: Path, ignore: seq<string>) {
    FileName(p).GetOr("") in ignore
  }

  /** The elements of `xs` that `keep` accepts, in order (an iterator `filter`). */
  function Filter<T(!new)>(xs: seq<T>, keep: T -> bool): (r: seq<T>)
    ensures forall x :: x in r <==> x in xs && keep(x)
    ensures NoDup(xs) ==> NoDup(r)
    decreases |xs|
  {
    if xs == [] then []
    else
      var init := Filter(xs[..|xs| - 1], keep);
      assert forall x :: x in xs[..|xs| - 1] ==> x in xs;
      if keep(xs[|xs| - 1]) then init + [xs[|xs| - 1]] else init
  }

  /** The entries whose names are not ignored (the listing `try_determine` keeps). */
  function Unignored(entries: seq<Path>, ignore: seq<string>): seq<Path> {
    Filter(entries, (p: Path) => !Ignored(p, ignore))
  }

  /**
   * `TraversalStrategy::try_determine`. `entries` is the directory listing
   * `read_dir` yields for `path`, in its order. A path whose existence is not
   * confirmed is an error; an ignored name is skipped; a regular file is linked
   * as is; a directive decides a directory, a `LinkThis` one first; otherwise
   * the directory is recursed into.
   */
  function TryDetermine(path: Path, directives: set<Directive>, ignore: seq<string>, s: Snapshot, entries: seq<Path>)
    : (r: Result<Strategy, Error>)
    ensures r.Failure? <==> TryExists(s, path) != Present
    ensures r.Failure? ==> r.error == UnreachablePath(path)
    ensures r.Success? && r.value.LinkThis? ==> r.value.path == path
    ensures r.Success? && (r.value.LinkThese? || r.value.Recurse?) ==>
      forall x :: x in r.value.paths <==> x in entries && !Ignored(x, ignore)
    ensures TryExists(s, path) == Present && Ignored(path, ignore) ==> r == Success(Skip)
    ensures TryExists(s, path) == Present && !Ignored(path, ignore) && !IsFile(s, path) && LinkThisDir(path) !in directives ==>
      r.Success? && (r.value.LinkThese? <==> LinkTheseDir(path) in directives) &&
      (r.value.Recurse? <==> LinkTheseDir(path) !in directives)
  {
    if TryExists(s, path) != Present then Failure(UnreachablePath(path))
    else if Ignored(path, ignore) then Success(Skip)
    else if IsFile(s, path) then Success(LinkThis(path))
    else if LinkThisDir(path) in directives then Success(LinkThis(path))
    else
      var contents := Unignored(entries, ignore);
      if LinkTheseDir(path) in directives then Success(LinkThese(contents)) else Success(Recurse(contents))
  }

  /** A regular file that is not ignored is linked as is, whatever the directives say. */
  lemma FileAlwaysLinked(path: Path, directives: set<Directive>, ignore: seq<string>, s: Snapshot, entries: seq<Path>)
    requires IsFile(s, path) && !Ignored(path, ignore) && path !in s.unreachable
    ensures TryDetermine(path, directives, ignore, s, entries) == Success(LinkThis(path))
  {
  }

  /** A `LinkThis` directive wins over a `LinkThese` directive for the same directory. */
  lemma LinkThisWins(path: Path, directives: set<Directive>, ignore: seq<string>, s: Snapshot, entries: seq<Path>)
    requires TryExists(s, path) == Present && !Ignored(path, ignore)
    requires LinkThisDir(path) in directives
    ensures TryDetermine(path, directives, ignore, s, entries) == Success(LinkThis(path))
  {
  }

  /** The directories of the tree below `root` that hold a file named `marker`. */
  function MarkedDirs(s: Snapshot, root: Path, marker: string): set<Path> {
    set f | f in Walk(s, root) && !IsRoot(f) && f[|f| - 1] == marker :: f[..|f| - 1]
  }

  /**
   * The directives of a module: a `linkthis` marker file anywhere in the tree
   * marks its directory, as does a `linkthese` marker, and the configured
   * directives are added.
   */
  function Directives(s: Snapshot, mc: ModuleConfig, g: GlobalConfig): (r: set<Directive>)
    ensures forall p :: p in mc.linkthis ==> LinkThisDir(p) in r
    ensures forall p :: p in mc.linkthese ==> LinkTheseDir(p) in r
  {
    (set p | p in MarkedDirs(s, mc.source, g.linkthisFile) :: LinkThisDir(p)) +
    (set p | p in MarkedDirs(s, mc.source, g.linktheseFile) :: LinkTheseDir(p)) +
    (set p | p in mc.linkthis :: LinkThisDir(p)) +
    (set p | p in mc.linkthese :: LinkTheseDir(p))
  }

  /** A directory is a `LinkThis` directive exactly when a marker file is in it or the configuration names it. */
  lemma DirectivesFromMarkers(s: Snapshot, mc: ModuleConfig, g: GlobalConfig, d: Path)
    ensures LinkThisDir(d) in Directives(s, mc, g) <==>
      (d + [g.linkthisFile] in Walk(s, mc.source) && !IsRoot(d + [g.linkthisFile])) || d in mc.linkthis
    ensures LinkTheseDir(d) in Directives(s, mc, g) <==>
      (d + [g.linktheseFile] in Walk(s, mc.source) && !IsRoot(d + [g.linktheseFile])) || d in mc.linkthese
  {
    MarkedDir(s, mc.source, g.linkthisFile, d);
    MarkedDir(s, mc.source, g.linktheseFile, d);
  }

  lemma MarkedDir(s: Snapshot, root: Path, marker: string, d: Path)
    ensures d in MarkedDirs(s, root, marker) <==> d + [marker] in Walk(s, root) && !IsRoot(d + [marker])
  {
    var f := d + [marker];
    assert f[..|f| - 1] == d && f[|f| - 1] == marker;
    if d in MarkedDirs(s, root, marker) {
      var f' :| f' in Walk(s, root) && !IsRoot(f') && f'[|f'| - 1] == marker && f'[..|f'| - 1] == d;
      assert f' == f'[..|f'| - 1] + [f'[|f'| - 1]];
    }
  }

  /** Everything the traversal of one module consults. */
  datatype Traversal = Traversal(source: Path, directives: set<Directive>, ignore: seq<string>, s: Snapshot)

  function TraversalOf(mc: ModuleConfig, g: GlobalConfig, s: Snapshot): Traversal {
    Traversal(mc.source, Directives(s, mc, g), IgnoreFilenames(g), s)
  }

  /** The strategy of `p`, as far as it does not depend on the directory listing. */
  function KindOf(t: Traversal, p: Path): Result<Strategy, Error> {
    TryDetermine(p, t.directives, t.ignore, t.s, [])
  }

  predicate IsRecurse(t: Traversal, p: Path) {
    KindOf(t, p).Success? && KindOf(t, p).value.Recurse?
  }

  /** The listing does not change which strategy is chosen. */
  lemma KindIgnoresListing(t: Traversal, p: Path, entries: seq<Path>)
    ensures var r := TryDetermine(p, t.directives, t.ignore, t.s, entries);
      r.Success? == KindOf(t, p).Success? &&
      (r.Success? ==> (r.value.LinkThis? == KindOf(t, p).value.LinkThis?) && (r.value.LinkThese? == KindOf(t, p).value.LinkThese?) &&
                      (r.value.Recurse? == KindOf(t, p).value.Recurse?) && (r.value.Skip? == KindOf(t, p).value.Skip?))
  {
  }

  /**
   * The traversal pops `p`: it is the module root, or a directory entry that is
   * not ignored, inside a reached directory that was recursed into.
   */
  ghost predicate Reached(t: Traversal, p: Path)
    decreases |p|
  {
    p == t.source ||
    (|p| > |t.source| && Reached(t, p[..|p| - 1]) && IsRecurse(t, p[..|p| - 1]) &&
     p in Children(t.s, p[..|p| - 1]) && !Ignored(p, t.ignore) && IsDir(t.s, p))
  }

  /**
   * `p` is a source the traversal can collect: a reached path linked as a
   * whole, or a non-ignored entry of a reached directory that is linked entry
   * by entry, or that is recursed into and the entry is a file.
   */
  ghost predicate Exposed(t: Traversal, p: Path) {
    (Reached(t, p) && KindOf(t, p).Success? && KindOf(t, p).value.LinkThis?) ||
    (|p| > |t.source| && Reached(t, p[..|p| - 1]) && p in Children(t.s, p[..|p| - 1]) && !Ignored(p, t.ignore) &&
     KindOf(t, p[..|p| - 1]).Success? &&
     (KindOf(t, p[..|p| - 1]).value.LinkThese? || (KindOf(t, p[..|p| - 1]).value.Recurse? && IsFile(t.s, p))))
  }

  lemma {:induction false} ReachedIsUnder(t: Traversal, p: Path)
    requires Reached(t, p)
    ensures StartsWith(p, t.source)
    decreases |p|
  {
    if p != t.source {
      ReachedIsUnder(t, p[..|p| - 1]);
    }
  }

  /** Every exposed source lies in the module tree and has a name that is not ignored (so no marker file). */
  lemma ExposedIsUnderAndNotIgnored(t: Traversal, p: Path)
    requires Exposed(t, p)
    ensures StartsWith(p, t.source) && !Ignored(p, t.ignore)
  {
    if Reached(t, p) && KindOf(t, p).Success? && KindOf(t, p).value.LinkThis? {
      ReachedIsUnder(t, p);
    } else {
      ReachedIsUnder(t, p[..|p| - 1]);
    }
  }

  /**
   * Below a reached directory that is not recursed into (linked as a whole,
   * skipped, or whose strategy could not be determined) nothing is reached,
   * and nothing is exposed unless the directory is linked entry by entry, in
   * which case only its immediate entries are.
   */
  lemma {:induction false} StopsBelow(t: Traversal, d: Path, p: Path)
    requires StartsWith(d, t.source) && !IsRecurse(t, d) && StrictlyUnder(p, d)
    ensures !Reached(t, p)
    ensures Exposed(t, p) ==> KindOf(t, d).Success? && KindOf(t, d).value.LinkThese? && |p| == |d| + 1
    decreases |p|
  {
    if |p| > |d| + 1 {
      StopsBelow(t, d, p[..|p| - 1]);
    } else {
      assert p[..|p| - 1] == d;
    }
  }

  /**
   * The frontier of the traversal: reached paths of `universe`, not visited
   * yet, each pushed once, while its parent was being visited.
   */
  ghost predicate FrontierOk(t: Traversal, universe: set<Path>, visited: set<Path>, frontier: seq<Path>) {
    NoDup(frontier) &&
    forall x :: x in frontier ==>
      Reached(t, x) && x in universe && x !in visited && (x == t.source || (|x| > 0 && x[..|x| - 1] in visited))
  }

  /** The visited paths: paths of `universe` whose parents were visited before them. */
  ghost predicate VisitedOk(t: Traversal, universe: set<Path>, visited: set<Path>) {
    visited <= universe && forall v :: v in visited ==> v == t.source || (|v| > 0 && v[..|v| - 1] in visited)
  }

  /** The last element of a list without duplicates is not among the others. */
  lemma NoDupLast<T>(xs: seq<T>)
    requires NoDup(xs) && |xs| > 0
    ensures NoDup(xs[..|xs| - 1]) && xs[|xs| - 1] !in xs[..|xs| - 1]
  {
    var rest := xs[..|xs| - 1];
    forall i | 0 <= i < |rest| ensures rest[i] != xs[|xs| - 1] {
      assert rest[i] == xs[i];
    }
  }

  /** Popping the last path of the frontier leaves a frontier, and visiting it keeps the visited set well-formed. */
  lemma Pop(t: Traversal, universe: set<Path>, visited: set<Path>, frontier: seq<Path>)
    requires FrontierOk(t, universe, visited, frontier) && VisitedOk(t, universe, visited) && |frontier| > 0
    ensures var p := frontier[|frontier| - 1];
      FrontierOk(t, universe, visited, frontier[..|frontier| - 1]) && p !in frontier[..|frontier| - 1] &&
      VisitedOk(t, universe, visited + {p}) && Reached(t, p) && p in universe && p !in visited
  {
    var p := frontier[|frontier| - 1];
    var rest := frontier[..|frontier| - 1];
    NoDupLast(frontier);
    assert p in frontier;
    forall x | x in rest
      ensures Reached(t, x) && x in universe && x !in visited && (x == t.source || (|x| > 0 && x[..|x| - 1] in visited))
    {
      assert x in frontier;
    }
  }

  /** After visiting `p`, the rest of the frontier is still a frontier. */
  lemma Visit(t: Traversal, universe: set<Path>, visited: set<Path>, rest: seq<Path>, p: Path)
    requires FrontierOk(t, universe, visited, rest) && p !in rest
    ensures FrontierOk(t, universe, visited + {p}, rest)
  {
  }

  /**
   * Visiting a directory `p` that is recursed into and pushing its entries that
   * are directories keeps a frontier: none of them was pushed before, since
   * their parent `p` had not been visited.
   */
  lemma PushEntries(t: Traversal, universe: set<Path>, visited: set<Path>, rest: seq<Path>, p: Path, dirs: seq<Path>)
    requires FrontierOk(t, universe, visited, rest) && VisitedOk(t, universe, visited)
    requires p !in rest && p !in visited && Reached(t, p) && IsRecurse(t, p) && StartsWith(p, t.source)
    requires NoDup(dirs) && universe >= t.s.nodes.Keys
    requires forall x :: x in dirs ==> x in Children(t.s, p) && !Ignored(x, t.ignore) && IsDir(t.s, x)
    ensures FrontierOk(t, universe, visited + {p}, rest + dirs)
  {
    forall x | x in dirs
      ensures Reached(t, x) && x in universe && x !in visited + {p} && x[..|x| - 1] == p && x !in rest
    {
      assert x[..|x| - 1] == p;
    }
    forall x | x in rest + dirs
      ensures Reached(t, x) && x in universe && x !in visited + {p} && (x == t.source || (|x| > 0 && x[..|x| - 1] in visited + {p}))
    {
      if x in dirs {
      } else {
        assert x in rest;
      }
    }
    NoDupAppend(rest, dirs);
  }

  /** The entries of a directory linked entry by entry are exposed, except the ignored ones. */
  lemma LinkTheseExposed(t: Traversal, p: Path, entries: seq<Path>)
    requires Reached(t, p) && StartsWith(p, t.source) && KindOf(t, p).Success? && KindOf(t, p).value.LinkThese?
    requires forall x :: x in entries ==> x in Children(t.s, p)
    ensures forall x :: x in Unignored(entries, t.ignore) ==> Exposed(t, x)
  {
    forall x | x in Unignored(entries, t.ignore) ensures Exposed(t, x) {
      assert x[..|x| - 1] == p;
    }
  }

  /** The file entries of a directory recursed into are exposed, except the ignored ones. */
  lemma RecurseExposed(t: Traversal, p: Path, files: seq<Path>)
    requires Reached(t, p) && StartsWith(p, t.source) && IsRecurse(t, p)
    requires forall x :: x in files ==> x in Children(t.s, p) && !Ignored(x, t.ignore) && IsFile(t.s, x)
    ensures forall x :: x in files ==> Exposed(t, x)
  {
    forall x | x in files ensures Exposed(t, x) {
      assert x[..|x| - 1] == p;
    }
  }

  ghost predicate AllExposed(t: Traversal, xs: seq<Path>) {
    forall x :: x in xs ==> Exposed(t, x)
  }

  lemma ExposedAppend(t: Traversal, xs: seq<Path>, ys: seq<Path>)
    requires AllExposed(t, xs) && forall y :: y in ys ==> Exposed(t, y)
    ensures AllExposed(t, xs + ys)
  {
  }

  lemma NoDupAppend<T>(a: seq<T>, b: seq<T>)
    requires NoDup(a) && NoDup(b) && forall x :: x in b ==> x !in a
    ensures NoDup(a + b)
  {
    forall i, j | 0 <= i < j < |a + b| ensures (a + b)[i] != (a + b)[j] {
      if j >= |a| && i < |a| {
        assert (a + b)[j] in b;
      }
    }
  }

  /**
   * One turn of the traversal loop: the strategy of the popped path `p`
   * decides what is collected and which directories are pushed.
   */
  method VisitOne(t: Traversal, p: Path, ghost universe: set<Path>, ghost visited: set<Path>, rest: seq<Path>,
                  collected: seq<Path>)
    returns (collected': seq<Path>, frontier': seq<Path>)
    requires FrontierOk(t, universe, visited, rest) && VisitedOk(t, universe, visited)
    requires p !in rest && p !in visited && Reached(t, p) && universe >= t.s.nodes.Keys
    requires AllExposed(t, collected) && AllProcessed(t, collected, visited, rest + [p])
    ensures FrontierOk(t, universe, visited + {p}, frontier') && AllExposed(t, collected')
    ensures AllProcessed(t, collected', visited + {p}, frontier') && forall x :: x in rest ==> x in frontier'
  {
    var entries := Enumerate(Children(t.s, p));
    var strategy := TryDetermine(p, t.directives, t.ignore, t.s, entries);
    KindIgnoresListing(t, p, entries);
    ReachedIsUnder(t, p);
    frontier' := rest;
    collected' := collected;
    if strategy.Success? && strategy.value.Recurse? {
      var dirs := Filter(strategy.value.paths, (q: Path) => IsDir(t.s, q));
      var files := Filter(strategy.value.paths, (q: Path) => IsFile(t.s, q));
      RecurseExposed(t, p, files);
      PushEntries(t, universe, visited, rest, p, dirs);
      ExposedAppend(t, collected, files);
      collected' := collected + files;
      frontier' := rest + dirs;
    } else {
      Visit(t, universe, visited, rest, p);
      if strategy.Success? && strategy.value.LinkThis? {
        assert Exposed(t, p);
        ExposedAppend(t, collected, [p]);
        collected' := collected + [strategy.value.path];
      } else if strategy.Success? && strategy.value.LinkThese? {
        LinkTheseExposed(t, p, entries);
        ExposedAppend(t, collected, strategy.value.paths);
        collected' := collected + strategy.value.paths;
      }
    }
    forall v | v in visited + {p} ensures Processed(t, v, collected', visited + {p}, frontier') {
      if v != p {
        ProcessedGrows(t, v, collected, visited, rest + [p], collected', visited + {p}, frontier');
      }
    }
  }

  /**
   * A visited path has been dealt with: what its strategy links is collected,
   * and the directories it recurses into are visited or still on the frontier.
   */
  ghost predicate Processed(t: Traversal, p: Path, collected: seq<Path>, visited: set<Path>, frontier: seq<Path>) {
    var k := KindOf(t, p);
    k.Success? ==>
      (k.value.LinkThis? ==> p in collected) &&
      (k.value.LinkThese? ==> forall c :: c in Children(t.s, p) && !Ignored(c, t.ignore) ==> c in collected) &&
      (k.value.Recurse? ==> forall c :: c in Children(t.s, p) && !Ignored(c, t.ignore) ==>
         (IsFile(t.s, c) ==> c in collected) && (IsDir(t.s, c) ==> c in visited || c in frontier))
  }

  ghost predicate AllProcessed(t: Traversal, collected: seq<Path>, visited: set<Path>, frontier: seq<Path>) {
    forall v :: v in visited ==> Processed(t, v, collected, visited, frontier)
  }

  lemma ProcessedGrows(t: Traversal, p: Path, c1: seq<Path>, v1: set<Path>, f1: seq<Path>,
                       c2: seq<Path>, v2: set<Path>, f2: seq<Path>)
    requires Processed(t, p, c1, v1, f1)
    requires forall x :: x in c1 ==> x in c2
    requires forall x :: x in v1 || x in f1 ==> x in v2 || x in f2
    ensures Processed(t, p, c2, v2, f2)
  {
  }

  /** Once the frontier is empty, every reached path has been visited. */
  lemma {:induction false} ReachedIsVisited(t: Traversal, collected: seq<Path>, visited: set<Path>, x: Path)
    requires AllProcessed(t, collected, visited, []) && t.source in visited && Reached(t, x)
    ensures x in visited
    decreases |x|
  {
    if x != t.source {
      ReachedIsVisited(t, collected, visited, x[..|x| - 1]);
      assert Processed(t, x[..|x| - 1], collected, visited, []);
    }
  }

  /** Once the frontier is empty, every exposed path has been collected. */
  lemma ExposedIsCollected(t: Traversal, collected: seq<Path>, visited: set<Path>, x: Path)
    requires AllProcessed(t, collected, visited, []) && t.source in visited && Exposed(t, x)
    ensures x in collected
  {
    if Reached(t, x) && KindOf(t, x).Success? && KindOf(t, x).value.LinkThis? {
      ReachedIsVisited(t, collected, visited, x);
      assert Processed(t, x, collected, visited, []);
    } else {
      ReachedIsVisited(t, collected, visited, x[..|x| - 1]);
      assert Processed(t, x[..|x| - 1], collected, visited, []);
    }
  }

  /**
   * `ModuleParser::parse`. The module source must be a directory. The frontier
   * is a stack: the last directory pushed is traversed next. Directory
   * listings come out in no particular order.
   */
  method Parse(mc: ModuleConfig, g: GlobalConfig, s: Snapshot) returns (r: Result<Module, Error>)
    ensures r.Failure? <==> !IsDir(s, mc.source)
    ensures r.Failure? ==> r.error == NotADirectory(mc.source)
    ensures r.Success? ==> ParsedModule(mc, g, s, r.value)
  {
    if !IsDir(s, mc.source) {
      return Failure(NotADirectory(mc.source));
    }
    var t := TraversalOf(mc, g, s);
    var collected: seq<Path> := [];
    var frontier: seq<Path> := [mc.source];
    ghost var visited: set<Path> := {};
    ghost var universe := s.nodes.Keys + {mc.source};
    ParseStart(t, universe);
    while |frontier| > 0
      invariant FrontierOk(t, universe, visited, frontier) && VisitedOk(t, universe, visited)
      invariant AllExposed(t, collected) && t == TraversalOf(mc, g, s) && universe == s.nodes.Keys + {mc.source}
      invariant AllProcessed(t, collected, visited, frontier) && (mc.source in visited || mc.source in frontier)
      decreases |universe - visited|
    {
      var p;
      p, collected, frontier := ParseStep(t, universe, visited, frontier, collected);
      visited := visited + {p};
    }
    AllCollected(t, collected, visited);
    r := Success(Module(mc.source, collected));
  }

  /** One round of the loop of `parse`: pop the newest path of the frontier and visit it. */
  method ParseStep(t: Traversal, ghost universe: set<Path>, ghost visited: set<Path>, frontier: seq<Path>,
                   collected: seq<Path>)
    returns (p: Path, collected': seq<Path>, frontier': seq<Path>)
    requires FrontierOk(t, universe, visited, frontier) && VisitedOk(t, universe, visited) && |frontier| > 0
    requires AllExposed(t, collected) && AllProcessed(t, collected, visited, frontier)
    requires universe >= t.s.nodes.Keys
    ensures FrontierOk(t, universe, visited + {p}, frontier') && VisitedOk(t, universe, visited + {p})
    ensures AllExposed(t, collected') && AllProcessed(t, collected', visited + {p}, frontier')
    ensures forall x :: x in frontier ==> x == p || x in frontier'
    ensures p == frontier[|frontier| - 1] && |universe - (visited + {p})| < |universe - visited|
  {
    Pop(t, universe, visited, frontier);
    p := frontier[|frontier| - 1];
    var rest := frontier[..|frontier| - 1];
    PopSplits(frontier, universe, visited);
    collected', frontier' := VisitOne(t, p, universe, visited, rest, collected);
  }

  /** Popping the last path off a stack of unvisited paths leaves the rest and shrinks the unvisited set. */
  lemma PopSplits(frontier: seq<Path>, universe: set<Path>, visited: set<Path>)
    requires |frontier| > 0 && frontier[|frontier| - 1] in universe && frontier[|frontier| - 1] !in visited
    ensures var p := frontier[|frontier| - 1];
      frontier == frontier[..|frontier| - 1] + [p] &&
      (forall x :: x in frontier ==> x == p || x in frontier[..|frontier| - 1]) &&
      universe - (visited + {p}) < universe - visited &&
      |universe - (visited + {p})| < |universe - visited|
  {
    var p := frontier[|frontier| - 1];
    assert frontier == frontier[..|frontier| - 1] + [p];
    assert p in universe - visited;
    assert universe - visited == (universe - (visited + {p})) + {p};
  }

  /** Before the first turn: only the source is on the frontier, and nothing is visited or collected. */
  lemma ParseStart(t: Traversal, universe: set<Path>)
    requires universe == t.s.nodes.Keys + {t.source}
    ensures FrontierOk(t, universe, {}, [t.source]) && VisitedOk(t, universe, {})
    ensures AllExposed(t, []) && AllProcessed(t, [], {}, [t.source]) && universe >= t.s.nodes.Keys
  {
  }

  /** When the frontier is empty and the source has been visited, every exposed path is collected. */
  lemma AllCollected(t: Traversal, collected: seq<Path>, visited: set<Path>)
    requires AllProcessed(t, collected, visited, []) && t.source in visited
    ensures forall x :: Exposed(t, x) ==> x in collected
  {
    forall x | Exposed(t, x) ensures x in collected {
      ExposedIsCollected(t, collected, visited, x);
    }
  }

  /** What `parse` promises about a module it returns: its sources are exactly the exposed paths. */
  ghost predicate ParsedModule(mc: ModuleConfig, g: GlobalConfig, s: Snapshot, m: Module) {
    m.modulePath == mc.source && AllExposed(TraversalOf(mc, g, s), m.sources) &&
    forall x :: Exposed(TraversalOf(mc, g, s), x) ==> x in m.sources
  }

  /** The link of one source, if it lies in the module tree. */
  function EmplaceOne(source: Path, modulePath: Path, targetPrefix: Path): seq<ResolvedLink> {
    match StripPrefix(source, modulePath)
    case None => []
    case Some(rel) => [ResolvedLink(source, Join(targetPrefix, rel))]
  }

  /** `Module::emplace`: each source in the module tree, linked at its place below `targetPrefix`. */
  function Emplace(m: Module, targetPrefix: Path): (r: seq<ResolvedLink>)
    ensures |r| <= |m.sources|
    decreases |m.sources|
  {
    if m.sources == [] then []
    else
      Emplace(Module(m.modulePath, m.sources[..|m.sources| - 1]), targetPrefix) +
      EmplaceOne(m.sources[|m.sources| - 1], m.modulePath, targetPrefix)
  }

  /** `emplace` keeps the source order: the links of a concatenation are concatenated. */
  lemma {:induction false} EmplaceAppend(modulePath: Path, xs: seq<Path>, ys: seq<Path>, targetPrefix: Path)
    ensures Emplace(Module(modulePath, xs + ys), targetPrefix) ==
      Emplace(Module(modulePath, xs), targetPrefix) + Emplace(Module(modulePath, ys), targetPrefix)
    decreases |ys|
  {
    if ys == [] {
      assert xs + ys == xs;
    } else {
      assert (xs + ys)[..|xs + ys| - 1] == xs + ys[..|ys| - 1];
      EmplaceAppend(modulePath, xs, ys[..|ys| - 1], targetPrefix);
    }
  }

  /**
   * Every link `emplace` makes comes from a source in the module tree and
   * points to the prefix joined with the source's path relative to the module.
   */
  lemma {:induction false} EmplaceLinks(m: Module, targetPrefix: Path)
    ensures forall l :: l in Emplace(m, targetPrefix) ==>
      l.absSource in m.sources && StartsWith(l.absSource, m.modulePath) &&
      l.absTarget == Join(targetPrefix, l.absSource[|m.modulePath|..])
    decreases |m.sources|
  {
    if m.sources != [] {
      var init := Module(m.modulePath, m.sources[..|m.sources| - 1]);
      EmplaceLinks(init, targetPrefix);
      assert forall x :: x in init.sources ==> x in m.sources;
    }
  }

  /** When every source is in the module tree, `emplace` makes one link per source, in order. */
  lemma {:induction false} EmplaceKeepsAll(m: Module, targetPrefix: Path)
    requires forall x :: x in m.sources ==> StartsWith(x, m.modulePath)
    ensures |Emplace(m, targetPrefix)| == |m.sources|
    ensures forall i :: 0 <= i < |m.sources| ==> Emplace(m, targetPrefix)[i].absSource == m.sources[i]
    decreases |m.sources|
  {
    if m.sources != [] {
      var init := Module(m.modulePath, m.sources[..|m.sources| - 1]);
      assert forall x :: x in init.sources ==> x in m.sources;
      EmplaceKeepsAll(init, targetPrefix);
    }
  }
}
