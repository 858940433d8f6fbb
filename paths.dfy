/**
 * Paths as sequences of components, the way `std::path` iterates them.
 * An absolute path starts with the root component "/", so the number of
 * components of a path (`components().count()`) is its length.
 */
module Paths {
  import opened Wrappers

  type Path = seq<string>

  /** The root directory of an absolute path. */
  const Root: Path := ["/"]

  /** The two paths that have no parent: the empty relative path and "/". */
  predicate IsRoot(p: Path) {
    p == [] || p == Root
  }

  predicate IsAbsolute(p: Path) {
    |p| > 0 && p[0] == "/"
  }

  /** `components().count()` */
  function Depth(p: Path): nat {
    |p|
  }

  /** `Path::starts_with`: a component-wise prefix. */
  predicate StartsWith(p: Path, prefix: Path) {
    |prefix| <= |p| && p[..|prefix|] == prefix
  }

  /** `p` lies strictly below `dir`. */
  predicate StrictlyUnder(p: Path, dir: Path) {
    |dir| < |p| && p[..|dir|] == dir
  }

  /** `Path::strip_prefix`: defined exactly when `prefix` is a component prefix. */
  function StripPrefix(p: Path, prefix: Path): (r: Option<Path>)
    ensures r.Some? <==> StartsWith(p, prefix)
    ensures r.Some? ==> prefix + r.value == p
  {
    if StartsWith(p, prefix) then
      assert prefix + p[|prefix|..] == p[..|prefix|] + p[|prefix|..] == p;
      Some(p[|prefix|..])
    else None
  }

  /** `PathBuf::push` / `Path::join`: an absolute `rel` replaces the base. */
  function Join(base: Path, rel: Path): Path {
    if IsAbsolute(rel) then rel else base + rel
  }

  /**
   * Where a link target lands below `root`: an absolute target loses its
   * leading "/" and is joined onto `root`; a relative one is joined unchanged.
   */
  function VirtualTarget(root: Path, target: Path): Path {
    Join(root, if IsAbsolute(target) then target[1..] else target)
  }

  /** `Path::parent`: none for the two root paths. */
  function Parent(p: Path): (r: Option<Path>)
    ensures r.Some? <==> !IsRoot(p)
    ensures r.Some? ==> |r.value| + 1 == |p| && r.value == p[..|p| - 1]
  {
    if IsRoot(p) then None else Some(p[..|p| - 1])
  }

  /** `Path::file_name`: none for the two root paths. */
  function FileName(p: Path): (r: Option<string>)
    ensures r.Some? <==> !IsRoot(p)
    ensures r.Some? ==> p == p[..|p| - 1] + [r.value]
  {
    if IsRoot(p) then None else Some(p[|p| - 1])
  }

  /** `Path::ancestors`: the path itself, then its parent, and so on up to a root path. */
  function Ancestors(p: Path): (r: seq<Path>)
    decreases |p|
  {
    match Parent(p)
    case None => [p]
    case Some(q) => [p] + Ancestors(q)
  }

  /** The shortest path `Ancestors` reaches: "/" for an absolute path, [] otherwise. */
  function Base(p: Path): nat {
    if IsAbsolute(p) then 1 else 0
  }

  lemma {:induction false} AncestorsAt(p: Path, i: nat)
    requires i < |Ancestors(p)|
    ensures |Ancestors(p)| == |p| - Base(p) + 1
    ensures Ancestors(p)[i] == p[..|p| - i]
    decreases |p|
  {
    match Parent(p)
    case None =>
    case Some(q) =>
      assert Base(q) == Base(p) by {
        if |q| > 0 { assert q[0] == p[0]; }
      }
      if i > 0 {
        AncestorsAt(q, i - 1);
        assert p[..|p| - 1][..|q| - (i - 1)] == p[..|p| - i];
      } else {
        AncestorsAt(q, 0);
      }
  }

  /** Every ancestor is a component prefix of the path, and they are pairwise distinct. */
  lemma AncestorsArePrefixes(p: Path)
    ensures forall a :: a in Ancestors(p) ==> StartsWith(p, a)
    ensures NoDup(Ancestors(p))
  {
    var anc := Ancestors(p);
    forall a | a in anc ensures StartsWith(p, a) {
      var i :| 0 <= i < |anc| && anc[i] == a;
      AncestorsAt(p, i);
    }
    forall i, j | 0 <= i < j < |anc| ensures anc[i] != anc[j] {
      AncestorsAt(p, i);
      AncestorsAt(p, j);
    }
  }

  /** A target and source that a link resolves to (`ResolvedLink`). */
  datatype ResolvedLink = ResolvedLink(absSource: Path, absTarget: Path)

  predicate NoDup<T(==)>(xs: seq<T>) {
    forall i, j :: 0 <= i < j < |xs| ==> xs[i] != xs[j]
  }

  function Reverse<T>(s: seq<T>): (r: seq<T>)
    ensures |r| == |s|
    ensures forall i :: 0 <= i < |s| ==> r[i] == s[|s| - 1 - i]
  {
    if s == [] then [] else Reverse(s[1..]) + [s[0]]
  }

  /** `a` may come before `b` in a list sorted by depth, ascending or descending. */
  predicate InDepthOrder(a: Path, b: Path, ascending: bool) {
    if ascending then Depth(a) <= Depth(b) else Depth(a) >= Depth(b)
  }

  predicate DepthSorted(xs: seq<Path>, ascending: bool) {
    forall i, j :: 0 <= i < j < |xs| ==> InDepthOrder(xs[i], xs[j], ascending)
  }

  /** A finite non-empty set of paths has a shallowest and a deepest member. */
  lemma {:induction false} ExtremeExists(keys: set<Path>, ascending: bool)
    requires keys != {}
    ensures exists k :: k in keys && forall k' :: k' in keys ==> InDepthOrder(k, k', ascending)
    decreases |keys|
  {
    var x :| x in keys;
    var rest := keys - {x};
    if rest == {} {
      assert keys == {x};
      assert forall k' :: k' in keys ==> k' == x;
    } else {
      ExtremeExists(rest, ascending);
      var y :| y in rest && forall k' :: k' in rest ==> InDepthOrder(y, k', ascending);
      var best := if InDepthOrder(x, y, ascending) then x else y;
      forall k' | k' in keys ensures InDepthOrder(best, k', ascending) {
        if k' != x {
          assert k' in rest;
          assert InDepthOrder(y, k', ascending);
        }
      }
      assert best in keys;
    }
  }

  /**
   * Lists a set of paths sorted by depth (as `sorted_by_key(components().count())`,
   * followed by `rev()` for the descending order). Paths of equal depth come in
   * no particular order, as the entries of a hash map do.
   */
  method SortByDepth(keys: set<Path>, ascending: bool) returns (xs: seq<Path>)
    ensures NoDup(xs)
    ensures forall k :: k in xs <==> k in keys
    ensures |xs| == |keys|
    ensures DepthSorted(xs, ascending)
  {
    xs := [];
    var rest := keys;
    while rest != {}
      invariant rest <= keys
      invariant forall k :: k in keys <==> k in xs || k in rest
      invariant forall k :: k in xs ==> k !in rest
      invariant |xs| + |rest| == |keys|
      invariant NoDup(xs)
      invariant DepthSorted(xs, ascending)
      invariant forall i, k :: 0 <= i < |xs| && k in rest ==> InDepthOrder(xs[i], k, ascending)
      decreases |rest|
    {
      ExtremeExists(rest, ascending);
      var k :| k in rest && forall k' :: k' in rest ==> InDepthOrder(k, k', ascending);
      xs := xs + [k];
      rest := rest - {k};
    }
  }

  /** Lists a set of paths in an order of no significance (a directory listing). */
  method Enumerate(entries: set<Path>) returns (xs: seq<Path>)
    ensures NoDup(xs)
    ensures forall k :: k in xs <==> k in entries
  {
    xs := [];
    var rest := entries;
    while rest != {}
      invariant forall k :: k in entries <==> k in xs || k in rest
      invariant forall k :: k in xs ==> k !in rest
      invariant NoDup(xs)
      decreases |rest|
    {
      var k :| k in rest;
      xs := xs + [k];
      rest := rest - {k};
    }
  }
}
