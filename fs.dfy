/** An abstract filesystem: a finite map from path strings to nodes, with the
    tree operations the scripts perform through `shutil`, `os` and `pathlib`. */
module Fs {

  type Path = string

  datatype Node = File(data: string) | Dir

  type FileSystem = map<Path, Node>

  /** `p` is `root` itself or lies beneath it. */
  predicate Within(root: Path, p: Path) {
    p == root || (|root| < |p| && p[..|root|] == root && p[|root|] == '/')
  }

  /** Neither tree contains the other. */
  predicate Disjoint(x: Path, y: Path) {
    !Within(x, y) && !Within(y, x)
  }

  /** `os.path.join(a, b)` for one component string `b`. */
  function Join(a: Path, b: string): (r: Path)
    ensures |b| > 0 && b[0] == '/' ==> r == b
  {
    if |b| > 0 && b[0] == '/' then b
    else if a == "" then b
    else if a[|a| - 1] == '/' then a + b
    else a + "/" + b
  }

  /** The proper ancestors of `p`: every prefix ending just before a `/`. */
  function Ancestors(p: Path): set<Path> {
    set i | 0 < i < |p| && p[i] == '/' :: p[..i]
  }

  /** Index of the last `/` in `p`, or -1 when it has none. */
  function LastSlash(p: Path): (k: int)
    ensures -1 <= k < |p|
    ensures k >= 0 ==> p[k] == '/'
    ensures forall i :: k < i < |p| ==> p[i] != '/'
    decreases |p|
  {
    if p == [] then -1
    else if p[|p| - 1] == '/' then |p| - 1
    else LastSlash(p[..|p| - 1])
  }

  /** The file name after the last `/` (`os.path.basename`). */
  function Basename(p: Path): (r: string)
    ensures '/' !in r
  {
    p[LastSlash(p) + 1..]
  }

  /** No entry lies beneath `p` unless `p` itself is present (true of any real
      directory tree). */
  predicate NoOrphans(fs: FileSystem, p: Path) {
    p in fs || forall q :: q in fs ==> !Within(p, q)
  }

  /** A directory with no entries beneath it. */
  predicate IsEmptyDir(fs: FileSystem, p: Path) {
    p in fs && fs[p] == Dir && forall q :: q in fs && Within(p, q) ==> q == p
  }

  /** Some directory that `os.makedirs(p)` would have to create or pass through is a file. */
  predicate BlockedByFile(fs: FileSystem, p: Path) {
    exists a :: a in fs && fs[a].File? && (a == p || a in Ancestors(p))
  }

  /** `os.makedirs(p, exist_ok=True)` on a path that no file blocks: `p` and each
      missing ancestor become directories; nothing else changes. */
  function MakeDirs(fs: FileSystem, p: Path): (r: FileSystem)
    ensures p in r && (p !in fs ==> r[p] == Dir)
    ensures forall a :: a in Ancestors(p) ==> a in r && (a !in fs ==> r[a] == Dir)
    ensures forall q :: q in fs ==> q in r && r[q] == fs[q]
    ensures forall q :: q in r && q !in fs ==> q == p || q in Ancestors(p)
  {
    fs + map a | a in Ancestors(p) + {p} && a !in fs :: Dir
  }

  /** `shutil.rmtree(root)` on a present tree: `root` and everything beneath it go. */
  function RemoveTree(fs: FileSystem, root: Path): (r: FileSystem)
    ensures forall q :: q in r <==> q in fs && !Within(root, q)
    ensures forall q :: q in r ==> r[q] == fs[q]
  {
    map q | q in fs && !Within(root, q) :: fs[q]
  }

  /** The entries of `tree` at or beneath `root`. */
  function Restrict(tree: FileSystem, root: Path): (r: FileSystem)
    ensures forall q :: q in r <==> q in tree && Within(root, q)
    ensures forall q :: q in r ==> r[q] == tree[q]
  {
    map q | q in tree && Within(root, q) :: tree[q]
  }

  /** `fs` with its `root` subtree replaced by that of `tree`. */
  function Overlay(fs: FileSystem, root: Path, tree: FileSystem): (r: FileSystem)
    ensures forall q :: !Within(root, q) ==> (q in r <==> q in fs) && (q in fs ==> r[q] == fs[q])
    ensures forall q :: Within(root, q) ==> (q in r <==> q in tree) && (q in tree ==> r[q] == tree[q])
  {
    RemoveTree(fs, root) + Restrict(tree, root)
  }

  /** Where `q` beneath `src` lands when the tree at `src` is copied to `dst`. */
  function Rebase(src: Path, dst: Path, q: Path): Path
    requires Within(src, q)
  {
    dst + q[|src|..]
  }

  lemma RebaseWithin(src: Path, dst: Path, q: Path)
    requires Within(src, q)
    ensures Within(dst, Rebase(src, dst, q))
    ensures Rebase(dst, src, Rebase(src, dst, q)) == q
  {
    var r := Rebase(src, dst, q);
    assert r[..|dst|] == dst;
    assert r[|dst|..] == q[|src|..];
    if q != src {
      assert r[|dst|] == q[|src|];
    }
    assert q == src + q[|src|..];
  }

  /** The entries of the `src` tree, moved beneath `dst`. */
  function Graft(fs: FileSystem, src: Path, dst: Path): FileSystem {
    var candidates := set q | q in fs && Within(src, q) :: Rebase(src, dst, q);
    map p | p in candidates && Within(dst, p) && Rebase(dst, src, p) in fs :: fs[Rebase(dst, src, p)]
  }

  lemma GraftAt(fs: FileSystem, src: Path, dst: Path, p: Path)
    requires Within(dst, p)
    ensures p in Graft(fs, src, dst) <==> Rebase(dst, src, p) in fs
    ensures p in Graft(fs, src, dst) ==> Graft(fs, src, dst)[p] == fs[Rebase(dst, src, p)]
  {
    var q := Rebase(dst, src, p);
    RebaseWithin(dst, src, p);
    assert Rebase(src, dst, q) == p;
  }


  /** `shutil.copytree(src, dst)` with `src` a directory and `dst` absent: the
      parents of `dst` are created and the `src` tree is copied beneath `dst`. */
  function CopyTree(fs: FileSystem, src: Path, dst: Path): FileSystem {
    MakeDirs(fs, dst) + Graft(fs, src, dst)
  }

  /** The three-part description of a copied tree: beneath `dst` it is the `src`
      tree; the missing ancestors of `dst` are new directories; everything else
      is as before. */
  ghost predicate Mirrors(fs: FileSystem, r: FileSystem, src: Path, dst: Path) {
    && SubtreeMirrors(fs, r, src, dst)
    && (forall p :: p in Ancestors(dst) ==> p in r && (p in fs ==> r[p] == fs[p]) && (p !in fs ==> r[p] == Dir))
    && (forall p :: !Within(dst, p) && p !in Ancestors(dst) ==>
          (p in r <==> p in fs) && (p in r ==> r[p] == fs[p]))
  }

  /** Beneath `dst`, `r` holds exactly the `src` tree of `fs`. */
  ghost predicate SubtreeMirrors(fs: FileSystem, r: FileSystem, src: Path, dst: Path) {
    forall p :: Within(dst, p) ==>
      (p in r <==> Rebase(dst, src, p) in fs) &&
      (p in r ==> r[p] == fs[Rebase(dst, src, p)])
  }

  lemma AncestorNotWithin(p: Path, a: Path)
    requires a in Ancestors(p)
    ensures !Within(p, a) && |a| < |p|
  {
  }

  /** The copy is exactly a mirror of the source tree, when the source is a
      directory outside the (absent) destination's ancestry. */
  lemma CopyTreeMirrors(fs: FileSystem, src: Path, dst: Path)
    requires src in fs && fs[src] == Dir
    requires forall q :: q in fs ==> !Within(dst, q)
    ensures Mirrors(fs, CopyTree(fs, src, dst), src, dst)
  {
    var r := CopyTree(fs, src, dst);
    var g := Graft(fs, src, dst);
    forall p | Within(dst, p)
      ensures (p in r <==> Rebase(dst, src, p) in fs) && (p in r ==> r[p] == fs[Rebase(dst, src, p)])
    {
      GraftAt(fs, src, dst, p);
      if p == dst {
        assert Rebase(dst, src, p) == src;
      } else {
        if p in Ancestors(dst) { AncestorNotWithin(dst, p); }
      }
    }
    forall p | p !in g && p in r
      ensures p == dst || p in Ancestors(dst) || p in fs
    {
    }
  }

  /** Removing the destination and then copying (the remove-then-copy of every
      mirror step) leaves the destination tree equal to the source tree. */
  lemma ReplaceTreeMirrors(fs: FileSystem, src: Path, dst: Path)
    requires src in fs && fs[src] == Dir
    requires Disjoint(src, dst)
    ensures Mirrors(RemoveTree(fs, dst), CopyTree(RemoveTree(fs, dst), src, dst), src, dst)
    ensures src in RemoveTree(fs, dst)
  {
    CopyTreeMirrors(RemoveTree(fs, dst), src, dst);
  }

  // ---------------------------------------------------------------------------
  // How paths nest

  /** A path a caller can join onto: non-empty, no trailing `/` (what
      `os.path.abspath` produces). */
  predicate Canonical(p: Path) {
    p != "" && p[|p| - 1] != '/'
  }

  /** A relative component string for `os.path.join`. */
  predicate Relative(b: string) {
    b == [] || b[0] != '/'
  }

  lemma JoinWithin(a: Path, b: string)
    requires Canonical(a) && Relative(b)
    ensures Within(a, Join(a, b))
  {
    var r := Join(a, b);
    assert r == a + "/" + b;
    assert r[..|a|] == a;
  }

  lemma WithinTrans(a: Path, b: Path, c: Path)
    requires Within(a, b) && Within(b, c)
    ensures Within(a, c)
  {
    if a != b && b != c {
      assert c[..|b|][..|a|] == c[..|a|];
      assert c[..|b|][|a|] == c[|a|];
    }
  }

  /** Two trees with a common path are nested. */
  lemma CommonDescendant(a: Path, b: Path, p: Path)
    requires Within(a, p) && Within(b, p)
    ensures Within(a, b) || Within(b, a)
  {
    if |a| <= |b| {
      if a != b {
        assert b == p[..|b|];
        assert b[..|a|] == p[..|a|];
        if |a| < |b| { assert b[|a|] == p[|a|]; }
      }
    } else {
      assert a == p[..|a|];
      assert a[..|b|] == p[..|b|];
      assert a[|b|] == p[|b|];
    }
  }

  lemma DisjointNoCommon(a: Path, b: Path, p: Path)
    requires Disjoint(a, b)
    ensures !(Within(a, p) && Within(b, p))
  {
    if Within(a, p) && Within(b, p) { CommonDescendant(a, b, p); }
  }

  lemma AncestorIsWithin(a: Path, p: Path)
    requires a in Ancestors(p)
    ensures Within(a, p) && a != p
  {
    var i :| 0 < i < |p| && p[i] == '/' && p[..i] == a;
    assert p[..|a|] == a;
  }

  /** An ancestor of a path beneath `r` is beneath `r` or an ancestor of `r`. */
  lemma AncestorOfWithin(r: Path, p: Path, a: Path)
    requires Within(r, p) && a in Ancestors(p)
    ensures Within(r, a) || a in Ancestors(r)
  {
    var i :| 0 < i < |p| && p[i] == '/' && p[..i] == a;
    if i < |r| {
      assert r[i] == p[i] && r[..i] == a;
    } else if i > |r| {
      assert a[..|r|] == r && a[|r|] == p[|r|];
    } else {
      assert a == r;
    }
  }

  // ---------------------------------------------------------------------------
  // Which parts of the filesystem an operation may change

  /** Outside the trees at `roots`: every existing entry keeps its value, and
      the only new entries are directories on the way to one of the roots. */
  ghost predicate ConfinedTo(fs: FileSystem, fs': FileSystem, roots: set<Path>) {
    && (forall p :: p in fs && (forall r :: r in roots ==> !Within(r, p)) ==> p in fs' && fs'[p] == fs[p])
    && (forall p :: p in fs' && p !in fs && (forall r :: r in roots ==> !Within(r, p)) ==>
          fs'[p] == Dir && exists r :: r in roots && p in Ancestors(r))
  }

  lemma ConfinedTrans(a: FileSystem, b: FileSystem, c: FileSystem, r1: set<Path>, r2: set<Path>)
    requires ConfinedTo(a, b, r1) && ConfinedTo(b, c, r2)
    ensures ConfinedTo(a, c, r1 + r2)
  {
  }

  lemma ConfinedWiden(a: FileSystem, b: FileSystem, r1: set<Path>, r2: set<Path>)
    requires ConfinedTo(a, b, r1) && r1 <= r2
    ensures ConfinedTo(a, b, r2)
  {
  }

  lemma ConfinedRefl(a: FileSystem, roots: set<Path>)
    ensures ConfinedTo(a, a, roots)
  {
  }

  /** A change beneath `r + "/..."` is a change beneath `r`. */
  lemma ConfinedNarrow(a: FileSystem, b: FileSystem, root: Path, sub: Path)
    requires Within(root, sub) && ConfinedTo(a, b, {sub})
    ensures ConfinedTo(a, b, {root})
  {
    forall p | p in a && !Within(root, p)
      ensures p in b && b[p] == a[p]
    {
      if Within(sub, p) { WithinTrans(root, sub, p); }
    }
    forall p | p in b && p !in a && !Within(root, p)
      ensures b[p] == Dir && p in Ancestors(root)
    {
      if Within(sub, p) { WithinTrans(root, sub, p); }
      assert p in Ancestors(sub);
      AncestorOfWithin(root, sub, p);
    }
  }

  lemma MakeDirsConfined(fs: FileSystem, p: Path)
    ensures ConfinedTo(fs, MakeDirs(fs, p), {p})
  {
  }

  lemma RemoveTreeConfined(fs: FileSystem, p: Path)
    ensures ConfinedTo(fs, RemoveTree(fs, p), {p})
  {
  }

  lemma OverlayConfined(fs: FileSystem, p: Path, tree: FileSystem)
    ensures ConfinedTo(fs, Overlay(fs, p, tree), {p})
  {
  }

  lemma UpdateConfined(fs: FileSystem, p: Path, n: Node)
    ensures ConfinedTo(fs, fs[p := n], {p})
  {
  }

  lemma CopyTreeConfined(fs: FileSystem, src: Path, dst: Path)
    ensures ConfinedTo(fs, CopyTree(fs, src, dst), {dst})
  {
    var g := Graft(fs, src, dst);
    forall p | p in g
      ensures Within(dst, p)
    {
      var q :| q in fs && Within(src, q) && Rebase(src, dst, q) == p;
      RebaseWithin(src, dst, q);
    }
  }

  /** Trees beneath two disjoint trees are disjoint. */
  lemma DisjointBeneath(a: Path, b: Path, x: Path, y: Path)
    requires Disjoint(a, b) && Within(a, x) && Within(b, y)
    ensures Disjoint(x, y)
  {
    if Within(x, y) {
      WithinTrans(a, x, y);
      CommonDescendant(a, b, y);
    }
    if Within(y, x) {
      WithinTrans(b, y, x);
      CommonDescendant(a, b, x);
    }
  }

  /** A change confined to trees disjoint from `t` leaves the tree at `t` as it was. */
  lemma ConfinedKeepsTree(a: FileSystem, b: FileSystem, roots: set<Path>, t: Path, p: Path)
    requires ConfinedTo(a, b, roots)
    requires forall r :: r in roots ==> Disjoint(t, r)
    requires Within(t, p)
    ensures (p in a <==> p in b) && (p in a ==> b[p] == a[p])
  {
    forall r | r in roots
      ensures !Within(r, p)
    {
      DisjointNoCommon(t, r, p);
    }
    if p in b && p !in a {
      var r :| r in roots && p in Ancestors(r);
      AncestorIsWithin(p, r);
      WithinTrans(t, p, r);
    }
  }
}
