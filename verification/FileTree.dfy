/**
 The directory tree that the file-based backends work on, with the few operations they use, and
 mkdirAll as the NFS backend writes it (internal/storage/nfs/nfs.go).
 */
module FileTree {
  import opened Prelude

  /** The segments of a path below the storage directory; [] is that directory, which exists. */
  type Path = seq<string>

  datatype Node = Dir | File(content: Bytes)

  type Tree = map<Path, Node>

  function Parent(p: Path): Path
    requires p != []
  {
    p[..|p| - 1]
  }

  predicate Exists(tree: Tree, p: Path) {
    p == [] || p in tree
  }

  predicate IsDir(tree: Tree, p: Path) {
    p == [] || (p in tree && tree[p].Dir?)
  }

  predicate IsFile(tree: Tree, p: Path) {
    p != [] && p in tree && tree[p].File?
  }

  /** Every entry lies in a directory. */
  ghost predicate AncestorClosed(tree: Tree) {
    forall p :: p in tree ==> p != [] && IsDir(tree, Parent(p))
  }

  // ----- mkdirAll

  /** The tree and whether it succeeded; the server refuses to create the directories in `refused`. */
  function MkdirAllResult(tree: Tree, p: Path, refused: set<Path>): (Tree, bool)
    decreases |p|
  {
    if p == [] then (tree, true)
    else if p in tree then (tree, tree[p].Dir?)
    else
      var (above, ok) := MkdirAllResult(tree, Parent(p), refused);
      if ok && p !in refused then (above[p := Dir], true) else (above, false)
  }

  /** A target whose tree is changed by one Mkdir at a time. */
  class Target {
    var tree: Tree
    const refused: set<Path>

    constructor (tree: Tree, refused: set<Path>)
      ensures this.tree == tree && this.refused == refused
    {
      this.tree := tree;
      this.refused := refused;
    }

    /** Creates one directory in an existing one. */
    method Mkdir(p: Path) returns (ok: bool)
      requires p != []
      modifies this
      ensures ok == (p !in old(tree) && IsDir(old(tree), Parent(p)) && p !in refused)
      ensures tree == if ok then old(tree)[p := Dir] else old(tree)
    {
      ok := p !in tree && IsDir(tree, Parent(p)) && p !in refused;
      if ok {
        tree := tree[p := Dir];
      }
    }

    method MkdirAll(p: Path) returns (ok: bool)
      requires AncestorClosed(tree)
      modifies this
      ensures (tree, ok) == MkdirAllResult(old(tree), p, refused)
      decreases |p|
    {
      if p == [] {
        return true;
      }
      if p in tree {
        return tree[p].Dir?;
      }
      var parent := Parent(p);
      if parent != [] {
        MkdirAllAdds(tree, parent, refused);
        ok := MkdirAll(parent);
        if !ok {
          return false;
        }
      }
      ok := Mkdir(p);
      if !ok && IsDir(tree, p) {
        return true;
      }
    }
  }

  /** q is a non-root ancestor of p, or p itself. */
  predicate IsAncestor(q: Path, p: Path) {
    q != [] && q <= p
  }

  /** It only adds directories among the ancestors, and leaves a tree in which every entry lies in a
      directory, whether it succeeds or fails midway. */
  lemma {:induction false} MkdirAllAdds(tree: Tree, p: Path, refused: set<Path>)
    requires AncestorClosed(tree)
    ensures var (tree', ok) := MkdirAllResult(tree, p, refused);
      && AncestorClosed(tree')
      && (forall q :: q in tree ==> q in tree' && tree'[q] == tree[q])
      && (forall q :: q in tree' && q !in tree ==> IsAncestor(q, p) && tree'[q] == Dir)
      && (ok ==> IsDir(tree', p))
    decreases |p|
  {
    if p != [] && p !in tree {
      MkdirAllAdds(tree, Parent(p), refused);
      AncestorsOfParent(p);
    }
  }

  /** In any tree it keeps what is there and adds only directories among the ancestors. */
  lemma {:induction false} MkdirAllGrows(tree: Tree, p: Path, refused: set<Path>)
    ensures var tree' := MkdirAllResult(tree, p, refused).0;
      && (forall q :: q in tree ==> q in tree' && tree'[q] == tree[q])
      && (forall q :: q in tree' && q !in tree ==> IsAncestor(q, p) && tree'[q] == Dir)
    decreases |p|
  {
    if p != [] && p !in tree {
      MkdirAllGrows(tree, Parent(p), refused);
      AncestorsOfParent(p);
    }
  }

  /** It succeeds exactly when no ancestor is a file and no missing one is refused. */
  lemma {:induction false} MkdirAllSucceeds(tree: Tree, p: Path, refused: set<Path>)
    requires AncestorClosed(tree)
    ensures MkdirAllResult(tree, p, refused).1 <==>
      forall q :: IsAncestor(q, p) ==> if q in tree then tree[q].Dir? else q !in refused
    decreases |p|
  {
    if p == [] {
    } else if p in tree {
      DirsAbove(tree, p);
    } else {
      MkdirAllSucceeds(tree, Parent(p), refused);
      AncestorsOfParent(p);
    }
  }

  /** On success every ancestor is a directory. */
  lemma MkdirAllMakesPath(tree: Tree, p: Path, refused: set<Path>)
    requires AncestorClosed(tree) && MkdirAllResult(tree, p, refused).1
    ensures forall q :: IsAncestor(q, p) ==> IsDir(MkdirAllResult(tree, p, refused).0, q)
  {
    MkdirAllAdds(tree, p, refused);
    if p != [] {
      DirsAbove(MkdirAllResult(tree, p, refused).0, p);
    }
  }

  lemma AncestorsOfParent(p: Path)
    requires p != []
    ensures forall q :: IsAncestor(q, p) <==> IsAncestor(q, Parent(p)) || q == p
  {
    forall q
      ensures IsAncestor(q, p) <==> IsAncestor(q, Parent(p)) || q == p
    {
      AncestorSplit(q, p);
    }
  }

  lemma AncestorSplit(q: Path, p: Path)
    requires p != []
    ensures IsAncestor(q, p) <==> IsAncestor(q, Parent(p)) || q == p
  {
    if q <= p && q != p {
      assert |q| < |p|;
    }
  }

  /** In a closed tree everything above an entry is a directory. */
  lemma {:induction false} DirsAbove(tree: Tree, p: Path)
    requires AncestorClosed(tree) && p in tree
    ensures forall q :: IsAncestor(q, p) && q != p ==> q in tree && tree[q].Dir?
    decreases |p|
  {
    forall q | IsAncestor(q, p) && q != p
      ensures q in tree && tree[q].Dir?
    {
      AncestorSplit(q, p);
      var parent := Parent(p);
      if q != parent {
        assert parent in tree;
        DirsAbove(tree, parent);
      }
    }
  }
}
