/**
 What a scan by the backup daemon does, stated on the whole tree at once: the
 source lies at `src`, its backup at `back`, and the backup may lie inside the
 source. Paths below are given relative to the source: `src + q` is mirrored
 at `back + q`.
 */
module Mirror {
  import opened Bytes
  import opened FileTree

  datatype Roots = Roots(src: Path, back: Path)

  /** The source path lies in the backup; such paths are never mirrored. */
  predicate Excluded(r: Roots, q: Path) {
    r.back <= r.src + q
  }

  /** A node of the source proper. */
  predicate InSource(r: Roots, t: Tree, q: Path) {
    r.src + q in t && !Excluded(r, q)
  }

  /** The backup's node after the source's node was copied over it. */
  function CopyOf(node: Node, before: Option<Node>): Node {
    match before
    case None => node
    case Some(Dir) => Dir
    case Some(File(stale)) => if node.File? then File(Overlay(node.bytes, stale)) else File(stale)
  }

  /** The part of the source below `p` whose next name is in `names`, and `p` itself. */
  ghost predicate InScope(p: Path, names: iset<Name>, q: Path) {
    p <= q && (q == p || q[|p|] in names)
  }

  ghost function Everything(): iset<Name> {
    iset n: Name | |n| >= 0
  }

  /** The backup path `x` mirrors a source node in scope. */
  ghost predicate IsTarget(r: Roots, t: Tree, p: Path, names: iset<Name>, x: Path) {
    r.back <= x && InScope(p, names, x[|r.back|..]) && InSource(r, t, x[|r.back|..])
  }

  /** The node at `x` once the scope has been scanned. */
  ghost function After(r: Roots, t: Tree, p: Path, names: iset<Name>, x: Path): Option<Node> {
    if IsTarget(r, t, p, names, x) then Some(CopyOf(t[r.src + x[|r.back|..]], Get(t, x))) else Get(t, x)
  }

  ghost predicate Mirrored(r: Roots, t: Tree, p: Path, names: iset<Name>, t': Tree) {
    forall x :: Get(t', x) == After(r, t, p, names, x)
  }

  /** Where both exist, the source's node and the backup's node are of the same kind. */
  ghost predicate SameKinds(r: Roots, t: Tree) {
    forall q :: InSource(r, t, q) && r.back + q in t ==> t[r.src + q].Dir? == t[r.back + q].Dir?
  }

  lemma BackupPath(r: Roots, q: Path)
    ensures r.back <= r.back + q && (r.back + q)[|r.back|..] == q
  {
  }

  /** Nothing outside the backup changes, in particular no source node. */
  lemma OutsideUnchanged(r: Roots, t: Tree, p: Path, names: iset<Name>, t': Tree, x: Path)
    requires Mirrored(r, t, p, names, t') && !(r.back <= x)
    ensures Get(t', x) == Get(t, x)
  {
  }

  lemma SourceUnchanged(r: Roots, t: Tree, p: Path, names: iset<Name>, t': Tree, q: Path)
    requires Mirrored(r, t, p, names, t')
    ensures InSource(r, t', q) == InSource(r, t, q)
    ensures InSource(r, t, q) ==> t'[r.src + q] == t[r.src + q]
  {
    if !Excluded(r, q) {
      OutsideUnchanged(r, t, p, names, t', r.src + q);
    }
  }

  /** The node at `back + q` after a scan. */
  lemma MirroredAt(r: Roots, t: Tree, p: Path, names: iset<Name>, t': Tree, q: Path)
    requires Mirrored(r, t, p, names, t')
    ensures Get(t', r.back + q) ==
              if InScope(p, names, q) && InSource(r, t, q) then Some(CopyOf(t[r.src + q], Get(t, r.back + q)))
              else Get(t, r.back + q)
  {
    BackupPath(r, q);
    assert Get(t', r.back + q) == After(r, t, p, names, r.back + q);
  }

  /**
   A scanned file equals its original afterwards exactly if its backup was
   absent or not longer: `copy` does not truncate.
   */
  lemma EqualUnlessLonger(r: Roots, t: Tree, p: Path, names: iset<Name>, t': Tree, q: Path)
    requires Mirrored(r, t, p, names, t') && SameKinds(r, t)
    requires InScope(p, names, q) && InSource(r, t, q) && IsFile(t, r.src + q)
    ensures Get(t', r.back + q) == Get(t', r.src + q) <==>
              r.back + q !in t || |t[r.back + q].bytes| <= |t[r.src + q].bytes|
  {
    MirroredAt(r, t, p, names, t', q);
    SourceUnchanged(r, t, p, names, t', q);
  }

  /**
   Byte by byte: after a whole scan of `p` the backup of a file at or below it
   begins with the file's bytes and goes on with what was there before.
   */
  lemma BytesMirrored(r: Roots, t: Tree, p: Path, t': Tree, q: Path)
    requires Mirrored(r, t, p, Everything(), t') && p <= q
    requires r.src + q in t && t[r.src + q].File? && !(r.back <= r.src + q)
    requires r.back + q in t ==> t[r.back + q].File?
    ensures r.back + q in t' && t'[r.back + q].File?
    ensures var f, c, x := t[r.src + q].bytes, t'[r.back + q].bytes, r.back + q;
      && f <= c
      && (|f| < |c| ==> x in t && |t[x].bytes| == |c| && forall k | |f| <= k < |c| :: c[k] == t[x].bytes[k])
      && (x in t ==> |t[x].bytes| <= |c|)
  {
    MirroredAt(r, t, p, Everything(), t', q);
    assert InSource(r, t, q);
  }

  /** Below `p` each source directory gets one in the backup; the rest of the tree stays as it is. */
  lemma DirsMirrored(r: Roots, t: Tree, p: Path, t': Tree, q: Path)
    requires Mirrored(r, t, p, Everything(), t')
    ensures (p <= q && r.src + q in t && t[r.src + q].Dir? && !(r.back <= r.src + q)
             && (r.back + q in t ==> t[r.back + q].Dir?)) ==> r.back + q in t' && t'[r.back + q].Dir?
    ensures !(p <= q) || r.src + q !in t || r.back <= r.src + q ==>
              (r.back + q in t' <==> r.back + q in t) && (r.back + q in t ==> t'[r.back + q] == t[r.back + q])
    ensures forall x :: !(r.back <= x) ==> (x in t' <==> x in t) && (x in t ==> t'[x] == t[x])
  {
    MirroredAt(r, t, p, Everything(), t', q);
    forall x | !(r.back <= x)
      ensures (x in t' <==> x in t) && (x in t ==> t'[x] == t[x])
    {
      OutsideUnchanged(r, t, p, Everything(), t', x);
    }
  }

  lemma KeepsSameKinds(r: Roots, t: Tree, p: Path, names: iset<Name>, t': Tree)
    requires Mirrored(r, t, p, names, t') && SameKinds(r, t)
    ensures SameKinds(r, t')
  {
    forall q | InSource(r, t', q) && r.back + q in t'
      ensures t'[r.src + q].Dir? == t'[r.back + q].Dir?
    {
      SourceUnchanged(r, t, p, names, t', q);
      MirroredAt(r, t, p, names, t', q);
    }
  }

  /** Scanning the subdirectory `n` extends the scope by `n`. */
  lemma ScopeGrowsByDir(r: Roots, t: Tree, p: Path, names: iset<Name>, t1: Tree, n: Name, t2: Tree)
    requires Mirrored(r, t, p, names, t1) && n !in names
    requires Mirrored(r, t1, p + [n], Everything(), t2)
    ensures Mirrored(r, t, p, names + iset{n}, t2)
  {
    forall x
      ensures Get(t2, x) == After(r, t, p, names + iset{n}, x)
    {
      assert Get(t2, x) == After(r, t1, p + [n], Everything(), x);
      assert Get(t1, x) == After(r, t, p, names, x);
      if r.back <= x {
        var q := x[|r.back|..];
        SourceUnchanged(r, t, p, names, t1, q);
        ScopeSplits(p, names, n, q);
      }
    }
  }

  lemma ScopeSplits(p: Path, names: iset<Name>, n: Name, q: Path)
    requires n !in names
    ensures InScope(p, names + iset{n}, q) <==> InScope(p, names, q) || InScope(p + [n], Everything(), q)
    ensures !(InScope(p, names, q) && InScope(p + [n], Everything(), q))
  {
    if p <= q && q != p {
      assert q[..|p| + 1] == p + [q[|p|]];
    }
  }

  /** A regular file has nothing below it: it adds one path to the scope. */
  lemma FileAddsItself(r: Roots, t: Tree, p: Path, names: iset<Name>, n: Name, x: Path)
    requires Closed(t) && n !in names && InSource(r, t, p + [n]) && IsFile(t, r.src + (p + [n]))
    ensures IsTarget(r, t, p, names + iset{n}, x) <==> IsTarget(r, t, p, names, x) || x == r.back + (p + [n])
    ensures !IsTarget(r, t, p, names, r.back + (p + [n]))
  {
    var q := p + [n];
    BackupPath(r, q);
    ScopeSplits(p, names, n, q);
    if r.back <= x {
      var z := x[|r.back|..];
      assert r.back + z == x;
      ScopeSplits(p, names, n, z);
      if q <= z && q != z && r.src + z in t {
        assert r.src + q <= r.src + z;
        AncestorIsDir(t, r.src + q, r.src + z);
        assert false;
      }
    }
  }

  /** Copying the regular file `n` extends the scope by `n`. */
  lemma ScopeGrowsByFile(r: Roots, t: Tree, p: Path, names: iset<Name>, t1: Tree, n: Name)
    requires Closed(t) && Mirrored(r, t, p, names, t1) && n !in names
    requires InSource(r, t, p + [n]) && IsFile(t, r.src + (p + [n]))
    requires IsFile(t1, r.back + (p + [n])) || CanCreate(t1, r.back + (p + [n]))
    ensures Mirrored(r, t, p, names + iset{n},
                     WriteOver(t1, r.back + (p + [n]), Readable(t1, r.src + (p + [n]))))
  {
    var q := p + [n];
    var t2 := WriteOver(t1, r.back + q, Readable(t1, r.src + q));
    SourceUnchanged(r, t, p, names, t1, q);
    BackupPath(r, q);
    forall x
      ensures Get(t2, x) == After(r, t, p, names + iset{n}, x)
    {
      assert Get(t1, x) == After(r, t, p, names, x);
      FileAddsItself(r, t, p, names, n, x);
      hide IsTarget, InScope, Closed, Mirrored;
    }
  }
}
