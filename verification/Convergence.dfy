/**
 Why the mirror converges: at every moment each node of the source is either
 up to date in the backup, or named by a queued event, or below a new directory
 that a queued event names and that is not watched yet.

 The environment makes directories, creates files and writes without
 shrinking, anywhere in the source outside the backup. Events are not lost.
 One event is handled at a time, and each handling is one step.
 */
module Convergence {
  import opened Bytes
  import opened FileTree
  import opened Mirror
  import opened Watches

  /**
   The node that mirrors a source node: a directory, or the file's bytes over
   the backup file that was there before the daemon started.
   */
  function Image(r: Roots, b: Tree, t: Tree, q: Path): Node {
    if IsFile(t, r.src + q) then File(Overlay(t[r.src + q].bytes, Readable(b, r.back + q))) else Dir
  }

  /** The backup's node `copy` of the source's `node` still shows the old bytes past the node's end. */
  predicate Backs(copy: Node, node: Node, stale: seq<Byte>) {
    match copy
    case Dir => node.Dir?
    case File(bytes) => node.File? && Overlay(node.bytes, bytes) == Overlay(node.bytes, stale)
  }

  /** What the backup holds, compared with the tree `b` of the beginning. */
  ghost predicate Backing(r: Roots, b: Tree, t: Tree) {
    forall q :: if InSource(r, t, q) && r.back + q in t
                then Backs(t[r.back + q], t[r.src + q], Readable(b, r.back + q))
                else Get(t, r.back + q) == Get(b, r.back + q)
  }

  /** The event speaks of the path `y`. */
  predicate Names(s: State, e: Event, y: Path) {
    e.wd in s.wds && s.wds[e.wd] + [e.name] == y
  }

  ghost predicate Queued(s: State, y: Path) {
    exists k :: 0 <= k < |s.queue| && Names(s, s.queue[k], y)
  }

  ghost predicate QueuedNew(s: State, y: Path) {
    exists k :: 0 <= k < |s.queue| && s.queue[k].kind != Modify && Names(s, s.queue[k], y)
  }

  /** `a` is a directory on the way to `q` that will be scanned. */
  ghost predicate Pending(r: Roots, s: State, a: Path, q: Path) {
    a <= q && r.src + a !in s.watch && QueuedNew(s, r.src + a)
  }

  ghost predicate Awaited(r: Roots, s: State, q: Path) {
    exists a :: Pending(r, s, a, q)
  }

  ghost predicate DirCovered(r: Roots, s: State, q: Path) {
    r.src + q in s.watch || Awaited(r, s, q)
  }

  ghost predicate FileCovered(r: Roots, b: Tree, s: State, q: Path) {
    Get(s.tree, r.back + q) == Some(Image(r, b, s.tree, q)) || Queued(s, r.src + q) || Awaited(r, s, q)
  }

  ghost predicate Covered(r: Roots, b: Tree, s: State) {
    forall q :: InSource(r, s.tree, q) ==>
      if s.tree[r.src + q].Dir? then DirCovered(r, s, q) else FileCovered(r, b, s, q)
  }

  /** A queued event comes from a live watch and names a node of the source, or the backup itself. */
  ghost predicate GoodEvent(r: Roots, s: State, e: Event) {
    && e.wd in s.wds && s.wds[e.wd] in s.watch && s.watch[s.wds[e.wd]] == e.wd
    && var y := s.wds[e.wd] + [e.name];
       && (r.back <= y ==> r.back == y)
       && y in s.tree && (e.kind == Modify && y != r.back ==> IsFile(s.tree, y))
  }

  ghost predicate GoodQueue(r: Roots, s: State) {
    forall k :: 0 <= k < |s.queue| ==> GoodEvent(r, s, s.queue[k])
  }

  ghost predicate Rooted(r: Roots, t: Tree) {
    IsDir(t, r.src) && IsDir(t, r.back) && !(r.back <= r.src)
  }

  ghost predicate Inv(r: Roots, b: Tree, s: State) {
    && Sound(r, s) && Rooted(r, s.tree) && Backing(r, b, s.tree)
    && WatchedDirs(r, s) && GoodQueue(r, s) && Covered(r, b, s)
  }

  /** Each source node has its image in the backup, and what else was there is untouched. */
  ghost predicate UpToDate(r: Roots, b: Tree, t: Tree) {
    forall q :: Get(t, r.back + q) == if InSource(r, t, q) then Some(Image(r, b, t, q)) else Get(b, r.back + q)
  }

  /**
   Byte by byte: an up-to-date backup file begins with the source's bytes, and
   what follows them was in the backup file of the beginning at that place.
   */
  lemma BytesUpToDate(r: Roots, b: Tree, t: Tree, q: Path)
    requires UpToDate(r, b, t)
    requires r.src + q in t && t[r.src + q].File? && !(r.back <= r.src + q)
    ensures r.back + q in t && t[r.back + q].File?
    ensures var f, c, x := t[r.src + q].bytes, t[r.back + q].bytes, r.back + q;
      && f <= c
      && (|f| < |c| ==>
            && x in b && b[x].File? && |b[x].bytes| == |c|
            && forall k | |f| <= k < |c| :: c[k] == b[x].bytes[k])
      && (x in b && b[x].File? ==> |b[x].bytes| <= |c|)
  {
    assert InSource(r, t, q);
    assert Get(t, r.back + q) == Some(Image(r, b, t, q));
  }

  /** The same for the whole backup, with its directories and with what mirrors no source node. */
  lemma AllBytesUpToDate(r: Roots, b: Tree, t: Tree)
    requires UpToDate(r, b, t)
    ensures forall q :: r.src + q in t && t[r.src + q].File? && !(r.back <= r.src + q) ==>
      && r.back + q in t && t[r.back + q].File? && t[r.src + q].bytes <= t[r.back + q].bytes
      && (|t[r.src + q].bytes| < |t[r.back + q].bytes| ==>
            && r.back + q in b && b[r.back + q].File? && |b[r.back + q].bytes| == |t[r.back + q].bytes|
            && forall k | |t[r.src + q].bytes| <= k < |t[r.back + q].bytes| ::
                 t[r.back + q].bytes[k] == b[r.back + q].bytes[k])
      && (r.back + q in b && b[r.back + q].File? ==> |b[r.back + q].bytes| <= |t[r.back + q].bytes|)
    ensures forall q :: r.src + q in t && t[r.src + q].Dir? && !(r.back <= r.src + q) ==>
      r.back + q in t && t[r.back + q].Dir?
    ensures forall q :: r.src + q !in t || r.back <= r.src + q ==>
      (r.back + q in t <==> r.back + q in b) && (r.back + q in b ==> t[r.back + q] == b[r.back + q])
  {
    forall q
      ensures r.src + q in t && t[r.src + q].Dir? && !(r.back <= r.src + q) ==> IsDir(t, r.back + q)
      ensures r.src + q !in t || r.back <= r.src + q ==> Get(t, r.back + q) == Get(b, r.back + q)
    {
      assert Get(t, r.back + q) == if InSource(r, t, q) then Some(Image(r, b, t, q)) else Get(b, r.back + q);
    }
    forall q | r.src + q in t && t[r.src + q].File? && !(r.back <= r.src + q)
      ensures r.back + q in t && t[r.back + q].File? && t[r.src + q].bytes <= t[r.back + q].bytes
      ensures |t[r.src + q].bytes| < |t[r.back + q].bytes| ==>
                && r.back + q in b && b[r.back + q].File? && |b[r.back + q].bytes| == |t[r.back + q].bytes|
                && forall k | |t[r.src + q].bytes| <= k < |t[r.back + q].bytes| ::
                     t[r.back + q].bytes[k] == b[r.back + q].bytes[k]
      ensures r.back + q in b && b[r.back + q].File? ==> |b[r.back + q].bytes| <= |t[r.back + q].bytes|
    {
      BytesUpToDate(r, b, t, q);
      hide UpToDate;
    }
  }

  /** With nothing left to handle the backup is up to date. */
  lemma EmptyQueueUpToDate(r: Roots, b: Tree, s: State)
    requires Inv(r, b, s) && s.queue == []
    ensures UpToDate(r, b, s.tree)
  {
    forall q
      ensures Get(s.tree, r.back + q)
           == if InSource(r, s.tree, q) then Some(Image(r, b, s.tree, q)) else Get(b, r.back + q)
    {
      if InSource(r, s.tree, q) {
        if s.tree[r.src + q].Dir? {
          assert DirCovered(r, s, q);
          assert (r.src + q)[|r.src|..] == q;
        } else {
          assert FileCovered(r, b, s, q);
        }
      }
    }
  }

  /** The backup is the source, node for node. */
  ghost predicate InStep(r: Roots, t: Tree) {
    forall q :: if InSource(r, t, q) then Get(t, r.back + q) == Get(t, r.src + q) else r.back + q !in t
  }

  /** The backup `b` holds only nodes of the source `t`, and no file longer than its original. */
  ghost predicate Older(r: Roots, b: Tree, t: Tree) {
    forall q :: r.back + q in b ==>
      InSource(r, t, q) && (IsFile(t, r.src + q) ==> |Readable(b, r.back + q)| <= |t[r.src + q].bytes|)
  }

  /** An up-to-date backup equals the source if and only if there was nothing else in it. */
  lemma InStepExactly(r: Roots, b: Tree, t: Tree)
    requires UpToDate(r, b, t)
    ensures InStep(r, t) <==> Older(r, b, t)
  {
    forall q
      ensures IsFile(t, r.src + q) ==>
                (Image(r, b, t, q) == t[r.src + q] <==> |Readable(b, r.back + q)| <= |t[r.src + q].bytes|)
      ensures (if InSource(r, t, q) then Get(t, r.back + q) == Get(t, r.src + q) else r.back + q !in t)
         <==> (r.back + q in b ==>
                 InSource(r, t, q) && (IsFile(t, r.src + q) ==>
                                         |Readable(b, r.back + q)| <= |t[r.src + q].bytes|))
    {
      KindOf(t, r.src + q);
      assert r.back + q !in b ==> Readable(b, r.back + q) == [];
    }
  }

  // -------------------------------------------------------------- environment

  /**
   A new node, a directory or an empty file, appears as `n` in the source
   directory `p`, where the backup has nothing or a node of that kind.
   */
  predicate CanAdd(r: Roots, s: State, p: Path, n: Name, node: Node) {
    && InSource(r, s.tree, p) && IsDir(s.tree, r.src + p)
    && r.src + (p + [n]) !in s.tree && !Excluded(r, p + [n])
    && (node == Dir || node == File([]))
    && (r.back + (p + [n]) in s.tree ==> s.tree[r.back + (p + [n])].Dir? == node.Dir?)
  }

  /** The source file `n` in `p` gets new contents, not shorter than before. */
  predicate CanWrite(r: Roots, s: State, p: Path, n: Name, node: Node) {
    && InSource(r, s.tree, p + [n]) && IsFile(s.tree, r.src + (p + [n]))
    && node.File? && |s.tree[r.src + (p + [n])].bytes| <= |node.bytes|
  }

  predicate CanChange(r: Roots, s: State, p: Path, n: Name, node: Node, kind: Kind) {
    match kind
    case Create => CanAdd(r, s, p, n, node)
    case Modify => CanWrite(r, s, p, n, node)
    case MovedTo => false
  }

  /** The change and its event, if the directory is watched. */
  function Changed(r: Roots, s: State, p: Path, n: Name, node: Node, kind: Kind): State {
    s.(tree := s.tree[r.src + (p + [n]) := node], queue := Notified(s, r.src + p, kind, n))
  }

  lemma NotifiedHolds(s: State, dir: Path, kind: Kind, name: Name)
    ensures s.queue <= Notified(s, dir, kind, name)
    ensures dir in s.watch ==>
              var queue := Notified(s, dir, kind, name);
              queue != [] && queue[|queue| - 1] == Event(s.watch[dir], kind, name)
  {
  }

  /** More events, and the same watches, cover no less. */
  lemma MoreEventsCover(r: Roots, s: State, s': State, q: Path)
    requires s.queue <= s'.queue && s'.watch == s.watch && s'.wds == s.wds
    ensures Queued(s, r.src + q) ==> Queued(s', r.src + q)
    ensures Awaited(r, s, q) ==> Awaited(r, s', q)
  {
    forall y
      ensures Queued(s, y) ==> Queued(s', y)
      ensures QueuedNew(s, y) ==> QueuedNew(s', y)
    {
      if Queued(s, y) {
        var k :| 0 <= k < |s.queue| && Names(s, s.queue[k], y);
        assert Names(s', s'.queue[k], y);
      }
      if QueuedNew(s, y) {
        var k :| 0 <= k < |s.queue| && s.queue[k].kind != Modify && Names(s, s.queue[k], y);
        assert Names(s', s'.queue[k], y);
      }
    }
    if Awaited(r, s, q) {
      var a :| Pending(r, s, a, q);
      assert Pending(r, s', a, q);
    }
  }

  /** A change in the watched directory src + p is queued. */
  lemma ChangeIsQueued(r: Roots, s: State, s': State, p: Path, kind: Kind, n: Name)
    requires Tables(r, s) && r.src + p in s.watch
    requires s'.queue == Notified(s, r.src + p, kind, n) && s'.wds == s.wds
    ensures Queued(s', r.src + (p + [n]))
    ensures kind != Modify ==> QueuedNew(s', r.src + (p + [n]))
  {
    NotifiedHolds(s, r.src + p, kind, n);
    var k := |s'.queue| - 1;
    assert r.src + p + [n] == r.src + (p + [n]);
    assert Names(s', s'.queue[k], r.src + (p + [n]));
  }

  lemma BackingKinds(r: Roots, b: Tree, t: Tree)
    requires Backing(r, b, t)
    ensures SameKinds(r, t)
  {
  }

  lemma GoodQueueGrows(r: Roots, s: State, dir: Path, kind: Kind, n: Name)
    requires GoodQueue(r, s) && (dir in s.watch ==> GoodEvent(r, s, Event(s.watch[dir], kind, n)))
    ensures GoodQueue(r, s.(queue := Notified(s, dir, kind, n)))
  {
    var s' := s.(queue := Notified(s, dir, kind, n));
    forall k | 0 <= k < |s'.queue|
      ensures GoodEvent(r, s', s'.queue[k])
    {
      if k < |s.queue| {
        assert GoodEvent(r, s, s.queue[k]);
      }
    }
    hide Notified;
  }

  /** Two files that agree past the end of x agree past the end of anything longer. */
  lemma OverlayGrows(x: seq<Byte>, y: seq<Byte>, a: seq<Byte>, c: seq<Byte>)
    requires Overlay(x, a) == Overlay(x, c) && |x| <= |y|
    ensures Overlay(y, a) == Overlay(y, c)
  {
    var u, v := Overlay(y, a), Overlay(y, c);
    forall k | |y| <= k < |u|
      ensures k < |v| && u[k] == v[k]
    {
      assert u[k] == a[k] == Overlay(x, a)[k];
    }
    assert u == v;
  }

  /** Writing the same bytes again changes nothing. */
  lemma OverlayTwice(x: seq<Byte>, a: seq<Byte>)
    ensures Overlay(x, Overlay(x, a)) == Overlay(x, a)
  {
  }

  /** A source node that grows, or appears over a backup node of its kind, is still backed. */
  lemma GrownIsBacked(copy: Node, node: Node, node': Node, stale: seq<Byte>)
    requires Backs(copy, node, stale) && node.Dir? == node'.Dir?
    requires node.File? ==> |node.bytes| <= |node'.bytes|
    ensures Backs(copy, node', stale)
  {
    if node.File? {
      OverlayGrows(node.bytes, node'.bytes, copy.bytes, stale);
    }
  }

  /** The tree with one source node replaced: nothing else moves. */
  lemma NodeSet(r: Roots, b: Tree, t: Tree, q0: Path, node: Node)
    requires !Excluded(r, q0) && Closed(t) && Backing(r, b, t)
    requires var y := r.src + q0; y != [] ==> IsDir(t, Parent(y))
    requires var y := r.src + q0;
      if y in t then t[y].Dir? == node.Dir? && (t[y].File? ==> |t[y].bytes| <= |node.bytes|)
      else r.back + q0 in t ==> t[r.back + q0].Dir? == node.Dir?
    ensures Closed(t[r.src + q0 := node]) && Backing(r, b, t[r.src + q0 := node])
  {
    var t' := t[r.src + q0 := node];
    forall q
      ensures if InSource(r, t', q) && r.back + q in t'
              then Backs(t'[r.back + q], t'[r.src + q], Readable(b, r.back + q))
              else Get(t', r.back + q) == Get(b, r.back + q)
    {
      BackupPath(r, q);
      if q == q0 {
        if r.back + q0 in t {
          NodeIsBacked(r, b, t, q0, node);
        }
      } else {
        SrcDistinct(r, q, q0);
      }
      hide Backs, Closed;
    }
  }

  lemma NodeIsBacked(r: Roots, b: Tree, t: Tree, q: Path, node: Node)
    requires !Excluded(r, q) && Backing(r, b, t) && r.back + q in t
    requires var y := r.src + q;
      if y in t then t[y].Dir? == node.Dir? && (t[y].File? ==> |t[y].bytes| <= |node.bytes|)
      else t[r.back + q].Dir? == node.Dir?
    ensures Backs(t[r.back + q], node, Readable(b, r.back + q))
  {
    if r.src + q in t {
      assert InSource(r, t, q);
      GrownIsBacked(t[r.back + q], t[r.src + q], node, Readable(b, r.back + q));
    }
  }

  lemma SoundWith(r: Roots, s: State, t: Tree, queue: seq<Event>)
    requires Sound(r, s) && Closed(t) && SameKinds(r, t)
    ensures Sound(r, s.(tree := t, queue := queue))
  {
    hide SameKinds, Closed;
  }

  /** No node disappears or changes its kind. */
  ghost predicate KeepsKinds(t: Tree, t': Tree) {
    forall x :: (IsDir(t, x) ==> IsDir(t', x)) && (IsFile(t, x) ==> IsFile(t', x))
  }

  lemma KindsKept(r: Roots, s: State, t: Tree, queue: seq<Event>)
    requires KeepsKinds(s.tree, t)
    ensures WatchedDirs(r, s) ==> WatchedDirs(r, s.(tree := t, queue := queue))
    ensures GoodQueue(r, s) ==> GoodQueue(r, s.(tree := t))
    ensures Rooted(r, s.tree) ==> Rooted(r, t)
  {
    var s' := s.(tree := t);
    if GoodQueue(r, s) {
      forall k | 0 <= k < |s'.queue|
        ensures GoodEvent(r, s', s'.queue[k])
      {
        assert GoodEvent(r, s, s.queue[k]);
        KindOf(s.tree, s.wds[s.queue[k].wd] + [s.queue[k].name]);
        KindOf(t, s.wds[s.queue[k].wd] + [s.queue[k].name]);
      }
    }
  }

  lemma KindOf(t: Tree, x: Path)
    ensures x in t <==> IsDir(t, x) || IsFile(t, x)
  {
  }

  lemma ChangeKeepsEvents(r: Roots, s: State, p: Path, n: Name, node: Node, kind: Kind)
    requires Tables(r, s) && CanChange(r, s, p, n, node, kind)
    requires GoodQueue(r, s.(tree := Changed(r, s, p, n, node, kind).tree))
    ensures GoodQueue(r, Changed(r, s, p, n, node, kind))
  {
    assert r.src + (p + [n]) == r.src + p + [n];
    var s1 := s.(tree := Changed(r, s, p, n, node, kind).tree);
    GoodQueueGrows(r, s1, r.src + p, kind, n);
    hide GoodQueue, Notified;
  }

  /** What a change asks of the tree. */
  lemma ChangeFits(r: Roots, s: State, p: Path, n: Name, node: Node, kind: Kind)
    requires Closed(s.tree) && CanChange(r, s, p, n, node, kind)
    ensures var t, q0, y := s.tree, p + [n], r.src + (p + [n]);
            && !Excluded(r, q0) && y != [] && IsDir(t, Parent(y))
            && (if y in t then t[y].Dir? == node.Dir? && (t[y].File? ==> |t[y].bytes| <= |node.bytes|)
                else r.back + q0 in t ==> t[r.back + q0].Dir? == node.Dir?)
            && KeepsKinds(t, t[y := node])
  {
    var y := r.src + (p + [n]);
    assert Parent(y) == r.src + p;
    if kind == Modify {
      ParentIsDir(r, s.tree, p, n);
    }
    hide Closed;
  }

  lemma ChangeKeepsTree(r: Roots, b: Tree, s: State, p: Path, n: Name, node: Node, kind: Kind)
    requires Sound(r, s) && Backing(r, b, s.tree) && CanChange(r, s, p, n, node, kind)
    ensures var s' := Changed(r, s, p, n, node, kind);
            Sound(r, s') && Backing(r, b, s'.tree) && KeepsKinds(s.tree, s'.tree)
  {
    var t, y, queue := s.tree, r.src + (p + [n]), Notified(s, r.src + p, kind, n);
    SoundIsClosed(r, s);
    hide Sound, Closed, Backing, SameKinds, Notified, KeepsKinds, CanChange;
    ChangeFits(r, s, p, n, node, kind);
    NodeSet(r, b, t, p + [n], node);
    BackingKinds(r, b, t[y := node]);
    SoundWith(r, s, t[y := node], queue);
  }

  lemma SoundIsClosed(r: Roots, s: State)
    requires Sound(r, s)
    ensures Closed(s.tree)
  {
  }

  /** Other nodes stay covered when one changes. */
  lemma OthersStayCovered(r: Roots, b: Tree, s: State, p: Path, n: Name, node: Node, kind: Kind, q: Path)
    requires Inv(r, b, s) && CanChange(r, s, p, n, node, kind) && q != p + [n]
    requires InSource(r, Changed(r, s, p, n, node, kind).tree, q)
    ensures var s' := Changed(r, s, p, n, node, kind);
            if s'.tree[r.src + q].Dir? then DirCovered(r, s', q) else FileCovered(r, b, s', q)
  {
    var s' := Changed(r, s, p, n, node, kind);
    NotifiedHolds(s, r.src + p, kind, n);
    MoreEventsCover(r, s, s', q);
    SrcDistinct(r, q, p + [n]);
    assert InSource(r, s.tree, q);
    BackupPath(r, q);
    hide Queued, Awaited, Notified, Sound, GoodQueue, WatchedDirs, Backing;
  }

  lemma ChangeKeepsCovered(r: Roots, b: Tree, s: State, p: Path, n: Name, node: Node, kind: Kind)
    requires Inv(r, b, s) && CanChange(r, s, p, n, node, kind)
    ensures Covered(r, b, Changed(r, s, p, n, node, kind))
  {
    var s' := Changed(r, s, p, n, node, kind);
    forall q | InSource(r, s'.tree, q)
      ensures if s'.tree[r.src + q].Dir? then DirCovered(r, s', q) else FileCovered(r, b, s', q)
    {
      if q == p + [n] {
        ChangedIsCovered(r, b, s, p, n, node, kind);
      } else {
        OthersStayCovered(r, b, s, p, n, node, kind, q);
      }
    }
  }

  /** The changed node itself is covered: by its event, or by the one that announces an ancestor. */
  lemma ChangedIsCovered(r: Roots, b: Tree, s: State, p: Path, n: Name, node: Node, kind: Kind)
    requires Inv(r, b, s) && CanChange(r, s, p, n, node, kind)
    ensures var s' := Changed(r, s, p, n, node, kind);
            if node.Dir? then DirCovered(r, s', p + [n]) else FileCovered(r, b, s', p + [n])
  {
    var s' := Changed(r, s, p, n, node, kind);
    NotifiedHolds(s, r.src + p, kind, n);
    if kind == Modify {
      ParentIsDir(r, s.tree, p, n);
    }
    ParentCovered(r, b, s, p, n);
    MoreEventsCover(r, s, s', p);
    if r.src + p in s.watch {
      ChangeIsQueued(r, s, s', p, kind, n);
      assert node.Dir? ==> Pending(r, s', p + [n], p + [n]);
    } else {
      AwaitedBelow(r, s', p, p + [n]);
    }
  }

  lemma ParentCovered(r: Roots, b: Tree, s: State, p: Path, n: Name)
    requires Inv(r, b, s) && IsDir(s.tree, r.src + p) && !Excluded(r, p + [n])
    ensures DirCovered(r, s, p)
  {
    hide Sound, Rooted, Backing, WatchedDirs, GoodQueue, DirCovered, FileCovered;
    assert r.back <= r.src + p ==> r.back <= r.src + p + [n];
    assert r.src + p + [n] == r.src + (p + [n]);
    assert InSource(r, s.tree, p);
  }

  lemma ParentIsDir(r: Roots, t: Tree, p: Path, n: Name)
    requires Closed(t) && r.src + (p + [n]) in t
    ensures IsDir(t, r.src + p)
  {
    assert Parent(r.src + (p + [n])) == r.src + p;
  }

  lemma SrcDistinct(r: Roots, q: Path, z: Path)
    requires q != z
    ensures r.src + q != r.src + z
  {
    assert (r.src + q)[|r.src|..] == q && (r.src + z)[|r.src|..] == z;
  }

  lemma AwaitedBelow(r: Roots, s: State, p: Path, q: Path)
    requires Awaited(r, s, p) && p <= q
    ensures Awaited(r, s, q)
  {
    var a :| Pending(r, s, a, p);
    assert Pending(r, s, a, q);
  }

  lemma ChangeKeepsInv(r: Roots, b: Tree, s: State, p: Path, n: Name, node: Node, kind: Kind)
    requires Inv(r, b, s) && CanChange(r, s, p, n, node, kind)
    ensures Inv(r, b, Changed(r, s, p, n, node, kind))
  {
    hide Backing, Covered, GoodQueue, WatchedDirs, KeepsKinds, Tables, Rooted, CanChange, Closed, SameKinds, Fresh;
    var s' := Changed(r, s, p, n, node, kind);
    ChangeKeepsTree(r, b, s, p, n, node, kind);
    ChangeKeepsCovered(r, b, s, p, n, node, kind);
    KindsKept(r, s, s'.tree, s'.queue);
    ChangeKeepsEvents(r, s, p, n, node, kind);
  }

  // ---------------------------------------------------------------- handling

  function Popped(s: State): State
    requires s.queue != []
  {
    s.(queue := s.queue[1..])
  }

  /** The queue was popped of an event naming src + q0; new watches lie at or below it. */
  ghost predicate PopStep(r: Roots, s: State, s': State, q0: Path) {
    && s.queue != [] && Names(s, s.queue[0], r.src + q0) && s'.queue == s.queue[1..]
    && (forall wd :: wd in s.wds ==> wd in s'.wds && s'.wds[wd] == s.wds[wd])
    && (forall x :: x in s.watch ==> x in s'.watch)
    && (forall x :: x in s'.watch ==> x in s.watch || r.src + q0 <= x)
  }

  lemma OtherEventsRemain(r: Roots, s: State, s': State, q0: Path, y: Path)
    requires PopStep(r, s, s', q0) && y != r.src + q0
    ensures Queued(s, y) ==> Queued(s', y)
    ensures QueuedNew(s, y) ==> QueuedNew(s', y)
  {
    if Queued(s, y) {
      var k :| 0 <= k < |s.queue| && Names(s, s.queue[k], y);
      assert k != 0 && s'.queue[k - 1] == s.queue[k];
      assert Names(s', s'.queue[k - 1], y);
    }
    if QueuedNew(s, y) {
      var k :| 0 <= k < |s.queue| && s.queue[k].kind != Modify && Names(s, s.queue[k], y);
      assert k != 0 && s'.queue[k - 1] == s.queue[k];
      assert Names(s', s'.queue[k - 1], y);
    }
  }

  /** What does not lie at or below the event's path is covered as before. */
  lemma PopCovers(r: Roots, s: State, s': State, q0: Path, q: Path)
    requires PopStep(r, s, s', q0) && !(q0 <= q)
    ensures Queued(s, r.src + q) ==> Queued(s', r.src + q)
    ensures Awaited(r, s, q) ==> Awaited(r, s', q)
    ensures DirCovered(r, s, q) ==> DirCovered(r, s', q)
  {
    SrcDistinct(r, q, q0);
    OtherEventsRemain(r, s, s', q0, r.src + q);
    if Awaited(r, s, q) {
      var a :| Pending(r, s, a, q);
      SrcDistinct(r, a, q0);
      OtherEventsRemain(r, s, s', q0, r.src + a);
      if r.src + q0 <= r.src + a {
        SrcPrefix(r, q0, a);
      }
      assert Pending(r, s', a, q);
    }
  }

  lemma SrcPrefix(r: Roots, a: Path, q: Path)
    requires r.src + a <= r.src + q
    ensures a <= q
  {
    assert a == (r.src + a)[|r.src|..] && q == (r.src + q)[|r.src|..];
    assert (r.src + a)[|r.src|..] == (r.src + q)[|r.src|..|r.src| + |a|];
  }

  /** Coverage after the event for `q0` was handled by bringing everything at or below it up to date. */
  lemma HandledCovers(r: Roots, b: Tree, s: State, s': State, q0: Path)
    requires Covered(r, b, s) && PopStep(r, s, s', q0)
    requires forall q :: InSource(r, s'.tree, q) && !(q0 <= q) ==>
               && Get(s'.tree, r.src + q) == Get(s.tree, r.src + q)
               && Get(s'.tree, r.back + q) == Get(s.tree, r.back + q)
    requires forall q :: InSource(r, s'.tree, q) && q0 <= q ==>
               if s'.tree[r.src + q].Dir? then r.src + q in s'.watch
               else Get(s'.tree, r.back + q) == Some(Image(r, b, s'.tree, q))
    ensures Covered(r, b, s')
  {
    forall q | InSource(r, s'.tree, q)
      ensures if s'.tree[r.src + q].Dir? then DirCovered(r, s', q) else FileCovered(r, b, s', q)
    {
      if !(q0 <= q) {
        assert InSource(r, s.tree, q);
        PopCovers(r, s, s', q0, q);
      }
      hide Awaited, Queued, PopStep;
    }
  }

  /** Copying a file gives it its image. */
  lemma CopyIsExact(r: Roots, b: Tree, t: Tree, p: Path, n: Name)
    requires Closed(t) && Backing(r, b, t) && IsDir(t, r.back + p)
    requires InSource(r, t, p + [n]) && IsFile(t, r.src + (p + [n]))
    ensures var q0 := p + [n];
            WriteOver(t, r.back + q0, Readable(t, r.src + q0)) == t[r.back + q0 := Image(r, b, t, q0)]
    ensures var t' := t[r.back + (p + [n]) := Image(r, b, t, p + [n])];
            Closed(t') && KeepsKinds(t, t')
  {
    hide Closed;
    var q0 := p + [n];
    var x := r.back + q0;
    assert Parent(x) == r.back + p;
    WriteOverKeepsClosed(t, x, Readable(t, r.src + q0));
    OverIsImage(r, b, t, q0);
  }

  lemma OverIsImage(r: Roots, b: Tree, t: Tree, q: Path)
    requires Backing(r, b, t) && InSource(r, t, q) && IsFile(t, r.src + q)
    requires r.back + q in t || CanCreate(t, r.back + q)
    ensures !IsDir(t, r.back + q)
    ensures WriteOver(t, r.back + q, Readable(t, r.src + q)) == t[r.back + q := Image(r, b, t, q)]
  {
    assert r.back + q !in t ==> Readable(b, r.back + q) == [];
    assert r.back + q in t ==> Backs(t[r.back + q], t[r.src + q], Readable(b, r.back + q));
    hide Backing, Closed;
  }

  lemma CopyKeepsBacking(r: Roots, b: Tree, t: Tree, q0: Path)
    requires Backing(r, b, t) && InSource(r, t, q0) && IsFile(t, r.src + q0)
    ensures Backing(r, b, t[r.back + q0 := Image(r, b, t, q0)])
  {
    var t' := t[r.back + q0 := Image(r, b, t, q0)];
    BackupPath(r, q0);
    OverlayTwice(t[r.src + q0].bytes, Readable(b, r.back + q0));
    forall q
      ensures if InSource(r, t', q) && r.back + q in t'
              then Backs(t'[r.back + q], t'[r.src + q], Readable(b, r.back + q))
              else Get(t', r.back + q) == Get(b, r.back + q)
    {
      BackupPath(r, q);
    }
  }

  lemma PoppedGood(r: Roots, s: State)
    requires s.queue != [] && GoodQueue(r, s)
    ensures GoodQueue(r, Popped(s))
  {
    forall k | 0 <= k < |s.queue| - 1
      ensures GoodEvent(r, Popped(s), s.queue[1..][k])
    {
      assert GoodEvent(r, s, s.queue[k + 1]);
    }
  }

  lemma CopyCovers(r: Roots, b: Tree, s: State, s': State, p: Path, n: Name)
    requires Sound(r, s) && Covered(r, b, s) && InSource(r, s.tree, p + [n]) && IsFile(s.tree, r.src + (p + [n]))
    requires PopStep(r, s, s', p + [n]) && s'.tree == s.tree[r.back + (p + [n]) := Image(r, b, s.tree, p + [n])]
    ensures Covered(r, b, s')
  {
    var q0 := p + [n];
    BackupPath(r, q0);
    forall q
      ensures !(q0 <= q) ==> Get(s'.tree, r.back + q) == Get(s.tree, r.back + q)
      ensures !Excluded(r, q) ==> Get(s'.tree, r.src + q) == Get(s.tree, r.src + q)
      ensures q0 <= q && InSource(r, s'.tree, q) ==> q == q0
    {
      BackupPath(r, q);
      if q0 <= q && q != q0 && InSource(r, s.tree, q) {
        assert r.src + q0 <= r.src + q;
        SrcDistinct(r, q, q0);
        AncestorIsDir(s.tree, r.src + q0, r.src + q);
      }
    }
    HandledCovers(r, b, s, s', q0);
  }

  /** Handling an event by copying the file it names. */
  lemma CopyKeepsInv(r: Roots, b: Tree, s: State, p: Path, n: Name)
    requires Inv(r, b, s) && s.queue != [] && Names(s, s.queue[0], r.src + (p + [n]))
    requires r.src + p in s.watch && !Excluded(r, p + [n]) && IsFile(s.tree, r.src + (p + [n]))
    ensures var q0 := p + [n];
            Inv(r, b, Popped(s).(tree := WriteOver(s.tree, r.back + q0, Readable(s.tree, r.src + q0))))
  {
    hide Closed, SameKinds, Tables, Fresh, Backing, Covered, GoodQueue, WatchedDirs, KeepsKinds, Rooted, WriteOver;
    hide Image;
    var q0 := p + [n];
    WatchedBackup(r, s, p);
    CopyIsExact(r, b, s.tree, p, n);
    CopyKeepsBacking(r, b, s.tree, q0);
    var t := s.tree[r.back + q0 := Image(r, b, s.tree, q0)];
    var s' := Popped(s).(tree := t);
    BackingKinds(r, b, t);
    PoppedGood(r, s);
    KindsKept(r, Popped(s), t, s'.queue);
    SoundWith(r, s, t, s'.queue);
    WatchedWhateverQueue(r, s);
    CopyCovers(r, b, s, s', p, n);
  }

  lemma WatchedBackup(r: Roots, s: State, p: Path)
    requires WatchedDirs(r, s) && r.src + p in s.watch
    ensures IsDir(s.tree, r.back + p)
  {
    assert (r.src + p)[|r.src|..] == p;
  }

  // ------------------------------------------------------------------ scanning

  lemma ScanKeepsBacking(r: Roots, b: Tree, t: Tree, p: Path, t': Tree)
    requires Backing(r, b, t) && Mirrored(r, t, p, Everything(), t')
    ensures Backing(r, b, t')
  {
    forall q
      ensures if InSource(r, t', q) && r.back + q in t'
              then Backs(t'[r.back + q], t'[r.src + q], Readable(b, r.back + q))
              else Get(t', r.back + q) == Get(b, r.back + q)
    {
      MirroredAt(r, t, p, Everything(), t', q);
      SourceUnchanged(r, t, p, Everything(), t', q);
      if InScope(p, Everything(), q) && InSource(r, t, q) {
        ScanIsExact(r, b, t, p, t', q);
        if t[r.src + q].File? {
          OverlayTwice(t[r.src + q].bytes, Readable(b, r.back + q));
        }
      }
      hide Mirrored;
    }
  }

  /** Everything at or below `p` has its image after a scan of `p`. */
  lemma ScanIsExact(r: Roots, b: Tree, t: Tree, p: Path, t': Tree, q: Path)
    requires Backing(r, b, t) && Mirrored(r, t, p, Everything(), t') && p <= q && InSource(r, t', q)
    ensures Get(t', r.back + q) == Some(Image(r, b, t', q))
  {
    MirroredAt(r, t, p, Everything(), t', q);
    SourceUnchanged(r, t, p, Everything(), t', q);
    assert r.back + q !in t ==> Readable(b, r.back + q) == [];
  }

  lemma ScanKeepsKinds(r: Roots, t: Tree, p: Path, t': Tree)
    requires SameKinds(r, t) && Mirrored(r, t, p, Everything(), t')
    ensures KeepsKinds(t, t')
  {
    forall x
      ensures (IsDir(t, x) ==> IsDir(t', x)) && (IsFile(t, x) ==> IsFile(t', x))
    {
      assert Get(t', x) == After(r, t, p, Everything(), x);
      if r.back <= x {
        assert r.back + x[|r.back|..] == x;
      }
    }
  }

  lemma NewWatch(r: Roots, b: Tree, t: Tree, p: Path, t': Tree, x: Path)
    requires Backing(r, b, t) && Mirrored(r, t, p, Everything(), t') && ScannedDir(r, t, p, Everything(), x)
    ensures IsDir(t', x) && IsDir(t', r.back + x[|r.src|..])
  {
    var q := x[|r.src|..];
    assert r.src + q == x;
    SourceUnchanged(r, t, p, Everything(), t', q);
    ScanIsExact(r, b, t, p, t', q);
    hide Backing, Mirrored;
  }

  lemma ScanKeepsWatched(r: Roots, b: Tree, s: State, p: Path, s': State)
    requires WatchedDirs(r, s) && Backing(r, b, s.tree) && KeepsKinds(s.tree, s'.tree)
    requires Scanned(r, s, p, Everything(), s')
    ensures WatchedDirs(r, s')
  {
    forall x | x in s'.watch
      ensures r.src <= x && !(r.back <= x) && IsDir(s'.tree, x) && IsDir(s'.tree, r.back + x[|r.src|..])
    {
      if x !in s.watch {
        assert ScannedDir(r, s.tree, p, Everything(), x);
        NewWatch(r, b, s.tree, p, s'.tree, x);
      }
      hide Scanned, Backing, KeepsKinds, ScannedDir;
    }
  }

  lemma ScanKeepsQueue(r: Roots, s: State, p: Path, s': State)
    requires GoodQueue(r, s) && KeepsKinds(s.tree, s'.tree) && Scanned(r, s, p, Everything(), s')
    ensures GoodQueue(r, s')
  {
    forall k | 0 <= k < |s'.queue|
      ensures GoodEvent(r, s', s'.queue[k])
    {
      assert GoodEvent(r, s, s.queue[k]);
      KindOf(s.tree, s.wds[s.queue[k].wd] + [s.queue[k].name]);
      KindOf(s'.tree, s.wds[s.queue[k].wd] + [s.queue[k].name]);
    }
  }

  lemma ScanWatches(r: Roots, s: State, p: Path, s': State, x: Path)
    requires Scanned(r, s, p, Everything(), s') && x in s'.watch
    ensures x in s.watch || r.src + p <= x
  {
    if x !in s.watch {
      assert ScannedDir(r, s.tree, p, Everything(), x);
      assert r.src + x[|r.src|..] == x;
    }
  }

  lemma ScannedAt(r: Roots, b: Tree, s: State, p: Path, s': State, q: Path)
    requires Backing(r, b, s.tree) && Scanned(r, s, p, Everything(), s') && InSource(r, s'.tree, q)
    ensures Get(s'.tree, r.src + q) == Get(s.tree, r.src + q)
    ensures !(p <= q) ==> Get(s'.tree, r.back + q) == Get(s.tree, r.back + q)
    ensures p <= q ==> Get(s'.tree, r.back + q) == Some(Image(r, b, s'.tree, q))
    ensures p <= q && s'.tree[r.src + q].Dir? ==> r.src + q in s'.watch
  {
    MirroredAt(r, s.tree, p, Everything(), s'.tree, q);
    SourceUnchanged(r, s.tree, p, Everything(), s'.tree, q);
    if p <= q {
      ScanIsExact(r, b, s.tree, p, s'.tree, q);
      assert (r.src + q)[|r.src|..] == q;
      assert s'.tree[r.src + q].Dir? ==> ScannedDir(r, s.tree, p, Everything(), r.src + q);
    }
    hide Backing, Mirrored, Image;
  }

  lemma ScanCovers(r: Roots, b: Tree, s: State, p: Path, s': State)
    requires s.queue != [] && Names(s, s.queue[0], r.src + p)
    requires Backing(r, b, s.tree) && Covered(r, b, s) && Scanned(r, Popped(s), p, Everything(), s')
    ensures Covered(r, b, s')
  {
    hide Backing, Covered, Mirrored, ScannedDir, Image;
    forall x | x in s'.watch
      ensures x in s.watch || r.src + p <= x
    {
      ScanWatches(r, Popped(s), p, s', x);
    }
    forall q | InSource(r, s'.tree, q)
      ensures Get(s'.tree, r.src + q) == Get(s.tree, r.src + q)
      ensures !(p <= q) ==> Get(s'.tree, r.back + q) == Get(s.tree, r.back + q)
      ensures p <= q && s'.tree[r.src + q].Dir? ==> r.src + q in s'.watch
      ensures p <= q ==> Get(s'.tree, r.back + q) == Some(Image(r, b, s'.tree, q))
    {
      ScannedAt(r, b, Popped(s), p, s', q);
    }
    HandledCovers(r, b, s, s', p);
  }

  /** Handling an event by scanning the directory it names. */
  lemma ScanKeepsInv(r: Roots, b: Tree, s: State, p: Path, s': State)
    requires Inv(r, b, s) && s.queue != [] && Names(s, s.queue[0], r.src + p)
    requires Sound(r, s') && Scanned(r, Popped(s), p, Everything(), s')
    ensures Inv(r, b, s')
  {
    hide Tables, Fresh, Closed, GoodQueue, WatchedDirs, Covered, Mirrored;
    PoppedGood(r, s);
    ScanKeepsBacking(r, b, s.tree, p, s'.tree);
    ScanKeepsKinds(r, s.tree, p, s'.tree);
    KindsKept(r, s, s'.tree, s.queue);
    WatchedWhateverQueue(r, s);
    ScanKeepsWatched(r, b, Popped(s), p, s');
    ScanKeepsQueue(r, Popped(s), p, s');
    ScanCovers(r, b, s, p, s');
  }

  lemma WatchedWhateverQueue(r: Roots, s: State)
    requires WatchedDirs(r, s) && s.queue != []
    ensures WatchedDirs(r, Popped(s))
  {
  }

  /** Before the daemon runs: nothing watched, and any backup whose nodes are of their originals' kinds. */
  ghost predicate Initial(r: Roots, s: State) {
    && Sound(r, s) && IsDir(s.tree, r.src) && !(r.back <= r.src)
    && s.watch == map[] && s.wds == map[] && s.queue == []
  }

  /** At the beginning each backup file is its own old bytes. */
  lemma AnythingBacks(r: Roots, b: Tree)
    requires SameKinds(r, b)
    ensures Backing(r, b, b)
  {
  }

  /** The first scan establishes the invariant. */
  lemma FirstScan(r: Roots, s: State, s': State)
    requires Initial(r, s) && Scanned(r, s, [], Everything(), s') && Sound(r, s')
    ensures Inv(r, s.tree, s')
  {
    var b := s.tree;
    AnythingBacks(r, b);
    ScanKeepsBacking(r, b, s.tree, [], s'.tree);
    ScanKeepsKinds(r, s.tree, [], s'.tree);
    ScanKeepsWatched(r, b, s, [], s');
    SourceUnchanged(r, s.tree, [], Everything(), s'.tree, []);
    assert r.src + [] == r.src && r.back + [] == r.back;
    ScanIsExact(r, b, s.tree, [], s'.tree, []);
    forall q | InSource(r, s'.tree, q)
      ensures if s'.tree[r.src + q].Dir? then DirCovered(r, s', q) else FileCovered(r, b, s', q)
    {
      SourceUnchanged(r, s.tree, [], Everything(), s'.tree, q);
      ScanIsExact(r, b, s.tree, [], s'.tree, q);
      assert (r.src + q)[|r.src|..] == q;
      assert s'.tree[r.src + q].Dir? ==> ScannedDir(r, s.tree, [], Everything(), r.src + q);
    }
  }

  /** An event that names the backup directory is passed over. */
  lemma SkipKeepsInv(r: Roots, b: Tree, s: State)
    requires Inv(r, b, s) && s.queue != [] && Names(s, s.queue[0], r.back)
    ensures Inv(r, b, Popped(s))
  {
    var s' := Popped(s);
    PoppedGood(r, s);
    SoundWith(r, s, s.tree, s'.queue);
    WatchedWhateverQueue(r, s);
    forall q | InSource(r, s.tree, q)
      ensures if s'.tree[r.src + q].Dir? then DirCovered(r, s', q) else FileCovered(r, b, s', q)
    {
      SkipCovers(r, s, q);
    }
  }

  lemma SkipCovers(r: Roots, s: State, q: Path)
    requires s.queue != [] && Names(s, s.queue[0], r.back) && !Excluded(r, q)
    ensures Queued(s, r.src + q) ==> Queued(Popped(s), r.src + q)
    ensures Awaited(r, s, q) ==> Awaited(r, Popped(s), q)
  {
    var s' := Popped(s);
    if Queued(s, r.src + q) {
      var k :| 0 <= k < |s.queue| && Names(s, s.queue[k], r.src + q);
      assert k != 0 && s'.queue[k - 1] == s.queue[k];
      assert Names(s', s'.queue[k - 1], r.src + q);
    }
    if Awaited(r, s, q) {
      var a :| Pending(r, s, a, q);
      var k :| 0 <= k < |s.queue| && s.queue[k].kind != Modify && Names(s, s.queue[k], r.src + a);
      assert r.src + a <= r.src + q;
      assert k != 0 && s'.queue[k - 1] == s.queue[k];
      assert Names(s', s'.queue[k - 1], r.src + a);
      assert Pending(r, s', a, q);
    }
  }

  // ------------------------------------------------------------- the machine

  /** One event is handled, as the body of the loop of `monitor_events` does. */
  ghost predicate Handles(r: Roots, s: State, s': State) {
    && s.queue != []
    && var e := s.queue[0];
       && e.wd in s.wds && e.wd in s.backs && r.src <= s.wds[e.wd]
       && var y := s.wds[e.wd] + [e.name];
          if y == r.back then s' == Popped(s)
          else if e.kind == Modify || !IsDir(s.tree, y) then
            s' == Popped(s).(tree := WriteOver(s.tree, s.backs[e.wd] + [e.name], Readable(s.tree, y)))
          else Sound(r, s') && Scanned(r, Popped(s), y[|r.src|..], Everything(), s')
  }

  /** The source directory an event comes from. */
  lemma EventPath(r: Roots, b: Tree, s: State) returns (p: Path)
    requires Inv(r, b, s) && s.queue != []
    ensures var e := s.queue[0];
            && e.wd in s.wds && e.wd in s.backs
            && s.wds[e.wd] == r.src + p && s.backs[e.wd] == r.back + p && r.src + p in s.watch
            && s.wds[e.wd] + [e.name] == r.src + (p + [e.name]) && s.backs[e.wd] + [e.name] == r.back + (p + [e.name])
            && (r.src + (p + [e.name]))[|r.src|..] == p + [e.name]
            && Names(s, e, r.src + (p + [e.name]))
            && (Excluded(r, p + [e.name]) ==> r.src + (p + [e.name]) == r.back)
            && r.src + (p + [e.name]) in s.tree
            && (e.kind == Modify && r.src + (p + [e.name]) != r.back ==> IsFile(s.tree, r.src + (p + [e.name])))
  {
    hide Closed, SameKinds, Rooted, Backing, WatchedDirs, Covered;
    var e := s.queue[0];
    assert GoodEvent(r, s, e);
    p := s.wds[e.wd][|r.src|..];
    assert s.wds[e.wd] == r.src + p;
    assert r.src + p + [e.name] == r.src + (p + [e.name]) && r.back + p + [e.name] == r.back + (p + [e.name]);
  }

  lemma HandlesKeepsInv(r: Roots, b: Tree, s: State, s': State)
    requires Inv(r, b, s) && Handles(r, s, s')
    ensures Inv(r, b, s') && |s'.queue| == |s.queue| - 1
  {
    var p := EventPath(r, b, s);
    var e := s.queue[0];
    var q0 := p + [e.name];
    KindOf(s.tree, r.src + q0);
    hide Inv, Sound, GoodEvent, WriteOver;
    if r.src + q0 == r.back {
      SkipKeepsInv(r, b, s);
    } else if e.kind == Modify || !IsDir(s.tree, r.src + q0) {
      CopyKeepsInv(r, b, s, p, e.name);
    } else {
      ScanKeepsInv(r, b, s, q0, s');
    }
  }

  /** Nothing outside the backup changes when an event is handled. */
  lemma HandlesOnlyBackup(r: Roots, b: Tree, s: State, s': State, x: Path)
    requires Inv(r, b, s) && Handles(r, s, s') && !(r.back <= x)
    ensures Get(s'.tree, x) == Get(s.tree, x)
  {
    hide Inv, Sound, GoodEvent, Scanned, WriteOver, Get;
    var p := EventPath(r, b, s);
    var q0 := p + [s.queue[0].name];
    BackupPath(r, q0);
    WriteOverElsewhere(s.tree, r.back + q0, Readable(s.tree, r.src + q0), x);
    if Scanned(r, Popped(s), q0, Everything(), s') {
      ScanOnlyBackup(r, Popped(s), q0, s', x);
    }
  }

  lemma WriteOverElsewhere(t: Tree, y: Path, data: seq<Byte>, x: Path)
    requires x != y
    ensures Get(WriteOver(t, y, data), x) == Get(t, x)
  {
  }

  lemma ScanOnlyBackup(r: Roots, s: State, p: Path, s': State, x: Path)
    requires Scanned(r, s, p, Everything(), s') && !(r.back <= x)
    ensures Get(s'.tree, x) == Get(s.tree, x)
  {
    OutsideUnchanged(r, s.tree, p, Everything(), s'.tree, x);
  }

  ghost predicate Next(r: Roots, s: State, s': State) {
    || Handles(r, s, s')
    || exists p, n, node, kind :: CanChange(r, s, p, n, node, kind) && s' == Changed(r, s, p, n, node, kind)
  }

  /** The first scan, then any mix of source changes and handled events. */
  ghost predicate IsRun(r: Roots, run: seq<State>) {
    && |run| >= 2 && Initial(r, run[0])
    && Scanned(r, run[0], [], Everything(), run[1]) && Sound(r, run[1])
    && forall k :: 1 <= k < |run| - 1 ==> Next(r, run[k], run[k + 1])
  }

  /** The tree before the daemon started. */
  function Before(run: seq<State>): Tree
    requires run != []
  {
    run[0].tree
  }

  lemma {:induction false} RunInv(r: Roots, run: seq<State>, k: nat)
    requires IsRun(r, run) && 1 <= k < |run|
    ensures Inv(r, Before(run), run[k])
  {
    hide Inv, Initial, Scanned, Handles, Sound, CanChange;
    if k == 1 {
      FirstScan(r, run[0], run[1]);
    } else {
      RunInv(r, run, k - 1);
      assert Next(r, run[k - 1], run[k]);
      NextKeepsInv(r, Before(run), run[k - 1], run[k]);
    }
  }

  lemma NextKeepsInv(r: Roots, b: Tree, s: State, s': State)
    requires Inv(r, b, s) && Next(r, s, s')
    ensures Inv(r, b, s')
  {
    hide Inv, Scanned, Handles, Sound, CanChange;
    if Handles(r, s, s') {
      HandlesKeepsInv(r, b, s, s');
    } else {
      var p, n, node, kind :| CanChange(r, s, p, n, node, kind) && s' == Changed(r, s, p, n, node, kind);
      ChangeKeepsInv(r, b, s, p, n, node, kind);
    }
  }

  /** Source nodes stay, and source files do not shrink. */
  ghost predicate SourceGrows(r: Roots, t: Tree, t': Tree) {
    forall q :: InSource(r, t, q) ==>
      && InSource(r, t', q)
      && (IsFile(t', r.src + q) ==> IsFile(t, r.src + q) && |t[r.src + q].bytes| <= |t'[r.src + q].bytes|)
  }

  lemma NextGrows(r: Roots, b: Tree, s: State, s': State)
    requires Inv(r, b, s) && Next(r, s, s')
    ensures SourceGrows(r, s.tree, s'.tree)
  {
    hide Inv, Scanned, Handles, Sound;
    if Handles(r, s, s') {
      forall q | InSource(r, s.tree, q)
        ensures Get(s'.tree, r.src + q) == Get(s.tree, r.src + q)
      {
        HandlesOnlyBackup(r, b, s, s', r.src + q);
      }
    } else {
      var p, n, node, kind :| CanChange(r, s, p, n, node, kind) && s' == Changed(r, s, p, n, node, kind);
    }
  }

  lemma {:induction false} RunOlder(r: Roots, run: seq<State>, k: nat)
    requires IsRun(r, run) && k < |run| && Older(r, Before(run), Before(run))
    ensures Older(r, Before(run), run[k].tree)
  {
    hide Inv, Initial, Scanned, Next, Sound;
    if k > 0 {
      RunOlder(r, run, k - 1);
      if k == 1 {
        forall q
          ensures InSource(r, run[1].tree, q) == InSource(r, run[0].tree, q)
          ensures InSource(r, run[0].tree, q) ==> run[1].tree[r.src + q] == run[0].tree[r.src + q]
        {
          ScanKeepsSource(r, run[0], run[1], q);
        }
      } else {
        RunInv(r, run, k - 1);
        NextGrows(r, Before(run), run[k - 1], run[k]);
      }
    }
  }

  lemma ScanKeepsSource(r: Roots, s: State, s': State, q: Path)
    requires Scanned(r, s, [], Everything(), s')
    ensures InSource(r, s'.tree, q) == InSource(r, s.tree, q)
    ensures InSource(r, s.tree, q) ==> s'.tree[r.src + q] == s.tree[r.src + q]
  {
    SourceUnchanged(r, s.tree, [], Everything(), s'.tree, q);
  }

  /**
   In every reachable state each source file has its image in the backup, or a
   queued event names it, or one names an unwatched directory above it. Whenever
   the queue is empty every source node has its image and the rest of the backup
   is as it was; so the backup equals the source if and only if it held nothing
   else, which it does for good if it held only older copies at the beginning.
   */
  lemma Converges(r: Roots, run: seq<State>, k: nat, q: Path)
    requires IsRun(r, run) && 1 <= k < |run|
    ensures InSource(r, run[k].tree, q) && IsFile(run[k].tree, r.src + q) ==> FileCovered(r, Before(run), run[k], q)
    ensures run[k].queue == [] ==>
              && UpToDate(r, Before(run), run[k].tree)
              && (InStep(r, run[k].tree) <==> Older(r, Before(run), run[k].tree))
    ensures run[k].queue == [] && Older(r, Before(run), Before(run)) ==> InStep(r, run[k].tree)
    ensures var t, b, x := run[k].tree, run[0].tree, r.back + q;
      run[k].queue == [] && r.src + q in t && t[r.src + q].File? && !(r.back <= r.src + q) ==>
        && x in t && t[x].File? && t[r.src + q].bytes <= t[x].bytes
        && (|t[r.src + q].bytes| < |t[x].bytes| ==>
              && x in b && b[x].File? && |b[x].bytes| == |t[x].bytes|
              && forall j | |t[r.src + q].bytes| <= j < |t[x].bytes| :: t[x].bytes[j] == b[x].bytes[j])
        && (x in b && b[x].File? ==> |b[x].bytes| <= |t[x].bytes|)
    ensures Tables(r, run[k]) && WatchedDirs(r, run[k])
  {
    RunInv(r, run, k);
    if run[k].queue == [] {
      EmptyQueueUpToDate(r, Before(run), run[k]);
      InStepExactly(r, Before(run), run[k].tree);
      var t := run[k].tree;
      if r.src + q in t && t[r.src + q].File? && !(r.back <= r.src + q) {
        BytesUpToDate(r, Before(run), t, q);
      }
      if Older(r, Before(run), Before(run)) {
        RunOlder(r, run, k);
      }
    }
    hide Older, InStep, UpToDate, Backing, IsRun;
  }
}
