/**
 The daemon's state around the mirrored tree: the kernel's watches and event
 queue, and the two tables that take a watch descriptor back to the watched
 directory and to its backup.
 */
module Watches {
  import opened FileTree
  import opened Mirror

  datatype Kind = Create | Modify | MovedTo

  datatype Event = Event(wd: nat, kind: Kind, name: Name)

  /**
   `watch` is the kernel's: at most one descriptor per directory. `wds` and
   `backs` are the program's tables, indexed by descriptor.
   */
  datatype State = State(tree: Tree, watch: map<Path, nat>, next: nat,
                         wds: map<nat, Path>, backs: map<nat, Path>, queue: seq<Event>)

  /**
   The queue after something happened to `name` in `dir`: an event if the
   directory is watched, merged with an identical event at the end.
   */
  function Notified(s: State, dir: Path, kind: Kind, name: Name): seq<Event> {
    if dir !in s.watch then s.queue
    else
      var e := Event(s.watch[dir], kind, name);
      if s.queue != [] && s.queue[|s.queue| - 1] == e then s.queue else s.queue + [e]
  }

  /** `wds` and `backs` hold, for each watched directory src + q, that path and back + q. */
  ghost predicate Tables(r: Roots, s: State) {
    forall x :: x in s.watch ==>
      && r.src <= x && s.watch[x] < s.next
      && s.watch[x] in s.wds && s.wds[s.watch[x]] == x
      && s.watch[x] in s.backs && s.backs[s.watch[x]] == r.back + x[|r.src|..]
  }

  /** Only directories of the source proper are watched, and each has its backup directory. */
  ghost predicate WatchedDirs(r: Roots, s: State) {
    forall x :: x in s.watch ==>
      r.src <= x && !(r.back <= x) && IsDir(s.tree, x) && IsDir(s.tree, r.back + x[|r.src|..])
  }

  /** The directory src + q is in the scope of a scan of `p`. */
  ghost predicate ScannedDir(r: Roots, t: Tree, p: Path, names: iset<Name>, x: Path) {
    && r.src <= x && InScope(p, names, x[|r.src|..])
    && !(r.back <= x) && IsDir(t, x)
  }

  /** No table entry lies at or above the descriptors still to be given out. */
  ghost predicate Fresh(s: State) {
    forall wd :: wd in s.wds ==> wd < s.next
  }

  /** What a scan relies on, and keeps. */
  ghost predicate Sound(r: Roots, s: State) {
    && Closed(s.tree) && SameKinds(r, s.tree) && Tables(r, s) && Fresh(s)
    && forall x :: x in s.watch ==> !(r.back <= x)
  }

  /** What a scan of the given scope leads to. */
  ghost predicate Scanned(r: Roots, s: State, p: Path, names: iset<Name>, s': State) {
    && Mirrored(r, s.tree, p, names, s'.tree)
    && (forall x :: x in s'.watch <==> x in s.watch || ScannedDir(r, s.tree, p, names, x))
    && (forall x :: x in s.watch ==> s'.watch[x] == s.watch[x])
    && (forall wd :: wd in s.wds ==> wd in s'.wds && s'.wds[wd] == s.wds[wd])
    && s'.queue == s.queue
  }

  /** inotify_add_watch on a directory, and the entries the program makes for it. */
  function AddWatch(s: State, path1: Path, path2: Path): State {
    var wd := if path1 in s.watch then s.watch[path1] else s.next;
    s.(watch := s.watch[path1 := wd], next := if path1 in s.watch then s.next else s.next + 1,
       wds := s.wds[wd := path1], backs := s.backs[wd := path2])
  }

  lemma AddWatchKeepsTables(r: Roots, s: State, q: Path)
    requires Tables(r, s) && Fresh(s)
    ensures Tables(r, AddWatch(s, r.src + q, r.back + q)) && Fresh(AddWatch(s, r.src + q, r.back + q))
  {
    assert (r.src + q)[|r.src|..] == q;
  }

  /** A scan begins with the directory itself: mkdir of its backup, then its watch. */
  lemma ScanBegins(r: Roots, s: State, p: Path)
    requires Tables(r, s) && Fresh(s) && SameKinds(r, s.tree)
    requires IsDir(s.tree, r.src + p) && !Excluded(r, p)
    requires r.back + p in s.tree || CanCreate(s.tree, r.back + p)
    ensures Scanned(r, s, p, iset{}, AddWatch(s.(tree := Mkdir(s.tree, r.back + p)), r.src + p, r.back + p))
  {
    var s1 := AddWatch(s.(tree := Mkdir(s.tree, r.back + p)), r.src + p, r.back + p);
    BackupPath(r, p);
    assert InSource(r, s.tree, p);
    forall x
      ensures Get(s1.tree, x) == After(r, s.tree, p, iset{}, x)
    {
      if r.back <= x {
        assert r.back + x[|r.back|..] == x;
      }
    }
    assert (r.src + p)[|r.src|..] == p;
    forall x
      ensures x in s1.watch <==> x in s.watch || ScannedDir(r, s.tree, p, iset{}, x)
    {
      if r.src <= x {
        assert r.src + x[|r.src|..] == x;
      }
    }
  }

  lemma ScannedDirKept(r: Roots, s: State, p: Path, names: iset<Name>, s1: State, q: Path, scope: iset<Name>, x: Path)
    requires Scanned(r, s, p, names, s1)
    ensures ScannedDir(r, s1.tree, q, scope, x) == ScannedDir(r, s.tree, q, scope, x)
  {
    if !(r.back <= x) {
      OutsideUnchanged(r, s.tree, p, names, s1.tree, x);
    }
  }

  /** The scan of the subdirectory `n` was one step of the scan of `p`. */
  lemma DirScanned(r: Roots, s: State, p: Path, names: iset<Name>, s1: State, n: Name, s2: State)
    requires Scanned(r, s, p, names, s1) && n !in names
    requires Scanned(r, s1, p + [n], Everything(), s2)
    ensures Scanned(r, s, p, names + iset{n}, s2)
  {
    ScopeGrowsByDir(r, s.tree, p, names, s1.tree, n, s2.tree);
    forall x
      ensures x in s2.watch <==> x in s.watch || ScannedDir(r, s.tree, p, names + iset{n}, x)
    {
      ScannedDirKept(r, s, p, names, s1, p + [n], Everything(), x);
      if r.src <= x {
        ScopeSplits(p, names, n, x[|r.src|..]);
      }
      hide Mirrored, InScope;
    }
  }

  /** The copy of the regular file `n` was one step of the scan of `p`. */
  lemma FileScanned(r: Roots, s: State, p: Path, names: iset<Name>, s1: State, n: Name)
    requires Closed(s.tree) && Scanned(r, s, p, names, s1) && n !in names
    requires InSource(r, s.tree, p + [n]) && IsFile(s.tree, r.src + (p + [n]))
    requires IsFile(s1.tree, r.back + (p + [n])) || CanCreate(s1.tree, r.back + (p + [n]))
    ensures Scanned(r, s, p, names + iset{n},
                    s1.(tree := WriteOver(s1.tree, r.back + (p + [n]), Readable(s1.tree, r.src + (p + [n])))))
  {
    ScopeGrowsByFile(r, s.tree, p, names, s1.tree, n);
    forall x
      ensures ScannedDir(r, s.tree, p, names + iset{n}, x) == ScannedDir(r, s.tree, p, names, x)
    {
      FileHidesNothing(r, s.tree, p, names, n, x);
    }
    hide Mirrored, InScope, ScannedDir;
  }

  lemma FileHidesNothing(r: Roots, t: Tree, p: Path, names: iset<Name>, n: Name, x: Path)
    requires Closed(t) && n !in names && IsFile(t, r.src + (p + [n]))
    ensures ScannedDir(r, t, p, names + iset{n}, x) == ScannedDir(r, t, p, names, x)
  {
    if r.src <= x {
      var q := x[|r.src|..];
      assert r.src + q == x;
      ScopeSplits(p, names, n, q);
      if p + [n] <= q && IsDir(t, x) {
        assert r.src + (p + [n]) <= x;
        if q != p + [n] {
          AncestorIsDir(t, r.src + (p + [n]), x);
        }
      }
    }
  }

  /** The entry that is the backup itself is passed over. */
  lemma BackupPassedOver(r: Roots, s: State, p: Path, names: iset<Name>, s1: State, n: Name)
    requires Scanned(r, s, p, names, s1) && n !in names && r.src + (p + [n]) == r.back
    ensures Scanned(r, s, p, names + iset{n}, s1)
  {
    forall x
      ensures IsTarget(r, s.tree, p, names + iset{n}, x) == IsTarget(r, s.tree, p, names, x)
      ensures ScannedDir(r, s.tree, p, names + iset{n}, x) == ScannedDir(r, s.tree, p, names, x)
    {
      if r.back <= x {
        ScopeSplits(p, names, n, x[|r.back|..]);
      }
      if r.src <= x {
        assert r.src + x[|r.src|..] == x;
        ScopeSplits(p, names, n, x[|r.src|..]);
      }
    }
    hide InScope, IsTarget, ScannedDir;
  }

  /** When every entry but the backup has been handled, the whole subtree has. */
  lemma ScanEnds(r: Roots, s: State, p: Path, names: iset<Name>, s1: State)
    requires Closed(s.tree) && Scanned(r, s, p, names, s1)
    requires forall n :: r.src + (p + [n]) in s.tree ==> n in names || r.src + (p + [n]) == r.back
    ensures Scanned(r, s, p, Everything(), s1)
  {
    forall q | InSource(r, s.tree, q)
      ensures InScope(p, Everything(), q) == InScope(p, names, q)
    {
      if p <= q && q != p {
        var child := p + [q[|p|]];
        assert child <= q && r.src + child <= r.src + q;
        if child != q {
          AncestorIsDir(s.tree, r.src + child, r.src + q);
        }
        assert r.src + child in s.tree;
      }
    }
    ScopesAgree(r, s, p, names, s1);
  }

  lemma ScopesAgree(r: Roots, s: State, p: Path, names: iset<Name>, s1: State)
    requires Scanned(r, s, p, names, s1)
    requires forall q :: InSource(r, s.tree, q) ==> InScope(p, Everything(), q) == InScope(p, names, q)
    ensures Scanned(r, s, p, Everything(), s1)
  {
    forall x
      ensures IsTarget(r, s.tree, p, Everything(), x) == IsTarget(r, s.tree, p, names, x)
      ensures ScannedDir(r, s.tree, p, Everything(), x) == ScannedDir(r, s.tree, p, names, x)
    {
      if r.src <= x {
        assert r.src + x[|r.src|..] == x;
        assert IsDir(s.tree, x) && !(r.back <= x) ==> InSource(r, s.tree, x[|r.src|..]);
      }
    }
    hide InScope, IsTarget, ScannedDir;
  }
}
