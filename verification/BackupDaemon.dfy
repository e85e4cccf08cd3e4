/**
 The backup daemon of daemon/main.c: `copy`, `add_inotify`,
 `monitor_directory` and the handling of one event, over an in-memory file
 system. The kernel's part (mkdir, open, readdir, inotify) is played by small
 methods on the same object, which raise events like any other change would.
 */
module BackupDaemon {
  import opened Bytes
  import opened FileTree
  import opened Mirror
  import opened Watches
  import opened Convergence

  /** The directory back + p exists or can be made, without anyone watching. */
  predicate Placed(r: Roots, s: State, p: Path) {
    var x := r.back + p;
    x in s.tree || (CanCreate(s.tree, x) && Parent(x) !in s.watch)
  }

  ghost function Todo(t: Tree, r: Roots, path1: Path): set<Path> {
    set y | y in t.Keys && path1 <= y && !(r.back <= y)
  }

  lemma TodoShrinks(r: Roots, s: State, p: Path, names: iset<Name>, s1: State, n: Name)
    requires Scanned(r, s, p, names, s1) && IsDir(s.tree, r.src + p) && !Excluded(r, p)
    ensures Todo(s1.tree, r, r.src + (p + [n])) < Todo(s.tree, r, r.src + p)
  {
    forall y | y in Todo(s1.tree, r, r.src + (p + [n]))
      ensures y in Todo(s.tree, r, r.src + p)
    {
      OutsideUnchanged(r, s.tree, p, names, s1.tree, y);
      assert r.src + p <= r.src + (p + [n]);
    }
    assert r.src + p in Todo(s.tree, r, r.src + p);
    assert r.src + p !in Todo(s1.tree, r, r.src + (p + [n]));
  }

  ghost function Scope(seen: set<Name>): iset<Name> {
    iset n | n in seen
  }

  /** The names readdir may still return. */
  ghost function Entries(t: Tree, r: Roots, path1: Path): set<Name> {
    (set y | y in t.Keys && |y| == |path1| + 1 && path1 <= y :: y[|path1|])
    + (if |r.back| == |path1| + 1 then {r.back[|path1|]} else {})
  }

  lemma OnlyItself(b: Path, x: Path, n: Name)
    requires !(b <= x)
    ensures b <= x + [n] ==> b == x + [n]
  {
    assert |b| <= |x| ==> (x + [n])[..|b|] == x[..|b|];
  }

  lemma EntryListed(r: Roots, s: State, p: Path, names: iset<Name>, s1: State, n: Name)
    requires Scanned(r, s, p, names, s1) && !Excluded(r, p) && r.src + p + [n] in s1.tree
    ensures n in Entries(s.tree, r, r.src + p)
  {
    var y := r.src + p + [n];
    OnlyItself(r.back, r.src + p, n);
    if !(r.back <= y) {
      OutsideUnchanged(r, s.tree, p, names, s1.tree, y);
    }
    assert y[|r.src + p|] == n;
  }

  /** The child is the backup or is not in it. */
  lemma ChildOfSource(r: Roots, p: Path, n: Name)
    requires !Excluded(r, p)
    ensures r.src + (p + [n]) == r.src + p + [n] && r.back + (p + [n]) == r.back + p + [n]
    ensures Excluded(r, p + [n]) ==> r.src + p + [n] == r.back
  {
    OnlyItself(r.back, r.src + p, n);
    assert r.src + (p + [n]) == r.src + p + [n];
  }

  /** The backup of a child has its place: its parent was made and nobody watches it. */
  lemma ChildPlaced(r: Roots, s: State, p: Path, n: Name)
    requires Sound(r, s) && IsDir(s.tree, r.back + p)
    ensures Placed(r, s, p + [n])
  {
    var x := r.back + (p + [n]);
    assert Parent(x) == r.back + p;
    BackupPath(r, p);
  }

  lemma BackupIsDir(r: Roots, s: State, p: Path)
    requires Sound(r, s) && !Excluded(r, p) && r.back in s.tree && r.src <= r.back
    ensures IsDir(s.tree, r.back)
  {
    assert r.src <= r.src + p;
    assert r.src + [] == r.src && r.back + [] == r.back && r.src != r.back;
    AncestorIsDir(s.tree, r.src, r.back);
    assert InSource(r, s.tree, []);
  }

  /** Once a scan has begun, the backup directory is there. */
  lemma BackupDirMade(r: Roots, s: State, p: Path, names: iset<Name>, s1: State)
    requires Sound(r, s) && Scanned(r, s, p, names, s1) && IsDir(s.tree, r.src + p) && !Excluded(r, p)
    ensures IsDir(s1.tree, r.back + p)
  {
    MirroredAt(r, s.tree, p, names, s1.tree, p);
    assert InSource(r, s.tree, p);
  }

  lemma Finish(r: Roots, s: State, p: Path, seen: set<Name>, s1: State)
    requires Sound(r, s) && Scanned(r, s, p, Scope(seen), s1) && !Excluded(r, p)
    requires forall n :: r.src + p + [n] in s1.tree ==> n in seen || r.src + p + [n] == r.back
    ensures Scanned(r, s, p, Everything(), s1)
  {
    forall n | r.src + (p + [n]) in s.tree
      ensures n in Scope(seen) || r.src + (p + [n]) == r.back
    {
      ChildOfSource(r, p, n);
      if r.src + p + [n] != r.back {
        OutsideUnchanged(r, s.tree, p, Scope(seen), s1.tree, r.src + p + [n]);
      }
    }
    ScanEnds(r, s, p, Scope(seen), s1);
  }

  /** An entry that is not a directory is a regular source file with a place in the backup. */
  lemma FileReady(r: Roots, s: State, p: Path, names: iset<Name>, s1: State, n: Name)
    requires Closed(s.tree) && Scanned(r, s, p, names, s1) && Sound(r, s1) && IsDir(s1.tree, r.back + p)
    requires !Excluded(r, p) && r.src + (p + [n]) in s1.tree && !IsDir(s1.tree, r.src + (p + [n]))
    ensures InSource(r, s.tree, p + [n]) && IsFile(s.tree, r.src + (p + [n]))
    ensures IsFile(s1.tree, r.back + (p + [n])) || CanCreate(s1.tree, r.back + (p + [n]))
  {
    var y := r.src + (p + [n]);
    ChildOfSource(r, p, n);
    ChildPlaced(r, s1, p, n);
    if y == r.back {
      BackupIsDir(r, s1, p);
      assert false;
    }
    OutsideUnchanged(r, s.tree, p, names, s1.tree, y);
    assert InSource(r, s1.tree, p + [n]);
  }

  lemma BeginKeepsSound(r: Roots, s: State, p: Path)
    requires Sound(r, s) && IsDir(s.tree, r.src + p) && !Excluded(r, p) && Placed(r, s, p)
    ensures Sound(r, AddWatch(s.(tree := Mkdir(s.tree, r.back + p)), r.src + p, r.back + p))
    ensures IsDir(Mkdir(s.tree, r.back + p), r.back + p)
  {
    var s1 := s.(tree := Mkdir(s.tree, r.back + p));
    ScanBegins(r, s, p);
    MkdirKeepsClosed(s.tree, r.back + p);
    KeepsSameKinds(r, s.tree, p, iset{}, s1.tree);
    AddWatchKeepsTables(r, s1, p);
    assert InSource(r, s.tree, p);
    hide Closed, SameKinds, Tables, Mirrored;
  }

  lemma FileKeepsSound(r: Roots, s: State, p: Path, names: iset<Name>, s1: State, n: Name)
    requires Sound(r, s) && Sound(r, s1) && Scanned(r, s, p, names, s1) && n !in names
    requires InSource(r, s.tree, p + [n]) && IsFile(s.tree, r.src + (p + [n]))
    requires IsFile(s1.tree, r.back + (p + [n])) || CanCreate(s1.tree, r.back + (p + [n]))
    ensures Sound(r, s1.(tree := WriteOver(s1.tree, r.back + (p + [n]), Readable(s1.tree, r.src + (p + [n])))))
  {
    hide Closed, SameKinds, Mirrored, WriteOver;
    var t2 := WriteOver(s1.tree, r.back + (p + [n]), Readable(s1.tree, r.src + (p + [n])));
    FileScanned(r, s, p, names, s1, n);
    WriteOverKeepsClosed(s1.tree, r.back + (p + [n]), Readable(s1.tree, r.src + (p + [n])));
    KeepsSameKinds(r, s.tree, p, names + iset{n}, t2);
  }

  /** With an event taken off the queue its path is ready to be scanned or copied. */
  lemma PopReady(r: Roots, b: Tree, s: State, p: Path)
    requires Inv(r, b, s) && s.queue != [] && r.src + p in s.watch
    ensures Sound(r, Popped(s)) && Placed(r, Popped(s), p + [s.queue[0].name])
    ensures r.back + p !in s.watch
  {
    assert (r.src + p)[|r.src|..] == p;
    SoundWith(r, s, s.tree, Popped(s).queue);
    ChildPlaced(r, Popped(s), p, s.queue[0].name);
    BackupPath(r, p);
  }

  /** A source without any backup yet is a state to start from, wherever the backup is to be. */
  lemma FreshBackup(r: Roots, t: Tree)
    requires Closed(t) && IsDir(t, r.src) && !(r.back <= r.src) && CanCreate(t, r.back)
    ensures var s := State(t, map[], 0, map[], map[], []); Initial(r, s) && Placed(r, s, [])
  {
    forall q
      ensures r.back + q !in t
    {
      if r.back + q in t {
        assert r.back + q != r.back;
        AncestorIsDir(t, r.back, r.back + q);
        assert false;
      }
    }
    assert r.back + [] == r.back;
  }

  class Daemon {
    /** path_argv1 and path_argv2. */
    const r: Roots
    var tree: Tree
    var watch: map<Path, nat>
    var next: nat
    var wds: map<nat, Path>
    var backs: map<nat, Path>
    var queue: seq<Event>

    function View(): State
      reads this
    {
      State(tree, watch, next, wds, backs, queue)
    }

    // -------------------------------------------------------------- kernel

    method Notify(dir: Path, kind: Kind, name: Name)
      modifies `queue
      ensures queue == Notified(old(View()), dir, kind, name)
    {
      queue := Notified(View(), dir, kind, name);
    }

    method MakeDir(x: Path)
      modifies `tree, `queue
      ensures tree == Mkdir(old(tree), x)
      ensures queue == if CanCreate(old(tree), x) then Notified(old(View()), Parent(x), Create, x[|x| - 1])
                       else old(queue)
    {
      if CanCreate(tree, x) {
        Notify(Parent(x), Create, x[|x| - 1]);
      }
      tree := Mkdir(tree, x);
    }

    /**
     readdir: an entry not returned yet, in no particular order; at the end,
     every entry has been returned, except possibly the backup directory, which
     may have been made after the directory was opened.
     */
    method ReadDir(path1: Path, seen: set<Name>) returns (entry: Option<Name>)
      ensures entry.Some? ==> path1 + [entry.value] in tree && entry.value !in seen
      ensures entry.None? ==> forall n :: path1 + [n] in tree ==> n in seen || path1 + [n] == r.back
    {
      var unseen := set y | y in tree.Keys && |y| == |path1| + 1 && path1 <= y && y[|path1|] !in seen;
      if unseen == {} {
        entry := None;
        forall n | path1 + [n] in tree
          ensures n in seen
        {
          assert path1 + [n] !in unseen;
        }
      } else {
        var y :| y in unseen;
        entry := Some(y[|path1|]);
        assert path1 + [y[|path1|]] == y;
      }
    }

    // ------------------------------------------------------------- program

    /** The read and write loop of `copy`, over a target that is open. */
    method CopyBytes(fd1: InFile, path22: Path, path2: Path, name: Name)
      requires fd1.pos == 0 && IsFile(tree, path22)
      modifies `tree, `queue, fd1
      ensures tree == old(tree)[path22 := File(Overlay(fd1.data, old(tree)[path22].bytes))]
      ensures path2 !in watch ==> queue == old(queue)
    {
      var fd2 := new OutFile(tree[path22].bytes);
      var n, buf := fd1.Read(0);
      ghost var done := 0;
      assert Overlay([], fd2.before) == fd2.before;
      hide Overlay, Notified;
      while n > 0
        invariant fd2.Valid() && fresh(fd2) && fd2.before == old(tree)[path22].bytes
        invariant done <= |fd1.data| && fd2.written == fd1.data[..done]
        invariant if n > 0 then done < |fd1.data| && fd1.pos == done + 1 && buf == fd1.data[done]
                  else done == |fd1.data|
        invariant tree == old(tree)[path22 := File(fd2.contents)]
        invariant path2 !in watch ==> queue == old(queue)
        decreases |fd1.data| - done
      {
        fd2.Write([buf]);
        tree := tree[path22 := File(fd2.contents)];
        Notify(path2, Modify, name);
        done := done + 1;
        n, buf := fd1.Read(buf);
      }
      assert fd1.data[..done] == fd1.data;
    }

    /** Copies a file over its backup, which is created if absent and not truncated. */
    method Copy(path1: Path, path2: Path, name: Name)
      modifies `tree, `queue
      ensures tree == WriteOver(old(tree), path2 + [name], Readable(old(tree), path1 + [name]))
      ensures path2 !in watch ==> queue == old(queue)
      ensures var x, y, t := path1 + [name], path2 + [name], old(tree);
        x in t && t[x].File? && (if y in t then t[y].File? else path2 in t && t[path2].Dir?) ==>
          && y in tree && tree[y].File? && t[x].bytes <= tree[y].bytes
          && (y !in t ==> tree[y].bytes == t[x].bytes)
          && (y in t ==> |t[y].bytes| <= |tree[y].bytes|)
          && (|t[x].bytes| < |tree[y].bytes| ==>
                && y in t && |t[y].bytes| == |tree[y].bytes|
                && forall k | |t[x].bytes| <= k < |tree[y].bytes| :: tree[y].bytes[k] == t[y].bytes[k])
      ensures forall z :: z != path2 + [name] ==>
        (z in tree <==> z in old(tree)) && (z in tree ==> tree[z] == old(tree)[z])
    {
      if path2 + [name] in tree || (path2 in tree && tree[path2].Dir?) {
        ByteLaw(path1, path2, name);
      }
      var path11, path22 := path1 + [name], path2 + [name];
      assert Parent(path22) == path2;
      var fd1 := new InFile(Readable(tree, path11));
      if CanCreate(tree, path22) {
        Notify(path2, Create, name);
        tree := tree[path22 := File([])];
      }
      if IsFile(tree, path22) {
        CopyBytes(fd1, path22, path2, name);
      }
    }

    lemma ByteLaw(path1: Path, path2: Path, name: Name)
      ensures var x, y, t := path1 + [name], path2 + [name], tree;
        var t' := WriteOver(t, y, Readable(t, x));
        x in t && t[x].File? && (if y in t then t[y].File? else path2 in t && t[path2].Dir?) ==>
          && y in t' && t'[y].File? && t[x].bytes <= t'[y].bytes
          && (y !in t ==> t'[y].bytes == t[x].bytes)
          && (y in t ==> |t[y].bytes| <= |t'[y].bytes|)
          && (|t[x].bytes| < |t'[y].bytes| ==>
                && y in t && |t[y].bytes| == |t'[y].bytes|
                && forall k | |t[x].bytes| <= k < |t'[y].bytes| :: t'[y].bytes[k] == t[y].bytes[k])
    {
      assert Parent(path2 + [name]) == path2;
    }

    method AddInotify(path1: Path, path2: Path)
      requires IsDir(tree, path1)
      modifies `watch, `next, `wds, `backs
      ensures View() == AddWatch(old(View()), path1, path2)
    {
      var wd := next;
      if path1 in watch {
        wd := watch[path1];
      } else {
        watch, next := watch[path1 := wd], next + 1;
      }
      wds := wds[wd := path1];
      backs := backs[wd := path2];
    }

    /**
     Mirrors the directory src + p and everything below it into back + p, and
     watches every directory it comes to; it turns back at the backup itself,
     so it ends even when the backup grows inside the tree being scanned.
     */
    method MonitorDirectory(path1: Path, path2: Path, ghost p: Path) returns (ret: int)
      requires path1 == r.src + p && path2 == r.back + p
      requires Sound(r, View()) && (!Excluded(r, p) || path1 == r.back)
      requires IsDir(tree, path1) && path1 != r.back ==> Placed(r, View(), p)
      modifies this
      ensures Sound(r, View())
      ensures ret == 0 <==> old(IsDir(tree, path1)) && path1 != r.back
      ensures ret == 0 ==> Scanned(r, old(View()), p, Everything(), View())
      ensures ret != 0 ==> View() == old(View())
      decreases Todo(tree, r, path1), 1
    {
      if path1 == r.back || !IsDir(tree, path1) {
        return -1;
      }
      ghost var s0 := View();
      Begin(path1, path2, p);
      hide Scanned, Sound;
      var seen: set<Name> := {};
      assert Scope(seen) == iset{};
      while true
        invariant Sound(r, View()) && Scanned(r, s0, p, Scope(seen), View())
        decreases Entries(s0.tree, r, path1) - seen
      {
        var entry := ReadDir(path1, seen);
        if entry == None {
          break;
        }
        EntryListed(r, s0, p, Scope(seen), View(), entry.value);
        VisitEntry(path1, path2, entry.value, p, s0, seen);
        seen := seen + {entry.value};
      }
      Finish(r, s0, p, seen, View());
      return 0;
    }

    /** The body of the directory loop: a subdirectory is scanned, anything else is copied. */
    method VisitEntry(path1: Path, path2: Path, name: Name, ghost p: Path, ghost s0: State, ghost seen: set<Name>)
      requires path1 == r.src + p && path2 == r.back + p
      requires Sound(r, s0) && IsDir(s0.tree, path1) && !Excluded(r, p)
      requires Sound(r, View()) && Scanned(r, s0, p, Scope(seen), View())
      requires path1 + [name] in tree && name !in seen
      modifies this
      ensures Sound(r, View()) && Scanned(r, s0, p, Scope(seen + {name}), View())
      decreases Todo(s0.tree, r, path1), 0
    {
      ghost var s1 := View();
      BackupDirMade(r, s0, p, Scope(seen), s1);
      ChildOfSource(r, p, name);
      assert Scope(seen) + iset{name} == Scope(seen + {name});
      if IsDir(tree, path1 + [name]) {
        TodoShrinks(r, s0, p, Scope(seen), s1, name);
        ChildPlaced(r, s1, p, name);
        var sub := MonitorDirectory(path1 + [name], path2 + [name], p + [name]);
        hide Scanned, Sound;
        if sub == 0 {
          DirScanned(r, s0, p, Scope(seen), s1, name, View());
        } else {
          BackupPassedOver(r, s0, p, Scope(seen), s1, name);
        }
      } else {
        FileReady(r, s0, p, Scope(seen), s1, name);
        Copy(path1, path2, name);
        FileScanned(r, s0, p, Scope(seen), s1, name);
        FileKeepsSound(r, s0, p, Scope(seen), s1, name);
      }
    }

    /** The directory itself: its backup directory and its watch. */
    method Begin(path1: Path, path2: Path, ghost p: Path)
      requires path1 == r.src + p && path2 == r.back + p
      requires Sound(r, View()) && IsDir(tree, path1) && !Excluded(r, p) && Placed(r, View(), p)
      modifies this
      ensures Sound(r, View())
      ensures Scanned(r, old(View()), p, iset{}, View())
    {
      ghost var s0 := View();
      ScanBegins(r, s0, p);
      MakeDir(path2);
      AddInotify(path1, path2);
      BeginKeepsSound(r, s0, p);
      hide Scanned, Sound;
    }

    /** A path that was created or moved in: a directory is scanned, anything else is copied. */
    method NewEntry(path1: Path, path2: Path, name: Name, ghost p: Path)
      requires path1 + [name] == r.src + p && path2 + [name] == r.back + p
      requires Sound(r, View()) && path1 + [name] != r.back && !Excluded(r, p)
      requires Placed(r, View(), p) && path2 !in watch
      modifies this
      ensures old(IsDir(tree, path1 + [name])) ==>
                Sound(r, View()) && Scanned(r, old(View()), p, Everything(), View())
      ensures !old(IsDir(tree, path1 + [name])) ==>
                View() == old(View()).(tree := WriteOver(old(tree), path2 + [name],
                                                         Readable(old(tree), path1 + [name])))
    {
      hide Sound, Scanned;
      if !IsDir(tree, path1 + [name]) {
        Copy(path1, path2, name);
      } else {
        var ret := MonitorDirectory(path1 + [name], path2 + [name], p);
      }
    }

    /** One turn of the loop of `monitor_events`. */
    method HandleEvent(ghost b: Tree)
      requires Inv(r, b, View()) && queue != []
      modifies this
      ensures Handles(r, old(View()), View())
    {
      ghost var p := EventPath(r, b, View());
      PopReady(r, b, View(), p);
      hide Inv, Sound, Scanned, WriteOver, Placed;
      var event := queue[0];
      queue := queue[1..];
      var check := wds[event.wd] + [event.name];
      if check == r.back {
        return;
      }
      if event.kind == Create {
        NewEntry(wds[event.wd], backs[event.wd], event.name, p + [event.name]);
      }
      if event.kind == Modify {
        Copy(wds[event.wd], backs[event.wd], event.name);
      }
      if event.kind == MovedTo {
        NewEntry(wds[event.wd], backs[event.wd], event.name, p + [event.name]);
      }
    }

    /** The first scan, as `main` starts it, over whatever backup there is. */
    method Start() returns (ret: int)
      requires Initial(r, View()) && Placed(r, View(), [])
      modifies this
      ensures ret == 0 && Inv(r, old(tree), View()) && queue == []
      ensures UpToDate(r, old(tree), tree)
    {
      assert r.src + [] == r.src && r.back + [] == r.back;
      ghost var s := View();
      ret := MonitorDirectory(r.src, r.back, []);
      FirstScan(r, s, View());
      EmptyQueueUpToDate(r, s.tree, View());
    }

    /**
     Handles what is queued. Then every source node has its image in the backup,
     and nothing outside the backup was touched; nor was anything in it that
     mirrors no source node.
     */
    method MonitorEvents(ghost b: Tree)
      requires Inv(r, b, View())
      modifies this
      ensures Inv(r, b, View()) && queue == [] && UpToDate(r, b, tree)
      ensures InStep(r, tree) <==> Older(r, b, tree)
      ensures forall q :: r.src + q in tree && tree[r.src + q].File? && !(r.back <= r.src + q) ==>
        && r.back + q in tree && tree[r.back + q].File? && tree[r.src + q].bytes <= tree[r.back + q].bytes
        && (|tree[r.src + q].bytes| < |tree[r.back + q].bytes| ==>
              && r.back + q in b && b[r.back + q].File? && |b[r.back + q].bytes| == |tree[r.back + q].bytes|
              && forall k | |tree[r.src + q].bytes| <= k < |tree[r.back + q].bytes| ::
                   tree[r.back + q].bytes[k] == b[r.back + q].bytes[k])
        && (r.back + q in b && b[r.back + q].File? ==> |b[r.back + q].bytes| <= |tree[r.back + q].bytes|)
      ensures forall q :: r.src + q in tree && tree[r.src + q].Dir? && !(r.back <= r.src + q) ==>
        r.back + q in tree && tree[r.back + q].Dir?
      ensures forall q :: r.src + q !in tree || r.back <= r.src + q ==>
        (r.back + q in tree <==> r.back + q in b) && (r.back + q in b ==> tree[r.back + q] == b[r.back + q])
      ensures forall x :: !(r.back <= x) ==> Get(tree, x) == Get(old(tree), x)
    {
      hide Inv, InStep, Older, UpToDate, Handles;
      while queue != []
        invariant Inv(r, b, View())
        invariant forall x :: !(r.back <= x) ==> Get(tree, x) == Get(old(tree), x)
        decreases |queue|
      {
        ghost var s := View();
        HandleEvent(b);
        HandlesKeepsInv(r, b, s, View());
        forall x | !(r.back <= x)
          ensures Get(tree, x) == Get(s.tree, x)
        {
          HandlesOnlyBackup(r, b, s, View(), x);
        }
      }
      EmptyQueueUpToDate(r, b, View());
      InStepExactly(r, b, tree);
      AllBytesUpToDate(r, b, tree);
    }

    /** The environment: a source node appears or grows, and the kernel raises an event. */
    method Change(p: Path, n: Name, node: Node, kind: Kind, ghost b: Tree)
      requires Inv(r, b, View()) && CanChange(r, View(), p, n, node, kind)
      modifies `tree, `queue
      ensures View() == Changed(r, old(View()), p, n, node, kind) && Inv(r, b, View())
    {
      ChangeKeepsInv(r, b, View(), p, n, node, kind);
      Notify(r.src + p, kind, n);
      tree := tree[r.src + (p + [n]) := node];
    }
  }
}
