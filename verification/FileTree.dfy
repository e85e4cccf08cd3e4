/**
 A file system as a map from normalised paths to nodes, with the few calls the
 backup daemon makes. There are no links: a path names one node.
 */
module FileTree {
  import opened Bytes

  type Name = string
  type Path = seq<Name>

  datatype Node = Dir | File(bytes: seq<Byte>)

  type Tree = map<Path, Node>

  function Get(t: Tree, x: Path): Option<Node> {
    if x in t then Some(t[x]) else None
  }

  predicate IsDir(t: Tree, x: Path) {
    Get(t, x) == Some(Dir)
  }

  predicate IsFile(t: Tree, x: Path) {
    Get(t, x).Some? && Get(t, x).value.File?
  }

  function Parent(x: Path): Path
    requires x != []
  {
    x[..|x| - 1]
  }

  /** Every node lies in a directory. */
  ghost predicate Closed(t: Tree) {
    forall x :: x in t && x != [] ==> IsDir(t, Parent(x))
  }

  lemma {:induction false} AncestorIsDir(t: Tree, x: Path, y: Path)
    requires Closed(t) && y in t && x <= y && x != y
    ensures IsDir(t, x)
    decreases |y|
  {
    if Parent(y) != x {
      AncestorIsDir(t, x, Parent(y));
    }
  }

  /** A node can be created at `x`. */
  predicate CanCreate(t: Tree, x: Path) {
    x !in t && x != [] && IsDir(t, Parent(x))
  }

  /** mkdir: an existing node, or a missing parent, makes it fail. */
  function Mkdir(t: Tree, x: Path): Tree {
    if CanCreate(t, x) then t[x := Dir] else t
  }

  /** What a read loop gets from a path: nothing if it is not a regular file. */
  function Readable(t: Tree, x: Path): seq<Byte> {
    if IsFile(t, x) then t[x].bytes else []
  }

  /** The target opened for writing, created if absent and not truncated, after `data` was written to it. */
  function WriteOver(t: Tree, x: Path, data: seq<Byte>): Tree {
    if IsFile(t, x) then t[x := File(Overlay(data, t[x].bytes))]
    else if CanCreate(t, x) then t[x := File(data)]
    else t
  }

  /** Byte by byte: the data comes first, the bytes past its end stay, and so does every other node. */
  lemma BytesWritten(t: Tree, x: Path, data: seq<Byte>)
    requires (x in t && t[x].File?) || (x !in t && x != [] && Parent(x) in t && t[Parent(x)].Dir?)
    ensures var t' := WriteOver(t, x, data);
      && x in t' && t'[x].File? && data <= t'[x].bytes
      && (x !in t ==> t'[x].bytes == data)
      && (x in t ==> |t[x].bytes| <= |t'[x].bytes| && (|t[x].bytes| <= |data| ==> t'[x].bytes == data))
      && (|data| < |t'[x].bytes| ==>
            && x in t && |t[x].bytes| == |t'[x].bytes|
            && forall k | |data| <= k < |t'[x].bytes| :: t'[x].bytes[k] == t[x].bytes[k])
    ensures forall y :: y != x ==>
      (y in WriteOver(t, x, data) <==> y in t) && (y in t ==> WriteOver(t, x, data)[y] == t[y])
  {
  }

  lemma MkdirKeepsClosed(t: Tree, x: Path)
    requires Closed(t)
    ensures Closed(Mkdir(t, x))
  {
  }

  lemma WriteOverKeepsClosed(t: Tree, x: Path, data: seq<Byte>)
    requires Closed(t)
    ensures Closed(WriteOver(t, x, data))
  {
  }
}
