/**
 Bytes, byte files and the descriptors through which a program sees them.
 A file opened for writing without truncation keeps the bytes past the end of
 what is written; `Overlay` says so, and both the scanner and the backup
 daemon rely on it.
 */
module Bytes {
  type Byte = x: int | 0 <= x < 256

  datatype Option<+T> = None | Some(value: T)

  /** The C string in a buffer: the bytes before the first NUL, or all of them. */
  function UpToNul(s: seq<Byte>): (t: seq<Byte>)
    ensures t <= s && 0 !in t && (|t| < |s| ==> s[|t|] == 0)
    ensures t == s <==> 0 !in s
  {
    if s == [] || s[0] == 0 then [] else [s[0]] + UpToNul(s[1..])
  }

  /** A string is determined by where its buffer has the first NUL. */
  lemma {:induction false} UpToNulIs(s: seq<Byte>, t: seq<Byte>)
    requires t <= s && 0 !in t && (|t| < |s| ==> s[|t|] == 0)
    ensures UpToNul(s) == t
  {
    if t != [] {
      assert t[0] in t;
      assert forall x <- t[1..] :: x in t;
      UpToNulIs(s[1..], t[1..]);
    }
  }

  /** The contents of a file after `data` was written over its beginning. */
  function Overlay(data: seq<Byte>, before: seq<Byte>): (after: seq<Byte>)
    ensures data <= after && |after| == if |data| < |before| then |before| else |data|
    ensures forall k | |data| <= k < |before| :: after[k] == before[k]
    ensures after == data <==> |before| <= |data|
  {
    data + (if |data| < |before| then before[|data|..] else [])
  }

  /** A descriptor open for reading: the file's bytes and the file position. */
  class InFile {
    const data: seq<Byte>
    var pos: nat

    constructor (data: seq<Byte>)
      ensures this.data == data && pos == 0
    {
      this.data := data;
      pos := 0;
    }

    /** Reads one byte over `cur`; at the end of the file nothing is stored and `n` is 0. */
    method Read(cur: Byte) returns (n: nat, c: Byte)
      modifies this
      ensures old(pos) < |data| ==> n == 1 && c == data[old(pos)] && pos == old(pos) + 1
      ensures old(pos) >= |data| ==> n == 0 && c == cur && pos == old(pos)
    {
      n, c := 0, cur;
      if pos < |data| {
        n, c := 1, data[pos];
        pos := pos + 1;
      }
    }

    method Seek(target: nat)
      modifies this
      ensures pos == target
    {
      pos := target;
    }
  }

  /** A descriptor open for writing, not truncated, positioned after the bytes written so far. */
  class OutFile {
    var contents: seq<Byte>
    var pos: nat
    ghost const before: seq<Byte>
    ghost var written: seq<Byte>

    ghost predicate Valid()
      reads this
    {
      pos == |written| && contents == Overlay(written, before)
    }

    constructor (contents: seq<Byte>)
      ensures Valid() && before == contents && written == []
    {
      this.contents := contents;
      pos := 0;
      before := contents;
      written := [];
    }

    method Write(bytes: seq<Byte>)
      requires Valid()
      modifies this
      ensures Valid() && written == old(written) + bytes
      ensures contents[..old(pos)] == old(contents[..pos]) && contents[old(pos)..pos] == bytes
      ensures forall k | pos <= k < old(|contents|) :: k < |contents| && contents[k] == old(contents)[k]
    {
      var end := pos + |bytes|;
      contents := contents[..pos] + bytes + (if end < |contents| then contents[end..] else []);
      pos := end;
      written := written + bytes;
    }
  }
}
