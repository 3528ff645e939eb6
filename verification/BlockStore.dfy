/** blockcache.go: a flat byte store cut into fixed-size block files. */
module BlockStore {
  import opened Common

  /** The directory: block number to file contents. */
  type Disk = map<nat, seq<Byte>>

  type BlockLength = n: nat | 0 < n witness 1

  const DEFAULT_BLOCK_LENGTH: BlockLength := 32 * 1024 * 1024

  // ----- the flat view ------------------------------------------------------

  /** The byte at flat position i, when its block file exists and is long enough. */
  function At(d: Disk, L: BlockLength, i: nat): Option<Byte> {
    if Quot(i, L) in d && Rem(i, L) < |d[Quot(i, L)]| then Some(d[Quot(i, L)][Rem(i, L)]) else None
  }

  /** What a positional read must return: the longest readable prefix, and why it is short. */
  ghost predicate Reads(d: Disk, L: BlockLength, off: nat, want: nat, got: seq<Byte>, err: Option<Error>) {
    && |got| <= want
    && (forall j :: off <= j < off + |got| ==> At(d, L, j) == Some(got[j - off]))
    && (|got| < want ==> At(d, L, off + |got|) == None)
    && err == (if |got| == want then None
               else if Quot(off + |got|, L) in d then Some(EndOfFile) else Some(NotExist))
  }

  /** The readable bytes of [off, off + want) up to the first gap. */
  function ReadBytes(d: Disk, L: BlockLength, off: nat, want: nat): seq<Byte>
    decreases want
  {
    if want == 0 || At(d, L, off) == None then []
    else [At(d, L, off).value] + ReadBytes(d, L, off + 1, want - 1)
  }

  function ReadError(d: Disk, L: BlockLength, off: nat, want: nat): Option<Error> {
    var n := |ReadBytes(d, L, off, want)|;
    if n == want then None else if Quot(off + n, L) in d then Some(EndOfFile) else Some(NotExist)
  }

  /** The read relation is total and single-valued: these two functions compute it. */
  lemma {:induction false} ReadsExactly(d: Disk, L: BlockLength, off: nat, want: nat,
                                        got: seq<Byte>, err: Option<Error>)
    ensures Reads(d, L, off, want, got, err)
            <==> got == ReadBytes(d, L, off, want) && err == ReadError(d, L, off, want)
    decreases want
  {
    ReadBytesReads(d, L, off, want);
    if Reads(d, L, off, want, got, err) {
      var e := ReadBytes(d, L, off, want);
      forall i | 0 <= i < |e| ensures got[i] == e[i] {
        assert At(d, L, off + i) == Some(e[i]);
      }
    }
  }

  lemma {:induction false} ReadBytesReads(d: Disk, L: BlockLength, off: nat, want: nat)
    ensures Reads(d, L, off, want, ReadBytes(d, L, off, want), ReadError(d, L, off, want))
    decreases want
  {
    hide At, Quot, Rem;
    if want == 0 || At(d, L, off) == None {
    } else {
      ReadBytesReads(d, L, off + 1, want - 1);
      var rest := ReadBytes(d, L, off + 1, want - 1);
      assert forall j :: off + 1 <= j < off + 1 + |rest| ==> At(d, L, j) == Some(rest[j - off - 1]);
    }
  }

  /** Reading a range in two goes is reading it in one, as long as the first go was complete. */
  lemma ReadBytesSplit(d: Disk, L: BlockLength, off: nat, m: nat, k: nat)
    requires ReadError(d, L, off, m) == None
    ensures ReadBytes(d, L, off, m + k) == ReadBytes(d, L, off, m) + ReadBytes(d, L, off + m, k)
    ensures ReadError(d, L, off, m + k) == ReadError(d, L, off + m, k)
  {
    hide At, Quot, Rem;
    var a, b, e := ReadBytes(d, L, off, m), ReadBytes(d, L, off + m, k), ReadError(d, L, off + m, k);
    ReadBytesReads(d, L, off, m);
    ReadBytesReads(d, L, off + m, k);
    ReadsExactly(d, L, off, m + k, a + b, e);
  }

  /** A read that stopped early stops there however much more was asked for. */
  lemma ReadBytesStop(d: Disk, L: BlockLength, off: nat, m: nat, more: nat)
    ensures var n := |ReadBytes(d, L, off, m)|;
            ReadBytes(d, L, off, n) == ReadBytes(d, L, off, m) && ReadError(d, L, off, n) == None
    ensures ReadError(d, L, off, m) != None ==>
      && ReadBytes(d, L, off, m + more) == ReadBytes(d, L, off, m)
      && ReadError(d, L, off, m + more) == ReadError(d, L, off, m)
  {
    hide At, Quot, Rem;
    var got, e := ReadBytes(d, L, off, m), ReadError(d, L, off, m);
    ReadBytesReads(d, L, off, m);
    ReadsExactly(d, L, off, |got|, got, None);
    ReadsExactly(d, L, off, m + more, got, e);
  }

  lemma ReadsJoin(d: Disk, L: BlockLength, off: nat, a: seq<Byte>, b: seq<Byte>)
    requires Reads(d, L, off, |a|, a, None) && Reads(d, L, off + |a|, |b|, b, None)
    ensures Reads(d, L, off, |a + b|, a + b, None)
  {
  }

  // ----- writes -------------------------------------------------------------

  function Contents(d: Disk, block: nat): seq<Byte> {
    if block in d then d[block] else []
  }

  function Zeros(n: nat): (z: seq<Byte>)
    ensures |z| == n && forall i :: 0 <= i < n ==> z[i] == 0
  {
    if n == 0 then [] else [0] + Zeros(n - 1)
  }

  /** os.File.WriteAt: data lands at start, a gap before it is zero-filled, the rest stays. */
  function Patch(file: seq<Byte>, start: nat, data: seq<Byte>): seq<Byte> {
    (if start <= |file| then file[..start] else file + Zeros(start - |file|))
    + data
    + (if start + |data| <= |file| then file[start + |data|..] else [])
  }

  /** How much of p the block holding off takes. */
  function ChunkLength(L: BlockLength, off: nat, p: seq<Byte>): (c: nat)
    requires p != []
    ensures 0 < c <= |p|
  {
    Min(|p|, L - Rem(off, L))
  }

  function PatchBlock(d: Disk, block: nat, start: nat, data: seq<Byte>): Disk {
    d[block := Patch(Contents(d, block), start, data)]
  }

  /** The directory after p, which fits its block, is written at off. */
  function ChunkWritten(d: Disk, L: BlockLength, off: nat, p: seq<Byte>): Disk {
    PatchBlock(d, Quot(off, L), Rem(off, L), p)
  }

  /** The directory after writing p at off, chunk by chunk. */
  function Written(d: Disk, L: BlockLength, off: nat, p: seq<Byte>): Disk
    decreases |p|
  {
    if p == [] then d
    else
      var c := ChunkLength(L, off, p);
      Written(ChunkWritten(d, L, off, p[..c]), L, off + c, p[c..])
  }

  /** The flat store after a write: the range itself, zeros in a gap of the first touched block, nothing else. */
  function FlatWrite(d: Disk, L: BlockLength, off: nat, p: seq<Byte>, i: nat): Option<Byte> {
    if off <= i < off + |p| then Some(p[i - off])
    else if p != [] && Quot(i, L) == Quot(off, L) && i < off && At(d, L, i) == None then Some(0)
    else At(d, L, i)
  }

  lemma PatchAt(file: seq<Byte>, start: nat, data: seq<Byte>, r: nat)
    ensures r < |Patch(file, start, data)| <==> r < |file| || (data != [] && r < start + |data|) || r < start
    ensures r < |Patch(file, start, data)| ==>
      Patch(file, start, data)[r] == if start <= r < start + |data| then data[r - start]
                                     else if r < |file| then file[r] else 0
  {
  }

  /** One chunk that stays inside its block. */
  lemma ChunkIsFlat(d: Disk, L: BlockLength, off: nat, p: seq<Byte>, i: nat)
    requires p != [] && Rem(off, L) + |p| <= L
    ensures At(ChunkWritten(d, L, off, p), L, i) == FlatWrite(d, L, off, p, i)
  {
    hide Patch, Quot, Rem;
    PatchAt(Contents(d, Quot(off, L)), Rem(off, L), p, Rem(i, L));
    if Quot(i, L) == Quot(off, L) {
      if off <= i { BlockOrder(off, i, L); } else { BlockOrder(i, off, L); }
    } else if off <= i < off + |p| {
      SameBlock(off, L, i - off);
    }
  }

  /** The chunks after the first one: pure bookkeeping on the flat view. */
  lemma FlatStep(d: Disk, d1: Disk, L: BlockLength, off: nat, p: seq<Byte>, c: nat, i: nat)
    requires 0 < c <= |p|
    requires At(d1, L, i) == FlatWrite(d, L, off, p[..c], i)
    requires c < |p| && i < off + c ==> Quot(i, L) != Quot(off + c, L)
    ensures FlatWrite(d1, L, off + c, p[c..], i) == FlatWrite(d, L, off, p, i)
  {
  }

  /** A chunk that fills its block stops where the next block starts. */
  lemma ChunkEnd(L: BlockLength, off: nat, c: nat, i: nat)
    requires c == L - Rem(off, L) && i < off + c
    ensures Quot(i, L) != Quot(off + c, L)
  {
    NextBlock(off, L);
    BlockOrder(i, off + c, L);
  }

  /** WriteAt refines the flat store: exactly the range changes, plus zero-filled holes. */
  lemma {:induction false} WrittenIsFlat(d: Disk, L: BlockLength, off: nat, p: seq<Byte>, i: nat)
    ensures At(Written(d, L, off, p), L, i) == FlatWrite(d, L, off, p, i)
    decreases |p|
  {
    hide Patch, Quot, Rem;
    if p == [] {
    } else {
      var c := ChunkLength(L, off, p);
      var d1 := ChunkWritten(d, L, off, p[..c]);
      ChunkIsFlat(d, L, off, p[..c], i);
      WrittenIsFlat(d1, L, off + c, p[c..], i);
      if c < |p| && i < off + c {
        ChunkEnd(L, off, c, i);
      }
      FlatStep(d, d1, L, off, p, c, i);
    }
  }

  /** Which block files a write may create. */
  lemma {:induction false} WrittenBlocks(d: Disk, L: BlockLength, off: nat, p: seq<Byte>, b: nat)
    ensures b in Written(d, L, off, p) <==> b in d || (p != [] && Quot(off, L) <= b <= Quot(off + |p| - 1, L))
    decreases |p|
  {
    hide Patch, Quot, Rem;
    if p == [] {
    } else {
      var c := ChunkLength(L, off, p);
      WrittenBlocks(ChunkWritten(d, L, off, p[..c]), L, off + c, p[c..], b);
      LastBlock(L, off, p);
    }
  }

  lemma LastBlock(L: BlockLength, off: nat, p: seq<Byte>)
    requires p != []
    ensures var c := ChunkLength(L, off, p);
            if c < |p| then Quot(off, L) + 1 == Quot(off + c, L) <= Quot(off + |p| - 1, L)
            else Quot(off + |p| - 1, L) == Quot(off, L)
  {
    var c := ChunkLength(L, off, p);
    if c < |p| {
      NextBlock(off, L);
      BlockOrder(off + c, off + |p| - 1, L);
    } else {
      SameBlock(off, L, c - 1);
    }
  }

  /** Two writes back to back are one write of the concatenation. */
  lemma {:induction false} WrittenConcat(d: Disk, L: BlockLength, off: nat, a: seq<Byte>, b: seq<Byte>)
    ensures Written(Written(d, L, off, a), L, off + |a|, b) == Written(d, L, off, a + b)
    decreases |a|
  {
    hide Written, Rem, ChunkWritten;
    WrittenNothing(d, L, off);
    if a == [] {
      assert a + b == b;
    } else if b == [] {
      assert a + b == a;
      WrittenNothing(Written(d, L, off, a), L, off + |a|);
    } else {
      var c := ChunkLength(L, off, a);
      if c == L - Rem(off, L) {
        var d1 := ChunkWritten(d, L, off, a[..c]);
        WrittenConcat(d1, L, off + c, a[c..], b);
        assert (a + b)[..c] == a[..c] && (a + b)[c..] == a[c..] + b;
        FirstChunk(d, L, off, a);
        FirstChunk(d, L, off, a + b);
        assert off + c + |a[c..]| == off + |a|;
      } else {
        JoinInBlock(d, L, off, a, b);
      }
    }
  }

  lemma WrittenNothing(d: Disk, L: BlockLength, off: nat)
    ensures Written(d, L, off, []) == d
  {
  }

  lemma FirstChunk(d: Disk, L: BlockLength, off: nat, p: seq<Byte>)
    requires p != []
    ensures var c := ChunkLength(L, off, p);
            Written(d, L, off, p) == Written(ChunkWritten(d, L, off, p[..c]), L, off + c, p[c..])
  {
  }

  lemma PatchJoin(file: seq<Byte>, start: nat, a: seq<Byte>, b: seq<Byte>)
    ensures Patch(Patch(file, start, a), start + |a|, b) == Patch(file, start, a + b)
  {
    var f1 := Patch(file, start, a);
    var head := if start <= |file| then file[..start] else file + Zeros(start - |file|);
    assert f1[..start + |a|] == head + a;
    if start + |a| + |b| <= |file| {
      assert f1[start + |a| + |b|..] == file[start + |a| + |b|..];
    }
    assert head + a + b == head + (a + b);
  }

  lemma PatchBlockJoin(d: Disk, k: nat, start: nat, a: seq<Byte>, b: seq<Byte>)
    ensures PatchBlock(PatchBlock(d, k, start, a), k, start + |a|, b) == PatchBlock(d, k, start, a + b)
  {
    PatchJoin(Contents(d, k), start, a, b);
    hide Patch;
    assert Contents(PatchBlock(d, k, start, a), k) == Patch(Contents(d, k), start, a);
  }

  lemma ChunkJoin(d: Disk, L: BlockLength, off: nat, a: seq<Byte>, b: seq<Byte>)
    requires a != [] && b != [] && Rem(off, L) + |a| < L
    ensures ChunkWritten(ChunkWritten(d, L, off, a), L, off + |a|, b) == ChunkWritten(d, L, off, a + b)
  {
    hide PatchBlock;
    SameBlock(off, L, |a|);
    PatchBlockJoin(d, Quot(off, L), Rem(off, L), a, b);
  }

  /** The first write ends inside a block, so the second one's first chunk continues it. */
  lemma JoinInBlock(d: Disk, L: BlockLength, off: nat, a: seq<Byte>, b: seq<Byte>)
    requires a != [] && b != [] && Rem(off, L) + |a| < L
    ensures Written(Written(d, L, off, a), L, off + |a|, b) == Written(d, L, off, a + b)
  {
    hide Quot, Rem, ChunkWritten;
    SameBlock(off, L, |a|);
    var e := ChunkLength(L, off + |a|, b);
    assert ChunkLength(L, off, a) == |a| && a[..|a|] == a && a[|a|..] == [];
    assert ChunkLength(L, off, a + b) == |a| + e;
    hide ChunkLength;
    assert (a + b)[..|a| + e] == a + b[..e] && (a + b)[|a| + e..] == b[e..];
    ChunkJoin(d, L, off, a, b[..e]);
  }

  /** A write that stays inside one block replaces just that file. */
  lemma WrittenInBlock(d: Disk, L: BlockLength, off: nat, p: seq<Byte>)
    requires p != [] && Rem(off, L) + |p| <= L
    ensures Written(d, L, off, p) == ChunkWritten(d, L, off, p)
  {
    hide PatchBlock, Quot, Rem;
    assert p[..|p|] == p && p[|p|..] == [];
  }

  /** Writing again what is there changes nothing. */
  lemma Rewritten(d: Disk, L: BlockLength, off: nat, p: seq<Byte>)
    requires Rem(off, L) + |p| <= L && forall j :: off <= j < off + |p| ==> At(d, L, j) == Some(p[j - off])
    ensures Written(d, L, off, p) == d
  {
    if p != [] {
      hide Quot, Rem, Written, Patch;
      WrittenInBlock(d, L, off, p);
      var file, at := Contents(d, Quot(off, L)), Rem(off, L);
      assert At(d, L, off) == Some(p[0]);
      SameBlock(off, L, |p| - 1);
      assert At(d, L, off + (|p| - 1)) == Some(p[|p| - 1]);
      forall i | 0 <= i < |p| ensures file[at + i] == p[i] {
        SameBlock(off, L, i);
        assert At(d, L, off + i) == Some(p[i]);
      }
      PatchSame(file, at, p);
    }
  }

  lemma PatchSame(file: seq<Byte>, at: nat, p: seq<Byte>)
    requires at + |p| <= |file| && forall i :: 0 <= i < |p| ==> file[at + i] == p[i]
    ensures Patch(file, at, p) == file
  {
    assert file[at..at + |p|] == p;
  }

  /** A write inside one block and the removal of another block's file do not meet. */
  lemma WriteBesideUnlink(d: Disk, L: BlockLength, off: nat, p: seq<Byte>, b: nat)
    requires Rem(off, L) + |p| <= L && (p != [] ==> Quot(off, L) != b)
    ensures Written(d - {b}, L, off, p) == Written(d, L, off, p) - {b}
  {
    if p != [] {
      hide Quot, Rem, Patch, Written;
      WrittenInBlock(d, L, off, p);
      WrittenInBlock(d - {b}, L, off, p);
    }
  }

  /** What is written can be read back. */
  lemma ReadAfterWrite(d: Disk, L: BlockLength, off: nat, p: seq<Byte>)
    ensures ReadBytes(Written(d, L, off, p), L, off, |p|) == p
    ensures ReadError(Written(d, L, off, p), L, off, |p|) == None
  {
    var w := Written(d, L, off, p);
    forall j | off <= j < off + |p| ensures At(w, L, j) == Some(p[j - off]) {
      WrittenIsFlat(d, L, off, p, j);
    }
    ReadsExactly(w, L, off, |p|, p, None);
  }

  /** A block file that is absent. */
  lemma AbsentReads(d: Disk, L: BlockLength, off: nat)
    requires Quot(off, L) !in d
    ensures Reads(d, L, off, 0, [], None) && At(d, L, off) == None
  {
  }

  /** A stretch of one block file; when the file ends with it, before the block does, the next position is missing. */
  lemma ChunkReads(d: Disk, L: BlockLength, off: nat, m: nat)
    requires Quot(off, L) in d && Rem(off, L) + m <= L && (0 < m ==> Rem(off, L) + m <= |d[Quot(off, L)]|)
    ensures Reads(d, L, off, m, if m == 0 then [] else d[Quot(off, L)][Rem(off, L)..Rem(off, L) + m], None)
    ensures Rem(off, L) + m < L && |d[Quot(off, L)]| <= Rem(off, L) + m ==>
      At(d, L, off + m) == None && Quot(off + m, L) in d
  {
    hide Quot, Rem;
    if Rem(off, L) + m < L {
      SameBlock(off, L, m);
    }
    forall j | off <= j < off + m
      ensures At(d, L, j) == Some(d[Quot(off, L)][Rem(off, L) + (j - off)])
    {
      SameBlock(off, L, j - off);
    }
  }

  // ----- the cache object ---------------------------------------------------

  class DirCache {
    const blockLength: BlockLength
    var files: Disk

    constructor (n: BlockLength)
      ensures blockLength == n && files == map[]
    {
      blockLength, files := n, map[];
    }

    function Path(off: nat): (block: nat)
      ensures block == Quot(off, blockLength)
    {
      QuotRem(off, blockLength);
      off / blockLength
    }

    function Offset(off: nat): (r: (nat, nat))
      ensures r.0 == Rem(off, blockLength) && r.0 + r.1 == blockLength && 0 < r.1
    {
      QuotRem(off, blockLength);
      var pos := off % blockLength;
      (pos, blockLength - pos)
    }

    /** One block file's share of a read into p[n..]. */
    method ReadChunk(p: array<Byte>, n: nat, off: nat) returns (m: nat, err: Option<Error>)
      requires n < p.Length
      modifies p
      ensures n + m <= p.Length
      ensures Reads(files, blockLength, off, m, p[n..n + m], None)
      ensures p[..n] == old(p[..n]) && p[n + m..] == old(p[n + m..])
      ensures err == None ==> 0 < m
      ensures err != None ==> n + m < p.Length
      ensures err != None ==>
        && At(files, blockLength, off + m) == None
        && err == Some(if Quot(off + m, blockLength) in files then EndOfFile else NotExist)
    {
      hide Quot, Rem, At, Reads;
      if Path(off) !in files {
        AbsentReads(files, blockLength, off);
        assert p[n..n + 0] == [];
        return 0, Some(NotExist);
      }
      var file := files[Path(off)];
      var (start, max) := Offset(off);
      var want := Min(p.Length - n, max);
      m := Min(want, if start < |file| then |file| - start else 0);
      forall i | 0 <= i < m {
        p[n + i] := file[start + i];
      }
      err := if m < want then Some(EndOfFile) else None;
      ChunkReads(files, blockLength, off, m);
      assert p[n..n + m] == if m == 0 then [] else file[start..start + m];
    }

    method ReadAt(p: array<Byte>, off: nat) returns (n: nat, err: Option<Error>)
      modifies p
      ensures n <= p.Length && Reads(files, blockLength, off, p.Length, p[..n], err)
      ensures p[n..] == old(p[n..])
    {
      hide Quot, Rem, At;
      n := 0;
      while n < p.Length
        invariant n <= p.Length
        invariant Reads(files, blockLength, off, n, p[..n], None)
        invariant p[n..] == old(p[..])[n..]
      {
        ghost var behind := p[n..];
        var m, e := ReadChunk(p, n, off + n);
        assert p[n + m..] == behind[m..] == old(p[..])[n..][m..] == old(p[..])[n + m..];
        ReadsJoin(files, blockLength, off, p[..n], p[n..n + m]);
        assert p[..n + m] == p[..n] + p[n..n + m];
        assert off + (n + m) == off + n + m;
        n := n + m;
        if e != None {
          return n, e;
        }
      }
      err := None;
    }

    /** One block file's share of a write. */
    method WriteChunk(p: seq<Byte>, off: nat) returns (c: nat)
      requires p != []
      modifies this`files
      ensures c == ChunkLength(blockLength, off, p)
      ensures files == ChunkWritten(old(files), blockLength, off, p[..c])
    {
      var (start, max) := Offset(off);
      c := Min(|p|, max);
      files := files[Path(off) := Patch(Contents(files, Path(off)), start, p[..c])];
    }

    method WriteAt(p: seq<Byte>, off: nat) returns (n: nat)
      modifies this`files
      ensures n == |p| && files == Written(old(files), blockLength, off, p)
    {
      hide Patch, Quot, Rem, ChunkWritten, ChunkLength;
      n := 0;
      while n < |p|
        invariant n <= |p|
        invariant Written(files, blockLength, off + n, p[n..]) == Written(old(files), blockLength, off, p)
      {
        ghost var before := files;
        var rest := p[n..];
        var c := WriteChunk(rest, off + n);
        FirstChunk(before, blockLength, off + n, rest);
        assert rest[c..] == p[n + c..];
        n := n + c;
      }
    }
  }
}
