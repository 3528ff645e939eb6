/** filesystem.go: a file as a window with a cursor over the block files. */
module FileCursor {
  import opened Common
  import opened BlockStore

  /** Conversion of any integer to int64. */
  function Int64(x: int): int {
    (x + TWO_63) % TWO_64 - TWO_63
  }

  datatype Whence = FromStart | FromEnd | FromCurrent

  datatype Op = Read(want: nat) | Seek(offset: int, whence: Whence)

  predicate IsInt64(x: int) {
    -TWO_63 <= x < TWO_63
  }

  /** Where a seek leads, if it is not to a negative index. */
  function Sought(length: nat, cur: nat, offset: int, whence: Whence): Option<nat> {
    var res := match whence
      case FromStart => offset
      case FromEnd => Int64(Int64(length) + offset)
      case FromCurrent => Int64(Int64(cur) + offset);
    if res < 0 then None else Some(res)
  }

  /** What a seek is relative to. */
  function Base(length: nat, cur: nat, whence: Whence): nat {
    match whence
    case FromStart => 0
    case FromEnd => length
    case FromCurrent => cur
  }

  /** Sums that leave int64 wrap around, and are then negative, so they are refused like negative ones. */
  lemma SoughtExactly(length: nat, cur: nat, offset: int, whence: Whence)
    requires IsInt64(offset) && Base(length, cur, whence) < TWO_63
    ensures var to := Base(length, cur, whence) + offset;
            Sought(length, cur, offset, whence) == if 0 <= to < TWO_63 then Some(to) else None
  {
  }

  /** A file's unchanging part: the block files it reads, and its place in them. */
  datatype Window = Window(files: Disk, L: BlockLength, offset: nat, length: nat)

  /** What an operation gives back: bytes and an error, or a position unless the seek was refused. */
  datatype Answer = Data(bytes: seq<Byte>, err: Option<Error>) | Position(to: Option<nat>)

  function Output(w: Window, cur: nat, op: Op): Answer {
    match op
    case Read(want) =>
      Data(ReadBytes(w.files, w.L, w.offset + cur, want), ReadError(w.files, w.L, w.offset + cur, want))
    case Seek(offset, whence) => Position(Sought(w.length, cur, offset, whence))
  }

  function Moved(w: Window, cur: nat, op: Op): nat {
    match Output(w, cur, op)
    case Data(bytes, _) => cur + |bytes|
    case Position(to) => if to == None then cur else to.value
  }

  /** The cursor after a list of operations, and what each of them gave back. */
  function CursorAfter(w: Window, cur: nat, ops: seq<Op>): nat {
    if ops == [] then cur else Moved(w, CursorAfter(w, cur, ops[..|ops| - 1]), ops[|ops| - 1])
  }

  function Outputs(w: Window, cur: nat, ops: seq<Op>): seq<Answer> {
    if ops == [] then []
    else Outputs(w, cur, ops[..|ops| - 1]) + [Output(w, CursorAfter(w, cur, ops[..|ops| - 1]), ops[|ops| - 1])]
  }

  /** The bytes of all reads, one after the other. */
  function Joined(answers: seq<Answer>): seq<Byte> {
    if answers == [] then []
    else
      var last := answers[|answers| - 1];
      Joined(answers[..|answers| - 1]) + if last.Data? then last.bytes else []
  }

  function Wanted(ops: seq<Op>): nat {
    if ops == [] then 0
    else Wanted(ops[..|ops| - 1]) + if ops[|ops| - 1].Read? then ops[|ops| - 1].want else 0
  }

  /** Reading on and on, with buffers of any sizes, is one read of the flat view from the cursor on. */
  lemma {:induction false} ReadsAddUp(w: Window, cur: nat, ops: seq<Op>)
    requires forall op :: op in ops ==> op.Read?
    ensures Joined(Outputs(w, cur, ops)) == ReadBytes(w.files, w.L, w.offset + cur, Wanted(ops))
    ensures CursorAfter(w, cur, ops) == cur + |Joined(Outputs(w, cur, ops))|
    decreases |ops|
  {
    hide ReadBytes, ReadError;
    if ops == [] {
      NothingRead(w.files, w.L, w.offset + cur);
    } else {
      var before, last := ops[..|ops| - 1], ops[|ops| - 1];
      assert last in ops;
      ReadsAddUp(w, cur, before);
      var bytes := Joined(Outputs(w, cur, before));
      OneMoreRead(w.files, w.L, w.offset + cur, Wanted(before), last.want);
      assert w.offset + cur + |bytes| == w.offset + CursorAfter(w, cur, before);
      JoinedSnoc(Outputs(w, cur, before), Output(w, CursorAfter(w, cur, before), last));
    }
  }

  lemma JoinedSnoc(answers: seq<Answer>, last: Answer)
    ensures Joined(answers + [last]) == Joined(answers) + if last.Data? then last.bytes else []
  {
    assert (answers + [last])[..|answers|] == answers;
  }

  lemma NothingRead(d: Disk, L: BlockLength, off: nat)
    ensures ReadBytes(d, L, off, 0) == []
  {
  }

  lemma OneMoreRead(d: Disk, L: BlockLength, off: nat, m: nat, k: nat)
    ensures var a := ReadBytes(d, L, off, m);
            ReadBytes(d, L, off, m + k) == a + ReadBytes(d, L, off + |a|, k)
  {
    hide At, Quot, Rem;
    var a := ReadBytes(d, L, off, m);
    ReadBytesReads(d, L, off, m);
    if ReadError(d, L, off, m) == None {
      ReadBytesSplit(d, L, off, m, k);
    } else {
      ReadBytesStop(d, L, off, m, k);
      assert At(d, L, off + |a|) == None;
      assert ReadBytes(d, L, off + |a|, k) == [];
    }
  }

  /** The cursor cell: an atomic.Uint64 behind a pointer. */
  class Cursor {
    var v: nat

    constructor (v: nat)
      ensures this.v == v
    {
      this.v := v;
    }
  }

  class File {
    const cache: DirCache
    const offset: nat
    const length: nat
    const index: Cursor

    constructor (cache: DirCache, offset: nat, length: nat)
      ensures this.cache == cache && this.offset == offset && this.length == length
      ensures fresh(index) && index.v == 0
    {
      this.cache, this.offset, this.length := cache, offset, length;
      index := new Cursor(0);
    }

    ghost function View(): Window
      reads cache
    {
      Window(cache.files, cache.blockLength, offset, length)
    }

    /** The same window with a cursor cell of its own, at 0. */
    method Clone() returns (f: File)
      ensures fresh(f) && fresh(f.index) && f.index.v == 0
      ensures f.cache == cache && f.offset == offset && f.length == length
    {
      f := new File(cache, offset, length);
    }

    method ReadAt(p: array<Byte>, at: nat) returns (n: nat, err: Option<Error>)
      modifies p
      ensures n <= p.Length && Reads(cache.files, cache.blockLength, offset + at, p.Length, p[..n], err)
      ensures p[..n] == ReadBytes(cache.files, cache.blockLength, offset + at, p.Length)
      ensures err == ReadError(cache.files, cache.blockLength, offset + at, p.Length)
    {
      n, err := cache.ReadAt(p, offset + at);
      ReadsExactly(cache.files, cache.blockLength, offset + at, p.Length, p[..n], err);
    }

    method Read(p: array<Byte>) returns (n: nat, err: Option<Error>)
      modifies p, index
      ensures n <= p.Length && Reads(cache.files, cache.blockLength, offset + old(index.v), p.Length, p[..n], err)
      ensures Data(p[..n], err) == Output(View(), old(index.v), Op.Read(p.Length))
      ensures index.v == Moved(View(), old(index.v), Op.Read(p.Length)) == old(index.v) + n
    {
      n, err := ReadAt(p, index.v);
      index.v := index.v + n;
    }

    method Seek(to: int, whence: Whence) returns (pos: nat, ok: bool)
      requires IsInt64(to)
      modifies index
      ensures var base := Base(length, old(index.v), whence);
              base < TWO_63 ==>
                && (ok <==> 0 <= base + to < TWO_63)
                && index.v == (if ok then base + to else old(index.v))
      ensures pos == if ok then index.v else 0
      ensures Output(View(), old(index.v), Op.Seek(to, whence)) == Position(if ok then Some(pos) else None)
      ensures index.v == Moved(View(), old(index.v), Op.Seek(to, whence))
    {
      hide Int64;
      if Base(length, index.v, whence) < TWO_63 {
        SoughtExactly(length, index.v, to, whence);
      }
      var res: int;
      match whence {
        case FromStart => res := to;
        case FromEnd => res := Int64(Int64(length) + to);
        case FromCurrent => res := Int64(Int64(index.v) + to);
      }
      if res < 0 {
        return 0, false;
      }
      index.v := res;
      return res, true;
    }

    method Do(op: Op) returns (out: Answer)
      requires op.Seek? ==> IsInt64(op.offset)
      modifies index
      ensures out == Output(View(), old(index.v), op) && index.v == Moved(View(), old(index.v), op)
    {
      match op {
        case Read(want) =>
          var p := new Byte[want];
          var n, err := Read(p);
          out := Data(p[..n], err);
        case Seek(to, whence) =>
          var pos, ok := Seek(to, whence);
          out := Position(if ok then Some(pos) else None);
      }
    }
  }

  /** The operations of a script that go to one of its two handles. */
  function Project(script: seq<(bool, Op)>, which: bool): seq<Op> {
    if script == [] then []
    else
      var last := script[|script| - 1];
      Project(script[..|script| - 1], which) + if last.0 == which then [last.1] else []
  }

  /** A file and a clone of it, used in any interleaving: each operation gives what it would
      give alone. */
  method Interleave(f: File, script: seq<(bool, Op)>)
    returns (mine: seq<Answer>, clones: seq<Answer>, g: File)
    requires forall i :: 0 <= i < |script| && script[i].1.Seek? ==> IsInt64(script[i].1.offset)
    modifies f.index
    ensures mine == Outputs(f.View(), old(f.index.v), Project(script, true))
    ensures f.index.v == CursorAfter(f.View(), old(f.index.v), Project(script, true))
    ensures clones == Outputs(f.View(), 0, Project(script, false))
    ensures g.index.v == CursorAfter(f.View(), 0, Project(script, false))
  {
    hide Output, Moved, Outputs, CursorAfter, Project;
    g := f.Clone();
    mine, clones := [], [];
    var i := 0;
    assert script[..0] == [];
    NothingDone(f.View(), f.index.v);
    NothingDone(f.View(), 0);
    while i < |script|
      invariant 0 <= i <= |script|
      invariant f.View() == old(f.View()) && g.View() == f.View() && fresh(g.index) && g.index != f.index
      invariant mine == Outputs(f.View(), old(f.index.v), Project(script[..i], true))
      invariant f.index.v == CursorAfter(f.View(), old(f.index.v), Project(script[..i], true))
      invariant clones == Outputs(f.View(), 0, Project(script[..i], false))
      invariant g.index.v == CursorAfter(f.View(), 0, Project(script[..i], false))
    {
      ProjectSnoc(script, i);
      OutputsSnoc(f.View(), old(f.index.v), Project(script[..i], true), script[i].1);
      OutputsSnoc(f.View(), 0, Project(script[..i], false), script[i].1);
      if script[i].0 {
        var out := f.Do(script[i].1);
        mine := mine + [out];
      } else {
        var out := g.Do(script[i].1);
        clones := clones + [out];
      }
      i := i + 1;
    }
    assert script[..i] == script;
  }

  lemma NothingDone(w: Window, cur: nat)
    ensures Outputs(w, cur, Project([], true)) == [] && CursorAfter(w, cur, Project([], true)) == cur
    ensures Outputs(w, cur, Project([], false)) == [] && CursorAfter(w, cur, Project([], false)) == cur
  {
  }

  lemma OutputsSnoc(w: Window, cur: nat, ops: seq<Op>, op: Op)
    ensures Outputs(w, cur, ops + [op]) == Outputs(w, cur, ops) + [Output(w, CursorAfter(w, cur, ops), op)]
    ensures CursorAfter(w, cur, ops + [op]) == Moved(w, CursorAfter(w, cur, ops), op)
  {
    hide Output, Moved;
    assert (ops + [op])[..|ops + [op]| - 1] == ops;
  }

  lemma ProjectSnoc(script: seq<(bool, Op)>, i: nat)
    requires i < |script|
    ensures Project(script[..i + 1], script[i].0) == Project(script[..i], script[i].0) + [script[i].1]
    ensures Project(script[..i + 1], !script[i].0) == Project(script[..i], !script[i].0)
  {
    assert script[..i + 1][..i] == script[..i];
    assert Project(script[..i], !script[i].0) + [] == Project(script[..i], !script[i].0);
  }
}
