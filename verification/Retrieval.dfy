/** Archived media read back through the local block files: what the objects of
    Library.dfy compute, on values, and the laws that hold of it. */
module Retrieval {
  import opened Common
  import opened BlockStore
  import opened Cryptox
  import opened Ranges

  datatype Metadata = Metadata(
    id: Uuid, encryptionSeed: Uuid, archiveId: Uuid, diskOffset: nat, bytes: nat)

  function Seed(md: Metadata): Uuid {
    if md.encryptionSeed != Nil then md.encryptionSeed else md.id
  }

  /** data under md's keystream, from keystream byte at on: encryption and decryption alike. */
  function Cipherbytes(P: Primitives, md: Metadata, at: nat, data: seq<Byte>): (r: seq<Byte>)
    ensures |r| == |data|
  {
    Xor(P, Random(P, Seed(md), 0, KEY_SIZE), Random(P, Seed(md), KEY_SIZE, NONCE_SIZE), at, data)
  }

  // ----- one download -------------------------------------------------------

  /** The remote store never changes an object; P and the block length are fixed for a run. */
  datatype Env = Env(P: Primitives, objects: map<Uuid, seq<Byte>>, L: BlockLength)

  datatype Ending = Complete | Failed | Unrecoverable

  /** How a transfer goes: the pieces it arrives in, and how it ends. */
  datatype Transfer = Transfer(cuts: seq<nat>, end: Ending)

  function Sum(cuts: seq<nat>): nat {
    if cuts == [] then 0 else cuts[0] + Sum(cuts[1..])
  }

  /** How many of len bytes arrive. */
  function Delivered(t: Transfer, len: nat): (n: nat)
    ensures n <= len
  {
    if t.end.Complete? then len else Min(Sum(t.cuts), len)
  }

  /** The bytes of object that a request for [start, end) can get. */
  function Clip(blob: seq<Byte>, start: nat, end: nat): (r: seq<Byte>)
    ensures |r| == if start < end && start < |blob| then Min(end, |blob|) - start else 0
  {
    if start < end && start < |blob| then blob[start..Min(end, |blob|)] else []
  }

  /** The block files after md's object was asked for one range, decrypted into place. */
  function FetchFiles(env: Env, d: Disk, md: Metadata, range: (nat, nat), t: Transfer): Disk {
    if md.archiveId !in env.objects then d
    else
      var part := Clip(env.objects[md.archiveId], range.0, (range.0 + range.1) % TWO_64);
      Written(d, env.L, range.0, Cipherbytes(env.P, md, StartIndex(range.0), part[..Delivered(t, |part|)]))
  }

  function FetchError(env: Env, md: Metadata, t: Transfer): Option<Error> {
    if md.archiveId !in env.objects then Some(Remote(false))
    else if t.end.Complete? then None
    else Some(Remote(t.end.Unrecoverable?))
  }

  // ----- one read -----------------------------------------------------------

  datatype Local = Local(files: Disk, blocked: bool)

  /** One row of the lookup and the transfer its download meets. */
  datatype Match = Match(md: Metadata, transfer: Transfer)

  /** The download of the block holding off from one row; an unrecoverable failure latches. */
  function Fetch(env: Env, s: Local, off: nat, m: Match): Local {
    Local(FetchFiles(env, s.files, m.md, CalculateBlockRange(env.L, off, m.md.bytes), m.transfer),
          s.blocked || FetchError(env, m.md, m.transfer) == Some(Remote(true)))
  }

  /** The loop over the rows: rows that are not archived are skipped, the first failure ends it. */
  function Refill(env: Env, s: Local, off: nat, matches: seq<Match>): (Local, Option<Error>)
    decreases |matches|
  {
    if matches == [] then (s, None)
    else if matches[0].md.archiveId.Nil? || matches[0].md.archiveId.Max? then Refill(env, s, off, matches[1..])
    else
      var e := FetchError(env, matches[0].md, matches[0].transfer);
      if e != None then (Fetch(env, s, off, matches[0]), e)
      else Refill(env, Fetch(env, s, off, matches[0]), off, matches[1..])
  }

  /** What happens while a reader waits for the mutex: other readers' downloads end, and a reclaim, which does not
      take the mutex, removes block files one at a time. */
  datatype Other = Ended(off: nat, row: Match) | Unlinked(b: nat)

  function Passed(env: Env, s: Local, o: Other): Local {
    match o
    case Ended(off, row) => Fetch(env, s, off, row)
    case Unlinked(b) => s.(files := s.files - {b})
  }

  function Waited(env: Env, s: Local, others: seq<Other>): Local
    decreases |others|
  {
    if others == [] then s else Waited(env, Passed(env, s, others[0]), others[1..])
  }

  datatype Outcome = Outcome(local: Local, got: seq<Byte>, err: Option<Error>)

  function Plain(env: Env, s: Local, off: nat, want: nat): Outcome {
    Outcome(s, ReadBytes(s.files, env.L, off, want), ReadError(s.files, env.L, off, want))
  }

  /** fallback.ReadAt: try, wait for the mutex, try again, download, re-read. */
  function ReadThrough(env: Env, s: Local, off: nat, want: nat,
                       others: seq<Other>, matches: seq<Match>, queryFails: bool): Outcome
  {
    var first := Plain(env, s, off, want);
    if first.err != Some(NotExist) then first
    else if s.blocked then first.(err := Some(CacheUnrecoverable))
    else
      var second := Plain(env, Waited(env, s, others), off, want);
      if second.err == None then second
      else
        var (s', e) := Refill(env, second.local, off, matches);
        if e != None then second.(local := s', err := e)
        else if queryFails then second.(local := s')
        else Plain(env, s', off, want)
  }

  /** DeeppoolReaderAtCache.ReadAt: one known media, no latch, the remainder formula, download errors swallowed. */
  function ReaderAt(env: Env, s: Local, md: Metadata, off: nat, want: nat, others: seq<Other>, t: Transfer): Outcome {
    var first := Plain(env, s, off, want);
    if first.err != Some(NotExist) then first
    else
      var second := Plain(env, Waited(env, s, others), off, want);
      if second.err == None then second
      else
        var range := ModuloRange(DEFAULT_BLOCK_LENGTH, md.diskOffset + off, md.diskOffset + md.bytes);
        var s' := second.local.(files := FetchFiles(env, second.local.files, md, range, t));
        if FetchError(env, md, t) != None then second.(local := s') else Plain(env, s', off, want)
  }

  // ----- the archive step ---------------------------------------------------

  /** What Archive uploads: the readable prefix of the media, encrypted from keystream byte 0. */
  function Archived(P: Primitives, L: BlockLength, d: Disk, md: Metadata): seq<Byte> {
    Cipherbytes(P, md, 0, ReadBytes(d, L, md.diskOffset, md.bytes))
  }

  // ----- never a wrong byte -------------------------------------------------

  /** md's object is the encryption of plain, the media's bytes, which start at disk offset 0. */
  predicate Holding(env: Env, plain: seq<Byte>, md: Metadata) {
    && md.archiveId in env.objects
    && env.objects[md.archiveId] == Cipherbytes(env.P, md, 0, plain)
    && md.diskOffset == 0
    && |plain| <= md.bytes
  }

  /** The limits inside which the uint64 and uint32 arithmetic of a download is exact. */
  predicate Sound(env: Env, md: Metadata, off: nat) {
    && Rem(env.L, BLOCK_SIZE) == 0
    && off <= md.bytes && md.bytes + env.L < TWO_64
    && BlockStart(off, env.L) < TWO_32
  }

  /** Every readable byte is the plaintext byte of its position. */
  ghost predicate Faithful(d: Disk, L: BlockLength, plain: seq<Byte>) {
    forall i: nat :: At(d, L, i) != None ==> i < |plain| && At(d, L, i) == Some(plain[i])
  }

  /** A block start is a multiple of 64 when the block length is. */
  lemma {:induction false} AlignedStart(x: nat, L: nat)
    requires 0 < L && Rem(L, BLOCK_SIZE) == 0 && Rem(x, L) == 0
    ensures x % BLOCK_SIZE == 0
    decreases x
  {
    QuotRem(L, BLOCK_SIZE);
    if x < L {
    } else {
      AlignedStart(x - L, L);
    }
  }

  lemma ClipPrefix(plain: seq<Byte>, start: nat, end: nat, n: nat)
    requires n <= |Clip(plain, start, end)|
    ensures 0 < n ==> start + n <= |plain|
    ensures Clip(plain, start, end)[..n] == if n == 0 then [] else plain[start..start + n]
  {
  }

  /** Decrypting n bytes of md's object from an aligned start below 2^32. */
  lemma SliceDecrypts(P: Primitives, md: Metadata, plain: seq<Byte>, start: nat, n: nat)
    requires start % BLOCK_SIZE == 0 && start < TWO_32 && start + n <= |plain|
    ensures Cipherbytes(P, md, StartIndex(start), Cipherbytes(P, md, 0, plain)[start..start + n])
            == plain[start..start + n]
  {
    hide Xor, Random, StartIndex;
    RecoveredWithin(P, Random(P, Seed(md), 0, KEY_SIZE), Random(P, Seed(md), KEY_SIZE, NONCE_SIZE), plain, start, n);
  }

  /** What a download puts on disk: the first bytes of the plaintext block, decrypted from the middle of the stream. */
  lemma FetchDelivers(env: Env, plain: seq<Byte>, d: Disk, md: Metadata, off: nat, t: Transfer)
    requires Holding(env, plain, md) && Sound(env, md, off)
    ensures var start := BlockStart(off, env.L);
            var block := Clip(plain, start, start + env.L);
            FetchFiles(env, d, md, CalculateBlockRange(env.L, off, md.bytes), t)
            == Written(d, env.L, start, block[..Delivered(t, |block|)])
  {
    hide Cipherbytes, Written, Quot, Rem, StartIndex, Delivered, CalculateBlockRange, BlockStart, Clip;
    var start := BlockStart(off, env.L);
    var end := start + Min(env.L, md.bytes - start);
    RangeIs(env.L, off, md.bytes);
    var cipher := env.objects[md.archiveId];
    var block, part := Clip(plain, start, start + env.L), Clip(cipher, start, end % TWO_64);
    var n := Delivered(t, |block|);
    assert |part| == |block|;
    ClipPrefix(plain, start, start + env.L, n);
    ClipPrefix(cipher, start, end % TWO_64, n);
    if 0 < n {
      AlignedStart(start, env.L);
      SliceDecrypts(env.P, md, plain, start, n);
    } else {
      assert Cipherbytes(env.P, md, StartIndex(start), []) == [];
    }
  }

  /** Downloading the block of off works for every key, media, directory and transfer. */
  ghost predicate DownloadsRight(L: BlockLength, off: nat) {
    forall env: Env, plain: seq<Byte>, d: Disk, md: Metadata, t: Transfer |
      env.L == L && Holding(env, plain, md) && off <= md.bytes && md.bytes + L < TWO_64 ::
      DeliversBlock(env, plain, d, md, off, t)
  }

  predicate DeliversBlock(env: Env, plain: seq<Byte>, d: Disk, md: Metadata, off: nat, t: Transfer) {
    var start := BlockStart(off, env.L);
    var block := Clip(plain, start, start + env.L);
    FetchFiles(env, d, md, CalculateBlockRange(env.L, off, md.bytes), t)
    == Written(d, env.L, start, block[..Delivered(t, |block|)])
  }

  /** With the aligned block lengths that NewTorrentStorage admits, it does exactly below 4 GiB. */
  lemma DownloadsRightExactly(L: BlockLength, off: nat)
    requires Rem(L, BLOCK_SIZE) == 0 && off + 1 + L < TWO_64
    ensures DownloadsRight(L, off) <==> BlockStart(off, L) < TWO_32
  {
    hide Holding, FetchFiles, Written, BlockStart, Quot, Rem, CalculateBlockRange, Clip;
    if BlockStart(off, L) < TWO_32 {
      forall env: Env, plain: seq<Byte>, d: Disk, md: Metadata, t: Transfer |
        env.L == L && Holding(env, plain, md) && off <= md.bytes && md.bytes + L < TWO_64
        ensures DeliversBlock(env, plain, d, md, off, t)
      {
        FetchDelivers(env, plain, d, md, off, t);
      }
    } else {
      WrongBeyond(L, off);
    }
  }

  /** A media of zeros under the marked keystream: its block past 4 GiB comes back with a 1. */
  lemma WrongBeyond(L: BlockLength, off: nat)
    requires TWO_32 <= BlockStart(off, L) && off + 1 + L < TWO_64
    ensures !DownloadsRight(L, off)
  {
    hide Xor, Written, Quot, Rem, Random, CalculateBlockRange, BlockStart, Clip, At;
    var start := BlockStart(off, L);
    var P := Marked(start);
    var plain := ZeroBytes(off + 1);
    var md := Metadata(Id(0), Nil, Id(1), 0, off + 1);
    var cipher := Cipherbytes(P, md, 0, plain);
    var env, t := Env(P, map[Id(1) := cipher], L), Transfer([], Complete);
    var n := Min(L, off + 1 - start);
    RangeIs(L, off, off + 1);
    WholeClip(plain, start, L);
    WholeClip(cipher, start, L);
    var got := Cipherbytes(P, md, StartIndex(start), cipher[start..start + n]);
    MarkedMisreads(Random(P, Seed(md), 0, KEY_SIZE), Random(P, Seed(md), KEY_SIZE, NONCE_SIZE), plain, start, n);
    WrittenIsFlat(map[], L, start, got, start);
    WrittenIsFlat(map[], L, start, plain[start..start + n], start);
    assert !DeliversBlock(env, plain, map[], md, off, t);
  }

  lemma WholeClip(blob: seq<Byte>, start: nat, L: nat)
    requires start < |blob| && 0 < L
    ensures var n := Min(L, |blob| - start);
            Clip(blob, start, start + L) == Clip(blob, start, start + n) == blob[start..start + n]
            && forall x: seq<Byte> :: |x| == n ==> x[..|x|] == x
  {
  }

  /** d' is d with plain[start..start + n] laid over it. */
  ghost predicate Overlaid(d: Disk, d': Disk, L: BlockLength, plain: seq<Byte>, start: nat, n: nat)
    requires 0 < n ==> start + n <= |plain|
  {
    forall i: nat :: At(d', L, i) == if start <= i < start + n then Some(plain[i]) else At(d, L, i)
  }

  /** Writing plaintext where everything before it in the block is there already leaves no hole. */
  lemma FaithfulWrite(d: Disk, L: BlockLength, plain: seq<Byte>, start: nat, n: nat)
    requires Faithful(d, L, plain) && (0 < n ==> start + n <= |plain|)
    requires forall i: nat :: start - Rem(start, L) <= i < start ==> At(d, L, i) != None
    ensures var d' := Written(d, L, start, if n == 0 then [] else plain[start..start + n]);
            Overlaid(d, d', L, plain, start, n) && Faithful(d', L, plain)
  {
    hide Written, Quot, Rem, At;
    var data := if n == 0 then [] else plain[start..start + n];
    forall i: nat
      ensures At(Written(d, L, start, data), L, i) == if start <= i < start + n then Some(plain[i]) else At(d, L, i)
    {
      WrittenIsFlat(d, L, start, data, i);
      if i < start {
        BlockOrder(i, start, L);
      }
    }
  }

  /** After a download, wherever it stops: the delivered bytes of the block, the rest as before, every byte right. */
  lemma FetchView(env: Env, plain: seq<Byte>, s: Local, off: nat, m: Match)
    requires Faithful(s.files, env.L, plain) && Holding(env, plain, m.md) && Sound(env, m.md, off)
    ensures var start := BlockStart(off, env.L);
            var n := Delivered(m.transfer, |Clip(plain, start, start + env.L)|);
            var d' := Fetch(env, s, off, m).files;
            && (0 < n ==> start + n <= |plain|)
            && Overlaid(s.files, d', env.L, plain, start, n)
            && (Quot(off, env.L) in d' <==> 0 < n || Quot(off, env.L) in s.files)
            && (n == 0 ==> d' == s.files)
            && Faithful(d', env.L, plain)
  {
    hide Faithful, FetchFiles, FetchError, Quot, Rem, CalculateBlockRange, BlockStart, Holding, Sound;
    hide Delivered, Clip, At, Overlaid;
    var start := BlockStart(off, env.L);
    var block := Clip(plain, start, start + env.L);
    var n := Delivered(m.transfer, |block|);
    FetchDelivers(env, plain, s.files, m.md, off, m.transfer);
    ClipPrefix(plain, start, start + env.L, n);
    FaithfulWrite(s.files, env.L, plain, start, n);
    WrittenBlocks(s.files, env.L, start, block[..n], Quot(off, env.L));
    if 0 < n {
      BlockOrder(start, start + n - 1, env.L);
    }
  }

  /** Losing block files makes no byte wrong. */
  lemma FewerFiles(d: Disk, L: BlockLength, plain: seq<Byte>, gone: set<nat>)
    requires Faithful(d, L, plain)
    ensures Faithful(d - gone, L, plain)
  {
    hide Quot, Rem;
    forall i: nat | At(d - gone, L, i) != None ensures i < |plain| && At(d - gone, L, i) == Some(plain[i]) {
      assert At(d, L, i) == At(d - gone, L, i);
    }
  }

  /** The rows a lookup may return while plain is the media: faithful archives, within the limits. */
  predicate Usable(env: Env, plain: seq<Byte>, off: nat, m: Match) {
    m.md.archiveId.Id? ==> Holding(env, plain, m.md) && Sound(env, m.md, off)
  }

  /** Other readers download from such rows only. */
  predicate Harmless(env: Env, plain: seq<Byte>, o: Other) {
    o.Ended? ==> o.row.md.archiveId.Id? && Usable(env, plain, o.off, o.row)
  }

  lemma {:induction false} RefillFaithful(env: Env, plain: seq<Byte>, s: Local, off: nat, matches: seq<Match>)
    requires Faithful(s.files, env.L, plain) && forall m :: m in matches ==> Usable(env, plain, off, m)
    ensures Faithful(Refill(env, s, off, matches).0.files, env.L, plain)
    decreases |matches|
  {
    hide Faithful, Fetch, Holding, Sound, FetchError;
    if matches == [] {
    } else if matches[0].md.archiveId.Id? {
      assert Usable(env, plain, off, matches[0]);
      FetchView(env, plain, s, off, matches[0]);
      RefillFaithful(env, plain, Fetch(env, s, off, matches[0]), off, matches[1..]);
    } else {
      RefillFaithful(env, plain, s, off, matches[1..]);
    }
  }

  lemma {:induction false} WaitedFaithful(env: Env, plain: seq<Byte>, s: Local, others: seq<Other>)
    requires Faithful(s.files, env.L, plain)
    requires forall o :: o in others ==> Harmless(env, plain, o)
    ensures Faithful(Waited(env, s, others).files, env.L, plain)
    decreases |others|
  {
    hide Faithful, Fetch, Holding, Sound;
    if others == [] {
    } else {
      assert Harmless(env, plain, others[0]);
      match others[0] {
        case Ended(off, row) => FetchView(env, plain, s, off, row);
        case Unlinked(b) => FewerFiles(s.files, env.L, plain, {b});
      }
      WaitedFaithful(env, plain, Passed(env, s, others[0]), others[1..]);
    }
  }

  /** The bytes a read returned are the plaintext bytes of its range. */
  predicate Right(plain: seq<Byte>, off: nat, got: seq<Byte>) {
    got != [] ==> off + |got| <= |plain| && got == plain[off..off + |got|]
  }

  lemma ReadRight(d: Disk, L: BlockLength, plain: seq<Byte>, off: nat, want: nat)
    requires Faithful(d, L, plain)
    ensures Right(plain, off, ReadBytes(d, L, off, want))
  {
    hide At;
    ReadBytesReads(d, L, off, want);
    var got := ReadBytes(d, L, off, want);
    forall j | off <= j < off + |got| ensures j < |plain| && got[j - off] == plain[j] {
      assert At(d, L, j) == Some(got[j - off]);
    }
    if got != [] {
      assert At(d, L, off + |got| - 1) == Some(got[|got| - 1]);
    }
  }

  /** Every read leaves the disk faithful and returns only right bytes, whatever failed on the way. */
  lemma ReadThroughRight(env: Env, plain: seq<Byte>, s: Local, off: nat, want: nat,
                         others: seq<Other>, matches: seq<Match>, queryFails: bool)
    requires Faithful(s.files, env.L, plain)
    requires forall o :: o in others ==> Harmless(env, plain, o)
    requires forall m :: m in matches ==> Usable(env, plain, off, m)
    ensures var r := ReadThrough(env, s, off, want, others, matches, queryFails);
            Faithful(r.local.files, env.L, plain) && Right(plain, off, r.got)
  {
    hide Faithful, Waited, Refill, Right, Usable, Harmless, ReadBytes, ReadError;
    var w := Waited(env, s, others);
    var r := Refill(env, w, off, matches).0;
    WaitedFaithful(env, plain, s, others);
    RefillFaithful(env, plain, w, off, matches);
    ReadRight(s.files, env.L, plain, off, want);
    ReadRight(w.files, env.L, plain, off, want);
    ReadRight(r.files, env.L, plain, off, want);
  }

  /** Everything that happens to one media's block files, one event at a time; a reclaim may fail half way. */
  datatype Event =
    | Read(off: nat, want: nat, others: seq<Other>, matches: seq<Match>, queryFails: bool)
    | Reclaim(gone: set<nat>)

  function Served(env: Env, s: Local, e: Event): Outcome
    requires e.Read?
  {
    ReadThrough(env, s, e.off, e.want, e.others, e.matches, e.queryFails)
  }

  function Step(env: Env, s: Local, e: Event): Local {
    match e
    case Read(_, _, _, _, _) => Served(env, s, e).local
    case Reclaim(gone) => s.(files := s.files - gone)
  }

  function Run(env: Env, s: Local, events: seq<Event>): Local
    decreases |events|
  {
    if events == [] then s else Run(env, Step(env, s, events[0]), events[1..])
  }

  predicate Allowed(env: Env, plain: seq<Byte>, e: Event) {
    e.Read? ==>
      && (forall o :: o in e.others ==> Harmless(env, plain, o))
      && (forall m :: m in e.matches ==> Usable(env, plain, e.off, m))
  }

  lemma {:induction false} RunFaithful(env: Env, plain: seq<Byte>, s: Local, events: seq<Event>)
    requires Faithful(s.files, env.L, plain) && forall e :: e in events ==> Allowed(env, plain, e)
    ensures Faithful(Run(env, s, events).files, env.L, plain)
    decreases |events|
  {
    hide Faithful, ReadThrough, Usable;
    if events == [] {
    } else {
      assert Allowed(env, plain, events[0]);
      match events[0] {
        case Read(off, want, others, matches, queryFails) =>
          ReadThroughRight(env, plain, s, off, want, others, matches, queryFails);
        case Reclaim(gone) =>
          FewerFiles(s.files, env.L, plain, gone);
      }
      RunFaithful(env, plain, Step(env, s, events[0]), events[1..]);
    }
  }

  lemma EmptyFaithful(L: BlockLength, plain: seq<Byte>)
    ensures Faithful(map[], L, plain)
  {
  }

  /** Over every run from an empty directory: every byte a read returns is the plaintext byte of its position. */
  lemma NeverAWrongByte(env: Env, plain: seq<Byte>, events: seq<Event>, last: Event)
    requires last.Read? && forall e :: e in events + [last] ==> Allowed(env, plain, e)
    ensures var s := Run(env, Local(map[], false), events);
            Right(plain, last.off, Served(env, s, last).got)
  {
    hide Faithful, ReadThrough, Usable, Run, Right;
    assert last in events + [last];
    EmptyFaithful(env.L, plain);
    RunFaithful(env, plain, Local(map[], false), events);
    var s := Run(env, Local(map[], false), events);
    ReadThroughRight(env, plain, s, last.off, last.want, last.others, last.matches, last.queryFails);
  }

  /** The latch never opens: reads that begin after it was set add nothing to the disk. */
  lemma {:induction false} LatchedRun(env: Env, s: Local, events: seq<Event>)
    requires s.blocked
    ensures var s' := Run(env, s, events);
            s'.blocked && forall b :: b in s'.files ==> b in s.files && s'.files[b] == s.files[b]
    decreases |events|
  {
    hide ReadBytes, ReadError, Refill, Waited;
    if events == [] {
    } else {
      LatchedRun(env, Step(env, s, events[0]), events[1..]);
    }
  }

  // ----- exactly when a read succeeds ---------------------------------------

  /** A range that lies in one block. */
  predicate InBlock(L: BlockLength, off: nat, want: nat) {
    0 < want && Rem(off, L) + want <= L
  }

  /** A read of positions that are all readable succeeds; one that passes an unreadable one does not. */
  lemma ReadErrorIs(d: Disk, L: BlockLength, off: nat, want: nat)
    ensures ReadError(d, L, off, want) == None <==> forall j :: off <= j < off + want ==> At(d, L, j) != None
  {
    hide At;
    ReadBytesReads(d, L, off, want);
    var got := ReadBytes(d, L, off, want);
    if ReadError(d, L, off, want) == None {
      forall j | off <= j < off + want ensures At(d, L, j) != None {
        assert At(d, L, j) == Some(got[j - off]);
      }
    }
  }

  /** One archived row whose transfer completes, no one else at work. */
  function Sole(env: Env, s: Local, off: nat, want: nat, m: Match): Outcome {
    ReadThrough(env, s, off, want, [], [m], false)
  }

  lemma SoleDownloads(env: Env, s: Local, off: nat, want: nat, m: Match)
    requires Plain(env, s, off, want).err == Some(NotExist) && !s.blocked
    requires m.md.archiveId.Id? && FetchError(env, m.md, m.transfer) == None
    ensures Sole(env, s, off, want, m) == Plain(env, Fetch(env, s, off, m), off, want)
  {
    hide FetchError, ReadBytes, ReadError, Fetch;
    assert Waited(env, s, []) == s;
    assert [m][1..] == [];
    assert Refill(env, s, off, [m]) == Refill(env, Fetch(env, s, off, m), off, []);
  }

  /** Only an absent block file leads to a download. */
  lemma OtherErrorsReturn(env: Env, s: Local, off: nat, want: nat, m: Match)
    requires Plain(env, s, off, want).err != Some(NotExist)
    ensures Sole(env, s, off, want, m) == Plain(env, s, off, want)
  {
  }

  /** A download that completes makes an in-block read succeed exactly when the range lies inside the media. */
  lemma DownloadSucceedsExactly(env: Env, plain: seq<Byte>, s: Local, off: nat, want: nat, m: Match)
    requires Faithful(s.files, env.L, plain) && InBlock(env.L, off, want)
    requires Plain(env, s, off, want).err == Some(NotExist) && !s.blocked
    requires Holding(env, plain, m.md) && m.md.archiveId.Id? && Sound(env, m.md, off) && m.transfer.end.Complete?
    ensures var r := Sole(env, s, off, want, m);
            && (r.err == None <==> off + want <= |plain|)
            && (r.err == None ==> r.got == plain[off..off + want])
  {
    hide At, Quot, Rem, Fetch, Sound, BlockStart, ReadBytes, Sole, Clip;
    SoleDownloads(env, s, off, want, m);
    FetchView(env, plain, s, off, m);
    var s' := Fetch(env, s, off, m);
    ReadErrorIs(s'.files, env.L, off, want);
    ReadRight(s'.files, env.L, plain, off, want);
    if off + want <= |plain| {
      assert forall j :: off <= j < off + want ==> At(s'.files, env.L, j) == Some(plain[j]);
    } else {
      assert At(s'.files, env.L, off + want - 1) == None;
    }
  }

  /** How an in-block read fails: absent block or short block, the same for the whole range. */
  lemma InBlockError(env: Env, s: Local, off: nat, want: nat)
    requires InBlock(env.L, off, want)
    ensures var e := Plain(env, s, off, want).err;
            e == None || e == Some(if Quot(off, env.L) in s.files then EndOfFile else NotExist)
  {
    hide At, ReadBytes;
    ReadBytesReads(s.files, env.L, off, want);
    var n := |ReadBytes(s.files, env.L, off, want)|;
    if n < want {
      SameBlock(off, env.L, n);
    }
  }

  /** The positions of a block whose file is absent are unreadable. */
  lemma AbsentBlock(d: Disk, L: BlockLength, off: nat, want: nat)
    requires InBlock(L, off, want) && Quot(off, L) !in d
    ensures forall j :: off <= j < off + want ==> At(d, L, j) == None
  {
    forall j | off <= j < off + want ensures At(d, L, j) == None {
      SameBlock(off, L, j - off);
    }
  }

  lemma SpoiledError(env: Env, plain: seq<Byte>, s: Local, s1: Local, start: nat, n: nat, off: nat, want: nat)
    requires InBlock(env.L, off, want) && start <= off && Quot(off, env.L) !in s.files
    requires (0 < n ==> start + n <= |plain|) && Overlaid(s.files, s1.files, env.L, plain, start, n)
    requires Quot(off, env.L) in s1.files <==> 0 < n
    ensures Plain(env, s1, off, want).err
            == if n == 0 then Some(NotExist) else if off + want <= start + n then None else Some(EndOfFile)
  {
    hide At, Quot, Rem, ReadBytes, ReadError;
    InBlockError(env, s1, off, want);
    AbsentBlock(s.files, env.L, off, want);
    ReadErrorIs(s1.files, env.L, off, want);
    assert start + n < off + want ==> At(s1.files, env.L, off + want - 1) == None;
  }

  lemma FailedKeepsLatch(env: Env, s: Local, off: nat, m: Match)
    requires m.transfer.end.Failed?
    ensures Fetch(env, s, off, m).blocked == s.blocked
  {
  }

  /** A transfer that stops after n bytes of an absent block spoils it unless n is 0: afterwards even a
      working archive serves a range of that block exactly when nothing, or the whole range, had arrived. */
  lemma CutShortSpoilsExactly(env: Env, plain: seq<Byte>, s: Local, first: nat, cut: Match,
                              off: nat, want: nat, m: Match)
    requires Faithful(s.files, env.L, plain) && Quot(first, env.L) !in s.files && !s.blocked
    requires Holding(env, plain, cut.md) && Sound(env, cut.md, first) && cut.transfer.end.Failed?
    requires InBlock(env.L, off, want) && Quot(off, env.L) == Quot(first, env.L) && off + want <= |plain|
    requires Holding(env, plain, m.md) && m.md.archiveId.Id? && Sound(env, m.md, off) && m.transfer.end.Complete?
    ensures var start := BlockStart(first, env.L);
            var n := Delivered(cut.transfer, |Clip(plain, start, start + env.L)|);
            Sole(env, Fetch(env, s, first, cut), off, want, m).err == None <==> n == 0 || off + want <= start + n
  {
    hide At, Quot, Rem, Fetch, Sound, Holding, InBlock, BlockStart, Plain, Clip, Delivered, Faithful, Sole, Overlaid;
    var start := BlockStart(first, env.L);
    var n := Delivered(cut.transfer, |Clip(plain, start, start + env.L)|);
    var s1 := Fetch(env, s, first, cut);
    FetchView(env, plain, s, first, cut);
    FailedKeepsLatch(env, s, first, cut);
    if off <= first { BlockOrder(off, first, env.L); } else { BlockOrder(first, off, env.L); }
    SpoiledError(env, plain, s, s1, start, n, off, want);
    if n == 0 {
      DownloadSucceedsExactly(env, plain, s1, off, want, m);
    } else {
      OtherErrorsReturn(env, s1, off, want, m);
    }
  }

  // ----- archive, reclaim, read ---------------------------------------------

  /** The whole trip. Archive uploads the readable prefix of the media; once the block files are gone, an
      in-block read whose download completes returns the original bytes exactly when the prefix covers it. */
  lemma ArchiveReclaimRead(env: Env, d: Disk, md: Metadata, n: nat, cuts: seq<nat>, off: nat, want: nat)
    requires md.diskOffset == 0 && Sound(env, md, off) && InBlock(env.L, off, want)
    ensures var plain := ReadBytes(d, env.L, 0, md.bytes);
            var env' := env.(objects := env.objects[Id(n) := Archived(env.P, env.L, d, md)]);
            var m := Match(md.(archiveId := Id(n)), Transfer(cuts, Complete));
            var r := Sole(env', Local(map[], false), off, want, m);
            && (r.err == None <==> off + want <= |plain|)
            && (r.err == None ==> r.got == ReadBytes(d, env.L, off, want) && |r.got| == want)
  {
    hide At, Quot, Rem, ReadBytes, BlockStart, Sole, Xor, Random;
    var plain := ReadBytes(d, env.L, 0, md.bytes);
    var env' := env.(objects := env.objects[Id(n) := Archived(env.P, env.L, d, md)]);
    var m := Match(md.(archiveId := Id(n)), Transfer(cuts, Complete));
    var s := Local(map[], false);
    ReadBytesReads(d, env.L, 0, md.bytes);
    EmptyFaithful(env.L, plain);
    AbsentBlock(map[], env.L, off, want);
    ReadErrorIs(map[], env.L, off, want);
    InBlockError(env', s, off, want);
    assert At(map[], env.L, off) == None;
    DownloadSucceedsExactly(env', plain, s, off, want, m);
    if off + want <= |plain| {
      ReadsExactly(d, env.L, off, want, plain[off..off + want], None);
    }
  }

  /** Inside the media, the second cache serves and stores what the first one does; only the errors differ. */
  lemma ReaderAtAgrees(env: Env, s: Local, md: Metadata, off: nat, want: nat, others: seq<Other>, t: Transfer)
    requires env.L == 33_554_432 && md.diskOffset == 0 && off < md.bytes && md.bytes + env.L < TWO_64
    requires md.archiveId.Id? && !s.blocked
    ensures var a := ReaderAt(env, s, md, off, want, others, t);
            var b := ReadThrough(env, s, off, want, others, [Match(md, t)], false);
            a.local.files == b.local.files && a.got == b.got && (a.err == None <==> b.err == None)
  {
    hide Waited, Quot, Rem, FetchFiles, FetchError, CalculateBlockRange, ModuloRange, BlockStart, ReadBytes, ReadError;
    FormulasAgreeExactly(env.L, off, md.bytes);
    var w := Waited(env, s, others);
    var m := Match(md, t);
    assert [m][1..] == [];
    assert Refill(env, w, off, [m]).0 == Fetch(env, w, off, m);
    assert Refill(env, w, off, [m]).1 == FetchError(env, md, t);
  }
}
