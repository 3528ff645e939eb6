/** The steps of Interleaving.dfy against the sequential read of Retrieval.dfy: what a reader returns, whatever
    runs beside it, is what ReadThrough returns given the downloads that ended and the files that were removed
    while it waited for the mutex; and a reader alone comes to exactly that. */
module Sequential {
  import opened Common
  import opened BlockStore
  import opened Ranges
  import opened Retrieval
  import opened Interleaving
  import opened DoubleCheck
  import opened Counts

  /** md is the one archived row of the media, within the limits of the arithmetic. */
  ghost predicate Served(c: Config, env: Env, md: Metadata) {
    && env.L == c.L && md.archiveId.Id? && Holding(env, c.plain, md)
    && forall off: nat :: off <= md.bytes ==> Sound(env, md, off)
  }

  /** The lookup finds the row for every reader's offset. */
  ghost predicate Matched(md: Metadata, readers: seq<Reader>) {
    forall t :: 0 <= t < |readers| ==> readers[t].off <= md.bytes
  }

  lemma MatchedStays(c: Config, md: Metadata, s: State, a: Action)
    requires Matched(md, s.readers) && Enabled(c, s, a)
    ensures Matched(md, Apply(c, s, a).readers)
  {
    hide Apply, Enabled;
    SameLength(c, s, a);
    forall t | 0 <= t < |Apply(c, s, a).readers| ensures Apply(c, s, a).readers[t].off <= md.bytes {
      SameRange(c, s, t, a);
    }
  }

  /** The first k bytes of the block holding off. */
  function Piece(c: Config, off: nat, k: nat): seq<Byte> {
    if k <= BlockBytes(c, off) then Block(c, off)[..k] else []
  }

  /** The directory after the first k bytes of a block were written. */
  function Begun(c: Config, files: Disk, off: nat, k: nat): Disk {
    Written(files, c.L, Start(c, off), Piece(c, off, k))
  }

  lemma FetchIs(c: Config, env: Env, md: Metadata, w: Local, off: nat, tr: Transfer)
    requires Served(c, env, md) && off <= md.bytes
    ensures Fetch(env, w, off, Match(md, tr)).files == Begun(c, w.files, off, Delivered(tr, BlockBytes(c, off)))
  {
    hide Written, FetchFiles, Quot, Rem, Sound, Holding, CalculateBlockRange, BlockStart, Clip, Delivered;
    assert Sound(env, md, off);
    FetchDelivers(env, c.plain, w.files, md, off, tr);
  }

  lemma PieceFits(c: Config, off: nat, k: nat)
    ensures Rem(Start(c, off), c.L) + |Piece(c, off, k)| <= c.L
    ensures Quot(Start(c, off), c.L) == Quot(off, c.L)
  {
  }

  lemma NothingBegun(c: Config, files: Disk, off: nat)
    ensures Begun(c, files, off, 0) == files
  {
  }

  lemma PieceIs(c: Config, off: nat, k: nat)
    requires k <= BlockBytes(c, off) && 0 < BlockBytes(c, off)
    ensures Start(c, off) + k <= |c.plain| && Piece(c, off, k) == c.plain[Start(c, off)..Start(c, off) + k]
  {
    hide BlockStart;
  }

  /** The next piece of a download continues what was begun. */
  lemma BegunGrows(c: Config, files: Disk, off: nat, k: nat, n: nat)
    requires 0 < n && k + n <= BlockBytes(c, off)
    ensures var at := Start(c, off) + k;
            at + n <= |c.plain|
            && Written(Begun(c, files, off, k), c.L, at, c.plain[at..at + n]) == Begun(c, files, off, k + n)
  {
    hide Written, Start, Quot, Rem, Piece, BlockBytes;
    var start, at := Start(c, off), Start(c, off) + k;
    PieceIs(c, off, k);
    PieceIs(c, off, k + n);
    assert c.plain[start..at] + c.plain[at..at + n] == c.plain[start..at + n];
    WrittenConcat(files, c.L, start, Piece(c, off, k), c.plain[at..at + n]);
  }

  /** What has already landed is begun, whatever the directory was. */
  lemma AlreadyBegun(c: Config, files: Disk, off: nat, k: nat)
    requires Faithful(files, c.L, c.plain) && k <= BlockBytes(c, off) && Present(c, files, off, k)
    ensures Begun(c, files, off, k) == files
  {
    hide Written, At, Quot, Rem, Start, Piece, BlockBytes;
    PieceFits(c, off, k);
    if k == 0 {
      NothingBegun(c, files, off);
      return;
    }
    PieceIs(c, off, k);
    forall j | Start(c, off) <= j < Start(c, off) + k
      ensures At(files, c.L, j) == Some(Piece(c, off, k)[j - Start(c, off)])
    {
      assert At(files, c.L, j) != None;
      assert Piece(c, off, k)[j - Start(c, off)] == c.plain[j];
    }
    Rewritten(files, c.L, Start(c, off), Piece(c, off, k));
  }

  // ----- the sequential shadow ----------------------------------------------

  /** files is the directory as it was before the download in flight, if there is one. */
  predicate Shadow(c: Config, s: State, files: Disk) {
    s.files ==
    if s.owner != None && s.owner.value < |s.readers| && s.readers[s.owner.value].pc.Fetching?
    then Begun(c, files, s.readers[s.owner.value].off, s.readers[s.owner.value].pc.k)
    else files
  }

  /** What a step is to a reader that waits. */
  function EndedBy(c: Config, md: Metadata, s: State, a: Action): seq<Other>
    requires Enabled(c, s, a)
  {
    match a
    case Succeed(u) => [Ended(s.readers[u].off, Match(md, Transfer([], Complete)))]
    case Fail(u, unrecoverable) =>
      var r := s.readers[u];
      [Ended(r.off, Match(md, Transfer([r.pc.k], if unrecoverable then Unrecoverable else Failed)))]
    case Unlink(b) => [Unlinked(b)]
    case _ => []
  }

  /** What happens until reader t looks again with the mutex held, or is done before. */
  function Meanwhile(c: Config, md: Metadata, s: State, t: nat, actions: seq<Action>): seq<Other>
    decreases |actions|
  {
    if actions == [] || !Enabled(c, s, actions[0]) || !BeforeLook(s, t) then []
    else EndedBy(c, md, s, actions[0]) + Meanwhile(c, md, Apply(c, s, actions[0]), t, actions[1..])
  }

  predicate BeforeLook(s: State, t: nat) {
    t < |s.readers| && var pc := s.readers[t].pc; pc.First? || pc.Missed? || pc.Waiting? || pc.Locked?
  }

  /** The file that is removed, if one is, is not one that a download has begun. */
  ghost predicate Clear(c: Config, s: State, a: Action) {
    a.Unlink? ==> forall t :: 0 <= t < |s.readers| ==>
      var r := s.readers[t]; r.pc.Fetching? && Quot(r.off, c.L) == a.b ==> r.pc.k == 0
  }

  lemma {:induction false} WaitedAppend(env: Env, w: Local, a: seq<Other>, b: seq<Other>)
    ensures Waited(env, w, a + b) == Waited(env, Waited(env, w, a), b)
    decreases |a|
  {
    hide Passed;
    if a == [] {
      assert a + b == b;
    } else {
      assert (a + b)[1..] == a[1..] + b;
      WaitedAppend(env, Passed(env, w, a[0]), a[1..], b);
    }
  }

  lemma WaitedOne(env: Env, w: Local, o: Other)
    ensures Waited(env, w, [o]) == Passed(env, w, o) && Waited(env, w, []) == w
  {
    hide Passed;
    assert [o][1..] == [];
  }

  lemma DeliveredIs(k: nat, len: nat, end: Ending)
    requires k <= len
    ensures Delivered(Transfer([k], end), len) == if end.Complete? then len else k
  {
    assert [k][1..] == [];
    assert Sum([k]) == k + Sum([]);
  }

  /** A download's end: the files it wrote are those of one sequential download. */
  lemma EndShadow(c: Config, env: Env, md: Metadata, s: State, w: Local, a: Action)
    requires Served(c, env, md) && Basic(c, s) && Enabled(c, s, a) && (a.Succeed? || a.Fail?)
    requires Shadow(c, s, w.files) && Matched(md, s.readers)
    ensures Shadow(c, Apply(c, s, a), Waited(env, w, EndedBy(c, md, s, a)).files)
  {
    hide Begun, Served, Fetch, BlockBytes, Fits, Delivered;
    var r := s.readers[a.t];
    assert Fits(c, r) && MutexHeld(s, a.t);
    FitsInside(c, r);
    var o := EndedBy(c, md, s, a)[0];
    WaitedOne(env, w, o);
    FetchIs(c, env, md, w, r.off, o.row.transfer);
    if a.Succeed? {
      WholeDelivered(o.row.transfer, BlockBytes(c, r.off));
    } else {
      DeliveredIs(r.pc.k, BlockBytes(c, r.off), o.row.transfer.end);
    }
  }

  lemma WholeDelivered(t: Transfer, len: nat)
    requires t.end.Complete?
    ensures Delivered(t, len) == len
  {
  }

  lemma FitsInside(c: Config, r: Reader)
    requires Fits(c, r)
    ensures r.pc.Fetching? ==> r.pc.k <= BlockBytes(c, r.off)
  {
  }

  lemma UnlinkShadow(c: Config, env: Env, md: Metadata, s: State, w: Local, b: nat)
    requires Basic(c, s) && Enabled(c, s, Unlink(b)) && Clear(c, s, Unlink(b)) && Shadow(c, s, w.files)
    ensures Shadow(c, Apply(c, s, Unlink(b)), Waited(env, w, EndedBy(c, md, s, Unlink(b))).files)
  {
    hide Begun, Quot, Fits;
    WaitedOne(env, w, Unlinked(b));
    if s.owner != None && s.readers[s.owner.value].pc.Fetching? {
      var r := s.readers[s.owner.value];
      NothingBegun(c, w.files, r.off);
      NothingBegun(c, w.files - {b}, r.off);
      if 0 < r.pc.k {
        BegunBeside(c, w.files, r.off, r.pc.k, b);
      }
    }
  }

  lemma BegunBeside(c: Config, files: Disk, off: nat, k: nat, b: nat)
    requires Quot(off, c.L) != b
    ensures Begun(c, files - {b}, off, k) == Begun(c, files, off, k) - {b}
  {
    hide Written, Quot, Rem, Piece, BlockStart;
    PieceFits(c, off, k);
    WriteBesideUnlink(files, c.L, Start(c, off), Piece(c, off, k), b);
  }

  lemma DeliverShadow(c: Config, s: State, files: Disk, t: nat, n: nat)
    requires Basic(c, s) && Enabled(c, s, Deliver(t, n)) && Shadow(c, s, files)
    ensures Shadow(c, Apply(c, s, Deliver(t, n)), files)
  {
    hide Begun, Written, BlockBytes, Fits, Start;
    assert MutexHeld(s, t);
    BegunGrows(c, files, s.readers[t].off, s.readers[t].pc.k, n);
  }

  lemma StepShadow(c: Config, env: Env, md: Metadata, s: State, w: Local, a: Action)
    requires Served(c, env, md) && Basic(c, s) && Enabled(c, s, a) && Clear(c, s, a)
    requires Shadow(c, s, w.files) && Matched(md, s.readers)
    ensures Shadow(c, Apply(c, s, a), Waited(env, w, EndedBy(c, md, s, a)).files)
  {
    hide Begun, Served, Clear, ReadBytes, ReadError, BlockBytes, Fits;
    if a.Succeed? || a.Fail? {
      EndShadow(c, env, md, s, w, a);
    } else if a.Unlink? {
      UnlinkShadow(c, env, md, s, w, a.b);
    } else {
      assert Waited(env, w, []) == w;
      if a.Deliver? {
        DeliverShadow(c, s, w.files, a.t, a.n);
      } else if ByReader(a) {
        assert MutexHeld(s, a.t);
        NothingBegun(c, w.files, s.readers[a.t].off);
      }
    }
  }

  // ----- one reader among many ----------------------------------------------

  /** The reader has looked again and not found its bytes. */
  predicate AfterLook(pc: Pc) {
    pc.Fetching? || pc.Fetched?
  }

  /** The blocks that a range touches, from that of its offset on. */
  predicate Touches(c: Config, r: Reader, b: nat) {
    Quot(r.off, c.L) <= b <= Quot(if r.want == 0 then r.off else r.off + r.want - 1, c.L)
  }

  /** Until reader t is done: no removal of a file that a download has begun, and after t has looked again no
      removal of a file that its range touches. */
  ghost predicate Calm(c: Config, s: State, t: nat, actions: seq<Action>)
    decreases |actions|
  {
    t < |s.readers| &&
    (s.readers[t].pc.Done? || actions == [] ||
     (&& Enabled(c, s, actions[0]) && Clear(c, s, actions[0])
      && (actions[0].Unlink? && AfterLook(s.readers[t].pc) ==> !Touches(c, s.readers[t], actions[0].b))
      && Calm(c, Apply(c, s, actions[0]), t, actions[1..])))
  }

  /** The latch as t finds it at its check. */
  function LatchAt(c: Config, s: State, t: nat, actions: seq<Action>): bool
    decreases |actions|
  {
    if actions == [] || !Enabled(c, s, actions[0]) then false
    else if actions[0] == CheckLatch(t) then s.blocked
    else LatchAt(c, Apply(c, s, actions[0]), t, actions[1..])
  }

  /** The row that t's own lookup gave, with how its download went; none if t came to no download's end. */
  function RowsOf(c: Config, md: Metadata, s: State, t: nat, actions: seq<Action>): seq<Match>
    decreases |actions|
  {
    if actions == [] || !Enabled(c, s, actions[0]) then []
    else if (actions[0].Succeed? || actions[0].Fail?) && actions[0].t == t then [EndedBy(c, md, s, actions[0])[0].row]
    else RowsOf(c, md, Apply(c, s, actions[0]), t, actions[1..])
  }

  /** r returned what the sequential read of the directory files returns. */
  ghost predicate Explains(env: Env, files: Disk, r: Reader, latch: bool, others: seq<Other>, rows: seq<Match>,
                           queryFails: bool)
  {
    r.pc.Done? &&
    var o := ReadThrough(env, Local(files, latch), r.off, r.want, others, rows, queryFails);
    r.pc.got == o.got && r.pc.err == o.err
  }

  /** What the sequential read finds when it looks again. */
  function Found(env: Env, files: Disk, others: seq<Other>): Local {
    Waited(env, Local(files, false), others)
  }

  /** The reader missed its block and has not looked again yet. */
  ghost predicate Queuing(c: Config, env: Env, s: State, t: nat, files: Disk, others: seq<Other>)
    requires t < |s.readers|
  {
    var r := s.readers[t];
    && (r.pc.Missed? || r.pc.Waiting? || r.pc.Locked?)
    && ReadError(files, c.L, r.off, r.want) == Some(NotExist)
    && (r.pc.Missed? ==> r.pc.seen == ReadBytes(files, c.L, r.off, r.want))
    && Shadow(c, s, Found(env, files, others).files)
  }

  // ----- files that a range does not touch ----------------------------------

  predicate SameFile(d: Disk, d': Disk, b: nat) {
    (b in d <==> b in d') && (b in d ==> d[b] == d'[b])
  }

  /** The two directories have the same files where r reads. */
  ghost predicate Agree(c: Config, r: Reader, d: Disk, d': Disk) {
    forall b :: Touches(c, r, b) ==> SameFile(d, d', b)
  }

  lemma AgreeSelf(c: Config, r: Reader, d: Disk)
    ensures Agree(c, r, d, d)
  {
  }

  lemma ReadAgrees(c: Config, r: Reader, d: Disk, d': Disk)
    requires Agree(c, r, d, d')
    ensures ReadBytes(d, c.L, r.off, r.want) == ReadBytes(d', c.L, r.off, r.want)
    ensures ReadError(d, c.L, r.off, r.want) == ReadError(d', c.L, r.off, r.want)
  {
    hide ReadBytes, ReadError, Quot, Rem;
    forall j: nat | r.off <= j < r.off + r.want
      ensures At(d, c.L, j) == At(d', c.L, j) && (Quot(j, c.L) in d <==> Quot(j, c.L) in d')
    {
      BlockOrder(r.off, j, c.L);
      BlockOrder(j, r.off + r.want - 1, c.L);
      assert Touches(c, r, Quot(j, c.L)) && SameFile(d, d', Quot(j, c.L));
    }
    hide At;
    var got, e := ReadBytes(d, c.L, r.off, r.want), ReadError(d, c.L, r.off, r.want);
    ReadBytesReads(d, c.L, r.off, r.want);
    assert Reads(d', c.L, r.off, r.want, got, e);
    ReadsExactly(d', c.L, r.off, r.want, got, e);
  }

  /** The same write inside r's block keeps the agreement. */
  lemma AgreeWrite(c: Config, r: Reader, d: Disk, d': Disk, at: nat, p: seq<Byte>)
    requires Agree(c, r, d, d') && p != [] && Rem(at, c.L) + |p| <= c.L && Quot(at, c.L) == Quot(r.off, c.L)
    ensures Agree(c, r, Written(d, c.L, at, p), Written(d', c.L, at, p))
  {
    hide Quot, Rem, Written, Patch;
    WrittenInBlock(d, c.L, at, p);
    WrittenInBlock(d', c.L, at, p);
    OwnBlock(c, r);
    assert SameFile(d, d', Quot(at, c.L));
    forall b | Touches(c, r, b) ensures SameFile(ChunkWritten(d, c.L, at, p), ChunkWritten(d', c.L, at, p), b) {
      assert SameFile(d, d', b);
    }
  }

  lemma OwnBlock(c: Config, r: Reader)
    ensures Touches(c, r, Quot(r.off, c.L))
  {
    hide Quot;
    BlockOrder(r.off, if r.want == 0 then r.off else r.off + r.want - 1, c.L);
  }

  /** Removing a file elsewhere keeps the agreement. */
  lemma AgreeUnlink(c: Config, r: Reader, d: Disk, d': Disk, b: nat)
    requires Agree(c, r, d, d') && !Touches(c, r, b)
    ensures Agree(c, r, d - {b}, d')
  {
    hide Touches;
    forall x | Touches(c, r, x) ensures SameFile(d - {b}, d', x) {
      assert SameFile(d, d', x);
    }
  }

  // ----- after the second look ----------------------------------------------

  /** The reader looked again in vain: where it reads, the files are its own download on top of what it found. */
  ghost predicate Works(c: Config, s: State, t: nat, found: Disk)
    requires t < |s.readers|
  {
    var r := s.readers[t];
    && AfterLook(r.pc)
    && r.pc.seen == ReadBytes(found, c.L, r.off, r.want) && Some(r.pc.why) == ReadError(found, c.L, r.off, r.want)
    && Agree(c, r, s.files, Begun(c, found, r.off, if r.pc.Fetching? then r.pc.k else BlockBytes(c, r.off)))
  }

  /** A done reader takes no more steps. */
  lemma {:induction false} DoneStays(c: Config, s: State, t: nat, actions: seq<Action>)
    requires t < |s.readers| && s.readers[t].pc.Done? && Exec(c, s, actions) != None
    ensures var s' := Exec(c, s, actions).value; t < |s'.readers| && s'.readers[t] == s.readers[t]
    ensures forall a :: a in actions && ByReader(a) ==> a.t != t
    decreases |actions|
  {
    hide Apply;
    if actions == [] {
    } else {
      SameRange(c, s, t, actions[0]);
      DoneStays(c, Apply(c, s, actions[0]), t, actions[1..]);
      assert actions == [actions[0]] + actions[1..];
    }
  }

  lemma {:induction false} NoRowsWithout(c: Config, md: Metadata, s: State, t: nat, actions: seq<Action>)
    requires forall a :: a in actions && ByReader(a) ==> a.t != t
    ensures RowsOf(c, md, s, t, actions) == [] && QueryFails(t) !in actions
    decreases |actions|
  {
    hide Apply, Enabled;
    if actions == [] {
    } else {
      assert actions[0] in actions;
      if Enabled(c, s, actions[0]) {
        NoRowsWithout(c, md, Apply(c, s, actions[0]), t, actions[1..]);
      }
    }
  }

  /** A reader past the check does not come to it again. */
  lemma {:induction false} NoLatchLater(c: Config, s: State, t: nat, actions: seq<Action>)
    requires t < |s.readers| && !s.readers[t].pc.First? && !s.readers[t].pc.Missed?
    ensures !LatchAt(c, s, t, actions)
    decreases |actions|
  {
    hide Apply;
    if actions == [] {
    } else if Enabled(c, s, actions[0]) {
      SameRange(c, s, t, actions[0]);
      PastCheck(c, s, t, actions[0]);
      NoLatchLater(c, Apply(c, s, actions[0]), t, actions[1..]);
    }
  }

  lemma PastCheck(c: Config, s: State, t: nat, a: Action)
    requires t < |s.readers| && !s.readers[t].pc.First? && !s.readers[t].pc.Missed? && Enabled(c, s, a)
    ensures a != CheckLatch(t)
    ensures var s' := Apply(c, s, a);
            t < |s'.readers| && !s'.readers[t].pc.First? && !s'.readers[t].pc.Missed?
  {
    hide ReadBytes, ReadError, Written, Start, Quot, Wins, BlockBytes;
    SameRange(c, s, t, a);
  }

  /** Somebody else's step, while t holds the mutex, removes at most a file. */
  lemma OthersKeepOut(c: Config, s: State, t: nat, a: Action)
    requires Basic(c, s) && Enabled(c, s, a) && t < |s.readers| && HoldsMutex(s.readers[t].pc)
    requires ByReader(a) ==> a.t != t
    ensures var s' := Apply(c, s, a);
            && s'.files == (if a.Unlink? then s.files - {a.b} else s.files)
            && t < |s'.readers| && s'.readers[t] == s.readers[t]
  {
    hide ReadBytes, ReadError, Written, Start, Quot, Wins, BlockBytes, Fits;
    SameRange(c, s, t, a);
    assert MutexHeld(s, t);
    if ByReader(a) {
      assert MutexHeld(s, a.t);
    }
  }

  lemma OthersWork(c: Config, s: State, t: nat, a: Action, found: Disk)
    requires Basic(c, s) && Enabled(c, s, a) && t < |s.readers| && Works(c, s, t, found)
    requires (ByReader(a) ==> a.t != t) && (a.Unlink? ==> !Touches(c, s.readers[t], a.b))
    ensures t < |Apply(c, s, a).readers| && Works(c, Apply(c, s, a), t, found)
  {
    hide Basic, Apply, Enabled, Touches, Agree, ReadBytes, ReadError, Begun, BlockBytes;
    OthersKeepOut(c, s, t, a);
    if a.Unlink? {
      var r := s.readers[t];
      AgreeUnlink(c, r, s.files, Begun(c, found, r.off, if r.pc.Fetching? then r.pc.k else BlockBytes(c, r.off)), a.b);
    }
  }

  /** What the sequential read returns once it has looked again in vain. */
  lemma ThroughRows(env: Env, files: Disk, off: nat, want: nat, others: seq<Other>, rows: seq<Match>, fails: bool)
    requires ReadError(files, env.L, off, want) == Some(NotExist)
    requires ReadError(Found(env, files, others).files, env.L, off, want) != None
    requires |rows| <= 1 && forall m :: m in rows ==> m.md.archiveId.Id? && m.md.archiveId in env.objects
    ensures var w := Found(env, files, others);
            var o := ReadThrough(env, Local(files, false), off, want, others, rows, fails);
            if rows != [] && !rows[0].transfer.end.Complete? then
              o == Outcome(Fetch(env, w, off, rows[0]), ReadBytes(w.files, env.L, off, want),
                           Some(Remote(rows[0].transfer.end.Unrecoverable?)))
            else if fails then
              o.got == ReadBytes(w.files, env.L, off, want) && o.err == ReadError(w.files, env.L, off, want)
              && o.local == (if rows == [] then w else Fetch(env, w, off, rows[0]))
            else o == Plain(env, if rows == [] then w else Fetch(env, w, off, rows[0]), off, want)
  {
    hide ReadBytes, ReadError, Fetch, Waited;
    var w := Found(env, files, others);
    if rows != [] {
      assert rows[0] in rows && rows[1..] == [];
      assert Refill(env, Fetch(env, w, off, rows[0]), off, []) == (Fetch(env, w, off, rows[0]), None);
    }
  }

  /** The reader's last step after its download: the re-read, or a lookup that fails after all. */
  lemma LastStep(c: Config, env: Env, md: Metadata, s: State, t: nat, a: Action, files: Disk, others: seq<Other>)
    requires Served(c, env, md) && Enabled(c, s, a) && ByReader(a) && a.t == t
    requires s.readers[t].off <= md.bytes && s.readers[t].pc.Fetched?
    requires Works(c, s, t, Found(env, files, others).files)
    requires ReadError(files, c.L, s.readers[t].off, s.readers[t].want) == Some(NotExist)
    ensures a == Reread(t) || a == QueryFails(t)
    ensures Explains(env, files, Apply(c, s, a).readers[t], false, others, [Match(md, Transfer([], Complete))],
                     a == QueryFails(t))
  {
    hide ReadBytes, ReadError, Fetch, Found, Begun, BlockBytes, Sound, ReadThrough, Delivered, Agree;
    var r := s.readers[t];
    var m := Match(md, Transfer([], Complete));
    ThroughRows(env, files, r.off, r.want, others, [m], a == QueryFails(t));
    FetchIs(c, env, md, Found(env, files, others), r.off, m.transfer);
    WholeDelivered(m.transfer, BlockBytes(c, r.off));
    ReadAgrees(c, r, s.files, Begun(c, Found(env, files, others).files, r.off, BlockBytes(c, r.off)));
  }

  /** From the end of its download on. */
  lemma {:induction false} FetchedOut(c: Config, env: Env, md: Metadata, s: State, t: nat, actions: seq<Action>,
                                      files: Disk, others: seq<Other>)
    requires Served(c, env, md) && Basic(c, s) && Matched(md, s.readers)
    requires t < |s.readers| && Calm(c, s, t, actions) && s.readers[t].pc.Fetched?
    requires Works(c, s, t, Found(env, files, others).files)
    requires ReadError(files, c.L, s.readers[t].off, s.readers[t].want) == Some(NotExist)
    requires Exec(c, s, actions) != None && t < |Exec(c, s, actions).value.readers|
    ensures var r := Exec(c, s, actions).value.readers[t];
            r.pc.Done? ==> Explains(env, files, r, false, others, [Match(md, Transfer([], Complete))],
                                    QueryFails(t) in actions)
    decreases |actions|
  {
    hide Served, Basic, Works, Found, Apply, Enabled, Explains, Clear, ReadError, Touches;
    if actions == [] {
    } else {
      var a, rest := actions[0], actions[1..];
      var s' := Apply(c, s, a);
      assert actions == [a] + rest;
      StepBasic(c, s, a);
      MatchedStays(c, md, s, a);
      SameRange(c, s, t, a);
      if ByReader(a) && a.t == t {
        LastStep(c, env, md, s, t, a, files, others);
        ExplainsDone(env, files, s'.readers[t], false, others, [Match(md, Transfer([], Complete))], a == QueryFails(t));
        DoneStays(c, s', t, rest);
      } else {
        OthersWork(c, s, t, a, Found(env, files, others).files);
        FetchedOut(c, env, md, s', t, rest, files, others);
      }
    }
  }

  lemma ExplainsDone(env: Env, files: Disk, r: Reader, latch: bool, others: seq<Other>, rows: seq<Match>, fails: bool)
    requires Explains(env, files, r, latch, others, rows, fails)
    ensures r.pc.Done?
  {
  }

  /** A failed download or lookup: the reader is done with what it saw. */
  lemma FailStep(c: Config, env: Env, md: Metadata, s: State, t: nat, a: Action, files: Disk, others: seq<Other>,
                 fails: bool)
    requires Served(c, env, md) && Enabled(c, s, a) && ByReader(a) && a.t == t
    requires s.readers[t].pc.Fetching? && (a.Fail? || (a.QueryFails? && fails))
    requires Works(c, s, t, Found(env, files, others).files)
    requires ReadError(files, c.L, s.readers[t].off, s.readers[t].want) == Some(NotExist)
    ensures Explains(env, files, Apply(c, s, a).readers[t], false, others,
                     if a.Fail? then [EndedBy(c, md, s, a)[0].row] else [], fails)
  {
    hide ReadBytes, ReadError, Fetch, Found, Begun, BlockBytes, Sound, ReadThrough, Delivered, Agree;
    var r := s.readers[t];
    ThroughRows(env, files, r.off, r.want, others, if a.Fail? then [EndedBy(c, md, s, a)[0].row] else [], fails);
  }

  /** A piece, or the end, of the reader's own download: it works on. */
  lemma WorkStep(c: Config, s: State, t: nat, a: Action, found: Disk)
    requires Enabled(c, s, a) && ByReader(a) && a.t == t && Works(c, s, t, found)
    requires a.Deliver? || a.Succeed?
    ensures t < |Apply(c, s, a).readers| && Works(c, Apply(c, s, a), t, found)
    ensures a.Deliver? ==> Apply(c, s, a).readers[t].pc.Fetching?
    ensures a.Succeed? ==> Apply(c, s, a).readers[t].pc.Fetched?
  {
    hide ReadBytes, ReadError, Begun, BlockBytes, Written, Start, Touches, Agree;
    var r := s.readers[t];
    if a.Deliver? {
      BegunGrows(c, found, r.off, r.pc.k, a.n);
      var at := Start(c, r.off) + r.pc.k;
      NextPiece(c, r.off, r.pc.k, a.n);
      AgreeWrite(c, r, s.files, Begun(c, found, r.off, r.pc.k), at, c.plain[at..at + a.n]);
      AgreeMoved(c, r, Apply(c, s, a).readers[t], Apply(c, s, a).files, Begun(c, found, r.off, r.pc.k + a.n));
    } else {
      AgreeMoved(c, r, Apply(c, s, a).readers[t], s.files, Begun(c, found, r.off, r.pc.k));
    }
  }

  lemma AgreeMoved(c: Config, r: Reader, r': Reader, d: Disk, d': Disk)
    requires Agree(c, r, d, d') && r.off == r'.off && r.want == r'.want
    ensures Agree(c, r', d, d')
  {
    hide SameFile;
    assert forall b :: Touches(c, r, b) == Touches(c, r', b);
  }

  lemma NextPiece(c: Config, off: nat, k: nat, n: nat)
    requires 0 < n && k + n <= BlockBytes(c, off)
    ensures var at := Start(c, off) + k;
            && at + n <= |c.plain| && |c.plain[at..at + n]| == n
            && Rem(at, c.L) + n <= c.L && Quot(at, c.L) == Quot(off, c.L)
  {
    hide BlockBytes, Start, Quot, Rem;
    BlockLayout(c, off, k);
    BlockLayout(c, off, k + n);
  }

  /** From its second look on, the outcome is settled but for how the reader's own download goes. */
  lemma {:induction false} WorksOut(c: Config, env: Env, md: Metadata, s: State, t: nat, actions: seq<Action>,
                                    files: Disk, others: seq<Other>)
    requires Served(c, env, md) && Basic(c, s) && Matched(md, s.readers)
    requires t < |s.readers| && Calm(c, s, t, actions) && s.readers[t].pc.Fetching?
    requires Works(c, s, t, Found(env, files, others).files)
    requires ReadError(files, c.L, s.readers[t].off, s.readers[t].want) == Some(NotExist)
    requires Exec(c, s, actions) != None && t < |Exec(c, s, actions).value.readers|
    ensures var r := Exec(c, s, actions).value.readers[t];
            r.pc.Done? ==>
              Explains(env, files, r, false, others, RowsOf(c, md, s, t, actions), QueryFails(t) in actions)
    decreases |actions|
  {
    hide Served, Basic, Works, Found, Apply, Enabled, Explains, Clear, ReadError, Touches, EndedBy;
    if actions == [] {
    } else {
      var a, rest := actions[0], actions[1..];
      var s' := Apply(c, s, a);
      assert actions == [a] + rest;
      StepBasic(c, s, a);
      MatchedStays(c, md, s, a);
      SameRange(c, s, t, a);
      if ByReader(a) && a.t == t {
        FetchingSteps(c, s, t, a);
        if a.Deliver? {
          WorkStep(c, s, t, a, Found(env, files, others).files);
          WorksOut(c, env, md, s', t, rest, files, others);
        } else if a.Succeed? {
          WorkStep(c, s, t, a, Found(env, files, others).files);
          SucceededRow(c, md, s, a);
          FetchedOut(c, env, md, s', t, rest, files, others);
        } else {
          FailStep(c, env, md, s, t, a, files, others, QueryFails(t) in actions);
          DoneStays(c, s', t, rest);
          NoRowsWithout(c, md, s', t, rest);
        }
      } else {
        OthersWork(c, s, t, a, Found(env, files, others).files);
        WorksOut(c, env, md, s', t, rest, files, others);
      }
    }
  }

  lemma FetchingSteps(c: Config, s: State, t: nat, a: Action)
    requires Enabled(c, s, a) && ByReader(a) && a.t == t && s.readers[t].pc.Fetching?
    ensures a.Deliver? || a.Succeed? || a.Fail? || a.QueryFails?
    ensures a.Fail? || a.QueryFails? ==> t < |Apply(c, s, a).readers| && Apply(c, s, a).readers[t].pc.Done?
  {
    hide ReadBytes, ReadError, Written, Start, Quot, BlockBytes;
  }

  lemma SucceededRow(c: Config, md: Metadata, s: State, a: Action)
    requires Enabled(c, s, a) && a.Succeed?
    ensures EndedBy(c, md, s, a) == [Ended(s.readers[a.t].off, Match(md, Transfer([], Complete)))]
  {
    hide BlockBytes;
  }

  // ----- up to the second look ----------------------------------------------

  /** The reader's own step in the queue: past the latch it stays in it, at the latch it is done, at the second
      look it is done or goes on from the files that the sequential read finds. */
  lemma QueueStep(c: Config, env: Env, s: State, t: nat, a: Action, files: Disk, others: seq<Other>)
    requires c.L == env.L && Basic(c, s) && t < |s.readers| && Queuing(c, env, s, t, files, others)
    requires Enabled(c, s, a) && ByReader(a) && a.t == t
    ensures a.CheckLatch? || a.Acquire? || a.SecondRead?
    ensures a.CheckLatch? <==> s.readers[t].pc.Missed?
    ensures var s' := Apply(c, s, a);
            var r := s'.readers[t];
            if a.CheckLatch? && s.blocked then
              forall more, rows, fails :: Explains(env, files, r, true, others + more, rows, fails)
            else if a.SecondRead? && r.pc.Done? then
              forall rows, fails :: Explains(env, files, r, false, others, rows, fails)
            else if a.SecondRead? then r.pc.Fetching? && Works(c, s', t, Found(env, files, others).files)
            else !r.pc.Missed? && Queuing(c, env, s', t, files, others)
  {
    hide ReadBytes, ReadError, Waited, Begun, Fits, Agree, Refill;
    assert MutexHeld(s, t);
    NothingBegun(c, s.files, s.readers[t].off);
    if a.SecondRead? {
      AgreeSelf(c, Apply(c, s, a).readers[t], s.files);
    }
  }

  lemma QueuingNotDone(c: Config, env: Env, s: State, t: nat, files: Disk, others: seq<Other>)
    requires t < |s.readers| && Queuing(c, env, s, t, files, others)
    ensures BeforeLook(s, t) && !s.readers[t].pc.Done? && !s.readers[t].pc.First?
    ensures ReadError(files, c.L, s.readers[t].off, s.readers[t].want) == Some(NotExist)
  {
  }

  /** Somebody else's step while t queues. */
  lemma QueueGrows(c: Config, env: Env, md: Metadata, s: State, t: nat, a: Action, files: Disk, others: seq<Other>)
    requires Served(c, env, md) && Basic(c, s) && Matched(md, s.readers) && Enabled(c, s, a) && Clear(c, s, a)
    requires t < |s.readers| && Queuing(c, env, s, t, files, others) && (ByReader(a) ==> a.t != t)
    ensures t < |Apply(c, s, a).readers|
    ensures Queuing(c, env, Apply(c, s, a), t, files, others + EndedBy(c, md, s, a))
  {
    hide Served, Basic, Apply, Enabled, Clear, ReadError, ReadBytes, Shadow, EndedBy, Waited;
    SameRange(c, s, t, a);
    StepShadow(c, env, md, s, Found(env, files, others), a);
    WaitedAppend(env, Local(files, false), others, EndedBy(c, md, s, a));
  }

  /** What happens around the queuing reader goes into others; at the latch, or at its second look, it is settled. */
  lemma {:induction false} QueuesOut(c: Config, env: Env, md: Metadata, s: State, t: nat, actions: seq<Action>,
                                     files: Disk, others: seq<Other>)
    requires Served(c, env, md) && Basic(c, s) && Matched(md, s.readers)
    requires t < |s.readers| && Calm(c, s, t, actions) && Queuing(c, env, s, t, files, others)
    requires Exec(c, s, actions) != None && t < |Exec(c, s, actions).value.readers|
    ensures var r := Exec(c, s, actions).value.readers[t];
            r.pc.Done? ==>
              Explains(env, files, r, LatchAt(c, s, t, actions), others + Meanwhile(c, md, s, t, actions),
                       RowsOf(c, md, s, t, actions), QueryFails(t) in actions)
    decreases |actions|
  {
    hide Served, Basic, Found, Apply, Enabled, Explains, Clear, ReadError, EndedBy, Queuing, Works, Touches;
    QueuingNotDone(c, env, s, t, files, others);
    if actions == [] {
    } else {
      var a, rest := actions[0], actions[1..];
      var s' := Apply(c, s, a);
      assert actions == [a] + rest;
      StepBasic(c, s, a);
      MatchedStays(c, md, s, a);
      SameRange(c, s, t, a);
      if ByReader(a) && a.t == t {
        ServedLength(c, env, md);
        QueueStep(c, env, s, t, a, files, others);
        NothingEnds(c, md, s, a);
        var more := Meanwhile(c, md, s', t, rest);
        var rows, fails := RowsOf(c, md, s', t, rest), QueryFails(t) in rest;
        assert [] + more == more && others + [] == others;
        if a.CheckLatch? && s.blocked {
          ExplainsDone(env, files, s'.readers[t], true, others + more, rows, fails);
          DoneStays(c, s', t, rest);
        } else if a.SecondRead? {
          NoLatchLater(c, s, t, actions);
          LookedAgain(s', t);
          if s'.readers[t].pc.Done? {
            DoneStays(c, s', t, rest);
          } else {
            WorksOut(c, env, md, s', t, rest, files, others);
          }
        } else {
          QueuingNotDone(c, env, s', t, files, others);
          NoLatchLater(c, s', t, rest);
          QueuesOut(c, env, md, s', t, rest, files, others);
        }
      } else {
        var more := Meanwhile(c, md, s', t, rest);
        assert others + (EndedBy(c, md, s, a) + more) == (others + EndedBy(c, md, s, a)) + more;
        QueueGrows(c, env, md, s, t, a, files, others);
        QueuesOut(c, env, md, s', t, rest, files, others + EndedBy(c, md, s, a));
        assert LatchAt(c, s, t, actions) == LatchAt(c, s', t, rest);
        assert RowsOf(c, md, s, t, actions) == RowsOf(c, md, s', t, rest);
      }
    }
  }

  lemma LookedAgain(s: State, t: nat)
    ensures t < |s.readers| && (s.readers[t].pc.Done? || s.readers[t].pc.Fetching?) ==> !BeforeLook(s, t)
  {
  }

  lemma ServedLength(c: Config, env: Env, md: Metadata)
    requires Served(c, env, md)
    ensures c.L == env.L
  {
    hide Sound, Holding;
  }

  lemma NothingEnds(c: Config, md: Metadata, s: State, a: Action)
    requires Enabled(c, s, a) && (a.Acquire? || a.CheckLatch? || a.SecondRead?)
    ensures EndedBy(c, md, s, a) == []
  {
  }

  // ----- refusals -----------------------------------------------------------

  /** The reader was not refused, and no error it holds is the refusal. */
  predicate Unrefused(r: Reader) {
    && !(r.pc.Done? && r.pc.err == Some(CacheUnrecoverable))
    && (AfterLook(r.pc) ==> r.pc.why != CacheUnrecoverable)
  }

  lemma StaysUnrefused(c: Config, s: State, t: nat, a: Action)
    requires t < |s.readers| && Unrefused(s.readers[t]) && Enabled(c, s, a)
    ensures t < |Apply(c, s, a).readers|
    ensures a != CheckLatch(t) || !s.blocked ==> Unrefused(Apply(c, s, a).readers[t])
    ensures a == CheckLatch(t) && s.blocked ==>
      Apply(c, s, a).readers[t].pc == Done(s.readers[t].pc.seen, Some(CacheUnrecoverable))
    ensures a == CheckLatch(t) ==> !Apply(c, s, a).readers[t].pc.First? && !Apply(c, s, a).readers[t].pc.Missed?
  {
    hide ReadBytes, ReadError, Written, Start, Quot, Wins, BlockBytes;
    SameRange(c, s, t, a);
    LooksAreNoRefusals(s.files, c.L, s.readers[t].off, s.readers[t].want);
  }

  lemma LooksAreNoRefusals(d: Disk, L: BlockLength, off: nat, want: nat)
    ensures ReadError(d, L, off, want) != Some(CacheUnrecoverable)
  {
  }

  /** In every run, whatever is reclaimed when, a read is refused if and only if it missed its block and found the
      latch set at its check. */
  lemma {:induction false} RunRefusesExactly(c: Config, s: State, t: nat, actions: seq<Action>)
    requires t < |s.readers| && Unrefused(s.readers[t]) && Exec(c, s, actions) != None
    ensures var s' := Exec(c, s, actions).value;
            t < |s'.readers| &&
            var pc := s'.readers[t].pc;
            pc.Done? && pc.err == Some(CacheUnrecoverable) <==> LatchAt(c, s, t, actions)
    decreases |actions|
  {
    hide Apply, Enabled;
    if actions == [] {
    } else {
      var s' := Apply(c, s, actions[0]);
      StaysUnrefused(c, s, t, actions[0]);
      if actions[0] == CheckLatch(t) {
        NoLatchLater(c, s', t, actions[1..]);
      }
      if actions[0] == CheckLatch(t) && s.blocked {
        DoneStays(c, s', t, actions[1..]);
      } else {
        RunRefusesExactly(c, s', t, actions[1..]);
      }
    }
  }

  // ----- whole runs ---------------------------------------------------------

  /** All that downloads under way have written is on disk. */
  ghost predicate AllPresent(c: Config, s: State) {
    forall t :: 0 <= t < |s.readers| && s.readers[t].pc.Fetching? ==>
      Present(c, s.files, s.readers[t].off, s.readers[t].pc.k)
  }

  /** No removal in the run takes a file that a download has begun. */
  ghost predicate AllClear(c: Config, s: State, actions: seq<Action>)
    decreases |actions|
  {
    actions == []
    || (Enabled(c, s, actions[0]) && Clear(c, s, actions[0]) && AllClear(c, Apply(c, s, actions[0]), actions[1..]))
  }

  lemma ClearInv(c: Config, s: State, a: Action)
    requires Inv(c, s) && AllPresent(c, s) && Enabled(c, s, a) && Clear(c, s, a)
    ensures Inv(c, Apply(c, s, a)) && AllPresent(c, Apply(c, s, a))
  {
    hide Inv, Enabled;
    StepInv(c, s, a);
    StillPresent(c, s, a);
  }

  lemma StillPresent(c: Config, s: State, a: Action)
    requires Inv(c, s) && AllPresent(c, s) && Enabled(c, s, a) && Clear(c, s, a)
    ensures AllPresent(c, Apply(c, s, a))
  {
    hide Faithful, Backed, Knows, Fits, Present, Advance, Ready, Clear;
    var s' := Apply(c, s, a);
    SameLength(c, s, a);
    forall t | 0 <= t < |s'.readers| && s'.readers[t].pc.Fetching?
      ensures Present(c, s'.files, s'.readers[t].off, s'.readers[t].pc.k)
    {
      SameRange(c, s, t, a);
      if a.Deliver? {
        PresentGrows(c, s, a);
        assert MutexHeld(s, t) && MutexHeld(s, a.t);
      } else if a.Unlink? {
        assert Fits(c, s.readers[t]);
        FitsInside(c, s.readers[t]);
        PresentBeside(c, s, a.b, t);
      } else if ByReader(a) {
        assert Fits(c, s.readers[a.t]) && MutexHeld(s, a.t);
        MovesOne(c, s, a);
        FetchStarts(c, s, a);
      }
    }
  }

  /** Apart from pieces and removals, a step leaves a download as it is or begins one. */
  lemma FetchStarts(c: Config, s: State, a: Action)
    requires Enabled(c, s, a) && ByReader(a) && !a.Deliver?
    ensures var s' := Apply(c, s, a);
            a.t < |s'.readers| &&
            var r := s'.readers[a.t];
            r.pc.Fetching? ==> r.pc.k == 0 && Present(c, s'.files, r.off, 0)
  {
    hide ReadBytes, ReadError, Written, Start, Quot, BlockBytes, Wins, At;
  }

  lemma PresentGrows(c: Config, s: State, a: Action)
    requires Inv(c, s) && Enabled(c, s, a) && a.Deliver?
    ensures var s' := Apply(c, s, a);
            s.readers[a.t].pc.Fetching? && a.t < |s'.readers| && s'.readers[a.t].pc.Fetching?
            && Present(c, s'.files, s'.readers[a.t].off, s'.readers[a.t].pc.k)
  {
    hide Faithful, Backed, Basic, Present, NothingLost, Written, Start, BlockBytes, Overlaid;
    var r := s.readers[a.t];
    assert Knows(c, s.files, r);
    Laid(c, s.files, r.off, r.pc.k, a.n);
    Grown(c, s.files, Apply(c, s, a).files, r.off, r.pc.k + a.n);
  }

  lemma PresentBeside(c: Config, s: State, b: nat, t: nat)
    requires Enabled(c, s, Unlink(b)) && Clear(c, s, Unlink(b)) && t < |s.readers|
    requires var r := s.readers[t];
             r.pc.Fetching? && r.pc.k <= BlockBytes(c, r.off) && Present(c, s.files, r.off, r.pc.k)
    ensures var r := s.readers[t]; Present(c, s.files - {b}, r.off, r.pc.k)
  {
    hide At, Quot, BlockBytes, Start;
    var r := s.readers[t];
    forall j | Start(c, r.off) <= j < Start(c, r.off) + r.pc.k ensures At(s.files - {b}, c.L, j) != None {
      UnlinkedAt(c, s.files, b, j);
      InsideBlock(c, r.off, j);
    }
  }

  lemma {:induction false} ClearRun(c: Config, s: State, actions: seq<Action>)
    requires Inv(c, s) && AllPresent(c, s) && AllClear(c, s, actions)
    ensures Exec(c, s, actions) != None
    ensures Inv(c, Exec(c, s, actions).value) && AllPresent(c, Exec(c, s, actions).value)
    decreases |actions|
  {
    hide Inv, AllPresent, Apply, Enabled, Clear;
    if actions == [] {
    } else {
      ClearInv(c, s, actions[0]);
      ClearRun(c, Apply(c, s, actions[0]), actions[1..]);
    }
  }

  /** At the first read, the directory is its own shadow, even with another reader's download half way. */
  lemma StartsAsShadow(c: Config, s: State)
    requires Inv(c, s) && AllPresent(c, s)
    ensures Shadow(c, s, s.files)
  {
    hide Begun, Present, Faithful, Backed, Fits, Knows;
    if s.owner != None && s.readers[s.owner.value].pc.Fetching? {
      var r := s.readers[s.owner.value];
      assert Fits(c, r);
      FitsInside(c, r);
      AlreadyBegun(c, s.files, r.off, r.pc.k);
    }
  }

  lemma {:induction false} SameReaders(c: Config, md: Metadata, s: State, actions: seq<Action>)
    requires Exec(c, s, actions) != None && Matched(md, s.readers)
    ensures |Exec(c, s, actions).value.readers| == |s.readers| && Matched(md, Exec(c, s, actions).value.readers)
    decreases |actions|
  {
    hide Apply, Enabled, Matched;
    if actions == [] {
    } else {
      MatchedStays(c, md, s, actions[0]);
      SameLength(c, s, actions[0]);
      SameReaders(c, md, Apply(c, s, actions[0]), actions[1..]);
    }
  }

  /** Every finished read of every interleaving is the sequential read of the files as they were at its first look,
      given what the run itself says: the latch at its check, what ended and what was removed until it looked again,
      its own row and download, and whether its lookup failed. It holds as long as a reclaim keeps its hands off
      files that a download has begun and, once this reader has looked again, off files that its range touches. */
  lemma EveryReadIsSequential(c: Config, env: Env, md: Metadata, s0: State, before: seq<Action>,
                              t: nat, after: seq<Action>)
    requires Served(c, env, md) && Init(s0) && Matched(md, s0.readers) && AllClear(c, s0, before)
    requires Exec(c, s0, before) != None && Enabled(c, Exec(c, s0, before).value, FirstRead(t))
    requires var s1 := Apply(c, Exec(c, s0, before).value, FirstRead(t));
             Calm(c, s1, t, after) && Exec(c, s1, after) != None
    ensures var s := Exec(c, s0, before).value;
            var s1 := Apply(c, s, FirstRead(t));
            var end := Exec(c, s1, after).value;
            t < |end.readers| &&
            (end.readers[t].pc.Done? ==>
               Explains(env, s.files, end.readers[t], LatchAt(c, s1, t, after), Meanwhile(c, md, s1, t, after),
                        RowsOf(c, md, s1, t, after), QueryFails(t) in after))
  {
    hide Served, Init, AllClear, Inv, AllPresent, Calm, Exec, Meanwhile, Explains, Shadow, Basic, ReadError, ReadBytes;
    hide LatchAt, RowsOf, Matched;
    InitInv(c, s0);
    assert AllPresent(c, s0) by { NobodyFetches(c, s0); }
    ClearRun(c, s0, before);
    var s := Exec(c, s0, before).value;
    var s1 := Apply(c, s, FirstRead(t));
    InvBasic(c, s);
    StepBasic(c, s, FirstRead(t));
    SameReaders(c, md, s0, before);
    MatchedStays(c, md, s, FirstRead(t));
    SameReaders(c, md, s1, after);
    if s1.readers[t].pc.Done? {
      DoneStays(c, s1, t, after);
      ServedLength(c, env, md);
      FirstIsAll(c, env, s, t, LatchAt(c, s1, t, after), Meanwhile(c, md, s1, t, after), RowsOf(c, md, s1, t, after),
                 QueryFails(t) in after);
    } else {
      StartsAsShadow(c, s);
      FirstQueues(c, env, s, t);
      QueuesOut(c, env, md, s1, t, after, s.files, []);
      assert [] + Meanwhile(c, md, s1, t, after) == Meanwhile(c, md, s1, t, after);
    }
  }

  lemma NobodyFetches(c: Config, s: State)
    requires Init(s)
    ensures AllPresent(c, s)
  {
  }

  /** A first look that does not miss its block is the whole read. */
  lemma FirstIsAll(c: Config, env: Env, s: State, t: nat, latch: bool, others: seq<Other>, rows: seq<Match>,
                   fails: bool)
    requires c.L == env.L && Enabled(c, s, FirstRead(t)) && Apply(c, s, FirstRead(t)).readers[t].pc.Done?
    ensures Explains(env, s.files, Apply(c, s, FirstRead(t)).readers[t], latch, others, rows, fails)
  {
    hide ReadBytes, ReadError, Waited, Refill;
  }

  lemma FirstQueues(c: Config, env: Env, s: State, t: nat)
    requires Basic(c, s) && Shadow(c, s, s.files)
    requires Enabled(c, s, FirstRead(t)) && !Apply(c, s, FirstRead(t)).readers[t].pc.Done?
    ensures Queuing(c, env, Apply(c, s, FirstRead(t)), t, s.files, [])
  {
    hide ReadBytes, ReadError, Begun, Fits;
    assert MutexHeld(s, t);
    assert Waited(env, Local(s.files, false), []) == Local(s.files, false);
  }

  // ----- one reader alone ---------------------------------------------------

  /** The steps of a reader that nobody interferes with, given how its download and its lookup go. */
  function AloneSteps(c: Config, s: State, t: nat, transfer: Transfer, fails: bool): seq<Action>
    requires t < |s.readers|
  {
    var r := s.readers[t];
    if ReadError(s.files, c.L, r.off, r.want) != Some(NotExist) then [FirstRead(t)]
    else if s.blocked then [FirstRead(t), CheckLatch(t)]
    else
      ([FirstRead(t), CheckLatch(t)] + [Acquire(t), SecondRead(t)])
      + (PieceStep(t, Delivered(transfer, BlockBytes(c, r.off))) + EndSteps(t, transfer.end, fails))
  }

  function PieceStep(t: nat, n: nat): seq<Action> {
    if n == 0 then [] else [Deliver(t, n)]
  }

  function EndSteps(t: nat, end: Ending, fails: bool): seq<Action> {
    match end
    case Complete => [Succeed(t), if fails then QueryFails(t) else Reread(t)]
    case Failed => [Fail(t, false)]
    case Unrecoverable => [Fail(t, true)]
  }

  /** The first half: a reader that finds its block absent and the latch open comes to its download. */
  lemma ToFetching(c: Config, s: State, t: nat)
    requires t < |s.readers| && s.readers[t].pc.First? && s.owner == None && !s.blocked
    requires ReadError(s.files, c.L, s.readers[t].off, s.readers[t].want) == Some(NotExist)
    ensures var seen := ReadBytes(s.files, c.L, s.readers[t].off, s.readers[t].want);
            Exec(c, s, [FirstRead(t), CheckLatch(t)] + [Acquire(t), SecondRead(t)])
            == Some(Goto(s, t, Fetching(seen, NotExist, 0)).(owner := Some(t)))
  {
    hide ReadBytes, ReadError, Exec;
    var s1 := Apply(c, s, FirstRead(t));
    var s2 := Apply(c, s1, CheckLatch(t));
    var s3 := Apply(c, s2, Acquire(t));
    var s4 := Apply(c, s3, SecondRead(t));
    assert s4.readers == Goto(s, t, s4.readers[t].pc).readers;
    ExecTwo(c, s, FirstRead(t), CheckLatch(t));
    ExecTwo(c, s2, Acquire(t), SecondRead(t));
    ExecAppend(c, s, [FirstRead(t), CheckLatch(t)], [Acquire(t), SecondRead(t)]);
  }

  /** A reader that has not started, on a directory that exists, with nobody at work. */
  predicate Alone(s: State, t: nat) {
    t < |s.readers| && s.readers[t].pc.First? && s.owner == None && s.dir
  }

  /** The run ended with reader t done, and files, latch, bytes and error as in o. */
  predicate EndsAs(end: Option<State>, t: nat, o: Outcome) {
    && end != None && t < |end.value.readers| && end.value.owner == None
    && end.value.readers[t].pc == Done(o.got, o.err)
    && end.value.files == o.local.files && end.value.blocked == o.local.blocked
  }

  /** The bytes of a lone download land in one piece, or not at all. */
  lemma PieceAlone(c: Config, s: State, t: nat, seen: seq<Byte>, n: nat)
    requires Alone(s, t) && n <= BlockBytes(c, s.readers[t].off)
    ensures var s1 := Goto(s, t, Fetching(seen, NotExist, 0)).(owner := Some(t));
            var files := Begun(c, s.files, s.readers[t].off, n);
            Exec(c, s1, PieceStep(t, n))
            == Some(Goto(s, t, Fetching(seen, NotExist, n)).(owner := Some(t), files := files))
  {
    hide Written, BlockBytes, Start, Piece;
    var r := s.readers[t];
    var s1 := Goto(s, t, Fetching(seen, NotExist, 0)).(owner := Some(t));
    NothingBegun(c, s.files, r.off);
    if 0 < n {
      PieceIs(c, r.off, n);
      var s2 := Apply(c, s1, Deliver(t, n));
      assert s2.readers == Goto(s, t, Fetching(seen, NotExist, n)).readers;
      ExecOne(c, s1, Deliver(t, n));
    }
  }

  /** How a lone download ends. */
  lemma EndingAlone(c: Config, s1: State, t: nat, n: nat, end: Ending, fails: bool)
    requires t < |s1.readers| && s1.readers[t].pc.Fetching? && s1.readers[t].pc.k == n && s1.owner == Some(t)
    requires end.Complete? ==> n == BlockBytes(c, s1.readers[t].off)
    ensures var r := s1.readers[t];
            var l := Local(s1.files, s1.blocked || end.Unrecoverable?);
            EndsAs(Exec(c, s1, EndSteps(t, end, fails)), t,
              if !end.Complete? then Outcome(l, r.pc.seen, Some(Remote(end.Unrecoverable?)))
              else if fails then Outcome(l, r.pc.seen, Some(r.pc.why))
              else Outcome(l, ReadBytes(s1.files, c.L, r.off, r.want), ReadError(s1.files, c.L, r.off, r.want)))
  {
    hide ReadBytes, ReadError, Quot, Rem, BlockBytes, Exec;
    match end
    case Complete => ExecTwo(c, s1, Succeed(t), if fails then QueryFails(t) else Reread(t));
    case Failed => ExecOne(c, s1, Fail(t, false));
    case Unrecoverable => ExecOne(c, s1, Fail(t, true));
  }

  /** A download arrives in whatever pieces the transfer is cut into. */
  function Pieces(t: nat, cuts: seq<nat>): seq<Action> {
    if cuts == [] then [] else [Deliver(t, cuts[0])] + Pieces(t, cuts[1..])
  }

  lemma {:induction false} AnyCutting(c: Config, s: State, t: nat, found: Disk, cuts: seq<nat>)
    requires t < |s.readers| && s.dir && s.readers[t].pc.Fetching?
    requires s.readers[t].pc.k + Sum(cuts) <= BlockBytes(c, s.readers[t].off) && 0 !in cuts
    requires s.files == Begun(c, found, s.readers[t].off, s.readers[t].pc.k)
    ensures var r := s.readers[t];
            var k := r.pc.k + Sum(cuts);
            Exec(c, s, Pieces(t, cuts))
            == Some(Goto(s, t, Fetching(r.pc.seen, r.pc.why, k)).(files := Begun(c, found, r.off, k)))
    decreases |cuts|
  {
    hide Begun, Written, BlockBytes, Start, Exec;
    var r := s.readers[t];
    if cuts == [] {
      NoSteps(c, s);
      assert Goto(s, t, r.pc).readers == s.readers;
    } else {
      assert cuts == [cuts[0]] + cuts[1..] && cuts[0] in cuts && 0 !in cuts[1..];
      var s1 := Apply(c, s, Deliver(t, cuts[0]));
      BegunGrows(c, found, r.off, r.pc.k, cuts[0]);
      AnyCutting(c, s1, t, found, cuts[1..]);
      ExecCons(c, s, Deliver(t, cuts[0]), Pieces(t, cuts[1..]));
      var pc := Fetching(r.pc.seen, r.pc.why, r.pc.k + Sum(cuts));
      assert Goto(s1, t, pc).readers == Goto(s, t, pc).readers;
    }
  }

  lemma NoSteps(c: Config, s: State)
    ensures Exec(c, s, []) == Some(s)
  {
  }

  /** A reader alone whose lookup fails before it gives a row ends as the sequential read does. */
  lemma AloneLookupFails(c: Config, env: Env, s: State, t: nat)
    requires Alone(s, t) && !s.blocked && c.L == env.L
    requires ReadError(s.files, c.L, s.readers[t].off, s.readers[t].want) == Some(NotExist)
    ensures EndsAs(
      Exec(c, s, ([FirstRead(t), CheckLatch(t)] + [Acquire(t), SecondRead(t)]) + [QueryFails(t)]), t,
      ReadThrough(env, Local(s.files, s.blocked), s.readers[t].off, s.readers[t].want, [], [], true))
  {
    hide ReadBytes, ReadError, Exec;
    ToFetching(c, s, t);
    var s1 := Exec(c, s, [FirstRead(t), CheckLatch(t)] + [Acquire(t), SecondRead(t)]).value;
    ExecOne(c, s1, QueryFails(t));
    ExecAppend(c, s, [FirstRead(t), CheckLatch(t)] + [Acquire(t), SecondRead(t)], [QueryFails(t)]);
  }

  /** The sequential read of the one row, with nothing ending meanwhile. */
  function OneRow(env: Env, s: State, t: nat, m: Match, fails: bool): Outcome
    requires t < |s.readers|
  {
    ReadThrough(env, Local(s.files, s.blocked), s.readers[t].off, s.readers[t].want, [], [m], fails)
  }

  /** And every sequential read is one of an interleaving: a reader alone ends with its files, latch, bytes and
      error. */
  lemma AloneIsReadThrough(c: Config, env: Env, md: Metadata, s: State, t: nat, tr: Transfer, fails: bool)
    requires Served(c, env, md) && Alone(s, t) && s.readers[t].off <= md.bytes
    ensures EndsAs(Exec(c, s, AloneSteps(c, s, t, tr, fails)), t, OneRow(env, s, t, Match(md, tr), fails))
  {
    hide ReadBytes, ReadError, Exec, Refill, Waited, Sound, Holding;
    var r := s.readers[t];
    if ReadError(s.files, c.L, r.off, r.want) != Some(NotExist) {
      ExecOne(c, s, FirstRead(t));
    } else if s.blocked {
      ExecTwo(c, s, FirstRead(t), CheckLatch(t));
    } else {
      AloneDownloads(c, env, md, s, t, tr, fails);
    }
  }

  lemma AloneDownloads(c: Config, env: Env, md: Metadata, s: State, t: nat, tr: Transfer, fails: bool)
    requires Served(c, env, md) && Alone(s, t) && s.readers[t].off <= md.bytes && !s.blocked
    requires ReadError(s.files, c.L, s.readers[t].off, s.readers[t].want) == Some(NotExist)
    ensures EndsAs(Exec(c, s, AloneSteps(c, s, t, tr, fails)), t, OneRow(env, s, t, Match(md, tr), fails))
  {
    hide ReadBytes, ReadError, FetchFiles, CalculateBlockRange, ReadThrough, Exec, Delivered, BlockBytes, EndsAs;
    hide Begun, Sound, PieceStep, EndSteps;
    var r := s.readers[t];
    var n := Delivered(tr, BlockBytes(c, r.off));
    var seen := ReadBytes(s.files, c.L, r.off, r.want);
    var s1 := Goto(s, t, Fetching(seen, NotExist, 0)).(owner := Some(t));
    var files := Begun(c, s.files, r.off, n);
    var s2 := Goto(s, t, Fetching(seen, NotExist, n)).(owner := Some(t), files := files);
    ToFetching(c, s, t);
    PieceAlone(c, s, t, seen, n);
    if tr.end.Complete? {
      WholeDelivered(tr, BlockBytes(c, r.off));
    }
    EndingAlone(c, s2, t, n, tr.end, fails);
    assert Found(env, s.files, []) == Local(s.files, false);
    ThroughRows(env, s.files, r.off, r.want, [], [Match(md, tr)], fails);
    FetchIs(c, env, md, Local(s.files, false), r.off, tr);
    ExecAppend(c, s1, PieceStep(t, n), EndSteps(t, tr.end, fails));
    ExecAppend(c, s, [FirstRead(t), CheckLatch(t)] + [Acquire(t), SecondRead(t)],
               PieceStep(t, n) + EndSteps(t, tr.end, fails));
  }
}
