/** How often one block is downloaded: the double check keeps it at once between removals of its file, unless a
    reader asks for bytes that its block does not have. */
module Counts {
  import opened Common
  import opened BlockStore
  import opened Ranges
  import opened Retrieval
  import opened Interleaving
  import opened DoubleCheck

  /** The range goes on where the reader's block, or the media, ends. No download of the block satisfies it. */
  predicate Passes(c: Config, r: Reader) {
    0 < r.want && Start(c, r.off) + BlockBytes(c, r.off) < r.off + r.want
  }

  /** No reader whose range passes its block's end shares the block with another reader that wants bytes. */
  ghost predicate Apart(c: Config, readers: seq<Reader>) {
    forall t, u ::
      0 <= t < |readers| && 0 <= u < |readers| && t != u && Passes(c, readers[t]) && 0 < readers[u].want ==>
        Quot(readers[t].off, c.L) != Quot(readers[u].off, c.L)
  }

  /** A reader that may still complete its block: one that is downloading it, or that no other download satisfies. */
  predicate Pending(c: Config, r: Reader) {
    r.pc.Fetching? || (Passes(c, r) && !r.pc.Fetched? && !r.pc.Done?)
  }

  ghost predicate Uncounted(c: Config, wins: map<nat, nat>, r: Reader) {
    && (Pending(c, r) ==> Wins(wins, Quot(r.off, c.L)) == 0)
    && (r.pc.Fetching? ==> 0 < r.want)
  }

  ghost predicate AtMostOnce(wins: map<nat, nat>) {
    forall b :: Wins(wins, b) <= 1
  }

  ghost predicate CountInv(c: Config, s: State) {
    && Inv(c, s) && Apart(c, s.readers) && AtMostOnce(s.wins)
    && forall t :: 0 <= t < |s.readers| ==> Uncounted(c, s.wins, s.readers[t])
  }

  lemma InitCount(c: Config, s: State)
    requires Init(s) && Apart(c, s.readers)
    ensures CountInv(c, s)
  {
    hide Inv, Apart;
    InitInv(c, s);
  }

  /** A whole block holds every byte of a range that does not pass its end. */
  lemma WholeSatisfies(c: Config, files: Disk, r: Reader)
    requires Whole(c, files, Quot(r.off, c.L)) && !Passes(c, r)
    ensures ReadError(files, c.L, r.off, r.want) == None
  {
    hide ReadError, ReadBytes, Quot, Rem, At, BlockBytes;
    ReadErrorIs(files, c.L, r.off, r.want);
    forall j | r.off <= j < r.off + r.want ensures At(files, c.L, j) != None {
      BlockLayout(c, r.off, BlockBytes(c, r.off));
      InsideBlock(c, r.off, j);
    }
  }

  /** After a step that leaves the counts alone, what the moved reader may still complete is uncounted. */
  lemma MovedUncounted(c: Config, s: State, a: Action)
    requires CountInv(c, s) && Enabled(c, s, a) && ByReader(a) && !a.Succeed?
    ensures Uncounted(c, s.wins, Apply(c, s, a).readers[a.t])
  {
    hide ReadBytes, ReadError, Written, Start, Quot, Wins, BlockBytes, Passes, Inv, Apart;
    var r := s.readers[a.t];
    assert Uncounted(c, s.wins, r);
    SameRange(c, s, a.t, a);
    PassesSame(c, r, Apply(c, s, a).readers[a.t]);
    NothingWanted(s.files, c.L, r.off);
    if a.SecondRead? && ReadError(s.files, c.L, r.off, r.want) != None && !Passes(c, r) {
      InvBacked(c, s);
      if 0 < Wins(s.wins, Quot(r.off, c.L)) {
        WholeSatisfies(c, s.files, r);
      }
    }
  }

  lemma PassesSame(c: Config, r: Reader, r': Reader)
    requires r.off == r'.off && r.want == r'.want
    ensures Passes(c, r) == Passes(c, r')
  {
  }

  lemma InvBacked(c: Config, s: State)
    requires Inv(c, s)
    ensures Backed(c, s.files, s.wins)
  {
    hide Backed, Faithful, Basic, Knows;
  }

  /** Nobody else may still complete the block that a download has just completed. */
  lemma SucceedCounts(c: Config, s: State, t: nat)
    requires CountInv(c, s) && Enabled(c, s, Succeed(t))
    ensures var s' := Apply(c, s, Succeed(t));
            AtMostOnce(s'.wins) && forall u :: 0 <= u < |s'.readers| ==> Uncounted(c, s'.wins, s'.readers[u])
  {
    hide Quot, Passes, BlockBytes, Faithful, Backed, Knows, Fits;
    var s' := Apply(c, s, Succeed(t));
    var b := Quot(s.readers[t].off, c.L);
    assert Uncounted(c, s.wins, s.readers[t]) && MutexHeld(s, t);
    forall x ensures Wins(s'.wins, x) == if x == b then 1 else Wins(s.wins, x) {}
    forall x ensures Wins(s'.wins, x) <= 1 {
      assert Wins(s.wins, x) <= 1;
    }
    forall u | 0 <= u < |s'.readers| ensures Uncounted(c, s'.wins, s'.readers[u]) {
      assert Uncounted(c, s.wins, s.readers[u]) && MutexHeld(s, u);
    }
  }

  lemma OthersUncounted(c: Config, s: State, a: Action)
    requires CountInv(c, s) && Enabled(c, s, a) && !a.Succeed?
    ensures var s' := Apply(c, s, a);
            AtMostOnce(s'.wins) && forall u :: 0 <= u < |s'.readers| ==> Uncounted(c, s'.wins, s'.readers[u])
  {
    hide Advance, Ready, Inv, Apart, Pending, Fits;
    var s' := Apply(c, s, a);
    InvBasic(c, s);
    if ByReader(a) {
      assert Fits(c, s.readers[a.t]) && MutexHeld(s, a.t);
      MovesOne(c, s, a);
      MovedUncounted(c, s, a);
    }
    forall b ensures Wins(s'.wins, b) <= Wins(s.wins, b) {}
    forall b ensures Wins(s'.wins, b) <= 1 {
      assert Wins(s.wins, b) <= 1;
    }
    forall u | 0 <= u < |s'.readers| ensures Uncounted(c, s'.wins, s'.readers[u]) {
      SameRange(c, s, u, a);
      assert Uncounted(c, s.wins, s.readers[u]);
    }
  }

  lemma InvBasic(c: Config, s: State)
    requires Inv(c, s)
    ensures Basic(c, s)
  {
    hide Backed, Faithful, Basic, Knows;
  }

  lemma ApartStays(c: Config, s: State, a: Action)
    requires Apart(c, s.readers) && Enabled(c, s, a)
    ensures Apart(c, Apply(c, s, a).readers)
  {
    hide Apply, Enabled, Passes, Quot;
    var s' := Apply(c, s, a);
    SameLength(c, s, a);
    forall t, u | 0 <= t < |s'.readers| && 0 <= u < |s'.readers| && t != u
                  && Passes(c, s'.readers[t]) && 0 < s'.readers[u].want
      ensures Quot(s'.readers[t].off, c.L) != Quot(s'.readers[u].off, c.L)
    {
      SameRange(c, s, t, a);
      SameRange(c, s, u, a);
      PassesSame(c, s.readers[t], s'.readers[t]);
    }
  }

  lemma CountStep(c: Config, s: State, a: Action)
    requires CountInv(c, s) && Enabled(c, s, a) && Spares(c, s, a)
    ensures CountInv(c, Apply(c, s, a))
  {
    hide Inv, Apart, AtMostOnce, Uncounted, Apply, Enabled, Spares;
    StepInv(c, s, a);
    ApartStays(c, s, a);
    if a.Succeed? {
      SucceedCounts(c, s, a.t);
    } else {
      OthersUncounted(c, s, a);
    }
  }

  lemma {:induction false} CountRun(c: Config, s: State, actions: seq<Action>)
    requires CountInv(c, s) && AllSpare(c, s, actions)
    ensures Exec(c, s, actions) != None && AtMostOnce(Exec(c, s, actions).value.wins)
    decreases |actions|
  {
    hide Inv, Apart, AtMostOnce, Uncounted, Apply, Enabled, Spares;
    if actions == [] {
    } else {
      CountStep(c, s, actions[0]);
      CountRun(c, Apply(c, s, actions[0]), actions[1..]);
    }
  }

  // ----- exactly those readers ----------------------------------------------

  lemma {:induction false} NoUnlinkSpares(c: Config, s: State, actions: seq<Action>)
    requires Exec(c, s, actions) != None && forall a :: a in actions ==> !a.Unlink?
    ensures AllSpare(c, s, actions)
    decreases |actions|
  {
    hide Apply, Enabled;
    if actions == [] {
    } else {
      NoUnlinkSpares(c, Apply(c, s, actions[0]), actions[1..]);
    }
  }

  /** A reader that missed comes to wait for the mutex. */
  function QueueBy(t: nat): seq<Action> {
    [FirstRead(t), CheckLatch(t)]
  }

  /** A waiting reader that downloads its block, all of it, and is done. */
  function DownloadBy(c: Config, t: nat, off: nat): seq<Action> {
    [Acquire(t), SecondRead(t)]
    + ((if BlockBytes(c, off) == 0 then [] else [Mkdir, Deliver(t, BlockBytes(c, off))])
       + [Succeed(t), Reread(t)])
  }

  lemma Queues(c: Config, s: State, t: nat)
    requires t < |s.readers| && s.readers[t].pc.First? && s.files == map[] && !s.blocked && 0 < s.readers[t].want
    ensures Exec(c, s, QueueBy(t)) == Some(Goto(s, t, Waiting))
  {
    hide ReadBytes, ReadError, Quot, Exec;
    AbsentRead(s.files, c.L, s.readers[t].off, s.readers[t].want);
    var s1 := Apply(c, s, FirstRead(t));
    var s2 := Apply(c, s1, CheckLatch(t));
    assert s2.readers == Goto(s, t, Waiting).readers;
    ExecTwo(c, s, FirstRead(t), CheckLatch(t));
  }

  /** The directory after all of the block holding off was written. */
  function Filled(c: Config, files: Disk, off: nat): Disk {
    Written(files, c.L, Start(c, off), Block(c, off))
  }

  lemma Fills(c: Config, s: State, t: nat)
    requires t < |s.readers| && s.readers[t].pc.Fetching? && s.readers[t].pc.k == 0
    ensures var r := s.readers[t];
            var k := BlockBytes(c, r.off);
            var end := Exec(c, s, if k == 0 then [] else [Mkdir, Deliver(t, k)]);
            && end != None
            && end.value.files == Filled(c, s.files, r.off) && end.value.wins == s.wins && end.value.owner == s.owner
            && end.value.readers == s.readers[t := r.(pc := Fetching(r.pc.seen, r.pc.why, k))]
  {
    hide Written, BlockStart;
    var r := s.readers[t];
    var k := BlockBytes(c, r.off);
    if k == 0 {
      WrittenNothing(s.files, c.L, Start(c, r.off));
      assert Exec(c, s, []) == Some(s);
    } else {
      ExecTwo(c, s, Mkdir, Deliver(t, k));
    }
  }

  lemma Begins(c: Config, s: State, t: nat)
    requires t < |s.readers| && s.owner == None && s.readers[t].pc.Waiting?
    requires ReadError(s.files, c.L, s.readers[t].off, s.readers[t].want) != None
    ensures var r := s.readers[t];
            var pc := Fetching(ReadBytes(s.files, c.L, r.off, r.want), ReadError(s.files, c.L, r.off, r.want).value, 0);
            Exec(c, s, [Acquire(t), SecondRead(t)]) == Some(Goto(s, t, pc).(owner := Some(t)))
  {
    hide Exec, ReadBytes, ReadError;
    var s1 := Apply(c, s, Acquire(t));
    var s2 := Apply(c, s1, SecondRead(t));
    assert s2.readers == Goto(s, t, s2.readers[t].pc).readers;
    ExecTwo(c, s, Acquire(t), SecondRead(t));
  }

  lemma Finishes(c: Config, s: State, t: nat)
    requires t < |s.readers| && s.readers[t].pc.Fetching? && s.readers[t].pc.k == BlockBytes(c, s.readers[t].off)
    ensures var b := Quot(s.readers[t].off, c.L);
            var end := Exec(c, s, [Succeed(t), Reread(t)]);
            && end != None
            && Wins(end.value.wins, b) == Wins(s.wins, b) + 1 && end.value.owner == None && end.value.files == s.files
            && |end.value.readers| == |s.readers|
            && forall u :: 0 <= u < |s.readers| && u != t ==> end.value.readers[u] == s.readers[u]
  {
    hide Exec, Quot, BlockBytes, ReadBytes, ReadError;
    ExecTwo(c, s, Succeed(t), Reread(t));
  }

  lemma Downloads(c: Config, s: State, t: nat)
    requires t < |s.readers| && s.owner == None && s.readers[t].pc.Waiting?
    requires ReadError(s.files, c.L, s.readers[t].off, s.readers[t].want) != None
    ensures var r := s.readers[t];
            var end := Exec(c, s, DownloadBy(c, t, r.off));
            && end != None
            && Wins(end.value.wins, Quot(r.off, c.L)) == Wins(s.wins, Quot(r.off, c.L)) + 1
            && end.value.owner == None && end.value.files == Filled(c, s.files, r.off)
            && |end.value.readers| == |s.readers|
            && forall u :: 0 <= u < |s.readers| && u != t ==> end.value.readers[u] == s.readers[u]
  {
    hide Exec, Quot, BlockBytes, Filled, Wins, ReadBytes, ReadError;
    var r := s.readers[t];
    var piece := if BlockBytes(c, r.off) == 0 then [] else [Mkdir, Deliver(t, BlockBytes(c, r.off))];
    Begins(c, s, t);
    var s2 := Exec(c, s, [Acquire(t), SecondRead(t)]).value;
    Fills(c, s2, t);
    var s3 := Exec(c, s2, piece).value;
    Finishes(c, s3, t);
    ExecAppend(c, s2, piece, [Succeed(t), Reread(t)]);
    ExecAppend(c, s, [Acquire(t), SecondRead(t)], piece + [Succeed(t), Reread(t)]);
  }

  /** Where a reader's range passes its block's end, the block alone has a gap for it. */
  lemma FilledHasGap(c: Config, r: Reader)
    requires Passes(c, r)
    ensures ReadError(Filled(c, map[], r.off), c.L, r.off, r.want) != None
  {
    hide ReadError, ReadBytes, Written, At, Quot, Rem;
    var end := Start(c, r.off) + BlockBytes(c, r.off);
    var j := if r.off <= end then end else r.off;
    WrittenIsFlat(map[], c.L, Start(c, r.off), Block(c, r.off), j);
    AtNothing(c.L, j);
    ReadErrorIs(Filled(c, map[], r.off), c.L, r.off, r.want);
    assert At(Filled(c, map[], r.off), c.L, j) == None;
  }

  lemma AtNothing(L: BlockLength, j: nat)
    ensures At(map[], L, j) == None
  {
  }

  /** u downloads the block while t waits for the mutex; then t finds the block, and a gap behind it, and downloads
      the block again. */
  function TwiceBy(c: Config, t: nat, u: nat, off: nat): seq<Action> {
    (QueueBy(t) + QueueBy(u)) + (DownloadBy(c, u, off) + DownloadBy(c, t, off))
  }

  /** Two downloads of one block without any removal. */
  lemma TwiceWithoutRemoval(c: Config, s0: State, t: nat, u: nat)
    requires Init(s0) && t < |s0.readers| && u < |s0.readers| && t != u
    requires Passes(c, s0.readers[t]) && 0 < s0.readers[u].want
    requires Quot(s0.readers[t].off, c.L) == Quot(s0.readers[u].off, c.L)
    ensures var actions := TwiceBy(c, t, u, s0.readers[t].off);
            && (forall a :: a in actions ==> !a.Unlink? && !a.Rmdir?)
            && Exec(c, s0, actions) != None
            && Wins(Exec(c, s0, actions).value.wins, Quot(s0.readers[t].off, c.L)) == 2
  {
    hide Exec, Quot, QueueBy, DownloadBy, Passes, Filled, ReadError, ReadBytes;
    var off := s0.readers[t].off;
    NoRemovalIn(c, t, u, off);
    SameBlockSame(c, off, s0.readers[u].off);
    PassesWants(c, s0.readers[t]);
    Queues(c, s0, t);
    var s1 := Goto(s0, t, Waiting);
    Queues(c, s1, u);
    var s2 := Goto(s1, u, Waiting);
    ExecAppend(c, s0, QueueBy(t), QueueBy(u));
    AbsentRead(s2.files, c.L, s2.readers[u].off, s2.readers[u].want);
    Downloads(c, s2, u);
    var s3 := Exec(c, s2, DownloadBy(c, u, off)).value;
    PassesSame(c, s0.readers[t], s3.readers[t]);
    FilledHasGap(c, s3.readers[t]);
    Downloads(c, s3, t);
    ExecAppend(c, s2, DownloadBy(c, u, off), DownloadBy(c, t, off));
    ExecAppend(c, s0, QueueBy(t) + QueueBy(u), DownloadBy(c, u, off) + DownloadBy(c, t, off));
  }

  lemma NoRemovalIn(c: Config, t: nat, u: nat, off: nat)
    ensures forall a :: a in TwiceBy(c, t, u, off) ==> !a.Unlink? && !a.Rmdir?
  {
    hide BlockBytes;
  }

  /** All offsets of a block have its start, its bytes, and its downloads. */
  lemma SameBlockSame(c: Config, off: nat, off': nat)
    requires Quot(off, c.L) == Quot(off', c.L)
    ensures Start(c, off) == Start(c, off') && BlockBytes(c, off) == BlockBytes(c, off')
    ensures forall u :: DownloadBy(c, u, off) == DownloadBy(c, u, off')
    ensures forall files :: Filled(c, files, off) == Filled(c, files, off')
  {
    hide Written, Quot, Rem, BlockStart, Clip;
    if off <= off' { BlockOrder(off, off', c.L); } else { BlockOrder(off', off, c.L); }
  }

  lemma PassesWants(c: Config, r: Reader)
    requires Passes(c, r)
    ensures 0 < r.want
  {
  }

  /** Every run whose removals spare the downloads keeps every count at one at most. */
  ghost predicate OnceAlways(c: Config, s: State) {
    forall actions ::
      AllSpare(c, s, actions) ==> Exec(c, s, actions) != None && AtMostOnce(Exec(c, s, actions).value.wins)
  }

  /** And it does so if and only if no reader whose range passes its block's end shares the block with another one. */
  lemma OnceExactly(c: Config, s0: State)
    requires Init(s0)
    ensures OnceAlways(c, s0) <==> Apart(c, s0.readers)
  {
    hide Exec, AllSpare, Quot, Passes, AtMostOnce, CountInv;
    if Apart(c, s0.readers) {
      InitCount(c, s0);
      forall actions | AllSpare(c, s0, actions)
        ensures Exec(c, s0, actions) != None && AtMostOnce(Exec(c, s0, actions).value.wins)
      {
        CountRun(c, s0, actions);
      }
    } else {
      var t, u :| 0 <= t < |s0.readers| && 0 <= u < |s0.readers| && t != u && Passes(c, s0.readers[t])
                  && 0 < s0.readers[u].want && Quot(s0.readers[t].off, c.L) == Quot(s0.readers[u].off, c.L);
      var actions := TwiceBy(c, t, u, s0.readers[t].off);
      TwiceWithoutRemoval(c, s0, t, u);
      NoUnlinkSpares(c, s0, actions);
      TwoIsMore(Exec(c, s0, actions).value.wins, Quot(s0.readers[t].off, c.L));
    }
  }

  lemma TwoIsMore(wins: map<nat, nat>, b: nat)
    requires Wins(wins, b) == 2
    ensures !AtMostOnce(wins)
  {
  }

  /** The double check: in every interleaving whose removals spare the downloads, and whose readers are apart, files
      and reads are right, and each block has at most one successful download since its file was last removed. */
  lemma DoubleCheckedDownload(c: Config, s0: State, actions: seq<Action>)
    requires Init(s0) && AllSpare(c, s0, actions)
    ensures Exec(c, s0, actions) != None && Good(c, Exec(c, s0, actions).value)
    ensures Apart(c, s0.readers) ==> AtMostOnce(Exec(c, s0, actions).value.wins)
  {
    hide Exec, Good, AllSpare, Apart, AtMostOnce, CountInv;
    SparingRunsGood(c, s0, actions);
    if Apart(c, s0.readers) {
      InitCount(c, s0);
      CountRun(c, s0, actions);
    }
  }

  // ----- a removal at the wrong time ----------------------------------------

  /** A reclaim that comes when a download is over but for its end: the reader that waits for the mutex finds the
      block absent, and downloads it a second time. No file is removed in between. */
  lemma DownloadedTwice(c: Config, s: State, t: nat, u: nat)
    requires Inv(c, s) && t < |s.readers| && u < |s.readers|
    requires s.readers[t].pc.Fetching? && 0 < s.readers[t].pc.k == BlockBytes(c, s.readers[t].off)
    requires s.readers[u].pc.Waiting? && 0 < s.readers[u].want
    requires Quot(s.readers[u].off, c.L) == Quot(s.readers[t].off, c.L)
    ensures var b := Quot(s.readers[t].off, c.L);
            b in s.files &&
            var end := Exec(c, Apply(c, s, Unlink(b)), [Succeed(t), Reread(t)] + DownloadBy(c, u, s.readers[u].off));
            end != None && Wins(end.value.wins, b) == 2
  {
    hide Exec, Quot, BlockBytes, Start, ReadBytes, ReadError, DownloadBy, Fits, Right, Faithful, NothingLost, Filled;
    var r := s.readers[t];
    var b := Quot(r.off, c.L);
    assert Knows(c, s.files, r) && MutexHeld(s, t);
    OnDisk(c, s, r);
    var s1 := Apply(c, s, Unlink(b));
    var s2 := Apply(c, s1, Succeed(t));
    var s3 := Apply(c, s2, Reread(t));
    ExecTwo(c, s1, Succeed(t), Reread(t));
    assert s3.readers[u] == s.readers[u] && Wins(s3.wins, b) == 1;
    AbsentRead(s3.files, c.L, s.readers[u].off, s.readers[u].want);
    Downloads(c, s3, u);
    ExecAppend(c, s1, [Succeed(t), Reread(t)], DownloadBy(c, u, s.readers[u].off));
  }

  lemma OnDisk(c: Config, s: State, r: Reader)
    requires Knows(c, s.files, r) && r.pc.Fetching? && 0 < r.pc.k == BlockBytes(c, r.off)
    ensures Quot(r.off, c.L) in s.files
  {
    hide Quot, Rem, Right;
    InsideBlock(c, r.off, Start(c, r.off));
    assert At(s.files, c.L, Start(c, r.off)) != None;
  }
}
