/** The double check around the download, deeppool.torrent.cache.go: which reclaims leave it right, and what it is
    then worth: right files, one successful download a block, right bytes. */
module DoubleCheck {
  import opened Common
  import opened BlockStore
  import opened Ranges
  import opened Retrieval
  import opened Interleaving

  /** All of block b is on disk. */
  ghost predicate Whole(c: Config, files: Disk, b: nat) {
    forall j :: 0 <= j < |c.plain| && Quot(j, c.L) == b ==> At(files, c.L, j) != None
  }

  /** The first k bytes of the block holding off are on disk. */
  ghost predicate Present(c: Config, files: Disk, off: nat, k: nat) {
    forall j :: Start(c, off) <= j < Start(c, off) + k ==> At(files, c.L, j) != None
  }

  /** The block's file is gone, the download goes on, and what was lost are zeros: the next piece brings them back. */
  ghost predicate NothingLost(c: Config, off: nat, k: nat) {
    k < BlockBytes(c, off) && forall j :: Start(c, off) <= j < Start(c, off) + k && j < |c.plain| ==> c.plain[j] == 0
  }

  /** What a reader knows at each point, given the files. */
  ghost predicate Knows(c: Config, files: Disk, r: Reader) {
    && (r.pc.Missed? ==> Right(c.plain, r.off, r.pc.seen))
    && (r.pc.Fetching? || r.pc.Fetched? ==> Right(c.plain, r.off, r.pc.seen))
    && (r.pc.Fetching? ==>
          Present(c, files, r.off, r.pc.k) || (Quot(r.off, c.L) !in files && NothingLost(c, r.off, r.pc.k)))
    && (r.pc.Done? ==> Right(c.plain, r.off, r.pc.got) && (r.pc.err == None ==> |r.pc.got| == r.want))
  }

  /** What was downloaded is there. */
  ghost predicate Backed(c: Config, files: Disk, wins: map<nat, nat>) {
    forall b :: 0 < Wins(wins, b) ==> Whole(c, files, b)
  }

  ghost predicate Inv(c: Config, s: State) {
    && Basic(c, s)
    && Faithful(s.files, c.L, c.plain)
    && (forall t :: 0 <= t < |s.readers| ==> Knows(c, s.files, s.readers[t]))
    && Backed(c, s.files, s.wins)
  }

  lemma InitInv(c: Config, s: State)
    requires Init(s)
    ensures Inv(c, s)
  {
    hide Basic;
    InitBasic(c, s);
    EmptyFaithful(c.L, c.plain);
  }

  lemma ReadSeen(c: Config, files: Disk, r: Reader)
    requires Faithful(files, c.L, c.plain)
    ensures Right(c.plain, r.off, ReadBytes(files, c.L, r.off, r.want))
    ensures ReadError(files, c.L, r.off, r.want) == None ==> |ReadBytes(files, c.L, r.off, r.want)| == r.want
  {
    hide ReadBytes;
    ReadRight(files, c.L, c.plain, r.off, r.want);
  }

  // ----- readers' steps -----------------------------------------------------

  /** What the moved reader knows afterwards, when the files do not change. */
  lemma MoverKnows(c: Config, s: State, a: Action)
    requires Inv(c, s) && Enabled(c, s, a) && ByReader(a) && !a.Deliver? && !a.Succeed?
    ensures Knows(c, s.files, Apply(c, s, a).readers[a.t])
  {
    hide ReadError, ReadBytes, Quot, Rem, Faithful, At, Right, BlockBytes, Start, Wins, Backed, NothingLost, Fits;
    var r := s.readers[a.t];
    assert Knows(c, s.files, r) && Fits(c, r);
    ReadSeen(c, s.files, r);
  }

  lemma MoveInv(c: Config, s: State, a: Action)
    requires Inv(c, s) && Enabled(c, s, a) && ByReader(a) && !a.Deliver? && !a.Succeed?
    ensures Inv(c, Apply(c, s, a))
  {
    hide Fits, Advance, Ready, HoldsMutex, Knows, Backed, Faithful;
    var s' := Apply(c, s, a);
    assert Fits(c, s.readers[a.t]) && MutexHeld(s, a.t);
    MovesOne(c, s, a);
    StepBasic(c, s, a);
    MoverKnows(c, s, a);
  }

  /** The bytes of the block start inside it, and what lands next lies inside the plaintext. */
  lemma BlockLayout(c: Config, off: nat, k: nat)
    requires k <= BlockBytes(c, off) && 0 < BlockBytes(c, off)
    ensures Start(c, off) + k <= |c.plain| && k <= c.L && Quot(Start(c, off), c.L) == Quot(off, c.L)
    ensures Start(c, off) <= off && Rem(Start(c, off), c.L) == 0
    ensures k < c.L ==> Quot(Start(c, off) + k, c.L) == Quot(off, c.L) && Rem(Start(c, off) + k, c.L) == k
  {
    if k < c.L {
      SameBlock(Start(c, off), c.L, k);
    }
  }

  /** A piece of a download lands behind what was written: what is there, or what the hole brings back. */
  lemma Laid(c: Config, d: Disk, off: nat, k: nat, n: nat)
    requires Faithful(d, c.L, c.plain) && 0 < n && k + n <= BlockBytes(c, off)
    requires Present(c, d, off, k) || (Quot(off, c.L) !in d && NothingLost(c, off, k))
    ensures var start, at := Start(c, off), Start(c, off) + k;
            start + k + n <= |c.plain| &&
            var d' := Written(d, c.L, at, c.plain[at..at + n]);
            Overlaid(d, d', c.L, c.plain, start, k + n) && Faithful(d', c.L, c.plain)
  {
    hide Written, Quot, Rem, BlockStart, BlockBytes, At;
    var start, at := Start(c, off), Start(c, off) + k;
    BlockLayout(c, off, k + n);
    BlockLayout(c, off, k);
    var data := c.plain[at..at + n];
    var d' := Written(d, c.L, at, data);
    forall i: nat ensures At(d', c.L, i) == if start <= i < start + k + n then Some(c.plain[i]) else At(d, c.L, i) {
      WrittenIsFlat(d, c.L, at, data, i);
      LaidAt(c, d, off, k, i);
    }
  }

  /** The positions of the block that lie before the next piece. */
  lemma LaidAt(c: Config, d: Disk, off: nat, k: nat, i: nat)
    requires Faithful(d, c.L, c.plain) && k < BlockBytes(c, off)
    requires Present(c, d, off, k) || (Quot(off, c.L) !in d && NothingLost(c, off, k))
    ensures var start := Start(c, off);
            && Quot(start + k, c.L) == Quot(off, c.L)
            && (i < start + k ==> (Quot(i, c.L) == Quot(off, c.L) <==> start <= i))
            && (start <= i < start + k && i < |c.plain| ==>
                  if At(d, c.L, i) == None then c.plain[i] == 0 else At(d, c.L, i) == Some(c.plain[i]))
  {
    hide BlockBytes, BlockStart, Rem, Quot;
    var start := Start(c, off);
    BlockLayout(c, off, k);
    BlockLayout(c, off, BlockBytes(c, off));
    if start <= i < start + k {
      SameBlock(start, c.L, i - start);
    } else if i < start {
      BlockOrder(i, start, c.L);
    }
  }

  /** Laying bytes over the files makes no position unreadable. */
  lemma Grown(c: Config, d: Disk, d': Disk, off: nat, k: nat)
    requires Start(c, off) + k <= |c.plain| && Overlaid(d, d', c.L, c.plain, Start(c, off), k)
    ensures Present(c, d', off, k)
    ensures forall b :: Whole(c, d, b) ==> Whole(c, d', b)
  {
    hide At, Quot;
  }

  /** A piece of a download. The mutex keeps every other download out. */
  lemma DeliverInv(c: Config, s: State, t: nat, n: nat)
    requires Inv(c, s) && Enabled(c, s, Deliver(t, n))
    ensures Inv(c, Apply(c, s, Deliver(t, n)))
  {
    hide ReadError, ReadBytes, Quot, Rem, Faithful, At, Right, Fits, Start, Written, Wins, BlockBytes;
    hide NothingLost, Whole;
    var r := s.readers[t];
    var s' := Apply(c, s, Deliver(t, n));
    assert Knows(c, s.files, r) && MutexHeld(s, t);
    StepBasic(c, s, Deliver(t, n));
    Laid(c, s.files, r.off, r.pc.k, n);
    Grown(c, s.files, s'.files, r.off, r.pc.k + n);
    hide Overlaid, Present;
    forall u | 0 <= u < |s'.readers| ensures Knows(c, s'.files, s'.readers[u]) {
      assert Knows(c, s.files, s.readers[u]) && MutexHeld(s, u);
    }
  }

  /** The positions of the block holding off are its start and the bytes after it. */
  lemma WithinBlock(c: Config, off: nat, j: nat)
    requires j < |c.plain| && Quot(j, c.L) == Quot(off, c.L)
    ensures Start(c, off) <= j < Start(c, off) + BlockBytes(c, off)
  {
    var start := Start(c, off);
    if start <= j { BlockOrder(start, j, c.L); } else { BlockOrder(j, start, c.L); }
  }

  /** A download that ends well leaves its block whole. */
  lemma SucceedInv(c: Config, s: State, t: nat)
    requires Inv(c, s) && Enabled(c, s, Succeed(t))
    ensures Inv(c, Apply(c, s, Succeed(t)))
  {
    hide ReadError, ReadBytes, Quot, Rem, Faithful, At, Right, Fits, Start, BlockBytes;
    var r := s.readers[t];
    var s' := Apply(c, s, Succeed(t));
    var b := Quot(r.off, c.L);
    assert Knows(c, s.files, r) && MutexHeld(s, t);
    StepBasic(c, s, Succeed(t));
    forall j | 0 <= j < |c.plain| && Quot(j, c.L) == b ensures At(s.files, c.L, j) != None {
      WithinBlock(c, r.off, j);
    }
    assert Whole(c, s'.files, b);
    forall x | 0 < Wins(s'.wins, x) ensures Whole(c, s'.files, x) {
      assert x == b || 0 < Wins(s.wins, x);
    }
    forall u | 0 <= u < |s'.readers| ensures Knows(c, s'.files, s'.readers[u]) {
      assert Knows(c, s.files, s.readers[u]) && MutexHeld(s, u);
    }
  }

  // ----- what a reclaim may remove ------------------------------------------

  /** A step spares the downloads unless it removes the file of a block of which part was written, and the
      download is over but for its end, or a byte other than zero goes lost. */
  ghost predicate Spares(c: Config, s: State, a: Action) {
    a.Unlink? ==>
      forall t :: 0 <= t < |s.readers| ==>
        var r := s.readers[t];
        r.pc.Fetching? && Quot(r.off, c.L) == a.b && 0 < r.pc.k ==> NothingLost(c, r.off, r.pc.k)
  }

  /** Removing a block file takes that block's bytes, and no others. */
  lemma UnlinkedAt(c: Config, d: Disk, b: nat, j: nat)
    ensures At(d - {b}, c.L, j) == if Quot(j, c.L) == b then None else At(d, c.L, j)
  {
    hide Quot, Rem;
  }

  lemma UnlinkKnows(c: Config, s: State, b: nat, r: Reader)
    requires Knows(c, s.files, r) && (r.pc.Fetching? ==> r.pc.k <= BlockBytes(c, r.off))
    requires r.pc.Fetching? && Quot(r.off, c.L) == b && 0 < r.pc.k ==> NothingLost(c, r.off, r.pc.k)
    ensures Knows(c, s.files - {b}, r)
  {
    hide Quot, Rem, At, Right, BlockBytes, Start;
    if r.pc.Fetching? && Quot(r.off, c.L) != b && Present(c, s.files, r.off, r.pc.k) {
      forall j | Start(c, r.off) <= j < Start(c, r.off) + r.pc.k ensures At(s.files - {b}, c.L, j) != None {
        UnlinkedAt(c, s.files, b, j);
        BlockLayout(c, r.off, r.pc.k);
        InsideBlock(c, r.off, j);
      }
    }
  }

  lemma InsideBlock(c: Config, off: nat, j: nat)
    requires Start(c, off) <= j < Start(c, off) + BlockBytes(c, off)
    ensures Quot(j, c.L) == Quot(off, c.L)
  {
    hide Quot, Rem;
    SameBlock(Start(c, off), c.L, j - Start(c, off));
  }

  lemma UnlinkInv(c: Config, s: State, b: nat)
    requires Inv(c, s) && Enabled(c, s, Unlink(b)) && Spares(c, s, Unlink(b))
    ensures Inv(c, Apply(c, s, Unlink(b)))
  {
    hide Quot, Knows, At, Faithful, NothingLost, BlockBytes;
    var s' := Apply(c, s, Unlink(b));
    StepBasic(c, s, Unlink(b));
    FewerFiles(s.files, c.L, c.plain, {b});
    forall t | 0 <= t < |s'.readers| ensures Knows(c, s'.files, s'.readers[t]) {
      assert Fits(c, s.readers[t]);
      UnlinkKnows(c, s, b, s.readers[t]);
    }
    forall x | 0 < Wins(s'.wins, x) ensures Whole(c, s'.files, x) {
      assert x != b && 0 < Wins(s.wins, x);
      forall j | 0 <= j < |c.plain| && Quot(j, c.L) == x ensures At(s'.files, c.L, j) == At(s.files, c.L, j) {
        UnlinkedAt(c, s.files, b, j);
      }
    }
  }

  lemma DirInv(c: Config, s: State, a: Action)
    requires Inv(c, s) && Enabled(c, s, a) && (a.Rmdir? || a.Mkdir?)
    ensures Inv(c, Apply(c, s, a))
  {
    hide Knows, Faithful, Backed, Basic;
    StepBasic(c, s, a);
  }

  lemma StepInv(c: Config, s: State, a: Action)
    requires Inv(c, s) && Enabled(c, s, a) && Spares(c, s, a)
    ensures Inv(c, Apply(c, s, a))
  {
    hide Inv, Apply;
    match a
    case Unlink(b) => UnlinkInv(c, s, b);
    case Rmdir => DirInv(c, s, a);
    case Mkdir => DirInv(c, s, a);
    case Deliver(t, n) => DeliverInv(c, s, t, n);
    case Succeed(t) => SucceedInv(c, s, t);
    case _ => MoveInv(c, s, a);
  }

  // ----- whole runs ---------------------------------------------------------

  /** Every removal in the run spares the downloads of its moment. */
  ghost predicate AllSpare(c: Config, s: State, actions: seq<Action>)
    decreases |actions|
  {
    actions == []
    || (Enabled(c, s, actions[0]) && Spares(c, s, actions[0]) && AllSpare(c, Apply(c, s, actions[0]), actions[1..]))
  }

  lemma {:induction false} ExecInv(c: Config, s: State, actions: seq<Action>)
    requires Inv(c, s) && AllSpare(c, s, actions)
    ensures Exec(c, s, actions) != None && Inv(c, Exec(c, s, actions).value)
    decreases |actions|
  {
    hide Inv, Apply, Enabled, Spares;
    if actions == [] {
    } else {
      StepInv(c, s, actions[0]);
      ExecInv(c, Apply(c, s, actions[0]), actions[1..]);
    }
  }

  /** What a download and a read are worth: the files are right, a block that was downloaded since its file was last
      removed is there, and every finished read returned right bytes. */
  ghost predicate Good(c: Config, s: State) {
    && Faithful(s.files, c.L, c.plain)
    && Backed(c, s.files, s.wins)
    && forall t :: 0 <= t < |s.readers| && s.readers[t].pc.Done? ==>
         var r := s.readers[t];
         Right(c.plain, r.off, r.pc.got) && (r.pc.err == None ==> |r.pc.got| == r.want)
  }

  lemma InvGood(c: Config, s: State)
    requires Inv(c, s)
    ensures Good(c, s)
  {
    hide Faithful, Backed, Right, At, Basic;
    forall t | 0 <= t < |s.readers| && s.readers[t].pc.Done?
      ensures var r := s.readers[t]; Right(c.plain, r.off, r.pc.got) && (r.pc.err == None ==> |r.pc.got| == r.want)
    {
      assert Knows(c, s.files, s.readers[t]);
    }
  }

  /** Every interleaving in which reclaims spare the downloads is good, whatever the readers ask for. */
  lemma SparingRunsGood(c: Config, s0: State, actions: seq<Action>)
    requires Init(s0) && AllSpare(c, s0, actions)
    ensures Exec(c, s0, actions) != None && Good(c, Exec(c, s0, actions).value)
  {
    hide Exec, Inv, Good, AllSpare;
    InitInv(c, s0);
    ExecInv(c, s0, actions);
    InvGood(c, Exec(c, s0, actions).value);
  }

  // ----- and exactly those --------------------------------------------------

  /** Whatever happens next, as long as later removals spare the downloads, stays good. */
  ghost predicate StaysGood(c: Config, s: State) {
    forall actions :: AllSpare(c, s, actions) ==> Exec(c, s, actions) != None && Good(c, Exec(c, s, actions).value)
  }

  /** Removing a block file leaves everything good if and only if it spares the downloads under way. */
  lemma SparesExactly(c: Config, s: State, b: nat)
    requires Inv(c, s) && b in s.files
    ensures StaysGood(c, Apply(c, s, Unlink(b))) <==> Spares(c, s, Unlink(b))
  {
    hide Inv, Exec, AllSpare, Good, NothingLost;
    var s' := Apply(c, s, Unlink(b));
    if Spares(c, s, Unlink(b)) {
      UnlinkInv(c, s, b);
      forall actions | AllSpare(c, s', actions)
        ensures Exec(c, s', actions) != None && Good(c, Exec(c, s', actions).value)
      {
        ExecInv(c, s', actions);
        InvGood(c, Exec(c, s', actions).value);
      }
    } else {
      var t :| 0 <= t < |s.readers| && s.readers[t].pc.Fetching? && Quot(s.readers[t].off, c.L) == b
               && 0 < s.readers[t].pc.k && !NothingLost(c, s.readers[t].off, s.readers[t].pc.k);
      Spoils(c, s, t);
    }
  }

  /** A run without removals spares. */
  lemma NoRemovals(c: Config, s: State, a: Action)
    requires Enabled(c, s, a) && !a.Unlink?
    ensures AllSpare(c, s, [a]) && Exec(c, s, [a]) == Some(Apply(c, s, a))
    ensures forall b :: Enabled(c, Apply(c, s, a), b) && !b.Unlink? ==>
      AllSpare(c, s, [a, b]) && Exec(c, s, [a, b]) == Some(Apply(c, Apply(c, s, a), b))
  {
    hide Enabled, Apply;
    ExecOne(c, s, a);
    assert [a][1..] == [] && AllSpare(c, Apply(c, s, a), []);
    forall b | Enabled(c, Apply(c, s, a), b) && !b.Unlink?
      ensures AllSpare(c, s, [a, b]) && Exec(c, s, [a, b]) == Some(Apply(c, Apply(c, s, a), b))
    {
      ExecTwo(c, s, a, b);
      assert [a, b][1..] == [b] && [b][1..] == [];
      assert AllSpare(c, Apply(c, Apply(c, s, a), b), []);
    }
  }

  /** A removal that does not spare download t: either the download ends well with nothing on disk, or its next
      piece lands behind zeros that stand for other bytes. */
  lemma Spoils(c: Config, s: State, t: nat)
    requires Inv(c, s) && t < |s.readers| && s.readers[t].pc.Fetching? && 0 < s.readers[t].pc.k
    requires var r := s.readers[t]; Quot(r.off, c.L) in s.files && !NothingLost(c, r.off, r.pc.k)
    ensures !StaysGood(c, Apply(c, s, Unlink(Quot(s.readers[t].off, c.L))))
  {
    hide Exec, AllSpare, Quot, BlockBytes, Written, At, Start, Faithful, Right;
    var r := s.readers[t];
    var b := Quot(r.off, c.L);
    var s1 := Apply(c, s, Unlink(b));
    assert Fits(c, r) && Knows(c, s.files, r);
    if r.pc.k == BlockBytes(c, r.off) {
      NoRemovals(c, s1, Succeed(t));
      EmptyWin(c, s1, r.off, Apply(c, s1, Succeed(t)));
      assert !Good(c, Exec(c, s1, [Succeed(t)]).value);
    } else {
      NoRemovals(c, s1, Mkdir);
      HoleShows(c, s1.files, r.off, r.pc.k);
      assert !Good(c, Exec(c, s1, [Mkdir, Deliver(t, 1)]).value);
    }
  }

  lemma EmptyWin(c: Config, s1: State, off: nat, s2: State)
    requires 0 < BlockBytes(c, off) && Quot(off, c.L) !in s1.files && s2.files == s1.files
    requires 0 < Wins(s2.wins, Quot(off, c.L))
    ensures !Backed(c, s2.files, s2.wins)
  {
    hide Quot, Rem;
    BlockLayout(c, off, 1);
    assert At(s2.files, c.L, Start(c, off)) == None;
  }

  lemma HoleShows(c: Config, d: Disk, off: nat, k: nat)
    requires 0 < k < BlockBytes(c, off) && Quot(off, c.L) !in d && !NothingLost(c, off, k)
    ensures var at := Start(c, off) + k;
            at + 1 <= |c.plain| && !Faithful(Written(d, c.L, at, c.plain[at..at + 1]), c.L, c.plain)
  {
    hide Quot, Rem, Written, BlockBytes, Start;
    BlockLayout(c, off, k);
    BlockLayout(c, off, k + 1);
    var at := Start(c, off) + k;
    var i :| Start(c, off) <= i < at && i < |c.plain| && c.plain[i] != 0;
    InsideBlock(c, off, i);
    InsideBlock(c, off, at);
    WrittenIsFlat(d, c.L, at, c.plain[at..at + 1], i);
    assert At(Written(d, c.L, at, c.plain[at..at + 1]), c.L, i) == Some(0);
  }

}
