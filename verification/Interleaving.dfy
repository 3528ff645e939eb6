/** deeppool.torrent.cache.go: readers of one torrent under every interleaving, and a reclaim among them.
    Each action is one step between which others may run: a positional read of one block file, the latch
    check, taking the mutex, one piece of a download landing on disk, its end, the removal of one file. */
module Interleaving {
  import opened Common
  import opened BlockStore
  import opened Ranges
  import opened Retrieval

  datatype Config = Config(plain: seq<Byte>, L: BlockLength)

  datatype Pc =
    | First
    | Missed(seen: seq<Byte>)              // the block file was absent; the latch is looked at next
    | Waiting                              // for the mutex
    | Locked                               // holds the mutex, about to look again
    // holds the mutex; the second look gave seen and why; k bytes of the block were written
    | Fetching(seen: seq<Byte>, why: Error, k: nat)
    // holds the mutex; the download succeeded
    | Fetched(seen: seq<Byte>, why: Error)
    | Done(got: seq<Byte>, err: Option<Error>)

  datatype Reader = Reader(off: nat, want: nat, pc: Pc)

  /** dir: the block directory exists. wins counts each block's successful downloads since its file was last removed. */
  datatype State = State(
    files: Disk, dir: bool, blocked: bool, owner: Option<nat>, readers: seq<Reader>, wins: map<nat, nat>)

  datatype Action =
    | FirstRead(t: nat)
    | CheckLatch(t: nat)
    | Acquire(t: nat)
    | SecondRead(t: nat)
    | Deliver(t: nat, n: nat)
    | Succeed(t: nat)
    | Fail(t: nat, unrecoverable: bool)
    | QueryFails(t: nat)    // the lookup fails, before its row was there or after the row's download
    | Reread(t: nat)
    | Unlink(b: nat)    // Reclaim removes the block files one by one ...
    | Rmdir             // ... and then the directory; it takes no mutex
    | Mkdir             // an open makes the directory again

  predicate ByReader(a: Action) {
    !a.Unlink? && !a.Rmdir? && !a.Mkdir?
  }

  function Start(c: Config, off: nat): nat {
    BlockStart(off, c.L)
  }

  /** The plaintext of the block holding off. */
  function Block(c: Config, off: nat): seq<Byte> {
    Clip(c.plain, Start(c, off), Start(c, off) + c.L)
  }

  function BlockBytes(c: Config, off: nat): nat {
    |Block(c, off)|
  }

  function Wins(wins: map<nat, nat>, b: nat): nat {
    if b in wins then wins[b] else 0
  }

  predicate Enabled(c: Config, s: State, a: Action) {
    match a
    case Unlink(b) => b in s.files
    case Rmdir => s.dir && s.files == map[]
    case Mkdir => true
    case _ => a.t < |s.readers| && Ready(c, s, s.readers[a.t], a)
  }

  predicate Ready(c: Config, s: State, r: Reader, a: Action) {
    match a
    case FirstRead(_) => r.pc.First?
    case CheckLatch(_) => r.pc.Missed?
    case Acquire(_) => r.pc.Waiting? && s.owner == None
    case SecondRead(_) => r.pc.Locked?
    case Deliver(_, n) => s.dir && r.pc.Fetching? && 0 < n && r.pc.k + n <= BlockBytes(c, r.off)
    case Succeed(_) => r.pc.Fetching? && r.pc.k == BlockBytes(c, r.off)
    case Fail(_, _) => r.pc.Fetching?
    case QueryFails(_) => (r.pc.Fetching? && r.pc.k == 0) || r.pc.Fetched?
    case Reread(_) => r.pc.Fetched?
    case _ => false
  }

  function Goto(s: State, t: nat, pc: Pc): State
    requires t < |s.readers|
  {
    s.(readers := s.readers[t := s.readers[t].(pc := pc)])
  }

  /** A reader's step. */
  function Advance(c: Config, s: State, a: Action): State
    requires ByReader(a) && Enabled(c, s, a)
  {
    var r := s.readers[a.t];
    var got, err := ReadBytes(s.files, c.L, r.off, r.want), ReadError(s.files, c.L, r.off, r.want);
    match a
    case FirstRead(t) => Goto(s, t, if err == Some(NotExist) then Missed(got) else Done(got, err))
    case CheckLatch(t) => Goto(s, t, if s.blocked then Done(r.pc.seen, Some(CacheUnrecoverable)) else Waiting)
    case Acquire(t) => Goto(s, t, Locked).(owner := Some(t))
    case SecondRead(t) =>
      if err == None then Goto(s, t, Done(got, err)).(owner := None) else Goto(s, t, Fetching(got, err.value, 0))
    case Deliver(t, n) =>
      var at := Start(c, r.off) + r.pc.k;
      Goto(s, t, Fetching(r.pc.seen, r.pc.why, r.pc.k + n)).(files := Written(s.files, c.L, at, c.plain[at..at + n]))
    case Succeed(t) =>
      var b := Quot(r.off, c.L);
      Goto(s, t, Fetched(r.pc.seen, r.pc.why)).(wins := s.wins[b := Wins(s.wins, b) + 1])
    case Fail(t, unrecoverable) =>
      Goto(s, t, Done(r.pc.seen, Some(Remote(unrecoverable)))).(owner := None, blocked := s.blocked || unrecoverable)
    case QueryFails(t) => Goto(s, t, Done(r.pc.seen, Some(r.pc.why))).(owner := None)
    case Reread(t) => Goto(s, t, Done(got, err)).(owner := None)
  }

  function Apply(c: Config, s: State, a: Action): State
    requires Enabled(c, s, a)
  {
    match a
    case Unlink(b) => s.(files := s.files - {b}, wins := s.wins - {b})
    case Rmdir => s.(dir := false)
    case Mkdir => s.(dir := true)
    case _ => Advance(c, s, a)
  }

  /** A torrent just opened, its directory empty; any readers, whatever they ask for. */
  predicate Init(s: State) {
    && s.files == map[] && s.dir && !s.blocked && s.owner == None && s.wins == map[]
    && forall t :: 0 <= t < |s.readers| ==> s.readers[t].pc.First?
  }

  /** The state after a list of actions, if each one was enabled. */
  function Exec(c: Config, s: State, actions: seq<Action>): Option<State>
    decreases |actions|
  {
    if actions == [] then Some(s)
    else if Enabled(c, s, actions[0]) then Exec(c, Apply(c, s, actions[0]), actions[1..])
    else None
  }

  lemma ExecCons(c: Config, s: State, a: Action, rest: seq<Action>)
    requires Enabled(c, s, a)
    ensures Exec(c, s, [a] + rest) == Exec(c, Apply(c, s, a), rest)
  {
    hide Enabled, Apply;
    assert ([a] + rest)[1..] == rest;
  }

  lemma ExecOne(c: Config, s: State, a: Action)
    requires Enabled(c, s, a)
    ensures Exec(c, s, [a]) == Some(Apply(c, s, a))
  {
    hide Enabled, Apply;
    ExecCons(c, s, a, []);
    assert [a] + [] == [a];
  }

  lemma ExecTwo(c: Config, s: State, a: Action, b: Action)
    requires Enabled(c, s, a) && Enabled(c, Apply(c, s, a), b)
    ensures Exec(c, s, [a, b]) == Some(Apply(c, Apply(c, s, a), b))
  {
    hide Exec, Enabled, Apply;
    ExecOne(c, Apply(c, s, a), b);
    ExecCons(c, s, a, [b]);
    assert [a] + [b] == [a, b];
  }

  lemma {:induction false} ExecAppend(c: Config, s: State, a: seq<Action>, b: seq<Action>)
    ensures Exec(c, s, a + b) == if Exec(c, s, a) == None then None else Exec(c, Exec(c, s, a).value, b)
    decreases |a|
  {
    hide Enabled, Apply;
    if a == [] {
      assert a + b == b;
    } else {
      assert (a + b)[1..] == a[1..] + b;
      if Enabled(c, s, a[0]) {
        ExecAppend(c, Apply(c, s, a[0]), a[1..], b);
      }
    }
  }

  /** A reader's step moves that reader. */
  lemma AdvanceMoves(c: Config, s: State, a: Action)
    requires ByReader(a) && Enabled(c, s, a)
    ensures var readers' := Advance(c, s, a).readers;
            |readers'| == |s.readers| && readers' == s.readers[a.t := s.readers[a.t].(pc := readers'[a.t].pc)]
  {
    hide ReadBytes, ReadError, Written, Start, Quot, Wins, BlockBytes;
  }

  lemma SameLength(c: Config, s: State, a: Action)
    requires Enabled(c, s, a)
    ensures |Apply(c, s, a).readers| == |s.readers|
  {
    hide Advance, Ready;
    if ByReader(a) {
      AdvanceMoves(c, s, a);
    }
  }

  /** A reader's range never changes, and only its own steps move it. */
  lemma SameRange(c: Config, s: State, t: nat, a: Action)
    requires Enabled(c, s, a) && t < |s.readers|
    ensures var s' := Apply(c, s, a);
            && |s'.readers| == |s.readers|
            && s'.readers[t].off == s.readers[t].off && s'.readers[t].want == s.readers[t].want
            && (!ByReader(a) || a.t != t ==> s'.readers[t] == s.readers[t])
  {
    hide Advance, Ready;
    if ByReader(a) {
      AdvanceMoves(c, s, a);
    }
  }

  // ----- what holds in every run, reclaims and all --------------------------

  predicate HoldsMutex(pc: Pc) {
    pc.Locked? || pc.Fetching? || pc.Fetched?
  }

  /** A download stays inside its block. */
  predicate Fits(c: Config, r: Reader) {
    r.pc.Fetching? ==> r.pc.k <= BlockBytes(c, r.off)
  }

  predicate MutexHeld(s: State, t: nat)
    requires t < |s.readers|
  {
    s.owner == Some(t) <==> HoldsMutex(s.readers[t].pc)
  }

  ghost predicate Basic(c: Config, s: State) {
    && (s.owner != None ==> s.owner.value < |s.readers|)
    && (forall t :: 0 <= t < |s.readers| ==> Fits(c, s.readers[t]))
    && (forall t :: 0 <= t < |s.readers| ==> MutexHeld(s, t))
  }

  /** A step moves one reader, which takes or gives back the mutex only for itself. */
  lemma MovesOne(c: Config, s: State, a: Action)
    requires ByReader(a) && Enabled(c, s, a) && Fits(c, s.readers[a.t]) && MutexHeld(s, a.t)
    ensures var s' := Apply(c, s, a);
            && s'.readers == s.readers[a.t := s.readers[a.t].(pc := s'.readers[a.t].pc)]
            && Fits(c, s'.readers[a.t]) && MutexHeld(s', a.t)
            && (s'.owner == s.owner || (s.owner == None && s'.owner == Some(a.t))
                || (s.owner == Some(a.t) && s'.owner == None))
            && (!a.Deliver? ==> s'.files == s.files)
            && (!a.Succeed? ==> s'.wins == s.wins)
  {
    hide Advance, Ready, Fits;
    AdvanceMoves(c, s, a);
    MoverFits(c, s, a);
    MoverOwns(c, s, a);
  }

  lemma MoverFits(c: Config, s: State, a: Action)
    requires ByReader(a) && Enabled(c, s, a) && Fits(c, s.readers[a.t]) && MutexHeld(s, a.t)
    ensures var s' := Advance(c, s, a);
            a.t < |s'.readers| && Fits(c, s'.readers[a.t]) && MutexHeld(s', a.t)
  {
    hide ReadBytes, ReadError, Written, BlockStart, BlockBytes, Wins, Quot;
    AdvanceMoves(c, s, a);
    if a.Deliver? {
      assert Advance(c, s, a).readers[a.t].pc.k == s.readers[a.t].pc.k + a.n;
    }
  }

  lemma MoverOwns(c: Config, s: State, a: Action)
    requires ByReader(a) && Enabled(c, s, a) && MutexHeld(s, a.t)
    ensures var s' := Advance(c, s, a);
            && (s'.owner == s.owner || (s.owner == None && s'.owner == Some(a.t))
                || (s.owner == Some(a.t) && s'.owner == None))
            && (!a.Deliver? ==> s'.files == s.files)
            && (!a.Succeed? ==> s'.wins == s.wins)
  {
    hide ReadBytes, ReadError, Written, Start, BlockBytes, Wins, Quot;
  }

  lemma StepBasic(c: Config, s: State, a: Action)
    requires Basic(c, s) && Enabled(c, s, a)
    ensures Basic(c, Apply(c, s, a))
  {
    hide Fits, Advance, HoldsMutex, Ready;
    var s' := Apply(c, s, a);
    if ByReader(a) {
      assert Fits(c, s.readers[a.t]) && MutexHeld(s, a.t);
      MovesOne(c, s, a);
    }
    forall t | 0 <= t < |s'.readers| ensures Fits(c, s'.readers[t]) && MutexHeld(s', t) {
      assert Fits(c, s.readers[t]) && MutexHeld(s, t);
    }
  }

  lemma {:induction false} ExecBasic(c: Config, s: State, actions: seq<Action>)
    requires Basic(c, s)
    ensures Exec(c, s, actions) != None ==> Basic(c, Exec(c, s, actions).value)
    decreases |actions|
  {
    hide Basic, Apply, Enabled;
    if actions == [] {
    } else if Enabled(c, s, actions[0]) {
      StepBasic(c, s, actions[0]);
      ExecBasic(c, Apply(c, s, actions[0]), actions[1..]);
    }
  }

  lemma InitBasic(c: Config, s: State)
    requires Init(s)
    ensures Basic(c, s)
  {
    hide InBlock, BlockBytes;
  }

  predicate FetchesNow(s: State, t: int) {
    0 <= t < |s.readers| && s.readers[t].pc.Fetching?
  }

  /** In every interleaving, whatever a reclaim removes and when: at most one download is in flight. */
  lemma OneDownloadInFlight(c: Config, s0: State, actions: seq<Action>, t: int, u: int)
    requires Init(s0)
    ensures var end := Exec(c, s0, actions);
            end != None && FetchesNow(end.value, t) && FetchesNow(end.value, u) ==> t == u
  {
    hide Exec, Fits;
    InitBasic(c, s0);
    ExecBasic(c, s0, actions);
    var end := Exec(c, s0, actions);
    if end != None && FetchesNow(end.value, t) && FetchesNow(end.value, u) {
      assert MutexHeld(end.value, t) && MutexHeld(end.value, u);
    }
  }

  // ----- every read comes to an end -----------------------------------------

  /** How many steps a reader has left at most. */
  function Rank(c: Config, r: Reader): nat {
    var len := BlockBytes(c, r.off);
    match r.pc
    case First => 6 + len
    case Missed(_) => 5 + len
    case Waiting => 4 + len
    case Locked => 3 + len
    case Fetching(_, _, k) => if k <= len then 2 + len - k else 2
    case Fetched(_, _) => 1
    case Done(_, _) => 0
  }

  function Work(c: Config, readers: seq<Reader>): nat {
    if readers == [] then 0 else Rank(c, readers[0]) + Work(c, readers[1..])
  }

  lemma {:induction false} WorkUpdate(c: Config, readers: seq<Reader>, t: nat, r: Reader)
    requires t < |readers|
    ensures Work(c, readers[t := r]) == Work(c, readers) - Rank(c, readers[t]) + Rank(c, r)
    decreases t
  {
    hide Rank;
    if t == 0 {
      assert readers[t := r][1..] == readers[1..];
    } else {
      WorkUpdate(c, readers[1..], t - 1, r);
      assert readers[t := r][1..] == readers[1..][t - 1 := r];
    }
  }

  lemma StepWorks(c: Config, s: State, a: Action)
    requires Basic(c, s) && Enabled(c, s, a)
    ensures Work(c, Apply(c, s, a).readers) + (if ByReader(a) then 1 else 0) <= Work(c, s.readers)
  {
    hide ReadBytes, ReadError, Written, InBlock, Start, Clip, Block, BlockBytes, Wins, Quot, Work;
    if ByReader(a) {
      var s' := Apply(c, s, a);
      assert Fits(c, s.readers[a.t]) && MutexHeld(s, a.t);
      MovesOne(c, s, a);
      WorkUpdate(c, s.readers, a.t, s'.readers[a.t]);
    }
  }

  /** How many of the actions are readers' steps. */
  function ReaderSteps(actions: seq<Action>): nat {
    if actions == [] then 0 else (if ByReader(actions[0]) then 1 else 0) + ReaderSteps(actions[1..])
  }

  lemma {:induction false} StepsBounded(c: Config, s: State, actions: seq<Action>)
    requires Basic(c, s)
    ensures Exec(c, s, actions) != None ==>
      ReaderSteps(actions) + Work(c, Exec(c, s, actions).value.readers) <= Work(c, s.readers)
    decreases |actions|
  {
    hide Basic, Apply, Enabled, Work, ByReader;
    if actions == [] {
    } else if Enabled(c, s, actions[0]) {
      StepBasic(c, s, actions[0]);
      StepWorks(c, s, actions[0]);
      StepsBounded(c, Apply(c, s, actions[0]), actions[1..]);
    }
  }

  /** The step an unfinished reader can take when nobody else holds the mutex; a download can always fail. */
  function NextStep(t: nat, pc: Pc): Action {
    match pc
    case First => FirstRead(t)
    case Missed(_) => CheckLatch(t)
    case Waiting => Acquire(t)
    case Locked => SecondRead(t)
    case Fetching(_, _, _) => Fail(t, false)
    case _ => Reread(t)
  }

  /** Nobody waits for ever: in every run the readers take no more steps than their number and block lengths
      allow, and until all of them are done one of them can take a step. */
  lemma ReadersFinish(c: Config, s0: State, actions: seq<Action>)
    requires Init(s0)
    ensures var end := Exec(c, s0, actions);
            end != None ==>
              && ReaderSteps(actions) + Work(c, end.value.readers) <= Work(c, s0.readers)
              && ((forall t :: 0 <= t < |end.value.readers| ==> end.value.readers[t].pc.Done?)
                  || exists a :: ByReader(a) && Enabled(c, end.value, a))
  {
    hide Exec, Fits, Work, ReaderSteps;
    InitBasic(c, s0);
    ExecBasic(c, s0, actions);
    StepsBounded(c, s0, actions);
    var end := Exec(c, s0, actions);
    if end != None {
      var s := end.value;
      if t :| 0 <= t < |s.readers| && !s.readers[t].pc.Done? {
        var u := if s.owner == None then t else s.owner.value;
        assert MutexHeld(s, u) && MutexHeld(s, t);
        assert Enabled(c, s, NextStep(u, s.readers[u].pc)) && ByReader(NextStep(u, s.readers[u].pc));
      }
    }
  }

  // ----- the directory ------------------------------------------------------

  /** Once a reclaim has removed the directory, no byte lands and no block file appears until an open makes it again. */
  lemma {:induction false} NoDirectoryNoBytes(c: Config, s: State, actions: seq<Action>)
    requires Enabled(c, s, Rmdir) && Mkdir !in actions && Exec(c, Apply(c, s, Rmdir), actions) != None
    ensures !Lands(actions) && Exec(c, Apply(c, s, Rmdir), actions).value.files == map[]
  {
    hide Exec;
    NothingWithout(c, Apply(c, s, Rmdir), actions);
  }

  lemma {:induction false} NothingWithout(c: Config, s: State, actions: seq<Action>)
    requires !s.dir && s.files == map[] && Mkdir !in actions && Exec(c, s, actions) != None
    ensures !Lands(actions) && Exec(c, s, actions).value.files == map[]
    decreases |actions|
  {
    hide ReadBytes, ReadError, Written, Start, Quot, Wins, BlockBytes;
    if actions == [] {
    } else {
      assert actions == [actions[0]] + actions[1..];
      NothingWithout(c, Apply(c, s, actions[0]), actions[1..]);
    }
  }

  /** A reclaim can run through at any moment: file by file, and then the directory. */
  lemma {:induction false} ReclaimGoesThrough(c: Config, s: State) returns (actions: seq<Action>)
    requires s.dir
    ensures Exec(c, s, actions) != None && forall a :: a in actions ==> a.Unlink? || a.Rmdir?
    ensures var s' := Exec(c, s, actions).value;
            s'.files == map[] && !s'.dir && s'.readers == s.readers && s'.owner == s.owner && s'.blocked == s.blocked
    decreases s.files.Keys
  {
    if s.files == map[] {
      actions := [Rmdir];
      ExecOne(c, s, Rmdir);
    } else {
      var b :| b in s.files;
      var rest := ReclaimGoesThrough(c, Apply(c, s, Unlink(b)));
      actions := [Unlink(b)] + rest;
      ExecCons(c, s, Unlink(b), rest);
    }
  }

  // ----- the latch ----------------------------------------------------------

  /** Past the latch check, with bytes still to come. */
  predicate MayLand(c: Config, r: Reader) {
    || ((r.pc.Waiting? || r.pc.Locked?) && 0 < r.want && 0 < BlockBytes(c, r.off))
    || (r.pc.Fetching? && r.pc.k < BlockBytes(c, r.off))
  }

  ghost predicate SomeMayLand(c: Config, s: State) {
    exists t :: 0 <= t < |s.readers| && MayLand(c, s.readers[t])
  }

  predicate Lands(actions: seq<Action>) {
    exists a :: a in actions && a.Deliver?
  }

  /** Some run from here puts bytes on disk. */
  ghost predicate CanLand(c: Config, s: State) {
    exists actions :: Exec(c, s, actions) != None && Lands(actions)
  }

  /** Once the latch is set, bytes can still land on disk if and only if some reader was already past the check:
      waiting for the mutex or about to look again, for bytes of a block that has some, or in an unfinished
      download. */
  lemma LatchExactly(c: Config, s: State)
    requires Basic(c, s) && s.blocked
    ensures CanLand(c, s) <==> SomeMayLand(c, s)
  {
    hide Exec, Basic, BlockBytes;
    if SomeMayLand(c, s) {
      var t :| 0 <= t < |s.readers| && MayLand(c, s.readers[t]);
      match s.readers[t].pc {
        case Waiting => WaitingLands(c, s, t);
        case Locked => LockedLands(c, s, t);
        case Fetching(_, _, _) => FetchingLands(c, s, t);
      }
    } else {
      forall actions | Exec(c, s, actions) != None ensures !Lands(actions) {
        NothingLands(c, s, actions);
      }
    }
  }

  /** A reader that the latch still has to let by, or that is done. */
  predicate Outside(pc: Pc) {
    pc.First? || pc.Missed? || pc.Done?
  }

  lemma StaysOut(c: Config, s: State, a: Action, t: nat)
    requires s.blocked && t < |s.readers| && Outside(s.readers[t].pc) && Enabled(c, s, a)
    ensures var s' := Apply(c, s, a); s'.blocked && t < |s'.readers| && Outside(s'.readers[t].pc)
  {
    hide ReadBytes, ReadError, Written, Start, Quot, Wins, BlockBytes;
    SameRange(c, s, t, a);
  }

  /** Once the latch is set, no reader that is not past the check yet ever gets to wait for the mutex, or to
      download, in any run. */
  lemma {:induction false} LatchedOut(c: Config, s: State, actions: seq<Action>, t: nat)
    requires s.blocked && t < |s.readers| && Outside(s.readers[t].pc) && Exec(c, s, actions) != None
    ensures var s' := Exec(c, s, actions).value;
            s'.blocked && t < |s'.readers| && Outside(s'.readers[t].pc)
    decreases |actions|
  {
    hide Apply, Enabled, Outside;
    if actions == [] {
    } else {
      StaysOut(c, s, actions[0], t);
      LatchedOut(c, Apply(c, s, actions[0]), actions[1..], t);
    }
  }

  lemma NothingWanted(d: Disk, L: BlockLength, off: nat)
    ensures ReadError(d, L, off, 0) == None
  {
  }

  /** A look at an absent block. */
  lemma AbsentRead(d: Disk, L: BlockLength, off: nat, want: nat)
    requires 0 < want && Quot(off, L) !in d
    ensures ReadBytes(d, L, off, want) == [] && ReadError(d, L, off, want) == Some(NotExist)
  {
  }

  lemma NoneMayLand(c: Config, s: State, a: Action)
    requires s.blocked && !SomeMayLand(c, s) && Enabled(c, s, a)
    ensures !a.Deliver? && Apply(c, s, a).blocked && !SomeMayLand(c, Apply(c, s, a))
  {
    hide BlockBytes, ReadBytes, ReadError, Written, Start, Quot, Wins;
    var s' := Apply(c, s, a);
    if ByReader(a) {
      assert !MayLand(c, s.readers[a.t]);
      NothingWanted(s.files, c.L, s.readers[a.t].off);
      assert !MayLand(c, s'.readers[a.t]);
    }
    forall t | 0 <= t < |s'.readers| ensures !MayLand(c, s'.readers[t]) {
      SameRange(c, s, t, a);
      assert !MayLand(c, s.readers[t]);
    }
  }

  lemma {:induction false} NothingLands(c: Config, s: State, actions: seq<Action>)
    requires s.blocked && !SomeMayLand(c, s) && Exec(c, s, actions) != None
    ensures !Lands(actions)
    decreases |actions|
  {
    hide Apply, Enabled, SomeMayLand;
    if actions == [] {
    } else {
      NoneMayLand(c, s, actions[0]);
      NothingLands(c, Apply(c, s, actions[0]), actions[1..]);
      assert actions == [actions[0]] + actions[1..];
    }
  }

  lemma LandsLater(c: Config, s: State, a: Action)
    requires Enabled(c, s, a) && CanLand(c, Apply(c, s, a))
    ensures CanLand(c, s)
  {
    hide Exec, Enabled, Apply;
    var rest :| Exec(c, Apply(c, s, a), rest) != None && Lands(rest);
    ExecCons(c, s, a, rest);
    var d: Action :| d in rest && d.Deliver?;
    assert d in [a] + rest;
  }

  lemma FetchingLands(c: Config, s: State, t: nat)
    requires t < |s.readers| && s.readers[t].pc.Fetching? && s.readers[t].pc.k < BlockBytes(c, s.readers[t].off)
    ensures CanLand(c, s)
  {
    hide Exec, BlockBytes, Written, Start;
    ExecTwo(c, s, Mkdir, Deliver(t, 1));
    assert Deliver(t, 1) in [Mkdir, Deliver(t, 1)];
  }

  lemma LockedLands(c: Config, s: State, t: nat)
    requires t < |s.readers| && s.readers[t].pc.Locked? && MayLand(c, s.readers[t])
    ensures CanLand(c, s)
  {
    hide Quot, CanLand, Exec, BlockBytes;
    var b := Quot(s.readers[t].off, c.L);
    if b in s.files {
      AbsentLands(c, Apply(c, s, Unlink(b)), t);
      LandsLater(c, s, Unlink(b));
    } else {
      AbsentLands(c, s, t);
    }
  }

  /** Looking again, the reader finds its block absent and begins a download. */
  lemma AbsentLands(c: Config, s: State, t: nat)
    requires t < |s.readers| && s.readers[t].pc.Locked? && MayLand(c, s.readers[t])
    requires Quot(s.readers[t].off, c.L) !in s.files
    ensures CanLand(c, s)
  {
    hide ReadBytes, ReadError, Quot, CanLand, BlockBytes, Exec;
    AbsentRead(s.files, c.L, s.readers[t].off, s.readers[t].want);
    FetchingLands(c, Apply(c, s, SecondRead(t)), t);
    LandsLater(c, s, SecondRead(t));
  }

  lemma WaitingLands(c: Config, s: State, t: nat)
    requires Basic(c, s) && t < |s.readers| && s.readers[t].pc.Waiting? && MayLand(c, s.readers[t])
    ensures CanLand(c, s)
    decreases s.owner != None, true
  {
    hide ReadBytes, ReadError, CanLand, BlockBytes, Exec;
    if s.owner == None {
      LockedLands(c, Apply(c, s, Acquire(t)), t);
      LandsLater(c, s, Acquire(t));
    } else {
      OwnerEnds(c, s, t, s.owner.value);
    }
  }

  /** The holder of the mutex lands a byte, or gives the mutex back. */
  lemma OwnerEnds(c: Config, s: State, t: nat, u: nat)
    requires Basic(c, s) && t < |s.readers| && s.readers[t].pc.Waiting? && MayLand(c, s.readers[t])
    requires s.owner == Some(u)
    ensures CanLand(c, s)
    decreases true, false
  {
    hide CanLand, BlockBytes, Exec, Apply, Enabled, Fits;
    assert MutexHeld(s, u) && MutexHeld(s, t);
    var pc := s.readers[u].pc;
    if MayLand(c, s.readers[u]) {
      if pc.Locked? { LockedLands(c, s, u); } else { FetchingLands(c, s, u); }
    } else {
      GivesBack(c, s, u);
      var a := if pc.Locked? then SecondRead(u) else if pc.Fetching? then Fail(u, false) else Reread(u);
      var s' := Apply(c, s, a);
      StepBasic(c, s, a);
      SameRange(c, s, t, a);
      if s'.owner == None {
        WaitingLands(c, s', t);
      } else {
        var s2 := Apply(c, s', Fail(u, false));
        StepBasic(c, s', Fail(u, false));
        SameRange(c, s', t, Fail(u, false));
        WaitingLands(c, s2, t);
        LandsLater(c, s', Fail(u, false));
      }
      LandsLater(c, s, a);
    }
  }

  /** The holder can give the mutex back, by its second look or by a failure after it. */
  lemma GivesBack(c: Config, s: State, u: nat)
    requires u < |s.readers| && HoldsMutex(s.readers[u].pc)
    ensures var pc := s.readers[u].pc;
            var a := if pc.Locked? then SecondRead(u) else if pc.Fetching? then Fail(u, false) else Reread(u);
            Enabled(c, s, a) &&
            var s' := Apply(c, s, a);
            s'.owner == None
            || (pc.Locked? && Enabled(c, s', Fail(u, false)) && Apply(c, s', Fail(u, false)).owner == None)
  {
    hide ReadBytes, ReadError, BlockBytes;
  }
}
