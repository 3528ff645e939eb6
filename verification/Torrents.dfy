/** deeppool.torrent.cache.go: the torrents of one storage. Each has its files, latch and readers; the mutex is one
    for all of them. */
module Torrents {
  import opened Common
  import opened BlockStore
  import opened Interleaving

  /** A step of one torrent. */
  datatype Move = Move(i: nat, a: Action)

  predicate AllFree(states: seq<State>) {
    forall j :: 0 <= j < |states| ==> states[j].owner == None
  }

  /** A reader of any torrent gets the mutex only when no reader of any torrent has it. */
  predicate Possible(cs: seq<Config>, states: seq<State>, m: Move)
    requires |cs| == |states|
  {
    m.i < |states| && Enabled(cs[m.i], states[m.i], m.a) && (m.a.Acquire? ==> AllFree(states))
  }

  function Make(cs: seq<Config>, states: seq<State>, m: Move): (r: seq<State>)
    requires |cs| == |states| && Possible(cs, states, m)
    ensures |r| == |states|
  {
    states[m.i := Apply(cs[m.i], states[m.i], m.a)]
  }

  function Play(cs: seq<Config>, states: seq<State>, moves: seq<Move>): (r: Option<seq<State>>)
    requires |cs| == |states|
    ensures r != None ==> |r.value| == |states|
    decreases |moves|
  {
    if moves == [] then Some(states)
    else if Possible(cs, states, moves[0]) then Play(cs, Make(cs, states, moves[0]), moves[1..])
    else None
  }

  /** The steps of torrent i. */
  function Project(moves: seq<Move>, i: nat): seq<Action> {
    if moves == [] then []
    else (if moves[0].i == i then [moves[0].a] else []) + Project(moves[1..], i)
  }

  /** What one torrent goes through is a run of it alone, so every law about such runs holds of it. */
  lemma {:induction false} ProjectsToRun(cs: seq<Config>, states: seq<State>, moves: seq<Move>, i: nat)
    requires |cs| == |states| && i < |states| && Play(cs, states, moves) != None
    ensures Exec(cs[i], states[i], Project(moves, i)) == Some(Play(cs, states, moves).value[i])
    decreases |moves|
  {
    hide Enabled, Apply, AllFree;
    if moves == [] {
      assert Exec(cs[i], states[i], []) == Some(states[i]);
    } else {
      ProjectsToRun(cs, Make(cs, states, moves[0]), moves[1..], i);
      if moves[0].i == i {
        ExecCons(cs[i], states[i], moves[0].a, Project(moves[1..], i));
      } else {
        assert [] + Project(moves[1..], i) == Project(moves[1..], i);
      }
    }
  }

  ghost predicate OneOwner(states: seq<State>) {
    forall i, j ::
      0 <= i < |states| && 0 <= j < |states| && states[i].owner != None && states[j].owner != None ==> i == j
  }

  ghost predicate AllBasic(cs: seq<Config>, states: seq<State>)
    requires |cs| == |states|
  {
    forall i :: 0 <= i < |states| ==> Basic(cs[i], states[i])
  }

  /** Only Acquire takes the mutex. */
  lemma OnlyAcquireTakes(c: Config, s: State, a: Action)
    requires Enabled(c, s, a) && !a.Acquire? && s.owner == None
    ensures Apply(c, s, a).owner == None
  {
    hide ReadBytes, ReadError, Written, Start, Quot, Wins, BlockBytes;
  }

  lemma {:induction false} PlayInv(cs: seq<Config>, states: seq<State>, moves: seq<Move>)
    requires |cs| == |states| && AllBasic(cs, states) && OneOwner(states)
    ensures Play(cs, states, moves) != None ==>
      AllBasic(cs, Play(cs, states, moves).value) && OneOwner(Play(cs, states, moves).value)
    decreases |moves|
  {
    hide Enabled, Apply, Basic;
    if moves == [] {
    } else if Possible(cs, states, moves[0]) {
      var m := moves[0];
      StepBasic(cs[m.i], states[m.i], m.a);
      if !m.a.Acquire? && states[m.i].owner == None {
        OnlyAcquireTakes(cs[m.i], states[m.i], m.a);
      }
      PlayInv(cs, Make(cs, states, m), moves[1..]);
    }
  }

  /** Torrents just opened. */
  predicate Opened(states: seq<State>) {
    forall i :: 0 <= i < |states| ==> Init(states[i])
  }

  lemma OpenedInv(cs: seq<Config>, states: seq<State>)
    requires |cs| == |states| && Opened(states)
    ensures AllBasic(cs, states) && OneOwner(states)
  {
    hide Basic;
    forall i | 0 <= i < |states| ensures Basic(cs[i], states[i]) && states[i].owner == None {
      assert Init(states[i]);
      InitBasic(cs[i], states[i]);
    }
  }

  /** Over every run of all the torrents: at most one download is in flight in the whole storage. */
  lemma OneDownloadInStorage(cs: seq<Config>, states: seq<State>, moves: seq<Move>, i: nat, t: int, j: nat, u: int)
    requires |cs| == |states| && Opened(states) && i < |states| && j < |states|
    ensures var end := Play(cs, states, moves);
            end != None && FetchesNow(end.value[i], t) && FetchesNow(end.value[j], u) ==> i == j && t == u
  {
    hide Play, Fits, Opened;
    OpenedInv(cs, states);
    PlayInv(cs, states, moves);
    var end := Play(cs, states, moves);
    if end != None && FetchesNow(end.value[i], t) && FetchesNow(end.value[j], u) {
      assert Basic(cs[i], end.value[i]) && Basic(cs[j], end.value[j]);
      assert MutexHeld(end.value[i], t) && MutexHeld(end.value[j], u);
    }
  }

  /** And the one mutex lets nobody wait for ever: until all readers of all torrents are done one can take a step. */
  lemma StorageMoves(cs: seq<Config>, states: seq<State>, moves: seq<Move>, i: nat, t: nat)
    requires |cs| == |states| && Opened(states) && i < |states|
    requires Play(cs, states, moves) != None
    requires var end := Play(cs, states, moves).value; t < |end[i].readers| && !end[i].readers[t].pc.Done?
    ensures exists m: Move :: ByReader(m.a) && Possible(cs, Play(cs, states, moves).value, m)
  {
    hide Play, Fits, Opened, Enabled;
    OpenedInv(cs, states);
    PlayInv(cs, states, moves);
    var end := Play(cs, states, moves).value;
    var j: nat := i;
    if k: nat :| k < |end| && end[k].owner != None {
      j := k;
    }
    assert Basic(cs[j], end[j]) && Basic(cs[i], end[i]);
    var u := if end[j].owner == None then t else end[j].owner.value;
    assert MutexHeld(end[j], u);
    StepReady(cs[j], end[j], u);
    var m := Move(j, NextStep(u, end[j].readers[u].pc));
    assert ByReader(m.a) && Possible(cs, end, m);
  }

  lemma StepReady(c: Config, s: State, u: nat)
    requires u < |s.readers| && MutexHeld(s, u) && !s.readers[u].pc.Done?
    requires s.owner == None || s.owner == Some(u)
    ensures var a := NextStep(u, s.readers[u].pc);
            ByReader(a) && Enabled(c, s, a) && (a.Acquire? ==> s.owner == None)
  {
    hide BlockBytes;
  }
}
