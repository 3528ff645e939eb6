/** import.filesystem.go: a producer, the worker pool, the results channel and the consumer that ranges over it.
    Submitted paths are known by their position; what a path is decides what its workload does. */
module Importer {
  import opened Common
  import opened Pool

  datatype Kind = Directory | StatFails | OpFails | OpSucceeds

  datatype Phase = Producing | Closing | ResultsClosed

  /** yielded: what went through the unbuffered results channel into the consumer's hands, in order.
      captured: the workloads' shared error; producerFailed: the producer's own.
      ended: the consumer's loop is over, and whether it then reports an error. */
  datatype State = State(
    pool: Pool.State, phase: Phase, yielded: seq<nat>,
    captured: bool, producerFailed: bool, ended: Option<bool>)

  datatype Action =
    | Submit(how: Pool.Action)        // arena.Run for the next path
    | TraversalFails                  // WalkDir gave an error; the producer goes on
    | ProducerStops(failed: bool)     // all paths submitted, or a path could not be looked at; Shutdown begins
    | Work(i: nat)                    // a workload returns without a result
    | Yield(i: nat)                   // a workload hands its result to the consumer, then returns
    | Internal(step: Pool.Action)     // Take, Swap, Exit
    | CloseResults                    // Shutdown returned
    | End                             // the consumer sees the closed channel

  function ResultOf(k: Kind): Result {
    match k
    case Directory => Ok
    case StatFails => Failed(0)
    case OpFails => Failed(1)
    case OpSucceeds => Ok
  }

  predicate BusyWith(paths: seq<Kind>, s: State, i: nat) {
    i < |s.pool.workers| && s.pool.workers[i].Busy? && s.pool.workers[i].w < |paths|
  }

  predicate Enabled(paths: seq<Kind>, s: State, a: Action) {
    match a
    case Submit(how) =>
      s.phase.Producing? && s.pool.accepted < |paths| && (how.Send? || how.Handoff?) && Pool.Enabled(s.pool, how)
    case TraversalFails => s.phase.Producing?
    case ProducerStops(failed) =>
      s.phase.Producing? && Pool.Enabled(s.pool, Close) && (failed || s.pool.accepted == |paths|)
    case Work(i) => BusyWith(paths, s, i) && !paths[s.pool.workers[i].w].OpSucceeds?
    case Yield(i) => BusyWith(paths, s, i) && paths[s.pool.workers[i].w].OpSucceeds? && s.ended == None
    case Internal(step) => (step.Take? || step.Swap? || step.Exit?) && Pool.Enabled(s.pool, step)
    case CloseResults => s.phase.Closing? && CloseReturns(s.pool)
    case End => s.phase.ResultsClosed? && s.ended == None
  }

  function Apply(paths: seq<Kind>, s: State, a: Action): State
    requires Enabled(paths, s, a)
  {
    match a
    case Submit(how) => s.(pool := Pool.Apply(s.pool, how))
    case TraversalFails => s.(producerFailed := true)
    case ProducerStops(failed) =>
      s.(phase := Closing, producerFailed := s.producerFailed || failed, pool := Pool.Apply(s.pool, Close))
    case Work(i) =>
      var k := paths[s.pool.workers[i].w];
      s.(pool := Pool.Apply(s.pool, Return(i, ResultOf(k))), captured := s.captured || k.OpFails?)
    case Yield(i) =>
      s.(yielded := s.yielded + [s.pool.workers[i].w], pool := Pool.Apply(s.pool, Return(i, Ok)))
    case Internal(step) => s.(pool := Pool.Apply(s.pool, step))
    case CloseResults => s.(phase := ResultsClosed)
    case End => s.(ended := Some(s.captured || s.producerFailed || CloseValue(s.pool) != Ok))
  }

  predicate Init(s: State) {
    && Pool.Init(s.pool) && s.pool.workers != []
    && s.phase.Producing? && s.yielded == [] && !s.captured && !s.producerFailed && s.ended == None
  }

  // ----- the invariant ------------------------------------------------------

  function Times(ids: seq<nat>, id: nat): nat {
    if ids == [] then 0 else Times(ids[..|ids| - 1], id) + if ids[|ids| - 1] == id then 1 else 0
  }

  /** Workloads that returned: held by a worker before its swap, or finished. */
  function ReturnedBy(workers: seq<Worker>, id: nat): nat {
    if workers == [] then 0
    else ReturnedBy(workers[1..], id) + if workers[0].Returned? && workers[0].w == id then 1 else 0
  }

  function Past(s: Pool.State, id: nat): nat {
    ReturnedBy(s.workers, id) + Finishes(s.finished, id)
  }

  lemma {:induction false} ReturnedByUpdate(workers: seq<Worker>, i: nat, w: Worker, id: nat)
    requires i < |workers|
    ensures ReturnedBy(workers[i := w], id)
            == ReturnedBy(workers, id) - (if workers[i].Returned? && workers[i].w == id then 1 else 0)
               + (if w.Returned? && w.w == id then 1 else 0)
    decreases |workers|
  {
    if i == 0 {
      assert workers[i := w][1..] == workers[1..];
    } else {
      assert workers[i := w][1..] == workers[1..][i - 1 := w];
      ReturnedByUpdate(workers[1..], i - 1, w, id);
    }
  }

  lemma {:induction false} NoneReturned(workers: seq<Worker>, id: nat)
    requires forall i :: 0 <= i < |workers| ==> !workers[i].Returned?
    ensures ReturnedBy(workers, id) == 0
    decreases |workers|
  {
    if workers == [] {
    } else {
      NoneReturned(workers[1..], id);
    }
  }

  /** What every workload that is past its return has left behind. */
  ghost predicate Accounted(paths: seq<Kind>, s: State, id: nat) {
    && Times(s.yielded, id) == (if id < |paths| && paths[id].OpSucceeds? then Past(s.pool, id) else 0)
    && (id < |paths| && paths[id].OpFails? && 0 < Past(s.pool, id) ==> s.captured)
  }

  /** Each workload is a submitted path, and its result is that of its kind. */
  ghost predicate ResultsKnown(paths: seq<Kind>, pool: Pool.State) {
    && pool.accepted <= |paths|
    && (forall i :: 0 <= i < |pool.workers| ==>
          var w := pool.workers[i];
          && (w.Busy? || w.Returned? ==> w.w < |paths|)
          && (w.Returned? ==> w.result == ResultOf(paths[w.w])))
    && (forall j :: 0 <= j < |pool.finished| ==>
          pool.finished[j].0 < |paths| && pool.finished[j].1 == ResultOf(paths[pool.finished[j].0]))
  }

  ghost predicate Inv(paths: seq<Kind>, s: State) {
    && Pool.Inv(s.pool) && s.pool.workers != [] && ResultsKnown(paths, s.pool)
    && (forall id: nat :: Accounted(paths, s, id))
    && (s.captured ==> exists id: nat :: id < |paths| && paths[id].OpFails? && 0 < Past(s.pool, id))
    && (s.phase.Producing? <==> !s.pool.closed)
    && (s.phase.ResultsClosed? ==> CloseReturns(s.pool))
    && (s.ended != None ==>
          && s.phase.ResultsClosed?
          && s.ended.value == (s.captured || s.producerFailed || CloseValue(s.pool) != Ok))
  }

  lemma InitInv(paths: seq<Kind>, s: State)
    requires Init(s)
    ensures Inv(paths, s)
  {
    Pool.InitInv(s.pool);
    forall id: nat ensures Accounted(paths, s, id) {
      NoneReturned(s.pool.workers, id);
    }
  }

  /** How a pool step changes what is past its return. */
  lemma PastStep(s: Pool.State, a: Pool.Action, id: nat)
    requires Pool.Enabled(s, a)
    ensures Past(Pool.Apply(s, a), id) == Past(s, id) + if a.Return? && s.workers[a.i].w == id then 1 else 0
  {
    hide ReturnedBy;
    var s' := Pool.Apply(s, a);
    if !a.Send? && !a.Close? {
      ReturnedByUpdate(s.workers, a.i, s'.workers[a.i], id);
    }
    if a.Swap? {
      assert s'.finished[..|s'.finished| - 1] == s.finished;
    }
  }

  /** The pool step inside an importer step. */
  function PoolStep(paths: seq<Kind>, s: State, a: Action): Option<Pool.Action>
    requires Enabled(paths, s, a)
  {
    match a
    case Submit(how) => Some(how)
    case ProducerStops(_) => Some(Close)
    case Work(i) => Some(Return(i, ResultOf(paths[s.pool.workers[i].w])))
    case Yield(i) => Some(Return(i, Ok))
    case Internal(step) => Some(step)
    case _ => None
  }

  /** An importer step with a pool step inside makes that pool step; it returns a workload when it works or yields. */
  lemma PoolStepIs(paths: seq<Kind>, s: State, a: Action)
    requires Enabled(paths, s, a)
    ensures match PoolStep(paths, s, a)
            case None => Apply(paths, s, a).pool == s.pool && !a.Work? && !a.Yield?
            case Some(step) =>
              && Pool.Enabled(s.pool, step) && Apply(paths, s, a).pool == Pool.Apply(s.pool, step)
              && (step.Return? <==> a.Work? || a.Yield?)
              && (step.Return? ==> step.i == a.i && BusyWith(paths, s, a.i))
  {
    hide Pool.Apply;
  }

  /** What a step adds to the yielded transfers and to the captured error. */
  lemma YieldedStep(paths: seq<Kind>, s: State, a: Action, id: nat)
    requires Enabled(paths, s, a)
    ensures var s' := Apply(paths, s, a);
            && Times(s'.yielded, id)
               == Times(s.yielded, id) + (if a.Yield? && s.pool.workers[a.i].w == id then 1 else 0)
            && (s'.captured <==> s.captured || (a.Work? && paths[s.pool.workers[a.i].w].OpFails?))
            && (a.Work? ==> !paths[s.pool.workers[a.i].w].OpSucceeds?)
            && (a.Yield? ==> paths[s.pool.workers[a.i].w].OpSucceeds?)
  {
    hide Pool.Apply, Pool.Enabled;
    if a.Yield? {
      assert Apply(paths, s, a).yielded[..|s.yielded|] == s.yielded;
    }
  }

  lemma AccountedStep(paths: seq<Kind>, s: State, a: Action, id: nat)
    requires Enabled(paths, s, a) && Accounted(paths, s, id)
    ensures Accounted(paths, Apply(paths, s, a), id)
    ensures Past(s.pool, id) <= Past(Apply(paths, s, a).pool, id)
  {
    hide Past, Apply, Pool.Apply, Pool.Enabled, PoolStep, Times;
    PoolStepIs(paths, s, a);
    YieldedStep(paths, s, a, id);
    if PoolStep(paths, s, a) != None {
      PastStep(s.pool, PoolStep(paths, s, a).value, id);
    }
  }

  lemma TakenFirst(pool: Pool.State)
    requires Pool.Inv(pool)
    ensures pool.taken <= pool.accepted
  {
  }

  lemma ResultsPoolStep(paths: seq<Kind>, pool: Pool.State, step: Pool.Action)
    requires pool.taken <= pool.accepted && ResultsKnown(paths, pool) && Pool.Enabled(pool, step)
    requires step.Send? || step.Handoff? ==> pool.accepted < |paths|
    requires step.Return? ==>
      var w := pool.workers[step.i].w; w < |paths| && step.result == ResultOf(paths[w])
    ensures ResultsKnown(paths, Pool.Apply(pool, step))
  {
    hide ResultOf;
  }

  lemma ResultsStep(paths: seq<Kind>, s: State, a: Action)
    requires s.pool.taken <= s.pool.accepted && ResultsKnown(paths, s.pool) && Enabled(paths, s, a)
    ensures ResultsKnown(paths, Apply(paths, s, a).pool)
  {
    hide ResultsKnown, Pool.Apply, Pool.Enabled;
    PoolStepIs(paths, s, a);
    if PoolStep(paths, s, a) != None {
      ResultsPoolStep(paths, s.pool, PoolStep(paths, s, a).value);
    }
  }

  lemma CapturedStep(paths: seq<Kind>, s: State, a: Action)
    requires Inv(paths, s) && Enabled(paths, s, a)
    ensures Apply(paths, s, a).captured ==>
      exists id: nat :: id < |paths| && paths[id].OpFails? && 0 < Past(Apply(paths, s, a).pool, id)
  {
    hide Accounted, Past, Pool.Inv, Apply, Pool.Apply, Pool.Enabled, PoolStep, ResultsKnown;
    var s' := Apply(paths, s, a);
    PoolStepIs(paths, s, a);
    if a.Work? && paths[s.pool.workers[a.i].w].OpFails? {
      var id := s.pool.workers[a.i].w;
      PastStep(s.pool, PoolStep(paths, s, a).value, id);
      assert 0 < Past(s'.pool, id);
    } else if s.captured {
      var id: nat :| id < |paths| && paths[id].OpFails? && 0 < Past(s.pool, id);
      AccountedStep(paths, s, a, id);
      YieldedStep(paths, s, a, id);
    } else {
      YieldedStep(paths, s, a, 0);
    }
  }

  lemma StepInv(paths: seq<Kind>, s: State, a: Action)
    requires Inv(paths, s) && Enabled(paths, s, a)
    ensures Inv(paths, Apply(paths, s, a))
  {
    hide Accounted, Past, Pool.Inv, ResultsKnown;
    var s' := Apply(paths, s, a);
    var step := PoolStep(paths, s, a);
    if step != None {
      Pool.StepInv(s.pool, step.value);
    }
    TakenFirst(s.pool);
    ResultsStep(paths, s, a);
    CapturedStep(paths, s, a);
    forall id: nat ensures Accounted(paths, s', id) {
      AccountedStep(paths, s, a, id);
    }
  }

  // ----- whole runs ---------------------------------------------------------

  function Exec(paths: seq<Kind>, s: State, actions: seq<Action>): Option<State>
    decreases |actions|
  {
    if actions == [] then Some(s)
    else if Enabled(paths, s, actions[0]) then Exec(paths, Apply(paths, s, actions[0]), actions[1..])
    else None
  }

  lemma {:induction false} ExecInv(paths: seq<Kind>, s: State, actions: seq<Action>)
    requires Inv(paths, s)
    ensures Exec(paths, s, actions) != None ==> Inv(paths, Exec(paths, s, actions).value)
    decreases |actions|
  {
    hide Inv;
    if actions == [] {
    } else if Enabled(paths, s, actions[0]) {
      StepInv(paths, s, actions[0]);
      ExecInv(paths, Apply(paths, s, actions[0]), actions[1..]);
    }
  }

  /** No workload is left that could send on the closed results channel. */
  lemma NoSendAfterClose(paths: seq<Kind>, s0: State, actions: seq<Action>, i: nat)
    requires Init(s0)
    ensures Exec(paths, s0, actions) != None ==>
      var s := Exec(paths, s0, actions).value;
      s.phase.ResultsClosed? ==> i < |s.pool.workers| ==> s.pool.workers[i].Exited?
  {
    hide Exec, Accounted;
    InitInv(paths, s0);
    ExecInv(paths, s0, actions);
  }

  /** The producer's failure is one of its steps. */
  lemma {:induction false} ProducerFailsExactly(paths: seq<Kind>, s: State, actions: seq<Action>)
    ensures Exec(paths, s, actions) != None ==>
      (Exec(paths, s, actions).value.producerFailed
       <==> s.producerFailed || TraversalFails in actions || ProducerStops(true) in actions)
    decreases |actions|
  {
    hide Pool.Apply, Pool.Enabled;
    if actions == [] {
    } else if Enabled(paths, s, actions[0]) {
      assert actions == [actions[0]] + actions[1..];
      ProducerFailsExactly(paths, Apply(paths, s, actions[0]), actions[1..]);
    }
  }

  /** The producer stops only when all paths are submitted, or one could not be looked at. */
  lemma {:induction false} AllSubmitted(paths: seq<Kind>, s: State, actions: seq<Action>)
    requires Inv(paths, s) && (s.phase.Producing? || s.pool.accepted == |paths|)
    ensures Exec(paths, s, actions) != None ==>
      var s' := Exec(paths, s, actions).value;
      s'.phase.Producing? || s'.pool.accepted == |paths| || ProducerStops(true) in actions
    decreases |actions|
  {
    hide Inv, Pool.Enabled;
    if actions == [] {
    } else if Enabled(paths, s, actions[0]) {
      assert actions == [actions[0]] + actions[1..];
      StepInv(paths, s, actions[0]);
      if actions[0] != ProducerStops(true) {
        StaysSubmitted(paths, s, actions[0]);
        AllSubmitted(paths, Apply(paths, s, actions[0]), actions[1..]);
      }
    }
  }

  lemma StaysSubmitted(paths: seq<Kind>, s: State, a: Action)
    requires Enabled(paths, s, a) && a != ProducerStops(true) && (s.phase.Producing? || s.pool.accepted == |paths|)
    ensures var s' := Apply(paths, s, a); s'.phase.Producing? || s'.pool.accepted == |paths|
  {
  }

  /** Over every run, when the consumer's loop ends: each submitted path was yielded, skipped as a directory, or
      failed, exactly once and by its kind; an error is reported exactly when the producer or an operation failed,
      or the first workload to finish did. */
  lemma ImportConserves(paths: seq<Kind>, s0: State, actions: seq<Action>)
    requires Init(s0)
    ensures Exec(paths, s0, actions) != None ==>
      var s := Exec(paths, s0, actions).value;
      s.ended != None ==>
        && s.pool.accepted <= |paths| && (s.pool.accepted == |paths| || ProducerStops(true) in actions)
        && (forall id: nat :: id < s.pool.accepted ==>
              && Times(s.yielded, id) == (if paths[id].OpSucceeds? then 1 else 0)
              && Finishes(s.pool.finished, id) == 1)
        && (forall id: nat :: s.pool.accepted <= id ==> Times(s.yielded, id) == Finishes(s.pool.finished, id) == 0)
        && (forall j :: 0 <= j < |s.pool.finished| ==>
              var f := s.pool.finished[j];
              f.0 < |paths| && (f.1 == Ok <==> paths[f.0].Directory? || paths[f.0].OpSucceeds?))
        && (s.ended.value <==>
              || TraversalFails in actions || ProducerStops(true) in actions
              || (exists id: nat :: id < s.pool.accepted && paths[id].OpFails?)
              || (s.pool.finished != [] &&
                    var k := paths[s.pool.finished[0].0]; !k.Directory? && !k.OpSucceeds?))
  {
    hide Exec, HeldBy, ReturnedBy, Finishes, Times;
    ProducerFailsExactly(paths, s0, actions);
    InitInv(paths, s0);
    AllSubmitted(paths, s0, actions);
    ExecInv(paths, s0, actions);
    if Exec(paths, s0, actions) != None && Exec(paths, s0, actions).value.ended != None {
      var s := Exec(paths, s0, actions).value;
      assert s.pool.workers[0].Exited?;
      forall id: nat
        ensures Finishes(s.pool.finished, id) == if id < s.pool.accepted then 1 else 0
        ensures Past(s.pool, id) == if id < s.pool.accepted then 1 else 0
        ensures Times(s.yielded, id) == if id < s.pool.accepted && paths[id].OpSucceeds? then 1 else 0
      {
        HeldByNone(s.pool.workers, id);
        NoneReturned(s.pool.workers, id);
        assert Places(s.pool, id) == if id < s.pool.accepted then 1 else 0;
        assert Accounted(paths, s, id);
      }
      if id: nat :| id < s.pool.accepted && paths[id].OpFails? {
        assert Accounted(paths, s, id);
      }
    }
  }

  // ----- every import ends --------------------------------------------------

  /** The work left: paths to submit, the pool's own work, and what the producer and the consumer still have to do. */
  function ToDo(paths: seq<Kind>, s: State): int {
    4 * (|paths| - s.pool.accepted) + Pool.Left(s.pool)
    + (match s.phase case Producing => 2 case Closing => 1 case ResultsClosed => 0)
    + (if s.ended == None then 1 else 0)
  }

  /** Every step but a failed traversal, after which the producer goes on, leaves less to do. */
  lemma StepsDown(paths: seq<Kind>, s: State, a: Action)
    requires Inv(paths, s) && Enabled(paths, s, a)
    ensures 0 <= ToDo(paths, Apply(paths, s, a))
    ensures ToDo(paths, Apply(paths, s, a)) + (if a.TraversalFails? then 0 else 1) <= ToDo(paths, s)
  {
    hide Accounted, Past, Places, ResultOf, Pool.Apply, Pool.Enabled;
    StepInv(paths, s, a);
    PoolStepIs(paths, s, a);
    TakenFirst(s.pool);
    TakenFirst(Apply(paths, s, a).pool);
    if PoolStep(paths, s, a) != None {
      PoolLeft(s.pool, PoolStep(paths, s, a).value);
    }
  }

  lemma NotNegative(paths: seq<Kind>, s: State)
    requires Inv(paths, s)
    ensures 0 <= ToDo(paths, s)
  {
    hide Accounted, Past, Places, ResultOf;
  }

  lemma PoolLeft(pool: Pool.State, step: Pool.Action)
    requires pool.taken <= pool.accepted && Pool.Enabled(pool, step)
    ensures var pool' := Pool.Apply(pool, step);
            && pool'.accepted == pool.accepted + (if step.Send? || step.Handoff? then 1 else 0)
            && Pool.Left(pool') + (if step.Close? then 0 else if step.Send? || step.Handoff? then -3 else 1)
               <= Pool.Left(pool)
  {
    hide Ranks;
    if !step.Send? && !step.Close? {
      RanksUpdate(pool.workers, step.i, Pool.Apply(pool, step).workers[step.i]);
    }
  }

  /** A step that some goroutine of an import can take without anything failing. */
  predicate GoesWell(a: Action) {
    !a.TraversalFails? && a != ProducerStops(true)
  }

  /** Until the consumer's loop has ended, some such step is possible. */
  lemma Moves(paths: seq<Kind>, s: State)
    requires Inv(paths, s) && s.ended == None
    ensures exists a :: GoesWell(a) && Enabled(paths, s, a)
  {
    hide Accounted, Past, Places, ResultOf;
    if s.phase.ResultsClosed? {
      assert GoesWell(End) && Enabled(paths, s, End);
    } else if CloseReturns(s.pool) {
      assert GoesWell(CloseResults) && Enabled(paths, s, CloseResults);
    } else if s.phase.Producing? {
      WorkerMoves(paths, s, 0);
      if s.pool.accepted < |paths| {
        assert GoesWell(Submit(Handoff(0)));
      } else {
        assert GoesWell(ProducerStops(false)) && Enabled(paths, s, ProducerStops(false));
      }
    } else {
      var i: nat :| i < |s.pool.workers| && !s.pool.workers[i].Exited?;
      WorkerMoves(paths, s, i);
    }
  }

  lemma WorkerMoves(paths: seq<Kind>, s: State, i: nat)
    requires Inv(paths, s) && s.ended == None && i < |s.pool.workers| && !s.phase.ResultsClosed?
    requires s.phase.Producing? || !s.pool.workers[i].Exited?
    ensures || (exists a :: GoesWell(a) && Enabled(paths, s, a))
            || (s.phase.Producing? && Pool.Enabled(s.pool, Handoff(i)))
    ensures s.phase.Producing? && s.pool.accepted < |paths| && Pool.Enabled(s.pool, Handoff(i)) ==>
      Enabled(paths, s, Submit(Handoff(i)))
  {
    hide Accounted, Past, Places, ResultOf;
    var w := s.pool.workers[i];
    assert !w.Exited?;
    if w.Busy? {
      var a := if paths[w.w].OpSucceeds? then Yield(i) else Work(i);
      assert GoesWell(a) && Enabled(paths, s, a);
    } else if w.Returned? {
      assert GoesWell(Internal(Swap(i))) && Enabled(paths, s, Internal(Swap(i)));
    } else if s.pool.taken < s.pool.accepted {
      assert GoesWell(Internal(Take(i))) && Enabled(paths, s, Internal(Take(i)));
    } else if !s.phase.Producing? {
      assert GoesWell(Internal(Exit(i))) && Enabled(paths, s, Internal(Exit(i)));
    }
  }

  function Steps(actions: seq<Action>): nat {
    if actions == [] then 0 else (if actions[0].TraversalFails? then 0 else 1) + Steps(actions[1..])
  }

  lemma {:induction false} StepsBounded(paths: seq<Kind>, s: State, actions: seq<Action>)
    requires Inv(paths, s)
    ensures Exec(paths, s, actions) != None ==>
      Steps(actions) + ToDo(paths, Exec(paths, s, actions).value) <= ToDo(paths, s)
    decreases |actions|
  {
    hide Inv, Apply, Enabled, ToDo;
    if actions == [] {
    } else if Enabled(paths, s, actions[0]) {
      StepInv(paths, s, actions[0]);
      StepsDown(paths, s, actions[0]);
      StepsBounded(paths, Apply(paths, s, actions[0]), actions[1..]);
    }
  }

  /** Every import ends: over every run the steps, but for failed traversals, are bounded by what there is to do, and
      until the consumer's loop has ended one of them is possible, with nothing failing. */
  lemma ImportEnds(paths: seq<Kind>, s0: State, actions: seq<Action>)
    requires Init(s0) && Exec(paths, s0, actions) != None
    ensures var s := Exec(paths, s0, actions).value;
            && 0 <= ToDo(paths, s) && Steps(actions) + ToDo(paths, s) <= ToDo(paths, s0)
            && (s.ended != None || exists a :: GoesWell(a) && Enabled(paths, s, a))
  {
    hide Exec, Inv, Enabled, ToDo;
    InitInv(paths, s0);
    ExecInv(paths, s0, actions);
    StepsBounded(paths, s0, actions);
    NotNegative(paths, Exec(paths, s0, actions).value);
    if Exec(paths, s0, actions).value.ended == None {
      Moves(paths, Exec(paths, s0, actions).value);
    }
  }

  /** A traversal can fail as long as the producer works; an import that then ends reports an error. */
  lemma TraversalReported(paths: seq<Kind>, s0: State, before: seq<Action>, after: seq<Action>)
    requires Init(s0) && Exec(paths, s0, before) != None && Exec(paths, s0, before).value.phase.Producing?
    ensures var s := Exec(paths, s0, before).value;
            Enabled(paths, s, TraversalFails) &&
            (Exec(paths, Apply(paths, s, TraversalFails), after) != None ==>
               var end := Exec(paths, Apply(paths, s, TraversalFails), after).value.ended;
               end != None ==> end.value)
  {
    hide Exec, Inv;
    InitInv(paths, s0);
    ExecInv(paths, s0, before);
    var s := Exec(paths, s0, before).value;
    var s1 := Apply(paths, s, TraversalFails);
    StepInv(paths, s, TraversalFails);
    ExecInv(paths, s1, after);
    ProducerFailsExactly(paths, s1, after);
    if Exec(paths, s1, after) != None {
      EndedIs(paths, Exec(paths, s1, after).value);
    }
  }

  lemma EndedIs(paths: seq<Kind>, s: State)
    requires Inv(paths, s)
    ensures s.ended != None && s.producerFailed ==> s.ended.value
  {
  }
}
