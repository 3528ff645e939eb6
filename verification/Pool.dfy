/** asyncompute.go: the worker pool, one action for each step between which goroutines may interleave.
    A workload's identity is its position in the order of acceptance; the channel is first in, first out. */
module Pool {
  import opened Common

  datatype Result = Ok | Failed(code: nat)

  datatype Worker =
    | Idle
    | Busy(w: nat)                        // the workload runs
    | Returned(w: nat, result: Result)    // it returned; the compare-and-swap is next
    | Exited

  /** Workloads in [taken, accepted) are queued. failed is the pointer of the compare-and-swap. */
  datatype State = State(
    capacity: nat, accepted: nat, taken: nat, workers: seq<Worker>,
    finished: seq<(nat, Result)>, failed: Option<Result>, closed: bool)

  datatype Action =
    | Send                            // Run puts a workload in the buffer
    | Handoff(i: nat)                 // or straight into the hands of an idle worker
    | Take(i: nat)
    | Return(i: nat, result: Result)
    | Swap(i: nat)
    | Close
    | Exit(i: nat)

  predicate Enabled(s: State, a: Action) {
    match a
    case Send => !s.closed && s.accepted < s.taken + s.capacity
    case Handoff(i) => !s.closed && s.taken == s.accepted && i < |s.workers| && s.workers[i].Idle?
    case Take(i) => i < |s.workers| && s.workers[i].Idle? && s.taken < s.accepted
    case Return(i, _) => i < |s.workers| && s.workers[i].Busy?
    case Swap(i) => i < |s.workers| && s.workers[i].Returned?
    case Close => !s.closed
    case Exit(i) => i < |s.workers| && s.workers[i].Idle? && s.closed && s.taken == s.accepted
  }

  function Apply(s: State, a: Action): State
    requires Enabled(s, a)
  {
    match a
    case Send => s.(accepted := s.accepted + 1)
    case Handoff(i) => s.(accepted := s.accepted + 1, taken := s.taken + 1, workers := s.workers[i := Busy(s.taken)])
    case Take(i) => s.(taken := s.taken + 1, workers := s.workers[i := Busy(s.taken)])
    case Return(i, result) => s.(workers := s.workers[i := Returned(s.workers[i].w, result)])
    case Swap(i) =>
      var done := s.workers[i];
      s.(workers := s.workers[i := Idle],
         finished := s.finished + [(done.w, done.result)],
         failed := if s.failed == None then Some(done.result) else s.failed)
    case Close => s.(closed := true)
    case Exit(i) => s.(workers := s.workers[i := Exited])
  }

  predicate Init(s: State) {
    && s.accepted == s.taken == 0 && s.finished == [] && s.failed == None && !s.closed
    && forall i :: 0 <= i < |s.workers| ==> s.workers[i].Idle?
  }

  /** Every worker's deferred Done has run, so Close's Wait is over. */
  predicate CloseReturns(s: State) {
    s.closed && forall i :: 0 <= i < |s.workers| ==> s.workers[i].Exited?
  }

  /** Autoderef of the pointer: nil when nobody swapped. */
  function CloseValue(s: State): Result {
    if s.failed == None then Ok else s.failed.value
  }

  // ----- where a workload is ------------------------------------------------

  function Holds(w: Worker, id: nat): nat {
    if (w.Busy? || w.Returned?) && w.w == id then 1 else 0
  }

  function HeldBy(workers: seq<Worker>, id: nat): nat {
    if workers == [] then 0 else Holds(workers[0], id) + HeldBy(workers[1..], id)
  }

  function Queued(s: State, id: nat): nat {
    if s.taken <= id < s.accepted then 1 else 0
  }

  function Finishes(finished: seq<(nat, Result)>, id: nat): nat {
    if finished == [] then 0
    else Finishes(finished[..|finished| - 1], id) + if finished[|finished| - 1].0 == id then 1 else 0
  }

  /** In how many places workload id is: queued, held by a worker, finished. */
  function Places(s: State, id: nat): nat {
    Queued(s, id) + HeldBy(s.workers, id) + Finishes(s.finished, id)
  }

  lemma {:induction false} HeldByUpdate(workers: seq<Worker>, i: nat, w: Worker, id: nat)
    requires i < |workers|
    ensures HeldBy(workers[i := w], id) == HeldBy(workers, id) - Holds(workers[i], id) + Holds(w, id)
    decreases |workers|
  {
    if i == 0 {
      assert workers[i := w][1..] == workers[1..];
    } else {
      assert workers[i := w][1..] == workers[1..][i - 1 := w];
      HeldByUpdate(workers[1..], i - 1, w, id);
    }
  }

  lemma {:induction false} HeldByNone(workers: seq<Worker>, id: nat)
    requires forall i :: 0 <= i < |workers| ==> Holds(workers[i], id) == 0
    ensures HeldBy(workers, id) == 0
    decreases |workers|
  {
    if workers == [] {
    } else {
      HeldByNone(workers[1..], id);
    }
  }

  /** Accepted workloads are the disjoint union of queued, running and finished ones;
      the pointer is the result of the first one to reach the swap. */
  ghost predicate Inv(s: State) {
    && s.taken <= s.accepted
    && (forall id: nat :: Places(s, id) == if id < s.accepted then 1 else 0)
    && s.failed == (if s.finished == [] then None else Some(s.finished[0].1))
    && (forall i :: 0 <= i < |s.workers| && s.workers[i].Exited? ==> s.closed && s.taken == s.accepted)
  }

  lemma InitInv(s: State)
    requires Init(s)
    ensures Inv(s)
  {
    forall id: nat ensures Places(s, id) == 0 {
      HeldByNone(s.workers, id);
    }
  }

  lemma StepInv(s: State, a: Action)
    requires Inv(s) && Enabled(s, a)
    ensures Inv(Apply(s, a))
    ensures s.failed != None ==> Apply(s, a).failed == s.failed
  {
    var s' := Apply(s, a);
    forall id: nat ensures Places(s', id) == if id < s'.accepted then 1 else 0 {
      PlacesStep(s, a, id);
    }
  }

  lemma PlacesStep(s: State, a: Action, id: nat)
    requires Enabled(s, a) && s.taken <= s.accepted
    ensures Places(Apply(s, a), id) == Places(s, id) + if (a.Send? || a.Handoff?) && id == s.accepted then 1 else 0
  {
    hide HeldBy;
    var s' := Apply(s, a);
    if !a.Send? && !a.Close? {
      HeldByUpdate(s.workers, a.i, s'.workers[a.i], id);
    }
    if a.Swap? {
      assert s'.finished[..|s'.finished| - 1] == s.finished;
    }
  }

  // ----- whole runs ---------------------------------------------------------

  function Exec(s: State, actions: seq<Action>): Option<State>
    decreases |actions|
  {
    if actions == [] then Some(s)
    else if Enabled(s, actions[0]) then Exec(Apply(s, actions[0]), actions[1..])
    else None
  }

  lemma {:induction false} ExecInv(s: State, actions: seq<Action>)
    requires Inv(s)
    ensures Exec(s, actions) != None ==>
      var s' := Exec(s, actions).value;
      Inv(s') && |s'.workers| == |s.workers| && (s.failed != None ==> s'.failed == s.failed)
    decreases |actions|
  {
    hide Inv;
    if actions == [] {
    } else if Enabled(s, actions[0]) {
      StepInv(s, actions[0]);
      ExecInv(Apply(s, actions[0]), actions[1..]);
    }
  }

  /** Over every run: when Close returns, every accepted workload has finished exactly once, exactly when there
      was a worker at all (or nothing to do); and the value is the result of the first workload to swap. */
  lemma CloseIsComplete(s0: State, actions: seq<Action>)
    requires Init(s0)
    ensures Exec(s0, actions) != None ==>
      var s := Exec(s0, actions).value;
      && (forall id: nat :: Places(s, id) == if id < s.accepted then 1 else 0)
      && (CloseReturns(s) ==>
            && ((forall id: nat :: Finishes(s.finished, id) == if id < s.accepted then 1 else 0)
                <==> s0.workers != [] || s.accepted == 0)
            && CloseValue(s) == if s.finished == [] then Ok else s.finished[0].1)
  {
    InitInv(s0);
    ExecInv(s0, actions);
    if Exec(s0, actions) != None && CloseReturns(Exec(s0, actions).value) {
      var s := Exec(s0, actions).value;
      forall id: nat ensures HeldBy(s.workers, id) == 0 {
        HeldByNone(s.workers, id);
      }
      if s.workers != [] {
        assert s.workers[0].Exited?;
        assert s.taken == s.accepted;
        assert forall id: nat :: Finishes(s.finished, id) == Places(s, id);
      } else {
        NeverTaken(s0, actions);
        assert s.finished == [];
        forall id: nat ensures Finishes(s.finished, id) == 0 {}
        if s.accepted != 0 {
          var id: nat := 0;
          assert Finishes(s.finished, id) != if id < s.accepted then 1 else 0;
        }
      }
    }
  }

  /** Without workers nothing is ever taken from the queue. */
  lemma {:induction false} NeverTaken(s: State, actions: seq<Action>)
    requires s.workers == [] && Exec(s, actions) != None
    ensures var s' := Exec(s, actions).value; s'.taken == s.taken && s'.finished == s.finished
    decreases |actions|
  {
    if actions == [] {
    } else {
      NeverTaken(Apply(s, actions[0]), actions[1..]);
    }
  }

  // ----- closing ends -------------------------------------------------------

  function Rank(w: Worker): nat {
    match w
    case Idle => 1
    case Busy(_) => 3
    case Returned(_, _) => 2
    case Exited => 0
  }

  function Ranks(workers: seq<Worker>): nat {
    if workers == [] then 0 else Rank(workers[0]) + Ranks(workers[1..])
  }

  /** The work left: queued workloads and the steps each worker still has to make. */
  function Left(s: State): int {
    3 * (s.accepted - s.taken) + Ranks(s.workers)
  }

  lemma {:induction false} RanksUpdate(workers: seq<Worker>, i: nat, w: Worker)
    requires i < |workers|
    ensures Ranks(workers[i := w]) == Ranks(workers) - Rank(workers[i]) + Rank(w)
    decreases |workers|
  {
    if i == 0 {
      assert workers[i := w][1..] == workers[1..];
    } else {
      assert workers[i := w][1..] == workers[1..][i - 1 := w];
      RanksUpdate(workers[1..], i - 1, w);
    }
  }

  /** Once closed, every step uses up work and some step is possible until Close returns:
      as long as workloads return, Close returns. */
  lemma CloseDrains(s: State, a: Action)
    requires Inv(s) && s.closed
    ensures Enabled(s, a) ==> 0 <= Left(Apply(s, a)) < Left(s)
    ensures CloseReturns(s) || exists b :: Enabled(s, b)
  {
    if Enabled(s, a) {
      hide Ranks;
      RanksUpdate(s.workers, a.i, Apply(s, a).workers[a.i]);
    }
    if !CloseReturns(s) {
      var i: nat :| i < |s.workers| && !s.workers[i].Exited?;
      assert s.workers[i].Idle? ==> Enabled(s, Take(i)) || Enabled(s, Exit(i));
      assert s.workers[i].Busy? ==> Enabled(s, Return(i, Ok));
      assert s.workers[i].Returned? ==> Enabled(s, Swap(i));
    }
  }

  // ----- before closing -----------------------------------------------------

  function Sends(n: nat): seq<Action> {
    if n == 0 then [] else [Send] + Sends(n - 1)
  }

  /** With no worker moving, the pool accepts exactly as many workloads as its backlog has room for. */
  lemma {:induction false} BacklogExactly(s: State, n: nat)
    requires s.taken <= s.accepted <= s.taken + s.capacity && !s.closed
    ensures Exec(s, Sends(n)) != None <==> s.accepted - s.taken + n <= s.capacity
    ensures Exec(s, Sends(n)) != None ==> Exec(s, Sends(n)).value == s.(accepted := s.accepted + n)
    decreases n
  {
    if n == 0 {
      assert Exec(s, []) == Some(s);
    } else {
      assert Sends(n)[0] == Send && Sends(n)[1..] == Sends(n - 1);
      if Enabled(s, Send) {
        BacklogExactly(Apply(s, Send), n - 1);
      }
    }
  }

  /** The backlog never holds more than its capacity. */
  lemma {:induction false} BacklogFits(s: State, actions: seq<Action>)
    requires s.taken <= s.accepted <= s.taken + s.capacity
    ensures Exec(s, actions) != None ==>
      var s' := Exec(s, actions).value; s'.taken <= s'.accepted <= s'.taken + s'.capacity
    decreases |actions|
  {
    if actions == [] {
    } else if Enabled(s, actions[0]) {
      BacklogFits(Apply(s, actions[0]), actions[1..]);
    }
  }

  /** A step of a worker. */
  predicate ByWorker(a: Action) {
    a.Take? || a.Return? || a.Swap? || a.Exit?
  }

  /** An open pool with a worker never leaves a caller of Run waiting for ever: a workload is accepted now, or a
      worker can take a step, each of which leaves less to do. */
  lemma OpenMoves(s: State, a: Action)
    requires Inv(s) && !s.closed && s.workers != []
    ensures ByWorker(a) && Enabled(s, a) ==> 0 <= Left(Apply(s, a)) < Left(s)
    ensures || Enabled(s, Send) || (exists i :: Enabled(s, Handoff(i)))
            || exists b :: ByWorker(b) && Enabled(s, b)
  {
    if ByWorker(a) && Enabled(s, a) {
      hide Ranks;
      RanksUpdate(s.workers, a.i, Apply(s, a).workers[a.i]);
    }
    assert s.workers[0].Idle? ==> Enabled(s, Take(0)) || Enabled(s, Handoff(0));
    assert s.workers[0].Busy? ==> Enabled(s, Return(0, Ok));
    assert s.workers[0].Returned? ==> Enabled(s, Swap(0));
    assert !s.workers[0].Exited?;
  }
}
