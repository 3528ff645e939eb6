/** disk.quota.go: the wake-up of the archive and reclaim loops. A broadcast wakes the waiter goroutine if it is
    parked; the waiter offers a token to a channel of capacity one; the loop makes a pass for each token. */
module Wakeup {
  import opened Common

  datatype Waiter = Parked | Woken | Returning | Gone

  datatype Token = Wake | Closed

  datatype Loop = Passing | Selecting | FinalPass | Stopped

  datatype Closer = Open | Cancelled | Sent

  /** passes counts the passes begun. */
  datatype State = State(waiter: Waiter, buffer: seq<Token>, loop: Loop, closer: Closer, passes: nat)

  datatype Action =
    | Broadcast
    | Park           // the waiter locks and waits
    | TrySend        // the waiter's select: the send if there is room, else the default
    | Quit           // the waiter's select: the inner context is done
    | EndPass
    | FailPass       // a pass returned an error
    | Receive
    | EndFinal
    | CancelInner    // Close cancels the inner context ...
    | SendClosed     // ... and then sends its token when there is room

  const CAPACITY: nat := 1

  function Init(): State {
    State(Returning, [], Passing, Open, 1)
  }

  predicate Enabled(s: State, a: Action) {
    match a
    case Broadcast => true
    case Park => s.waiter.Returning?
    case TrySend => s.waiter.Woken? && (|s.buffer| < CAPACITY || s.closer.Open?)
    case Quit => s.waiter.Woken? && !s.closer.Open?
    case EndPass => s.loop.Passing?
    case FailPass => s.loop.Passing?
    case Receive => s.loop.Selecting? && s.buffer != []
    case EndFinal => s.loop.FinalPass?
    case CancelInner => s.closer.Open?
    case SendClosed => s.closer.Cancelled? && |s.buffer| < CAPACITY
  }

  function Apply(s: State, a: Action): State
    requires Enabled(s, a)
  {
    match a
    case Broadcast => if s.waiter.Parked? then s.(waiter := Woken) else s
    case Park => s.(waiter := Parked)
    case TrySend => s.(waiter := Returning, buffer := if |s.buffer| < CAPACITY then s.buffer + [Wake] else s.buffer)
    case Quit => s.(waiter := Gone)
    case EndPass => s.(loop := Selecting)
    case FailPass => s.(loop := Stopped)
    case Receive =>
      s.(buffer := s.buffer[1..], loop := if s.buffer[0].Wake? then Passing else FinalPass, passes := s.passes + 1)
    case EndFinal => s.(loop := Stopped)
    case CancelInner => s.(closer := Cancelled)
    case SendClosed => s.(closer := Sent, buffer := s.buffer + [Closed])
  }

  function Exec(s: State, actions: seq<Action>): Option<State>
    decreases |actions|
  {
    if actions == [] then Some(s)
    else if Enabled(s, actions[0]) then Exec(Apply(s, actions[0]), actions[1..])
    else None
  }

  // ----- the passes ---------------------------------------------------------

  /** How many tokens the loop received, and how many passes ended, in a list of actions. */
  function Receives(actions: seq<Action>): nat {
    if actions == [] then 0 else (if actions[0].Receive? then 1 else 0) + Receives(actions[1..])
  }

  function Ends(actions: seq<Action>): nat {
    if actions == [] then 0
    else (if actions[0].EndPass? || actions[0].FailPass? || actions[0].EndFinal? then 1 else 0) + Ends(actions[1..])
  }

  function Underway(s: State): nat {
    if s.loop.Passing? || s.loop.FinalPass? then 1 else 0
  }

  lemma {:induction false} PassesFrom(s: State, actions: seq<Action>)
    requires Exec(s, actions) != None
    ensures var s' := Exec(s, actions).value;
            && s'.passes == s.passes + Receives(actions)
            && s'.passes - Underway(s') == s.passes - Underway(s) + Ends(actions)
    decreases |actions|
  {
    if actions == [] {
    } else {
      PassesFrom(Apply(s, actions[0]), actions[1..]);
    }
  }

  /** Over every run: one pass at the start and one for each token received; each of them has ended once, or is under
      way. */
  lemma PassesAddUp(actions: seq<Action>)
    requires Exec(Init(), actions) != None
    ensures var s := Exec(Init(), actions).value;
            s.passes == 1 + Receives(actions) == Ends(actions) + Underway(s)
  {
    hide Exec;
    PassesFrom(Init(), actions);
  }

  // ----- the buffer and the final pass --------------------------------------

  predicate Inv(s: State) {
    && |s.buffer| <= CAPACITY
    && (Closed in s.buffer ==> s.closer.Sent?)
    && (s.closer.Sent? && Closed !in s.buffer ==> s.loop.FinalPass? || s.loop.Stopped?)
    && (s.loop.FinalPass? ==> s.closer.Sent? && Closed !in s.buffer)
  }

  lemma {:induction false} ExecInv(s: State, actions: seq<Action>)
    requires Inv(s)
    ensures Exec(s, actions) != None ==> Inv(Exec(s, actions).value)
    decreases |actions|
  {
    if actions == [] {
    } else if Enabled(s, actions[0]) {
      ExecInv(Apply(s, actions[0]), actions[1..]);
    }
  }

  /** The loop stops only at the end of a final pass, or of a pass that failed. */
  lemma {:induction false} StopsOnly(s: State, actions: seq<Action>)
    requires !s.loop.Stopped? && Exec(s, actions) != None && Exec(s, actions).value.loop.Stopped?
    ensures FailPass in actions || EndFinal in actions
    decreases |actions|
  {
    if actions == [] {
    } else {
      assert actions == [actions[0]] + actions[1..];
      if !actions[0].FailPass? && !actions[0].EndFinal? {
        StopsOnly(Apply(s, actions[0]), actions[1..]);
      }
    }
  }

  lemma {:induction false} NoPassAfterFinal(s: State, more: seq<Action>)
    requires s.loop.FinalPass? || s.loop.Stopped?
    requires Exec(s, more) != None
    ensures var s' := Exec(s, more).value;
            && s'.passes == s.passes && (s'.loop.FinalPass? || s'.loop.Stopped?)
            && (s.loop.Stopped? ==> s'.loop.Stopped?)
            && (s.loop.FinalPass? ==> (s'.loop.Stopped? <==> EndFinal in more))
    decreases |more|
  {
    if more == [] {
    } else {
      assert more == [more[0]] + more[1..];
      NoPassAfterFinal(Apply(s, more[0]), more[1..]);
    }
  }

  /** Over every run: at most one token is buffered, and the loop stops only after a final pass or a failed one. When
      it receives the close token it begins one more pass, which is the last, whatever happens; and then it stops
      exactly when that pass ends. */
  lemma OneFinalPass(actions: seq<Action>, more: seq<Action>)
    requires Exec(Init(), actions) != None
    ensures var s := Exec(Init(), actions).value;
            && |s.buffer| <= 1
            && (s.loop.Stopped? ==> FailPass in actions || EndFinal in actions)
            && (Enabled(s, Receive) && s.buffer[0].Closed? ==>
                  var s1 := Apply(s, Receive);
                  && s1.passes == s.passes + 1 && s1.loop.FinalPass?
                  && (Exec(s1, more) != None ==>
                        var s2 := Exec(s1, more).value;
                        && s2.passes == s.passes + 1 && (s2.loop.FinalPass? || s2.loop.Stopped?)
                        && (s2.loop.Stopped? <==> EndFinal in more)))
  {
    hide Exec;
    ExecInv(Init(), actions);
    var s := Exec(Init(), actions).value;
    if s.loop.Stopped? {
      StopsOnly(Init(), actions);
    }
    if Enabled(s, Receive) && s.buffer[0].Closed? && Exec(Apply(s, Receive), more) != None {
      NoPassAfterFinal(Apply(s, Receive), more);
    }
  }

  // ----- closing ------------------------------------------------------------

  /** Everything but new broadcasts and failing passes. */
  predicate Closing(a: Action) {
    !a.Broadcast? && !a.FailPass?
  }

  /** The steps still to come once Close was called. */
  function ToClose(s: State): nat {
    (match s.waiter case Woken => 5 case Returning => 1 case _ => 0)
    + (match s.closer case Open => 5 case Cancelled => 4 case Sent => 0)
    + 3 * |s.buffer|
    + (match s.loop case Passing => 1 case FinalPass => 1 case _ => 0)
  }

  /** Close begins with the cancellation. Until then the waiter stays: no wake-up is lost for want of it. */
  lemma {:induction false} CloserIs(s: State, actions: seq<Action>)
    requires Exec(s, actions) != None
    ensures var s' := Exec(s, actions).value;
            && (s'.closer.Open? <==> s.closer.Open? && CancelInner !in actions)
            && (s.closer.Open? && !s.waiter.Gone? && CancelInner !in actions ==> !s'.waiter.Gone?)
    decreases |actions|
  {
    if actions == [] {
    } else {
      assert actions == [actions[0]] + actions[1..];
      CloserIs(Apply(s, actions[0]), actions[1..]);
    }
  }

  /** Close can be called at any time. Once it was, as long as no pass fails: every step leaves less to do, and until
      the final pass is over one of the closer's or the loop's own steps can be taken. The loop cannot miss its final
      pass. */
  lemma CloseComes(actions: seq<Action>, a: Action)
    requires Exec(Init(), actions) != None && FailPass !in actions
    ensures var s := Exec(Init(), actions).value;
            if CancelInner !in actions then Enabled(s, CancelInner)
            else
              && (Closing(a) && Enabled(s, a) ==> ToClose(Apply(s, a)) < ToClose(s))
              && (EndFinal in actions
                  || Enabled(s, SendClosed) || Enabled(s, EndPass) || Enabled(s, Receive) || Enabled(s, EndFinal))
  {
    hide Exec;
    ExecInv(Init(), actions);
    CloserIs(Init(), actions);
    var s := Exec(Init(), actions).value;
    if s.loop.Stopped? {
      StopsOnly(Init(), actions);
    }
    if Closing(a) && Enabled(s, a) {
      if a.Receive? {
        assert |Apply(s, a).buffer| == |s.buffer| - 1;
      }
    }
  }

  // ----- coalescing ---------------------------------------------------------

  /** The steps of the waiter and the loop themselves, with no close, cancellation or failing pass. */
  predicate Internal(a: Action) {
    a.Park? || a.TrySend? || a.EndPass? || a.Receive?
  }

  predicate Quiescent(s: State) {
    forall a :: Enabled(s, a) ==> !Internal(a)
  }

  /** A running wake-up: nothing is closing. */
  predicate Live(s: State) {
    && s.closer.Open? && !s.waiter.Gone? && (s.loop.Passing? || s.loop.Selecting?)
    && |s.buffer| <= CAPACITY && Closed !in s.buffer
  }

  /** A pass newer than p has begun, or a token or a waiter about to send stands for one. */
  predicate Pending(s: State, p: nat) {
    p < s.passes || s.buffer != [] || s.waiter.Woken?
  }

  lemma {:induction false} PendingStays(s: State, p: nat, actions: seq<Action>)
    requires Live(s) && p <= s.passes && Pending(s, p) && forall a :: a in actions ==> Internal(a) || a.Broadcast?
    ensures Exec(s, actions) != None ==> Live(Exec(s, actions).value) && Pending(Exec(s, actions).value, p)
    decreases |actions|
  {
    if actions == [] {
    } else if Enabled(s, actions[0]) {
      assert actions[0] in actions;
      assert s.buffer != [] ==> s.buffer[0] in s.buffer;
      PendingStays(Apply(s, actions[0]), p, actions[1..]);
    }
  }

  /** The steps still to come before everything is at rest. */
  function Unrest(s: State): nat {
    (if s.waiter.Woken? then 5 else if s.waiter.Returning? then 1 else 0)
    + 3 * |s.buffer| + (if s.loop.Passing? then 1 else 0)
  }

  lemma AtRest(s: State)
    requires Live(s)
    ensures Quiescent(s) <==> s.waiter.Parked? && s.buffer == [] && s.loop.Selecting?
  {
    if Quiescent(s) {
      assert !Enabled(s, Park) && !Enabled(s, TrySend) && !Enabled(s, EndPass) && !Enabled(s, Receive);
    }
  }

  /** Left alone, the waiter and the loop come to rest: every internal step leaves less to do. */
  lemma {:induction false} ComesToRest(s: State) returns (actions: seq<Action>)
    requires Live(s)
    ensures forall a :: a in actions ==> Internal(a)
    ensures Exec(s, actions) != None && Live(Exec(s, actions).value) && Quiescent(Exec(s, actions).value)
    ensures forall a :: Internal(a) && Enabled(s, a) ==> Unrest(Apply(s, a)) < Unrest(s)
    decreases Unrest(s)
  {
    AtRest(s);
    if Quiescent(s) {
      actions := [];
    } else {
      var a := if s.loop.Passing? then EndPass else if s.buffer != [] then Receive
               else if s.waiter.Woken? then TrySend else Park;
      assert s.buffer != [] ==> s.buffer[0] in s.buffer;
      var rest := ComesToRest(Apply(s, a));
      actions := [a] + rest;
    }
  }

  /** After a broadcast in s, every way of coming to rest makes a new pass. */
  ghost predicate Guaranteed(s: State) {
    forall actions: seq<Action> ::
      (forall a :: a in actions ==> Internal(a)) && Exec(Apply(s, Broadcast), actions) != None
      && Quiescent(Exec(Apply(s, Broadcast), actions).value)
      ==> s.passes < Exec(Apply(s, Broadcast), actions).value.passes
  }

  /** A broadcast brings a new pass exactly when the waiter is parked or about to send, or a token is buffered:
      broadcasts coalesce, and one that meets the waiter on its way back to Wait is lost. */
  lemma GuaranteedExactly(s: State)
    requires Live(s)
    ensures Guaranteed(s) <==> s.waiter.Parked? || s.waiter.Woken? || s.buffer != []
  {
    var b := Apply(s, Broadcast);
    if s.waiter.Parked? || s.waiter.Woken? || s.buffer != [] {
      forall actions: seq<Action> |
        (forall a :: a in actions ==> Internal(a)) && Exec(b, actions) != None && Quiescent(Exec(b, actions).value)
        ensures s.passes < Exec(b, actions).value.passes
      {
        PendingStays(b, s.passes, actions);
        AtRest(Exec(b, actions).value);
      }
    } else {
      var end := s.(waiter := Parked, loop := Selecting);
      var actions := if s.loop.Passing? then [EndPass, Park] else [Park];
      assert Exec(b, actions) == Some(end) by {
        var s1 := Apply(b, actions[0]);
        assert Exec(s1, actions[1..]) == Some(end) by {
          if s.loop.Passing? {
            assert actions[1..] == [Park] && [Park][1..] == [];
          } else {
            assert actions[1..] == [];
          }
        }
      }
      AtRest(end);
    }
  }

  // ----- who leaves ---------------------------------------------------------

  /** Once Close has cancelled it, a waiter that wakes can leave, and must unless there is room for its token; one
      that left never sends or waits again. */
  lemma WaiterLeaves(s: State, actions: seq<Action>)
    requires s.waiter.Woken? && !s.closer.Open?
    ensures Enabled(s, Quit) && (|s.buffer| == 1 ==> !Enabled(s, TrySend))
    ensures Exec(Apply(s, Quit), actions) != None ==>
      Exec(Apply(s, Quit), actions).value.waiter.Gone? && Park !in actions && TrySend !in actions
  {
    hide Exec;
    StaysGone(Apply(s, Quit), actions);
  }

  lemma {:induction false} StaysGone(s: State, actions: seq<Action>)
    requires s.waiter.Gone?
    ensures Exec(s, actions) != None ==>
      Exec(s, actions).value.waiter.Gone? && Park !in actions && TrySend !in actions
    decreases |actions|
  {
    if actions == [] {
    } else if Enabled(s, actions[0]) {
      assert actions == [actions[0]] + actions[1..];
      StaysGone(Apply(s, actions[0]), actions[1..]);
    }
  }

  /** Any pass but the last may fail, and a failed pass is the last: the loop stops for good. */
  lemma FailedPassStops(s: State, more: seq<Action>)
    requires s.loop.Passing?
    ensures Enabled(s, FailPass)
    ensures Exec(Apply(s, FailPass), more) != None ==>
      var s' := Exec(Apply(s, FailPass), more).value; s'.loop.Stopped? && s'.passes == s.passes
  {
    hide Exec;
    if Exec(Apply(s, FailPass), more) != None {
      NoPassAfterFinal(Apply(s, FailPass), more);
    }
  }
}
