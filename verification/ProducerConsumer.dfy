/** bench-pthread-locks.c: a producer and a consumer sharing a one-slot queue under
    a mutex and two condition variables, as a machine of interleaved steps. */
module ProducerConsumer {

  datatype Thread = Producer | Consumer

  /** Where a thread is: about to lock the mutex; about to test the queue; blocked in
      pthread_cond_wait; woken and about to take the mutex back; past the test,
      about to change the queue; about to signal; about to unlock; finished. */
  datatype Place = Locking | Testing | Waiting | Waking | Working | Signalling | Unlocking | Finished

  datatype Owner = Nobody | Held(holder: Thread)

  /** One thread: where it is, the turns it has still to complete, and the changes to
      the queue it has made. */
  datatype Local = Local(place: Place, left: nat, changes: nat)

  datatype State = State(producer: Local, consumer: Local, owner: Owner, queued: int) {
    function Of(t: Thread): Local {
      if t == Producer then producer else consumer
    }

    function With(t: Thread, l: Local): State {
      if t == Producer then this.(producer := l) else this.(consumer := l)
    }
  }

  /** A step of one thread, or a spurious wakeup. */
  datatype Step = Move(t: Thread) | Spurious(t: Thread)

  function Other(t: Thread): Thread {
    if t == Producer then Consumer else Producer
  }

  /** The number of turns of `for (j = iters; j >= 0; --j)`. */
  function Turns(iters: int): nat {
    if iters < 0 then 0 else iters + 1
  }

  function Start(iters: int): State {
    var l := Local(if Turns(iters) == 0 then Finished else Locking, Turns(iters), 0);
    State(l, l, Nobody, 0)
  }

  /** The condition of the thread's while loop around pthread_cond_wait. */
  predicate MustWait(s: State, t: Thread) {
    if t == Producer then s.queued > 0 else s.queued == 0
  }

  predicate Enabled(s: State, step: Step) {
    match step
    case Spurious(t) => s.Of(t).place == Waiting
    case Move(t) =>
      match s.Of(t).place
      case Waiting | Finished => false
      case Locking | Waking => s.owner == Nobody
      case _ => s.owner == Held(t)
  }

  function At(s: State, t: Thread, p: Place): State {
    s.With(t, s.Of(t).(place := p))
  }

  /** pthread_cond_signal: the thread blocked on the condition, if any, wakes.  Only
      the other thread ever waits for this one's signal. */
  function Signal(s: State, t: Thread): State {
    if s.Of(Other(t)).place == Waiting then At(s, Other(t), Waking) else s
  }

  function Apply(s: State, step: Step): State
    requires Enabled(s, step)
  {
    match step
    case Spurious(t) => At(s, t, Waking)
    case Move(t) =>
      match s.Of(t).place
      case Locking => At(s, t, Testing).(owner := Held(t))
      case Waking => At(s, t, Testing).(owner := Held(t))
      case Testing => if MustWait(s, t) then At(s, t, Waiting).(owner := Nobody) else At(s, t, Working)
      case Working => Change(s, t)
      case Signalling => At(Signal(s, t), t, Unlocking)
      case _ => NextTurn(s, t)
  }

  /** ++queued or --queued. */
  function Change(s: State, t: Thread): State {
    var l := s.Of(t);
    s.With(t, l.(place := Signalling, changes := l.changes + 1)).(
      queued := if t == Producer then s.queued + 1 else s.queued - 1)
  }

  /** Unlock the mutex and go round the for loop. */
  function NextTurn(s: State, t: Thread): State {
    var l := s.Of(t);
    s.With(t, if l.left <= 1 then l.(place := Finished, left := 0) else l.(place := Locking, left := l.left - 1)).(
      owner := Nobody)
  }

  // ----- Runs -----

  /** The states a run goes through; every step is enabled where it is taken. */
  ghost predicate IsRun(iters: int, states: seq<State>, steps: seq<Step>) {
    && |states| == |steps| + 1 && states[0] == Start(iters)
    && (forall k :: 0 <= k < |steps| ==> Enabled(states[k], steps[k]) && states[k + 1] == Apply(states[k], steps[k]))
  }

  predicate Owns(p: Place) {
    p in [Testing, Working, Signalling, Unlocking]
  }

  /** A thread that has changed the queue but not completed its turn. */
  function Pending(p: Place): nat {
    if p == Signalling || p == Unlocking then 1 else 0
  }

  /** What holds of one thread in every reachable state. */
  predicate ThreadOk(s: State, iters: int, t: Thread) {
    && (Owns(s.Of(t).place) <==> s.owner == Held(t))
    && s.Of(t).changes + s.Of(t).left == Turns(iters) + Pending(s.Of(t).place)
    && (s.Of(t).place == Finished <==> s.Of(t).left == 0)
    && (s.Of(t).place == Working ==> !MustWait(s, t))
    && (s.Of(t).place == Waiting ==> MustWait(s, t) || s.Of(Other(t)).place == Signalling)
  }

  predicate Inv(s: State, iters: int) {
    0 <= s.queued <= 1 && s.queued == s.producer.changes - s.consumer.changes && ThreadOk(s, iters, Producer)
      && ThreadOk(s, iters, Consumer)
  }

  lemma InvChange(s: State, iters: int, t: Thread)
    requires Inv(s, iters) && s.Of(t).place == Working
    ensures Inv(Change(s, t), iters)
  {
    assert Other(Other(t)) == t;
  }

  lemma InvSignal(s: State, iters: int, t: Thread)
    requires Inv(s, iters) && s.Of(t).place == Signalling
    ensures Inv(At(Signal(s, t), t, Unlocking), iters)
  {
    assert Other(Other(t)) == t;
  }

  lemma InvNextTurn(s: State, iters: int, t: Thread)
    requires Inv(s, iters) && s.Of(t).place == Unlocking
    ensures Inv(NextTurn(s, t), iters)
  {
    assert Other(Other(t)) == t;
  }

  lemma InvStep(s: State, iters: int, step: Step)
    requires Inv(s, iters) && Enabled(s, step)
    ensures Inv(Apply(s, step), iters)
  {
    hide Change, Signal, NextTurn;
    var t := step.t;
    assert Other(Other(t)) == t;
    if step.Move? {
      match s.Of(t).place
      case Working => InvChange(s, iters, t);
      case Signalling => InvSignal(s, iters, t);
      case Unlocking => InvNextTurn(s, iters, t);
      case _ =>
    }
  }

  lemma {:induction false} InvRun(iters: int, states: seq<State>, steps: seq<Step>, k: nat)
    requires IsRun(iters, states, steps) && k < |states|
    ensures Inv(states[k], iters)
  {
    if k > 0 {
      InvRun(iters, states, steps, k - 1);
      InvStep(states[k - 1], iters, steps[k - 1]);
      assert states[k] == Apply(states[k - 1], steps[k - 1]);
    }
  }

  /** In every reachable state the queue holds 0 or 1 items, as many as were made and
      not taken, and the two threads never hold the mutex together. */
  lemma Safety(iters: int, states: seq<State>, steps: seq<Step>, k: nat)
    requires IsRun(iters, states, steps) && k < |states|
    ensures 0 <= states[k].queued <= 1 && states[k].queued == states[k].producer.changes - states[k].consumer.changes
    ensures !(Owns(states[k].producer.place) && Owns(states[k].consumer.place))
  {
    InvRun(iters, states, steps, k);
  }

  predicate AllFinished(s: State) {
    s.producer.place == Finished && s.consumer.place == Finished
  }

  /** A thread that can move, unless both are finished. */
  function Movable(s: State): Thread {
    if Enabled(s, Move(Producer)) then Producer else Consumer
  }

  /** No reachable state is stuck: unless both threads are finished, one can move
      without the help of a spurious wakeup. */
  lemma NotStuck(iters: int, states: seq<State>, steps: seq<Step>, k: nat)
    requires IsRun(iters, states, steps) && k < |states|
    ensures AllFinished(states[k]) <==> !exists t :: Enabled(states[k], Move(t))
  {
    InvRun(iters, states, steps, k);
    var s := states[k];
    if !AllFinished(s) {
      assert Enabled(s, Move(Movable(s)));
    }
  }

  /** When both threads are finished, the queue is empty and every item was taken. */
  lemma FinalState(iters: int, states: seq<State>, steps: seq<Step>, k: nat)
    requires IsRun(iters, states, steps) && k < |states| && AllFinished(states[k])
    ensures states[k].queued == 0 && states[k].producer.changes == Turns(iters)
            && states[k].consumer.changes == Turns(iters)
    ensures states[k].owner == Nobody
  {
    InvRun(iters, states, steps, k);
  }

  // ----- Termination -----

  function Rank(p: Place): nat {
    match p
    case Finished => 0
    case Unlocking => 1
    case Signalling => 4
    case Waiting => 5
    case Working => 5
    case Testing => 6
    case Waking => 7
    case Locking => 7
  }

  /** What is left to do.  Every move lowers it, although a signal sends the other
      thread back to its test; a spurious wakeup raises it by 2. */
  function Weight(s: State): (w: nat) {
    7 * s.producer.left + Rank(s.producer.place) + 7 * s.consumer.left + Rank(s.consumer.place)
  }

  lemma WeightStep(s: State, iters: int, step: Step)
    requires Inv(s, iters) && Enabled(s, step)
    ensures if step.Move? then Weight(Apply(s, step)) < Weight(s) else Weight(Apply(s, step)) == Weight(s) + 2
  {
    var t := step.t;
    assert Other(Other(t)) == t;
  }

  function Moves(steps: seq<Step>): nat {
    if steps == [] then 0 else Moves(steps[..|steps| - 1]) + if steps[|steps| - 1].Move? then 1 else 0
  }

  lemma {:induction false} MovesBounded(iters: int, states: seq<State>, steps: seq<Step>, k: nat)
    requires IsRun(iters, states, steps) && k < |states|
    ensures Moves(steps[..k]) + Weight(states[k]) <= Weight(Start(iters)) + 2 * (k - Moves(steps[..k]))
  {
    if k > 0 {
      MovesBounded(iters, states, steps, k - 1);
      InvRun(iters, states, steps, k - 1);
      WeightStep(states[k - 1], iters, steps[k - 1]);
      assert states[k] == Apply(states[k - 1], steps[k - 1]);
      assert steps[..k][..k - 1] == steps[..k - 1];
    }
  }

  /** A run with finitely many spurious wakeups ends: the threads make at most 14
      moves per turn, 14 more, and 2 for each spurious wakeup.  So, with NotStuck, a
      run that goes on while it can ends with both threads finished. */
  lemma RunsEnd(iters: int, states: seq<State>, steps: seq<Step>)
    requires IsRun(iters, states, steps)
    ensures Moves(steps) <= 14 * Turns(iters) + 14 + 2 * (|steps| - Moves(steps))
    ensures (forall step :: Enabled(states[|steps|], step) ==> step.Spurious?) ==> AllFinished(states[|steps|])
  {
    MovesBounded(iters, states, steps, |steps|);
    assert steps[..|steps|] == steps;
    if forall step :: Enabled(states[|steps|], step) ==> step.Spurious? {
      NotStuck(iters, states, steps, |steps|);
      if t :| Enabled(states[|steps|], Move(t)) {
        assert false;
      }
    }
  }
}
