/** The beat of the basket watch: a thread that works and waits, and the thread that drops it. */
module Beat {
  import opened Wrappers

  /** Where the beating thread stands; `Waiting` has given the mutex up, `Deciding` holds it. */
  datatype Worker = Working | ToLock | Deciding(timedOut: bool) | Waiting | Finished

  datatype Dropper = Idle | Locking | Setting | Notifying | Joining | Dropped

  datatype Holder = Nobody | TheWorker | TheDropper

  /** `rounds` counts the rounds decided on. */
  datatype State = State(stopped: bool, lock: Holder, worker: Worker, dropper: Dropper, rounds: nat)

  /** The first round is not asked about: it runs at once. */
  const INITIAL := State(false, Nobody, Working, Idle, 1)

  datatype Action = OfWorker | TimeOut | SpuriousWakeUp | OfDropper

  function Apply(s: State, action: Action): Option<State> {
    match action
    case OfWorker =>
      (match s.worker
       case Working => Some(s.(worker := ToLock))
       case ToLock => if s.lock.Nobody? then Some(s.(lock := TheWorker, worker := Deciding(false))) else None
       case Deciding(timedOut) =>
         if s.stopped then Some(s.(lock := Nobody, worker := Finished))
         else if timedOut then Some(s.(lock := Nobody, worker := Working, rounds := s.rounds + 1))
         else Some(s.(lock := Nobody, worker := Waiting))
       case Waiting => None
       case Finished => None)
    case TimeOut =>
      if s.worker.Waiting? && s.lock.Nobody? then Some(s.(lock := TheWorker, worker := Deciding(true))) else None
    case SpuriousWakeUp => if s.worker.Waiting? then Some(s.(worker := ToLock)) else None
    case OfDropper =>
      (match s.dropper
       case Idle => Some(s.(dropper := Locking))
       case Locking => if s.lock.Nobody? then Some(s.(lock := TheDropper, dropper := Setting)) else None
       case Setting => Some(s.(stopped := true, lock := Nobody, dropper := Dropper.Notifying))
       case Notifying =>
         Some(s.(dropper := Joining, worker := if s.worker.Waiting? then ToLock else s.worker))
       case Joining => if s.worker.Finished? then Some(s.(dropper := Dropped)) else None
       case Dropped => None)
  }

  function After(actions: seq<Action>): State {
    if actions == [] then INITIAL
    else
      var before := After(actions[..|actions| - 1]);
      var step := Apply(before, actions[|actions| - 1]);
      if step.Some? then step.value else before
  }

  ghost predicate Invariant(s: State) {
    && (s.lock.TheWorker? <==> s.worker.Deciding?)
    && (s.lock.TheDropper? <==> s.dropper.Setting?)
    && (s.stopped <==> s.dropper.Notifying? || s.dropper.Joining? || s.dropper.Dropped?)
    && (s.worker.Waiting? && s.stopped ==> s.dropper.Notifying?)
    && (s.dropper.Dropped? ==> s.worker.Finished?)
  }

  lemma {:induction false} EveryRunKeeps(actions: seq<Action>)
    ensures Invariant(After(actions))
  {
    if actions != [] {
      EveryRunKeeps(actions[..|actions| - 1]);
    }
  }

  /** No round is decided on once the stop is set, and none runs once the drop has returned. */
  lemma NoRoundAfterTheDrop(actions: seq<Action>, action: Action)
    requires After(actions).stopped
    ensures After(actions + [action]).rounds == After(actions).rounds
    ensures After(actions).dropper.Dropped? ==> After(actions + [action]).worker.Finished?
  {
    EveryRunKeeps(actions);
    assert (actions + [action])[..|actions|] == actions;
  }

  /** Whoever drops the beat waits for the round that runs, never for the interval: a waiting thread is woken. */
  lemma StoppingDoesNotWaitOutTheInterval(actions: seq<Action>)
    requires After(actions).stopped && After(actions).worker.Waiting?
    ensures After(actions + [OfDropper]).worker == ToLock
  {
    EveryRunKeeps(actions);
    assert (actions + [OfDropper])[..|actions|] == actions;
  }
}
