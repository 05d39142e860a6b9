/**
The book of open connections of the app's side: one acceptor, one thread per connection, one
thread that drops the server, a mutex and a condition variable between them. Every step below is
one thread's, and any interleaving of steps is a run.
*/
module AcceptBook {
  import opened Wrappers

  const MAX_CONNECTION: nat := 16

  /** Where the acceptor stands in its loop; `Carrying*` is the way back of a thread that did not start. */
  datatype Acceptor =
    | ToLock
    | Checking
    | Asleep
    | Leaving
    | Accepting
    | Accepted
    | ToInsert
    | Inserting
    | Spawning(id: nat)
    | ToCarry(id: nat)
    | Carrying(id: nat)
    | ToNotify
    | Finished

  datatype Connection = Serving | WantsLock | HoldsLock | Notifying | Gone

  /** Where the thread that drops the server stands. */
  datatype Dropper =
    | Idle
    | WantsLock
    | HoldsLock
    | Stored
    | Notifying
    | Waking
    | Joining
    | Closing
    | Emptying

  datatype Holder = Nobody | TheAcceptor | TheDropper | AConnection(id: nat)

  datatype State = State(
    hold: bool,
    lock: Holder,
    next: nat,
    open: set<nat>,
    carried: set<nat>,
    acceptor: Acceptor,
    connections: map<nat, Connection>,
    notifying: set<nat>,
    dropper: Dropper,
    joined: bool,
    closed: set<nat>,
    late: nat)

  const INITIAL := State(false, Nobody, 0, {}, {}, ToLock, map[], {}, Idle, false, {}, 0)

  /** One thread's next step, with what the world decides in it. */
  datatype Action =
    | Acceptor(fortune: Fortune)
    | SpuriousWakeUp
    | OfConnection(id: nat)
    | OfDropper(wokenUp: bool)

  /** What the system calls of the acceptor bring: accept, the peer, the second handle, the new thread. */
  datatype Fortune = Well | Badly

  /** `notify_all`: whoever sleeps on the condition variable goes for the lock. */
  function Notified(acceptor: Acceptor): Acceptor {
    if acceptor.Asleep? then ToLock else acceptor
  }

  function AcceptorStep(s: State, fortune: Fortune): Option<State> {
    match s.acceptor
    case ToLock =>
      if s.lock.Nobody? then Some(s.(lock := TheAcceptor, acceptor := Checking)) else None
    case Checking =>
      if |s.open| >= MAX_CONNECTION && !s.hold then Some(s.(lock := Nobody, acceptor := Asleep))
      else Some(s.(acceptor := Leaving))
    case Asleep => None
    case Leaving => Some(s.(lock := Nobody, acceptor := if s.hold then Finished else Accepting))
    case Accepting =>
      if fortune.Well? then Some(s.(acceptor := Accepted))
      else Some(s.(acceptor := if s.hold then Finished else ToLock))
    case Accepted =>
      if s.hold then Some(s.(acceptor := Finished))
      else Some(s.(acceptor := if fortune.Well? then ToInsert else ToLock))
    case ToInsert =>
      if s.lock.Nobody? then Some(s.(lock := TheAcceptor, acceptor := Inserting)) else None
    case Inserting =>
      Some(s.(lock := Nobody, acceptor := Spawning(s.next), next := s.next + 1, open := s.open + {s.next},
              late := if s.hold then s.late + 1 else s.late))
    case Spawning(id) =>
      if fortune.Well? then Some(s.(acceptor := ToLock, connections := s.connections[id := Serving]))
      else Some(s.(acceptor := ToCarry(id)))
    case ToCarry(id) =>
      if s.lock.Nobody? then Some(s.(lock := TheAcceptor, acceptor := Carrying(id))) else None
    case Carrying(id) =>
      Some(s.(lock := Nobody, acceptor := ToNotify, open := s.open - {id}, carried := s.carried + {id}))
    case ToNotify => Some(s.(acceptor := ToLock))
    case Finished => None
  }

  function ConnectionStep(s: State, id: nat): Option<State> {
    if id !in s.connections then None
    else
      match s.connections[id]
      case Serving => Some(s.(connections := s.connections[id := Connection.WantsLock]))
      case WantsLock =>
        if s.lock.Nobody? then
          Some(s.(lock := AConnection(id), connections := s.connections[id := Connection.HoldsLock]))
        else None
      case HoldsLock =>
        Some(s.(lock := Nobody, open := s.open - {id}, carried := s.carried + {id},
                connections := s.connections[id := Connection.Notifying], notifying := s.notifying + {id}))
      case Notifying =>
        Some(s.(acceptor := Notified(s.acceptor),
                connections := s.connections[id := Gone], notifying := s.notifying - {id}))
      case Gone => None
  }

  function DropperStep(s: State, wokenUp: bool): Option<State> {
    match s.dropper
    case Idle => Some(s.(dropper := Dropper.WantsLock))
    case WantsLock =>
      if s.lock.Nobody? then Some(s.(lock := TheDropper, dropper := Dropper.HoldsLock)) else None
    case HoldsLock => Some(s.(hold := true, dropper := Stored))
    case Stored => Some(s.(lock := Nobody, dropper := Dropper.Notifying))
    case Notifying => Some(s.(acceptor := Notified(s.acceptor), dropper := Waking))
    case Waking => Some(s.(dropper := if wokenUp || s.acceptor.Finished? then Joining else Closing))
    case Joining => if s.acceptor.Finished? then Some(s.(joined := true, dropper := Closing)) else None
    case Closing => if s.lock.Nobody? then Some(s.(closed := s.closed + s.open, dropper := Emptying)) else None
    case Emptying => None
  }

  function Apply(s: State, action: Action): Option<State> {
    match action
    case Acceptor(fortune) => AcceptorStep(s, fortune)
    case SpuriousWakeUp => if s.acceptor.Asleep? then Some(s.(acceptor := ToLock)) else None
    case OfConnection(id) => ConnectionStep(s, id)
    case OfDropper(wokenUp) => DropperStep(s, wokenUp)
  }

  /** The state after some steps; a step that cannot be made is none. */
  function After(actions: seq<Action>): State {
    if actions == [] then INITIAL
    else
      var before := After(actions[..|actions| - 1]);
      match Apply(before, actions[|actions| - 1])
      case Some(after) => after
      case None => before
  }

  // ---- What holds in every state ---------------------------------------------------------------

  predicate AcceptorHolds(acceptor: Acceptor) {
    acceptor.Checking? || acceptor.Leaving? || acceptor.Inserting? || acceptor.Carrying?
  }

  /** The acceptor is past its last look at `hold` before an insert. */
  predicate Committed(acceptor: Acceptor) {
    acceptor.ToInsert? || acceptor.Inserting?
  }

  /** The mutex is held by the one thread that stands inside it. */
  ghost predicate Exclusive(s: State) {
    && (s.lock.TheAcceptor? <==> AcceptorHolds(s.acceptor))
    && (s.lock.TheDropper? <==> s.dropper.HoldsLock? || s.dropper.Stored?)
    && (forall id :: id in s.connections && s.connections[id].HoldsLock? ==> s.lock == AConnection(id))
    && (s.lock.AConnection? ==> s.lock.id in s.connections && s.connections[s.lock.id].HoldsLock?)
  }

  /** Every id below `next` is open or carried out, and never both. */
  ghost predicate Booked(s: State) {
    && s.open !! s.carried
    && (forall id :: id in s.open || id in s.carried <==> 0 <= id < s.next)
  }

  /** A thread for the id of the acceptor's hand has not been started. */
  predicate InHand(acceptor: Acceptor) {
    acceptor.Spawning? || acceptor.ToCarry? || acceptor.Carrying?
  }

  /** Who has to carry a connection out has it open; each open one has exactly one such thread. */
  ghost predicate Owned(s: State) {
    && (forall id :: id in s.connections ==> id < s.next)
    && (forall id :: id in s.connections ==>
          (id in s.open <==> !s.connections[id].Notifying? && !s.connections[id].Gone?))
    && (forall id :: id in s.notifying ==> id in s.connections && s.connections[id].Notifying?)
    && (forall id :: id in s.connections && s.connections[id].Notifying? ==> id in s.notifying)
    && (InHand(s.acceptor) ==> s.acceptor.id in s.open && s.acceptor.id !in s.connections)
    && (forall id :: id in s.open && id !in s.connections ==> InHand(s.acceptor) && s.acceptor.id == id)
  }

  /** Never more than the limit; whoever may still insert has a place. */
  ghost predicate WithinLimit(s: State) {
    && |s.open| <= MAX_CONNECTION
    && (s.acceptor.Leaving? ==> |s.open| < MAX_CONNECTION || s.hold)
    && (s.acceptor.Accepting? || s.acceptor.Accepted? || Committed(s.acceptor) ==> |s.open| < MAX_CONNECTION)
  }

  /** A wake-up is on its way: a place was given back, or the server stopped, and `notify_all` has not come yet. */
  ghost predicate WakeUpPending(s: State) {
    s.notifying != {} || s.dropper.Stored? || s.dropper.Notifying?
  }

  /** The acceptor sleeps only while it must, or a wake-up is on its way. */
  ghost predicate NoLostWakeUp(s: State) {
    s.acceptor.Asleep? ==> (|s.open| >= MAX_CONNECTION && !s.hold) || WakeUpPending(s)
  }

  /**
  Shutting down: stopped is for good; joined means finished; after the stop at most one connection
  is still inserted; and once `close_all` is through, every open connection is closed, unless the
  acceptor was not joined and inserted that one.
  */
  ghost predicate ShutDown(s: State) {
    && (s.hold <==> !s.dropper.Idle? && !s.dropper.WantsLock? && !s.dropper.HoldsLock?)
    && (s.joined ==> s.acceptor.Finished?)
    && s.late <= (if s.hold then 1 else 0)
    && (Committed(s.acceptor) ==> s.late == 0)
    && (s.dropper.Emptying? ==> s.open <= s.closed || (!s.joined && s.late == 1))
  }

  /** Nobody is closed by the dropper before its last step, and nobody who was not in the book. */
  ghost predicate ClosedAreOld(s: State) {
    && (!s.dropper.Emptying? ==> s.closed == {})
    && (forall id :: id in s.closed ==> id < s.next)
  }

  ghost predicate Invariant(s: State) {
    && Exclusive(s) && Booked(s) && Owned(s) && WithinLimit(s) && NoLostWakeUp(s) && ShutDown(s)
    && ClosedAreOld(s)
  }

  lemma ExclusiveForTheAcceptor(s: State, fortune: Fortune)
    requires Exclusive(s) && Owned(s) && AcceptorStep(s, fortune).Some?
    ensures Exclusive(AcceptorStep(s, fortune).value)
  {
    if s.acceptor.Spawning? && fortune.Well? {
      ExclusiveWithAThread(s, s.acceptor.id);
    } else {
      ExclusiveWithoutAThread(s, AcceptorStep(s, fortune).value);
    }
  }

  /** A thread that has just been started does not hold the lock. */
  lemma ExclusiveWithAThread(s: State, id: nat)
    requires Exclusive(s) && id !in s.connections && s.acceptor.Spawning?
    ensures Exclusive(s.(acceptor := ToLock, connections := s.connections[id := Serving]))
  {
  }

  lemma ExclusiveWithoutAThread(s: State, after: State)
    requires Exclusive(s) && after.connections == s.connections && after.dropper == s.dropper
    requires after.lock == s.lock || (s.lock.Nobody? && after.lock.TheAcceptor?)
                                  || (s.lock.TheAcceptor? && after.lock.Nobody?)
    requires after.lock.TheAcceptor? <==> AcceptorHolds(after.acceptor)
    ensures Exclusive(after)
  {
  }

  lemma ExclusiveForTheOthers(s: State, action: Action)
    requires Exclusive(s) && !action.Acceptor? && Apply(s, action).Some?
    ensures Exclusive(Apply(s, action).value)
  {
  }

  /** The book as both states have it, and the same id in the acceptor's hand. */
  ghost predicate SameBook(s: State, after: State) {
    && after.open == s.open && after.carried == s.carried && after.next == s.next
    && after.connections == s.connections && after.notifying == s.notifying
    && (InHand(after.acceptor) <==> InHand(s.acceptor))
    && (InHand(s.acceptor) ==> after.acceptor.id == s.acceptor.id)
  }

  lemma SameBookSameOwners(s: State, after: State)
    requires SameBook(s, after) && Booked(s) && Owned(s)
    ensures Booked(after) && Owned(after)
  {
  }

  /** Between its inserts and its carryings the acceptor leaves the book alone. */
  lemma AcceptorLeavesTheBook(s: State, fortune: Fortune)
    requires AcceptorStep(s, fortune).Some?
    requires !s.acceptor.Inserting? && !s.acceptor.Carrying? && !(s.acceptor.Spawning? && fortune.Well?)
    ensures SameBook(s, AcceptorStep(s, fortune).value)
  {
  }

  lemma BookedOneMore(open: set<nat>, carried: set<nat>, next: nat)
    requires open !! carried && forall id :: id in open || id in carried <==> 0 <= id < next
    ensures open + {next} !! carried
    ensures forall id :: id in open + {next} || id in carried <==> 0 <= id < next + 1
  {
  }

  lemma BookedCarried(open: set<nat>, carried: set<nat>, next: nat, gone: nat)
    requires open !! carried && forall id :: id in open || id in carried <==> 0 <= id < next
    requires gone in open
    ensures open - {gone} !! carried + {gone}
    ensures forall id :: id in open - {gone} || id in carried + {gone} <==> 0 <= id < next
  {
  }

  lemma BookedByTheAcceptor(s: State, fortune: Fortune)
    requires Booked(s) && Owned(s) && AcceptorStep(s, fortune).Some?
    ensures Booked(AcceptorStep(s, fortune).value)
  {
    if s.acceptor.Inserting? {
      BookedOneMore(s.open, s.carried, s.next);
    } else if s.acceptor.Carrying? {
      BookedCarried(s.open, s.carried, s.next, s.acceptor.id);
    } else if !(s.acceptor.Spawning? && fortune.Well?) {
      AcceptorLeavesTheBook(s, fortune);
      SameBookSameOwners(s, AcceptorStep(s, fortune).value);
    }
  }

  lemma BookedByAConnection(s: State, id: nat)
    requires Booked(s) && Owned(s) && ConnectionStep(s, id).Some?
    ensures Booked(ConnectionStep(s, id).value)
  {
    if s.connections[id].HoldsLock? { BookedCarried(s.open, s.carried, s.next, id); }
  }

  lemma BookedIsKept(s: State, action: Action)
    requires Booked(s) && Owned(s) && Apply(s, action).Some?
    ensures Booked(Apply(s, action).value)
  {
    match action
    case Acceptor(fortune) => BookedByTheAcceptor(s, fortune);
    case SpuriousWakeUp =>
    case OfConnection(id) => BookedByAConnection(s, id);
    case OfDropper(_) =>
  }

  lemma OwnedAfterAnInsert(s: State)
    requires Booked(s) && Owned(s) && s.acceptor.Inserting?
    ensures Owned(AcceptorStep(s, Well).value)
  {
  }

  lemma OwnedAfterACarrying(s: State)
    requires Owned(s) && s.acceptor.Carrying?
    ensures Owned(AcceptorStep(s, Well).value)
  {
  }

  lemma OwnedAfterASpawning(s: State)
    requires Booked(s) && Owned(s) && s.acceptor.Spawning?
    ensures Owned(AcceptorStep(s, Well).value)
  {
  }

  lemma OwnedByTheAcceptor(s: State, fortune: Fortune)
    requires Booked(s) && Owned(s) && AcceptorStep(s, fortune).Some?
    ensures Owned(AcceptorStep(s, fortune).value)
  {
    if s.acceptor.Inserting? {
      OwnedAfterAnInsert(s);
    } else if s.acceptor.Carrying? {
      OwnedAfterACarrying(s);
    } else if s.acceptor.Spawning? && fortune.Well? {
      OwnedAfterASpawning(s);
    } else {
      AcceptorLeavesTheBook(s, fortune);
      SameBookSameOwners(s, AcceptorStep(s, fortune).value);
    }
  }

  lemma OwnedByAConnection(s: State, id: nat)
    requires Owned(s) && ConnectionStep(s, id).Some?
    ensures Owned(ConnectionStep(s, id).value)
  {
  }

  lemma OwnedByTheDropper(s: State, wokenUp: bool)
    requires Booked(s) && Owned(s) && DropperStep(s, wokenUp).Some?
    ensures Owned(DropperStep(s, wokenUp).value)
  {
    DropperLeavesTheBook(s, wokenUp);
    SameBookSameOwners(s, DropperStep(s, wokenUp).value);
  }

  lemma DropperLeavesTheBook(s: State, wokenUp: bool)
    requires DropperStep(s, wokenUp).Some?
    ensures SameBook(s, DropperStep(s, wokenUp).value)
  {
  }

  lemma OneInOneOut(open: set<nat>, id: nat)
    ensures |open + {id}| <= |open| + 1
    ensures |open - {id}| <= |open|
  {
    assert open + {id} == if id in open then open else open + {id};
    assert open - {id} <= open;
    if id in open { assert (open - {id}) + {id} == open; }
  }

  lemma LimitForTheAcceptor(s: State, fortune: Fortune)
    requires WithinLimit(s) && AcceptorStep(s, fortune).Some?
    ensures WithinLimit(AcceptorStep(s, fortune).value)
  {
    OneInOneOut(s.open, s.next);
    if s.acceptor.Carrying? { OneInOneOut(s.open, s.acceptor.id); }
  }

  lemma LimitForAConnection(s: State, id: nat)
    requires WithinLimit(s) && ConnectionStep(s, id).Some?
    ensures WithinLimit(ConnectionStep(s, id).value)
  {
    OneInOneOut(s.open, id);
  }

  lemma LimitIsKept(s: State, action: Action)
    requires WithinLimit(s) && Apply(s, action).Some?
    ensures WithinLimit(Apply(s, action).value)
  {
    match action
    case Acceptor(fortune) => LimitForTheAcceptor(s, fortune);
    case SpuriousWakeUp =>
    case OfConnection(id) => LimitForAConnection(s, id);
    case OfDropper(_) =>
  }

  lemma NoWakeUpIsLost(s: State, action: Action)
    requires NoLostWakeUp(s) && WithinLimit(s) && Apply(s, action).Some?
    ensures NoLostWakeUp(Apply(s, action).value)
  {
    match action
    case Acceptor(fortune) => NoWakeUpIsLostByTheAcceptor(s, fortune);
    case SpuriousWakeUp =>
    case OfConnection(id) => NoWakeUpIsLostByAConnection(s, id);
    case OfDropper(wokenUp) => NoWakeUpIsLostByTheDropper(s, wokenUp);
  }

  lemma NoWakeUpIsLostByTheAcceptor(s: State, fortune: Fortune)
    requires NoLostWakeUp(s) && AcceptorStep(s, fortune).Some?
    ensures NoLostWakeUp(AcceptorStep(s, fortune).value)
  {
  }

  lemma NoWakeUpIsLostByAConnection(s: State, id: nat)
    requires NoLostWakeUp(s) && ConnectionStep(s, id).Some?
    ensures NoLostWakeUp(ConnectionStep(s, id).value)
  {
    var after := ConnectionStep(s, id).value;
    if s.connections[id].HoldsLock? { assert id in after.notifying; }
  }

  lemma NoWakeUpIsLostByTheDropper(s: State, wokenUp: bool)
    requires NoLostWakeUp(s) && DropperStep(s, wokenUp).Some?
    ensures NoLostWakeUp(DropperStep(s, wokenUp).value)
  {
  }

  lemma ShutDownIsKept(s: State, action: Action)
    requires ShutDown(s) && Apply(s, action).Some?
    ensures ShutDown(Apply(s, action).value)
  {
  }

  lemma ClosedStayOld(s: State, action: Action)
    requires Booked(s) && ClosedAreOld(s) && Apply(s, action).Some?
    ensures ClosedAreOld(Apply(s, action).value)
  {
  }

  lemma StepKeeps(s: State, action: Action)
    requires Invariant(s) && Apply(s, action).Some?
    ensures Invariant(Apply(s, action).value)
  {
    match action {
      case Acceptor(fortune) =>
        ExclusiveForTheAcceptor(s, fortune);
        OwnedByTheAcceptor(s, fortune);
      case SpuriousWakeUp =>
      case OfConnection(id) =>
        ExclusiveForTheOthers(s, action);
        OwnedByAConnection(s, id);
      case OfDropper(wokenUp) =>
        ExclusiveForTheOthers(s, action);
        OwnedByTheDropper(s, wokenUp);
    }
    BookedIsKept(s, action);
    LimitIsKept(s, action);
    NoWakeUpIsLost(s, action);
    ShutDownIsKept(s, action);
    ClosedStayOld(s, action);
  }

  /** Over all interleavings. */
  lemma {:induction false} EveryRunKeeps(actions: seq<Action>)
    ensures Invariant(After(actions))
  {
    if actions != [] {
      var before := actions[..|actions| - 1];
      EveryRunKeeps(before);
      if Apply(After(before), actions[|actions| - 1]).Some? {
        StepKeeps(After(before), actions[|actions| - 1]);
      }
    }
  }

  lemma OneMore(actions: seq<Action>, action: Action)
    ensures var step := Apply(After(actions), action);
      After(actions + [action]) == if step.Some? then step.value else After(actions)
  {
    assert (actions + [action])[..|actions|] == actions;
  }

  /** What one step does to the book: it inserts the next id, or carries an open one out. */
  ghost predicate OneEntry(s: State, after: State) {
    && s.carried <= after.carried
    && after.carried - s.carried <= s.open
    && after.open - s.open <= {s.next}
  }

  lemma EachStepIsOneEntry(s: State, action: Action)
    requires Owned(s) && Apply(s, action).Some?
    ensures OneEntry(s, Apply(s, action).value)
  {
    if action.Acceptor? { AcceptorIsOneEntry(s, action.fortune); }
  }

  lemma AcceptorIsOneEntry(s: State, fortune: Fortune)
    requires Owned(s) && AcceptorStep(s, fortune).Some?
    ensures OneEntry(s, AcceptorStep(s, fortune).value)
  {
    if !s.acceptor.Inserting? && !s.acceptor.Carrying? && !(s.acceptor.Spawning? && fortune.Well?) {
      AcceptorLeavesTheBook(s, fortune);
    }
  }

  /** Never more than the limit, and no connection twice: an id once carried out stays out. */
  lemma BookOverEveryRun(actions: seq<Action>, action: Action)
    ensures |After(actions).open| <= MAX_CONNECTION
    ensures After(actions).open !! After(actions).carried
    ensures OneEntry(After(actions), After(actions + [action]))
  {
    EveryRunKeeps(actions);
    OneMore(actions, action);
    if Apply(After(actions), action).Some? { EachStepIsOneEntry(After(actions), action); }
  }

  /** The next steps of a thread that owes a wake-up: the dropper's, or those of one that gave its place back. */
  ghost predicate StepsOfWhoOwes(s: State, more: seq<Action>) {
    || (s.dropper.Notifying? && more == [OfDropper(false)])
    || (s.dropper.Stored? && more == [OfDropper(false), OfDropper(false)])
    || (exists id :: id in s.notifying && more == [OfConnection(id)])
  }

  /** Whoever owes it wakes a sleeping acceptor, whichever thread that is. */
  lemma WhoOwesWakes(actions: seq<Action>, more: seq<Action>)
    requires After(actions).acceptor.Asleep? && StepsOfWhoOwes(After(actions), more)
    ensures After(actions + more).acceptor == ToLock
  {
    var s := After(actions);
    OneStepOn(actions, s, more[0]);
    if s.dropper.Stored? && |more| == 2 {
      var one, mid := actions + [more[0]], Stepped(s, more[0]);
      OneStepOn(one, mid, more[1]);
      assert one + [more[1]] == actions + more;
    }
  }

  /**
  A sleeping acceptor that should not sleep is woken by the very next steps of a thread that owes it
  the wake-up: no more than two, and no luck, no time-out and no new connection is needed.
  */
  lemma SleeperIsWoken(actions: seq<Action>) returns (more: seq<Action>)
    requires var s := After(actions);
      s.acceptor.Asleep? && (|s.open| < MAX_CONNECTION || s.hold)
    ensures StepsOfWhoOwes(After(actions), more) && |more| <= 2 && SpuriousWakeUp !in more
    ensures After(actions + more).acceptor == ToLock
  {
    EveryRunKeeps(actions);
    var s := After(actions);
    if s.dropper.Notifying? {
      more := [OfDropper(false)];
    } else if s.dropper.Stored? {
      more := [OfDropper(false), OfDropper(false)];
    } else {
      var id :| id in s.notifying;
      more := [OfConnection(id)];
    }
    WhoOwesWakes(actions, more);
  }

  /** Once joined, no step inserts any more, and `close_all` has reached whatever is still open. */
  lemma JoinedMeansClosed(actions: seq<Action>, action: Action)
    requires After(actions).joined
    ensures After(actions + [action]).next == After(actions).next
    ensures After(actions).dropper.Emptying? ==> After(actions).open <= After(actions).closed
  {
    EveryRunKeeps(actions);
    OneMore(actions, action);
  }

  /** After the stop, one connection at most is still let in, however the threads run. */
  lemma OneInsertAfterTheStop(actions: seq<Action>)
    ensures After(actions).late <= 1
    ensures !After(actions).hold ==> After(actions).late == 0
  {
    EveryRunKeeps(actions);
  }

  /** Somebody is open whom `close_all` has not reached. */
  ghost predicate LeftOpen(s: State) {
    s.dropper.Emptying? && !(s.open <= s.closed)
  }

  ghost predicate MayBeLeftOpen(actions: seq<Action>) {
    exists more :: LeftOpen(After(actions + more))
  }

  /** The acceptor is past its last look at `hold` and will insert too late, or has. */
  ghost predicate InsertsTooLate(s: State) {
    match s.dropper
    case Emptying => Committed(s.acceptor) || LeftOpen(s)
    case Joining => false
    case _ => s.acceptor.ToInsert?
  }

  ghost predicate InTime(s: State) {
    s.hold && !InsertsTooLate(s)
  }

  lemma InTimeForTheAcceptor(s: State, fortune: Fortune)
    requires Exclusive(s) && InTime(s) && AcceptorStep(s, fortune).Some?
    ensures InTime(AcceptorStep(s, fortune).value)
  {
  }

  lemma InTimeForTheDropper(s: State, wokenUp: bool)
    requires Exclusive(s) && InTime(s) && DropperStep(s, wokenUp).Some?
    ensures InTime(DropperStep(s, wokenUp).value)
  {
  }

  lemma InTimeStaysInTime(s: State, action: Action)
    requires Exclusive(s) && InTime(s)
    ensures InTime(Stepped(s, action))
  {
    if Apply(s, action).Some? {
      match action
      case Acceptor(fortune) => InTimeForTheAcceptor(s, fortune);
      case SpuriousWakeUp =>
      case OfConnection(_) =>
      case OfDropper(wokenUp) => InTimeForTheDropper(s, wokenUp);
    }
  }

  function Stepped(s: State, action: Action): State {
    var step := Apply(s, action);
    if step.Some? then step.value else s
  }

  /** These steps lead there. */
  ghost predicate LeadTo(actions: seq<Action>, s: State) {
    After(actions) == s
  }

  lemma OneStepOn(actions: seq<Action>, s: State, action: Action)
    requires LeadTo(actions, s)
    ensures LeadTo(actions + [action], Stepped(s, action)) && Invariant(s)
  {
    EveryRunKeeps(actions);
    OneMore(actions, action);
  }

  lemma {:induction false} NobodyIsLeftOpen(actions: seq<Action>, s: State, more: seq<Action>) returns (end: State)
    requires LeadTo(actions, s) && InTime(s)
    ensures LeadTo(actions + more, end) && InTime(end)
  {
    if more == [] {
      assert actions + more == actions;
      return s;
    }
    var n := |more| - 1;
    var mid := NobodyIsLeftOpen(actions, s, more[..n]);
    OneStepOn(actions + more[..n], mid, more[n]);
    InTimeStaysInTime(mid, more[n]);
    assert actions + more[..n] + [more[n]] == actions + more;
    return Stepped(mid, more[n]);
  }

  /** The step that brings the late insert nearer. */
  function Hurried(s: State): Action {
    if (s.dropper.Closing? || s.dropper.Emptying?) && s.lock.AConnection? then OfConnection(s.lock.id)
    else if s.dropper.Emptying? then Action.Acceptor(Well)
    else OfDropper(false)
  }

  /** How far off it is. */
  function StepsTo(s: State): nat {
    var dropping := match s.dropper
      case Stored => 4
      case Notifying => 3
      case Waking => 2
      case Closing => 1
      case _ => 0;
    var inserting := if s.acceptor.ToInsert? then 2 else if s.acceptor.Inserting? then 1 else 0;
    dropping + inserting + if s.lock.AConnection? then 1 else 0
  }

  ghost predicate IsLate(s: State) {
    s.hold && InsertsTooLate(s)
  }

  lemma HurriedIsNearer(s: State)
    requires Invariant(s) && IsLate(s) && !LeftOpen(s)
    ensures Apply(s, Hurried(s)).Some?
    ensures IsLate(Stepped(s, Hurried(s))) && StepsTo(Stepped(s, Hurried(s))) < StepsTo(s)
  {
    match Hurried(s)
    case Acceptor(_) => AcceptorIsNearer(s);
    case OfConnection(id) => ConnectionIsNearer(s, id);
    case OfDropper(_) => DropperIsNearer(s);
    case SpuriousWakeUp =>
  }

  lemma AcceptorIsNearer(s: State)
    requires Exclusive(s) && ClosedAreOld(s) && IsLate(s) && !LeftOpen(s)
    requires s.dropper.Emptying? && !s.lock.AConnection?
    ensures var step := AcceptorStep(s, Well); step.Some? && IsLate(step.value) && StepsTo(step.value) < StepsTo(s)
  {
    if s.acceptor.Inserting? { assert s.next in AcceptorStep(s, Well).value.open; }
  }

  lemma ConnectionIsNearer(s: State, id: nat)
    requires Exclusive(s) && IsLate(s) && !LeftOpen(s) && s.lock == AConnection(id)
    requires s.dropper.Closing? || s.dropper.Emptying?
    ensures var step := ConnectionStep(s, id); step.Some? && IsLate(step.value) && StepsTo(step.value) < StepsTo(s)
  {
  }

  lemma DropperIsNearer(s: State)
    requires Exclusive(s) && ShutDown(s) && IsLate(s)
    requires !s.dropper.Emptying? && (s.dropper.Closing? ==> !s.lock.AConnection?)
    ensures var step := DropperStep(s, false); step.Some? && IsLate(step.value) && StepsTo(step.value) < StepsTo(s)
  {
  }

  lemma {:induction false} SomebodyIsLeftOpen(actions: seq<Action>, s: State)
    returns (more: seq<Action>, end: State)
    requires LeadTo(actions, s) && IsLate(s)
    ensures LeadTo(actions + more, end) && LeftOpen(end)
    decreases StepsTo(s)
  {
    if LeftOpen(s) {
      assert actions + [] == actions;
      return [], s;
    }
    var action := Hurried(s);
    OneStepOn(actions, s, action);
    HurriedIsNearer(s);
    more, end := SomebodyIsLeftOpen(actions + [action], Stepped(s, action));
    assert actions + [action] + more == actions + ([action] + more);
    more := [action] + more;
  }

  /**
  When a connection may be left open once the server was stopped: exactly if the acceptor is past
  its last look at `hold` and nobody waits for it any more, or it has inserted behind `close_all`.
  */
  lemma LateInsertExactly(actions: seq<Action>)
    requires After(actions).hold
    ensures MayBeLeftOpen(actions) <==> InsertsTooLate(After(actions))
  {
    var s := After(actions);
    if InsertsTooLate(s) {
      var more, end := SomebodyIsLeftOpen(actions, s);
      assert LeftOpen(After(actions + more));
    } else {
      forall more ensures !LeftOpen(After(actions + more)) {
        var end := NobodyIsLeftOpen(actions, s, more);
      }
    }
  }

  /**
  The exception is real: when the wake-up call fails, the acceptor is not joined, and one that was
  past its last look at `hold` inserts a connection nobody closes.
  */
  lemma UnjoinedAcceptorMayInsertLate() returns (actions: seq<Action>)
    ensures var s := After(actions);
      s.dropper.Emptying? && !s.joined && s.open == {0} && s.closed == {}
  {
    var go, drop := Action.Acceptor(Well), OfDropper(false);
    actions := [];
    var s := INITIAL;
    for i := 0 to 14
      invariant LeadTo(actions, s) && s == AfterSteps(i)
    {
      var action := if 5 <= i < 12 then drop else go;
      OneStepOn(actions, s, action);
      StepOfTheRun(i, action);
      actions, s := actions + [action], Stepped(s, action);
    }
  }

  lemma StepOfTheRun(i: nat, action: Action)
    requires i < 14 && action == if 5 <= i < 12 then OfDropper(false) else Action.Acceptor(Well)
    ensures Stepped(AfterSteps(i), action) == AfterSteps(i + 1)
  {
  }

  /** The states of that run. */
  function AfterSteps(i: nat): State {
    var start := INITIAL;
    if i == 0 then start
    else if i == 1 then start.(lock := TheAcceptor, acceptor := Checking)
    else if i == 2 then start.(lock := TheAcceptor, acceptor := Leaving)
    else if i == 3 then start.(acceptor := Accepting)
    else if i == 4 then start.(acceptor := Accepted)
    else
      var committed := start.(acceptor := ToInsert);
      if i == 5 then committed
      else if i == 6 then committed.(dropper := Dropper.WantsLock)
      else if i == 7 then committed.(lock := TheDropper, dropper := Dropper.HoldsLock)
      else
        var stopped := committed.(hold := true);
        if i == 8 then stopped.(lock := TheDropper, dropper := Stored)
        else if i == 9 then stopped.(dropper := Dropper.Notifying)
        else if i == 10 then stopped.(dropper := Waking)
        else if i == 11 then stopped.(dropper := Closing)
        else if i == 12 then stopped.(dropper := Emptying)
        else if i == 13 then stopped.(dropper := Emptying, lock := TheAcceptor, acceptor := Inserting)
        else stopped.(dropper := Emptying, acceptor := Spawning(0), next := 1, open := {0}, late := 1)
  }
}
