/** The event loop's own state: the rows the window shows, and the one engine there may be. */
module Control {
  import opened Wrappers
  import opened Paging

  const PAGE: nat := 25

  /** The window: until the page has reported in, what is sent to it waits. */
  class Window {
    const delivers: nat -> bool
    var sends: nat
    var ready: bool
    var queue: seq<Notice>
    var delivered: seq<Notice>

    constructor (delivers: nat -> bool)
      ensures this.delivers == delivers && !ready && queue == delivered == [] && sends == 0
    {
      this.delivers, sends, ready, queue, delivered := delivers, 0, false, [], [];
    }

    /** Only a page that has not reported in has anything waiting. */
    predicate Valid()
      reads this
    {
      ready ==> queue == []
    }

    method Send(notice: Notice) returns (ok: bool)
      requires Valid()
      modifies this
      ensures Valid() && ready == old(ready)
      ensures !ready ==> ok && queue == old(queue) + [notice] && delivered == old(delivered)
      ensures ready ==>
        ok == delivers(old(sends)) && delivered == (if ok then old(delivered) + [notice] else old(delivered))
      ensures sends == if ready then old(sends) + 1 else old(sends)
    {
      if !ready {
        queue := queue + [notice];
        return true;
      }
      ok, sends := delivers(sends), sends + 1;
      if ok { delivered := delivered + [notice]; }
    }

    /** The page has reported in: what waited is delivered in order up to the first failure, and the rest is gone. */
    method IsReady() returns (ok: bool)
      requires Valid()
      modifies this
      ensures Valid() && ready && queue == []
      ensures old(delivered) <= delivered <= old(delivered) + old(queue)
      ensures ok ==> delivered == old(delivered) + old(queue)
      ensures (forall k :: old(sends) <= k ==> delivers(k)) ==> ok
    {
      ready := true;
      var waiting := queue;
      queue := [];
      for i := 0 to |waiting|
        invariant Valid() && ready && queue == []
        invariant delivered == old(delivered) + waiting[..i]
        invariant old(sends) <= sends
      {
        ok := Send(waiting[i]);
        if !ok { return; }
      }
      return true;
    }
  }

  /** What the page shows after these messages: replaced from above, appended below. */
  function Shown(notices: seq<Notice>): seq<Row> {
    if notices == [] then []
    else
      var last := notices[|notices| - 1];
      if last.append then Shown(notices[..|notices| - 1]) + last.rows else last.rows
  }

  lemma ShownAfter(notices: seq<Notice>, notice: Notice)
    ensures Shown(notices + [notice]) == if notice.append then Shown(notices) + notice.rows else notice.rows
  {
    assert (notices + [notice])[..|notices|] == notices;
  }

  lemma {:induction false} BelowARow(rows: seq<Row>, n: nat)
    requires Descending(rows) && 0 < n <= |rows|
    ensures Below(rows, Some(rows[n - 1].id)) == rows[n..]
  {
    var front, back, before := rows[..n], rows[n..], Some(rows[n - 1].id);
    assert rows == front + back;
    BelowBoth(front, back, before);
    BelowNone(front, before);
    BelowAll(back, before);
  }

  /** The page behind the first `n` rows, appended to them, makes the first `n + count`. */
  lemma PageBehind(rows: seq<Row>, n: nat, count: nat)
    requires Descending(rows) && Take(rows, n) != []
    ensures var shown := Take(rows, n);
      shown + Take(Below(rows, Some(shown[|shown| - 1].id)), count) == Take(rows, n + count)
  {
    BelowARow(rows, |Take(rows, n)|);
  }

  class EventLoop {
    var hints: seq<Row>
    var store: seq<Row>
    var window: Window?
    var loaded: nat
    var awaiting: bool
    /** Engines being built on threads of their own, and engines that run. */
    var building: nat
    var running: nat
    /** The log as it was at the last wake with a window. */
    ghost var seen: seq<Row>

    constructor (hints: seq<Row>, store: seq<Row>, waitingForSetup: bool)
      requires Separate(hints, store)
      ensures Valid() && window == null && awaiting == waitingForSetup
      ensures this.hints == hints && this.store == store
    {
      this.hints, this.store, window, loaded, seen := hints, store, null, PAGE, [];
      awaiting, building, running := waitingForSetup, 0, if waitingForSetup then 0 else 1;
    }

    /** Never two engines, and a set-up may build one exactly when there is none. */
    predicate OneEngine()
      reads this
    {
      building + running <= 1 && (awaiting <==> building + running == 0)
    }

    ghost predicate Valid()
      reads this, window
    {
      && Separate(hints, store)
      && PAGE <= loaded <= USIZE_MAX
      && OneEngine()
      && (window != null ==> window.Valid() && forall k :: window.delivers(k))
    }

    /** Once what waits is delivered, the page shows the newest `loaded` rows as of the last wake. */
    ghost predicate ShowsTheNewest()
      reads this, window
    {
      window != null ==> Shown(window.delivered + window.queue) == Take(seen, loaded) && Descending(seen)
    }

    /** A wake: the list is replaced, never extended. */
    method AdoptState()
      requires Valid()
      modifies window, this`seen
      ensures Valid() && ShowsTheNewest()
      ensures window != null ==> seen == Merged(hints, store) && window.ready == old(window.ready)
    {
      if window == null { return; }
      BelowAll(Merged(hints, store), None);
      MergedDescends(hints, store);
      var notice := RowNotice(hints, store, None, Max(loaded, PAGE), false);
      Deliver(notice);
      seen := Merged(hints, store);
    }

    method Deliver(notice: Notice)
      requires Valid() && window != null
      modifies window
      ensures Valid() && window.ready == old(window.ready)
      ensures Shown(window.delivered + window.queue)
           == if notice.append then Shown(old(window.delivered + window.queue)) + notice.rows else notice.rows
    {
      ShownAfter(window.delivered + window.queue, notice);
      assert window.ready ==> window.delivered + window.queue == window.delivered;
      assert window.delivered + (window.queue + [notice]) == window.delivered + window.queue + [notice];
      var _ := window.Send(notice);
      assert window.ready ==> window.delivered + window.queue == window.delivered;
    }

    /** The page reports in, or reloads itself. */
    method PageReady()
      requires Valid() && window != null
      modifies this`loaded, this`seen, window
      ensures Valid() && ShowsTheNewest()
      ensures loaded == PAGE && window.ready && window.queue == [] && seen == Merged(hints, store)
    {
      var _ := window.IsReady();
      loaded := PAGE;
      AdoptState();
    }

    /** "Load older", behind the last row the page shows. */
    method LoadOlder(before: int)
      requires Valid() && window != null
      modifies this`loaded, window
      ensures Valid() && loaded == Min(old(loaded) + PAGE, USIZE_MAX)
      ensures old(AsksBehindTheLast(before)) ==> ShowsTheNewest()
    {
      if AsksBehindTheLast(before) { PageBehind(seen, loaded, PAGE); }
      assert |seen| <= USIZE_MAX ==> Take(seen, loaded + PAGE) == Take(seen, Min(loaded + PAGE, USIZE_MAX));
      var notice := RowNotice(hints, store, Some(before), PAGE, true);
      loaded := Min(loaded + PAGE, USIZE_MAX);
      Deliver(notice);
    }

    /**
    The page shows what it should, asks behind its last row, and the log, no longer than a list can
    be, has not changed since the last wake.
    */
    ghost predicate AsksBehindTheLast(before: int)
      reads this, window
    {
      && ShowsTheNewest() && window != null
      && seen == Merged(hints, store)
      && |seen| <= USIZE_MAX
      && Take(seen, loaded) != []
      && before == Take(seen, loaded)[|Take(seen, loaded)| - 1].id
    }

    method CloseWindow()
      requires Valid()
      modifies this`window, this`loaded
      ensures Valid() && ShowsTheNewest() && window == null && loaded == PAGE
    {
      window, loaded := null, PAGE;
    }

    method ShowWindow(delivers: nat -> bool)
      requires Valid() && forall k :: delivers(k)
      modifies this`window, this`loaded, this`seen, window
      ensures Valid() && window != null
      ensures old(window) == null ==> ShowsTheNewest() && loaded == PAGE
      ensures old(window) == null ==> fresh(window) && seen == Merged(hints, store)
      ensures old(window) != null ==> unchanged(this) && unchanged(window)
    {
      if window != null { return; }
      window := new Window(delivers);
      loaded := PAGE;
      AdoptState();
    }

    /** The last page of the set-up; the configuration may still be incomplete, and the thread may not start. */
    method CompleteSetup(marked: bool, configured: bool, spawned: bool)
      requires Valid()
      modifies this`awaiting, this`building
      ensures Valid() && running == old(running)
      ensures building == if old(awaiting) && marked && configured && spawned then 1 else old(building)
    {
      if !marked || !awaiting || !configured { return; }
      awaiting := false;
      if spawned { building := building + 1; } else { awaiting := true; }
    }

    /** The engine being built is up and takes over with its own log, or it did not come up. */
    method TakeOver(up: bool, hints: seq<Row>, store: seq<Row>)
      requires Valid() && building > 0 && Separate(hints, store)
      modifies this, window
      ensures Valid() && building == 0 && window == old(window)
      ensures running == if up then 1 else 0
      ensures up ==> ShowsTheNewest() && loaded == PAGE
      ensures up ==> this.hints == hints && this.store == store
      ensures up && window != null ==> seen == Merged(hints, store)
      ensures !up ==> unchanged(`hints) && unchanged(`store) && unchanged(`seen) && unchanged(`loaded)
      ensures !up && window != null ==> unchanged(window)
    {
      building := building - 1;
      if up {
        this.hints, this.store := hints, store;
        running, loaded := running + 1, PAGE;
        AdoptState();
      } else {
        awaiting := true;
      }
    }
  }

  // ---- Whole sessions -------------------------------------------------------------------------------------

  datatype Event =
    | Wake
    | LogChanged(hints: seq<Row>, store: seq<Row>)
    | Reported
    | OlderWanted
    | Closed
    | Opened
    | SetupDone(marked: bool, configured: bool, spawned: bool)
    | EngineAnswer(up: bool, hints: seq<Row>, store: seq<Row>)

  /** Since the log last changed, the loop has woken, the page has reported in, or the window has been closed. */
  predicate Settled(events: seq<Event>) {
    events == [] ||
    match events[|events| - 1]
    case LogChanged(_, _) => false
    case Wake => true
    case Reported => true
    case Closed => true
    case _ => Settled(events[..|events| - 1])
  }

  predicate IsLog(hints: seq<Row>, store: seq<Row>) {
    |hints| + |store| <= USIZE_MAX
  }

  /** The page is what it should be, as of the log that stands. */
  ghost predicate UpToDate(loop: EventLoop)
    reads loop, loop.window
  {
    && loop.ShowsTheNewest()
    && (loop.window != null ==> loop.seen == Merged(loop.hints, loop.store))
  }

  method Step(loop: EventLoop, event: Event)
    requires loop.Valid() && IsLog(loop.hints, loop.store)
    requires event.LogChanged? || event.EngineAnswer? ==>
               Separate(event.hints, event.store) && IsLog(event.hints, event.store)
    modifies loop, loop.window
    ensures loop.Valid() && IsLog(loop.hints, loop.store)
    ensures loop.window == null || loop.window == old(loop.window) || fresh(loop.window)
    ensures event.Wake? || event.Reported? || event.Closed? ==> UpToDate(loop)
    ensures old(UpToDate(loop)) && !event.LogChanged? ==> UpToDate(loop)
  {
    match event
    case Wake => loop.AdoptState();
    case LogChanged(hints, store) => loop.hints, loop.store := hints, store;
    case Reported => if loop.window != null { loop.PageReady(); }
    case OlderWanted =>
      if loop.window != null {
        var rows := Shown(loop.window.delivered + loop.window.queue);
        if rows != [] { loop.LoadOlder(rows[|rows| - 1].id); }
      }
    case Closed => loop.CloseWindow();
    case Opened => loop.ShowWindow(_ => true);
    case SetupDone(marked, configured, spawned) => loop.CompleteSetup(marked, configured, spawned);
    case EngineAnswer(up, hints, store) => if loop.building > 0 { loop.TakeOver(up, hints, store); }
  }

  /**
  Any events in any order: never two engines, one waited for exactly when there is none, and
  whenever the log has not changed since the last wake, the page shows its newest `loaded` rows.
  */
  method Session(hints: seq<Row>, store: seq<Row>, waitingForSetup: bool, events: seq<Event>)
    returns (loop: EventLoop)
    requires Separate(hints, store) && IsLog(hints, store)
    requires forall e :: e in events && (e.LogChanged? || e.EngineAnswer?) ==>
               Separate(e.hints, e.store) && IsLog(e.hints, e.store)
    ensures fresh(loop) && loop.Valid()
    ensures Settled(events) ==> UpToDate(loop)
  {
    loop := new EventLoop(hints, store, waitingForSetup);
    assert events[..0] == [];
    for i := 0 to |events|
      invariant fresh(loop) && (loop.window != null ==> fresh(loop.window))
      invariant loop.Valid() && IsLog(loop.hints, loop.store)
      invariant Settled(events[..i]) ==> UpToDate(loop)
    {
      assert events[i] in events;
      assert events[..i + 1][..i] == events[..i];
      Step(loop, events[i]);
    }
    assert events[..|events|] == events;
  }
}
