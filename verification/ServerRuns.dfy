/** What holds over every run of a client session on the server, stated on the run's events. */
module ServerRuns {
  import opened Bytes
  import opened ServerSession

  /** The state a sequence of steps leads to; None if one of them was not possible. */
  function Exec(events: seq<Event>): Option<State> {
    if events == [] then Some(INITIAL) else
    var last := events[|events| - 1];
    match Exec(events[..|events| - 1])
    case None => None
    case Some(s) => if Enabled(s, last) then Some(Step(s, last)) else None
  }

  /** The stream's task is unfinished and nobody has cancelled it. */
  predicate Live(s: State, sid: nat) {
    sid in s.active && s.active[sid] in s.tasks
  }

  function PhaseOf(s: State, sid: nat): Phase
    requires Live(s, sid)
  {
    s.tasks[s.active[sid]].phase
  }

  /** The DATA payloads of a stream since its last CONNECT, read off the events alone. */
  function DataSince(events: seq<Event>, sid: nat): bytes {
    if events == [] then [] else
    var before := events[..|events| - 1];
    match events[|events| - 1]
    case Connect(id) => if id == sid then [] else DataSince(before, sid)
    case Data(id, payload) => if id == sid then DataSince(before, sid) + payload else DataSince(before, sid)
    case _ => DataSince(before, sid)
  }

  /** A CLOSE arrived since the stream's last CONNECT. */
  predicate ClosedSince(events: seq<Event>, sid: nat) {
    if events == [] then false else
    var before := events[..|events| - 1];
    match events[|events| - 1]
    case Connect(id) => id != sid && ClosedSince(before, sid)
    case Close(id) => id == sid || ClosedSince(before, sid)
    case _ => ClosedSince(before, sid)
  }

  /** A DATA frame hit the cap since the stream's last CONNECT. */
  predicate OverflowedSince(events: seq<Event>, sid: nat) {
    if events == [] then false else
    var before := events[..|events| - 1];
    match events[|events| - 1]
    case Connect(id) => id != sid && OverflowedSince(before, sid)
    case Data(id, payload) =>
      OverflowedSince(before, sid)
      || (id == sid && Exec(before).Some? && Overflows(Exec(before).value, sid, payload))
    case _ => OverflowedSince(before, sid)
  }

  lemma {:induction false} ReachableInv(events: seq<Event>)
    requires Exec(events).Some?
    ensures Inv(Exec(events).value)
  {
    if events != [] {
      var before := events[..|events| - 1];
      ReachableInv(before);
      hide Inv, Enabled, Step;
      StepKeepsInv(Exec(before).value, events[|events| - 1]);
    }
  }

  /** The history fields say what the events say. */
  ghost predicate Faithful(events: seq<Event>, s: State, sid: nat) {
    var log := LogOf(s, sid);
    && log.received == DataSince(events, sid)
    && (log.lost != [] ==> OverflowedSince(events, sid))
    && (Live(s, sid) ==> (OverflowedSince(events, sid) ==> log.lost != []))
    && (Live(s, sid) ==> (ClosedSince(events, sid) ==> log.closedEarly))
  }

  /** Only a CONNECT brings a stream to life. */
  lemma LiveBefore(s: State, e: Event, sid: nat)
    requires Inv(s) && Enabled(s, e) && Live(Step(s, e), sid) && e != Connect(sid)
    ensures Live(s, sid)
    ensures e == Close(sid) ==> sid !in s.relays
  {
    hide LogsAccounted, BuffersBounded, CleanupCovers;
  }

  /** What a step writes into the history of a stream. */
  lemma LogAfter(s: State, e: Event, sid: nat)
    requires Enabled(s, e)
    ensures var log, log' := LogOf(s, sid), LogOf(Step(s, e), sid);
            match e
            case Connect(id) => log' == if id == sid then Log([], [], [], false) else log
            case Data(id, payload) =>
              && log'.received == (if id == sid then log.received + payload else log.received)
              && log'.closedEarly == log.closedEarly
              && log'.lost == (if id == sid && Overflows(s, sid, payload) && log.target == []
                               then log'.received else log.lost)
            case _ =>
              && log'.received == log.received && log'.lost == log.lost
              && log'.closedEarly == (log.closedEarly || (e == Close(sid) && sid in s.active && sid !in s.relays))
  {
    hide Concat;
  }

  lemma {:induction false} HistoryFaithful(events: seq<Event>, sid: nat)
    requires Exec(events).Some?
    ensures Faithful(events, Exec(events).value, sid)
  {
    if events != [] {
      var before, e := events[..|events| - 1], events[|events| - 1];
      var s := Exec(before).value;
      HistoryFaithful(before, sid);
      ReachableInv(before);
      LogAfter(s, e, sid);
      if Live(Step(s, e), sid) && e != Connect(sid) {
        LiveBefore(s, e, sid);
        assert Accounted(s, s.tasks[s.active[sid]]);
      }
      hide Step, Enabled, Inv, Accounted;
      assert Faithful(before, s, sid);
    }
  }

  // ---------------------------------------------------------------------------------------------
  // Main results

  /**
    Hand-off ordering. Under every interleaving, what a live stream's target has been given followed
    by what is still buffered is, byte for byte, what arrived since its CONNECT - exactly when no
    DATA frame of it has hit the cap. A hit loses everything that had arrived until then.
   */
  lemma HandOffKeepsOrder(events: seq<Event>, sid: nat)
    requires Exec(events).Some? && Live(Exec(events).value, sid)
    ensures var s := Exec(events).value;
            var log := LogOf(s, sid);
            && DataSince(events, sid) == log.lost + log.target + Concat(PendingOf(s, sid))
            && (log.lost == [] <==> !OverflowedSince(events, sid))
            && (DataSince(events, sid) == log.target + Concat(PendingOf(s, sid)) <==> !OverflowedSince(events, sid))
  {
    ReachableInv(events);
    HistoryFaithful(events, sid);
    var s := Exec(events).value;
    assert Accounted(s, s.tasks[s.active[sid]]);
    var log := LogOf(s, sid);
    assert |DataSince(events, sid)| == |log.lost| + |log.target + Concat(PendingOf(s, sid))|;
    assert [] + log.target == log.target;
  }

  /** The pending bytes of a stream have arrived since its CONNECT. */
  lemma {:induction false} PendingHasArrived(events: seq<Event>, sid: nat)
    requires Exec(events).Some?
    ensures |Concat(PendingOf(Exec(events).value, sid))| <= |DataSince(events, sid)|
  {
    assert Concat<byte>([]) == [];
    if events != [] {
      var before, e := events[..|events| - 1], events[|events| - 1];
      PendingHasArrived(before, sid);
      ReachableInv(before);
      PendingAfter(Exec(before).value, e, sid);
      hide Step, Enabled, Inv, PendingOf;
    }
  }

  /** No step but a DATA frame of the stream adds to its pending bytes. */
  lemma PendingAfter(s: State, e: Event, sid: nat)
    requires Inv(s) && Enabled(s, e)
    ensures var size, size' := |Concat(PendingOf(s, sid))|, |Concat(PendingOf(Step(s, e), sid))|;
            size' <= if e.Data? && e.sid == sid then size + |e.payload| else if e == Connect(sid) then 0 else size
  {
    if e.Data? {
      DataAddsPending(s, e.sid, e.payload, sid);
    } else {
      assert Concat<byte>([]) == [];
      hide Concat, LogsAccounted, RelaysOwned, TasksListed, LogOf, StepData;
    }
  }

  lemma DataAddsPending(s: State, id: nat, payload: bytes, sid: nat)
    ensures |Concat(PendingOf(StepData(s, id, payload), sid))|
              <= |Concat(PendingOf(s, sid))| + if id == sid then |payload| else 0
  {
    assert Concat<byte>([]) == [];
    ConcatSnoc(PendingOf(s, id), payload);
    hide Concat, LogOf;
  }

  /**
    A stream that has been sent no more than 262144 bytes never overflows: while it is live, all of them
    are at the target or pending, in order.
   */
  lemma {:induction false} SmallStreamsNeverOverflow(events: seq<Event>, sid: nat)
    requires Exec(events).Some? && |DataSince(events, sid)| <= 262144
    ensures !OverflowedSince(events, sid)
  {
    if events != [] {
      var before, e := events[..|events| - 1], events[|events| - 1];
      if e != Connect(sid) {
        SmallStreamsNeverOverflow(before, sid);
        PendingHasArrived(before, sid);
      }
      hide Step, Enabled, PendingOf, Concat;
    }
  }

  lemma SmallStreamsArrive(events: seq<Event>, sid: nat)
    requires Exec(events).Some? && Live(Exec(events).value, sid) && |DataSince(events, sid)| <= 262144
    ensures var s := Exec(events).value; DataSince(events, sid) == LogOf(s, sid).target + Concat(PendingOf(s, sid))
  {
    SmallStreamsNeverOverflow(events, sid);
    HandOffKeepsOrder(events, sid);
  }

  /** Live or not, a target never holds anything but the first bytes that arrived, in order. */
  lemma TargetHoldsPrefix(events: seq<Event>, sid: nat)
    requires Exec(events).Some? && !OverflowedSince(events, sid)
    ensures LogOf(Exec(events).value, sid).target <= DataSince(events, sid)
  {
    ReachableInv(events);
    HistoryFaithful(events, sid);
    var log := LogOf(Exec(events).value, sid);
    assert log.lost == [] && [] + log.target == log.target;
    hide Accounted;
  }

  /** The guard matters: a run where the cap is hit and the target is then given bytes that came later. */
  lemma OverflowBreaksOrder()
    ensures exists events: seq<Event>, sid: nat ::
              && Exec(events).Some? && OverflowedSince(events, sid)
              && !(LogOf(Exec(events).value, sid).target <= DataSince(events, sid))
  {
    var big := seq(MAX_PENDING_BYTES + 1, _ => 0);
    var e0, e1, e2, e3 := Connect(1), Data(1, big), Data(1, [7]), Connected(0);
    var s0 := Step(INITIAL, e0);
    var s1 := Step(s0, e1);
    var s2 := Step(s1, e2);
    assert Overflows(s0, 1, big) && PendingOf(s2, 1) == [[7]];
    assert Concat([[7]]) == [7] + Concat<byte>([]);
    assert Enabled(s2, e3) && LogOf(Step(s2, e3), 1).target == [] + [7];
    hide Enabled, Step, Overflows, Concat;
    assert Exec([]) == Some(INITIAL);
    OneMore([], e0, 1);
    OneMore([] + [e0], e1, 1);
    OneMore([] + [e0] + [e1], e2, 1);
    OneMore([] + [e0] + [e1] + [e2], e3, 1);
    var run := [] + [e0] + [e1] + [e2] + [e3];
    assert DataSince(run, 1) == ([] + big) + [7] && DataSince(run, 1)[0] == 0;
    assert Exec(run).Some? && OverflowedSince(run, 1);
    assert LogOf(Exec(run).value, 1).target[0] == 7;
  }

  /** What one more step adds to a run and to what is read off its events. */
  lemma OneMore(events: seq<Event>, e: Event, sid: nat)
    requires Exec(events).Some? && Enabled(Exec(events).value, e)
    ensures Exec(events + [e]) == Some(Step(Exec(events).value, e))
    ensures DataSince(events + [e], sid) ==
              match e
              case Connect(id) => if id == sid then [] else DataSince(events, sid)
              case Data(id, payload) => DataSince(events, sid) + (if id == sid then payload else [])
              case _ => DataSince(events, sid)
    ensures OverflowedSince(events, sid) && !e.Connect? ==> OverflowedSince(events + [e], sid)
    ensures e.Data? && e.sid == sid && Overflows(Exec(events).value, sid, e.payload) ==>
              OverflowedSince(events + [e], sid)
  {
    assert (events + [e])[..|events|] == events;
    hide Enabled, Step, Overflows;
  }

  /**
    Relay ownership. A registered relay belongs to a stream that `active_streams` lists, whose task is
    unfinished and past the connect; so once the disconnect cleanup is over no relay of the client is
    left, whatever its other tasks did meanwhile and whatever they do afterwards.
   */
  lemma RelaysAreOwned(events: seq<Event>, sid: nat)
    requires Exec(events).Some? && sid in Exec(events).value.relays
    ensures var s := Exec(events).value;
            Live(s, sid) && PhaseOf(s, sid) != Connecting && !s.reader.Gone?
  {
    ReachableInv(events);
  }

  lemma {:induction false} CleanupLeavesNoRelay(events: seq<Event>, later: seq<Event>)
    requires Exec(events).Some? && Exec(events).value.reader.Gone?
    requires Exec(events + later).Some?
    ensures Exec(events + later).value.relays == {} && Exec(events + later).value.active == map[]
    ensures Exec(events + later).value.reader.Gone?
  {
    var all := events + later;
    ReachableInv(all);
    hide Step, Enabled, Inv, Exec;
    if later == [] {
      assert all == events;
    } else {
      var before, e := later[..|later| - 1], later[|later| - 1];
      assert all == (events + before) + [e];
      ExecLast(events + before, e);
      CleanupLeavesNoRelay(events, before);
      GoneStaysGone(Exec(events + before).value, e);
    }
    GoneIsEmpty(Exec(all).value);
  }

  lemma ExecLast(events: seq<Event>, e: Event)
    requires Exec(events + [e]).Some?
    ensures Exec(events).Some? && Enabled(Exec(events).value, e)
    ensures Exec(events + [e]).value == Step(Exec(events).value, e)
  {
    assert (events + [e])[..|events|] == events;
    hide Enabled, Step;
  }

  lemma GoneStaysGone(s: State, e: Event)
    requires Enabled(s, e) && s.reader.Gone?
    ensures Step(s, e).reader.Gone?
  {
    hide Concat;
  }

  lemma GoneIsEmpty(s: State)
    requires Inv(s) && s.reader.Gone?
    ensures s.relays == {} && s.active == map[]
  {
    hide LogsAccounted, BuffersBounded, TasksListed;
    assert forall sid | sid in s.relays :: sid in s.active;
  }

  /**
    Deferred close. A stream closed or overflowed while its target was connecting never starts
    relaying, and no stream is marked for a deferred close while its relay task runs.
   */
  lemma DeferredStreamsNeverRelay(events: seq<Event>, sid: nat)
    requires Exec(events).Some? && Live(Exec(events).value, sid)
    ensures var s := Exec(events).value;
            if PhaseOf(s, sid) == Relaying || PhaseOf(s, sid) == Ending
            then sid !in s.deferred && !ClosedSince(events, sid) && !OverflowedSince(events, sid)
            else ClosedSince(events, sid) || OverflowedSince(events, sid) ==> sid in s.deferred
  {
    ReachableInv(events);
    HistoryFaithful(events, sid);
    var s := Exec(events).value;
    assert Accounted(s, s.tasks[s.active[sid]]);
  }

  /** The pending buffer of a stream never exceeds the cap, and a stream with a relay has none. */
  lemma PendingIsBounded(events: seq<Event>, sid: nat)
    requires Exec(events).Some?
    ensures TotalBytes(PendingOf(Exec(events).value, sid)) <= MAX_PENDING_BYTES
    ensures sid in Exec(events).value.relays ==> PendingOf(Exec(events).value, sid) == []
  {
    ReachableInv(events);
    assert Concat<byte>([]) == [];
  }

  /**
    The assumption on stream ids is needed: were a CONNECT accepted for an id in use, the failure of
    the first connect would leave the second one's relay outside `active_streams`.
   */
  lemma ReusedIdLosesRelay()
    ensures var once := Exec([Connect(1)]).value;
            var twice := StepConnect(once, 1);
            && !Unused(once, 1)
            && RunningAt(twice, 0, Connecting) && RunningAt(twice, 1, Connecting)
            && var s := StepConnected(StepConnectFailed(twice, 0), 1); 1 in s.relays && 1 !in s.active
  {
    assert [Connect(1)][..0] == [];
  }

  /**
    So is the assumption that a cancelled task only unwinds. Were the cleanup's cancellation swallowed by
    a connect that has just succeeded, its relay would be registered after the cleanup had passed it.
   */
  lemma SwallowedCancelLosesRelay()
    ensures Exec([Connect(1), Disconnect, CleanStream(1)]).Some?
    ensures var s := Exec([Connect(1), Disconnect, CleanStream(1)]).value;
            && !RunningAt(s, 0, Connecting) && 0 in s.tasks && s.tasks[0].cancelled
            && var s' := StepConnected(s, 0); 1 in s'.relays && 1 !in s'.active && s'.reader.todo == {}
  {
    var e0, e1, e2 := Connect(1), Disconnect, CleanStream(1);
    assert [e0][..0] == [] && [e0, e1][..1] == [e0] && [e0, e1, e2][..2] == [e0, e1];
    var s0 := Step(INITIAL, e0);
    assert Exec([e0]) == Some(s0);
    assert Exec([e0, e1]) == Some(Step(s0, e1));
  }

  /** The stream a step is about. */
  function About(s: State, e: Event): Option<nat>
    requires Enabled(s, e)
  {
    match e
    case Connect(sid) => Some(sid)
    case Data(sid, _) => Some(sid)
    case Close(sid) => Some(sid)
    case Drained(_) => Some(s.reader.sid)
    case Connected(t) => Some(s.tasks[t].sid)
    case Flushed(t) => Some(s.tasks[t].sid)
    case ConnectFailed(t) => Some(s.tasks[t].sid)
    case Crashed(t) => Some(s.tasks[t].sid)
    case TargetEnded(t) => Some(s.tasks[t].sid)
    case RelayDone(t) => Some(s.tasks[t].sid)
    case Unwound(t, _) => Some(s.tasks[t].sid)
    case CleanStream(sid) => Some(sid)
    case _ => None
  }

  /** What the server knows about a stream is the same in both states. */
  ghost predicate Untouched(s: State, s': State, sid: nat) {
    && (sid in s'.relays <==> sid in s.relays)
    && (sid in s'.active <==> sid in s.active) && (sid in s.active ==> s'.active[sid] == s.active[sid])
    && (forall t | t in s.tasks && s.tasks[t].sid == sid :: t in s'.tasks && s'.tasks[t] == s.tasks[t])
    && (forall t | t in s'.tasks && s'.tasks[t].sid == sid :: t in s.tasks)
    && LogOf(s', sid) == LogOf(s, sid)
    && PendingOf(s', sid) == PendingOf(s, sid) && (sid in s'.deferred <==> sid in s.deferred)
  }

  lemma ConnectLeavesOthers(s: State, id: nat, sid: nat)
    requires TasksListed(s) && id != sid
    ensures Untouched(s, StepConnect(s, id), sid)
  {
  }

  lemma DataLeavesOthers(s: State, id: nat, payload: bytes, sid: nat)
    requires id != sid
    ensures Untouched(s, StepData(s, id, payload), sid)
  {
    hide Concat, Overflows;
  }

  lemma DropLeavesOthers(s: State, id: nat, sid: nat, reader: Reader)
    requires TasksListed(s) && id != sid
    ensures Untouched(s, Drop(s, id).(reader := reader), sid)
  {
  }

  lemma CloseLeavesOthers(s: State, id: nat, sid: nat)
    requires TasksListed(s) && id != sid
    ensures Untouched(s, StepClose(s, id), sid)
  {
  }

  lemma TasksLeaveOthers(s: State, e: Event, sid: nat)
    requires TasksListed(s) && Enabled(s, e)
    requires e.Connected? || e.Flushed? || e.ConnectFailed?
    ensures About(s, e) != Some(sid) ==> Untouched(s, Step(s, e), sid)
  {
    hide Concat, TotalBytes, Overflows;
  }

  lemma EndsLeaveOthers(s: State, e: Event, sid: nat)
    requires Enabled(s, e)
    requires e.Crashed? || e.TargetEnded? || e.RelayDone? || e.Unwound? || e.OtherFrame? || e.Disconnect? || e.Awaited?
    ensures About(s, e) != Some(sid) ==> Untouched(s, Step(s, e), sid)
  {
    hide Concat, TotalBytes, Overflows;
  }

  /**
    Streams of one client do not disturb each other: a step changes nothing of a stream it is not
    about. Only the end of the cleanup forgets buffers, and by then no stream is active.
   */
  lemma StreamsAreIndependent(events: seq<Event>, e: Event, sid: nat)
    requires Exec(events).Some? && Enabled(Exec(events).value, e)
    ensures var s := Exec(events).value;
            if e.CleanupDone? then
              && s.active == map[] && s.relays == {}
              && Step(s, e) == s.(pending := map[], deferred := {}, reader := Gone)
            else About(s, e) != Some(sid) ==> Untouched(s, Step(s, e), sid)
  {
    ReachableInv(events);
    hide LogsAccounted, BuffersBounded, Untouched, Drop, Concat;
    var s := Exec(events).value;
    match e
    case Connect(id) => if id != sid { ConnectLeavesOthers(s, id, sid); }
    case Data(id, payload) => if id != sid { DataLeavesOthers(s, id, payload, sid); }
    case Close(id) => if id != sid { CloseLeavesOthers(s, id, sid); }
    case Drained(inTime) =>
      if s.reader.sid != sid {
        DropLeavesOthers(s, s.reader.sid, sid, Reading);
        ReaderAlone(s, Reading, sid);
      }
    case CleanStream(id) => if id != sid { DropLeavesOthers(s, id, sid, Step(s, e).reader); }
    case Connected(_) => TasksLeaveOthers(s, e, sid);
    case Flushed(_) => TasksLeaveOthers(s, e, sid);
    case ConnectFailed(_) => TasksLeaveOthers(s, e, sid);
    case CleanupDone => assert s.active == map[];
    case _ => EndsLeaveOthers(s, e, sid);
  }

  lemma ReaderAlone(s: State, reader: Reader, sid: nat)
    ensures Untouched(s, s.(reader := reader), sid)
  {
  }

  /**
    How streams end. After a CLOSE the stream has no relay, and while its connect still runs the close
    is pending; a target that does not drain in time loses its stream; one that has ended keeps its
    relay until the client has been told; a failed connect and a finished
    relay leave nothing behind, so the client may use the id again. A deferred close and a crashed
    connect, though, leave the id in `active_streams` with no task.
   */
  lemma EndedStreamsAreForgotten(events: seq<Event>, e: Event)
    requires Exec(events).Some? && Enabled(Exec(events).value, e) && About(Exec(events).value, e).Some?
    ensures var s, s' := Exec(events).value, Step(Exec(events).value, e);
            var sid := About(s, e).value;
            match e
            case Close(_) => sid !in s'.relays && (Live(s', sid) ==> sid in s'.deferred)
            case Drained(inTime) =>
              if inTime then s' == s.(reader := Reading)
              else sid !in s'.relays && sid !in s'.active && s'.reader.Reading?
            case ConnectFailed(_) => Unused(s', sid) && sid !in s'.relays && sid !in s'.pending
            case RelayDone(_) => Unused(s', sid) && sid !in s'.relays
            case Flushed(_) =>
              if sid in s.deferred then sid !in s'.relays && sid in s'.active && !Live(s', sid) && sid !in s'.deferred
              else Live(s', sid) && PhaseOf(s', sid) == Relaying && sid in s'.relays
            case TargetEnded(_) => sid in s'.relays && Live(s', sid) && PhaseOf(s', sid) == Ending
            case Crashed(_) => sid !in s'.relays && sid in s'.active && !Live(s', sid)
            case CleanStream(_) =>
              && sid !in s'.relays && sid !in s'.active
              && s'.reader.awaiting == if Live(s, sid) then Some(s.active[sid]) else None
            case _ => true
  {
    ReachableInv(events);
    hide Concat, LogsAccounted;
  }

  /** The reader, when it is not waiting, can take any frame, and it can always be disconnected. */
  ghost predicate ReaderGoesOn(s: State) {
    && (s.reader.Reading? ==> forall sid: nat, payload: bytes ::
          Enabled(s, Data(sid, payload)) && Enabled(s, Close(sid)) && Enabled(s, OtherFrame))
    && (s.reader.Reading? ==> forall sid: nat ::
          sid !in s.active && sid !in s.deferred && (forall t | t in s.tasks :: s.tasks[t].sid != sid) ==>
            Enabled(s, Connect(sid)))
    && (s.reader.Draining? ==> Enabled(s, Drained(true)) && Enabled(s, Drained(false)))
    && (s.reader.Reading? || s.reader.Draining? ==> Enabled(s, Disconnect))
  }

  /** Every unfinished task has a step that it can take, for each way its wait can end. */
  ghost predicate TasksGoOn(s: State) {
    forall t | t in s.tasks ::
      if s.tasks[t].cancelled then Enabled(s, Unwound(t, false))
      else match s.tasks[t].phase
           case Connecting =>
             Enabled(s, Connected(t)) && Enabled(s, ConnectFailed(t)) && Enabled(s, Crashed(t))
           case Flushing => Enabled(s, Flushed(t))
           case Relaying => Enabled(s, TargetEnded(t)) && Enabled(s, RelayDone(t))
           case Ending => Enabled(s, RelayDone(t))
  }

  /** The cleanup can go on: a task that it waits for has been cancelled and can unwind. */
  ghost predicate CleanupGoesOn(s: State) {
    s.reader.Cleaning? ==>
      match s.reader.awaiting
      case None => if s.reader.todo == {} then Enabled(s, CleanupDone)
                   else forall sid | sid in s.reader.todo :: Enabled(s, CleanStream(sid))
      case Some(t) => if t in s.tasks then Enabled(s, Unwound(t, false)) else Enabled(s, Awaited)
  }

  /** Nothing is stuck in any reachable state. */
  lemma NothingIsStuck(events: seq<Event>)
    requires Exec(events).Some?
    ensures var s := Exec(events).value; ReaderGoesOn(s) && TasksGoOn(s) && CleanupGoesOn(s)
  {
    hide Inv, Exec, ReaderGoesOn, TasksGoOn, CleanupGoesOn;
    ReachableInv(events);
    ReaderIsNotStuck(Exec(events).value);
    TasksAreNotStuck(Exec(events).value);
    CleanupIsNotStuck(Exec(events).value);
  }

  lemma ReaderIsNotStuck(s: State)
    ensures ReaderGoesOn(s)
  {
    if s.reader.Reading? {
      assert Enabled(s, OtherFrame) && Enabled(s, Disconnect);
      forall sid: nat
        ensures Enabled(s, Close(sid)) && (Enabled(s, Connect(sid)) <==> Unused(s, sid))
      {
      }
    }
    if s.reader.Draining? {
      assert Enabled(s, Disconnect);
    }
  }

  lemma TasksAreNotStuck(s: State)
    ensures TasksGoOn(s)
  {
  }

  lemma CleanupIsNotStuck(s: State)
    requires Inv(s)
    ensures CleanupGoesOn(s)
  {
    hide LogsAccounted, BuffersBounded, RelaysOwned, TasksListed;
  }

  // ---------------------------------------------------------------------------------------------
  // A run for every stream

  /** A CONNECT, and pieces that arrive before the target is there; then the rest, one by one. */
  function EarlyRun(sid: nat, early: seq<bytes>): seq<Event> {
    if early == [] then [Connect(sid)] else EarlyRun(sid, early[..|early| - 1]) + [Data(sid, early[|early| - 1])]
  }

  function FullRun(sid: nat, early: seq<bytes>, late: seq<bytes>): seq<Event> {
    if late == [] then EarlyRun(sid, early) + [Connected(0)] + [Flushed(0)] else
    FullRun(sid, early, late[..|late| - 1]) + [Data(sid, late[|late| - 1])] + [Drained(true)]
  }

  lemma ExecMore(events: seq<Event>, e: Event)
    requires Exec(events).Some? && Enabled(Exec(events).value, e)
    ensures Exec(events + [e]) == Some(Step(Exec(events).value, e))
  {
    OneMore(events, e, 0);
  }

  /** The states these runs lead to. */
  function EarlyState(sid: nat, early: seq<bytes>): State {
    State(map[sid := 0], if early == [] then map[] else map[sid := early], {}, {},
          map[0 := Task(sid, Connecting, false)], 1, Reading, map[sid := Log(Concat(early), [], [], false)])
  }

  function FullState(sid: nat, parts: seq<bytes>): State {
    State(map[sid := 1], map[], {}, {sid}, map[1 := Task(sid, Relaying, false)], 2, Reading,
          map[sid := Log(Concat(parts), [], Concat(parts), false)])
  }

  lemma EarlyBegins(sid: nat)
    ensures Enabled(INITIAL, Connect(sid)) && StepConnect(INITIAL, sid) == EarlyState(sid, [])
  {
    assert Concat<byte>([]) == [];
    var s := StepConnect(INITIAL, sid);
    assert s.active == map[sid := 0] && s.tasks == map[0 := Task(sid, Connecting, false)];
    assert s.logs == map[sid := Log([], [], [], false)];
  }

  lemma EarlyGoesOn(sid: nat, early: seq<bytes>, piece: bytes)
    requires |Concat(early + [piece])| <= 262144
    ensures StepData(EarlyState(sid, early), sid, piece) == EarlyState(sid, early + [piece])
  {
    ConcatSnoc(early, piece);
    assert Concat<byte>([]) == [];
    hide Concat;
    var s := EarlyState(sid, early);
    DataGoes(s, sid, piece);
    assert s.pending[sid := early + [piece]] == map[sid := early + [piece]];
    assert StepData(s, sid, piece).logs == map[sid := Log(Concat(early + [piece]), [], [], false)];
  }

  lemma EarlyHandsOver(sid: nat, early: seq<bytes>)
    ensures var s1 := StepConnected(EarlyState(sid, early), 0);
            RunningAt(s1, 0, Flushing) && StepFlushed(s1, 0) == FullState(sid, early)
  {
    assert Concat<byte>([]) == [];
    hide Concat;
    var s := EarlyState(sid, early);
    var s1 := StepConnected(s, 0);
    assert s1.pending == map[] && s1.relays == {sid} && s1.tasks == map[0 := Task(sid, Flushing, false)];
    assert PendingOf(s, sid) == early;
    assert s1.logs == map[sid := Log(Concat(early), [], Concat(early), false)];
    var s2 := StepFlushed(s1, 0);
    assert s2.tasks == map[1 := Task(sid, Relaying, false)] && s2.active == map[sid := 1];
  }

  lemma FullGoesOn(sid: nat, parts: seq<bytes>, piece: bytes)
    ensures var s := StepData(FullState(sid, parts), sid, piece);
            s.reader == Draining(sid) && s.(reader := Reading) == FullState(sid, parts + [piece])
  {
    ConcatSnoc(parts, piece);
    hide Concat;
    var s := FullState(sid, parts);
    assert StepData(s, sid, piece).logs ==
             map[sid := Log(Concat(parts + [piece]), [], Concat(parts + [piece]), false)];
  }

  lemma {:induction false} EarlyRuns(sid: nat, early: seq<bytes>)
    requires |Concat(early)| <= 262144
    ensures Exec(EarlyRun(sid, early)) == Some(EarlyState(sid, early))
  {
    if early == [] {
      EarlyBegins(sid);
      ExecMore([], Connect(sid));
      assert [] + [Connect(sid)] == [Connect(sid)];
    } else {
      var init, last := early[..|early| - 1], early[|early| - 1];
      ConcatSnoc(init, last);
      assert early == init + [last];
      hide Concat, Exec, StepData;
      EarlyRuns(sid, init);
      EarlyGoesOn(sid, init, last);
      ExecMore(EarlyRun(sid, init), Data(sid, last));
    }
  }

  /**
    Every stream can be served. Whatever part of the pieces, up to 262144 bytes, comes before the target
    is there, and whatever comes after, the run in which all goes well ends with all of them at the target.
   */
  lemma {:induction false} FullRuns(sid: nat, early: seq<bytes>, late: seq<bytes>)
    requires |Concat(early)| <= 262144
    ensures Exec(FullRun(sid, early, late)) == Some(FullState(sid, early + late))
    ensures LogOf(FullState(sid, early + late), sid).target == Concat(early) + Concat(late)
  {
    ConcatAppend(early, late);
    hide Concat, Exec, StepData, StepConnected, StepFlushed, EarlyRun;
    if late == [] {
      assert early + [] == early;
      EarlyRuns(sid, early);
      EarlyHandsOver(sid, early);
      ExecMore(EarlyRun(sid, early), Connected(0));
      ExecMore(EarlyRun(sid, early) + [Connected(0)], Flushed(0));
    } else {
      var init, last := late[..|late| - 1], late[|late| - 1];
      assert early + late == (early + init) + [last];
      FullRuns(sid, early, init);
      FullGoesOn(sid, early + init, last);
      ExecMore(FullRun(sid, early, init), Data(sid, last));
      ExecMore(FullRun(sid, early, init) + [Data(sid, last)], Drained(true));
    }
  }
}
