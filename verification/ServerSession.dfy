/**
  The life of one client's streams on the server (server/tunnel_server.py), as a step machine.
  A step is the code one task runs between two suspensions. The frame reader interleaves freely
  with one connect or relay task per stream.
 */
module ServerSession {
  import opened Bytes

  const MAX_PENDING_BYTES: nat := 256 * 1024

  /** Where a stream's task is suspended. */
  datatype Phase =
    | Connecting  // before the relay is registered
    | Flushing    // relay registered and buffered data written, draining it
    | Relaying    // relay task, copying from the target
    | Ending      // relay task, telling the client that the target has ended

  datatype Task = Task(sid: nat, phase: Phase, cancelled: bool)

  /** Where the frame reader is suspended. */
  datatype Reader =
    | Reading
    | Draining(sid: nat)
    | Cleaning(todo: set<nat>, awaiting: Option<nat>)
    | Gone

  /**
    What happened to a stream since its CONNECT: the DATA payloads that arrived, those thrown away
    by an overflow of the pending buffer, the bytes written to the target, and whether a CLOSE came
    before the target was ready.
   */
  datatype Log = Log(received: bytes, lost: bytes, target: bytes, closedEarly: bool)

  /**
    `active`, `pending` and `deferred` are the maps of _handle_client, `relays` the streams of this
    client that have a registered relay, `tasks` the unfinished tasks. `logs` only records history.
   */
  datatype State = State(
    active: map<nat, nat>,
    pending: map<nat, seq<bytes>>,
    deferred: set<nat>,
    relays: set<nat>,
    tasks: map<nat, Task>,
    nextTask: nat,
    reader: Reader,
    logs: map<nat, Log>)

  const INITIAL := State(map[], map[], {}, {}, map[], 0, Reading, map[])

  datatype Event =
    | Connect(sid: nat)                     // CONNECT frame with a well-formed target
    | Data(sid: nat, payload: bytes)        // DATA frame
    | Close(sid: nat)                       // CLOSE frame
    | OtherFrame                            // any other frame
    | Drained(inTime: bool)                 // the reader's drain of a target ended or timed out
    | Connected(task: nat)                  // CONNECT_OK is sent: register the relay, flush
    | Flushed(task: nat)                    // the flush is drained: close or start relaying
    | ConnectFailed(task: nat)
    | Crashed(task: nat)                    // an error that connect_target does not handle
    | TargetEnded(task: nat)
    | RelayDone(task: nat)
    | Unwound(task: nat, callback: bool)    // a cancelled task ends, with or without its callback
    | Disconnect                            // end of file, timeout or error: cleanup begins
    | CleanStream(sid: nat)                 // one turn of the cleanup loop
    | Awaited                               // the task the cleanup waits for has ended
    | CleanupDone

  function TotalBytes(parts: seq<bytes>): nat {
    |Concat(parts)|
  }

  function PendingOf(s: State, sid: nat): seq<bytes> {
    if sid in s.pending then s.pending[sid] else []
  }

  function LogOf(s: State, sid: nat): Log {
    if sid in s.logs then s.logs[sid] else Log([], [], [], false)
  }

  /** The server holds nothing about the id: the client may use it for a new stream. */
  predicate Unused(s: State, sid: nat) {
    sid !in s.active && sid !in s.deferred && forall t | t in s.tasks :: s.tasks[t].sid != sid
  }

  predicate RunningAt(s: State, task: nat, phase: Phase) {
    task in s.tasks && !s.tasks[task].cancelled && s.tasks[task].phase == phase
  }

  predicate Enabled(s: State, e: Event) {
    match e
    case Connect(sid) => s.reader.Reading? && Unused(s, sid)
    case Data(_, _) => s.reader.Reading?
    case Close(_) => s.reader.Reading?
    case OtherFrame => s.reader.Reading?
    case Drained(_) => s.reader.Draining?
    case Connected(t) => RunningAt(s, t, Connecting)
    case Flushed(t) => RunningAt(s, t, Flushing)
    case ConnectFailed(t) => RunningAt(s, t, Connecting)
    case Crashed(t) => RunningAt(s, t, Connecting)
    case TargetEnded(t) => RunningAt(s, t, Relaying)
    case RelayDone(t) => RunningAt(s, t, Relaying) || RunningAt(s, t, Ending)
    case Unwound(t, callback) =>
      t in s.tasks && s.tasks[t].cancelled && (callback ==> s.tasks[t].phase == Relaying)
    case Disconnect => s.reader.Reading? || s.reader.Draining?
    case CleanStream(sid) => s.reader.Cleaning? && s.reader.awaiting.None? && sid in s.reader.todo
    case Awaited => s.reader.Cleaning? && s.reader.awaiting.Some? && s.reader.awaiting.value !in s.tasks
    case CleanupDone => s.reader.Cleaning? && s.reader.awaiting.None? && s.reader.todo == {}
  }

  /** remove_relay, pop from active_streams, cancel the popped task unless it is done. */
  function Drop(s: State, sid: nat): State {
    var tasks := if sid in s.active && s.active[sid] in s.tasks
                 then s.tasks[s.active[sid] := s.tasks[s.active[sid]].(cancelled := true)] else s.tasks;
    s.(relays := s.relays - {sid}, active := s.active - {sid}, tasks := tasks)
  }

  /** A DATA frame for a stream that is still connecting would exceed the cap. */
  predicate Overflows(s: State, sid: nat, payload: bytes) {
    sid !in s.relays && sid in s.active && TotalBytes(PendingOf(s, sid)) + |payload| > MAX_PENDING_BYTES
  }

  function StepData(s: State, sid: nat, payload: bytes): State {
    var log := LogOf(s, sid);
    var received := log.received + payload;
    if sid in s.relays then
      s.(logs := s.logs[sid := log.(received := received, target := log.target + payload)],
         reader := Draining(sid))
    else if Overflows(s, sid, payload) then
      s.(pending := s.pending - {sid}, deferred := s.deferred + {sid},
         logs := s.logs[sid := log.(received := received, lost := if log.target == [] then received else log.lost)])
    else if sid in s.active then
      s.(pending := s.pending[sid := PendingOf(s, sid) + [payload]],
         logs := s.logs[sid := log.(received := received)])
    else
      s.(logs := s.logs[sid := log.(received := received)])
  }

  function StepClose(s: State, sid: nat): State {
    if sid in s.relays then
      var d := Drop(s, sid);
      d.(pending := d.pending - {sid})
    else if sid in s.active then
      s.(deferred := s.deferred + {sid}, logs := s.logs[sid := LogOf(s, sid).(closedEarly := true)])
    else s
  }

  function StepConnected(s: State, task: nat): State
    requires task in s.tasks
  {
    var sid := s.tasks[task].sid;
    var log := LogOf(s, sid);
    s.(relays := s.relays + {sid}, pending := s.pending - {sid},
       tasks := s.tasks[task := s.tasks[task].(phase := Flushing)],
       logs := s.logs[sid := log.(target := Concat(PendingOf(s, sid)))])
  }

  function StepFlushed(s: State, task: nat): State
    requires task in s.tasks
  {
    var sid := s.tasks[task].sid;
    if sid in s.deferred then
      s.(deferred := s.deferred - {sid}, relays := s.relays - {sid}, tasks := s.tasks - {task})
    else
      s.(tasks := (s.tasks - {task})[s.nextTask := Task(sid, Relaying, false)],
         active := s.active[sid := s.nextTask], nextTask := s.nextTask + 1)
  }

  function StepConnect(s: State, sid: nat): State {
    s.(tasks := s.tasks[s.nextTask := Task(sid, Connecting, false)], active := s.active[sid := s.nextTask],
       nextTask := s.nextTask + 1, logs := s.logs[sid := Log([], [], [], false)])
  }

  function StepConnectFailed(s: State, task: nat): State
    requires task in s.tasks
  {
    var sid := s.tasks[task].sid;
    s.(active := s.active - {sid}, pending := s.pending - {sid}, deferred := s.deferred - {sid},
       tasks := s.tasks - {task})
  }

  /** The end of a relay task that runs its callback: deregister the relay, leave active_streams. */
  function StepRelayDone(s: State, task: nat): State
    requires task in s.tasks
  {
    var sid := s.tasks[task].sid;
    s.(relays := s.relays - {sid}, active := s.active - {sid}, tasks := s.tasks - {task})
  }

  function StepDrained(s: State, inTime: bool): State
    requires s.reader.Draining?
  {
    (if inTime then s else Drop(s, s.reader.sid)).(reader := Reading)
  }

  function StepCleanStream(s: State, sid: nat): State
    requires s.reader.Cleaning?
  {
    var waitFor := if sid in s.active && s.active[sid] in s.tasks then Some(s.active[sid]) else None;
    Drop(s, sid).(reader := Cleaning(s.reader.todo - {sid}, waitFor))
  }

  function Step(s: State, e: Event): State
    requires Enabled(s, e)
  {
    match e
    case Connect(sid) => StepConnect(s, sid)
    case Data(sid, payload) => StepData(s, sid, payload)
    case Close(sid) => StepClose(s, sid)
    case OtherFrame => s
    case Drained(inTime) => StepDrained(s, inTime)
    case Connected(t) => StepConnected(s, t)
    case Flushed(t) => StepFlushed(s, t)
    case ConnectFailed(t) => StepConnectFailed(s, t)
    case Crashed(t) => s.(tasks := s.tasks - {t})
    case TargetEnded(t) => s.(tasks := s.tasks[t := s.tasks[t].(phase := Ending)])
    case RelayDone(t) => StepRelayDone(s, t)
    case Unwound(t, callback) => if callback then StepRelayDone(s, t) else s.(tasks := s.tasks - {t})
    case Disconnect => s.(reader := Cleaning(s.active.Keys, None))
    case CleanStream(sid) => StepCleanStream(s, sid)
    case Awaited => s.(reader := Cleaning(s.reader.todo, None))
    case CleanupDone => s.(pending := map[], deferred := {}, reader := Gone)
  }

  /**
    Where a DATA frame goes, in numbers: to the target of a relay; to the buffer while the stream is
    connecting and at most 262144 bytes are pending with it; otherwise nowhere, and beyond that limit
    the buffer is dropped and the close deferred.
   */
  lemma DataGoes(s: State, sid: nat, payload: bytes)
    ensures var s', size := StepData(s, sid, payload), |Concat(PendingOf(s, sid))| + |payload|;
            && LogOf(s', sid).received == LogOf(s, sid).received + payload
            && (sid in s.relays ==>
                  LogOf(s', sid).target == LogOf(s, sid).target + payload && s'.reader == Draining(sid)
                  && s'.pending == s.pending && s'.deferred == s.deferred)
            && (sid !in s.relays ==> LogOf(s', sid).target == LogOf(s, sid).target && s'.reader == s.reader)
            && (sid !in s.relays && sid in s.active && size <= 262144 ==>
                  PendingOf(s', sid) == PendingOf(s, sid) + [payload] && s'.deferred == s.deferred
                  && LogOf(s', sid).lost == LogOf(s, sid).lost)
            && (sid !in s.relays && sid in s.active && size > 262144 ==>
                  sid !in s'.pending && s'.deferred == s.deferred + {sid})
            && (sid !in s.relays && sid !in s.active ==> s'.pending == s.pending && s'.deferred == s.deferred)
  {
    hide Concat;
  }

  // ---------------------------------------------------------------------------------------------
  // What every step keeps

  /** A task that nobody cancelled is the one `active` lists; a cancelled one is listed nowhere. */
  ghost predicate TasksListed(s: State) {
    && (forall t | t in s.tasks :: t < s.nextTask)
    && (forall sid | sid in s.active :: s.active[sid] < s.nextTask)
    && (forall t | t in s.tasks && !s.tasks[t].cancelled ::
          s.tasks[t].sid in s.active && s.active[s.tasks[t].sid] == t)
    && (forall t | t in s.tasks && s.tasks[t].cancelled ::
          s.tasks[t].sid !in s.active && s.tasks[t].sid !in s.relays)
    && (forall sid | sid in s.active && s.active[sid] in s.tasks :: s.tasks[s.active[sid]].sid == sid)
  }

  /** A stream has a relay exactly while its task, not cancelled, is past the connect. */
  ghost predicate RelaysOwned(s: State) {
    && (forall sid | sid in s.relays ::
          sid in s.active && s.active[sid] in s.tasks && s.tasks[s.active[sid]].phase != Connecting)
    && (forall t | t in s.tasks && !s.tasks[t].cancelled && s.tasks[t].phase != Connecting ::
          s.tasks[t].sid in s.relays)
  }

  ghost predicate BuffersBounded(s: State) {
    && (forall sid | sid in s.pending ::
          sid !in s.relays && TotalBytes(s.pending[sid]) <= MAX_PENDING_BYTES)
    && (!s.reader.Cleaning? ==> s.pending.Keys <= s.active.Keys)
    && (s.reader.Draining? ==> s.reader.sid !in s.pending)
    && (forall t | t in s.tasks && (s.tasks[t].phase == Relaying || s.tasks[t].phase == Ending) ::
          s.tasks[t].sid !in s.deferred)
  }

  /** Every received byte of a live stream is lost, at the target, or pending, in this order. */
  ghost predicate Accounted(s: State, task: Task) {
    var log := LogOf(s, task.sid);
    && log.received == log.lost + log.target + Concat(PendingOf(s, task.sid))
    && (task.phase == Connecting ==> log.target == [])
    && ((task.phase == Connecting || task.phase == Flushing) && (log.lost != [] || log.closedEarly) ==>
          task.sid in s.deferred)
    && (task.phase == Relaying || task.phase == Ending ==> log.lost == [] && !log.closedEarly)
  }

  ghost predicate LogsAccounted(s: State) {
    && (forall t | t in s.tasks && !s.tasks[t].cancelled :: Accounted(s, s.tasks[t]))
    && (forall sid | sid in s.logs :: s.logs[sid].lost + s.logs[sid].target <= s.logs[sid].received)
  }

  ghost predicate CleanupCovers(s: State) {
    && (s.reader.Cleaning? ==> s.active.Keys <= s.reader.todo)
    && (s.reader.Gone? ==> s.active == map[])
    && (s.reader.Cleaning? && s.reader.awaiting.Some? ==>
          var t := s.reader.awaiting.value; t < s.nextTask && (t in s.tasks ==> s.tasks[t].cancelled))
  }

  ghost predicate Inv(s: State) {
    TasksListed(s) && RelaysOwned(s) && BuffersBounded(s) && LogsAccounted(s) && CleanupCovers(s)
  }

  /** Everything about the logs, pending data and deferred closes of other streams is unchanged. */
  ghost predicate OthersKept(s: State, s': State, sid: nat) {
    && s'.logs.Keys == s.logs.Keys + {sid}
    && (forall t | t in s'.tasks && !s'.tasks[t].cancelled && s'.tasks[t].sid != sid ::
          t in s.tasks && s.tasks[t] == s'.tasks[t])
    && (forall other | other != sid :: LogOf(s', other) == LogOf(s, other))
    && (forall other | other != sid :: PendingOf(s', other) == PendingOf(s, other))
    && (forall other | other != sid :: other in s'.deferred <==> other in s.deferred)
  }

  /** Such a step keeps all accounts if it keeps the one of the stream it is about. */
  lemma LogsKeptElsewhere(s: State, s': State, sid: nat)
    requires LogsAccounted(s) && OthersKept(s, s', sid)
    requires forall t | t in s'.tasks && !s'.tasks[t].cancelled && s'.tasks[t].sid == sid :: Accounted(s', s'.tasks[t])
    requires LogOf(s', sid).lost + LogOf(s', sid).target <= LogOf(s', sid).received
    ensures LogsAccounted(s')
  {
    hide Concat;
    forall t | t in s'.tasks && !s'.tasks[t].cancelled
      ensures Accounted(s', s'.tasks[t])
    {
      if s'.tasks[t].sid != sid {
        assert Accounted(s, s.tasks[t]);
      }
    }
    forall other | other in s'.logs
      ensures s'.logs[other].lost + s'.logs[other].target <= s'.logs[other].received
    {
      assert LogOf(s', other) == s'.logs[other];
    }
  }

  lemma UnusedHasNoRelay(s: State, sid: nat)
    requires Inv(s) && Unused(s, sid)
    ensures sid !in s.relays
  {
  }

  lemma ConnectKeepsLogs(s: State, sid: nat)
    requires Inv(s) && s.reader.Reading? && Unused(s, sid)
    ensures LogsAccounted(StepConnect(s, sid))
  {
    var s' := StepConnect(s, sid);
    assert PendingOf(s', sid) == [] && LogOf(s', sid) == Log([], [], [], false) && Concat<byte>([]) == [];
    assert s'.tasks.Keys == s.tasks.Keys + {s.nextTask};
    assert OthersKept(s, s', sid);
    hide RelaysOwned, BuffersBounded, CleanupCovers, PendingOf, LogOf, OthersKept;
    LogsKeptElsewhere(s, s', sid);
  }

  lemma ConnectKeepsBuffers(s: State, sid: nat)
    requires Inv(s) && s.reader.Reading? && Unused(s, sid)
    ensures BuffersBounded(StepConnect(s, sid))
  {
    hide LogsAccounted, TotalBytes, CleanupCovers;
  }

  lemma ConnectKeepsInv(s: State, sid: nat)
    requires Inv(s) && s.reader.Reading? && Unused(s, sid)
    ensures Inv(StepConnect(s, sid))
  {
    hide LogsAccounted, BuffersBounded, LogOf;
    ConnectKeepsLogs(s, sid);
    ConnectKeepsBuffers(s, sid);
    var s' := StepConnect(s, sid);
    assert s'.tasks.Keys == s.tasks.Keys + {s.nextTask};
    assert s'.active.Keys == s.active.Keys + {sid};
  }

  lemma DataKeepsBuffers(s: State, sid: nat, payload: bytes)
    requires Inv(s) && s.reader.Reading?
    ensures BuffersBounded(StepData(s, sid, payload))
  {
    ConcatSnoc(PendingOf(s, sid), payload);
    hide Concat;
  }

  /** One stream's account after a DATA frame: written, buffered, or dropped with all before it. */
  lemma DataAccounted(s: State, task: Task, payload: bytes)
    requires Accounted(s, task)
    requires task.sid in s.active && (task.sid in s.relays <==> task.phase != Connecting)
    requires task.sid in s.relays ==> task.sid !in s.pending
    ensures Accounted(StepData(s, task.sid, payload), task)
  {
    var log := LogOf(s, task.sid);
    ConcatSnoc(PendingOf(s, task.sid), payload);
    assert Concat<byte>([]) == [];
    hide Concat;
    if task.sid in s.relays {
      assert log.received + payload == log.lost + (log.target + payload) + [];
    } else if !Overflows(s, task.sid, payload) {
      assert log.received + payload == log.lost + log.target + (Concat(PendingOf(s, task.sid)) + payload);
    }
  }

  lemma DataKeepsOthers(s: State, sid: nat, payload: bytes)
    ensures var s' := StepData(s, sid, payload);
            s'.tasks == s.tasks && OthersKept(s, s', sid)
  {
    hide Concat;
  }

  lemma DataKeepsPrefix(s: State, sid: nat, payload: bytes)
    requires LogsAccounted(s)
    requires sid in s.relays ==> LogOf(s, sid).received == LogOf(s, sid).lost + LogOf(s, sid).target
    ensures var log := LogOf(StepData(s, sid, payload), sid); log.lost + log.target <= log.received
  {
    hide Accounted, Overflows, PendingOf;
    var log := LogOf(s, sid);
    assert log.lost + log.target <= log.received <= log.received + payload;
    assert (log.received + payload) + [] == log.received + payload;
    Regroup(log.lost, log.target, payload);
  }

  lemma DataKeepsLogs(s: State, sid: nat, payload: bytes)
    requires Inv(s) && s.reader.Reading?
    ensures LogsAccounted(StepData(s, sid, payload))
  {
    var s' := StepData(s, sid, payload);
    DataKeepsOthers(s, sid, payload);
    if sid in s.relays {
      assert Accounted(s, s.tasks[s.active[sid]]) && Concat<byte>([]) == [];
    }
    hide StepData, Concat, CleanupCovers, OthersKept;
    DataKeepsPrefix(s, sid, payload);
    hide LogOf, PendingOf, Accounted;
    forall t | t in s.tasks && !s.tasks[t].cancelled && s.tasks[t].sid == sid
      ensures Accounted(s', s.tasks[t])
    {
      DataAccounted(s, s.tasks[t], payload);
    }
    LogsKeptElsewhere(s, s', sid);
  }

  lemma DataKeepsInv(s: State, sid: nat, payload: bytes)
    requires Inv(s) && s.reader.Reading?
    ensures Inv(StepData(s, sid, payload))
  {
    hide BuffersBounded, LogsAccounted, Overflows, LogOf, PendingOf;
    DataKeepsBuffers(s, sid, payload);
    DataKeepsLogs(s, sid, payload);
  }

  lemma ConnectedKeepsLogs(s: State, task: nat)
    requires Inv(s) && RunningAt(s, task, Connecting)
    ensures LogsAccounted(StepConnected(s, task))
  {
    var s' := StepConnected(s, task);
    var sid := s.tasks[task].sid;
    assert Accounted(s', s'.tasks[task]) by {
      assert Accounted(s, s.tasks[task]);
      assert PendingOf(s', sid) == [] && Concat<byte>([]) == [];
      hide Concat;
      assert LogOf(s, sid).lost + [] == LogOf(s, sid).lost;
    }
    assert s'.tasks.Keys == s.tasks.Keys;
    hide Accounted, Concat, RelaysOwned, BuffersBounded, CleanupCovers;
    LogsKeptElsewhere(s, s', sid);
  }

  lemma ConnectedKeepsInv(s: State, task: nat)
    requires Inv(s) && RunningAt(s, task, Connecting)
    ensures Inv(StepConnected(s, task))
  {
    hide LogsAccounted, TotalBytes, PendingOf, LogOf;
    ConnectedKeepsLogs(s, task);
  }

  lemma FlushedKeepsLogs(s: State, task: nat)
    requires Inv(s) && RunningAt(s, task, Flushing)
    ensures LogsAccounted(StepFlushed(s, task))
  {
    hide Concat, BuffersBounded, CleanupCovers;
    assert Accounted(s, s.tasks[task]);
  }

  lemma FlushedKeepsBuffers(s: State, task: nat)
    requires Inv(s) && RunningAt(s, task, Flushing)
    ensures BuffersBounded(StepFlushed(s, task)) && CleanupCovers(StepFlushed(s, task))
  {
    hide LogsAccounted, TotalBytes;
  }

  lemma FlushedKeepsRelays(s: State, task: nat)
    requires Inv(s) && RunningAt(s, task, Flushing)
    ensures RelaysOwned(StepFlushed(s, task))
  {
    hide LogsAccounted, BuffersBounded, CleanupCovers;
  }

  lemma FlushedKeepsInv(s: State, task: nat)
    requires Inv(s) && RunningAt(s, task, Flushing)
    ensures Inv(StepFlushed(s, task))
  {
    hide LogsAccounted, BuffersBounded, CleanupCovers, RelaysOwned;
    FlushedKeepsLogs(s, task);
    FlushedKeepsBuffers(s, task);
    FlushedKeepsRelays(s, task);
  }

  /** Dropping a stream touches no buffer and no log, so the accounts of the others stand. */
  lemma DropKeepsLogs(s: State, sid: nat, reader: Reader)
    requires LogsAccounted(s)
    ensures LogsAccounted(Drop(s, sid).(reader := reader))
  {
    hide Concat;
    var s' := Drop(s, sid).(reader := reader);
    forall t | t in s'.tasks && !s'.tasks[t].cancelled
      ensures Accounted(s', s'.tasks[t])
    {
      assert s'.tasks[t] == s.tasks[t] && Accounted(s, s.tasks[t]);
    }
  }

  lemma DropKeepsInv(s: State, sid: nat, reader: Reader)
    requires Inv(s) && (s.reader.Cleaning? || sid !in s.pending)
    requires match reader
             case Reading => !s.reader.Cleaning? && !s.reader.Gone?
             case Cleaning(todo, awaiting) =>
               && s.reader.Cleaning? && todo == s.reader.todo - {sid}
               && (awaiting.Some? ==> sid in s.active && awaiting.value == s.active[sid])
             case _ => false
    ensures Inv(Drop(s, sid).(reader := reader))
  {
    hide LogsAccounted, BuffersBounded;
    DropKeepsLogs(s, sid, reader);
    DropKeepsBuffers(s, sid, reader);
  }

  lemma DropKeepsBuffers(s: State, sid: nat, reader: Reader)
    requires BuffersBounded(s) && (s.reader.Cleaning? || sid !in s.pending)
    requires reader.Reading? || reader.Cleaning?
    requires s.reader.Cleaning? ==> reader.Cleaning?
    ensures BuffersBounded(Drop(s, sid).(reader := reader))
  {
    hide TotalBytes;
  }

  lemma CloseKeepsInv(s: State, sid: nat)
    requires Inv(s) && s.reader.Reading?
    ensures Inv(StepClose(s, sid))
  {
    if sid in s.relays {
      assert s.pending - {sid} == s.pending;
      DropKeepsInv(s, sid, Reading);
    } else {
      DeferKeepsLogs(s, sid);
      hide LogsAccounted, TotalBytes;
    }
  }

  lemma DeferKeepsLogs(s: State, sid: nat)
    requires LogsAccounted(s) && RelaysOwned(s) && sid !in s.relays
    ensures LogsAccounted(StepClose(s, sid))
  {
    hide Concat;
  }

  lemma DrainedKeepsInv(s: State, inTime: bool)
    requires Inv(s) && s.reader.Draining?
    ensures Inv(StepDrained(s, inTime))
  {
    hide Concat;
    if !inTime {
      DropKeepsInv(s, s.reader.sid, Reading);
      hide Inv;
    }
  }

  lemma CleanStreamKeepsInv(s: State, sid: nat)
    requires Inv(s) && s.reader.Cleaning?
    ensures Inv(StepCleanStream(s, sid))
  {
    DropKeepsInv(s, sid, StepCleanStream(s, sid).reader);
    hide Inv;
  }

  lemma CleanupDoneKeepsInv(s: State)
    requires Inv(s) && s.reader.Cleaning? && s.reader.todo == {}
    ensures Inv(s.(pending := map[], deferred := {}, reader := Gone))
  {
    hide Concat;
  }

  lemma ConnectFailedKeepsInv(s: State, task: nat)
    requires Inv(s) && RunningAt(s, task, Connecting)
    ensures Inv(StepConnectFailed(s, task))
  {
    hide Concat;
  }

  lemma CrashedKeepsInv(s: State, task: nat)
    requires Inv(s) && RunningAt(s, task, Connecting)
    ensures Inv(s.(tasks := s.tasks - {task}))
  {
    hide Concat;
  }

  lemma TargetEndedKeepsInv(s: State, task: nat)
    requires Inv(s) && RunningAt(s, task, Relaying)
    ensures Inv(s.(tasks := s.tasks[task := s.tasks[task].(phase := Ending)]))
  {
    hide Concat;
  }

  lemma RelayDoneKeepsInv(s: State, task: nat)
    requires Inv(s) && (RunningAt(s, task, Relaying) || RunningAt(s, task, Ending))
    ensures Inv(StepRelayDone(s, task))
  {
    hide Concat;
  }

  /** A cancelled task finds nothing left to undo: its callback changes no map. */
  lemma UnwoundKeepsInv(s: State, task: nat)
    requires Inv(s) && task in s.tasks && s.tasks[task].cancelled
    ensures StepRelayDone(s, task) == s.(tasks := s.tasks - {task})
    ensures Inv(s.(tasks := s.tasks - {task}))
  {
    hide Concat;
    assert s.relays - {s.tasks[task].sid} == s.relays;
    assert s.active - {s.tasks[task].sid} == s.active;
  }

  lemma StepKeepsInv(s: State, e: Event)
    requires Inv(s) && Enabled(s, e)
    ensures Inv(Step(s, e))
  {
    match e
    case Connect(sid) => ConnectKeepsInv(s, sid);
    case Data(sid, payload) => DataKeepsInv(s, sid, payload);
    case Close(sid) => CloseKeepsInv(s, sid);
    case OtherFrame =>
    case Drained(inTime) => DrainedKeepsInv(s, inTime);
    case Connected(t) => ConnectedKeepsInv(s, t);
    case Flushed(t) => FlushedKeepsInv(s, t);
    case ConnectFailed(t) => ConnectFailedKeepsInv(s, t);
    case Crashed(t) => CrashedKeepsInv(s, t);
    case TargetEnded(t) => TargetEndedKeepsInv(s, t);
    case RelayDone(t) => RelayDoneKeepsInv(s, t);
    case Unwound(t, _) => UnwoundKeepsInv(s, t);
    case Disconnect =>
    case CleanStream(sid) => CleanStreamKeepsInv(s, sid);
    case Awaited =>
    case CleanupDone => CleanupDoneKeepsInv(s);
  }
}
