/**
  _handle_client and _handle_connect as they update their maps in place, one method per segment of
  code between two suspensions, proved against the steps of ServerSession. The relay registry is
  shared with the sessions of other clients; the frames show that no method touches their relays.
 */
module SessionHandler {
  import opened Bytes
  import opened ServerSession
  import opened ServerRuns
  import opened Relays

  class SessionHandler {
    const clientId: nat
    const proxy: ForwardProxy
    var active: map<nat, nat>
    var pending: map<nat, seq<bytes>>
    var deferred: set<nat>
    var tasks: map<nat, Task>
    var nextTask: nat
    var reader: Reader
    ghost var logs: map<nat, Log>

    /** The state of the step machine that the fields and the registry stand for. */
    ghost function View(): State
      reads this, proxy
    {
      State(active, pending, deferred, proxy.StreamsOf(clientId), tasks, nextTask, reader, logs)
    }

    /**
      The machine's invariant holds, and the relay of every stream has been given exactly what the
      stream's history says its target was given.
     */
    ghost predicate Valid()
      reads this, proxy, proxy.relays.Values
    {
      Sound() && Tied() && Inv(View())
    }

    /** The registry is sound and every id fits 32 bits. */
    ghost predicate Sound()
      reads this`tasks, this`active, this`reader, proxy, proxy.relays.Values
    {
      && proxy.Valid()
      && (forall t | t in tasks :: tasks[t].sid < UINT32)
      && (forall s | s in active :: s < UINT32)
      && (reader.Draining? ==> reader.sid < UINT32)
      && (reader.Cleaning? ==> forall s | s in reader.todo :: s < UINT32)
    }

    ghost predicate Tied()
      reads this`logs, proxy, proxy.relays.Values
    {
      forall s: nat | s < UINT32 && MakeKey(clientId, s) in proxy.relays ::
        proxy.relays[MakeKey(clientId, s)].written == TargetOf(s)
    }

    /** What the history says the stream's target was given. */
    ghost function TargetOf(sid: nat): bytes
      reads this`logs
    {
      if sid in logs then logs[sid].target else []
    }

    constructor (clientId: nat, proxy: ForwardProxy)
      requires proxy.Valid() && proxy.StreamsOf(clientId) == {}
      ensures this.clientId == clientId && this.proxy == proxy
      ensures Valid() && View() == INITIAL
    {
      this.clientId, this.proxy := clientId, proxy;
      active, pending, deferred, tasks, nextTask, reader := map[], map[], {}, map[], 0, Reading;
      logs := map[];
      assert forall s: nat | s < UINT32 && MakeKey(clientId, s) in proxy.relays :: s in proxy.StreamsOf(clientId);
    }

    /**
      Hand-off ordering for the relay itself: what it has been given is, byte for byte, what has arrived
      for its stream since the CONNECT, if and only if no DATA frame has hit the cap.
     */
    lemma RelayHoldsWhatArrived(events: seq<Event>, sid: nat)
      requires Valid() && Exec(events) == Some(View()) && sid in proxy.StreamsOf(clientId)
      ensures proxy.relays[MakeKey(clientId, sid)].written == DataSince(events, sid) <==> !OverflowedSince(events, sid)
    {
      hide Inv;
      RelaysAreOwned(events, sid);
      HandOffKeepsOrder(events, sid);
      PendingIsBounded(events, sid);
      hide Exec, DataSince, OverflowedSince;
      assert Concat<byte>([]) == [];
      var target := LogOf(View(), sid).target;
      assert target + [] == target;
    }

    /** A well-formed CONNECT frame starts a connect task. */
    method OnConnect(sid: nat)
      requires Valid() && reader.Reading? && sid < UINT32 && Unused(View(), sid)
      modifies this`tasks, this`active, this`nextTask, this`logs
      ensures Valid() && View() == StepConnect(old(View()), sid)
    {
      hide Inv, Unused;
      ConnectKeepsInv(View(), sid);
      UnusedHasNoRelay(View(), sid);
      assert MakeKey(clientId, sid) !in proxy.relays;
      hide MakeKey, ForwardProxy.StreamsOf, SessionHandler.Tied;
      tasks := tasks[nextTask := Task(sid, Connecting, false)];
      active := active[sid := nextTask];
      nextTask := nextTask + 1;
      NewLog(sid);
    }

    /** A stream without a relay begins its history. */
    ghost method NewLog(sid: nat)
      requires Tied() && MakeKey(clientId, sid) !in proxy.relays
      modifies this`logs
      ensures Tied() && logs == old(logs)[sid := Log([], [], [], false)]
    {
      hide MakeKey;
      logs := logs[sid := Log([], [], [], false)];
    }

    /** A DATA frame: to the relay if there is one, else to the pending buffer while connecting. */
    method OnData(sid: nat, payload: bytes)
      requires Valid() && reader.Reading? && sid < UINT32
      modifies this, proxy.RelayAt(clientId, sid)
      ensures Valid() && View() == StepData(old(View()), sid, payload)
      ensures forall r | r in proxy.RelayAt(clientId, sid) :: r.written == old(r.written) + payload
    {
      hide Inv;
      DataKeepsInv(View(), sid, payload);
      hide Concat, StepData, SessionHandler.Sound, SessionHandler.Tied;
      var relay := proxy.GetRelay(clientId, sid);
      if relay != null {
        Forward(sid, payload, relay);
      } else {
        Buffer(sid, payload);
      }
    }

    /** The stream has a relay: write, and wait for the target to drain. */
    method Forward(sid: nat, payload: bytes, relay: ForwardRelay)
      requires Sound() && Tied() && sid < UINT32 && proxy.RelayAt(clientId, sid) == {relay}
      modifies this`logs, this`reader, relay
      ensures Sound() && Tied() && View() == StepData(old(View()), sid, payload)
      ensures relay.written == old(relay.written) + payload
    {
      hide Concat, Overflows;
      ghost var log := LogOf(View(), sid);
      relay.Write(payload);
      logs := logs[sid := log.(received := log.received + payload, target := log.target + payload)];
      reader := Draining(sid);
      proxy.OtherKeys(clientId, sid);
    }

    /** It has none: buffer while the connect is pending, up to the cap. */
    method Buffer(sid: nat, payload: bytes)
      requires Sound() && Tied() && proxy.RelayAt(clientId, sid) == {} && sid < UINT32
      modifies this`pending, this`deferred, this`logs
      ensures Sound() && Tied() && View() == StepData(old(View()), sid, payload)
    {
      hide Concat;
      ghost var log := LogOf(View(), sid);
      ghost var received := log.received + payload;
      if sid in active {
        var buffered := if sid in pending then pending[sid] else [];
        var current := |Concat(buffered)|;
        if current + |payload| > MAX_PENDING_BYTES {
          pending := pending - {sid};
          deferred := deferred + {sid};
          logs := logs[sid := log.(received := received, lost := if log.target == [] then received else log.lost)];
        } else {
          pending := pending[sid := buffered + [payload]];
          logs := logs[sid := log.(received := received)];
        }
      } else {
        logs := logs[sid := log.(received := received)];
      }
    }

    /** remove_relay, then pop the stream from active_streams and cancel its task unless it is done. */
    method DropStream(sid: nat)
      requires Sound() && Tied() && sid < UINT32
      modifies this`active, this`tasks, proxy, proxy.RelayAt(clientId, sid)
      ensures Sound() && Tied() && View() == Drop(old(View()), sid)
      ensures forall c: nat | c != clientId :: proxy.StreamsOf(c) == old(proxy.StreamsOf(c))
    {
      proxy.RemoveRelay(clientId, sid);
      if sid in active {
        var task := active[sid];
        active := active - {sid};
        if task in tasks {
          tasks := tasks[task := tasks[task].(cancelled := true)];
        }
      }
      assert old(active) - {sid} == active;
    }

    /** A CLOSE frame: ends a stream that has a relay, is deferred while it is connecting. */
    method OnClose(sid: nat)
      requires Valid() && reader.Reading? && sid < UINT32
      modifies this, proxy, proxy.RelayAt(clientId, sid)
      ensures Valid() && View() == StepClose(old(View()), sid)
      ensures forall c: nat | c != clientId :: proxy.StreamsOf(c) == old(proxy.StreamsOf(c))
    {
      hide Inv;
      CloseKeepsInv(View(), sid);
      var relay := proxy.GetRelay(clientId, sid);
      if relay != null {
        DropStream(sid);
        pending := pending - {sid};
      } else if sid in active {
        logs := logs[sid := LogOf(View(), sid).(closedEarly := true)];
        deferred := deferred + {sid};
      }
    }

    /** The reader resumes from draining a target; a stalled target loses its stream. */
    method OnDrained(inTime: bool)
      requires Valid() && reader.Draining?
      modifies this, proxy, proxy.RelayAt(clientId, reader.sid)
      ensures Valid() && View() == StepDrained(old(View()), inTime)
      ensures forall c: nat | c != clientId :: proxy.StreamsOf(c) == old(proxy.StreamsOf(c))
    {
      hide Inv;
      DrainedKeepsInv(View(), inTime);
      if !inTime {
        DropStream(reader.sid);
      }
      reader := Reading;
    }

    /**
      The uninterrupted end of a successful connect: register the relay, take the pending buffer,
      write all of it to the target.
     */
    method OnConnected(task: nat, relay: ForwardRelay)
      requires Valid() && RunningAt(View(), task, Connecting)
      requires relay.active && relay.written == [] && relay !in proxy.relays.Values
      modifies this`pending, this`logs, this`tasks, proxy, relay
      ensures Valid() && View() == StepConnected(old(View()), task)
      ensures relay.written == LogOf(View(), tasks[task].sid).target
      ensures proxy.RelayAt(clientId, tasks[task].sid) == {relay}
      ensures forall c: nat | c != clientId :: proxy.StreamsOf(c) == old(proxy.StreamsOf(c))
    {
      hide Inv;
      ConnectedKeepsInv(View(), task);
      hide Concat, MakeKey, ForwardProxy.StreamsOf, SessionHandler.Tied, LogOf, PendingOf;
      var sid := tasks[task].sid;
      HandOver(sid, relay);
      tasks := tasks[task := tasks[task].(phase := Flushing)];
    }

    /** Registration, and the pending buffer to the target. */
    method HandOver(sid: nat, relay: ForwardRelay)
      requires Sound() && Tied() && sid < UINT32
      requires relay.active && relay.written == [] && relay !in proxy.relays.Values
      modifies this`pending, this`logs, proxy, relay
      ensures Sound() && Tied()
      ensures var s := old(View());
              View() == s.(relays := s.relays + {sid}, pending := s.pending - {sid},
                           logs := s.logs[sid := LogOf(s, sid).(target := Concat(PendingOf(s, sid)))])
      ensures relay.written == TargetOf(sid) && proxy.RelayAt(clientId, sid) == {relay}
      ensures forall c: nat | c != clientId :: proxy.StreamsOf(c) == old(proxy.StreamsOf(c))
    {
      hide Concat;
      ghost var log := LogOf(View(), sid);
      proxy.OtherKeys(clientId, sid);
      hide MakeKey;
      proxy.Register(clientId, sid, relay);
      assert TiedBut(sid);
      var buffered := if sid in pending then pending[sid] else [];
      pending := pending - {sid};
      Flush(buffered, relay);
      assert [] + Concat(buffered) == Concat(buffered);
      logs := logs[sid := log.(target := relay.written)];
      assert TiedBut(sid);
    }

    /** Every other stream's relay has been given what its history says. */
    ghost predicate TiedBut(sid: nat)
      reads this`logs, proxy, proxy.relays.Values
    {
      forall s: nat | s != sid && s < UINT32 && MakeKey(clientId, s) in proxy.relays ::
        proxy.relays[MakeKey(clientId, s)].written == TargetOf(s)
    }

    /** The buffered pieces go one by one to a relay. */
    method Flush(buffered: seq<bytes>, relay: ForwardRelay)
      modifies relay
      ensures relay.written == old(relay.written) + Concat(buffered) && relay.active == old(relay.active)
    {
      var i := 0;
      while i < |buffered|
        invariant 0 <= i <= |buffered|
        invariant relay.written == old(relay.written) + Concat(buffered[..i]) && relay.active == old(relay.active)
      {
        relay.Write(buffered[i]);
        ConcatSnoc(buffered[..i], buffered[i]);
        assert buffered[..i + 1] == buffered[..i] + [buffered[i]];
        i := i + 1;
      }
      assert buffered[..i] == buffered;
    }

    /** The flush is drained: carry out a deferred close, or start the relay task. */
    method OnFlushed(task: nat)
      requires Valid() && RunningAt(View(), task, Flushing)
      modifies this, proxy, proxy.RelayAt(clientId, tasks[task].sid)
      ensures Valid() && View() == StepFlushed(old(View()), task)
      ensures forall c: nat | c != clientId :: proxy.StreamsOf(c) == old(proxy.StreamsOf(c))
    {
      hide Inv;
      FlushedKeepsInv(View(), task);
      var sid := tasks[task].sid;
      if sid in deferred {
        deferred := deferred - {sid};
        proxy.RemoveRelay(clientId, sid);
        tasks := tasks - {task};
      } else {
        tasks := (tasks - {task})[nextTask := Task(sid, Relaying, false)];
        active := active[sid := nextTask];
        nextTask := nextTask + 1;
      }
    }

    /** The connect failed: nothing of the stream is kept. */
    method OnConnectFailed(task: nat)
      requires Valid() && RunningAt(View(), task, Connecting)
      modifies this
      ensures Valid() && View() == StepConnectFailed(old(View()), task)
    {
      hide Inv;
      ConnectFailedKeepsInv(View(), task);
      var sid := tasks[task].sid;
      active, pending, deferred := active - {sid}, pending - {sid}, deferred - {sid};
      tasks := tasks - {task};
    }

    /** The callback at the end of a relay task. */
    method OnRelayDone(task: nat)
      requires Valid() && (RunningAt(View(), task, Relaying) || RunningAt(View(), task, Ending))
      modifies this, proxy, proxy.RelayAt(clientId, tasks[task].sid)
      ensures Valid() && View() == StepRelayDone(old(View()), task)
      ensures forall c: nat | c != clientId :: proxy.StreamsOf(c) == old(proxy.StreamsOf(c))
    {
      hide Inv;
      RelayDoneKeepsInv(View(), task);
      var sid := tasks[task].sid;
      proxy.RemoveRelay(clientId, sid);
      active := active - {sid};
      tasks := tasks - {task};
    }

    /** A cancelled task ends. Its callback, if it still runs, finds nothing of the stream. */
    method OnUnwound(task: nat, callback: bool)
      requires Valid() && Enabled(View(), Unwound(task, callback))
      modifies this`active, this`tasks, proxy, proxy.RelayAt(clientId, tasks[task].sid)
      ensures Valid() && View() == Step(old(View()), Unwound(task, callback))
      ensures View() == old(View()).(tasks := old(tasks) - {task})
    {
      hide Inv;
      UnwoundKeepsInv(View(), task);
      if callback {
        var sid := tasks[task].sid;
        proxy.RemoveRelay(clientId, sid);
        active := active - {sid};
      }
      tasks := tasks - {task};
    }

    /** The read loop is left: the cleanup visits the streams that are active now. */
    method OnDisconnect()
      requires Valid() && (reader.Reading? || reader.Draining?)
      modifies this`reader
      ensures Valid() && View() == Step(old(View()), Disconnect)
    {
      hide Inv;
      StepKeepsInv(View(), Disconnect);
      reader := Cleaning(active.Keys, None);
    }

    /** The end of the cleanup. */
    method OnCleanupDone()
      requires Valid() && Enabled(View(), CleanupDone)
      modifies this`pending, this`deferred, this`reader
      ensures Valid() && View() == Step(old(View()), CleanupDone)
      ensures proxy.StreamsOf(clientId) == {}
    {
      hide Inv;
      CleanupDoneKeepsInv(View());
      GoneIsEmpty(View().(pending := map[], deferred := {}, reader := Gone));
      pending, deferred, reader := map[], {}, Gone;
    }

    /** One turn of the cleanup loop in the finally block; afterwards it awaits the cancelled task. */
    method OnCleanStream(sid: nat)
      requires Valid() && reader.Cleaning? && reader.awaiting.None? && sid in reader.todo
      modifies this, proxy, proxy.RelayAt(clientId, sid)
      ensures Valid() && View() == StepCleanStream(old(View()), sid)
      ensures forall c: nat | c != clientId :: proxy.StreamsOf(c) == old(proxy.StreamsOf(c))
    {
      hide Inv;
      CleanStreamKeepsInv(View(), sid);
      var waitFor := if sid in active && active[sid] in tasks then Some(active[sid]) else None;
      DropStream(sid);
      reader := Cleaning(reader.todo - {sid}, waitFor);
    }
  }
}
