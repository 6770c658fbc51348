/**
  From the client's writes to the server's targets: chunking, sharing the wire, parsing, dispatch and
  hand-off together. Whatever the interleavings on both sides, a target only ever holds the first
  bytes of what the client wrote to its stream.
 */
module EndToEnd {
  import opened Bytes
  import opened Protocol
  import opened Multiplexing
  import opened ReceiveLoops
  import opened ServerSession
  import opened ServerRuns
  import opened TunnelClient
  import opened TunnelStream

  /** How the dispatch of _handle_client reads an authenticated frame. */
  function EventOf(codec: Codec, f: Frame): Event {
    match f.cmd
    case CONNECT => if UnpackConnect(codec, f.payload).Some? then Connect(f.streamId) else OtherFrame
    case DATA => Data(f.streamId, f.payload)
    case CLOSE => Close(f.streamId)
    case _ => OtherFrame
  }

  predicate FromFrame(e: Event) {
    e.Connect? || e.Data? || e.Close? || e.OtherFrame?
  }

  /** The frame steps of a run are the dispatch of `frames`, in order; all other steps fall between. */
  ghost predicate Serves(codec: Codec, events: seq<Event>, frames: seq<Frame>) {
    if events == [] then frames == [] else
    var before, last := events[..|events| - 1], events[|events| - 1];
    if FromFrame(last) then
      |frames| > 0 && last == EventOf(codec, frames[|frames| - 1])
      && Serves(codec, before, frames[..|frames| - 1])
    else Serves(codec, before, frames)
  }

  /** A client opens a stream before it sends data on it, and does not open it again. */
  ghost predicate OpensFirst(frames: seq<Frame>, sid: nat) {
    forall i, j | 0 <= i < j < |frames| && frames[i].streamId == sid && frames[j].streamId == sid ::
      frames[i].cmd == DATA ==> frames[j].cmd != CONNECT
  }

  lemma {:induction false} NoDataYet(frames: seq<Frame>, sid: nat)
    requires forall i | 0 <= i < |frames| :: frames[i].cmd == DATA ==> frames[i].streamId != sid
    ensures DataFor(sid, frames) == []
  {
    if frames != [] {
      NoDataYet(frames[1..], sid);
    }
  }

  /** What a stream received since its CONNECT is what was dispatched to it. */
  lemma {:induction false} ReceivedIsDispatched(codec: Codec, events: seq<Event>, frames: seq<Frame>, sid: nat)
    requires Serves(codec, events, frames) && OpensFirst(frames, sid)
    ensures DataSince(events, sid) == DataFor(sid, frames)
    decreases |events|
  {
    if events != [] {
      var before, last := events[..|events| - 1], events[|events| - 1];
      if FromFrame(last) {
        var n := |frames| - 1;
        ReceivedIsDispatched(codec, before, frames[..n], sid);
        assert frames == frames[..n] + [frames[n]];
        DataForSnoc(sid, frames[..n], frames[n]);
        if last == Connect(sid) {
          assert frames[n].cmd == CONNECT && frames[n].streamId == sid;
          NoDataYet(frames[..n], sid);
        }
      } else {
        ReceivedIsDispatched(codec, before, frames, sid);
      }
    }
  }

  /** What EventOf makes of each frame: a CONNECT of a real target, DATA and CLOSE; the rest does nothing here. */
  lemma FramesAreDispatched(codec: Codec, sid: nat, host: string, port: int, payload: bytes, cmd: Cmd)
    requires codec.Invertible()
    ensures PackConnect(codec, host, port).Some? && host != "" && port != 0 ==>
              EventOf(codec, Frame(sid, CONNECT, PackConnect(codec, host, port).value)) == Connect(sid)
    ensures UnpackConnect(codec, payload).None? ==> EventOf(codec, Frame(sid, CONNECT, payload)) == OtherFrame
    ensures EventOf(codec, Frame(sid, DATA, payload)) == Data(sid, payload)
    ensures EventOf(codec, Frame(sid, CLOSE, payload)) == Close(sid)
    ensures cmd !in {CONNECT, DATA, CLOSE} ==> EventOf(codec, Frame(sid, cmd, payload)) == OtherFrame
  {
    if PackConnect(codec, host, port).Some? {
      var p := PackConnect(codec, host, port).value;
      UnpackPackedConnect(codec, host, port, []);
      assert p + [] == p;
    }
  }

  /** One more step of a run: a dispatched frame, or a step that dispatches none. */
  lemma ServesMore(codec: Codec, events: seq<Event>, frames: seq<Frame>, e: Event, f: Frame)
    requires Serves(codec, events, frames)
    ensures Serves(codec, events + [EventOf(codec, f)], frames + [f])
    ensures !e.Connect? && !e.Data? && !e.Close? && !e.OtherFrame? ==> Serves(codec, events + [e], frames)
  {
    assert (events + [e])[..|events|] == events && (events + [EventOf(codec, f)])[..|events|] == events;
    assert (frames + [f])[..|frames|] == frames;
  }

  /** A CLOSE frame that no later CONNECT of a real target has made obsolete. */
  ghost predicate CloseStands(codec: Codec, frames: seq<Frame>, sid: nat, i: nat) {
    && i < |frames| && frames[i].streamId == sid && frames[i].cmd == CLOSE
    && forall j | i < j < |frames| ::
         !(frames[j].streamId == sid && frames[j].cmd == CONNECT && UnpackConnect(codec, frames[j].payload).Some?)
  }

  /** A stream was closed since its CONNECT if and only if such a frame was dispatched. */
  lemma {:induction false} ClosesAreDispatched(codec: Codec, events: seq<Event>, frames: seq<Frame>, sid: nat)
    requires Serves(codec, events, frames)
    ensures ClosedSince(events, sid) <==> exists i: nat :: CloseStands(codec, frames, sid, i)
    decreases |events|
  {
    if events != [] {
      var before, last := events[..|events| - 1], events[|events| - 1];
      if FromFrame(last) {
        var n := |frames| - 1;
        ClosesAreDispatched(codec, before, frames[..n], sid);
        hide UnpackConnect;
        forall i: nat | i < n
          ensures CloseStands(codec, frames, sid, i) <==>
                    CloseStands(codec, frames[..n], sid, i) && last != Connect(sid)
        {
        }
        assert last == Close(sid) ==> CloseStands(codec, frames, sid, n);
      } else {
        ClosesAreDispatched(codec, before, frames, sid);
      }
    }
  }

  /** What has arrived for a stream is a prefix of what was written to it, and in the end all of it. */
  lemma PartIsPrefix(codec: Codec, writes: map<nat, seq<bytes>>, schedule: seq<Turn>,
                     part: seq<Frame>, events: seq<Event>, sid: nat)
    requires Writable(writes, schedule) && sid in writes
    requires part <= Sent(writes, schedule) && OpensFirst(Sent(writes, schedule), sid)
    requires Serves(codec, events, part)
    ensures DataSince(events, sid) <= Concat(writes[sid])
    ensures part == Sent(writes, schedule) && TurnsOf(schedule, sid) >= |QueueOf(writes[sid])| ==>
              DataSince(events, sid) == Concat(writes[sid])
  {
    hide Transmit, Queues, QueueOf, TurnsOf, Concat, DataFor, Serves, DataSince, Encode, Parse;
    StreamsArriveIntact(writes, schedule, sid);
    DataForPrefix(sid, part, Sent(writes, schedule));
    assert OpensFirst(part, sid);
    hide OpensFirst;
    ReceivedIsDispatched(codec, events, part, sid);
  }

  /**
    One run of the session that dispatches a part of what was sent, of whatever length: the target holds
    a prefix of the writes, and while the stream lives its buffer continues it. Nothing is missing once
    the stream has had turns enough and everything sent is dispatched. All this unless the stream's
    pending buffer overflowed, which takes more than 262144 bytes.
   */
  lemma TargetsGetWhatWasWritten(codec: Codec, writes: map<nat, seq<bytes>>, schedule: seq<Turn>,
                                 part: seq<Frame>, events: seq<Event>, sid: nat)
    requires Writable(writes, schedule) && sid in writes
    requires part <= Sent(writes, schedule) && OpensFirst(Sent(writes, schedule), sid)
    requires Exec(events).Some? && Serves(codec, events, part)
    ensures |Concat(writes[sid])| <= 262144 ==> !OverflowedSince(events, sid)
    ensures !OverflowedSince(events, sid) ==>
              var s := Exec(events).value;
              var target, pending := LogOf(s, sid).target, Concat(PendingOf(s, sid));
              && target <= Concat(writes[sid])
              && (Live(s, sid) ==> target + pending <= Concat(writes[sid]))
              && (Live(s, sid) && part == Sent(writes, schedule) && TurnsOf(schedule, sid) >= |QueueOf(writes[sid])| ==>
                    target + pending == Concat(writes[sid]))
  {
    hide Transmit, Queues, QueueOf, TurnsOf, Concat, DataSince, OverflowedSince, Exec, Serves, OpensFirst;
    hide LogOf, PendingOf, Live;
    PartIsPrefix(codec, writes, schedule, part, events, sid);
    if |Concat(writes[sid])| <= 262144 {
      SmallStreamsNeverOverflow(events, sid);
    }
    if !OverflowedSince(events, sid) {
      TargetHoldsPrefix(events, sid);
      if Live(Exec(events).value, sid) {
        HandOffKeepsOrder(events, sid);
      }
    }
  }

  /**
    The end-to-end result, from the client's writes and the connection's reads to the targets. In every
    run of the session that dispatches any part of what the loop serves, unless the stream's pending
    buffer overflowed, its target holds a prefix of the client's writes and the pending bytes of a live
    stream continue it without a gap. If everything has arrived, every PONG could be sent and everything
    served is dispatched, nothing is missing of a stream that has had turns enough.
   */
  method WritesReachTargets(codec: Codec, psk: bytes, writes: map<nat, seq<bytes>>, schedule: seq<Turn>,
                            segments: seq<bytes>, pongSent: nat -> bool)
    returns (served: seq<Frame>, missed: nat)
    requires |psk| <= MAX_PAYLOAD && Writable(writes, schedule)
    requires forall k :: 0 <= k < |segments| ==> |segments[k]| <= READ_SIZE
    requires Stream(segments) <= Encode(Session(psk, writes, schedule))
    ensures (forall k: nat :: pongSent(k)) ==> missed == 0
    ensures Stream(segments) == Encode(Session(psk, writes, schedule)) && missed == 0 ==>
              served == Sent(writes, schedule)
    ensures forall events: seq<Event>, part: seq<Frame>, sid: nat |
              && Exec(events).Some? && part <= served && Serves(codec, events, part)
              && sid in writes && OpensFirst(Sent(writes, schedule), sid) ::
              && (|Concat(writes[sid])| <= 262144 ==> !OverflowedSince(events, sid))
              && (!OverflowedSince(events, sid) ==>
                    var s := Exec(events).value;
                    var target, pending := LogOf(s, sid).target, Concat(PendingOf(s, sid));
                    && target <= Concat(writes[sid])
                    && (Live(s, sid) ==> target + pending <= Concat(writes[sid]))
                    && (Live(s, sid) && part == Sent(writes, schedule)
                        && TurnsOf(schedule, sid) >= |QueueOf(writes[sid])| ==>
                          target + pending == Concat(writes[sid])))
  {
    served, missed := DeliverToServer(psk, writes, schedule, segments, pongSent);
    hide Transmit, Queues, QueueOf, TurnsOf, Encode, Session, Stream, Exec, Serves, OpensFirst, OverflowedSince;
    hide Concat, LogOf, PendingOf, Live;
    forall events: seq<Event>, part: seq<Frame>, sid: nat |
      && Exec(events).Some? && part <= served && Serves(codec, events, part)
      && sid in writes && OpensFirst(Sent(writes, schedule), sid)
      ensures |Concat(writes[sid])| <= 262144 ==> !OverflowedSince(events, sid)
      ensures !OverflowedSince(events, sid) ==>
                var s := Exec(events).value;
                var target, pending := LogOf(s, sid).target, Concat(PendingOf(s, sid));
                && target <= Concat(writes[sid])
                && (Live(s, sid) ==> target + pending <= Concat(writes[sid]))
                && (Live(s, sid) && part == Sent(writes, schedule)
                    && TurnsOf(schedule, sid) >= |QueueOf(writes[sid])| ==>
                      target + pending == Concat(writes[sid]))
    {
      TargetsGetWhatWasWritten(codec, writes, schedule, part, events, sid);
    }
  }

  /**
    The way back, in every state of a client, whatever calls have interleaved so far. `pieces` are the
    pieces the server read from each target, sent on by any schedule; the client has received some part
    of those bytes, in any reads. A registered stream that came before the first DATA of its id has been
    fed a prefix of its target's bytes, all that had their turn once every frame is dispatched; it has
    accepted a prefix of what it was fed; and it has delivered or still holds, in order, all it accepted.
    It has accepted all it was fed if the server has not closed it and never more than 8388608 bytes were
    fed and not delivered.
   */
  lemma StreamsHoldWhatTargetsSent(client: TunnelClient, pieces: map<nat, seq<bytes>>, schedule: seq<Turn>, sid: nat)
    requires client.Valid() && Writable(pieces, schedule) && sid in pieces && sid in client.streams
    requires client.received <= SentBytes(pieces, schedule)
    requires DataFor(sid, client.frames[..client.since[client.streams[sid]]]) == []
    ensures var s := client.streams[sid];
            && client.frames <= Sent(pieces, schedule)
            && s.fed <= Concat(pieces[sid])
            && (client.frames == Sent(pieces, schedule) && TurnsOf(schedule, sid) >= |QueueOf(pieces[sid])| ==>
                  s.fed == Concat(pieces[sid]))
            && s.accepted <= s.fed && s.accepted == s.delivered + s.leftover + Queued(s.queue)
            && (s.peak <= 8388608
                && (forall f | f in client.frames[client.since[s]..] ::
                      f.streamId == sid ==> f.cmd != CLOSE && f.cmd != CONNECT_FAIL) ==>
                  !s.closed && s.accepted == s.fed)
  {
    hide Transmit, Queues, QueueOf, TurnsOf, Concat, DataFor, Encode, Parse, Queued, CallsEnd;
    var s, sent := client.streams[sid], Sent(pieces, schedule);
    var since := client.since[s];
    ParseArrived(sent, client.received);
    assert client.frames <= Parse(client.received).frames;
    DataForAppend(sid, client.frames[..since], client.frames[since..]);
    assert client.frames == client.frames[..since] + client.frames[since..];
    assert [] + DataFor(sid, client.frames[since..]) == DataFor(sid, client.frames[since..]);
    DataForPrefix(sid, client.frames, sent);
    StreamsArriveIntact(pieces, schedule, sid);
  }
}
