/**
  The other side of safety: whatever is written to one stream of a real target can be sent, dispatched
  and given to the target, in a run of the machine, with any part of it arriving ahead of the target.
 */
module Completeness {
  import opened Bytes
  import opened EndToEnd
  import opened Multiplexing
  import opened Protocol
  import opened ServerRuns
  import opened ServerSession

  /** One stream's turns: its CONNECT, then one for each chunk. */
  function OneStream(sid: nat, connect: bytes, chunks: nat): seq<Turn> {
    if chunks == 0 then [Control(Frame(sid, CONNECT, connect))]
    else OneStream(sid, connect, chunks - 1) + [Chunk(sid)]
  }

  /** The frames those turns send. */
  function OneStreamFrames(sid: nat, connect: bytes, parts: seq<bytes>): seq<Frame> {
    if parts == [] then [Frame(sid, CONNECT, connect)]
    else OneStreamFrames(sid, connect, parts[..|parts| - 1]) + [Frame(sid, DATA, parts[|parts| - 1])]
  }

  lemma {:induction false} OneStreamSends(queues: map<nat, seq<bytes>>, sid: nat, connect: bytes, n: nat)
    requires sid in queues && n <= |queues[sid]|
    ensures Transmit(queues, OneStream(sid, connect, n)) ==
              Wire(OneStreamFrames(sid, connect, queues[sid][..n]), queues[sid := queues[sid][n..]])
  {
    if n == 0 {
      TransmitOne(queues, Control(Frame(sid, CONNECT, connect)));
      assert queues[sid := queues[sid][0..]] == queues;
    } else {
      OneStreamSends(queues, sid, connect, n - 1);
      TransmitInOrder(queues, OneStream(sid, connect, n - 1), [Chunk(sid)]);
      var left := queues[sid := queues[sid][n - 1..]];
      TransmitOne(left, Chunk(sid));
      hide Transmit;
      assert queues[sid][..n][..n - 1] == queues[sid][..n - 1] && queues[sid][..n][n - 1] == queues[sid][n - 1];
      assert left[sid := left[sid][1..]] == queues[sid := queues[sid][n..]];
    }
  }

  lemma {:induction false} OneStreamOpensFirst(sid: nat, connect: bytes, parts: seq<bytes>)
    ensures OpensFirst(OneStreamFrames(sid, connect, parts), sid)
    ensures forall i | 0 < i < |OneStreamFrames(sid, connect, parts)| ::
              OneStreamFrames(sid, connect, parts)[i].cmd == DATA
    ensures OneStreamFrames(sid, connect, parts)[..1] == [Frame(sid, CONNECT, connect)]
  {
    if parts != [] {
      OneStreamOpensFirst(sid, connect, parts[..|parts| - 1]);
    }
  }

  lemma {:induction false} FullRunServes(codec: Codec, sid: nat, connect: bytes, early: seq<bytes>, late: seq<bytes>)
    requires EventOf(codec, Frame(sid, CONNECT, connect)) == Connect(sid)
    ensures Serves(codec, FullRun(sid, early, late), OneStreamFrames(sid, connect, early + late))
    decreases |early| + |late|, |late|
  {
    if late != [] {
      var init, last := late[..|late| - 1], late[|late| - 1];
      var run, frames := FullRun(sid, early, init), OneStreamFrames(sid, connect, early + init);
      assert (early + late)[..|early + late| - 1] == early + init && (early + late)[|early + late| - 1] == last;
      FullRunServes(codec, sid, connect, early, init);
      ServesMore(codec, run, frames, OtherFrame, Frame(sid, DATA, last));
      ServesMore(codec, run + [Data(sid, last)], frames + [Frame(sid, DATA, last)], Drained(true),
                 Frame(sid, DATA, last));
    } else {
      assert early + late == early;
      EarlyRunServes(codec, sid, connect, early);
      var run, frames := EarlyRun(sid, early), OneStreamFrames(sid, connect, early);
      ServesMore(codec, run, frames, Connected(0), Frame(sid, CLOSE, []));
      ServesMore(codec, run + [Connected(0)], frames, Flushed(0), Frame(sid, CLOSE, []));
    }
  }

  lemma {:induction false} EarlyRunServes(codec: Codec, sid: nat, connect: bytes, early: seq<bytes>)
    requires EventOf(codec, Frame(sid, CONNECT, connect)) == Connect(sid)
    ensures Serves(codec, EarlyRun(sid, early), OneStreamFrames(sid, connect, early))
  {
    if early == [] {
      ServesMore(codec, [], [], OtherFrame, Frame(sid, CONNECT, connect));
      assert [] + [Connect(sid)] == [Connect(sid)];
      assert [] + [Frame(sid, CONNECT, connect)] == [Frame(sid, CONNECT, connect)];
    } else {
      var init, last := early[..|early| - 1], early[|early| - 1];
      EarlyRunServes(codec, sid, connect, init);
      ServesMore(codec, EarlyRun(sid, init), OneStreamFrames(sid, connect, init), OtherFrame, Frame(sid, DATA, last));
    }
  }

  /**
    It can be done: whatever is written to one stream of a real target, and however many of its chunks
    (up to 262144 bytes) come before the target is there, a schedule and a run exist in which all of it
    is sent, dispatched and given to the target.
   */
  lemma TargetCanGetEverything(codec: Codec, sid: nat, host: string, port: int, writes: seq<bytes>, early: nat)
    requires codec.Invertible() && PackConnect(codec, host, port).Some? && host != "" && port != 0
    requires sid < UINT32 && early <= |QueueOf(writes)| && |Concat(QueueOf(writes)[..early])| <= 262144
    ensures exists schedule: seq<Turn>, events: seq<Event> ::
              && Writable(map[sid := writes], schedule) && OpensFirst(Sent(map[sid := writes], schedule), sid)
              && Exec(events).Some? && Serves(codec, events, Sent(map[sid := writes], schedule))
              && LogOf(Exec(events).value, sid).target == Concat(writes)
  {
    hide Transmit, Exec, Serves, OpensFirst, Concat, QueueOf, FullRun, FullState, LogOf, PackConnect, OneStream;
    hide OneStreamFrames, Writable, EventOf;
    var connect, queue, table := PackConnect(codec, host, port).value, QueueOf(writes), map[sid := writes];
    var first, rest := queue[..early], queue[early..];
    assert queue == first + rest;
    var schedule := OneStream(sid, connect, |queue|);
    FramesAreDispatched(codec, sid, host, port, [], PING);
    ConnectBytes(codec, host, port);
    OneStreamIsSent(sid, connect, writes);
    FullRunServes(codec, sid, connect, first, rest);
    FullRuns(sid, first, rest);
    ConcatAppend(first, rest);
    QueueKeepsBytes(writes);
    assert Writable(table, schedule) && Serves(codec, FullRun(sid, first, rest), Sent(table, schedule));
  }

  lemma OneStreamIsSent(sid: nat, connect: bytes, writes: seq<bytes>)
    requires sid < UINT32 && |connect| <= MAX_PAYLOAD
    ensures var table, queue := map[sid := writes], QueueOf(writes);
            var schedule := OneStream(sid, connect, |queue|);
            && Writable(table, schedule) && Sent(table, schedule) == OneStreamFrames(sid, connect, queue)
            && OpensFirst(Sent(table, schedule), sid)
  {
    hide Transmit, OpensFirst, QueueOf, OneStream, OneStreamFrames;
    var table, queue := map[sid := writes], QueueOf(writes);
    OneStreamIsWritable(sid, connect, |queue|);
    assert Queues(table)[sid] == queue && queue[..|queue|] == queue;
    OneStreamSends(Queues(table), sid, connect, |queue|);
    OneStreamOpensFirst(sid, connect, queue);
  }

  lemma {:induction false} OneStreamIsWritable(sid: nat, connect: bytes, n: nat)
    requires sid < UINT32 && |connect| <= MAX_PAYLOAD
    ensures ValidSchedule(OneStream(sid, connect, n))
  {
    if n > 0 {
      OneStreamIsWritable(sid, connect, n - 1);
    }
  }
}
