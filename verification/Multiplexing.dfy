/**
  Many streams over one connection: TunnelClient.send_data cuts writes into frames, the frames of
  all streams share the wire in any order, and the receiver sorts the DATA payloads by stream id.
 */
module Multiplexing {
  import opened Bytes
  import opened Protocol
  import opened ReceiveLoops

  const MAX_PAYLOAD: nat := MAX_FRAME_SIZE - FRAME_HEADER_SIZE

  /** The payloads send_data makes of one write: pieces of the maximum size, then the remainder. */
  function Chunks(data: bytes): (parts: seq<bytes>)
    ensures forall p | p in parts :: |p| <= MAX_PAYLOAD
    ensures |data| > 0 ==> forall p | p in parts :: p != []
    ensures Concat(parts) == data && |parts| > 0
  {
    if |data| <= MAX_PAYLOAD then [data] else
    assert data[..MAX_PAYLOAD] + data[MAX_PAYLOAD..] == data;
    [data[..MAX_PAYLOAD]] + Chunks(data[MAX_PAYLOAD..])
  }

  /** Every piece but the last is as long as a frame allows. */
  lemma {:induction false} ChunksAreFull(data: bytes, k: nat)
    requires k < |Chunks(data)| - 1
    ensures |Chunks(data)[k]| == 4 * 1024 * 1024 - 9
  {
    ChunksStep(data);
    if k > 0 {
      ChunksAreFull(data[MAX_PAYLOAD..], k - 1);
    }
  }

  /** One more piece. */
  lemma ChunksStep(data: bytes)
    ensures Chunks(data) ==
              if |data| <= MAX_PAYLOAD then [data] else [data[..MAX_PAYLOAD]] + Chunks(data[MAX_PAYLOAD..])
  {
  }

  /** DATA frames of one stream. */
  function DataFrames(sid: nat, parts: seq<bytes>): (frames: seq<Frame>)
    ensures |frames| == |parts|
    ensures forall k :: 0 <= k < |parts| ==> frames[k] == Frame(sid, DATA, parts[k])
  {
    seq(|parts|, i requires 0 <= i < |parts| => Frame(sid, DATA, parts[i]))
  }

  lemma DataFramesCons(sid: nat, part: bytes, parts: seq<bytes>)
    ensures DataFrames(sid, [part] + parts) == [Frame(sid, DATA, part)] + DataFrames(sid, parts)
  {
  }

  /** The frames of a write from position i on. */
  function FramesFrom(sid: nat, data: bytes, i: nat): seq<Frame> {
    if i < |data| then DataFrames(sid, Chunks(data[i..])) else []
  }

  lemma FramesFromStart(sid: nat, data: bytes)
    ensures |data| > MAX_PAYLOAD ==> FramesFrom(sid, data, 0) == DataFrames(sid, Chunks(data))
    ensures |data| <= MAX_PAYLOAD ==> DataFrames(sid, Chunks(data)) == [Frame(sid, DATA, data)]
  {
    ChunksStep(data);
    assert data[0..] == data;
  }

  lemma FramesFromStep(sid: nat, data: bytes, i: nat)
    requires i < |data|
    ensures var end := if i + MAX_PAYLOAD < |data| then i + MAX_PAYLOAD else |data|;
            FramesFrom(sid, data, i) == [Frame(sid, DATA, data[i..end])] + FramesFrom(sid, data, i + MAX_PAYLOAD)
  {
    hide Chunks, DataFrames;
    var rest := data[i..];
    ChunksStep(rest);
    if i + MAX_PAYLOAD < |data| {
      assert rest[..MAX_PAYLOAD] == data[i..i + MAX_PAYLOAD];
      assert rest[MAX_PAYLOAD..] == data[i + MAX_PAYLOAD..];
      DataFramesCons(sid, rest[..MAX_PAYLOAD], Chunks(rest[MAX_PAYLOAD..]));
    } else {
      assert data[i..|data|] == rest;
      assert [rest] == [rest] + [];
      DataFramesCons(sid, rest, []);
    }
  }

  lemma FramesFromEnd(sid: nat, data: bytes, i: nat)
    ensures i >= |data| ==> FramesFrom(sid, data, i) == []
  {
  }

  /**
    send_data. `sent` says whether the n-th frame of this call could be sent; the first failure ends
    the call. Whatever was sent is a prefix of the chunk frames, and all of them if nothing failed.
   */
  method SendData(sid: nat, data: bytes, sent: nat -> bool) returns (frames: seq<Frame>, ok: bool)
    ensures frames <= DataFrames(sid, Chunks(data))
    ensures ok ==> frames == DataFrames(sid, Chunks(data))
    ensures !ok ==> |frames| < |Chunks(data)| && !sent(|frames|)
    ensures forall n | 0 <= n < |frames| :: sent(n)
  {
    hide Concat, Chunks, DataFrames, FramesFrom;
    FramesFromStart(sid, data);
    frames, ok := [], true;
    if |data| <= MAX_PAYLOAD {
      if sent(0) {
        frames := [Frame(sid, DATA, data)];
      } else {
        ok := false;
      }
      return;
    }
    ghost var all := DataFrames(sid, Chunks(data));
    assert all == [] + all;
    var i := 0;
    while i < |data|
      invariant 0 <= i
      invariant all == frames + FramesFrom(sid, data, i)
      invariant forall n | 0 <= n < |frames| :: sent(n)
      decreases |data| - i
    {
      FramesFromStep(sid, data, i);
      var end := if i + MAX_PAYLOAD < |data| then i + MAX_PAYLOAD else |data|;
      ghost var later := FramesFrom(sid, data, i + MAX_PAYLOAD);
      if !sent(|frames|) {
        ok := false;
        break;
      }
      var frame := Frame(sid, DATA, data[i..end]);
      assert frames + ([frame] + later) == (frames + [frame]) + later;
      frames := frames + [frame];
      i := i + MAX_PAYLOAD;
    }
    FramesFromEnd(sid, data, i);
  }

  /** Everything written to a stream, as the chunks that will travel. */
  function QueueOf(writes: seq<bytes>): (parts: seq<bytes>)
    ensures forall p | p in parts :: |p| <= MAX_PAYLOAD
  {
    if writes == [] then [] else Chunks(writes[0]) + QueueOf(writes[1..])
  }

  lemma {:induction false} QueueKeepsBytes(writes: seq<bytes>)
    ensures Concat(QueueOf(writes)) == Concat(writes)
  {
    if writes != [] {
      QueueKeepsBytes(writes[1..]);
      ConcatAppend(Chunks(writes[0]), QueueOf(writes[1..]));
    }
  }

  /** Whose turn it is on the shared wire: a stream's next chunk, or any frame that carries no data. */
  datatype Turn = Chunk(sid: nat) | Control(frame: Frame)

  datatype Wire = Wire(frames: seq<Frame>, left: map<nat, seq<bytes>>)

  /** The frames a schedule puts on the wire and the chunks it leaves behind. */
  function Transmit(queues: map<nat, seq<bytes>>, schedule: seq<Turn>): Wire {
    if schedule == [] then Wire([], queues) else
    match schedule[0]
    case Control(f) =>
      var rest := Transmit(queues, schedule[1..]);
      rest.(frames := [f] + rest.frames)
    case Chunk(sid) =>
      if sid !in queues || queues[sid] == [] then Transmit(queues, schedule[1..]) else
      var rest := Transmit(queues[sid := queues[sid][1..]], schedule[1..]);
      rest.(frames := [Frame(sid, DATA, queues[sid][0])] + rest.frames)
  }

  predicate Sendable(f: Frame) {
    f.streamId < UINT32 && Width(f) <= MAX_FRAME_SIZE
  }

  ghost predicate ValidQueues(queues: map<nat, seq<bytes>>) {
    forall sid | sid in queues :: sid < UINT32 && forall p | p in queues[sid] :: |p| <= MAX_PAYLOAD
  }

  ghost predicate ValidSchedule(schedule: seq<Turn>) {
    forall t | t in schedule && t.Control? :: Sendable(t.frame) && t.frame.cmd != DATA
  }

  /** The payloads dispatched to one stream, in order. */
  function DataFor(sid: nat, frames: seq<Frame>): bytes {
    if frames == [] then [] else
    (if frames[0].cmd == DATA && frames[0].streamId == sid then frames[0].payload else [])
      + DataFor(sid, frames[1..])
  }

  lemma {:induction false} DataForAppend(sid: nat, a: seq<Frame>, b: seq<Frame>)
    ensures DataFor(sid, a + b) == DataFor(sid, a) + DataFor(sid, b)
  {
    if a == [] {
      assert a + b == b;
    } else {
      assert (a + b)[1..] == a[1..] + b;
      DataForAppend(sid, a[1..], b);
    }
  }

  /** One more frame. */
  lemma DataForSnoc(sid: nat, frames: seq<Frame>, f: Frame)
    ensures DataFor(sid, []) == []
    ensures DataFor(sid, frames + [f]) ==
              DataFor(sid, frames) + (if f.cmd == DATA && f.streamId == sid then f.payload else [])
  {
    DataForAppend(sid, frames, [f]);
    DataForCons(sid, f, []);
  }

  lemma DataForCons(sid: nat, f: Frame, rest: seq<Frame>)
    ensures DataFor(sid, [f] + rest) ==
              (if f.cmd == DATA && f.streamId == sid then f.payload else []) + DataFor(sid, rest)
  {
  }

  lemma QueuesStayValid(queues: map<nat, seq<bytes>>, s: nat)
    requires ValidQueues(queues) && s in queues && queues[s] != []
    ensures ValidQueues(queues[s := queues[s][1..]])
  {
  }

  /** A chunk's turn moves the head of its queue to the wire and leaves the other streams alone. */
  lemma ChunkTurn(queues: map<nat, seq<bytes>>, s: nat, rest: seq<Frame>, left: bytes, sid: nat)
    requires ValidQueues(queues) && sid in queues && s in queues && queues[s] != []
    requires DataFor(sid, rest) + left == Concat(queues[s := queues[s][1..]][sid])
    ensures var f := Frame(s, DATA, queues[s][0]);
            Sendable(f) && DataFor(sid, [f] + rest) + left == Concat(queues[sid])
  {
    assert Concat(queues[s]) == queues[s][0] + Concat(queues[s][1..]);
    var f := Frame(s, DATA, queues[s][0]);
    DataForCons(sid, f, rest);
    hide Concat, DataFor;
    if s == sid {
      Regroup(f.payload, DataFor(sid, rest), left);
    } else {
      assert [] + DataFor(sid, rest) == DataFor(sid, rest);
    }
  }

  /** Whatever the order of turns, each stream's bytes are on the wire, in order, or still queued. */
  lemma {:induction false} TransmitKeepsStreams(queues: map<nat, seq<bytes>>, schedule: seq<Turn>, sid: nat)
    requires ValidQueues(queues) && ValidSchedule(schedule) && sid in queues
    ensures var w := Transmit(queues, schedule);
            && sid in w.left
            && DataFor(sid, w.frames) + Concat(w.left[sid]) == Concat(queues[sid])
            && forall f | f in w.frames :: Sendable(f)
  {
    assert DataFor(sid, []) == [];
    hide DataFor, Concat, Sendable, ValidQueues;
    if schedule != [] {
      assert ValidSchedule(schedule[1..]) && schedule[0] in schedule;
      match schedule[0]
      case Control(f) =>
        TransmitKeepsStreams(queues, schedule[1..], sid);
        DataForCons(sid, f, Transmit(queues, schedule[1..]).frames);
        var data := DataFor(sid, Transmit(queues, schedule[1..]).frames);
        assert [] + data == data;
      case Chunk(s) =>
        if s !in queues || queues[s] == [] {
          TransmitKeepsStreams(queues, schedule[1..], sid);
        } else {
          var later := queues[s := queues[s][1..]];
          QueuesStayValid(queues, s);
          TransmitKeepsStreams(later, schedule[1..], sid);
          var w := Transmit(later, schedule[1..]);
          ChunkTurn(queues, s, w.frames, Concat(w.left[sid]), sid);
        }
    }
  }

  /** How many turns a schedule gives a stream. */
  function TurnsOf(schedule: seq<Turn>, sid: nat): nat {
    if schedule == [] then 0 else (if schedule[0] == Chunk(sid) then 1 else 0) + TurnsOf(schedule[1..], sid)
  }

  /** The control frames of a schedule, and the frames of a wire that carry no data. */
  function ControlsOf(schedule: seq<Turn>): seq<Frame> {
    if schedule == [] then [] else
    (if schedule[0].Control? then [schedule[0].frame] else []) + ControlsOf(schedule[1..])
  }

  function NonData(frames: seq<Frame>): seq<Frame> {
    if frames == [] then [] else (if frames[0].cmd != DATA then [frames[0]] else []) + NonData(frames[1..])
  }

  function Min(a: nat, b: nat): nat {
    if a < b then a else b
  }

  /** Every turn of a stream sends its next chunk, as long as there is one. */
  lemma {:induction false} TurnsSendChunks(queues: map<nat, seq<bytes>>, schedule: seq<Turn>, sid: nat)
    requires sid in queues
    ensures var left, k := Transmit(queues, schedule).left, Min(TurnsOf(schedule, sid), |queues[sid]|);
            sid in left && left[sid] == queues[sid][k..]
  {
    if schedule != [] {
      match schedule[0]
      case Control(_) => TurnsSendChunks(queues, schedule[1..], sid);
      case Chunk(s) =>
        if s !in queues || queues[s] == [] {
          TurnsSendChunks(queues, schedule[1..], sid);
        } else {
          TurnsSendChunks(queues[s := queues[s][1..]], schedule[1..], sid);
        }
    }
  }

  /** Every control frame is sent, in order, and no other frame without data is. */
  lemma {:induction false} ControlsAreSent(queues: map<nat, seq<bytes>>, schedule: seq<Turn>)
    requires ValidSchedule(schedule)
    ensures NonData(Transmit(queues, schedule).frames) == ControlsOf(schedule)
  {
    if schedule != [] {
      assert ValidSchedule(schedule[1..]) && schedule[0] in schedule;
      hide ValidSchedule;
      match schedule[0]
      case Control(f) =>
        ControlsAreSent(queues, schedule[1..]);
        NonDataCons(f, Transmit(queues, schedule[1..]).frames);
      case Chunk(s) =>
        if s !in queues || queues[s] == [] {
          ControlsAreSent(queues, schedule[1..]);
        } else {
          var later := queues[s := queues[s][1..]];
          ControlsAreSent(later, schedule[1..]);
          NonDataCons(Frame(s, DATA, queues[s][0]), Transmit(later, schedule[1..]).frames);
        }
    }
  }

  lemma NonDataCons(f: Frame, rest: seq<Frame>)
    ensures NonData([f] + rest) == (if f.cmd != DATA then [f] else []) + NonData(rest)
  {
  }

  /** Turns take effect one after the other, so the order on the wire is that of the schedule. */
  lemma {:induction false} TransmitInOrder(queues: map<nat, seq<bytes>>, a: seq<Turn>, b: seq<Turn>)
    ensures var w := Transmit(queues, a);
            var v := Transmit(w.left, b);
            Transmit(queues, a + b) == Wire(w.frames + v.frames, v.left)
    decreases |a|
  {
    if a == [] {
      assert a + b == b;
    } else {
      assert (a + b)[1..] == a[1..] + b && (a + b)[0] == a[0];
      match a[0]
      case Control(f) =>
        TransmitInOrder(queues, a[1..], b);
        Regroup([f], Transmit(queues, a[1..]).frames, Transmit(Transmit(queues, a[1..]).left, b).frames);
      case Chunk(s) =>
        if s !in queues || queues[s] == [] {
          TransmitInOrder(queues, a[1..], b);
        } else {
          var later := queues[s := queues[s][1..]];
          TransmitInOrder(later, a[1..], b);
          Regroup([Frame(s, DATA, queues[s][0])], Transmit(later, a[1..]).frames,
                  Transmit(Transmit(later, a[1..]).left, b).frames);
        }
    }
  }

  /** One turn. */
  lemma TransmitOne(queues: map<nat, seq<bytes>>, turn: Turn)
    ensures Transmit(queues, [turn]) ==
              if turn.Control? then Wire([turn.frame], queues)
              else if turn.sid in queues && queues[turn.sid] != []
              then Wire([Frame(turn.sid, DATA, queues[turn.sid][0])], queues[turn.sid := queues[turn.sid][1..]])
              else Wire([], queues)
  {
    assert [turn][1..] == [];
    assert Transmit(queues, []) == Wire([], queues);
    if turn.Chunk? && turn.sid in queues && queues[turn.sid] != [] {
      assert Transmit(queues[turn.sid := queues[turn.sid][1..]], []).frames == [];
    }
  }

  /** The bytes of a list of frames, back to back. */
  function Encode(frames: seq<Frame>): bytes
    requires forall f | f in frames :: Sendable(f)
  {
    if frames == [] then [] else
    assert frames[0] in frames && Sendable(frames[0]);
    PackFrame(frames[0].streamId, frames[0].cmd, frames[0].payload).value + Encode(frames[1..])
  }

  /** The parser recovers exactly the frames that were packed. */
  lemma {:induction false} ParseEncoded(frames: seq<Frame>)
    requires forall f | f in frames :: Sendable(f)
    ensures Parse(Encode(frames)) == Parsed(frames, [])
  {
    if frames == [] {
      assert UnpackFrame([], 0).None?;
    } else {
      var f := frames[0];
      assert f in frames;
      var head, rest := PackFrame(f.streamId, f.cmd, f.payload).value, Encode(frames[1..]);
      UnpackPacked(f.streamId, f.cmd, f.payload, [], rest);
      assert [] + head + rest == head + rest;
      hide UnpackFrame;
      assert (head + rest)[Width(f)..] == rest;
      ParseEncoded(frames[1..]);
    }
  }

  /** Queues for a table of writes per stream. */
  function Queues(writes: map<nat, seq<bytes>>): map<nat, seq<bytes>> {
    map sid | sid in writes :: QueueOf(writes[sid])
  }

  /** How many chunks of a stream have had their turn. */
  function Taken(writes: map<nat, seq<bytes>>, schedule: seq<Turn>, sid: nat): (k: nat)
    requires sid in writes
    ensures k <= |QueueOf(writes[sid])|
  {
    Min(TurnsOf(schedule, sid), |QueueOf(writes[sid])|)
  }

  /**
    End-to-end multiplexing. Any writes on any streams, chunked, interleaved with each other and with
    control frames by any schedule, packed, and parsed by the peer: each stream receives exactly the
    chunks that had their turn, and so exactly what was written to it once there were turns enough.
   */
  lemma StreamsArriveIntact(writes: map<nat, seq<bytes>>, schedule: seq<Turn>, sid: nat)
    requires (forall s | s in writes :: s < UINT32) && ValidSchedule(schedule) && sid in writes
    ensures var frames, queue := Transmit(Queues(writes), schedule).frames, QueueOf(writes[sid]);
            && (forall f | f in frames :: Sendable(f))
            && Parse(Encode(frames)) == Parsed(frames, [])
            && DataFor(sid, Parse(Encode(frames)).frames) == Concat(queue[..Taken(writes, schedule, sid)])
            && Concat(queue) == Concat(writes[sid])
            && DataFor(sid, frames) <= Concat(writes[sid])
            && (TurnsOf(schedule, sid) >= |queue| ==> DataFor(sid, frames) == Concat(writes[sid]))
  {
    var queue, k := QueueOf(writes[sid]), Taken(writes, schedule, sid);
    hide Transmit, DataFor, Encode, Parse, QueueOf;
    TransmitKeepsStreams(Queues(writes), schedule, sid);
    TurnsSendChunks(Queues(writes), schedule, sid);
    QueueKeepsBytes(writes[sid]);
    ParseEncoded(Transmit(Queues(writes), schedule).frames);
    ConcatAppend(queue[..k], queue[k..]);
    assert queue == queue[..k] + queue[k..];
    hide Concat;
    var data, left := DataFor(sid, Transmit(Queues(writes), schedule).frames), Concat(queue[k..]);
    assert data + left == Concat(queue[..k]) + left;
    assert data == (data + left)[..|data|];
    assert Concat(queue[..k]) == (data + left)[..|Concat(queue[..k])|];
    assert k == |queue| ==> queue[..k] == queue;
  }

  lemma DataForPrefix(sid: nat, part: seq<Frame>, whole: seq<Frame>)
    requires part <= whole
    ensures DataFor(sid, part) <= DataFor(sid, whole)
  {
    DataForAppend(sid, part, whole[|part|..]);
    assert whole == part + whole[|part|..];
  }

  /** Stream ids fit 32 bits, and control frames are frames that may be sent. */
  ghost predicate Writable(writes: map<nat, seq<bytes>>, schedule: seq<Turn>) {
    (forall s | s in writes :: s < UINT32) && ValidSchedule(schedule)
  }

  lemma ChunkIsSendable(queues: map<nat, seq<bytes>>, s: nat)
    requires ValidQueues(queues) && s in queues && queues[s] != []
    ensures Sendable(Frame(s, DATA, queues[s][0]))
  {
  }

  lemma {:induction false} TransmitIsSendable(queues: map<nat, seq<bytes>>, schedule: seq<Turn>)
    requires ValidQueues(queues) && ValidSchedule(schedule)
    ensures forall f | f in Transmit(queues, schedule).frames :: Sendable(f)
  {
    hide Sendable, ValidQueues;
    if schedule != [] {
      assert ValidSchedule(schedule[1..]) && schedule[0] in schedule;
      match schedule[0]
      case Control(f) => TransmitIsSendable(queues, schedule[1..]);
      case Chunk(s) =>
        if s !in queues || queues[s] == [] {
          TransmitIsSendable(queues, schedule[1..]);
        } else {
          QueuesStayValid(queues, s);
          ChunkIsSendable(queues, s);
          TransmitIsSendable(queues[s := queues[s][1..]], schedule[1..]);
        }
    }
  }

  /** What the schedule puts on the wire, as frames and as bytes. */
  ghost function Sent(writes: map<nat, seq<bytes>>, schedule: seq<Turn>): (frames: seq<Frame>)
    requires Writable(writes, schedule)
    ensures forall f | f in frames :: Sendable(f)
  {
    TransmitIsSendable(Queues(writes), schedule);
    Transmit(Queues(writes), schedule).frames
  }

  ghost function SentBytes(writes: map<nat, seq<bytes>>, schedule: seq<Turn>): bytes
    requires Writable(writes, schedule)
  {
    Encode(Sent(writes, schedule))
  }

  /** A client's whole session: the shared secret, then the scheduled frames. */
  ghost function Session(psk: bytes, writes: map<nat, seq<bytes>>, schedule: seq<Turn>): (frames: seq<Frame>)
    requires |psk| <= MAX_PAYLOAD && Writable(writes, schedule)
    ensures forall f | f in frames :: Sendable(f)
  {
    [Frame(0, AUTH, psk)] + Sent(writes, schedule)
  }

  /** Whatever part of packed frames has arrived, what it parses to is a part of those frames. */
  lemma ParseArrived(frames: seq<Frame>, received: bytes)
    requires (forall f | f in frames :: Sendable(f)) && received <= Encode(frames)
    ensures Parse(received).frames <= frames
    ensures received == Encode(frames) ==> Parse(received).frames == frames
  {
    hide Encode, Parse;
    ParseEncoded(frames);
    var rest := Encode(frames)[|received|..];
    assert received + rest == Encode(frames);
    ParseAppend(received, rest);
  }

  /**
    The same through the server's loop. However the connection cuts the bytes into reads, and wherever
    it breaks off, the loop serves a part of what was sent, and all of it if all of it arrived and every
    PONG could be sent; so it hands each stream what was written to it, in order and with nothing from
    any other stream.
   */
  method DeliverToServer(psk: bytes, writes: map<nat, seq<bytes>>, schedule: seq<Turn>, segments: seq<bytes>,
                         pongSent: nat -> bool)
    returns (served: seq<Frame>, missed: nat)
    requires |psk| <= MAX_PAYLOAD && Writable(writes, schedule)
    requires forall k :: 0 <= k < |segments| ==> |segments[k]| <= READ_SIZE
    requires Stream(segments) <= Encode(Session(psk, writes, schedule))
    ensures served <= Sent(writes, schedule) && ((forall k: nat :: pongSent(k)) ==> missed == 0)
    ensures Stream(segments) == Encode(Session(psk, writes, schedule)) && missed == 0 ==>
              served == Sent(writes, schedule)
    ensures forall sid | sid in writes ::
              && DataFor(sid, served) <= Concat(writes[sid])
              && (served == Sent(writes, schedule) ==>
                    DataFor(sid, served) == Concat(QueueOf(writes[sid])[..Taken(writes, schedule, sid)]))
              && (served == Sent(writes, schedule) && TurnsOf(schedule, sid) >= |QueueOf(writes[sid])| ==>
                    DataFor(sid, served) == Concat(writes[sid]))
  {
    hide Transmit, Queues, QueueOf, DataFor, Concat, Parse, Encode, LiveReads, Taken, TurnsOf, Missed;
    ghost var session := Session(psk, writes, schedule);
    var outcome, frames, buf, pos;
    outcome, frames, served, buf, pos, missed := HandleClient(segments, psk, true, pongSent);
    NoneMissed(frames, pongSent);
    ParseArrived(session, Stream(segments));
    assert frames <= session && session[1..] == Sent(writes, schedule);
    assert |frames| > 0 ==> frames[0] == session[0];
    forall sid | sid in writes
      ensures DataFor(sid, served) <= Concat(writes[sid])
      ensures served == Sent(writes, schedule) ==>
                DataFor(sid, served) == Concat(QueueOf(writes[sid])[..Taken(writes, schedule, sid)])
      ensures served == Sent(writes, schedule) && TurnsOf(schedule, sid) >= |QueueOf(writes[sid])| ==>
                DataFor(sid, served) == Concat(writes[sid])
    {
      StreamsArriveIntact(writes, schedule, sid);
      DataForPrefix(sid, served, Sent(writes, schedule));
    }
  }
}
