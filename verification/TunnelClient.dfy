/**
  The stream table of one tunnel (TunnelClient in client/core/tunnel.py). Each method is a segment of
  code between two suspensions of create_stream, _read_loop or disconnect; segments of different
  calls interleave in any order.
 */
module TunnelClient {
  import opened Bytes
  import opened Multiplexing
  import opened Protocol
  import opened ReceiveLoops
  import opened TunnelStream

  const LAST_STREAM_ID: nat := UINT32 - 2

  /** How a segment of create_stream ends. */
  datatype Progress =
    | InFlight   // suspended, in the send or until the server answers
    | Opened     // create_stream returns the stream
    | NoTunnel   // create_stream returns None
    | Rejected   // create_stream returns CONNECT_REJECTED
    | Raised     // create_stream raises the error of pack_connect

  /** The create_stream calls of a tunnel, past and present. */
  datatype Calls = Calls(
    opening: set<TunnelStream>,                 // streams whose call has not ended
    ended: set<TunnelStream>,                   // streams whose call has ended without returning them
    targets: map<TunnelStream, (string, int)>,  // what each call was asked to connect to
    swept: set<TunnelStream>,                   // streams that a disconnect has taken out of the table
    created: nat,                               // how many streams were created
    lapped: bool)                               // an id was handed out again while its stream was in use

  ghost predicate Registered(streams: map<nat, TunnelStream>, s: TunnelStream) {
    s.streamId in streams && streams[s.streamId] == s
  }

  /** The stream's target does not fit a CONNECT frame. */
  ghost predicate Unpackable(codec: Codec, c: Calls, s: TunnelStream) {
    s in c.targets && PackConnect(codec, c.targets[s].0, c.targets[s].1).None?
  }

  /** A call that has ended leaves its stream registered only if it raised, and then until a disconnect. */
  ghost predicate CallsEnd(codec: Codec, streams: map<nat, TunnelStream>, c: Calls) {
    && c.opening !! c.ended && c.opening + c.ended <= c.targets.Keys
    && (forall s | s in c.opening :: !Unpackable(codec, c, s))
    && (forall s | s in c.ended && Registered(streams, s) :: Unpackable(codec, c, s))
    && (!c.lapped ==> forall s | s in c.ended && Unpackable(codec, c, s) && s !in c.swept :: Registered(streams, s))
    && (!c.lapped ==> forall s, t | s in c.opening && t in c.ended && Registered(streams, t) ::
          s.streamId != t.streamId)
  }

  /** The calls after one of them has come to r. */
  ghost function After(c: Calls, s: TunnelStream, r: Progress): Calls {
    match r
    case InFlight => c
    case Opened => c.(opening := c.opening - {s})
    case _ => c.(opening := c.opening - {s}, ended := c.ended + {s})
  }

  /** The first 4294967294 streams of a tunnel have ids of their own. */
  ghost predicate IdsFresh(streams: map<nat, TunnelStream>, c: Calls, next: nat) {
    c.created <= LAST_STREAM_ID ==>
      && !c.lapped && next == (if c.created == LAST_STREAM_ID then 1 else c.created + 1)
      && (forall sid | sid in streams :: sid <= c.created)
      && (forall s | s in c.opening :: s.streamId <= c.created)
  }

  lemma NextIsFresh(codec: Codec, streams: map<nat, TunnelStream>, c: Calls, next: nat, s: TunnelStream,
                    host: string, port: int)
    requires IdsFresh(streams, c, next) && s.streamId == next
    ensures IdsFresh(streams[s.streamId := s], Begun(codec, streams, c, s, host, port),
                     if next == LAST_STREAM_ID then 1 else next + 1)
  {
    hide PackConnect;
  }

  lemma IdsStayFresh(streams: map<nat, TunnelStream>, c: Calls, next: nat, s: TunnelStream, r: Progress)
    requires IdsFresh(streams, c, next)
    ensures IdsFresh(streams, After(c, s, r), next)
  {
  }

  lemma FewerIdsStayFresh(streams: map<nat, TunnelStream>, c: Calls, next: nat, fewer: map<nat, TunnelStream>,
                          swept: set<TunnelStream>)
    requires IdsFresh(streams, c, next) && fewer.Keys <= streams.Keys
    ensures IdsFresh(fewer, c, next) && IdsFresh(fewer, c.(swept := swept), next)
  {
  }

  /** The server has closed the stream. */
  ghost predicate ClosedIn(sid: nat, frames: seq<Frame>) {
    exists i :: 0 <= i < |frames| && frames[i].streamId == sid && frames[i].cmd in {CLOSE, CONNECT_FAIL}
  }

  lemma ClosedInSnoc(sid: nat, frames: seq<Frame>, f: Frame)
    ensures ClosedIn(sid, frames + [f]) <==>
              ClosedIn(sid, frames) || (f.streamId == sid && f.cmd in {CLOSE, CONNECT_FAIL})
  {
    if ClosedIn(sid, frames) {
      var i :| 0 <= i < |frames| && frames[i].streamId == sid && frames[i].cmd in {CLOSE, CONNECT_FAIL};
      assert (frames + [f])[i] == frames[i];
    }
    assert (frames + [f])[|frames|] == f;
  }

  lemma NothingYet(sid: nat, frames: seq<Frame>)
    ensures DataFor(sid, frames[|frames|..]) == [] && !ClosedIn(sid, frames[|frames|..])
  {
  }

  /** The id belongs to a registered stream or to one whose create_stream has not returned. */
  ghost predicate InUse(streams: map<nat, TunnelStream>, c: Calls, sid: nat) {
    sid in streams || exists s :: s in c.opening && s.streamId == sid
  }

  /** The calls after one has begun; one whose target cannot be packed ends at once. */
  ghost function Begun(codec: Codec, streams: map<nat, TunnelStream>, c: Calls, s: TunnelStream,
                       host: string, port: int): Calls
  {
    var raised := PackConnect(codec, host, port).None?;
    Calls(if raised then c.opening else c.opening + {s}, if raised then c.ended + {s} else c.ended,
          c.targets[s := (host, port)], c.swept, c.created + 1, c.lapped || InUse(streams, c, s.streamId))
  }

  lemma CallBegins(codec: Codec, streams: map<nat, TunnelStream>, c: Calls, s: TunnelStream, host: string, port: int)
    requires CallsEnd(codec, streams, c)
    requires s !in c.targets && s !in c.swept && s !in streams.Values
    ensures CallsEnd(codec, streams[s.streamId := s], Begun(codec, streams, c, s, host, port))
  {
    hide PackConnect;
  }

  /** A call that waits for an answer has its stream in the table, so that an answer or a disconnect finds it. */
  ghost predicate WaitersListed(streams: map<nat, TunnelStream>, c: Calls)
    reads c.opening`connectFuture
  {
    !c.lapped ==>
      && (forall s | s in c.opening && s.connectFuture == Unresolved :: Registered(streams, s))
      && (forall s, t | s in c.opening && t in c.opening && s.streamId == t.streamId :: s == t)
  }

  lemma WaiterBegins(codec: Codec, streams: map<nat, TunnelStream>, c: Calls, s: TunnelStream, host: string, port: int)
    requires WaitersListed(streams, c) && s !in c.opening
    ensures WaitersListed(streams[s.streamId := s], Begun(codec, streams, c, s, host, port))
  {
    hide PackConnect;
  }

  lemma WaiterEnds(streams: map<nat, TunnelStream>, c: Calls, s: TunnelStream, r: Progress)
    requires WaitersListed(streams, c) && s in c.opening && !r.InFlight?
    ensures WaitersListed(streams, After(c, s, r))
    ensures WaitersListed(streams - {s.streamId}, After(c, s, r))
  {
  }

  lemma WaitersStay(streams: map<nat, TunnelStream>, c: Calls, sid: nat)
    requires WaitersListed(streams, c) && (sid in streams ==> streams[sid] !in c.opening)
    ensures WaitersListed(streams - {sid}, c)
  {
  }

  lemma WaitersAreListed(streams: map<nat, TunnelStream>, c: Calls)
    requires WaitersListed(streams, c) && !c.lapped
    ensures forall s | s in c.opening && s.connectFuture == Unresolved :: s in streams.Values
    ensures forall s, t | s in c.opening && t in c.opening && s.streamId == t.streamId :: s == t
  {
  }

  lemma NobodyWaits(streams: map<nat, TunnelStream>, c: Calls, swept: set<TunnelStream>)
    requires forall s | s in c.opening && !c.lapped :: s.connectFuture != Unresolved
    requires !c.lapped ==> forall s, t | s in c.opening && t in c.opening && s.streamId == t.streamId :: s == t
    ensures WaitersListed(map[], c.(swept := swept))
  {
  }

  /** The account stands when a call ends without returning its stream, */
  lemma CallFails(codec: Codec, streams: map<nat, TunnelStream>, c: Calls, s: TunnelStream)
    requires CallsEnd(codec, streams, c) && s in c.opening
    ensures forall r: Progress | r.NoTunnel? || r.Rejected? :: CallsEnd(codec, streams - {s.streamId}, After(c, s, r))
  {
    hide PackConnect;
  }

  lemma NotEndedYet(codec: Codec, streams: map<nat, TunnelStream>, c: Calls, s: TunnelStream)
    requires CallsEnd(codec, streams, c) && s in c.opening
    ensures s !in c.ended
  {
  }

  /** when it returns it, */
  lemma CallReturns(codec: Codec, streams: map<nat, TunnelStream>, c: Calls, s: TunnelStream)
    requires CallsEnd(codec, streams, c)
    ensures CallsEnd(codec, streams, After(c, s, Opened))
  {
    hide PackConnect;
  }

  /** when a stream that no failed call has left behind is taken out of the table, */
  lemma StreamLeaves(codec: Codec, streams: map<nat, TunnelStream>, c: Calls, sid: nat)
    requires CallsEnd(codec, streams, c) && (sid in streams ==> streams[sid] !in c.ended)
    ensures CallsEnd(codec, streams - {sid}, c)
  {
    hide PackConnect;
  }

  /** and when a disconnect takes out all of them. */
  lemma TableIsSwept(codec: Codec, streams: map<nat, TunnelStream>, c: Calls)
    requires CallsEnd(codec, streams, c)
    ensures CallsEnd(codec, map[], c.(swept := c.swept + streams.Values))
  {
    hide PackConnect;
  }

  class TunnelClient {
    const optimistic: bool
    const codec: Codec
    var connected: bool
    var hasWriter: bool
    var streams: map<nat, TunnelStream>
    var nextStreamId: nat
    ghost var calls: Calls
    // A disconnect has emptied the table and no connect has followed.
    ghost var down: bool
    // The buffer of _read_loop, and what has been read since the connect.
    var buf: bytes
    var pos: nat
    ghost var received: bytes
    // The frames dispatched since the connect, and how many of them each stream has missed.
    ghost var frames: seq<Frame>
    ghost var since: map<TunnelStream, nat>

    ghost predicate Valid()
      reads this, streams.Values, calls.opening
    {
      && 1 <= nextStreamId <= LAST_STREAM_ID
      && Table() && WaitersListed(streams, calls) && CallsEnd(codec, streams, calls) && Parsing()
      && IdsFresh(streams, calls, nextStreamId)
      && (down ==> !connected && streams == map[])
    }

    /** The frames dispatched and the bytes still unread are the parse of what was read. */
    ghost predicate Parsing()
      reads this`buf, this`pos, this`received, this`frames
    {
      pos <= |buf| && Consumed(received, frames, buf[pos..])
    }

    /** Every registered stream is sound, under its own id, and fed what has come for it. */
    ghost predicate Table()
      reads this`streams, this`frames, this`since, streams.Values
    {
      forall sid | sid in streams ::
        1 <= sid <= LAST_STREAM_ID && streams[sid].streamId == sid && streams[sid].Valid() && Fed(streams[sid])
    }

    /**
      A stream has been fed the DATA payloads of the frames since its registration, and nothing else; it
      was closed from outside exactly if one of them says so.
     */
    ghost predicate Fed(s: TunnelStream)
      reads this`frames, this`since, s`fed, s`shut
    {
      && s in since && since[s] <= |frames|
      && s.fed == DataFor(s.streamId, frames[since[s]..])
      && (s.shut <==> ClosedIn(s.streamId, frames[since[s]..]))
    }

    /**
      In every state that the segments below lead to, a create_stream call that has ended without
      returning its stream has left the id unregistered if and only if its target could be packed;
      otherwise the stream stays in the table until a disconnect.
     */
    lemma OnlyUnpackableTargetsStay(s: TunnelStream)
      requires Valid() && !calls.lapped && s in calls.ended && s !in calls.swept
      ensures !Registered(streams, s) <==> PackConnect(codec, calls.targets[s].0, calls.targets[s].1).Some?
    {
    }

    /**
      No id is handed out while its earlier stream is in use, as long as no more than 4294967294 streams
      have been created.
     */
    lemma EarlyIdsAreUnique()
      requires Valid() && calls.created <= 4294967294
      ensures !calls.lapped
      ensures forall s, t | s in calls.opening && t in calls.opening && s.streamId == t.streamId :: s == t
    {
    }

    constructor (optimistic: bool, codec: Codec)
      ensures Valid() && !connected && streams == map[] && down && nextStreamId == 1
      ensures this.optimistic == optimistic && this.codec == codec
      ensures calls == Calls({}, {}, map[], {}, 0, false)
    {
      this.optimistic, this.codec := optimistic, codec;
      connected, hasWriter, streams, nextStreamId := false, false, map[], 1;
      calls, down, since := Calls({}, {}, map[], {}, 0, false), true, map[];
      buf, pos, received, frames := [], 0, [], [];
      Untouched([]);
    }

    /** connect, if it succeeds. */
    method Connect()
      requires Valid() && (connected || down)
      modifies this`connected, this`hasWriter, this`down, this`buf, this`pos, this`received, this`frames
      ensures Valid() && connected
      ensures !old(connected) ==> hasWriter && received == [] && frames == []
    {
      hide Queued, TunnelStream.Valid, CallsEnd, Fed, Consumed, WaitersListed, IdsFresh;
      if !connected {
        connected, hasWriter, down := true, true, false;
        buf, pos, received, frames := [], 0, [], [];
        Untouched([]);
      }
    }

    /**
      create_stream up to its send: take an id, register the stream, prepare the future, pack the
      target. Nothing catches the error of a target that cannot be packed.
     */
    method CreateStream(host: string, port: int) returns (s: TunnelStream?, r: Progress)
      requires Valid()
      modifies this`streams, this`nextStreamId, this`calls, this`since
      ensures Valid()
      ensures s == null <==> !connected || !hasWriter
      ensures r == if s == null then NoTunnel else if PackConnect(codec, host, port).Some? then InFlight else Raised
      ensures s == null ==> streams == old(streams) && nextStreamId == old(nextStreamId) && calls == old(calls)
      ensures s != null ==>
                && fresh(s) && s.Valid() && !s.closed && s.fed == []
                && s.streamId == old(nextStreamId)
                && streams == old(streams)[s.streamId := s]
                && s.connectFuture == (if optimistic then NoFuture else Unresolved)
                && nextStreamId == (if s.streamId == LAST_STREAM_ID then 1 else s.streamId + 1)
                && calls == Begun(codec, old(streams), old(calls), s, host, port)
                && (s in calls.opening <==> r.InFlight?) && (s in calls.ended <==> r.Raised?)
                && (calls.lapped <==> old(calls.lapped) || old(nextStreamId) in old(streams)
                                      || exists o :: o in old(calls.opening) && o.streamId == old(nextStreamId))
    {
      hide Queued, TunnelStream.Valid, CallsEnd, DataFor, Consumed, IdsFresh, ClosedIn;
      if !connected || !hasWriter {
        return null, NoTunnel;
      }
      var sid := nextStreamId;
      s := new TunnelStream(sid, if optimistic then NoFuture else Unresolved);
      Register(s, host, port);
      r := if PackConnect(codec, host, port).Some? then InFlight else Raised;
    }

    /** The registration in create_stream: the stream has the next id. */
    method Register(s: TunnelStream, host: string, port: int)
      requires Valid() && !down && s.streamId == nextStreamId
      requires s.Valid() && s.fed == [] && !s.shut
      requires s !in calls.targets && s !in calls.swept && s !in streams.Values && s !in calls.opening
      modifies this`streams, this`calls, this`since, this`nextStreamId
      ensures Valid() && streams == old(streams)[s.streamId := s]
      ensures nextStreamId == if s.streamId == LAST_STREAM_ID then 1 else s.streamId + 1
      ensures calls == Begun(codec, old(streams), old(calls), s, host, port)
    {
      hide Queued, TunnelStream.Valid, CallsEnd, PackConnect, Consumed, WaitersListed, Begun, Fed, IdsFresh;
      CallBegins(codec, streams, calls, s, host, port);
      NextIsFresh(codec, streams, calls, nextStreamId, s, host, port);
      WaiterBegins(codec, streams, calls, s, host, port);
      calls := Begun(codec, streams, calls, s, host, port);
      Watch(s);
      nextStreamId := nextStreamId + 1;
      if nextStreamId >= UINT32 - 1 {
        nextStreamId := 1;
      }
      streams := streams[s.streamId := s];
    }

    /** From here on the stream is fed. */
    ghost method Watch(s: TunnelStream)
      requires Table() && s !in streams.Values && s.fed == [] && !s.shut
      modifies this`since
      ensures Table() && Fed(s)
    {
      hide TunnelStream.Valid;
      NothingYet(s.streamId, frames);
      hide DataFor;
      since := since[s := |frames|];
    }

    /** create_stream after its send. */
    method AfterSend(s: TunnelStream, sent: bool) returns (r: Progress)
      requires Valid() && s in calls.opening
      modifies this`streams, this`calls, s`connectFuture
      ensures Valid()
      ensures r == if !sent then NoTunnel else if optimistic then Opened else InFlight
      ensures calls == After(old(calls), s, r)
      ensures (s in calls.opening <==> r.InFlight?) && (s in calls.ended <==> r.NoTunnel?)
      ensures streams == if r.NoTunnel? then old(streams) - {s.streamId} else old(streams)
      ensures r.InFlight? ==> s.connectFuture == old(s.connectFuture)
    {
      hide Queued, TunnelStream.Valid, CallsEnd, Fed, Consumed, WaitersListed, IdsFresh;
      NotEndedYet(codec, streams, calls, s);
      if !sent {
        CallFails(codec, streams, calls, s);
        WaiterEnds(streams, calls, s, NoTunnel);
        IdsStayFresh(streams, calls, nextStreamId, s, NoTunnel);
        FewerIdsStayFresh(streams, After(calls, s, NoTunnel), nextStreamId, streams - {s.streamId}, {});
        hide After;
        streams, calls := streams - {s.streamId}, After(calls, s, NoTunnel);
        return NoTunnel;
      }
      if optimistic {
        CallReturns(codec, streams, calls, s);
        WaiterEnds(streams, calls, s, Opened);
        IdsStayFresh(streams, calls, nextStreamId, s, Opened);
        hide After;
        s.connectFuture, calls := NoFuture, After(calls, s, Opened);
        return Opened;
      }
      return InFlight;
    }

    /**
      create_stream resumes with its future done. A stream that is closed by now, for whatever reason,
      counts as rejected.
     */
    method WakeUp(s: TunnelStream) returns (r: Progress)
      requires Valid() && s in calls.opening && (s.connectFuture == Succeeded || s.connectFuture == Failed)
      modifies this`streams, this`calls
      ensures Valid() && calls == After(old(calls), s, r)
      ensures s !in calls.opening && (s in calls.ended <==> !r.Opened?)
      ensures r == if s.connectFuture == Failed then NoTunnel else if s.closed then Progress.Rejected else Opened
      ensures streams == if r.Opened? then old(streams) else old(streams) - {s.streamId}
    {
      hide Queued, TunnelStream.Valid, CallsEnd, Fed, Consumed, WaitersListed, IdsFresh;
      NotEndedYet(codec, streams, calls, s);
      r := if s.connectFuture == Failed then NoTunnel else if s.closed then Progress.Rejected else Opened;
      CallFails(codec, streams, calls, s);
      CallReturns(codec, streams, calls, s);
      WaiterEnds(streams, calls, s, r);
      IdsStayFresh(streams, calls, nextStreamId, s, r);
      FewerIdsStayFresh(streams, After(calls, s, r), nextStreamId, streams - {s.streamId}, {});
      hide After;
      calls := After(calls, s, r);
      if !r.Opened? {
        streams := streams - {s.streamId};
      }
    }

    /** create_stream gives up waiting. */
    method TimeOut(s: TunnelStream) returns (r: Progress)
      requires Valid() && s in calls.opening && s.connectFuture == Unresolved && s.Valid()
      modifies this`streams, this`calls, s`connectFuture, s`closed, s`queue, s`shut
      ensures Valid() && calls == After(old(calls), s, r)
      ensures s !in calls.opening && s in calls.ended
      ensures r == NoTunnel && s.closed && s.connectFuture == Cancelled
      ensures streams == old(streams) - {s.streamId}
    {
      hide Queued, CallsEnd, Fed, TunnelStream.Valid, Consumed, WaitersListed, IdsFresh;
      CallFails(codec, streams, calls, s);
      WaiterEnds(streams, calls, s, NoTunnel);
      IdsStayFresh(streams, calls, nextStreamId, s, NoTunnel);
      FewerIdsStayFresh(streams, After(calls, s, NoTunnel), nextStreamId, streams - {s.streamId}, {});
      hide After;
      s.connectFuture := Cancelled;
      streams, calls := streams - {s.streamId}, After(calls, s, NoTunnel);
      CloseOnly(s);
      return NoTunnel;
    }

    /** Closing a stream touches no future and nothing that was fed. */
    method CloseOnly(s: TunnelStream)
      requires s.Valid()
      modifies s`closed, s`queue, s`shut
      ensures s.Valid() && s.closed
    {
      s.Close();
    }

    /** A read of the application on a stream, between any two segments of the tunnel's own. */
    method ReadStream(sid: nat, n: int) returns (r: Read)
      requires Valid() && sid in streams
      modifies streams[sid]
      ensures Valid() && streams[sid].fed == old(streams[sid].fed)
      ensures streams[sid].accepted == old(streams[sid].accepted)
      ensures streams[sid].delivered == old(streams[sid].delivered) + (if r.Bytes? then r.data else [])
      ensures r.Waiting? ==> streams[sid].delivered == streams[sid].accepted && !streams[sid].closed
      ensures old(streams[sid].NonEmptyChunks()) && n != 0 ==> (r == Bytes([]) <==> old(streams[sid].Exhausted()))
    {
      hide Queued, TunnelStream.Valid, CallsEnd, DataFor, Consumed;
      var s := streams[sid];
      r := s.ReadStart(n);
    }

    /** A read of _read_loop: compaction, then the new bytes. */
    method OnRead(data: bytes)
      requires Valid()
      modifies this`buf, this`pos, this`received
      ensures Valid() && received == old(received) + data && buf[pos..] == old(buf[pos..]) + data
    {
      hide Queued, CallsEnd, TunnelStream.Valid, Fed, Consumed;
      ConsumedRead(received, frames, buf[pos..], data);
      ghost var unread := buf[pos..];
      if pos > 0 {
        buf := buf[pos..];
        pos := 0;
      }
      buf := buf + data;
      assert buf[pos..] == unread + data;
      received := received + data;
    }

    /** The stream that the next frame in the buffer names, if it is in the table. */
    ghost function Named(): set<TunnelStream>
      reads this`buf, this`pos, this`streams
    {
      match UnpackFrame(buf, pos)
      case Some(f) => if f.streamId in streams then {streams[f.streamId]} else {}
      case None => {}
    }

    /** One turn of the inner loop: a frame concerns the stream it names and no other. */
    method OnFrame() returns (f: Option<Frame>)
      requires Valid()
      modifies this`pos, this`frames, Named()
      ensures Valid() && f == UnpackFrame(buf, old(pos))
      ensures f.None? ==> frames == old(frames) && pos == old(pos)
      ensures f.Some? ==> frames == old(frames) + [f.value] && pos == old(pos) + Width(f.value)
      ensures f.Some? && f.value.streamId in streams ==>
                var s, cmd := streams[f.value.streamId], f.value.cmd;
                && s.fed == old(s.fed) + (if cmd == DATA then f.value.payload else [])
                && s.delivered == old(s.delivered)
                && (cmd == DATA ==>
                      if old(s.closed) || old(s.bufferedBytes) + |f.value.payload| > 8388608
                      then s.accepted == old(s.accepted) && s.closed
                      else s.accepted == old(s.accepted) + f.value.payload && !s.closed)
                && (cmd == CLOSE || cmd == CONNECT_FAIL ==> s.closed && s.accepted == old(s.accepted))
                && (cmd !in {CLOSE, CONNECT_FAIL, DATA} ==> s.closed == old(s.closed))
                && s.connectFuture == (if cmd in {CONNECT_OK, CONNECT_FAIL} && old(s.connectFuture) == Unresolved
                                       then Succeeded else old(s.connectFuture))
    {
      hide Queued, CallsEnd, TunnelClient.Table, WaitersListed, UnpackFrame, Consumed;
      f := UnpackFrame(buf, pos);
      if f.Some? {
        ConsumedFrame(received, frames, buf, pos);
        pos := pos + Width(f.value);
        Dispatch(f.value);
      }
    }

    /** The table and a frame. */
    method Dispatch(f: Frame)
      requires Table() && WaitersListed(streams, calls)
      modifies this`frames, if f.streamId in streams then {streams[f.streamId]} else {}
      ensures Table() && WaitersListed(streams, calls) && frames == old(frames) + [f]
      ensures f.streamId in streams ==>
                var s := streams[f.streamId];
                && s.fed == old(s.fed) + (if f.cmd == DATA then f.payload else [])
                && s.delivered == old(s.delivered)
                && (f.cmd == DATA ==>
                      if old(s.closed) || old(s.bufferedBytes) + |f.payload| > 8388608
                      then s.accepted == old(s.accepted) && s.closed
                      else s.accepted == old(s.accepted) + f.payload && !s.closed)
                && (f.cmd == CLOSE || f.cmd == CONNECT_FAIL ==> s.closed && s.accepted == old(s.accepted))
                && (f.cmd !in {CLOSE, CONNECT_FAIL, DATA} ==> s.closed == old(s.closed))
                && s.connectFuture == (if f.cmd in {CONNECT_OK, CONNECT_FAIL} && old(s.connectFuture) == Unresolved
                                       then Succeeded else old(s.connectFuture))
    {
      hide Queued, TunnelStream.Valid, WaitersListed, DataFor, ClosedIn;
      AllFedOneMore(f);
      frames := frames + [f];
      if f.streamId in streams {
        Handle(streams[f.streamId], f);
      }
      forall sid | sid in streams
        ensures Fed(streams[sid])
      {
      }
      hide Fed;
    }

    /** What one more frame adds to what each stream has to be fed. */
    lemma AllFedOneMore(f: Frame)
      requires forall sid | sid in streams :: Fed(streams[sid])
      ensures forall sid | sid in streams ::
                var s := streams[sid];
                && s in since && since[s] <= |frames|
                && DataFor(s.streamId, (frames + [f])[since[s]..]) ==
                     s.fed + (if f.cmd == DATA && f.streamId == s.streamId then f.payload else [])
                && (ClosedIn(s.streamId, (frames + [f])[since[s]..]) <==>
                      s.shut || (f.streamId == s.streamId && f.cmd in {CLOSE, CONNECT_FAIL}))
    {
      hide DataFor, ClosedIn;
      forall sid | sid in streams
        ensures var s := streams[sid];
                && s in since && since[s] <= |frames|
                && DataFor(s.streamId, (frames + [f])[since[s]..]) ==
                     s.fed + (if f.cmd == DATA && f.streamId == s.streamId then f.payload else [])
                && (ClosedIn(s.streamId, (frames + [f])[since[s]..]) <==>
                      s.shut || (f.streamId == s.streamId && f.cmd in {CLOSE, CONNECT_FAIL}))
      {
        var s := streams[sid];
        assert Fed(s);
        assert (frames + [f])[since[s]..] == frames[since[s]..] + [f];
        DataForSnoc(s.streamId, frames[since[s]..], f);
        ClosedInSnoc(s.streamId, frames[since[s]..], f);
      }
    }

    /** The branches of _read_loop for a stream of the table. */
    method Handle(s: TunnelStream, f: Frame)
      requires s.Valid() && WaitersListed(streams, calls)
      modifies s
      ensures WaitersListed(streams, calls)
      ensures s.Valid() && s.fed == old(s.fed) + (if f.cmd == DATA then f.payload else [])
      ensures s.delivered == old(s.delivered)
      ensures f.cmd == DATA ==>
                if old(s.closed) || old(s.bufferedBytes) + |f.payload| > 8388608
                then s.accepted == old(s.accepted) && s.closed
                else s.accepted == old(s.accepted) + f.payload && !s.closed
      ensures s.shut <==> old(s.shut) || f.cmd in {CLOSE, CONNECT_FAIL}
      ensures f.cmd == CLOSE || f.cmd == CONNECT_FAIL ==> s.closed && s.accepted == old(s.accepted)
      ensures f.cmd !in {CLOSE, CONNECT_FAIL, DATA} ==> s.closed == old(s.closed)
      ensures s.connectFuture == if f.cmd in {CONNECT_OK, CONNECT_FAIL} && old(s.connectFuture) == Unresolved
                                 then Succeeded else old(s.connectFuture)
    {
      hide Queued;
      match f.cmd
      case CONNECT_OK => Answer(s);
      case CONNECT_FAIL =>
        s.Close();
        Answer(s);
      case DATA => s.FeedData(f.payload);
      case CLOSE => s.Close();
      case _ =>
    }

    method Answer(s: TunnelStream)
      modifies s`connectFuture
      ensures s.connectFuture == if old(s.connectFuture) == Unresolved then Succeeded else old(s.connectFuture)
    {
      if s.connectFuture == Unresolved {
        s.connectFuture := Succeeded;
      }
    }

    /** close_stream, for a stream that create_stream has returned. */
    method CloseStream(sid: nat)
      requires Valid() && (sid in streams ==> streams[sid] !in calls.opening + calls.ended)
      modifies this`streams, (if sid in streams then {streams[sid]} else {})`closed,
               (if sid in streams then {streams[sid]} else {})`queue,
               (if sid in streams then {streams[sid]} else {})`shut
      ensures Valid() && streams == old(streams) - {sid}
      ensures sid in old(streams) ==> old(streams)[sid].closed
    {
      hide Queued, CallsEnd, Fed, Consumed, WaitersListed, TunnelStream.Valid, IdsFresh;
      if sid in streams {
        WaitersStay(streams, calls, sid);
        StreamLeaves(codec, streams, calls, sid);
        FewerIdsStayFresh(streams, calls, nextStreamId, streams - {sid}, {});
        var s := streams[sid];
        streams := streams - {sid};
        CloseOnly(s);
      }
    }

    /** disconnect up to its first wait: from here on no stream can be registered. */
    method DisconnectStart()
      requires Valid()
      modifies this`connected
      ensures Valid() && !connected
    {
      connected := false;
    }

    method Abandon(s: TunnelStream)
      requires s.Valid()
      modifies s
      ensures s.Valid() && s.closed && s.fed == old(s.fed)
      ensures s.connectFuture == if old(s.connectFuture) == Unresolved then Failed else old(s.connectFuture)
    {
      if s.connectFuture == Unresolved {
        s.connectFuture := Failed;
      }
      s.Close();
    }

    /**
      disconnect after its tasks have ended. The table is emptied, every stream in it is closed, and
      no create_stream is left waiting for an answer - unless ids have lapped, in which case that
      holds for the streams of the table only.
     */
    method DisconnectEnd()
      requires Valid() && !connected
      modifies this`streams, this`hasWriter, this`down, this`calls, streams.Values
      ensures Valid() && streams == map[] && !hasWriter && down
      ensures calls == old(calls).(swept := old(calls.swept) + old(streams.Values))
      ensures forall sid | sid in old(streams) ::
                old(streams)[sid].closed && old(streams)[sid].connectFuture != Unresolved
      ensures !calls.lapped ==> forall s | s in calls.opening :: s.connectFuture != Unresolved
    {
      hide Queued, TunnelStream.Valid, CallsEnd, Fed, Consumed, WaitersListed, IdsFresh;
      TableIsSwept(codec, streams, calls);
      ghost var after := calls.(swept := calls.swept + streams.Values);
      FewerIdsStayFresh(streams, calls, nextStreamId, map[], after.swept);
      if !calls.lapped {
        WaitersAreListed(streams, calls);
      }
      AbandonAll();
      NobodyWaits(streams, calls, after.swept);
      calls, hasWriter, down := after, false, true;
    }

    /** The loop of disconnect. */
    method AbandonAll()
      requires Table()
      modifies this`streams, streams.Values
      ensures streams == map[]
      ensures forall s | s in old(streams.Values) :: s.closed && s.connectFuture != Unresolved
    {
      hide Queued, TunnelStream.Valid, Fed;
      var sids := streams.Keys;
      while sids != {}
        invariant streams.Keys == sids
        invariant forall sid | sid in streams :: streams[sid].streamId == sid && streams[sid].Valid()
        invariant forall sid | sid in streams :: sid in old(streams) && streams[sid] == old(streams)[sid]
        invariant forall sid | sid in old(streams) && sid !in sids ::
                    old(streams)[sid].closed && old(streams)[sid].connectFuture != Unresolved
      {
        var sid :| sid in sids;
        sids := sids - {sid};
        var s := streams[sid];
        assert s in old(streams).Values;
        streams := streams - {sid};
        Abandon(s);
      }
    }
  }

  function LongHost(): string {
    seq(65536, _ => 'a')
  }

  lemma LongHostCannotBePacked()
    ensures Ascii().encode(LongHost()).Some? && |Ascii().encode(LongHost()).value| == 65536
    ensures PackConnect(Ascii(), LongHost(), 443).None?
  {
  }

  /** A host name of 65536 bytes: its stream stays in the table, closed by nobody and waiting for an answer. */
  method LongHostStays() returns (client: TunnelClient, host: string, s: TunnelStream)
    ensures client.Valid() && client.connected && |host| == 65536
    ensures client.streams == map[1 := s] && s in client.calls.ended && client.calls.opening == {}
    ensures !s.closed && s.connectFuture == Unresolved
  {
    hide Queued, TunnelStream.Valid, CallsEnd, Consumed, PackConnect, InUse;
    client := new TunnelClient(false, Ascii());
    client.Connect();
    host := LongHost();
    LongHostCannotBePacked();
    var stream, r := client.CreateStream(host, 443);
    s := stream;
  }
}
