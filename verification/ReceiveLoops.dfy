/**
  The two receive loops: server/tunnel_server.py reads with threshold compaction, an authentication
  gate and an early exit after a failed PONG; client/core/tunnel.py compacts before every read.
  Both are proved against one parse of the whole byte stream.
 */
module ReceiveLoops {
  import opened Bytes
  import opened Protocol

  const READ_SIZE: nat := 256 * 1024
  const COMPACT_AT: nat := 65536

  datatype Parsed = Parsed(frames: seq<Frame>, tail: bytes)

  /** The reference: every frame of a byte string, and the bytes no frame could be made of yet. */
  function Parse(data: bytes): Parsed {
    match UnpackFrame(data, 0)
    case None => Parsed([], data)
    case Some(f) =>
      var rest := Parse(data[Width(f)..]);
      Parsed([f] + rest.frames, rest.tail)
  }

  lemma ParseStep(data: bytes)
    ensures UnpackFrame(data, 0).None? ==> Parse(data) == Parsed([], data)
    ensures UnpackFrame(data, 0).Some? ==>
              var f := UnpackFrame(data, 0).value;
              var rest := Parse(data[Width(f)..]);
              Parse(data) == Parsed([f] + rest.frames, rest.tail)
  {
    hide UnpackFrame;
  }

  /** Parsing can stop after any prefix and resume from the unparsed tail. */
  lemma {:induction false} ParseAppend(data: bytes, more: bytes)
    ensures var p := Parse(data);
            var q := Parse(p.tail + more);
            Parse(data + more) == Parsed(p.frames + q.frames, q.tail)
    decreases |data|
  {
    hide UnpackFrame, Parse;
    ParseStep(data);
    if UnpackFrame(data, 0).Some? {
      UnpackStable(data, more);
      ParseStep(data + more);
      var f := UnpackFrame(data, 0).value;
      assert (data + more)[Width(f)..] == data[Width(f)..] + more;
      ParseAppend(data[Width(f)..], more);
      var rest := Parse(data[Width(f)..]);
      var q := Parse(rest.tail + more);
      assert [f] + (rest.frames + q.frames) == ([f] + rest.frames) + q.frames;
    }
  }

  /** The number of reads before the empty one that means end of file. */
  function LiveReads(segments: seq<bytes>): (n: nat)
    ensures n <= |segments|
    ensures forall k :: 0 <= k < n ==> segments[k] != []
    ensures n < |segments| ==> segments[n] == []
  {
    if segments == [] || segments[0] == [] then 0 else 1 + LiveReads(segments[1..])
  }

  /** The bytes the peer sent, however they were cut into reads. */
  function Stream(segments: seq<bytes>): bytes {
    Concat(segments[..LiveReads(segments)])
  }

  /** The first n reads, and the live ones after them. */
  function Arrived(segments: seq<bytes>, n: nat): bytes
    requires n <= |segments|
  {
    Concat(segments[..n])
  }

  ghost function Coming(segments: seq<bytes>, n: nat): bytes
    requires n <= LiveReads(segments)
  {
    Concat(segments[n..LiveReads(segments)])
  }

  lemma StreamSplit(segments: seq<bytes>, n: nat)
    requires n <= LiveReads(segments)
    ensures Stream(segments) == Arrived(segments, n) + Coming(segments, n)
    ensures n == LiveReads(segments) ==> Stream(segments) == Arrived(segments, n)
  {
    ConcatAppend(segments[..n], segments[n..LiveReads(segments)]);
    assert segments[..LiveReads(segments)] == segments[..n] + segments[n..LiveReads(segments)];
  }

  lemma NextRead(segments: seq<bytes>, n: nat)
    requires n < |segments|
    ensures Arrived(segments, n + 1) == Arrived(segments, n) + segments[n]
    ensures segments[n] != [] && n <= LiveReads(segments) ==> n < LiveReads(segments)
  {
    hide Concat, LiveReads;
    ConcatSnoc(segments[..n], segments[n]);
    assert segments[..n + 1] == segments[..n] + [segments[n]];
  }

  /** `frames` were taken out of the stream `data` and `unread` is what is left of it. */
  ghost predicate Consumed(data: bytes, frames: seq<Frame>, unread: bytes) {
    Parse(data) == Parsed(frames + Parse(unread).frames, Parse(unread).tail)
  }

  lemma Untouched(segments: seq<bytes>)
    ensures Consumed([], [], []) && Arrived(segments, 0) == []
  {
  }

  /** One more read keeps the account, */
  lemma ConsumedRead(data: bytes, frames: seq<Frame>, unread: bytes, more: bytes)
    requires Consumed(data, frames, unread)
    ensures Consumed(data + more, frames, unread + more)
  {
    hide UnpackFrame, Parse;
    ParseAppend(data, more);
    ParseAppend(unread, more);
  }

  /** and so does one more frame, decoded in place. */
  lemma ConsumedFrame(data: bytes, frames: seq<Frame>, buf: bytes, pos: nat)
    requires pos <= |buf| && Consumed(data, frames, buf[pos..])
    requires UnpackFrame(buf, pos).Some?
    ensures var f := UnpackFrame(buf, pos).value; Consumed(data, frames + [f], buf[pos + Width(f)..])
  {
    UnpackAtOffset(buf, pos);
    hide UnpackFrame, Parse;
    ParseStep(buf[pos..]);
    var f := UnpackFrame(buf, pos).value;
    var rest := Parse(buf[pos..][Width(f)..]);
    assert buf[pos..][Width(f)..] == buf[pos + Width(f)..];
    assert frames + ([f] + rest.frames) == (frames + [f]) + rest.frames;
  }

  /** When no further frame can be decoded, the account is the whole parse. */
  lemma ConsumedAll(data: bytes, frames: seq<Frame>, buf: bytes, pos: nat)
    requires pos <= |buf| && Consumed(data, frames, buf[pos..])
    requires UnpackFrame(buf, pos).None?
    ensures Parse(data) == Parsed(frames, buf[pos..])
  {
    UnpackAtOffset(buf, pos);
  }

  /** What is parsed from a part of the stream is parsed first from the whole of it. */
  lemma ParsePrefix(data: bytes, more: bytes, frames: seq<Frame>, unread: bytes)
    requires Consumed(data, frames, unread)
    ensures frames <= Parse(data + more).frames
  {
    ParseAppend(data, more);
  }

  datatype Outcome =
    | Closed     // end of file, every frame before it was handled
    | Rejected   // the first frame did not carry the shared secret
    | AckFailed  // the secret was right but the answer could not be sent

  predicate Authenticates(f: Frame, psk: bytes) {
    f.cmd == AUTH && f.payload == psk
  }

  /** Past the gate: the first frame carried the secret, and all that follow are served. */
  ghost predicate Gated(authenticated: bool, frames: seq<Frame>, served: seq<Frame>, psk: bytes, ackSent: bool) {
    && (authenticated <==> |frames| > 0)
    && (|frames| > 0 ==> Authenticates(frames[0], psk) && ackSent)
    && served == if |frames| > 0 then frames[1..] else []
  }

  lemma GatedStart(psk: bytes, ackSent: bool)
    ensures Gated(false, [], [], psk, ackSent)
  {
  }

  lemma GatedFacts(authenticated: bool, frames: seq<Frame>, served: seq<Frame>, psk: bytes, ackSent: bool)
    requires Gated(authenticated, frames, served, psk, ackSent)
    ensures authenticated <==> |frames| > 0
    ensures |frames| > 0 ==> Authenticates(frames[0], psk) && ackSent
    ensures served == if |frames| > 0 then frames[1..] else []
  {
  }

  lemma GatedFrame(authenticated: bool, frames: seq<Frame>, served: seq<Frame>, psk: bytes, ackSent: bool, f: Frame)
    requires Gated(authenticated, frames, served, psk, ackSent)
    ensures !authenticated ==> frames == [] && served == []
    ensures authenticated ==> Gated(true, frames + [f], served + [f], psk, ackSent)
    ensures !authenticated && Authenticates(f, psk) && ackSent ==> Gated(true, frames + [f], served, psk, ackSent)
  {
  }

  /** The PINGs behind the gate whose PONG could not be sent; frames are numbered from 1. */
  function Missed(frames: seq<Frame>, pongSent: nat -> bool): nat {
    if |frames| <= 1 then 0 else
    Missed(frames[..|frames| - 1], pongSent)
      + (if frames[|frames| - 1].cmd == PING && !pongSent(|frames|) then 1 else 0)
  }

  lemma MissedSnoc(frames: seq<Frame>, f: Frame, pongSent: nat -> bool)
    ensures Missed(frames + [f], pongSent) ==
              Missed(frames, pongSent)
                + (if frames != [] && f.cmd == PING && !pongSent(|frames| + 1) then 1 else 0)
  {
    assert (frames + [f])[..|frames|] == frames;
  }

  lemma MissedStart(pongSent: nat -> bool)
    ensures Missed([], pongSent) == 0
  {
  }

  /** None is missed exactly if every PING was answered. */
  lemma {:induction false} NoneMissed(frames: seq<Frame>, pongSent: nat -> bool)
    ensures Missed(frames, pongSent) == 0 <==>
              forall k | 0 < k < |frames| && frames[k].cmd == PING :: pongSent(k + 1)
  {
    if |frames| > 1 {
      NoneMissed(frames[..|frames| - 1], pongSent);
    }
  }

  /** Threshold compaction and the bytes of one more read. */
  method Extended(buf: bytes, pos: nat, data: bytes) returns (buf': bytes, pos': nat)
    requires pos <= |buf|
    ensures pos' <= |buf'| && buf'[pos'..] == buf[pos..] + data
    ensures pos' <= COMPACT_AT
  {
    buf', pos' := buf, pos;
    if pos > COMPACT_AT || (pos > 0 && pos > |buf| / 2) {
      buf', pos' := buf[pos..], 0;
    }
    buf' := buf' + data;
    assert buf'[pos'..] == buf[pos..] + data;
  }

  /**
    The buffer loop of _handle_client. `frames` are the frames taken off the wire, `served` those
    that reached the CONNECT/DATA/CLOSE dispatch, `missed` counts the PONGs that could not be sent
    (`pongSent` decides, by frame number): each of them ends the parsing of the current read early.
   */
  method HandleClient(segments: seq<bytes>, psk: bytes, ackSent: bool, pongSent: nat -> bool)
    returns (outcome: Outcome, frames: seq<Frame>, served: seq<Frame>, buf: bytes, pos: nat, missed: nat)
    requires forall k :: 0 <= k < |segments| ==> |segments[k]| <= READ_SIZE
    ensures pos <= |buf|
    // No byte is lost, invented or reordered: the frames and the unread bytes make up the stream.
    ensures outcome.Closed? ==> Consumed(Stream(segments), frames, buf[pos..])
    ensures outcome.Closed? && missed == 0 ==> Parse(Stream(segments)) == Parsed(frames, buf[pos..])
    ensures frames <= Parse(Stream(segments)).frames
    // The gate: only the first frame decides, and nothing is served unless it carries the secret.
    ensures frames == [] ==> Parse(Stream(segments)).frames == []
    ensures outcome.Rejected? <==> |frames| > 0 && (frames[0].cmd != AUTH || frames[0].payload != psk)
    ensures outcome.AckFailed? <==> |frames| > 0 && frames[0].cmd == AUTH && frames[0].payload == psk && !ackSent
    ensures served == if outcome.Closed? && |frames| > 0 then frames[1..] else []
    // Parsing stops early for a PONG that could not be sent, and for nothing else.
    ensures missed == Missed(frames, pongSent)
    // The buffer bound.
    ensures |buf| <= 65536 + (4194304 - 1) + 262144 * (1 + missed)
  {
    hide UnpackFrame, Parse, Consumed, Stream, Arrived, Coming, LiveReads, Gated, Missed;
    MissedStart(pongSent);
    outcome, frames, served, buf, pos, missed := Closed, [], [], [], 0, 0;
    var authenticated := false;
    GatedStart(psk, ackSent);
    var i := 0;
    Untouched(segments);
    assert buf[pos..] == [];
    while i < |segments| && segments[i] != []
      invariant 0 <= i <= LiveReads(segments)
      invariant pos <= |buf| && outcome.Closed?
      invariant Consumed(Arrived(segments, i), frames, buf[pos..])
      invariant missed == 0 ==> UnpackFrame(buf, pos).None?
      invariant missed > 0 ==> |frames| > 0
      invariant missed == Missed(frames, pongSent)
      invariant Gated(authenticated, frames, served, psk, ackSent)
      invariant |buf| - pos <= MAX_FRAME_SIZE - 1 + READ_SIZE * missed
      invariant |buf| <= COMPACT_AT + (MAX_FRAME_SIZE - 1) + READ_SIZE * (1 + missed)
    {
      ghost var unread := buf[pos..];
      buf, pos := Extended(buf, pos, segments[i]);
      ConsumedRead(Arrived(segments, i), frames, unread, segments[i]);
      NextRead(segments, i);
      i := i + 1;
      ghost var data := Arrived(segments, i);
      StreamSplit(segments, i);
      ghost var later := Coming(segments, i);
      while true
        invariant pos <= |buf| && outcome.Closed?
        invariant Consumed(data, frames, buf[pos..])
        invariant Gated(authenticated, frames, served, psk, ackSent)
        invariant missed > 0 ==> |frames| > 0
        invariant missed == Missed(frames, pongSent)
        invariant |buf| - pos <= MAX_FRAME_SIZE - 1 + READ_SIZE * (1 + missed)
        decreases |buf| - pos
      {
        var result := UnpackFrame(buf, pos);
        if result.None? {
          break;
        }
        var frame := result.value;
        ConsumedFrame(data, frames, buf, pos);
        GatedFrame(authenticated, frames, served, psk, ackSent, frame);
        GatedFacts(authenticated, frames, served, psk, ackSent);
        MissedSnoc(frames, frame, pongSent);
        pos := pos + Width(frame);
        frames := frames + [frame];
        if !authenticated {
          ParsePrefix(data, later, frames, buf[pos..]);
          if Authenticates(frame, psk) {
            authenticated := true;
            if !ackSent {
              outcome := AckFailed;
              return;
            }
          } else {
            outcome := Rejected;
            return;
          }
        } else {
          served := served + [frame];
          if frame.cmd == PING && !pongSent(|frames|) {
            missed := missed + 1;
            break;
          }
        }
      }
    }
    GatedFacts(authenticated, frames, served, psk, ackSent);
    assert i == LiveReads(segments);
    StreamSplit(segments, i);
    if missed == 0 {
      ConsumedAll(Stream(segments), frames, buf, pos);
    }
    assert Stream(segments) == Stream(segments) + [];
    ParsePrefix(Stream(segments), [], frames, buf[pos..]);
  }

  /** The client's _read_loop. */
  method ReadLoop(segments: seq<bytes>) returns (frames: seq<Frame>, buf: bytes, pos: nat)
    requires forall k :: 0 <= k < |segments| ==> |segments[k]| <= READ_SIZE
    ensures pos <= |buf|
    ensures Parse(Stream(segments)) == Parsed(frames, buf[pos..])
    ensures |buf| <= (4194304 - 1) + 262144
  {
    hide UnpackFrame, Parse, Consumed, Arrived;
    frames, buf, pos := [], [], 0;
    Untouched(segments);
    assert buf[pos..] == [];
    var i := 0;
    while i < |segments| && segments[i] != []
      invariant 0 <= i <= LiveReads(segments)
      invariant pos <= |buf|
      invariant Consumed(Arrived(segments, i), frames, buf[pos..])
      invariant UnpackFrame(buf, pos).None?
      invariant |buf| <= (MAX_FRAME_SIZE - 1) + READ_SIZE
    {
      ghost var unread := buf[pos..];
      if pos > 0 {
        buf := buf[pos..];
        pos := 0;
      }
      buf := buf + segments[i];
      assert buf[pos..] == unread + segments[i];
      ConsumedRead(Arrived(segments, i), frames, unread, segments[i]);
      NextRead(segments, i);
      i := i + 1;
      while true
        invariant pos <= |buf|
        invariant Consumed(Arrived(segments, i), frames, buf[pos..])
        decreases |buf| - pos
      {
        var result := UnpackFrame(buf, pos);
        if result.None? {
          break;
        }
        ConsumedFrame(Arrived(segments, i), frames, buf, pos);
        pos := pos + Width(result.value);
        frames := frames + [result.value];
      }
    }
    assert i == LiveReads(segments);
    StreamSplit(segments, i);
    ConsumedAll(Stream(segments), frames, buf, pos);
  }

  /** A stream that starts with a packed frame parses to that frame first. */
  lemma FirstFrame(streamId: nat, cmd: Cmd, payload: bytes, data: bytes)
    requires Packable(streamId, payload) && FRAME_HEADER_SIZE + |payload| <= MAX_FRAME_SIZE
    requires PackFrame(streamId, cmd, payload).value <= data
    ensures |Parse(data).frames| > 0 && Parse(data).frames[0] == Frame(streamId, cmd, payload)
  {
    var p := PackFrame(streamId, cmd, payload).value;
    var rest := data[|p|..];
    assert data == [] + p + rest;
    UnpackPacked(streamId, cmd, payload, [], rest);
    hide UnpackFrame;
    ParseStep(data);
  }

  /** And a stream that parses to an AUTH frame first starts with that frame, packed. */
  lemma FirstIsAuth(data: bytes)
    requires |Parse(data).frames| > 0 && Parse(data).frames[0].cmd == AUTH
    ensures var f := Parse(data).frames[0];
            PackFrame(f.streamId, AUTH, f.payload).Some? && PackFrame(f.streamId, AUTH, f.payload).value <= data
  {
    ParseStep(data);
    assert UnpackFrame(data, 0).Some?;
    PackUnpacked(data, 0);
  }

  /**
    The gate, on the bytes of the connection and for any reads of them. Whatever is served was preceded
    by the secret in a packed AUTH frame; a connection that starts with any other packed frame, or with
    another secret, is rejected, and one that starts with the secret is not.
   */
  method OnlyTheSecretOpens(segments: seq<bytes>, psk: bytes, ackSent: bool, pongSent: nat -> bool)
    returns (outcome: Outcome, served: seq<Frame>)
    requires forall k :: 0 <= k < |segments| ==> |segments[k]| <= READ_SIZE
    ensures served != [] ==>
              exists id: nat :: PackFrame(id, AUTH, psk).Some? && PackFrame(id, AUTH, psk).value <= Stream(segments)
    ensures forall id: nat, cmd: Cmd, payload: bytes |
              && id < 4294967296 && 9 + |payload| <= 4194304
              && PackFrame(id, cmd, payload).Some? && PackFrame(id, cmd, payload).value <= Stream(segments) ::
              outcome.Rejected? <==> (cmd != AUTH || payload != psk)
  {
    hide Parse, Stream;
    var frames, buf, pos, missed;
    outcome, frames, served, buf, pos, missed := HandleClient(segments, psk, ackSent, pongSent);
    var data := Stream(segments);
    if served != [] {
      FirstIsAuth(data);
      assert PackFrame(frames[0].streamId, AUTH, psk).Some?;
    }
    forall id: nat, cmd: Cmd, payload: bytes |
      && id < 4294967296 && 9 + |payload| <= 4194304
      && PackFrame(id, cmd, payload).Some? && PackFrame(id, cmd, payload).value <= data
      ensures outcome.Rejected? <==> (cmd != AUTH || payload != psk)
    {
      FirstFrame(id, cmd, payload, data);
      assert frames[0] == Frame(id, cmd, payload);
    }
  }

  /**
    Segmentation independence across both ends: however the same bytes are cut, and whichever of the
    two loops reads them, the frames and the unparsed tail are the same.
   */
  method SameBytesSameFrames(segments: seq<bytes>, otherSegments: seq<bytes>, psk: bytes, pongSent: nat -> bool)
    returns (outcome: Outcome, atServer: seq<Frame>, atClient: seq<Frame>, serverTail: bytes, clientTail: bytes,
             missed: nat)
    requires forall k :: 0 <= k < |segments| ==> |segments[k]| <= READ_SIZE
    requires forall k :: 0 <= k < |otherSegments| ==> |otherSegments[k]| <= READ_SIZE
    requires Stream(segments) == Stream(otherSegments)
    ensures outcome.Closed? && missed == 0 ==> atServer == atClient && serverTail == clientTail
    ensures atServer <= atClient
  {
    var sbuf, spos, served;
    outcome, atServer, served, sbuf, spos, missed := HandleClient(segments, psk, true, pongSent);
    var cbuf, cpos;
    atClient, cbuf, cpos := ReadLoop(otherSegments);
    serverTail, clientTail := sbuf[spos..], cbuf[cpos..];
  }
}
