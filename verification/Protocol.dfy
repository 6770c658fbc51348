/** The frame codec of common/protocol.py. */
module Protocol {
  import opened Bytes

  const FRAME_HEADER_SIZE: nat := 9
  const MAX_FRAME_SIZE: nat := 4 * 1024 * 1024

  datatype Cmd = CONNECT | DATA | CLOSE | CONNECT_OK | CONNECT_FAIL | AUTH | AUTH_OK | AUTH_FAIL | PING | PONG

  datatype Frame = Frame(streamId: nat, cmd: Cmd, payload: bytes)

  function CmdByte(c: Cmd): byte {
    match c
    case CONNECT => 1
    case DATA => 2
    case CLOSE => 3
    case CONNECT_OK => 4
    case CONNECT_FAIL => 5
    case AUTH => 6
    case AUTH_OK => 7
    case AUTH_FAIL => 8
    case PING => 9
    case PONG => 10
  }

  /** The enum lookup; None stands for its ValueError. */
  function CmdOf(b: byte): Option<Cmd> {
    if b == 1 then Some(CONNECT) else if b == 2 then Some(DATA) else if b == 3 then Some(CLOSE)
    else if b == 4 then Some(CONNECT_OK) else if b == 5 then Some(CONNECT_FAIL) else if b == 6 then Some(AUTH)
    else if b == 7 then Some(AUTH_OK) else if b == 8 then Some(AUTH_FAIL) else if b == 9 then Some(PING)
    else if b == 10 then Some(PONG) else None
  }

  lemma CmdOfByte(c: Cmd, b: byte)
    ensures CmdOf(b) == Some(c) <==> CmdByte(c) == b
  {
  }

  /** How far a reader moves after consuming `f`: header plus payload, never the declared length. */
  function Width(f: Frame): nat {
    FRAME_HEADER_SIZE + |f.payload|
  }

  /** Both header integers fit their four bytes; otherwise packing raises an error. */
  predicate Packable(streamId: int, payload: bytes) {
    0 <= streamId < UINT32 && FRAME_HEADER_SIZE + |payload| < UINT32
  }

  /** pack_frame; None stands for struct.error. */
  function PackFrame(streamId: int, cmd: Cmd, payload: bytes): Option<bytes> {
    if !Packable(streamId, payload) then None
    else Some(Encode32(FRAME_HEADER_SIZE + |payload|) + Encode32(streamId) + [CmdByte(cmd)] + payload)
  }

  /** A length field no frame may carry: such a header is skipped on its own. */
  predicate Resync(total: nat) {
    total > MAX_FRAME_SIZE || total < FRAME_HEADER_SIZE
  }

  /** unpack_frame; None asks for more bytes. */
  function UnpackFrame(data: bytes, offset: nat): (r: Option<Frame>)
    ensures r.Some? ==> offset + Width(r.value) <= |data| && r.value.streamId < UINT32
    ensures r.Some? ==> Width(r.value) <= MAX_FRAME_SIZE
    ensures r.None? ==> |data| < offset + MAX_FRAME_SIZE
  {
    if |data| - offset < FRAME_HEADER_SIZE then None else
    var total := Decode32(data, offset);
    var streamId := Decode32(data, offset + 4);
    if Resync(total) then Some(Frame(streamId, PONG, [])) else
    if |data| - offset < total then None else
    var payload := data[offset + FRAME_HEADER_SIZE..offset + total];
    match CmdOf(data[offset + 8])
    case Some(cmd) => Some(Frame(streamId, cmd, payload))
    case None => Some(Frame(streamId, CLOSE, payload))
  }

  /** Reading in place at an offset is reading the rest of the buffer. */
  lemma UnpackAtOffset(data: bytes, offset: nat)
    requires offset <= |data|
    ensures UnpackFrame(data, offset) == UnpackFrame(data[offset..], 0)
  {
    var rest := data[offset..];
    if |rest| >= FRAME_HEADER_SIZE {
      var total := Decode32(data, offset);
      if !Resync(total) && total <= |rest| {
        assert data[offset + FRAME_HEADER_SIZE..offset + total] == rest[FRAME_HEADER_SIZE..total];
      }
    }
  }

  /** Bytes that arrive later never change a frame already decodable. */
  lemma UnpackStable(data: bytes, more: bytes)
    requires UnpackFrame(data, 0).Some?
    ensures UnpackFrame(data + more, 0) == UnpackFrame(data, 0)
  {
    var total := Decode32(data, 0);
    if !Resync(total) {
      assert (data + more)[FRAME_HEADER_SIZE..total] == data[FRAME_HEADER_SIZE..total];
    }
  }

  /**
    Any header, anywhere in a buffer: a length out of range yields a PONG of no payload, a length not
    yet reached asks for more, and otherwise the payload is what the length says, under its command or,
    if that is unknown, under CLOSE.
   */
  lemma UnpackHeader(total: nat, streamId: nat, b: byte, before: bytes, rest: bytes)
    requires total < UINT32 && streamId < UINT32
    ensures UnpackFrame(before + Encode32(total) + Encode32(streamId) + [b] + rest, |before|) ==
              if total < FRAME_HEADER_SIZE || total > MAX_FRAME_SIZE then Some(Frame(streamId, PONG, []))
              else if FRAME_HEADER_SIZE + |rest| < total then None
              else
                var cmd := if CmdOf(b).Some? then CmdOf(b).value else CLOSE;
                Some(Frame(streamId, cmd, rest[..total - FRAME_HEADER_SIZE]))
  {
    var data := before + Encode32(total) + Encode32(streamId) + [b] + rest;
    assert data == before + Encode32(total) + (Encode32(streamId) + [b] + rest);
    Decode32Encoded(total, before, Encode32(streamId) + [b] + rest);
    assert data == (before + Encode32(total)) + Encode32(streamId) + ([b] + rest);
    Decode32Encoded(streamId, before + Encode32(total), [b] + rest);
    if FRAME_HEADER_SIZE <= total <= FRAME_HEADER_SIZE + |rest| {
      assert data[|before| + FRAME_HEADER_SIZE..|before| + total] == rest[..total - FRAME_HEADER_SIZE];
    }
  }

  /** The commands in the order of their numbers, from 1 on. */
  const COMMANDS: seq<Cmd> :=
    [CONNECT, DATA, CLOSE, CONNECT_OK, CONNECT_FAIL, AUTH, AUTH_OK, AUTH_FAIL, PING, PONG]

  /** The wire format, byte for byte: what a frame packs to, and when it can be packed. */
  lemma PackedBytes(streamId: int, cmd: Cmd, payload: bytes)
    ensures PackFrame(streamId, cmd, payload).Some? <==> 0 <= streamId < 4294967296 && 9 + |payload| < 4294967296
    ensures PackFrame(streamId, cmd, payload).Some? ==>
              var p := PackFrame(streamId, cmd, payload).value;
              |p| == 9 + |payload| &&
              var l0: int, l1: int, l2: int, l3: int := p[0], p[1], p[2], p[3];
              var i0: int, i1: int, i2: int, i3: int := p[4], p[5], p[6], p[7];
              && p[9..] == payload
              && l0 * 16777216 + l1 * 65536 + l2 * 256 + l3 == 9 + |payload|
              && i0 * 16777216 + i1 * 65536 + i2 * 256 + i3 == streamId
              && 1 <= p[8] <= 10 && COMMANDS[p[8] - 1] == cmd
  {
    if PackFrame(streamId, cmd, payload).Some? {
      var p := PackFrame(streamId, cmd, payload).value;
      var total := 9 + |payload|;
      assert p == [] + Encode32(total) + (Encode32(streamId) + [CmdByte(cmd)] + payload);
      Decode32Encoded(total, [], Encode32(streamId) + [CmdByte(cmd)] + payload);
      assert p == ([] + Encode32(total)) + Encode32(streamId) + ([CmdByte(cmd)] + payload);
      Decode32Encoded(streamId, [] + Encode32(total), [CmdByte(cmd)] + payload);
      assert Decode32(p, 0) == total && Decode32(p, 4) == streamId && p[8] == CmdByte(cmd);
    }
  }

  /** And what any bytes at the head of a buffer are read as. */
  lemma HeaderBytes(data: bytes)
    ensures |data| < 9 ==> UnpackFrame(data, 0).None?
    ensures |data| >= 9 ==>
              var l0: int, l1: int, l2: int, l3: int := data[0], data[1], data[2], data[3];
              var i0: int, i1: int, i2: int, i3: int := data[4], data[5], data[6], data[7];
              var total := l0 * 16777216 + l1 * 65536 + l2 * 256 + l3;
              var streamId := i0 * 16777216 + i1 * 65536 + i2 * 256 + i3;
              UnpackFrame(data, 0) ==
                if total < 9 || total > 4194304 then Some(Frame(streamId, PONG, []))
                else if |data| < total then None
                else Some(Frame(streamId, if 1 <= data[8] <= 10 then COMMANDS[data[8] - 1] else CLOSE, data[9..total]))
  {
  }

  /**
    A packed frame, anywhere in a buffer, is decoded to itself exactly when it respects the frame
    size limit; a longer one is taken for a corrupt header and its payload is left in the stream.
   */
  lemma UnpackPacked(streamId: nat, cmd: Cmd, payload: bytes, before: bytes, after: bytes)
    requires Packable(streamId, payload)
    ensures var data := before + PackFrame(streamId, cmd, payload).value + after;
            var r := UnpackFrame(data, |before|);
            && (r == Some(Frame(streamId, cmd, payload)) <==> FRAME_HEADER_SIZE + |payload| <= MAX_FRAME_SIZE)
            && (FRAME_HEADER_SIZE + |payload| > MAX_FRAME_SIZE ==> r == Some(Frame(streamId, PONG, [])))
  {
    hide UnpackFrame;
    var total, b := FRAME_HEADER_SIZE + |payload|, CmdByte(cmd);
    UnpackHeader(total, streamId, b, before, payload + after);
    assert before + PackFrame(streamId, cmd, payload).value + after
        == before + Encode32(total) + Encode32(streamId) + [b] + (payload + after);
    assert (payload + after)[..|payload|] == payload;
    CmdOfByte(cmd, b);
  }

  /**
    Packing what was decoded restores the consumed bytes exactly when the header was well formed:
    its length in range and its command known.
   */
  lemma PackUnpacked(data: bytes, offset: nat)
    requires UnpackFrame(data, offset).Some?
    ensures var f := UnpackFrame(data, offset).value;
            (PackFrame(f.streamId, f.cmd, f.payload) == Some(data[offset..offset + Width(f)]))
            <==> (!Resync(Decode32(data, offset)) && CmdOf(data[offset + 8]).Some?)
  {
    var f := UnpackFrame(data, offset).value;
    var packed := PackFrame(f.streamId, f.cmd, f.payload).value;
    var consumed := data[offset..offset + Width(f)];
    Encode32Decoded(data, offset);
    Encode32Decoded(data, offset + 4);
    assert packed[8] == CmdByte(f.cmd) && consumed[8] == data[offset + 8];
    if Resync(Decode32(data, offset)) {
      Decode32Encoded(FRAME_HEADER_SIZE, [], packed[4..]);
      assert packed == [] + Encode32(FRAME_HEADER_SIZE) + packed[4..];
      assert Decode32(packed, 0) != Decode32(consumed, 0);
    } else if CmdOf(data[offset + 8]).Some? {
      assert consumed == data[offset..offset + 4] + data[offset + 4..offset + 8] + [data[offset + 8]] + f.payload;
    }
  }

  /**
    A host codec: UTF-8 in the original, which encodes every string but one with a lone surrogate.
    Only its two directions matter here, so it is a parameter.
   */
  datatype Codec = Codec(encode: string -> Option<bytes>, decode: bytes -> Option<string>) {
    ghost predicate Invertible() {
      forall h: string :: encode(h).Some? ==> decode(encode(h).value) == Some(h)
    }
  }

  /** The part of UTF-8 that takes one byte a character. */
  function Ascii(): (c: Codec)
    ensures c.Invertible()
  {
    var c := Codec(
      (h: string) => if forall i | 0 <= i < |h| :: h[i] < 128 as char then Some(AsciiBytes(h)) else None,
      (b: bytes) => if forall i | 0 <= i < |b| :: b[i] < 128 then Some(AsciiText(b)) else None);
    assert forall h: string | c.encode(h).Some? :: AsciiText(AsciiBytes(h)) == h;
    c
  }

  function AsciiBytes(h: string): bytes
    requires forall i | 0 <= i < |h| :: h[i] < 128 as char
  {
    seq(|h|, i requires 0 <= i < |h| => h[i] as int as byte)
  }

  function AsciiText(b: bytes): string
    requires forall i | 0 <= i < |b| :: b[i] < 128
  {
    seq(|b|, i requires 0 <= i < |b| => b[i] as char)
  }

  /** The payload of pack_connect; None stands for the error it raises. */
  function PackConnect(codec: Codec, host: string, port: int): Option<bytes> {
    var name := codec.encode(host);
    if name.None? || |name.value| >= UINT16 || !(0 <= port < UINT16) then None
    else Some(Encode16(|name.value|) + name.value + Encode16(port))
  }

  /** The layout of a CONNECT payload, and when a target can be packed. */
  lemma ConnectBytes(codec: Codec, host: string, port: int)
    ensures PackConnect(codec, host, port).Some? <==>
              codec.encode(host).Some? && |codec.encode(host).value| < 65536 && 0 <= port < 65536
    ensures PackConnect(codec, host, port).Some? ==>
              var p, n := PackConnect(codec, host, port).value, |codec.encode(host).value|;
              && |p| == 4 + n && p[2..2 + n] == codec.encode(host).value
              && (p[0] as int) * 256 + (p[1] as int) == n && (p[2 + n] as int) * 256 + (p[3 + n] as int) == port
  {
  }

  /** unpack_connect. Slices beyond the payload are cut short, as in the original. */
  function UnpackConnect(codec: Codec, payload: bytes): Option<(string, nat)> {
    if |payload| < 4 then None else
    var n := Decode16(payload, 0);
    var host := codec.decode(if 2 + n <= |payload| then payload[2..2 + n] else payload[2..]);
    if host.None? || 4 + n > |payload| then None else
    var port := Decode16(payload, 2 + n);
    if host.value == "" || port == 0 then None else Some((host.value, port))
  }

  /**
    A CONNECT target survives the trip, whatever bytes follow it, exactly when it is a real target;
    an empty host or port 0 is refused.
   */
  lemma UnpackPackedConnect(codec: Codec, host: string, port: int, after: bytes)
    requires codec.Invertible()
    requires PackConnect(codec, host, port).Some?
    ensures var r := UnpackConnect(codec, PackConnect(codec, host, port).value + after);
            && (host != "" && port != 0 ==> r == Some((host, port)))
            && (host == "" || port == 0 ==> r.None?)
  {
    var name := codec.encode(host).value;
    var p := PackConnect(codec, host, port).value + after;
    assert p == [] + Encode16(|name|) + (name + Encode16(port) + after);
    Decode16Encoded(|name|, [], name + Encode16(port) + after);
    assert p == (Encode16(|name|) + name) + Encode16(port) + after;
    Decode16Encoded(port, Encode16(|name|) + name, after);
    assert p[2..2 + |name|] == name;
  }

  /**
    Whatever is accepted is a non-empty host and a port from 1 to 65535, and the payload starts with
    the length-prefixed host bytes and the port.
   */
  lemma UnpackedConnect(codec: Codec, payload: bytes)
    requires UnpackConnect(codec, payload).Some?
    ensures var (host, port) := UnpackConnect(codec, payload).value;
            && host != "" && 0 < port < UINT16
            && exists name: bytes :: codec.decode(name) == Some(host)
                 && |name| < UINT16 && Encode16(|name|) + name + Encode16(port) <= payload
  {
    var n := Decode16(payload, 0);
    var name := payload[2..2 + n];
    Encode16Decoded(payload, 0);
    Encode16Decoded(payload, 2 + n);
    var (host, port) := UnpackConnect(codec, payload).value;
    assert Encode16(|name|) + name + Encode16(port) == payload[..4 + n];
  }
}
