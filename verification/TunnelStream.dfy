/** The receive buffer of one client stream (TunnelStream in client/core/tunnel.py). */
module TunnelStream {
  import opened Bytes

  const MAX_BUFFER_BYTES: nat := 8 * 1024 * 1024

  /** One entry of the queue: a chunk, or the sentinel that stands for end of stream. */
  datatype Item = Chunk(data: bytes) | Sentinel

  /** What the queue holds, sentinel aside. */
  function Queued(queue: seq<Item>): bytes {
    if queue == [] then [] else
    (if queue[0].Chunk? then queue[0].data else []) + Queued(queue[1..])
  }

  lemma {:induction false} QueuedSnoc(queue: seq<Item>, x: Item)
    ensures Queued(queue + [x]) == Queued(queue) + (if x.Chunk? then x.data else [])
  {
    if queue == [] {
      assert Queued([x]) == (if x.Chunk? then x.data else []) + Queued([]);
    } else {
      assert (queue + [x])[1..] == queue[1..] + [x];
      QueuedSnoc(queue[1..], x);
    }
  }

  /** The outcome of one uninterrupted part of a read. */
  datatype Read = Bytes(data: bytes) | Waiting

  /** What create_stream waits for. */
  datatype Future = NoFuture | Unresolved | Succeeded | Failed | Cancelled

  class TunnelStream {
    const streamId: nat
    var connectFuture: Future
    var queue: seq<Item>
    var bufferedBytes: int
    var leftover: bytes
    var closed: bool
    // What went in and came out, for the statements below.
    ghost var fed: bytes
    ghost var accepted: bytes
    ghost var delivered: bytes
    // The most that was ever fed and not delivered; whether the stream was closed from outside; whether
    // a read has taken the sentinel.
    ghost var peak: nat
    ghost var shut: bool
    ghost var ended: bool

    /**
      Nothing accepted is lost or reordered, the byte count is exact and capped, and a stream is closed
      exactly if it was closed from outside or more was fed than the cap allows; then the sentinel is
      last in the queue until a read takes it.
     */
    ghost predicate Valid()
      reads this`queue, this`bufferedBytes, this`leftover, this`closed, this`fed, this`accepted, this`delivered,
            this`peak, this`shut, this`ended
    {
      && accepted == delivered + leftover + Queued(queue)
      && accepted <= fed
      && (!closed ==> accepted == fed)
      && bufferedBytes == |leftover| + |Queued(queue)|
      && bufferedBytes <= MAX_BUFFER_BYTES
      && (forall i | 0 <= i < |queue| && queue[i].Sentinel? :: i == |queue| - 1 && closed)
      && (closed <==> shut || peak > MAX_BUFFER_BYTES)
      && (closed && !ended ==> queue != [] && queue[|queue| - 1].Sentinel?)
      && (ended ==> closed && queue == [])
    }

    /** Every chunk of a stream fed only non-empty payloads is non-empty. */
    ghost predicate NonEmptyChunks()
      reads this
    {
      NonEmpty(queue)
    }

    /** All that is accepted has been read, and no more will come. */
    ghost predicate Exhausted()
      reads this
    {
      closed && delivered == accepted
    }

    constructor (streamId: nat, connectFuture: Future)
      ensures Valid() && NonEmptyChunks() && !closed && fed == [] && delivered == [] && peak == 0 && !shut && !ended
      ensures this.streamId == streamId && this.connectFuture == connectFuture
    {
      this.streamId, this.connectFuture := streamId, connectFuture;
      queue, bufferedBytes, leftover, closed := [], 0, [], false;
      fed, accepted, delivered, peak, shut, ended := [], [], [], 0, false, false;
    }

    /** Accepts a payload, or closes the stream if it would exceed the cap. */
    method FeedData(data: bytes)
      requires Valid()
      modifies this`queue, this`bufferedBytes, this`closed, this`fed, this`accepted, this`peak, this`shut
      ensures Valid() && fed == old(fed) + data && shut == old(shut)
      ensures peak == if |fed| - |delivered| > old(peak) then |fed| - |delivered| else old(peak)
      ensures old(NonEmptyChunks()) && data != [] ==> NonEmptyChunks()
      ensures if old(closed) || old(bufferedBytes) + |data| > 8388608
              then accepted == old(accepted) && closed
              else accepted == old(accepted) + data && !closed && queue == old(queue) + [Chunk(data)]
    {
      hide NonEmpty, Queued;
      NonEmptyFacts(queue, Chunk(data));
      ghost var most := if |fed + data| - |delivered| > peak then |fed + data| - |delivered| else peak;
      if !closed {
        if bufferedBytes + |data| > MAX_BUFFER_BYTES {
          Close();
          fed, peak, shut := fed + data, most, false;
          return;
        }
        bufferedBytes := bufferedBytes + |data|;
        accepted := accepted + data;
        QueuedSnoc(queue, Chunk(data));
        queue := queue + [Chunk(data)];
      }
      fed, peak := fed + data, most;
    }

    /** The sentinel wakes a read that waits. */
    method Close()
      requires Valid()
      modifies this`closed, this`queue, this`shut
      ensures Valid() && closed && shut
      ensures queue == if old(closed) then old(queue) else old(queue) + [Sentinel]
      ensures old(NonEmptyChunks()) ==> NonEmptyChunks()
    {
      hide NonEmpty, Queued;
      NonEmptyFacts(queue, Sentinel);
      if !closed {
        closed := true;
        QueuedSnoc(queue, Sentinel);
        queue := queue + [Sentinel];
      }
      shut := true;
    }

    /**
      The part of read(n) up to its first wait. A negative n asks for everything that is queued;
      otherwise at most n bytes come out and the rest of the chunk is kept for the next read.
     */
    method ReadStart(n: int) returns (r: Read)
      requires Valid()
      modifies this`queue, this`bufferedBytes, this`leftover, this`closed, this`delivered, this`ended
      ensures Valid() && closed == old(closed)
      ensures old(NonEmptyChunks()) ==> NonEmptyChunks()
      ensures r.Bytes? ==> delivered == old(delivered) + r.data
      ensures r.Waiting? ==> delivered == old(delivered) == accepted && queue == [] && leftover == [] && !closed
      // How much: the remainder of a chunk first, then everything queued, or one chunk up to n.
      ensures old(leftover) != [] ==>
                r == Bytes(if 0 <= n < |old(leftover)| then old(leftover)[..n] else old(leftover))
      ensures old(leftover) == [] && n < 0 && old(Queued(queue)) != [] ==> r == Bytes(old(Queued(queue)))
      ensures old(leftover) == [] && n >= 0 && old(queue) != [] && old(queue)[0].Chunk? ==>
                var chunk := old(queue)[0].data; r == Bytes(if n < |chunk| then chunk[..n] else chunk)
      // With non-empty payloads and n != 0, an empty answer means end of stream, and only then.
      ensures old(NonEmptyChunks()) && n != 0 ==> (r == Bytes([]) <==> old(Exhausted()))
    {
      hide Queued, NonEmpty;
      NonEmptyFacts(queue, Sentinel);
      if leftover != [] {
        r := ReadLeftover(n);
        return;
      }
      QueuedFacts(queue);
      if closed && queue == [] {
        return Bytes([]);
      }
      if n < 0 {
        var data := DrainQueue();
        QueuedFacts(queue);
        if data == [] {
          if closed {
            return Bytes([]);
          }
          r := ReadResume(n);
          return;
        }
        bufferedBytes := bufferedBytes - |data|;
        delivered := delivered + data;
        return Bytes(data);
      }
      r := ReadResume(n);
    }

    /** The remainder of a chunk, or n bytes of it. */
    method ReadLeftover(n: int) returns (r: Read)
      requires Valid() && leftover != []
      modifies this`bufferedBytes, this`leftover, this`delivered
      ensures Valid()
      ensures r == Bytes(if 0 <= n < |old(leftover)| then old(leftover)[..n] else old(leftover))
      ensures delivered == old(delivered) + r.data
    {
      hide Queued;
      var data;
      if n < 0 || n >= |leftover| {
        data, leftover := leftover, [];
      } else {
        data, leftover := leftover[..n], leftover[n..];
      }
      bufferedBytes := bufferedBytes - |data|;
      delivered := delivered + data;
      return Bytes(data);
    }

    /** Takes every queued chunk, stopping at the sentinel, which it consumes. */
    method DrainQueue() returns (data: bytes)
      requires Valid()
      modifies this`queue, this`closed, this`ended
      ensures data == old(Queued(queue)) && queue == []
      ensures closed == old(closed) && ended == closed
    {
      hide Queued;
      QueuedFacts([]);
      data := [];
      while queue != []
        invariant data + Queued(queue) == old(Queued(queue))
        invariant closed == old(closed)
        invariant forall i | 0 <= i < |queue| && queue[i].Sentinel? :: i == |queue| - 1 && closed
        invariant ended ==> closed && queue == []
        invariant closed && !ended ==> queue != [] && queue[|queue| - 1].Sentinel?
        decreases |queue|
      {
        QueuedFacts(queue);
        var item := queue[0];
        if item.Chunk? {
          Regroup(data, item.data, Queued(queue[1..]));
        }
        queue := queue[1..];
        if item.Sentinel? {
          closed, ended := true, true;
          break;
        }
        data := data + item.data;
      }
    }

    /** The part of read(n) after a wait: one item is taken from the queue, if there is one by now. */
    method ReadResume(n: int) returns (r: Read)
      requires Valid() && leftover == []
      modifies this`queue, this`bufferedBytes, this`leftover, this`closed, this`delivered, this`ended
      ensures Valid() && closed == old(closed)
      ensures old(NonEmptyChunks()) ==> NonEmptyChunks()
      ensures r.Waiting? <==> old(queue) == []
      // A close wakes the read that waits for it.
      ensures old(closed) && !old(ended) ==> r.Bytes?
      ensures r.Waiting? ==> delivered == old(delivered) == accepted && queue == [] && leftover == []
      ensures r.Bytes? ==> delivered == old(delivered) + r.data
      ensures old(queue) != [] && old(queue)[0].Chunk? ==>
                var chunk := old(queue)[0].data; r == Bytes(if 0 <= n < |chunk| then chunk[..n] else chunk)
      ensures old(queue) != [] && old(queue)[0].Sentinel? ==> r == Bytes([]) && ended
      ensures old(NonEmptyChunks()) && n != 0 && old(queue) != [] ==> (r == Bytes([]) <==> old(Exhausted()))
    {
      hide Queued, NonEmpty;
      QueuedFacts(queue);
      NonEmptyFacts(queue, Sentinel);
      if queue == [] {
        return Waiting;
      }
      var item := queue[0];
      if item.Sentinel? {
        queue := queue[1..];
        closed, ended := true, true;
        return Bytes([]);
      }
      r := TakeChunk(n);
    }

    /** The first chunk, or n bytes of it; the rest is kept. */
    method TakeChunk(n: int) returns (r: Read)
      requires Valid() && leftover == [] && queue != [] && queue[0].Chunk?
      modifies this`queue, this`bufferedBytes, this`leftover, this`delivered
      ensures Valid() && queue == old(queue)[1..]
      ensures var chunk := old(queue)[0].data; r == Bytes(if 0 <= n < |chunk| then chunk[..n] else chunk)
      ensures delivered == old(delivered) + r.data
    {
      hide Queued;
      QueuedFacts(queue);
      var data := queue[0].data;
      Regroup(delivered, data, Queued(queue[1..]));
      assert delivered + [] == delivered;
      queue := queue[1..];
      if 0 <= n < |data| {
        Regroup(delivered, data[..n], data[n..]);
        assert data[..n] + data[n..] == data;
        leftover := data[n..];
        data := data[..n];
      }
      bufferedBytes := bufferedBytes - |data|;
      delivered := delivered + data;
      return Bytes(data);
    }
  }

  ghost predicate NonEmpty(queue: seq<Item>) {
    forall i | 0 <= i < |queue| && queue[i].Chunk? :: queue[i].data != []
  }

  lemma NonEmptyFacts(queue: seq<Item>, x: Item)
    ensures NonEmpty([])
    ensures NonEmpty(queue) && x != Chunk([]) ==> NonEmpty(queue + [x])
    ensures NonEmpty(queue) && queue != [] ==> NonEmpty(queue[1..]) && queue[0] != Chunk([])
  {
  }

  lemma QueuedFacts(queue: seq<Item>)
    ensures queue == [] ==> Queued(queue) == []
    ensures queue != [] ==>
              Queued(queue) == (if queue[0].Chunk? then queue[0].data else []) + Queued(queue[1..])
    ensures |queue| == 1 ==> Queued(queue[1..]) == []
  {
  }
}
