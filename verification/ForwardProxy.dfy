/** The relay registry of server/forward_proxy.py, shared by the sessions of all clients. */
module Relays {
  import opened Bytes

  /** Client and stream id in one integer. */
  function MakeKey(clientId: nat, streamId: nat): nat {
    clientId * UINT32 + streamId % UINT32
  }

  function SplitKey(key: nat): (nat, nat) {
    (key / UINT32, key % UINT32)
  }

  /** Keys never collide for 32-bit stream ids, and splitting undoes making. */
  lemma KeysAreInjective(c: nat, s: nat, c': nat, s': nat)
    ensures MakeKey(c, s) == MakeKey(c', s') <==> c == c' && s % UINT32 == s' % UINT32
    ensures SplitKey(MakeKey(c, s)) == (c, s % UINT32)
    ensures var (d, t) := SplitKey(MakeKey(c, s)); MakeKey(d, t) == MakeKey(c, s)
  {
    SplitMade(c, s);
    SplitMade(c', s');
  }

  lemma SplitMade(c: nat, s: nat)
    ensures MakeKey(c, s) / UINT32 == c && MakeKey(c, s) % UINT32 == s % UINT32
  {
    var r := s % UINT32;
    assert (c * UINT32 + r) / UINT32 == c;
  }

  /** One open connection to a target; `written` is what its writer has been given. */
  class ForwardRelay {
    var written: bytes
    var active: bool

    constructor ()
      ensures written == [] && active
    {
      written, active := [], true;
    }

    method Write(data: bytes)
      modifies this
      ensures written == old(written) + data && active == old(active)
    {
      written := written + data;
    }

    method Close()
      modifies this
      ensures !active && written == old(written)
    {
      active := false;
    }
  }

  class ForwardProxy {
    var relays: map<nat, ForwardRelay>

    /** Registered relays are open, and no two keys share one. */
    ghost predicate Valid()
      reads this, relays.Values
    {
      && (forall k | k in relays :: relays[k].active)
      && (forall k, l | k in relays && l in relays && k != l :: relays[k] != relays[l])
    }

    /** The streams of a client that have a relay. */
    function StreamsOf(clientId: nat): set<nat>
      reads this
    {
      set s: nat | s < UINT32 && MakeKey(clientId, s) in relays
    }

    /** The relay of a stream, if it has one, as a set: what a method about the stream may change. */
    function RelayAt(clientId: nat, streamId: nat): set<ForwardRelay>
      reads this
    {
      if MakeKey(clientId, streamId) in relays then {relays[MakeKey(clientId, streamId)]} else {}
    }

    constructor ()
      ensures Valid() && relays == map[]
    {
      relays := map[];
    }

    /** One key of one client decides about one stream of that client and about nothing else. */
    lemma OtherKeys(clientId: nat, streamId: nat)
      requires streamId < UINT32
      ensures forall c: nat, s: nat | s < UINT32 && (c, s) != (clientId, streamId) ::
                MakeKey(c, s) != MakeKey(clientId, streamId)
    {
      forall c: nat, s: nat | s < UINT32 && (c, s) != (clientId, streamId)
        ensures MakeKey(c, s) != MakeKey(clientId, streamId)
      {
        KeysAreInjective(c, s, clientId, streamId);
      }
    }

    method GetRelay(clientId: nat, streamId: nat) returns (relay: ForwardRelay?)
      ensures relay != null ==> RelayAt(clientId, streamId) == {relay}
      ensures streamId < UINT32 ==> (relay != null <==> streamId in StreamsOf(clientId))
    {
      var key := MakeKey(clientId, streamId);
      relay := if key in relays then relays[key] else null;
    }

    /** The registration that ends connect_target. */
    method Register(clientId: nat, streamId: nat, relay: ForwardRelay)
      requires Valid() && relay.active && relay !in relays.Values && streamId < UINT32
      modifies this
      ensures Valid() && relays == old(relays)[MakeKey(clientId, streamId) := relay]
      ensures RelayAt(clientId, streamId) == {relay}
      ensures StreamsOf(clientId) == old(StreamsOf(clientId)) + {streamId}
      ensures forall c: nat | c != clientId :: StreamsOf(c) == old(StreamsOf(c))
    {
      OtherKeys(clientId, streamId);
      relays := relays[MakeKey(clientId, streamId) := relay];
    }

    /** remove_relay: the relay, if there is one, is closed and deregistered. */
    method RemoveRelay(clientId: nat, streamId: nat)
      requires Valid() && streamId < UINT32
      modifies this, RelayAt(clientId, streamId)
      ensures Valid() && relays == old(relays) - {MakeKey(clientId, streamId)}
      ensures forall r | r in old(RelayAt(clientId, streamId)) :: !r.active && r.written == old(r.written)
      ensures StreamsOf(clientId) == old(StreamsOf(clientId)) - {streamId}
      ensures forall c: nat | c != clientId :: StreamsOf(c) == old(StreamsOf(c))
    {
      var key := MakeKey(clientId, streamId);
      OtherKeys(clientId, streamId);
      if key in relays {
        var relay := relays[key];
        relays := relays - {key};
        relay.Close();
      }
    }

    /** Every relay of every client is closed and deregistered, reached through its split key. */
    method CloseAll()
      requires Valid()
      modifies this, relays.Values
      ensures Valid() && relays == map[]
      ensures forall r | r in old(relays).Values :: !r.active
    {
      hide StreamsOf;
      var keys := relays.Keys;
      while keys != {}
        invariant Valid()
        invariant relays.Keys == keys
        invariant forall k | k in relays :: k in old(relays) && relays[k] == old(relays)[k]
        invariant forall k | k in old(relays) && k !in keys :: !old(relays)[k].active
      {
        var key :| key in keys;
        var (clientId, streamId) := SplitKey(key);
        RemoveRelay(clientId, streamId);
        keys := keys - {key};
      }
    }
  }
}
