/**
  The two DNS caches: server/forward_proxy.py evicts before it inserts, client/core/router.py after.
  A Python dict is the sequence of its entries in insertion order, because sorted() breaks ties by it.
 */
module DnsCaches {
  import opened Bytes
  import opened Maps
  import opened Sorting

  const TTL: real := 300.0
  const SERVER_MAX: nat := 2048
  const CLIENT_MAX: nat := 1024

  datatype Entry = Entry(host: string, expiry: real, ip: string)

  /** A dict has one entry a host. */
  ghost predicate Distinct(c: seq<Entry>) {
    forall i, j | 0 <= i < j < |c| :: c[i].host != c[j].host
  }

  function Find(c: seq<Entry>, host: string): (r: Option<Entry>)
    ensures r.Some? ==> r.value in c && r.value.host == host
    ensures r.None? ==> forall e | e in c :: e.host != host
  {
    if c == [] then None else
    if c[|c| - 1].host == host then Some(c[|c| - 1]) else
    assert c == c[..|c| - 1] + [c[|c| - 1]];
    Find(c[..|c| - 1], host)
  }

  function Without(c: seq<Entry>, host: string): seq<Entry> {
    Filter(c, (e: Entry) => e.host != host)
  }

  /** Assignment to a key: in place if it is there, at the end if not. */
  function Store(c: seq<Entry>, e: Entry): seq<Entry> {
    if Find(c, e.host).None? then c + [e]
    else seq(|c|, i requires 0 <= i < |c| => if c[i].host == e.host then e else c[i])
  }

  function Live(c: seq<Entry>, now: real): seq<Entry> {
    Filter(c, (e: Entry) => !(now >= e.expiry))
  }

  function Sooner(a: Entry, b: Entry): bool {
    a.expiry <= b.expiry
  }

  /** The n entries that expire soonest, the older key first where two expire together. */
  function Soonest(c: seq<Entry>, n: nat): (r: seq<Entry>)
    requires n <= |c|
    ensures |r| == n && forall e | e in r :: e in c
  {
    SortKeepsElements(c, Sooner);
    StableSort(c, Sooner)[..n]
  }

  function Evict(c: seq<Entry>, n: nat): seq<Entry>
    requires n <= |c|
  {
    Filter(c, (e: Entry) => e !in Soonest(c, n))
  }

  // ---------------------------------------------------------------------------------------------
  // Sequences as dicts

  lemma {:induction false} FilterKeeps<T(!new)>(s: seq<T>, p: T -> bool)
    ensures |Filter(s, p)| <= |s|
    ensures forall x :: x in Filter(s, p) <==> x in s && p(x)
  {
    if s != [] {
      FilterKeeps(s[..|s| - 1], p);
      assert s == s[..|s| - 1] + [s[|s| - 1]];
    }
  }

  lemma {:induction false} FilterDistinct(c: seq<Entry>, p: Entry -> bool)
    requires Distinct(c)
    ensures Distinct(Filter(c, p))
  {
    if c != [] {
      var init, last := c[..|c| - 1], c[|c| - 1];
      FilterDistinct(init, p);
      FilterKeeps(init, p);
      assert forall e | e in init :: e.host != last.host;
    }
  }

  lemma FoundIsUnique(c: seq<Entry>, e: Entry)
    requires Distinct(c) && e in c
    ensures Find(c, e.host) == Some(e)
  {
  }

  lemma StoreKeeps(c: seq<Entry>, e: Entry)
    requires Distinct(c)
    ensures Distinct(Store(c, e)) && |Store(c, e)| == if Find(c, e.host).None? then |c| + 1 else |c|
    ensures forall x :: x in Store(c, e) <==> x == e || (x in c && x.host != e.host)
  {
    var s := Store(c, e);
    if Find(c, e.host).Some? {
      var k :| 0 <= k < |c| && c[k].host == e.host;
      assert s[k] == e;
      forall x | x in c && x.host != e.host
        ensures x in s
      {
        var i :| 0 <= i < |c| && c[i] == x;
        assert s[i] == x;
      }
    }
  }

  ghost function Elements<T>(s: seq<T>): set<T> {
    set x | x in s
  }

  lemma {:induction false} DistinctSize(c: seq<Entry>)
    requires Distinct(c)
    ensures |Elements(c)| == |c|
  {
    if c != [] {
      var init, last := c[..|c| - 1], c[|c| - 1];
      DistinctSize(init);
      assert Elements(c) == Elements(init) + {last};
    }
  }

  lemma {:induction false} ElementsSize<T>(s: seq<T>)
    ensures |Elements(s)| <= |s|
  {
    if s != [] {
      var init, last := s[..|s| - 1], s[|s| - 1];
      ElementsSize(init);
      assert Elements(s) == Elements(init) + {last};
    }
  }

  /** Eviction removes exactly n entries, and none of them expires later than one that stays. */
  lemma EvictsSoonest(c: seq<Entry>, n: nat)
    requires Distinct(c) && n <= |c|
    ensures Distinct(Evict(c, n)) && |Evict(c, n)| == |c| - n
    ensures forall e :: e in c <==> e in Evict(c, n) || e in Soonest(c, n)
    ensures forall e, gone | e in Evict(c, n) && gone in Soonest(c, n) :: gone != e && gone.expiry <= e.expiry
  {
    FilterDistinct(c, (e: Entry) => e !in Soonest(c, n));
    FilterKeeps(c, (e: Entry) => e !in Soonest(c, n));
    EvictsThisMany(c, n);
    SortKeepsElements(c, Sooner);
    hide Filter, StableSort, Distinct;
    assert StableSort(c, Sooner) == StableSort(c, Sooner)[..n] + StableSort(c, Sooner)[n..];
    SortSorts(c, Sooner);
    SplitSorted(StableSort(c, Sooner), n);
  }

  /** In a sorted list nothing expires later than what stands behind it. */
  lemma SplitSorted(sorted: seq<Entry>, n: nat)
    requires Sorted(sorted, Sooner) && n <= |sorted|
    ensures forall a, b | a in sorted[..n] && b in sorted[n..] :: a.expiry <= b.expiry
  {
    forall a, b | a in sorted[..n] && b in sorted[n..]
      ensures a.expiry <= b.expiry
    {
      var i, j :| 0 <= i < n <= j < |sorted| && sorted[i] == a && sorted[j] == b;
      assert Sooner(sorted[i], sorted[j]);
    }
  }

  lemma EvictsThisMany(c: seq<Entry>, n: nat)
    requires Distinct(c) && n <= |c|
    ensures |Evict(c, n)| == |c| - n
  {
    hide Distinct, Filter, StableSort;
    var sorted, kept := StableSort(c, Sooner), Evict(c, n);
    SortKeepsElements(c, Sooner);
    var first, rest := sorted[..n], sorted[n..];
    FilterDistinct(c, (e: Entry) => e !in first);
    FilterKeeps(c, (e: Entry) => e !in first);
    assert Elements(sorted) == Elements(first) + Elements(rest) by { assert sorted == first + rest; }
    DistinctSize(c);
    DistinctSize(kept);
    ElementsSize(first);
    ElementsSize(rest);
    assert Elements(kept) == Elements(c) - Elements(first);
    SubsetSize(Elements(c), Elements(kept) + Elements(first));
    SubsetSize(Elements(kept), Elements(rest));
  }

  /** A newest key that expires no sooner than the others outlives every eviction short of all. */
  lemma NewestSurvives(c: seq<Entry>, e: Entry, n: nat)
    requires Distinct(c + [e]) && n <= |c|
    requires forall x | x in c :: x.expiry <= e.expiry
    ensures e in Evict(c + [e], n)
  {
    hide Filter, StableSort;
    SortSnoc(c, e, Sooner);
    SortKeepsElements(c, Sooner);
    var sorted := StableSort(c, Sooner);
    forall x | x in c
      ensures x.host != e.host
    {
      var i :| 0 <= i < |c| && c[i] == x;
      assert (c + [e])[i] == x && (c + [e])[|c|] == e;
    }
    hide Distinct;
    assert StableSort(c + [e], Sooner) == sorted + [e];
    assert Soonest(c + [e], n) == sorted[..n];
    FilterKeeps(c + [e], (x: Entry) => x !in Soonest(c + [e], n));
  }

  // ---------------------------------------------------------------------------------------------
  // The reference: every answer ever put, and the hosts whose last answer was evicted

  datatype Answer = Answer(time: real, ip: string)

  function EntryOf(host: string, a: Answer): Entry {
    Entry(host, a.time + TTL, a.ip)
  }

  ghost predicate Refines(c: seq<Entry>, last: map<string, Answer>, evicted: set<string>, clock: real) {
    && Distinct(c)
    && (forall e | e in c :: e.host in last && e == EntryOf(e.host, last[e.host]) && e.host !in evicted)
    && (forall host | host in last ::
          && last[host].time <= clock
          && (clock < last[host].time + TTL && host !in evicted ==> EntryOf(host, last[host]) in c))
  }

  /** What a lookup must answer. */
  predicate Hit(last: map<string, Answer>, evicted: set<string>, host: string, now: real) {
    host in last && now < last[host].time + TTL && host !in evicted
  }

  lemma WithoutRefines(c: seq<Entry>, last: map<string, Answer>, evicted: set<string>, clock: real,
                       host: string, now: real)
    requires Refines(c, last, evicted, clock) && clock <= now
    requires Find(c, host).Some? ==> now >= Find(c, host).value.expiry
    ensures Refines(Without(c, host), last, evicted, now) && |Without(c, host)| <= |c|
  {
    FilterKeeps(c, (e: Entry) => e.host != host);
    FilterDistinct(c, (e: Entry) => e.host != host);
    forall h | h in last && now < last[h].time + TTL && h !in evicted
      ensures EntryOf(h, last[h]) in Without(c, host)
    {
      FoundIsUnique(c, EntryOf(h, last[h]));
    }
  }

  lemma LiveRefines(c: seq<Entry>, last: map<string, Answer>, evicted: set<string>, clock: real, now: real)
    requires Refines(c, last, evicted, clock) && clock <= now
    ensures Refines(Live(c, now), last, evicted, now) && |Live(c, now)| <= |c|
  {
    FilterKeeps(c, (e: Entry) => !(now >= e.expiry));
    FilterDistinct(c, (e: Entry) => !(now >= e.expiry));
  }

  ghost function Hosts(c: seq<Entry>): set<string> {
    set e | e in c :: e.host
  }

  lemma EvictRefines(c: seq<Entry>, last: map<string, Answer>, evicted: set<string>, clock: real, n: nat)
    requires Refines(c, last, evicted, clock) && n <= |c|
    ensures Refines(Evict(c, n), last, evicted + Hosts(Soonest(c, n)), clock) && |Evict(c, n)| == |c| - n
  {
    EvictsSoonest(c, n);
    forall e, gone | e in Evict(c, n) && gone in Soonest(c, n)
      ensures e.host != gone.host
    {
      FoundIsUnique(c, e);
      FoundIsUnique(c, gone);
    }
  }

  lemma StoreRefines(c: seq<Entry>, last: map<string, Answer>, evicted: set<string>, clock: real,
                     host: string, ip: string, now: real)
    requires Refines(c, last, evicted, clock) && clock <= now
    ensures var c' := Store(c, Entry(host, now + TTL, ip));
            var last', evicted' := last[host := Answer(now, ip)], evicted - {host};
            Refines(c', last', evicted', now) && Hit(last', evicted', host, now) && |c'| <= |c| + 1
  {
    StoreKeeps(c, Entry(host, now + TTL, ip));
  }

  /** Besides the host just put, at most one live answer was forgotten, and none that is kept expires sooner. */
  ghost predicate ForgetsOne(before: set<string>, after: set<string>, last: map<string, Answer>, c: seq<Entry>) {
    || after == before
    || exists gone | gone in last :: after == before + {gone} && SoonerThanAll(EntryOf(gone, last[gone]), c)
  }

  lemma ForgetsOneMeans(before: set<string>, after: set<string>, last: map<string, Answer>, c: seq<Entry>)
    requires ForgetsOne(before, after, last, c)
    ensures before <= after && forall a, b | a in after - before && b in after - before :: a == b
    ensures forall gone, e | gone in after - before && e in c ::
              gone in last && last[gone].time + 300.0 <= e.expiry
  {
  }

  predicate SoonerThanAll(e: Entry, c: seq<Entry>) {
    forall x | x in c :: Sooner(e, x)
  }

  /** The single entry that makes room. */
  lemma EvictsOne(c: seq<Entry>, last: map<string, Answer>, evicted: set<string>, clock: real)
    requires Refines(c, last, evicted, clock) && |c| > 0
    ensures var gone := Soonest(c, 1)[0];
            && gone.host in last && gone == EntryOf(gone.host, last[gone.host])
            && Hosts(Soonest(c, 1)) == {gone.host}
            && SoonerThanAll(gone, Evict(c, 1))
  {
    EvictsSoonest(c, 1);
    assert Soonest(c, 1) == [Soonest(c, 1)[0]];
  }

  /** Both sweeps: expired entries go if there are too many, and then those that expire soonest. */
  function Trimmed(c: seq<Entry>, now: real, limit: nat): seq<Entry> {
    var live := Live(c, now);
    if |c| <= limit then c else
    if |live| <= limit then live else Evict(live, |live| - limit)
  }

  /** The hosts that are forgotten although their answer is still good. */
  ghost function Forgotten(c: seq<Entry>, now: real, limit: nat): set<string> {
    var live := Live(c, now);
    if |c| <= limit || |live| <= limit then {} else Hosts(Soonest(live, |live| - limit))
  }

  lemma TrimRefines(c: seq<Entry>, last: map<string, Answer>, evicted: set<string>, clock: real, now: real, limit: nat)
    requires Refines(c, last, evicted, clock) && clock <= now && |c| <= limit + 1
    ensures Refines(Trimmed(c, now, limit), last, evicted + Forgotten(c, now, limit), now)
    ensures |Trimmed(c, now, limit)| <= limit
    ensures ForgetsOne(evicted, evicted + Forgotten(c, now, limit), last, Trimmed(c, now, limit))
  {
    hide Live, Evict, Soonest, Hosts;
    var live := Live(c, now);
    assert evicted + {} == evicted;
    LiveRefines(c, last, evicted, clock, now);
    if |c| > limit && |live| > limit {
      EvictRefines(live, last, evicted, now, 1);
      EvictsOne(live, last, evicted, now);
    }
  }

  /** Storing an answer on top keeps the promise about what was forgotten. */
  lemma StoreForgets(before: set<string>, after: set<string>, c: seq<Entry>, last: map<string, Answer>, clock: real,
                     host: string, ip: string, now: real)
    requires ForgetsOne(before, after, last, c) && Refines(c, last, after, clock) && clock <= now
    ensures var c' := Store(c, Entry(host, now + TTL, ip));
            ForgetsOne(before - {host}, after - {host}, last[host := Answer(now, ip)], c')
  {
    var e := Entry(host, now + TTL, ip);
    StoreKeeps(c, e);
    if after != before {
      var gone :| gone in last && after == before + {gone} && SoonerThanAll(EntryOf(gone, last[gone]), c);
      if gone == host {
        assert after - {host} == before - {host};
      } else {
        assert after - {host} == (before - {host}) + {gone};
        assert SoonerThanAll(EntryOf(gone, last[gone]), Store(c, e));
      }
    }
  }

  /** An entry just appended is swept out exactly if the sweep comes a whole TTL later. */
  lemma NewestSurvivesPrune(c: seq<Entry>, e: Entry, later: real)
    requires Distinct(c + [e]) && |c| == CLIENT_MAX && forall x | x in c :: x.expiry <= e.expiry
    ensures e in Trimmed(c + [e], later, CLIENT_MAX) <==> later < e.expiry
  {
    hide Evict, Filter, Distinct;
    FilterSnoc(c, e, (x: Entry) => !(later >= x.expiry));
    FilterKeeps(c + [e], (x: Entry) => !(later >= x.expiry));
    FilterKeeps(c, (x: Entry) => !(later >= x.expiry));
    var live := Live(c + [e], later);
    if later < e.expiry {
      if |live| > CLIENT_MAX {
        assert live == Live(c, later) + [e];
        FilterDistinct(c + [e], (x: Entry) => !(later >= x.expiry));
        NewestSurvives(Live(c, later), e, 1);
      }
    }
  }

  // ---------------------------------------------------------------------------------------------
  // The caches

  /** ForwardProxy._dns_cache. */
  class ServerCache {
    var entries: seq<Entry>
    ghost var last: map<string, Answer>
    ghost var evicted: set<string>
    ghost var clock: real

    ghost predicate Valid()
      reads this
    {
      |entries| <= SERVER_MAX && Refines(entries, last, evicted, clock)
    }

    constructor ()
      ensures Valid() && last == map[] && evicted == {} && clock == 0.0
    {
      entries, last, evicted, clock := [], map[], {}, 0.0;
    }

    /** _dns_cache_get. */
    method Get(host: string, now: real) returns (ip: Option<string>)
      requires Valid() && clock <= now
      modifies this`entries, this`clock
      ensures Valid() && clock == now
      ensures ip == if Hit(last, evicted, host, now) then Some(last[host].ip) else None
    {
      ip := None;
      var entry := Find(entries, host);
      if entry.Some? {
        if now < entry.value.expiry {
          ip := Some(entry.value.ip);
        } else {
          WithoutRefines(entries, last, evicted, clock, host, now);
          entries := Without(entries, host);
        }
      }
      clock := now;
    }

    /** _dns_cache_put: room is made before the insertion. */
    method Put(host: string, ip: string, now: real)
      requires Valid() && clock <= now
      modifies this
      ensures Valid() && clock == now && last == old(last)[host := Answer(now, ip)]
      ensures |entries| <= 2048 && Hit(last, evicted, host, now)
      ensures ForgetsOne(old(evicted) - {host}, evicted, last, entries)
      ensures |old(entries)| < SERVER_MAX ==> evicted == old(evicted) - {host}
    {
      hide Refines, ForgetsOne, Live, Evict, Store, Hit;
      TrimRefines(entries, last, evicted, clock, now, SERVER_MAX - 1);
      evicted := evicted + Forgotten(entries, now, SERVER_MAX - 1);
      if |entries| >= SERVER_MAX {
        entries := Live(entries, now);
        if |entries| >= SERVER_MAX {
          var overflow := |entries| - SERVER_MAX + 1;
          entries := Evict(entries, overflow);
        }
      }
      StoreRefines(entries, last, evicted, now, host, ip, now);
      StoreForgets(old(evicted), evicted, entries, last, now, host, ip, now);
      entries := Store(entries, Entry(host, now + TTL, ip));
      last, evicted, clock := last[host := Answer(now, ip)], evicted - {host}, now;
    }
  }

  /** Router._dns_cache. */
  class ClientCache {
    var entries: seq<Entry>
    ghost var last: map<string, Answer>
    ghost var evicted: set<string>
    ghost var clock: real

    ghost predicate Valid()
      reads this
    {
      |entries| <= CLIENT_MAX && Refines(entries, last, evicted, clock)
    }

    constructor ()
      ensures Valid() && last == map[] && evicted == {} && clock == 0.0
    {
      entries, last, evicted, clock := [], map[], {}, 0.0;
    }

    /** _cached_resolve. */
    method Resolve(host: string, now: real) returns (ip: Option<string>)
      requires Valid() && clock <= now
      modifies this`entries, this`clock
      ensures Valid() && clock == now
      ensures ip == if Hit(last, evicted, host, now) then Some(last[host].ip) else None
    {
      ip := None;
      var entry := Find(entries, host);
      if entry.Some? && now < entry.value.expiry {
        ip := Some(entry.value.ip);
      } else if entry.Some? {
        WithoutRefines(entries, last, evicted, clock, host, now);
        entries := Without(entries, host);
      }
      clock := now;
    }

    /** The insertion in route, and _prune_dns_cache a moment later. */
    method Put(host: string, ip: string, now: real, later: real)
      requires Valid() && clock <= now <= later
      modifies this
      ensures Valid() && clock == later && last == old(last)[host := Answer(now, ip)]
      ensures |entries| <= 1024 && (later < now + TTL ==> Hit(last, evicted, host, later))
      ensures ForgetsOne(old(evicted) - {host}, evicted, last, entries)
      ensures |old(entries)| < CLIENT_MAX ==> evicted == old(evicted) - {host}
    {
      hide Refines, ForgetsOne, Store, Trimmed;
      ghost var e := Entry(host, now + TTL, ip);
      PutSurvives(entries, e, last, evicted, clock, now, later);
      StoreRefines(entries, last, evicted, clock, host, ip, now);
      entries := Store(entries, Entry(host, now + TTL, ip));
      last, evicted, clock := last[host := Answer(now, ip)], evicted - {host}, now;
      Prune(later);
      if later < now + TTL {
        PresentIsHit(entries, last, evicted, clock, e);
      }
    }

    /** _prune_dns_cache. */
    method Prune(now: real)
      requires |entries| <= CLIENT_MAX + 1 && Refines(entries, last, evicted, clock) && clock <= now
      modifies this`entries, this`evicted, this`clock
      ensures Valid() && clock == now && entries == Trimmed(old(entries), now, CLIENT_MAX)
      ensures ForgetsOne(old(evicted), evicted, last, entries)
      ensures |old(entries)| <= CLIENT_MAX ==> evicted == old(evicted)
    {
      hide Refines, ForgetsOne, Live, Evict;
      TrimRefines(entries, last, evicted, clock, now, CLIENT_MAX);
      evicted, clock := evicted + Forgotten(entries, now, CLIENT_MAX), now;
      if |entries| <= CLIENT_MAX {
        return;
      }
      entries := Live(entries, now);
      if |entries| <= CLIENT_MAX {
        return;
      }
      var overflow := |entries| - CLIENT_MAX;
      entries := Evict(entries, overflow);
    }
  }

  lemma PresentIsHit(c: seq<Entry>, last: map<string, Answer>, evicted: set<string>, clock: real, e: Entry)
    requires Refines(c, last, evicted, clock) && e in c && clock < e.expiry
    ensures Hit(last, evicted, e.host, clock)
  {
  }

  /** What was just put is there after the sweep. */
  lemma PutSurvives(c: seq<Entry>, e: Entry, last: map<string, Answer>, evicted: set<string>, clock: real,
                    now: real, later: real)
    requires Refines(c, last, evicted, clock) && clock <= now && |c| <= CLIENT_MAX && e.expiry == now + TTL
    ensures later < now + TTL ==> e in Trimmed(Store(c, e), later, CLIENT_MAX)
  {
    StoreKeeps(c, e);
    if |Store(c, e)| > CLIENT_MAX {
      NewestSurvivesPrune(c, e, later);
    }
  }
}
