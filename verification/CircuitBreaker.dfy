/** The circuit breaker of client/core/circuit_breaker.py, refining the history of its events. */
module CircuitBreaker {
  import opened Maps

  const FAIL_THRESHOLD: nat := 3
  const COOLDOWN: real := 120.0
  const WINDOW: real := 360.0
  const MAX_ENTRIES: nat := 500

  // ---------------------------------------------------------------------------------------------
  // The reference: the whole history, nothing forgotten

  datatype Event = Failure(ip: string, time: real) | Success(ip: string)

  /** The failures less than one window before t. */
  function Recent(times: seq<real>, t: real): (r: seq<real>)
    ensures |r| <= |times|
  {
    if times == [] then [] else
    var last := times[|times| - 1];
    Recent(times[..|times| - 1], t) + (if t - last < WINDOW then [last] else [])
  }

  /** A failure at t is the third within one window. */
  predicate Trips(times: seq<real>, t: real) {
    |Recent(times, t)| + 1 >= FAIL_THRESHOLD
  }

  /** The failures of an address since its last trip or success. */
  function Since(h: seq<Event>, ip: string): seq<real> {
    if h == [] then [] else
    var before := Since(h[..|h| - 1], ip);
    match h[|h| - 1]
    case Success(i) => if i == ip then [] else before
    case Failure(i, t) => if i != ip then before else if Trips(before, t) then [] else before + [t]
  }

  /** Event k of the history is a failure that trips the breaker for its address. */
  predicate TripsAt(h: seq<Event>, k: nat)
    requires k < |h|
  {
    h[k].Failure? && Trips(Since(h[..k], h[k].ip), h[k].time)
  }

  /** An address is blocked at t if a trip less than the cooldown ago has not been undone by a success. */
  ghost predicate Blocked(h: seq<Event>, ip: string, t: real) {
    exists k: nat :: Blocking(h, ip, t, k)
  }

  predicate Blocking(h: seq<Event>, ip: string, t: real, k: nat) {
    && k < |h| && h[k].ip == ip && TripsAt(h, k) && t <= h[k].time + COOLDOWN
    && forall j | k < j < |h| :: h[j] != Success(ip)
  }

  /** Nothing in the history is later than t. */
  ghost predicate Past(h: seq<Event>, t: real) {
    forall k | 0 <= k < |h| && h[k].Failure? :: h[k].time <= t
  }

  lemma RecentSnoc(times: seq<real>, x: real, t: real)
    ensures Recent(times + [x], t) == Recent(times, t) + (if t - x < WINDOW then [x] else [])
  {
    assert (times + [x])[..|times|] == times;
  }

  /** What is too old at one time is too old ever after. */
  lemma {:induction false} RecentTwice(times: seq<real>, t: real, later: real)
    requires t <= later
    ensures Recent(Recent(times, t), later) == Recent(times, later)
  {
    if times != [] {
      var init, last := times[..|times| - 1], times[|times| - 1];
      RecentTwice(init, t, later);
      RecentSnoc(Recent(init, t), last, later);
      assert Recent(init, t) + [] == Recent(init, t);
    }
  }

  /** How one more event changes what is blocked. */
  lemma BlockedSnoc(h: seq<Event>, e: Event, ip: string, t: real)
    ensures Blocked(h + [e], ip, t) <==>
              if e.ip != ip then Blocked(h, ip, t)
              else e.Failure? && (Blocked(h, ip, t) || (Trips(Since(h, ip), e.time) && t <= e.time + COOLDOWN))
  {
    var h' := h + [e];
    assert h'[..|h|] == h;
    forall k: nat | k < |h|
      ensures Blocking(h', ip, t, k) <==> Blocking(h, ip, t, k) && e != Success(ip)
    {
      assert h'[..k] == h[..k];
      if Blocking(h', ip, t, k) {
        assert h'[|h|] == e;
        assert forall j | k < j < |h| :: h[j] == h'[j];
      }
      if Blocking(h, ip, t, k) && e != Success(ip) {
        assert forall j | k < j < |h'| :: h'[j] != Success(ip);
      }
    }
    assert Blocking(h', ip, t, |h|) <==>
             e.ip == ip && e.Failure? && Trips(Since(h, ip), e.time) && t <= e.time + COOLDOWN;
    if Blocked(h', ip, t) {
      var k: nat :| Blocking(h', ip, t, k);
      assert k == |h| || Blocking(h, ip, t, k);
    }
    if Blocked(h, ip, t) && e != Success(ip) {
      var k: nat :| Blocking(h, ip, t, k);
      assert Blocking(h', ip, t, k);
    }
  }

  lemma SinceSnoc(h: seq<Event>, e: Event, ip: string)
    ensures Since(h + [e], ip) ==
              if e.ip != ip then Since(h, ip)
              else if e.Success? || Trips(Since(h, ip), e.time) then []
              else Since(h, ip) + [e.time]
  {
    assert (h + [e])[..|h|] == h;
  }

  // ---------------------------------------------------------------------------------------------
  // The breaker

  function TimesOf(failures: map<string, seq<real>>, ip: string): seq<real> {
    if ip in failures then failures[ip] else []
  }

  /** From a moment on (itself included or not), the two maps answer like the history. */
  ghost predicate Tells(failures: map<string, seq<real>>, blocked: map<string, real>, h: seq<Event>,
                        from: real, strict: bool)
  {
    forall ip: string, t: real | t > from || (!strict && t == from) ::
      TellsAt(failures, blocked, h, ip, t)
  }

  ghost predicate TellsAt(failures: map<string, seq<real>>, blocked: map<string, real>, h: seq<Event>,
                          ip: string, t: real)
  {
    && ((ip in blocked && t <= blocked[ip]) <==> Blocked(h, ip, t))
    && Recent(TimesOf(failures, ip), t) == Recent(Since(h, ip), t)
  }

  /** No address has more than two timestamps, and none has none. */
  predicate Short(failures: map<string, seq<real>>) {
    forall ip | ip in failures :: 1 <= |failures[ip]| < FAIL_THRESHOLD
  }

  /** Two maps agree about every other address. */
  ghost predicate SameBut<V>(a: map<string, V>, b: map<string, V>, ip: string) {
    forall i: string | i != ip :: (i in a <==> i in b) && (i in a ==> a[i] == b[i])
  }

  predicate Bars(blocked: map<string, real>, ip: string, now: real) {
    ip in blocked && now <= blocked[ip]
  }

  /** The blocks that have not run out. */
  function Swept(blocked: map<string, real>, now: real): map<string, real> {
    map ip | ip in blocked && now <= blocked[ip] :: blocked[ip]
  }

  /** Dropping blocks that have run out changes no later answer. */
  lemma SweptTells(failures: map<string, seq<real>>, blocked: map<string, real>, h: seq<Event>,
                   from: real, strict: bool, now: real)
    requires Tells(failures, blocked, h, from, strict) && (now > from || (!strict && now == from))
    ensures Tells(failures, Swept(blocked, now), h, now, false)
  {
    hide Recent, Since, Blocked;
    forall i: string, t: real | t >= now
      ensures TellsAt(failures, Swept(blocked, now), h, i, t)
    {
      assert TellsAt(failures, blocked, h, i, t);
    }
  }

  datatype Snapshot = Snapshot(blocked: map<string, real>, failures: map<string, seq<real>>)

  function Max(times: seq<real>): real {
    if times == [] then 0.0 else
    var m := Max(times[..|times| - 1]);
    if |times| == 1 || times[|times| - 1] > m then times[|times| - 1] else m
  }

  /** The time of the newest failure. */
  lemma {:induction false} MaxIsNewest(times: seq<real>)
    requires times != []
    ensures Max(times) in times && forall t | t in times :: t <= Max(times)
  {
    if |times| > 1 {
      MaxIsNewest(times[..|times| - 1]);
    }
    assert times == times[..|times| - 1] + [times[|times| - 1]];
  }

  /** In numbers: three failures within 360 seconds block an address for 120 seconds, two never do. */
  lemma ThirdFailureBlocks(ip: string, t1: real, t2: real, t3: real, t: real)
    requires t1 <= t2 <= t3
    ensures !Blocked([Failure(ip, t1), Failure(ip, t2)], ip, t)
    ensures Blocked([Failure(ip, t1), Failure(ip, t2), Failure(ip, t3)], ip, t) <==> t3 - t1 < 360.0 && t <= t3 + 120.0
  {
    hide Recent, Since, Blocked;
    var e1, e2, e3 := Failure(ip, t1), Failure(ip, t2), Failure(ip, t3);
    assert [] + [e1] == [e1] && [e1] + [e2] == [e1, e2] && [e1, e2] + [e3] == [e1, e2, e3];
    assert [] + [t1] == [t1] && [t1] + [t2] == [t1, t2];
    NothingHappened(ip, t);
    BlockedSnoc([], e1, ip, t);
    SinceSnoc([], e1, ip);
    BlockedSnoc([e1], e2, ip, t);
    SinceSnoc([e1], e2, ip);
    BlockedSnoc([e1, e2], e3, ip, t);
    RecentOfTwo(t1, t2, t3);
  }

  lemma NothingHappened(ip: string, t: real)
    ensures !Blocked([], ip, t) && Since([], ip) == []
  {
  }

  lemma RecentOfTwo(t1: real, t2: real, t: real)
    requires t1 <= t2
    ensures |Recent([t1, t2], t)| == 2 <==> t - t1 < 360.0
  {
    hide Recent;
    RecentNone(t);
    RecentSnoc([], t1, t);
    RecentSnoc([t1], t2, t);
    assert [] + [t1] == [t1] && [t1] + [t2] == [t1, t2];
  }

  class CircuitBreaker {
    var failures: map<string, seq<real>>
    var blocked: map<string, real>
    ghost var history: seq<Event>
    ghost var clock: real
    ghost var strict: bool     // answers are exact only after `clock`, not at it
    ghost var exact: bool      // no entry was ever evicted

    ghost predicate Valid()
      reads this
    {
      && |failures| <= MAX_ENTRIES && Past(history, clock)
      && Short(failures)
      && (exact ==> Tells(failures, blocked, history, clock, strict))
    }

    /** Clocks do not run backwards. */
    ghost predicate MayRunAt(now: real)
      reads this
    {
      now > clock || (!strict && now == clock)
    }

    constructor ()
      ensures Valid() && exact && history == [] && failures == map[] && blocked == map[] && !strict && clock == 0.0
    {
      failures, blocked, history, clock, strict, exact := map[], map[], [], 0.0, false, true;
    }

    /** is_blocked: as long as nothing was evicted, the answer is the history's. */
    method IsBlocked(ip: string, now: real) returns (r: bool)
      requires Valid() && MayRunAt(now) && now > 0.0
      modifies this`blocked, this`clock, this`strict
      ensures Valid() && clock == now && !strict
      ensures r <==> Bars(old(blocked), ip, now)
      ensures exact ==> (r <==> Blocked(history, ip, now))
      ensures blocked == if r then old(blocked) else old(blocked) - {ip}
    {
      var until := if ip in blocked then blocked[ip] else 0.0;
      var unblocked := now > until;
      assert exact ==> TellsAt(failures, blocked, history, ip, now);
      ghost var before := blocked;
      if unblocked {
        blocked := blocked - {ip};
      }
      clock, strict := now, false;
      r := !unblocked;
      if exact {
        hide Recent, Since, Blocked;
        forall i: string, t: real | t >= now
          ensures TellsAt(failures, blocked, history, i, t)
        {
          assert TellsAt(failures, before, history, i, t);
        }
      }
    }

    /** record_success. */
    method RecordSuccess(ip: string)
      requires Valid()
      modifies this`failures, this`blocked, this`history
      ensures Valid() && history == old(history) + [Success(ip)]
      ensures failures == old(failures) - {ip} && blocked == old(blocked) - {ip}
    {
      hide Recent, Blocked;
      ghost var f, b := failures, blocked;
      MapShrinks(f, ip);
      failures := failures - {ip};
      blocked := blocked - {ip};
      history := history + [Success(ip)];
      if exact {
        forall i: string, t: real | MayRunAt(t)
          ensures TellsAt(failures, blocked, history, i, t)
        {
          assert TellsAt(f, b, old(history), i, t);
          BlockedSnoc(old(history), Success(ip), i, t);
          SinceSnoc(old(history), Success(ip), i);
          RecentNone(t);
        }
      }
    }

    /**
      record_failure; `later` is the clock when it sweeps, a moment after `now`. Only a new address
      beyond MAX_ENTRIES makes it forget one.
     */
    method RecordFailure(ip: string, now: real, later: real)
      requires Valid() && MayRunAt(now) && now <= later
      modifies this
      ensures Valid() && history == old(history) + [Failure(ip, now)] && clock == later && !strict
      ensures exact <==> old(exact) && (ip in old(failures) || |old(failures)| < 500)
      ensures |failures| <= 500 && forall i | i in failures :: 1 <= |failures[i]| <= 2
      ensures forall i | i in failures && i != ip :: i in old(failures) && failures[i] == old(failures)[i]
      ensures forall i | i in blocked && i != ip :: i in old(blocked) && blocked[i] == old(blocked)[i]
    {
      Note(ip, now);
      Prune(later);
    }

    /** The first half of record_failure. */
    method Note(ip: string, now: real)
      requires Valid() && MayRunAt(now)
      modifies this`failures, this`blocked, this`history, this`clock, this`strict
      ensures history == old(history) + [Failure(ip, now)] && Past(history, now) && clock == now && !strict
      ensures Short(failures) && (exact ==> Tells(failures, blocked, history, now, false))
      ensures |failures| <= MAX_ENTRIES + 1
      ensures |failures| > MAX_ENTRIES <==> ip !in old(failures) && |old(failures)| == MAX_ENTRIES
      ensures SameBut(failures, old(failures), ip) && SameBut(blocked, old(blocked), ip)
    {
      hide Recent, Since, Blocked, Tells, Short, SameBut;
      ghost var f, b, h, from, after := failures, blocked, history, clock, strict;
      var times := PruneTimes(TimesOf(failures, ip) + [now], now);
      RecentSnoc(TimesOf(failures, ip), now, now);
      history := history + [Failure(ip, now)];
      if |times| >= FAIL_THRESHOLD {
        blocked := blocked[ip := now + COOLDOWN];
        failures := failures - {ip};
      } else {
        failures := failures[ip := times];
      }
      MapsAfterFailure(f, b, ip, now, failures, blocked);
      strict, clock := false, now;
      if exact {
        AfterFailure(f, b, h, from, after, ip, now, failures, blocked);
      }
    }

    /** _prune: expired blocks go, and beyond the cap the addresses whose last failure is oldest. */
    method Prune(now: real)
      requires clock <= now && |failures| <= MAX_ENTRIES + 1 && Past(history, clock)
      requires Short(failures)
      requires !strict && (exact ==> Tells(failures, blocked, history, clock, strict))
      modifies this`failures, this`blocked, this`clock, this`exact
      ensures Valid() && clock == now
      ensures exact <==> old(exact) && |old(failures)| <= MAX_ENTRIES
      ensures |old(failures)| <= MAX_ENTRIES ==> failures == old(failures)
      ensures |old(failures)| > MAX_ENTRIES ==> |failures| == MAX_ENTRIES
      ensures forall ip | ip in failures :: ip in old(failures) && failures[ip] == old(failures)[ip]
      ensures forall ip, out | ip in failures && out in old(failures) && out !in failures ::
                Max(old(failures)[out]) <= Max(failures[ip])
      ensures blocked == Swept(old(blocked), now)
    {
      hide Max, Tells;
      if exact {
        SweptTells(failures, blocked, history, clock, strict, now);
      }
      blocked := Swept(blocked, now);
      assert Past(history, now);
      clock := now;
      exact := exact && |failures| <= MAX_ENTRIES;
      failures := Evict(failures);
    }

    /** save: what is written to disk. */
    method Save(now: real) returns (s: Snapshot)
      requires Valid() && MayRunAt(now)
      ensures |s.failures| <= MAX_ENTRIES && Short(s.failures)
      ensures exact ==> Tells(s.failures, s.blocked, history, now, false)
    {
      s := Snapshot(Swept(blocked, now), failures);
      if exact {
        SweptTells(failures, blocked, history, clock, strict, now);
      }
    }

    /**
      _load of a snapshot. From then on the breaker answers like the one that was saved; at the very
      moment of loading it does so exactly for the addresses whose block does not end just then.
     */
    constructor Load(s: Snapshot, now: real, ghost h: seq<Event>, ghost saved: real)
      requires |s.failures| <= MAX_ENTRIES && Short(s.failures)
      requires Tells(s.failures, s.blocked, h, saved, false) && Past(h, saved) && saved <= now
      ensures Valid() && exact && history == h && clock == now && strict
      ensures forall ip: string ::
                ((ip in blocked && now <= blocked[ip]) <==> Blocked(h, ip, now))
                <==> !(ip in s.blocked && s.blocked[ip] == now)
    {
      blocked := map ip | ip in s.blocked && now < s.blocked[ip] :: s.blocked[ip];
      failures := RecentFailures(s.failures, now);
      history, clock, strict, exact := h, now, true, true;
      new;
      assert failures.Keys <= s.failures.Keys;
      SmallerMap(failures, s.failures);
      forall i: string, t: real | t > now
        ensures TellsAt(failures, blocked, h, i, t)
      {
        assert TellsAt(s.failures, s.blocked, h, i, t);
        RecentTwice(TimesOf(s.failures, i), now, t);
        TimesOfRecent(s.failures, now, i);
      }
      forall i: string
        ensures (i in s.blocked && now <= s.blocked[i]) <==> Blocked(h, i, now)
      {
        assert TellsAt(s.failures, s.blocked, h, i, now);
      }
    }
  }

  function RecentFailures(failures: map<string, seq<real>>, now: real): map<string, seq<real>> {
    map ip | ip in failures && Recent(failures[ip], now) != [] :: Recent(failures[ip], now)
  }

  lemma TimesOfRecent(failures: map<string, seq<real>>, now: real, ip: string)
    ensures TimesOf(RecentFailures(failures, now), ip) == Recent(TimesOf(failures, ip), now)
  {
  }

  /** The list comprehension of record_failure. */
  method PruneTimes(times: seq<real>, now: real) returns (kept: seq<real>)
    ensures kept == Recent(times, now)
  {
    hide Recent;
    kept := [];
    RecentNone(now);
    assert times[..0] == [];
    for i := 0 to |times|
      invariant kept == Recent(times[..i], now)
    {
      RecentSnoc(times[..i], times[i], now);
      assert times[..i + 1] == times[..i] + [times[i]];
      if now - times[i] < WINDOW {
        kept := kept + [times[i]];
      }
    }
    assert times[..|times|] == times;
  }

  /** The second half of _prune. */
  method Evict(failures: map<string, seq<real>>) returns (kept: map<string, seq<real>>)
    ensures |kept| == if |failures| <= MAX_ENTRIES then |failures| else MAX_ENTRIES
    ensures |failures| <= MAX_ENTRIES ==> kept == failures
    ensures forall ip | ip in kept :: ip in failures && kept[ip] == failures[ip]
    ensures forall ip, out | ip in kept && out in failures && out !in kept :: Max(failures[out]) <= Max(kept[ip])
  {
    kept := failures;
    while |kept| > MAX_ENTRIES
      invariant if |failures| <= MAX_ENTRIES then kept == failures else |kept| >= MAX_ENTRIES
      invariant forall ip | ip in kept :: ip in failures && kept[ip] == failures[ip]
      invariant forall ip, out | ip in kept && out in failures && out !in kept :: Max(failures[out]) <= Max(kept[ip])
      decreases |kept|
    {
      var oldest := Oldest(kept);
      assert |kept.Keys - {oldest}| == |kept.Keys| - 1;
      assert (kept - {oldest}).Keys == kept.Keys - {oldest};
      kept := kept - {oldest};
    }
  }

  /** The address whose newest failure is oldest. */
  method Oldest(failures: map<string, seq<real>>) returns (oldest: string)
    requires |failures| > 0
    ensures oldest in failures
    ensures forall ip | ip in failures :: Max(failures[oldest]) <= Max(failures[ip])
  {
    var left := failures.Keys;
    oldest :| oldest in left;
    left := left - {oldest};
    while left != {}
      invariant left <= failures.Keys && oldest in failures
      invariant forall ip | ip in failures && ip !in left :: Max(failures[oldest]) <= Max(failures[ip])
    {
      var ip :| ip in left;
      left := left - {ip};
      if Max(failures[ip]) < Max(failures[oldest]) {
        oldest := ip;
      }
    }
  }

  /** What record_failure makes of the two maps before its sweep. */
  predicate Noted(f: map<string, seq<real>>, b: map<string, real>, ip: string, now: real,
                  f': map<string, seq<real>>, b': map<string, real>) {
    var times := Recent(TimesOf(f, ip), now) + [now];
    if |times| >= FAIL_THRESHOLD then f' == f - {ip} && b' == b[ip := now + COOLDOWN]
    else f' == f[ip := times] && b' == b
  }

  lemma MapsAfterFailure(f: map<string, seq<real>>, b: map<string, real>, ip: string, now: real,
                         f': map<string, seq<real>>, b': map<string, real>)
    requires Short(f) && |f| <= MAX_ENTRIES && Noted(f, b, ip, now, f', b')
    ensures Short(f') && SameBut(f', f, ip) && SameBut(b', b, ip)
    ensures |f'| <= MAX_ENTRIES + 1
    ensures |f'| > MAX_ENTRIES <==> ip !in f && |f| == MAX_ENTRIES
  {
    MapGrows(f, ip, Recent(TimesOf(f, ip), now) + [now]);
    MapShrinks(f, ip);
  }

  /** The maps after a failure tell what the longer history says. */
  lemma AfterFailure(f: map<string, seq<real>>, b: map<string, real>, h: seq<Event>, from: real, strict: bool,
                     ip: string, now: real, f': map<string, seq<real>>, b': map<string, real>)
    requires Tells(f, b, h, from, strict) && (now > from || (!strict && now == from))
    requires Past(h, now)
    requires Noted(f, b, ip, now, f', b')
    ensures Tells(f', b', h + [Failure(ip, now)], now, false)
  {
    var e := Failure(ip, now);
    hide Recent, Since, Blocked;
    assert TellsAt(f, b, h, ip, now);
    RecentSnoc(TimesOf(f, ip), now, now);
    forall i: string, t: real | t >= now
      ensures TellsAt(f', b', h + [e], i, t)
    {
      assert TellsAt(f, b, h, i, t);
      BlockedSnoc(h, e, i, t);
      SinceSnoc(h, e, i);
      if i == ip {
        BlockedSoonEnds(h, ip, t, now);
        RecentTwice(TimesOf(f, ip), now, t);
        RecentTwice(Since(h, ip), now, t);
        RecentSnoc(Recent(TimesOf(f, ip), now), now, t);
        RecentSnoc(Since(h, ip), now, t);
        RecentNone(t);
      }
    }
  }

  lemma RecentNone(t: real)
    ensures Recent([], t) == []
  {
  }

  /** No block outlasts the cooldown. */
  lemma BlockedSoonEnds(h: seq<Event>, ip: string, t: real, now: real)
    requires Past(h, now)
    ensures Blocked(h, ip, t) ==> t <= now + COOLDOWN
  {
  }
}
