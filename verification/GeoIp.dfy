/** The interval index of client/core/geoip.py. */
module GeoIp {
  import opened Arithmetic
  import opened Bytes
  import opened Sorting

  function Pow2(k: nat): (p: nat)
    ensures p > 0
  {
    if k == 0 then 1 else 2 * Pow2(k - 1)
  }

  /** An IPv4 network in prefix notation (section 3.1 of RFC 4632); host bits may be set. */
  datatype Cidr = Cidr(address: nat, prefix: nat) {
    predicate Valid() {
      address < UINT32 && prefix <= 32
    }

    function Size(): (n: nat)
      requires Valid()
      ensures n > 0
    {
      Pow2(32 - prefix)
    }

    /** The address shares the network's first `prefix` bits. */
    predicate Contains(ip: nat)
      requires Valid()
    {
      Block(ip, Size()) == Block(address, Size())
    }

    function Network(): nat
      requires Valid()
    {
      BlockStart(address, Size())
    }

    function Broadcast(): nat
      requires Valid()
    {
      Network() + Size() - 1
    }

    lemma ContainsRange(ip: nat)
      requires Valid()
      ensures Contains(ip) <==> Network() <= ip <= Broadcast()
    {
      hide Block, BlockStart, Size;
      BlockRange(ip, address, Size());
    }
  }

  /** A network of prefix 32 is one address, */
  lemma OneAddress(a: nat, ip: nat)
    requires a < 4294967296
    ensures Cidr(a, 32).Contains(ip) <==> ip == a
  {
    assert Cidr(a, 32).Size() == 1;
  }

  /** and dropping the last bit takes every network to the one with a prefix longer by one. */
  lemma PrefixGrows(a: nat, prefix: nat, ip: nat)
    requires a < 4294967296 && prefix < 32
    ensures Cidr(a, prefix).Contains(ip) <==> Cidr(a / 2, prefix + 1).Contains(ip / 2)
  {
    var n := Cidr(a / 2, prefix + 1).Size();
    assert Cidr(a, prefix).Size() == 2 * n;
    hide Pow2, Cidr.Size, Block;
    BlockHalves(a, n);
    BlockHalves(ip, n);
  }

  ghost predicate AllValid(cidrs: seq<Cidr>) {
    forall c | c in cidrs :: c.Valid()
  }

  /** The reference: a linear scan over the networks. */
  ghost predicate InAny(cidrs: seq<Cidr>, ip: nat)
    requires AllValid(cidrs)
  {
    exists c :: c in cidrs && c.Contains(ip)
  }

  type Interval = (nat, nat)

  function Before(a: Interval, b: Interval): bool {
    a.0 < b.0 || (a.0 == b.0 && a.1 <= b.1)
  }

  ghost predicate InSome(intervals: seq<Interval>, x: nat) {
    exists i :: 0 <= i < |intervals| && intervals[i].0 <= x <= intervals[i].1
  }

  ghost predicate Covers(starts: seq<nat>, ends: seq<nat>, x: nat)
    requires |starts| == |ends|
  {
    exists i :: 0 <= i < |starts| && starts[i] <= x <= ends[i]
  }

  /** Non-empty intervals in increasing order with at least one free address between neighbours. */
  ghost predicate Canonical(starts: seq<nat>, ends: seq<nat>) {
    && |starts| == |ends|
    && (forall i | 0 <= i < |starts| :: starts[i] <= ends[i])
    && (forall i, j | 0 <= i < j < |starts| :: ends[i] + 1 < starts[j])
  }

  /** bisect.bisect_right. */
  method BisectRight(a: seq<nat>, x: nat) returns (i: nat)
    requires forall j, k | 0 <= j < k < |a| :: a[j] <= a[k]
    ensures i <= |a|
    ensures forall k | 0 <= k < i :: a[k] <= x
    ensures forall k | i <= k < |a| :: x < a[k]
  {
    var lo, hi := 0, |a|;
    while lo < hi
      invariant 0 <= lo <= hi <= |a|
      invariant forall k | 0 <= k < lo :: a[k] <= x
      invariant forall k | hi <= k < |a| :: x < a[k]
    {
      var mid := (lo + hi) / 2;
      if x < a[mid] {
        hi := mid;
      } else {
        lo := mid + 1;
      }
    }
    i := lo;
  }

  lemma CoversSnoc(starts: seq<nat>, ends: seq<nat>, s: nat, e: nat, x: nat)
    requires |starts| == |ends|
    ensures Covers(starts + [s], ends + [e], x) <==> Covers(starts, ends, x) || s <= x <= e
  {
    var n := |starts|;
    assert (starts + [s])[n] == s && (ends + [e])[n] == e;
    if Covers(starts, ends, x) {
      var i :| 0 <= i < n && starts[i] <= x <= ends[i];
      assert (starts + [s])[i] == starts[i] && (ends + [e])[i] == ends[i];
    }
  }

  /** Merging a sorted interval into the last one adds exactly its addresses. */
  lemma CoversMerged(starts: seq<nat>, ends: seq<nat>, s: nat, e: nat, x: nat)
    requires Canonical(starts, ends) && |ends| > 0
    requires starts[|starts| - 1] <= s <= ends[|ends| - 1] + 1 && s <= e
    ensures var n := |ends| - 1;
            Covers(starts, ends[n := if e > ends[n] then e else ends[n]], x) <==> Covers(starts, ends, x) || s <= x <= e
  {
    var n := |ends| - 1;
    var top := if e > ends[n] then e else ends[n];
    var merged := ends[n := top];
    if Covers(starts, ends, x) {
      var i :| 0 <= i < |starts| && starts[i] <= x <= ends[i];
      assert starts[i] <= x <= merged[i];
    }
    if s <= x <= e {
      assert starts[n] <= x <= merged[n];
    }
    if Covers(starts, merged, x) {
      var i :| 0 <= i < |starts| && starts[i] <= x <= merged[i];
      if i < n || x <= ends[n] {
        assert starts[i] <= x <= ends[i];
      }
    }
  }

  lemma InSomeSnoc(intervals: seq<Interval>, k: nat, x: nat)
    requires k < |intervals|
    ensures InSome(intervals[..k + 1], x) <==> InSome(intervals[..k], x) || intervals[k].0 <= x <= intervals[k].1
  {
    assert intervals[..k + 1][k] == intervals[k];
    if InSome(intervals[..k], x) {
      var i :| 0 <= i < k && intervals[..k][i].0 <= x <= intervals[..k][i].1;
      assert intervals[..k + 1][i] == intervals[..k][i];
    }
    if InSome(intervals[..k + 1], x) {
      var i :| 0 <= i < k + 1 && intervals[..k + 1][i].0 <= x <= intervals[..k + 1][i].1;
      if i < k {
        assert intervals[..k][i] == intervals[..k + 1][i];
      }
    }
  }

  /** Two lists with the same elements contain the same addresses. */
  lemma InSomePermuted(a: seq<Interval>, b: seq<Interval>, x: nat)
    requires multiset(a) == multiset(b)
    ensures InSome(a, x) ==> InSome(b, x)
  {
    if InSome(a, x) {
      var i :| 0 <= i < |a| && a[i].0 <= x <= a[i].1;
      assert a[i] in multiset(b);
      var j :| 0 <= j < |b| && b[j] == a[i];
      assert b[j].0 <= x <= b[j].1;
    }
  }

  class IntervalSet {
    var starts: seq<nat>
    var ends: seq<nat>

    constructor (cidrs: seq<Cidr>)
      requires AllValid(cidrs)
      ensures Canonical(starts, ends)
      ensures forall ip: nat :: Covers(starts, ends, ip) <==> InAny(cidrs, ip)
    {
      starts, ends := [], [];
      new;
      Rebuild(cidrs);
    }

    /** Collapses the networks into the canonical form of what they cover. */
    method Rebuild(cidrs: seq<Cidr>)
      requires AllValid(cidrs)
      modifies this
      ensures Canonical(starts, ends)
      ensures forall ip: nat :: Covers(starts, ends, ip) <==> InAny(cidrs, ip)
    {
      var intervals := Intervals(cidrs);
      var sorted := StableSort(intervals, Before);
      SortSorts(intervals, Before);
      forall i | 0 <= i < |sorted|
        ensures sorted[i].0 <= sorted[i].1
      {
        assert sorted[i] in multiset(intervals);
      }
      starts, ends := MergeSorted(sorted);
      forall ip: nat
        ensures Covers(starts, ends, ip) <==> InAny(cidrs, ip)
      {
        InSomePermuted(sorted, intervals, ip);
        InSomePermuted(intervals, sorted, ip);
      }
    }

    /** Whether an address belongs to the set; text that is no address (None) belongs to no set. */
    method Contains(ip: Option<nat>) returns (found: bool)
      requires Canonical(starts, ends)
      ensures found <==> ip.Some? && Covers(starts, ends, ip.value)
    {
      if ip.None? {
        return false;
      }
      var i := BisectRight(starts, ip.value);
      return i >= 1 && ip.value <= ends[i - 1];
    }
  }

  method Intervals(cidrs: seq<Cidr>) returns (intervals: seq<Interval>)
    requires AllValid(cidrs)
    ensures forall i | 0 <= i < |intervals| :: intervals[i].0 <= intervals[i].1
    ensures forall ip: nat :: InSome(intervals, ip) <==> InAny(cidrs, ip)
  {
    intervals := [];
    for k := 0 to |cidrs|
      invariant |intervals| == k
      invariant forall i | 0 <= i < k :: intervals[i] == (cidrs[i].Network(), cidrs[i].Broadcast())
    {
      intervals := intervals + [(cidrs[k].Network(), cidrs[k].Broadcast())];
    }
    forall ip: nat
      ensures InSome(intervals, ip) <==> InAny(cidrs, ip)
    {
      forall c | c in cidrs
        ensures c.Contains(ip) <==> c.Network() <= ip <= c.Broadcast()
      {
        c.ContainsRange(ip);
      }
      if InSome(intervals, ip) {
        var i :| 0 <= i < |intervals| && intervals[i].0 <= ip <= intervals[i].1;
        assert cidrs[i] in cidrs && cidrs[i].Contains(ip);
      }
      if InAny(cidrs, ip) {
        var c :| c in cidrs && c.Contains(ip);
        var i :| 0 <= i < |cidrs| && cidrs[i] == c;
        assert intervals[i].0 <= ip <= intervals[i].1;
      }
    }
  }

  /** The merge loop of rebuild: overlapping and adjacent intervals become one. */
  method MergeSorted(sorted: seq<Interval>) returns (starts: seq<nat>, ends: seq<nat>)
    requires forall i, j | 0 <= i < j < |sorted| :: sorted[i].0 <= sorted[j].0
    requires forall i | 0 <= i < |sorted| :: sorted[i].0 <= sorted[i].1
    ensures Canonical(starts, ends)
    ensures forall x: nat :: Covers(starts, ends, x) <==> InSome(sorted, x)
  {
    hide InSome;
    starts, ends := [], [];
    NothingCovered();
    assert sorted[..0] == [];
    for k := 0 to |sorted|
      invariant Canonical(starts, ends)
      invariant |starts| > 0 ==> k > 0 && starts[|starts| - 1] <= sorted[k - 1].0
      invariant forall x: nat :: Covers(starts, ends, x) <==> InSome(sorted[..k], x)
    {
      var (s, e) := sorted[k];
      ghost var oldStarts, oldEnds := starts, ends;
      if |ends| > 0 && s <= ends[|ends| - 1] + 1 {
        if e > ends[|ends| - 1] {
          ends := ends[|ends| - 1 := e];
        }
      } else {
        starts := starts + [s];
        ends := ends + [e];
      }
      forall x: nat
        ensures Covers(starts, ends, x) <==> InSome(sorted[..k + 1], x)
      {
        InSomeSnoc(sorted, k, x);
        if |oldEnds| > 0 && s <= oldEnds[|oldEnds| - 1] + 1 {
          CoversMerged(oldStarts, oldEnds, s, e, x);
        } else {
          CoversSnoc(oldStarts, oldEnds, s, e, x);
        }
      }
    }
    assert sorted[..|sorted|] == sorted;
  }

  lemma NothingCovered()
    ensures forall x: nat :: !Covers([], [], x) && !InSome([], x)
  {
  }

  lemma CoversTail(starts: seq<nat>, ends: seq<nat>, x: nat)
    requires Canonical(starts, ends) && |starts| > 0
    ensures Covers(starts[1..], ends[1..], x) <==> Covers(starts, ends, x) && x > ends[0]
  {
    if Covers(starts[1..], ends[1..], x) {
      var i :| 0 <= i < |starts| - 1 && starts[1..][i] <= x <= ends[1..][i];
      assert starts[i + 1] <= x <= ends[i + 1];
    }
    if Covers(starts, ends, x) && x > ends[0] {
      var i :| 0 <= i < |starts| && starts[i] <= x <= ends[i];
      assert starts[1..][i - 1] <= x <= ends[1..][i - 1];
    }
  }

  /** The first interval of a canonical form is determined by what the form covers. */
  lemma FirstInterval(starts: seq<nat>, ends: seq<nat>, starts': seq<nat>, ends': seq<nat>)
    requires Canonical(starts, ends) && Canonical(starts', ends') && |starts| > 0
    requires forall x: nat :: Covers(starts, ends, x) <==> Covers(starts', ends', x)
    ensures |starts'| > 0 && starts'[0] <= starts[0] && (starts'[0] == starts[0] ==> ends'[0] >= ends[0])
  {
    assert Covers(starts, ends, starts[0]);
    var i :| 0 <= i < |starts'| && starts'[i] <= starts[0] <= ends'[i];
    if starts'[0] == starts[0] && ends'[0] < ends[0] {
      var x := ends'[0] + 1;
      assert starts[0] <= x <= ends[0];
      assert Covers(starts, ends, x);
      var j :| 0 <= j < |starts'| && starts'[j] <= x <= ends'[j];
    }
  }

  lemma CanonicalTail(starts: seq<nat>, ends: seq<nat>)
    requires Canonical(starts, ends) && |starts| > 0
    ensures Canonical(starts[1..], ends[1..]) && |starts| == |ends|
  {
  }

  /** Once the first intervals are taken off, the rest covers the same again. */
  lemma TailsAgree(starts: seq<nat>, ends: seq<nat>, starts': seq<nat>, ends': seq<nat>)
    requires Canonical(starts, ends) && Canonical(starts', ends')
    requires |starts| > 0 && |starts'| > 0 && ends[0] == ends'[0]
    requires forall x: nat :: Covers(starts, ends, x) <==> Covers(starts', ends', x)
    ensures forall x: nat :: Covers(starts[1..], ends[1..], x) <==> Covers(starts'[1..], ends'[1..], x)
  {
    CanonicalTail(starts, ends);
    CanonicalTail(starts', ends');
    hide Covers, Canonical;
    forall x: nat
      ensures Covers(starts[1..], ends[1..], x) <==> Covers(starts'[1..], ends'[1..], x)
    {
      CoversTail(starts, ends, x);
      CoversTail(starts', ends', x);
    }
  }

  /** Equal coverage means identical arrays. */
  lemma {:induction false} CanonicalFormIsUnique(starts: seq<nat>, ends: seq<nat>, starts': seq<nat>, ends': seq<nat>)
    requires Canonical(starts, ends) && Canonical(starts', ends')
    requires forall x: nat :: Covers(starts, ends, x) <==> Covers(starts', ends', x)
    ensures starts == starts' && ends == ends'
  {
    hide Covers;
    if starts == [] && starts' == [] {
    } else if starts == [] {
      FirstInterval(starts', ends', starts, ends);
    } else {
      FirstInterval(starts, ends, starts', ends');
      FirstInterval(starts', ends', starts, ends);
      TailsAgree(starts, ends, starts', ends');
      CanonicalTail(starts, ends);
      CanonicalTail(starts', ends');
      hide Canonical;
      CanonicalFormIsUnique(starts[1..], ends[1..], starts'[1..], ends'[1..]);
      assert starts == [starts[0]] + starts[1..] && ends == [ends[0]] + ends[1..];
      assert starts' == [starts'[0]] + starts'[1..] && ends' == [ends'[0]] + ends'[1..];
    }
  }

  /** Two lists of networks with the same addresses are indexed by the same arrays. */
  method SameAddressesSameIndex(a: seq<Cidr>, b: seq<Cidr>) returns (x: IntervalSet, y: IntervalSet)
    requires AllValid(a) && AllValid(b)
    requires forall ip: nat :: InAny(a, ip) <==> InAny(b, ip)
    ensures x.starts == y.starts && x.ends == y.ends
  {
    x := new IntervalSet(a);
    y := new IntervalSet(b);
    CanonicalFormIsUnique(x.starts, x.ends, y.starts, y.ends);
  }

  /** The bundled ranges and their index, as module state. */
  class GeoDatabase {
    var ranges: seq<Cidr>
    const index: IntervalSet

    ghost predicate Valid()
      reads this, index
    {
      && AllValid(ranges)
      && Canonical(index.starts, index.ends)
      && forall ip: nat :: Covers(index.starts, index.ends, ip) <==> InAny(ranges, ip)
    }

    constructor (ranges: seq<Cidr>)
      requires AllValid(ranges)
      ensures Valid() && this.ranges == ranges
    {
      this.ranges := ranges;
      index := new IntervalSet(ranges);
    }

    /** is_china_ip: the index answers like a scan over the ranges. */
    method Lookup(ip: Option<nat>) returns (found: bool)
      requires Valid()
      ensures found <==> ip.Some? && exists c :: c in ranges && c.Contains(ip.value)
    {
      found := index.Contains(ip);
    }

    /**
      load_china_ip_list on the lines of a file, comments and blanks already dropped; None is a line
      that is no network and is skipped. Afterwards the index covers the union, no more and no less.
     */
    method Load(lines: seq<Option<Cidr>>) returns (count: nat)
      requires Valid() && forall l | l in lines && l.Some? :: l.value.Valid()
      modifies this, index
      ensures Valid() && |ranges| == |old(ranges)| + count && old(ranges) <= ranges
      ensures forall ip: nat :: InAny(ranges, ip) <==>
                InAny(old(ranges), ip) || exists l :: l in lines && l.Some? && l.value.Contains(ip)
      ensures count == 0 ==> index.starts == old(index.starts) && index.ends == old(index.ends)
    {
      var added: seq<Cidr> := [];
      for k := 0 to |lines|
        invariant AllValid(added) && |added| <= k
        invariant forall c :: c in added <==> Some(c) in lines[..k]
      {
        assert lines[..k + 1] == lines[..k] + [lines[k]];
        if lines[k].Some? {
          assert lines[k] in lines;
          added := added + [lines[k].value];
        }
      }
      assert lines[..|lines|] == lines;
      count := |added|;
      ghost var before := ranges;
      if count > 0 {
        ranges := ranges + added;
        var rebuilt := new IntervalSet(ranges);
        index.starts, index.ends := rebuilt.starts, rebuilt.ends;
      }
      forall ip: nat
        ensures InAny(ranges, ip) <==> InAny(before, ip) || exists l :: l in lines && l.Some? && l.value.Contains(ip)
      {
        if l :| l in lines && l.Some? && l.value.Contains(ip) {
          assert Some(l.value) in lines && l.value in added && l.value in ranges;
        }
        if InAny(ranges, ip) {
          var c :| c in ranges && c.Contains(ip);
          assert c in before || Some(c) in lines;
        }
      }
    }
  }
}
