/** The routing rules of client/core/rule_engine.py. */
module RuleEngine {
  import opened Bytes
  import opened GeoIp
  import opened Sorting

  datatype Action = Direct | Proxy | Block

  /** A rule; the pattern is a domain pattern, or the network of an IP rule (None: text that is no network). */
  datatype Rule<P> = Rule(pattern: P, action: Action, priority: int, enabled: bool)

  datatype Address = V4(value: nat) | V6(value: nat)

  /** A host string, and the address it spells if it spells one. */
  datatype Host = Host(text: string, address: Option<Address>)

  // ---------------------------------------------------------------------------------------------
  // Matching one rule

  function LowerChar(c: char): char {
    if 'A' <= c <= 'Z' then c - 'A' + 'a' else c
  }

  function Lower(s: string): (r: string)
    ensures |r| == |s|
  {
    seq(|s|, i requires 0 <= i < |s| => LowerChar(s[i]))
  }

  predicate EndsWith<T(==)>(s: seq<T>, suffix: seq<T>) {
    |suffix| <= |s| && s[|s| - |suffix|..] == suffix
  }

  /** DomainRule.matches. */
  predicate DomainMatches(rule: Rule<string>, host: string) {
    var h, p := Lower(host), Lower(rule.pattern);
    if !rule.enabled then false
    else if '*' in p then
      if "*." <= p then h == p[2..] || EndsWith(h, p[1..]) else h == p
    else h == p
  }

  /** IpCidrRule.matches. */
  predicate IpMatches(rule: Rule<Option<Cidr>>, a: Option<Address>) {
    && rule.enabled && a.Some? && a.value.V4?
    && rule.pattern.Some? && rule.pattern.value.Valid() && rule.pattern.value.Contains(a.value.value)
  }

  /** A disabled rule matches nothing; an IP rule matches the IPv4 addresses of its network and nothing else. */
  lemma WhatRulesMatch(name: Rule<string>, ip: Rule<Option<Cidr>>, host: string, a: Option<Address>, v: nat)
    ensures !name.enabled ==> !DomainMatches(name, host)
    ensures !ip.enabled || ip.pattern.None? || a.None? || a.value.V6? ==> !IpMatches(ip, a)
    ensures ip.enabled && ip.pattern.Some? && ip.pattern.value.Valid() ==>
              (IpMatches(ip, Some(V4(v))) <==> ip.pattern.value.Contains(v))
  {
  }

  /** The two names are the same but for the case of letters. */
  ghost predicate SameButCase(a: string, b: string) {
    |a| == |b| && forall i | 0 <= i < |a| ::
      || a[i] == b[i]
      || ('A' <= a[i] <= 'Z' && b[i] as int == a[i] as int + 32)
      || ('A' <= b[i] <= 'Z' && a[i] as int == b[i] as int + 32)
  }

  /** Letter case makes no difference, in the host or in the pattern. */
  lemma CaseIsIgnored(rule: Rule<string>, pattern: string, a: string, b: string)
    requires SameButCase(a, b) && SameButCase(rule.pattern, pattern)
    ensures DomainMatches(rule, a) <==> DomainMatches(rule, b)
    ensures DomainMatches(rule, a) <==> DomainMatches(rule.(pattern := pattern), a)
  {
    assert Lower(a) == Lower(b) && Lower(rule.pattern) == Lower(pattern);
  }

  /** The labels of a domain name, between the dots. */
  function Labels(s: string): (r: seq<string>)
    ensures |r| > 0
  {
    if s == "" then [""] else Push(s[0], Labels(s[1..]))
  }

  function Push(c: char, labels: seq<string>): (r: seq<string>)
    requires |labels| > 0
    ensures |r| > 0
  {
    if c == '.' then [""] + labels else [[c] + labels[0]] + labels[1..]
  }

  function Dotted(labels: seq<string>): string
    requires |labels| > 0
  {
    if |labels| == 1 then labels[0] else labels[0] + ("." + Dotted(labels[1..]))
  }

  lemma DottedCons(first: string, rest: seq<string>)
    ensures Dotted([first] + rest) == if rest == [] then first else first + ("." + Dotted(rest))
  {
    assert ([first] + rest)[1..] == rest;
  }

  lemma DottedPush(c: char, labels: seq<string>)
    requires |labels| > 0
    ensures Dotted(Push(c, labels)) == [c] + Dotted(labels)
  {
    hide Dotted;
    var first, rest := labels[0], labels[1..];
    assert labels == [first] + rest;
    DottedCons("", labels);
    DottedCons(first, rest);
    DottedCons([c] + first, rest);
    if rest != [] {
      Regroup([c], first, "." + Dotted(rest));
    }
    assert "" + ("." + Dotted(labels)) == "." + Dotted(labels);
  }

  lemma {:induction false} DottedLabels(s: string)
    ensures Dotted(Labels(s)) == s
  {
    if s != "" {
      DottedLabels(s[1..]);
      DottedPush(s[0], Labels(s[1..]));
      hide Dotted, Push;
      assert s == [s[0]] + s[1..];
    }
  }

  lemma PushDot(labels: seq<string>)
    requires |labels| > 0
    ensures Push('.', labels) == [""] + labels
  {
  }

  lemma PushAppend(c: char, a: seq<string>, b: seq<string>)
    requires |a| > 0
    ensures Push(c, a + b) == Push(c, a) + b
  {
    assert (a + b)[1..] == a[1..] + b;
  }

  lemma {:induction false} LabelsAppend(a: string, b: string)
    ensures Labels(a + "." + b) == Labels(a) + Labels(b)
  {
    hide Push;
    var s := a + "." + b;
    if a == "" {
      assert s == "." + b && s[1..] == b && s[0] == '.';
      assert Push('.', Labels(b)) == [""] + Labels(b) by { PushDot(Labels(b)); }
    } else {
      assert s[1..] == a[1..] + "." + b && s[0] == a[0] && s != "";
      LabelsAppend(a[1..], b);
      PushAppend(a[0], Labels(a[1..]), Labels(b));
    }
  }

  lemma {:induction false} DottedAppend(a: seq<string>, b: seq<string>)
    requires |a| > 0 && |b| > 0
    ensures Dotted(a + b) == Dotted(a) + ("." + Dotted(b))
  {
    hide Dotted;
    assert a == [a[0]] + a[1..] && a + b == [a[0]] + (a[1..] + b);
    DottedCons(a[0], a[1..]);
    DottedCons(a[0], a[1..] + b);
    if |a| > 1 {
      DottedAppend(a[1..], b);
      Regroup(".", Dotted(a[1..]), "." + Dotted(b));
      Regroup(a[0], "." + Dotted(a[1..]), "." + Dotted(b));
    } else {
      assert a[1..] + b == b;
    }
  }

  /** A pattern *.d matches exactly the names whose last labels are those of d; any other pattern only itself. */
  lemma MatchesWholeLabels(rule: Rule<string>, host: string)
    ensures var h, p := Lower(host), Lower(rule.pattern);
            DomainMatches(rule, host) <==>
            rule.enabled && if "*." <= p then EndsWith(Labels(h), Labels(p[2..])) else h == p
  {
    hide Labels, Dotted, Lower;
    var h, p := Lower(host), Lower(rule.pattern);
    if "*." <= p {
      assert p[0] == '*';
      var d := p[2..];
      assert p[1..] == "." + d;
      if EndsWith(h, "." + d) {
        var a := h[..|h| - |d| - 1];
        assert h == a + "." + d;
        LabelsAppend(a, d);
      }
      if EndsWith(Labels(h), Labels(d)) {
        var front := Labels(h)[..|Labels(h)| - |Labels(d)|];
        assert Labels(h) == front + Labels(d);
        DottedLabels(h);
        DottedLabels(d);
        if front == [] {
          assert Labels(h) == Labels(d);
        } else {
          DottedAppend(front, Labels(d));
          assert h == Dotted(front) + ("." + d);
        }
      }
    }
  }

  // ---------------------------------------------------------------------------------------------
  // Rule lists

  /** sorted(…, key=priority, reverse=True) keeps the order of equals. */
  function ByPriority<P>(a: Rule<P>, b: Rule<P>): bool {
    a.priority >= b.priority
  }

  /** A rule and when it was added. */
  datatype Held<P> = Held(rule: Rule<P>, born: nat)

  function HeldByPriority<P>(a: Held<P>, b: Held<P>): bool {
    a.rule.priority >= b.rule.priority
  }

  /** a goes before b: a higher priority, or the same and added earlier. */
  predicate Precedes<P>(a: Held<P>, b: Held<P>) {
    a.rule.priority > b.rule.priority || (a.rule.priority == b.rule.priority && a.born < b.born)
  }

  ghost predicate InOrder<P>(h: seq<Held<P>>) {
    forall i, j | 0 <= i < j < |h| :: Precedes(h[i], h[j])
  }

  ghost predicate BornBefore<P>(h: seq<Held<P>>, t: nat) {
    forall e | e in h :: e.born < t
  }

  function Rules<P>(h: seq<Held<P>>): (r: seq<Rule<P>>)
    ensures |r| == |h|
  {
    seq(|h|, i requires 0 <= i < |h| => h[i].rule)
  }

  /** Rules numbered from t in the order given. */
  function Numbered<P>(rules: seq<Rule<P>>, t: nat): (h: seq<Held<P>>)
    ensures |h| == |rules|
  {
    seq(|rules|, i requires 0 <= i < |rules| => Held(rules[i], t + i))
  }

  lemma InsertElements<P(!new)>(h: seq<Held<P>>, x: Held<P>)
    ensures forall e :: e in Insert(h, x, HeldByPriority) <==> e == x || e in h
  {
    assert forall e :: e in Insert(h, x, HeldByPriority) <==> e in multiset(Insert(h, x, HeldByPriority));
    assert forall e :: e in h <==> e in multiset(h);
  }

  lemma InOrderSnoc<P>(h: seq<Held<P>>, x: Held<P>)
    requires InOrder(h) && forall e | e in h :: Precedes(e, x)
    ensures InOrder(h + [x])
  {
  }

  lemma {:induction false} InsertInOrder<P(!new)>(h: seq<Held<P>>, x: Held<P>)
    requires InOrder(h) && BornBefore(h, x.born)
    ensures InOrder(Insert(h, x, HeldByPriority)) && BornBefore(Insert(h, x, HeldByPriority), x.born + 1)
  {
    InsertElements(h, x);
    if h != [] && !HeldByPriority(h[|h| - 1], x) {
      var init, last := h[..|h| - 1], h[|h| - 1];
      assert forall e | e in init :: Precedes(e, last);
      assert Insert(h, x, HeldByPriority) == Insert(init, x, HeldByPriority) + [last];
      hide Insert;
      InsertInOrder(init, x);
      InsertElements(init, x);
      InOrderSnoc(Insert(init, x, HeldByPriority), last);
    } else {
      assert forall i | 0 <= i < |h| - 1 :: Precedes(h[i], h[|h| - 1]);
      assert forall e | e in h :: Precedes(e, x);
      InOrderSnoc(h, x);
    }
  }

  lemma {:induction false} InsertHeld<P>(h: seq<Held<P>>, x: Held<P>)
    ensures Rules(Insert(h, x, HeldByPriority)) == Insert(Rules(h), x.rule, ByPriority)
  {
    if h != [] && !HeldByPriority(h[|h| - 1], x) {
      var init, last := h[..|h| - 1], h[|h| - 1];
      InsertHeld(init, x);
      assert Rules(h)[..|h| - 1] == Rules(init);
      assert Rules(Insert(init, x, HeldByPriority) + [last]) == Rules(Insert(init, x, HeldByPriority)) + [last.rule];
    } else {
      assert Rules(h + [x]) == Rules(h) + [x.rule];
    }
  }

  lemma {:induction false} SortHeld<P(!new)>(rules: seq<Rule<P>>, t: nat)
    ensures var r := StableSort(Numbered(rules, t), HeldByPriority);
            InOrder(r) && BornBefore(r, t + |rules|) && Rules(r) == StableSort(rules, ByPriority)
  {
    if rules != [] {
      var init, last := rules[..|rules| - 1], Held(rules[|rules| - 1], t + |rules| - 1);
      assert Numbered(rules, t)[..|rules| - 1] == Numbered(init, t) && Numbered(rules, t)[|rules| - 1] == last;
      var sorted := StableSort(Numbered(init, t), HeldByPriority);
      assert StableSort(Numbered(rules, t), HeldByPriority) == Insert(sorted, last, HeldByPriority);
      assert StableSort(rules, ByPriority) == Insert(StableSort(init, ByPriority), last.rule, ByPriority);
      hide StableSort, Insert, Numbered, InOrder, Rules;
      SortHeld(init, t);
      InsertInOrder(sorted, last);
      InsertHeld(sorted, last);
    }
  }

  /** One more rule. */
  lemma AddHeld<P(!new)>(h: seq<Held<P>>, rule: Rule<P>, t: nat)
    requires InOrder(h) && BornBefore(h, t)
    ensures var r := Insert(h, Held(rule, t), HeldByPriority);
            InOrder(r) && BornBefore(r, t + 1) && Rules(r) == StableSort(Rules(h) + [rule], ByPriority)
  {
    OrderedIsSorted(h);
    SortKeepsSorted(Rules(h), ByPriority);
    SortSnoc(Rules(h), rule, ByPriority);
    InsertInOrder(h, Held(rule, t));
    InsertHeld(h, Held(rule, t));
  }

  lemma OrderedIsSorted<P>(h: seq<Held<P>>)
    requires InOrder(h)
    ensures Sorted(Rules(h), ByPriority)
  {
    forall i, j | 0 <= i < j < |h|
      ensures ByPriority(Rules(h)[i], Rules(h)[j])
    {
      assert Precedes(h[i], h[j]);
    }
  }

  /** What adding the rules one at a time makes of the empty list. */
  function AddedOneByOne<P>(rules: seq<Rule<P>>): seq<Rule<P>> {
    if rules == [] then [] else
    StableSort(AddedOneByOne(rules[..|rules| - 1]) + [rules[|rules| - 1]], ByPriority)
  }

  /** It is what one stable sort makes of them all. */
  lemma {:induction false} OneByOneIsOneSort<P(!new)>(rules: seq<Rule<P>>)
    ensures AddedOneByOne(rules) == StableSort(rules, ByPriority)
  {
    if rules != [] {
      var init, last := rules[..|rules| - 1], rules[|rules| - 1];
      OneByOneIsOneSort(init);
      SortSorts(init, ByPriority);
      SortKeepsSorted(StableSort(init, ByPriority), ByPriority);
      SortSnoc(StableSort(init, ByPriority), last, ByPriority);
    }
  }

  // ---------------------------------------------------------------------------------------------
  // Searching the lists

  function FirstMatch<P>(rules: seq<Rule<P>>, matches: Rule<P> -> bool): Option<Action> {
    if rules == [] then None
    else if matches(rules[0]) then Some(rules[0].action)
    else FirstMatch(rules[1..], matches)
  }

  /** Rule k matches, and goes before every other rule that does. */
  ghost predicate Best<P(!new)>(h: seq<Held<P>>, matches: Rule<P> -> bool, k: nat) {
    k < |h| && matches(h[k].rule) && forall j | 0 <= j < |h| && j != k && matches(h[j].rule) :: Precedes(h[k], h[j])
  }

  /** The scan answers for the matching rule of highest priority, and among equals for the one added first. */
  lemma {:induction false} FirstIsBest<P(!new)>(h: seq<Held<P>>, matches: Rule<P> -> bool)
    requires InOrder(h)
    ensures match FirstMatch(Rules(h), matches)
            case None => forall k | 0 <= k < |h| :: !matches(h[k].rule)
            case Some(a) => exists k: nat :: Best(h, matches, k) && h[k].rule.action == a
    ensures forall k: nat | Best(h, matches, k) :: FirstMatch(Rules(h), matches) == Some(h[k].rule.action)
  {
    if h != [] {
      assert Rules(h)[1..] == Rules(h[1..]);
      if matches(h[0].rule) {
        assert Best(h, matches, 0);
        assert forall k: nat | Best(h, matches, k) :: k == 0;
      } else {
        FirstIsBest(h[1..], matches);
        assert forall k: nat | k < |h| - 1 :: h[1..][k] == h[k + 1];
        forall k: nat | k < |h| - 1
          ensures Best(h[1..], matches, k) <==> Best(h, matches, k + 1)
        {
        }
      }
    }
  }

  /**
    That an exact name comes before a wildcard, as the documentation has it, is not what the code does.
    Of two rules of a list that match a name, the one with the higher priority, or with the same and
    added earlier, is met first, whatever their patterns; if no other rule matches, it decides.
   */
  lemma OnlyPriorityDecides(h: seq<Held<string>>, exact: nat, wildcard: nat, host: string)
    requires InOrder(h) && exact < |h| && wildcard < |h| && exact != wildcard
    requires DomainMatches(h[exact].rule, host) && DomainMatches(h[wildcard].rule, host)
    ensures exact < wildcard <==> Precedes(h[exact], h[wildcard])
    ensures h[exact].rule.action != h[wildcard].rule.action
            && (forall j | 0 <= j < |h| && DomainMatches(h[j].rule, host) :: j == exact || j == wildcard) ==>
              (FirstMatch(Rules(h), (r: Rule<string>) => DomainMatches(r, host)) == Some(h[exact].rule.action)
               <==> Precedes(h[exact], h[wildcard]))
  {
    var matches := (r: Rule<string>) => DomainMatches(r, host);
    hide DomainMatches;
    FirstIsBest(h, matches);
    var first, second := if exact < wildcard then exact else wildcard, if exact < wildcard then wildcard else exact;
    assert Precedes(h[first], h[second]) && !Precedes(h[second], h[first]);
    hide FirstMatch, Rules;
    if forall j | 0 <= j < |h| && matches(h[j].rule) :: j == exact || j == wildcard {
      assert Best(h, matches, exact) <==> Precedes(h[exact], h[wildcard]);
      assert Best(h, matches, wildcard) <==> Precedes(h[wildcard], h[exact]);
    }
  }

  /** What match_explicit answers for a host and what it resolved to. */
  function Explicit(domainRules: seq<Rule<string>>, ipRules: seq<Rule<Option<Cidr>>>,
                    host: Host, resolved: Option<Host>): Option<Action>
  {
    var byAddress := FirstMatch(ipRules, (r: Rule<Option<Cidr>>) => IpMatches(r, host.address));
    var byName := FirstMatch(domainRules, (r: Rule<string>) => DomainMatches(r, host.text));
    if host.address.Some? && byAddress.Some? then byAddress
    else if byName.Some? then byName
    else if resolved.Some? && resolved.value.text != "" && resolved.value.text != host.text then
      FirstMatch(ipRules, (r: Rule<Option<Cidr>>) => IpMatches(r, resolved.value.address))
    else None
  }

  /**
    The three scans, each answered by its best rule: IP rules for a host that is an address, then the
    names, then IP rules for what the name resolved to, if it is something else.
   */
  lemma ScansInOrder(names: seq<Held<string>>, ips: seq<Held<Option<Cidr>>>, host: Host, resolved: Option<Host>, k: nat)
    requires InOrder(names) && InOrder(ips)
    ensures var answer := Explicit(Rules(names), Rules(ips), host, resolved);
            var byHost := (r: Rule<Option<Cidr>>) => IpMatches(r, host.address);
            var byName := (r: Rule<string>) => DomainMatches(r, host.text);
            var noHost := forall i | 0 <= i < |ips| :: !byHost(ips[i].rule);
            var noName := forall i | 0 <= i < |names| :: !byName(names[i].rule);
            var other := resolved.Some? && resolved.value.text != "" && resolved.value.text != host.text;
            && (host.address.Some? && Best(ips, byHost, k) ==> answer == Some(ips[k].rule.action))
            && (noHost && Best(names, byName, k) ==> answer == Some(names[k].rule.action))
            && (noHost && noName && other ==>
                  var byOther := (r: Rule<Option<Cidr>>) => IpMatches(r, resolved.value.address);
                  && (Best(ips, byOther, k) ==> answer == Some(ips[k].rule.action))
                  && ((forall i | 0 <= i < |ips| :: !byOther(ips[i].rule)) ==> answer == None))
            && (noHost && noName && !other ==> answer == None)
  {
    var byHost := (r: Rule<Option<Cidr>>) => IpMatches(r, host.address);
    var byName := (r: Rule<string>) => DomainMatches(r, host.text);
    hide DomainMatches, InOrder, Rules, FirstMatch;
    FirstIsBest(ips, byHost);
    FirstIsBest(names, byName);
    if resolved.Some? {
      FirstIsBest(ips, (r: Rule<Option<Cidr>>) => IpMatches(r, resolved.value.address));
    }
  }

  class RuleEngine {
    var domainRules: seq<Rule<string>>
    var ipRules: seq<Rule<Option<Cidr>>>
    var defaultAction: Action
    ghost var domainHeld: seq<Held<string>>
    ghost var ipHeld: seq<Held<Option<Cidr>>>
    ghost var next: nat

    ghost predicate Valid()
      reads this
    {
      && domainRules == Rules(domainHeld) && InOrder(domainHeld) && BornBefore(domainHeld, next)
      && ipRules == Rules(ipHeld) && InOrder(ipHeld) && BornBefore(ipHeld, next)
    }

    constructor ()
      ensures Valid() && domainRules == [] && ipRules == [] && defaultAction == Direct
    {
      domainRules, ipRules, defaultAction := [], [], Direct;
      domainHeld, ipHeld, next := [], [], 0;
    }

    method AddDomainRule(rule: Rule<string>)
      requires Valid()
      modifies this`domainRules, this`domainHeld, this`next
      ensures Valid() && domainRules == StableSort(old(domainRules) + [rule], ByPriority)
      ensures multiset(domainHeld) == multiset(old(domainHeld)) + multiset{Held(rule, old(next))}
      ensures next == old(next) + 1
    {
      hide InOrder, Rules, Insert, StableSort;
      AddHeld(domainHeld, rule, next);
      domainRules := StableSort(domainRules + [rule], ByPriority);
      domainHeld, next := Insert(domainHeld, Held(rule, next), HeldByPriority), next + 1;
    }

    method AddIpRule(rule: Rule<Option<Cidr>>)
      requires Valid()
      modifies this`ipRules, this`ipHeld, this`next
      ensures Valid() && ipRules == StableSort(old(ipRules) + [rule], ByPriority)
      ensures multiset(ipHeld) == multiset(old(ipHeld)) + multiset{Held(rule, old(next))} && next == old(next) + 1
    {
      hide InOrder, Rules, Insert, StableSort;
      AddHeld(ipHeld, rule, next);
      ipRules := StableSort(ipRules + [rule], ByPriority);
      ipHeld, next := Insert(ipHeld, Held(rule, next), HeldByPriority), next + 1;
    }

    method ReplaceRules(newDomain: seq<Rule<string>>, newIp: seq<Rule<Option<Cidr>>>, action: Option<Action>)
      modifies this
      ensures Valid() && domainRules == AddedOneByOne(newDomain) && ipRules == AddedOneByOne(newIp)
      ensures multiset(domainHeld) == multiset(Numbered(newDomain, 0))
      ensures multiset(ipHeld) == multiset(Numbered(newIp, 0))
      ensures defaultAction == if action.Some? then action.value else old(defaultAction)
    {
      hide InOrder, Rules, StableSort, AddedOneByOne, Numbered;
      OneByOneIsOneSort(newDomain);
      OneByOneIsOneSort(newIp);
      SortHeld(newDomain, 0);
      SortHeld(newIp, 0);
      domainRules := StableSort(newDomain, ByPriority);
      ipRules := StableSort(newIp, ByPriority);
      domainHeld := StableSort(Numbered(newDomain, 0), HeldByPriority);
      ipHeld := StableSort(Numbered(newIp, 0), HeldByPriority);
      next := |newDomain| + |newIp|;
      if action.Some? {
        defaultAction := action.value;
      }
    }

    method RemoveDomainRule(index: int) returns (removed: bool)
      requires Valid()
      modifies this`domainRules, this`domainHeld
      ensures Valid() && removed == (0 <= index < |old(domainRules)|)
      ensures domainHeld == if removed then old(domainHeld)[..index] + old(domainHeld)[index + 1..] else old(domainHeld)
    {
      removed := 0 <= index < |domainRules|;
      if removed {
        domainRules := domainRules[..index] + domainRules[index + 1..];
        domainHeld := domainHeld[..index] + domainHeld[index + 1..];
      }
    }

    method RemoveIpRule(index: int) returns (removed: bool)
      requires Valid()
      modifies this`ipRules, this`ipHeld
      ensures Valid() && removed == (0 <= index < |old(ipRules)|)
      ensures ipHeld == if removed then old(ipHeld)[..index] + old(ipHeld)[index + 1..] else old(ipHeld)
    {
      removed := 0 <= index < |ipRules|;
      if removed {
        ipRules := ipRules[..index] + ipRules[index + 1..];
        ipHeld := ipHeld[..index] + ipHeld[index + 1..];
      }
    }

    /** match_explicit. */
    method MatchExplicit(host: Host, resolved: Option<Host>) returns (action: Option<Action>)
      ensures action == Explicit(domainRules, ipRules, host, resolved)
    {
      if host.address.Some? {
        action := ScanIpRules(ipRules, host.address);
        if action.Some? {
          return;
        }
      }
      ghost var matches := (r: Rule<string>) => DomainMatches(r, host.text);
      for i := 0 to |domainRules|
        invariant FirstMatch(domainRules, matches) == FirstMatch(domainRules[i..], matches)
      {
        assert domainRules[i..][1..] == domainRules[i + 1..];
        if DomainMatches(domainRules[i], host.text) {
          return Some(domainRules[i].action);
        }
      }
      action := None;
      if resolved.Some? && resolved.value.text != "" && resolved.value.text != host.text {
        action := ScanIpRules(ipRules, resolved.value.address);
      }
    }
  }

  method ScanIpRules(rules: seq<Rule<Option<Cidr>>>, a: Option<Address>) returns (action: Option<Action>)
    ensures action == FirstMatch(rules, (r: Rule<Option<Cidr>>) => IpMatches(r, a))
  {
    ghost var matches := (r: Rule<Option<Cidr>>) => IpMatches(r, a);
    for i := 0 to |rules|
      invariant FirstMatch(rules, matches) == FirstMatch(rules[i..], matches)
    {
      assert rules[i..][1..] == rules[i + 1..];
      if IpMatches(rules[i], a) {
        return Some(rules[i].action);
      }
    }
    action := None;
  }
}
