/** The decision that client/core/router.py takes for a new connection. */
module Router {
  import opened Bytes
  import opened CircuitBreaker
  import opened DnsCaches
  import opened GeoIp
  import opened RuleEngine

  function Named(text: string, parse: string -> Option<Address>): Host {
    Host(text, parse(text))
  }

  /** The integer under which an address is looked up, whichever version it is. */
  function Number(host: Host): Option<nat> {
    if host.address.Some? then Some(host.address.value.value) else None
  }

  /** The address belongs to one of the ranges. */
  ghost predicate In(ranges: seq<Cidr>, host: Host)
    requires AllValid(ranges)
  {
    Number(host).Some? && InAny(ranges, Number(host).value)
  }

  /** Everything a decision may depend on. */
  datatype Config = Config(domainRules: seq<Rule<string>>, ipRules: seq<Rule<Option<Cidr>>>, defaultAction: Action,
                           special: seq<Cidr>, china: seq<Cidr>, connected: bool, blocked: map<string, real>)

  /** The decision taken with the address (if any) in hand from the start. */
  ghost function Decision(c: Config, host: Host, ip: Option<Host>, wall: real): Action
    requires AllValid(c.special) && AllValid(c.china)
  {
    Settled(c, Explicit(c.domainRules, c.ipRules, host, ip), ip, wall)
  }

  /** The rest of the decision: heuristics where no rule matched, and the breaker. */
  ghost function Settled(c: Config, ruled: Option<Action>, ip: Option<Host>, wall: real): Action
    requires AllValid(c.special) && AllValid(c.china)
  {
    var action :=
      if ruled.Some? then ruled.value
      else if ip.Some? && (In(c.special, ip.value) || In(c.china, ip.value)) then Direct
      else if c.connected then Proxy
      else c.defaultAction;
    if action == Direct && ip.Some? && Bars(c.blocked, ip.value.text, wall) then Block else action
  }

  /**
    The decision, case by case. A rule that says PROXY or BLOCK is final. DIRECT, by rule or because the
    address is in a special or Chinese range, becomes BLOCK while the breaker bars the address. Everything
    else goes through the pool if it is connected.
   */
  lemma WhatIsDecided(c: Config, host: Host, ip: Option<Host>, wall: real)
    requires AllValid(c.special) && AllValid(c.china)
    ensures var ruled := Explicit(c.domainRules, c.ipRules, host, ip);
            var near := ip.Some? && ip.value.address.Some?
                        && var v := ip.value.address.value.value; InAny(c.special, v) || InAny(c.china, v);
            var barred := ip.Some? && ip.value.text in c.blocked && wall <= c.blocked[ip.value.text];
            var decided := Decision(c, host, ip, wall);
            && (ruled == Some(Proxy) ==> decided == Proxy) && (ruled == Some(Block) ==> decided == Block)
            && (ruled == Some(Direct) || (ruled == None && near) ==> decided == if barred then Block else Direct)
            && (ruled == None && !near && c.connected ==> decided == Proxy)
            && (ruled == None && !near && !c.connected && c.defaultAction != Direct ==> decided == c.defaultAction)
            && (ruled == None && !near && !c.connected && c.defaultAction == Direct ==>
                  decided == if barred then Block else Direct)
  {
    hide Explicit, InAny;
  }

  /** A match by name is not overridden by what the name resolves to. */
  lemma NamesComeFirst(domainRules: seq<Rule<string>>, ipRules: seq<Rule<Option<Cidr>>>, host: Host, ip: Option<Host>)
    ensures host.address.None? && Explicit(domainRules, ipRules, host, None).Some? ==>
              Explicit(domainRules, ipRules, host, ip) == Explicit(domainRules, ipRules, host, None)
  {
  }

  /** An explicit PROXY or BLOCK is final, whatever the address. */
  lemma OnlyDirectNeedsAddress(c: Config, ruled: Option<Action>, ip: Option<Host>, wall: real)
    requires AllValid(c.special) && AllValid(c.china)
    ensures ruled.Some? && ruled.value != Direct ==> Settled(c, ruled, ip, wall) == ruled.value
  {
  }

  /** What the client knows about a host's address: the host itself, a good cached answer, or a lookup's. */
  function Known(host: Host, last: map<string, Answer>, evicted: set<string>, now: real, lookup: Option<string>,
                 parse: string -> Option<Address>): Option<Host>
  {
    if host.address.Some? then Some(host)
    else if Hit(last, evicted, host.text, now) then Some(Named(last[host.text].ip, parse))
    else if lookup.Some? && parse(lookup.value).Some? then Some(Named(lookup.value, parse))
    else None
  }

  /** Which address that is, case by case. */
  lemma WhatIsKnown(host: Host, last: map<string, Answer>, evicted: set<string>, now: real, lookup: Option<string>,
                    parse: string -> Option<Address>)
    ensures var known := Known(host, last, evicted, now, lookup, parse);
            var good := host.text in last && now < last[host.text].time + 300.0 && host.text !in evicted;
            && (host.address.Some? ==> known == Some(host))
            && (host.address.None? && good ==>
                  known == Some(Host(last[host.text].ip, parse(last[host.text].ip))))
            && (host.address.None? && !good ==>
                  if lookup.Some? && parse(lookup.value).Some?
                  then known == Some(Host(lookup.value, parse(lookup.value)))
                  else known == None)
  {
  }

  class Router {
    const engine: RuleEngine
    const cache: ClientCache
    const breaker: CircuitBreaker
    const special: GeoDatabase
    const china: GeoDatabase
    const parse: string -> Option<Address>

    ghost predicate Valid()
      reads this, engine, cache, breaker, special, special.index, china, china.index
    {
      && engine.Valid() && cache.Valid() && breaker.Valid() && special.Valid() && china.Valid()
      && parse("") == None
      && forall host | host in cache.last :: parse(cache.last[host].ip).Some?
    }

    constructor (engine: RuleEngine, special: GeoDatabase, china: GeoDatabase, parse: string -> Option<Address>)
      requires engine.Valid() && special.Valid() && china.Valid() && parse("") == None
      ensures Valid() && this.engine == engine && this.special == special && this.china == china && this.parse == parse
      ensures fresh(cache) && fresh(breaker)
    {
      this.engine, this.special, this.china, this.parse := engine, special, china, parse;
      cache := new ClientCache();
      breaker := new CircuitBreaker();
    }

    ghost function Settings(connected: bool): Config
      reads this, engine, breaker, special, china
    {
      Config(engine.domainRules, engine.ipRules, engine.defaultAction, special.ranges, china.ranges, connected,
                    breaker.blocked)
    }

    /**
      The decision part of route. `lookup` is what the resolver answers if it is asked, `wall` the
      breaker's clock and the other times the cache's. Looking the name up late, or not at all, decides
      like having its address from the start: nothing depends on where the address came from.
     */
    method Route(host: Host, connected: bool, lookup: Option<string>, now: real, stored: real, swept: real, wall: real)
      returns (action: Action, resolved: Option<Host>, asked: bool)
      requires Valid() && host.address == parse(host.text)
      requires cache.clock <= now <= stored <= swept && breaker.MayRunAt(wall) && wall > 0.0
      modifies cache, breaker
      ensures Valid()
      ensures var known := Known(host, old(cache.last), old(cache.evicted), now, lookup, parse);
              && action == Decision(old(Settings(connected)), host, known, wall)
              && (action == Direct ==> resolved == known)
      ensures asked <==>
                && host.address.None? && !Hit(old(cache.last), old(cache.evicted), host.text, now)
                && Explicit(engine.domainRules, engine.ipRules, host, None) in {None, Some(Direct)}
      ensures cache.last == if asked && resolved.Some?
                            then old(cache.last)[host.text := Answer(stored, resolved.value.text)] else old(cache.last)
      ensures breaker.history == old(breaker.history)
    {
      hide Explicit, In, Settled, Refines, ForgetsOne, InOrder, BornBefore, Rules;
      hide Canonical, Covers, InAny, Tells, Short, Past;
      ghost var known := Known(host, cache.last, cache.evicted, now, lookup, parse);
      ghost var ruledByName := Explicit(engine.domainRules, engine.ipRules, host, None);
      NamesComeFirst(engine.domainRules, engine.ipRules, host, known);
      OnlyDirectNeedsAddress(Settings(connected), ruledByName, None, wall);
      OnlyDirectNeedsAddress(Settings(connected), ruledByName, known, wall);
      asked, resolved := false, None;
      if host.address.Some? {
        resolved := Some(host);
      } else {
        var cached := cache.Resolve(host.text, now);
        if cached.Some? {
          resolved := Some(Named(cached.value, parse));
        }
      }
      var ruled := engine.MatchExplicit(host, resolved);
      if (ruled == None || ruled == Some(Direct)) && resolved.None? && host.address.None? {
        asked := true;
        resolved := LookUp(host.text, lookup, stored, swept);
        if ruled.None? {
          ruled := engine.MatchExplicit(host, resolved);
        }
      }
      action := Settle(ruled, resolved, connected, wall);
    }

    /** The address that the resolver's answer gives, kept in the cache. */
    method LookUp(name: string, lookup: Option<string>, stored: real, swept: real) returns (resolved: Option<Host>)
      requires Valid() && cache.clock <= stored <= swept
      modifies cache
      ensures Valid()
      ensures resolved == if lookup.Some? && parse(lookup.value).Some? then Some(Named(lookup.value, parse)) else None
      ensures cache.last == if resolved.Some?
                            then old(cache.last)[name := Answer(stored, resolved.value.text)] else old(cache.last)
    {
      resolved := None;
      if lookup.Some? && parse(lookup.value).Some? {
        resolved := Some(Named(lookup.value, parse));
        cache.Put(name, lookup.value, stored, swept);
      }
    }

    /** The second half of the decision. */
    method Settle(ruled: Option<Action>, resolved: Option<Host>, connected: bool, wall: real) returns (action: Action)
      requires Valid() && breaker.MayRunAt(wall) && wall > 0.0
      modifies breaker
      ensures Valid() && breaker.history == old(breaker.history)
      ensures action == Settled(old(Settings(connected)), ruled, resolved, wall)
    {
      if ruled.Some? {
        action := ruled.value;
      } else {
        action := Heuristic(resolved, connected);
      }
      if action == Direct && resolved.Some? {
        var barred := breaker.IsBlocked(resolved.value.text, wall);
        if barred {
          action := Block;
        }
      }
    }

    /** No rule matched. */
    method Heuristic(resolved: Option<Host>, connected: bool) returns (action: Action)
      requires Valid()
      ensures action ==
                if resolved.Some? && (In(special.ranges, resolved.value) || In(china.ranges, resolved.value))
                then Direct
                else if connected then Proxy
                else engine.defaultAction
    {
      if resolved.Some? {
        var isSpecial := special.Lookup(Number(resolved.value));
        if isSpecial {
          return Direct;
        }
        var isChina := china.Lookup(Number(resolved.value));
        if isChina {
          return Direct;
        }
      }
      action := if connected then Proxy else engine.defaultAction;
    }
  }
}
