/** The connection pool (TunnelPool in client/core/tunnel.py): round-robin and reconnect ownership. */
module TunnelPool {
  import opened Arithmetic

  /** What a tunnel answers when the pool asks it for a stream. */
  datatype Answer =
    | Stream(id: nat)
    | Rejected
    | Refused
    | Raised  // the error of pack_connect, which ends the call

  // ---------------------------------------------------------------------------------------------
  // Round-robin

  /** The index a counter value falls on. */
  function Slot(x: nat, n: nat): (i: nat)
    requires n > 0
    ensures i < n
  {
    x % n
  }

  /** The remainder is the only number below n that leaves a multiple of n. */
  lemma SlotOf(q: nat, n: nat, r: nat)
    requires r < n
    ensures Slot(q * n + r, n) == r
  {
    QuotientBounds(q * n + r, n, q);
  }

  lemma SlotParts(x: nat, n: nat) returns (q: nat)
    requires n > 0
    ensures x == q * n + Slot(x, n)
  {
    q := x / n;
  }

  lemma SlotAdd(a: nat, k: nat, n: nat)
    requires n > 0
    ensures Slot(Slot(a, n) + k, n) == Slot(a + k, n)
  {
    var q := SlotParts(a, n);
    var p := SlotParts(Slot(a, n) + k, n);
    assert a + k == (q + p) * n + Slot(Slot(a, n) + k, n);
    SlotOf(q + p, n, Slot(Slot(a, n) + k, n));
  }

  lemma SlotsDistinct(a: nat, b: nat, n: nat)
    requires a < b < a + n
    ensures Slot(a, n) != Slot(b, n)
  {
    var q := SlotParts(a, n);
    var p := SlotParts(b, n);
    hide Slot;
    if Slot(a, n) == Slot(b, n) {
      var d: int := p - q;
      assert d * n == p * n - q * n;
      if d >= 1 {
        MulAtLeast(d, n);
      } else {
        assert (1 - d) * n == n - d * n;
        MulAtLeast(1 - d, n);
      }
    }
  }

  /** The n indices a call visits, from the one its turn falls on. */
  function Ring(start: nat, n: nat): (ring: seq<nat>)
    requires n > 0
    ensures |ring| == n
    ensures forall k :: 0 <= k < n ==> ring[k] == Slot(start + k, n)
  {
    seq<nat>(n, k requires 0 <= k < n => Slot(start + k, n))
  }

  /** The ring is a permutation of the indices: each is visited once. */
  lemma RingVisitsAll(start: nat, n: nat)
    requires n > 0
    ensures forall j, k | 0 <= j < k < n :: Ring(start, n)[j] != Ring(start, n)[k]
    ensures forall i | 0 <= i < n :: i in Ring(start, n)
  {
    hide Slot, Ring;
    forall j, k | 0 <= j < k < n
      ensures Ring(start, n)[j] != Ring(start, n)[k]
    {
      SlotsDistinct(start + j, start + k, n);
    }
    forall i | 0 <= i < n
      ensures i in Ring(start, n)
    {
      var q := SlotParts(start, n);
      var s := Slot(start, n);
      var k := if i >= s then i - s else i - s + n;
      assert start + k == (if i >= s then q else q + 1) * n + i;
      SlotOf(if i >= s then q else q + 1, n, i);
      assert Ring(start, n)[k] == i;
    }
  }

  /** So a call that gives up has been refused by every tunnel. */
  lemma RefusedByAll(start: nat, n: nat, up: nat -> bool, ask: nat -> Answer)
    requires n > 0
    requires forall k | 0 <= k < n :: !up(Ring(start, n)[k]) || ask(Ring(start, n)[k]).Refused?
    ensures forall i | 0 <= i < n :: !up(i) || ask(i).Refused?
  {
    hide Slot, Ring;
    RingVisitsAll(start, n);
    forall i | 0 <= i < n
      ensures !up(i) || ask(i).Refused?
    {
      assert i in Ring(start, n);
      var k :| 0 <= k < n && Ring(start, n)[k] == i;
    }
  }

  /** How many of k consecutive calls, the first with counter a, start at index i of n. */
  function Turns(a: nat, k: nat, n: nat, i: nat): nat
    requires n > 0
  {
    if k == 0 then 0 else Turns(a, k - 1, n, i) + (if Slot(a + k - 1, n) == i then 1 else 0)
  }

  lemma {:induction false} TurnsSplit(a: nat, j: nat, k: nat, n: nat, i: nat)
    requires n > 0
    ensures Turns(a, j + k, n, i) == Turns(a, j, n, i) + Turns(a + j, k, n, i)
  {
    hide Slot;
    if k > 0 {
      TurnsSplit(a, j, k - 1, n, i);
    }
  }

  lemma {:induction false} TurnsBelow(k: nat, n: nat, i: nat)
    requires k <= n && i < n
    ensures Turns(0, k, n, i) == if i < k then 1 else 0
  {
    hide Slot;
    if k > 0 {
      TurnsBelow(k - 1, n, i);
      SlotOf(0, n, k - 1);
    }
  }

  /** Any n consecutive calls give each index exactly one turn. */
  lemma {:induction false} OneTurnPerRound(a: nat, n: nat, i: nat)
    requires i < n
    ensures Turns(a, n, n, i) == 1
  {
    hide Slot;
    if a == 0 {
      TurnsBelow(n, n, i);
    } else {
      OneTurnPerRound(a - 1, n, i);
      TurnsSplit(a - 1, 1, n, n, i);
      TurnsSplit(a - 1, n, 1, n, i);
      SlotNextRound(a - 1, n);
      assert Turns(a - 1, 1, n, i) == Turns(a - 1 + n, 1, n, i);
    }
  }

  lemma SlotNextRound(x: nat, n: nat)
    requires n > 0
    ensures Slot(x + n, n) == Slot(x, n)
  {
    hide Slot;
    var q := SlotParts(x, n);
    assert x + n == (q + 1) * n + Slot(x, n);
    SlotOf(q + 1, n, Slot(x, n));
  }

  /**
    Fairness: over k consecutive calls the number of turns of each of n tunnels differs from k / n by
    less than one, so it is the floor or the ceiling of k / n.
   */
  lemma {:induction false} TurnsAreFair(a: nat, k: nat, n: nat, i: nat)
    requires i < n
    ensures (Turns(a, k, n, i) - 1) * n < k < (Turns(a, k, n, i) + 1) * n
    decreases k
  {
    hide Slot, Turns;
    OneTurnPerRound(a, n, i);
    if k < n {
      TurnsSplit(a, k, n - k, n, i);
      if k == 0 {
        TurnsSplit(a, 0, 0, n, i);
      }
      assert Turns(a, k, n, i) == 0 || Turns(a, k, n, i) == 1;
    } else {
      TurnsSplit(a, n, k - n, n, i);
      TurnsAreFair(a + n, k - n, n, i);
      var t := Turns(a + n, k - n, n, i);
      assert (t + 1) * n == (t - 1) * n + 2 * n == t * n + n;
    }
  }

  // ---------------------------------------------------------------------------------------------
  // The pool

  /** A tunnel of the pool. */
  datatype Link =
    | Up                      // connected
    | Opening                 // inside connect
    | Closing                 // lost, inside disconnect
    | Lost                    // none of these

  /** A _reconnect_one task: asleep between attempts or inside an attempt. */
  datatype Reconnect = Reconnect(index: nat, attempting: bool, cancelled: bool)

  class TunnelPool {
    var running: bool
    var building: bool                 // inside connect, results not yet examined
    var links: seq<Link>
    var launching: set<nat>            // links of the batch being built whose connect is under way
    var failed: set<nat>               // links of that batch whose connect failed
    var reconnects: map<nat, nat>      // _reconnect_tasks
    var tasks: map<nat, Reconnect>     // unfinished tasks
    var nextTask: nat
    var downNotified: bool
    var rrIndex: nat
    ghost var firedSinceArmed: nat

    /**
      Of a running pool: every lost link has exactly one reconnect task that nobody cancelled, the one
      the registry names, unless its failed connect is still to be examined.
     */
    ghost predicate Valid()
      reads this
    {
      && Registry() && AtWork() && Scheduled() && Batch()
      && (!running ==> reconnects == map[])
      && firedSinceArmed == (if downNotified then 1 else 0)
    }

    /** The registry names exactly the tasks that nobody cancelled, each under its link. */
    ghost predicate Registry()
      reads this`reconnects, this`tasks, this`nextTask
    {
      && (forall t | t in tasks :: t < nextTask)
      && (forall i | i in reconnects ::
            reconnects[i] in tasks && tasks[reconnects[i]].index == i && !tasks[reconnects[i]].cancelled)
      && (forall t | t in tasks && !tasks[t].cancelled ::
            tasks[t].index in reconnects && reconnects[tasks[t].index] == t)
    }

    /** Such a task has a link that is opening during an attempt and lost between two. */
    ghost predicate AtWork()
      reads this`tasks, this`links
    {
      forall t | t in tasks && !tasks[t].cancelled ::
        && tasks[t].index < |links|
        && (if tasks[t].attempting then links[tasks[t].index].Opening? else links[tasks[t].index].Lost?)
    }

    ghost predicate Scheduled()
      reads this`running, this`links, this`reconnects, this`building, this`failed
    {
      running ==> forall i | 0 <= i < |links| && links[i].Lost? :: i in reconnects || (building && i in failed)
    }

    /** The links of a batch whose connect failed or is under way. */
    ghost predicate Batch()
      reads this`links, this`reconnects, this`building, this`failed, this`launching
    {
      && (forall i | i in failed :: i < |links| && links[i].Lost? && i !in reconnects)
      && (forall i | i in launching :: i < |links| && links[i].Opening? && i !in reconnects)
      && (!building ==> failed == {} && launching == {})
    }

    /** Exactly one task that nobody cancelled works on each lost link. */
    ghost predicate OneTaskPerLostLink()
      reads this
    {
      forall i | 0 <= i < |links| && links[i].Lost? ::
        && (exists t :: t in tasks && !tasks[t].cancelled && tasks[t].index == i)
        && (forall t, u | t in tasks && u in tasks && !tasks[t].cancelled && !tasks[u].cancelled
                          && tasks[t].index == i && tasks[u].index == i :: t == u)
    }

    lemma LostLinksAreOwned()
      requires Valid() && running && !building
      ensures OneTaskPerLostLink()
    {
      forall i | 0 <= i < |links| && links[i].Lost?
        ensures exists t :: t in tasks && !tasks[t].cancelled && tasks[t].index == i
      {
        assert reconnects[i] in tasks;
      }
    }

    predicate Connected()
      reads this
    {
      exists i :: 0 <= i < |links| && links[i].Up?
    }

    constructor ()
      ensures Valid() && !running
    {
      running, building, links, launching, failed := false, false, [], {}, {};
      reconnects, tasks, nextTask := map[], map[], 0;
      downNotified, rrIndex, firedSinceArmed := false, 0, 0;
    }

    /**
      create_stream. `up` and `ask` say, per tunnel, whether it is connected when its turn comes and
      what it answers. The call visits the first `visits` tunnels of the ring; it ends at the first
      connected tunnel that does not refuse, and gives up only after all of them.
     */
    method CreateStream(n: nat, up: nat -> bool, ask: nat -> Answer) returns (r: Answer, visits: nat)
      requires n == |links|
      modifies this`rrIndex
      ensures n == 0 ==> r == Refused && visits == 0 && rrIndex == old(rrIndex)
      ensures n > 0 ==>
                var ring := Ring(old(rrIndex), n);
                && rrIndex == old(rrIndex) + 1 && 1 <= visits <= n
                && (forall k | 0 <= k < visits - 1 :: !up(ring[k]) || ask(ring[k]).Refused?)
                && (if r.Refused? then visits == n && (forall k | 0 <= k < n :: !up(ring[k]) || ask(ring[k]).Refused?)
                    else up(ring[visits - 1]) && ask(ring[visits - 1]) == r)
    {
      if n == 0 {
        return Refused, 0;
      }
      var start := Slot(rrIndex, n);
      ghost var ring := Ring(rrIndex, n);
      rrIndex := rrIndex + 1;
      hide Slot, Ring;
      visits := 0;
      while visits < n
        invariant 0 <= visits <= n && rrIndex == old(rrIndex) + 1
        invariant forall k | 0 <= k < visits :: !up(ring[k]) || ask(ring[k]).Refused?
      {
        SlotAdd(old(rrIndex), visits, n);
        var idx := Slot(start + visits, n);
        assert idx == ring[visits];
        visits := visits + 1;
        if up(idx) {
          r := ask(idx);
          if !r.Refused? {
            return;
          }
        }
      }
      r := Refused;
    }

    /**
      A run of k calls while every tunnel is up and accepts. `given` counts the streams each tunnel
      gets: no tunnel gets one more than the ceiling or one less than the floor of the average.
     */
    method SpreadEvenly(k: nat, ask: nat -> Answer) returns (given: seq<nat>)
      requires |links| > 0 && forall i | 0 <= i < |links| :: !ask(i).Refused?
      modifies this`rrIndex
      ensures |given| == |links| && rrIndex == old(rrIndex) + k
      ensures forall i | 0 <= i < |links| :: (given[i] - 1) * |links| < k < (given[i] + 1) * |links|
    {
      var n := |links|;
      hide Slot;
      given := seq(n, _ => 0);
      for c := 0 to k
        invariant |given| == n && rrIndex == old(rrIndex) + c
        invariant forall i | 0 <= i < n :: given[i] == Turns(old(rrIndex), c, n, i)
      {
        ghost var ring := Ring(rrIndex, n);
        var first := Slot(rrIndex, n);
        var r, visits := CreateStream(n, _ => true, ask);
        assert ring[0] == first && !ask(ring[0]).Refused? && visits == 1;
        given := given[first := given[first] + 1];
      }
      forall i | 0 <= i < n
        ensures (given[i] - 1) * n < k < (given[i] + 1) * n
      {
        TurnsAreFair(old(rrIndex), k, n, i);
      }
    }

    // ---- Reconnect ownership: segments of connect, of the tunnels' tasks and of the reconnect tasks

    /** A task for link i, unless the registry already names one. */
    method Schedule(i: nat)
      modifies this`reconnects, this`tasks, this`nextTask
      ensures if i in old(reconnects)
              then reconnects == old(reconnects) && tasks == old(tasks) && nextTask == old(nextTask)
              else
                && reconnects == old(reconnects)[i := old(nextTask)]
                && tasks == old(tasks)[old(nextTask) := Reconnect(i, false, false)]
                && nextTask == old(nextTask) + 1
    {
      if i !in reconnects {
        reconnects := reconnects[i := nextTask];
        tasks := tasks[nextTask := Reconnect(i, false, false)];
        nextTask := nextTask + 1;
      }
    }

    /** Cancels every reconnect task and forgets them. */
    method CancelAll()
      modifies this`reconnects, this`tasks
      ensures reconnects == map[] && tasks.Keys == old(tasks).Keys
      ensures forall t | t in tasks ::
                tasks[t] == old(tasks)[t].(cancelled := old(tasks)[t].cancelled || t in old(reconnects).Values)
    {
      tasks := map t | t in tasks :: tasks[t].(cancelled := tasks[t].cancelled || t in reconnects.Values);
      reconnects := map[];
    }

    /** connect up to the teardown of the previous tunnels. */
    method ConnectStart()
      requires Valid() && !building
      modifies this`running, this`downNotified, this`firedSinceArmed, this`reconnects, this`tasks, this`links
      ensures Valid() && running && links == [] && reconnects == map[] && !downNotified
    {
      running, downNotified, firedSinceArmed := true, false, 0;
      CancelAll();
      links := [];
    }

    /** The new tunnels are created and all start to connect. */
    method ConnectLaunch(size: nat)
      requires Valid() && running && !building && links == []
      modifies this`links, this`building, this`launching
      ensures Valid() && building && |links| == size && forall i | 0 <= i < size :: links[i].Opening?
    {
      links := seq(size, _ => Opening);
      launching := set i: nat | i < |links| && links[i].Opening?;
      building := true;
    }

    /** One tunnel of the new batch has finished its connect. */
    method Launched(i: nat, ok: bool)
      requires Valid() && i in launching
      modifies this`links, this`failed, this`launching
      ensures Valid() && links == old(links)[i := if ok then Up else Lost]
    {
      links := links[i := if ok then Up else Lost];
      launching := launching - {i};
      if !ok {
        failed := failed + {i};
      }
    }

    /** All results are in: every tunnel that failed gets a reconnect task. */
    method ConnectFinish()
      requires Valid() && running && building && launching == {}
      modifies this`building, this`failed, this`reconnects, this`tasks, this`nextTask
      ensures Valid() && !building && OneTaskPerLostLink()
    {
      while failed != {}
        invariant Valid() && running && building
      {
        var i :| i in failed;
        failed := failed - {i};
        Schedule(i);
      }
      building := false;
      LostLinksAreOwned();
    }

    /** A reconnect task wakes up and tries again. */
    method AttemptStart(t: nat)
      requires Valid() && t in tasks && !tasks[t].cancelled && !tasks[t].attempting
      modifies this`links, this`tasks
      ensures Valid() && links == old(links)[tasks[t].index := Opening] && tasks[t].attempting
    {
      links := links[tasks[t].index := Opening];
      tasks := tasks[t := tasks[t].(attempting := true)];
    }

    /** The attempt ended: success ends the task and re-arms the latch, failure puts it back to sleep. */
    method AttemptEnd(t: nat, ok: bool)
      requires Valid() && t in tasks && !tasks[t].cancelled && tasks[t].attempting
      modifies this`links, this`tasks, this`reconnects, this`downNotified, this`firedSinceArmed
      ensures Valid()
      ensures links == old(links)[old(tasks[t].index) := if ok then Up else Lost]
      ensures if ok then t !in tasks && old(tasks[t].index) !in reconnects && !downNotified
              else reconnects == old(reconnects) && downNotified == old(downNotified)
    {
      var i := tasks[t].index;
      assert reconnects[i] == t && i !in failed && i !in launching;
      links := links[i := if ok then Up else Lost];
      if ok {
        downNotified, firedSinceArmed := false, 0;
        reconnects := reconnects - {i};
        tasks := tasks - {t};
      } else {
        tasks := tasks[t := tasks[t].(attempting := false)];
      }
    }

    /** A cancelled task ends; it leaves the registry alone. */
    method Unwound(t: nat)
      requires Valid() && t in tasks && tasks[t].cancelled
      modifies this`tasks
      ensures Valid() && tasks == old(tasks) - {t}
    {
      tasks := tasks - {t};
    }

    /** A connected tunnel is lost: its disconnect begins. */
    method LossStart(i: nat)
      requires Valid() && i < |links| && links[i].Up?
      modifies this`links
      ensures Valid() && links == old(links)[i := Closing]
    {
      links := links[i := Closing];
    }

    /** Its disconnect ends with the callback that schedules the reconnect. */
    method LossEnd(i: nat) returns (fired: bool)
      requires Valid() && running && i < |links| && links[i].Closing?
      modifies this`links, this`reconnects, this`tasks, this`nextTask, this`downNotified, this`firedSinceArmed
      ensures Valid() && links == old(links)[i := Lost]
      ensures i !in old(reconnects) && i in reconnects
      ensures fired <==> (forall k | 0 <= k < |links| :: !links[k].Up?) && !old(downNotified)
    {
      MarkLost(i);
      hide TunnelPool.Connected, TunnelPool.Valid;
      fired := NotifyIfDown();
    }

    method MarkLost(i: nat)
      requires Valid() && running && i < |links| && links[i].Closing?
      modifies this`links, this`reconnects, this`tasks, this`nextTask
      ensures Valid() && links == old(links)[i := Lost]
      ensures i !in old(reconnects) && i in reconnects
    {
      assert i !in reconnects;
      links := links[i := Lost];
      Schedule(i);
    }

    /** The callback's second half, all there is to it for a tunnel the pool has already let go. */
    method NotifyIfDown() returns (fired: bool)
      requires Valid() && running
      modifies this`downNotified, this`firedSinceArmed
      ensures Valid()
      ensures fired <==> (forall k | 0 <= k < |links| :: !links[k].Up?) && !old(downNotified)
      ensures firedSinceArmed == old(firedSinceArmed) + (if fired then 1 else 0) <= 1
    {
      fired := !Connected() && !downNotified;
      if fired {
        downNotified := true;
        firedSinceArmed := firedSinceArmed + 1;
      }
    }

    /** disconnect: no tunnels, no reconnect task that is not cancelled. */
    method Disconnect()
      requires Valid() && !building
      modifies this`running, this`reconnects, this`tasks, this`links
      ensures Valid() && !running && links == []
      ensures forall t | t in tasks :: tasks[t].cancelled
    {
      running := false;
      CancelAll();
      links := [];
    }
  }
}
