/**
  The per-IP concurrency ceiling: a map of weak references to semaphores, swept now and then.
  A request holds its semaphore strongly from the lookup until it ends. The reference counts
  the live permits of an address and knows nothing of semaphores, weak references or sweeps.
*/
module IpConcurrency {
  import opened Wrappers

  const SWEEP_INTERVAL: nat := 1024

  type Ip = string
  type RequestId = nat
  type SemaphoreId = nat

  /** One live strong reference: the request, the address it looked up, whether it has a permit. */
  datatype Holder = Holder(ip: Ip, semaphore: SemaphoreId, permit: bool)

  datatype Limiter = Limiter(
    semaphores: map<Ip, SemaphoreId>,      // weak: an entry does not keep its semaphore alive
    callsSinceSweep: nat,
    available: map<SemaphoreId, nat>,      // permits left in each semaphore ever allocated
    holders: map<RequestId, Holder>,
    nextSemaphore: SemaphoreId
  )

  const EMPTY: Limiter := Limiter(map[], 0, map[], map[], 0)

  /** `Weak::upgrade` succeeds while somebody holds the semaphore strongly. */
  predicate Alive(holders: map<RequestId, Holder>, s: SemaphoreId) {
    exists r :: r in holders && holders[r].semaphore == s
  }

  datatype Event = Lookup(r: RequestId, ip: Ip) | Acquire(r: RequestId) | Release(r: RequestId) | Drop(r: RequestId)

  datatype Stepped<S> = Stepped(state: S, granted: Option<bool>)

  function Swept(l: Limiter): Limiter {
    if l.callsSinceSweep + 1 >= SWEEP_INTERVAL then
      l.(callsSinceSweep := 0,
         semaphores := map ip | ip in l.semaphores && Alive(l.holders, l.semaphores[ip]) :: l.semaphores[ip])
    else l.(callsSinceSweep := l.callsSinceSweep + 1)
  }

  /** `semaphore(ip)` on behalf of request `r`. */
  function LookedUp(max: nat, l: Limiter, r: RequestId, ip: Ip): Limiter {
    var s := Swept(l);
    if ip in s.semaphores && Alive(s.holders, s.semaphores[ip]) then
      s.(holders := s.holders[r := Holder(ip, s.semaphores[ip], false)])
    else
      s.(semaphores := s.semaphores[ip := s.nextSemaphore],
         available := s.available[s.nextSemaphore := max],
         holders := s.holders[r := Holder(ip, s.nextSemaphore, false)],
         nextSemaphore := s.nextSemaphore + 1)
  }

  /** Request ids are used once; an event that does not apply changes nothing. */
  function Step(max: nat, l: Limiter, e: Event): Stepped<Limiter> {
    match e
    case Lookup(r, ip) => Stepped(if r in l.holders then l else LookedUp(max, l, r, ip), None)
    case Acquire(r) =>
      if r !in l.holders || l.holders[r].permit then Stepped(l, None)
      else
        var h := l.holders[r];
        if h.semaphore in l.available && l.available[h.semaphore] > 0 then
          Stepped(l.(available := l.available[h.semaphore := l.available[h.semaphore] - 1],
                     holders := l.holders[r := h.(permit := true)]), Some(true))
        else Stepped(l.(holders := l.holders - {r}), Some(false))
    case Release(r) =>
      if r !in l.holders || !l.holders[r].permit || l.holders[r].semaphore !in l.available then Stepped(l, None)
      else
        var h := l.holders[r];
        Stepped(l.(available := l.available[h.semaphore := l.available[h.semaphore] + 1],
                   holders := l.holders[r := h.(permit := false)]), None)
    case Drop(r) =>
      if r !in l.holders || l.holders[r].permit then Stepped(l, None)
      else Stepped(l.(holders := l.holders - {r}), None)
  }

  class IpConcurrencyLimiter {
    const maxPerIp: nat
    var semaphores: map<Ip, SemaphoreId>
    var callsSinceSweep: nat
    var available: map<SemaphoreId, nat>
    var holders: map<RequestId, Holder>
    var nextSemaphore: SemaphoreId

    function View(): Limiter
      reads this
    {
      Limiter(semaphores, callsSinceSweep, available, holders, nextSemaphore)
    }

    constructor (maxPerIp: nat)
      ensures this.maxPerIp == maxPerIp && View() == EMPTY
    {
      this.maxPerIp := maxPerIp;
      semaphores, callsSinceSweep, available, holders, nextSemaphore := map[], 0, map[], map[], 0;
    }

    method Semaphore(r: RequestId, ip: Ip)
      requires r !in holders
      modifies this
      ensures View() == Step(maxPerIp, old(View()), Lookup(r, ip)).state
      ensures r in holders && holders[r].ip == ip && !holders[r].permit
      ensures callsSinceSweep == if old(callsSinceSweep) + 1 >= 1024 then 0 else old(callsSinceSweep) + 1
      ensures forall i :: i != ip ==>
                (i in semaphores <==>
                   i in old(semaphores) && (callsSinceSweep == 0 ==> Alive(old(holders), old(semaphores)[i])))
    {
      callsSinceSweep := callsSinceSweep + 1;
      if callsSinceSweep >= SWEEP_INTERVAL {
        callsSinceSweep := 0;
        semaphores := map i | i in semaphores && Alive(holders, semaphores[i]) :: semaphores[i];
      }
      if ip in semaphores && Alive(holders, semaphores[ip]) {
        holders := holders[r := Holder(ip, semaphores[ip], false)];
      } else {
        available := available[nextSemaphore := maxPerIp];
        semaphores := semaphores[ip := nextSemaphore];
        holders := holders[r := Holder(ip, nextSemaphore, false)];
        nextSemaphore := nextSemaphore + 1;
      }
    }

    method TryAcquireOwned(r: RequestId) returns (ok: bool)
      requires Inv(maxPerIp, View()) && r in holders && !holders[r].permit
      modifies this
      ensures Stepped(View(), Some(ok)) == Step(maxPerIp, old(View()), Acquire(r))
      ensures ok <==> old(|Permits(holders, holders[r].ip)|) < maxPerIp
    {
      var h := holders[r];
      OwnSemaphore(maxPerIp, View(), r);
      if available[h.semaphore] > 0 {
        available := available[h.semaphore := available[h.semaphore] - 1];
        holders := holders[r := h.(permit := true)];
        ok := true;
      } else {
        holders := holders - {r};
        ok := false;
      }
    }

    /** The permit goes back before the strong reference does. */
    method ReleasePermit(r: RequestId)
      requires Inv(maxPerIp, View()) && r in holders && holders[r].permit
      modifies this
      ensures View() == Step(maxPerIp, old(View()), Release(r)).state
    {
      var h := holders[r];
      OwnSemaphore(maxPerIp, View(), r);
      available := available[h.semaphore := available[h.semaphore] + 1];
      holders := holders[r := h.(permit := false)];
    }

    method DropReference(r: RequestId)
      requires r in holders && !holders[r].permit
      modifies this
      ensures View() == Step(maxPerIp, old(View()), Drop(r)).state
    {
      holders := holders - {r};
    }
  }

  // ---------------------------------------------------------------- ownership

  function Permits(holders: map<RequestId, Holder>, ip: Ip): set<RequestId> {
    set r | r in holders && holders[r].ip == ip && holders[r].permit
  }

  /** Every holder of an address holds the one semaphore the map names for it, semaphores are not
      shared between addresses, and each has given out exactly the live permits of its address. */
  ghost predicate Inv(max: nat, l: Limiter) {
    && (forall r :: r in l.holders ==>
          l.holders[r].ip in l.semaphores && l.semaphores[l.holders[r].ip] == l.holders[r].semaphore)
    && (forall ip :: ip in l.semaphores ==>
          && l.semaphores[ip] < l.nextSemaphore && l.semaphores[ip] in l.available
          && l.available[l.semaphores[ip]] + |Permits(l.holders, ip)| == max)
    && (forall i, j :: i in l.semaphores && j in l.semaphores && l.semaphores[i] == l.semaphores[j] ==> i == j)
  }

  lemma OwnSemaphore(max: nat, l: Limiter, r: RequestId)
    requires Inv(max, l) && r in l.holders
    ensures var h := l.holders[r];
            h.semaphore in l.available && l.available[h.semaphore] + |Permits(l.holders, h.ip)| == max
  {
  }

  /** Giving or returning the permit of `r` changes the count of its own address only. */
  lemma PermitGiven(holders: map<RequestId, Holder>, r: RequestId, ip: Ip)
    requires r in holders && !holders[r].permit
    ensures |Permits(holders[r := holders[r].(permit := true)], ip)|
         == |Permits(holders, ip)| + if ip == holders[r].ip then 1 else 0
  {
    var p, q := Permits(holders, ip), Permits(holders[r := holders[r].(permit := true)], ip);
    assert q == if ip == holders[r].ip then p + {r} else p;
  }

  lemma PermitReturned(holders: map<RequestId, Holder>, r: RequestId, ip: Ip)
    requires r in holders && holders[r].permit
    ensures |Permits(holders[r := holders[r].(permit := false)], ip)|
         == |Permits(holders, ip)| - if ip == holders[r].ip then 1 else 0
  {
    var p, q := Permits(holders, ip), Permits(holders[r := holders[r].(permit := false)], ip);
    assert p == if ip == holders[r].ip then q + {r} else q;
  }

  lemma PermitsWith(holders: map<RequestId, Holder>, r: RequestId, h: Holder, ip: Ip)
    requires r !in holders && !h.permit
    ensures Permits(holders[r := h], ip) == Permits(holders, ip)
  {
  }

  lemma PermitsWithout(holders: map<RequestId, Holder>, r: RequestId, ip: Ip)
    requires r in holders && !holders[r].permit
    ensures Permits(holders - {r}, ip) == Permits(holders, ip)
  {
  }

  lemma SweepKeepsInv(max: nat, l: Limiter)
    requires Inv(max, l)
    ensures Inv(max, Swept(l)) && Swept(l).holders == l.holders
  {
  }

  lemma LookupKeepsInv(max: nat, l: Limiter, r: RequestId, ip: Ip)
    requires Inv(max, l) && r !in l.holders
    ensures Inv(max, LookedUp(max, l, r, ip))
  {
    SweepKeepsInv(max, l);
    var s := Swept(l);
    if ip in s.semaphores && Alive(s.holders, s.semaphores[ip]) {
      JoinKeepsInv(max, s, r, ip);
    } else {
      FreshKeepsInv(max, s, r, ip);
    }
  }

  lemma JoinKeepsInv(max: nat, s: Limiter, r: RequestId, ip: Ip)
    requires Inv(max, s) && r !in s.holders && ip in s.semaphores
    ensures Inv(max, s.(holders := s.holders[r := Holder(ip, s.semaphores[ip], false)]))
  {
    var h := Holder(ip, s.semaphores[ip], false);
    forall i ensures Permits(s.holders[r := h], i) == Permits(s.holders, i) { PermitsWith(s.holders, r, h, i); }
  }

  lemma FreshKeepsInv(max: nat, s: Limiter, r: RequestId, ip: Ip)
    requires Inv(max, s) && r !in s.holders && !(ip in s.semaphores && Alive(s.holders, s.semaphores[ip]))
    ensures Inv(max, s.(semaphores := s.semaphores[ip := s.nextSemaphore],
                        available := s.available[s.nextSemaphore := max],
                        holders := s.holders[r := Holder(ip, s.nextSemaphore, false)],
                        nextSemaphore := s.nextSemaphore + 1))
  {
    var h := Holder(ip, s.nextSemaphore, false);
    forall i ensures Permits(s.holders[r := h], i) == Permits(s.holders, i) { PermitsWith(s.holders, r, h, i); }
    assert forall q :: q in s.holders ==> s.holders[q].ip != ip;
    assert Permits(s.holders, ip) == {};
  }

  lemma AcquireKeepsInv(max: nat, l: Limiter, r: RequestId)
    requires Inv(max, l)
    ensures Inv(max, Step(max, l, Acquire(r)).state)
  {
    if r in l.holders && !l.holders[r].permit {
      var h := l.holders[r];
      OwnSemaphore(max, l, r);
      forall i ensures |Permits(l.holders[r := h.(permit := true)], i)|
                    == |Permits(l.holders, i)| + if i == h.ip then 1 else 0 {
        PermitGiven(l.holders, r, i);
      }
      forall i ensures Permits(l.holders - {r}, i) == Permits(l.holders, i) { PermitsWithout(l.holders, r, i); }
    }
  }

  lemma ReleaseKeepsInv(max: nat, l: Limiter, r: RequestId)
    requires Inv(max, l)
    ensures Inv(max, Step(max, l, Release(r)).state)
  {
    if r in l.holders && l.holders[r].permit {
      var h := l.holders[r];
      OwnSemaphore(max, l, r);
      forall i ensures |Permits(l.holders[r := h.(permit := false)], i)|
                    == |Permits(l.holders, i)| - if i == h.ip then 1 else 0 {
        PermitReturned(l.holders, r, i);
      }
    }
  }

  lemma DropKeepsInv(max: nat, l: Limiter, r: RequestId)
    requires Inv(max, l)
    ensures Inv(max, Step(max, l, Drop(r)).state)
  {
    if r in l.holders && !l.holders[r].permit {
      forall i ensures Permits(l.holders - {r}, i) == Permits(l.holders, i) { PermitsWithout(l.holders, r, i); }
    }
  }

  lemma StepKeepsInv(max: nat, l: Limiter, e: Event)
    requires Inv(max, l)
    ensures Inv(max, Step(max, l, e).state)
  {
    match e
    case Lookup(r, ip) => if r !in l.holders { LookupKeepsInv(max, l, r, ip); }
    case Acquire(r) => AcquireKeepsInv(max, l, r);
    case Release(r) => ReleaseKeepsInv(max, l, r);
    case Drop(r) => DropKeepsInv(max, l, r);
  }

  // ---------------------------------------------------------------- the reference

  datatype Live = Live(ip: Ip, permit: bool)

  type Counter = map<RequestId, Live>

  function LivePermits(c: Counter, ip: Ip): set<RequestId> {
    set r | r in c && c[r].ip == ip && c[r].permit
  }

  /** A permit is granted exactly while fewer than `max` requests of the address have one. */
  function CounterStep(max: nat, c: Counter, e: Event): Stepped<Counter> {
    match e
    case Lookup(r, ip) => Stepped(if r in c then c else c[r := Live(ip, false)], None)
    case Acquire(r) =>
      if r !in c || c[r].permit then Stepped(c, None)
      else if |LivePermits(c, c[r].ip)| < max then Stepped(c[r := c[r].(permit := true)], Some(true))
      else Stepped(c - {r}, Some(false))
    case Release(r) =>
      Stepped(if r in c && c[r].permit then c[r := c[r].(permit := false)] else c, None)
    case Drop(r) => Stepped(if r in c && !c[r].permit then c - {r} else c, None)
  }

  function Run(max: nat, l: Limiter, es: seq<Event>): seq<Option<bool>>
    decreases |es|
  {
    if es == [] then []
    else
      var s := Step(max, l, es[0]);
      [s.granted] + Run(max, s.state, es[1..])
  }

  function CounterRun(max: nat, c: Counter, es: seq<Event>): seq<Option<bool>>
    decreases |es|
  {
    if es == [] then []
    else
      var s := CounterStep(max, c, es[0]);
      [s.granted] + CounterRun(max, s.state, es[1..])
  }

  function Final(max: nat, l: Limiter, es: seq<Event>): Limiter
    decreases |es|
  {
    if es == [] then l else Final(max, Step(max, l, es[0]).state, es[1..])
  }

  /** What the limiter's holders amount to. */
  function Abstract(l: Limiter): Counter {
    map r | r in l.holders :: Live(l.holders[r].ip, l.holders[r].permit)
  }

  lemma LookupRefines(max: nat, l: Limiter, r: RequestId, ip: Ip)
    requires r !in l.holders
    ensures Abstract(LookedUp(max, l, r, ip)) == Abstract(l)[r := Live(ip, false)]
  {
  }

  lemma AcquireRefines(max: nat, l: Limiter, r: RequestId)
    requires Inv(max, l)
    ensures var s, c := Step(max, l, Acquire(r)), CounterStep(max, Abstract(l), Acquire(r));
            s.granted == c.granted && Abstract(s.state) == c.state
  {
    if r in l.holders {
      OwnSemaphore(max, l, r);
      assert LivePermits(Abstract(l), l.holders[r].ip) == Permits(l.holders, l.holders[r].ip);
    }
  }

  lemma EndRefines(max: nat, l: Limiter, e: Event)
    requires Inv(max, l) && (e.Release? || e.Drop?)
    ensures var s, c := Step(max, l, e), CounterStep(max, Abstract(l), e);
            s.granted == c.granted && Abstract(s.state) == c.state
  {
    if e.r in l.holders { OwnSemaphore(max, l, e.r); }
  }

  lemma StepRefines(max: nat, l: Limiter, e: Event)
    requires Inv(max, l)
    ensures var s, c := Step(max, l, e), CounterStep(max, Abstract(l), e);
            s.granted == c.granted && Abstract(s.state) == c.state
  {
    match e
    case Lookup(r, ip) => if r !in l.holders { LookupRefines(max, l, r, ip); }
    case Acquire(r) => AcquireRefines(max, l, r);
    case _ => EndRefines(max, l, e);
  }

  lemma {:induction false} RunRefines(max: nat, l: Limiter, es: seq<Event>)
    requires Inv(max, l)
    ensures Run(max, l, es) == CounterRun(max, Abstract(l), es) && Inv(max, Final(max, l, es))
    decreases |es|
  {
    hide Inv, Step, CounterStep, Abstract;
    if es != [] {
      StepRefines(max, l, es[0]);
      StepKeepsInv(max, l, es[0]);
      RunRefines(max, Step(max, l, es[0]).state, es[1..]);
    }
  }

  /** Every interleaving of lookups, acquisitions, releases and drops, sweeps included, grants and
      refuses exactly as the counter does. */
  lemma SweepsAreInvisible(max: nat, es: seq<Event>)
    ensures Run(max, EMPTY, es) == CounterRun(max, map[], es)
  {
    assert Abstract(EMPTY) == map[];
    RunRefines(max, EMPTY, es);
  }

  /** In every reachable state no address has more than `max` live permits, and an acquisition is
      refused exactly when its address has `max` of them. */
  lemma CeilingHolds(max: nat, es: seq<Event>, ip: Ip, r: RequestId)
    ensures var l := Final(max, EMPTY, es);
            && |Permits(l.holders, ip)| <= max
            && (r in l.holders && !l.holders[r].permit ==>
                  (Step(max, l, Acquire(r)).granted == Some(false)
                   <==> |Permits(l.holders, l.holders[r].ip)| == max))
  {
    RunRefines(max, EMPTY, es);
    var l := Final(max, EMPTY, es);
    if ip !in l.semaphores { assert Permits(l.holders, ip) == {}; }
    if r in l.holders { OwnSemaphore(max, l, r); }
  }
}
