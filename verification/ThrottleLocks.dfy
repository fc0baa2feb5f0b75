/**
  When the login throttle locks, for how long, and what it answers meanwhile, from nothing but the
  times of a key's own operations.
*/
module ThrottleLocks {
  import opened Wrappers
  import opened LoginThrottle

  /** What a key's operations so far amount to; operations are named by their position. */
  datatype Phase = Clear | Counting(opener: nat, count: nat) | Locked(locker: nat)

  predicate Sorted(es: seq<Event>) { forall i, j :: 0 <= i < j < |es| ==> es[i].now <= es[j].now }

  /** The lock set by operation `i` is still on at `now`. */
  predicate LockOn(cfg: Config, es: seq<Event>, i: nat, now: int)
    requires i < |es|
  {
    now < es[i].now + cfg.lockout
  }

  /** The window a failure at position `n` falls into, and which failure of the window it is. */
  function RankIn(cfg: Config, es: seq<Event>, p: Phase, n: nat): (nat, nat)
    requires n < |es| && (p.Counting? ==> p.opener < |es|)
  {
    if p.Counting? && es[n].now - es[p.opener].now <= cfg.window then (p.opener, p.count + 1) else (n, 1)
  }

  function After(cfg: Config, es: seq<Event>, n: nat): (p: Phase)
    requires n <= |es|
    ensures (p.Counting? ==> p.opener < n) && (p.Locked? ==> p.locker < n)
  {
    if n == 0 then Clear
    else
      var p, e := After(cfg, es, n - 1), es[n - 1];
      match e.op
      case Success => Clear
      case Ask => if p.Locked? && !LockOn(cfg, es, p.locker, e.now) then Clear else p
      case Failure =>
        if p.Locked? && LockOn(cfg, es, p.locker, e.now) then p
        else
          var (opener, count) := RankIn(cfg, es, p, n - 1);
          if count >= cfg.maxFailures then Locked(n - 1) else Counting(opener, count)
  }

  /** Operation `n` is a failure that sets a lock. */
  predicate Locks(cfg: Config, es: seq<Event>, n: nat)
    requires n < |es|
  {
    After(cfg, es, n + 1) == Locked(n)
  }

  /** What operation `n` is told. */
  function Told(cfg: Config, es: seq<Event>, n: nat): Answer
    requires n < |es|
  {
    var p, e := After(cfg, es, n), es[n];
    if e.op.Success? then Answer(None, false)
    else if p.Locked? && LockOn(cfg, es, p.locker, e.now) then
      Answer(Some(es[p.locker].now + cfg.lockout - e.now), false)
    else if e.op.Ask? then Answer(None, false)
    else Answer(if Locks(cfg, es, n) then Some(cfg.lockout) else None, true)
  }

  // ---------------------------------------------------------------- the throttle tells that

  /** The automaton's record, in terms of positions. */
  ghost predicate Stands(cfg: Config, es: seq<Event>, p: Phase, st: Option<Attempt>)
    requires (p.Counting? ==> p.opener < |es|) && (p.Locked? ==> p.locker < |es|)
  {
    match p
    case Clear => st == None
    case Counting(opener, count) => st == Some(Attempt(count, es[opener].now, None))
    case Locked(locker) => st.Some? && st.value.lockedUntil == Some(es[locker].now + cfg.lockout)
  }

  lemma StepStands(cfg: Config, es: seq<Event>, n: nat, st: Option<Attempt>)
    requires n < |es| && Sorted(es) && Stands(cfg, es, After(cfg, es, n), st)
    ensures var (next, answer) := KeyStep(cfg, st, es[n].op, es[n].now);
            Stands(cfg, es, After(cfg, es, n + 1), next) && answer == Told(cfg, es, n)
  {
    var p := After(cfg, es, n);
    if p.Counting? { assert es[p.opener].now <= es[n].now; }
    if p.Locked? { assert es[p.locker].now <= es[n].now; }
  }

  lemma {:induction false} RunTells(cfg: Config, es: seq<Event>, n: nat, st: Option<Attempt>, i: nat)
    requires n <= i < |es| && Sorted(es) && Stands(cfg, es, After(cfg, es, n), st)
    ensures KeyRun(cfg, st, es[n..])[i - n] == Told(cfg, es, i)
    decreases |es| - n
  {
    hide KeyStep, Stands, After, Told, Sorted;
    StepStands(cfg, es, n, st);
    var (next, answer) := KeyStep(cfg, st, es[n].op, es[n].now);
    assert es[n..][0] == es[n] && es[n..][1..] == es[n + 1..];
    assert KeyRun(cfg, st, es[n..]) == [answer] + KeyRun(cfg, next, es[n + 1..]);
    if n < i { RunTells(cfg, es, n + 1, next, i); }
  }

  lemma {:induction false} EventsAreSorted(es: seq<Event>, key: string, from: int)
    requires Clocked(es, from)
    ensures Sorted(EventsOf(es, key))
    ensures forall i :: 0 <= i < |EventsOf(es, key)| ==> from <= EventsOf(es, key)[i].now
    decreases |es|
  {
    if es != [] {
      EventsAreSorted(es[1..], key, es[0].now);
    }
  }

  /** Over every run of the pruned throttle, a key is told what its own times say. */
  lemma AnswersAreTold(cfg: Config, es: seq<Event>, key: string, from: int, i: nat)
    requires PruningIsSafe(cfg) && Clocked(es, from) && i < |EventsOf(es, key)|
    ensures var answers := AnswersOf(es, Run(cfg, map[], es), key);
            |answers| == |EventsOf(es, key)| && answers[i] == Told(cfg, EventsOf(es, key), i)
  {
    var own := EventsOf(es, key);
    IndependentWhenSafe(cfg, es, key, from);
    EventsAreSorted(es, key, from);
    assert own[0..] == own;
    hide Run, EventsOf, AnswersOf, Told;
    RunTells(cfg, own, 0, None, i);
  }

  // ---------------------------------------------------------------- what that means

  /** How many of the operations in positions a to b are failures. */
  function Failures(es: seq<Event>, a: nat, b: nat): nat
    requires a <= b <= |es|
  {
    if a == b then 0 else Failures(es, a, b - 1) + if es[b - 1].op.Failure? then 1 else 0
  }

  /** While a window is open, the count is the number of failures since its opener: all inside the
      window, fewer than the limit, with no success among them. */
  lemma {:induction false} CountIsFailures(cfg: Config, es: seq<Event>, n: nat)
    requires n <= |es| && Sorted(es) && After(cfg, es, n).Counting?
    ensures var p := After(cfg, es, n);
            && es[p.opener].op.Failure? && p.count == Failures(es, p.opener, n) && 1 <= p.count < cfg.maxFailures
            && (forall k :: p.opener <= k < n ==> !es[k].op.Success?)
            && (forall k :: p.opener <= k < n && es[k].op.Failure? ==> es[k].now - es[p.opener].now <= cfg.window)
  {
    if After(cfg, es, n - 1).Counting? { CountIsFailures(cfg, es, n - 1); }
  }

  /** A failure that is not refused by a lock sets one exactly when it is the `maxFailures`-th of its
      window, which it opens itself after a success, after a lock, or after more than a window. */
  lemma LocksIff(cfg: Config, es: seq<Event>, n: nat)
    requires n < |es| && Sorted(es) && es[n].op.Failure?
    requires var p := After(cfg, es, n); p.Locked? ==> !LockOn(cfg, es, p.locker, es[n].now)
    ensures var p := After(cfg, es, n);
            var opener := if p.Counting? && es[n].now - es[p.opener].now <= cfg.window then p.opener else n;
            Locks(cfg, es, n) <==> Failures(es, opener, n + 1) >= cfg.maxFailures
  {
    if After(cfg, es, n).Counting? { CountIsFailures(cfg, es, n); }
  }

  lemma {:induction false} StaysLocked(cfg: Config, es: seq<Event>, i: nat, n: nat)
    requires i < n <= |es| && Locks(cfg, es, i)
    requires forall k :: i < k < n ==> !es[k].op.Success? && LockOn(cfg, es, i, es[k].now)
    ensures After(cfg, es, n) == Locked(i)
  {
    if n > i + 1 { StaysLocked(cfg, es, i, n - 1); }
  }

  /** After a lock at time t, with no success since, every question and every failure before
      t + lockout is told the time that remains, and counts nothing. */
  lemma LockHolds(cfg: Config, es: seq<Event>, i: nat, n: nat)
    requires i < n < |es| && Sorted(es) && Locks(cfg, es, i)
    requires forall k :: i < k <= n ==> !es[k].op.Success?
    requires es[n].now < es[i].now + cfg.lockout
    ensures Told(cfg, es, n) == Answer(Some(es[i].now + cfg.lockout - es[n].now), false)
  {
    forall k | i < k < n ensures LockOn(cfg, es, i, es[k].now) {
      assert es[k].now <= es[n].now;
    }
    StaysLocked(cfg, es, i, n);
    hide After;
  }

  /** From t + lockout on the lock is gone: a question is told nothing, and a failure counts as the
      first of a new window. */
  lemma LockEnds(cfg: Config, es: seq<Event>, i: nat, n: nat)
    requires i < n < |es| && Sorted(es) && Locks(cfg, es, i)
    requires forall k :: i < k < n ==> !es[k].op.Success? && es[k].now < es[i].now + cfg.lockout
    requires es[n].now >= es[i].now + cfg.lockout
    ensures Told(cfg, es, n).lock == if es[n].op.Failure? && cfg.maxFailures <= 1 then Some(cfg.lockout) else None
    ensures Told(cfg, es, n).counted == es[n].op.Failure?
    ensures After(cfg, es, n + 1) == if !es[n].op.Failure? then Clear
                                     else if cfg.maxFailures <= 1 then Locked(n) else Counting(n, 1)
  {
    StaysLocked(cfg, es, i, n);
  }

  /** After a success nothing is held against the key. */
  lemma SuccessClears(cfg: Config, es: seq<Event>, n: nat)
    requires n < |es| && es[n].op.Success?
    ensures After(cfg, es, n + 1) == Clear
  {
  }
}
