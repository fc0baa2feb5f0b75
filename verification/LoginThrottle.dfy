/**
  The in-memory failure throttle: a map of per-key attempts with lockout, pruned globally on
  every recorded failure. The reference is one unpruned automaton per key.
  Times are nanoseconds of a clock that does not go back.
*/
module LoginThrottle {
  import opened Wrappers

  const HOUR: int := 3_600_000_000_000

  datatype Config = Config(maxFailures: nat, window: nat, lockout: nat)

  datatype Attempt = Attempt(failures: nat, windowStarted: int, lockedUntil: Option<int>)

  /** What an operation returns, and whether it counted a failure. */
  datatype Answer = Answer(lock: Option<int>, counted: bool)

  function Fresh(now: int): Attempt { Attempt(0, now, None) }

  /** `record_failure_at` on the key's own record. */
  function Fail(cfg: Config, a: Attempt, now: int): (Attempt, Answer) {
    if a.lockedUntil.Some? && a.lockedUntil.value > now then
      (a, Answer(Some(a.lockedUntil.value - now), false))
    else
      var unlocked := if a.lockedUntil.Some? then Fresh(now) else a;
      var current := if Elapsed(now, unlocked.windowStarted) > cfg.window then Fresh(now) else unlocked;
      var failures := current.failures + 1;
      if failures >= cfg.maxFailures then
        (Attempt(failures, current.windowStarted, Some(now + cfg.lockout)), Answer(Some(cfg.lockout), true))
      else (Attempt(failures, current.windowStarted, None), Answer(None, true))
  }

  // ---------------------------------------------------------------- the throttle

  type Entries = map<string, Attempt>

  predicate Keeps(a: Attempt, now: int) {
    match a.lockedUntil
    case Some(until) => until > now
    case None => Elapsed(now, a.windowStarted) <= HOUR
  }

  function Prune(entries: Entries, now: int): Entries {
    map k | k in entries && Keeps(entries[k], now) :: entries[k]
  }

  datatype Op = Ask | Failure | Success

  datatype Event = Event(op: Op, key: string, now: int)

  datatype Stepped = Stepped(entries: Entries, answer: Answer)

  function Step(cfg: Config, entries: Entries, e: Event): Stepped {
    match e.op
    case Ask =>
      if e.key !in entries || entries[e.key].lockedUntil.None? then Stepped(entries, Answer(None, false))
      else
        var until := entries[e.key].lockedUntil.value;
        if until > e.now then Stepped(entries, Answer(Some(until - e.now), false))
        else Stepped(entries - {e.key}, Answer(None, false))
    case Failure =>
      var kept := Prune(entries, e.now);
      var (a, answer) := Fail(cfg, if e.key in kept then kept[e.key] else Fresh(e.now), e.now);
      Stepped(kept[e.key := a], answer)
    case Success => Stepped(entries - {e.key}, Answer(None, false))
  }

  class Throttle {
    const cfg: Config
    var entries: Entries

    constructor (cfg: Config)
      ensures this.cfg == cfg && entries == map[]
    {
      this.cfg := cfg;
      entries := map[];
    }

    method LockedForAt(key: string, now: int) returns (lock: Option<int>)
      modifies this
      ensures Step(cfg, old(entries), Event(Ask, key, now)) == Stepped(entries, Answer(lock, false))
    {
      if key !in entries {
        return None;
      }
      match entries[key].lockedUntil
      case Some(until) =>
        if until > now {
          return Some(until - now);
        }
        entries := entries - {key};
        return None;
      case None =>
        return None;
    }

    method RecordFailureAt(key: string, now: int) returns (lock: Option<int>)
      modifies this
      ensures var s := Step(cfg, old(entries), Event(Failure, key, now));
              entries == s.entries && lock == s.answer.lock
      ensures forall k :: k != key ==>
                (k in entries <==>
                   k in old(entries) && match old(entries)[k].lockedUntil
                                        case Some(until) => now < until
                                        case None => now - old(entries)[k].windowStarted <= 3_600_000_000_000)
      ensures forall k :: k != key && k in entries ==> entries[k] == old(entries)[k]
    {
      entries := Prune(entries, now);
      var a := if key in entries then entries[key] else Fresh(now);
      if a.lockedUntil.Some? {
        if a.lockedUntil.value > now {
          entries := entries[key := a];
          return Some(a.lockedUntil.value - now);
        }
        a := Fresh(now);
      }
      if Elapsed(now, a.windowStarted) > cfg.window {
        a := a.(failures := 0, windowStarted := now);
      }
      a := a.(failures := a.failures + 1);
      if a.failures >= cfg.maxFailures {
        a := a.(lockedUntil := Some(now + cfg.lockout));
        lock := Some(cfg.lockout);
      } else {
        lock := None;
      }
      entries := entries[key := a];
    }

    method RecordSuccess(key: string)
      modifies this
      ensures forall now :: Step(cfg, old(entries), Event(Success, key, now)).entries == entries
    {
      entries := entries - {key};
    }
  }

  // ---------------------------------------------------------------- the reference automaton

  /** One key, no pruning. */
  function KeyStep(cfg: Config, st: Option<Attempt>, op: Op, now: int): (Option<Attempt>, Answer) {
    match op
    case Ask =>
      if st.None? || st.value.lockedUntil.None? then (st, Answer(None, false))
      else if st.value.lockedUntil.value > now then
        (st, Answer(Some(st.value.lockedUntil.value - now), false))
      else (None, Answer(None, false))
    case Failure =>
      var (a, answer) := Fail(cfg, if st.Some? then st.value else Fresh(now), now);
      (Some(a), answer)
    case Success => (None, Answer(None, false))
  }

  // ---------------------------------------------------------------- runs

  predicate Clocked(es: seq<Event>, from: int) {
    es != [] ==> from <= es[0].now && Clocked(es[1..], es[0].now)
  }

  function Run(cfg: Config, entries: Entries, es: seq<Event>): (answers: seq<Answer>)
    ensures |answers| == |es|
    decreases |es|
  {
    if es == [] then []
    else
      var s := Step(cfg, entries, es[0]);
      [s.answer] + Run(cfg, s.entries, es[1..])
  }

  function KeyRun(cfg: Config, st: Option<Attempt>, es: seq<Event>): (answers: seq<Answer>)
    ensures |answers| == |es|
    decreases |es|
  {
    if es == [] then []
    else
      var (next, answer) := KeyStep(cfg, st, es[0].op, es[0].now);
      [answer] + KeyRun(cfg, next, es[1..])
  }

  function EventsOf(es: seq<Event>, key: string): seq<Event> {
    if es == [] then []
    else
      var rest := EventsOf(es[1..], key);
      if es[0].key == key then [es[0]] + rest else rest
  }

  function AnswersOf(es: seq<Event>, answers: seq<Answer>, key: string): seq<Answer>
    requires |es| == |answers|
  {
    if es == [] then []
    else
      var rest := AnswersOf(es[1..], answers[1..], key);
      if es[0].key == key then [answers[0]] + rest else rest
  }

  // ---------------------------------------------------------------- independence

  /** Pruning may not matter: it only drops records the key itself would start afresh. */
  predicate PruningIsSafe(cfg: Config) { cfg.window <= HOUR || cfg.maxFailures <= 1 }

  function Lookup(entries: Entries, key: string): Option<Attempt> {
    if key in entries then Some(entries[key]) else None
  }

  /** The throttle holds the automaton's record, or has dropped one that no longer matters. */
  ghost predicate Tracks(cfg: Config, held: Option<Attempt>, st: Option<Attempt>, now: int) {
    && (st.Some? && cfg.maxFailures <= 1 ==> st.value.lockedUntil.Some?)
    && (held == st || (held.None? && !Keeps(st.value, now)))
  }

  lemma OwnStepTracks(cfg: Config, entries: Entries, e: Event, st: Option<Attempt>, from: int)
    requires PruningIsSafe(cfg) && from <= e.now && Tracks(cfg, Lookup(entries, e.key), st, from)
    ensures var s := Step(cfg, entries, e);
            var (next, answer) := KeyStep(cfg, st, e.op, e.now);
            s.answer == answer && Tracks(cfg, Lookup(s.entries, e.key), next, e.now)
  {
  }

  lemma OtherStepTracks(cfg: Config, entries: Entries, e: Event, key: string, st: Option<Attempt>, from: int)
    requires PruningIsSafe(cfg) && from <= e.now && Tracks(cfg, Lookup(entries, key), st, from) && key != e.key
    ensures Tracks(cfg, Lookup(Step(cfg, entries, e).entries, key), st, e.now)
  {
  }

  lemma {:induction false} RunTracks(cfg: Config, entries: Entries, es: seq<Event>, key: string,
                                     st: Option<Attempt>, from: int)
    requires PruningIsSafe(cfg) && Clocked(es, from) && Tracks(cfg, Lookup(entries, key), st, from)
    ensures AnswersOf(es, Run(cfg, entries, es), key) == KeyRun(cfg, st, EventsOf(es, key))
    decreases |es|
  {
    hide Step, KeyStep, Tracks;
    if es != [] {
      var e := es[0];
      var s, answers := Step(cfg, entries, e), Run(cfg, entries, es);
      assert answers[0] == s.answer && answers[1..] == Run(cfg, s.entries, es[1..]);
      if e.key == key {
        OwnStepTracks(cfg, entries, e, st, from);
        var (next, answer) := KeyStep(cfg, st, e.op, e.now);
        RunTracks(cfg, s.entries, es[1..], key, next, e.now);
        var own := EventsOf(es, key);
        assert own[0] == e && own[1..] == EventsOf(es[1..], key);
        assert KeyRun(cfg, st, own) == [answer] + KeyRun(cfg, next, own[1..]);
      } else {
        OtherStepTracks(cfg, entries, e, key, st, from);
        RunTracks(cfg, s.entries, es[1..], key, st, e.now);
        assert EventsOf(es, key) == EventsOf(es[1..], key);
        assert AnswersOf(es, answers, key) == AnswersOf(es[1..], answers[1..], key);
      }
    }
  }

  /** What a key is told in a run is what its own automaton tells it. */
  ghost predicate Independent(cfg: Config, es: seq<Event>, key: string) {
    AnswersOf(es, Run(cfg, map[], es), key) == KeyRun(cfg, None, EventsOf(es, key))
  }

  lemma IndependentWhenSafe(cfg: Config, es: seq<Event>, key: string, from: int)
    requires PruningIsSafe(cfg) && Clocked(es, from)
    ensures Independent(cfg, es, key)
  {
    RunTracks(cfg, map[], es, key, None, from);
  }

  function FailuresAt(key: string, now: int, n: nat, then_: seq<Event>): seq<Event> {
    if n == 0 then then_ else [Event(Failure, key, now)] + FailuresAt(key, now, n - 1, then_)
  }

  /** Unfolding both runs on a run of one key only. */
  lemma OneKeyRun(cfg: Config, entries: Entries, e: Event, rest: seq<Event>)
    ensures var s := Step(cfg, entries, e);
            var (next, answer) := KeyStep(cfg, Lookup(entries, e.key), e.op, e.now);
            var es := [e] + rest;
            && AnswersOf(es, Run(cfg, entries, es), e.key)
               == [s.answer] + AnswersOf(rest, Run(cfg, s.entries, rest), e.key)
            && KeyRun(cfg, Lookup(entries, e.key), EventsOf(es, e.key))
               == [answer] + KeyRun(cfg, next, EventsOf(rest, e.key))
  {
    hide Step, KeyStep;
    var es := [e] + rest;
    assert es[1..] == rest;
    var own := EventsOf(es, e.key);
    assert own[0] == e && own[1..] == EventsOf(rest, e.key);
    var answers := Run(cfg, entries, es);
    assert answers[1..] == Run(cfg, Step(cfg, entries, e).entries, rest);
  }

  /** A key with `done` failures in a window that began at time 0. */
  function Failed(done: nat): Entries { if done == 0 then map[] else map["k" := Attempt(done, 0, None)] }

  function LateFailure(): Event { Event(Failure, "k", HOUR + 1) }

  /** From a key with `done` failures, the throttle and the automaton part company on `es`. */
  ghost predicate PartsOn(cfg: Config, done: nat, es: seq<Event>) {
    AnswersOf(es, Run(cfg, Failed(done), es), "k") != KeyRun(cfg, Lookup(Failed(done), "k"), EventsOf(es, "k"))
  }

  lemma PartsAtOnce(cfg: Config, done: nat)
    requires cfg.window > HOUR && 2 <= cfg.maxFailures && done == cfg.maxFailures - 1
    ensures PartsOn(cfg, done, [LateFailure()])
  {
    AnswersDiffer(cfg, done);
    hide Step, KeyStep;
    OneKeyRun(cfg, Failed(done), LateFailure(), []);
    assert [LateFailure()] + [] == [LateFailure()];
  }

  lemma PartsLater(cfg: Config, done: nat, rest: seq<Event>)
    requires done + 1 < cfg.maxFailures && PartsOn(cfg, done + 1, rest)
    ensures PartsOn(cfg, done, [Event(Failure, "k", 0)] + rest)
  {
    FailOnce(cfg, done);
    hide Step, KeyStep, AnswersOf, Run, KeyRun, EventsOf, Failed, Lookup;
    OneKeyRun(cfg, Failed(done), Event(Failure, "k", 0), rest);
    TailsDiffer(Answer(None, true), AnswersOf(rest, Run(cfg, Failed(done + 1), rest), "k"),
                KeyRun(cfg, Lookup(Failed(done + 1), "k"), EventsOf(rest, "k")));
  }

  /** `n` failures at one instant, then one after more than an hour but inside the window. */
  lemma {:induction false} PrunedTooEarly(cfg: Config, n: nat, done: nat)
    requires cfg.window > HOUR && 2 <= cfg.maxFailures && done + n == cfg.maxFailures - 1
    ensures Clocked(FailuresAt("k", 0, n, [LateFailure()]), 0)
    ensures PartsOn(cfg, done, FailuresAt("k", 0, n, [LateFailure()]))
    decreases n
  {
    hide PartsOn;
    if n == 0 {
      PartsAtOnce(cfg, done);
    } else {
      PrunedTooEarly(cfg, n - 1, done + 1);
      PartsLater(cfg, done, FailuresAt("k", 0, n - 1, [LateFailure()]));
    }
  }

  lemma TailsDiffer(a: Answer, x: seq<Answer>, y: seq<Answer>)
    requires x != y
    ensures [a] + x != [a] + y
  {
    assert ([a] + x)[1..] == x && ([a] + y)[1..] == y;
  }

  lemma AnswersDiffer(cfg: Config, done: nat)
    requires cfg.window > HOUR && 2 <= cfg.maxFailures && done == cfg.maxFailures - 1
    ensures Step(cfg, Failed(done), LateFailure()).answer == Answer(None, true)
    ensures KeyStep(cfg, Lookup(Failed(done), "k"), Failure, HOUR + 1).1 == Answer(Some(cfg.lockout), true)
  {
  }

  lemma FailOnce(cfg: Config, done: nat)
    requires done + 1 < cfg.maxFailures
    ensures Step(cfg, Failed(done), Event(Failure, "k", 0)) == Stepped(Failed(done + 1), Answer(None, true))
    ensures KeyStep(cfg, Lookup(Failed(done), "k"), Failure, 0)
         == (Lookup(Failed(done + 1), "k"), Answer(None, true))
  {
  }

  /** The global pruning is invisible to every key in every run exactly when the window is at
      most an hour, or a single failure already locks. */
  lemma PruningInvisibleIff(cfg: Config)
    ensures (forall es, key :: Clocked(es, 0) ==> Independent(cfg, es, key)) <==> PruningIsSafe(cfg)
  {
    if PruningIsSafe(cfg) {
      forall es, key | Clocked(es, 0) ensures Independent(cfg, es, key) {
        IndependentWhenSafe(cfg, es, key, 0);
      }
    } else {
      PrunedTooEarly(cfg, cfg.maxFailures - 1, 0);
      var es := FailuresAt("k", 0, cfg.maxFailures - 1, [LateFailure()]);
      assert Clocked(es, 0) && !Independent(cfg, es, "k");
    }
  }

  // ---------------------------------------------------------------- how many failures count

  /** Counted failures of a one-key run inside the closed interval [a, b]. */
  function Counted(es: seq<Event>, answers: seq<Answer>, a: int, b: int): nat
    requires |es| == |answers|
  {
    if es == [] then 0
    else (if answers[0].counted && a <= es[0].now <= b then 1 else 0) + Counted(es[1..], answers[1..], a, b)
  }

  predicate NoSuccessWithin(es: seq<Event>, a: int, b: int) {
    forall i :: 0 <= i < |es| ==> !(es[i].op.Success? && a <= es[i].now <= b)
  }

  /** How many windows can still start between `e` and `b`, a window length apart. */
  function Windows(cfg: Config, e: int, b: int): nat
    requires 1 <= cfg.window
  {
    if e > b then 0 else (b - e) / cfg.window + 1
  }

  /** The earliest moment the key can open another window. */
  function NextWindow(cfg: Config, st: Option<Attempt>, now: int): int {
    match st
    case None => now
    case Some(a) => Max(now, if a.lockedUntil.Some? then a.lockedUntil.value else a.windowStarted + cfg.window)
  }

  /** How many failures the current window can still count. */
  function Room(cfg: Config, st: Option<Attempt>): int {
    if st.Some? && st.value.lockedUntil.None? then cfg.maxFailures - st.value.failures else 0
  }

  predicate Bounded(cfg: Config) { 1 <= cfg.maxFailures && 1 <= cfg.window <= cfg.lockout }

  /** What the automaton can still count up to `b`. */
  function Budget(cfg: Config, st: Option<Attempt>, now: int, b: int): int
    requires Bounded(cfg)
  {
    Room(cfg, st) + Times(cfg.maxFailures, Windows(cfg, NextWindow(cfg, st, now), b))
  }

  predicate AttemptInv(cfg: Config, st: Option<Attempt>, now: int) {
    st.Some? && st.value.lockedUntil.None? ==>
      1 <= st.value.failures < cfg.maxFailures && st.value.windowStarted <= now
  }

  lemma WindowsShrink(cfg: Config, e: int, e': int, b: int)
    requires Bounded(cfg) && e <= e'
    ensures Windows(cfg, e', b) <= Windows(cfg, e, b)
    ensures Times(cfg.maxFailures, Windows(cfg, e', b)) <= Times(cfg.maxFailures, Windows(cfg, e, b))
  {
    if e' <= b {
      assert (b - e') / cfg.window <= (b - e) / cfg.window by { DivMono(b - e', b - e, cfg.window); }
    }
    MulMono(cfg.maxFailures, Windows(cfg, e', b), Windows(cfg, e, b));
  }

  lemma DivMono(x: nat, y: nat, d: nat)
    requires x <= y && 1 <= d
    ensures x / d <= y / d
  {
    if x / d > y / d {
      MulMono(d, y / d + 1, x / d);
    }
  }

  lemma MulMono(m: nat, x: nat, y: nat)
    requires x <= y
    ensures m * x <= m * y
  {
  }

  lemma OpenWindow(cfg: Config, now: int, b: int)
    requires Bounded(cfg) && now <= b
    ensures Windows(cfg, now, b) == 1 + Windows(cfg, now + cfg.window, b)
    ensures Times(cfg.maxFailures, Windows(cfg, now, b))
         == cfg.maxFailures + Times(cfg.maxFailures, Windows(cfg, now + cfg.window, b))
  {
    var w := cfg.window;
    var q, r := (b - now) / w, (b - now) % w;
    assert b - now == w * q + r;
    if now + w <= b {
      assert b - now - w == w * (q - 1) + r;
      DivUnique(b - now - w, w, q - 1, r);
    } else {
      DivUnique(b - now, w, 0, b - now);
    }
  }

  lemma DivUnique(x: int, d: nat, q: int, r: int)
    requires 1 <= d && x == d * q + r && 0 <= r < d
    ensures x / d == q
  {
    var q' := x / d;
    assert d * (q' - q) == r - x % d;
    if q' > q { MulMono(d, 1, q' - q); } else if q' < q { MulMono(d, 1, q - q'); }
  }

  /** One step inside the interval spends from the budget what it counts. */
  lemma BudgetStep(cfg: Config, st: Option<Attempt>, op: Op, from: int, now: int, b: int)
    requires Bounded(cfg) && AttemptInv(cfg, st, from) && from <= now <= b && !op.Success?
    ensures var (next, answer) := KeyStep(cfg, st, op, now);
            && AttemptInv(cfg, next, now)
            && Budget(cfg, next, now, b) + (if answer.counted then 1 else 0) <= Budget(cfg, st, from, b)
  {
    hide Windows, Times;
    var (next, answer) := KeyStep(cfg, st, op, now);
    OpenWindow(cfg, now, b);
    var old_, new_ := NextWindow(cfg, st, from), NextWindow(cfg, next, now);
    if old_ <= new_ { WindowsShrink(cfg, old_, new_, b); }
    if old_ <= now { WindowsShrink(cfg, old_, now, b); }
    if now + cfg.window <= new_ { WindowsShrink(cfg, now + cfg.window, new_, b); }
  }

  lemma {:induction false} CountedAfter(es: seq<Event>, answers: seq<Answer>, a: int, b: int)
    requires |es| == |answers| && Clocked(es, b + 1)
    ensures Counted(es, answers, a, b) == 0
  {
    if es != [] {
      assert Clocked(es[1..], b + 1);
      CountedAfter(es[1..], answers[1..], a, b);
    }
  }

  lemma {:induction false} CountedWithinBudget(cfg: Config, st: Option<Attempt>, es: seq<Event>, from: int,
                                               a: int, b: int)
    requires Bounded(cfg) && AttemptInv(cfg, st, from) && Clocked(es, from) && a <= from
    requires NoSuccessWithin(es, a, b)
    ensures Counted(es, KeyRun(cfg, st, es), a, b) <= Max(0, Budget(cfg, st, from, b))
    decreases |es|
  {
    hide KeyStep, Budget, AttemptInv;
    if es != [] {
      var e, answers := es[0], KeyRun(cfg, st, es);
      var (next, answer) := KeyStep(cfg, st, e.op, e.now);
      assert answers[0] == answer && answers[1..] == KeyRun(cfg, next, es[1..]);
      if e.now > b {
        CountedAfter(es, answers, a, b);
      } else {
        BudgetStep(cfg, st, e.op, from, e.now, b);
        BudgetIsNatural(cfg, next, e.now, b);
        CountedWithinBudget(cfg, next, es[1..], e.now, a, b);
      }
    }
  }

  lemma BudgetIsNatural(cfg: Config, st: Option<Attempt>, now: int, b: int)
    requires Bounded(cfg) && AttemptInv(cfg, st, now)
    ensures 0 <= Budget(cfg, st, now, b)
  {
  }

  /** Whatever the state, at most two windows more than the interval has room for. */
  lemma BudgetAtMost(cfg: Config, st: Option<Attempt>, now: int, a: int, b: int)
    requires Bounded(cfg) && AttemptInv(cfg, st, now) && a <= now && a <= b
    ensures Budget(cfg, st, now, b) <= Times(cfg.maxFailures, (b - a) / cfg.window + 2)
  {
    WindowsShrink(cfg, a, NextWindow(cfg, st, now), b);
    var n := (b - a) / cfg.window + 1;
    assert cfg.maxFailures * (n + 1) == cfg.maxFailures * n + cfg.maxFailures;
  }

  lemma {:induction false} CountedInInterval(cfg: Config, st: Option<Attempt>, es: seq<Event>, from: int,
                                             a: int, b: int)
    requires Bounded(cfg) && AttemptInv(cfg, st, from) && Clocked(es, from) && a <= b
    requires NoSuccessWithin(es, a, b)
    ensures Counted(es, KeyRun(cfg, st, es), a, b) <= Times(cfg.maxFailures, (b - a) / cfg.window + 2)
    decreases |es|
  {
    hide KeyStep, Budget;
    if es == [] {
    } else if es[0].now >= a {
      CountedWithinBudget(cfg, st, es, es[0].now, a, b);
      BudgetIsNatural(cfg, st, es[0].now, b);
      BudgetAtMost(cfg, st, es[0].now, a, b);
    } else {
      var (next, answer) := KeyStep(cfg, st, es[0].op, es[0].now);
      assert KeyRun(cfg, st, es)[1..] == KeyRun(cfg, next, es[1..]);
      KeyStepInv(cfg, st, es[0].op, from, es[0].now);
      CountedInInterval(cfg, next, es[1..], es[0].now, a, b);
    }
  }

  lemma KeyStepInv(cfg: Config, st: Option<Attempt>, op: Op, from: int, now: int)
    requires Bounded(cfg) && AttemptInv(cfg, st, from) && from <= now
    ensures AttemptInv(cfg, KeyStep(cfg, st, op, now).0, now)
  {
  }

  lemma {:induction false} EventsOfRun(es: seq<Event>, key: string, from: int)
    requires Clocked(es, from)
    ensures Clocked(EventsOf(es, key), from)
    ensures forall e :: e in EventsOf(es, key) ==> e in es && e.key == key
  {
    if es != [] {
      EventsOfRun(es[1..], key, es[0].now);
      if es[0].key == key { assert EventsOf(es, key)[1..] == EventsOf(es[1..], key); }
    }
  }

  lemma {:induction false} AnswersOfLength(es: seq<Event>, answers: seq<Answer>, key: string)
    requires |es| == |answers|
    ensures |AnswersOf(es, answers, key)| == |EventsOf(es, key)|
  {
    if es != [] { AnswersOfLength(es[1..], answers[1..], key); }
  }

  /** Over every run of the pruned throttle, an interval without a success for the key holds at
      most `maxFailures * (span / window + 2)` counted failures of that key. */
  lemma FailureBound(cfg: Config, es: seq<Event>, key: string, from: int, a: int, b: int)
    requires Bounded(cfg) && PruningIsSafe(cfg) && Clocked(es, from) && a <= b
    requires forall e :: e in es && e.key == key && e.op.Success? ==> !(a <= e.now <= b)
    ensures var answers := Run(cfg, map[], es);
            && |AnswersOf(es, answers, key)| == |EventsOf(es, key)|
            && Counted(EventsOf(es, key), AnswersOf(es, answers, key), a, b)
               <= cfg.maxFailures * ((b - a) / cfg.window + 2)
  {
    IndependentWhenSafe(cfg, es, key, from);
    EventsOfRun(es, key, from);
    AnswersOfLength(es, Run(cfg, map[], es), key);
    var own := EventsOf(es, key);
    forall i | 0 <= i < |own| ensures !(own[i].op.Success? && a <= own[i].now <= b) {
      assert own[i] in own;
    }
    CountedInInterval(cfg, None, own, from, a, b);
  }
}
