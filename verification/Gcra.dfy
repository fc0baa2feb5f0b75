/**
  The persistent GCRA limiter: one theoretical-arrival-time (TAT) row per key, kept in a
  SQLite table that the request limiter and the login limiter share, or in Redis.
  The reference is a private token bucket per key; nothing below the class speaks of TATs
  when it states what callers observe.
*/
module Gcra {
  import opened Wrappers

  const I64_MIN: int := -0x8000_0000_0000_0000
  const I64_MAX: int := 0x7fff_ffff_ffff_ffff
  const U64_COUNT: int := 0x1_0000_0000_0000_0000

  type u32 = x: int | 0 <= x < 0x1_0000_0000

  function Min(a: int, b: int): int { if a < b then a else b }

  function SaturatingAdd(a: int, b: int): int { Max(I64_MIN, Min(I64_MAX, a + b)) }

  function SaturatingSub(a: int, b: int): int { Max(I64_MIN, Min(I64_MAX, a - b)) }

  function CeilDiv(a: int, b: int): int
    requires b > 0
  {
    -((-a) / b)
  }

  // ---------------------------------------------------------------- rates

  datatype Rate = Rate(intervalUs: nat, toleranceUs: nat) {
    predicate Valid() { 1 <= intervalUs && toleranceUs % intervalUs == 0 }

    function Burst(): nat
      requires Valid()
    {
      toleranceUs / intervalUs + 1
    }

    /** The credit, in microseconds, of the token bucket this rate stands for. */
    function Capacity(): nat { toleranceUs + intervalUs }
  }

  datatype RateError = ZeroLimit | RateTooHigh | BurstTooLarge

  function NewRate(requestsPerSecond: u32, burstSize: u32): Result<Rate, RateError> {
    if requestsPerSecond == 0 || burstSize == 0 then Err(ZeroLimit)
    else
      var interval := 1_000_000 / requestsPerSecond;
      if interval == 0 then Err(RateTooHigh)
      else
        var tolerance := Times(interval, burstSize - 1);
        if tolerance > I64_MAX then Err(BurstTooLarge) else Ok(Rate(interval, tolerance))
  }

  lemma MulLe(a: nat, b: nat, c: nat, d: nat)
    requires a <= c && b <= d
    ensures a * b <= c * d
  {
    calc <= {
      a * b;
      c * b;
      c * d;
    }
  }

  lemma MulMod(a: nat, b: nat)
    requires 1 <= a
    ensures (a * b) % a == 0 && (a * b) / a == b
  {
    var q, r := (a * b) / a, (a * b) % a;
    assert a * (b - q) == r;
    assert b <= q by {
      if b > q { MulLe(a, 1, a, b - q); }
    }
  }

  /** The truncating division behind the interval. */
  lemma IntervalOf(requestsPerSecond: u32)
    requires 1 <= requestsPerSecond
    ensures var interval := 1_000_000 / requestsPerSecond;
            && interval * requestsPerSecond <= 1_000_000 < (interval + 1) * requestsPerSecond
            && interval <= 1_000_000 && (interval >= 1 <==> requestsPerSecond <= 1_000_000)
  {
    var interval := 1_000_000 / requestsPerSecond;
    assert (interval + 1) * requestsPerSecond == interval * requestsPerSecond + requestsPerSecond;
    MulLe(interval, 1, interval, requestsPerSecond);
    if interval >= 1 { MulLe(1, requestsPerSecond, interval, requestsPerSecond); }
  }

  /** A rate exists exactly for 1 to 1,000,000 requests per second and a positive burst; the
      checked multiplication never fails, and the bucket holds the configured burst. */
  lemma NewRateExact(requestsPerSecond: u32, burstSize: u32)
    ensures NewRate(requestsPerSecond, burstSize).Ok?
       <==> 1 <= requestsPerSecond <= 1_000_000 && 1 <= burstSize
    ensures NewRate(requestsPerSecond, burstSize) != Err(BurstTooLarge)
    ensures NewRate(requestsPerSecond, burstSize).Ok? ==>
              var rate := NewRate(requestsPerSecond, burstSize).value;
              && rate.Valid() && rate.Burst() == burstSize
              && rate.Capacity() == burstSize * rate.intervalUs
              && rate.intervalUs * requestsPerSecond <= 1_000_000
                 < (rate.intervalUs + 1) * requestsPerSecond
  {
    if 1 <= requestsPerSecond && 1 <= burstSize {
      IntervalOf(requestsPerSecond);
      var interval := 1_000_000 / requestsPerSecond;
      MulLe(interval, burstSize - 1, 1_000_000, 0x1_0000_0000);
      if interval >= 1 {
        MulMod(interval, burstSize - 1);
        assert interval * (burstSize - 1) + interval == burstSize * interval;
      }
    }
  }

  // ---------------------------------------------------------------- keys of the two limiters

  datatype Limiter = Request | Login

  datatype Limits = Limits(request: Rate, login: Rate) {
    predicate Valid() { request.Valid() && login.Valid() }

    function For(limiter: Limiter): Rate {
      match limiter
      case Request => request
      case Login => login
    }

    /** The rate every check of a key runs at: the login limiter prefixes its keys. */
    function RateOf(key: string): Rate { For(if LOGIN_PREFIX <= key then Login else Request) }
  }

  const LOGIN_PREFIX: string := "login:"

  /** The characters of a printed IPv4 or IPv6 address. */
  predicate IsIpText(s: string) {
    forall i :: 0 <= i < |s| ==> s[i] in "0123456789abcdef.:"
  }

  /** One check: the request limiter uses the client address as key, the login limiter
      "login:" followed by the throttle key. `cleanup` says whether this check also purges. */
  datatype Check = Check(limiter: Limiter, subject: string, now: int, cleanup: bool) {
    function Key(): string { if limiter.Login? then LOGIN_PREFIX + subject else subject }

    predicate Valid() { limiter.Request? ==> IsIpText(subject) }
  }

  /** Two limiters on one table never touch each other's rows. */
  lemma KeySpacesAreDisjoint(limits: Limits, c: Check)
    requires c.Valid()
    ensures limits.RateOf(c.Key()) == limits.For(c.limiter)
  {
    if c.limiter.Request? && |c.subject| > 0 {
      assert c.subject[0] in "0123456789abcdef.:";
    }
  }

  // ---------------------------------------------------------------- the SQLite backend

  datatype Decision = Allowed | Rejected(retryUs: int)

  datatype Row = Row(tatUs: int, expiresUs: int)

  type Rows = map<string, Row>

  function Purge(rows: Rows, now: int): Rows {
    map k | k in rows && rows[k].expiresUs > now :: rows[k]
  }

  function Tat(rows: Rows, key: string, now: int): int {
    if key in rows then rows[key].tatUs else now
  }

  datatype Outcome<R> = Outcome(rows: map<string, R>, decision: Decision)

  /** One immediate transaction of the SQLite backend. */
  function SqliteCheck(rows: Rows, rate: Rate, key: string, now: int, cleanup: bool): Outcome<Row> {
    var kept := if cleanup then Purge(rows, now) else rows;
    var tat := Tat(kept, key, now);
    var allowAt := SaturatingSub(tat, rate.toleranceUs);
    if now < allowAt then Outcome(kept, Rejected(allowAt - now))
    else
      var newTat := SaturatingAdd(Max(tat, now), rate.intervalUs);
      var expires := SaturatingAdd(newTat, rate.toleranceUs);
      Outcome(kept[key := Row(newTat, expires)], Allowed)
  }

  /** `u64::is_multiple_of`, which is total. */
  predicate IsMultipleOf(n: nat, d: nat) { if d == 0 then n == 0 else n % d == 0 }

  class RateTable {
    var rows: Rows

    constructor ()
      ensures rows == map[]
    {
      rows := map[];
    }
  }

  class SqliteBackend {
    const table: RateTable
    const rate: Rate
    const cleanupInterval: nat
    var requests: nat

    constructor (table: RateTable, rate: Rate, cleanupInterval: nat)
      ensures this.table == table && this.rate == rate && this.cleanupInterval == cleanupInterval
      ensures requests == 0
    {
      this.table := table;
      this.rate := rate;
      this.cleanupInterval := cleanupInterval;
      this.requests := 0;
    }

    method Check(key: string, now: int) returns (decision: Decision)
      modifies this`requests, table
      ensures requests == (old(requests) + 1) % U64_COUNT
      ensures Outcome(table.rows, decision)
           == SqliteCheck(old(table.rows), rate, key, now, IsMultipleOf(requests, cleanupInterval))
      ensures forall k :: k != key ==>
                (k in table.rows <==>
                   k in old(table.rows)
                   && (IsMultipleOf(requests, cleanupInterval) ==> now < old(table.rows)[k].expiresUs))
      ensures forall k :: k != key && k in table.rows ==> table.rows[k] == old(table.rows)[k]
    {
      requests := (requests + 1) % U64_COUNT;
      if IsMultipleOf(requests, cleanupInterval) {
        table.rows := Purge(table.rows, now);
      }
      var tat := Tat(table.rows, key, now);
      var allowAt := SaturatingSub(tat, rate.toleranceUs);
      if now < allowAt {
        return Rejected(allowAt - now);
      }
      var newTat := SaturatingAdd(Max(tat, now), rate.intervalUs);
      table.rows := table.rows[key := Row(newTat, SaturatingAdd(newTat, rate.toleranceUs))];
      decision := Allowed;
    }
  }

  // ---------------------------------------------------------------- runs

  /** Checks as the transactions order them: the clock is read inside the transaction and
      does not go back, and `now` plus one full bucket fits a 64-bit integer. */
  predicate Clocked(limits: Limits, checks: seq<Check>, from: int) {
    checks != [] ==>
      ClockedCheck(limits, checks[0], from) && Clocked(limits, checks[1..], checks[0].now)
  }

  predicate ClockedCheck(limits: Limits, c: Check, from: int) {
    && 0 <= from <= c.now && c.Valid()
    && c.now + limits.RateOf(c.Key()).Capacity() <= I64_MAX
  }

  function SqliteStep(limits: Limits, rows: Rows, c: Check): Outcome<Row> {
    SqliteCheck(rows, limits.For(c.limiter), c.Key(), c.now, c.cleanup)
  }

  function SqliteRows(limits: Limits, rows: Rows, checks: seq<Check>): Rows
    decreases |checks|
  {
    if checks == [] then rows
    else SqliteRows(limits, SqliteStep(limits, rows, checks[0]).rows, checks[1..])
  }

  function SqliteRun(limits: Limits, rows: Rows, checks: seq<Check>): (ds: seq<Decision>)
    ensures |ds| == |checks|
    decreases |checks|
  {
    if checks == [] then []
    else
      var o := SqliteStep(limits, rows, checks[0]);
      [o.decision] + SqliteRun(limits, o.rows, checks[1..])
  }

  /** What the callers of one key see. */
  function OnKey(checks: seq<Check>, ds: seq<Decision>, key: string): seq<Decision>
    requires |checks| == |ds|
  {
    if checks == [] then []
    else
      var rest := OnKey(checks[1..], ds[1..], key);
      if checks[0].Key() == key then [ds[0]] + rest else rest
  }

  function TimesOf(checks: seq<Check>, key: string): seq<int> {
    if checks == [] then []
    else
      var rest := TimesOf(checks[1..], key);
      if checks[0].Key() == key then [checks[0].now] + rest else rest
  }

  // ---------------------------------------------------------------- the reference: a token bucket

  datatype Bucket = Bucket(level: int, asOf: int)

  function Full(rate: Rate): Bucket { Bucket(rate.Capacity(), 0) }

  function Refilled(rate: Rate, b: Bucket, now: int): int {
    Min(rate.Capacity(), b.level + (now - b.asOf))
  }

  function BucketCheck(rate: Rate, b: Bucket, now: int): (Bucket, Decision) {
    var level := Refilled(rate, b, now);
    if level >= rate.intervalUs then (Bucket(level - rate.intervalUs, now), Allowed)
    else (Bucket(level, now), Rejected(rate.intervalUs - level))
  }

  function BucketRun(rate: Rate, b: Bucket, times: seq<int>): (ds: seq<Decision>)
    ensures |ds| == |times|
    decreases |times|
  {
    if times == [] then []
    else
      var (b', d) := BucketCheck(rate, b, times[0]);
      [d] + BucketRun(rate, b', times[1..])
  }

  function BucketAfter(rate: Rate, b: Bucket, times: seq<int>): Bucket
    decreases |times|
  {
    if times == [] then b else BucketAfter(rate, BucketCheck(rate, b, times[0]).0, times[1..])
  }

  // ---------------------------------------------------------------- refinement

  /** What every reachable table satisfies at time `now`. */
  ghost predicate TableInv(limits: Limits, rows: Rows, now: int) {
    forall k :: k in rows ==>
      && rows[k].expiresUs == SaturatingAdd(rows[k].tatUs, limits.RateOf(k).toleranceUs)
      && 0 <= rows[k].tatUs <= now + limits.RateOf(k).Capacity()
  }

  /** The bucket holds what the row does not owe. */
  ghost predicate Matches(rate: Rate, rows: Rows, key: string, b: Bucket, now: int) {
    && b.asOf <= now && 0 <= b.level <= rate.Capacity()
    && Refilled(rate, b, now) == rate.Capacity() - Max(0, Tat(rows, key, now) - now)
  }

  lemma StepInvariant(limits: Limits, rows: Rows, c: Check, from: int)
    requires limits.Valid() && TableInv(limits, rows, from) && ClockedCheck(limits, c, from)
    ensures TableInv(limits, SqliteStep(limits, rows, c).rows, c.now)
  {
    KeySpacesAreDisjoint(limits, c);
  }

  lemma StepOnKey(limits: Limits, rows: Rows, c: Check, from: int, b: Bucket)
    requires limits.Valid() && TableInv(limits, rows, from) && ClockedCheck(limits, c, from)
    requires Matches(limits.RateOf(c.Key()), rows, c.Key(), b, from)
    ensures var o := SqliteStep(limits, rows, c);
            var (b', d) := BucketCheck(limits.RateOf(c.Key()), b, c.now);
            o.decision == d && Matches(limits.RateOf(c.Key()), o.rows, c.Key(), b', c.now)
  {
    KeySpacesAreDisjoint(limits, c);
  }

  lemma StepOffKey(limits: Limits, rows: Rows, c: Check, from: int, key: string, b: Bucket)
    requires limits.Valid() && TableInv(limits, rows, from) && ClockedCheck(limits, c, from)
    requires Matches(limits.RateOf(key), rows, key, b, from) && c.Key() != key
    ensures Matches(limits.RateOf(key), SqliteStep(limits, rows, c).rows, key, b, c.now)
  {
    KeySpacesAreDisjoint(limits, c);
  }

  lemma {:induction false} RunRefinesBucket(limits: Limits, rows: Rows, checks: seq<Check>, from: int,
                                            key: string, b: Bucket)
    requires limits.Valid() && TableInv(limits, rows, from) && Clocked(limits, checks, from)
    requires Matches(limits.RateOf(key), rows, key, b, from)
    ensures OnKey(checks, SqliteRun(limits, rows, checks), key)
         == BucketRun(limits.RateOf(key), b, TimesOf(checks, key))
    decreases |checks|
  {
    if checks != [] {
      hide TableInv, Matches, SqliteCheck, BucketCheck, ClockedCheck;
      var c, rest, rate := checks[0], checks[1..], limits.RateOf(key);
      var o := SqliteStep(limits, rows, c);
      var ds := SqliteRun(limits, rows, checks);
      assert ds[0] == o.decision && ds[1..] == SqliteRun(limits, o.rows, rest);
      StepInvariant(limits, rows, c, from);
      if c.Key() == key {
        StepOnKey(limits, rows, c, from, b);
        var (b', d) := BucketCheck(rate, b, c.now);
        RunRefinesBucket(limits, o.rows, rest, c.now, key, b');
        var times := TimesOf(checks, key);
        assert times[0] == c.now && times[1..] == TimesOf(rest, key);
        assert BucketRun(rate, b, times) == [d] + BucketRun(rate, b', times[1..]);
      } else {
        StepOffKey(limits, rows, c, from, key, b);
        RunRefinesBucket(limits, o.rows, rest, c.now, key, b);
        assert TimesOf(checks, key) == TimesOf(rest, key);
        assert OnKey(checks, ds, key) == OnKey(rest, ds[1..], key);
      }
    }
  }

  /** Whatever the other keys do, whenever the purge runs, and although two limiters with
      different rates share the table, the decisions and waits of a key are those of a private
      token bucket that starts full. The bucket knows no saturation. */
  lemma SqliteRefinesTokenBucket(limits: Limits, checks: seq<Check>, key: string)
    requires limits.Valid() && Clocked(limits, checks, 0)
    ensures OnKey(checks, SqliteRun(limits, map[], checks), key)
         == BucketRun(limits.RateOf(key), Full(limits.RateOf(key)), TimesOf(checks, key))
  {
    RunRefinesBucket(limits, map[], checks, 0, key, Full(limits.RateOf(key)));
  }

  /** In every reachable table a row is at most one full bucket ahead of the clock. */
  lemma {:induction false} ReachableTat(limits: Limits, rows: Rows, checks: seq<Check>, from: int)
    requires limits.Valid() && TableInv(limits, rows, from) && Clocked(limits, checks, from)
    ensures TableInv(limits, SqliteRows(limits, rows, checks),
                     if checks == [] then from else checks[|checks| - 1].now)
    decreases |checks|
  {
    if checks != [] {
      StepInvariant(limits, rows, checks[0], from);
      ReachableTat(limits, SqliteStep(limits, rows, checks[0]).rows, checks[1..], checks[0].now);
    }
  }

  // ---------------------------------------------------------------- saturation

  /** The check in exact arithmetic, but for an expiry that does not fit 64 bits. */
  ghost predicate ExactButExpiry(limits: Limits, rows: Rows, c: Check) {
    var rate, o := limits.RateOf(c.Key()), SqliteStep(limits, rows, c);
    var tat := Tat(if c.cleanup then Purge(rows, c.now) else rows, c.Key(), c.now);
    if c.now < tat - rate.toleranceUs then o.decision == Rejected(tat - rate.toleranceUs - c.now)
    else
      && o.decision == Allowed && c.Key() in o.rows
      && var row := o.rows[c.Key()];
         && row.tatUs == Max(tat, c.now) + rate.intervalUs
         && (row.expiresUs == row.tatUs + rate.toleranceUs <==> row.tatUs + rate.toleranceUs <= I64_MAX)
         && row.expiresUs <= I64_MAX
  }

  lemma StepIsExactButExpiry(limits: Limits, rows: Rows, c: Check, from: int)
    requires limits.Valid() && TableInv(limits, rows, from) && ClockedCheck(limits, c, from)
    ensures ExactButExpiry(limits, rows, c)
  {
    KeySpacesAreDisjoint(limits, c);
  }

  lemma {:induction false} RunIsExactButExpiry(limits: Limits, rows: Rows, before: seq<Check>, c: Check, from: int)
    requires limits.Valid() && TableInv(limits, rows, from) && Clocked(limits, before + [c], from)
    ensures ExactButExpiry(limits, SqliteRows(limits, rows, before), c)
    decreases |before|
  {
    hide TableInv, ClockedCheck, SqliteStep, ExactButExpiry;
    var all := before + [c];
    if before == [] {
      assert all[0] == c;
      StepIsExactButExpiry(limits, rows, c, from);
    } else {
      assert all[0] == before[0] && all[1..] == before[1..] + [c];
      StepInvariant(limits, rows, before[0], from);
      RunIsExactButExpiry(limits, SqliteStep(limits, rows, before[0]).rows, before[1..], c, before[0].now);
    }
  }

  /** In every reachable table the wait and the TAT are exact: their saturations never fire. The one
      of the expiry fires exactly when the new TAT plus the tolerance does not fit 64 bits. */
  lemma OnlyExpirySaturates(limits: Limits, before: seq<Check>, c: Check)
    requires limits.Valid() && Clocked(limits, before + [c], 0)
    ensures ExactButExpiry(limits, SqliteRows(limits, map[], before), c)
  {
    RunIsExactButExpiry(limits, map[], before, c, 0);
  }

  /** It does fire: two checks of one key, two microseconds before the clock would run out. */
  lemma ExpirySaturates(limits: Limits)
    requires limits.login == Rate(1, 1)
    ensures var c := Check(Login, "k", I64_MAX - 2, false);
            var o := SqliteStep(limits, SqliteRows(limits, map[], [c]), c);
            && ClockedCheck(limits, c, 0) && o.decision == Allowed && c.Key() in o.rows
            && o.rows[c.Key()].tatUs + limits.login.toleranceUs == I64_MAX + 1
            && o.rows[c.Key()].expiresUs == I64_MAX
  {
    var c := Check(Login, "k", I64_MAX - 2, false);
    KeySpacesAreDisjoint(limits, c);
    var first := SqliteStep(limits, map[], c);
    assert SqliteRows(limits, map[], [c]) == first.rows by {
      assert [c][1..] == [];
      assert SqliteRows(limits, first.rows, []) == first.rows;
    }
  }

  // ---------------------------------------------------------------- the admission bound

  /** How many checks of `key` inside the closed time interval [a, b] were admitted. */
  function Admissions(checks: seq<Check>, ds: seq<Decision>, key: string, a: int, b: int): nat
    requires |checks| == |ds|
  {
    if checks == [] then 0
    else
      (if checks[0].Key() == key && ds[0].Allowed? && a <= checks[0].now <= b then 1 else 0)
      + Admissions(checks[1..], ds[1..], key, a, b)
  }

  function Spent(times: seq<int>, ds: seq<Decision>, a: int, b: int): nat
    requires |times| == |ds|
  {
    if times == [] then 0
    else (if ds[0].Allowed? && a <= times[0] <= b then 1 else 0) + Spent(times[1..], ds[1..], a, b)
  }

  predicate Nondecreasing(times: seq<int>, from: int) {
    times != [] ==> from <= times[0] && Nondecreasing(times[1..], times[0])
  }

  lemma {:induction false} OnKeyLength(checks: seq<Check>, ds: seq<Decision>, key: string)
    requires |checks| == |ds|
    ensures |OnKey(checks, ds, key)| == |TimesOf(checks, key)|
  {
    if checks != [] { OnKeyLength(checks[1..], ds[1..], key); }
  }

  lemma {:induction false} AdmissionsAreSpent(checks: seq<Check>, ds: seq<Decision>, key: string, a: int, b: int)
    requires |checks| == |ds|
    ensures |OnKey(checks, ds, key)| == |TimesOf(checks, key)|
    ensures Admissions(checks, ds, key, a, b) == Spent(TimesOf(checks, key), OnKey(checks, ds, key), a, b)
  {
    OnKeyLength(checks, ds, key);
    if checks != [] {
      AdmissionsAreSpent(checks[1..], ds[1..], key, a, b);
      var times, seen := TimesOf(checks, key), OnKey(checks, ds, key);
      if checks[0].Key() == key {
        assert times[0] == checks[0].now && times[1..] == TimesOf(checks[1..], key);
        assert seen[0] == ds[0] && seen[1..] == OnKey(checks[1..], ds[1..], key);
      } else {
        assert times == TimesOf(checks[1..], key) && seen == OnKey(checks[1..], ds[1..], key);
      }
    }
  }

  lemma {:induction false} TimesAreNondecreasing(limits: Limits, checks: seq<Check>, from: int, key: string, low: int)
    requires Clocked(limits, checks, from) && low <= from
    ensures Nondecreasing(TimesOf(checks, key), low)
  {
    if checks != [] {
      var c := checks[0];
      if c.Key() == key {
        TimesAreNondecreasing(limits, checks[1..], c.now, key, c.now);
        assert TimesOf(checks, key)[1..] == TimesOf(checks[1..], key);
      } else {
        TimesAreNondecreasing(limits, checks[1..], c.now, key, low);
        assert TimesOf(checks, key) == TimesOf(checks[1..], key);
      }
    }
  }

  /** One check: an admission costs one interval, credit flows in with time, none overflows. */
  lemma BucketLaw(rate: Rate, b: Bucket, now: int)
    requires 0 <= b.level <= rate.Capacity() && b.asOf <= now
    ensures var (next, d) := BucketCheck(rate, b, now);
            var cost := if d.Allowed? then rate.intervalUs else 0;
            && next.asOf == now && 0 <= next.level
            && next.level + cost <= rate.Capacity() && next.level + cost <= b.level + (now - b.asOf)
  {
  }

  lemma OneMore(n: nat, interval: nat)
    ensures (n + 1) * interval == n * interval + interval
  {
  }

  /** Conservation of credit: what is spent up to `hi` was in the bucket or flowed in. */
  lemma {:induction false} SpendingIsFunded(rate: Rate, bucket: Bucket, times: seq<int>, a: int, hi: int)
    requires rate.Valid() && 0 <= bucket.level <= rate.Capacity()
    requires Nondecreasing(times, bucket.asOf) && bucket.asOf <= hi
    ensures Times(Spent(times, BucketRun(rate, bucket, times), a, hi), rate.intervalUs)
         <= bucket.level + (hi - bucket.asOf)
    decreases |times|
  {
    hide BucketCheck;
    if times != [] {
      BucketLaw(rate, bucket, times[0]);
      var (next, d) := BucketCheck(rate, bucket, times[0]);
      var ds := BucketRun(rate, bucket, times);
      assert ds[0] == d && ds[1..] == BucketRun(rate, next, times[1..]);
      if times[0] <= hi {
        SpendingIsFunded(rate, next, times[1..], a, hi);
        OneMore(Spent(times[1..], ds[1..], a, hi), rate.intervalUs);
      } else {
        SpentAfter(times, ds, a, hi);
      }
    }
  }

  lemma {:induction false} SpentAfter(times: seq<int>, ds: seq<Decision>, a: int, hi: int)
    requires |times| == |ds| && Nondecreasing(times, hi + 1)
    ensures Spent(times, ds, a, hi) == 0
  {
    if times != [] {
      NondecreasingFrom(times[1..], times[0], hi + 1);
      SpentAfter(times[1..], ds[1..], a, hi);
    }
  }

  lemma NondecreasingFrom(times: seq<int>, from: int, low: int)
    requires Nondecreasing(times, from) && low <= from
    ensures Nondecreasing(times, low)
  {
  }

  /** Before the window opens nothing is counted; at its first check the bucket is at most full. */
  lemma {:induction false} WindowIsFunded(rate: Rate, bucket: Bucket, times: seq<int>, a: int, hi: int)
    requires rate.Valid() && 0 <= bucket.level <= rate.Capacity()
    requires Nondecreasing(times, bucket.asOf) && a <= hi
    ensures Times(Spent(times, BucketRun(rate, bucket, times), a, hi), rate.intervalUs)
         <= rate.Capacity() + (hi - a)
    decreases |times|
  {
    hide BucketCheck;
    if times != [] {
      BucketLaw(rate, bucket, times[0]);
      var (next, d) := BucketCheck(rate, bucket, times[0]);
      var ds := BucketRun(rate, bucket, times);
      assert ds[0] == d && ds[1..] == BucketRun(rate, next, times[1..]);
      if times[0] < a {
        WindowIsFunded(rate, next, times[1..], a, hi);
      } else if times[0] <= hi {
        SpendingIsFunded(rate, next, times[1..], a, hi);
        OneMore(Spent(times[1..], ds[1..], a, hi), rate.intervalUs);
      } else {
        SpentAfter(times, ds, a, hi);
      }
    }
  }

  lemma DivideBound(n: nat, interval: nat, tolerance: nat, span: nat)
    requires 1 <= interval && tolerance % interval == 0
    requires Times(n, interval) <= tolerance + interval + span
    ensures n <= tolerance / interval + 1 + span / interval
  {
    var burst, whole := tolerance / interval + 1, span / interval;
    assert tolerance == (tolerance / interval) * interval;
    assert span == whole * interval + span % interval;
    assert (burst + whole + 1) * interval == tolerance + interval + whole * interval + interval;
    if n > burst + whole {
      MulLe(burst + whole + 1, interval, n, interval);
    }
  }

  /** Every interval of `hi - a` microseconds holds at most `burst + (hi - a) / interval`
      admissions of a key, over every run from an empty table. */
  lemma AdmissionBound(limits: Limits, checks: seq<Check>, key: string, a: int, hi: int)
    requires limits.Valid() && Clocked(limits, checks, 0) && a <= hi
    ensures Admissions(checks, SqliteRun(limits, map[], checks), key, a, hi)
         <= limits.RateOf(key).Burst() + (hi - a) / limits.RateOf(key).intervalUs
  {
    var rate, ds := limits.RateOf(key), SqliteRun(limits, map[], checks);
    AdmissionsAreSpent(checks, ds, key, a, hi);
    SqliteRefinesTokenBucket(limits, checks, key);
    TimesAreNondecreasing(limits, checks, 0, key, 0);
    WindowIsFunded(rate, Full(rate), TimesOf(checks, key), a, hi);
    DivideBound(Admissions(checks, ds, key, a, hi), rate.intervalUs, rate.toleranceUs, hi - a);
  }

  function Repeated<T>(x: T, n: nat): (xs: seq<T>)
    ensures |xs| == n
  {
    if n == 0 then [] else [x] + Repeated(x, n - 1)
  }

  /** At one instant a bucket admits the first checks, as many as its level pays for. */
  lemma {:induction false} BurstAtOneInstant(rate: Rate, bucket: Bucket, now: int, n: nat, i: nat)
    requires i < n && bucket.asOf <= now && 0 <= bucket.level <= rate.Capacity()
    ensures BucketRun(rate, bucket, Repeated(now, n))[i].Allowed?
       <==> Times(i, rate.intervalUs) + rate.intervalUs <= Refilled(rate, bucket, now)
    decreases n
  {
    var (next, d) := BucketCheck(rate, bucket, now);
    assert Repeated(now, n)[1..] == Repeated(now, n - 1);
    assert BucketRun(rate, bucket, Repeated(now, n)) == [d] + BucketRun(rate, next, Repeated(now, n - 1));
    if i >= 1 {
      BurstAtOneInstant(rate, next, now, n - 1, i - 1);
      OneMore(i - 1, rate.intervalUs);
    }
  }

  lemma {:induction false} SameInstant(limits: Limits, c: Check, n: nat, ds: seq<Decision>, from: int)
    requires ClockedCheck(limits, c, from) && |ds| == n
    ensures Clocked(limits, Repeated(c, n), from)
    ensures TimesOf(Repeated(c, n), c.Key()) == Repeated(c.now, n)
    ensures OnKey(Repeated(c, n), ds, c.Key()) == ds
    decreases n
  {
    if n > 0 {
      assert Repeated(c, n)[1..] == Repeated(c, n - 1);
      SameInstant(limits, c, n - 1, ds[1..], c.now);
    }
  }

  lemma WithinBurst(rate: Rate, i: nat)
    requires rate.Valid()
    ensures Times(i, rate.intervalUs) <= rate.toleranceUs <==> i < rate.Burst()
  {
    var whole := rate.toleranceUs / rate.intervalUs;
    assert rate.toleranceUs == whole * rate.intervalUs;
    if i <= whole {
      MulLe(i, rate.intervalUs, whole, rate.intervalUs);
    } else {
      MulLe(whole + 1, rate.intervalUs, i, rate.intervalUs);
      OneMore(whole, rate.intervalUs);
    }
  }

  /** Any number of checks of a fresh key at one instant: exactly the first `Burst()` pass. */
  lemma FreshKeyBurst(limits: Limits, c: Check, n: nat, i: nat)
    requires limits.Valid() && ClockedCheck(limits, c, 0) && i < n
    ensures SqliteRun(limits, map[], Repeated(c, n))[i].Allowed? <==> i < limits.RateOf(c.Key()).Burst()
  {
    hide SqliteRun, Clocked, BucketRun, BucketCheck;
    var checks, key, rate := Repeated(c, n), c.Key(), limits.RateOf(c.Key());
    SameInstant(limits, c, n, SqliteRun(limits, map[], checks), 0);
    SqliteRefinesTokenBucket(limits, checks, key);
    BurstAtOneInstant(rate, Full(rate), c.now, n, i);
    WithinBurst(rate, i);
  }

  // ---------------------------------------------------------------- exact retry

  /** A rejection changes no row of its key, and its wait is between one microsecond and one
      interval. */
  lemma RejectionKeepsRow(limits: Limits, rows: Rows, c: Check, from: int)
    requires limits.Valid() && TableInv(limits, rows, from) && ClockedCheck(limits, c, from)
    requires SqliteStep(limits, rows, c).decision.Rejected?
    ensures var o := SqliteStep(limits, rows, c);
            && c.Key() in rows && c.Key() in o.rows && o.rows[c.Key()] == rows[c.Key()]
            && 1 <= o.decision.retryUs <= limits.RateOf(c.Key()).intervalUs
  {
    KeySpacesAreDisjoint(limits, c);
  }

  lemma {:induction false} RunAppend(rate: Rate, b: Bucket, xs: seq<int>, ys: seq<int>)
    ensures BucketRun(rate, b, xs + ys) == BucketRun(rate, b, xs) + BucketRun(rate, BucketAfter(rate, b, xs), ys)
    decreases |xs|
  {
    if xs == [] {
      assert xs + ys == ys;
    } else {
      assert (xs + ys)[1..] == xs[1..] + ys;
      RunAppend(rate, BucketCheck(rate, b, xs[0]).0, xs[1..], ys);
    }
  }

  lemma {:induction false} TimesAppend(cs: seq<Check>, es: seq<Check>, key: string)
    ensures TimesOf(cs + es, key) == TimesOf(cs, key) + TimesOf(es, key)
  {
    if cs == [] {
      assert cs + es == es;
    } else {
      assert (cs + es)[1..] == cs[1..] + es;
      TimesAppend(cs[1..], es, key);
      var x, y := TimesOf(cs[1..], key), TimesOf(es, key);
      assert [cs[0].now] + (x + y) == ([cs[0].now] + x) + y;
    }
  }

  lemma {:induction false} OnKeyAppend(cs: seq<Check>, ds: seq<Decision>, es: seq<Check>, fs: seq<Decision>,
                                       key: string)
    requires |ds| == |cs| && |fs| == |es|
    ensures OnKey(cs + es, ds + fs, key) == OnKey(cs, ds, key) + OnKey(es, fs, key)
  {
    if cs == [] {
      assert cs + es == es && ds + fs == fs;
    } else {
      assert (cs + es)[1..] == cs[1..] + es && (ds + fs)[1..] == ds[1..] + fs;
      OnKeyAppend(cs[1..], ds[1..], es, fs, key);
      var x, y := OnKey(cs[1..], ds[1..], key), OnKey(es, fs, key);
      assert [ds[0]] + (x + y) == ([ds[0]] + x) + y;
    }
  }

  lemma {:induction false} Untouched(checks: seq<Check>, ds: seq<Decision>, key: string)
    requires |checks| == |ds|
    requires forall i :: 0 <= i < |checks| ==> checks[i].Key() != key
    ensures TimesOf(checks, key) == [] && OnKey(checks, ds, key) == []
  {
    if checks != [] { Untouched(checks[1..], ds[1..], key); }
  }

  lemma {:induction false} BucketLevels(rate: Rate, b: Bucket, times: seq<int>)
    requires rate.Valid() && 0 <= b.level <= rate.Capacity() && Nondecreasing(times, b.asOf)
    ensures var b' := BucketAfter(rate, b, times);
            0 <= b'.level <= rate.Capacity()
            && b'.asOf == (if times == [] then b.asOf else times[|times| - 1])
    decreases |times|
  {
    if times != [] { BucketLevels(rate, BucketCheck(rate, b, times[0]).0, times[1..]); }
  }

  /** Decisions of a bucket around a rejection. */
  lemma BucketRetry(rate: Rate, b: Bucket, now: int, later: int)
    requires rate.Valid() && 0 <= b.level <= rate.Capacity() && b.asOf <= now <= later
    requires BucketRun(rate, b, [now, later])[0].Rejected?
    ensures var ds := BucketRun(rate, b, [now, later]);
            ds[1] == RetryDecision(ds[0].retryUs, later - now)
  {
    TwoChecks(rate, b, now, later);
  }

  /** The decision a retry gets when `elapsed` of the announced `wait` has passed. */
  function RetryDecision(wait: int, elapsed: int): Decision {
    if elapsed >= wait then Allowed else Rejected(wait - elapsed)
  }

  /** What `key` sees of a run in which it is checked in `before`, by `c`, and by `retry`. */
  lemma SeenAroundRetry(before: seq<Check>, c: Check, others: seq<Check>, retry: Check, ds: seq<Decision>, key: string)
    requires c.Key() == retry.Key() == key && forall i :: 0 <= i < |others| ==> others[i].Key() != key
    requires |ds| == |before| + |others| + 2
    ensures var all := before + [c] + others + [retry];
            && TimesOf(all, key) == TimesOf(before, key) + [c.now, retry.now]
            && OnKey(all, ds, key) == OnKey(before, ds[..|before|], key) + [ds[|before|], ds[|ds| - 1]]
  {
    var n := |before|;
    var first, mid, last := ds[..n], ds[n + 1..n + 1 + |others|], [ds[|ds| - 1]];
    assert ds == first + [ds[n]] + mid + last;
    TimesAppend(before + [c] + others, [retry], key);
    TimesAppend(before + [c], others, key);
    TimesAppend(before, [c], key);
    OnKeyAppend(before + [c] + others, first + [ds[n]] + mid, [retry], last, key);
    OnKeyAppend(before + [c], first + [ds[n]], others, mid, key);
    OnKeyAppend(before, first, [c], [ds[n]], key);
    Untouched(others, mid, key);
  }

  /** Run the limiter, be rejected at `c.now` with wait w, let any other keys be checked, and
      check again: the retry is admitted exactly from `c.now + w` on. */
  lemma RetryIsExact(limits: Limits, before: seq<Check>, c: Check, others: seq<Check>, retry: Check)
    requires limits.Valid() && Clocked(limits, before + [c] + others + [retry], 0)
    requires retry.Key() == c.Key() && forall i :: 0 <= i < |others| ==> others[i].Key() != c.Key()
    requires SqliteRun(limits, map[], before + [c] + others + [retry])[|before|].Rejected?
    ensures var ds := SqliteRun(limits, map[], before + [c] + others + [retry]);
            ds[|ds| - 1] == RetryDecision(ds[|before|].retryUs, retry.now - c.now)
  {
    hide SqliteRun, Clocked, BucketCheck;
    var all, key, rate := before + [c] + others + [retry], c.Key(), limits.RateOf(c.Key());
    var ds, times := SqliteRun(limits, map[], all), TimesOf(before, key);
    SqliteRefinesTokenBucket(limits, all, key);
    TimesAreNondecreasing(limits, all, 0, key, 0);
    SeenAroundRetry(before, c, others, retry, ds, key);
    OnKeyLength(before, ds[..|before|], key);
    RunAppend(rate, Full(rate), times, [c.now, retry.now]);
    NondecreasingAppend(times, [c.now, retry.now], 0);
    BucketLevels(rate, Full(rate), times);
    var b := BucketAfter(rate, Full(rate), times);
    var last := BucketRun(rate, b, [c.now, retry.now]);
    assert OnKey(all, ds, key)[|times|..] == [ds[|before|], ds[|ds| - 1]] == last;
    assert [c.now, retry.now][1..] == [retry.now];
    BucketRetry(rate, b, c.now, retry.now);
  }

  lemma TwoChecks(rate: Rate, b: Bucket, t: int, u: int)
    ensures BucketRun(rate, b, [t, u])
         == [BucketCheck(rate, b, t).1, BucketCheck(rate, BucketCheck(rate, b, t).0, u).1]
  {
    var (b', d) := BucketCheck(rate, b, t);
    assert [t, u][1..] == [u] && [u][1..] == [];
    assert BucketRun(rate, b', [u]) == [BucketCheck(rate, b', u).1];
  }

  lemma {:induction false} NondecreasingAppend(xs: seq<int>, ys: seq<int>, from: int)
    requires Nondecreasing(xs + ys, from)
    ensures Nondecreasing(xs, from) && Nondecreasing(ys, if xs == [] then from else xs[|xs| - 1])
  {
    if xs == [] {
      assert xs + ys == ys;
    } else {
      assert (xs + ys)[1..] == xs[1..] + ys;
      NondecreasingAppend(xs[1..], ys, xs[0]);
    }
  }

  // ---------------------------------------------------------------- the Redis backend

  datatype Stored = Stored(tatUs: int, deadlineUs: int)

  type Keys = map<string, Stored>

  /** TTLs that have run out may fire at any later moment; `fired` chooses which are seen. */
  function Expire(keys: Keys, fired: set<string>, now: int): Keys {
    map k | k in keys && !(k in fired && keys[k].deadlineUs <= now) :: keys[k]
  }

  /** The Lua script, atomic in Redis. A key is set with a TTL in milliseconds. */
  function RedisScript(keys: Keys, rate: Rate, key: string, now: int): Outcome<Stored> {
    var tat := if key in keys then keys[key].tatUs else now;
    var allowAt := tat - rate.toleranceUs;
    if now < allowAt then
      var ms := CeilDiv(allowAt - now, 1000);
      Outcome(keys, Rejected(1000 * Max(ms, 1)))
    else
      var newTat := Max(tat, now) + rate.intervalUs;
      var ttl := Max(1000, CeilDiv(newTat - now + rate.toleranceUs, 1000));
      Outcome(keys[key := Stored(newTat, now + 1000 * ttl)], Allowed)
  }

  class RedisBackend {
    const rate: Rate
    const keyPrefix: string
    var keys: Keys

    constructor (rate: Rate, keyPrefix: string)
      ensures this.rate == rate && this.keyPrefix == keyPrefix && keys == map[]
    {
      this.rate, this.keyPrefix, this.keys := rate, keyPrefix, map[];
    }

    method Check(key: string, now: int) returns (decision: Decision)
      modifies this`keys
      ensures Outcome(keys, decision) == RedisScript(old(keys), rate, keyPrefix + key, now)
      ensures decision.Allowed? ==>
                && keyPrefix + key in keys
                && var row := keys[keyPrefix + key];
                   && row.deadlineUs >= row.tatUs + rate.toleranceUs && row.deadlineUs >= now + 1_000_000
                   && (row.deadlineUs < row.tatUs + rate.toleranceUs + 1000 || row.deadlineUs == now + 1_000_000)
    {
      var stored := keyPrefix + key;
      var tat := if stored in keys then keys[stored].tatUs else now;
      var allowAt := tat - rate.toleranceUs;
      if now < allowAt {
        var ms := CeilDiv(allowAt - now, 1000);
        return Rejected(1000 * Max(ms, 1));
      }
      var newTat := Max(tat, now) + rate.intervalUs;
      var ttl := Max(1000, CeilDiv(newTat - now + rate.toleranceUs, 1000));
      keys := keys[stored := Stored(newTat, now + 1000 * ttl)];
      decision := Allowed;
    }
  }

  function RedisStep(limits: Limits, keys: Keys, prefix: string, c: Check, fired: set<string>): Outcome<Stored> {
    RedisScript(Expire(keys, fired, c.now), limits.For(c.limiter), prefix + c.Key(), c.now)
  }

  function RedisRun(limits: Limits, keys: Keys, prefix: string, checks: seq<Check>, fired: seq<set<string>>)
    : (ds: seq<Decision>)
    requires |fired| == |checks|
    ensures |ds| == |checks|
    decreases |checks|
  {
    if checks == [] then []
    else
      var o := RedisStep(limits, keys, prefix, checks[0], fired[0]);
      [o.decision] + RedisRun(limits, o.rows, prefix, checks[1..], fired[1..])
  }

  /** Redis reports the SQLite wait rounded up to whole milliseconds. */
  function Rounded(d: Decision): Decision {
    if d.Allowed? then Allowed else Rejected(1000 * CeilDiv(d.retryUs, 1000))
  }

  function Debt(rows: Rows, key: string, now: int): int { Max(Tat(rows, key, now), now) }

  function StoredDebt(keys: Keys, key: string, now: int): int {
    if key in keys then Max(keys[key].tatUs, now) else now
  }

  /** Both stores owe the same on every key, although each may have dropped other rows. */
  ghost predicate SameDebt(rows: Rows, keys: Keys, prefix: string, now: int) {
    && (forall k :: k in keys ==> keys[k].deadlineUs >= keys[k].tatUs)
    && forall k :: Debt(rows, k, now) == StoredDebt(keys, prefix + k, now)
  }

  lemma PrefixIsInjective(prefix: string, a: string, b: string)
    ensures prefix + a == prefix + b <==> a == b
  {
    if prefix + a == prefix + b {
      assert a == (prefix + a)[|prefix|..] == (prefix + b)[|prefix|..] == b;
    }
  }

  lemma CeilDivBounds(a: int)
    ensures 1000 * CeilDiv(a, 1000) - 999 <= a <= 1000 * CeilDiv(a, 1000)
  {
  }

  /** Dropping rows on either side, and time passing, keep the debts equal. */
  lemma DropsAgree(limits: Limits, rows: Rows, keys: Keys, prefix: string, c: Check, fired: set<string>, from: int)
    requires limits.Valid() && TableInv(limits, rows, from) && from <= c.now < I64_MAX
    requires SameDebt(rows, keys, prefix, from)
    ensures SameDebt(if c.cleanup then Purge(rows, c.now) else rows, Expire(keys, fired, c.now), prefix, c.now)
  {
    var kept := if c.cleanup then Purge(rows, c.now) else rows;
    var live := Expire(keys, fired, c.now);
    forall k
      ensures Debt(kept, k, c.now) == StoredDebt(live, prefix + k, c.now)
    {
      assert Debt(rows, k, from) == StoredDebt(keys, prefix + k, from);
    }
  }

  lemma StepsAgree(limits: Limits, rows: Rows, keys: Keys, prefix: string, c: Check, fired: set<string>, from: int)
    requires limits.Valid() && TableInv(limits, rows, from) && ClockedCheck(limits, c, from)
    requires SameDebt(rows, keys, prefix, from)
    ensures RedisStep(limits, keys, prefix, c, fired).decision == Rounded(SqliteStep(limits, rows, c).decision)
    ensures SameDebt(SqliteStep(limits, rows, c).rows, RedisStep(limits, keys, prefix, c, fired).rows, prefix, c.now)
  {
    KeySpacesAreDisjoint(limits, c);
    DropsAgree(limits, rows, keys, prefix, c, fired, from);
    var kept := if c.cleanup then Purge(rows, c.now) else rows;
    assert TableInv(limits, kept, c.now);
    ScriptsAgree(limits, kept, Expire(keys, fired, c.now), prefix, c);
  }

  lemma ScriptsAgree(limits: Limits, rows: Rows, keys: Keys, prefix: string, c: Check)
    requires limits.Valid() && TableInv(limits, rows, c.now) && ClockedCheck(limits, c, c.now)
    requires SameDebt(rows, keys, prefix, c.now)
    ensures var o := SqliteCheck(rows, limits.RateOf(c.Key()), c.Key(), c.now, false);
            var r := RedisScript(keys, limits.RateOf(c.Key()), prefix + c.Key(), c.now);
            r.decision == Rounded(o.decision) && SameDebt(o.rows, r.rows, prefix, c.now)
  {
    var rate, key := limits.RateOf(c.Key()), c.Key();
    var o := SqliteCheck(rows, rate, key, c.now, false);
    var r := RedisScript(keys, rate, prefix + key, c.now);
    assert Debt(rows, key, c.now) == StoredDebt(keys, prefix + key, c.now);
    if o.decision.Rejected? {
      CeilDivBounds(o.decision.retryUs);
    } else {
      CeilDivBounds(Debt(rows, key, c.now) + rate.intervalUs - c.now + rate.toleranceUs);
      forall k
        ensures Debt(o.rows, k, c.now) == StoredDebt(r.rows, prefix + k, c.now)
      {
        PrefixIsInjective(prefix, k, key);
        assert Debt(rows, k, c.now) == StoredDebt(keys, prefix + k, c.now);
      }
    }
  }

  lemma {:induction false} BackendsAgree(limits: Limits, rows: Rows, keys: Keys, prefix: string, checks: seq<Check>,
                                         fired: seq<set<string>>, from: int, i: nat)
    requires limits.Valid() && TableInv(limits, rows, from) && Clocked(limits, checks, from)
    requires |fired| == |checks| && i < |checks| && SameDebt(rows, keys, prefix, from)
    ensures RedisRun(limits, keys, prefix, checks, fired)[i] == Rounded(SqliteRun(limits, rows, checks)[i])
    decreases i
  {
    hide TableInv, SameDebt, SqliteStep, RedisStep, ClockedCheck, Rounded;
    hide Limits.Valid;
    var o := SqliteStep(limits, rows, checks[0]);
    var r := RedisStep(limits, keys, prefix, checks[0], fired[0]);
    StepsAgree(limits, rows, keys, prefix, checks[0], fired[0], from);
    if i > 0 {
      StepInvariant(limits, rows, checks[0], from);
      BackendsAgree(limits, o.rows, r.rows, prefix, checks[1..], fired[1..], checks[0].now, i - 1);
    }
  }

  /** The two backends decide alike on every run, whichever rows the purge removes and whichever
      TTLs fire; only the reported wait is rounded up to milliseconds. */
  lemma BackendsDecideAlike(limits: Limits, prefix: string, checks: seq<Check>, fired: seq<set<string>>, i: nat)
    requires limits.Valid() && Clocked(limits, checks, 0) && |fired| == |checks| && i < |checks|
    ensures RedisRun(limits, map[], prefix, checks, fired)[i] == Rounded(SqliteRun(limits, map[], checks)[i])
  {
    BackendsAgree(limits, map[], map[], prefix, checks, fired, 0, i);
  }
}
