/**
  Detection of distributed guessing: failures per account over all addresses, and one alert per
  window. The reference counts in the account's own list of failure times.
*/
module FailureMonitor {
  import opened Wrappers

  datatype Config = Config(window: nat, alertThreshold: nat)

  datatype AccountFailures = AccountFailures(count: nat, windowStarted: int, alerted: bool)

  type Entries = map<string, AccountFailures>

  datatype Event = Event(account: string, now: int)

  function Fresh(now: int): AccountFailures { AccountFailures(0, now, false) }

  function Retained(cfg: Config, entries: Entries, now: int): Entries {
    map k | k in entries && Elapsed(now, entries[k].windowStarted) <= cfg.window :: entries[k]
  }

  function Noted(cfg: Config, entries: Entries, e: Event): (Entries, bool) {
    var kept := Retained(cfg, entries, e.now);
    var f := if e.account in kept then kept[e.account] else Fresh(e.now);
    var count := f.count + 1;
    var alert := count >= cfg.alertThreshold && !f.alerted;
    (kept[e.account := AccountFailures(count, f.windowStarted, f.alerted || alert)], alert)
  }

  class AccountFailureMonitor {
    const cfg: Config
    var entries: Entries

    constructor (cfg: Config)
      ensures this.cfg == cfg && entries == map[]
    {
      this.cfg := cfg;
      entries := map[];
    }

    method NoteFailureAt(account: string, now: int) returns (alert: bool)
      modifies this
      ensures (entries, alert) == Noted(cfg, old(entries), Event(account, now))
      ensures forall k :: k != account ==>
                (k in entries <==> k in old(entries) && Elapsed(now, old(entries)[k].windowStarted) <= cfg.window)
      ensures forall k :: k != account && k in entries ==> entries[k] == old(entries)[k]
    {
      entries := Retained(cfg, entries, now);
      var failures := if account in entries then entries[account] else Fresh(now);
      if Elapsed(now, failures.windowStarted) > cfg.window {
        failures := Fresh(now);
      }
      failures := failures.(count := failures.count + 1);
      alert := failures.count >= cfg.alertThreshold && !failures.alerted;
      if alert {
        failures := failures.(alerted := true);
      }
      entries := entries[account := failures];
    }
  }

  // ---------------------------------------------------------------- runs

  predicate Clocked(es: seq<Event>) { forall i, j :: 0 <= i < j < |es| ==> es[i].now <= es[j].now }

  /** The entries after the first `n` failures. */
  function After(cfg: Config, es: seq<Event>, n: nat): Entries
    requires n <= |es|
  {
    if n == 0 then map[] else Noted(cfg, After(cfg, es, n - 1), es[n - 1]).0
  }

  function Alert(cfg: Config, es: seq<Event>, n: nat): bool
    requires n < |es|
  {
    Noted(cfg, After(cfg, es, n), es[n]).1
  }

  /** The times of an account's failures among the first `n`. */
  function FailureTimes(es: seq<Event>, n: nat, account: string): seq<int>
    requires n <= |es|
  {
    if n == 0 then []
    else FailureTimes(es, n - 1, account) + if es[n - 1].account == account then [es[n - 1].now] else []
  }

  /** The failure that opened the window of failure `i`. */
  function Opener(cfg: Config, ts: seq<int>, i: nat): (f: nat)
    requires i < |ts|
    ensures f <= i
  {
    if i == 0 then 0
    else var f := Opener(cfg, ts, i - 1); if ts[i] - ts[f] > cfg.window then i else f
  }

  function Needed(cfg: Config): nat { if cfg.alertThreshold == 0 then 1 else cfg.alertThreshold }

  /** What the map holds about an account, from its own times alone. */
  ghost predicate Tracks(cfg: Config, entries: Entries, ts: seq<int>, account: string, now: int) {
    if ts == [] then account !in entries
    else
      var f := Opener(cfg, ts, |ts| - 1);
      if account in entries
      then entries[account] == AccountFailures(|ts| - f, ts[f], |ts| - f >= Needed(cfg))
      else now - ts[f] > cfg.window
  }

  lemma {:induction false} OpenerPrefix(cfg: Config, ts: seq<int>, us: seq<int>, i: nat)
    requires i < |ts| <= |us| && ts == us[..|ts|]
    ensures Opener(cfg, ts, i) == Opener(cfg, us, i)
  {
    if i > 0 { OpenerPrefix(cfg, ts, us, i - 1); }
  }

  predicate NotAfter(ts: seq<int>, now: int) { forall i :: 0 <= i < |ts| ==> ts[i] <= now }

  lemma OwnFailure(cfg: Config, entries: Entries, ts: seq<int>, e: Event, before: int)
    requires Tracks(cfg, entries, ts, e.account, before) && before <= e.now && NotAfter(ts, before)
    ensures var us := ts + [e.now]; var (entries', alert) := Noted(cfg, entries, e);
            && Tracks(cfg, entries', us, e.account, e.now)
            && (alert <==> |us| - Opener(cfg, us, |us| - 1) == Needed(cfg))
  {
    var us := ts + [e.now];
    if ts != [] {
      assert ts == us[..|ts|];
      OpenerPrefix(cfg, ts, us, |ts| - 1);
    }
  }

  lemma OtherFailure(cfg: Config, entries: Entries, ts: seq<int>, account: string, e: Event, before: int)
    requires Tracks(cfg, entries, ts, account, before) && NotAfter(ts, before)
    requires before <= e.now && account != e.account
    ensures Tracks(cfg, Noted(cfg, entries, e).0, ts, account, e.now)
  {
  }

  lemma {:induction false} TimesNotAfter(es: seq<Event>, n: nat, account: string)
    requires 0 < n <= |es| && Clocked(es)
    ensures NotAfter(FailureTimes(es, n, account), es[n - 1].now)
  {
    if n > 1 { TimesNotAfter(es, n - 1, account); }
  }

  lemma {:induction false} RunTracks(cfg: Config, es: seq<Event>, n: nat, account: string)
    requires n <= |es| && Clocked(es)
    ensures Tracks(cfg, After(cfg, es, n), FailureTimes(es, n, account), account, if n == 0 then 0 else es[n - 1].now)
  {
    hide Tracks, Noted;
    if n == 0 {
      NothingTracked(cfg, account, 0);
    } else {
      var e := es[n - 1];
      RunTracks(cfg, es, n - 1, account);
      var before := if n == 1 then e.now else es[n - 2].now;
      if n == 1 { NothingTracked(cfg, account, before); } else { TimesNotAfter(es, n - 1, account); }
      var ts := FailureTimes(es, n - 1, account);
      if e.account == account {
        OwnFailure(cfg, After(cfg, es, n - 1), ts, e, before);
      } else {
        assert FailureTimes(es, n, account) == ts;
        OtherFailure(cfg, After(cfg, es, n - 1), ts, account, e, before);
      }
    }
  }

  lemma NothingTracked(cfg: Config, account: string, now: int)
    ensures Tracks(cfg, map[], [], account, now)
  {
  }

  /** In any run, a failure raises an alert exactly when it is the threshold-th of its account's
      current window; other accounts and dropped entries make no difference. */
  lemma AlertIff(cfg: Config, es: seq<Event>, n: nat)
    requires n < |es| && Clocked(es)
    ensures var ts := FailureTimes(es, n + 1, es[n].account);
            |ts| > 0 && (Alert(cfg, es, n) <==> |ts| - Opener(cfg, ts, |ts| - 1) == Needed(cfg))
  {
    var e := es[n];
    RunTracks(cfg, es, n, e.account);
    if n > 0 { TimesNotAfter(es, n, e.account); }
    var before := if n == 0 then e.now else es[n - 1].now;
    OwnFailure(cfg, After(cfg, es, n), FailureTimes(es, n, e.account), e, before);
  }

  predicate Sorted(ts: seq<int>) { forall a, b :: 0 <= a < b < |ts| ==> ts[a] <= ts[b] }

  /** The failures of a window lie within it, and it opens after the last one is over. */
  lemma {:induction false} WindowSpan(cfg: Config, ts: seq<int>, i: nat, j: nat)
    requires i < j < |ts|
    requires Sorted(ts)
    ensures ts[i] - ts[Opener(cfg, ts, i)] <= cfg.window
    ensures Opener(cfg, ts, j) == Opener(cfg, ts, i)
            || (i < Opener(cfg, ts, j) && ts[Opener(cfg, ts, j)] - ts[Opener(cfg, ts, i)] > cfg.window)
    decreases j
  {
    if i > 0 { WindowSpan(cfg, ts, i - 1, i); }
    if i + 1 < j { WindowSpan(cfg, ts, i, j - 1); }
  }

  lemma {:induction false} TimesGrow(es: seq<Event>, n: nat, m: nat, account: string)
    requires n <= m <= |es|
    ensures FailureTimes(es, n, account) <= FailureTimes(es, m, account)
    decreases m
  {
    if n < m { TimesGrow(es, n, m - 1, account); }
  }

  lemma {:induction false} TimesAreSorted(es: seq<Event>, n: nat, account: string)
    requires n <= |es| && Clocked(es)
    ensures Sorted(FailureTimes(es, n, account))
  {
    if n > 0 {
      var ts, us := FailureTimes(es, n - 1, account), FailureTimes(es, n, account);
      TimesAreSorted(es, n - 1, account);
      TimesNotAfter(es, n, account);
      forall a, b | 0 <= a < b < |us| ensures us[a] <= us[b] {
        if b < |ts| { assert us[a] == ts[a] && us[b] == ts[b]; }
      }
    }
  }

  /** The position of failure `n` in its account's list of times. */
  function Rank(es: seq<Event>, n: nat): nat
    requires n < |es|
  {
    |FailureTimes(es, n, es[n].account)|
  }

  /** In any run, two alerts of one account belong to windows that do not overlap: the later alert's
      window opens after the earlier alert, more than one window after that alert's own opened. */
  lemma OneAlertPerWindow(cfg: Config, es: seq<Event>, n: nat, m: nat)
    requires n < m < |es| && Clocked(es) && es[n].account == es[m].account && Alert(cfg, es, n) && Alert(cfg, es, m)
    ensures var ts := FailureTimes(es, m + 1, es[m].account); var i, j := Rank(es, n), Rank(es, m);
            && i < j < |ts| && ts[i] == es[n].now && ts[j] == es[m].now
            && i < Opener(cfg, ts, j) && ts[Opener(cfg, ts, j)] - ts[Opener(cfg, ts, i)] > cfg.window
            && ts[i] - ts[Opener(cfg, ts, i)] <= cfg.window
  {
    hide Opener, Alert, FailureTimes, Sorted;
    var account := es[m].account;
    var ts, us := FailureTimes(es, m + 1, account), FailureTimes(es, n + 1, account);
    var i, j := Rank(es, n), Rank(es, m);
    AlertIff(cfg, es, n);
    AlertIff(cfg, es, m);
    TimesGrow(es, n + 1, m, account);
    TimesGrow(es, n + 1, m + 1, account);
    TimesAreSorted(es, m + 1, account);
    LastTime(es, n);
    LastTime(es, m);
    WindowsApart(cfg, us, ts);
  }

  lemma LastTime(es: seq<Event>, n: nat)
    requires n < |es|
    ensures FailureTimes(es, n + 1, es[n].account) == FailureTimes(es, n, es[n].account) + [es[n].now]
  {
  }

  /** Two counts that reach the threshold, the second with more failures than the first. */
  lemma WindowsApart(cfg: Config, us: seq<int>, ts: seq<int>)
    requires 0 < |us| < |ts| && us <= ts && Sorted(ts)
    requires |us| - Opener(cfg, us, |us| - 1) == |ts| - Opener(cfg, ts, |ts| - 1)
    ensures var i, j := |us| - 1, |ts| - 1;
            && i < Opener(cfg, ts, j) && ts[Opener(cfg, ts, j)] - ts[Opener(cfg, ts, i)] > cfg.window
            && ts[i] - ts[Opener(cfg, ts, i)] <= cfg.window
  {
    hide Opener, Sorted;
    assert us == ts[..|us|];
    OpenerPrefix(cfg, us, ts, |us| - 1);
    WindowSpan(cfg, ts, |us| - 1, |ts| - 1);
  }
}
