/**
  Two runs from the start that show why guarded requests are not single steps: a stale enrolment
  removes a confirmed authenticator, and two deletions empty the operators table.
*/
module Races {
  import opened Wrappers
  import opened Sessions
  import opened Console
  import SignInTrace
  import EpochSafety
  import Administrators

  const NEW_ADMIN: OperatorRow := OperatorRow(Admin, 0, false)

  /** A session without a request in flight that the guard grants to `u`. */
  predicate Live(limit: nat, s: Sys, sid: Sid, u: UserId) {
    && sid in s.slots && s.slots[sid].flight.None? && s.slots[sid].data.userId == Some(u)
    && u in s.operators && Granted(s.slots[sid].data, s.operators, s.now, limit) == Some(s.operators[u].role)
  }

  /** Nothing but the clockwork of the session `sid` differs. */
  ghost predicate OnlySession(s: Sys, t: Sys, sid: Sid) {
    && t.operators == s.operators && t.nextUser == s.nextUser && t.firstTimeUses == s.firstTimeUses
    && t.now == s.now && sid in t.slots && t.slots == s.slots[sid := t.slots[sid]]
  }

  lemma StaysLive(limit: nat, s: Sys, t: Sys, sid: Sid, u: UserId)
    requires Live(limit, s, sid, u) && sid in t.slots && t.slots[sid] == s.slots[sid] && t.now == s.now
    requires u in t.operators && EpochSafety.SameAuthority(t.operators[u], s.operators[u])
    ensures Live(limit, t, sid, u)
  {
  }

  // ---------------------------------------------------------------- runs in parts

  lemma RunTwo(limit: nat, s: Sys, e: Event, f: Event)
    ensures Run(limit, s, [e]) == Next(limit, s, e) && Run(limit, s, [e, f]) == Next(limit, Next(limit, s, e), f)
  {
    hide Next;
    assert [e, f][1..] == [f] && [f][1..] == [] && [e][1..] == [];
    assert Run(limit, Next(limit, s, e), [f]) == Next(limit, Next(limit, s, e), f);
  }

  // ---------------------------------------------------------------- requests without interference

  function SignsIn(sid: Sid, u: UserId): seq<Event> {
    [ReadForLogin(sid, u), CheckMfa(sid)] + [FinishLogin(sid)]
  }

  /** Signing in with a password alone. */
  lemma PasswordSignIn(limit: nat, s: Sys, sid: Sid, u: UserId)
    requires limit > 0 && sid !in s.slots && u in s.operators && !s.operators[u].mfa
    ensures var t := Run(limit, s, SignsIn(sid, u));
            && OnlySession(s, t, sid) && Live(limit, t, sid, u)
            && t.log == s.log + [PasswordAccepted(sid, u, s.now, false), SignedIn(sid, u, s.now, |s.log|)]
            && t.slots[sid].signedVia == |s.log| + 1
  {
    RunParts(limit, s, [ReadForLogin(sid, u), CheckMfa(sid)], [FinishLogin(sid)]);
    var a := Next(limit, s, ReadForLogin(sid, u));
    var b := Next(limit, a, CheckMfa(sid));
    RunTwo(limit, s, ReadForLogin(sid, u), CheckMfa(sid));
    RunTwo(limit, b, FinishLogin(sid), FinishLogin(sid));
    hide Run;
    assert a.slots[sid].flight == Some(LoginRead(Snapshot(u, s.operators[u], s.steps)));
    assert b.slots[sid].flight == Some(LoginCleared(Snapshot(u, s.operators[u], s.steps), |s.log|));
  }

  lemma GuardAdmits(limit: nat, s: Sys, sid: Sid, u: UserId, a: Action)
    requires Live(limit, s, sid, u) && (AdminOnly(a) ==> s.operators[u].role == Admin)
    ensures var t := Next(limit, s, Guard(sid, a));
            && OnlySession(s, t, sid) && t.slots[sid].flight == Some(Acting(u, a))
            && t.log == s.log && Live(limit, t.(slots := t.slots[sid := Land(t.slots[sid])]), sid, u)
  {
  }

  // ---------------------------------------------------------------- the stale enrolment

  function ChecksEnrolment(sid: Sid): seq<Event> { [Guard(sid, EnrollMfa), CheckEnrolment(sid)] }

  lemma CheckPasses(limit: nat, s: Sys, sid: Sid, u: UserId)
    requires Live(limit, s, sid, u) && !s.operators[u].mfa
    ensures var t := Run(limit, s, ChecksEnrolment(sid));
            && OnlySession(s, t, sid) && t.slots[sid].flight == Some(Enrolling(u))
            && Live(limit, t.(slots := t.slots[sid := Land(t.slots[sid])]), sid, u)
  {
    RunTwo(limit, s, Guard(sid, EnrollMfa), CheckEnrolment(sid));
    GuardAdmits(limit, s, sid, u, EnrollMfa);
    hide Run, Granted, ServeGuard;
  }

  lemma EnrolmentIsWritten(limit: nat, s: Sys, sid: Sid, u: UserId)
    requires sid in s.slots && s.slots[sid].flight == Some(Enrolling(u)) && u in s.operators
    ensures var t := Next(limit, s, Write(sid));
            && t.operators == s.operators[u := s.operators[u].(mfa := false)] && t.now == s.now
            && t.slots == s.slots[sid := Land(s.slots[sid])]
  {
  }

  function Confirms(sid: Sid): seq<Event> { [Guard(sid, ConfirmMfa), Write(sid)] + [ReadForRefresh(sid), Sync(sid)] }

  function WithMfa(row: OperatorRow): OperatorRow { row.(version := row.version + 1, mfa := true) }

  predicate Unexpired(limit: nat, s: Sys, slot: Slot) {
    slot.data.authenticatedAt.Some? && s.now - slot.data.authenticatedAt.value < limit
  }

  lemma ConfirmationIsWritten(limit: nat, s: Sys, sid: Sid, u: UserId)
    requires Live(limit, s, sid, u) && !s.operators[u].mfa
    ensures var t := Run(limit, s, [Guard(sid, ConfirmMfa), Write(sid)]);
            && t.operators == s.operators[u := WithMfa(s.operators[u])] && t.now == s.now && t.steps == s.steps + 2
            && sid in t.slots && t.slots == s.slots[sid := t.slots[sid]]
            && t.slots[sid].flight == Some(Changed(u)) && Unexpired(limit, t, t.slots[sid])
  {
    RunTwo(limit, s, Guard(sid, ConfirmMfa), Write(sid));
    GuardAdmits(limit, s, sid, u, ConfirmMfa);
    hide Run, ServeGuard;
  }

  lemma SessionIsRefreshed(limit: nat, s: Sys, sid: Sid, u: UserId)
    requires sid in s.slots && s.slots[sid].flight == Some(Changed(u)) && u in s.operators
    requires Unexpired(limit, s, s.slots[sid])
    ensures var t := Run(limit, s, [ReadForRefresh(sid), Sync(sid)]);
            && OnlySession(s, t, sid) && Live(limit, t, sid, u)
            && t.steps == s.steps + 2 && t.slots[sid].syncedFrom == s.steps
  {
    RunTwo(limit, s, ReadForRefresh(sid), Sync(sid));
    hide Run;
    var a := Next(limit, s, ReadForRefresh(sid));
    assert a.slots[sid].flight == Some(Refreshing(Snapshot(u, s.operators[u], s.steps)));
  }

  /** A confirmed enrolment, and the session refreshed from the row it left. */
  lemma ConfirmationSucceeds(limit: nat, s: Sys, sid: Sid, u: UserId)
    requires Live(limit, s, sid, u) && !s.operators[u].mfa
    ensures var t := Run(limit, s, Confirms(sid));
            && t.operators == s.operators[u := WithMfa(s.operators[u])] && t.now == s.now
            && Live(limit, t, sid, u) && t.slots == s.slots[sid := t.slots[sid]]
            && t.steps == s.steps + 4 && t.slots[sid].syncedFrom == s.steps + 2
  {
    hide Run, Live, Unexpired;
    ConfirmationIsWritten(limit, s, sid, u);
    RunParts(limit, s, [Guard(sid, ConfirmMfa), Write(sid)], [ReadForRefresh(sid), Sync(sid)]);
    SessionIsRefreshed(limit, Run(limit, s, [Guard(sid, ConfirmMfa), Write(sid)]), sid, u) by {
      assert u in s.operators by { LiveOperator(limit, s, sid, u); }
    }
  }

  lemma LiveOperator(limit: nat, s: Sys, sid: Sid, u: UserId)
    requires Live(limit, s, sid, u)
    ensures u in s.operators && sid in s.slots
  {
  }

  // The first operator signs in twice; both sessions ask for an enrolment, and only the second one's
  // is written and confirmed before the first one's is written.
  const TWO_SESSIONS: seq<Event> := [FirstTime(true)] + SignsIn(0, 0) + SignsIn(1, 0)
  const BOTH_CHECKED: seq<Event> := TWO_SESSIONS + ChecksEnrolment(0) + ChecksEnrolment(1)
  const ONE_CONFIRMED: seq<Event> := BOTH_CHECKED + [Write(1)] + Confirms(1)
  const STALE_ENROLMENT: seq<Event> := ONE_CONFIRMED + [Write(0)]

  lemma FirstAdmin(limit: nat)
    ensures var s := Run(limit, INITIAL, [FirstTime(true)]);
            && s.operators == map[0 := NEW_ADMIN] && s.nextUser == 1 && s.slots == map[] && s.firstTimeUses == 1
  {
    RunTwo(limit, INITIAL, FirstTime(true), FirstTime(true));
  }

  lemma TwoSessions(limit: nat)
    requires limit > 0
    ensures var s := Run(limit, INITIAL, TWO_SESSIONS);
            && Live(limit, s, 0, 0) && Live(limit, s, 1, 0) && s.operators == map[0 := NEW_ADMIN]
            && s.slots.Keys == {0, 1}
  {
    hide Run, Live, SignsIn;
    FirstAdmin(limit);
    var a := Run(limit, INITIAL, [FirstTime(true)]);
    RunParts(limit, INITIAL, [FirstTime(true)], SignsIn(0, 0));
    PasswordSignIn(limit, a, 0, 0);
    var b := Run(limit, a, SignsIn(0, 0));
    RunParts(limit, INITIAL, [FirstTime(true)] + SignsIn(0, 0), SignsIn(1, 0));
    PasswordSignIn(limit, b, 1, 0);
    StaysLive(limit, b, Run(limit, b, SignsIn(1, 0)), 0, 0);
  }

  lemma BothChecked(limit: nat)
    requires limit > 0
    ensures var s := Run(limit, INITIAL, BOTH_CHECKED);
            && s.operators == map[0 := NEW_ADMIN] && s.slots.Keys == {0, 1}
            && s.slots[0].flight == Some(Enrolling(0)) && s.slots[1].flight == Some(Enrolling(0))
            && Live(limit, s.(slots := s.slots[1 := Land(s.slots[1])]), 1, 0)
  {
    hide Run, Live, ChecksEnrolment;
    TwoSessions(limit);
    var a := Run(limit, INITIAL, TWO_SESSIONS);
    RunParts(limit, INITIAL, TWO_SESSIONS, ChecksEnrolment(0));
    CheckPasses(limit, a, 0, 0);
    var b := Run(limit, a, ChecksEnrolment(0));
    RunParts(limit, INITIAL, TWO_SESSIONS + ChecksEnrolment(0), ChecksEnrolment(1));
    StaysLive(limit, a, b, 1, 0);
    CheckPasses(limit, b, 1, 0);
  }

  lemma OneConfirmed(limit: nat)
    requires limit > 0
    ensures var s := Run(limit, INITIAL, ONE_CONFIRMED);
            && s.operators == map[0 := OperatorRow(Admin, 1, true)] && s.slots.Keys == {0, 1}
            && s.slots[0].flight == Some(Enrolling(0)) && Live(limit, s, 1, 0)
            && s.slots[1].syncedFrom + 2 == s.steps
  {
    hide Run, Live, Confirms;
    BothChecked(limit);
    var a := Run(limit, INITIAL, BOTH_CHECKED);
    RunParts(limit, INITIAL, BOTH_CHECKED, [Write(1)]);
    RunTwo(limit, a, Write(1), Write(1));
    EnrolmentIsWritten(limit, a, 1, 0);
    hide Next;
    var b := Next(limit, a, Write(1));
    StaysLive(limit, a.(slots := a.slots[1 := Land(a.slots[1])]), b, 1, 0);
    RunParts(limit, INITIAL, BOTH_CHECKED + [Write(1)], Confirms(1));
    ConfirmationSucceeds(limit, b, 1, 0);
  }

  lemma {:induction false} StepsOfRun(limit: nat, s: Sys, es: seq<Event>)
    ensures Run(limit, s, es).steps == s.steps + |es|
    decreases |es|
  {
    hide Act;
    if es != [] { StepsOfRun(limit, Next(limit, s, es[0]), es[1..]); }
  }

  lemma EnrolmentGoesStale(limit: nat)
    requires limit > 0
    ensures var s := Run(limit, INITIAL, STALE_ENROLMENT);
            && Live(limit, s, 1, 0) && s.slots.Keys == {0, 1}
            && s.operators == map[0 := OperatorRow(Admin, 1, false)]
            && s.slots[1].syncedFrom < |STALE_ENROLMENT| - 1
            && EpochSafety.ReplacedAt(limit, STALE_ENROLMENT, |STALE_ENROLMENT| - 1, 0)
  {
    OneConfirmed(limit);
    var a := Run(limit, INITIAL, ONE_CONFIRMED);
    RunParts(limit, INITIAL, ONE_CONFIRMED, [Write(0)]);
    RunTwo(limit, a, Write(0), Write(0));
    StepsOfRun(limit, INITIAL, ONE_CONFIRMED);
    assert STALE_ENROLMENT[..|STALE_ENROLMENT| - 1] == ONE_CONFIRMED;
    hide Run, Live, ONE_CONFIRMED;
    EnrolmentIsWritten(limit, a, 0, 0);
    StaysLive(limit, a, Next(limit, a, Write(0)), 1, 0);
  }

  /** A stale enrolment, from the start: the second session is granted although the row behind its
      identity has changed, and nobody turned two-factor off. The next sign-in of the operator needs
      no second factor. */
  lemma StaleEnrolment(limit: nat)
    requires limit > 0
    ensures forall e :: e in STALE_ENROLMENT && e.Guard? ==> e.action == EnrollMfa || e.action == ConfirmMfa
    ensures var s, h := Run(limit, INITIAL, STALE_ENROLMENT), EpochSafety.History(limit, INITIAL, STALE_ENROLMENT);
            && Live(limit, s, 1, 0)
            && !EpochSafety.Unchanged(h, s.slots[1].syncedFrom, 0, s.operators[0])
    ensures var t := Run(limit, INITIAL, STALE_ENROLMENT + SignsIn(2, 0));
            && Live(limit, t, 2, 0) && 0 < t.slots[2].signedVia < |t.log|
            && t.log[t.slots[2].signedVia] == SignedIn(2, 0, t.now, t.slots[2].signedVia - 1)
            && SignInTrace.IsPassword(t.log, t.slots[2].signedVia - 1, 2, 0, false)
  {
    hide Run, EpochSafety.History, EpochSafety.ReplacedAt, STALE_ENROLMENT;
    var s := Run(limit, INITIAL, STALE_ENROLMENT);
    EnrolmentGoesStale(limit);
    OnlyEnrolmentRequests();
    EpochSafety.WholeRowIsCurrentIff(limit, STALE_ENROLMENT, 1);
    RunParts(limit, INITIAL, STALE_ENROLMENT, SignsIn(2, 0));
    hide SignsIn, Live;
    PasswordSignIn(limit, s, 2, 0);
  }

  lemma OnlyEnrolmentRequests()
    ensures forall e :: e in STALE_ENROLMENT && e.Guard? ==> e.action == EnrollMfa || e.action == ConfirmMfa
  {
  }

  // ---------------------------------------------------------------- the deletions

  function Adds(sid: Sid): seq<Event> { [Guard(sid, InsertUser(Admin)), Write(sid)] }

  /** An administrator adds another one. */
  lemma AddAdmin(limit: nat, s: Sys, sid: Sid, u: UserId)
    requires Live(limit, s, sid, u) && IdsInv(s) && s.operators[u].role == Admin
    ensures var t := Run(limit, s, Adds(sid));
            && t.operators == s.operators[s.nextUser := NEW_ADMIN] && t.now == s.now
            && t.firstTimeUses == s.firstTimeUses && Live(limit, t, sid, u) && t.slots.Keys == s.slots.Keys
  {
    RunTwo(limit, s, Guard(sid, InsertUser(Admin)), Write(sid));
    GuardAdmits(limit, s, sid, u, InsertUser(Admin));
    hide Run, ServeGuard;
    assert u != s.nextUser;
  }

  lemma WriteDeletes(limit: nat, s: Sys, sid: Sid, u: UserId, t: UserId)
    requires sid in s.slots && s.slots[sid].flight == Some(Acting(u, DeleteUser(t))) && t != u && t in s.operators
    ensures var s' := Next(limit, s, Write(sid));
            && s'.operators == s.operators - {t} && s'.firstTimeUses == s.firstTimeUses
            && s'.slots == s.slots[sid := s'.slots[sid]]
  {
  }

  lemma FirstTimeCreates(limit: nat, s: Sys)
    ensures s.operators == map[] ==> Next(limit, s, FirstTime(true)).firstTimeUses == s.firstTimeUses + 1
  {
  }

  function DeletesEachOther(sid: Sid, u: UserId, sid': Sid, u': UserId): seq<Event> {
    [Guard(sid, DeleteUser(u')), Guard(sid', DeleteUser(u))] + [Write(sid), Write(sid')]
  }

  /** Two administrators are let through before either writes: the table ends up empty. */
  lemma DeletionRace(limit: nat, s: Sys, sid: Sid, sid': Sid, u: UserId, u': UserId)
    requires sid != sid' && u != u' && s.operators.Keys == {u, u'}
    requires Live(limit, s, sid, u) && Live(limit, s, sid', u')
    requires s.operators[u].role == s.operators[u'].role == Admin
    ensures var t := Run(limit, s, DeletesEachOther(sid, u, sid', u'));
            t.operators == map[] && t.firstTimeUses == s.firstTimeUses
  {
    var a := Next(limit, s, Guard(sid, DeleteUser(u')));
    var b := Next(limit, a, Guard(sid', DeleteUser(u)));
    var c := Next(limit, b, Write(sid));
    RunParts(limit, s, [Guard(sid, DeleteUser(u')), Guard(sid', DeleteUser(u))], [Write(sid), Write(sid')]);
    RunTwo(limit, s, Guard(sid, DeleteUser(u')), Guard(sid', DeleteUser(u)));
    RunTwo(limit, b, Write(sid), Write(sid'));
    GuardAdmits(limit, s, sid, u, DeleteUser(u'));
    StaysLive(limit, s, a, sid', u');
    hide Next, Granted, Run;
    GuardAdmits(limit, a, sid', u', DeleteUser(u));
    WriteDeletes(limit, b, sid, u, u');
    WriteDeletes(limit, c, sid', u', u);
  }

  const ONE_ADMIN: seq<Event> := [FirstTime(true)] + SignsIn(0, 0)
  const TWO_ADMINS: seq<Event> := ONE_ADMIN + Adds(0) + SignsIn(1, 1)
  const NO_ADMIN: seq<Event> := TWO_ADMINS + DeletesEachOther(0, 0, 1, 1)

  lemma OneAdmin(limit: nat)
    requires limit > 0
    ensures var s := Run(limit, INITIAL, ONE_ADMIN);
            && s.operators == map[0 := NEW_ADMIN] && s.nextUser == 1 && s.slots.Keys == {0}
            && s.firstTimeUses == 1 && Live(limit, s, 0, 0)
  {
    hide Run, Live, SignsIn;
    FirstAdmin(limit);
    RunParts(limit, INITIAL, [FirstTime(true)], SignsIn(0, 0));
    PasswordSignIn(limit, Run(limit, INITIAL, [FirstTime(true)]), 0, 0);
  }

  lemma TwoAdmins(limit: nat)
    requires limit > 0
    ensures var s := Run(limit, INITIAL, TWO_ADMINS);
            && s.operators == map[0 := NEW_ADMIN, 1 := NEW_ADMIN] && s.firstTimeUses == 1
            && Live(limit, s, 0, 0) && Live(limit, s, 1, 1)
  {
    hide Run, Live, SignsIn, Adds;
    OneAdmin(limit);
    var a := Run(limit, INITIAL, ONE_ADMIN);
    RunParts(limit, INITIAL, ONE_ADMIN, Adds(0));
    AddAdmin(limit, a, 0, 0);
    var b := Run(limit, a, Adds(0));
    RunParts(limit, INITIAL, ONE_ADMIN + Adds(0), SignsIn(1, 1));
    PasswordSignIn(limit, b, 1, 1);
    StaysLive(limit, b, Run(limit, b, SignsIn(1, 1)), 0, 0);
  }

  /** From the start, the table can be emptied and `first_time` consumed twice. */
  lemma FirstTimeReopens(limit: nat)
    requires limit > 0
    ensures !Administrators.Closed(Run(limit, INITIAL, NO_ADMIN))
    ensures Run(limit, INITIAL, NO_ADMIN + [FirstTime(true)]).firstTimeUses == 2
  {
    hide Run, Live, DeletesEachOther, TWO_ADMINS;
    TwoAdmins(limit);
    var s := Run(limit, INITIAL, TWO_ADMINS);
    RunParts(limit, INITIAL, TWO_ADMINS, DeletesEachOther(0, 0, 1, 1));
    DeletionRace(limit, s, 0, 1, 0, 1);
    var t := Run(limit, INITIAL, NO_ADMIN);
    RunParts(limit, INITIAL, NO_ADMIN, [FirstTime(true)]);
    RunTwo(limit, t, FirstTime(true), FirstTime(true));
    FirstTimeCreates(limit, t);
  }
}
