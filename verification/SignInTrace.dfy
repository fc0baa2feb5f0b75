/**
  Whoever the guard lets in has signed in: every grant traces back through the log to an accepted
  password, and to an accepted second factor where the account had one.
*/
module SignInTrace {
  import opened Wrappers
  import opened Sessions
  import opened Console

  predicate IsPassword(log: seq<Entry>, i: nat, sid: Sid, u: UserId, mfaConfirmed: bool) {
    && i < |log| && log[i].PasswordAccepted? && log[i].sid == sid && log[i].user == u
    && log[i].mfaConfirmed == mfaConfirmed
  }

  predicate IsFactor(log: seq<Entry>, i: nat, sid: Sid, u: UserId) {
    i < |log| && log[i].SecondFactor? && log[i].sid == sid && log[i].user == u
  }

  /** Every entry rests on an earlier one of the same session and user. */
  ghost predicate Justified(log: seq<Entry>, i: nat)
    requires i < |log|
  {
    match log[i]
    case PasswordAccepted(_, _, _, _) => true
    case SecondFactor(sid, u, submittedAt, via) =>
      via < i && IsPassword(log, via, sid, u, true) && 0 <= submittedAt - log[via].at <= MFA_PENDING_TTL_SECONDS
    case SignedIn(sid, u, _, via) =>
      via < i && (IsPassword(log, via, sid, u, false) || IsFactor(log, via, sid, u))
  }

  ghost predicate LogInv(log: seq<Entry>) { forall i :: 0 <= i < |log| ==> Justified(log, i) }

  /** Entry `i` is the last sign-in of the session. */
  ghost predicate LastSignIn(log: seq<Entry>, i: nat, sid: Sid, u: UserId) {
    && i < |log| && log[i].SignedIn? && log[i].sid == sid && log[i].user == u
    && forall j :: i < j < |log| ==> !(log[j].SignedIn? && log[j].sid == sid)
  }

  /** A session's identity is that of its last sign-in; its marker is that of an accepted password. */
  ghost predicate DataInv(log: seq<Entry>, now: int, sid: Sid, slot: Slot) {
    var d := slot.data;
    && (d.userId.Some? ==>
          LastSignIn(log, slot.signedVia, sid, d.userId.value) && d.authenticatedAt == Some(log[slot.signedVia].at))
    && (d.pendingUser.Some? ==>
          && IsPassword(log, slot.parkedVia, sid, d.pendingUser.value, true)
          && log[slot.parkedVia].at <= now && d.pendingAt == Some(log[slot.parkedVia].at))
  }

  ghost predicate FlightInv(log: seq<Entry>, sid: Sid, slot: Slot) {
    slot.flight.Some? ==>
      match slot.flight.value
      case LoginRead(_) => true
      case LoginCleared(snap, via) => IsPassword(log, via, sid, snap.user, false)
      case ChallengeRead(snap, submittedAt, via) =>
        && IsPassword(log, via, sid, snap.user, true)
        && 0 <= submittedAt - log[via].at <= MFA_PENDING_TTL_SECONDS
      case ChallengePassed(snap, via) => IsFactor(log, via, sid, snap.user)
      case Acting(u, _) => slot.data.userId == Some(u)
      case Enrolling(u) => slot.data.userId == Some(u)
      case Changed(u) => slot.data.userId == Some(u)
      case Refreshing(snap) => slot.data.userId == Some(snap.user)
  }

  ghost predicate SlotInv(log: seq<Entry>, now: int, sid: Sid, slot: Slot) {
    DataInv(log, now, sid, slot) && FlightInv(log, sid, slot)
  }

  ghost predicate TraceInv(s: Sys) {
    LogInv(s.log) && forall sid :: sid in s.slots ==> SlotInv(s.log, s.now, sid, s.slots[sid])
  }

  // ---------------------------------------------------------------- steps

  /** Entries of other sessions, and time, do not disturb a session. */
  lemma SlotFrame(log: seq<Entry>, now: int, log': seq<Entry>, now': int, sid: Sid, slot: Slot)
    requires SlotInv(log, now, sid, slot) && log <= log' && now <= now'
    requires forall j :: |log| <= j < |log'| ==> !(log'[j].SignedIn? && log'[j].sid == sid)
    ensures SlotInv(log', now', sid, slot)
  {
  }

  /** Serving one session keeps the invariant if that session keeps its own. */
  lemma PutKeepsTrace(s: Sys, sid: Sid, served: Served)
    requires TraceInv(s) && LogInv(s.log + served.entries)
    requires forall j :: 0 <= j < |served.entries| ==> served.entries[j].sid == sid
    requires SlotInv(s.log + served.entries, s.now, sid, served.slot)
    ensures TraceInv(Put(s, sid, served))
  {
    hide SlotInv, LogInv;
    var t := Put(s, sid, served);
    forall other | other in t.slots ensures SlotInv(t.log, t.now, other, t.slots[other]) {
      if other != sid { SlotFrame(s.log, s.now, t.log, t.now, other, s.slots[other]); }
    }
  }

  lemma QuietKeepsTrace(s: Sys, sid: Sid, slot: Slot)
    requires TraceInv(s) && SlotInv(s.log, s.now, sid, slot)
    ensures TraceInv(Put(s, sid, Quiet(slot)))
  {
    hide SlotInv, LogInv;
    assert s.log + [] == s.log;
    PutKeepsTrace(s, sid, Quiet(slot));
  }

  lemma LogGrows(log: seq<Entry>, e: Entry)
    requires LogInv(log) && Justified(log + [e], |log|)
    ensures LogInv(log + [e])
  {
    forall i | 0 <= i < |log| ensures Justified(log + [e], i) {
      assert Justified(log, i);
    }
  }

  lemma SlotIsFine(s: Sys, sid: Sid)
    requires TraceInv(s)
    ensures SlotInv(s.log, s.now, sid, SlotOf(s, sid))
  {
  }

  lemma SignInKeepsTrace(s: Sys, sid: Sid, slot: Slot, data: Session, snap: Snapshot, via: nat)
    requires TraceInv(s) && SlotInv(s.log, s.now, sid, slot)
    requires IsPassword(s.log, via, sid, snap.user, false) || IsFactor(s.log, via, sid, snap.user)
    requires data == slot.data || data == WithoutPending(slot.data)
    ensures TraceInv(Put(s, sid, SignIn(s, sid, slot, data, snap, via)))
  {
    LogGrows(s.log, SignedIn(sid, snap.user, s.now, via));
    hide LogInv, Put;
    PutKeepsTrace(s, sid, SignIn(s, sid, slot, data, snap, via));
  }

  lemma LoginKeepsTrace(s: Sys, sid: Sid, slot: Slot, e: Event)
    requires TraceInv(s) && SlotInv(s.log, s.now, sid, slot) && (e.ReadForLogin? || e.CheckMfa? || e.FinishLogin?)
    ensures TraceInv(Put(s, sid, ServeLogin(s, sid, slot, e)))
  {
    var served := ServeLogin(s, sid, slot, e);
    if e.FinishLogin? && slot.flight.Some? && slot.flight.value.LoginCleared? {
      SignInKeepsTrace(s, sid, slot, slot.data, slot.flight.value.snap, slot.flight.value.via);
    } else if e.CheckMfa? && slot.flight.Some? && slot.flight.value.LoginRead? {
      LogGrows(s.log, served.entries[0]);
      SlotFrame(s.log, s.now, s.log + served.entries, s.now, sid, slot);
      hide LogInv, Put;
      PutKeepsTrace(s, sid, served);
    } else {
      hide LogInv, Put;
      QuietKeepsTrace(s, sid, served.slot);
    }
  }

  lemma ChallengeKeepsTrace(s: Sys, sid: Sid, slot: Slot, e: Event)
    requires TraceInv(s) && SlotInv(s.log, s.now, sid, slot) && (e.SubmitCode? || e.AcceptCode? || e.FinishChallenge?)
    ensures TraceInv(Put(s, sid, ServeChallenge(s, sid, slot, e)))
  {
    var served := ServeChallenge(s, sid, slot, e);
    if e.FinishChallenge? && slot.flight.Some? && slot.flight.value.ChallengePassed? {
      SignInKeepsTrace(s, sid, slot, WithoutPending(slot.data), slot.flight.value.snap, slot.flight.value.via);
    } else if e.AcceptCode? && slot.flight.Some? && slot.flight.value.ChallengeRead? {
      LogGrows(s.log, served.entries[0]);
      SlotFrame(s.log, s.now, s.log + served.entries, s.now, sid, slot);
      hide LogInv, Put;
      PutKeepsTrace(s, sid, served);
    } else {
      hide LogInv, Put;
      QuietKeepsTrace(s, sid, served.slot);
    }
  }

  /** The guard only rotates, flushes, or lets the session's own operator through. */
  lemma GuardKeepsSlot(limit: nat, s: Sys, sid: Sid, slot: Slot, action: Action)
    requires SlotInv(s.log, s.now, sid, slot)
    ensures SlotInv(s.log, s.now, sid, ServeGuard(limit, s, slot, action))
  {
    hide LastSignIn, IsPassword;
  }

  lemma WriteKeepsSlot(s: Sys, t: Sys, sid: Sid, slot: Slot)
    requires SlotInv(s.log, s.now, sid, slot) && slot.flight.Some? && slot.flight.value.Acting?
    ensures SlotInv(s.log, s.now, sid, AfterWrite(s, t, slot, slot.flight.value.user, slot.flight.value.action))
  {
    hide LastSignIn, IsPassword;
  }

  lemma RefreshKeepsSlot(s: Sys, sid: Sid, slot: Slot, e: Event)
    requires SlotInv(s.log, s.now, sid, slot) && (e.ReadForRefresh? || e.Sync?)
    ensures SlotInv(s.log, s.now, sid, ServeRefresh(s, slot, e))
  {
    hide LastSignIn, IsPassword;
  }

  lemma EnrolmentKeepsSlot(s: Sys, sid: Sid, slot: Slot)
    requires SlotInv(s.log, s.now, sid, slot)
    ensures SlotInv(s.log, s.now, sid, ServeEnrolment(s, slot))
  {
    hide LastSignIn, IsPassword;
  }

  lemma TickKeepsTrace(s: Sys, seconds: nat)
    requires TraceInv(s)
    ensures TraceInv(s.(now := s.now + seconds))
  {
    hide SlotInv, LogInv;
    forall sid | sid in s.slots ensures SlotInv(s.log, s.now + seconds, sid, s.slots[sid]) {
      SlotFrame(s.log, s.now, s.log, s.now + seconds, sid, s.slots[sid]);
    }
  }

  lemma WriteKeepsTrace(s: Sys, sid: Sid, slot: Slot)
    requires TraceInv(s) && SlotInv(s.log, s.now, sid, slot)
    ensures TraceInv(ServeWrite(s, sid, slot))
  {
    if slot.flight.Some? && slot.flight.value.Acting? {
      WriteKeepsSlot(s, Effect(s, slot.flight.value.user, slot.flight.value.action), sid, slot);
    }
    LandedSlot(s.log, s.now, sid, slot);
    hide SlotInv, LogInv, AfterWrite, Effect, Put;
    if slot.flight.Some? && slot.flight.value.Acting? {
      var u, action := slot.flight.value.user, slot.flight.value.action;
      var t := Effect(s, u, action);
      EffectFrame(s, u, action);
      QuietKeepsTrace(t, sid, AfterWrite(s, t, slot, u, action));
    } else if slot.flight.Some? && slot.flight.value.Enrolling? {
      QuietKeepsTrace(Enrolled(s, slot.flight.value.user), sid, Land(slot));
    }
  }

  lemma ActKeepsTrace(limit: nat, s: Sys, e: Event)
    requires TraceInv(s)
    ensures TraceInv(Act(limit, s, e))
  {
    if !(e.Tick? || e.FirstTime? || e.Bootstrap?) { SlotIsFine(s, e.sid); }
    FlushedSlot(s.log, s.now);
    hide SlotInv, LogInv, ServeLogin, ServeChallenge, ServeGuard, ServeEnrolment, ServeRefresh, AfterWrite, Effect, Put;
    match e
    case Tick(seconds) => TickKeepsTrace(s, seconds);
    case ReadForLogin(sid, _) => LoginKeepsTrace(s, sid, SlotOf(s, sid), e);
    case CheckMfa(sid) => LoginKeepsTrace(s, sid, SlotOf(s, sid), e);
    case FinishLogin(sid) => LoginKeepsTrace(s, sid, SlotOf(s, sid), e);
    case SubmitCode(sid) => ChallengeKeepsTrace(s, sid, SlotOf(s, sid), e);
    case AcceptCode(sid) => ChallengeKeepsTrace(s, sid, SlotOf(s, sid), e);
    case FinishChallenge(sid) => ChallengeKeepsTrace(s, sid, SlotOf(s, sid), e);
    case Guard(sid, action) =>
      GuardKeepsSlot(limit, s, sid, SlotOf(s, sid), action);
      QuietKeepsTrace(s, sid, ServeGuard(limit, s, SlotOf(s, sid), action));
    case CheckEnrolment(sid) =>
      EnrolmentKeepsSlot(s, sid, SlotOf(s, sid));
      QuietKeepsTrace(s, sid, ServeEnrolment(s, SlotOf(s, sid)));
    case Write(sid) => WriteKeepsTrace(s, sid, SlotOf(s, sid));
    case ReadForRefresh(sid) =>
      RefreshKeepsSlot(s, sid, SlotOf(s, sid), e);
      QuietKeepsTrace(s, sid, ServeRefresh(s, SlotOf(s, sid), e));
    case Sync(sid) =>
      RefreshKeepsSlot(s, sid, SlotOf(s, sid), e);
      QuietKeepsTrace(s, sid, ServeRefresh(s, SlotOf(s, sid), e));
    case Flush(sid) =>
      if SlotOf(s, sid).flight.None? { QuietKeepsTrace(s, sid, SlotOf(s, sid).(data := EMPTY)); }
    case Abandon(sid) =>
      LandedSlot(s.log, s.now, sid, SlotOf(s, sid));
      QuietKeepsTrace(s, sid, Land(SlotOf(s, sid)));
    case _ =>
  }

  lemma FlushedSlot(log: seq<Entry>, now: int)
    ensures forall sid, slot: Slot :: slot.flight.None? ==> SlotInv(log, now, sid, slot.(data := EMPTY))
  {
  }

  lemma LandedSlot(log: seq<Entry>, now: int, sid: Sid, slot: Slot)
    requires SlotInv(log, now, sid, slot)
    ensures SlotInv(log, now, sid, Land(slot))
  {
  }

  lemma StepKeepsTrace(limit: nat, s: Sys, e: Event)
    requires TraceInv(s)
    ensures TraceInv(Next(limit, s, e))
  {
    ActKeepsTrace(limit, s, e);
    hide Act, SlotInv, LogInv;
  }

  lemma {:induction false} RunKeepsTrace(limit: nat, s: Sys, es: seq<Event>)
    requires TraceInv(s)
    ensures TraceInv(Run(limit, s, es))
    decreases |es|
  {
    hide TraceInv, Next;
    if es != [] {
      StepKeepsTrace(limit, s, es[0]);
      RunKeepsTrace(limit, Next(limit, s, es[0]), es[1..]);
    }
  }

  // ---------------------------------------------------------------- the table behind each entry

  /** The account has a confirmed authenticator. */
  predicate HasMfa(operators: Operators, u: UserId) { u in operators && operators[u].mfa }

  /** For each entry that a run logs, the operators table just before the step that logs it. */
  function Tables(limit: nat, s: Sys, es: seq<Event>): seq<Operators>
    decreases |es|
  {
    if es == [] then []
    else
      var t := Next(limit, s, es[0]);
      (if |s.log| < |t.log| then [s.operators] else []) + Tables(limit, t, es[1..])
  }

  /** What a password entry says about two-factor is what the table said. */
  ghost predicate Witnessed(log: seq<Entry>, tables: seq<Operators>) {
    && |tables| == |log|
    && forall i :: 0 <= i < |log| && log[i].PasswordAccepted? ==> log[i].mfaConfirmed == HasMfa(tables[i], log[i].user)
  }

  /** A step logs at most one entry. */
  lemma StepLogs(limit: nat, s: Sys, e: Event)
    ensures var log := Next(limit, s, e).log;
            || log == s.log
            || (&& |log| == |s.log| + 1 && log[..|s.log|] == s.log
                && var n := log[|s.log|]; n.PasswordAccepted? ==> n.mfaConfirmed == HasMfa(s.operators, n.user))
  {
    if e.Write? && SlotOf(s, e.sid).flight.Some? && SlotOf(s, e.sid).flight.value.Acting? {
      EffectFrame(s, SlotOf(s, e.sid).flight.value.user, SlotOf(s, e.sid).flight.value.action);
    }
    hide ServeGuard, ServeEnrolment, ServeRefresh, AfterWrite, Effect;
    assert s.log + [] == s.log;
  }

  lemma {:induction false} RunIsWitnessed(limit: nat, tables: seq<Operators>, s: Sys, es: seq<Event>)
    requires Witnessed(s.log, tables)
    ensures Witnessed(Run(limit, s, es).log, tables + Tables(limit, s, es))
    decreases |es|
  {
    hide Next;
    if es == [] {
      assert tables + [] == tables;
    } else {
      var t := Next(limit, s, es[0]);
      StepLogs(limit, s, es[0]);
      var added := if |s.log| < |t.log| then [s.operators] else [];
      RunIsWitnessed(limit, tables + added, t, es[1..]);
      assert tables + added + Tables(limit, t, es[1..]) == tables + Tables(limit, s, es);
    }
  }

  /** In every run, a password entry says "confirmed" exactly when the account had a confirmed
      authenticator in the table just before the entry was logged. */
  lemma PasswordsAreWitnessed(limit: nat, es: seq<Event>)
    ensures Witnessed(Run(limit, INITIAL, es).log, Tables(limit, INITIAL, es))
  {
    RunIsWitnessed(limit, [], INITIAL, es);
    assert [] + Tables(limit, INITIAL, es) == Tables(limit, INITIAL, es);
  }

  // ---------------------------------------------------------------- grants

  predicate PasswordOf(log: seq<Entry>, i: nat, sid: Sid, u: UserId) {
    i < |log| && log[i].PasswordAccepted? && log[i].sid == sid && log[i].user == u
  }

  /** A sign-in of `u` in session `sid` that is still valid at `now`: it is the session's last one,
      less than `limit` seconds old, and it rests on an accepted password of `u` in that session.
      If the account had a confirmed authenticator when the password was accepted, it also rests on
      a second factor of `u`, submitted in that session at most 300 seconds later. */
  ghost predicate ValidSignIn(log: seq<Entry>, tables: seq<Operators>, i: nat, sid: Sid, u: UserId, now: int,
                              limit: nat)
    requires |tables| == |log|
  {
    && LastSignIn(log, i, sid, u) && now - log[i].at < limit && log[i].via < i
    && ((PasswordOf(log, log[i].via, sid, u) && !HasMfa(tables[log[i].via], u))
        || (&& IsFactor(log, log[i].via, sid, u)
            && var p := log[log[i].via].via;
               && p < log[i].via && PasswordOf(log, p, sid, u) && HasMfa(tables[p], u)
               && 0 <= log[log[i].via].submittedAt - log[p].at <= 300))
  }

  /** Whenever the guard grants, in any run, the log holds a valid sign-in of that operator, judged on
      the tables of the time. */
  lemma GrantsAreSignedIn(limit: nat, es: seq<Event>, sid: Sid)
    requires var s := Run(limit, INITIAL, es); Granted(SlotOf(s, sid).data, s.operators, s.now, limit).Some?
    ensures var s, slot := Run(limit, INITIAL, es), SlotOf(Run(limit, INITIAL, es), sid);
            && slot.data.userId.Some? && |Tables(limit, INITIAL, es)| == |s.log|
            && ValidSignIn(s.log, Tables(limit, INITIAL, es), slot.signedVia, sid, slot.data.userId.value, s.now, limit)
  {
    RunKeepsTrace(limit, INITIAL, es);
    PasswordsAreWitnessed(limit, es);
    hide Run, Tables;
    var s := Run(limit, INITIAL, es);
    SlotIsFine(s, sid);
    var i := SlotOf(s, sid).signedVia;
    assert Justified(s.log, i) && Justified(s.log, s.log[i].via);
  }
}
