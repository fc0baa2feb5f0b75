/**
  Sign-in, sessions and authorization epochs as one machine. A session serves its own requests one
  at a time, but a request is several steps: what it read may be old when it writes. The machine
  keeps a log of what happened, and theorems relate every reachable state to the log.
*/
module Console {
  import opened Wrappers
  import opened Sessions

  type Sid = nat

  /** Handlers behind the guard. The first three are reserved to administrators. */
  datatype Action =
    | InsertUser(newRole: Role) | DeleteUser(target: UserId) | UpdateUser(target: UserId, newRole: Role)
    | ViewPage | Reauthenticate | UpdatePassword | EnrollMfa | ConfirmMfa | DisableMfa | RegenerateCodes

  predicate AdminOnly(a: Action) { a.InsertUser? || a.DeleteUser? || a.UpdateUser? }

  /** An operator row read at step `readAt`. */
  datatype Snapshot = Snapshot(user: UserId, row: OperatorRow, readAt: nat)

  /** A request between two of its steps; `via` is the log entry that carried it here. */
  datatype Flight =
    | LoginRead(snap: Snapshot)
    | LoginCleared(snap: Snapshot, via: nat)
    | ChallengeRead(snap: Snapshot, submittedAt: int, via: nat)
    | ChallengePassed(snap: Snapshot, via: nat)
    | Acting(user: UserId, action: Action)
    | Enrolling(user: UserId)                    // the not-enabled check has passed
    | Changed(user: UserId)
    | Refreshing(snap: Snapshot)

  datatype Entry =
    | PasswordAccepted(sid: Sid, user: UserId, at: int, mfaConfirmed: bool)
    | SecondFactor(sid: Sid, user: UserId, submittedAt: int, via: nat)
    | SignedIn(sid: Sid, user: UserId, at: int, via: nat)

  /** One session: its data, its request in flight, and where they came from. */
  datatype Slot = Slot(
    data: Session,
    flight: Option<Flight>,
    parkedVia: nat,        // the log entry behind the pending marker
    signedVia: nat,        // the log entry of the last sign-in
    syncedFrom: nat        // the step at which the row behind the identity was read
  )

  const EMPTY_SLOT: Slot := Slot(EMPTY, None, 0, 0, 0)

  datatype Sys = Sys(
    steps: nat,
    now: nat,
    operators: map<UserId, OperatorRow>,
    nextUser: UserId,
    slots: map<Sid, Slot>,
    log: seq<Entry>,
    firstTimeUses: nat
  )

  const INITIAL: Sys := Sys(0, 0, map[], 0, map[], [], 0)

  datatype Event =
    | Tick(seconds: nat)
    | ReadForLogin(sid: Sid, user: UserId)       // find_by_username; the password matches this row
    | CheckMfa(sid: Sid)                         // is_enabled, then park a marker or go on
    | FinishLogin(sid: Sid)
    | SubmitCode(sid: Sid)                       // pending marker checked, row read
    | AcceptCode(sid: Sid)                       // verify_login_code returned true
    | FinishChallenge(sid: Sid)
    | Guard(sid: Sid, action: Action)            // authorized_role and step-up passed or not
    | CheckEnrolment(sid: Sid)                   // is_enabled, before begin_enrollment
    | Write(sid: Sid)
    | ReadForRefresh(sid: Sid)
    | Sync(sid: Sid)
    | Flush(sid: Sid)                            // logout, revocation, expiry
    | Abandon(sid: Sid)                          // the request failed
    | FirstTime(valid: bool)
    | Bootstrap

  function SlotOf(s: Sys, sid: Sid): Slot { if sid in s.slots then s.slots[sid] else EMPTY_SLOT }

  /** What a step leaves in the session it serves, and what it logs. */
  datatype Served = Served(slot: Slot, entries: seq<Entry>)

  function Quiet(slot: Slot): Served { Served(slot, []) }

  function Land(slot: Slot): Slot { slot.(flight := None) }

  function SignIn(s: Sys, sid: Sid, slot: Slot, data: Session, snap: Snapshot, via: nat): Served {
    Served(Slot(Established(data, snap.user, snap.row, s.now), None, slot.parkedVia, |s.log|, snap.readAt),
           [SignedIn(sid, snap.user, s.now, via)])
  }

  function ReadRow(s: Sys, u: UserId): Snapshot
    requires u in s.operators
  {
    Snapshot(u, s.operators[u], s.steps)
  }

  function ServeLogin(s: Sys, sid: Sid, slot: Slot, e: Event): Served
    requires e.ReadForLogin? || e.CheckMfa? || e.FinishLogin?
  {
    match e
    case ReadForLogin(_, u) =>
      if slot.flight.Some? || u !in s.operators then Quiet(slot)
      else Quiet(slot.(flight := Some(LoginRead(ReadRow(s, u)))))
    case CheckMfa(_) =>
      if slot.flight.None? || !slot.flight.value.LoginRead? then Quiet(slot)
      else
        var snap := slot.flight.value.snap;
        var confirmed := snap.user in s.operators && s.operators[snap.user].mfa;
        var entries := [PasswordAccepted(sid, snap.user, s.now, confirmed)];
        if confirmed then
          Served(slot.(data := slot.data.(pendingUser := Some(snap.user), pendingAt := Some(s.now)),
                       flight := None, parkedVia := |s.log|), entries)
        else Served(slot.(flight := Some(LoginCleared(snap, |s.log|))), entries)
    case FinishLogin(_) =>
      if slot.flight.None? || !slot.flight.value.LoginCleared? then Quiet(slot)
      else SignIn(s, sid, slot, slot.data, slot.flight.value.snap, slot.flight.value.via)
  }

  function ServeChallenge(s: Sys, sid: Sid, slot: Slot, e: Event): Served
    requires e.SubmitCode? || e.AcceptCode? || e.FinishChallenge?
  {
    match e
    case SubmitCode(_) =>
      var user := PendingUser(slot.data, s.now);
      if slot.flight.Some? then Quiet(slot)
      else if user.None? then Quiet(slot.(data := AfterPendingCheck(slot.data, s.now)))
      else if user.value !in s.operators then Quiet(slot.(data := EMPTY))
      else Quiet(slot.(flight := Some(ChallengeRead(ReadRow(s, user.value), s.now, slot.parkedVia))))
    case AcceptCode(_) =>
      if slot.flight.None? || !slot.flight.value.ChallengeRead? then Quiet(slot)
      else
        var f := slot.flight.value;
        Served(slot.(flight := Some(ChallengePassed(f.snap, |s.log|))),
               [SecondFactor(sid, f.snap.user, f.submittedAt, f.via)])
    case FinishChallenge(_) =>
      if slot.flight.None? || !slot.flight.value.ChallengePassed? then Quiet(slot)
      else SignIn(s, sid, slot, WithoutPending(slot.data), slot.flight.value.snap, slot.flight.value.via)
  }

  function ServeGuard(limit: nat, s: Sys, slot: Slot, action: Action): Slot {
    if slot.flight.Some? then slot
    else
      var granted := Granted(slot.data, s.operators, s.now, limit);
      var guarded := slot.(data := AfterGuard(slot.data, s.operators, s.now, limit));
      if granted.None? || (AdminOnly(action) && granted != Some(Admin)) then guarded
      else guarded.(flight := Some(Acting(slot.data.userId.value, action)))
  }

  function Create(s: Sys, role: Role): Sys {
    s.(operators := s.operators[s.nextUser := OperatorRow(role, 0, false)], nextUser := s.nextUser + 1)
  }

  /** The writes that set an operator's authority increment its epoch. */
  function Bump(s: Sys, u: UserId, row: OperatorRow): Sys {
    s.(operators := s.operators[u := row.(version := row.version + 1)])
  }

  function Delete(s: Sys, u: UserId): Sys {
    s.(operators := s.operators - {u})
  }

  /** `begin_enrollment` deletes the account's row, confirmed or not, and leaves the epoch alone. */
  function Enrolled(s: Sys, u: UserId): Sys {
    if u !in s.operators then s else s.(operators := s.operators[u := s.operators[u].(mfa := false)])
  }

  /** The write of an action that `u` was let through to; an enrolment writes later. */
  function Effect(s: Sys, u: UserId, action: Action): Sys {
    match action
    case ViewPage => s
    case Reauthenticate => s
    case EnrollMfa => s
    case InsertUser(role) => Create(s, role)
    case DeleteUser(t) => if t == u || t !in s.operators then s else Delete(s, t)
    case UpdateUser(t, role) =>
      if t !in s.operators || (t == u && role != Admin) then s else Bump(s, t, s.operators[t].(role := role))
    case UpdatePassword => if u !in s.operators then s else Bump(s, u, s.operators[u])
    case ConfirmMfa => if u !in s.operators || s.operators[u].mfa then s else Bump(s, u, s.operators[u].(mfa := true))
    case DisableMfa => if u !in s.operators then s else Bump(s, u, s.operators[u].(mfa := false))
    case RegenerateCodes => if u !in s.operators || !s.operators[u].mfa then s else Bump(s, u, s.operators[u])
  }

  /** After a change of its own account the session is refreshed: from the row the write returned,
      or, after a change of two-factor state, from a row read again later. */
  function AfterWrite(s: Sys, t: Sys, slot: Slot, u: UserId, action: Action): Slot {
    match action
    case EnrollMfa => slot
    case Reauthenticate => Land(slot.(data := slot.data.(reauthenticatedAt := Some(s.now))))
    case UpdateUser(target, role) =>
      if target == u && u in s.operators && role == Admin && u in t.operators
      then slot.(flight := Some(Refreshing(Snapshot(u, t.operators[u], s.steps)))) else Land(slot)
    case UpdatePassword =>
      if u in t.operators then slot.(flight := Some(Refreshing(Snapshot(u, t.operators[u], s.steps)))) else Land(slot)
    case ConfirmMfa => slot.(flight := Some(Changed(u)))
    case DisableMfa => slot.(flight := Some(Changed(u)))
    case RegenerateCodes => slot.(flight := Some(Changed(u)))
    case _ => Land(slot)
  }

  function ServeEnrolment(s: Sys, slot: Slot): Slot {
    if slot.flight.None? || !slot.flight.value.Acting? || slot.flight.value.action != EnrollMfa then slot
    else
      var u := slot.flight.value.user;
      if u in s.operators && s.operators[u].mfa then Land(slot) else slot.(flight := Some(Enrolling(u)))
  }

  function ServeRefresh(s: Sys, slot: Slot, e: Event): Slot
    requires e.ReadForRefresh? || e.Sync?
  {
    match e
    case ReadForRefresh(_) =>
      if slot.flight.None? || !slot.flight.value.Changed? then slot
      else
        var u := slot.flight.value.user;
        if u !in s.operators then Land(slot) else slot.(flight := Some(Refreshing(ReadRow(s, u))))
    case Sync(_) =>
      if slot.flight.None? || !slot.flight.value.Refreshing? then slot
      else
        var snap := slot.flight.value.snap;
        Land(slot.(data := Synced(slot.data, snap.user, snap.row), syncedFrom := snap.readAt))
  }

  function Put(s: Sys, sid: Sid, served: Served): Sys {
    s.(slots := s.slots[sid := served.slot], log := s.log + served.entries)
  }

  function ServeWrite(s: Sys, sid: Sid, slot: Slot): Sys {
    if slot.flight.None? then s
    else
      match slot.flight.value
      case Acting(u, action) =>
        var t := Effect(s, u, action);
        Put(t, sid, Quiet(AfterWrite(s, t, slot, u, action)))
      case Enrolling(u) => Put(Enrolled(s, u), sid, Quiet(Land(slot)))
      case _ => s
  }

  function Act(limit: nat, s: Sys, e: Event): Sys {
    match e
    case Tick(seconds) => s.(now := s.now + seconds)
    case ReadForLogin(sid, _) => Put(s, sid, ServeLogin(s, sid, SlotOf(s, sid), e))
    case CheckMfa(sid) => Put(s, sid, ServeLogin(s, sid, SlotOf(s, sid), e))
    case FinishLogin(sid) => Put(s, sid, ServeLogin(s, sid, SlotOf(s, sid), e))
    case SubmitCode(sid) => Put(s, sid, ServeChallenge(s, sid, SlotOf(s, sid), e))
    case AcceptCode(sid) => Put(s, sid, ServeChallenge(s, sid, SlotOf(s, sid), e))
    case FinishChallenge(sid) => Put(s, sid, ServeChallenge(s, sid, SlotOf(s, sid), e))
    case Guard(sid, action) => Put(s, sid, Quiet(ServeGuard(limit, s, SlotOf(s, sid), action)))
    case CheckEnrolment(sid) => Put(s, sid, Quiet(ServeEnrolment(s, SlotOf(s, sid))))
    case Write(sid) => ServeWrite(s, sid, SlotOf(s, sid))
    case ReadForRefresh(sid) => Put(s, sid, Quiet(ServeRefresh(s, SlotOf(s, sid), e)))
    case Sync(sid) => Put(s, sid, Quiet(ServeRefresh(s, SlotOf(s, sid), e)))
    case Flush(sid) =>
      var slot := SlotOf(s, sid);
      if slot.flight.Some? then s else Put(s, sid, Quiet(slot.(data := EMPTY)))
    case Abandon(sid) => Put(s, sid, Quiet(Land(SlotOf(s, sid))))
    case FirstTime(valid) =>
      if |s.operators| > 0 || !valid then s else Create(s, Admin).(firstTimeUses := s.firstTimeUses + 1)
    case Bootstrap => Create(s, Admin)
  }

  function Next(limit: nat, s: Sys, e: Event): Sys { Act(limit, s, e).(steps := s.steps + 1) }

  function Run(limit: nat, s: Sys, es: seq<Event>): Sys
    decreases |es|
  {
    if es == [] then s else Run(limit, Next(limit, s, es[0]), es[1..])
  }

  // ---------------------------------------------------------------- frames

  /** Ids are handed out in order and never again. */
  ghost predicate IdsInv(s: Sys) { forall u :: u in s.operators ==> u < s.nextUser }

  /** Writes to operators touch neither sessions nor the log. */
  lemma EffectFrame(s: Sys, u: UserId, action: Action)
    ensures var t := Effect(s, u, action);
            && t.log == s.log && t.now == s.now && t.slots == s.slots && t.steps == s.steps
            && t.firstTimeUses == s.firstTimeUses
            && (IdsInv(s) ==> IdsInv(t))
  {
  }

  lemma {:induction false} RunParts(limit: nat, s: Sys, es: seq<Event>, fs: seq<Event>)
    ensures Run(limit, s, es + fs) == Run(limit, Run(limit, s, es), fs)
    decreases |es|
  {
    hide Next;
    if es == [] {
      assert [] + fs == fs;
    } else {
      assert (es + fs)[1..] == es[1..] + fs;
      RunParts(limit, Next(limit, s, es[0]), es[1..], fs);
    }
  }
}
