/**
  The sign-in from the operator's side: what follows an accepted password, how long the second
  factor may take, and what the guard then grants and for how long.
*/
module SignInPaths {
  import opened Wrappers
  import opened Sessions
  import opened Console
  import opened Races
  import opened SignInTrace

  /** After an accepted password an account with a confirmed authenticator owes a second factor and
      has no other way on; any other account goes on to sign in. */
  lemma AfterPassword(limit: nat, s: Sys, sid: Sid, snap: Snapshot)
    requires sid in s.slots && s.slots[sid].flight == Some(LoginRead(snap))
    ensures var t := Next(limit, s, CheckMfa(sid));
            && sid in t.slots && t.now == s.now && t.operators == s.operators
            && var slot, slot' := s.slots[sid], t.slots[sid];
               if HasMfa(s.operators, snap.user)
               then slot'.flight == None
                    && slot'.data == slot.data.(pendingUser := Some(snap.user), pendingAt := Some(s.now))
               else slot'.flight == Some(LoginCleared(snap, |s.log|)) && slot'.data == slot.data
  {
  }

  /** A session that owes a second factor since `at`. */
  predicate Owes(s: Sys, sid: Sid, u: UserId, at: int) {
    && sid in s.slots && s.slots[sid].flight.None?
    && s.slots[sid].data.pendingUser == Some(u) && s.slots[sid].data.pendingAt == Some(at)
  }

  /** A code is looked at up to 300 seconds after the password, and not later; then the marker goes. */
  lemma CodeIsLookedAtIff(limit: nat, s: Sys, sid: Sid, u: UserId, at: int)
    requires Owes(s, sid, u, at) && 0 < at && u in s.operators
    ensures var t := Next(limit, s, SubmitCode(sid));
            && sid in t.slots && t.operators == s.operators && t.now == s.now
            && var slot, slot' := s.slots[sid], t.slots[sid];
               if s.now - at <= 300
               then slot' == slot.(flight := Some(ChallengeRead(ReadRow(s, u), s.now, slot.parkedVia)))
               else slot' == slot.(data := slot.data.(pendingUser := None, pendingAt := None))
  {
  }

  /** If the account has disappeared meanwhile, the half-done sign-in is abandoned. */
  lemma CodeOfNobody(limit: nat, s: Sys, sid: Sid, u: UserId, at: int)
    requires Owes(s, sid, u, at) && 0 < at && s.now - at <= 300 && u !in s.operators
    ensures var t := Next(limit, s, SubmitCode(sid));
            sid in t.slots && t.slots[sid].flight == None && t.slots[sid].data == EMPTY
  {
  }

  /** An accepted code signs the operator in, and the marker is gone. */
  lemma AcceptedCodeSignsIn(limit: nat, s: Sys, sid: Sid, snap: Snapshot, submittedAt: int, via: nat)
    requires sid in s.slots && s.slots[sid].flight == Some(ChallengeRead(snap, submittedAt, via))
    requires limit > 0 && snap.user in s.operators && s.operators[snap.user] == snap.row
    ensures var t := Next(limit, Next(limit, s, AcceptCode(sid)), FinishChallenge(sid));
            && Live(limit, t, sid, snap.user) && t.slots[sid].data.pendingUser == None
            && t.log == s.log + [SecondFactor(sid, snap.user, submittedAt, via),
                                 SignedIn(sid, snap.user, s.now, |s.log|)]
  {
    var a := Next(limit, s, AcceptCode(sid));
    assert a.slots[sid].flight == Some(ChallengePassed(snap, |s.log|));
  }

  /** Exactly when the guard grants, and which role. */
  lemma GrantedIff(data: Session, operators: map<UserId, OperatorRow>, now: int, limit: nat, role: Role)
    ensures Granted(data, operators, now, limit) == Some(role)
       <==> exists u, v, at ::
              && data.userId == Some(u) && data.role == Some(role) && data.version == Some(v)
              && data.authenticatedAt == Some(at) && now < at + limit
              && u in operators && operators[u].role == role && operators[u].version == v
  {
  }

  /** A live session is granted until the absolute limit after its sign-in, as long as its operator's
      role and epoch stay, however the clock runs and the id rotates; from the limit on it is flushed. */
  lemma GrantLasts(limit: nat, s: Sys, sid: Sid, u: UserId, seconds: nat, action: Action)
    requires Live(limit, s, sid, u) && (AdminOnly(action) ==> s.operators[u].role == Admin)
    ensures s.slots[sid].data.authenticatedAt.Some?
    ensures var at := s.slots[sid].data.authenticatedAt.value;
            var t := Next(limit, Next(limit, s, Tick(seconds)), Guard(sid, action));
            && sid in t.slots
            && (if s.now + seconds < at + limit
                then && t.slots[sid].flight == Some(Acting(u, action))
                     && t.slots[sid].data == s.slots[sid].data.(rotatedAt := t.slots[sid].data.rotatedAt)
                else t.slots[sid] == s.slots[sid].(data := EMPTY))
  {
  }

  /** A request that the role does not allow changes nothing but the rotation of the id. */
  lemma OthersAreTurnedAway(limit: nat, s: Sys, sid: Sid, u: UserId, action: Action)
    requires Live(limit, s, sid, u) && AdminOnly(action) && s.operators[u].role != Admin
    ensures var t := Next(limit, s, Guard(sid, action));
            && sid in t.slots && t.slots[sid].flight.None? && t.operators == s.operators
            && t.slots[sid].data == s.slots[sid].data.(rotatedAt := t.slots[sid].data.rotatedAt)
  {
  }

  /** Logging out ends the grant. */
  lemma LogoutEnds(limit: nat, s: Sys, sid: Sid)
    requires sid in s.slots && s.slots[sid].flight.None?
    ensures var t := Next(limit, s, Flush(sid));
            && sid in t.slots && t.slots[sid].data == EMPTY && t.operators == s.operators
            && Granted(t.slots[sid].data, t.operators, t.now, limit).None?
  {
  }

  /** Re-authentication is recorded with its time, and changes nothing else. */
  lemma ReauthenticationIsRecorded(limit: nat, s: Sys, sid: Sid, u: UserId)
    requires sid in s.slots && s.slots[sid].flight == Some(Acting(u, Reauthenticate))
    ensures var t := Next(limit, s, Write(sid));
            && sid in t.slots && t.operators == s.operators && t.slots[sid].flight == None
            && t.slots[sid].data == s.slots[sid].data.(reauthenticatedAt := Some(s.now))
  {
  }

  /** A change of the own password, or of the own details, revokes every session of the account but the
      one that made it. */
  lemma OwnSessionIsKept(limit: nat, s: Sys, sid: Sid, u: UserId, action: Action)
    requires sid in s.slots && s.slots[sid].flight == Some(Acting(u, action)) && u in s.operators
    requires Unexpired(limit, s, s.slots[sid]) && (action == UpdatePassword || action == UpdateUser(u, Admin))
    ensures var t := Next(limit, Next(limit, s, Write(sid)), Sync(sid));
            && Live(limit, t, sid, u) && t.operators[u].version == s.operators[u].version + 1
            && t.slots[sid].data.authenticatedAt == s.slots[sid].data.authenticatedAt
            && forall data: Session :: data.userId == Some(u) && data.version == Some(s.operators[u].version) ==>
                 Granted(data, t.operators, t.now, limit).None?
  {
    var a := Next(limit, s, Write(sid));
    var row := s.operators[u].(role := a.operators[u].role, version := s.operators[u].version + 1);
    assert a.slots[sid].flight == Some(Refreshing(Snapshot(u, row, s.steps)));
  }

  /** A change of two-factor state is followed by a refresh from the row read again. */
  lemma TwoFactorChangeIsFollowed(limit: nat, s: Sys, sid: Sid, u: UserId, action: Action)
    requires sid in s.slots && s.slots[sid].flight == Some(Acting(u, action)) && u in s.operators
    requires Unexpired(limit, s, s.slots[sid])
    requires (action == ConfirmMfa && !s.operators[u].mfa) || action == DisableMfa
             || (action == RegenerateCodes && s.operators[u].mfa)
    ensures var t := Run(limit, Next(limit, s, Write(sid)), [ReadForRefresh(sid), Sync(sid)]);
            Live(limit, t, sid, u) && t.operators[u].version == s.operators[u].version + 1
  {
    var a := Next(limit, s, Write(sid));
    assert a.slots[sid].flight == Some(Changed(u)) && a.operators[u].version == s.operators[u].version + 1;
    SessionIsRefreshed(limit, a, sid, u);
  }
}
