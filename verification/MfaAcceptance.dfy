/**
  When a second factor is accepted, from the history alone: a verifier that matched a TOTP step or a
  recovery row succeeds if and only if its enrolment or row is still there and the history holds
  nothing that rules it out. So nothing valid is refused either.
*/
module MfaAcceptance {
  import opened Wrappers
  import opened MfaStore
  import opened MfaProtocol
  import MfaRecovery

  // ---------------------------------------------------------------- steps

  /** The step a confirmed row holds is the confirming one or one accepted on it. */
  ghost predicate LastInv(accepted: seq<Acceptance>, confirmedAt: map<TotpId, nat>, row: TotpRow) {
    row.confirmed ==>
      && row.id in confirmedAt
      && (row.lastStep == confirmedAt[row.id]
          || exists i :: 0 <= i < |accepted| && accepted[i].row == row.id && accepted[i].step == row.lastStep)
  }

  ghost predicate TotpInv(s: Sys) {
    forall u :: u in s.db.totp ==> LastInv(s.accepted, s.confirmedAt, s.db.totp[u])
  }

  predicate NamesRow(f: Flight) { f.Confirming? || f.StepMatched? }

  /** A row is the row of the user it was read for. */
  ghost predicate OwnerInv(s: Sys) {
    forall r, u :: r in s.flights && NamesRow(s.flights[r]) && u in s.db.totp ==>
      (s.db.totp[u].id == s.flights[r].row ==> u == s.flights[r].user)
  }

  ghost predicate ExactInv(s: Sys) { StepsInv(s) && TotpInv(s) && OwnerInv(s) }

  lemma LastGrows(accepted: seq<Acceptance>, a: Acceptance, confirmedAt: map<TotpId, nat>, row: TotpRow)
    requires LastInv(accepted, confirmedAt, row)
    ensures LastInv(accepted + [a], confirmedAt, row)
  {
    if row.confirmed && row.lastStep != confirmedAt[row.id] {
      var i :| 0 <= i < |accepted| && accepted[i].row == row.id && accepted[i].step == row.lastStep;
      assert (accepted + [a])[i] == accepted[i];
    }
  }

  lemma AcceptedLast(accepted: seq<Acceptance>, a: Acceptance, confirmedAt: map<TotpId, nat>, row: TotpRow)
    requires row.id == a.row && row.lastStep == a.step && row.id in confirmedAt
    ensures LastInv(accepted + [a], confirmedAt, row)
  {
    assert (accepted + [a])[|accepted|] == a;
  }

  predicate Accepts(s: Sys, e: Event) {
    && e.TakeStep? && e.r in s.flights && s.flights[e.r].StepMatched?
    && CanConsumeStep(s.db, s.flights[e.r].user, s.flights[e.r].row, s.flights[e.r].step)
  }

  predicate Confirms(s: Sys, e: Event) {
    && e.CommitConfirm? && e.r in s.flights && s.flights[e.r].Confirming? && !e.aborts
    && CanConfirm(s.db, s.flights[e.r].user, s.flights[e.r].row)
  }

  lemma AcceptKeepsTotp(auth: Authenticator, s: Sys, e: Event)
    requires ExactInv(s) && Accepts(s, e)
    ensures TotpInv(Next(auth, s, e))
  {
    var f, t := s.flights[e.r], Next(auth, s, e);
    var a := Acceptance(f.row, f.step, f.clockStep);
    hide StepsInv;
    assert t.accepted == s.accepted + [a];
    forall u | u in t.db.totp ensures LastInv(t.accepted, t.confirmedAt, t.db.totp[u]) {
      if u == f.user {
        assert LastInv(s.accepted, s.confirmedAt, s.db.totp[u]);
        AcceptedLast(s.accepted, a, s.confirmedAt, t.db.totp[u]);
      } else {
        LastGrows(s.accepted, a, s.confirmedAt, s.db.totp[u]);
      }
    }
  }

  lemma ConfirmKeepsTotp(auth: Authenticator, s: Sys, e: Event)
    requires ExactInv(s) && Confirms(s, e)
    ensures TotpInv(Next(auth, s, e))
  {
    var f, t := s.flights[e.r], Next(auth, s, e);
    ConfirmTotp(s.db, f.user, f.row, f.step, e.codes);
    assert IdsInv(s.db);
    hide StepsInv, Confirm, IdsInv;
    forall u | u in t.db.totp && u != f.user ensures LastInv(t.accepted, t.confirmedAt, t.db.totp[u]) {
      assert LastInv(s.accepted, s.confirmedAt, s.db.totp[u]);
      assert s.db.totp[u].id != f.row by { UniqueRow(s.db, u, f.user); }
    }
  }

  lemma UniqueRow(db: Db, u: UserId, w: UserId)
    requires IdsInv(db) && u in db.totp && w in db.totp && u != w
    ensures db.totp[u].id != db.totp[w].id
  {
  }

  /** Every other step keeps the rows it leaves, confirms none and accepts nothing. */
  lemma OtherStepsKeepTotp(auth: Authenticator, s: Sys, e: Event)
    requires ExactInv(s) && !Accepts(s, e) && !Confirms(s, e)
    ensures TotpInv(Next(auth, s, e))
  {
    var t := Next(auth, s, e);
    OtherStepsForget(auth, s, e);
    hide Next, StepsInv, LastInv;
    forall u | u in t.db.totp ensures LastInv(t.accepted, t.confirmedAt, t.db.totp[u]) {
      if !t.db.totp[u].confirmed { UnconfirmedLast(t.accepted, t.confirmedAt, t.db.totp[u]); }
    }
  }

  lemma UnconfirmedLast(accepted: seq<Acceptance>, confirmedAt: map<TotpId, nat>, row: TotpRow)
    requires !row.confirmed
    ensures LastInv(accepted, confirmedAt, row)
  {
  }

  lemma OtherStepsForget(auth: Authenticator, s: Sys, e: Event)
    requires !Accepts(s, e) && !Confirms(s, e)
    ensures var t := Next(auth, s, e);
            && t.accepted == s.accepted && t.confirmedAt == s.confirmedAt
            && forall u :: u in t.db.totp && t.db.totp[u].confirmed ==>
                 u in s.db.totp && t.db.totp[u] == s.db.totp[u]
  {
    CodesKeepTotp(s.db);
    hide ReplaceCodes, WithoutCodes, VerifyTotpCode;
  }

  lemma RowsAreNotMoved(auth: Authenticator, s: Sys, e: Event)
    requires IdsInv(s.db)
    ensures var t := Next(auth, s, e);
            && s.db.nextTotp <= t.db.nextTotp
            && forall u :: u in t.db.totp ==>
                 (u in s.db.totp && t.db.totp[u].id == s.db.totp[u].id) || t.db.totp[u].id >= s.db.nextTotp
  {
    hide NewRows, WithoutCodes, VerifyTotpCode;
  }

  lemma FlightsAreRead(auth: Authenticator, s: Sys, e: Event)
    ensures var t := Next(auth, s, e);
            forall r :: r in t.flights && NamesRow(t.flights[r]) ==>
              || (r in s.flights && s.flights[r] == t.flights[r])
              || (&& t.db.totp == s.db.totp && t.flights[r].user in s.db.totp
                  && s.db.totp[t.flights[r].user].id == t.flights[r].row)
  {
    hide VerifyTotpCode, BeginEnrollment, Disable, Confirm, Regenerate, ConsumeStep, Burn;
  }

  lemma StepKeepsOwners(auth: Authenticator, s: Sys, e: Event)
    requires ExactInv(s)
    ensures OwnerInv(Next(auth, s, e))
  {
    var t := Next(auth, s, e);
    RowsAreNotMoved(auth, s, e);
    FlightsAreRead(auth, s, e);
    assert IdsInv(s.db) && forall r :: r in s.flights ==> FlightInv(s.db.nextTotp, s.flights[r]);
    hide Next, TotpInv, StepsInv;
  }

  lemma StepKeepsExact(auth: Authenticator, s: Sys, e: Event)
    requires ExactInv(s)
    ensures ExactInv(Next(auth, s, e))
  {
    hide Next, StepsInv, TotpInv, OwnerInv, Accepts, Confirms;
    StepKeepsSteps(auth, s, e);
    StepKeepsOwners(auth, s, e);
    if Accepts(s, e) {
      AcceptKeepsTotp(auth, s, e);
    } else if Confirms(s, e) {
      ConfirmKeepsTotp(auth, s, e);
    } else {
      OtherStepsKeepTotp(auth, s, e);
    }
  }

  lemma {:induction false} RunKeepsExact(auth: Authenticator, s: Sys, es: seq<Event>)
    requires ExactInv(s)
    ensures ExactInv(Run(auth, s, es))
    decreases |es|
  {
    hide ExactInv, Next;
    if es != [] {
      StepKeepsExact(auth, s, es[0]);
      RunKeepsExact(auth, Next(auth, s, es[0]), es[1..]);
    }
  }

  /** Step `k` is above everything that was used on the enrolment: the step that confirmed it and
      every step accepted since. */
  ghost predicate Unused(s: Sys, row: TotpId, k: int) {
    && row in s.confirmedAt && s.confirmedAt[row] < k
    && forall i :: 0 <= i < |s.accepted| && s.accepted[i].row == row ==> s.accepted[i].step < k
  }

  lemma CanConsumeIff(s: Sys, u: UserId, k: nat)
    requires ExactInv(s) && u in s.db.totp
    ensures CanConsumeStep(s.db, u, s.db.totp[u].id, k) <==> Unused(s, s.db.totp[u].id, k)
  {
    var row := s.db.totp[u];
    assert RowInv(s.accepted, s.confirmedAt, row) && LastInv(s.accepted, s.confirmedAt, row);
  }

  /** Over every run, a matched step is accepted if and only if its enrolment is still in the table,
      confirmed, and the step is above the confirming one and all accepted ones. */
  lemma StepIsAcceptedIff(auth: Authenticator, es: seq<Event>, r: RequestId)
    requires var s := Run(auth, INITIAL, es); r in s.flights && s.flights[r].StepMatched?
    ensures var s := Run(auth, INITIAL, es); var f, t := s.flights[r], Next(auth, s, TakeStep(r));
            t.accepted == if InTable(s, f.row) && Unused(s, f.row, f.step)
                          then s.accepted + [Acceptance(f.row, f.step, f.clockStep)] else s.accepted
  {
    var s := Run(auth, INITIAL, es);
    RunKeepsExact(auth, INITIAL, es);
    hide Run;
    var f := s.flights[r];
    if f.user in s.db.totp && s.db.totp[f.user].id == f.row {
      CanConsumeIff(s, f.user, f.step);
      hide ExactInv;
      assert InTable(s, f.row);
    } else {
      assert !InTable(s, f.row);
    }
  }

  /** A code shown for `u` that the authenticator takes at step `k` is matched, and with nothing in
      between accepted, if and only if `k` is unused on the confirmed enrolment. */
  lemma FreshCodeIsAcceptedIff(auth: Authenticator, es: seq<Event>, r: RequestId, u: UserId, code: string, now: nat)
    requires var s := Run(auth, INITIAL, es);
             && r !in s.flights && u in s.db.totp && s.db.totp[u].id in s.confirmedAt
             && VerifyTotpCode(auth, s.db.totp[u].secret, code, now).Some?
    ensures var s := Run(auth, INITIAL, es);
            var row, k := s.db.totp[u].id, VerifyTotpCode(auth, s.db.totp[u].secret, code, now).value;
            var t := Next(auth, Next(auth, s, ReadTotp(r, u, code, now)), TakeStep(r));
            t.accepted == if Unused(s, row, k) then s.accepted + [Acceptance(row, k, now / 30)] else s.accepted
  {
    var s := Run(auth, INITIAL, es);
    RunKeepsExact(auth, INITIAL, es);
    hide Run;
    var k := VerifyTotpCode(auth, s.db.totp[u].secret, code, now).value;
    CanConsumeIff(s, u, k);
    assert RowInv(s.accepted, s.confirmedAt, s.db.totp[u]);
    hide VerifyTotpCode, ExactInv, Unused, RowInv;
  }

  /** A matched confirmation commits if and only if its row is still in the table and was never
      confirmed, unless the transaction fails. */
  lemma ConfirmationCommitsIff(auth: Authenticator, es: seq<Event>, r: RequestId, codes: FreshCodes)
    requires var s := Run(auth, INITIAL, es); r in s.flights && s.flights[r].Confirming?
    ensures var s := Run(auth, INITIAL, es); var f, t := s.flights[r], Next(auth, s, CommitConfirm(r, codes, false));
            t.confirmedAt == if InTable(s, f.row) && f.row !in s.confirmedAt
                             then s.confirmedAt[f.row := f.step] else s.confirmedAt
  {
    var s := Run(auth, INITIAL, es);
    RunKeepsExact(auth, INITIAL, es);
    hide Run;
    var f := s.flights[r];
    if f.user in s.db.totp && s.db.totp[f.user].id == f.row {
      assert RowInv(s.accepted, s.confirmedAt, s.db.totp[f.user]);
      hide ExactInv, Confirm;
      assert InTable(s, f.row);
    } else {
      assert !InTable(s, f.row);
    }
  }

  // ---------------------------------------------------------------- recovery rows

  /** A row in the table is used exactly when it was accepted, and belongs to whom it was read for. */
  ghost predicate SpentInv(s: Sys) {
    && (forall c :: c in s.db.codes ==> (s.db.codes[c].used <==> c in s.spent))
    && (forall r :: r in s.flights && s.flights[r].RowMatched? && s.flights[r].code in s.db.codes ==>
          s.db.codes[s.flights[r].code].user == s.flights[r].user)
  }

  lemma NewRowsAreUnused(auth: Authenticator, s: Sys, e: Event)
    requires !MfaRecovery.Burns(s, e)
    ensures forall c :: c in Next(auth, s, e).db.codes && c !in s.db.codes ==> !Next(auth, s, e).db.codes[c].used
  {
    hide VerifyTotpCode;
  }

  lemma MatchesAreRead(auth: Authenticator, s: Sys, e: Event)
    ensures var t := Next(auth, s, e);
            forall r :: r in t.flights && t.flights[r].RowMatched? ==>
              || (r in s.flights && s.flights[r] == t.flights[r])
              || (t.db == s.db && CanBurn(s.db, t.flights[r].user, t.flights[r].code))
  {
    hide VerifyTotpCode, BeginEnrollment, Disable, Confirm, Regenerate, ConsumeStep, Burn;
  }

  lemma StepKeepsSpent(auth: Authenticator, s: Sys, e: Event)
    requires MfaRecovery.RecoveryInv(s) && SpentInv(s)
    ensures SpentInv(Next(auth, s, e))
  {
    var t := Next(auth, s, e);
    MatchesAreRead(auth, s, e);
    if MfaRecovery.Burns(s, e) {
      var f := s.flights[e.r];
      assert t.spent == s.spent + [f.code] && t.db.codes == s.db.codes[f.code := s.db.codes[f.code].(used := true)];
      hide Next;
    } else {
      MfaRecovery.OtherStepsAge(auth, s, e);
      NewRowsAreUnused(auth, s, e);
      hide Next, MfaRecovery.Burns;
    }
  }

  lemma {:induction false} RunKeepsSpent(auth: Authenticator, s: Sys, es: seq<Event>)
    requires MfaRecovery.RecoveryInv(s) && SpentInv(s)
    ensures MfaRecovery.RecoveryInv(Run(auth, s, es)) && SpentInv(Run(auth, s, es))
    decreases |es|
  {
    hide MfaRecovery.RecoveryInv, SpentInv, Next;
    if es != [] {
      MfaRecovery.StepKeepsRecovery(auth, s, es[0]);
      StepKeepsSpent(auth, s, es[0]);
      RunKeepsSpent(auth, Next(auth, s, es[0]), es[1..]);
    }
  }

  /** Over every run, a matched recovery row is accepted if and only if it is still in the table and
      was never accepted. */
  lemma RowIsAcceptedIff(auth: Authenticator, es: seq<Event>, r: RequestId)
    requires var s := Run(auth, INITIAL, es); r in s.flights && s.flights[r].RowMatched?
    ensures var s := Run(auth, INITIAL, es); var f, t := s.flights[r], Next(auth, s, TakeRow(r));
            t.spent == if f.code in s.db.codes && f.code !in s.spent then s.spent + [f.code] else s.spent
  {
    RunKeepsSpent(auth, INITIAL, es);
  }

  /** A recovery code typed by its owner is matched if and only if its row is in the table and was
      never accepted. */
  lemma RowIsMatchedIff(auth: Authenticator, es: seq<Event>, r: RequestId, u: UserId, code: string, c: CodeId)
    requires var s := Run(auth, INITIAL, es);
             && r !in s.flights && Normalize(code) != []
             && (c in s.db.codes ==> s.db.codes[c].user == u && Normalize(s.db.codes[c].code) == Normalize(code))
    ensures var s := Run(auth, INITIAL, es); var t := Next(auth, s, ReadRecovery(r, u, code, c));
            t.flights == if c in s.db.codes && c !in s.spent then s.flights[r := RowMatched(u, c)] else s.flights
  {
    RunKeepsSpent(auth, INITIAL, es);
  }
}
