/**
  Two-factor verification as a concurrent protocol. A verifier reads a row and later runs a
  compare-and-set; any number of verifiers interleave with enrolment, confirmation, disabling,
  regeneration and account deletion. Every theorem is about every sequence of atomic steps.
*/
module MfaProtocol {
  import opened Wrappers
  import opened MfaStore

  type RequestId = nat

  /** A request between its read and its write. */
  datatype Flight =
    | Enrolling(user: UserId)                // the console saw two-factor off
    | Confirming(user: UserId, row: TotpId, step: nat)
    | StepMatched(user: UserId, row: TotpId, step: nat, clockStep: nat)
    | RowMatched(user: UserId, code: CodeId)

  datatype Acceptance = Acceptance(row: TotpId, step: nat, clockStep: nat)

  /** The tables, the requests in flight, and what happened so far. */
  datatype Sys = Sys(
    db: Db,
    flights: map<RequestId, Flight>,
    accepted: seq<Acceptance>,               // TOTP steps accepted at a login, in order
    confirmedAt: map<TotpId, nat>,           // the step that confirmed each row
    burned: map<UserId, nat>,                // recovery codes accepted since the last mint
    spent: seq<CodeId>                       // recovery rows accepted at a login, in order
  )

  const INITIAL: Sys := Sys(EMPTY, map[], [], map[], map[], [])

  datatype Event =
    | NewOperator
    | RemoveOperator(u: UserId)
    | CheckOff(r: RequestId, u: UserId)      // is_enabled, before begin_enrollment
    | Begin(r: RequestId, secret: string, aborts: bool)
    | ReadPending(r: RequestId, u: UserId, code: string, now: nat)
    | CommitConfirm(r: RequestId, codes: FreshCodes, aborts: bool)
    | TurnOff(u: UserId, aborts: bool)
    | NewCodes(u: UserId, codes: FreshCodes, aborts: bool)
    | ReadTotp(r: RequestId, u: UserId, code: string, now: nat)
    | TakeStep(r: RequestId)
    | ReadRecovery(r: RequestId, u: UserId, code: string, hit: CodeId)
    | TakeRow(r: RequestId)

  function Next(auth: Authenticator, s: Sys, e: Event): Sys {
    match e
    case NewOperator => s.(db := CreateOperator(s.db))
    case RemoveOperator(u) => s.(db := DeleteOperator(s.db, u), burned := s.burned - {u})
    case CheckOff(r, u) =>
      s.(flights := if Confirmed(s.db, u) then s.flights - {r} else s.flights[r := Enrolling(u)])
    case Begin(r, secret, aborts) =>
      if r !in s.flights || !s.flights[r].Enrolling? then s
      else
        var u, landed := s.flights[r].user, s.(flights := s.flights - {r});
        if aborts then landed else landed.(db := BeginEnrollment(s.db, u, secret))
    case ReadPending(r, u, code, now) =>
      if u !in s.db.totp || s.db.totp[u].confirmed then s
      else
        var step := VerifyTotpCode(auth, s.db.totp[u].secret, code, now);
        if step.None? then s else s.(flights := s.flights[r := Confirming(u, s.db.totp[u].id, step.value)])
    case CommitConfirm(r, codes, aborts) =>
      if r !in s.flights || !s.flights[r].Confirming? then s
      else
        var f, landed := s.flights[r], s.(flights := s.flights - {r});
        if aborts || !CanConfirm(s.db, f.user, f.row) then landed
        else landed.(db := Confirm(s.db, f.user, f.row, f.step, codes),
                     confirmedAt := s.confirmedAt[f.row := f.step], burned := s.burned[f.user := 0])
    case TurnOff(u, aborts) => if aborts then s else s.(db := Disable(s.db, u), burned := s.burned - {u})
    case NewCodes(u, codes, aborts) =>
      if aborts || !Confirmed(s.db, u) then s
      else s.(db := Regenerate(s.db, u, codes), burned := s.burned[u := 0])
    case ReadTotp(r, u, code, now) =>
      if !Confirmed(s.db, u) then s
      else
        var row := s.db.totp[u];
        var step := VerifyTotpCode(auth, row.secret, code, now);
        if step.None? || step.value <= row.lastStep then s
        else s.(flights := s.flights[r := StepMatched(u, row.id, step.value, now / TOTP_PERIOD)])
    case TakeStep(r) =>
      if r !in s.flights || !s.flights[r].StepMatched? then s
      else
        var f, landed := s.flights[r], s.(flights := s.flights - {r});
        if !CanConsumeStep(s.db, f.user, f.row, f.step) then landed
        else landed.(db := ConsumeStep(s.db, f.user, f.row, f.step),
                     accepted := s.accepted + [Acceptance(f.row, f.step, f.clockStep)])
    case ReadRecovery(r, u, code, hit) =>
      if CanBurn(s.db, u, hit) && Normalize(s.db.codes[hit].code) == Normalize(code) != []
      then s.(flights := s.flights[r := RowMatched(u, hit)]) else s
    case TakeRow(r) =>
      if r !in s.flights || !s.flights[r].RowMatched? then s
      else
        var f, landed := s.flights[r], s.(flights := s.flights - {r});
        if !CanBurn(s.db, f.user, f.code) then landed
        else landed.(db := Burn(s.db, f.user, f.code), spent := s.spent + [f.code],
                     burned := s.burned[f.user := 1 + if f.user in s.burned then s.burned[f.user] else 0])
  }

  function Run(auth: Authenticator, s: Sys, es: seq<Event>): Sys
    decreases |es|
  {
    if es == [] then s else Run(auth, Next(auth, s, es[0]), es[1..])
  }

  // ---------------------------------------------------------------- one-time steps

  /** Row ids are handed out once, to one user. */
  ghost predicate IdsInv(db: Db) {
    && (forall u :: u in db.totp ==> db.totp[u].id < db.nextTotp)
    && (forall u, w :: u in db.totp && w in db.totp && db.totp[u].id == db.totp[w].id ==> u == w)
  }

  ghost predicate FlightInv(nextTotp: TotpId, f: Flight) {
    match f
    case Enrolling(_) => true
    case Confirming(_, row, _) => row < nextTotp
    case StepMatched(_, row, step, clockStep) => row < nextTotp && clockStep - 1 <= step <= clockStep + 1
    case RowMatched(_, _) => true
  }

  /** A row that is in the table has used every step accepted on it, from the confirming one on. */
  ghost predicate RowInv(accepted: seq<Acceptance>, confirmedAt: map<TotpId, nat>, row: TotpRow) {
    && (row.confirmed <==> row.id in confirmedAt)
    && (row.confirmed ==> confirmedAt[row.id] <= row.lastStep)
    && (forall i :: 0 <= i < |accepted| && accepted[i].row == row.id ==> accepted[i].step <= row.lastStep)
  }

  /** Accepted steps are near the clock, above the confirming step, and increase on each row. */
  ghost predicate AcceptedInv(accepted: seq<Acceptance>, confirmedAt: map<TotpId, nat>) {
    && (forall i :: 0 <= i < |accepted| ==>
          var a := accepted[i];
          && a.clockStep - 1 <= a.step <= a.clockStep + 1
          && a.row in confirmedAt && confirmedAt[a.row] < a.step)
    && (forall i, j :: 0 <= i < j < |accepted| && accepted[i].row == accepted[j].row ==>
          accepted[i].step < accepted[j].step)
  }

  ghost predicate StepsInv(s: Sys) {
    && IdsInv(s.db) && AcceptedInv(s.accepted, s.confirmedAt)
    && (forall r :: r in s.flights ==> FlightInv(s.db.nextTotp, s.flights[r]))
    && (forall row :: row in s.confirmedAt ==> row < s.db.nextTotp)
    && (forall u :: u in s.db.totp ==> RowInv(s.accepted, s.confirmedAt, s.db.totp[u]))
  }

  /** A step that adds no enrolment, changes none, and accepts nothing. */
  ghost predicate OnlyForgets(s: Sys, t: Sys) {
    && t.db.nextTotp == s.db.nextTotp && t.accepted == s.accepted && t.confirmedAt == s.confirmedAt
    && (forall u :: u in t.db.totp ==> u in s.db.totp && t.db.totp[u] == s.db.totp[u])
    && (forall r :: r in t.flights ==> FlightInv(s.db.nextTotp, t.flights[r]))
  }

  lemma ForgettingKeepsSteps(s: Sys, t: Sys)
    requires StepsInv(s) && OnlyForgets(s, t)
    ensures StepsInv(t)
  {
    hide AcceptedInv, RowInv, FlightInv;
  }

  lemma ReadKeepsSteps(auth: Authenticator, s: Sys, e: Event)
    requires StepsInv(s) && (e.CheckOff? || e.ReadPending? || e.ReadTotp? || e.ReadRecovery?)
    ensures StepsInv(Next(auth, s, e))
  {
    hide AcceptedInv, RowInv;
    if e.ReadTotp? && Confirmed(s.db, e.u) {
      VerifyTotpCodeExact(auth, s.db.totp[e.u].secret, e.code, e.now);
    }
    hide VerifyTotpCode;
    ForgettingKeepsSteps(s, Next(auth, s, e));
  }

  lemma AdminKeepsSteps(auth: Authenticator, s: Sys, e: Event)
    requires StepsInv(s)
    requires e.NewOperator? || e.RemoveOperator? || e.TurnOff? || e.NewCodes? || e.TakeRow?
    ensures StepsInv(Next(auth, s, e))
  {
    hide AcceptedInv, RowInv, IdsInv, ReplaceCodes, WithoutCodes;
    CodesKeepTotp(s.db);
    ForgettingKeepsSteps(s, Next(auth, s, e));
  }

  lemma CodesKeepTotp(db: Db)
    ensures forall u, codes: seq<string> ::
              ReplaceCodes(db, u, codes).totp == db.totp && ReplaceCodes(db, u, codes).nextTotp == db.nextTotp
  {
  }

  lemma BeginKeepsSteps(auth: Authenticator, s: Sys, e: Event)
    requires StepsInv(s) && e.Begin?
    ensures StepsInv(Next(auth, s, e))
  {
    hide AcceptedInv;
    AcceptedRowsKnown(s);
  }

  lemma AcceptedRowsKnown(s: Sys)
    requires StepsInv(s)
    ensures forall i :: 0 <= i < |s.accepted| ==> s.accepted[i].row < s.db.nextTotp
  {
  }

  lemma ConfirmKeepsSteps(auth: Authenticator, s: Sys, e: Event)
    requires StepsInv(s) && e.CommitConfirm?
    ensures StepsInv(Next(auth, s, e))
  {
    if && e.r in s.flights && s.flights[e.r].Confirming? && !e.aborts
       && CanConfirm(s.db, s.flights[e.r].user, s.flights[e.r].row) {
      ConfirmedKeepsSteps(auth, s, e);
    } else {
      hide AcceptedInv, RowInv, IdsInv;
      ForgettingKeepsSteps(s, Next(auth, s, e));
    }
  }

  /** Confirming one row tells the others nothing. */
  lemma ConfirmingIsLocal(accepted: seq<Acceptance>, confirmedAt: map<TotpId, nat>, id: TotpId, step: nat)
    requires AcceptedInv(accepted, confirmedAt) && id !in confirmedAt
    ensures AcceptedInv(accepted, confirmedAt[id := step])
    ensures forall row :: RowInv(accepted, confirmedAt, row) && row.id != id ==>
              RowInv(accepted, confirmedAt[id := step], row)
    ensures forall row: TotpRow :: row.id == id && row.confirmed && row.lastStep == step ==>
              RowInv(accepted, confirmedAt[id := step], row)
  {
  }

  lemma ConfirmedKeepsSteps(auth: Authenticator, s: Sys, e: Event)
    requires StepsInv(s) && e.CommitConfirm? && e.r in s.flights && s.flights[e.r].Confirming? && !e.aborts
    requires CanConfirm(s.db, s.flights[e.r].user, s.flights[e.r].row)
    ensures StepsInv(Next(auth, s, e))
  {
    var f, t := s.flights[e.r], Next(auth, s, e);
    var row := s.db.totp[f.user].(confirmed := true, lastStep := f.step);
    ConfirmTotp(s.db, f.user, f.row, f.step, e.codes);
    assert RowInv(s.accepted, s.confirmedAt, s.db.totp[f.user]);
    ConfirmingIsLocal(s.accepted, s.confirmedAt, f.row, f.step);
    hide Confirm, AcceptedInv, RowInv, FlightInv;
    assert t.db.totp == s.db.totp[f.user := row];
  }

  lemma ConfirmTotp(db: Db, u: UserId, row: TotpId, step: nat, codes: seq<string>)
    requires CanConfirm(db, u, row)
    ensures var t := Confirm(db, u, row, step, codes);
            t.totp == db.totp[u := db.totp[u].(confirmed := true, lastStep := step)] && t.nextTotp == db.nextTotp
  {
  }

  /** An acceptance above everything used on its row; other rows do not notice. */
  lemma AcceptingIsLocal(accepted: seq<Acceptance>, confirmedAt: map<TotpId, nat>, old_: TotpRow, a: Acceptance)
    requires AcceptedInv(accepted, confirmedAt) && RowInv(accepted, confirmedAt, old_)
    requires old_.confirmed && a.row == old_.id && old_.lastStep < a.step
    requires a.clockStep - 1 <= a.step <= a.clockStep + 1
    ensures AcceptedInv(accepted + [a], confirmedAt)
    ensures forall row :: RowInv(accepted, confirmedAt, row) && row.id != a.row ==>
              RowInv(accepted + [a], confirmedAt, row)
    ensures RowInv(accepted + [a], confirmedAt, old_.(lastStep := a.step))
  {
  }

  lemma TakeStepKeepsSteps(auth: Authenticator, s: Sys, e: Event)
    requires StepsInv(s) && e.TakeStep?
    ensures StepsInv(Next(auth, s, e))
  {
    if && e.r in s.flights && s.flights[e.r].StepMatched?
       && CanConsumeStep(s.db, s.flights[e.r].user, s.flights[e.r].row, s.flights[e.r].step) {
      var f, t := s.flights[e.r], Next(auth, s, e);
      assert FlightInv(s.db.nextTotp, f);
      AcceptingIsLocal(s.accepted, s.confirmedAt, s.db.totp[f.user], Acceptance(f.row, f.step, f.clockStep));
      hide AcceptedInv, RowInv, FlightInv;
      assert t.db.totp == s.db.totp[f.user := s.db.totp[f.user].(lastStep := f.step)];
    } else {
      hide AcceptedInv, RowInv, IdsInv;
      ForgettingKeepsSteps(s, Next(auth, s, e));
    }
  }

  lemma StepKeepsSteps(auth: Authenticator, s: Sys, e: Event)
    requires StepsInv(s)
    ensures StepsInv(Next(auth, s, e))
  {
    hide StepsInv, Next;
    match e
    case Begin(_, _, _) => BeginKeepsSteps(auth, s, e);
    case CommitConfirm(_, _, _) => ConfirmKeepsSteps(auth, s, e);
    case TakeStep(_) => TakeStepKeepsSteps(auth, s, e);
    case CheckOff(_, _) => ReadKeepsSteps(auth, s, e);
    case ReadPending(_, _, _, _) => ReadKeepsSteps(auth, s, e);
    case ReadTotp(_, _, _, _) => ReadKeepsSteps(auth, s, e);
    case ReadRecovery(_, _, _, _) => ReadKeepsSteps(auth, s, e);
    case _ => AdminKeepsSteps(auth, s, e);
  }

  lemma {:induction false} RunKeepsSteps(auth: Authenticator, s: Sys, es: seq<Event>)
    requires StepsInv(s)
    ensures StepsInv(Run(auth, s, es))
    decreases |es|
  {
    hide StepsInv, Next;
    if es != [] {
      StepKeepsSteps(auth, s, es[0]);
      RunKeepsSteps(auth, Next(auth, s, es[0]), es[1..]);
    }
  }

  /** The one-time rule of section 5.2 of RFC 6238, over every interleaving: the steps accepted on
      one enrolment strictly increase, starting above the step that confirmed it. */
  lemma AcceptedStepsIncrease(auth: Authenticator, es: seq<Event>)
    ensures var s := Run(auth, INITIAL, es); AcceptedInv(s.accepted, s.confirmedAt)
  {
    RunKeepsSteps(auth, INITIAL, es);
  }

  /** The steps accepted on `row`, among the first `n` acceptances, for codes that were checked
      while the clock's step was in a..b. */
  function StepsOn(accepted: seq<Acceptance>, n: nat, row: TotpId, a: int, b: int): seq<int>
    requires n <= |accepted|
  {
    if n == 0 then []
    else
      var xs, x := StepsOn(accepted, n - 1, row, a, b), accepted[n - 1];
      if x.row == row && a <= x.clockStep <= b then xs + [x.step] else xs
  }

  /** Later acceptances on a row are above `top`. */
  ghost predicate Above(accepted: seq<Acceptance>, n: nat, row: TotpId, top: int) {
    forall k :: n <= k < |accepted| && accepted[k].row == row ==> top < accepted[k].step
  }

  lemma {:induction false} StepsOnIncrease(accepted: seq<Acceptance>, confirmedAt: map<TotpId, nat>, n: nat,
                                           row: TotpId, a: int, b: int)
    requires AcceptedInv(accepted, confirmedAt) && n <= |accepted|
    ensures Increasing(StepsOn(accepted, n, row, a, b), a - 1, b + 1)
    ensures var xs := StepsOn(accepted, n, row, a, b); xs != [] ==> Above(accepted, n, row, xs[|xs| - 1])
  {
    if n > 0 {
      StepsOnIncrease(accepted, confirmedAt, n - 1, row, a, b);
    }
  }

  predicate Increasing(xs: seq<int>, lo: int, hi: int) {
    && (forall i :: 0 <= i < |xs| ==> lo <= xs[i] <= hi)
    && (forall i, j :: 0 <= i < j < |xs| ==> xs[i] < xs[j])
  }

  lemma {:induction false} IncreasingFits(xs: seq<int>, lo: int, hi: int)
    requires Increasing(xs, lo, hi)
    ensures |xs| <= if lo <= hi then hi - lo + 1 else 0
  {
    if xs != [] { IncreasingFits(xs[..|xs| - 1], lo, xs[|xs| - 1] - 1); }
  }

  /** Codes of one enrolment that are checked while the clock's step is between a and b are
      accepted at most b - a + 3 times, however many verifiers race. */
  lemma AcceptancesPerWindow(auth: Authenticator, es: seq<Event>, row: TotpId, a: int, b: int)
    requires a <= b
    ensures var accepted := Run(auth, INITIAL, es).accepted;
            |StepsOn(accepted, |accepted|, row, a, b)| <= b - a + 3
  {
    var s := Run(auth, INITIAL, es);
    AcceptedStepsIncrease(auth, es);
    StepsOnIncrease(s.accepted, s.confirmedAt, |s.accepted|, row, a, b);
    IncreasingFits(StepsOn(s.accepted, |s.accepted|, row, a, b), a - 1, b + 1);
  }

  // ---------------------------------------------------------------- stale requests

  predicate InTable(s: Sys, row: TotpId) { exists u :: u in s.db.totp && s.db.totp[u].id == row }

  lemma StepNeverRevives(auth: Authenticator, s: Sys, e: Event, row: TotpId)
    requires row < s.db.nextTotp && !InTable(s, row)
    ensures row < Next(auth, s, e).db.nextTotp && !InTable(Next(auth, s, e), row)
  {
    var t := Next(auth, s, e);
    forall u | u in t.db.totp ensures t.db.totp[u].id != row {
      assert u in s.db.totp ==> s.db.totp[u].id != row;
    }
  }

  /** A deleted enrolment never comes back. */
  lemma {:induction false} RowNeverReturns(auth: Authenticator, s: Sys, es: seq<Event>, row: TotpId)
    requires row < s.db.nextTotp && !InTable(s, row)
    ensures !InTable(Run(auth, s, es), row)
    decreases |es|
  {
    hide InTable, Next;
    if es != [] {
      StepNeverRevives(auth, s, es[0], row);
      RowNeverReturns(auth, Next(auth, s, es[0]), es[1..], row);
    }
  }

  /** A verifier or a confirmation whose enrolment has since been replaced, disabled or deleted
      changes no table, no matter what enrolments were made in between. */
  lemma StaleRequestIsRefused(auth: Authenticator, before: seq<Event>, after: seq<Event>, r: RequestId, e: Event)
    requires var s := Run(auth, INITIAL, before);
             && r in s.flights && (s.flights[r].StepMatched? || s.flights[r].Confirming?)
             && !InTable(s, s.flights[r].row)
    requires var s, t := Run(auth, INITIAL, before), Run(auth, Run(auth, INITIAL, before), after);
             r in t.flights && t.flights[r] == s.flights[r]
    requires e == TakeStep(r) || (e.CommitConfirm? && e.r == r)
    ensures var t := Run(auth, Run(auth, INITIAL, before), after);
            Next(auth, t, e).db == t.db && Next(auth, t, e).accepted == t.accepted
  {
    var s := Run(auth, INITIAL, before);
    RunKeepsSteps(auth, INITIAL, before);
    assert FlightInv(s.db.nextTotp, s.flights[r]);
    RowNeverReturns(auth, s, after, s.flights[r].row);
  }
}
