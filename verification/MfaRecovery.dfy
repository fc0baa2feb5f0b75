/**
  Recovery codes are single use: over every interleaving a row is accepted at most once, and a
  verifier that matched a row never burns another one.
*/
module MfaRecovery {
  import opened MfaStore
  import opened MfaProtocol

  /** Rows have ids below the counter; those accepted are used, if they are still there. */
  ghost predicate CodesInv(db: Db, spent: seq<CodeId>) {
    && (forall c :: c in db.codes ==> c < db.nextCode)
    && (forall i :: 0 <= i < |spent| ==> spent[i] < db.nextCode && (spent[i] in db.codes ==> db.codes[spent[i]].used))
    && (forall i, j :: 0 <= i < j < |spent| ==> spent[i] != spent[j])
  }

  ghost predicate MatchesInv(s: Sys) {
    forall r :: r in s.flights && s.flights[r].RowMatched? ==> s.flights[r].code < s.db.nextCode
  }

  ghost predicate RecoveryInv(s: Sys) { CodesInv(s.db, s.spent) && MatchesInv(s) }

  /** Old rows stay as they are or go; new ones get new ids. */
  ghost predicate CodesAge(a: Db, b: Db) {
    && a.nextCode <= b.nextCode
    && (forall c :: c in b.codes ==>
          || (c in a.codes && b.codes[c] == a.codes[c])
          || a.nextCode <= c < b.nextCode)
  }

  lemma ReplacingAges(db: Db, u: UserId, codes: seq<string>)
    ensures CodesAge(db, ReplaceCodes(db, u, codes))
  {
  }

  lemma AccountsAge(db: Db, u: UserId, secret: string)
    ensures CodesAge(db, BeginEnrollment(db, u, secret)) && CodesAge(db, Disable(db, u))
    ensures CodesAge(db, CreateOperator(db)) && CodesAge(db, DeleteOperator(db, u))
  {
  }

  lemma RowsAge(db: Db, u: UserId, row: TotpId, step: nat, codes: seq<string>)
    ensures CodesAge(db, Confirm(db, u, row, step, codes)) && CodesAge(db, Regenerate(db, u, codes))
    ensures CodesAge(db, ConsumeStep(db, u, row, step))
  {
    ReplacingAges(db, u, codes);
    hide NewRows;
  }

  predicate Burns(s: Sys, e: Event) {
    && e.TakeRow? && e.r in s.flights && s.flights[e.r].RowMatched?
    && CanBurn(s.db, s.flights[e.r].user, s.flights[e.r].code)
  }

  lemma OtherStepsAge(auth: Authenticator, s: Sys, e: Event)
    requires !Burns(s, e)
    ensures CodesAge(s.db, Next(auth, s, e).db) && Next(auth, s, e).spent == s.spent
  {
    hide BeginEnrollment, Disable, Confirm, Regenerate, ConsumeStep, CreateOperator, DeleteOperator, VerifyTotpCode;
    match e
    case NewOperator => AccountsAge(s.db, 0, "");
    case RemoveOperator(u) => AccountsAge(s.db, u, "");
    case TurnOff(u, _) => AccountsAge(s.db, u, "");
    case NewCodes(u, codes, _) => RowsAge(s.db, u, 0, 0, codes);
    case Begin(r, secret, _) =>
      if r in s.flights && s.flights[r].Enrolling? { AccountsAge(s.db, s.flights[r].user, secret); }
    case CommitConfirm(r, codes, _) =>
      if r in s.flights && s.flights[r].Confirming? {
        RowsAge(s.db, s.flights[r].user, s.flights[r].row, s.flights[r].step, codes);
      }
    case TakeStep(r) =>
      if r in s.flights && s.flights[r].StepMatched? {
        RowsAge(s.db, s.flights[r].user, s.flights[r].row, s.flights[r].step, []);
      }
    case _ =>
  }

  lemma AgeKeepsCodes(a: Db, b: Db, spent: seq<CodeId>)
    requires CodesInv(a, spent) && CodesAge(a, b)
    ensures CodesInv(b, spent)
  {
  }

  lemma MatchesStay(auth: Authenticator, s: Sys, e: Event)
    requires RecoveryInv(s) && s.db.nextCode <= Next(auth, s, e).db.nextCode
    ensures MatchesInv(Next(auth, s, e))
  {
    hide VerifyTotpCode, BeginEnrollment, Disable, Confirm, Regenerate, ConsumeStep, Burn;
  }

  lemma StepKeepsRecovery(auth: Authenticator, s: Sys, e: Event)
    requires RecoveryInv(s)
    ensures RecoveryInv(Next(auth, s, e))
  {
    if Burns(s, e) {
      assert forall i :: 0 <= i < |s.spent| ==> s.spent[i] != s.flights[e.r].code;
    } else {
      OtherStepsAge(auth, s, e);
      AgeKeepsCodes(s.db, Next(auth, s, e).db, s.spent);
    }
    MatchesStay(auth, s, e);
    hide Next;
  }

  lemma {:induction false} RunKeepsRecovery(auth: Authenticator, s: Sys, es: seq<Event>)
    requires RecoveryInv(s)
    ensures RecoveryInv(Run(auth, s, es))
    decreases |es|
  {
    hide RecoveryInv, Next;
    if es != [] {
      StepKeepsRecovery(auth, s, es[0]);
      RunKeepsRecovery(auth, Next(auth, s, es[0]), es[1..]);
    }
  }

  /** However many verifiers race, a recovery row is accepted at most once in any run. */
  lemma RecoveryRowsAreSpentOnce(auth: Authenticator, es: seq<Event>, i: nat, j: nat)
    requires i < j < |Run(auth, INITIAL, es).spent|
    ensures Run(auth, INITIAL, es).spent[i] != Run(auth, INITIAL, es).spent[j]
  {
    RunKeepsRecovery(auth, INITIAL, es);
  }

  /** The row cannot be accepted: it is used, or it is gone. */
  predicate Dead(db: Db, c: CodeId) { c < db.nextCode && (c in db.codes ==> db.codes[c].used) }

  lemma StepKeepsDead(auth: Authenticator, s: Sys, e: Event, c: CodeId)
    requires Dead(s.db, c)
    ensures Dead(Next(auth, s, e).db, c)
  {
    if !Burns(s, e) {
      OtherStepsAge(auth, s, e);
      hide Next;
    }
  }

  lemma {:induction false} RunKeepsDead(auth: Authenticator, s: Sys, es: seq<Event>, c: CodeId)
    requires Dead(s.db, c)
    ensures Dead(Run(auth, s, es).db, c)
    decreases |es|
  {
    hide Dead, Next;
    if es != [] {
      StepKeepsDead(auth, s, es[0], c);
      RunKeepsDead(auth, Next(auth, s, es[0]), es[1..], c);
    }
  }

  /** A verifier that matched a row which has since been used, replaced by a new mint or deleted burns
      nothing, whatever was minted in between. */
  lemma StaleRowIsRefused(auth: Authenticator, before: seq<Event>, after: seq<Event>, r: RequestId)
    requires var s := Run(auth, INITIAL, before);
             && r in s.flights && s.flights[r].RowMatched?
             && (s.flights[r].code in s.db.codes ==> s.db.codes[s.flights[r].code].used)
    requires var s, t := Run(auth, INITIAL, before), Run(auth, Run(auth, INITIAL, before), after);
             r in t.flights && t.flights[r] == s.flights[r]
    ensures var t := Run(auth, Run(auth, INITIAL, before), after);
            Next(auth, t, TakeRow(r)).db == t.db && Next(auth, t, TakeRow(r)).spent == t.spent
  {
    var s := Run(auth, INITIAL, before);
    RunKeepsRecovery(auth, INITIAL, before);
    RunKeepsDead(auth, s, after, s.flights[r].code);
  }
}
