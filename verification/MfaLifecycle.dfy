/**
  What every committed state of the two-factor tables satisfies, and the one step that can break
  it: beginning an enrolment over a confirmed row. The console checks "not enabled" before that
  transaction, but not inside it.
*/
module MfaLifecycle {
  import opened MfaStore
  import opened MfaProtocol

  function CodesOf(codes: map<CodeId, RecoveryRow>, u: UserId): set<CodeId> {
    set c | c in codes && codes[c].user == u
  }

  function UnusedOf(codes: map<CodeId, RecoveryRow>, u: UserId): set<CodeId> {
    set c | c in codes && codes[c].user == u && !codes[c].used
  }

  /** The account's flag, its TOTP row and its recovery codes agree. */
  ghost predicate AccountInv(db: Db, burned: map<UserId, nat>, u: UserId)
    requires u in db.operators
  {
    && (db.operators[u].mfaEnabled <==> Confirmed(db, u))
    && (if Confirmed(db, u) then
          && u in burned && |CodesOf(db.codes, u)| == RECOVERY_CODE_COUNT
          && |UnusedOf(db.codes, u)| + burned[u] == RECOVERY_CODE_COUNT
        else CodesOf(db.codes, u) == {})
  }

  ghost predicate CodeKeysInv(codes: map<CodeId, RecoveryRow>, nextCode: CodeId, operators: set<UserId>) {
    forall c :: c in codes ==> c < nextCode && codes[c].user in operators
  }

  ghost predicate KeysInv(db: Db) {
    && (forall u :: u in db.operators ==> u < db.nextUser)
    && (forall u :: u in db.totp ==> u in db.operators)
    && CodeKeysInv(db.codes, db.nextCode, db.operators.Keys)
  }

  ghost predicate LifecycleInv(s: Sys) {
    KeysInv(s.db) && forall u :: u in s.db.operators ==> AccountInv(s.db, s.burned, u)
  }

  // ---------------------------------------------------------------- steps on one account

  ghost predicate SameCodes(codes: map<CodeId, RecoveryRow>, codes': map<CodeId, RecoveryRow>, w: UserId) {
    CodesOf(codes', w) == CodesOf(codes, w) && UnusedOf(codes', w) == UnusedOf(codes, w)
  }

  /** Account `w` looks the same in both databases. */
  ghost predicate SameAccount(db: Db, burned: map<UserId, nat>, db': Db, burned': map<UserId, nat>, w: UserId) {
    && w in db.operators && w in db'.operators && db'.operators[w].mfaEnabled == db.operators[w].mfaEnabled
    && Confirmed(db', w) == Confirmed(db, w)
    && SameCodes(db.codes, db'.codes, w)
    && (w in burned <==> w in burned') && (w in burned ==> burned'[w] == burned[w])
  }

  /** A step that touches one account only has that account to answer for. */
  lemma OnlyOneAccount(s: Sys, t: Sys, u: UserId)
    requires LifecycleInv(s) && KeysInv(t.db)
    requires forall w :: w in t.db.operators && w != u ==> SameAccount(s.db, s.burned, t.db, t.burned, w)
    ensures LifecycleInv(t) <==> (u in t.db.operators ==> AccountInv(t.db, t.burned, u))
  {
    forall w | w in t.db.operators && w != u ensures AccountInv(t.db, t.burned, w) {
      assert SameAccount(s.db, s.burned, t.db, t.burned, w);
    }
  }

  lemma {:induction false} NewRowCount(u: UserId, codes: seq<string>, from: CodeId)
    ensures |NewRows(u, codes, from).Keys| == |codes|
  {
    if codes != [] {
      var last := |codes| - 1;
      NewRowCount(u, codes[..last], from);
      assert NewRows(u, codes, from).Keys == NewRows(u, codes[..last], from).Keys + {from + last};
    }
  }

  function Replaced(codes: map<CodeId, RecoveryRow>, u: UserId, minted: seq<string>, from: CodeId)
    : map<CodeId, RecoveryRow>
  {
    WithoutCodes(codes, u) + NewRows(u, minted, from)
  }

  lemma ReplacedCodes(codes: map<CodeId, RecoveryRow>, u: UserId, minted: seq<string>, from: CodeId,
                      operators: set<UserId>)
    requires CodeKeysInv(codes, from, operators) && u in operators
    ensures var new_ := Replaced(codes, u, minted, from);
            && CodeKeysInv(new_, from + |minted|, operators)
            && |CodesOf(new_, u)| == |UnusedOf(new_, u)| == |minted|
            && forall w :: w != u ==> SameCodes(codes, new_, w)
  {
    var new_, rows := Replaced(codes, u, minted, from), NewRows(u, minted, from);
    NewRowCount(u, minted, from);
    hide NewRows;
    assert CodesOf(new_, u) == rows.Keys;
    assert UnusedOf(new_, u) == rows.Keys;
    forall w | w != u ensures SameCodes(codes, new_, w) {
      OtherCodes(codes, u, minted, from, w);
    }
  }

  lemma OtherCodes(codes: map<CodeId, RecoveryRow>, u: UserId, minted: seq<string>, from: CodeId, w: UserId)
    requires w != u && forall c :: c in codes ==> c < from
    ensures SameCodes(codes, Replaced(codes, u, minted, from), w)
  {
    hide NewRows;
    var new_ := Replaced(codes, u, minted, from);
    forall c ensures c in codes && codes[c].user == w <==> c in new_ && new_[c].user == w {}
    forall c | c in codes && codes[c].user == w ensures new_[c] == codes[c] {}
  }

  lemma RemovedCodes(codes: map<CodeId, RecoveryRow>, u: UserId)
    ensures CodesOf(WithoutCodes(codes, u), u) == {}
    ensures forall w :: w != u ==> SameCodes(codes, WithoutCodes(codes, u), w)
  {
  }

  lemma BurnedCode(db: Db, u: UserId, c: CodeId)
    requires CanBurn(db, u, c)
    ensures var new_ := db.codes[c := db.codes[c].(used := true)];
            && CodesOf(new_, u) == CodesOf(db.codes, u) && |UnusedOf(new_, u)| == |UnusedOf(db.codes, u)| - 1
            && forall w :: w != u ==> SameCodes(db.codes, new_, w)
  {
    assert UnusedOf(db.codes, u) == UnusedOf(db.codes[c := db.codes[c].(used := true)], u) + {c};
  }

  lemma OperatorsKeepLifecycle(auth: Authenticator, s: Sys, e: Event)
    requires LifecycleInv(s) && (e.NewOperator? || e.RemoveOperator?)
    ensures LifecycleInv(Next(auth, s, e))
  {
    var t := Next(auth, s, e);
    if e.NewOperator? {
      assert CodesOf(s.db.codes, s.db.nextUser) == {};
      hide CodesOf, UnusedOf;
      assert KeysInv(t.db);
      OnlyOneAccount(s, t, s.db.nextUser);
    } else {
      RemovedCodes(s.db.codes, e.u);
      hide CodesOf, UnusedOf;
      assert KeysInv(t.db);
      OnlyOneAccount(s, t, e.u);
    }
  }

  lemma TurnOffKeepsLifecycle(auth: Authenticator, s: Sys, e: Event)
    requires LifecycleInv(s) && e.TurnOff?
    ensures LifecycleInv(Next(auth, s, e))
  {
    var t := Next(auth, s, e);
    if !e.aborts {
      RemovedCodes(s.db.codes, e.u);
      hide CodesOf, UnusedOf;
      assert KeysInv(t.db);
      OnlyOneAccount(s, t, e.u);
    }
  }

  /** A mint: `u` ends up confirmed and flagged, with ten fresh codes and nothing burned. */
  lemma MintKeepsLifecycle(s: Sys, t: Sys, u: UserId, o: Operator, row: TotpRow, minted: FreshCodes)
    requires LifecycleInv(s) && u in s.db.operators && o.mfaEnabled && row.confirmed
    requires t.db == s.db.(operators := s.db.operators[u := o], totp := s.db.totp[u := row],
                           codes := Replaced(s.db.codes, u, minted, s.db.nextCode),
                           nextCode := s.db.nextCode + |minted|)
    requires t.burned == s.burned[u := 0]
    ensures LifecycleInv(t)
  {
    ReplacedCodes(s.db.codes, u, minted, s.db.nextCode, s.db.operators.Keys);
    hide CodesOf, UnusedOf, Replaced, CodeKeysInv;
    assert t.db.operators.Keys == s.db.operators.Keys;
    assert KeysInv(t.db);
    OnlyOneAccount(s, t, u);
  }

  lemma NewCodesKeepLifecycle(auth: Authenticator, s: Sys, e: Event)
    requires LifecycleInv(s) && e.NewCodes?
    ensures LifecycleInv(Next(auth, s, e))
  {
    if !e.aborts && Confirmed(s.db, e.u) {
      assert e.u in s.db.operators;
      hide AccountInv, NewRows, WithoutCodes;
      assert s.db.totp == s.db.totp[e.u := s.db.totp[e.u]];
      MintKeepsLifecycle(s, Next(auth, s, e), e.u, Bump(s.db.operators[e.u]), s.db.totp[e.u], e.codes) by {
        assert AccountInv(s.db, s.burned, e.u);
        FlagOfConfirmed(s, e.u);
      }
    }
  }

  lemma FlagOfConfirmed(s: Sys, u: UserId)
    requires LifecycleInv(s) && u in s.db.operators && Confirmed(s.db, u)
    ensures s.db.operators[u].mfaEnabled
  {
    assert AccountInv(s.db, s.burned, u);
  }

  lemma ConfirmKeepsLifecycle(auth: Authenticator, s: Sys, e: Event)
    requires LifecycleInv(s) && e.CommitConfirm?
    ensures LifecycleInv(Next(auth, s, e))
  {
    hide AccountInv;
    var t := Next(auth, s, e);
    if && e.r in s.flights && s.flights[e.r].Confirming? && !e.aborts
       && CanConfirm(s.db, s.flights[e.r].user, s.flights[e.r].row) {
      var f := s.flights[e.r];
      ConfirmTables(s.db, f.user, f.row, f.step, e.codes);
      hide Confirm, Replaced;
      MintKeepsLifecycle(s, t, f.user, Operator(true, s.db.operators[f.user].authzVersion + 1),
                         s.db.totp[f.user].(confirmed := true, lastStep := f.step), e.codes);
    } else {
      assert t.db == s.db && t.burned == s.burned;
    }
  }

  /** What a committed confirmation writes. */
  lemma ConfirmTables(db: Db, u: UserId, row: TotpId, step: nat, codes: seq<string>)
    requires CanConfirm(db, u, row) && u in db.operators
    ensures Confirm(db, u, row, step, codes)
         == db.(operators := db.operators[u := Operator(true, db.operators[u].authzVersion + 1)],
                totp := db.totp[u := db.totp[u].(confirmed := true, lastStep := step)],
                codes := Replaced(db.codes, u, codes, db.nextCode), nextCode := db.nextCode + |codes|)
  {
  }

  lemma TakeRowKeepsLifecycle(auth: Authenticator, s: Sys, e: Event)
    requires LifecycleInv(s) && e.TakeRow?
    ensures LifecycleInv(Next(auth, s, e))
  {
    var t := Next(auth, s, e);
    if e.r in s.flights && s.flights[e.r].RowMatched? && CanBurn(s.db, s.flights[e.r].user, s.flights[e.r].code) {
      var f := s.flights[e.r];
      BurnedCode(s.db, f.user, f.code);
      assert f.code in CodesOf(s.db.codes, f.user);
      hide CodesOf, UnusedOf;
      assert KeysInv(t.db);
      OnlyOneAccount(s, t, f.user);
    } else {
      assert t.db == s.db && t.burned == s.burned;
    }
  }

  lemma TakeStepKeepsLifecycle(auth: Authenticator, s: Sys, e: Event)
    requires LifecycleInv(s) && e.TakeStep?
    ensures LifecycleInv(Next(auth, s, e))
  {
    var t := Next(auth, s, e);
    hide CodesOf, UnusedOf, CodeKeysInv;
    if e.r in s.flights && s.flights[e.r].StepMatched? {
      OnlyOneAccount(s, t, s.flights[e.r].user);
    } else {
      assert t.db == s.db && t.burned == s.burned;
    }
  }

  /** The event commits an enrolment of `u`, which was off when the console looked. */
  predicate Commits(s: Sys, e: Event, u: UserId) {
    e.Begin? && !e.aborts && e.r in s.flights && s.flights[e.r] == Enrolling(u) && u in s.db.operators
  }

  /** The event commits an enrolment whose check went stale: the account is confirmed by now. */
  predicate Stale(s: Sys, e: Event) {
    exists u :: u in s.db.operators && Commits(s, e, u) && Confirmed(s.db, u)
  }

  /** An enrolment keeps the account consistent exactly when its check has not gone stale. */
  lemma BeginKeepsLifecycleIff(auth: Authenticator, s: Sys, e: Event, u: UserId)
    requires LifecycleInv(s) && Commits(s, e, u)
    ensures LifecycleInv(Next(auth, s, e)) <==> !Confirmed(s.db, u)
  {
    hide CodesOf, UnusedOf, CodeKeysInv;
    OnlyOneAccount(s, Next(auth, s, e), u);
  }

  /** Exactly the stale enrolments break the tables. */
  lemma StepKeepsLifecycleIff(auth: Authenticator, s: Sys, e: Event)
    requires LifecycleInv(s)
    ensures LifecycleInv(Next(auth, s, e)) <==> !Stale(s, e)
  {
    if e.Begin? && !e.aborts && e.r in s.flights && s.flights[e.r].Enrolling? && s.flights[e.r].user in s.db.operators {
      BeginKeepsLifecycleIff(auth, s, e, s.flights[e.r].user);
    } else {
      match e
      case NewOperator => OperatorsKeepLifecycle(auth, s, e);
      case RemoveOperator(_) => OperatorsKeepLifecycle(auth, s, e);
      case TurnOff(_, _) => TurnOffKeepsLifecycle(auth, s, e);
      case NewCodes(_, _, _) => NewCodesKeepLifecycle(auth, s, e);
      case CommitConfirm(_, _, _) => ConfirmKeepsLifecycle(auth, s, e);
      case TakeStep(_) => TakeStepKeepsLifecycle(auth, s, e);
      case TakeRow(_) => TakeRowKeepsLifecycle(auth, s, e);
      case _ => assert Next(auth, s, e).db == s.db && Next(auth, s, e).burned == s.burned;
    }
  }

  // ---------------------------------------------------------------- every committed state

  /** Every state the run passes through is consistent. */
  ghost predicate AlwaysConsistent(auth: Authenticator, s: Sys, es: seq<Event>)
    decreases |es|
  {
    LifecycleInv(s) && (es != [] ==> AlwaysConsistent(auth, Next(auth, s, es[0]), es[1..]))
  }

  /** No enrolment is committed after its check went stale. */
  predicate NoneStale(auth: Authenticator, s: Sys, es: seq<Event>)
    decreases |es|
  {
    es != [] ==>
      && !Stale(s, es[0])
      && NoneStale(auth, Next(auth, s, es[0]), es[1..])
  }

  lemma {:induction false} RunConsistentIff(auth: Authenticator, s: Sys, es: seq<Event>)
    requires LifecycleInv(s)
    ensures AlwaysConsistent(auth, s, es) <==> NoneStale(auth, s, es)
    decreases |es|
  {
    hide LifecycleInv, Next, Stale;
    if es != [] {
      StepKeepsLifecycleIff(auth, s, es[0]);
      if LifecycleInv(Next(auth, s, es[0])) {
        RunConsistentIff(auth, Next(auth, s, es[0]), es[1..]);
      }
    }
  }

  /** Over every run, aborted transactions and racing requests included, the tables stay consistent
      in every committed state exactly when no enrolment is committed after its check went stale. */
  lemma LifecycleIsConserved(auth: Authenticator, es: seq<Event>)
    ensures AlwaysConsistent(auth, INITIAL, es) <==> NoneStale(auth, INITIAL, es)
  {
    RunConsistentIff(auth, INITIAL, es);
  }

  /** Enrolment and its check as one step: nothing comes between them. */
  predicate Prompt(es: seq<Event>) {
    forall i :: 0 <= i < |es| && es[i].Begin? ==> i > 0 && es[i - 1].CheckOff? && es[i - 1].r == es[i].r
  }

  /** The state an enrolment's check leaves, if `last` was one. */
  ghost predicate JustChecked(s: Sys, r: RequestId) {
    r in s.flights && s.flights[r].Enrolling? ==> !Confirmed(s.db, s.flights[r].user)
  }

  lemma {:induction false} PromptFrom(auth: Authenticator, s: Sys, es: seq<Event>)
    requires es != [] && es[0].Begin? ==> JustChecked(s, es[0].r)
    requires forall i :: 1 <= i < |es| && es[i].Begin? ==> es[i - 1].CheckOff? && es[i - 1].r == es[i].r
    ensures NoneStale(auth, s, es)
    decreases |es|
  {
    if es != [] {
      var t, rest := Next(auth, s, es[0]), es[1..];
      assert !Stale(s, es[0]);
      if rest != [] && rest[0].Begin? {
        assert es[1] == rest[0] && es[0].CheckOff? && es[0].r == es[1].r;
        assert JustChecked(t, rest[0].r);
      }
      assert forall i :: 1 <= i < |rest| && rest[i].Begin? ==> rest[i] == es[i + 1] && rest[i - 1] == es[i];
      hide Next, Stale, JustChecked;
      PromptFrom(auth, t, rest);
    }
  }

  /** With the check and the enrolment as one step, every state of every run is consistent. */
  lemma PromptRunsAreConsistent(auth: Authenticator, es: seq<Event>)
    requires Prompt(es)
    ensures AlwaysConsistent(auth, INITIAL, es)
  {
    PromptFrom(auth, INITIAL, es);
    LifecycleIsConserved(auth, es);
  }

  /** The race that breaks it: request 2 passes the console's check before request 1's enrolment is
      confirmed, and commits after it. The account is flagged but has no confirmed authenticator. */
  lemma EnrolmentRace(auth: Authenticator, codes: FreshCodes)
    requires VerifyTotpCode(auth, "s", "c", 60).Some?
    ensures var end := Run(auth, INITIAL, Race(codes));
            && 0 in end.db.operators && end.db.operators[0].mfaEnabled && !Confirmed(end.db, 0)
            && !NoneStale(auth, INITIAL, Race(codes))
  {
    var es := Race(codes);
    var s3 := Next(auth, Next(auth, Next(auth, INITIAL, es[0]), es[1]), es[2]);
    assert s3.db.operators == map[0 := Operator(false, 0)];
    assert s3.flights == map[1 := Enrolling(0), 2 := Enrolling(0)];
    RaceIsConfirmed(auth, codes, s3);
    var s6 := Next(auth, Next(auth, Next(auth, s3, es[3]), es[4]), es[5]);
    var s7 := Next(auth, s6, es[6]);
    assert s7.db.operators[0].mfaEnabled && !Confirmed(s7.db, 0);
    RaceRuns(auth, codes);
    LifecycleIsConserved(auth, es);
    hide Next;
    if AlwaysConsistent(auth, INITIAL, es) { EndIsConsistent(auth, INITIAL, es); assert false; }
  }

  function Race(codes: FreshCodes): seq<Event> {
    [NewOperator, CheckOff(1, 0), CheckOff(2, 0), Begin(1, "s", false), ReadPending(3, 0, "c", 60),
     CommitConfirm(3, codes, false), Begin(2, "t", false)]
  }

  lemma RaceBegins(auth: Authenticator, s: Sys)
    requires s.flights == map[1 := Enrolling(0), 2 := Enrolling(0)] && s.db.operators == map[0 := Operator(false, 0)]
    ensures var t := Next(auth, s, Begin(1, "s", false));
            && t.db.operators == s.db.operators && t.flights == map[2 := Enrolling(0)]
            && 0 in t.db.totp && t.db.totp[0].secret == "s" && !t.db.totp[0].confirmed
  {
  }

  lemma RaceReads(auth: Authenticator, s: Sys)
    requires VerifyTotpCode(auth, "s", "c", 60).Some? && s.flights == map[2 := Enrolling(0)]
    requires 0 in s.db.totp && s.db.totp[0].secret == "s" && !s.db.totp[0].confirmed
    ensures var t := Next(auth, s, ReadPending(3, 0, "c", 60));
            && t.db == s.db && 2 in t.flights && t.flights[2] == Enrolling(0)
            && 3 in t.flights && t.flights[3].Confirming?
            && t.flights[3].user == 0 && t.flights[3].row == s.db.totp[0].id
  {
    hide VerifyTotpCode;
  }

  lemma RaceConfirms(auth: Authenticator, codes: FreshCodes, s: Sys)
    requires 0 in s.db.totp && !s.db.totp[0].confirmed && s.db.operators == map[0 := Operator(false, 0)]
    requires 2 in s.flights && s.flights[2] == Enrolling(0) && 3 in s.flights && s.flights[3].Confirming?
    requires s.flights[3].user == 0 && s.flights[3].row == s.db.totp[0].id
    ensures var t := Next(auth, s, CommitConfirm(3, codes, false));
            && t.db.operators == map[0 := Operator(true, 1)] && Confirmed(t.db, 0)
            && 2 in t.flights && t.flights[2] == Enrolling(0)
  {
    ConfirmTables(s.db, 0, s.flights[3].row, s.flights[3].step, codes);
    hide Confirm, Replaced;
  }

  lemma RaceIsConfirmed(auth: Authenticator, codes: FreshCodes, s: Sys)
    requires VerifyTotpCode(auth, "s", "c", 60).Some? && s.flights == map[1 := Enrolling(0), 2 := Enrolling(0)]
    requires s.db.operators == map[0 := Operator(false, 0)]
    ensures var es := Race(codes); var t := Next(auth, Next(auth, Next(auth, s, es[3]), es[4]), es[5]);
            && t.db.operators == map[0 := Operator(true, 1)] && Confirmed(t.db, 0)
            && 2 in t.flights && t.flights[2] == Enrolling(0)
  {
    hide Next, VerifyTotpCode, Confirmed;
    var a := Next(auth, s, Begin(1, "s", false));
    RaceBegins(auth, s);
    RaceReads(auth, a);
    RaceConfirms(auth, codes, Next(auth, a, ReadPending(3, 0, "c", 60)));
  }

  lemma RaceRuns(auth: Authenticator, codes: FreshCodes)
    ensures var es := Race(codes);
            var s3 := Next(auth, Next(auth, Next(auth, INITIAL, es[0]), es[1]), es[2]);
            Run(auth, INITIAL, es)
            == Next(auth, Next(auth, Next(auth, Next(auth, s3, es[3]), es[4]), es[5]), es[6])
  {
    hide Next, Run;
    var es := Race(codes);
    var s1 := Next(auth, INITIAL, es[0]);
    var s2 := Next(auth, s1, es[1]);
    var s3 := Next(auth, s2, es[2]);
    var s4 := Next(auth, s3, es[3]);
    var s5 := Next(auth, s4, es[4]);
    var s6 := Next(auth, s5, es[5]);
    assert es[0..] == es;
    RunFrom(auth, INITIAL, es, 0);
    RunFrom(auth, s1, es, 1);
    RunFrom(auth, s2, es, 2);
    RunFrom(auth, s3, es, 3);
    RunFrom(auth, s4, es, 4);
    RunFrom(auth, s5, es, 5);
    RunFrom(auth, s6, es, 6);
    RunFrom(auth, Next(auth, s6, es[6]), es, 7);
  }

  lemma RunFrom(auth: Authenticator, s: Sys, es: seq<Event>, i: nat)
    requires i <= |es|
    ensures Run(auth, s, es[i..]) == if i == |es| then s else Run(auth, Next(auth, s, es[i]), es[i + 1..])
  {
    if i < |es| { assert es[i..][1..] == es[i + 1..]; }
  }

  lemma {:induction false} EndIsConsistent(auth: Authenticator, s: Sys, es: seq<Event>)
    requires AlwaysConsistent(auth, s, es)
    ensures LifecycleInv(Run(auth, s, es))
    decreases |es|
  {
    hide LifecycleInv, Next;
    if es != [] { EndIsConsistent(auth, Next(auth, s, es[0]), es[1..]); }
  }
}
