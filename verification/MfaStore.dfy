/**
  The two-factor tables and the statements and transactions of the repository on them: enrolment,
  confirmation, disabling, recovery codes, and the two compare-and-set updates of a login.
*/
module MfaStore {
  import opened Wrappers

  const TOTP_PERIOD: nat := 30
  const RECOVERY_CODE_COUNT: nat := 10

  type UserId = nat
  type TotpId = nat
  type CodeId = nat
  type FreshCodes = s: seq<string> | |s| == RECOVERY_CODE_COUNT witness seq(RECOVERY_CODE_COUNT, _ => "")

  datatype Operator = Operator(mfaEnabled: bool, authzVersion: nat)

  datatype TotpRow = TotpRow(id: TotpId, secret: string, confirmed: bool, lastStep: int)

  datatype RecoveryRow = RecoveryRow(user: UserId, code: string, used: bool)

  /** Ids are AUTOINCREMENT: the next ones are never below an id ever handed out. */
  datatype Db = Db(
    operators: map<UserId, Operator>,
    totp: map<UserId, TotpRow>,
    codes: map<CodeId, RecoveryRow>,
    nextUser: UserId,
    nextTotp: TotpId,
    nextCode: CodeId
  )

  const EMPTY: Db := Db(map[], map[], map[], 0, 0, 0)

  predicate Confirmed(db: Db, u: UserId) { u in db.totp && db.totp[u].confirmed }

  // ---------------------------------------------------------------- codes

  /** The HOTP check and the six-digit syntax, which live in foreign code. */
  datatype Authenticator = Authenticator(
    numberOf: string -> Option<nat>,
    accepts: (string, nat, nat) -> bool
  )

  predicate AcceptsAt(auth: Authenticator, secret: string, n: nat, timestamp: int) {
    timestamp >= 0 && auth.accepts(secret, n, timestamp / TOTP_PERIOD)
  }

  /** Current step first, then the previous one, then the next one. */
  function VerifyTotpCode(auth: Authenticator, secret: string, code: string, now: int): Option<nat> {
    match auth.numberOf(code)
    case None => None
    case Some(n) =>
      if AcceptsAt(auth, secret, n, now) then Some(now / TOTP_PERIOD)
      else if AcceptsAt(auth, secret, n, now - TOTP_PERIOD) then Some((now - TOTP_PERIOD) / TOTP_PERIOD)
      else if AcceptsAt(auth, secret, n, now + TOTP_PERIOD) then Some((now + TOTP_PERIOD) / TOTP_PERIOD)
      else None
  }

  /** The matched step is within one of the clock's step, the authenticator accepts the code there,
      and a code is refused exactly when none of the three steps takes it. */
  lemma VerifyTotpCodeExact(auth: Authenticator, secret: string, code: string, now: int)
    requires 0 <= now
    ensures var step, at := VerifyTotpCode(auth, secret, code, now), now / TOTP_PERIOD;
            match auth.numberOf(code)
            case None => step == None
            case Some(n) =>
              && (step.Some? ==> at - 1 <= step.value <= at + 1 && auth.accepts(secret, n, step.value))
              && (auth.accepts(secret, n, at) ==> step == Some(at))
              && (!auth.accepts(secret, n, at) && at >= 1 && auth.accepts(secret, n, at - 1) ==> step == Some(at - 1))
              && (step == None <==>
                    !auth.accepts(secret, n, at) && !auth.accepts(secret, n, at + 1)
                    && (at >= 1 ==> !auth.accepts(secret, n, at - 1)))
  {
    assert (now + TOTP_PERIOD) / TOTP_PERIOD == now / TOTP_PERIOD + 1;
    if now >= TOTP_PERIOD { assert (now - TOTP_PERIOD) / TOTP_PERIOD == now / TOTP_PERIOD - 1; }
  }

  function Upper(c: char): char { if 'a' <= c <= 'z' then c - 'a' + 'A' else c }

  predicate IsAlphanumeric(c: char) { 'a' <= c <= 'z' || 'A' <= c <= 'Z' || '0' <= c <= '9' }

  function Normalize(s: string): string {
    if s == [] then []
    else (if IsAlphanumeric(s[0]) then [Upper(s[0])] else []) + Normalize(s[1..])
  }

  /** Only ASCII letters and digits matter, and their case does not. */
  lemma {:induction false} NormalizeParts(a: string, b: string)
    ensures Normalize(a + b) == Normalize(a) + Normalize(b)
  {
    if a == [] {
      assert a + b == b;
    } else {
      assert (a + b)[1..] == a[1..] + b;
      NormalizeParts(a[1..], b);
    }
  }

  lemma NormalizeCharacter(c: char)
    ensures Normalize([c]) == if 'a' <= c <= 'z' then [c - 'a' + 'A']
                              else if 'A' <= c <= 'Z' || '0' <= c <= '9' then [c] else []
  {
    assert Normalize([]) == [] && [c][1..] == [];
  }

  // ---------------------------------------------------------------- transactions

  function Bump(o: Operator): Operator { o.(authzVersion := o.authzVersion + 1) }

  /** `UPDATE operators ... WHERE id_user = ?`, which may touch no row. */
  function FlagOperator(db: Db, u: UserId, enabled: bool): Db {
    if u in db.operators then db.(operators := db.operators[u := Bump(db.operators[u]).(mfaEnabled := enabled)])
    else db
  }

  function BumpOperator(db: Db, u: UserId): Db {
    if u in db.operators then db.(operators := db.operators[u := Bump(db.operators[u])]) else db
  }

  function WithoutCodes(codes: map<CodeId, RecoveryRow>, u: UserId): map<CodeId, RecoveryRow> {
    map c | c in codes && codes[c].user != u :: codes[c]
  }

  /** `n` new unused rows, in insertion order. */
  function NewRows(u: UserId, codes: seq<string>, from: CodeId): (rows: map<CodeId, RecoveryRow>)
    ensures forall c :: c in rows <==> from <= c < from + |codes|
    ensures forall c :: c in rows ==> rows[c] == RecoveryRow(u, codes[c - from], false)
  {
    if codes == [] then map[]
    else
      var last := |codes| - 1;
      NewRows(u, codes[..last], from)[from + last := RecoveryRow(u, codes[last], false)]
  }

  lemma NoRows(kept: map<CodeId, RecoveryRow>, u: UserId, from: CodeId)
    ensures kept + NewRows(u, [], from) == kept
  {
  }

  lemma InsertedRow(kept: map<CodeId, RecoveryRow>, u: UserId, codes: seq<string>, i: nat, from: CodeId)
    requires i < |codes|
    ensures kept + NewRows(u, codes[..i + 1], from)
         == (kept + NewRows(u, codes[..i], from))[from + i := RecoveryRow(u, codes[i], false)]
  {
    assert codes[..i + 1][..i] == codes[..i];
  }

  function ReplaceCodes(db: Db, u: UserId, codes: seq<string>): Db {
    db.(codes := WithoutCodes(db.codes, u) + NewRows(u, codes, db.nextCode), nextCode := db.nextCode + |codes|)
  }

  /** The minted codes are the account's only rows, under new ids; other accounts keep theirs. */
  lemma ReplacedRows(db: Db, u: UserId, codes: seq<string>)
    ensures var rows := ReplaceCodes(db, u, codes).codes;
            forall c :: c in rows ==>
              if db.nextCode <= c < db.nextCode + |codes| then rows[c] == RecoveryRow(u, codes[c - db.nextCode], false)
              else c in db.codes && rows[c] == db.codes[c] && rows[c].user != u
    ensures forall c :: db.nextCode <= c < db.nextCode + |codes| ==> c in ReplaceCodes(db, u, codes).codes
  {
    hide NewRows;
  }

  /** `begin_enrollment`: deletes any row of the user, whatever its state, and inserts an
      unconfirmed one. The foreign key refuses an unknown operator. */
  function BeginEnrollment(db: Db, u: UserId, secret: string): Db {
    if u !in db.operators then db
    else db.(totp := db.totp[u := TotpRow(db.nextTotp, secret, false, 0)], nextTotp := db.nextTotp + 1)
  }

  predicate CanConfirm(db: Db, u: UserId, row: TotpId) {
    u in db.totp && db.totp[u].id == row && !db.totp[u].confirmed
  }

  /** The confirmation transaction, after the pending row was read and its code matched `step`. */
  function Confirm(db: Db, u: UserId, row: TotpId, step: nat, codes: seq<string>): Db {
    if !CanConfirm(db, u, row) then db
    else
      var marked := db.(totp := db.totp[u := db.totp[u].(confirmed := true, lastStep := step)]);
      ReplaceCodes(FlagOperator(marked, u, true), u, codes)
  }

  function Disable(db: Db, u: UserId): Db {
    FlagOperator(db.(totp := db.totp - {u}, codes := WithoutCodes(db.codes, u)), u, false)
  }

  function Regenerate(db: Db, u: UserId, codes: seq<string>): Db {
    if !Confirmed(db, u) then db else BumpOperator(ReplaceCodes(db, u, codes), u)
  }

  predicate CanConsumeStep(db: Db, u: UserId, row: TotpId, step: nat) {
    Confirmed(db, u) && db.totp[u].id == row && db.totp[u].lastStep < step
  }

  function ConsumeStep(db: Db, u: UserId, row: TotpId, step: nat): Db {
    if CanConsumeStep(db, u, row, step) then db.(totp := db.totp[u := db.totp[u].(lastStep := step)]) else db
  }

  predicate CanBurn(db: Db, u: UserId, c: CodeId) {
    c in db.codes && db.codes[c].user == u && !db.codes[c].used
  }

  function Burn(db: Db, u: UserId, c: CodeId): Db {
    if CanBurn(db, u, c) then db.(codes := db.codes[c := db.codes[c].(used := true)]) else db
  }

  function CreateOperator(db: Db): Db {
    db.(operators := db.operators[db.nextUser := Operator(false, 0)], nextUser := db.nextUser + 1)
  }

  /** Both two-factor tables reference operators ON DELETE CASCADE. */
  function DeleteOperator(db: Db, u: UserId): Db {
    db.(operators := db.operators - {u}, totp := db.totp - {u}, codes := WithoutCodes(db.codes, u))
  }

  // ---------------------------------------------------------------- the repository

  datatype ConfirmOutcome = NoPendingEnrollment | Minted(codes: seq<string>)

  class OperatorMfaRepository {
    var operators: map<UserId, Operator>
    var totp: map<UserId, TotpRow>
    var codes: map<CodeId, RecoveryRow>
    var nextUser: UserId
    var nextTotp: TotpId
    var nextCode: CodeId

    function View(): Db
      reads this
    {
      Db(operators, totp, codes, nextUser, nextTotp, nextCode)
    }

    constructor ()
      ensures View() == EMPTY
    {
      operators, totp, codes := map[], map[], map[];
      nextUser, nextTotp, nextCode := 0, 0, 0;
    }

    method ReplaceRecoveryCodesIn(u: UserId, minted: seq<string>)
      modifies this`codes, this`nextCode
      ensures View() == ReplaceCodes(old(View()), u, minted)
    {
      hide NewRows;
      ghost var start := nextCode;
      codes := WithoutCodes(codes, u);
      ghost var kept := codes;
      assert minted[..0] == [];
      NoRows(kept, u, start);
      for i := 0 to |minted|
        invariant nextCode == start + i
        invariant codes == kept + NewRows(u, minted[..i], start)
      {
        InsertedRow(kept, u, minted, i, start);
        codes := codes[nextCode := RecoveryRow(u, minted[i], false)];
        nextCode := nextCode + 1;
      }
      assert minted[..|minted|] == minted;
    }

    method SetOperatorFlagIn(u: UserId, enabled: bool)
      modifies this`operators
      ensures View() == FlagOperator(old(View()), u, enabled)
      ensures u in old(operators) ==>
                operators == old(operators)[u := Operator(enabled, old(operators)[u].authzVersion + 1)]
      ensures u !in old(operators) ==> operators == old(operators)
    {
      if u in operators {
        operators := operators[u := Operator(enabled, operators[u].authzVersion + 1)];
      }
    }

    method BeginEnrollmentTx(u: UserId, secret: string)
      modifies this`totp, this`nextTotp
      ensures View() == BeginEnrollment(old(View()), u, secret)
      ensures u in operators ==>
                totp == old(totp)[u := TotpRow(old(nextTotp), secret, false, 0)] && nextTotp == old(nextTotp) + 1
      ensures u !in operators ==> totp == old(totp)
    {
      if u in operators {
        totp := totp - {u};
        totp := totp[u := TotpRow(nextTotp, secret, false, 0)];
        nextTotp := nextTotp + 1;
      }
    }

    method ConfirmTx(u: UserId, row: TotpId, step: nat, minted: seq<string>) returns (outcome: ConfirmOutcome)
      modifies this
      ensures View() == Confirm(old(View()), u, row, step, minted)
      ensures outcome == if u in old(totp) && old(totp)[u].id == row && !old(totp)[u].confirmed
                         then Minted(minted) else NoPendingEnrollment
      ensures outcome.Minted? ==>
                && u in old(totp) && totp == old(totp)[u := old(totp)[u].(confirmed := true, lastStep := step)]
                && (u in old(operators) ==>
                      operators == old(operators)[u := Operator(true, old(operators)[u].authzVersion + 1)])
      ensures outcome.NoPendingEnrollment? ==> View() == old(View())
    {
      if !(u in totp && totp[u].id == row && !totp[u].confirmed) {
        return NoPendingEnrollment;
      }
      totp := totp[u := totp[u].(confirmed := true, lastStep := step)];
      SetOperatorFlagIn(u, true);
      ReplaceRecoveryCodesIn(u, minted);
      outcome := Minted(minted);
    }

    method DisableTx(u: UserId)
      modifies this
      ensures View() == Disable(old(View()), u)
      ensures u !in totp && forall c :: c in codes ==> codes[c].user != u
      ensures u in old(operators) ==>
                operators == old(operators)[u := Operator(false, old(operators)[u].authzVersion + 1)]
    {
      totp := totp - {u};
      codes := WithoutCodes(codes, u);
      SetOperatorFlagIn(u, false);
    }

    method RegenerateTx(u: UserId, minted: seq<string>) returns (shown: Option<seq<string>>)
      modifies this
      ensures View() == Regenerate(old(View()), u, minted)
      ensures shown == if Confirmed(old(View()), u) then Some(minted) else None
      ensures shown.Some? && u in old(operators) ==>
                u in operators && operators[u].authzVersion == old(operators)[u].authzVersion + 1
                && operators[u].mfaEnabled == old(operators)[u].mfaEnabled
      ensures totp == old(totp)
    {
      if !(u in totp && totp[u].confirmed) {
        return None;
      }
      ReplaceRecoveryCodesIn(u, minted);
      if u in operators {
        operators := operators[u := Bump(operators[u])];
      }
      shown := Some(minted);
    }

    method ConsumeTotpStep(row: TotpId, u: UserId, step: nat) returns (accepted: bool)
      modifies this`totp
      ensures View() == ConsumeStep(old(View()), u, row, step)
      ensures accepted == CanConsumeStep(old(View()), u, row, step)
      ensures accepted <==> && u in old(totp) && old(totp)[u].id == row && old(totp)[u].confirmed
                            && old(totp)[u].lastStep < step
    {
      accepted := u in totp && totp[u].id == row && totp[u].confirmed && totp[u].lastStep < step;
      if accepted {
        totp := totp[u := totp[u].(lastStep := step)];
      }
    }

    method ConsumeRecoveryCodeRow(u: UserId, c: CodeId) returns (accepted: bool)
      modifies this`codes
      ensures View() == Burn(old(View()), u, c)
      ensures accepted == CanBurn(old(View()), u, c)
      ensures accepted <==> c in old(codes) && old(codes)[c].user == u && !old(codes)[c].used
      ensures codes == if accepted then old(codes)[c := RecoveryRow(u, old(codes)[c].code, true)] else old(codes)
    {
      accepted := c in codes && codes[c].user == u && !codes[c].used;
      if accepted {
        codes := codes[c := codes[c].(used := true)];
      }
    }

    /** The search in `consume_recovery_code`, over the unused rows of the user in query order. */
    method FindRecoveryRow(rows: seq<CodeId>, u: UserId, code: string) returns (hit: Option<CodeId>)
      requires forall c :: c in rows <==> CanBurn(View(), u, c)
      ensures hit.Some? ==> CanBurn(View(), u, hit.value)
                            && Normalize(codes[hit.value].code) == Normalize(code) != []
      ensures hit.Some? ==> exists i :: 0 <= i < |rows| && rows[i] == hit.value
                                       && forall k :: 0 <= k < i && rows[k] in codes ==>
                                            Normalize(codes[rows[k]].code) != Normalize(code)
      ensures hit.None? <==> Normalize(code) == [] || forall c :: CanBurn(View(), u, c) ==>
                                                        Normalize(codes[c].code) != Normalize(code)
    {
      var candidate := Normalize(code);
      if candidate == [] {
        return None;
      }
      assert forall k :: 0 <= k < |rows| ==> rows[k] in rows && CanBurn(View(), u, rows[k]);
      for i := 0 to |rows|
        invariant forall k :: 0 <= k < i ==> Normalize(codes[rows[k]].code) != candidate
      {
        if Normalize(codes[rows[i]].code) == candidate {
          return Some(rows[i]);
        }
      }
      return None;
    }
  }
}
