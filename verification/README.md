# Kraken UI: verified models

Dafny models of the parts of Kraken UI that hold state or transform text, with proofs over every
run, every interleaving or every input. `dafny verify dfyconfig.toml` checks all of it.

| file | what it models | main results |
|---|---|---|
| `Gcra.dfy` | the persistent GCRA limiter, its SQLite and Redis forms, two limiters on one table | token-bucket refinement, admission bound, exact retry, both backends decide alike |
| `Redaction.dfy`, `RedactionRules.dfy` | the redaction scanner | lossless segmentation, noninterference, idempotence; rules that fix the output of every text |
| `MfaStore.dfy`, `MfaProtocol.dfy`, `MfaRecovery.dfy`, `MfaAcceptance.dfy`, `MfaLifecycle.dfy` | the TOTP and recovery-code tables, racing verifiers, enrolment transactions | one-time steps and single-use recovery rows over every interleaving, accepted exactly when unused, conservation of recovery codes, and exactly when |
| `Sessions.dfy`, `Console.dfy`, `OperatorStore.dfy` | session records, the sign-in and operator machine, the handlers that write operators | the steps the next five files reason about |
| `SignInTrace.dfy`, `SignInPaths.dfy` | every run of the machine | a grant traces back to a valid sign-in with its factors; what a sign-in leads to and how long it lasts |
| `EpochSafety.dfy` | every run of the machine | a grant rests on a role and an epoch that have not changed since they were read; the whole row, and exactly when |
| `Administrators.dfy` | every run of the machine | an administrator stays, `first_time` stays closed, and exactly when each |
| `Races.dfy` | two runs from the start | a stale enrolment under a live grant; `first_time` consumed twice |
| `IpConcurrency.dfy` | the per-address semaphores | refinement to a plain counter, sweeps invisible |
| `LoginThrottle.dfy`, `ThrottleLocks.dfy`, `FailureMonitor.dfy` | the login throttle and the account monitor | pruning invisible, and exactly when; exact locks and answers; bound on failures; exact alerts |
| `Overlay.dfy`, `OverlayRules.dfy` | installing a release over a checkout | the operator's paths, by name, survive every outcome; exact result and success, and exactly when |
| `LikeSearch.dfy`, `Csv.dfy`, `HumanDuration.dfy` | LIKE escaping, the CSV export, the duration parser | substring search, round trips, grammar |

The model has the source's shape: what the source updates in place is a class whose methods are
proved against a function of the old state, and the theorems are about runs of that function.
Concurrency is a machine whose events are the atomic steps (a transaction, a lock section, a
session write); a request is several events and any events of other requests may come between.
Clocks, randomness, cryptography, I/O faults, Unicode tables and the list of sensitive words are parameters.

Where the code does not have a property its design suggests, the exact condition is proved and a
failing input is given:

- Release overlay: `exists()` follows links, so a dangling symbolic link at a release file path is
  not refused and `fs::copy` writes through it. A successful copy stays inside the root if and only
  if no release file path holds a link that ends outside (`Overlay.StaysInsideIff`,
  `Overlay.DanglingLinkEscapes`).
- Release overlay, protected paths: the same link can end inside a protected directory. What is
  there is never touched, but a new file appears; a successful copy leaves all protected paths
  alone if and only if no release file path holds a link that ends at one
  (`Overlay.OwnedUnchangedIff`, `Overlay.DanglingLinkIntrudes`).
- Two-factor tables: the console's not-enabled check and `begin_enrollment` are separate steps.
  The tables stay consistent if and only if no enrolment is committed after its check went stale
  (`MfaLifecycle.LifecycleIsConserved`, `MfaLifecycle.EnrolmentRace`).
- Authorization epochs: that stale enrolment removes a confirmed authenticator without raising the
  epoch, so grants go on and the next sign-in needs no second factor. Role and epoch never change
  under a grant; the whole row does not either if and only if there was no such enrolment
  (`EpochSafety.WholeRowIsCurrentIff`, `EpochSafety.ChangeRevokesIff`, `Races.StaleEnrolment`).
- Administrators: the guard and the write are separate steps, so two administrators can delete each
  other. An administrator stays if and only if every write that strips one leaves another
  (`Administrators.AlwaysStaffedIff`).
- `first_time`: for the same reason it can be consumed twice. It stays closed if and only if no write
  deletes the only remaining operator (`Administrators.FirstTimeStaysClosedIff`,
  `Races.FirstTimeReopens`).
- GCRA: the wait and the TAT never saturate, the expiry of a row does if and only if it does not fit
  64 bits (`Gcra.OnlyExpirySaturates`, `Gcra.ExpirySaturates`); no decision depends on it.
- Login throttle: pruning drops unlocked records after one hour whatever the window is; it is
  invisible if and only if the window is at most an hour or one failure locks
  (`LoginThrottle.PruningInvisibleIff`). The comment at `src/security/rate_limit.rs:12` speaks of a
  sliding window; the code has fixed windows that open at a failure, and the model follows the code.
- CSV: a one-column table whose last row prints as nothing loses that row, and a table without
  columns cannot be read back (`Csv.CsvRoundTripIff`).

## Model

| member | source | states |
|---|---|---|
| Gcra.NewRateExact | src/services/rate_limit.rs:232-247 | a rate exists exactly for 1 to 1,000,000 requests per second and a positive burst; the checked product never overflows; the capacity is the burst times the truncated interval |
| Gcra.KeySpacesAreDisjoint | src/controllers/auth.rs:115-133 | the `login:` prefix keeps the rows of the two limiters that share a table apart |
| Gcra.SqliteBackend.Check | src/services/rate_limit.rs:297-346 | the transaction (purge when due, read, decide, write) equals the decision function on rows, saturation included |
| Gcra.RedisBackend.Check | src/services/rate_limit.rs:25-39 | the script equals its decision function on stored keys and deadlines |
| Gcra.SqliteRefinesTokenBucket | src/services/rate_limit.rs:313-345 | for every run on a shared table with purges at any check and two rates, the decisions and waits of each key are those of a private token bucket, which knows no saturation |
| Gcra.OnlyExpirySaturates | src/services/rate_limit.rs:327-335 | in every reachable table a check's decision, wait and new TAT are exact; the expiry is exact exactly when the new TAT plus the tolerance fits 64 bits |
| Gcra.ExpirySaturates | src/services/rate_limit.rs:335-336 | two checks of one key whose second expiry saturates |
| Gcra.ReachableTat | src/services/rate_limit.rs:319-345 | in every reachable table each row is at most one full bucket ahead of the clock |
| Gcra.AdmissionBound | src/services/rate_limit.rs:232-247 | over every run, any interval of T microseconds admits at most burst + T / interval checks of a key |
| Gcra.FreshKeyBurst | src/services/rate_limit.rs:319-345 | any number of checks of a fresh key at one instant: exactly the first burst of them pass |
| Gcra.RejectionKeepsRow | src/services/rate_limit.rs:327-335 | a rejection leaves its row as it was and asks for a wait between one microsecond and one interval |
| Gcra.RetryIsExact | src/services/rate_limit.rs:327-335 | over every run, a retry after a rejection is admitted exactly from the reported wait on, and an earlier one is told what remains |
| Gcra.BackendsDecideAlike | src/services/rate_limit.rs:398-413 | SQLite and Redis decide alike on every run, whichever rows are purged and whichever expired keys are gone; only the wait is rounded up to milliseconds |
| Redaction.SkipRun | src/security/redact.rs:159-200 | the index stops at the end of the longest run of a character class |
| Redaction.RedactQuoted | src/security/redact.rs:118-150 | a quoted value up to the next same quote, masked unless empty, unterminated values included |
| Redaction.RedactValue | src/security/redact.rs:118-150 | a quoted value or a bare one up to a terminator, masked unless empty, and the scan resumed after it |
| Redaction.RedactParam | src/security/redact.rs:182-192 | name, gap, delimiter and blanks verbatim, then the value masked |
| Redaction.RedactSegment | src/security/redact.rs:159-200 | one round of the scan equals reading one segment and printing it masked |
| Redaction.RedactSensitiveValues | src/security/redact.rs:159-200 | the scanner's output is the printed segmentation with every sensitive value masked |
| Redaction.ScanIsLossless | src/security/redact.rs:159-200 | printing the segmentation of any input gives the input back, and the segmentation follows the grammar |
| Redaction.ScanInvertsPrint | src/security/redact.rs:159-200 | scanning inverts printing on every segmentation that follows the grammar |
| Redaction.LookaheadIsBlind | src/security/redact.rs:176-182 | the lookahead for a delimiter never depends on the content of a sensitive value |
| Redaction.RedactionHidesSecrets | src/security/redact.rs:118-150 | inputs that differ only in non-empty sensitive values of the same form give the same output |
| Redaction.OutputsAgreeIffMasksAgree | src/security/redact.rs:159-200 | two outputs are equal exactly when the two segmentations are equal once masked |
| Redaction.RescanFindsMask | src/security/redact.rs:159-200 | scanning an output finds the same parameters, masked |
| Redaction.RedactionIsIdempotent | src/security/redact.rs:159-200 | redacting twice is redacting once |
| Redaction.UnchangedIffNothingToHide | src/security/redact.rs:159-200 | the input comes back unchanged exactly when every sensitive value is empty or already the placeholder |
| RedactionRules.TrimSpaceExact | src/security/redact.rs:89-91 | trimming a key removes the white space around it, and all of it |
| RedactionRules.TrimQuotesExact | src/security/redact.rs:89-91 | then the quotes around it, and all of them |
| RedactionRules.SensitiveIff | src/security/redact.rs:88-97 | a key is sensitive exactly when, trimmed and lower-cased, it reads a + w + b with w a listed word |
| RedactionRules.OtherCharacter | src/security/redact.rs:163-169 | a character outside names is kept, whatever follows |
| RedactionRules.UnlistedName | src/security/redact.rs:193-197 | a name without a listed word is kept and the scan goes on right after it |
| RedactionRules.NameWithoutDelimiter | src/security/redact.rs:176-182 | a name that no `=` or `:` follows, past blanks and quotes, is kept |
| RedactionRules.BareValue | src/security/redact.rs:138-149 | after a listed name a bare value becomes `+++++` up to the first of the fifteen ending characters, which are spelled out |
| RedactionRules.MissingValue | src/security/redact.rs:138-149 | a missing value stays missing |
| RedactionRules.QuotedValue | src/security/redact.rs:123-137 | a quoted value becomes `+++++` up to the next same quote; an empty one stays empty |
| RedactionRules.UnclosedValue | src/security/redact.rs:123-137 | a quoted value that is never closed is masked to the end |
| RedactionRules.EveryTextHasARule | src/security/redact.rs:159-200 | every text that is not empty starts with a segment that one of these rules is about |
| MfaStore.VerifyTotpCodeExact | src/models/operator_mfa_repository.rs:518-535 | the matched step is within one of the clock's, the current step wins, then the previous one, and a code is refused exactly when none of the three steps takes it |
| MfaStore.NormalizeParts | src/models/operator_mfa_repository.rs:552-558 | recovery codes are normalised character by character |
| MfaStore.NormalizeCharacter | src/models/operator_mfa_repository.rs:552-558 | ASCII letters become capitals, digits stay, everything else goes |
| MfaStore.ReplacedRows | src/models/operator_mfa_repository.rs:375-408 | the minted codes, unused and in order, are the account's only rows; other accounts keep theirs |
| MfaStore.OperatorMfaRepository.ReplaceRecoveryCodesIn | src/models/operator_mfa_repository.rs:375-408 | the loop replaces exactly the account's rows by fresh unused ones with new ids |
| MfaStore.OperatorMfaRepository.SetOperatorFlagIn | src/models/operator_mfa_repository.rs:457-482 | sets the flag and increments the epoch of that operator only |
| MfaStore.OperatorMfaRepository.BeginEnrollmentTx | src/models/operator_mfa_repository.rs:126-176 | replaces whatever row the account has by a new unconfirmed one under a new id |
| MfaStore.OperatorMfaRepository.ConfirmTx | src/models/operator_mfa_repository.rs:207-259 | confirms the pending row it read, records the step, mints codes and sets the flag, or changes nothing |
| MfaStore.OperatorMfaRepository.DisableTx | src/models/operator_mfa_repository.rs:263-286 | removes the account's row and codes, clears the flag, increments the epoch |
| MfaStore.OperatorMfaRepository.RegenerateTx | src/models/operator_mfa_repository.rs:290-323 | mints new codes for a confirmed account and increments the epoch, or changes nothing |
| MfaStore.OperatorMfaRepository.ConsumeTotpStep | src/models/operator_mfa_repository.rs:345-373 | compare-and-set: succeeds exactly when the row is still that confirmed one with a smaller step |
| MfaStore.OperatorMfaRepository.FindRecoveryRow | src/models/operator_mfa_repository.rs:410-435 | the first unused row of the account, in query order, that the code opens; none exactly when no unused row does or the code is empty |
| MfaStore.OperatorMfaRepository.ConsumeRecoveryCodeRow | src/models/operator_mfa_repository.rs:437-455 | marks a row used exactly when it is still there and unused |
| MfaProtocol.AcceptedStepsIncrease | src/models/operator_mfa_repository.rs:327-373 | over every interleaving, the steps accepted on one enrolment strictly increase from above the confirming step (section 5.2 of RFC 6238) |
| MfaProtocol.AcceptancesPerWindow | src/models/operator_mfa_repository.rs:345-373 | codes of one enrolment checked while the clock's step is in a..b are accepted at most b - a + 3 times |
| MfaProtocol.RowNeverReturns | src/models/database.rs:112-158 | a deleted enrolment never comes back in any run |
| MfaProtocol.StaleRequestIsRefused | src/models/operator_mfa_repository.rs:207-259 | a verifier or confirmation whose enrolment is gone changes nothing, whatever was enrolled since |
| MfaRecovery.RecoveryRowsAreSpentOnce | src/models/operator_mfa_repository.rs:437-455 | however many verifiers race, a recovery row is accepted at most once in any run |
| MfaRecovery.StaleRowIsRefused | src/models/operator_mfa_repository.rs:410-455 | a verifier that matched a row which is used or gone burns nothing, whatever was minted since |
| MfaAcceptance.StepIsAcceptedIff | src/models/operator_mfa_repository.rs:345-373 | over every run a matched step is accepted exactly when its enrolment is still in the table, confirmed, and the step is above the confirming one and every one accepted on it |
| MfaAcceptance.FreshCodeIsAcceptedIff | src/models/operator_mfa_repository.rs:327-343 | a code that the authenticator takes at step k is accepted exactly when k is above everything used on the enrolment |
| MfaAcceptance.ConfirmationCommitsIff | src/models/operator_mfa_repository.rs:207-259 | a matched confirmation commits exactly when its row is still in the table and was never confirmed |
| MfaAcceptance.RowIsAcceptedIff | src/models/operator_mfa_repository.rs:437-455 | over every run a matched recovery row is accepted exactly when it is still in the table and was never accepted |
| MfaAcceptance.RowIsMatchedIff | src/models/operator_mfa_repository.rs:410-435 | a recovery code of its owner is matched exactly when its row is in the table and was never accepted |
| MfaLifecycle.BeginKeepsLifecycleIff | src/models/operator_mfa_repository.rs:126-176 | an enrolment that passed the console's check keeps an account consistent exactly when no row of it has been confirmed since |
| MfaLifecycle.StepKeepsLifecycleIff | src/models/operator_mfa_repository.rs:249-323 | every step, committed or aborted, keeps flag, row and recovery codes consistent for every account exactly when it is not such a stale enrolment |
| MfaLifecycle.RunConsistentIff | src/models/operator_mfa_repository.rs:375-455 | from any consistent state, every state of a run is consistent exactly when no stale enrolment is committed |
| MfaLifecycle.LifecycleIsConserved | src/models/operator_mfa_repository.rs:249-323 | the same over every run from the start: flag iff confirmed row, exactly 10 codes, unused ones equal 10 minus those burned |
| MfaLifecycle.PromptRunsAreConsistent | src/controllers/mfa.rs:99-112 | with the check and the enrolment as one step, every state of every run is consistent |
| MfaLifecycle.EnrolmentRace | src/controllers/mfa.rs:99-112 | a run from the start in which a request passes the not-enabled check before another one's confirmation and commits after it: the flag is on without a confirmed row |
| Sessions.SessionStore.EstablishSession | src/controllers/auth.rs:319-333 | rotates the id and records identity and the three timestamps; other keys stay |
| Sessions.SessionStore.SyncSessionIdentity | src/controllers/auth.rs:342-373 | records user, role and epoch; timestamps stay |
| Sessions.SessionStore.MfaPendingUserId | src/controllers/auth.rs:403-430 | the pending user if the marker is at most 300 seconds old; a stale marker is cleared |
| Sessions.SessionStore.ClearMfaPending | src/controllers/auth.rs:433-449 | removes both marker keys and nothing else |
| Sessions.SessionStore.AuthorizedRole | src/controllers/auth.rs:512-553 | grants exactly on a complete, unexpired session whose role and epoch are the operator's; otherwise the session is flushed |
| Sessions.SessionStore.RotateSessionIdIfDue | src/controllers/auth.rs:555-570 | cycles the id after 15 minutes and keeps every other key |
| OperatorStore.OperatorRepository.Create | src/models/operator_repository.rs:90-131 | a new row under an id never used before, epoch 0 |
| OperatorStore.OperatorRepository.Update | src/models/operator_repository.rs:133-205 | the new role with the epoch one higher, or an error and no change if the row is gone |
| OperatorStore.OperatorRepository.UpdatePassword | src/models/operator_repository.rs:253-295 | the epoch one higher, the rest of the row as it was |
| OperatorStore.OperatorRepository.DeleteById | src/models/operator_repository.rs:297-303 | removes that row only and counts it |
| OperatorStore.OperatorRepository.InsertUserAction | src/controllers/acl.rs:136-155 | the write is the machine's step for the action |
| OperatorStore.OperatorRepository.DeleteUserAction | src/controllers/acl.rs:193-216 | refuses the actor's own account and unknown ids; otherwise the machine's step |
| OperatorStore.OperatorRepository.UpdateUserAction | src/controllers/acl.rs:256-333 | refuses the actor's own demotion and unknown ids; otherwise the machine's step |
| OperatorStore.OperatorRepository.FirstTime | src/controllers/setup.rs:87-135 | creates an administrator exactly when the table is empty and the form valid |
| OperatorStore.OperatorRepository.BootstrapAdministrator | src/app.rs:374-407 | creates an administrator unless the name is taken or no usable password is configured |
| SignInTrace.StepKeepsTrace | src/controllers/auth.rs:193-232 | every step of the machine keeps every session tied to the log entries behind it |
| SignInTrace.PasswordsAreWitnessed | src/controllers/auth.rs:193-200 | in every run a password is logged as owing a second factor exactly when the account had a confirmed authenticator in the table just before |
| SignInTrace.GrantsAreSignedIn | src/controllers/auth.rs:512-553 | whenever the guard grants u, in any run, that session's last sign-in was for u, less than the limit ago, after u's accepted password there; if the table then had u's confirmed authenticator, also with u's second factor submitted there at most 300 s later, and only otherwise without |
| SignInPaths.AfterPassword | src/controllers/auth.rs:196-230 | an account with a confirmed authenticator is parked with a marker and has no other way on; any other goes on to sign in |
| SignInPaths.CodeIsLookedAtIff | src/controllers/auth.rs:403-430 | a code is looked at exactly up to 300 s after the password; later the marker is cleared |
| SignInPaths.CodeOfNobody | src/controllers/auth.rs:280-286 | if the account is gone the session is flushed |
| SignInPaths.AcceptedCodeSignsIn | src/controllers/auth.rs:286-312 | an accepted code leads to a granted session without a marker |
| SignInPaths.GrantedIff | src/controllers/auth.rs:512-553 | the guard grants a role exactly on a session of an existing operator with that role and epoch, before the limit |
| SignInPaths.GrantLasts | src/controllers/auth.rs:527-553 | a granted session stays granted, whatever the rotations, until the limit after its sign-in, and is flushed from then on |
| SignInPaths.OthersAreTurnedAway | src/middleware/authentication.rs:54-68 | an administrator's request by another role goes nowhere |
| SignInPaths.LogoutEnds | src/controllers/auth.rs:451-466 | logging out ends the grant |
| SignInPaths.ReauthenticationIsRecorded | src/controllers/auth.rs:375-379 | re-authentication writes its time and nothing else |
| SignInPaths.OwnSessionIsKept | src/controllers/acl.rs:404-470 | changing the own password or details keeps the session that did it and no session of the earlier epoch |
| SignInPaths.TwoFactorChangeIsFollowed | src/controllers/mfa.rs:289-300 | confirming, disabling or renewing codes keeps the session that did it |
| EpochSafety.StepEvolves | src/models/operator_repository.rs:156-205 | every step leaves role and epoch of a row alone or raises its epoch, and no id is ever reused |
| EpochSafety.RowChangesBumpEpochIff | src/models/operator_mfa_repository.rs:457-502 | in every reachable state a step that changes a row increments its epoch exactly when it is not a stale enrolment |
| EpochSafety.PromptEnrolmentReplacesNothing | src/controllers/mfa.rs:99-112 | an enrolment passes its check exactly when the account is off, and written at once it replaces nothing |
| EpochSafety.GrantRestsOnCurrentAuthority | src/controllers/auth.rs:538-550 | whenever the guard grants, in any run, the operator's role and epoch have been the same at every step since the read behind the session's identity |
| EpochSafety.WholeRowIsCurrentIff | src/controllers/mfa.rs:99-112 | under a grant the whole row has been the same since that read exactly when no stale enrolment of the operator was written since |
| EpochSafety.RevocationIsForEver | src/controllers/auth.rs:148-230 | after a step that changes or removes u's row and is not a stale enrolment, no session that rests on an earlier read is ever granted, logins finishing after the step included |
| EpochSafety.ChangeRevokesIff | src/controllers/auth.rs:538-550 | a step that changes or removes u's row ends u's grants at once exactly when it is not a stale enrolment |
| EpochSafety.WriteIsExact | src/controllers/acl.rs:136-155 | the role, epoch and two-factor state each action leaves in the table, and that no other row changes |
| EpochSafety.AuthorityWritesRevoke | src/controllers/acl.rs:404-470 | writing a password, confirming or disabling two-factor, new recovery codes, a role or a deletion ends every grant that rests on an earlier read of that account, for ever |
| Races.StaleEnrolment | src/controllers/mfa.rs:99-112 | a run from the start, without any disabling, after which a session is granted although the row behind it lost its authenticator, and the operator signs in with a password alone |
| Administrators.WriteKeepsAdminIff | src/controllers/acl.rs:196-211 | a write keeps an administrator exactly when it strips nobody or another administrator remains |
| Administrators.StepKeepsAdminIff | src/controllers/acl.rs:271-279 | the same for every step of the machine; no step on a staffed table consumes `first_time` |
| Administrators.AlwaysStaffedIff | src/controllers/acl.rs:196-211 | a run has an administrator in every state exactly when all its writes leave one |
| Administrators.SerialIsTimely | src/middleware/authentication.rs:54-68 | with administrators' requests as single steps and all others interleaved, whoever writes an administrator's action still is one |
| Administrators.AdministratorPersists | src/controllers/setup.rs:87-135 | with administrators' requests as single steps and all others interleaved, in every run the table is empty or has an administrator, at most one account comes from `first_time`, and once there is an operator both stay so for ever |
| Administrators.StepStaysClosedIff | src/controllers/setup.rs:87-97 | a step from a table that is not empty empties it exactly when it deletes the only remaining operator, and creates nothing through `first_time` |
| Administrators.AlwaysClosedIff | src/controllers/setup.rs:87-97 | `first_time` is closed in every state of a run exactly when no write deletes the only remaining operator |
| Administrators.FirstTimeStaysClosedIff | src/controllers/setup.rs:87-135 | from the start, it is closed from the first operator on exactly then, and then creates at most one account |
| Races.DeletionRace | src/controllers/acl.rs:193-216 | two administrators let through before either writes empty the table |
| Races.FirstTimeReopens | src/controllers/setup.rs:87-135 | a run from the start that consumes `first_time` twice |
| IpConcurrency.IpConcurrencyLimiter.Semaphore | src/middleware/rate_limit.rs:47-65 | the lookup, with its sweep, is the machine's step |
| IpConcurrency.IpConcurrencyLimiter.TryAcquireOwned | src/middleware/rate_limit.rs:86-95 | succeeds exactly when the address has fewer than the maximum of live permits |
| IpConcurrency.IpConcurrencyLimiter.ReleasePermit | src/middleware/rate_limit.rs:93-95 | gives the permit back to the semaphore it came from |
| IpConcurrency.IpConcurrencyLimiter.DropReference | src/middleware/rate_limit.rs:86-95 | a dropped handle only loses its reference |
| IpConcurrency.StepKeepsInv | src/middleware/rate_limit.rs:47-65 | every step keeps all live handles of an address on the one semaphore in the map, with permits and availability adding up |
| IpConcurrency.RunRefines | src/middleware/rate_limit.rs:47-65 | every run grants and refuses as a counter of live permits per address |
| IpConcurrency.SweepsAreInvisible | src/middleware/rate_limit.rs:52-58 | the same from the empty limiter, with sweeps every 1024 calls |
| IpConcurrency.CeilingHolds | src/middleware/rate_limit.rs:86-95 | in every reachable state no address exceeds the maximum, and an acquisition is refused exactly at it |
| LoginThrottle.Throttle.LockedForAt | src/security/rate_limit.rs:67-79 | the answer and the dropped record are those of the step function |
| LoginThrottle.Throttle.RecordFailureAt | src/security/rate_limit.rs:81-115 | pruning, window, count and lock are those of the step function |
| LoginThrottle.Throttle.RecordSuccess | src/security/rate_limit.rs:61-65 | clears the key and no other |
| LoginThrottle.IndependentWhenSafe | src/security/rate_limit.rs:120-125 | each key's answers are those of an unpruned automaton fed only that key's operations |
| LoginThrottle.PruningInvisibleIff | src/security/rate_limit.rs:120-125 | pruning is invisible to every key in every run exactly when the window is at most an hour or one failure locks |
| LoginThrottle.PrunedTooEarly | src/security/rate_limit.rs:120-125 | the runs that tell the pruned throttle from the unpruned one |
| LoginThrottle.FailureBound | src/security/rate_limit.rs:81-115 | without a success any span T holds at most max_failures * (T / window + 2) counted failures of a key |
| ThrottleLocks.AnswersAreTold | src/security/rate_limit.rs:67-115 | over every run of the pruned throttle each answer to a key follows from the times of that key's own operations |
| ThrottleLocks.CountIsFailures | src/security/rate_limit.rs:102-107 | the count of an open window is the number of failures since its opener, all inside the window, below the limit, without a success |
| ThrottleLocks.LocksIff | src/security/rate_limit.rs:102-113 | a failure locks exactly when it is the max_failures-th of its window, which it opens itself after a success, a lock or more than a window |
| ThrottleLocks.LockHolds | src/security/rate_limit.rs:67-79 | after a lock at t, without a success, every question and failure before t + lockout is told what remains of it and counts nothing |
| ThrottleLocks.LockEnds | src/security/rate_limit.rs:92-100 | from t + lockout on a question is told nothing and a failure is the first of a new window |
| ThrottleLocks.SuccessClears | src/security/rate_limit.rs:61-65 | after a success nothing is held against the key |
| FailureMonitor.AccountFailureMonitor.NoteFailureAt | src/security/rate_limit.rs:169-195 | the map and the answer are those of the step function |
| FailureMonitor.AlertIff | src/security/rate_limit.rs:169-195 | in every run a failure alerts exactly when it is the threshold-th of its account's window, counted in that account's own times |
| FailureMonitor.OneAlertPerWindow | src/security/rate_limit.rs:163-167 | two alerts of one account in one run belong to windows that do not overlap |
| Overlay.SourceRoot.EnsureDestinationSafe | src/services/source_update.rs:517-540 | true exactly when no existing component below the root is a link |
| Overlay.SourceRoot.CopyDirectory | src/services/source_update.rs:484-515 | the recursive copy, faults at any entry included, equals the copy function on disks |
| Overlay.SourceRoot.CopyOne | src/services/source_update.rs:490-513 | one entry: refused, skipped, created or written, as the copy function says |
| Overlay.LastDot | src/services/source_update.rs:560-563 | the last dot of a name, or none |
| Overlay.CopyDir | src/services/source_update.rs:484-515 | whatever happens no node disappears, only files change content and no link appears |
| Overlay.CopyIsAccounted | src/services/source_update.rs:484-515 | for every outcome, each path is as before, or placed by the release, or the end of a link at a placed file |
| Overlay.OwnedSurvives | src/services/source_update.rs:542-563 | however the copy ends, every protected path and everything below one, present or absent, is as it was, unless it was absent and a link at a release file path ends at it |
| Overlay.OwnedUnchangedIff | src/services/source_update.rs:542-563 | a successful copy leaves all protected paths as they were exactly when no release file path holds a link that ends at one |
| Overlay.DanglingLinkIntrudes | src/services/source_update.rs:526-531 | a checkout and a release whose copy creates a file in the protected `conf` and nothing outside the root |
| Overlay.OnlyPlacedFilesChange | src/services/source_update.rs:484-515 | however the copy ends, a node changes only if it is a file that the release places |
| Overlay.StaysInside | src/services/source_update.rs:517-540 | however the copy ends, nothing outside the root changes if no release file path holds a link that ends outside |
| Overlay.StaysInsideIff | src/services/source_update.rs:517-540 | for a successful copy, exactly then |
| Overlay.DanglingLinkEscapes | src/services/source_update.rs:526-531 | a checkout and a release whose copy creates a file outside the root |
| Overlay.PlacedLater | src/services/source_update.rs:553-555 | the existence test during the copy answers as it would on the initial tree |
| Overlay.CopyIsExactIff | src/services/source_update.rs:484-515 | a successful copy gives every unprotected release path its release node, judged on the initial tree, and leaves all else, exactly when no such path held a link |
| OverlayRules.ProtectedIff | src/services/source_update.rs:542-563 | a path is protected exactly when its first component is one of the seven names or it exists with one of the six endings after a non-empty stem |
| OverlayRules.OperatorPathsSurvive | src/services/source_update.rs:542-563 | however the copy ends, a path at or below those names is as it was, unless it was absent and a link at a shipped file's path ends at it |
| OverlayRules.OtherPathsAreShipped | src/services/source_update.rs:484-515 | on a tree without links a successful copy gives every other shipped file and directory its shipped node, and leaves the rest as it was |
| OverlayRules.CopySucceedsIff | src/services/source_update.rs:484-540 | without faults, on a tree without links, the copy succeeds exactly when no shipped link is met and no file and directory stand in each other's way, judged on the initial tree |
| LikeSearch.EscapeLike | src/security/sanitize.rs:26-35 | the loop computes the escaped term |
| LikeSearch.EscapedIsLiteral | src/security/sanitize.rs:26-35 | an escaped term followed by a percent matches exactly the texts that start with the term, up to ASCII case |
| LikeSearch.LikeContainsIsSubstringSearch | src/models/mod.rs:30-32 | for every term and text, the pattern matches exactly when the term occurs in the text, up to ASCII case |
| Csv.FieldRoundTrip | src/view/static/app.js:302-305 | any field, with commas, quotes, CR and LF, is read back exactly and the rest left unread |
| Csv.RecordRoundTrip | src/view/static/app.js:307-311 | any line is read back as its fields |
| Csv.FileRoundTrip | src/view/static/app.js:307-311 | what a reader for section 2 of RFC 4180 makes of any printed list of records |
| Csv.CsvRoundTripIff | src/view/static/app.js:302-311 | reading an export gives back header and fields exactly when it has two columns or more, or one column and a last row that prints as something |
| Csv.UnquotedIff | src/view/static/app.js:302-305 | a field is left unquoted exactly when it has no comma, quote, CR or LF |
| Csv.RecordsAre | src/view/static/app.js:307-311 | the header holds the headings in column order, each row the values of its keys, with nothing for null and absent ones |
| HumanDuration.ParseHumanDurationSeconds | src/config.rs:193-233 | the loop computes the parse function, with its five errors in the code's order |
| HumanDuration.ParsesIff | src/config.rs:193-233 | parsing gives n exactly when the trimmed text without ASCII whitespace is one or more digits-then-unit groups that total n, and n fits 64 bits |
| HumanDuration.FailsIff | src/config.rs:193-233 | parsing fails with an error exactly when groups that fit are followed by what that error names |
| HumanDuration.ShowThenParse | src/config.rs:193-233 | printing any 64-bit total as hours, minutes and seconds and parsing it gives the total back |
| HumanDuration.ComponentThenParse | src/config.rs:212-219 | one number with any of the six unit letters parses to that many seconds, minutes or hours |
| HumanDuration.UnitSecondsIff | src/config.rs:212-219 | the units are s, m and h in either case, and nothing else |
| HumanDuration.TrimExact | src/config.rs:197-197 | trimming removes the white space around a text, and all of it |
| HumanDuration.CompactParts | src/config.rs:202-204 | white space inside is dropped character by character |
| HumanDuration.CompactCharacter | src/config.rs:202-204 | exactly the five ASCII white-space characters are dropped |

## Left out

- HTTP parsing and rendering, CSRF tokens, templates, styles and the rest of `app.js`: user interface.
- Argon2id, XChaCha20-Poly1305, BLAKE2b, HOTP and base64: password and code checks are parameters.
- Limiter backend errors, `fail_open`, Redis connections and SQLite locking: checks are atomic steps that succeed.
- Redis numbers: Lua numbers are doubles, exact below 2^53, and the model uses integers; a key lives at least as long as its TTL.
- The Retry-After header, which floors the wait to whole seconds, and `effective_client_ip`.
- Concurrent requests on one session record: the model serves one session's requests one after the other; logins still race with writes to operators.
- Expiry of session records in the store: any session may be flushed between its requests.
- Pending enrolments in the session machine: a confirmation may succeed there whenever no authenticator is confirmed; the two-factor files model the pending rows.
- Uniqueness of usernames and email addresses: a write the database refuses is a request abandoned before its write.
- Passwords: a row read for a login is one whose password matched; the password is accepted, and its time is taken, when the handler has asked whether two-factor is enabled.
- Rehashing of a password at sign-in: it changes neither role nor epoch.
- Widths of the epoch, the failure counters and row ids: they count as natural numbers.
- A code that is a live TOTP code is never tried as a recovery code in the source; the protocol machine allows either reading.
- Uniqueness of recovery-code strings: codes are random, so single use is per row.
- Permissions and file metadata in the overlay; a destination changed by another process during the copy; the root is an existing directory given by its physical path.
- GitHub download, tar and gzip decoding, cargo build and process restart: I/O and foreign tools.
- Metrics client, rule management, secret-file loading, pagination, password policy and header parsing: they would only add easy members.
- Texts with U+0000 in LIKE, and LIKE on non-text values: database behaviour.
- Gcra.NewRateExact: the rate is stated in microseconds per request, because the division by requests per second truncates.
