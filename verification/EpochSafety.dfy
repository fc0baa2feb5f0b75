/**
  Authorization epochs. Whatever a session was told about its operator may be out of date; a grant
  never is: the operator's role and epoch have not changed since the read behind the session's
  identity. The whole row has not changed either, unless a stale enrolment removed its authenticator.
*/
module EpochSafety {
  import opened Wrappers
  import opened Sessions
  import opened Console

  /** The operators table after each step. */
  function History(limit: nat, s: Sys, es: seq<Event>): (h: seq<Operators>)
    ensures |h| == |es|
    decreases |es|
  {
    if es == [] then []
    else var t := Next(limit, s, es[0]); [t.operators] + History(limit, t, es[1..])
  }

  predicate SameAuthority(a: OperatorRow, b: OperatorRow) { a.role == b.role && a.version == b.version }

  /** From step `k` on, `u` is there with the role and epoch of `row`. */
  ghost predicate Steady(h: seq<Operators>, k: nat, u: UserId, row: OperatorRow) {
    forall j :: k <= j < |h| ==> u in h[j] && SameAuthority(h[j][u], row)
  }

  /** From step `k` on, the row of `u` is `row`. */
  ghost predicate Unchanged(h: seq<Operators>, k: nat, u: UserId, row: OperatorRow) {
    forall j :: k <= j < |h| ==> u in h[j] && h[j][u] == row
  }

  /** A row of `u` with epoch `v` was read at step `k`: if that epoch is still current, role and
      epoch have been the same since. */
  ghost predicate Stamp(h: seq<Operators>, s: Sys, u: UserId, v: nat, k: nat) {
    && k < |h| && u < s.nextUser
    && (u in s.operators ==>
          && v <= s.operators[u].version
          && (v == s.operators[u].version ==> Steady(h, k, u, s.operators[u])))
  }

  ghost predicate SnapInv(h: seq<Operators>, s: Sys, snap: Snapshot) {
    Stamp(h, s, snap.user, snap.row.version, snap.readAt)
  }

  ghost predicate IdentityInv(h: seq<Operators>, s: Sys, slot: Slot) {
    slot.data.userId.Some? && slot.data.version.Some? ==>
      Stamp(h, s, slot.data.userId.value, slot.data.version.value, slot.syncedFrom)
  }

  predicate HoldsSnap(f: Flight) {
    f.LoginRead? || f.LoginCleared? || f.ChallengeRead? || f.ChallengePassed? || f.Refreshing?
  }

  ghost predicate SlotInv(h: seq<Operators>, s: Sys, slot: Slot) {
    && IdentityInv(h, s, slot)
    && (slot.flight.Some? && HoldsSnap(slot.flight.value) ==> SnapInv(h, s, slot.flight.value.snap))
  }

  ghost predicate SlotsInv(h: seq<Operators>, s: Sys) {
    forall sid :: sid in s.slots ==> SlotInv(h, s, s.slots[sid])
  }

  ghost predicate EpochInv(h: seq<Operators>, s: Sys) { |h| == s.steps && IdsInv(s) && SlotsInv(h, s) }

  // ---------------------------------------------------------------- the operators table

  /** A write that touches role or epoch increments the epoch; a deleted id does not come back. */
  ghost predicate Evolves(a: Sys, b: Sys) {
    && a.nextUser <= b.nextUser
    && forall u :: u < a.nextUser && u in b.operators ==>
         && u in a.operators
         && (SameAuthority(a.operators[u], b.operators[u]) || a.operators[u].version < b.operators[u].version)
  }

  lemma EffectEvolves(s: Sys, u: UserId, action: Action)
    requires IdsInv(s)
    ensures Evolves(s, Effect(s, u, action)) && IdsInv(Effect(s, u, action))
  {
  }

  lemma StepEvolves(limit: nat, s: Sys, e: Event)
    requires IdsInv(s)
    ensures Evolves(s, Next(limit, s, e)) && IdsInv(Next(limit, s, e))
  {
    hide Effect, ServeLogin, ServeChallenge, ServeGuard, ServeRefresh, AfterWrite;
    hide ServeEnrolment;
    if e.Write? {
      var slot := SlotOf(s, e.sid);
      if slot.flight.Some? && slot.flight.value.Acting? {
        EffectEvolves(s, slot.flight.value.user, slot.flight.value.action);
      }
    }
  }

  lemma StampEvolves(h: seq<Operators>, s: Sys, t: Sys, u: UserId, v: nat, k: nat)
    requires Stamp(h, s, u, v, k) && Evolves(s, t)
    ensures Stamp(h + [t.operators], t, u, v, k)
  {
  }

  lemma SlotEvolves(h: seq<Operators>, s: Sys, t: Sys, slot: Slot)
    requires SlotInv(h, s, slot) && Evolves(s, t)
    ensures SlotInv(h + [t.operators], t, slot)
  {
    hide Stamp, Evolves;
    if slot.data.userId.Some? && slot.data.version.Some? {
      StampEvolves(h, s, t, slot.data.userId.value, slot.data.version.value, slot.syncedFrom);
    }
    if slot.flight.Some? && HoldsSnap(slot.flight.value) {
      var snap := slot.flight.value.snap;
      StampEvolves(h, s, t, snap.user, snap.row.version, snap.readAt);
    }
  }

  /** A row read during the step that leads to `t`. */
  lemma FreshStamp(h: seq<Operators>, t: Sys, u: UserId)
    requires IdsInv(t) && u in t.operators
    ensures SnapInv(h + [t.operators], t, Snapshot(u, t.operators[u], |h|))
  {
  }

  // ---------------------------------------------------------------- one session

  /** What a session holds after a step: what it held before, or a row read in this step. */
  ghost predicate Inherits(slot: Slot, slot': Slot, operators: Operators, k: nat) {
    && (slot'.data.userId.Some? && slot'.data.version.Some? ==>
          || (slot'.data.userId == slot.data.userId && slot'.data.version == slot.data.version
              && slot'.syncedFrom == slot.syncedFrom)
          || (&& slot.flight.Some? && HoldsSnap(slot.flight.value)
              && var snap := slot.flight.value.snap;
                 slot'.data.userId == Some(snap.user) && slot'.data.version == Some(snap.row.version)
                 && slot'.syncedFrom == snap.readAt))
    && (slot'.flight.Some? && HoldsSnap(slot'.flight.value) ==>
          var snap' := slot'.flight.value.snap;
          || (slot.flight.Some? && HoldsSnap(slot.flight.value) && slot.flight.value.snap == snap')
          || (snap'.user in operators && snap' == Snapshot(snap'.user, operators[snap'.user], k)))
  }

  lemma LoginInherits(s: Sys, sid: Sid, slot: Slot, e: Event)
    requires e.ReadForLogin? || e.CheckMfa? || e.FinishLogin?
    ensures Inherits(slot, ServeLogin(s, sid, slot, e).slot, s.operators, s.steps)
  {
  }

  lemma ChallengeInherits(s: Sys, sid: Sid, slot: Slot, e: Event)
    requires e.SubmitCode? || e.AcceptCode? || e.FinishChallenge?
    ensures Inherits(slot, ServeChallenge(s, sid, slot, e).slot, s.operators, s.steps)
  {
  }

  lemma GuardInherits(limit: nat, s: Sys, slot: Slot, action: Action)
    ensures Inherits(slot, ServeGuard(limit, s, slot, action), s.operators, s.steps)
  {
  }

  lemma EffectInherits(s: Sys, t: Sys, slot: Slot, u: UserId, action: Action)
    ensures Inherits(slot, AfterWrite(s, t, slot, u, action), t.operators, s.steps)
  {
  }

  lemma EnrolmentInherits(s: Sys, slot: Slot)
    ensures Inherits(slot, ServeEnrolment(s, slot), s.operators, s.steps)
  {
  }

  lemma RefreshInherits(s: Sys, slot: Slot, e: Event)
    requires e.ReadForRefresh? || e.Sync?
    ensures Inherits(slot, ServeRefresh(s, slot, e), s.operators, s.steps)
  {
  }

  lemma InheritedSlot(h: seq<Operators>, s: Sys, t: Sys, slot: Slot, slot': Slot)
    requires SlotInv(h, s, slot) && Evolves(s, t) && IdsInv(t)
    requires Inherits(slot, slot', t.operators, |h|)
    ensures SlotInv(h + [t.operators], t, slot')
  {
    SlotEvolves(h, s, t, slot);
    hide Evolves, IdsInv;
    if slot'.flight.Some? && HoldsSnap(slot'.flight.value) {
      var snap := slot'.flight.value.snap;
      if snap.user in t.operators && snap == Snapshot(snap.user, t.operators[snap.user], |h|) {
        FreshStamp(h, t, snap.user);
      }
    }
    hide Stamp;
  }

  // ---------------------------------------------------------------- steps and runs

  /** The session an event serves inherits; every other session is left alone. */
  ghost predicate ServesOne(s: Sys, t: Sys) {
    forall sid :: sid in t.slots ==>
      (sid in s.slots && t.slots[sid] == s.slots[sid]) || Inherits(SlotOf(s, sid), t.slots[sid], t.operators, s.steps)
  }

  lemma PutServesOne(s: Sys, s': Sys, sid: Sid, served: Served)
    requires s'.slots == s.slots && Inherits(SlotOf(s, sid), served.slot, s'.operators, s.steps)
    ensures ServesOne(s, Put(s', sid, served))
  {
    hide Inherits;
  }

  lemma StepServesOne(limit: nat, s: Sys, e: Event)
    ensures ServesOne(s, Next(limit, s, e))
  {
    ActServesOne(limit, s, e);
    hide Act, Inherits;
  }

  lemma IdleServesOne(s: Sys, t: Sys)
    requires t.slots == s.slots
    ensures ServesOne(s, t)
  {
  }

  lemma LoginServesOne(s: Sys, sid: Sid, e: Event)
    requires e.ReadForLogin? || e.CheckMfa? || e.FinishLogin?
    ensures ServesOne(s, Put(s, sid, ServeLogin(s, sid, SlotOf(s, sid), e)))
  {
    LoginInherits(s, sid, SlotOf(s, sid), e);
    PutServesOne(s, s, sid, ServeLogin(s, sid, SlotOf(s, sid), e));
  }

  lemma ChallengeServesOne(s: Sys, sid: Sid, e: Event)
    requires e.SubmitCode? || e.AcceptCode? || e.FinishChallenge?
    ensures ServesOne(s, Put(s, sid, ServeChallenge(s, sid, SlotOf(s, sid), e)))
  {
    ChallengeInherits(s, sid, SlotOf(s, sid), e);
    PutServesOne(s, s, sid, ServeChallenge(s, sid, SlotOf(s, sid), e));
  }

  lemma RefreshServesOne(s: Sys, sid: Sid, e: Event)
    requires e.ReadForRefresh? || e.Sync?
    ensures ServesOne(s, Put(s, sid, Quiet(ServeRefresh(s, SlotOf(s, sid), e))))
  {
    RefreshInherits(s, SlotOf(s, sid), e);
    PutServesOne(s, s, sid, Quiet(ServeRefresh(s, SlotOf(s, sid), e)));
  }

  lemma WriteServesOne(s: Sys, sid: Sid)
    ensures ServesOne(s, ServeWrite(s, sid, SlotOf(s, sid)))
  {
    var slot := SlotOf(s, sid);
    IdleServesOne(s, s);
    DroppedInherits(slot, if slot.flight.Some? && slot.flight.value.Enrolling?
                          then Enrolled(s, slot.flight.value.user).operators else s.operators, s.steps);
    hide AfterWrite, Effect, Inherits, SlotOf, Put, ServesOne;
    if slot.flight.Some? && slot.flight.value.Acting? {
      var u, action := slot.flight.value.user, slot.flight.value.action;
      var t := Effect(s, u, action);
      EffectFrame(s, u, action);
      EffectInherits(s, t, slot, u, action);
      PutServesOne(s, t, sid, Quiet(AfterWrite(s, t, slot, u, action)));
    } else if slot.flight.Some? && slot.flight.value.Enrolling? {
      PutServesOne(s, Enrolled(s, slot.flight.value.user), sid, Quiet(Land(slot)));
    }
  }

  lemma ActServesOne(limit: nat, s: Sys, e: Event)
    ensures ServesOne(s, Act(limit, s, e))
  {
    if e.Tick? || e.FirstTime? || e.Bootstrap? { IdleServesOne(s, Act(limit, s, e)); return; }
    IdleServesOne(s, s);
    DroppedInherits(SlotOf(s, e.sid), s.operators, s.steps);
    hide ServeLogin, ServeChallenge, ServeGuard, ServeEnrolment, ServeRefresh, ServeWrite;
    hide Inherits, SlotOf, Put, ServesOne;
    match e
    case ReadForLogin(sid, _) => LoginServesOne(s, sid, e);
    case CheckMfa(sid) => LoginServesOne(s, sid, e);
    case FinishLogin(sid) => LoginServesOne(s, sid, e);
    case SubmitCode(sid) => ChallengeServesOne(s, sid, e);
    case AcceptCode(sid) => ChallengeServesOne(s, sid, e);
    case FinishChallenge(sid) => ChallengeServesOne(s, sid, e);
    case Guard(sid, action) =>
      GuardInherits(limit, s, SlotOf(s, sid), action);
      PutServesOne(s, s, sid, Quiet(ServeGuard(limit, s, SlotOf(s, sid), action)));
    case CheckEnrolment(sid) =>
      EnrolmentInherits(s, SlotOf(s, sid));
      PutServesOne(s, s, sid, Quiet(ServeEnrolment(s, SlotOf(s, sid))));
    case Write(sid) => WriteServesOne(s, sid);
    case ReadForRefresh(sid) => RefreshServesOne(s, sid, e);
    case Sync(sid) => RefreshServesOne(s, sid, e);
    case Flush(sid) =>
      if SlotOf(s, sid).flight.None? { PutServesOne(s, s, sid, Quiet(SlotOf(s, sid).(data := EMPTY))); }
    case Abandon(sid) => PutServesOne(s, s, sid, Quiet(Land(SlotOf(s, sid))));
  }

  lemma DroppedInherits(slot: Slot, operators: Operators, k: nat)
    ensures Inherits(slot, Land(slot), operators, k) && Inherits(slot, slot.(data := EMPTY), operators, k)
  {
  }

  lemma StepKeepsEpochs(limit: nat, h: seq<Operators>, s: Sys, e: Event)
    requires EpochInv(h, s)
    ensures EpochInv(h + [Next(limit, s, e).operators], Next(limit, s, e))
  {
    StepEvolves(limit, s, e);
    StepServesOne(limit, s, e);
    var t := Next(limit, s, e);
    hide Act, Evolves, IdsInv, SlotInv, Inherits;
    forall sid | sid in t.slots ensures SlotInv(h + [t.operators], t, t.slots[sid]) {
      EmptySlotInv(h, s);
      if sid in s.slots && t.slots[sid] == s.slots[sid] {
        SlotEvolves(h, s, t, s.slots[sid]);
      } else {
        InheritedSlot(h, s, t, SlotOf(s, sid), t.slots[sid]);
      }
    }
  }

  lemma EmptySlotInv(h: seq<Operators>, s: Sys)
    ensures SlotInv(h, s, EMPTY_SLOT)
  {
  }

  lemma {:induction false} RunKeepsEpochs(limit: nat, h: seq<Operators>, s: Sys, es: seq<Event>)
    requires EpochInv(h, s)
    ensures EpochInv(h + History(limit, s, es), Run(limit, s, es))
    decreases |es|
  {
    hide EpochInv, Next;
    if es == [] {
      assert h + [] == h;
    } else {
      var t := Next(limit, s, es[0]);
      StepKeepsEpochs(limit, h, s, es[0]);
      RunKeepsEpochs(limit, h + [t.operators], t, es[1..]);
      assert h + History(limit, s, es) == h + [t.operators] + History(limit, t, es[1..]);
    }
  }

  lemma RunIsStamped(limit: nat, es: seq<Event>)
    ensures EpochInv(History(limit, INITIAL, es), Run(limit, INITIAL, es))
  {
    RunKeepsEpochs(limit, [], INITIAL, es);
    assert [] + History(limit, INITIAL, es) == History(limit, INITIAL, es);
  }

  /** Whenever the guard grants, in any run, the operator's role and epoch have been the same at
      every step since the read behind the session's identity. */
  lemma GrantRestsOnCurrentAuthority(limit: nat, es: seq<Event>, sid: Sid)
    requires var s := Run(limit, INITIAL, es); Granted(SlotOf(s, sid).data, s.operators, s.now, limit).Some?
    ensures var s, slot := Run(limit, INITIAL, es), SlotOf(Run(limit, INITIAL, es), sid);
            && slot.data.userId.Some? && slot.data.userId.value in s.operators && slot.syncedFrom < |es|
            && Steady(History(limit, INITIAL, es), slot.syncedFrom, slot.data.userId.value,
                      s.operators[slot.data.userId.value])
  {
    RunIsStamped(limit, es);
    hide Run, History;
  }

  // ---------------------------------------------------------------- the whole row

  /** An enrolment whose not-enabled check went stale: it is written over a confirmed authenticator. */
  predicate Replaces(s: Sys, e: Event, u: UserId) {
    e.Write? && SlotOf(s, e.sid).flight == Some(Enrolling(u)) && u in s.operators && s.operators[u].mfa
  }

  lemma EffectOnRow(s: Sys, u: UserId, a: Action, v: UserId)
    requires v in s.operators && v < s.nextUser && v in Effect(s, u, a).operators
    ensures var row, row' := s.operators[v], Effect(s, u, a).operators[v];
            row' == row || row'.version == row.version + 1
  {
  }

  lemma StepOnRow(limit: nat, s: Sys, e: Event, u: UserId)
    requires IdsInv(s) && u in s.operators && u in Next(limit, s, e).operators
    ensures var row, row' := s.operators[u], Next(limit, s, e).operators[u];
            if Replaces(s, e, u) then row' == row.(mfa := false) != row
            else row' == row || row'.version == row.version + 1
  {
    hide ServeLogin, ServeChallenge, ServeGuard, ServeEnrolment, ServeRefresh, AfterWrite, Effect;
    if e.Write? && SlotOf(s, e.sid).flight.Some? && SlotOf(s, e.sid).flight.value.Acting? {
      var f := SlotOf(s, e.sid).flight.value;
      EffectOnRow(s, f.user, f.action, u);
    }
  }

  /** In every reachable state, a step that changes a row increments its epoch, if and only if the
      step is not a stale enrolment. */
  lemma RowChangesBumpEpochIff(limit: nat, es: seq<Event>, e: Event, u: UserId)
    requires var s := Run(limit, INITIAL, es); var t := Next(limit, s, e);
             u in s.operators && u in t.operators && t.operators[u] != s.operators[u]
    ensures var s := Run(limit, INITIAL, es); var t := Next(limit, s, e);
            t.operators[u].version == s.operators[u].version + 1 <==> !Replaces(s, e, u)
  {
    RunIsStamped(limit, es);
    hide Run, Next;
    StepOnRow(limit, Run(limit, INITIAL, es), e, u);
  }

  /** An enrolment goes on past its check exactly when the account is off, and written at once after
      the check it replaces nothing. */
  lemma PromptEnrolmentReplacesNothing(limit: nat, s: Sys, sid: Sid, u: UserId)
    requires sid in s.slots && s.slots[sid].flight == Some(Acting(u, EnrollMfa))
    ensures var t := Next(limit, s, CheckEnrolment(sid));
            && sid in t.slots && t.operators == s.operators
            && t.slots[sid].flight == (if u in s.operators && s.operators[u].mfa then None else Some(Enrolling(u)))
            && forall v :: !Replaces(t, Write(sid), v)
  {
  }

  /** Step `j` of the run is a stale enrolment of `u`. */
  predicate ReplacedAt(limit: nat, es: seq<Event>, j: nat, u: UserId)
    requires j < |es|
  {
    Replaces(Run(limit, INITIAL, es[..j]), es[j], u)
  }

  lemma HistoryAt(limit: nat, es: seq<Event>, j: nat)
    requires j < |es|
    ensures var s := Run(limit, INITIAL, es[..j]);
            && History(limit, INITIAL, es)[j] == Next(limit, s, es[j]).operators
            && (j > 0 ==> History(limit, INITIAL, es)[j - 1] == s.operators)
  {
    var s := Run(limit, INITIAL, es[..j]);
    hide Next;
    assert es == es[..j] + es[j..] && es[j..][0] == es[j];
    HistoryOfParts(limit, INITIAL, es[..j], es[j..]);
    assert History(limit, s, es[j..])[0] == Next(limit, s, es[j]).operators;
    if j > 0 { HistoryEnds(limit, INITIAL, es[..j]); }
  }

  /** One step back in a steady history. */
  lemma SteadyStep(limit: nat, es: seq<Event>, k: nat, u: UserId, row: OperatorRow, j: nat)
    requires k < j < |es| && Steady(History(limit, INITIAL, es), k, u, row)
    ensures var h := History(limit, INITIAL, es);
            && u in h[j - 1] && u in h[j]
            && (if ReplacedAt(limit, es, j, u) then h[j - 1][u] != h[j][u] else h[j - 1][u] == h[j][u])
  {
    var s := Run(limit, INITIAL, es[..j]);
    HistoryAt(limit, es, j);
    RunIsStamped(limit, es[..j]);
    hide Run, Next, History;
    assert u in s.operators;
    StepOnRow(limit, s, es[j], u);
  }

  lemma {:induction false} SteadyRowIsUnchanged(limit: nat, es: seq<Event>, k: nat, u: UserId, row: OperatorRow, j: nat)
    requires k <= j < |es| && Steady(History(limit, INITIAL, es), k, u, row)
    requires forall i :: k < i < |es| ==> !ReplacedAt(limit, es, i, u)
    ensures var h := History(limit, INITIAL, es); u in h[j] && u in h[|es| - 1] && h[j][u] == h[|es| - 1][u]
    decreases |es| - j
  {
    hide ReplacedAt, History;
    if j < |es| - 1 {
      SteadyStep(limit, es, k, u, row, j + 1);
      SteadyRowIsUnchanged(limit, es, k, u, row, j + 1);
    }
  }

  /** Whenever the guard grants, in any run, the whole row is the one that was read for the session's
      identity, if and only if no stale enrolment of that operator was written since. */
  lemma WholeRowIsCurrentIff(limit: nat, es: seq<Event>, sid: Sid)
    requires var s := Run(limit, INITIAL, es); Granted(SlotOf(s, sid).data, s.operators, s.now, limit).Some?
    ensures var s, slot := Run(limit, INITIAL, es), SlotOf(Run(limit, INITIAL, es), sid);
            && slot.data.userId.Some? && slot.data.userId.value in s.operators && slot.syncedFrom < |es|
            && var u, k := slot.data.userId.value, slot.syncedFrom;
               Unchanged(History(limit, INITIAL, es), k, u, s.operators[u])
               <==> forall j :: k < j < |es| ==> !ReplacedAt(limit, es, j, u)
  {
    GrantRestsOnCurrentAuthority(limit, es, sid);
    HistoryEnds(limit, INITIAL, es);
    hide Run, History, ReplacedAt, Granted;
    var s, h := Run(limit, INITIAL, es), History(limit, INITIAL, es);
    var u, k := SlotOf(s, sid).data.userId.value, SlotOf(s, sid).syncedFrom;
    if forall j :: k < j < |es| ==> !ReplacedAt(limit, es, j, u) {
      forall j | k <= j < |h| ensures u in h[j] && h[j][u] == s.operators[u] {
        SteadyRowIsUnchanged(limit, es, k, u, s.operators[u], j);
      }
    } else {
      var j :| k < j < |es| && ReplacedAt(limit, es, j, u);
      SteadyStep(limit, es, k, u, s.operators[u], j);
    }
  }

  // ---------------------------------------------------------------- revocation

  lemma {:induction false} HistoryOfParts(limit: nat, s: Sys, es: seq<Event>, fs: seq<Event>)
    ensures History(limit, s, es + fs) == History(limit, s, es) + History(limit, Run(limit, s, es), fs)
    decreases |es|
  {
    hide Next;
    if es == [] {
      assert [] + fs == fs;
    } else {
      assert (es + fs)[1..] == es[1..] + fs;
      HistoryOfParts(limit, Next(limit, s, es[0]), es[1..], fs);
    }
  }

  lemma {:induction false} HistoryEnds(limit: nat, s: Sys, es: seq<Event>)
    requires es != []
    ensures History(limit, s, es)[|es| - 1] == Run(limit, s, es).operators
    decreases |es|
  {
    hide Next;
    if |es| > 1 { HistoryEnds(limit, Next(limit, s, es[0]), es[1..]); }
  }

  /** Once a step changes or removes the row of `u`, no session of `u` whose identity rests on an
      earlier read is granted anything, however the run goes on: a login that read the row before
      the change and finishes after it included, a reused id excluded. Only a stale enrolment, whose
      step `ChangeRevokesIff` is about, is excepted. */
  lemma RevocationIsForEver(limit: nat, es: seq<Event>, e: Event, fs: seq<Event>, u: UserId, sid: Sid)
    requires var s := Run(limit, INITIAL, es); var t := Next(limit, s, e);
             && u in s.operators && (u in t.operators ==> t.operators[u] != s.operators[u])
             && !Replaces(s, e, u)
    requires var w := Run(limit, INITIAL, es + [e] + fs);
             SlotOf(w, sid).data.userId == Some(u) && SlotOf(w, sid).syncedFrom < |es|
    ensures var w := Run(limit, INITIAL, es + [e] + fs);
            Granted(SlotOf(w, sid).data, w.operators, w.now, limit).None?
  {
    var s, t := Run(limit, INITIAL, es), Next(limit, Run(limit, INITIAL, es), e);
    var h := History(limit, INITIAL, es + [e] + fs);
    if u in t.operators { RowChangesBumpEpochIff(limit, es, e, u); }
    HistoryOfParts(limit, INITIAL, es + [e], fs);
    HistoryOfParts(limit, INITIAL, es, [e]);
    HistoryEnds(limit, INITIAL, es);
    assert History(limit, s, [e]) == [t.operators];
    assert h[|es| - 1] == s.operators && h[|es|] == t.operators;
    hide Run, History, Next, Replaces;
    var w := Run(limit, INITIAL, es + [e] + fs);
    if Granted(SlotOf(w, sid).data, w.operators, w.now, limit).Some? {
      GrantRestsOnCurrentAuthority(limit, es + [e] + fs, sid);
      assert false;
    }
  }

  /** In every reachable state, a step that changes or removes the row of `u` ends the grants of `u`
      at once, if and only if it is not a stale enrolment. */
  lemma ChangeRevokesIff(limit: nat, es: seq<Event>, e: Event, u: UserId, data: Session)
    requires var s := Run(limit, INITIAL, es); var t := Next(limit, s, e);
             u in s.operators && (u in t.operators ==> t.operators[u] != s.operators[u])
    requires var s := Run(limit, INITIAL, es);
             data.userId == Some(u) && Granted(data, s.operators, s.now, limit).Some?
    ensures var s := Run(limit, INITIAL, es); var t := Next(limit, s, e);
            Granted(data, t.operators, t.now, limit).None? <==> !Replaces(s, e, u)
  {
    var s, t := Run(limit, INITIAL, es), Next(limit, Run(limit, INITIAL, es), e);
    RunIsStamped(limit, es);
    if Replaces(s, e, u) { assert t.now == s.now; }
    hide Run, Next;
    if u in t.operators { StepOnRow(limit, s, e, u); }
  }

  /** The account whose authority an action of `u` sets: its password, two-factor state, recovery
      codes, role or existence. */
  function Touched(s: Sys, u: UserId, a: Action): (v: Option<UserId>)
    ensures v.Some? ==> v.value in s.operators
  {
    match a
    case DeleteUser(t) => if t != u && t in s.operators then Some(t) else None
    case UpdateUser(t, role) => if t in s.operators && (t != u || role == Admin) then Some(t) else None
    case UpdatePassword => if u in s.operators then Some(u) else None
    case ConfirmMfa => if u in s.operators && !s.operators[u].mfa then Some(u) else None
    case DisableMfa => if u in s.operators then Some(u) else None
    case RegenerateCodes => if u in s.operators && s.operators[u].mfa then Some(u) else None
    case _ => None
  }

  /** What the write of an action leaves in the operators table. */
  lemma WriteIsExact(s: Sys, u: UserId, a: Action)
    ensures var v := Touched(s, u, a);
            Effect(s, u, a).operators ==
              if v.Some? then
                if a.DeleteUser? then s.operators - {v.value}
                else
                  var row := s.operators[v.value];
                  s.operators[v.value := OperatorRow(if a.UpdateUser? then a.newRole else row.role, row.version + 1,
                                                     a.ConfirmMfa? || (!a.DisableMfa? && row.mfa))]
              else if a.InsertUser? then s.operators[s.nextUser := OperatorRow(a.newRole, 0, false)]
              else s.operators
  {
  }

  /** Changing an account's password, two-factor state, recovery codes, role or existence ends every
      grant to sessions that rest on an earlier read of the account, for ever. */
  lemma AuthorityWritesRevoke(limit: nat, es: seq<Event>, writer: Sid, fs: seq<Event>, sid: Sid)
    requires var s := Run(limit, INITIAL, es); var f := SlotOf(s, writer).flight;
             f.Some? && f.value.Acting? && Touched(s, f.value.user, f.value.action).Some?
    requires var s, w := Run(limit, INITIAL, es), Run(limit, INITIAL, es + [Write(writer)] + fs);
             var f := SlotOf(s, writer).flight.value;
             SlotOf(w, sid).data.userId == Touched(s, f.user, f.action) && SlotOf(w, sid).syncedFrom < |es|
    ensures var w := Run(limit, INITIAL, es + [Write(writer)] + fs);
            Granted(SlotOf(w, sid).data, w.operators, w.now, limit).None?
  {
    var s := Run(limit, INITIAL, es);
    var f := SlotOf(s, writer).flight.value;
    WriteIsExact(s, f.user, f.action);
    hide Run, Effect, AfterWrite;
    RevocationIsForEver(limit, es, Write(writer), fs, Touched(s, f.user, f.action).value, sid);
  }
}
