/**
  The operators table keeps an administrator. Each handler only refuses to remove or demote its own
  actor, so this rests on the actor still being an administrator when the handler writes.
*/
module Administrators {
  import opened Wrappers
  import opened Sessions
  import opened Console

  predicate IsAdmin(s: Sys, u: UserId) { u in s.operators && s.operators[u].role == Admin }

  ghost predicate HasAdmin(s: Sys) { exists u :: IsAdmin(s, u) }

  ghost predicate HasAdminBeside(s: Sys, t: UserId) { exists u :: u != t && IsAdmin(s, u) }

  /** The write of this action takes administration away from its target. */
  predicate Strips(s: Sys, u: UserId, a: Action) {
    || (a.DeleteUser? && a.target != u && a.target in s.operators)
    || (a.UpdateUser? && a.target != u && a.target in s.operators && a.newRole != Admin)
  }

  /** A write keeps an administrator exactly when it strips nobody or leaves another one. */
  lemma WriteKeepsAdminIff(s: Sys, u: UserId, a: Action)
    requires HasAdmin(s)
    requires IdsInv(s)
    ensures HasAdmin(Effect(s, u, a)) <==> (Strips(s, u, a) ==> HasAdminBeside(s, a.target))
  {
    var t := Effect(s, u, a);
    var v :| IsAdmin(s, v);
    if Strips(s, u, a) {
      if w :| IsAdmin(t, w) { assert w != a.target && IsAdmin(s, w); }
      if HasAdminBeside(s, a.target) {
        var w :| w != a.target && IsAdmin(s, w);
        assert IsAdmin(t, w);
      }
    } else if a.UpdateUser? && a.target in s.operators && (a.target != u || a.newRole == Admin) {
      assert IsAdmin(t, a.target);
    } else {
      assert IsAdmin(t, v);
    }
  }

  // ---------------------------------------------------------------- steps

  /** The action an event is about to write, if any. */
  function Writing(s: Sys, e: Event): Option<Flight> {
    if e.Write? && SlotOf(s, e.sid).flight.Some? && SlotOf(s, e.sid).flight.value.Acting?
    then SlotOf(s, e.sid).flight else None
  }

  ghost predicate SafeWrite(s: Sys, e: Event) {
    var w := Writing(s, e);
    w.Some? && Strips(s, w.value.user, w.value.action) ==> HasAdminBeside(s, w.value.action.target)
  }

  /** Whoever was let through to an administrator's action still is one. */
  predicate TimelyWrite(s: Sys, e: Event) {
    var w := Writing(s, e);
    w.Some? && AdminOnly(w.value.action) ==> IsAdmin(s, w.value.user)
  }

  lemma TimelyIsSafe(s: Sys, e: Event)
    requires TimelyWrite(s, e)
    ensures SafeWrite(s, e)
  {
    var w := Writing(s, e);
    if w.Some? && Strips(s, w.value.user, w.value.action) {
      assert w.value.user != w.value.action.target && IsAdmin(s, w.value.user);
    }
  }

  ghost predicate Staffed(s: Sys) { HasAdmin(s) && s.firstTimeUses <= 1 }

  ghost predicate AdminInv(s: Sys) {
    IdsInv(s) && ((s.operators == map[] && s.firstTimeUses == 0) || Staffed(s))
  }

  /** The part of the state administration depends on. */
  ghost predicate SameStaff(s: Sys, t: Sys) {
    && t.operators.Keys == s.operators.Keys && t.nextUser == s.nextUser && t.firstTimeUses == s.firstTimeUses
    && forall u :: u in s.operators ==> t.operators[u].role == s.operators[u].role
  }

  lemma StepStaff(limit: nat, s: Sys, e: Event)
    ensures var t := Next(limit, s, e);
            if Writing(s, e).Some?
            then SameStaff(Effect(s, Writing(s, e).value.user, Writing(s, e).value.action), t)
            else if e.Bootstrap? || (e.FirstTime? && e.valid && s.operators == map[])
            then SameStaff(Create(s, Admin).(firstTimeUses := t.firstTimeUses), t)
                 && t.firstTimeUses == s.firstTimeUses + if e.FirstTime? then 1 else 0
            else SameStaff(s, t)
  {
    hide ServeLogin, ServeChallenge, ServeGuard, ServeEnrolment, ServeRefresh, AfterWrite, Effect;
    assert |s.operators| == 0 <==> s.operators == map[];
  }

  lemma SameStaffAdmin(s: Sys, t: Sys)
    requires SameStaff(s, t)
    ensures HasAdmin(s) <==> HasAdmin(t)
  {
    if v :| IsAdmin(s, v) { assert IsAdmin(t, v); }
    if v :| IsAdmin(t, v) { assert IsAdmin(s, v); }
  }

  /** Exactly the unsafe writes lose the last administrator; nothing reopens `first_time`. */
  lemma StepKeepsAdminIff(limit: nat, s: Sys, e: Event)
    requires IdsInv(s) && HasAdmin(s)
    ensures HasAdmin(Next(limit, s, e)) <==> SafeWrite(s, e)
    ensures IdsInv(Next(limit, s, e)) && Next(limit, s, e).firstTimeUses == s.firstTimeUses
  {
    StepStaff(limit, s, e);
    var t, w := Next(limit, s, e), Writing(s, e);
    var v :| IsAdmin(s, v);
    hide Next, Effect;
    if w.Some? {
      WriteKeepsAdminIff(s, w.value.user, w.value.action);
      EffectFrame(s, w.value.user, w.value.action);
      SameStaffAdmin(Effect(s, w.value.user, w.value.action), t);
    } else {
      assert IsAdmin(t, v);
    }
  }

  /** On an empty table nothing happens but the creation of an administrator, if creations are all
      that is written. */
  lemma StepFromEmpty(limit: nat, s: Sys, e: Event)
    requires s.operators == map[] && s.firstTimeUses == 0 && TimelyWrite(s, e)
    ensures AdminInv(Next(limit, s, e))
  {
    StepStaff(limit, s, e);
    var t, w := Next(limit, s, e), Writing(s, e);
    hide Next;
    if w.Some? {
      assert Effect(s, w.value.user, w.value.action) == s;
    } else if e.Bootstrap? || (e.FirstTime? && e.valid) {
      assert IsAdmin(t, s.nextUser);
      assert t.operators.Keys == {s.nextUser};
    }
  }

  // ---------------------------------------------------------------- runs

  /** An administrator in every state of the run. */
  ghost predicate AlwaysStaffed(limit: nat, s: Sys, es: seq<Event>)
    decreases |es|
  {
    HasAdmin(s) && (es == [] || AlwaysStaffed(limit, Next(limit, s, es[0]), es[1..]))
  }

  ghost predicate AllSafe(limit: nat, s: Sys, es: seq<Event>)
    decreases |es|
  {
    es == [] || (SafeWrite(s, es[0]) && AllSafe(limit, Next(limit, s, es[0]), es[1..]))
  }

  predicate AllTimely(limit: nat, s: Sys, es: seq<Event>)
    decreases |es|
  {
    es == [] || (TimelyWrite(s, es[0]) && AllTimely(limit, Next(limit, s, es[0]), es[1..]))
  }

  /** A run keeps an administrator throughout exactly when all its writes are safe. */
  lemma {:induction false} AlwaysStaffedIff(limit: nat, s: Sys, es: seq<Event>)
    requires IdsInv(s) && HasAdmin(s)
    ensures AlwaysStaffed(limit, s, es) <==> AllSafe(limit, s, es)
    ensures AllSafe(limit, s, es) ==> Run(limit, s, es).firstTimeUses == s.firstTimeUses && HasAdmin(Run(limit, s, es))
    decreases |es|
  {
    if es != [] {
      StepKeepsAdminIff(limit, s, es[0]);
      hide Next, SafeWrite;
      if SafeWrite(s, es[0]) { AlwaysStaffedIff(limit, Next(limit, s, es[0]), es[1..]); }
    }
  }

  lemma {:induction false} TimelyRunsAreSafe(limit: nat, s: Sys, es: seq<Event>)
    requires AllTimely(limit, s, es)
    ensures AllSafe(limit, s, es)
    decreases |es|
  {
    if es != [] {
      TimelyIsSafe(s, es[0]);
      TimelyRunsAreSafe(limit, Next(limit, s, es[0]), es[1..]);
    }
  }

  lemma StepKeepsAdmin(limit: nat, s: Sys, e: Event)
    requires AdminInv(s) && TimelyWrite(s, e)
    ensures AdminInv(Next(limit, s, e))
    ensures s.operators != map[] ==>
              Next(limit, s, e).operators != map[] && Next(limit, s, e).firstTimeUses == s.firstTimeUses
  {
    hide Next, TimelyWrite, SafeWrite;
    if s.operators == map[] {
      StepFromEmpty(limit, s, e);
    } else {
      TimelyIsSafe(s, e);
      StepKeepsAdminIff(limit, s, e);
    }
  }

  lemma {:induction false} RunKeepsAdmin(limit: nat, s: Sys, es: seq<Event>)
    requires AdminInv(s) && AllTimely(limit, s, es)
    ensures AdminInv(Run(limit, s, es))
    ensures s.operators != map[] ==>
              Run(limit, s, es).operators != map[] && Run(limit, s, es).firstTimeUses == s.firstTimeUses
    decreases |es|
  {
    hide Next, TimelyWrite, AdminInv;
    if es != [] {
      StepKeepsAdmin(limit, s, es[0]);
      RunKeepsAdmin(limit, Next(limit, s, es[0]), es[1..]);
    }
  }

  /** Administrators' requests as single steps: a grant of an administrator's action is written before
      anything else happens. Other requests interleave freely. */
  predicate Serial(es: seq<Event>)
    decreases |es|
  {
    es == []
    || (Administers(es[0]) && |es| > 1 && es[1] == Write(es[0].sid) && Serial(es[2..]))
    || (!Administers(es[0]) && Serial(es[1..]))
  }

  predicate Administers(e: Event) { e.Guard? && AdminOnly(e.action) }

  predicate Ordinary(slot: Slot) {
    slot.flight.Some? && slot.flight.value.Acting? ==> !AdminOnly(slot.flight.value.action)
  }

  ghost predicate AllOrdinary(s: Sys) { forall sid :: sid in s.slots ==> Ordinary(s.slots[sid]) }

  /** What one session's request leaves behind. */
  lemma ServesOrdinary(limit: nat, s: Sys, sid: Sid, slot: Slot, e: Event)
    requires Ordinary(slot)
    ensures e.ReadForLogin? || e.CheckMfa? || e.FinishLogin? ==> Ordinary(ServeLogin(s, sid, slot, e).slot)
    ensures e.SubmitCode? || e.AcceptCode? || e.FinishChallenge? ==> Ordinary(ServeChallenge(s, sid, slot, e).slot)
    ensures e.ReadForRefresh? || e.Sync? ==> Ordinary(ServeRefresh(s, slot, e))
    ensures e.Guard? && !AdminOnly(e.action) ==> Ordinary(ServeGuard(limit, s, slot, e.action))
    ensures Ordinary(ServeEnrolment(s, slot))
  {
    hide Granted, AfterGuard;
  }

  lemma WriteLands(s: Sys, t: Sys, slot: Slot, u: UserId, a: Action)
    requires slot.flight == Some(Acting(u, a))
    ensures Ordinary(AfterWrite(s, t, slot, u, a))
  {
  }

  /** A write leaves its session without an administrator's action, whatever it had. */
  lemma WriteOrdinary(s: Sys, sid: Sid)
    requires forall other :: other in s.slots && other != sid ==> Ordinary(s.slots[other])
    ensures AllOrdinary(ServeWrite(s, sid, SlotOf(s, sid)))
  {
    var slot := SlotOf(s, sid);
    if slot.flight.Some? && slot.flight.value.Acting? {
      var u, a := slot.flight.value.user, slot.flight.value.action;
      EffectFrame(s, u, a);
      WriteLands(s, Effect(s, u, a), slot, u, a);
      hide Effect, AfterWrite;
    }
  }

  lemma OtherStepsAreOrdinary(limit: nat, s: Sys, e: Event)
    requires AllOrdinary(s) && !Administers(e)
    ensures AllOrdinary(Next(limit, s, e)) && TimelyWrite(s, e)
  {
    if !(e.Tick? || e.FirstTime? || e.Bootstrap?) { ServesOrdinary(limit, s, e.sid, SlotOf(s, e.sid), e); }
    if e.Write? { WriteOrdinary(s, e.sid); }
    hide ServeLogin, ServeChallenge, ServeGuard, ServeEnrolment, ServeRefresh, ServeWrite;
  }

  lemma GuardLetsAdminsThrough(limit: nat, s: Sys, slot: Slot, a: Action)
    requires Ordinary(slot)
    ensures var f := ServeGuard(limit, s, slot, a).flight;
            f.Some? && f.value.Acting? && AdminOnly(f.value.action) ==> IsAdmin(s, f.value.user)
  {
  }

  lemma RequestIsTimely(limit: nat, s: Sys, sid: Sid, a: Action)
    requires AllOrdinary(s)
    ensures var t := Next(limit, s, Guard(sid, a));
            TimelyWrite(s, Guard(sid, a)) && TimelyWrite(t, Write(sid)) && AllOrdinary(Next(limit, t, Write(sid)))
  {
    var t := Next(limit, s, Guard(sid, a));
    GuardLetsAdminsThrough(limit, s, SlotOf(s, sid), a);
    assert SlotOf(t, sid) == ServeGuard(limit, s, SlotOf(s, sid), a) && t.operators == s.operators;
    hide ServeGuard, Granted, ServeWrite;
    WriteOrdinary(t, sid);
  }

  lemma {:induction false} SerialIsTimely(limit: nat, s: Sys, es: seq<Event>)
    requires AllOrdinary(s) && Serial(es)
    ensures AllTimely(limit, s, es) && AllOrdinary(Run(limit, s, es))
    decreases |es|
  {
    hide Next, TimelyWrite, AllOrdinary;
    if es != [] {
      var t := Next(limit, s, es[0]);
      if Administers(es[0]) {
        RequestIsTimely(limit, s, es[0].sid, es[0].action);
        SerialIsTimely(limit, Next(limit, t, es[1]), es[2..]);
        assert es[1..][0] == es[1] && es[1..][1..] == es[2..];
      } else {
        OtherStepsAreOrdinary(limit, s, es[0]);
        SerialIsTimely(limit, t, es[1..]);
      }
    }
  }

  /** With administrators' requests as single steps, after any run the table is empty or has an
      administrator and at most one account came from `first_time`; once there is an operator, that
      stays so and `first_time` creates nothing more. */
  lemma AdministratorPersists(limit: nat, es: seq<Event>, fs: seq<Event>)
    requires Serial(es) && Serial(fs)
    ensures var s := Run(limit, INITIAL, es); var t := Run(limit, s, fs);
            && (s.operators == map[] || HasAdmin(s)) && s.firstTimeUses <= 1
            && (s.operators != map[] ==> HasAdmin(t) && t.firstTimeUses == s.firstTimeUses)
  {
    var s := Run(limit, INITIAL, es);
    SerialIsTimely(limit, INITIAL, es);
    RunKeepsAdmin(limit, INITIAL, es);
    SerialIsTimely(limit, s, fs);
    RunKeepsAdmin(limit, s, fs);
    hide Run, AllTimely, AllOrdinary;
  }

  // ---------------------------------------------------------------- first_time

  /** `first_time` is closed: a request for it would create nothing. */
  predicate Closed(s: Sys) { s.operators != map[] }

  /** The event deletes the only remaining operator. */
  predicate Empties(s: Sys, e: Event) {
    var w := Writing(s, e);
    && w.Some? && w.value.action.DeleteUser? && w.value.action.target != w.value.user
    && s.operators.Keys == {w.value.action.target}
  }

  /** A closed `first_time` opens exactly when the only remaining operator is deleted; until then it
      creates nothing. */
  lemma StepStaysClosedIff(limit: nat, s: Sys, e: Event)
    requires Closed(s)
    ensures Closed(Next(limit, s, e)) <==> !Empties(s, e)
    ensures Next(limit, s, e).firstTimeUses == s.firstTimeUses
  {
    StepStaff(limit, s, e);
    var t, w := Next(limit, s, e), Writing(s, e);
    hide Next;
    if w.Some? {
      EffectClosedIff(s, w.value.user, w.value.action);
      EffectFrame(s, w.value.user, w.value.action);
      hide Effect;
      var t' := Effect(s, w.value.user, w.value.action);
      assert Closed(t) <==> t.operators.Keys != {};
      assert Closed(t') <==> t'.operators.Keys != {};
    } else {
      var u :| u in s.operators;
      assert u in t.operators;
    }
  }

  lemma EffectClosedIff(s: Sys, u: UserId, a: Action)
    requires Closed(s)
    ensures Closed(Effect(s, u, a)) <==> !(a.DeleteUser? && a.target != u && s.operators.Keys == {a.target})
  {
    var t := Effect(s, u, a);
    if a.DeleteUser? && a.target != u && a.target in s.operators {
      assert t.operators.Keys == s.operators.Keys - {a.target};
      if s.operators.Keys != {a.target} {
        var v :| v in s.operators && v != a.target;
        assert v in t.operators;
      }
    } else {
      var v :| v in s.operators;
      assert v in t.operators;
    }
  }

  /** Closed in every state of the run. */
  predicate AlwaysClosed(limit: nat, s: Sys, es: seq<Event>)
    decreases |es|
  {
    Closed(s) && (es == [] || AlwaysClosed(limit, Next(limit, s, es[0]), es[1..]))
  }

  /** Closed in every state from the first operator on. */
  predicate StaysClosed(limit: nat, s: Sys, es: seq<Event>)
    decreases |es|
  {
    if Closed(s) then AlwaysClosed(limit, s, es)
    else es == [] || StaysClosed(limit, Next(limit, s, es[0]), es[1..])
  }

  /** No write of the run deletes the only remaining operator. */
  predicate NoneEmpties(limit: nat, s: Sys, es: seq<Event>)
    decreases |es|
  {
    es == [] || (!Empties(s, es[0]) && NoneEmpties(limit, Next(limit, s, es[0]), es[1..]))
  }

  /** From a table that is not empty, `first_time` is closed throughout a run exactly when no write
      deletes the only remaining operator, and then it creates nothing. */
  lemma {:induction false} AlwaysClosedIff(limit: nat, s: Sys, es: seq<Event>)
    requires Closed(s)
    ensures AlwaysClosed(limit, s, es) <==> NoneEmpties(limit, s, es)
    ensures NoneEmpties(limit, s, es) ==> Run(limit, s, es).firstTimeUses == s.firstTimeUses
    decreases |es|
  {
    hide Next, Empties, Closed;
    if es != [] {
      StepStaysClosedIff(limit, s, es[0]);
      if Closed(Next(limit, s, es[0])) { AlwaysClosedIff(limit, Next(limit, s, es[0]), es[1..]); }
    }
  }

  lemma StepFromOpen(limit: nat, s: Sys, e: Event)
    requires !Closed(s)
    ensures !Empties(s, e)
    ensures var t := Next(limit, s, e);
            t.firstTimeUses <= s.firstTimeUses + if Closed(t) then 1 else 0
  {
    StepStaff(limit, s, e);
    var w := Writing(s, e);
    if w.Some? { EffectFrame(s, w.value.user, w.value.action); }
    hide Next, Effect;
  }

  lemma {:induction false} StaysClosedFrom(limit: nat, s: Sys, es: seq<Event>)
    ensures StaysClosed(limit, s, es) <==> NoneEmpties(limit, s, es)
    ensures NoneEmpties(limit, s, es) ==>
              Run(limit, s, es).firstTimeUses <= s.firstTimeUses + if Closed(s) then 0 else 1
    decreases |es|
  {
    hide Next, Empties, Closed;
    if Closed(s) {
      AlwaysClosedIff(limit, s, es);
    } else if es != [] {
      StepFromOpen(limit, s, es[0]);
      StaysClosedFrom(limit, Next(limit, s, es[0]), es[1..]);
    }
  }

  /** In any run from the start, `first_time` stays closed from the first operator on exactly when no
      write deletes the only remaining operator; then at most one account comes from it. */
  lemma FirstTimeStaysClosedIff(limit: nat, es: seq<Event>)
    ensures StaysClosed(limit, INITIAL, es) <==> NoneEmpties(limit, INITIAL, es)
    ensures NoneEmpties(limit, INITIAL, es) ==> Run(limit, INITIAL, es).firstTimeUses <= 1
  {
    StaysClosedFrom(limit, INITIAL, es);
  }
}
