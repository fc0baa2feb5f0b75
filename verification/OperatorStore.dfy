/** The operators table and the handlers that write to it, as the steps of the console machine. */
module OperatorStore {
  import opened Wrappers
  import opened Sessions
  import opened Console

  class OperatorRepository {
    var operators: map<UserId, OperatorRow>
    var nextUser: UserId          // AUTOINCREMENT: ids are never handed out twice
    var firstTimeUses: nat

    /** A console state whose operators are those of this table. */
    function In(s: Sys): Sys
      reads this
    {
      s.(operators := operators, nextUser := nextUser, firstTimeUses := firstTimeUses)
    }

    constructor ()
      ensures forall s: Sys :: In(s) == s.(operators := map[], nextUser := 0, firstTimeUses := 0)
    {
      operators, nextUser, firstTimeUses := map[], 0, 0;
    }

    method Create(role: Role) returns (id: UserId)
      modifies this
      ensures forall s: Sys :: In(s) == Console.Create(old(In(s)), role)
      ensures id == old(nextUser) && firstTimeUses == old(firstTimeUses)
      ensures operators == old(operators)[id := OperatorRow(role, 0, false)]
    {
      id := nextUser;
      operators := operators[id := OperatorRow(role, 0, false)];
      nextUser := nextUser + 1;
    }

    /** Fails, and changes nothing, if the row disappeared. */
    method Update(id: UserId, role: Role) returns (updated: Option<OperatorRow>)
      modifies this`operators
      ensures updated.Some? <==> id in old(operators)
      ensures forall s: Sys :: In(s) == if updated.None? then old(In(s))
                                        else Bump(old(In(s)), id, old(operators)[id].(role := role))
      ensures updated.Some? ==> && updated.value.role == role && updated.value.mfa == old(operators)[id].mfa
                                && updated.value.version == old(operators)[id].version + 1
                                && operators == old(operators)[id := updated.value]
    {
      if id !in operators {
        return None;
      }
      var row := operators[id];
      operators := operators[id := OperatorRow(role, row.version + 1, row.mfa)];
      updated := Some(operators[id]);
    }

    method UpdatePassword(id: UserId) returns (updated: Option<OperatorRow>)
      modifies this`operators
      ensures forall s: Sys :: In(s) == Effect(old(In(s)), id, Action.UpdatePassword)
      ensures id in old(operators) ==>
                operators == old(operators)[id := old(operators)[id].(version := old(operators)[id].version + 1)]
      ensures updated == if id in operators then Some(operators[id]) else None
    {
      if id !in operators {
        return None;
      }
      var row := operators[id];
      operators := operators[id := OperatorRow(row.role, row.version + 1, row.mfa)];
      updated := Some(operators[id]);
    }

    /** The number of rows deleted. */
    method DeleteById(id: UserId) returns (rows: nat)
      modifies this`operators
      ensures rows == if id in old(operators) then 1 else 0
      ensures operators == old(operators) - {id}
    {
      rows := if id in operators then 1 else 0;
      operators := operators - {id};
    }

    /** After the guard and the step-up have let `actor` through. */
    method InsertUserAction(actor: UserId, role: Role)
      modifies this
      ensures forall s: Sys :: In(s) == Effect(old(In(s)), actor, InsertUser(role))
      ensures operators == old(operators)[old(nextUser) := OperatorRow(role, 0, false)]
    {
      var _ := Create(role);
    }

    method DeleteUserAction(actor: UserId, target: UserId) returns (removed: bool)
      modifies this
      ensures forall s: Sys :: In(s) == Effect(old(In(s)), actor, DeleteUser(target))
      ensures removed <==> target in old(operators) && target != actor
      ensures operators == if target == actor then old(operators) else old(operators) - {target}
    {
      if target !in operators || target == actor {
        return false;
      }
      var rows := DeleteById(target);
      return true;
    }

    method UpdateUserAction(actor: UserId, target: UserId, role: Role) returns (updated: Option<OperatorRow>)
      modifies this
      ensures forall s: Sys :: In(s) == Effect(old(In(s)), actor, UpdateUser(target, role))
      ensures updated.Some? <==> target in old(operators) && (actor == target ==> role == Admin)
      ensures updated.Some? ==> && updated.value.role == role && target in old(operators)
                                && updated.value.version == old(operators)[target].version + 1
                                && operators == old(operators)[target := updated.value]
    {
      if target !in operators || (actor == target && role != Admin) {
        return None;
      }
      updated := Update(target, role);
    }

    /** Under its lock: closed once there is any operator. */
    method FirstTime(valid: bool) returns (created: bool)
      modifies this
      ensures forall limit: nat, s: Sys ::
                In(s) == Act(limit, old(In(s)), Event.FirstTime(valid))
      ensures created <==> old(operators) == map[] && valid
    {
      if |operators| > 0 {
        return false;
      }
      if !valid {
        return false;
      }
      var _ := Create(Admin);
      firstTimeUses := firstTimeUses + 1;
      return true;
    }

    /** At startup, unless `admin` is taken or no usable password is configured. */
    method BootstrapAdministrator(taken: bool, password: bool) returns (created: bool)
      modifies this
      ensures forall limit: nat, s: Sys ::
                In(s) == if created then Act(limit, old(In(s)), Bootstrap) else old(In(s))
      ensures created <==> !taken && password
    {
      if taken || !password {
        return false;
      }
      var _ := Create(Admin);
      return true;
    }
  }
}
