/** The session record the handlers read and write, and the handlers' helpers on it. */
module Sessions {
  import opened Wrappers

  const MFA_PENDING_TTL_SECONDS: int := 300
  const SESSION_ROTATION_INTERVAL_SECONDS: int := 900

  type UserId = nat

  datatype Role = Admin | Operator | Auditor

  /** An operator row: its role, its authorization epoch, whether a confirmed TOTP row exists. */
  datatype OperatorRow = OperatorRow(role: Role, version: nat, mfa: bool)

  type Operators = map<UserId, OperatorRow>

  /** The keys of a session; a missing key is None. Rotating the id keeps the data. */
  datatype Session = Session(
    userId: Option<UserId>, role: Option<Role>, version: Option<nat>,
    authenticatedAt: Option<int>, reauthenticatedAt: Option<int>, rotatedAt: Option<int>,
    pendingUser: Option<UserId>, pendingAt: Option<int>
  )

  const EMPTY: Session := Session(None, None, None, None, None, None, None, None)

  function Synced(s: Session, u: UserId, row: OperatorRow): Session {
    s.(userId := Some(u), role := Some(row.role), version := Some(row.version))
  }

  function Established(s: Session, u: UserId, row: OperatorRow, now: int): Session {
    Synced(s, u, row).(authenticatedAt := Some(now), reauthenticatedAt := Some(now), rotatedAt := Some(now))
  }

  function WithoutPending(s: Session): Session { s.(pendingUser := None, pendingAt := None) }

  /** The user who owes a second factor, if the marker is still fresh. */
  function PendingUser(s: Session, now: int): Option<UserId> {
    if s.pendingUser.None? then None
    else
      var startedAt := if s.pendingAt.Some? then s.pendingAt.value else 0;
      if startedAt == 0 || now - startedAt > MFA_PENDING_TTL_SECONDS then None else s.pendingUser
  }

  function AfterPendingCheck(s: Session, now: int): Session {
    if s.pendingUser.Some? && PendingUser(s, now).None? then WithoutPending(s) else s
  }

  /** The role `authorized_role` grants. */
  function Granted(s: Session, operators: Operators, now: int, limit: nat): Option<Role> {
    if s.userId.None? || s.role.None? || s.version.None? || s.authenticatedAt.None? then None
    else if now - s.authenticatedAt.value >= limit then None
    else if s.userId.value !in operators then None
    else
      var row := operators[s.userId.value];
      if row.role != s.role.value || row.version != s.version.value then None else Some(row.role)
  }

  function Rotated(s: Session, now: int): Session {
    if s.rotatedAt.Some? && now - s.rotatedAt.value < SESSION_ROTATION_INTERVAL_SECONDS then s
    else s.(rotatedAt := Some(now))
  }

  /** What `authorized_role` leaves behind: a rotated session, a flushed one, or an anonymous one. */
  function AfterGuard(s: Session, operators: Operators, now: int, limit: nat): Session {
    if s.userId.None? then s
    else if Granted(s, operators, now, limit).None? then EMPTY
    else Rotated(s, now)
  }

  class SessionStore {
    var userId: Option<UserId>
    var role: Option<Role>
    var version: Option<nat>
    var authenticatedAt: Option<int>
    var reauthenticatedAt: Option<int>
    var rotatedAt: Option<int>
    var pendingUser: Option<UserId>
    var pendingAt: Option<int>
    var idCycles: nat

    function Data(): Session
      reads this
    {
      Session(userId, role, version, authenticatedAt, reauthenticatedAt, rotatedAt, pendingUser, pendingAt)
    }

    constructor ()
      ensures Data() == EMPTY && idCycles == 0
    {
      userId, role, version, authenticatedAt := None, None, None, None;
      reauthenticatedAt, rotatedAt, pendingUser, pendingAt, idCycles := None, None, None, None, 0;
    }

    method Flush()
      modifies this
      ensures Data() == EMPTY && idCycles == old(idCycles) + 1
    {
      userId, role, version, authenticatedAt := None, None, None, None;
      reauthenticatedAt, rotatedAt, pendingUser, pendingAt := None, None, None, None;
      idCycles := idCycles + 1;
    }

    method SyncSessionIdentity(u: UserId, row: OperatorRow)
      modifies this
      ensures Data() == Synced(old(Data()), u, row) && idCycles == old(idCycles)
      ensures userId == Some(u) && role == Some(row.role) && version == Some(row.version)
      ensures authenticatedAt == old(authenticatedAt) && pendingUser == old(pendingUser)
    {
      userId := Some(u);
      role := Some(row.role);
      version := Some(row.version);
    }

    method EstablishSession(u: UserId, row: OperatorRow, now: int)
      modifies this
      ensures Data() == Established(old(Data()), u, row, now) && idCycles == old(idCycles) + 1
      ensures userId == Some(u) && role == Some(row.role) && version == Some(row.version)
      ensures authenticatedAt == reauthenticatedAt == rotatedAt == Some(now)
      ensures pendingUser == old(pendingUser) && pendingAt == old(pendingAt)
    {
      idCycles := idCycles + 1;
      SyncSessionIdentity(u, row);
      authenticatedAt := Some(now);
      reauthenticatedAt := Some(now);
      rotatedAt := Some(now);
    }

    method ClearMfaPending()
      modifies this
      ensures Data() == WithoutPending(old(Data())) && idCycles == old(idCycles)
      ensures pendingUser == None && pendingAt == None && userId == old(userId)
    {
      pendingUser := None;
      pendingAt := None;
    }

    method MfaPendingUserId(now: int) returns (u: Option<UserId>)
      modifies this
      ensures u == PendingUser(old(Data()), now) && Data() == AfterPendingCheck(old(Data()), now)
      ensures u.Some? <==> && old(pendingUser).Some? && old(pendingAt).Some? && old(pendingAt).value != 0
                           && now - old(pendingAt).value <= 300
      ensures u.Some? ==> u == old(pendingUser) && Data() == old(Data())
      ensures u.None? ==> pendingUser == None
      ensures idCycles == old(idCycles)
    {
      if pendingUser.None? {
        return None;
      }
      var startedAt := if pendingAt.Some? then pendingAt.value else 0;
      if startedAt == 0 || now - startedAt > MFA_PENDING_TTL_SECONDS {
        ClearMfaPending();
        return None;
      }
      return pendingUser;
    }

    method RotateSessionIdIfDue(now: int)
      modifies this
      ensures Data() == Rotated(old(Data()), now)
      ensures idCycles == old(idCycles) + if old(rotatedAt).Some? && now - old(rotatedAt).value >= 900 then 1 else 0
      ensures rotatedAt == if old(rotatedAt).Some? && now - old(rotatedAt).value < 900
                           then old(rotatedAt) else Some(now)
      ensures Data() == old(Data()).(rotatedAt := rotatedAt)
    {
      if rotatedAt.None? {
        rotatedAt := Some(now);
        return;
      }
      if now - rotatedAt.value < SESSION_ROTATION_INTERVAL_SECONDS {
        return;
      }
      idCycles := idCycles + 1;
      rotatedAt := Some(now);
    }

    method AuthorizedRole(operators: Operators, now: int, limit: nat) returns (granted: Option<Role>)
      modifies this
      ensures granted == Granted(old(Data()), operators, now, limit)
      ensures Data() == AfterGuard(old(Data()), operators, now, limit)
      ensures granted.Some? ==> Data() == old(Data()).(rotatedAt := rotatedAt)
      ensures granted.None? ==> Data() == if old(userId).None? then old(Data()) else EMPTY
    {
      if userId.None? {
        return None;
      }
      if role.None? || version.None? || authenticatedAt.None? {
        Flush();
        return None;
      }
      if now - authenticatedAt.value >= limit {
        Flush();
        return None;
      }
      if userId.value !in operators {
        Flush();
        return None;
      }
      var row := operators[userId.value];
      if row.role != role.value || row.version != version.value {
        Flush();
        return None;
      }
      RotateSessionIdIfDue(now);
      return Some(row.role);
    }
  }
}
