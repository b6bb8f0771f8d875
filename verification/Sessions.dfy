/** Setup, login, password change and logout as interleaved steps around one permit and one lock. */
module Sessions {
  import opened Ipv4

  const MAX_SESSIONS: nat := 32
  const TTL: int := 1800

  type Token = string

  /** A credential record; every write makes a new one. */
  type Credential = nat

  /** `credential` is the record the session was issued against. */
  datatype Session = Session(token: Token, csrf: Token, expires: int, credential: Credential)

  // ----- the session vector -----

  function Live(sessions: seq<Session>, now: int): seq<Session> {
    if sessions == [] then []
    else (if sessions[0].expires > now then [sessions[0]] else []) + Live(sessions[1..], now)
  }

  lemma {:induction false} LiveMembers(sessions: seq<Session>, now: int)
    ensures |Live(sessions, now)| <= |sessions|
    ensures forall s :: s in Live(sessions, now) <==> s in sessions && s.expires > now
  {
    if sessions != [] {
      assert sessions == [sessions[0]] + sessions[1..];
      LiveMembers(sessions[1..], now);
    }
  }

  lemma {:induction false} LiveAppend(sessions: seq<Session>, session: Session, now: int)
    ensures Live(sessions + [session], now) == Live(sessions, now) + if session.expires > now then [session] else []
  {
    if sessions != [] {
      assert (sessions + [session])[1..] == sessions[1..] + [session];
      LiveAppend(sessions[1..], session, now);
    }
  }

  function Trimmed(sessions: seq<Session>): (r: seq<Session>)
    ensures |r| < MAX_SESSIONS
    ensures forall s :: s in r ==> s in sessions
    decreases |sessions|
  {
    if |sessions| >= MAX_SESSIONS then Trimmed(sessions[1..]) else sessions
  }

  function Issued(sessions: seq<Session>, now: int, session: Session): (r: seq<Session>)
    ensures 0 < |r| <= MAX_SESSIONS
    ensures forall s :: s in r ==> s == session || (s in sessions && s.expires > now)
  {
    LiveMembers(sessions, now);
    Trimmed(Live(sessions, now)) + [session]
  }

  function WithoutToken(sessions: seq<Session>, token: Token): seq<Session> {
    if sessions == [] then []
    else (if sessions[0].token != token then [sessions[0]] else []) + WithoutToken(sessions[1..], token)
  }

  lemma {:induction false} WithoutMembers(sessions: seq<Session>, token: Token)
    ensures |WithoutToken(sessions, token)| <= |sessions|
    ensures forall s :: s in WithoutToken(sessions, token) <==> s in sessions && s.token != token
  {
    if sessions != [] {
      assert sessions == [sessions[0]] + sessions[1..];
      WithoutMembers(sessions[1..], token);
    }
  }

  lemma {:induction false} WithoutAppend(sessions: seq<Session>, session: Session, token: Token)
    ensures WithoutToken(sessions + [session], token) ==
      WithoutToken(sessions, token) + if session.token != token then [session] else []
  {
    if sessions != [] {
      assert (sessions + [session])[1..] == sessions[1..] + [session];
      WithoutAppend(sessions[1..], session, token);
    }
  }

  /** What the lock protects. */
  class Inner {
    var sessions: seq<Session>
    var failed: Option<int>

    constructor ()
      ensures sessions == [] && failed == None
    {
      sessions := [];
      failed := None;
    }

    /** `issue`: drops expired sessions, then the oldest until there is room, and adds one. */
    method Issue(now: int, token: Token, csrf: Token, credential: Credential)
      modifies `sessions
      ensures sessions == Issued(old(sessions), now, Session(token, csrf, now + TTL, credential))
    {
      Retain(now);
      while |sessions| >= MAX_SESSIONS
        invariant Trimmed(sessions) == Trimmed(Live(old(sessions), now))
      {
        sessions := sessions[1..];
      }
      sessions := sessions + [Session(token, csrf, now + TTL, credential)];
    }

    /** Logout drops the session of one token. */
    method Remove(token: Token)
      modifies `sessions
      ensures sessions == WithoutToken(old(sessions), token)
    {
      var kept: seq<Session> := [];
      for i := 0 to |sessions|
        invariant sessions == old(sessions) && kept == WithoutToken(sessions[..i], token)
      {
        WithoutAppend(sessions[..i], sessions[i], token);
        assert sessions[..i + 1] == sessions[..i] + [sessions[i]];
        if sessions[i].token != token {
          kept := kept + [sessions[i]];
        }
      }
      assert sessions[..|sessions|] == sessions;
      sessions := kept;
    }

    /** Every reader of the vector first drops what expired. */
    method Retain(now: int)
      modifies `sessions
      ensures sessions == Live(old(sessions), now)
    {
      var kept: seq<Session> := [];
      for i := 0 to |sessions|
        invariant sessions == old(sessions) && kept == Live(sessions[..i], now)
      {
        LiveAppend(sessions[..i], sessions[i], now);
        assert sessions[..i + 1] == sessions[..i] + [sessions[i]];
        if sessions[i].expires > now {
          kept := kept + [sessions[i]];
        }
      }
      assert sessions[..|sessions|] == sessions;
      sessions := kept;
    }
  }

  // ----- the protocol -----

  type Thread = nat

  /** Where a request is; `Snapshot` states hold the lock. */
  datatype Pc =
    | Idle
    // Setup: holding the permit from here on.
    | SetupCheck
    | SetupWrite
    | SetupComplete(credential: Credential)
    // Login: the first step has no permit yet.
    | LoginAcquire
    | LoginThrottle
    | LoginVerify
    | LoginComplete(credential: Credential)
    | LoginFailed
    | IssueSession(credential: Credential)
    // Password change: the permit, then the lock as well.
    | ChangeLock
    | ChangeVerify(sessions: seq<Session>, disk: Option<Credential>)
    | ChangePersist(sessions: seq<Session>, disk: Option<Credential>)
    | ChangeClear(written: bool)
    // Logout between its two uses of the lock.
    | LogoutRemove(token: Token)

  predicate HoldsPermit(pc: Pc) {
    !pc.Idle? && !pc.LoginAcquire? && !pc.LogoutRemove?
  }

  predicate HoldsLock(pc: Pc) {
    pc.ChangeVerify? || pc.ChangePersist? || pc.ChangeClear?
  }

  datatype State = State(
    disk: Option<Credential>,
    nextCredential: Credential,
    sessions: seq<Session>,
    failed: Option<int>,
    permit: Option<Thread>,
    mutex: Option<Thread>,
    pcs: map<Thread, Pc>)

  function PcOf(s: State, t: Thread): Pc {
    if t in s.pcs then s.pcs[t] else Idle
  }

  function At(s: State, t: Thread, pc: Pc): State {
    s.(pcs := s.pcs[t := pc])
  }

  /** The request ends and gives back what it holds. */
  function Finish(s: State, t: Thread): State {
    At(s, t, Idle).(permit := if s.permit == Some(t) then None else s.permit,
      mutex := if s.mutex == Some(t) then None else s.mutex)
  }

  datatype Write = Written | Unpublished | Published

  /** A step of one request; outcomes of passwords, files and randomness come with it. */
  datatype Action =
    | BeginSetup(t: Thread)
    | BeginLogin(t: Thread)
    | BeginChange(t: Thread)
    | BeginLogout(t: Thread, token: Token, csrf: Token, now: int)
    | CheckSession(now: int)
    | Continue(t: Thread, now: int, ok: bool, write: Write, token: Token, csrf: Token)
    | Abandon(t: Thread)

  predicate LockFree(s: State) {
    s.mutex.None?
  }

  function TakePermit(s: State, t: Thread, pc: Pc): State {
    if s.permit.None? then At(s, t, pc).(permit := Some(t)) else Finish(s, t)
  }

  predicate Throttled(s: State, now: int) {
    s.failed.Some? && now - s.failed.value < 1
  }

  /** A new record reaches the file. */
  function Rewritten(s: State): State {
    s.(disk := Some(s.nextCredential), nextCredential := s.nextCredential + 1)
  }

  function SetupStep(s: State, a: Action): State
    requires a.Continue?
  {
    match PcOf(s, a.t)
    case SetupCheck => if s.disk.None? && a.ok then At(s, a.t, SetupWrite) else Finish(s, a.t)
    case SetupWrite =>
      if a.write.Unpublished? then Finish(s, a.t)
      else if a.write.Published? then Finish(Rewritten(s), a.t)
      else At(Rewritten(s), a.t, SetupComplete(s.nextCredential))
    case SetupComplete(credential) => if a.ok then At(s, a.t, IssueSession(credential)) else Finish(s, a.t)
    case _ => s
  }

  function LoginStep(s: State, a: Action): State
    requires a.Continue?
  {
    match PcOf(s, a.t)
    case LoginAcquire => TakePermit(s, a.t, LoginThrottle)
    case LoginThrottle =>
      if !LockFree(s) then s else if Throttled(s, a.now) then Finish(s, a.t) else At(s, a.t, LoginVerify)
    case LoginVerify =>
      if s.disk.Some? && a.ok then At(s, a.t, LoginComplete(s.disk.value)) else At(s, a.t, LoginFailed)
    case LoginComplete(credential) => if a.ok then At(s, a.t, IssueSession(credential)) else Finish(s, a.t)
    case LoginFailed => if !LockFree(s) then s else Finish(s.(failed := Some(a.now)), a.t)
    case IssueSession(credential) =>
      if !LockFree(s) then s
      else if !a.ok then Finish(s.(sessions := Trimmed(Live(s.sessions, a.now))), a.t)
      else Finish(s.(sessions := Issued(s.sessions, a.now, Session(a.token, a.csrf, a.now + TTL, credential))), a.t)
    case _ => s
  }

  /** A live session with this token and its own csrf token. */
  predicate Authorised(s: State, token: Token, csrf: Token, now: int) {
    exists i ::
      && 0 <= i < |s.sessions| && s.sessions[i].token == token
      && s.sessions[i].csrf == csrf && s.sessions[i].expires > now
  }

  function ChangeStep(s: State, a: Action): State
    requires a.Continue?
  {
    match PcOf(s, a.t)
    case ChangeLock => if !LockFree(s) then s else At(s, a.t, ChangeVerify(s.sessions, s.disk)).(mutex := Some(a.t))
    case ChangeVerify(sessions, disk) =>
      if !Authorised(s, a.token, a.csrf, a.now) || Throttled(s, a.now) || s.disk.None? then Finish(s, a.t)
      else if !a.ok then Finish(s.(failed := Some(a.now)), a.t)
      else At(s, a.t, ChangePersist(sessions, disk))
    case ChangePersist(_, _) =>
      if a.write.Unpublished? then Finish(s, a.t)
      else At(Rewritten(s), a.t, ChangeClear(a.write.Written?))
    case ChangeClear(written) =>
      if !written || s.disk.None? then Finish(s.(sessions := []), a.t)
      else Finish(s.(sessions := [Session(a.token, a.csrf, a.now + TTL, s.disk.value)], failed := None), a.t)
    case _ => s
  }

  function LogoutStep(s: State, a: Action): State
    requires a.Continue?
  {
    match PcOf(s, a.t)
    case LogoutRemove(token) => if !LockFree(s) then s else Finish(s.(sessions := WithoutToken(s.sessions, token)), a.t)
    case _ => s
  }

  function Step(s: State, a: Action): State {
    match a
    case BeginSetup(t) => if PcOf(s, t).Idle? then TakePermit(s, t, SetupCheck) else s
    case BeginLogin(t) => if PcOf(s, t).Idle? && s.disk.Some? then At(s, t, LoginAcquire) else s
    case BeginChange(t) => if PcOf(s, t).Idle? then TakePermit(s, t, ChangeLock) else s
    case BeginLogout(t, token, csrf, now) =>
      if !PcOf(s, t).Idle? || !LockFree(s) then s
      else
        var kept := s.(sessions := Live(s.sessions, now));
        if Authorised(s, token, csrf, now) then At(kept, t, LogoutRemove(token)) else kept
    case CheckSession(now) => if LockFree(s) then s.(sessions := Live(s.sessions, now)) else s
    case Continue(t, _, _, _, _, _) =>
      var pc := PcOf(s, t);
      if pc.SetupCheck? || pc.SetupWrite? || pc.SetupComplete? then SetupStep(s, a)
      else if pc.ChangeLock? || HoldsLock(pc) then ChangeStep(s, a)
      else if pc.LogoutRemove? then LogoutStep(s, a)
      else LoginStep(s, a)
    case Abandon(t) =>
      // A dropped request: its blocking work is done, its result is not used.
      if PcOf(s, t).IssueSession? || PcOf(s, t).LoginFailed? then Finish(s, t) else s
  }

  // ----- the invariant -----

  /** What a request's place in the protocol says about the shared state. */
  predicate PcHolds(s: State, pc: Pc) {
    match pc
    case SetupWrite => s.disk.None?
    case SetupComplete(credential) => s.disk == Some(credential)
    case LoginComplete(credential) => s.disk == Some(credential)
    case IssueSession(credential) => s.disk == Some(credential)
    case ChangeVerify(sessions, disk) => s.sessions == sessions && s.disk == disk
    case ChangePersist(sessions, disk) => s.sessions == sessions && s.disk == disk && disk.Some?
    case ChangeClear(_) => s.disk.Some?
    case _ => true
  }

  ghost predicate Threads(s: State) {
    forall t :: t in s.pcs ==>
      && (HoldsPermit(s.pcs[t]) <==> s.permit == Some(t))
      && (HoldsLock(s.pcs[t]) <==> s.mutex == Some(t))
      && PcHolds(s, s.pcs[t])
  }

  predicate Clearing(s: State) {
    s.permit.Some? && PcOf(s, s.permit.value).ChangeClear?
  }

  /** Every session was issued against the record on disk; without a record there is none. */
  ghost predicate Current(s: State) {
    forall i :: 0 <= i < |s.sessions| ==> s.disk == Some(s.sessions[i].credential)
  }

  ghost predicate Inv(s: State) {
    && Threads(s)
    && (s.permit.Some? ==> s.permit.value in s.pcs)
    && (s.mutex.Some? ==> s.mutex == s.permit)
    && |s.sessions| <= MAX_SESSIONS
    && (!Clearing(s) ==> Current(s))
    && (s.disk.Some? ==> s.disk.value < s.nextCredential)
  }

  lemma InitiallySafe(disk: Option<Credential>, next: Credential)
    requires disk.Some? ==> disk.value < next
    ensures Inv(State(disk, next, [], None, None, None, map[]))
  {
  }

  // ----- every step keeps it -----

  /** Ending a request that holds its permit, with sessions that are still current. */
  lemma FinishKeeps(s: State, t: Thread)
    requires Threads(s) && (s.permit.Some? ==> s.permit.value in s.pcs) && (s.mutex.Some? ==> s.mutex == s.permit)
    requires |s.sessions| <= MAX_SESSIONS && Current(s) && (s.disk.Some? ==> s.disk.value < s.nextCredential)
    ensures Inv(Finish(s, t))
  {
  }

  /** Moving a request on inside its part of the protocol. */
  lemma MoveKeeps(s: State, t: Thread, pc: Pc)
    requires Inv(s) && !Clearing(s) && PcHolds(s, pc)
    requires HoldsPermit(pc) == (s.permit == Some(t)) && HoldsLock(pc) == (s.mutex == Some(t)) && !pc.ChangeClear?
    ensures Inv(At(s, t, pc))
  {
  }

  lemma TakeKeeps(s: State, t: Thread, pc: Pc)
    requires Inv(s) && !HoldsPermit(PcOf(s, t)) && (pc.SetupCheck? || pc.LoginThrottle? || pc.ChangeLock?)
    ensures Inv(TakePermit(s, t, pc))
  {
  }

  /** Only the request with the permit can be clearing, and then nobody else gets the lock. */
  lemma ClearingIsAlone(s: State, t: Thread)
    requires Inv(s) && t in s.pcs
    ensures HoldsPermit(s.pcs[t]) && !s.pcs[t].ChangeClear? ==> !Clearing(s)
    ensures LockFree(s) ==> !Clearing(s)
  {
  }

  lemma FewerSessions(s: State, sessions: seq<Session>)
    requires Inv(s) && !Clearing(s) && LockFree(s) && |sessions| <= MAX_SESSIONS
    requires forall x :: x in sessions ==> x in s.sessions
    ensures Inv(s.(sessions := sessions))
  {
    forall i | 0 <= i < |sessions|
      ensures s.disk == Some(sessions[i].credential)
    {
      assert sessions[i] in s.sessions;
    }
  }

  lemma EndKeeps(s: State, t: Thread)
    requires Inv(s) && !Clearing(s)
    ensures Inv(Finish(s, t))
  {
    FinishKeeps(s, t);
  }

  lemma FailKeeps(s: State, t: Thread, now: int)
    requires Inv(s) && !Clearing(s)
    ensures Inv(Finish(s.(failed := Some(now)), t))
  {
    FinishKeeps(s.(failed := Some(now)), t);
  }

  lemma FirstIsCurrent(s: State)
    requires Current(s) && s.sessions != []
    ensures s.disk.Some?
  {
    assert s.disk == Some(s.sessions[0].credential);
  }

  lemma NoRecordNoSessions(s: State)
    requires Inv(s) && !Clearing(s) && s.disk.None?
    ensures s.sessions == []
  {
    if s.sessions != [] {
      FirstIsCurrent(s);
    }
  }

  lemma SetupWriteKeeps(s: State, a: Action)
    requires Inv(s) && a.Continue? && PcOf(s, a.t).SetupWrite?
    ensures Inv(SetupStep(s, a))
  {
    ClearingIsAlone(s, a.t);
    NoRecordNoSessions(s);
    RewriteOthers(s, a.t);
    if a.write.Published? {
      FinishKeeps(At(Rewritten(s), a.t, SetupCheck), a.t);
    } else if a.write.Unpublished? {
      EndKeeps(s, a.t);
    }
  }

  lemma SetupKeeps(s: State, a: Action)
    requires Inv(s) && a.Continue? && (PcOf(s, a.t).SetupCheck? || PcOf(s, a.t).SetupComplete?)
    ensures Inv(SetupStep(s, a))
  {
    ClearingIsAlone(s, a.t);
    var pc := PcOf(s, a.t);
    if SetupStep(s, a) == Finish(s, a.t) {
      EndKeeps(s, a.t);
    } else if pc.SetupCheck? {
      MoveKeeps(s, a.t, SetupWrite);
    } else {
      MoveKeeps(s, a.t, IssueSession(pc.credential));
    }
  }

  /** No other request depends on the record while one that may write it has the permit. */
  lemma RewriteOthers(s: State, t: Thread)
    requires Inv(s) && s.permit == Some(t)
    requires PcOf(s, t).SetupWrite? || PcOf(s, t).ChangePersist?
    ensures forall u :: u in s.pcs && u != t ==> PcHolds(Rewritten(s), s.pcs[u])
  {
  }

  lemma LoginKeeps(s: State, a: Action)
    requires Inv(s) && a.Continue?
    requires var pc := PcOf(s, a.t); pc.LoginThrottle? || pc.LoginVerify? || pc.LoginComplete? || pc.LoginFailed?
    ensures Inv(LoginStep(s, a))
  {
    ClearingIsAlone(s, a.t);
    match PcOf(s, a.t) {
      case LoginThrottle =>
        if LockFree(s) {
          if Throttled(s, a.now) {
            EndKeeps(s, a.t);
          } else {
            MoveKeeps(s, a.t, LoginVerify);
          }
        }
      case LoginVerify =>
        if s.disk.Some? && a.ok {
          MoveKeeps(s, a.t, LoginComplete(s.disk.value));
        } else {
          MoveKeeps(s, a.t, LoginFailed);
        }
      case LoginComplete(credential) =>
        if a.ok {
          MoveKeeps(s, a.t, IssueSession(credential));
        } else {
          EndKeeps(s, a.t);
        }
      case LoginFailed =>
        FailKeeps(s, a.t, a.now);
    }
  }

  lemma SessionsKept(s: State, t: Thread, sessions: seq<Session>)
    requires Inv(s) && !Clearing(s) && LockFree(s) && |sessions| <= MAX_SESSIONS
    requires forall x :: x in sessions ==> s.disk == Some(x.credential)
    ensures Inv(Finish(s.(sessions := sessions), t))
  {
    assert forall i :: 0 <= i < |sessions| ==> sessions[i] in sessions;
    FinishKeeps(s.(sessions := sessions), t);
  }

  lemma CurrentMembers(s: State)
    requires Current(s)
    ensures forall x :: x in s.sessions ==> s.disk == Some(x.credential)
  {
  }

  lemma IssueKeeps(s: State, a: Action)
    requires Inv(s) && a.Continue? && PcOf(s, a.t).IssueSession?
    ensures Inv(LoginStep(s, a))
  {
    ClearingIsAlone(s, a.t);
    if LockFree(s) {
      CurrentMembers(s);
      LiveMembers(s.sessions, a.now);
      if a.ok {
        SessionsKept(s, a.t, Issued(s.sessions, a.now, Session(a.token, a.csrf, a.now + TTL, PcOf(s, a.t).credential)));
      } else {
        SessionsKept(s, a.t, Trimmed(Live(s.sessions, a.now)));
      }
    }
  }

  lemma ChangeLockKeeps(s: State, a: Action)
    requires Inv(s) && a.Continue? && PcOf(s, a.t).ChangeLock?
    ensures Inv(ChangeStep(s, a))
  {
    ClearingIsAlone(s, a.t);
  }

  lemma ChangeKeeps(s: State, a: Action)
    requires Inv(s) && a.Continue? && PcOf(s, a.t).ChangeVerify?
    ensures Inv(ChangeStep(s, a))
  {
    ClearingIsAlone(s, a.t);
    var pc := PcOf(s, a.t);
    if ChangeStep(s, a) == Finish(s, a.t) {
      EndKeeps(s, a.t);
    } else if !a.ok {
      FailKeeps(s, a.t, a.now);
    } else {
      MoveKeeps(s, a.t, ChangePersist(pc.sessions, pc.disk));
    }
  }

  lemma PersistKeeps(s: State, a: Action)
    requires Inv(s) && a.Continue? && (PcOf(s, a.t).ChangePersist? || PcOf(s, a.t).ChangeClear?)
    ensures Inv(ChangeStep(s, a))
  {
    if PcOf(s, a.t).ChangePersist? {
      ClearingIsAlone(s, a.t);
      FinishKeeps(s, a.t);
      RewriteOthers(s, a.t);
    } else {
      EndClear(s, a.t, []);
      EndClear(s, a.t, [Session(a.token, a.csrf, a.now + TTL, s.disk.value)]);
    }
  }

  /** Leaving the clearing state with sessions of the new record, or none. */
  lemma EndClear(s: State, t: Thread, sessions: seq<Session>)
    requires Inv(s) && PcOf(s, t).ChangeClear? && |sessions| <= 1
    requires forall i :: 0 <= i < |sessions| ==> s.disk == Some(sessions[i].credential)
    ensures Inv(Finish(s.(sessions := sessions), t)) && Inv(Finish(s.(sessions := sessions, failed := None), t))
  {
  }

  lemma LogoutKeeps(s: State, a: Action)
    requires Inv(s) && a.Continue? && PcOf(s, a.t).LogoutRemove?
    ensures Inv(LogoutStep(s, a))
  {
    ClearingIsAlone(s, a.t);
    if LockFree(s) {
      var rest := WithoutToken(s.sessions, PcOf(s, a.t).token);
      WithoutMembers(s.sessions, PcOf(s, a.t).token);
      FewerSessions(s, rest);
      FinishKeeps(s.(sessions := rest), a.t);
    }
  }

  lemma BeginKeeps(s: State, a: Action)
    requires Inv(s) && !a.Continue? && !a.Abandon?
    ensures Inv(Step(s, a))
  {
    match a {
      case BeginSetup(t) =>
        if PcOf(s, t).Idle? {
          TakeKeeps(s, t, SetupCheck);
        }
      case BeginChange(t) =>
        if PcOf(s, t).Idle? {
          TakeKeeps(s, t, ChangeLock);
        }
      case BeginLogin(t) =>
        if PcOf(s, t).Idle? {
          EnterWithoutPermit(s, t, LoginAcquire);
        }
      case BeginLogout(t, token, csrf, now) =>
        if PcOf(s, t).Idle? && LockFree(s) {
          LiveMembers(s.sessions, now);
          NotClearing(s);
          FewerSessions(s, Live(s.sessions, now));
          EnterWithoutPermit(s.(sessions := Live(s.sessions, now)), t, LogoutRemove(token));
        }
      case CheckSession(now) =>
        if LockFree(s) {
          LiveMembers(s.sessions, now);
          NotClearing(s);
          FewerSessions(s, Live(s.sessions, now));
        }
    }
  }

  lemma NotClearing(s: State)
    requires Inv(s) && LockFree(s)
    ensures !Clearing(s)
  {
    if s.permit.Some? {
      ClearingIsAlone(s, s.permit.value);
    }
  }

  lemma EnterWithoutPermit(s: State, t: Thread, pc: Pc)
    requires Inv(s) && PcOf(s, t).Idle? && (pc.LoginAcquire? || pc.LogoutRemove?)
    ensures Inv(At(s, t, pc))
  {
  }

  /** Every step of every request keeps the invariant. */
  lemma StepKeeps(s: State, a: Action)
    requires Inv(s)
    ensures Inv(Step(s, a))
  {
    if a.Continue? {
      var pc := PcOf(s, a.t);
      if pc.SetupWrite? {
        SetupWriteKeeps(s, a);
      } else if pc.SetupCheck? || pc.SetupComplete? {
        SetupKeeps(s, a);
      } else if pc.ChangeLock? {
        ChangeLockKeeps(s, a);
      } else if pc.ChangeVerify? {
        ChangeKeeps(s, a);
      } else if HoldsLock(pc) {
        PersistKeeps(s, a);
      } else if pc.LogoutRemove? {
        LogoutKeeps(s, a);
      } else if pc.IssueSession? {
        IssueKeeps(s, a);
      } else if pc.LoginAcquire? {
        TakeKeeps(s, a.t, LoginThrottle);
      } else if !pc.Idle? {
        LoginKeeps(s, a);
      }
    } else if a.Abandon? {
      if PcOf(s, a.t).IssueSession? || PcOf(s, a.t).LoginFailed? {
        ClearingIsAlone(s, a.t);
        FinishKeeps(s, a.t);
      }
    } else {
      BeginKeeps(s, a);
    }
  }

  function RunAll(s: State, actions: seq<Action>): State
    decreases |actions|
  {
    if actions == [] then s else RunAll(Step(s, actions[0]), actions[1..])
  }

  /** In every interleaving from a fresh start, the invariant holds. */
  lemma {:induction false} RunKeeps(s: State, actions: seq<Action>)
    requires Inv(s)
    ensures Inv(RunAll(s, actions))
    decreases |actions|
  {
    if actions != [] {
      StepKeeps(s, actions[0]);
      RunKeeps(Step(s, actions[0]), actions[1..]);
    }
  }

  // ----- what a reader and a password change can rely on -----

  /** Whoever gets the lock sees only sessions of the record on disk, at most 32, and none before setup. */
  lemma ReadersSeeCurrentSessions(disk: Option<Credential>, next: Credential, actions: seq<Action>)
    requires disk.Some? ==> disk.value < next
    ensures var s := RunAll(State(disk, next, [], None, None, None, map[]), actions);
      |s.sessions| <= 32 && (LockFree(s) ==> Current(s) && (s.disk.None? ==> s.sessions == []))
  {
    InitiallySafe(disk, next);
    var start := State(disk, next, [], None, None, None, map[]);
    RunKeeps(start, actions);
    var s := RunAll(start, actions);
    if LockFree(s) {
      NotClearing(s);
      if s.disk.None? {
        NoRecordNoSessions(s);
      }
    }
  }

  /**
   * The step that persists a changed password, seen from the moment the change took the lock: before
   * publication nothing was altered; after an uncertain publication no session remains; after a certain
   * one only the new session does.
   */
  lemma ChangeIsAllOrNothing(s: State, a: Action, b: Action)
    requires Inv(s) && a.Continue? && b.Continue? && b.t == a.t && PcOf(s, a.t).ChangePersist?
    ensures var pc := PcOf(s, a.t); var mid := Step(s, a);
      if a.write.Unpublished? then
        mid.sessions == pc.sessions && mid.disk == pc.disk && LockFree(mid) && mid.permit.None?
      else
        var end := Step(mid, b);
        && end.disk == Some(s.nextCredential) && end.disk != s.disk && LockFree(end) && end.permit.None?
        && end.sessions == if a.write.Written? then [Session(b.token, b.csrf, b.now + TTL, s.nextCredential)] else []
  {
  }

  /** While a change is clearing, no other request's step touches sessions or the record. */
  lemma ClearingExcludesOthers(s: State, a: Action)
    requires Inv(s) && Clearing(s) && (a.Continue? || a.Abandon? ==> Some(a.t) != s.permit)
    ensures Step(s, a).sessions == s.sessions && Step(s, a).disk == s.disk && Clearing(Step(s, a))
  {
  }

  // ----- a whole password change among other requests -----

  /** The run, up to the moment a request gives the lock back. */
  function RunUntilReleased(s: State, t: Thread, actions: seq<Action>): State
    decreases |actions|
  {
    if actions == [] || !HoldsLock(PcOf(s, t)) then s
    else RunUntilReleased(Step(s, actions[0]), t, actions[1..])
  }

  /**
   * Inside the change: nothing has moved, or the new record has been published and the sessions are still the
   * old ones.
   */
  predicate Changing(start: State, s: State, t: Thread) {
    && HoldsLock(PcOf(s, t)) && s.sessions == start.sessions
    && if PcOf(s, t).ChangeClear? then s.disk == Some(start.nextCredential)
       else s.disk == start.disk && s.nextCredential == start.nextCredential
  }

  /**
   * After the change: nothing has moved, or the record is new and at most one session exists, which is of that
   * record.
   */
  predicate Changed(start: State, s: State) {
    && LockFree(s)
    && if s.disk == start.disk then s.sessions == start.sessions
       else
         && s.disk == Some(start.nextCredential) && |s.sessions| <= 1
         && (s.sessions != [] ==> s.sessions[0].credential == start.nextCredential)
  }

  /** No step of another request, and no other kind of step, gets through while the lock is held. */
  lemma LockExcludesOthers(s: State, t: Thread, a: Action)
    requires Inv(s) && HoldsLock(PcOf(s, t)) && !(a.Continue? && a.t == t)
    ensures var after := Step(s, a);
      && after.sessions == s.sessions && after.disk == s.disk && after.nextCredential == s.nextCredential
      && PcOf(after, t) == PcOf(s, t)
  {
  }

  lemma ChangeMoves(start: State, s: State, t: Thread, a: Action)
    requires Inv(s) && Changing(start, s, t) && a.Continue? && a.t == t
    requires start.disk.Some? ==> start.disk.value < start.nextCredential
    ensures if HoldsLock(PcOf(Step(s, a), t)) then Changing(start, Step(s, a), t) else Changed(start, Step(s, a))
  {
  }

  /**
   * A password change is atomic in every interleaving: until it gives the lock back the sessions are those it found,
   * and when it does, record and sessions are both as it found them or both new.
   */
  lemma {:induction false} ChangeIsAtomic(start: State, s: State, t: Thread, actions: seq<Action>)
    requires Inv(s) && Changing(start, s, t)
    requires start.disk.Some? ==> start.disk.value < start.nextCredential
    ensures var end := RunUntilReleased(s, t, actions);
      Inv(end) && if HoldsLock(PcOf(end, t)) then Changing(start, end, t) else Changed(start, end)
    decreases |actions|
  {
    if actions != [] {
      var a := actions[0];
      StepKeeps(s, a);
      if a.Continue? && a.t == t {
        ChangeMoves(start, s, t, a);
      } else {
        LockExcludesOthers(s, t, a);
      }
      if HoldsLock(PcOf(Step(s, a), t)) {
        ChangeIsAtomic(start, Step(s, a), t, actions[1..]);
      }
    }
  }

  /** From the step that takes the lock, among any other steps. */
  lemma ChangeFromLock(s: State, a: Action, actions: seq<Action>)
    requires Inv(s) && a.Continue? && PcOf(s, a.t).ChangeLock? && LockFree(s)
    ensures var end := RunUntilReleased(Step(s, a), a.t, actions);
      Inv(end) && if HoldsLock(PcOf(end, a.t)) then Changing(s, end, a.t) else Changed(s, end)
  {
    StepKeeps(s, a);
    ChangeIsAtomic(s, Step(s, a), a.t, actions);
  }

  // ----- where sessions and records come from -----

  /** A request has proved who it is: a setup code, a password, or a session with its password. */
  predicate Proves(s: State, a: Action, t: Thread) {
    && a.Continue? && a.t == t && a.ok
    && match PcOf(s, t)
       case SetupCheck => s.disk.None?
       case LoginVerify => s.disk.Some?
       case ChangeVerify(_, _) => s.disk.Some? && Authorised(s, a.token, a.csrf, a.now) && !Throttled(s, a.now)
       case _ => false
  }

  /** The places behind the proof. */
  predicate Proved(pc: Pc) {
    || pc.SetupWrite? || pc.SetupComplete?
    || pc.LoginComplete? || pc.IssueSession?
    || pc.ChangePersist? || pc.ChangeClear?
  }

  /** Only a proof leads behind it. */
  lemma ProofIsNeeded(s: State, a: Action, t: Thread)
    requires !Proved(PcOf(s, t)) && Proved(PcOf(Step(s, a), t))
    ensures Proves(s, a, t)
  {
    if a.CheckSession? || a.t != t {
      OthersStay(s, a, t);
    } else if a.Continue? {
      StepOfRequest(s, a);
    }
  }

  lemma StepOfRequest(s: State, a: Action)
    requires a.Continue?
    ensures var pc := PcOf(s, a.t);
      Step(s, a) ==
        if pc.SetupCheck? || pc.SetupWrite? || pc.SetupComplete? then SetupStep(s, a)
        else if pc.ChangeLock? || pc.ChangeVerify? || pc.ChangePersist? || pc.ChangeClear? then ChangeStep(s, a)
        else if pc.LogoutRemove? then LogoutStep(s, a)
        else LoginStep(s, a)
  {
  }

  /** A request whose verification fails is not behind a proof. */
  lemma FailedProof(s: State, a: Action)
    requires a.Continue? && !a.ok
    requires PcOf(s, a.t).SetupCheck? || PcOf(s, a.t).LoginVerify? || PcOf(s, a.t).ChangeVerify?
    ensures var after := Step(s, a);
      && !Proved(PcOf(after, a.t)) && after.sessions == s.sessions && after.disk == s.disk
      && (PcOf(s, a.t).LoginVerify? ==> PcOf(after, a.t).LoginFailed?)
      && (PcOf(s, a.t).ChangeVerify? && Proves(s, a.(ok := true), a.t) ==> after.failed == Some(a.now))
  {
  }

  /** Before setup no login starts, and after it no setup gets further than the check. */
  lemma SetupComesFirst(s: State, a: Action, t: Thread)
    ensures s.disk.None? && PcOf(s, t).Idle? ==> !PcOf(Step(s, a), t).LoginAcquire?
    ensures s.disk.Some? && PcOf(s, t).SetupCheck? ==> !Proved(PcOf(Step(s, a), t))
  {
    if a.CheckSession? || a.t != t {
      OthersStay(s, a, t);
    }
  }

  /** Changing the password takes a live session with its csrf token, besides the password. */
  lemma ChangeIsAuthorised(s: State, a: Action, t: Thread)
    requires PcOf(s, t).ChangeVerify? && Proved(PcOf(Step(s, a), t))
    ensures a.Continue? && a.t == t && a.ok && exists x :: x in s.sessions && Shown(x, a.token, a.csrf, a.now)
  {
    ProofIsNeeded(s, a, t);
    AuthorisedIs(s, a.token, a.csrf, a.now);
  }

  /** A failed login waits for the lock and then ends with the throttle set; only a dropped request ends without it. */
  lemma FailedLoginThrottles(s: State, a: Action, t: Thread)
    requires PcOf(s, t).LoginFailed?
    ensures var after := Step(s, a);
      && (PcOf(after, t).LoginFailed? || PcOf(after, t).Idle?)
      && (PcOf(after, t).Idle? ==> after.sessions == s.sessions && after.disk == s.disk)
      && (PcOf(after, t).Idle? ==> a == Abandon(t) || (a.Continue? && a.t == t && after.failed == Some(a.now)))
  {
    if a.CheckSession? || a.t != t {
      OthersStay(s, a, t);
    } else if a.Continue? {
      assert Step(s, a) == LoginStep(s, a);
    }
  }

  /** A step moves its own request only. */
  lemma OthersStay(s: State, a: Action, t: Thread)
    requires a.CheckSession? || a.t != t
    ensures PcOf(Step(s, a), t) == PcOf(s, t)
  {
    if a.Continue? {
      SetupMovesOwn(s, a, t);
      LoginMovesOwn(s, a, t);
      ChangeMovesOwn(s, a, t);
    }
  }

  lemma SetupMovesOwn(s: State, a: Action, t: Thread)
    requires a.Continue? && a.t != t
    ensures PcOf(SetupStep(s, a), t) == PcOf(s, t)
  {
  }

  lemma LoginMovesOwn(s: State, a: Action, t: Thread)
    requires a.Continue? && a.t != t
    ensures PcOf(LoginStep(s, a), t) == PcOf(s, t)
  {
  }

  lemma ChangeMovesOwn(s: State, a: Action, t: Thread)
    requires a.Continue? && a.t != t
    ensures PcOf(ChangeStep(s, a), t) == PcOf(s, t) && PcOf(LogoutStep(s, a), t) == PcOf(s, t)
  {
  }

  /** For a second after a failure no password is looked at. */
  lemma ThrottleHolds(s: State, a: Action, t: Thread)
    requires a.Continue? && a.t == t && s.failed.Some? && a.now < s.failed.value + 1
    requires PcOf(s, t).LoginThrottle? || PcOf(s, t).ChangeVerify?
    ensures !PcOf(Step(s, a), t).LoginVerify? && !Proved(PcOf(Step(s, a), t)) && Step(s, a).sessions == s.sessions
  {
  }

  /** What a step can do to the sessions. */
  lemma SessionsAfter(s: State, a: Action)
    ensures var sessions := Step(s, a).sessions;
      || sessions == s.sessions
      || ((a.BeginLogout? || a.CheckSession?) && sessions == Live(s.sessions, a.now))
      || (a.Continue? && PcOf(s, a.t).IssueSession? && sessions == Trimmed(Live(s.sessions, a.now)))
      || (a.Continue? && PcOf(s, a.t).IssueSession?
          && sessions == Trimmed(Live(s.sessions, a.now))
                           + [Session(a.token, a.csrf, a.now + 1800, PcOf(s, a.t).credential)])
      || (a.Continue? && PcOf(s, a.t).LogoutRemove? && sessions == WithoutToken(s.sessions, PcOf(s, a.t).token))
      || (a.Continue? && PcOf(s, a.t).ChangeClear? && sessions == [])
      || (a.Continue? && PcOf(s, a.t).ChangeClear? && s.disk.Some?
          && sessions == [Session(a.token, a.csrf, a.now + 1800, s.disk.value)])
  {
  }

  /** A session that appears is the one its request issues, for half an hour and against the record on disk. */
  lemma OnlyProvedAdd(s: State, a: Action, session: Session)
    requires Inv(s) && session in Step(s, a).sessions && session !in s.sessions
    ensures a.Continue? && Proved(PcOf(s, a.t))
    ensures s.disk.Some? && session == Session(a.token, a.csrf, a.now + 1800, s.disk.value)
  {
    SessionsAfter(s, a);
    if a.BeginLogout? || a.CheckSession? || a.Continue? {
      LiveMembers(s.sessions, a.now);
    }
    if a.Continue? && PcOf(s, a.t).LogoutRemove? {
      WithoutMembers(s.sessions, PcOf(s, a.t).token);
    }
  }

  lemma OnlyProvedWrite(s: State, a: Action)
    requires Step(s, a).disk != s.disk
    ensures a.Continue? && Proved(PcOf(s, a.t))
  {
  }

  /**
   * A session that disappears has expired, was logged out, was the oldest of too many, or belongs to an old
   * password.
   */
  lemma OnlyThenRemoved(s: State, a: Action, session: Session)
    requires session in s.sessions && session !in Step(s, a).sessions
    ensures
      || ((a.BeginLogout? || a.CheckSession? || a.Continue?) && session.expires <= a.now)
      || (a.Continue? && PcOf(s, a.t) == LogoutRemove(session.token))
      || (a.Continue? && PcOf(s, a.t).IssueSession? && |Live(s.sessions, a.now)| >= 32)
      || (a.Continue? && PcOf(s, a.t).ChangeClear?)
  {
    SessionsAfter(s, a);
    if a.BeginLogout? || a.CheckSession? || a.Continue? {
      LiveMembers(s.sessions, a.now);
      FewAreKept(Live(s.sessions, a.now));
    }
    if a.Continue? && PcOf(s, a.t).LogoutRemove? {
      WithoutMembers(s.sessions, PcOf(s, a.t).token);
    }
  }

  lemma FewAreKept(sessions: seq<Session>)
    ensures |sessions| < 32 ==> Trimmed(sessions) == sessions
  {
  }

  /** A live session of a token, shown with its own csrf token. */
  predicate Shown(session: Session, token: Token, csrf: Token, now: int) {
    session.token == token && session.csrf == csrf && now < session.expires
  }

  lemma AuthorisedIs(s: State, token: Token, csrf: Token, now: int)
    ensures Authorised(s, token, csrf, now) <==> exists x :: x in s.sessions && Shown(x, token, csrf, now)
  {
    if Authorised(s, token, csrf, now) {
      var i :| 0 <= i < |s.sessions| && s.sessions[i].token == token && s.sessions[i].csrf == csrf
        && s.sessions[i].expires > now;
      assert Shown(s.sessions[i], token, csrf, now);
    }
  }

  /** Logging out takes a live session with its csrf token. */
  lemma LogoutIsAuthorised(s: State, a: Action, t: Thread, token: Token)
    requires PcOf(s, t) != LogoutRemove(token) && PcOf(Step(s, a), t) == LogoutRemove(token)
    ensures a.BeginLogout? && a.t == t && a.token == token
    ensures exists x :: x in s.sessions && Shown(x, token, a.csrf, a.now)
  {
    if a.BeginLogout? {
      AuthorisedIs(s, a.token, a.csrf, a.now);
    }
    if a.CheckSession? || a.t != t {
      OthersStay(s, a, t);
    }
  }

  // ----- the same over whole runs -----

  function StateAfter(s: State, actions: seq<Action>, k: nat): State
    requires k <= |actions|
  {
    RunAll(s, actions[..k])
  }

  lemma {:induction false} RunLast(s: State, actions: seq<Action>, a: Action)
    ensures RunAll(s, actions + [a]) == Step(RunAll(s, actions), a)
    decreases |actions|
  {
    if actions == [] {
      assert [] + [a] == [a] && [a][1..] == [];
    } else {
      assert (actions + [a])[1..] == actions[1..] + [a];
      RunLast(Step(s, actions[0]), actions[1..], a);
    }
  }

  lemma StartIs(s: State, actions: seq<Action>)
    ensures StateAfter(s, actions, 0) == s
  {
    assert actions[..0] == [];
  }

  lemma NextState(s: State, actions: seq<Action>, k: nat)
    requires k < |actions|
    ensures StateAfter(s, actions, k + 1) == Step(StateAfter(s, actions, k), actions[k])
  {
    assert actions[..k + 1] == actions[..k] + [actions[k]];
    RunLast(s, actions[..k], actions[k]);
  }

  /** Between two points of a run a request goes on. */
  predicate GoesOn(s: State, actions: seq<Action>, t: Thread, from: nat, to: nat)
    requires to <= |actions|
  {
    forall k :: from <= k <= to ==> !PcOf(StateAfter(s, actions, k), t).Idle?
  }

  predicate ProvedAt(s: State, actions: seq<Action>, t: Thread, i: nat, k: nat)
    requires i < k <= |actions|
  {
    Proves(StateAfter(s, actions, i), actions[i], t) && GoesOn(s, actions, t, i + 1, k)
  }

  /** The request that a thread is in has proved itself in this run, or had before the run. */
  predicate Earned(s: State, actions: seq<Action>, t: Thread, k: nat)
    requires k <= |actions|
  {
    || (Proved(PcOf(s, t)) && GoesOn(s, actions, t, 0, k))
    || (exists i :: 0 <= i < k && ProvedAt(s, actions, t, i, k))
  }

  lemma {:induction false} ProvedIsEarned(s: State, actions: seq<Action>, t: Thread, k: nat)
    requires k <= |actions| && Proved(PcOf(StateAfter(s, actions, k), t))
    ensures Earned(s, actions, t, k)
    decreases k
  {
    StartIs(s, actions);
    if k > 0 {
      var before := StateAfter(s, actions, k - 1);
      NextState(s, actions, k - 1);
      if Proved(PcOf(before, t)) {
        ProvedIsEarned(s, actions, t, k - 1);
        if Proved(PcOf(s, t)) && GoesOn(s, actions, t, 0, k - 1) {
          assert GoesOn(s, actions, t, 0, k);
        } else {
          var i :| 0 <= i < k - 1 && ProvedAt(s, actions, t, i, k - 1);
          assert ProvedAt(s, actions, t, i, k);
        }
      } else {
        ProofIsNeeded(before, actions[k - 1], t);
        assert ProvedAt(s, actions, t, k - 1, k);
      }
    }
  }

  /**
   * In every run each session that appears, and each record that is written, belongs to a request that proved
   * itself.
   */
  lemma SessionsAreEarned(s: State, actions: seq<Action>, k: nat, session: Session)
    requires Inv(s) && k < |actions|
    ensures var before, after := StateAfter(s, actions, k), StateAfter(s, actions, k + 1);
      (session in after.sessions && session !in before.sessions) || after.disk != before.disk ==>
        actions[k].Continue? && Earned(s, actions, actions[k].t, k)
  {
    var before := StateAfter(s, actions, k);
    NextState(s, actions, k);
    RunKeeps(s, actions[..k]);
    if session in Step(before, actions[k]).sessions && session !in before.sessions {
      OnlyProvedAdd(before, actions[k], session);
      ProvedIsEarned(s, actions, actions[k].t, k);
    } else if Step(before, actions[k]).disk != before.disk {
      OnlyProvedWrite(before, actions[k]);
      ProvedIsEarned(s, actions, actions[k].t, k);
    }
  }

  /** The step of a run at which a session appeared. */
  predicate AppearsAt(s: State, actions: seq<Action>, session: Session, k: nat)
    requires k < |actions|
  {
    && session !in StateAfter(s, actions, k).sessions && session in StateAfter(s, actions, k + 1).sessions
    && actions[k].Continue? && Earned(s, actions, actions[k].t, k)
  }

  /** Whoever is logged in at the end, and was not at the start, got there by a proof of that very request. */
  lemma {:induction false} NobodyGetsInWithoutProof(s: State, actions: seq<Action>, n: nat, session: Session)
    requires Inv(s) && n <= |actions|
    requires session in StateAfter(s, actions, n).sessions && session !in s.sessions
    ensures exists k :: 0 <= k < n && AppearsAt(s, actions, session, k)
    decreases n
  {
    StartIs(s, actions);
    if session in StateAfter(s, actions, n - 1).sessions {
      NobodyGetsInWithoutProof(s, actions, n - 1, session);
    } else {
      SessionsAreEarned(s, actions, n - 1, session);
      assert AppearsAt(s, actions, session, n - 1);
    }
  }

  // ----- requests that nothing disturbs succeed -----

  /** Nobody holds anything. */
  predicate Quiet(s: State, t: Thread) {
    PcOf(s, t).Idle? && s.permit.None? && s.mutex.None?
  }

  function Steps(s: State, a: Action, n: nat): State {
    if n == 0 then s else Step(Steps(s, a, n - 1), a)
  }

  /** The right password opens a session. */
  lemma LoginSucceeds(s: State, a: Action)
    requires a.Continue? && Quiet(s, a.t) && a.ok && s.disk.Some? && !Throttled(s, a.now)
    ensures var end := Steps(Step(s, BeginLogin(a.t)), a, 5);
      && end.sessions == Issued(s.sessions, a.now, Session(a.token, a.csrf, a.now + TTL, s.disk.value))
      && Quiet(end, a.t) && end.disk == s.disk
  {
    var s0 := Step(s, BeginLogin(a.t));
    FiveSteps(s0, a);
    LoginVerifies(s0, a);
    LoginIssues(Step(Step(s0, a), a), a);
  }

  lemma LoginVerifies(s: State, a: Action)
    requires a.Continue? && PcOf(s, a.t).LoginAcquire? && s.permit.None? && s.mutex.None? && !Throttled(s, a.now)
    ensures Step(Step(s, a), a) == At(s, a.t, LoginVerify).(permit := Some(a.t))
  {
    var s1 := Step(s, a);
    assert s1 == LoginStep(s, a) == At(s, a.t, LoginThrottle).(permit := Some(a.t));
    assert Step(s1, a) == LoginStep(s1, a) == At(s1, a.t, LoginVerify);
    assert At(s1, a.t, LoginVerify).pcs == s.pcs[a.t := LoginVerify];
  }

  lemma LoginIssues(s: State, a: Action)
    requires a.Continue? && a.ok && PcOf(s, a.t).LoginVerify? && s.disk.Some? && s.permit == Some(a.t) && s.mutex.None?
    ensures var end := Step(Step(Step(s, a), a), a);
      && end.sessions == Issued(s.sessions, a.now, Session(a.token, a.csrf, a.now + TTL, s.disk.value))
      && Quiet(end, a.t) && end.disk == s.disk
  {
    var s1 := Step(s, a);
    var s2 := Step(s1, a);
    assert s1 == LoginStep(s, a) == At(s, a.t, LoginComplete(s.disk.value));
    assert s2 == LoginStep(s1, a) == At(s1, a.t, IssueSession(s.disk.value));
    assert Step(s2, a) == LoginStep(s2, a);
  }

  lemma FiveSteps(s: State, a: Action)
    ensures Steps(s, a, 2) == Step(Step(s, a), a)
    ensures Steps(s, a, 4) == Step(Step(Step(Step(s, a), a), a), a)
    ensures Steps(s, a, 5) == Step(Step(Step(Step(Step(s, a), a), a), a), a)
  {
    assert Steps(s, a, 0) == s;
    assert Steps(s, a, 1) == Step(s, a);
    assert Steps(s, a, 2) == Step(Step(s, a), a);
    assert Steps(s, a, 3) == Step(Step(Step(s, a), a), a);
    assert Steps(s, a, 4) == Step(Step(Step(Step(s, a), a), a), a);
  }

  /** The setup code stores the first record and opens a session. */
  lemma SetupSucceeds(s: State, a: Action)
    requires a.Continue? && Quiet(s, a.t) && a.ok && a.write.Written? && s.disk.None?
    ensures var end := Steps(Step(s, BeginSetup(a.t)), a, 4);
      && end.disk == Some(s.nextCredential) && Quiet(end, a.t)
      && end.sessions == Issued(s.sessions, a.now, Session(a.token, a.csrf, a.now + TTL, s.nextCredential))
  {
    var s0 := Step(s, BeginSetup(a.t));
    FiveSteps(s0, a);
    SetupStores(s0, a);
    SetupIssues(Step(Step(s0, a), a), a, s.nextCredential);
  }

  lemma SetupStores(s: State, a: Action)
    requires a.Continue? && a.ok && a.write.Written? && PcOf(s, a.t).SetupCheck? && s.disk.None?
    ensures Step(Step(s, a), a) == At(Rewritten(s), a.t, SetupComplete(s.nextCredential))
  {
    var s1 := Step(s, a);
    assert s1 == SetupStep(s, a) == At(s, a.t, SetupWrite);
    assert Step(s1, a) == SetupStep(s1, a) == At(Rewritten(s1), a.t, SetupComplete(s.nextCredential));
    assert At(Rewritten(s1), a.t, SetupComplete(s.nextCredential)).pcs == s.pcs[a.t := SetupComplete(s.nextCredential)];
  }

  lemma SetupIssues(s: State, a: Action, credential: Credential)
    requires a.Continue? && a.ok && PcOf(s, a.t) == SetupComplete(credential) && s.permit == Some(a.t) && s.mutex.None?
    ensures var end := Step(Step(s, a), a);
      && end.sessions == Issued(s.sessions, a.now, Session(a.token, a.csrf, a.now + TTL, credential))
      && Quiet(end, a.t) && end.disk == s.disk
  {
    var s1 := Step(s, a);
    assert s1 == SetupStep(s, a) == At(s, a.t, IssueSession(credential));
    assert Step(s1, a) == LoginStep(s1, a);
  }

  /** A session with its password changes the record, and one session is left. */
  lemma ChangeSucceeds(s: State, a: Action)
    requires a.Continue? && Quiet(s, a.t) && a.ok && a.write.Written? && s.disk.Some?
    requires Authorised(s, a.token, a.csrf, a.now) && !Throttled(s, a.now)
    ensures var end := Steps(Step(s, BeginChange(a.t)), a, 4);
      && end.disk == Some(s.nextCredential) && Quiet(end, a.t) && end.failed.None?
      && end.sessions == [Session(a.token, a.csrf, a.now + TTL, s.nextCredential)]
  {
    var s0 := Step(s, BeginChange(a.t));
    FiveSteps(s0, a);
    ChangeVerifies(s0, a);
    ChangePersists(Step(Step(s0, a), a), a);
  }

  lemma ChangeVerifies(s: State, a: Action)
    requires a.Continue? && PcOf(s, a.t).ChangeLock? && s.mutex.None? && a.ok && s.disk.Some?
    requires Authorised(s, a.token, a.csrf, a.now) && !Throttled(s, a.now)
    ensures Step(Step(s, a), a) == At(s, a.t, ChangePersist(s.sessions, s.disk)).(mutex := Some(a.t))
  {
    var s1 := Step(s, a);
    assert s1 == ChangeStep(s, a) == At(s, a.t, ChangeVerify(s.sessions, s.disk)).(mutex := Some(a.t));
    assert Authorised(s1, a.token, a.csrf, a.now);
    assert Step(s1, a) == ChangeStep(s1, a) == At(s1, a.t, ChangePersist(s.sessions, s.disk));
    assert At(s1, a.t, ChangePersist(s.sessions, s.disk)).pcs == s.pcs[a.t := ChangePersist(s.sessions, s.disk)];
  }

  lemma ChangePersists(s: State, a: Action)
    requires a.Continue? && PcOf(s, a.t).ChangePersist? && s.permit == s.mutex == Some(a.t) && a.write.Written?
    ensures var end := Step(Step(s, a), a);
      && end.disk == Some(s.nextCredential) && Quiet(end, a.t) && end.failed.None?
      && end.sessions == [Session(a.token, a.csrf, a.now + TTL, s.nextCredential)]
  {
    var s1 := Step(s, a);
    assert s1 == ChangeStep(s, a) == At(Rewritten(s), a.t, ChangeClear(true));
    assert Step(s1, a) == ChangeStep(s1, a);
  }

  lemma LogoutEnds(s: State, a: Action)
    requires a.Continue? && PcOf(s, a.t) == LogoutRemove(a.token) && s.mutex.None?
    ensures Step(s, a).sessions == WithoutToken(s.sessions, a.token)
  {
    assert Step(s, a) == LogoutStep(s, a);
  }

  /** Logging out removes the session, and no other live one. */
  lemma LogoutSucceeds(s: State, a: Action)
    requires a.Continue? && Quiet(s, a.t) && Authorised(s, a.token, a.csrf, a.now)
    ensures var end := Step(Step(s, BeginLogout(a.t, a.token, a.csrf, a.now)), a);
      forall x :: x in end.sessions <==> x in s.sessions && x.expires > a.now && x.token != a.token
  {
    var live := Live(s.sessions, a.now);
    var mid := At(s.(sessions := live), a.t, LogoutRemove(a.token));
    assert Step(s, BeginLogout(a.t, a.token, a.csrf, a.now)) == mid;
    LogoutEnds(mid, a);
    LiveMembers(s.sessions, a.now);
    WithoutMembers(live, a.token);
  }
}
