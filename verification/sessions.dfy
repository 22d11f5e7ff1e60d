/** `SessionManager`: a two-state machine (active / inactive) with a
    last-activity stamp and an idle timeout. The periodic timer callback is the
    explicit transition `Tick(now)`, which reports whether it raised the
    session-expired event. */
module Sessions {
  import opened Wrappers
  import opened Text
  import opened Clock
  import opened Accounts
  import opened AuditLog

  /** `DefaultSessionTimeout`, in minutes. */
  const DefaultSessionTimeout: int := 30

  datatype Session = Session(currentUser: Option<User>, active: bool, lastActivity: int, timeoutMinutes: int)

  /** A transition's resulting session, whether it raised `SessionExpired`, and
      the audit notes it logged. */
  datatype Step = Step(session: Session, expired: bool, notes: seq<AuditNote>)

  /** A new manager: inactive, no user, the default timeout (the last-activity
      stamp is `DateTime.MinValue`, tick 0). */
  function NewSessionManager(): (s: Session)
    ensures !s.active && s.currentUser.None? && s.timeoutMinutes == DefaultSessionTimeout
  {
    Session(None, false, 0, DefaultSessionTimeout)
  }

  /** The `SessionTimeoutMinutes` setter. */
  function SetTimeout(s: Session, minutes: int): (s': Session)
    ensures s'.timeoutMinutes == minutes
    ensures s'.(timeoutMinutes := s.timeoutMinutes) == s
  {
    s.(timeoutMinutes := minutes)
  }

  /** `StartSession(user)`: binds the user, becomes active and stamps the activity. */
  function StartSession(s: Session, user: User, now: int): (r: Step)
    ensures r.session.active && r.session.currentUser == Some(user)
    ensures r.session.lastActivity == now && r.session.timeoutMinutes == s.timeoutMinutes
    ensures !r.expired
    ensures r.notes == [AuditNote("Session", user.username, "Session started", true)]
  {
    Step(Session(Some(user), true, now, s.timeoutMinutes), false,
         [AuditNote("Session", user.username, "Session started", true)])
  }

  /** `EndSession()`: becomes inactive and unbinds the user, never raising expiry;
      logs only when a user was bound. */
  function EndSession(s: Session): (r: Step)
    ensures !r.session.active && r.session.currentUser.None? && !r.expired
    ensures r.session.lastActivity == s.lastActivity && r.session.timeoutMinutes == s.timeoutMinutes
    ensures s.currentUser.None? ==> r.notes == []
    ensures s.currentUser.Some? ==> r.notes == [AuditNote("Session", s.currentUser.value.username, "Session ended", true)]
  {
    var notes := match s.currentUser
      case None => []
      case Some(u) => [AuditNote("Session", u.username, "Session ended", true)];
    Step(s.(active := false, currentUser := None), false, notes)
  }

  /** `ExtendSession()`: restamps the activity of an active session, and does
      nothing to an inactive one. */
  function ExtendSession(s: Session, now: int): (s': Session)
    ensures s.active ==> s' == s.(lastActivity := now)
    ensures !s.active ==> s' == s
  {
    if s.active then s.(lastActivity := now) else s
  }

  /** The idle time has reached the timeout. */
  predicate TimedOut(s: Session, now: int) {
    AtLeastMinutes(now - s.lastActivity, s.timeoutMinutes)
  }

  /** `SessionTimerElapsed` at `now`: an inactive session, or an active one idle
      for less than the timeout, is left alone; otherwise the session becomes
      inactive and expiry is raised. The current user stays bound. */
  function Tick(s: Session, now: int): (r: Step)
    ensures !s.active ==> r.session == s && !r.expired && r.notes == []
    ensures s.active && !TimedOut(s, now) ==> r.session == s && !r.expired && r.notes == []
    ensures s.active && TimedOut(s, now) ==>
      && r.expired
      && r.session == s.(active := false)
      && r.session.currentUser == s.currentUser
    ensures r.expired ==> (|r.notes| == 1 <==> s.currentUser.Some?)
  {
    if !s.active || !TimedOut(s, now) then Step(s, false, [])
    else
      var notes := match s.currentUser
        case None => []
        case Some(u) => [AuditNote("Session", u.username,
                          "Session expired after " + IntToString(s.timeoutMinutes) + " minutes of inactivity", true)];
      Step(s.(active := false), true, notes)
  }

  /** What the presentation layer and the timer do between two logins. */
  datatype Input = TickAt(now: int) | ExtendAt(now: int)

  function Apply(s: Session, input: Input): Step {
    match input
    case TickAt(now) => Tick(s, now)
    case ExtendAt(now) => Step(ExtendSession(s, now), false, [])
  }

  /** The session after a run of inputs, and how many times expiry was raised. */
  function Run(s: Session, inputs: seq<Input>): (Session, nat)
    decreases |inputs|
  {
    if |inputs| == 0 then (s, 0)
    else
      var step := Apply(s, inputs[0]);
      var rest := Run(step.session, inputs[1..]);
      (rest.0, (if step.expired then 1 else 0) + rest.1)
  }

  /** An inactive session ignores ticks and extensions altogether. */
  lemma {:induction false} InactiveStaysQuiet(s: Session, inputs: seq<Input>)
    requires !s.active
    ensures Run(s, inputs) == (s, 0)
    decreases |inputs|
  {
    if |inputs| > 0 {
      InactiveStaysQuiet(s, inputs[1..]);
    }
  }

  /** Expiry is raised at most once per session: once raised, later ticks and
      extensions change nothing until the next `StartSession`. */
  lemma {:induction false} AtMostOneExpiry(s: Session, inputs: seq<Input>)
    ensures Run(s, inputs).1 <= 1
    ensures Run(s, inputs).1 == 1 ==> !Run(s, inputs).0.active
    decreases |inputs|
  {
    if |inputs| > 0 {
      var step := Apply(s, inputs[0]);
      if step.expired {
        InactiveStaysQuiet(step.session, inputs[1..]);
      } else {
        AtMostOneExpiry(step.session, inputs[1..]);
      }
    }
  }

  /** A freshly started session does not expire before the timeout of pure
      idle time, and does expire at a tick once it has elapsed. */
  lemma ExpiresExactlyAtTimeout(s: Session, user: User, start: int, now: int)
    ensures var started := StartSession(s, user, start).session;
      Tick(started, now).expired <==> now - start >= s.timeoutMinutes * TicksPerMinute
  {
  }

  /** An extension part-way through restarts the idle clock: a tick after the
      original deadline but within the timeout of the extension raises nothing. */
  lemma ExtendPostponesExpiry(s: Session, user: User, start: int, extendAt: int, now: int)
    requires now - extendAt < s.timeoutMinutes * TicksPerMinute
    ensures var started := StartSession(s, user, start).session;
      !Tick(ExtendSession(started, extendAt), now).expired
  {
  }
}
