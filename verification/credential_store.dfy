/** `UserService`: registration, login with brute-force lockout, and password
    change over an in-memory list of users and a dictionary of login-attempt
    records keyed by the lower-cased username.

    Each operation is a function of the store and of the instants (UTC ticks)
    it reads from the clock; it returns the new store together with the audit notes the call
    hands to the security log. Persisting the store after a mutation is file
    I/O and not part of this model. */
module CredentialStore {
  import opened Wrappers
  import opened Text
  import opened Clock
  import opened Seqs
  import opened PasswordHashing
  import opened PasswordPolicy
  import opened Accounts
  import opened AuditLog

  /** `MaxFailedAttempts` and `LockoutMinutes`. */
  const MaxFailedAttempts: int := 5
  const LockoutMinutes: int := 15

  datatype Store = Store(users: seq<User>, attempts: map<string, LoginAttemptInfo>)

  /** A call's return value, the store after it, and the audit notes it logged. */
  datatype Outcome<T> = Outcome(value: T, store: Store, notes: seq<AuditNote>)

  /** The shape of store every operation keeps: usernames unique ignoring case,
      a user's lock instant present only while the lock flag is set, and every
      attempt record stored under a lower-cased key. */
  ghost predicate Valid(st: Store) {
    && (forall i, j :: 0 <= i < j < |st.users| ==> !EqualsIgnoreCase(st.users[i].username, st.users[j].username))
    && (forall i :: 0 <= i < |st.users| ==> st.users[i].isLocked || st.users[i].lockedUntil.None?)
    && (forall key :: key in st.attempts ==> Fold(key) == key)
  }

  // ----------------------------------------------------------------------------
  // Looking up users and attempt records

  predicate NameMatches(u: User, username: string) {
    EqualsIgnoreCase(u.username, username)
  }

  /** `_users.FirstOrDefault(u => u.Username.Equals(username, OrdinalIgnoreCase))`. */
  function FindUser(users: seq<User>, username: string): (r: Option<nat>)
    ensures r.Some? ==> r.value < |users| && NameMatches(users[r.value], username)
    ensures r.Some? ==> forall j :: 0 <= j < r.value ==> !NameMatches(users[j], username)
    ensures r.None? <==> forall j :: 0 <= j < |users| ==> !NameMatches(users[j], username)
  {
    FirstIndex(users, (u: User) => NameMatches(u, username))
  }

  /** The failure count on record for `username`, 0 when there is no record. */
  function PriorFailures(st: Store, username: string): int {
    var key := Fold(username);
    if key in st.attempts then st.attempts[key].failedAttempts else 0
  }

  /** The attempt record shows a lockout that has not yet ended at `now`. */
  predicate AttemptLocked(st: Store, username: string, now: int) {
    var key := Fold(username);
    key in st.attempts && st.attempts[key].lockoutEnd.Some? && st.attempts[key].lockoutEnd.value > now
  }

  /** The user's own lock fields show a lock that has not yet ended at `now`. */
  predicate UserLocked(u: User, now: int) {
    u.isLocked && u.lockedUntil.Some? && u.lockedUntil.value > now
  }

  // ----------------------------------------------------------------------------
  // Stored-file format detection

  /** The character is one of the two that open a JSON document. */
  predicate IsJsonOpener(c: char) {
    c == '{' || c == '['
  }

  /** The scan behind `Take(10)` followed by `Contains`: none of the characters
      that start within the first `budget` UTF-16 code units opens JSON. (The
      last of them may be a surrogate pair cut in half, which is not a bracket
      either way.) */
  function NoOpenerWithin(s: string, budget: int): bool
    decreases |s|
  {
    if |s| == 0 || budget <= 0 then true
    else !IsJsonOpener(s[0]) && NoOpenerWithin(s[1..], budget - Utf16Units(s[0]))
  }

  /** No character starting within the first `budget` code units opens JSON. */
  predicate NoOpenerBefore(s: string, budget: int) {
    forall i :: 0 <= i < |s| && Utf16Length(s[..i]) < budget ==> !IsJsonOpener(s[i])
  }

  /** The code-unit offset of character `i` is the first character's units
      plus the offset of character `i - 1` in the rest. */
  lemma UnitOffsetShift(s: string, i: nat)
    requires 1 <= i <= |s|
    ensures Utf16Length(s[..i]) == Utf16Units(s[0]) + Utf16Length(s[1..][..i - 1])
  {
    assert s[..i] == [s[0]] + s[1..][..i - 1];
    Utf16LengthConcat([s[0]], s[1..][..i - 1]);
    assert [s[0]][..0] == [];
  }

  /** Peeling off the first character of a non-empty window. */
  lemma {:induction false} NoOpenerBeforeCons(s: string, budget: int)
    requires |s| > 0 && budget > 0
    ensures NoOpenerBefore(s, budget) <==>
      !IsJsonOpener(s[0]) && NoOpenerBefore(s[1..], budget - Utf16Units(s[0]))
  {
    var u := Utf16Units(s[0]);
    assert s[..0] == [];
    if NoOpenerBefore(s, budget) {
      forall j | 0 <= j < |s[1..]| && Utf16Length(s[1..][..j]) < budget - u
        ensures !IsJsonOpener(s[1..][j])
      {
        UnitOffsetShift(s, j + 1);
        assert s[j + 1] == s[1..][j];
      }
    }
    if !IsJsonOpener(s[0]) && NoOpenerBefore(s[1..], budget - u) {
      forall i | 0 <= i < |s| && Utf16Length(s[..i]) < budget
        ensures !IsJsonOpener(s[i])
      {
        if i > 0 {
          UnitOffsetShift(s, i);
          assert s[i] == s[1..][i - 1];
        }
      }
    }
  }

  /** The scan looks at exactly the characters whose first code unit lies
      within the budget. */
  lemma {:induction false} NoOpenerWithinExactly(s: string, budget: int)
    ensures NoOpenerWithin(s, budget) <==> NoOpenerBefore(s, budget)
    decreases |s|
  {
    if |s| > 0 && budget > 0 {
      NoOpenerWithinExactly(s[1..], budget - Utf16Units(s[0]));
      NoOpenerBeforeCons(s, budget);
    }
  }

  /** `IsEncryptedFile`, on the file's content (None when the file is missing
      or unreadable): a file is taken for ciphertext when its first ten UTF-16
      code units hold neither `{` nor `[`. */
  function IsEncryptedFile(content: Option<string>): (r: bool)
    ensures r <==> (content.Some? &&
      forall i :: 0 <= i < |content.value| && Utf16Length(content.value[..i]) < 10 ==>
        !IsJsonOpener(content.value[i]))
  {
    match content
    case None => false
    case Some(text) =>
      NoOpenerWithinExactly(text, 10);
      NoOpenerWithin(text, 10)
  }

  /** The characters `Convert.ToBase64String` emits. */
  predicate IsBase64Char(c: char) {
    IsLetterOrDigit(c) || c == '+' || c == '/' || c == '='
  }

  /** Whatever the encryption path writes (Base64 text, or the empty string for
      empty plaintext) is recognised as encrypted. */
  lemma CiphertextLooksEncrypted(text: string)
    requires forall i :: 0 <= i < |text| ==> IsBase64Char(text[i])
    ensures IsEncryptedFile(Some(text))
  {
  }

  /** A legacy JSON file, which has `[` or `{` starting within its first ten
      code units, is recognised as plaintext. */
  lemma JsonLooksPlain(text: string, k: nat)
    requires k < |text| && Utf16Length(text[..k]) < 10
    requires IsJsonOpener(text[k])
    ensures !IsEncryptedFile(Some(text))
  {
  }

  /** Characters outside the Basic Multilingual Plane take two code units each,
      so a bracket after five of them falls outside the window. */
  lemma BracketPastWindow()
    ensures IsEncryptedFile(Some("\U{1F600}\U{1F600}\U{1F600}\U{1F600}\U{1F600}{"))
  {
  }

  // ----------------------------------------------------------------------------
  // Registration

  datatype RegisterError = EmptyUsername | EmptyPassword | WeakPassword

  /** Input accepted by the three validation steps of `Register`. */
  predicate RegistrationInputOk(username: string, password: string) {
    !IsBlank(username) && !IsBlank(password) && ValidatePasswordStrength(password)
  }

  /** `Register`: validation failures are thrown (a `Failure` here), a name taken
      ignoring case gives false, and otherwise one user is appended whose hash,
      drawn with `salt`, verifies the password. Every outcome logs one note. */
  function Register(st: Store, username: string, password: string, id: nat, salt: nat, now: int)
    : (r: Outcome<Result<bool, RegisterError>>)
    ensures IsBlank(username) ==> r.value == Failure(EmptyUsername)
    ensures !IsBlank(username) && IsBlank(password) ==> r.value == Failure(EmptyPassword)
    ensures !IsBlank(username) && !IsBlank(password) && !ValidatePasswordStrength(password)
            ==> r.value == Failure(WeakPassword)
    ensures r.value == Success(false) <==>
      RegistrationInputOk(username, password)
      && exists j :: 0 <= j < |st.users| && NameMatches(st.users[j], username)
    ensures r.value == Success(true) <==>
      RegistrationInputOk(username, password)
      && forall j :: 0 <= j < |st.users| ==> !NameMatches(st.users[j], username)
    ensures r.value != Success(true) ==> r.store == st
    ensures r.value == Success(true) ==>
      && r.store.attempts == st.attempts
      && |r.store.users| == |st.users| + 1
      && r.store.users[..|st.users|] == st.users
      && var u := r.store.users[|st.users|];
         u.username == username && Verify(password, u.passwordHash) && u.id == id
         && u.createdAt == now && u.lastLogin == now && !u.isLocked && u.lockedUntil.None?
    ensures |r.notes| == 1 && r.notes[0].eventType == "REGISTRATION" && r.notes[0].username == username
    ensures r.notes[0].success <==> r.value == Success(true)
  {
    if IsBlank(username) then
      Outcome(Failure(EmptyUsername), st, [AuditNote("REGISTRATION", username, "Registration failed: Empty username", false)])
    else if IsBlank(password) then
      Outcome(Failure(EmptyPassword), st, [AuditNote("REGISTRATION", username, "Registration failed: Empty password", false)])
    else if !ValidatePasswordStrength(password) then
      Outcome(Failure(WeakPassword), st, [AuditNote("REGISTRATION", username, "Registration failed: Weak password", false)])
    else if FindUser(st.users, username).Some? then
      Outcome(Success(false), st, [AuditNote("REGISTRATION", username, "Registration failed: Username already exists", false)])
    else
      var u := User(id, username, Hash(password, salt), now, now, false, None);
      assert (st.users + [u])[..|st.users|] == st.users;
      Outcome(Success(true), st.(users := st.users + [u]),
              [AuditNote("REGISTRATION", username, "User registered successfully", true)])
  }

  // ----------------------------------------------------------------------------
  // Lockout bookkeeping

  /** `RecordLoginAttempt`: stamps the attempt record for the lower-cased name
      (creating it, even for a name without an account). Success clears the
      counter and the lockout; failure counts one more, and from the fifth
      failure on sets a 15-minute lockout that is copied into the first
      matching user. Expiry of an earlier lockout resets nothing. */
  function RecordLoginAttempt(st: Store, username: string, success: bool, now: int): (st': Store)
    ensures st'.attempts.Keys == st.attempts.Keys + {Fold(username)}
    ensures forall key :: key in st.attempts && key != Fold(username) ==> st'.attempts[key] == st.attempts[key]
    ensures st'.attempts[Fold(username)].lastAttemptTime == now
    ensures success ==>
      && st'.users == st.users
      && st'.attempts[Fold(username)].failedAttempts == 0
      && st'.attempts[Fold(username)].lockoutEnd.None?
    ensures !success ==> st'.attempts[Fold(username)].failedAttempts == PriorFailures(st, username) + 1
    ensures !success && PriorFailures(st, username) + 1 < MaxFailedAttempts ==>
      && st'.users == st.users
      && st'.attempts[Fold(username)].lockoutEnd
         == (if Fold(username) in st.attempts then st.attempts[Fold(username)].lockoutEnd else None)
    ensures !success && PriorFailures(st, username) + 1 >= MaxFailedAttempts ==>
      var end := AddMinutes(now, LockoutMinutes);
      && st'.attempts[Fold(username)].lockoutEnd == Some(end)
      && |st'.users| == |st.users|
      && (FindUser(st.users, username).None? ==> st'.users == st.users)
      && (FindUser(st.users, username).Some? ==>
            var i := FindUser(st.users, username).value;
            && st'.users[i] == st.users[i].(isLocked := true, lockedUntil := Some(end))
            && forall j :: 0 <= j < |st.users| && j != i ==> st'.users[j] == st.users[j])
  {
    var key := Fold(username);
    var info := if key in st.attempts then st.attempts[key] else LoginAttemptInfo(key, 0, 0, None);
    if success then
      st.(attempts := st.attempts[key := info.(lastAttemptTime := now, failedAttempts := 0, lockoutEnd := None)])
    else
      var failed := info.failedAttempts + 1;
      if failed >= MaxFailedAttempts then
        var end := AddMinutes(now, LockoutMinutes);
        var users' := match FindUser(st.users, username)
          case None => st.users
          case Some(i) => st.users[i := st.users[i].(isLocked := true, lockedUntil := Some(end))];
        Store(users', st.attempts[key := info.(lastAttemptTime := now, failedAttempts := failed, lockoutEnd := Some(end))])
      else
        st.(attempts := st.attempts[key := info.(lastAttemptTime := now, failedAttempts := failed)])
  }

  // ----------------------------------------------------------------------------
  // Login

  /** The two error messages `Login` can return. */
  /** A locked account's message carries the lock's remaining time, in ticks,
      as the clock read it is computed from sees it. */
  datatype LoginMessage = AccountLocked(remaining: int) | InvalidCredentials

  /** The double `Math.Ceiling(span.TotalMinutes)` as string interpolation
      prints it. A span less than a minute below zero rounds up to negative
      zero, which prints as "-0". */
  function MinutesText(span: int): (t: string)
    ensures t == "-0" <==> -TicksPerMinute < span < 0
    ensures span >= 0 ==>
      && (forall i :: 0 <= i < |t| ==> IsDigit(t[i]))
      && ParseNat(t) == CeilMinutes(span)
    ensures span <= -TicksPerMinute ==>
      && |t| >= 2 && t[0] == '-'
      && (forall i :: 1 <= i < |t| ==> IsDigit(t[i]))
      && ParseNat(t[1..]) == -CeilMinutes(span)
  {
    var m := CeilMinutes(span);
    if -TicksPerMinute < span < 0 then "-0"
    else if m >= 0 then
      NatToStringRoundTrip(m);
      NatToString(m)
    else
      NatToStringRoundTrip(-m);
      var digits := NatToString(-m);
      assert ("-" + digits)[1..] == digits;
      assert digits != "0" by {
        assert ParseNat(digits) != ParseNat("0");
      }
      "-" + digits
  }

  /** The message text the caller shows. */
  function MessageText(m: LoginMessage): string {
    match m
    case AccountLocked(remaining) => "Account is locked. Try again in " + MinutesText(remaining) + " minute(s)."
    case InvalidCredentials => "Invalid username or password"
  }

  /** `(User? user, string? errorMessage)`. */
  datatype LoginResult = LoginResult(user: Option<User>, error: Option<LoginMessage>)

  /** The locked-account answer for a lock ending at `end`: the guard's clock
      read `now` found the lock unexpired, and the remaining time is taken from
      a second read, `spanAt`. The minutes shown are the ceiling of what is
      left at the second read: at least 1 exactly when the lock has not ended
      by then, and never more than the guard's read would give. */
  function LockedAnswer(username: string, end: int, now: int, spanAt: int): (r: LoginResult)
    requires end > now
    ensures r.user.None? && r.error.Some? && r.error.value.AccountLocked?
    ensures r.error.value.remaining == end - spanAt
    ensures var m := CeilMinutes(r.error.value.remaining);
      && (m - 1) * TicksPerMinute < end - spanAt <= m * TicksPerMinute
      && (m >= 1 <==> spanAt < end)
      && (spanAt <= now ==> m >= 1)
      && (spanAt >= now ==> m <= CeilMinutes(end - now))
  {
    LoginResult(None, Some(AccountLocked(end - spanAt)))
  }

  /** `Login`: (a) an unexpired lockout on the attempt record answers "locked"
      and changes nothing; (b) an unknown name counts a failure and answers with
      the generic message; (c) an unexpired lock on the user answers "locked";
      (d) a matching password stamps the last login, lifts an expired lock and
      clears the counter; (e) a wrong password counts a failure and answers
      with the same generic message as (b). The lock checks, the stamps and
      the attempt record use the instant `now`; a "locked" answer takes the
      remaining time from a later clock read, `spanAt`. */
  function Login(st: Store, username: string, password: string, now: int, spanAt: int): (r: Outcome<LoginResult>)
    ensures r.value.user.None? <==> r.value.error.Some?
    ensures |r.store.users| == |st.users|
    // (a)
    ensures AttemptLocked(st, username, now) ==>
      && r.store == st
      && r.value == LockedAnswer(username, st.attempts[Fold(username)].lockoutEnd.value, now, spanAt)
    // (b)
    ensures !AttemptLocked(st, username, now) && FindUser(st.users, username).None? ==>
      && r.value == LoginResult(None, Some(InvalidCredentials))
      && r.store == RecordLoginAttempt(st, username, false, now)
      && r.store.users == st.users
      && Fold(username) in r.store.attempts
      && r.store.attempts[Fold(username)].failedAttempts == PriorFailures(st, username) + 1
    // (c)
    ensures !AttemptLocked(st, username, now) && FindUser(st.users, username).Some?
            && UserLocked(st.users[FindUser(st.users, username).value], now) ==>
      && r.store == st
      && r.value == LockedAnswer(username, st.users[FindUser(st.users, username).value].lockedUntil.value, now, spanAt)
    // (d)
    ensures !AttemptLocked(st, username, now) && FindUser(st.users, username).Some?
            && !UserLocked(st.users[FindUser(st.users, username).value], now)
            && Verify(password, st.users[FindUser(st.users, username).value].passwordHash) ==>
      var i := FindUser(st.users, username).value;
      var u := st.users[i];
      && r.value.user.Some?
      && r.value.user.value == r.store.users[i]
      && r.value.user.value.lastLogin == now
      && !r.value.user.value.isLocked
      && r.value.user.value.lockedUntil == (if u.isLocked then None else u.lockedUntil)
      && r.value.user.value == u.(lastLogin := now, isLocked := false, lockedUntil := r.value.user.value.lockedUntil)
      && |r.store.users| == |st.users|
      && (forall j :: 0 <= j < |st.users| && j != i ==> r.store.users[j] == st.users[j])
      && Fold(username) in r.store.attempts
      && r.store.attempts[Fold(username)].failedAttempts == 0
      && r.store.attempts[Fold(username)].lockoutEnd.None?
      && r.store == RecordLoginAttempt(st.(users := st.users[i := r.value.user.value]), username, true, now)
    // (e)
    ensures !AttemptLocked(st, username, now) && FindUser(st.users, username).Some?
            && !UserLocked(st.users[FindUser(st.users, username).value], now)
            && !Verify(password, st.users[FindUser(st.users, username).value].passwordHash) ==>
      && r.value == LoginResult(None, Some(InvalidCredentials))
      && r.store == RecordLoginAttempt(st, username, false, now)
      && Fold(username) in r.store.attempts
      && r.store.attempts[Fold(username)].failedAttempts == PriorFailures(st, username) + 1
    // every call is logged
    ensures |r.notes| >= 1
    ensures r.notes[|r.notes| - 1].success <==> r.value.user.Some?
  {
    var key := Fold(username);
    if AttemptLocked(st, username, now) then
      Outcome(LockedAnswer(username, st.attempts[key].lockoutEnd.value, now, spanAt), st,
              [AuditNote("LOGIN_ATTEMPT", username, "Attempt on locked account", false)])
    else match FindUser(st.users, username)
      case None =>
        Outcome(LoginResult(None, Some(InvalidCredentials)), RecordLoginAttempt(st, username, false, now),
                [AuditNote("LOGIN_ATTEMPT", username, "Invalid username", false)])
      case Some(i) =>
        var u := st.users[i];
        if UserLocked(u, now) then
          Outcome(LockedAnswer(username, u.lockedUntil.value, now, spanAt), st,
                  [AuditNote("LOGIN_ATTEMPT", username, "Attempt on locked account", false)])
        else if Verify(password, u.passwordHash) then
          var u' := if u.isLocked then u.(lastLogin := now, isLocked := false, lockedUntil := None)
                    else u.(lastLogin := now);
          var unlockNotes := if u.isLocked
            then [AuditNote("ACCOUNT_UNLOCK", username, "Account automatically unlocked at login", true)]
            else [];
          Outcome(LoginResult(Some(u'), None),
                  RecordLoginAttempt(st.(users := st.users[i := u']), username, true, now),
                  unlockNotes + [AuditNote("LOGIN", username, "Successful login", true)])
        else
          Outcome(LoginResult(None, Some(InvalidCredentials)), RecordLoginAttempt(st, username, false, now),
                  [AuditNote("LOGIN_ATTEMPT", username, "Invalid password", false)])
  }

  // ----------------------------------------------------------------------------
  // Password change

  /** `(bool Success, string Message)`. */
  datatype ChangeResult = ChangeResult(success: bool, message: string)

  const MissingDataMessage: string := "Username and passwords are required."
  const UnknownUserMessage: string := "Invalid username or password."
  const WrongCurrentMessage: string := "Current password is incorrect."
  const WeakNewMessage: string :=
    "New password doesn't meet the strength requirements.\n"
    + "Password must be at least 8 characters and include uppercase, lowercase, digit, and special character."
  const ChangedMessage: string := "Password changed successfully."

  /** `ChangePassword`: blank input, an unknown user, a wrong current password
      and a weak new password each fail with their own message and leave the
      store as it was; otherwise only that user's hash changes, to one that
      verifies the new password. Every outcome logs one note. */
  function ChangePassword(st: Store, username: string, current: string, newPassword: string, salt: nat)
    : (r: Outcome<ChangeResult>)
    ensures !r.value.success ==> r.store == st
    ensures IsBlank(username) || IsBlank(current) || IsBlank(newPassword) ==> r.value == ChangeResult(false, MissingDataMessage)
    ensures !IsBlank(username) && !IsBlank(current) && !IsBlank(newPassword) && FindUser(st.users, username).None?
            ==> r.value == ChangeResult(false, UnknownUserMessage)
    ensures !IsBlank(username) && !IsBlank(current) && !IsBlank(newPassword) && FindUser(st.users, username).Some?
            && !Verify(current, st.users[FindUser(st.users, username).value].passwordHash)
            ==> r.value == ChangeResult(false, WrongCurrentMessage)
    ensures !IsBlank(username) && !IsBlank(current) && !IsBlank(newPassword) && FindUser(st.users, username).Some?
            && Verify(current, st.users[FindUser(st.users, username).value].passwordHash)
            && !ValidatePasswordStrength(newPassword)
            ==> r.value == ChangeResult(false, WeakNewMessage)
    ensures r.value.success <==>
      && !IsBlank(username) && !IsBlank(current) && !IsBlank(newPassword)
      && FindUser(st.users, username).Some?
      && Verify(current, st.users[FindUser(st.users, username).value].passwordHash)
      && ValidatePasswordStrength(newPassword)
    ensures r.value.success ==>
      var i := FindUser(st.users, username).value;
      && r.value.message == ChangedMessage
      && r.store.attempts == st.attempts
      && |r.store.users| == |st.users|
      && (forall j :: 0 <= j < |st.users| && j != i ==> r.store.users[j] == st.users[j])
      && r.store.users[i].(passwordHash := st.users[i].passwordHash) == st.users[i]
      && Verify(newPassword, r.store.users[i].passwordHash)
    ensures |r.notes| == 1 && r.notes[0].eventType == "PasswordChange"
    ensures r.notes[0].success <==> r.value.success
  {
    if IsBlank(username) || IsBlank(current) || IsBlank(newPassword) then
      Outcome(ChangeResult(false, MissingDataMessage), st,
              [AuditNote("PasswordChange", username, "Password change failed - missing data", false)])
    else match FindUser(st.users, username)
      case None =>
        Outcome(ChangeResult(false, UnknownUserMessage), st,
                [AuditNote("PasswordChange", username, "Password change failed - user not found", false)])
      case Some(i) =>
        if !Verify(current, st.users[i].passwordHash) then
          Outcome(ChangeResult(false, WrongCurrentMessage), st,
                  [AuditNote("PasswordChange", username, "Password change failed - incorrect current password", false)])
        else if !ValidatePasswordStrength(newPassword) then
          Outcome(ChangeResult(false, WeakNewMessage), st,
                  [AuditNote("PasswordChange", username, "Password change failed - new password doesn't meet requirements", false)])
        else
          Outcome(ChangeResult(true, ChangedMessage),
                  st.(users := st.users[i := st.users[i].(passwordHash := Hash(newPassword, salt))]),
                  [AuditNote("PasswordChange", username, "Password changed successfully", true)])
  }
}
