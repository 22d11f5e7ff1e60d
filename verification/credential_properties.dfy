/** Properties of the credential store that relate several calls: the store
    invariant, the five-failure lockout and its window, the reset on success,
    the user-enumeration rule, and what a later login sees after a
    registration or a password change. */
module CredentialProperties {
  import opened Wrappers
  import opened Text
  import opened Clock
  import opened PasswordHashing
  import opened PasswordPolicy
  import opened Accounts
  import opened CredentialStore

  // ----------------------------------------------------------------------------
  // The store invariant

  /** Two user lists that agree on every username. */
  predicate SameNames(a: seq<User>, b: seq<User>) {
    |a| == |b| && forall j :: 0 <= j < |a| ==> a[j].username == b[j].username
  }

  /** Lookup by name only sees names. */
  lemma FindUserSameNames(a: seq<User>, b: seq<User>, username: string)
    requires SameNames(a, b)
    ensures FindUser(a, username) == FindUser(b, username)
  {
    var fa, fb := FindUser(a, username), FindUser(b, username);
    if fa.Some? && fb.Some? {
      if fa.value < fb.value {
        assert NameMatches(b[fa.value], username);
      } else if fb.value < fa.value {
        assert NameMatches(a[fb.value], username);
      }
    } else if fa.Some? {
      assert NameMatches(b[fa.value], username);
    } else if fb.Some? {
      assert NameMatches(a[fb.value], username);
    }
  }

  /** Recording an attempt keeps the store invariant. */
  lemma RecordLoginAttemptKeepsValid(st: Store, username: string, success: bool, now: int)
    requires Valid(st)
    ensures Valid(RecordLoginAttempt(st, username, success, now))
  {
    FoldIdempotent(username);
    var st' := RecordLoginAttempt(st, username, success, now);
    assert SameNames(st.users, st'.users);
  }

  /** Registration keeps the store invariant: in particular it never admits a
      second user whose name equals an existing one ignoring case. */
  lemma RegisterKeepsValid(st: Store, username: string, password: string, id: nat, salt: nat, now: int)
    requires Valid(st)
    ensures Valid(Register(st, username, password, id, salt, now).store)
  {
  }

  /** A login keeps the store invariant. */
  lemma LoginKeepsValid(st: Store, username: string, password: string, now: int, spanAt: int)
    requires Valid(st)
    ensures Valid(Login(st, username, password, now, spanAt).store)
  {
    FoldIdempotent(username);
    var key := Fold(username);
    if !AttemptLocked(st, username, now) {
      match FindUser(st.users, username)
      case None =>
        RecordLoginAttemptKeepsValid(st, username, false, now);
      case Some(i) =>
        var u := st.users[i];
        if !UserLocked(u, now) {
          if Verify(password, u.passwordHash) {
            var u' := if u.isLocked then u.(lastLogin := now, isLocked := false, lockedUntil := None)
                      else u.(lastLogin := now);
            var st1 := st.(users := st.users[i := u']);
            assert SameNames(st.users, st1.users);
            assert Valid(st1);
            RecordLoginAttemptKeepsValid(st1, username, true, now);
          } else {
            RecordLoginAttemptKeepsValid(st, username, false, now);
          }
        }
    }
  }

  /** A password change keeps the store invariant. */
  lemma ChangePasswordKeepsValid(st: Store, username: string, current: string, newPassword: string, salt: nat)
    requires Valid(st)
    ensures Valid(ChangePassword(st, username, current, newPassword, salt).store)
  {
    var st' := ChangePassword(st, username, current, newPassword, salt).store;
    assert SameNames(st.users, st'.users);
  }

  // ----------------------------------------------------------------------------
  // Registration followed by login

  /** A fresh registration can log in at once with the same credentials,
      provided no lockout is on record for that name. */
  lemma RegisterThenLogin(st: Store, username: string, password: string, id: nat, salt: nat,
                          now: int, later: int, spanAt: int)
    requires Register(st, username, password, id, salt, now).value == Success(true)
    requires !AttemptLocked(st, username, later)
    ensures var st' := Register(st, username, password, id, salt, now).store;
      && Login(st', username, password, later, spanAt).value.user.Some?
      && Login(st', username, password, later, spanAt).value.user.value.username == username
  {
    var st' := Register(st, username, password, id, salt, now).store;
    var n := |st.users|;
    assert NameMatches(st'.users[n], username);
    assert forall j :: 0 <= j < n ==> st'.users[j] == st.users[j];
    assert FindUser(st'.users, username) == Some(n);
  }

  /** Failed logins against a name nobody has registered create an attempt
      record, and five of them lock the name before it exists: whoever then
      registers it cannot log in until the window ends. */
  lemma LockoutOutlivesRegistration(st: Store, username: string, wrong: string, times: seq<int>,
                                    password: string, id: nat, salt: nat, now: int, later: int, spanAt: int)
    requires FindUser(st.users, username).None?
    requires NoLocks(st, username) && PriorFailures(st, username) == 0
    requires |times| == MaxFailedAttempts
    requires RegistrationInputOk(username, password)
    requires times[|times| - 1] <= later < AddMinutes(times[|times| - 1], LockoutMinutes)
    ensures var st1 := FailLogins(st, username, wrong, times);
      && Register(st1, username, password, id, salt, now).value == Success(true)
      && Login(Register(st1, username, password, id, salt, now).store, username, password, later, spanAt).value.user.None?
      && Login(Register(st1, username, password, id, salt, now).store, username, password, later, spanAt).value.error.value.AccountLocked?
  {
    FiveFailuresLockAccount(st, username, wrong, times);
    var st1 := FailLogins(st, username, wrong, times);
    assert st1.users == st.users;
  }

  // ----------------------------------------------------------------------------
  // Consecutive failures and the lockout window

  /** Logins at the given instants, one after the other, with the same
      credentials. The store a login leaves does not depend on its second clock
      read (`SpanReadOnlyShowsMinutes`), so each login reads one instant. */
  function FailLogins(st: Store, username: string, password: string, times: seq<int>): Store
    decreases |times|
  {
    if |times| == 0 then st
    else
      var now := times[|times| - 1];
      Login(FailLogins(st, username, password, times[..|times| - 1]), username, password, now, now).store
  }

  /** Neither the attempt record nor the user (if any) carries a lock instant. */
  predicate NoLocks(st: Store, username: string) {
    && (Fold(username) in st.attempts ==> st.attempts[Fold(username)].lockoutEnd.None?)
    && (FindUser(st.users, username).Some? ==> st.users[FindUser(st.users, username).value].lockedUntil.None?)
  }

  /** The password does not open the account, or there is no account. */
  predicate WrongEverywhere(st: Store, username: string, password: string) {
    FindUser(st.users, username).Some? ==> !Verify(password, st.users[FindUser(st.users, username).value].passwordHash)
  }

  /** Below the threshold, each failed login counts exactly one more failure
      and neither locks the record nor touches the users. */
  lemma {:induction false} FailuresAccumulate(st: Store, username: string, password: string, times: seq<int>)
    requires NoLocks(st, username) && WrongEverywhere(st, username, password)
    requires PriorFailures(st, username) >= 0
    requires PriorFailures(st, username) + |times| < MaxFailedAttempts
    ensures var st' := FailLogins(st, username, password, times);
      && st'.users == st.users
      && NoLocks(st', username) && WrongEverywhere(st', username, password)
      && PriorFailures(st', username) == PriorFailures(st, username) + |times|
    decreases |times|
  {
    if |times| > 0 {
      var prefix := times[..|times| - 1];
      FailuresAccumulate(st, username, password, prefix);
      var st1 := FailLogins(st, username, password, prefix);
      var now := times[|times| - 1];
      assert !AttemptLocked(st1, username, now);
      var st2 := RecordLoginAttempt(st1, username, false, now);
      assert Login(st1, username, password, now, now).store == st2;
    }
  }

  /** Five consecutive failures from a clean record lock the name for 15
      minutes from the fifth, on the attempt record and on the account alike. */
  lemma FiveFailuresLockAccount(st: Store, username: string, password: string, times: seq<int>)
    requires NoLocks(st, username) && WrongEverywhere(st, username, password)
    requires PriorFailures(st, username) == 0
    requires |times| == MaxFailedAttempts
    ensures var st' := FailLogins(st, username, password, times);
      var end := AddMinutes(times[|times| - 1], LockoutMinutes);
      && |st'.users| == |st.users|
      && Fold(username) in st'.attempts
      && st'.attempts[Fold(username)].lockoutEnd == Some(end)
      && FindUser(st'.users, username) == FindUser(st.users, username)
      && (FindUser(st.users, username).None? ==> st'.users == st.users)
      && (FindUser(st.users, username).Some? ==>
            var i := FindUser(st.users, username).value;
            && st'.users[i].isLocked
            && st'.users[i].lockedUntil == Some(end)
            && st'.users[i].passwordHash == st.users[i].passwordHash)
  {
    var prefix := times[..|times| - 1];
    FailuresAccumulate(st, username, password, prefix);
    var st1 := FailLogins(st, username, password, prefix);
    var now := times[|times| - 1];
    assert !AttemptLocked(st1, username, now);
    var st2 := RecordLoginAttempt(st1, username, false, now);
    assert Login(st1, username, password, now, now).store == st2;
    assert SameNames(st1.users, st2.users);
    FindUserSameNames(st1.users, st2.users, username);
  }

  /** During the window, every login (whatever the password) answers "locked"
      and changes nothing. The minutes to wait are counted from the second
      clock read: at most 15 when it is no earlier than the first, and at
      least 1 exactly when the lock has not ended by then. */
  lemma LockedDuringWindow(st: Store, username: string, password: string, times: seq<int>,
                           anyPassword: string, now: int, spanAt: int)
    requires NoLocks(st, username) && WrongEverywhere(st, username, password)
    requires PriorFailures(st, username) == 0
    requires |times| == MaxFailedAttempts
    requires times[|times| - 1] <= now < AddMinutes(times[|times| - 1], LockoutMinutes)
    ensures var st' := FailLogins(st, username, password, times);
      var r := Login(st', username, anyPassword, now, spanAt);
      var end := AddMinutes(times[|times| - 1], LockoutMinutes);
      && r.store == st'
      && r.value.user.None?
      && r.value.error.Some? && r.value.error.value.AccountLocked?
      && r.value.error.value.remaining == end - spanAt
      && (1 <= CeilMinutes(r.value.error.value.remaining) <==> spanAt < end)
      && (now <= spanAt ==> CeilMinutes(r.value.error.value.remaining) <= LockoutMinutes)
  {
    FiveFailuresLockAccount(st, username, password, times);
  }

  /** Once the window has passed, the right password logs in, lifts the lock on
      the account and clears the counter. */
  lemma CorrectPasswordAfterWindow(st: Store, username: string, password: string, times: seq<int>,
                                   correct: string, now: int, spanAt: int)
    requires NoLocks(st, username) && WrongEverywhere(st, username, password)
    requires PriorFailures(st, username) == 0
    requires |times| == MaxFailedAttempts
    requires FindUser(st.users, username).Some?
    requires Verify(correct, st.users[FindUser(st.users, username).value].passwordHash)
    requires now >= AddMinutes(times[|times| - 1], LockoutMinutes)
    ensures var st' := FailLogins(st, username, password, times);
      var r := Login(st', username, correct, now, spanAt);
      && r.value.user.Some?
      && !r.value.user.value.isLocked && r.value.user.value.lockedUntil.None?
      && r.store.attempts[Fold(username)].failedAttempts == 0
      && r.store.attempts[Fold(username)].lockoutEnd.None?
  {
    FiveFailuresLockAccount(st, username, password, times);
    var st' := FailLogins(st, username, password, times);
    var i := FindUser(st.users, username).value;
    assert FindUser(st'.users, username) == Some(i);
    assert !AttemptLocked(st', username, now);
    assert !UserLocked(st'.users[i], now);
    assert Verify(correct, st'.users[i].passwordHash);
  }

  /** A successful login clears the counter, so one later failure counts 1 and
      locks nothing. */
  lemma SuccessResetsCounter(st: Store, username: string, password: string, now: int, spanAt: int,
                             wrong: string, later: int, laterSpanAt: int)
    requires Login(st, username, password, now, spanAt).value.user.Some?
    requires !Verify(wrong, Login(st, username, password, now, spanAt).value.user.value.passwordHash)
    ensures var st1 := Login(st, username, password, now, spanAt).store;
      var st2 := Login(st1, username, wrong, later, laterSpanAt).store;
      && PriorFailures(st1, username) == 0
      && Fold(username) in st2.attempts
      && st2.attempts[Fold(username)].failedAttempts == 1
      && st2.attempts[Fold(username)].lockoutEnd.None?
      && !AttemptLocked(st2, username, later)
  {
    var st1 := Login(st, username, password, now, spanAt).store;
    var i := FindUser(st.users, username).value;
    assert SameNames(st.users, st1.users);
    FindUserSameNames(st.users, st1.users, username);
  }

  /** Expiry of a lockout resets nothing: with five or more failures still on
      record, a single further failure locks the name again at once. */
  lemma ExpiredLockoutRelocks(st: Store, username: string, password: string, now: int, spanAt: int)
    requires Fold(username) in st.attempts
    requires st.attempts[Fold(username)].failedAttempts >= MaxFailedAttempts
    requires !AttemptLocked(st, username, now)
    requires FindUser(st.users, username).Some? ==> !UserLocked(st.users[FindUser(st.users, username).value], now)
    requires WrongEverywhere(st, username, password)
    ensures var st' := Login(st, username, password, now, spanAt).store;
      && st'.attempts[Fold(username)].lockoutEnd == Some(AddMinutes(now, LockoutMinutes))
      && AttemptLocked(st', username, now)
  {
  }

  // ----------------------------------------------------------------------------
  // The clock read behind the remaining minutes

  /** The second clock read of a login only sets the remaining time of a
      "locked" answer: the store, the user, the notes and the kind of answer do
      not depend on it. */
  lemma SpanReadOnlyShowsMinutes(st: Store, username: string, password: string, now: int,
                                 spanAt1: int, spanAt2: int)
    ensures var r1 := Login(st, username, password, now, spanAt1);
      var r2 := Login(st, username, password, now, spanAt2);
      && r1.store == r2.store
      && r1.notes == r2.notes
      && r1.value.user == r2.value.user
      && (r1.value.error == Some(InvalidCredentials) <==> r2.value.error == Some(InvalidCredentials))
      && (r1.value.error.Some? && r1.value.error.value.AccountLocked? ==>
            r1.value.error.value.remaining - r2.value.error.value.remaining == spanAt2 - spanAt1)
  {
  }

  /** A lockout that ends between the two clock reads of a login: the guard
      still finds the name locked, so the answer is "locked", but it tells the
      user to wait 0 minutes, or "-0" minutes once the end has passed. */
  lemma LockEndingBetweenReads(st: Store, username: string, password: string, now: int, spanAt: int)
    requires AttemptLocked(st, username, now)
    requires st.attempts[Fold(username)].lockoutEnd.value <= spanAt
    requires spanAt < st.attempts[Fold(username)].lockoutEnd.value + TicksPerMinute
    ensures var r := Login(st, username, password, now, spanAt);
      && r.store == st
      && r.value.user.None?
      && MessageText(r.value.error.value) ==
           if spanAt == st.attempts[Fold(username)].lockoutEnd.value
           then "Account is locked. Try again in 0 minute(s)."
           else "Account is locked. Try again in -0 minute(s)."
  {
    var end := st.attempts[Fold(username)].lockoutEnd.value;
    var r := Login(st, username, password, now, spanAt);
    assert r.value == LockedAnswer(username, end, now, spanAt);
    LockedTextNearZero(end - spanAt);
  }

  /** The "locked" message for a remaining time within a minute below zero. */
  lemma LockedTextNearZero(remaining: int)
    requires -TicksPerMinute < remaining <= 0
    ensures MessageText(AccountLocked(remaining)) ==
      if remaining == 0 then "Account is locked. Try again in 0 minute(s)."
      else "Account is locked. Try again in -0 minute(s)."
  {
    if remaining == 0 {
      assert MinutesText(0) == "0";
    }
  }

  // ----------------------------------------------------------------------------
  // No user enumeration

  /** An unknown name and a wrong password get the same answer, word for word. */
  lemma NoUserEnumeration(st1: Store, name1: string, password1: string,
                          st2: Store, name2: string, password2: string, now: int,
                          spanAt1: int, spanAt2: int)
    requires !AttemptLocked(st1, name1, now) && FindUser(st1.users, name1).None?
    requires !AttemptLocked(st2, name2, now) && FindUser(st2.users, name2).Some?
    requires !UserLocked(st2.users[FindUser(st2.users, name2).value], now)
    requires !Verify(password2, st2.users[FindUser(st2.users, name2).value].passwordHash)
    ensures Login(st1, name1, password1, now, spanAt1).value == Login(st2, name2, password2, now, spanAt2).value
    ensures MessageText(Login(st1, name1, password1, now, spanAt1).value.error.value) == "Invalid username or password"
  {
  }

  // ----------------------------------------------------------------------------
  // Password change followed by login

  /** After a successful change the new password logs in and the old one no
      longer does (unless the lock fields stop both). */
  lemma ChangePasswordThenLogin(st: Store, username: string, current: string, newPassword: string,
                                salt: nat, now: int, spanAt: int)
    requires ChangePassword(st, username, current, newPassword, salt).value.success
    requires current != newPassword
    requires !AttemptLocked(st, username, now)
    requires !UserLocked(st.users[FindUser(st.users, username).value], now)
    ensures var st' := ChangePassword(st, username, current, newPassword, salt).store;
      && Login(st', username, newPassword, now, spanAt).value.user.Some?
      && Login(st', username, current, now, spanAt).value == LoginResult(None, Some(InvalidCredentials))
  {
    var st' := ChangePassword(st, username, current, newPassword, salt).store;
    assert SameNames(st.users, st'.users);
    FindUserSameNames(st.users, st'.users, username);
  }
}
