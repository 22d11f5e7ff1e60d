# BudgetManager core, modelled in Dafny

BudgetManager is a desktop personal-finance application. This project models
its security and bookkeeping core as pure functions over immutable values:

- **Credential store** (`UserService`): registration with a password-strength
  rule, login with a brute-force lockout (five failures lock a name for 15
  minutes, on a per-name attempt record and on the account), and password
  change. Users are a sequence, attempt records a map keyed by the lower-cased
  name. Every operation takes the store (and, where the source reads the
  clock, an explicit `now`) and returns the next store with the audit notes
  the call logs (`credential_store.dfy`,
  `accounts.dfy`, `password_policy.dfy`, `password_hashing.dfy`,
  `credential_properties.dfy`).
- **Session manager** (`SessionManager`): an active/inactive machine with an
  idle timeout; the periodic timer becomes an explicit `Tick(now)`
  (`sessions.dfy`).
- **Security audit log** (`SecurityAuditService`): one encoded event per line,
  and a reader that scans backwards for the newest `count` events, skipping
  empty and undecodable lines (`audit_log.dfy`).
- **Budget ledger** (`BudgetService`, `Budget`, `FinancialGoal`): transaction
  listings, date-range and category queries, income/expense totals and the
  per-category breakdown; add/update/delete of transactions, budgets and goals;
  the monthly spending recomputation; goal credits with completion
  (`ledger_models.dfy`, `transaction_queries.dfy`, `budget_service.dfy`).
- **Strength meter** of the change-password dialog, and how it relates to the
  store's rule (`strength_meter.dfy`).

Shared pieces: `text.dfy` (character classes, case folding, decimal
rendering), `seqs.dfy` (`FindIndex`/`FirstOrDefault`, `Where`, `RemoveAll`),
`clock.dfy` (ticks and minutes), `wrappers.dfy` (`Option`, `Result`).

Modelling choices:

- Instants are whole .NET ticks (`TicksPerMinute = 600_000_000`). An operation
  that reads `DateTime.UtcNow`/`DateTime.Now` takes the instant as a `now`
  parameter, and all the clock reads of one call are taken as that one
  instant, with one exception: `Login` takes the remaining time of a "locked"
  answer from its own, later read (`spanAt`), because a lock that ends between
  the two reads shows in the message. Ledger dates are (year, month, day,
  time-of-day) with a numeric stamp that orders them.
- BCrypt is idealised: a hash records its salt and its preimage, the salt is a
  parameter, and `Verify` succeeds exactly for the hashed password.
- `string.Length` and `Take(10)` count UTF-16 code units: a character outside
  the Basic Multilingual Plane counts as two (`Text.Utf16Length`).
- Character classes (`char.IsUpper`, `IsLower`, `IsDigit`, `IsLetterOrDigit`)
  and case folding (`ToLower`, `OrdinalIgnoreCase`) are their ASCII versions,
  shared by every operation that uses them. `IsNullOrWhiteSpace` uses the full
  list of .NET white-space characters.
- Serialising+encrypting an audit event and decrypting+deserialising a line
  are function parameters (`encode`, `decode`); the log file is its sequence
  of lines, or None when missing.
- `decimal` amounts are reals.
- GUIDs are natural numbers supplied by the caller.

Behaviours of the code that a user might not expect, which the model follows:

- When a session times out, `SessionTimerElapsed` marks it inactive but leaves
  `CurrentUser` set; only `EndSession` clears it (`Sessions.Tick`).
- Failed logins on a name nobody has registered create an attempt record, and
  five of them lock the name. A user who then registers that name cannot log
  in until the lock ends (`CredentialProperties.LockoutOutlivesRegistration`),
  so "register, then log in at once" holds only without such a record
  (`CredentialProperties.RegisterThenLogin`).
- The expiry of a lockout resets nothing: the failure counter keeps its value,
  so the next failure locks again at once
  (`CredentialProperties.ExpiredLockoutRelocks`).
- The meter shows "Strong" for 6- and 7-character passwords that the store's
  rule rejects (`StrengthMeter.StrongButRejected`).
- `GetExpensesByCategoryAsync` groups categories exactly, while budget
  spending matches categories ignoring case.
- A lockout that ends between `Login`'s lock check and its read of the
  remaining time still answers "locked", and tells the user to try again in
  "0" minutes, or "-0" once the end has passed: the ceiling of a span less
  than a minute below zero is a negative zero, which .NET Core 3.0 and later
  print with its sign (`CredentialProperties.LockEndingBetweenReads`).

## Model

| member | source | states |
|---|---|---|
| Text.NatToStringRoundTrip | Services/UserService.cs:270-272 | a whole number of minutes in the lockout message is printed in decimal digits that read back as the same number |
| Text.Utf16Length | Services/UserService.cs:111 | `string.Length`: at least one code unit per character and at most two |
| Text.Utf16LengthConcat | Services/UserService.cs:59 | code units add up over a concatenation, so the unit offset of a character is the length of what precedes it |
| Text.BmpLength | Services/UserService.cs:111 | within the Basic Multilingual Plane the length is the number of characters |
| Text.AstralCharCountsTwice | Services/UserService.cs:111 | one character outside the Basic Multilingual Plane has length 2 |
| Text.FoldIdempotent | Services/UserService.cs:226-229 | lower-casing a lower-cased name changes nothing, so an attempt key is its own key |
| Seqs.FirstIndex | Services/BudgetService.cs:86 | `FindIndex`: the index of the first element passing the test, with no earlier element passing; none exactly when no element passes |
| Seqs.ReplaceFirst | Services/BudgetService.cs:86-89 | replaces the first element passing the test and keeps every other position; unchanged when none passes |
| Seqs.Where | Services/BudgetService.cs:149 | LINQ `Where`: keeps exactly the elements passing the test, each as often as it occurred, in their original order |
| Seqs.RemoveAll | Services/BudgetService.cs:97 | `RemoveAll`: no element passing the test remains; every other element keeps its multiplicity and order |
| Clock.CeilMinutes | Services/UserService.cs:270 | `Math.Ceiling(TotalMinutes)` of any span: the least whole number m with the span at most m minutes; at least 1 exactly when the span is positive |
| PasswordHashing.HashVerifiesExactly | Services/UserService.cs:294 | a BCrypt hash verifies the password it was made from and no other |
| PasswordHashing.SaltsSeparateHashes | Services/UserService.cs:167 | hashing one password under two salts gives two different hashes |
| PasswordPolicy.ValidatePasswordStrength | Services/UserService.cs:109-131 | accepts exactly the passwords of at least 8 UTF-16 code units holding an upper-case letter, a lower-case letter, a digit and a symbol |
| PasswordPolicy.BlankPasswordIsWeak | Services/UserService.cs:141-152 | a blank password already fails the strength rule; the blank check only changes the message |
| PasswordPolicy.SomePasswordPasses | Services/UserService.cs:109-131 | the rule can be met ("Passw0rd!") |
| PasswordPolicy.AstralPasswordPasses | Services/UserService.cs:111-128 | a 7-character password with four emoji is 11 code units long and passes, the emoji serving as the symbol |
| Accounts.LastIndexFor | Services/UserService.cs:204-208 | the position of the last record whose non-empty name lower-cases to the key, none exactly when there is no such record |
| Accounts.LastRecordFor | Services/UserService.cs:201-209 | reference reading of the stored attempt list: none exactly when no record has a non-empty name lower-casing to the key; otherwise such a record that no later record for the key follows |
| Accounts.IndexAttempts | Services/UserService.cs:201-209 | the dictionary holds a key exactly when some record with a non-empty name lower-cases to it, maps it to the last such record, and all keys are lower-case |
| CredentialStore.FindUser | Services/UserService.cs:275 | the first user whose name equals the given one ignoring case; none exactly when no user matches |
| CredentialStore.NoOpenerWithinExactly | Services/UserService.cs:59-61 | the window scan rejects exactly when a `{` or `[` starts within the first ten UTF-16 code units |
| CredentialStore.IsEncryptedFile | Services/UserService.cs:52-67 | a missing file is not encrypted; a present one is taken for ciphertext exactly when its first ten UTF-16 code units hold neither `{` nor `[` |
| CredentialStore.CiphertextLooksEncrypted | Services/UserService.cs:52-67 | any Base64 text, including the empty string, is classified as encrypted |
| CredentialStore.JsonLooksPlain | Services/UserService.cs:52-67 | a file with `[` or `{` starting within its first ten code units is classified as plaintext |
| CredentialStore.BracketPastWindow | Services/UserService.cs:59-61 | after five emoji (ten code units) a `{` lies outside the window and the file counts as encrypted |
| CredentialStore.Register | Services/UserService.cs:132-176 | blank name, blank password and weak password each fail with their own error and change nothing; a name taken ignoring case gives false; otherwise exactly one unlocked user is appended whose hash verifies the password; one REGISTRATION note, successful exactly on success |
| CredentialStore.RecordLoginAttempt | Services/UserService.cs:224-262 | creates or stamps the record under the lower-cased name and touches no other record; success zeroes the count and clears the lockout; failure adds one, and from the fifth sets a 15-minute lockout copied into the first matching user only, otherwise keeping the earlier lockout and the users |
| CredentialStore.MinutesText | Services/UserService.cs:270-272 | the printed minute count: for a span not below zero, digits that read back as its ceiling; "-0" exactly for a span less than a minute below zero; below that, a minus sign and the digits of the ceiling's magnitude |
| CredentialStore.LockedAnswer | Services/UserService.cs:266-272 | the locked answer carries no user and the lock's remaining time at the second clock read; its `Math.Ceiling` in minutes m has the lock ending within m minutes of that read, is at least 1 exactly when the lock has not ended by then, is at least 1 when the second read is no later than the guard's, and is no more than the guard's read would give when it is no earlier |
| CredentialStore.Login | Services/UserService.cs:263-320 | a live lockout on the record, or on the user, answers "locked" and changes nothing; an unknown name and a wrong password count a failure and give the same generic message; the right password returns the user with the login stamped, an expired lock lifted and the count cleared; every call logs, the last note successful exactly when a user is returned; every branch that records an attempt leaves the store `RecordLoginAttempt` gives, so other keys and users are untouched; a "locked" answer's remaining time comes from the later clock read |
| CredentialStore.ChangePassword | Services/UserService.cs:322-360 | blank input, unknown user, wrong current password and weak new password each give their own message and leave the store unchanged; success exactly when all checks pass, and then only that user's hash changes, to one that verifies the new password; one PasswordChange note |
| CredentialProperties.FindUserSameNames | Services/UserService.cs:275 | lookup depends only on the usernames, so updates that keep names keep lookups |
| CredentialProperties.RecordLoginAttemptKeepsValid | Services/UserService.cs:224-262 | recording an attempt keeps names unique ignoring case, lock instants only on locked users, and keys lower-case |
| CredentialProperties.RegisterKeepsValid | Services/UserService.cs:154-171 | registration never admits a second user with the same name ignoring case |
| CredentialProperties.LoginKeepsValid | Services/UserService.cs:263-320 | login keeps the store invariant |
| CredentialProperties.ChangePasswordKeepsValid | Services/UserService.cs:322-360 | a password change keeps the store invariant |
| CredentialProperties.RegisterThenLogin | Services/UserService.cs:132-320 | a fresh registration logs in at once with the same credentials when no lockout is on record for the name |
| CredentialProperties.LockoutOutlivesRegistration | Services/UserService.cs:224-283 | five failures on an unregistered name lock it; a later registration of that name succeeds but its login, with the right password, gets no user and the "locked" answer during the window |
| CredentialProperties.FailuresAccumulate | Services/UserService.cs:240-259 | below the threshold each failed login adds exactly one to the count, sets no lockout and leaves the users alone |
| CredentialProperties.FiveFailuresLockAccount | Services/UserService.cs:246-257 | five failures from a clean record set a lockout 15 minutes after the fifth, on the record and on the account |
| CredentialProperties.LockedDuringWindow | Services/UserService.cs:266-273 | during the window any password is answered "locked" and nothing changes; the remaining time is the lock end less the second clock read, whose ceiling is at least 1 minute exactly when the lock has not ended by that read, and at most 15 when that read is no earlier than the guard's |
| CredentialProperties.SpanReadOnlyShowsMinutes | Services/UserService.cs:266-289 | the second clock read of a login changes only the remaining time of a "locked" answer, by the difference of the reads: store, user, notes and kind of answer do not depend on it |
| CredentialProperties.LockedTextNearZero | Services/UserService.cs:270-272 | the message for a remaining time less than a minute below zero or exactly zero: "Try again in 0 minute(s)." at zero, "-0" below it |
| CredentialProperties.LockEndingBetweenReads | Services/UserService.cs:266-273 | a lockout ending between the two reads still answers "locked", changes nothing, and reads "Try again in 0 minute(s)." when it ends exactly at the second read, "-0" when it ended before it |
| CredentialProperties.CorrectPasswordAfterWindow | Services/UserService.cs:286-313 | once the window has passed the right password logs in, unlocks the account and clears the count |
| CredentialProperties.SuccessResetsCounter | Services/UserService.cs:234-239 | after a successful login a single failure counts 1 |
| CredentialProperties.ExpiredLockoutRelocks | Services/UserService.cs:240-249 | with five or more failures on record and the lock expired, one more failure locks again at once |
| CredentialProperties.NoUserEnumeration | Services/UserService.cs:277-319 | an unknown name and a wrong password get the same answer, word for word |
| CredentialProperties.ChangePasswordThenLogin | Services/UserService.cs:322-360 | after a successful change the new password logs in and the old one is refused |
| Sessions.NewSessionManager | Services/SessionManager.cs:10-19 | a new manager is inactive, has no user and the 30-minute timeout |
| Sessions.SetTimeout | Services/SessionManager.cs:17 | the timeout setter changes the timeout and nothing else |
| Sessions.StartSession | Services/SessionManager.cs:32-39 | binds the user, becomes active, stamps the activity, keeps the timeout, logs "Session started" |
| Sessions.EndSession | Services/SessionManager.cs:41-51 | inactive with no user, never raising expiry; logs "Session ended" exactly when a user was bound |
| Sessions.ExtendSession | Services/SessionManager.cs:53-64 | restamps the activity of an active session and leaves an inactive one as it is |
| Sessions.Tick | Services/SessionManager.cs:68-88 | an inactive session or one idle for less than the timeout is untouched; otherwise it becomes inactive, raises expiry, keeps its user, and logs exactly when a user is bound |
| Sessions.InactiveStaysQuiet | Services/SessionManager.cs:53-71 | an inactive session ignores every tick and extension |
| Sessions.AtMostOneExpiry | Services/SessionManager.cs:68-88 | without a new start, expiry is raised at most once, and the session is then inactive |
| Sessions.ExpiresExactlyAtTimeout | Services/SessionManager.cs:74 | a started session expires at a tick exactly when the timeout has fully elapsed since the start |
| Sessions.ExtendPostponesExpiry | Services/SessionManager.cs:53-74 | a tick within the timeout of an extension raises nothing |
| AuditLog.MakeEvent | Services/SecurityAuditService.cs:35-47 | the event carries the note's type, user, message and outcome, the clock and the machine name |
| AuditLog.AppendToLog | Services/SecurityAuditService.cs:48-71 | a successful write adds exactly the encoded event as the last line; a failed one leaves the file as it was |
| AuditLog.LogEvent | Services/SecurityAuditService.cs:35-47 | a successful write appends exactly the encoded event made from the note, keeping earlier lines; a failed one changes nothing |
| AuditLog.AppendAll | Services/SecurityAuditService.cs:48-71 | successful appends add one line per event |
| AuditLog.DecodedEventsSnoc | Services/SecurityAuditService.cs:87-103 | reading one more line adds its event exactly when it is non-empty and decodes |
| AuditLog.AppendOneDecodes | Services/SecurityAuditService.cs:48-71 | one losslessly encoded append adds that event to the end of the reading |
| AuditLog.AppendAllDecodes | Services/SecurityAuditService.cs:48-71 | appended events read back, in order, after the events already in the file |
| AuditLog.ScanStep | Services/SecurityAuditService.cs:85-104 | each backwards step either adds the line's event or skips the line, keeping collected events plus the rest of the reading equal to the whole reading, newest first |
| AuditLog.ScanResult | Services/SecurityAuditService.cs:85 | where the scan stops, the collected events are the newest `count` of the reading |
| AuditLog.GetRecentEvents | Services/SecurityAuditService.cs:73-112 | a missing log gives nothing; otherwise at most `count` events, exactly the newest `count` decodable non-empty lines, newest first |
| AuditLog.GetRecentEventsDefault | Services/SecurityAuditService.cs:73 | the default read returns the newest 100 events |
| AuditLog.ReadAfterAppends | Services/SecurityAuditService.cs:48-112 | after appending events to a fresh log, a read returns the last min(count, n) of them, newest first |
| AuditLog.ReadAfterAppendsOnExistingLog | Services/SecurityAuditService.cs:48-112 | on an existing log the new events come first, newest first, ahead of the older ones |
| StrengthMeter.LengthPoints | UI/ChangePasswordForm.cs:180-186 | by code units: none below 6, 10 for 6-7, 15 for 8-11, 25 from 12 |
| StrengthMeter.ClassPoints | UI/ChangePasswordForm.cs:188-196 | variety points lie between 0 and 65, and are 0 for the empty password |
| StrengthMeter.ClassPointsAppend | UI/ChangePasswordForm.cs:188-196 | one more character adds 15 for a new upper-case, lower-case or digit class, 20 for a first symbol, and nothing for a class already present |
| StrengthMeter.VarietyBonus | UI/ChangePasswordForm.cs:198-206 | the bonus is 10 exactly for 8 or more code units with all four classes, else 0 |
| StrengthMeter.CalculatePasswordStrength | UI/ChangePasswordForm.cs:173-209 | the score lies in 0..100 and is 0 for the empty password |
| StrengthMeter.LabelFor | UI/ChangePasswordForm.cs:153-170 | Weak exactly below 40, Moderate exactly from 40 below 75, Strong exactly from 75 |
| StrengthMeter.ScoreIsSumOfParts | UI/ChangePasswordForm.cs:208 | the cap at 100 never bites: the score is the sum of its parts |
| StrengthMeter.PolicyPassingIsStrong | UI/ChangePasswordForm.cs:173-209 | every password the store's rule accepts scores at least 90 and shows Strong |
| StrengthMeter.StrongExactly | UI/ChangePasswordForm.cs:153-209 | Strong exactly for all four classes with 6+ code units, or 12+ code units with a symbol and two other classes |
| StrengthMeter.StrongButRejected | UI/ChangePasswordForm.cs:153-209 | "Ab1!xy" shows Strong yet fails the store's rule |
| LedgerModels.DayNumberOrdersDays | Services/BudgetService.cs:64 | comparing day numbers compares calendar dates, and equal numbers mean the same date |
| LedgerModels.StampOrdersInstants | Services/BudgetService.cs:58 | stamps order instants by date, then time of day |
| LedgerModels.NewBudget | Models/Budget.cs:13-19 | a new budget is active with nothing spent |
| LedgerModels.NewBudgetFor | Models/Budget.cs:21-30 | the named budget is active, has spent nothing and keeps the given name, category and limit |
| LedgerModels.BudgetUtilizationPercentage | Models/Budget.cs:33 | 0 without a positive limit; otherwise the percentage whose product with the limit is 100 times the spending |
| LedgerModels.RemainingBudget | Models/Budget.cs:32 | remainder plus spending is the limit; nothing remains exactly when spending reaches the limit |
| LedgerModels.IsOverBudget | Models/Budget.cs:34 | over budget exactly when the remainder is negative |
| LedgerModels.UtilisationAgreesWithOverBudget | Models/Budget.cs:33-34 | with a positive limit, utilisation exceeds 100 exactly when over budget, and equals 100 exactly when nothing remains |
| LedgerModels.NewGoal | Models/FinancialGoal.cs:14-20 | a new goal is open with nothing saved |
| LedgerModels.NewGoalFor | Models/FinancialGoal.cs:22-32 | the named goal is open, has saved nothing and keeps the given name, description, target and date |
| LedgerModels.ProgressPercentage | Models/FinancialGoal.cs:35 | 0 without a positive target; otherwise the percentage whose product with the target is 100 times the saving |
| LedgerModels.RemainingAmount | Models/FinancialGoal.cs:34 | remaining plus saved is the target; nothing remains exactly when the target is reached |
| LedgerModels.ProgressInRange | Models/FinancialGoal.cs:35 | between nothing and the target saved, progress lies in 0..100 and is 100 exactly at the target |
| TransactionQueries.InsertKeepsSorted | Services/BudgetService.cs:58 | inserting by date keeps a newest-first list newest first |
| TransactionQueries.InsertAtInstant | Services/BudgetService.cs:58 | insertion keeps the relative order of transactions with the same date |
| TransactionQueries.SortByDateDesc | Services/BudgetService.cs:58 | `OrderByDescending(t => t.Date)`: a permutation, newest first, stable among equal dates |
| TransactionQueries.GetAllTransactions | Services/BudgetService.cs:56-59 | all stored transactions, each as often as stored, newest first, equal dates in stored order |
| TransactionQueries.SelectNewestFirst | Services/BudgetService.cs:61-75 | exactly the transactions passing the filter, each as often as stored, newest first, equal dates in stored order |
| TransactionQueries.GetTransactionsByDateRange | Services/BudgetService.cs:61-67 | exactly the transactions whose day lies in the range, each as often as stored, newest first, equal dates in stored order |
| TransactionQueries.GetTransactionsByCategory | Services/BudgetService.cs:69-75 | exactly the transactions whose category matches ignoring case, each as often as stored, newest first, equal dates in stored order |
| TransactionQueries.TotalIsSumOfSelected | Services/BudgetService.cs:100-124 | the running total of a kind equals `Sum(t => t.Amount)` over the sequence filtered by type and by each given day bound |
| TransactionQueries.GetTotalIncome | Services/BudgetService.cs:100-111 | the sum of the amounts of the income transactions whose day lies within the given bounds |
| TransactionQueries.GetTotalExpenses | Services/BudgetService.cs:113-124 | the sum of the amounts of the expense transactions within the bounds, equal to the sum of the per-category breakdown over the same bounds |
| TransactionQueries.NetIncomeIsSignedTotal | Services/BudgetService.cs:100-130 | income minus expenses is the sum over transactions within the bounds, income positive and expenses negative |
| TransactionQueries.GetNetIncome | Services/BudgetService.cs:126-130 | net income is the signed sum of the transactions within the bounds |
| TransactionQueries.TotalOfConcat | Services/BudgetService.cs:100-124 | totals add over a split of the transaction list |
| TransactionQueries.ExpenseCategories | Services/BudgetService.cs:131-144 | the groups' keys: distinct, and exactly the categories of counted expenses |
| TransactionQueries.GetExpensesByCategory | Services/BudgetService.cs:131-144 | one entry per distinct category of counted expenses, each with that category's total |
| TransactionQueries.AbsentCategoryTotalsZero | Services/BudgetService.cs:131-144 | a category without counted expenses totals zero |
| TransactionQueries.SumOverCategoriesStep | Services/BudgetService.cs:131-144 | one more transaction moves the sum over distinct categories by its amount exactly when it is a counted expense of one of them |
| TransactionQueries.CategoriesCoverExpenses | Services/BudgetService.cs:113-144 | the category totals add up to the total expenses |
| TransactionQueries.SumEntriesOfCategories | Services/BudgetService.cs:141-143 | the breakdown's values add up as the category totals do |
| TransactionQueries.ExpensesByCategorySumToTotal | Services/BudgetService.cs:113-144 | the per-category values sum to the total expenses over the same bounds |
| BudgetLedger.RefreshSpending | Services/BudgetService.cs:179-196 | each active budget's spending becomes its category's expenses this month (ignoring case); inactive budgets and all other fields stay |
| BudgetLedger.RefreshedIsUnique | Services/BudgetService.cs:179-196 | that description determines the recomputed list completely |
| BudgetLedger.RefreshIdempotent | Services/BudgetService.cs:179-196 | recomputing twice gives what recomputing once gives |
| BudgetLedger.MonthlySpentAppend | Services/BudgetService.cs:186-191 | one more transaction adds its amount to exactly the categories it counts toward |
| BudgetLedger.MonthlySpentIgnoresCase | Services/BudgetService.cs:186-191 | categories equal ignoring case have the same monthly spending |
| BudgetLedger.MonthlySpentSplits | Services/BudgetService.cs:186-191 | splitting the transactions by any test splits the monthly spending |
| BudgetLedger.AddTransaction | Services/BudgetService.cs:77-82 | appends the transaction, recomputes spending, leaves goals |
| BudgetLedger.AddTransactionSpending | Services/BudgetService.cs:77-82 | after an addition each active budget spends this month's spending over the earlier transactions plus the new amount when it counts |
| BudgetLedger.UpdateTransaction | Services/BudgetService.cs:84-93 | replaces the first transaction with the id and recomputes; an unknown id changes nothing |
| BudgetLedger.DeleteTransaction | Services/BudgetService.cs:95-99 | removes every transaction with the id, keeps the others in order with their multiplicities, and recomputes |
| BudgetLedger.DeleteTransactionSpending | Services/BudgetService.cs:95-99 | after a deletion each active budget spends this month's spending over the earlier transactions minus that of the removed transactions that counted |
| BudgetLedger.GetAllBudgets | Services/BudgetService.cs:147-150 | exactly the active budgets, in order |
| BudgetLedger.AddBudget | Services/BudgetService.cs:152-157 | appends the budget and recomputes every active budget's spending |
| BudgetLedger.UpdateBudget | Services/BudgetService.cs:159-167 | replaces the first budget with the id without recomputing; an unknown id changes nothing |
| BudgetLedger.DeleteBudget | Services/BudgetService.cs:169-177 | marks the first budget with the id inactive and changes nothing else; the list keeps its length |
| BudgetLedger.DeletedBudgetNotListed | Services/BudgetService.cs:147-177 | with unique ids, a deleted budget is no longer listed |
| BudgetLedger.DeleteBudgetKeepsOthersListed | Services/BudgetService.cs:147-177 | every other listed budget stays listed |
| BudgetLedger.UpdateBudgetSpending | Services/BudgetService.cs:179-196 | recomputes spending and leaves transactions and goals |
| BudgetLedger.GetAllGoals | Services/BudgetService.cs:198-201 | exactly the goals not completed, in order |
| BudgetLedger.AddGoal | Services/BudgetService.cs:203-207 | appends the goal and keeps the others |
| BudgetLedger.UpdateGoal | Services/BudgetService.cs:209-217 | replaces the first goal with the id; an unknown id changes nothing |
| BudgetLedger.DeleteGoal | Services/BudgetService.cs:219-223 | removes every goal with the id and keeps the others in order |
| BudgetLedger.CreditGoal | Services/BudgetService.cs:230-235 | saving reaching the target is clamped to the target and completes the goal; below it the amount is added and completion is unchanged; nothing else changes |
| BudgetLedger.CreditsCompose | Services/BudgetService.cs:225-238 | crediting a and then a non-negative b is crediting a + b once |
| BudgetLedger.CreditKeepsRange | Services/BudgetService.cs:225-238 | non-negative credits keep the saving between 0 and the target, and progress in 0..100 |
| BudgetLedger.UpdateGoalProgress | Services/BudgetService.cs:225-238 | credits the first goal with the id and changes nothing else; an unknown id changes nothing |
| BudgetLedger.ReachedGoalLeavesList | Services/BudgetService.cs:198-238 | with unique ids, a credit that reaches the target removes the goal from the open goals |

## Left out

- File I/O and persistence: loading and saving users, attempt records, the
  ledger and the audit log, JSON (de)serialisation and AES encryption
  (`EncryptionService`) are not part of this model; the audit codec is a pair
  of function parameters.
- `IDataService`/`JsonDataService` (Services/DataService.cs) are not part of
  this model: `BudgetService.InitializeAsync` (loading the three lists) and
  `SetCurrentUser` (choosing whose files are used) are left out, and the
  saves after each ledger change are not modelled; a `Ledger` value holds the
  three lists.
- Timers, `async`/`await`, `Task.Run`, the audit service's `lock` and the
  `SessionExpired` event dispatch: calls are sequential and the timer is the
  explicit `Sessions.Tick`. `Dispose` only stops the timer and is left out.
- `Register`'s catch path (an exception while hashing or saving,
  Services/UserService.cs:177-181) depends on I/O failures and is left out.
- Unicode character categories and culture-aware case folding: ASCII versions
  are used throughout.
- Lone surrogates: a .NET string may hold an unpaired UTF-16 surrogate, which a
  Dafny string cannot; every string here is a sequence of Unicode scalar
  values, with lengths and the file-format window counted in UTF-16 units.
- PasswordHashing.HashVerifiesExactly, CredentialProperties.ChangePasswordThenLogin:
  BCrypt reads at most the first 72 bytes of the UTF-8 encoded password, so
  two passwords that agree on those bytes verify against each other's hash.
  The model's `Verify` compares whole passwords, and these two lemmas ("no
  other password verifies", "the old password is refused") hold for the
  source only when the passwords differ within their first 72 UTF-8 bytes.
- `LoginAttemptInfo.FailedAttempts` is a 32-bit `int` in the source; the model
  counts without wrap-around, which would need more than two billion failures.
- `decimal` rounding in the percentage divisions: amounts are exact reals.
- `double` rounding in `TotalMinutes`: spans are compared exactly in ticks.
- Clock reads taken as one instant. `Register` stamps `CreatedAt` and
  `LastLogin` from two reads (Services/UserService.cs:168-169); the model gives
  both the one `now`. `UpdateBudgetSpendingAsync` takes the month and the year
  from two reads (Services/BudgetService.cs:181-182); the model takes both from
  one `now`, so it does not show a call straddling midnight on New Year's Eve,
  which in the source pairs December with the new year and sets every active
  budget's spending from a month with no transactions. `Login`'s two lock
  checks (Services/UserService.cs:268, 286), its `LastLogin` stamp (line 297)
  and the attempt record's two instants (lines 232, 248) all use the one
  `now`; only the remaining time of a "locked" answer (lines 270, 288) has its
  own read.
- The mutable-reference aliasing of `User`, `Budget` and `FinancialGoal`
  objects: a caller keeping a reference sees later updates. `Login` returns
  the very `User` object held by the store (Services/UserService.cs:313), and
  the session manager keeps it, so a later lock or password change shows
  through that reference; the model works on values and returns a copy.
- `FinancialGoal.DaysRemaining` and `RequiredMonthlySavings` depend on the
  wall clock and use `double`.
- `ReportService`, the Windows Forms and console UI (apart from the strength
  meter's score and label), `Program.cs` and the debug/test programs.
- `GetLocalIPAddress` is the machine name, passed in as a parameter.
