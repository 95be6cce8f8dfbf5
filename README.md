# django-useraudit in Dafny

A model of django-useraudit's audit and lockout core, with proofs about it. django-useraudit is a Django app with three jobs:

- it logs every successful and failed login, with the client IP address, the proxy chain and the user agent;
- it counts failed logins per username and blocks a username once the count reaches `LOGIN_FAILURE_LIMIT`;
- it enforces password expiry and account (inactivity) expiry.

The model also covers the app's companion pieces:

- the older `userlog` variant of the expiry backend;
- the two management commands (`disable_inactive_users`, `activate_user`);
- the admin's `reactivate_user` view;
- the `chain_maps` test helper.

The Django database is one object, `Store.Database`, with one field per table:

- users, keyed by username;
- profile rows;
- `LoginAttempt` counters, keyed by the possibly-None username;
- `UserDeactivation` rows;
- `LoginLog` and `FailedLoginLog` rows;
- the signals sent so far.

`Records.Db` is a snapshot of that object. Each ORM-level operation works in two layers:

- a function on snapshots, which is the specification;
- a method on `Database` that makes the same changes step by step, and whose `ensures` ties the new state to that function.

Python exceptions are values:

- `Run(db, raised)` is the state reached, plus the exception raised, if any.
- An authentication backend answers `Auth(db, result)`. Its result is:
  - `NoOpinion` when it returns None, so the next backend is tried;
  - `Denied(message)` when it raises `PermissionDenied`;
  - `Raised(error)` for any other exception.

Other modelling choices:

- Time is an integer number of seconds, and `now` is a parameter.
- Signals are recorded, and then their receivers run. The receivers connected in `useraudit/models.py` keep the deactivation-reason table.
- The two `pre_save` receivers on the user model run in connection order:
  1. the failed-login counter reset of `useraudit/backend.py`;
  2. the change-date and last_login upkeep of `useraudit/password_expiry.py`.

Modules, in dependency order:

- `Wrappers`, `Strings`: the option and result types; Python's `str.strip`, `str.split` and `str.join`; list reversal.
- `Records`, `Store`: the data model and the database object.
- `LoginLog`: `LoginLogger` (`useraudit/models.py`).
- `Models`: `LoginAttemptLogger`, `UserDeactivation` and the signal receivers (`useraudit/models.py`).
- `Expiry`: `ExpirySettings` and the expiry predicates (`useraudit/password_expiry.py`).
- `UserSave`: `Model.save()` on the user, with both `pre_save` receivers.
- `AuditBackend`: `AuthFailedLoggerBackend` (`useraudit/backend.py`).
- `AccountExpiry`: `AccountExpiryBackend` (`useraudit/password_expiry.py`).
- `LoginAttempts`: `LoginAttemptsBackend` (`useraudit/login_attempts.py`).
- `UserlogExpiry`: `userlog/password_expiry.py`.
- `DisableInactiveUsers`, `ActivateUser`: the management commands.
- `Views`: `reactivate_user`.
- `ChainMaps`: `chain_maps`.

Where the package's documented behaviour and its code differ, the model follows the code:

- A login refused by the expiry backend counts as a failed login only when `useraudit.backend.AuthFailedLoggerBackend` is listed in `AUTHENTICATION_BACKENDS` (`useraudit/password_expiry.py:250-258`).
- A username that matches no user, once at the limit, does not get a quiet denial: the blocking code raises `AttributeError`. See "## Findings". The model has both versions: `AuditBackend.FailedAuthAsWritten` and a backend object built with `asWritten` follow the code; `AuditBackend.FailedAuth` and a backend built without it are corrected. The expiry backend uses the corrected one, which agrees with the code there, because it reaches the failed-login backend only for existing users.
- A change-date setting that is not a string does not disable the check in `userlog`: it raises `TypeError`.
- A change-date value that is truthy but is not a datetime makes `useraudit` raise `TypeError`. One example is a non-empty string.
- There is no "password will expire" warning in the code.

## Model

| member | source | states |
|---|---|---|
| LoginLog.ExtractIpAddress | useraudit/models.py:106-117 | Without X-Forwarded-For, the peer is the client and there is no chain. With it, the stripped first element is the client. The chain is REMOTE_ADDR followed by the remaining elements, last first, one entry per header element. |
| LoginLog.TruncateUserAgent | useraudit/models.py:85-97 | A user agent longer than 1000 characters is cut to exactly 1000, keeping its beginning. A shorter one, or None, is kept as it is. |
| LoginLog.JoinProxies | useraudit/models.py:103 | `",".join(proxies or [])` fails (TypeError) exactly when some chain entry is None. |
| LoginLog.ExtractLogInfo | useraudit/models.py:84-104 | Without a request, ip, agent and chain are null and forwarded_by is empty. The row keeps the username. Building it raises exactly when the header is present and REMOTE_ADDR is not. |
| LoginLog.BehindProxies | useraudit/models.py:84-117 | With both headers, the row holds the first stripped element as IP, and the peer plus the reversed remaining elements, joined by commas. |
| LoginLog.ForwardedByParsesBack | useraudit/models.py:99-117 | For a comma-free peer, splitting the stored forwarded_by on commas gives back the chain exactly. It has as many entries as the header has elements. |
| LoginLog.TwoProxiesExample | useraudit/models.py:106-117 | Header "client, proxy1, proxy2" from peer proxy3 gives ip_address client and forwarded_by "proxy3,proxy2,proxy1". |
| LoginLog.Logged | useraudit/models.py:76-82 | A log call either appends exactly one row, keeping the earlier rows, or raises. The row holds the columns ExtractLogInfo computes (username, ip_address, user_agent, forwarded_by) and is stamped now. It raises exactly when the columns cannot be built. |
| LoginLog.FailedLogged | useraudit/models.py:76-78 | log_failed_login succeeds exactly when the columns can be built. It then appends to the FailedLoginLog table the row of ExtractLogInfo's columns stamped now, and touches nothing else; otherwise it changes nothing. |
| LoginLog.SuccessLogged | useraudit/models.py:80-82 | log_login succeeds exactly when the columns can be built. It then appends to the LoginLog table the row of ExtractLogInfo's columns stamped now, and touches nothing else; otherwise it changes nothing. |
| LoginLog.LogFailedLogin | useraudit/models.py:76-78 | The database after log_failed_login is FailedLogged of the database before, and the same exception is raised. |
| LoginLog.LogLogin | useraudit/models.py:80-82 | The database after log_login is SuccessLogged of the database before, and the same exception is raised. |
| Models.Incremented | useraudit/models.py:28-32 | The username's counter is one more than before, a missing row reading as 0, and stamped now. Every other row is unchanged. |
| Models.Reset | useraudit/models.py:21-26 | The username's counter is 0 and stamped now, created if absent. Every other row is unchanged. |
| Models.CountAfterReset | useraudit/models.py:21-32 | After a reset and k increments the count is exactly k, and other usernames' rows are untouched. |
| Models.ResetIdempotent | useraudit/models.py:21-26 | Resetting twice is resetting once. |
| Models.WithoutUser | useraudit/models.py:128 | Deleting a user's deactivation rows keeps exactly the rows of the other users, and no more rows than before. |
| Models.RowsForDeleted | useraudit/models.py:138 | After the delete, the user has no deactivation rows. |
| Models.RowsForOther | useraudit/models.py:138 | Deleting one user's rows leaves every other user's rows as they were. |
| Models.ReplacedLeavesOneRow | useraudit/models.py:135-140 | After save_login_deactivation the user has exactly one row, with the new reason, and other users' rows are unchanged. This holds whatever rows the user had before. |
| Models.Send | useraudit/models.py:135-150 | A sent signal is recorded and its receiver runs. PE, AE and FL for a user make the deactivation table Replaced of the old one: the user's rows become the single row of that reason, and other users' rows are kept. A limit signal for user None raises AttributeError and leaves the table as it was. The userlog signals change no rows. Nothing else changes. |
| Models.LoggedIn | useraudit/models.py:124-128 | A successful login appends the LoginLog row of ExtractLogInfo's columns for the username. The counters become Reset of the old ones (this username at 0, the others unchanged), and the deactivation rows become WithoutUser of the old ones (this user's gone, the others kept). Users, profiles, events and failed logins are untouched. It raises only when the log row cannot be built, and then changes nothing. |
| Models.Increment | useraudit/models.py:28-32 | The database's counters become Incremented of the old ones, and nothing else changes. |
| Models.ResetCounter | useraudit/models.py:21-26 | The database's counters become Reset of the old ones, and nothing else changes. |
| Models.DeleteDeactivations | useraudit/models.py:128 | The deactivation table becomes WithoutUser of the old one, and nothing else changes. |
| Models.SendSignal | useraudit/models.py:135-150 | The database after sending is Send of the database before, and the same exception is raised. |
| Models.LoginCallback | useraudit/models.py:124-128 | The database after login_callback is LoggedIn of the database before, and the same exception is raised. |
| Expiry.GetExpirySettings | useraudit/password_expiry.py:198-206 | Each day count is 0 exactly when unset or 0, and otherwise is the setting. The change-date attribute is None exactly when unset or empty. The password attribute defaults to "password". |
| Expiry.EarliestPossibleLogin | useraudit/password_expiry.py:208-212 | None exactly when ACCOUNT_EXPIRY_DAYS is not positive. Otherwise the cutoff is that many days before now. |
| Expiry.EarliestPossiblePasswordChange | useraudit/password_expiry.py:214-218 | None exactly when PASSWORD_EXPIRY_DAYS is not positive. Otherwise the cutoff is that many days before now. |
| Expiry.UserAttr | useraudit/password_expiry.py:170-171 | getattr on a user: a name that is not a standard field exists exactly when the model has that attribute. `password` is the password. |
| Expiry.SetUserAttr | useraudit/password_expiry.py:145-146 | setattr on a user: the new value reads back, and username, password, is_active and id are kept. |
| Expiry.PasswordChangeDate | useraudit/password_expiry.py:164-179 | No setting, a non-string setting or an empty one gives None. Otherwise the result is the value the walk along the dotted path ends on, and None when some part of the path is missing. |
| Expiry.GetPasswordChangeDate | useraudit/password_expiry.py:164-179 | The loop over the path's parts returns the value at its end, or None as soon as a part is missing: it returns PasswordChangeDate. |
| Expiry.IsPasswordExpired | useraudit/password_expiry.py:156-161 | Expired exactly when expiry is enabled, the change date is a datetime, and more than the configured days have passed since it. It raises TypeError exactly when the date is truthy but not a datetime. |
| Expiry.IsAccountExpired | useraudit/password_expiry.py:182-195 | Expired exactly when account expiry is enabled, the user has a last_login, and more than the configured days have passed since it. |
| Expiry.PasswordExpiryPersists | useraudit/password_expiry.py:156-161 | Once a password is expired, it stays expired at every later time. |
| Expiry.ProfilePathReadsProfile | useraudit/password_expiry.py:164-175 | With "relation.column", the change date is the column of the user's related profile row; for a relation that holds a user, it is that stored user's attribute. It is None when the relation, the row or the column is missing. |
| Expiry.PlainPathReadsAttribute | useraudit/password_expiry.py:164-175 | With a plain attribute name as the setting, the change date is that attribute of the user, or None when the user lacks it. |
| Expiry.BackToUser | useraudit/password_expiry.py:168-172 | Going from the user to its profile and back through the profile's `user` column lands on the stored user, so the rest of the path reads as from the user. |
| Expiry.ProfileUserCycleReadsProfile | useraudit/password_expiry.py:164-175 | "p.user.p.user.p.column" reads the same change date as "p.column" when the profile's `user` column is the user. |
| UserSave.DateChangeUpdated | useraudit/password_expiry.py:133-153 | With an unchanged password nothing happens. With a changed password: a plain attribute name sets that attribute of the instance to now, and nothing else changes. A dotted path succeeds exactly when the path without its last name leads to an existing profile row. When the last name is a column of that row, the column becomes now and no other profile or table changes; when it is not, profile.save() stores nothing and the database is unchanged. The instance is unchanged. Failure comes only from a changed password, TypeError exactly for a non-string setting. |
| UserSave.Save | useraudit/password_expiry.py:111-131 | A new user or a raw save is written as is. Otherwise, reactivating resets the counter (useraudit/backend.py:16-27) and clears last_login. A failure comes only from the change-date update; it then leaves the user and profile tables as they were. A full save of a stored user whose password is unchanged (or with no change-date setting) writes the instance itself, with last_login cleared on reactivation, and leaves profiles alone. Logs, events, deactivations and other users never change. |
| UserSave.SaveAfterDateChange | useraudit/password_expiry.py:111-131 | With a change-date setting, a save of a stored user fails exactly when DateChangeUpdated does, with its exception. Otherwise the profiles are the ones DateChangeUpdated leaves, and a full save writes the instance it leaves, with last_login cleared on reactivation. |
| UserSave.DeactivationChangesOnlyIsActive | useraudit/backend.py:82-86 | Saving a stored user as inactive, with update_fields or a full save, changes only its is_active and raises nothing. |
| UserSave.ReactivationResetsCounterAndLastLogin | useraudit/backend.py:23-27 | Saving an inactive user as active makes it active with last_login None (useraudit/password_expiry.py:126-130) and sets its failed-login counter to 0. |
| UserSave.PasswordChangeDateOnUser | useraudit/password_expiry.py:145-153 | With a plain attribute, after a save that changes the password, the change date read back is the time of the save. |
| UserSave.PasswordChangeDateOnProfile | useraudit/password_expiry.py:138-151 | With "relation.column" naming an existing column of the related profile row, after a save that changes the password, the date read back through the profile is the time of the save. |
| UserSave.SaveUser | useraudit/password_expiry.py:111-131 | The database after the save is Save of the database before, and the same exception is raised. |
| AuditBackend.LookupUser | useraudit/backend.py:74-80 | The user with that username, None exactly when there is none. |
| AuditBackend.BlockingCorrected | useraudit/backend.py:46-65 | With a counted failure: never raises; denies exactly when the limit is enabled and reached; counters and logs unchanged. A denied existing user is deactivated; the deactivation table becomes Replaced with a single FL row for that user, the login_failure_limit_reached event for the user is recorded, and profiles are unchanged. Otherwise nothing changes. |
| AuditBackend.FailedAuthAsWritten | useraudit/backend.py:50-56 | As written: at the limit, for a username that matches no user, the result is AttributeError instead of a denial. |
| AuditBackend.FailedAuth | useraudit/backend.py:37-56 | Corrected backend. Raises only when the failed-login row cannot be built. Otherwise appends the FailedLoginLog row of ExtractLogInfo's columns and increments the counter, even for unknown usernames. Profiles never change. Denies exactly when the limit is enabled and reached. A denied existing user is inactive, its deactivation rows are replaced by one FL row (other users' kept), and login_failure_limit_reached is recorded for it. A denied unknown username and a pass change no users, deactivation rows or events. |
| AuditBackend.UnknownUserAtLimit | useraudit/backend.py:50-56 | Unknown username, limit 2: the first failure passes. On the second, the code as written raises AttributeError, while the corrected backend denies and leaves users and rows alone. |
| AuditBackend.ReactivationForgivesEarlierFailures | useraudit/backend.py:16-27 | Limit 2: two failures block an active user. Saving it active again makes one more failure pass. |
| AuditBackend.OneFailure | useraudit/backend.py:37-65 | For limit 2: a failure passes exactly on a zero count, with users unchanged, and otherwise denies and deactivates the user. |
| AuditBackend.AuthFailedLoggerBackend.constructor | useraudit/backend.py:32-35 | The backend reads its settings, and `LOGIN_FAILURE_LIMIT or 0`, when built. The asWritten flag chooses between the code as written and the corrected block (see "## Findings"). |
| AuditBackend.AuthFailedLoggerBackend.DeactivateUser | useraudit/backend.py:82-89 | Reports whether the user was found. The database becomes UserDeactivated of the old one. |
| AuditBackend.AuthFailedLoggerBackend.BlockUserIfNeeded | useraudit/backend.py:46-56 | The database and the result are those of Blocking on the old database: as written (the signal sent with user=None for an unknown username) when the backend was built with asWritten, corrected otherwise. |
| AuditBackend.AuthFailedLoggerBackend.Authenticate | useraudit/backend.py:37-44 | It records the username. The database and the result are those of Attempted on the old database: log, count, then block. Built with asWritten this is the code as written, so an unknown username at the limit ends in AttributeError; built without it, it is the corrected backend, which denies. |
| AccountExpiry.PreventLogin | useraudit/password_expiry.py:250-258 | Never lets the login through. Without the failed-login backend, it denies with the message and changes nothing. With it, the database is the one FailedAuth leaves (log row, count, and at the limit the deactivation), and the message is the blocking one once the limit is reached. |
| AccountExpiry.PassesExactlyWhenNothingExpired | useraudit/password_expiry.py:226-248 | It passes exactly for an unknown username, or for an active user with neither password nor account expired, and then changes nothing. |
| AccountExpiry.InactiveUserRefused | useraudit/password_expiry.py:229-234 | An inactive user is refused. No user row changes. Without the failed-login backend, the answer is "Account is not active" and nothing changes. |
| AccountExpiry.ExpiredPasswordRefused | useraudit/password_expiry.py:236-238 | An expired password sends password_has_expired (one PE row) and is refused with "Password has expired". Users are unchanged. |
| AccountExpiry.StaleAccountDeactivated | useraudit/password_expiry.py:240-245 | A stale account is saved inactive (only is_active), and account_has_expired is sent (one AE row). The login is refused with "Account has expired". |
| AccountExpiry.RefusalCountsAsFailure | useraudit/password_expiry.py:250-258 | With the failed-login backend, every refusal (inactive, password expired, account expired) increments the counter. It becomes the blocking denial exactly when the limit is reached. |
| AccountExpiry.RefusalRoute | useraudit/password_expiry.py:229-248 | Each of the three refusals reaches _prevent_login with its message, on a database whose counters are the original ones. |
| AccountExpiry.RefusalCounted | useraudit/password_expiry.py:250-258 | One refusal through _prevent_login with the failed-login backend counts one failure, and is the blocking denial exactly at the limit. |
| AccountExpiry.PreventLoginOn | useraudit/password_expiry.py:250-258 | The database and the result are those of PreventLogin on the old database. |
| AccountExpiry.Authenticate | useraudit/password_expiry.py:226-248 | The database and the result are those of ExpiryAuthenticate on the old database. |
| LoginAttempts.CountFor | useraudit/login_attempts.py:36-41 | The username's counter, None exactly when it has no row. |
| LoginAttempts.LimitCheck | useraudit/login_attempts.py:19-29 | Never raises. Denies exactly when the limit is enabled, the user exists and the count is non-zero and at the limit. Then only that user's is_active changes. Otherwise nothing changes. |
| LoginAttempts.BlockedStaysBlocked | useraudit/login_attempts.py:19-29 | Once the failed-login backend has blocked a user, this backend refuses it under the same limit and changes nothing more. |
| LoginAttempts.InactiveAtLimitRefused | useraudit/login_attempts.py:19-29 | An inactive user whose counter is non-zero and at the enabled limit is refused with the blocked message, and nothing changes. |
| LoginAttempts.BelowLimitPasses | useraudit/login_attempts.py:19-34 | Below the limit it passes and changes nothing. |
| LoginAttempts.LoginAttemptsBackend.constructor | useraudit/login_attempts.py:15-17 | The backend reads LOGIN_FAILURE_LIMIT as it is, with no `or 0`. |
| LoginAttempts.LoginAttemptsBackend.GetCount | useraudit/login_attempts.py:36-41 | Returns CountFor of the current username. |
| LoginAttempts.LoginAttemptsBackend.DeactivateUserOn | useraudit/login_attempts.py:51-57 | Found exactly when the user exists. Then only its is_active becomes false; otherwise nothing changes. |
| LoginAttempts.LoginAttemptsBackend.Authenticate | useraudit/login_attempts.py:19-29 | The database and the result are those of LimitCheck on the old database. |
| UserlogExpiry.IsExpiredToday | userlog/password_expiry.py:98-102 | True exactly when the period is positive, the date is a datetime, and now is past date plus the period. TypeError exactly for a non-None value that is not a datetime. |
| UserlogExpiry.ChangeDate | userlog/password_expiry.py:111-118 | The attribute named by the setting, or None. TypeError exactly for a non-string setting. |
| UserlogExpiry.PasswordExpired | userlog/password_expiry.py:105-108 | Expired exactly when the period is positive and more than that many days have passed since the stored datetime. |
| UserlogExpiry.AccountExpiryAgrees | userlog/password_expiry.py:129-136 | userlog's account expiry equals useraudit's, and both mean a last_login older than the period. |
| UserlogExpiry.PasswordExpiryAgrees | userlog/password_expiry.py:105-118 | For a plain attribute holding a datetime or None, both apps agree on password expiry. For an empty string, userlog raises TypeError and useraudit says not expired. |
| UserlogExpiry.DateChangeUpdated | userlog/password_expiry.py:85-95 | A new user is stamped with now. For a stored user, an unchanged password keeps the instance as it is, and a changed one sets the change-date attribute to now (TypeError for a non-string setting). AttributeError exactly when the stored user lacks the password attribute. |
| UserlogExpiry.Save | userlog/password_expiry.py:78-82 | A raw save, or one without a setting, is written as is. Only the saved user can change, and a failure changes nothing. |
| UserlogExpiry.NewUserGetsChangeDate | userlog/password_expiry.py:85-95 | A created user's change date is the time of creation. |
| UserlogExpiry.UnchangedPasswordKeepsDate | userlog/password_expiry.py:85-95 | Saving without a password change writes the instance unchanged. |
| UserlogExpiry.ChangedPasswordGetsChangeDate | userlog/password_expiry.py:85-95 | Saving a stored user with a new password writes the instance with its change date set to the time of the save, and nothing else. |
| UserlogExpiry.PassesUnlessExpired | userlog/password_expiry.py:155-169 | It passes exactly when the credentials were rejected or neither check fires, and then changes nothing. A password refusal only records the signal. |
| UserlogExpiry.StaleAccountDeactivated | userlog/password_expiry.py:171-177 | A stale account is saved inactive, the signal is sent, and the login is refused with "Account has expired". |
| UserlogExpiry.SaveUser | userlog/password_expiry.py:78-95 | The database after the save is Save of the database before. |
| UserlogExpiry.Authenticate | userlog/password_expiry.py:155-177 | The database and the result are those of ExpiryCheck on the old database. |
| DisableInactiveUsers.Stale | useraudit/management/commands/disable_inactive_users.py:31 | A user is selected exactly when it is active and has a last_login before the cutoff. |
| DisableInactiveUsers.Deactivated | useraudit/management/commands/disable_inactive_users.py:38 | The bulk update makes exactly the selected users inactive, with no receivers. |
| DisableInactiveUsers.Recipients | useraudit/management/commands/disable_inactive_users.py:75-79 | A message is built exactly for the selected users with a non-empty e-mail. |
| DisableInactiveUsers.SweepMatchesLoginCheck | useraudit/management/commands/disable_inactive_users.py:23-31 | A user is swept exactly when it is active and the login-time account expiry check would refuse it. |
| DisableInactiveUsers.SweepIsIdempotent | useraudit/management/commands/disable_inactive_users.py:31-38 | After a sweep, no stale user is left, so a second sweep at the same time changes nothing. |
| DisableInactiveUsers.Handle | useraudit/management/commands/disable_inactive_users.py:18-47 | Unconfigured, nothing happens. Otherwise exactly the stale users become inactive. It reports how many there were and who gets a message, and sends only with e-mail on and some message. |
| ActivateUser.Command | useraudit/management/commands/activate_user.py:14-18 | A failing command leaves the database as it was (transaction.atomic). |
| ActivateUser.ActivatedEffect | useraudit/management/commands/activate_user.py:27-33 | An active user is left alone. An inactive one becomes active with no last_login, no deactivation rows and a zero counter. Nobody else changes. |
| ActivateUser.ActivateAllKeepsUsers | useraudit/management/commands/activate_user.py:14-18 | Activation adds or removes no users. |
| ActivateUser.UnknownNameAborts | useraudit/management/commands/activate_user.py:15-25 | The command fails exactly when some name is unknown. It then raises CommandError for the first such name and changes nothing. |
| ActivateUser.AllNamedActivated | useraudit/management/commands/activate_user.py:14-33 | With known names, every named user ends active. Formerly inactive ones have no rows, a zero counter and no last_login. Users not named are untouched. |
| ActivateUser.NamedActive | useraudit/management/commands/activate_user.py:14-33 | Every named user ends up active. |
| ActivateUser.NamedCleared | useraudit/management/commands/activate_user.py:27-33 | Every named user that was inactive ends with no rows, a zero counter and no last_login. |
| ActivateUser.UnnamedUntouched | useraudit/management/commands/activate_user.py:14-18 | Users not named are unchanged. |
| ActivateUser.OnceActiveStays | useraudit/management/commands/activate_user.py:27-30 | An active user stays active while later names are activated. |
| ActivateUser.OnceActivePreserved | useraudit/management/commands/activate_user.py:27-33 | A cleared active user stays cleared while later names are activated. |
| ActivateUser.ActivateOne | useraudit/management/commands/activate_user.py:27-33 | The database after _activate_user is Activated of the database before. |
| ActivateUser.Handle | useraudit/management/commands/activate_user.py:14-25 | The loop with rollback leaves the database and the error of Command. |
| Views.ReactivatedEffect | useraudit/views.py:23-28 | The reactivated user is active, with no rows and a zero counter, and last_login is cleared if it was inactive. Other users and their rows are untouched, and nothing raises. |
| Views.ViewMatchesCommand | useraudit/views.py:23-28 | For an inactive user, the view and `activate_user <username>` leave the same database. |
| Views.GetUser | useraudit/views.py:32-38 | None exactly when no user has that id. Otherwise it returns a stored user with that id. |
| Views.ReactivateUser | useraudit/views.py:23-29 | An unknown id raises AttributeError and changes nothing. Otherwise the database is Reactivated for the user with that id. |
| ChainMaps.Merge | useraudit/tests/utils.py:39-41 | d1.update(d2): the keys of both, with d2's values winning. |
| ChainMaps.ChainCons | useraudit/tests/utils.py:36-43 | The first argument is merged last, over the chain of the rest. |
| ChainMaps.ChainEmpty | useraudit/tests/utils.py:43 | No arguments give the empty dict. |
| ChainMaps.ChainSingle | useraudit/tests/utils.py:36-43 | One argument gives an equal dict. |
| ChainMaps.ChainKeys | useraudit/tests/utils.py:36-43 | The keys of the result are the union of the arguments' keys. |
| ChainMaps.FirstWins | useraudit/tests/utils.py:36-43 | A key takes its value from the first argument that has it. |
| ChainMaps.ChainLoop | useraudit/tests/utils.py:36-43 | The reduce over the reversed arguments computes Chain. |

## Left out

- Concurrency. Each operation is atomic here. The lost-update race of `LoginAttemptLogger.increment` (read, add one, save) is not modelled.
- Time zones and `timedelta` overflow. Time is unbounded integer seconds. `timezone.now()` and the thread-local request of `useraudit/middleware.py` are parameters.
- Logging, the `stdout` messages of the commands, the e-mail text and its sending. `Handle` only reports whom a message is built for and whether messages would be sent.
- HTTP responses and redirects, the admin, URL routing and the middleware.
- Django's own `update_last_login` receiver, and how Django tries backends in turn. Each backend is modelled on its own, and their interplay is stated in lemmas.
- The password check of `ModelBackend`. For `UserExpiryBackend` it is the parameter `verified`: whether the credentials were accepted.
- `LoginAttemptsBackend.notification` is an abstract hook that does nothing. A subclass's override is not part of this model.
- Users are keyed by username, the natural key. Renaming a user, a username held by several rows (`MultipleObjectsReturned`) and custom `USERNAME_FIELD`s are not modelled.
- `Views.GetUser`: ids are naturals, so the `"%d"` formatting of a missing id never fails here.
- `LoginAttempts.LimitCheck` takes the username as a string. The `KeyError` of `credentials['username']` without a username is not modelled.
- `Expiry.UserAttr` / `Expiry.SetUserAttr`: the standard fields are username, password, is_active, last_login and email. Setting another standard field, or one of them to a value of the wrong type, leaves the user unchanged. Plain values (strings, datetimes) have no attributes.
- `UserSave.DateChangeUpdated` follows a dotted path only to a profile row. Any other object at the end of the path raises `AttributeError`.
- `Expiry.Attr`: a profile's `user` column leads back to the user row as stored, not to the in-memory instance Django caches on the relation. The two differ only in attributes changed on an instance not yet saved.
- `DisableInactiveUsers.Handle` does not build the message text. The `strftime` of last_login and `get_full_name` are not modelled; a selected user always has a last_login.
- Attributes set on a user that are not database columns are kept in `User.attrs` across saves. Django would drop them when the user is loaded again.

## Findings

| source | as written | input that shows it | evidently intended | confidence | as-written member | corrected member |
|---|---|---|---|---|---|---|
| useraudit/backend.py:50-56 | `block_user_if_needed` sends `login_failure_limit_reached` with `user=None` when no user has the username. The receiver then calls `None.get_username()` and raises `AttributeError` instead of the login being denied. | `LOGIN_FAILURE_LIMIT = 2`, two failed logins for the unknown username "doesnotexit" (useraudit_testapp/tests.py:413-420 expects a plain denial and no deactivation row) | Deny with "Username '…' has been blocked", send the signal only for an existing user, and write no deactivation row for an unknown one | not executed | AuditBackend.FailedAuthAsWritten | AuditBackend.FailedAuth |
