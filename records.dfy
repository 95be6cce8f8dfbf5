/**
 * The data model of django-useraudit: the request data a log row is built
 * from, the user records and the attribute graph reached through them, the
 * audit tables (login logs, failed-attempt counters, deactivation reasons),
 * the signals the app emits, the Django settings it reads, and the
 * exceptions its code can raise.
 */
module Records {
  import opened Wrappers

  /** The part of HttpRequest.META the audit code reads. */
  datatype Request = Request(
    remoteAddr: Option<string>,     // REMOTE_ADDR
    forwardedFor: Option<string>,   // HTTP_X_FORWARDED_FOR
    userAgent: Option<string>)      // HTTP_USER_AGENT

  /** The columns of a LoginLog / FailedLoginLog row, except its timestamp. */
  datatype LogInfo = LogInfo(
    username: Option<string>,
    ipAddress: Option<string>,
    userAgent: Option<string>,
    forwardedBy: string)

  datatype LogRow = LogRow(info: LogInfo, timestamp: int)

  /**
   * A Python attribute value as the expiry code sees it: None, a datetime
   * (seconds), a string, a boolean, a related profile row, or a related user
   * (a profile's `user` column, which leads back to the user by username).
   */
  datatype Value = Null | Time(t: int) | Text(s: string) | Flag(b: bool) | ProfileRef(id: nat) | UserRef(username: string)

  /**
   * A user of the auth user model. `attrs` holds the fields beyond the ones
   * the audit code names directly (a password change date, a profile relation).
   */
  datatype User = User(
    id: nat,
    username: string,
    password: string,
    isActive: bool,
    lastLogin: Option<int>,
    email: string,
    attrs: map<string, Value>)

  /** A LoginAttempt row: the failed-login counter of one username. */
  datatype Attempt = Attempt(count: nat, timestamp: int)

  /** UserDeactivation.reason, with the two-letter codes stored in the column. */
  datatype Reason = AccountExpired | PasswordExpired | TooManyFailedLogins
  {
    function Code(): string
    {
      match this
      case AccountExpired => "AE"
      case PasswordExpired => "PE"
      case TooManyFailedLogins => "FL"
    }
  }

  /** A UserDeactivation row. */
  datatype Deactivation = Deactivation(username: string, reason: Reason, timestamp: int)

  /** A signal sent, with the username of the user it carries. */
  datatype Event =
    | PasswordHasExpired(username: string)            // useraudit.signals.password_has_expired
    | AccountHasExpired(username: string)             // useraudit.signals.account_has_expired
    | LoginFailureLimitReached(user: Option<string>)  // useraudit.signals.login_failure_limit_reached
    | UserlogPasswordHasExpired(username: string)     // userlog.password_expiry.password_has_expired
    | UserlogAccountHasExpired(username: string)      // userlog.password_expiry.account_has_expired

  /** The Python exceptions the modelled code can raise besides PermissionDenied. */
  datatype PyError = TypeError | AttributeError | CommandError(message: string)

  /** A configured attribute path: a string, or some other truthy value. */
  datatype AttrSetting = Path(path: string) | NonString

  /** The Django settings the core reads; None stands for an absent or None setting. */
  datatype Settings = Settings(
    passwordExpiryDays: Option<int>,              // PASSWORD_EXPIRY_DAYS
    passwordExpiryWarningDays: Option<int>,       // PASSWORD_EXPIRY_WARNING_DAYS
    passwordChangeDateAttr: Option<AttrSetting>,  // AUTH_USER_MODEL_PASSWORD_CHANGE_DATE_ATTR
    passwordAttr: Option<string>,                 // AUTH_USER_MODEL_PASSWORD_ATTR
    accountExpiryDays: Option<int>,               // ACCOUNT_EXPIRY_DAYS
    loginFailureLimit: Option<int>,               // LOGIN_FAILURE_LIMIT
    authenticationBackends: seq<string>)          // AUTHENTICATION_BACKENDS

  /** A snapshot of every table the core reads or writes, and of the signals sent so far. */
  datatype Db = Db(
    users: map<string, User>,
    profiles: map<nat, map<string, Value>>,
    attempts: map<Option<string>, Attempt>,
    deactivations: seq<Deactivation>,
    loginLog: seq<LogRow>,
    failedLog: seq<LogRow>,
    events: seq<Event>)

  /** Users are keyed by their username (the natural key). */
  ghost predicate Valid(d: Db)
  {
    forall k | k in d.users :: d.users[k].username == k
  }

  /** The state after an operation, and the exception it raised, if any. */
  datatype Run = Run(db: Db, raised: Option<PyError>)

  /** What an authentication backend does: pass (return None), deny (PermissionDenied) or raise. */
  datatype AuthResult = NoOpinion | Denied(message: string) | Raised(error: PyError)

  datatype Auth = Auth(db: Db, result: AuthResult)
}
