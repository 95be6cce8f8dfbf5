/**
 * Password and account expiry as evaluated by useraudit/password_expiry.py:
 * the normalised settings, the two cutoffs, the walk along the configured
 * attribute path to the password change date, and the two expiry tests.
 */
module Expiry {
  import opened Wrappers
  import opened Strings
  import opened Records

  /** Seconds in one day (timedelta(days=1)). */
  const Day: int := 86400

  /** `setting or 0` for an integer setting. */
  function OrZero(v: Option<int>): int
  {
    match v
    case None => 0
    case Some(n) => n
  }

  /** The settings tuple returned by ExpirySettings.get(). */
  datatype ExpirySettings = ExpirySettings(
    numDays: int,
    numWarningDays: int,
    dateChanged: Option<AttrSetting>,
    password: string,
    accountExpiry: int)

  /**
   * ExpirySettings.get: absent, None or 0 day counts become 0 (negative ones
   * are kept), an absent or empty change-date attribute becomes None, and
   * the password attribute defaults to "password".
   */
  function GetExpirySettings(s: Settings): (e: ExpirySettings)
    ensures e.numDays == 0 <==> s.passwordExpiryDays.None? || s.passwordExpiryDays == Some(0)
    ensures s.passwordExpiryDays.Some? ==> e.numDays == s.passwordExpiryDays.value
    ensures e.numWarningDays == 0 <==> s.passwordExpiryWarningDays.None? || s.passwordExpiryWarningDays == Some(0)
    ensures s.passwordExpiryWarningDays.Some? ==> e.numWarningDays == s.passwordExpiryWarningDays.value
    ensures e.accountExpiry == 0 <==> s.accountExpiryDays.None? || s.accountExpiryDays == Some(0)
    ensures s.accountExpiryDays.Some? ==> e.accountExpiry == s.accountExpiryDays.value
    ensures e.dateChanged.None? <==> s.passwordChangeDateAttr.None? || s.passwordChangeDateAttr == Some(Path(""))
    ensures e.dateChanged.Some? ==> e.dateChanged == s.passwordChangeDateAttr
    ensures e.password != []
    ensures e.password == "password" <==> s.passwordAttr.None? || s.passwordAttr.value in {"", "password"}
    ensures s.passwordAttr.Some? && s.passwordAttr.value != [] ==> e.password == s.passwordAttr.value
  {
    var dateChanged := if s.passwordChangeDateAttr == Some(Path("")) then None else s.passwordChangeDateAttr;
    var password := if s.passwordAttr.None? || s.passwordAttr.value == "" then "password" else s.passwordAttr.value;
    ExpirySettings(OrZero(s.passwordExpiryDays), OrZero(s.passwordExpiryWarningDays), dateChanged, password, OrZero(s.accountExpiryDays))
  }

  /** ExpirySettings.earliest_possible_login: None unless the expiry is positive, otherwise a time strictly before now. */
  function EarliestPossibleLogin(e: ExpirySettings, now: int): (r: Option<int>)
    ensures r.None? <==> e.accountExpiry <= 0
    ensures r.Some? ==> r.value == now - e.accountExpiry * Day && r.value < now
  {
    if e.accountExpiry > 0 then Some(now - e.accountExpiry * Day) else None
  }

  /** ExpirySettings.earliest_possible_password_change: None unless the expiry is positive, otherwise a time strictly before now. */
  function EarliestPossiblePasswordChange(e: ExpirySettings, now: int): (r: Option<int>)
    ensures r.None? <==> e.numDays <= 0
    ensures r.Some? ==> r.value == now - e.numDays * Day && r.value < now
  {
    if e.numDays > 0 then Some(now - e.numDays * Day) else None
  }

  /** The attributes every auth user has, as named in Python. */
  predicate IsUserField(name: string)
  {
    name in {"username", "password", "is_active", "last_login", "email"}
  }

  /** getattr(user, name): the standard fields first, then the model's other attributes. */
  function UserAttr(u: User, name: string): (r: Option<Value>)
    ensures !IsUserField(name) ==> (r.Some? <==> name in u.attrs)
    ensures name == "password" ==> r == Some(Text(u.password))
  {
    if name == "username" then Some(Text(u.username))
    else if name == "password" then Some(Text(u.password))
    else if name == "is_active" then Some(Flag(u.isActive))
    else if name == "last_login" then Some(if u.lastLogin.Some? then Time(u.lastLogin.value) else Null)
    else if name == "email" then Some(Text(u.email))
    else if name in u.attrs then Some(u.attrs[name])
    else None
  }

  /**
   * setattr(user, name, value) for the values the receivers store: last_login
   * takes the datetime or None; a name that is not a standard field becomes
   * an attribute of the instance.
   */
  function SetUserAttr(u: User, name: string, v: Value): (r: User)
    ensures !IsUserField(name) || (name == "last_login" && (v.Time? || v.Null?)) ==> UserAttr(r, name) == Some(v)
    ensures r.username == u.username && r.password == u.password && r.isActive == u.isActive && r.id == u.id
  {
    if name == "last_login" then
      match v
      case Time(t) => u.(lastLogin := Some(t))
      case Null => u.(lastLogin := None)
      case _ => u
    else if IsUserField(name) then u
    else u.(attrs := u.attrs[name := v])
  }

  /** An object reached while following an attribute path: the user itself, or a value. */
  datatype Obj = UserObj(user: User) | ValueObj(value: Value)

  /** A related row that does not exist raises RelatedObjectDoesNotExist, an AttributeError: the attribute is missing. */
  function Related(d: Db, v: Option<Value>): Option<Value>
  {
    if v.Some? && v.value.ProfileRef? && v.value.id !in d.profiles then None
    else if v.Some? && v.value.UserRef? && v.value.username !in d.users then None
    else v
  }

  /**
   * getattr(obj, name), None when hasattr would be false: a user's
   * attributes, a profile row's columns, the attributes of the stored user a
   * profile relates to; plain values have no attributes here.
   */
  function Attr(d: Db, o: Obj, name: string): Option<Value>
  {
    match o
    case UserObj(u) => Related(d, UserAttr(u, name))
    case ValueObj(ProfileRef(id)) =>
      if id in d.profiles && name in d.profiles[id] then Related(d, Some(d.profiles[id][name])) else None
    case ValueObj(UserRef(username)) =>
      if username in d.users then Related(d, UserAttr(d.users[username], name)) else None
    case ValueObj(_) => None
  }

  /** Follows the attribute names one by one; None as soon as one is missing. */
  function Walk(d: Db, o: Obj, names: seq<string>): Option<Obj>
    decreases |names|
  {
    if names == [] then Some(o)
    else match Attr(d, o, names[0])
      case None => None
      case Some(v) => Walk(d, ValueObj(v), names[1..])
  }

  /**
   * get_password_change_date: the value at the end of the dotted path, or
   * None when the setting is absent, empty or not a string, or when a
   * component of the path is missing.
   */
  function PasswordChangeDate(d: Db, e: ExpirySettings, u: User): (r: Value)
    ensures e.dateChanged.None? || e.dateChanged == Some(NonString) || e.dateChanged == Some(Path("")) ==> r == Null
    ensures e.dateChanged.Some? && e.dateChanged.value.Path? && e.dateChanged.value.path != [] ==>
      var walked := Walk(d, UserObj(u), Split(e.dateChanged.value.path, '.'));
      && (walked.None? ==> r == Null)
      && (r != Null ==> walked == Some(ValueObj(r)))
      && (walked.Some? && walked.value.ValueObj? ==> r == walked.value.value)
  {
    match e.dateChanged
    case None => Null
    case Some(NonString) => Null
    case Some(Path(p)) =>
      if p == [] then Null
      else match Walk(d, UserObj(u), Split(p, '.'))
        case Some(ValueObj(v)) => v
        case _ => Null
  }

  /** get_password_change_date, following the path one attribute at a time. */
  method GetPasswordChangeDate(d: Db, e: ExpirySettings, u: User) returns (r: Value)
    ensures r == PasswordChangeDate(d, e, u)
  {
    match e.dateChanged
    case None =>
      return Null;
    case Some(NonString) =>
      return Null;
    case Some(Path(p)) =>
      if p == [] {
        return Null;
      }
      var names := Split(p, '.');
      var val := UserObj(u);
      var i := 0;
      while i < |names|
        invariant 0 <= i <= |names|
        invariant Walk(d, UserObj(u), names) == Walk(d, val, names[i..])
      {
        assert names[i..][0] == names[i] && names[i..][1..] == names[i + 1..];
        var next := Attr(d, val, names[i]);
        if next.None? {
          return Null;
        }
        val := ValueObj(next.value);
        i := i + 1;
      }
      assert names[i..] == [];
      match val
      case ValueObj(v) =>
        r := v;
      case UserObj(_) =>
        r := Null;
  }

  /** Python truthiness of an attribute value: datetimes and related objects are true. */
  predicate Truthy(v: Value)
  {
    match v
    case Null => false
    case Time(_) => true
    case Text(s) => s != []
    case Flag(b) => b
    case ProfileRef(_) => true
    case UserRef(_) => true
  }

  /**
   * is_password_expired: `change_date and change_date < earliest`. Expired
   * exactly when expiry is enabled, the change date is a datetime, and more
   * than the configured number of days separates it from now; a false-like
   * value (None among them) is never expired, and any other value cannot be
   * compared with a datetime (TypeError).
   */
  function IsPasswordExpired(d: Db, e: ExpirySettings, u: User, now: int): (r: Result<bool, PyError>)
    ensures var date := PasswordChangeDate(d, e, u);
      r == Success(true) <==> e.numDays > 0 && date.Time? && now - date.t > e.numDays * Day
    ensures var date := PasswordChangeDate(d, e, u);
      r.Failure? <==> e.numDays > 0 && Truthy(date) && !date.Time?
    ensures r.Failure? ==> r.error == TypeError
  {
    match EarliestPossiblePasswordChange(e, now)
    case None => Success(false)
    case Some(earliest) =>
      var changeDate := PasswordChangeDate(d, e, u);
      if !Truthy(changeDate) then Success(false)
      else if changeDate.Time? then Success(changeDate.t < earliest)
      else Failure(TypeError)
  }

  /**
   * is_account_expired: expired exactly when account expiry is enabled, the
   * user has logged in before, and more than the configured number of days
   * separates that login from now.
   */
  function IsAccountExpired(e: ExpirySettings, u: User, now: int): (r: bool)
    ensures r <==> e.accountExpiry > 0 && u.lastLogin.Some? && now - u.lastLogin.value > e.accountExpiry * Day
  {
    match EarliestPossibleLogin(e, now)
    case None => false
    case Some(earliest) => u.lastLogin.Some? && u.lastLogin.value < earliest
  }

  /** Once expired, a password stays expired as time goes on (with settings and data fixed). */
  lemma PasswordExpiryPersists(d: Db, e: ExpirySettings, u: User, now: int, later: int)
    requires now <= later
    requires IsPasswordExpired(d, e, u, now) == Success(true)
    ensures IsPasswordExpired(d, e, u, later) == Success(true)
  {
  }

  /** A plain attribute name as the setting: the change date is that attribute of the user, or None without it. */
  lemma PlainPathReadsAttribute(d: Db, e: ExpirySettings, u: User, p: string)
    requires p != [] && '.' !in p && e.dateChanged == Some(Path(p))
    ensures PasswordChangeDate(d, e, u) == match Attr(d, UserObj(u), p) case Some(v) => v case None => Null
  {
    SplitNoSeparator(p, '.');
    assert [p][1..] == [];
    match Attr(d, UserObj(u), p)
    case None =>
    case Some(v) =>
      assert Walk(d, UserObj(u), [p]) == Walk(d, ValueObj(v), []);
  }

  /** Walking two names that lead through a profile relation to one of its columns. */
  lemma {:induction false} WalkTwo(d: Db, u: User, relation: string, column: string)
    ensures Walk(d, UserObj(u), [relation, column]) ==
      match Attr(d, UserObj(u), relation)
      case None => None
      case Some(v) => match Attr(d, ValueObj(v), column)
        case None => None
        case Some(w) => Some(ValueObj(w))
  {
    var names := [relation, column];
    assert names[0] == relation && names[1..] == [column];
    match Attr(d, UserObj(u), relation)
    case None =>
    case Some(v) =>
      assert Walk(d, UserObj(u), names) == Walk(d, ValueObj(v), [column]);
      assert [column][0] == column && [column][1..] == [];
      match Attr(d, ValueObj(v), column)
      case None =>
      case Some(w) =>
        assert Walk(d, ValueObj(v), [column]) == Walk(d, ValueObj(w), []);
  }

  /**
   * The profile layout: with the setting "relation.column" the change date is
   * the column of the user's related profile row, and it is None when the
   * user has no such relation, the profile row is missing, or it lacks the column.
   */
  lemma ProfilePathReadsProfile(d: Db, e: ExpirySettings, u: User, relation: string, column: string)
    requires relation != [] && '.' !in relation && '.' !in column
    requires e.dateChanged == Some(Path(relation + "." + column))
    ensures var ref := UserAttr(u, relation);
      PasswordChangeDate(d, e, u) ==
        if ref.Some? && ref.value.ProfileRef? && ref.value.id in d.profiles && column in d.profiles[ref.value.id]
           && Related(d, Some(d.profiles[ref.value.id][column])).Some?
        then d.profiles[ref.value.id][column]
        else if ref.Some? && ref.value.UserRef? && ref.value.username in d.users
           && Related(d, UserAttr(d.users[ref.value.username], column)).Some?
        then Related(d, UserAttr(d.users[ref.value.username], column)).value
        else Null
  {
    var path := relation + "." + column;
    assert path == relation + ['.'] + column;
    SplitNoSeparator(column, '.');
    SplitAt(relation, '.', column);
    assert Split(path, '.') == [relation, column];
    WalkTwo(d, u, relation, column);
  }

  /**
   * Going from the user to its profile and back through the profile's
   * `user` column lands on the stored user again, so the rest of the path
   * reads as if the detour had not been taken.
   */
  lemma {:induction false} BackToUser(d: Db, u: User, relation: string, id: nat, rest: seq<string>)
    requires u.username in d.users && d.users[u.username] == u
    requires UserAttr(u, relation) == Some(ProfileRef(id)) && id in d.profiles
    requires "user" in d.profiles[id] && d.profiles[id]["user"] == UserRef(u.username)
    requires rest != []
    ensures Walk(d, UserObj(u), [relation, "user"] + rest) == Walk(d, UserObj(u), rest)
  {
    var names := [relation, "user"] + rest;
    assert names[0] == relation && names[1..] == ["user"] + rest;
    assert Attr(d, UserObj(u), relation) == Some(ProfileRef(id));
    assert (["user"] + rest)[0] == "user" && (["user"] + rest)[1..] == rest;
    assert Attr(d, ValueObj(ProfileRef(id)), "user") == Some(UserRef(u.username));
    assert Walk(d, UserObj(u), names) == Walk(d, ValueObj(UserRef(u.username)), rest);
    assert Attr(d, ValueObj(UserRef(u.username)), rest[0]) == Attr(d, UserObj(u), rest[0]);
  }

  /** Splitting "relation.user.rest" at its first two dots. */
  lemma SplitDetour(relation: string, rest: string)
    requires '.' !in relation
    ensures Split(relation + ".user." + rest, '.') == [relation, "user"] + Split(rest, '.')
  {
    assert relation + ".user." + rest == relation + ['.'] + ("user" + ['.'] + rest);
    SplitAt("user", '.', rest);
    SplitAt(relation, '.', "user" + ['.'] + rest);
  }

  /**
   * A path that runs from the user to its profile and back twice before
   * reading the profile column ("p.user.p.user.p.column") reads the same
   * change date as the direct "p.column".
   */
  lemma ProfileUserCycleReadsProfile(d: Db, e: ExpirySettings, u: User, relation: string, column: string, id: nat)
    requires relation != [] && '.' !in relation && '.' !in column
    requires u.username in d.users && d.users[u.username] == u
    requires UserAttr(u, relation) == Some(ProfileRef(id)) && id in d.profiles
    requires "user" in d.profiles[id] && d.profiles[id]["user"] == UserRef(u.username)
    requires e.dateChanged == Some(Path(relation + ".user." + relation + ".user." + relation + "." + column))
    ensures PasswordChangeDate(d, e, u) == PasswordChangeDate(d, e.(dateChanged := Some(Path(relation + "." + column))), u)
  {
    var short := relation + "." + column;
    SplitNoSeparator(column, '.');
    SplitAt(relation, '.', column);
    assert Split(short, '.') == [relation, column] by {
      assert short == relation + ['.'] + column;
    }
    var mid := relation + ".user." + short;
    SplitDetour(relation, short);
    var long := relation + ".user." + mid;
    SplitDetour(relation, mid);
    assert e.dateChanged.value.path == long;
    BackToUser(d, u, relation, id, [relation, "user"] + [relation, column]);
    BackToUser(d, u, relation, id, [relation, column]);
  }
}
