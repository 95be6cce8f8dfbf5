/**
 * Saving a user through the ORM with the two pre_save receivers useraudit
 * connects to the user model, in connection order: the counter reset of
 * useraudit/backend.py, then the password-change-date and last_login
 * maintenance of useraudit/password_expiry.py.
 */
module UserSave {
  import opened Wrappers
  import opened Strings
  import opened Records
  import opened Store
  import opened Models
  import opened Expiry

  /** The database and the instance about to be written, after a receiver has run. */
  datatype Staged = Staged(db: Db, instance: User)

  /**
   * update_date_changed: nothing happens unless the stored password differs
   * from the incoming one. Then a plain attribute name is set to now on the
   * instance; a dotted path is followed from the instance up to its last
   * name, which is set to now on the profile reached and saved; profile.save()
   * stores model fields only, so a last name that is not a column of the
   * profile row leaves the table as it was. A missing component, or an end
   * point that is not a profile, raises AttributeError; a setting that is not
   * a string raises TypeError.
   */
  function DateChangeUpdated(d: Db, stored: User, inst: User, setting: AttrSetting, now: int): (r: Result<Staged, PyError>)
    ensures stored.password == inst.password ==> r == Success(Staged(d, inst))
    ensures r.Success? ==> r.value.db == d.(profiles := r.value.db.profiles)
    ensures r.Success? ==>
      r.value.instance.username == inst.username && r.value.instance.password == inst.password && r.value.instance.isActive == inst.isActive
    ensures r.Failure? ==> stored.password != inst.password && (r.error == TypeError <==> setting.NonString?)
    ensures stored.password != inst.password && setting.Path? && '.' !in setting.path ==>
      r == Success(Staged(d, SetUserAttr(inst, setting.path, Time(now))))
    ensures stored.password != inst.password && setting.Path? && '.' in setting.path ==>
      var names := Split(setting.path, '.');
      var reached := Walk(d, UserObj(inst), names[..|names| - 1]);
      && (r.Success? <==> reached.Some? && reached.value.ValueObj? && reached.value.value.ProfileRef? && reached.value.value.id in d.profiles)
      && (r.Success? ==>
            var id := reached.value.value.id;
            var column := names[|names| - 1];
            r.value == if column in d.profiles[id]
                       then Staged(d.(profiles := d.profiles[id := d.profiles[id][column := Time(now)]]), inst)
                       else Staged(d, inst))
  {
    if stored.password == inst.password then Success(Staged(d, inst))
    else match setting
      case NonString => Failure(TypeError)
      case Path(p) =>
        if '.' in p then
          var names := Split(p, '.');
          var column := names[|names| - 1];
          match Walk(d, UserObj(inst), names[..|names| - 1])
          case Some(ValueObj(ProfileRef(id))) =>
            if id !in d.profiles then Failure(AttributeError)
            else if column in d.profiles[id]
            then Success(Staged(d.(profiles := d.profiles[id := d.profiles[id][column := Time(now)]]), inst))
            else Success(Staged(d, inst))
          case _ => Failure(AttributeError)
        else
          Success(Staged(d, SetUserAttr(inst, p, Time(now))))
  }

  /**
   * instance.save() (or save(update_fields=["is_active"]) when onlyIsActive):
   * a new user (one the table does not hold) or a raw save is written as is.
   * Otherwise, when an inactive stored user is saved as active, the
   * username's failed-login counter is reset and last_login is cleared; when
   * the password changed, the change date is set to now. An exception from a
   * receiver stops the save before anything is written to the user table.
   */
  function Save(d: Db, e: ExpirySettings, inst: User, raw: bool, onlyIsActive: bool, now: int): (r: Run)
    ensures inst.username !in d.users || raw ==> r == Run(d.(users := d.users[inst.username := inst]), None)
    ensures r.db.events == d.events && r.db.deactivations == d.deactivations
    ensures r.db.loginLog == d.loginLog && r.db.failedLog == d.failedLog
    ensures forall k | k != inst.username :: (k in r.db.users <==> k in d.users) && (k in d.users ==> r.db.users[k] == d.users[k])
    ensures r.raised.Some? ==> inst.username in d.users && e.dateChanged.Some? && d.users[inst.username].password != inst.password
    ensures r.raised.None? ==> inst.username in r.db.users && r.db.users[inst.username].isActive == inst.isActive
    ensures r.raised.None? && !onlyIsActive ==> r.db.users[inst.username].password == inst.password
    ensures inst.username in d.users && !raw && onlyIsActive && r.raised.None? ==>
      r.db.users[inst.username] == d.users[inst.username].(isActive := inst.isActive)
    ensures inst.username in d.users && !raw ==>
      var stored := d.users[inst.username];
      r.db.attempts == if !stored.isActive && inst.isActive then Reset(d.attempts, Some(inst.username), now) else d.attempts
    ensures inst.username in d.users && !raw && !onlyIsActive && r.raised.None? && !d.users[inst.username].isActive && inst.isActive ==>
      r.db.users[inst.username].lastLogin.None?
    ensures r.raised.Some? ==> r.db.users == d.users && r.db.profiles == d.profiles
    ensures inst.username in d.users && !raw && !onlyIsActive && (e.dateChanged.None? || d.users[inst.username].password == inst.password) ==>
      var stored := d.users[inst.username];
      && r.raised.None?
      && r.db.users[inst.username] == (if !stored.isActive && inst.isActive then inst.(lastLogin := None) else inst)
      && r.db.profiles == d.profiles
  {
    var name := inst.username;
    if name !in d.users || raw then Run(d.(users := d.users[name := inst]), None)
    else
      var stored := d.users[name];
      var reactivated := !stored.isActive && inst.isActive;
      var counted := if reactivated then d.(attempts := Reset(d.attempts, Some(name), now)) else d;
      var staged := if e.dateChanged.Some? then DateChangeUpdated(d, stored, inst, e.dateChanged.value, now)
                    else Success(Staged(d, inst));
      match staged
      case Failure(err) => Run(counted, Some(err))
      case Success(Staged(d2, inst2)) =>
        var inst3 := if reactivated then inst2.(lastLogin := None) else inst2;
        var row := if onlyIsActive then stored.(isActive := inst3.isActive) else inst3;
        Run(counted.(profiles := d2.profiles, users := counted.users[name := row]), None)
  }

  /**
   * Saving a stored user with a change-date setting: the save fails exactly
   * when update_date_changed does, with its exception; otherwise the profile
   * table is the one update_date_changed leaves, and a full save writes the
   * instance it leaves, with last_login cleared on reactivation.
   */
  lemma SaveAfterDateChange(d: Db, e: ExpirySettings, inst: User, onlyIsActive: bool, now: int)
    requires inst.username in d.users && e.dateChanged.Some?
    ensures var r := Save(d, e, inst, false, onlyIsActive, now);
      var stored := d.users[inst.username];
      var staged := DateChangeUpdated(d, stored, inst, e.dateChanged.value, now);
      && (r.raised.None? <==> staged.Success?)
      && (staged.Failure? ==> r.raised == Some(staged.error))
      && (staged.Success? ==> r.db.profiles == staged.value.db.profiles)
      && (staged.Success? && !onlyIsActive ==>
            r.db.users[inst.username] ==
              if !stored.isActive && inst.isActive then staged.value.instance.(lastLogin := None) else staged.value.instance)
  {
  }

  /**
   * Deactivating a freshly loaded user, with save(update_fields=["is_active"])
   * as _deactivate_user does or with a full save as the account expiry check
   * does: only is_active changes, nothing else in the database does, and no
   * receiver raises.
   */
  lemma DeactivationChangesOnlyIsActive(d: Db, e: ExpirySettings, name: string, onlyIsActive: bool, now: int)
    requires name in d.users && d.users[name].username == name
    ensures Save(d, e, d.users[name].(isActive := false), false, onlyIsActive, now)
         == Run(d.(users := d.users[name := d.users[name].(isActive := false)]), None)
  {
  }

  /**
   * Saving a deactivated user as active: the row becomes active with
   * last_login cleared, and the username's failed-login counter is 0.
   */
  lemma ReactivationResetsCounterAndLastLogin(d: Db, e: ExpirySettings, name: string, now: int)
    requires name in d.users && d.users[name].username == name && !d.users[name].isActive
    ensures var r := Save(d, e, d.users[name].(isActive := true), false, false, now);
      && r.raised.None?
      && r.db.users[name] == d.users[name].(isActive := true, lastLogin := None)
      && r.db.attempts == Reset(d.attempts, Some(name), now)
      && r.db.profiles == d.profiles
  {
  }

  /**
   * The custom user model layout: after a save that changes the password,
   * the password change date read back from the stored user is the time of
   * the save.
   */
  lemma PasswordChangeDateOnUser(d: Db, e: ExpirySettings, inst: User, now: int)
    requires inst.username in d.users && d.users[inst.username].password != inst.password
    requires e.dateChanged.Some? && e.dateChanged.value.Path?
    requires var p := e.dateChanged.value.path; p != [] && '.' !in p && !IsUserField(p)
    ensures var r := Save(d, e, inst, false, false, now);
      r.raised.None? && PasswordChangeDate(r.db, e, r.db.users[inst.username]) == Time(now)
  {
    var p := e.dateChanged.value.path;
    SplitNoSeparator(p, '.');
    var r := Save(d, e, inst, false, false, now);
    var saved := r.db.users[inst.username];
    assert UserAttr(saved, p) == Some(Time(now));
    assert [p][1..] == [];
    assert Walk(r.db, UserObj(saved), [p]) == Walk(r.db, ValueObj(Time(now)), []);
  }

  /**
   * The profile layout ("relation.column"): after a save that changes the
   * password, the change date read back through the stored user's profile is
   * the time of the save.
   */
  lemma PasswordChangeDateOnProfile(d: Db, e: ExpirySettings, inst: User, relation: string, column: string, now: int)
    requires inst.username in d.users && d.users[inst.username].password != inst.password
    requires relation != [] && '.' !in relation && '.' !in column
    requires e.dateChanged == Some(Path(relation + "." + column))
    requires UserAttr(inst, relation).Some? && UserAttr(inst, relation).value.ProfileRef?
    requires UserAttr(inst, relation).value.id in d.profiles && column in d.profiles[UserAttr(inst, relation).value.id]
    ensures var r := Save(d, e, inst, false, false, now);
      r.raised.None? && PasswordChangeDate(r.db, e, r.db.users[inst.username]) == Time(now)
  {
    var path := relation + "." + column;
    assert path == relation + ['.'] + column;
    SplitNoSeparator(column, '.');
    SplitAt(relation, '.', column);
    var names := Split(path, '.');
    assert names == [relation, column];
    assert '.' in path by { assert path[|relation|] == '.'; }
    assert names[..|names| - 1] == [relation] && [relation][1..] == [];
    var id := UserAttr(inst, relation).value.id;
    assert !IsUserField(relation);
    var stored := d.users[inst.username];
    assert Attr(d, UserObj(inst), relation) == Some(ProfileRef(id));
    assert Walk(d, UserObj(inst), [relation]) == Walk(d, ValueObj(ProfileRef(id)), []);
    assert names[|names| - 1] == column;
    assert DateChangeUpdated(d, stored, inst, e.dateChanged.value, now)
        == Success(Staged(d.(profiles := d.profiles[id := d.profiles[id][column := Time(now)]]), inst));
    var r := Save(d, e, inst, false, false, now);
    var saved := r.db.users[inst.username];
    assert saved.attrs == inst.attrs;
    ProfilePathReadsProfile(r.db, e, saved, relation, column);
  }

  /** instance.save() on the database, running both pre_save receivers. */
  method SaveUser(db: Database, e: ExpirySettings, inst: User, raw: bool, onlyIsActive: bool, now: int) returns (raised: Option<PyError>)
    modifies db
    ensures db.State() == Save(old(db.State()), e, inst, raw, onlyIsActive, now).db
    ensures raised == Save(old(db.State()), e, inst, raw, onlyIsActive, now).raised
  {
    var name := inst.username;
    if name !in db.users || raw {
      db.users := db.users[name := inst];
      return None;
    }
    var stored := db.users[name];
    var before := db.State();
    var reactivated := !stored.isActive && inst.isActive;
    // useraudit/backend.py user_pre_save
    if reactivated {
      ResetCounter(db, Some(name), now);
    }
    // useraudit/password_expiry.py user_pre_save
    var instance := inst;
    if e.dateChanged.Some? {
      var staged := DateChangeUpdated(before, stored, inst, e.dateChanged.value, now);
      if staged.Failure? {
        return Some(staged.error);
      }
      db.profiles := staged.value.db.profiles;
      instance := staged.value.instance;
    }
    if reactivated {
      instance := instance.(lastLogin := None);
    }
    if onlyIsActive {
      db.users := db.users[name := stored.(isActive := instance.isActive)];
    } else {
      db.users := db.users[name := instance];
    }
    raised := None;
  }
}
