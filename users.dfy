/** The user list of a service and the two Ambari admin-user handlers, on
    values: the handlers look up a user by name with `next(...)` and change
    that user's name or password. */
module Users {
  import opened Wrappers
  import opened Strings

  /** A user of a service, as listed in the cluster template. */
  datatype User = User(name: string, password: string)

  /** The name the Ambari handler looks for when renaming. */
  const DefaultAdmin := "admin"

  /** `next(user for user in users if user.name == name)`: the index of the
      first user with that name, or none (`StopIteration`). */
  function FirstNamed(users: seq<User>, name: string): (r: Option<nat>)
    ensures r.Some? ==> r.value < |users| && users[r.value].name == name
    ensures r.Some? ==> forall j :: 0 <= j < r.value ==> users[j].name != name
    ensures r.None? <==> forall j :: 0 <= j < |users| ==> users[j].name != name
  {
    var names := seq(|users|, i requires 0 <= i < |users| => users[i].name);
    assert forall j :: 0 <= j < |users| ==> names[j] == users[j].name;
    FirstIndexOf(names, name)
  }

  /** The users after `_handle_user_property_admin_user`: the first user
      named `admin` takes the new name.  The lookup is always by the literal
      `admin`, not by the current admin name. */
  function RenameAdmin(users: seq<User>, value: string): Option<seq<User>>
  {
    match FirstNamed(users, DefaultAdmin)
    case None => None
    case Some(i) => Some(users[i := users[i].(name := value)])
  }

  /** The users after `_handle_user_property_admin_password`: the first
      user named `adminName` takes the new password. */
  function SetPassword(users: seq<User>, adminName: string, value: string): Option<seq<User>>
  {
    match FirstNamed(users, adminName)
    case None => None
    case Some(i) => Some(users[i := users[i].(password := value)])
  }

  /** Renaming fails exactly when no user is called `admin`; otherwise the
      first such user, and only it, is renamed and keeps its password. */
  lemma RenameAdminEffect(users: seq<User>, value: string)
    ensures RenameAdmin(users, value).None? <==> forall j :: 0 <= j < |users| ==> users[j].name != DefaultAdmin
    ensures RenameAdmin(users, value).Some? ==>
      var r, i := RenameAdmin(users, value).value, FirstNamed(users, DefaultAdmin).value;
      && |r| == |users|
      && r[i] == User(value, users[i].password)
      && (forall j :: 0 <= j < i ==> users[j].name != DefaultAdmin)
      && (forall j :: 0 <= j < |users| && j != i ==> r[j] == users[j])
  {
  }

  /** Setting the password fails exactly when no user has the admin name;
      otherwise the first such user, and only it, takes the password and
      keeps its name. */
  lemma SetPasswordEffect(users: seq<User>, adminName: string, value: string)
    ensures SetPassword(users, adminName, value).None? <==> forall j :: 0 <= j < |users| ==> users[j].name != adminName
    ensures SetPassword(users, adminName, value).Some? ==>
      var r, i := SetPassword(users, adminName, value).value, FirstNamed(users, adminName).value;
      && |r| == |users|
      && r[i] == User(adminName, value)
      && (forall j :: 0 <= j < |users| && j != i ==> r[j] == users[j])
  {
  }

  /** The two handlers in sequence: after the admin has been renamed to
      `value`, the password lands on that same renamed user, provided no
      user before it already had the new name. */
  lemma RenameThenPassword(users: seq<User>, value: string, password: string)
    requires RenameAdmin(users, value).Some?
    requires forall j :: 0 <= j < FirstNamed(users, DefaultAdmin).value ==> users[j].name != value
    ensures var renamed, i := RenameAdmin(users, value).value, FirstNamed(users, DefaultAdmin).value;
      SetPassword(renamed, value, password) == Some(users[i := User(value, password)])
  {
    var i := FirstNamed(users, DefaultAdmin).value;
    var renamed := RenameAdmin(users, value).value;
    assert renamed == users[i := users[i].(name := value)];
    FirstNamedAt(renamed, value, i);
    assert renamed[i := renamed[i].(password := password)] == users[i := User(value, password)];
  }

  /** A user at `i` named `name`, with no earlier user of that name, is the
      one `FirstNamed` finds. */
  lemma FirstNamedAt(users: seq<User>, name: string, i: nat)
    requires i < |users| && users[i].name == name
    requires forall j :: 0 <= j < i ==> users[j].name != name
    ensures FirstNamed(users, name) == Some(i)
  {
    var r := FirstNamed(users, name);
    assert r.Some?;
    if r.value < i {
    } else if r.value > i {
    }
  }

  /** Because the rename always looks for `admin`, renaming the only admin
      to another name makes a second rename fail. */
  lemma RenameOnlyOnce(users: seq<User>, value: string, again: string)
    requires RenameAdmin(users, value).Some? && value != DefaultAdmin
    requires forall j, k :: 0 <= j < k < |users| && users[j].name == DefaultAdmin ==> users[k].name != DefaultAdmin
    ensures RenameAdmin(RenameAdmin(users, value).value, again).None?
  {
    var i := FirstNamed(users, DefaultAdmin).value;
    var renamed := RenameAdmin(users, value).value;
    forall j | 0 <= j < |renamed| ensures renamed[j].name != DefaultAdmin {
      if j < i {
      } else if j > i {
        assert users[j].name != DefaultAdmin;
      }
    }
  }
}
