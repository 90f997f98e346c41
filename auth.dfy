/** The authentication context: who is signed in, signing in and out, and registering a new
    faculty member. */
module Auth {
  import opened Basics
  import opened Types
  import opened Generator
  import Routes

  const AdminEmail := "admin@university.edu"

  /** The administrator account, which always exists and has no department. */
  const AdminUser := User("admin-1", "Administrator", AdminEmail, Admin, "", "")

  /** `registeredUsers.find(user => user.email === email)`: the first account with that email. */
  function FindByEmail(users: seq<User>, email: string): (r: Option<User>)
    ensures r.None? <==> forall i :: 0 <= i < |users| ==> users[i].email != email
    ensures r.Some? ==> exists i :: 0 <= i < |users| && users[i] == r.value
                          && forall j :: 0 <= j < i ==> users[j].email != email
    ensures r.Some? ==> r.value.email == email
  {
    if users == [] then None
    else if users[0].email == email then Some(users[0])
    else
      var r := FindByEmail(users[1..], email);
      assert forall i :: 0 < i < |users| ==> users[i] == users[1..][i - 1];
      r
  }

  /** The account `register` builds; `now` stands for `Date.now()`. */
  function NewFaculty(name: string, email: string, department: string, specialization: string, now: nat): User
  {
    User("faculty-" + Decimal(now), name, email, Faculty, department, specialization)
  }

  /** After a registration the new account signs in when no earlier account uses its email;
      `find` returns the first match, so with a repeated email sign-in keeps reaching the
      earlier account. */
  lemma RegisteredCanSignIn(users: seq<User>, u: User)
    ensures FindByEmail(users, u.email).None? ==> FindByEmail(users + [u], u.email) == Some(u)
    ensures FindByEmail(users, u.email).Some? ==>
              FindByEmail(users + [u], u.email) == FindByEmail(users, u.email)
  {
    FindAppend(users, u, u.email);
  }

  lemma {:induction false} FindAppend(users: seq<User>, u: User, email: string)
    ensures FindByEmail(users + [u], email)
            == if FindByEmail(users, email).Some? then FindByEmail(users, email)
               else if u.email == email then Some(u) else None
  {
    if users != [] {
      assert (users + [u])[1..] == users[1..] + [u];
      FindAppend(users[1..], u, email);
    }
  }

  /** Decimal numerals are distinct for distinct numbers. */
  lemma {:induction false} DecimalInjective(a: nat, b: nat)
    requires Decimal(a) == Decimal(b)
    ensures a == b
  {
    var da, db := Decimal(a), Decimal(b);
    if a >= 10 && b >= 10 {
      assert da[..|da| - 1] == Decimal(a / 10) && db[..|db| - 1] == Decimal(b / 10);
      DecimalInjective(a / 10, b / 10);
      DigitInjective(a % 10, b % 10);
    } else if a < 10 && b < 10 {
      DigitInjective(a, b);
    }
  }

  lemma DigitInjective(a: nat, b: nat)
    requires a < 10 && b < 10 && DigitChar(a) == DigitChar(b)
    ensures a == b
  {
  }

  /** Two registrations at different instants get different ids, and none of them takes the
      id of a seeded faculty member once the clock reads ten or more. */
  lemma RegistrationIdsDistinct(now1: nat, now2: nat, mockId: string)
    requires mockId in ["faculty-1", "faculty-2", "faculty-3", "faculty-4", "faculty-5", "faculty-6"]
    ensures now1 != now2 ==> "faculty-" + Decimal(now1) != "faculty-" + Decimal(now2)
    ensures now1 >= 10 ==> "faculty-" + Decimal(now1) != mockId
  {
    if now1 != now2 && "faculty-" + Decimal(now1) == "faculty-" + Decimal(now2) {
      var p := "faculty-";
      assert Decimal(now1) == ("faculty-" + Decimal(now1))[|p|..];
      assert Decimal(now2) == ("faculty-" + Decimal(now2))[|p|..];
      DecimalInjective(now1, now2);
    }
  }

  /** The `AuthProvider` component's state: the signed-in user, the flag, and the browser
      storage it reads and writes. */
  class AuthProvider {
    var user: Option<User>
    var isAuthenticated: bool
    var storage: Storage

    /** The provider agrees with storage: signed in exactly when a user is set, and that user
        is the stored current user. */
    predicate Consistent()
      reads this
    {
      (isAuthenticated <==> user.Some?) && storage.currentUser == user
    }

    /** The first render restores the stored current user, if any. */
    constructor (stored: Storage)
      ensures user == stored.currentUser && isAuthenticated == stored.currentUser.Some?
      ensures storage == stored
      ensures Consistent()
    {
      user := stored.currentUser;
      isAuthenticated := stored.currentUser.Some?;
      storage := stored;
    }

    /** `login`: the administrator's email signs in as the administrator; otherwise the first
        registered account with the email signs in and gets a generated timetable if it has
        none; an unknown email changes nothing. The password is not checked. The page the
        browser goes to is returned, `None` for the failure toast. */
    method Login(email: string, password: string, draws: seq<EntryDraws>) returns (target: Option<string>)
      requires ValidScheduleDraws(draws)
      modifies this
      ensures old(Consistent()) ==> Consistent()
      ensures email == AdminEmail ==>
                && user == Some(AdminUser) && isAuthenticated
                && storage == old(storage).(currentUser := Some(AdminUser))
                && target == Some(Routes.AdminHome)
      ensures email != AdminEmail && FindByEmail(StoredUsers(old(storage).registeredUsers), email).None? ==>
                && user == old(user) && isAuthenticated == old(isAuthenticated) && storage == old(storage)
                && target.None?
      ensures email != AdminEmail && FindByEmail(StoredUsers(old(storage).registeredUsers), email).Some? ==>
                var u := FindByEmail(StoredUsers(old(storage).registeredUsers), email).value;
                && user == Some(u) && isAuthenticated && target == Some(Routes.FacultyHome)
                && storage.currentUser == Some(u)
                && storage.registeredUsers == old(storage).registeredUsers
                && storage.messageSystem == old(storage).messageSystem
                && (u.id in StoredTimetables(old(storage).facultyTimetables) ==>
                      storage.facultyTimetables == old(storage).facultyTimetables)
                && (u.id !in StoredTimetables(old(storage).facultyTimetables) ==>
                      && storage.facultyTimetables.Some?
                      && u.id in storage.facultyTimetables.value
                      && storage.facultyTimetables.value
                         == StoredTimetables(old(storage).facultyTimetables)[u.id := storage.facultyTimetables.value[u.id]]
                      && GeneratedSchedule(storage.facultyTimetables.value[u.id], u.department, draws))
    {
      if email == AdminEmail {
        user := Some(AdminUser);
        isAuthenticated := true;
        storage := storage.(currentUser := Some(AdminUser));
        return Some(Routes.AdminHome);
      }
      var found := FindByEmail(StoredUsers(storage.registeredUsers), email);
      if found.None? {
        return None;
      }
      var u := found.value;
      user := Some(u);
      isAuthenticated := true;
      storage := storage.(currentUser := Some(u));
      var timetables := StoredTimetables(storage.facultyTimetables);
      if u.id !in timetables {
        var schedule := GenerateFacultySchedule(u, draws);
        storage := storage.(facultyTimetables := Some(timetables[u.id := schedule]));
      }
      target := Some(Routes.FacultyHome);
    }

    /** `logout`: forgets the user here and in storage and goes to the login page. */
    method Logout() returns (target: string)
      modifies this
      ensures user.None? && !isAuthenticated
      ensures storage == old(storage).(currentUser := None)
      ensures Consistent()
      ensures target == Routes.LoginPath
    {
      user := None;
      isAuthenticated := false;
      storage := storage.(currentUser := None);
      target := Routes.LoginPath;
    }

    /** `register`: appends a new faculty account, stores a generated timetable under its id
        (replacing any there), and goes to the login page; nobody is signed in by it. */
    method Register(name: string, email: string, password: string, department: string,
                    specialization: string, now: nat, draws: seq<EntryDraws>)
      returns (target: string)
      requires ValidScheduleDraws(draws)
      modifies this
      ensures user == old(user) && isAuthenticated == old(isAuthenticated)
      ensures old(Consistent()) ==> Consistent()
      ensures var u := NewFaculty(name, email, department, specialization, now);
              && storage.registeredUsers == Some(StoredUsers(old(storage).registeredUsers) + [u])
              && storage.facultyTimetables.Some?
              && u.id in storage.facultyTimetables.value
              && storage.facultyTimetables.value
                 == StoredTimetables(old(storage).facultyTimetables)[u.id := storage.facultyTimetables.value[u.id]]
              && GeneratedSchedule(storage.facultyTimetables.value[u.id], department, draws)
      ensures storage.currentUser == old(storage).currentUser
      ensures storage.messageSystem == old(storage).messageSystem
      ensures target == Routes.LoginPath
    {
      var u := NewFaculty(name, email, department, specialization, now);
      var users := StoredUsers(storage.registeredUsers);
      storage := storage.(registeredUsers := Some(users + [u]));
      var schedule := GenerateFacultySchedule(u, draws);
      var timetables := StoredTimetables(storage.facultyTimetables);
      storage := storage.(facultyTimetables := Some(timetables[u.id := schedule]));
      target := Routes.LoginPath;
    }
  }

  /** Signing in sends the browser to a page the guard renders for the new user. */
  lemma SignInLandsOnRenderedPage(u: User)
    requires u == AdminUser || u.role == Faculty
    ensures Routes.Visit(if u == AdminUser then Routes.AdminHome else Routes.FacultyHome, true, Some(u))
            == Routes.Render
  {
    Routes.HomeRenders(u);
  }
}
