/**
 * Login.jsx: credentials are looked up by plain comparison, first among the
 * seed accounts and only then among the registered ones, and the session
 * receives a projection of the account without its password.
 */
module Login {
  import opened Wrappers
  import opened Entities
  import Seqs
  import Fixtures
  import Storage
  import Session
  import Registration

  const WrongCredentials: string := "用户名或密码错误"

  predicate Matches(account: User, username: string, password: string)
  {
    account.username == username && account.password == password
  }

  /** No account before position `i` of `list` matches. */
  predicate NoMatchBefore(list: seq<User>, i: nat, username: string, password: string)
    requires i <= |list|
  {
    forall j :: 0 <= j < i ==> !Matches(list[j], username, password)
  }

  /**
   * The account `handleSubmit` settles on: the first matching seed account;
   * failing that, the first matching registered account; failing that, none.
   */
  function Authenticate(seeds: seq<User>, registered: seq<User>, username: string, password: string): (r: Option<User>)
    ensures r.Some? ==> Matches(r.value, username, password)
    ensures r.None? <==> NoMatchBefore(seeds, |seeds|, username, password) && NoMatchBefore(registered, |registered|, username, password)
    ensures forall i :: 0 <= i < |seeds| && Matches(seeds[i], username, password) && NoMatchBefore(seeds, i, username, password) ==>
      r == Some(seeds[i])
    ensures NoMatchBefore(seeds, |seeds|, username, password) ==>
      forall i :: 0 <= i < |registered| && Matches(registered[i], username, password) && NoMatchBefore(registered, i, username, password) ==>
        r == Some(registered[i])
  {
    match Seqs.FindFirst(seeds, (u: User) => Matches(u, username, password))
    case Some(i) => Some(seeds[i])
    case None =>
      match Seqs.FindFirst(registered, (u: User) => Matches(u, username, password))
      case Some(k) => Some(registered[k])
      case None => None
  }

  /** `userData`: the fields the session keeps. */
  function ToSession(u: User): (s: SessionUser)
    ensures s.id == u.id && s.username == u.username && s.email == u.email
    ensures s.role == u.role && s.avatar == u.avatar && s.level == u.level
  {
    SessionUser(u.id, u.username, u.email, u.role, u.avatar, u.level)
  }

  /** A seed account always wins over a registered account with the same credentials. */
  lemma SeedShadowsRegistered(registered: seq<User>, i: nat)
    requires i < |Fixtures.SeedUsers|
    requires NoMatchBefore(Fixtures.SeedUsers, i, Fixtures.SeedUsers[i].username, Fixtures.SeedUsers[i].password)
    ensures Authenticate(Fixtures.SeedUsers, registered, Fixtures.SeedUsers[i].username, Fixtures.SeedUsers[i].password)
            == Some(Fixtures.SeedUsers[i])
  {
  }

  /** The demo credentials `student01` / `123456` sign in as a student. */
  lemma StudentDemoLogin(registered: seq<User>)
    ensures var r := Authenticate(Fixtures.SeedUsers, registered, "student01", "123456");
      r.Some? && r.value.role == "student" && r.value.id == 1
  {
    assert Matches(Fixtures.SeedUsers[0], "student01", "123456");
    assert NoMatchBefore(Fixtures.SeedUsers, 0, "student01", "123456");
  }

  /**
   * An account that registration has just appended signs in with its own
   * credentials, unless a seed account has the same username and password.
   */
  lemma RegisteredAccountSignsIn(existing: seq<User>, form: Registration.RegisterForm, id: int, joinDate: string)
    requires !Registration.HasUsername(existing, form.username)
    requires NoMatchBefore(Fixtures.SeedUsers, |Fixtures.SeedUsers|, form.username, form.password)
    ensures Authenticate(Fixtures.SeedUsers, existing + [Registration.NewUser(form, id, joinDate)], form.username, form.password)
            == Some(Registration.NewUser(form, id, joinDate))
  {
    var all := existing + [Registration.NewUser(form, id, joinDate)];
    assert Matches(all[|existing|], form.username, form.password);
    assert NoMatchBefore(all, |existing|, form.username, form.password) by {
      forall j | 0 <= j < |existing| ensures !Matches(all[j], form.username, form.password) {
        assert all[j] == existing[j];
      }
    }
  }

  /**
   * The body of the `setTimeout` callback in `handleSubmit`: on success the
   * session (both copies) becomes the projected account and the error is
   * empty; on failure nothing changes and the error says so.
   */
  method Submit(app: Session.App, username: string, password: string) returns (error: string)
    modifies app`currentUser, app.store`currentUser
    ensures var found := Authenticate(Fixtures.SeedUsers, old(app.store.RegisteredUsers()), username, password);
      if found.Some? then
        error == "" && app.currentUser == Some(ToSession(found.value)) && app.store.currentUser == Storage.Present(ToSession(found.value))
      else
        error == WrongCredentials && app.currentUser == old(app.currentUser) && app.store.currentUser == old(app.store.currentUser)
  {
    var registered := app.store.RegisteredUsers();
    var found := Authenticate(Fixtures.SeedUsers, registered, username, password);
    if found.Some? {
      app.HandleLogin(ToSession(found.value));
      error := "";
    } else {
      error := WrongCredentials;
    }
  }
}
