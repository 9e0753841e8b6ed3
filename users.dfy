/**
 * The user collection: `users.find(u => u.email === email)`, the login
 * response built from it, and the uniqueness of e-mail addresses that
 * registration maintains.
 */
module Users {
  import opened Wrappers
  import opened Seqs
  import opened Records
  import opened Credentials

  /** Some stored user has this e-mail address. */
  predicate EmailTaken(users: seq<User>, email: string)
  {
    exists i :: 0 <= i < |users| && users[i].email == email
  }

  /** No two stored users share an e-mail address. */
  predicate EmailsUnique(users: seq<User>)
  {
    forall i, j :: 0 <= i < j < |users| ==> users[i].email != users[j].email
  }

  /** The position of `users.find(u => u.email === email)`: the first user with that address. */
  function FirstWithEmail(users: seq<User>, email: string): (r: Option<nat>)
    ensures r.None? <==> !EmailTaken(users, email)
    ensures r.Some? ==> r.value < |users| && users[r.value].email == email
    ensures r.Some? ==> forall j :: 0 <= j < r.value ==> users[j].email != email
  {
    if users == [] then None
    else if users[0].email == email then Some(0)
    else
      match FirstWithEmail(users[1..], email)
      case None => None
      case Some(i) => Some(i + 1)
  }

  /** The users holding a given address. */
  function WithEmail(users: seq<User>, email: string): (r: seq<User>)
  {
    Filter(users, (u: User) => u.email == email)
  }

  /** Under unique addresses, a taken address belongs to exactly one user. */
  lemma {:induction false} UniqueEmailHasOneOwner(users: seq<User>, email: string)
    requires EmailsUnique(users)
    ensures |WithEmail(users, email)| == if EmailTaken(users, email) then 1 else 0
  {
    if users != [] {
      var tail := users[1..];
      assert EmailsUnique(tail) by {
        forall i, j | 0 <= i < j < |tail| ensures tail[i].email != tail[j].email {
          assert tail[i] == users[i + 1] && tail[j] == users[j + 1];
        }
      }
      UniqueEmailHasOneOwner(tail, email);
      if users[0].email == email {
        assert !EmailTaken(tail, email) by {
          forall i | 0 <= i < |tail| ensures tail[i].email != email {
            assert tail[i] == users[i + 1];
          }
        }
      } else {
        assert EmailTaken(users, email) <==> EmailTaken(tail, email) by {
          if EmailTaken(users, email) {
            var i :| 0 <= i < |users| && users[i].email == email;
            assert tail[i - 1] == users[i];
          }
          if EmailTaken(tail, email) {
            var i :| 0 <= i < |tail| && tail[i].email == email;
            assert users[i + 1] == tail[i];
          }
        }
      }
    }
  }

  /** Appending a user keeps addresses unique exactly when the new address is fresh. */
  lemma AppendKeepsUnique(users: seq<User>, u: User)
    requires EmailsUnique(users)
    ensures EmailsUnique(users + [u]) <==> !EmailTaken(users, u.email)
  {
    var s := users + [u];
    if EmailTaken(users, u.email) {
      var i :| 0 <= i < |users| && users[i].email == u.email;
      assert s[i].email == s[|users|].email;
    } else {
      forall i, j | 0 <= i < j < |s| ensures s[i].email != s[j].email {
        if j == |users| {
          assert s[i] == users[i];
        } else {
          assert s[i] == users[i] && s[j] == users[j];
        }
      }
    }
  }

  /** The user object login returns: everything but the digest. */
  function Public(u: User): (p: PublicUser)
  {
    PublicUser(u.id, u.name, u.email)
  }

  const InvalidCredentials: Response := Response(400, Message("Invalid credentials"))

  /**
   * `POST /api/login`: the first user with the address must exist and the
   * password must match its digest; then a token over `{id, email}` of that
   * user is issued, together with the user without its password.
   */
  function LoginResponse(users: seq<User>, email: string, password: string, cred: Credentials): (r: Response)
    ensures r.status == 200 || r == InvalidCredentials
    ensures r.status == 200 <==>
              FirstWithEmail(users, email).Some? &&
              cred.compare(password, users[FirstWithEmail(users, email).value].password)
    ensures r.status == 200 ==>
              var u := users[FirstWithEmail(users, email).value];
              r.body == LoggedIn(cred.sign(Claims(u.id, u.email), SECRET), Public(u))
  {
    match FirstWithEmail(users, email)
    case None => InvalidCredentials
    case Some(i) =>
      var u := users[i];
      if !cred.compare(password, u.password) then InvalidCredentials
      else Ok(LoggedIn(cred.sign(Claims(u.id, u.email), SECRET), Public(u)))
  }

  /** The user a registration appends, with the digest in place of the password. */
  function NewUser(id: int, name: string, email: string, password: string, salt: string, cred: Credentials): (u: User)
  {
    User(id, name, email, cred.hash(password, salt))
  }

  /**
   * After a registration appended a fresh address, logging in with that
   * address and the same password succeeds and yields a token for the new
   * user's `{id, email}`.
   */
  lemma RegisterThenLogin(users: seq<User>, id: int, name: string, email: string, password: string,
                          salt: string, cred: Credentials)
    requires Sound(cred)
    requires !EmailTaken(users, email)
    ensures var u := NewUser(id, name, email, password, salt, cred);
            LoginResponse(users + [u], email, password, cred)
              == Ok(LoggedIn(cred.sign(Claims(id, email), SECRET), PublicUser(id, name, email)))
  {
    var u := NewUser(id, name, email, password, salt, cred);
    var s := users + [u];
    assert s[|users|].email == email;
  }

  /** A login that succeeds returns a token for the user it names. */
  lemma LoginTokenNamesUser(users: seq<User>, email: string, password: string, cred: Credentials)
    requires Sound(cred)
    requires LoginResponse(users, email, password, cred).status == 200
    ensures var r := LoginResponse(users, email, password, cred);
            r.body.LoggedIn? &&
            cred.verify(r.body.token, SECRET) == Some(Claims(r.body.user.id, r.body.user.email)) &&
            r.body.user.email == email
  {
  }
}
