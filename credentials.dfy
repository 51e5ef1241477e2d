/**
 * `signup` and `login` over the `users` table. The table is keyed by email
 * (the column is UNIQUE), ids come from a SERIAL counter, and passwords are
 * kept as the digest the hash function gives.
 */
module Credentials {
  import opened Text

  /** A row of `users`: its SERIAL id, the password digest and the display name. */
  datatype User = User(id: nat, digest: string, name: string)

  /** The reply of `signup`; on success the reply's `employee_id` repeats `userId`. */
  datatype SignupResult =
    | SignedUp(userId: nat, userName: string)
    | SignupMissingFields   // a field is blank ("Lütfen tüm alanları doldurunuz!")
    | EmailTaken            // "Bu email zaten kayıtlı!"

  /** The reply of `login`; on success the reply's `employee_id` repeats `userId`; an unknown email and a wrong password share `BadCredentials`. */
  datatype LoginResult =
    | LoggedIn(userId: nat, userName: string)
    | LoginMissingFields    // "Email ve şifre gerekli!"
    | BadCredentials        // "Email veya şifre yanlış!"

  class UserTable {
    /** `hash_password`: the digest function, deterministic and otherwise unknown. */
    const hash: string -> string
    var users: map<string, User>
    /** The next value of the SERIAL sequence behind `users.id`. */
    var nextId: nat

    /** Ids are positive, already handed out by the sequence, and different for different emails. */
    ghost predicate Valid()
      reads this
    {
      && 1 <= nextId
      && (forall e :: e in users ==> 1 <= users[e].id < nextId)
      && (forall e1, e2 :: e1 in users && e2 in users && users[e1].id == users[e2].id ==> e1 == e2)
    }

    constructor (hash: string -> string)
      ensures Valid() && this.hash == hash && users == map[] && nextId == 1
    {
      this.hash := hash;
      users := map[];
      nextId := 1;
    }

    /** `signup`: name and email are stripped, the password is taken as sent. */
    method Signup(name: string, email: string, password: string) returns (r: SignupResult)
      requires Valid()
      modifies this`users, this`nextId
      ensures Valid()
      ensures Strip(name) == [] || Strip(email) == [] || password == [] ==>
                r == SignupMissingFields
      ensures Strip(name) != [] && Strip(email) != [] && password != [] && Strip(email) in old(users) ==>
                r == EmailTaken
      ensures !r.SignedUp? ==> users == old(users) && nextId == old(nextId)
      ensures r.SignedUp? ==>
                && Strip(email) !in old(users)
                && r == SignedUp(old(nextId), Strip(name))
                && users == old(users)[Strip(email) := User(old(nextId), hash(password), Strip(name))]
                && nextId == old(nextId) + 1
      ensures Strip(name) != [] && Strip(email) != [] && password != [] && Strip(email) !in old(users) ==>
                r.SignedUp?
    {
      var n := Strip(name);
      var e := Strip(email);
      if n == [] || e == [] || password == [] {
        return SignupMissingFields;
      }
      if e in users {
        return EmailTaken;
      }
      var digest := hash(password);
      var id := nextId;
      users := users[e := User(id, digest, n)];
      nextId := nextId + 1;
      r := SignedUp(id, n);
    }

    /** `login`: the email is stripped, the password's digest is compared with the stored one. */
    method Login(email: string, password: string) returns (r: LoginResult)
      ensures r == LoginMissingFields <==> Strip(email) == [] || password == []
      ensures r == BadCredentials <==>
                && Strip(email) != [] && password != []
                && (Strip(email) !in users || users[Strip(email)].digest != hash(password))
      ensures r.LoggedIn? <==>
                && Strip(email) != [] && password != []
                && Strip(email) in users && users[Strip(email)].digest == hash(password)
      ensures r.LoggedIn? ==>
                r == LoggedIn(users[Strip(email)].id, users[Strip(email)].name)
    {
      var e := Strip(email);
      if e == [] || password == [] {
        return LoginMissingFields;
      }
      if e !in users {
        return BadCredentials;
      }
      var user := users[e];
      if hash(password) != user.digest {
        return BadCredentials;
      }
      r := LoggedIn(user.id, user.name);
    }
  }

  /** Logging in with the email and password just used to sign up succeeds, as that user. */
  method SignupThenLogin(table: UserTable, name: string, email: string, password: string)
    returns (s: SignupResult, l: LoginResult)
    requires table.Valid()
    modifies table
    ensures table.Valid()
    ensures s.SignedUp? ==> l == LoggedIn(s.userId, s.userName)
  {
    s := table.Signup(name, email, password);
    if s.SignedUp? {
      assert table.users[Strip(email)] == User(s.userId, table.hash(password), s.userName);
    }
    l := table.Login(email, password);
  }

  /**
   * Each stripped email holds at most one account: a second signup with the same
   * email, however it is padded, is refused and the first account is kept.
   */
  method SignupTwice(table: UserTable, name1: string, name2: string, email: string, padded: string,
                     password1: string, password2: string)
    returns (s1: SignupResult, s2: SignupResult)
    requires table.Valid()
    requires Strip(padded) == Strip(email)
    requires Strip(name2) != [] && password2 != []
    modifies table
    ensures s1.SignedUp? ==> s2 == EmailTaken
    ensures s1.SignedUp? ==> Strip(email) in table.users
    ensures s1.SignedUp? ==> table.users[Strip(email)] == User(s1.userId, table.hash(password1), s1.userName)
  {
    s1 := table.Signup(name1, email, password1);
    ghost var kept := table.users;
    assert s1.SignedUp? ==> Strip(padded) in kept;
    s2 := table.Signup(name2, padded, password2);
    assert s1.SignedUp? ==> table.users == kept;
  }
}
