/** The web variant's sign-in: class AuthManager of src/auth/AuthManager.js,
    over the `users`, `currentUser` and `rememberedUser` keys of
    localStorage. A decision is an Outcome whose failure message is the text
    the form's error label shows. */
module Auth {
  import opened Js
  import opened WebStorage
  import opened Passwords

  datatype Registration = Registration(outcome: Outcome, users: map<string, UserRecord>)

  /** handleRegister's decision and the `users` object it leaves: mismatched
      passwords are refused first, then a taken name; otherwise exactly one
      key is added, holding the name and the password's hash. */
  function Register(users: map<string, UserRecord>, digest: string -> seq<Byte>,
                    username: string, password: string, confirmPassword: string, now: int): (r: Registration)
    ensures r.outcome.Pass? <==> password == confirmPassword && username !in users
    ensures password != confirmPassword ==> r == Registration(Fail("Passwords do not match"), users)
    ensures password == confirmPassword && username in users ==> r == Registration(Fail("Username already exists"), users)
    ensures r.outcome.Pass? ==>
      && r.users.Keys == users.Keys + {username}
      && r.users[username].username == username
      && r.users[username].password == HashPassword(digest, password)
      && r.users[username].createdAt == now
      && (forall k :: k in users ==> r.users[k] == users[k])
  {
    if password != confirmPassword then Registration(Fail("Passwords do not match"), users)
    else if username in users then Registration(Fail("Username already exists"), users)
    else Registration(Pass, users[username := UserRecord(username, HashPassword(digest, password), now)])
  }

  /** handleLogin's decision: an unknown name, then a password whose hash
      differs from the stored one, is refused. */
  function Login(users: map<string, UserRecord>, digest: string -> seq<Byte>,
                 username: string, password: string): (r: Outcome)
    ensures r.Pass? <==> username in users && VerifyPassword(digest, password, users[username].password)
    ensures username !in users ==> r == Fail("User not found")
    ensures username in users && !VerifyPassword(digest, password, users[username].password) ==>
      r == Fail("Invalid password")
  {
    if username !in users then Fail("User not found")
    else if !VerifyPassword(digest, password, users[username].password) then Fail("Invalid password")
    else Pass
  }

  /** After registering, signing in with the same password succeeds, and with
      another password exactly when its digest is the same. */
  lemma {:induction false} LoginAfterRegister(users: map<string, UserRecord>, digest: string -> seq<Byte>,
                                              username: string, password: string, attempt: string, now: int)
    requires username !in users
    ensures var r := Register(users, digest, username, password, password, now);
      && Login(r.users, digest, username, password) == Pass
      && (Login(r.users, digest, username, attempt) == Pass <==> digest(attempt) == digest(password))
  {
    VerifyOwnHash(digest, password);
    VerifyIffSameDigest(digest, attempt, password);
  }

  /** Registering one name never changes how another name signs in. */
  lemma RegisterKeepsOthers(users: map<string, UserRecord>, digest: string -> seq<Byte>,
                            username: string, password: string, confirmPassword: string, now: int,
                            other: string, attempt: string)
    requires other != username
    ensures Login(Register(users, digest, username, password, confirmPassword, now).users, digest, other, attempt)
         == Login(users, digest, other, attempt)
  {
  }

  class AuthManager {
    /** The page's localStorage. */
    const storage: LocalStorage
    /** SHA-256 of the UTF-8 encoding of a password. */
    const digest: string -> seq<Byte>

    constructor (storage: LocalStorage, digest: string -> seq<Byte>)
      ensures this.storage == storage && this.digest == digest
    {
      this.storage := storage;
      this.digest := digest;
    }

    /** handleRegister, with the three form fields and the clock. */
    method HandleRegister(username: string, password: string, confirmPassword: string, now: int)
      returns (outcome: Outcome)
      modifies storage`users
      ensures var r := Register(old(storage.users), digest, username, password, confirmPassword, now);
        outcome == r.outcome && storage.users == r.users
    {
      if password != confirmPassword {
        return Fail("Passwords do not match");
      }
      var users := storage.users;
      if username in users {
        return Fail("Username already exists");
      }
      var hashedPassword := HashPassword(digest, password);
      users := users[username := UserRecord(username, hashedPassword, now)];
      storage.users := users;
      outcome := Pass;
    }

    /** handleLogin, with the two form fields and the remember-me box. A
        refused sign-in stores nothing; an accepted one stores the user and
        sets or removes the remembered name. */
    method HandleLogin(username: string, password: string, rememberMe: bool) returns (outcome: Outcome)
      modifies storage`currentUser, storage`rememberedUser
      ensures outcome == Login(storage.users, digest, username, password)
      ensures outcome.Fail? ==>
        storage.currentUser == old(storage.currentUser) && storage.rememberedUser == old(storage.rememberedUser)
      ensures outcome.Pass? ==>
        storage.currentUser == Some(username) && storage.rememberedUser == (if rememberMe then Some(username) else None)
    {
      var users := storage.users;
      if username !in users {
        return Fail("User not found");
      }
      var isValid := VerifyPassword(digest, password, users[username].password);
      if !isValid {
        return Fail("Invalid password");
      }
      storage.currentUser := Some(username);
      if rememberMe {
        storage.rememberedUser := Some(username);
      } else {
        storage.rememberedUser := None;
      }
      outcome := Pass;
    }
  }
}
