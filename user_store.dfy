/** The desktop variant's credential store: class UserManager of
    user-manager.js, a `users` map kept in memory and written to the
    electron-store under 'users'. bcrypt is the pair of parameters `hash`
    (bcrypt.hash with a salt) and `compare` (bcrypt.compare); the salt
    bcrypt.genSalt draws is the parameter `salt`. A thrown Error is an
    Outcome failure with its message; `return true` is Pass. */
module UserStore {
  import opened Js

  datatype StoredUser = StoredUser(passwordHash: string, createdAt: int)

  /** register's update of the map: None for a taken name, otherwise the map
      with exactly the new key added. */
  function Registered(users: map<string, StoredUser>, username: string, passwordHash: string, now: int)
    : (r: Option<map<string, StoredUser>>)
    ensures r.None? <==> username in users
    ensures r.Some? ==>
      && r.value.Keys == users.Keys + {username}
      && r.value[username] == StoredUser(passwordHash, now)
      && (forall k :: k in users ==> r.value[k] == users[k])
  {
    if username in users then None else Some(users[username := StoredUser(passwordHash, now)])
  }

  /** login's decision: an unknown name and a wrong password are refused
      with the same message. */
  function Authenticate(users: map<string, StoredUser>, compare: (string, string) -> bool,
                        username: string, password: string): (r: Outcome)
    ensures r.Pass? <==> username in users && compare(password, users[username].passwordHash)
    ensures r.Fail? ==> r == Fail("Invalid credentials")
  {
    if username !in users then Fail("Invalid credentials")
    else if !compare(password, users[username].passwordHash) then Fail("Invalid credentials")
    else Pass
  }

  /** Registering then signing in with the same password succeeds whenever
      bcrypt accepts a password against its own hash. */
  lemma {:induction false} LoginAfterRegister(users: map<string, StoredUser>, hash: (string, string) -> string,
                                              compare: (string, string) -> bool,
                                              username: string, password: string, salt: string, now: int)
    requires username !in users
    requires compare(password, hash(password, salt))
    ensures var r := Registered(users, username, hash(password, salt), now);
      r.Some? && Authenticate(r.value, compare, username, password) == Pass
  {
    var r := Registered(users, username, hash(password, salt), now);
    assert r.value[username].passwordHash == hash(password, salt);
  }

  /** Registering one name never changes how another name signs in. */
  lemma RegisterKeepsOthers(users: map<string, StoredUser>, compare: (string, string) -> bool,
                            username: string, passwordHash: string, now: int, other: string, password: string)
    requires other != username && username !in users
    ensures Authenticate(Registered(users, username, passwordHash, now).value, compare, other, password)
         == Authenticate(users, compare, other, password)
  {
  }

  class UserManager {
    var users: map<string, StoredUser>
    /** The electron-store's 'users' entry; None while it has never been set. */
    var store: Option<map<string, StoredUser>>
    const hash: (string, string) -> string
    const compare: (string, string) -> bool

    /** `this.store.get('users') || {}`. */
    constructor (store: Option<map<string, StoredUser>>, hash: (string, string) -> string,
                 compare: (string, string) -> bool)
      ensures users == store.GetOr(map[]) && this.store == store
      ensures this.hash == hash && this.compare == compare
    {
      users := store.GetOr(map[]);
      this.store := store;
      this.hash := hash;
      this.compare := compare;
    }

    /** register(username, password) with the salt genSalt(10) returned. */
    method Register(username: string, password: string, salt: string, now: int) returns (outcome: Outcome)
      modifies this`users, this`store
      ensures var r := Registered(old(users), username, hash(password, salt), now);
        if r.None? then
          outcome == Fail("Username already exists") && users == old(users) && store == old(store)
        else
          outcome == Pass && users == r.value && store == Some(r.value)
    {
      if username in users {
        return Fail("Username already exists");
      }
      var passwordHash := hash(password, salt);
      users := users[username := StoredUser(passwordHash, now)];
      store := Some(users);
      outcome := Pass;
    }

    /** login(username, password); it changes nothing. */
    method Login(username: string, password: string) returns (outcome: Outcome)
      ensures outcome == Authenticate(users, compare, username, password)
    {
      if username !in users {
        return Fail("Invalid credentials");
      }
      var isValid := compare(password, users[username].passwordHash);
      if !isValid {
        return Fail("Invalid credentials");
      }
      outcome := Pass;
    }
  }

  /** A client: a new name registered, then signed in with the same password. */
  method RegisterThenLogin(m: UserManager, username: string, password: string, salt: string, now: int)
    returns (registered: Outcome, signedIn: Outcome)
    requires username !in m.users && m.compare(password, m.hash(password, salt))
    modifies m
    ensures registered == Pass && signedIn == Pass
  {
    registered := m.Register(username, password, salt, now);
    signedIn := m.Login(username, password);
  }
}
