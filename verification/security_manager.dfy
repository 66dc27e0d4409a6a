/**
 * The access-control table: users with a password hash, a role and a list of
 * permissions; sessions of logged-in users; per-port encryption keys.
 *
 * The password hash, session timestamps and tokens, key generation and the
 * cipher are parameters of the model.
 */
module Security {
  import opened Wrappers

  /** A user record. */
  datatype User = User(passwordHash: string, role: string, permissions: seq<string>)

  /** A session: when it was opened and its token. */
  datatype Session = Session(timestamp: int, token: string)

  /** The permission that guards adding and removing users. */
  const USER_MANAGEMENT: string := "user_management"

  /** The role that holds every permission, and the wildcard permission. */
  const ADMIN_ROLE: string := "admin"
  const WILDCARD: string := "*"

  /**
   * `check_permission`: a user needs a session and a record; then the admin
   * role or the wildcard grants everything, and otherwise exactly the listed
   * resources are granted.
   */
  function Permitted(users: map<string, User>, sessions: map<string, Session>,
                     username: string, resource: string): (r: bool)
    ensures r ==> username in sessions && username in users
    ensures username in sessions && username in users ==>
      var u := users[username];
      && (u.role == ADMIN_ROLE || WILDCARD in u.permissions ==> r)
      && (u.role != ADMIN_ROLE && WILDCARD !in u.permissions ==> (r <==> resource in u.permissions))
  {
    if username !in sessions then false
    else if username !in users then false
    else
      var u := users[username];
      u.role == ADMIN_ROLE || WILDCARD in u.permissions || resource in u.permissions
  }

  /**
   * Permissions only depend on the user's own record and session: changing
   * another user's record or session does not change them.
   */
  lemma PermittedIsLocal(users: map<string, User>, sessions: map<string, Session>,
                         username: string, other: string, u: User, s: Session, resource: string)
    requires other != username
    ensures Permitted(users[other := u], sessions, username, resource)
         == Permitted(users, sessions, username, resource)
    ensures Permitted(users, sessions[other := s], username, resource)
         == Permitted(users, sessions, username, resource)
    ensures Permitted(users - {other}, sessions - {other}, username, resource)
         == Permitted(users, sessions, username, resource)
  {
  }

  class SecurityManager {
    /** `_hash_password`. */
    const hash: string -> string
    var users: map<string, User>
    var sessions: map<string, Session>
    var encryptionKeys: map<string, seq<bv8>>

    /** Only known users hold sessions. */
    ghost predicate Valid()
      reads this
    {
      sessions.Keys <= users.Keys
    }

    /** A fresh manager with no configuration file: the default admin, password "admin". */
    constructor (hash: string -> string)
      ensures this.hash == hash
      ensures users == map["admin" := User(hash("admin"), ADMIN_ROLE, [WILDCARD])]
      ensures sessions == map[] && encryptionKeys == map[] && Valid()
    {
      this.hash := hash;
      users := map["admin" := User(hash("admin"), ADMIN_ROLE, [WILDCARD])];
      sessions := map[];
      encryptionKeys := map[];
    }

    /**
     * For a manager in a valid state, a session always has a record behind it,
     * so the permission decision reduces to the session plus the record's role
     * and list.
     */
    lemma SessionHasRecord(username: string, resource: string)
      requires Valid()
      ensures IsAuthenticated(username) ==> username in users
      ensures CheckPermission(username, resource) <==>
        && IsAuthenticated(username)
        && var u := users[username];
           u.role == ADMIN_ROLE || WILDCARD in u.permissions || resource in u.permissions
    {
    }

    /** `is_authenticated`. */
    function IsAuthenticated(username: string): bool
      reads this
    {
      username in sessions
    }

    /** `check_permission`. */
    function CheckPermission(username: string, resource: string): bool
      reads this
    {
      Permitted(users, sessions, username, resource)
    }

    /**
     * `authenticate`: an unknown user or a wrong password fails and changes
     * nothing (an existing session stays); a matching hash opens or replaces
     * the user's session.
     */
    method Authenticate(username: string, password: string, now: int, token: string) returns (ok: bool)
      requires Valid()
      modifies this
      ensures ok <==> username in old(users) && hash(password) == old(users)[username].passwordHash
      ensures sessions == if ok then old(sessions)[username := Session(now, token)] else old(sessions)
      ensures users == old(users) && encryptionKeys == old(encryptionKeys) && Valid()
    {
      if username !in users {
        return false;
      }
      if hash(password) == users[username].passwordHash {
        sessions := sessions[username := Session(now, token)];
        return true;
      }
      return false;
    }

    /** `logout`: the user's session goes, every other stays. */
    method Logout(username: string)
      requires Valid()
      modifies this
      ensures sessions == old(sessions) - {username}
      ensures !IsAuthenticated(username) && forall r :: !CheckPermission(username, r)
      ensures users == old(users) && encryptionKeys == old(encryptionKeys) && Valid()
    {
      if username in sessions {
        sessions := sessions - {username};
      }
    }

    /**
     * `add_user`: refused without the user-management permission or for an
     * existing name; else exactly one record is added, the role defaulting to
     * "user" and the permissions to none.
     */
    method AddUser(adminName: string, newName: string, password: string, role: string := "user",
                   permissions: Option<seq<string>> := None) returns (ok: bool)
      requires Valid()
      modifies this
      ensures ok <==> old(CheckPermission(adminName, USER_MANAGEMENT)) && newName !in old(users)
      ensures users == if ok then old(users)[newName := User(hash(password), role, permissions.GetOr([]))]
                       else old(users)
      ensures sessions == old(sessions) && encryptionKeys == old(encryptionKeys) && Valid()
    {
      if !CheckPermission(adminName, USER_MANAGEMENT) {
        return false;
      }
      if newName in users {
        return false;
      }
      users := users[newName := User(hash(password), role, permissions.GetOr([]))];
      ok := true;
    }

    /**
     * `remove_user`: refused without the permission or for an unknown user;
     * else that user and their session go, and nothing else.
     */
    method RemoveUser(adminName: string, username: string) returns (ok: bool)
      requires Valid()
      modifies this
      ensures ok <==> old(CheckPermission(adminName, USER_MANAGEMENT)) && username in old(users)
      ensures users == if ok then old(users) - {username} else old(users)
      ensures sessions == if ok then old(sessions) - {username} else old(sessions)
      ensures ok ==> forall r :: !CheckPermission(username, r)
      ensures encryptionKeys == old(encryptionKeys) && Valid()
    {
      if !CheckPermission(adminName, USER_MANAGEMENT) {
        return false;
      }
      if username !in users {
        return false;
      }
      users := users - {username};
      if username in sessions {
        sessions := sessions - {username};
      }
      ok := true;
    }

    /**
     * `change_password`: goes through `authenticate` with the old password
     * (so a success also opens a session); only then is that user's hash
     * replaced, and only it.
     */
    method ChangePassword(username: string, oldPassword: string, newPassword: string,
                          now: int, token: string) returns (ok: bool)
      requires Valid()
      modifies this
      ensures ok <==> username in old(users) && hash(oldPassword) == old(users)[username].passwordHash
      ensures users == if ok then old(users)[username := old(users)[username].(passwordHash := hash(newPassword))]
                       else old(users)
      ensures sessions == if ok then old(sessions)[username := Session(now, token)] else old(sessions)
      ensures encryptionKeys == old(encryptionKeys) && Valid()
    {
      ok := Authenticate(username, oldPassword, now, token);
      if !ok {
        return;
      }
      users := users[username := users[username].(passwordHash := hash(newPassword))];
    }

    /** `setup_encryption`, with the generated key as a parameter. */
    method SetupEncryption(port: string, key: seq<bv8>) returns (ok: bool)
      modifies this
      ensures ok && encryptionKeys == old(encryptionKeys)[port := key]
      ensures users == old(users) && sessions == old(sessions)
    {
      encryptionKeys := encryptionKeys[port := key];
      ok := true;
    }

    /**
     * `encrypt_data`: without a key for the port the data passes through
     * unchanged; with one it goes to the cipher, whose failure is None.
     */
    function EncryptData(port: string, data: seq<bv8>,
                         encrypt: (seq<bv8>, seq<bv8>) -> Option<seq<bv8>>): Option<seq<bv8>>
      reads this
    {
      if port !in encryptionKeys then Some(data) else encrypt(encryptionKeys[port], data)
    }

    /** `decrypt_data`: the same pass-through without a key. */
    function DecryptData(port: string, data: seq<bv8>,
                         decrypt: (seq<bv8>, seq<bv8>) -> Option<seq<bv8>>): Option<seq<bv8>>
      reads this
    {
      if port !in encryptionKeys then Some(data) else decrypt(encryptionKeys[port], data)
    }

    /**
     * Decrypting what was encrypted gives the data back: always for a port
     * without a key, and for a keyed port whenever the cipher round-trips.
     */
    lemma EncryptDecryptRoundTrip(port: string, data: seq<bv8>,
                                  encrypt: (seq<bv8>, seq<bv8>) -> Option<seq<bv8>>,
                                  decrypt: (seq<bv8>, seq<bv8>) -> Option<seq<bv8>>)
      requires port in encryptionKeys ==>
        var c := encrypt(encryptionKeys[port], data);
        c.Some? && decrypt(encryptionKeys[port], c.value) == Some(data)
      ensures EncryptData(port, data, encrypt).Some?
      ensures DecryptData(port, EncryptData(port, data, encrypt).value, decrypt) == Some(data)
    {
    }
  }
}
