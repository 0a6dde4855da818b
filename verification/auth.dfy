/**
 * Authentication decisions and the two ways a user row is created: the
 * `Authorization` header check of the JWT middleware, the admin role gate,
 * self-registration, and the start-up bootstrap of the admin account.
 */
module Auth {

  import opened Rows
  import opened Models
  import opened Schema

  // ---------------------------------------------------------------------
  // strings.Split(s, " ") and strings.ToLower

  /** `strings.Split(s, " ")`: the pieces between single spaces; empty pieces are kept. */
  function Split(s: string): (parts: seq<string>)
    ensures |parts| >= 1
    ensures forall i :: 0 <= i < |parts| ==> ' ' !in parts[i]
    decreases |s|
  {
    if ' ' !in s then [s]
    else
      var i := FirstIndex(s, ' ');
      [s[..i]] + Split(s[i + 1..])
  }

  /** `strings.Join(parts, " ")`. */
  function Join(parts: seq<string>): string
    requires |parts| >= 1
  {
    if |parts| == 1 then parts[0] else parts[0] + " " + Join(parts[1..])
  }

  /** Splitting and joining again gives back the header. */
  lemma {:induction false} JoinSplit(s: string)
    ensures Join(Split(s)) == s
    decreases |s|
  {
    if ' ' in s {
      var i := FirstIndex(s, ' ');
      JoinSplit(s[i + 1..]);
      assert Split(s)[1..] == Split(s[i + 1..]);
      assert s == s[..i] + " " + s[i + 1..];
    }
  }

  /** Pieces without spaces are exactly what splitting their join gives. */
  lemma {:induction false} SplitJoin(parts: seq<string>)
    requires |parts| >= 1
    requires forall i :: 0 <= i < |parts| ==> ' ' !in parts[i]
    ensures Split(Join(parts)) == parts
  {
    if |parts| > 1 {
      var p := parts[0];
      var rest := Join(parts[1..]);
      assert ' ' !in p;
      SplitAtFirstSpace(p, rest);
      SplitJoin(parts[1..]);
      assert parts == [p] + parts[1..];
    }
  }

  /** Splitting `p + " " + rest`, with no space in `p`, cuts off `p` first. */
  lemma SplitAtFirstSpace(p: string, rest: string)
    requires ' ' !in p
    ensures Split(p + " " + rest) == [p] + Split(rest)
  {
    var s := p + " " + rest;
    assert s[|p|] == ' ';
    var i := FirstIndex(s, ' ');
    assert forall k :: 0 <= k < |p| ==> s[k] == p[k];
    assert i == |p|;
    assert s[..i] == p && s[i + 1..] == rest;
  }

  /** `unicode.ToLower` on the ASCII letters; every other character is kept. */
  function LowerChar(c: char): char {
    if 'A' <= c <= 'Z' then (c as int + 32) as char else c
  }

  function ToLower(s: string): string {
    seq(|s|, i requires 0 <= i < |s| => LowerChar(s[i]))
  }

  /** A word lowercases to "bearer" exactly when it is "bearer" in any mix of cases. */
  lemma LowerIsBearer(w: string)
    ensures ToLower(w) == "bearer" <==>
      |w| == 6 && forall i :: 0 <= i < 6 ==> w[i] == "bearer"[i] || w[i] == "BEARER"[i]
  {
    if |w| == 6 && forall i :: 0 <= i < 6 ==> w[i] == "bearer"[i] || w[i] == "BEARER"[i] {
      assert forall i :: 0 <= i < 6 ==> ToLower(w)[i] == "bearer"[i];
    }
    if ToLower(w) == "bearer" {
      forall i | 0 <= i < 6 ensures w[i] == "bearer"[i] || w[i] == "BEARER"[i] {
        assert LowerChar(w[i]) == "bearer"[i];
      }
    }
  }

  // ---------------------------------------------------------------------
  // The JWT middleware's header check

  /**
   * The header check of `JwtAuthentication`: an empty header, or one that
   * does not split into exactly two pieces the first of which lowercases to
   * "bearer", is unauthorized; otherwise the second piece is the token.
   */
  function ParseAuthHeader(header: string): (r: Result<string>)
    ensures header == "" ==> r == Err(Unauthorized)
    ensures r.Err? ==> r == Err(Unauthorized)
    ensures r.Ok? ==> ' ' !in r.value
  {
    if header == "" then Err(Unauthorized)
    else
      var parts := Split(header);
      if |parts| != 2 || ToLower(parts[0]) != "bearer" then Err(Unauthorized)
      else Ok(parts[1])
  }

  /** A scheme word spelling "bearer", one space and a token without spaces are accepted, giving that token. */
  lemma BearerHeaderAccepted(scheme: string, token: string)
    requires ToLower(scheme) == "bearer"
    requires ' ' !in scheme && ' ' !in token
    ensures ParseAuthHeader(scheme + " " + token) == Ok(token)
  {
    SplitJoin([scheme, token]);
    assert Join([scheme, token]) == scheme + " " + Join([token]);
  }

  /** Every accepted header has that shape: scheme, one space, token. */
  lemma AcceptedHeaderShape(header: string)
    requires ParseAuthHeader(header).Ok?
    ensures var parts := Split(header);
      && header == parts[0] + " " + ParseAuthHeader(header).value
      && ToLower(parts[0]) == "bearer" && ' ' !in parts[0]
  {
    var parts := Split(header);
    JoinSplit(header);
    assert parts[1..] == [parts[1]];
    assert Join(parts) == parts[0] + " " + Join([parts[1]]);
  }

  // ---------------------------------------------------------------------
  // The admin gate

  /** The claims the middleware stores in the request context. */
  datatype Claims = Claims(userId: int, username: string, role: string)

  /**
   * `AdminRequired`: no claims in the context is a server error, a role other
   * than "admin" is forbidden; only an admin is passed on.
   */
  function AdminGate(claims: Option<Claims>): (st: Status)
    ensures st == Done <==> claims.Some? && claims.value.role == "admin"
    ensures claims.None? ==> st == Rejected(InternalError)
    ensures claims.Some? && claims.value.role != "admin" ==> st == Rejected(Forbidden)
  {
    if claims.None? then Rejected(InternalError)
    else if claims.value.role != "admin" then Rejected(Forbidden)
    else Done
  }

  // ---------------------------------------------------------------------
  // Registration

  /** The body of a registration request. */
  datatype RegisterRequest = RegisterRequest(
    username: string,
    password: string,
    email: string,
    firstName: string,
    lastName: string,
    city: string)

  /** Username, password, email and both names are required. */
  predicate Complete(req: RegisterRequest) {
    req.username != "" && req.password != "" && req.email != "" && req.firstName != "" && req.lastName != ""
  }

  /** The role a registration gets: "admin" for the configured admin credentials, else "user". */
  function RoleFor(req: RegisterRequest, adminUsername: string, adminPassword: string): (role: string)
    ensures role == "admin" || role == "user"
    ensures role == "admin" <==> req.username == adminUsername && req.password == adminPassword
  {
    if req.username == adminUsername && req.password == adminPassword then "admin" else "user"
  }

  /**
   * `RegisterHandler`: an incomplete request is rejected; a taken username or
   * email is a conflict; otherwise one user row is added with the next id,
   * the password hash and the role `RoleFor` decides.
   */
  method Register(db: Store, req: RegisterRequest, adminUsername: string, adminPassword: string, hash: string)
    returns (st: Status)
    requires db.Valid()
    modifies db`users, db`issued
    ensures db.Valid()
    ensures !Complete(req) ==> st == Rejected(BadRequest)
    ensures Complete(req) && (req.username in KeySet(old(db.users), UsernameOf) || req.email in KeySet(old(db.users), EmailOf)) ==>
      st == Rejected(Conflict)
    ensures Complete(req) && req.username !in KeySet(old(db.users), UsernameOf) && req.email !in KeySet(old(db.users), EmailOf) ==>
      st == Done
    ensures st != Done ==> db.users == old(db.users) && db.issued == old(db.issued)
    ensures st == Done ==>
      && db.users == old(db.users) + [User(old(db.issued.user) + 1, req.firstName, req.lastName, req.username,
           req.email, hash, req.city, RoleFor(req, adminUsername, adminPassword))]
      && db.issued == old(db.issued).(user := old(db.issued.user) + 1)
  {
    if !Complete(req) {
      return Rejected(BadRequest);
    }
    var role := RoleFor(req, adminUsername, adminPassword);
    if Find(db.users, UsernameOf, req.username).Some? || Find(db.users, EmailOf, req.email).Some? {
      return Rejected(Conflict);
    }
    var u := User(db.issued.user + 1, req.firstName, req.lastName, req.username, req.email, hash, req.city, role);
    var before := db.Snapshot();
    InsertUserKeepsInvariants(before, db.issued, u);
    db.users := db.users + [u];
    db.issued := db.issued.(user := u.id);
    assert db.Snapshot() == before.(users := db.users);
    st := Done;
  }

  // ---------------------------------------------------------------------
  // The admin bootstrap

  /** The account `RegisterAdminUser` creates. */
  function AdminAccount(id: int, username: string, hash: string): User {
    User(id, "Admin", "User", username, username + "@example.com", hash, "Unknown", "admin")
  }

  /**
   * What `RegisterAdminUser` does to the users table whose last issued id is
   * `last`: nothing when the username exists (admin or not); otherwise the
   * admin account is added, unless its email is taken and the UNIQUE
   * constraint refuses the insert.
   */
  function Bootstrap(users: seq<User>, last: int, username: string, hash: string): (r: seq<User>)
    ensures username in KeySet(users, UsernameOf) ==> r == users
    ensures username !in KeySet(users, UsernameOf) && username + "@example.com" !in KeySet(users, EmailOf) ==>
      r == users + [AdminAccount(last + 1, username, hash)]
    ensures username + "@example.com" in KeySet(users, EmailOf) ==> r == users
    ensures username in KeySet(r, UsernameOf) || username + "@example.com" in KeySet(r, EmailOf)
  {
    if Find(users, UsernameOf, username).Some? then users
    else if Find(users, EmailOf, username + "@example.com").Some? then users
    else
      var u := AdminAccount(last + 1, username, hash);
      assert (users + [u])[|users|] == u;
      assert UsernameOf(u) in KeySet(users + [u], UsernameOf);
      users + [u]
  }

  /** Running the bootstrap a second time, whatever the sequence says by then, changes nothing. */
  lemma BootstrapIdempotent(users: seq<User>, last: int, last2: int, username: string, hash: string)
    ensures var once := Bootstrap(users, last, username, hash);
      Bootstrap(once, last2, username, hash) == once
  {
  }

  /**
   * `RegisterAdminUser`: when no user has the username, the admin account
   * is inserted with the next id (a clash on its email is a storage error
   * and changes nothing); when the username exists nothing changes and the
   * call succeeds.
   */
  method RegisterAdminUser(db: Store, username: string, hash: string) returns (st: Status)
    requires db.Valid()
    modifies db`users, db`issued
    ensures db.Valid()
    ensures db.users == Bootstrap(old(db.users), old(db.issued.user), username, hash)
    ensures st == Done <==> username in KeySet(old(db.users), UsernameOf) || username + "@example.com" !in KeySet(old(db.users), EmailOf)
    ensures st != Done ==> st == Rejected(StorageError)
    ensures db.issued == if |db.users| == |old(db.users)| then old(db.issued) else old(db.issued).(user := old(db.issued.user) + 1)
  {
    if Find(db.users, UsernameOf, username).Some? {
      return Done;
    }
    var u := AdminAccount(db.issued.user + 1, username, hash);
    if Find(db.users, EmailOf, u.email).Some? {
      return Rejected(StorageError);
    }
    var before := db.Snapshot();
    InsertUserKeepsInvariants(before, db.issued, u);
    db.users := db.users + [u];
    db.issued := db.issued.(user := u.id);
    assert db.Snapshot() == before.(users := db.users);
    st := Done;
  }
}
