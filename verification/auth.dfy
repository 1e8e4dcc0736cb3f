/**
 * Sign-in (src/lib/auth.ts): the credentials provider's `authorize`, and the
 * `jwt` and `session` callbacks that copy the signed-in user's fields into
 * the token and from the token into the session. The bcrypt comparison is a
 * parameter `verify(plain, hash)`; a failing store lookup or comparison is
 * the parameter `fault`.
 */
module Auth {
  import opened Wrappers
  import opened Seqs
  import opened Schema

  /** The submitted form; `None` is an absent field. */
  datatype Credentials = Credentials(email: Option<string>, password: Option<string>)

  /** The user object `authorize` hands to next-auth. */
  datatype AuthUser = AuthUser(id: Id, email: string, name: Option<string>, role: Role, avatar: Option<string>)

  /** The fields of the JWT the callbacks write; `None` is an unset or null claim. */
  datatype Claims = Claims(
    role: Option<Role>, id: Option<Id>, email: Option<string>, name: Option<string>, avatar: Option<string>)

  /** The stored columns `authorize` returns. */
  function Public(u: User): (a: AuthUser)
    ensures a.id == u.id && a.email == u.email && a.name == u.name && a.role == u.role && a.avatar == u.avatar
  {
    AuthUser(u.id, u.email, u.name, u.role, u.avatar)
  }

  /** The row test of `findUnique({ where: { email } })`. */
  function EmailIs(email: string): User -> bool {
    (u: User) => u.email == email
  }

  /** The row test of `findUnique({ where: { id } })`. */
  function IdIs(id: Id): User -> bool {
    (u: User) => u.id == id
  }

  /** Both credentials given and non-empty. */
  predicate Complete(credentials: Option<Credentials>) {
    credentials.Some? && Present(credentials.value.email) && Present(credentials.value.password)
  }

  /**
   * `authorize`: null when a credential is missing or empty, when no user has
   * the e-mail, when the password does not verify against the stored hash,
   * and when the lookup or the comparison fails; otherwise the stored user's
   * id, e-mail, name, role and avatar.
   */
  function Authorize(users: seq<User>, credentials: Option<Credentials>, verify: (string, string) -> bool, fault: bool): (r: Option<AuthUser>)
    ensures !Complete(credentials) || fault ==> r.None?
    ensures Complete(credentials) && !EmailTaken(users, credentials.value.email.value) ==> r.None?
    ensures r.Some? ==>
      exists i :: (0 <= i < |users| && users[i].email == credentials.value.email.value &&
                   verify(credentials.value.password.value, users[i].password) && r.value == Public(users[i]))
  {
    if !Complete(credentials) then None
    else if fault then None
    else
      var email, password := credentials.value.email.value, credentials.value.password.value;
      var user := FindFirst(users, EmailIs(email));
      if user.None? then None
      else if !verify(password, user.value.password) then None
      else Some(Public(user.value))
  }

  /** While e-mails are unique, the user with a given e-mail is the one `findUnique` finds. */
  lemma FoundByEmail(users: seq<User>, next: Id, i: nat)
    requires UsersOk(users, next) && i < |users|
    ensures FindFirst(users, EmailIs(users[i].email)) == Some(users[i])
  {
    forall j | 0 <= j < i ensures users[j].email != users[i].email {
      assert UsersDistinct(users[j], users[i]);
    }
  }

  /**
   * On a store whose e-mails are unique, signing in succeeds exactly when the
   * credentials are complete, nothing fails, and the password verifies
   * against the hash stored for that e-mail; the result is that user.
   */
  lemma AuthorizeExactly(users: seq<User>, next: Id, credentials: Option<Credentials>,
                         verify: (string, string) -> bool, fault: bool, i: nat)
    requires UsersOk(users, next) && i < |users|
    requires Complete(credentials) && credentials.value.email.value == users[i].email
    ensures var r := Authorize(users, credentials, verify, fault);
      && (r.Some? <==> !fault && verify(credentials.value.password.value, users[i].password))
      && (r.Some? ==> r.value == Public(users[i]))
  {
    FoundByEmail(users, next, i);
  }

  /**
   * A user inserted with `hash(password)` as created by the create routes
   * can sign in with that password, as long as `verify` accepts a password
   * against its own hash, and gets the inserted row's fields back.
   */
  lemma SignInAfterCreate(users: seq<User>, next: Id, d: UserData, password: string,
                          hash: string -> string, verify: (string, string) -> bool)
    requires UsersOk(users, next) && !EmailTaken(users, d.email) && d.email != [] && password != []
    requires d.password == hash(password) && verify(password, hash(password))
    requires !UsernameTaken(users, d.username)
    ensures Authorize(users + [d.WithId(next)], Some(Credentials(Some(d.email), Some(password))), verify, false)
            == Some(AuthUser(next, d.email, d.name, d.role, d.avatar))
  {
    var after := users + [d.WithId(next)];
    assert UsersOk(after, next + 1) by {
      forall i, j | 0 <= i < j < |after| ensures UsersDistinct(after[i], after[j]) {
        if j == |users| {
          assert after[i] == users[i];
          assert after[i].email != d.email;
        }
      }
    }
    AuthorizeExactly(after, next + 1, Some(Credentials(Some(d.email), Some(password))), verify, false, |users|);
  }

  /**
   * The `jwt` callback as a function of the token before it: on sign-in the
   * user's role, id, e-mail, name and avatar are copied; on an "update"
   * trigger with an id in the token, the avatar is re-read from the user with
   * that id, if there is one.
   */
  function JwtClaims(c: Claims, users: seq<User>, user: Option<AuthUser>, trigger: Option<string>): (r: Claims)
    ensures user.Some? && trigger != Some("update") ==>
      r == Claims(Some(user.value.role), Some(user.value.id), Some(user.value.email), user.value.name, user.value.avatar)
    ensures user.None? && trigger != Some("update") ==> r == c
    ensures user.None? ==> r.role == c.role && r.id == c.id && r.email == c.email && r.name == c.name
    ensures user.Some? ==> r.role == Some(user.value.role) && r.id == Some(user.value.id) &&
                           r.email == Some(user.value.email) && r.name == user.value.name
  {
    var signed := if user.Some? then
      Claims(Some(user.value.role), Some(user.value.id), Some(user.value.email), user.value.name, user.value.avatar)
    else c;
    Refreshed(signed, users, trigger)
  }

  /** The avatar refresh on an "update" trigger; only the avatar can change. */
  function Refreshed(c: Claims, users: seq<User>, trigger: Option<string>): (r: Claims)
    ensures r.(avatar := c.avatar) == c
    ensures trigger != Some("update") || c.id.None? ==> r == c
  {
    if trigger == Some("update") && c.id.Some? then
      match FindFirst(users, IdIs(c.id.value))
      case Some(u) => c.(avatar := u.avatar)
      case None => c
    else c
  }

  /**
   * An "update" trigger on a token that names a stored user changes only
   * the avatar, to that user's stored avatar; one that names no stored user
   * changes nothing.
   */
  lemma UpdateRefreshesAvatar(c: Claims, users: seq<User>, next: Id, i: nat)
    requires UsersOk(users, next) && i < |users| && c.id == Some(users[i].id)
    ensures JwtClaims(c, users, None, Some("update")) == c.(avatar := users[i].avatar)
  {
    forall j | 0 <= j < i ensures users[j].id != users[i].id {
      assert UsersDistinct(users[j], users[i]);
    }
  }

  lemma UpdateUnknownIdKeepsToken(c: Claims, users: seq<User>)
    requires c.id.Some? && forall i :: 0 <= i < |users| ==> users[i].id != c.id.value
    ensures JwtClaims(c, users, None, Some("update")) == c
  {
  }

  /** Refreshing twice is refreshing once. */
  lemma RefreshIdempotent(c: Claims, users: seq<User>, trigger: Option<string>)
    ensures Refreshed(Refreshed(c, users, trigger), users, trigger) == Refreshed(c, users, trigger)
  {
    var r := Refreshed(c, users, trigger);
    assert r.id == c.id;
  }

  /** The `session.user` fields the `session` callback writes. */
  datatype SessionFields = SessionFields(
    id: Option<Id>, role: Option<Role>, email: Option<string>, name: Option<string>, avatar: Option<string>)

  /** The token's claims as the session exposes them. */
  function FieldsOf(c: Claims): (s: SessionFields)
    ensures s.id == c.id && s.role == c.role && s.email == c.email && s.name == c.name && s.avatar == c.avatar
  {
    SessionFields(c.id, c.role, c.email, c.name, c.avatar)
  }

  /**
   * After a successful sign-in the session carries the id and the role
   * stored for the e-mail that was entered.
   */
  lemma SignInSession(users: seq<User>, next: Id, credentials: Option<Credentials>,
                      verify: (string, string) -> bool, c: Claims)
    requires UsersOk(users, next)
    requires Authorize(users, credentials, verify, false).Some?
    ensures var a := Authorize(users, credentials, verify, false).value;
      var s := FieldsOf(JwtClaims(c, users, Some(a), None));
      exists i :: 0 <= i < |users| && users[i].email == credentials.value.email.value &&
        s.id == Some(users[i].id) && s.role == Some(users[i].role) && s.avatar == users[i].avatar
  {
    var a := Authorize(users, credentials, verify, false).value;
    var i :| 0 <= i < |users| && users[i].email == credentials.value.email.value &&
             verify(credentials.value.password.value, users[i].password) && a == Public(users[i]);
    var s := FieldsOf(JwtClaims(c, users, Some(a), None));
    assert s.id == Some(users[i].id) && s.role == Some(users[i].role) && s.avatar == users[i].avatar;
  }

  /** The JWT next-auth keeps between requests; its fields are updated in place. */
  class Token {
    var role: Option<Role>
    var id: Option<Id>
    var email: Option<string>
    var name: Option<string>
    var avatar: Option<string>

    /** The token's fields as one value. */
    function Contents(): Claims
      reads this
    {
      Claims(role, id, email, name, avatar)
    }

    constructor (c: Claims)
      ensures Contents() == c
    {
      role, id, email, name, avatar := c.role, c.id, c.email, c.name, c.avatar;
    }

    /** The `jwt` callback. */
    method Jwt(users: seq<User>, user: Option<AuthUser>, trigger: Option<string>)
      modifies this
      ensures Contents() == JwtClaims(old(Contents()), users, user, trigger)
    {
      if user.Some? {
        role := Some(user.value.role);
        id := Some(user.value.id);
        email := Some(user.value.email);
        name := user.value.name;
        avatar := user.value.avatar;
      }
      if trigger == Some("update") && id.Some? {
        var updatedUser := FindFirst(users, IdIs(id.value));
        if updatedUser.Some? {
          avatar := updatedUser.value.avatar;
        }
      }
    }
  }

  /** The session object next-auth hands to the pages; `user` is `None` when absent. */
  class Session {
    var user: Option<SessionFields>

    constructor (user: Option<SessionFields>)
      ensures this.user == user
    {
      this.user := user;
    }

    /** The `session` callback: a present `session.user` takes all five fields from the token. */
    method Fill(token: Token)
      modifies this
      ensures old(user).Some? ==> user == Some(FieldsOf(token.Contents()))
      ensures old(user).None? ==> user.None?
    {
      if user.Some? {
        user := Some(SessionFields(token.id, token.role, token.email, token.name, token.avatar));
      }
    }
  }
}
