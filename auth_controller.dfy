/** The auth service's account handlers (`/api/auth/signup`, `/login`,
    `/forgot-password`, `/reset-password`) as transitions over the user table. */
module Auth {
  import opened Base

  /** A document `_id` in the users collection. */
  type UserId = nat

  /** The fields of a user the handlers read or write. */
  datatype User = User(username: string, password: string, email: Option<string>, resetToken: Option<string>)

  /** The password encoder (BCrypt in the service), given as its two operations. */
  datatype PasswordEncoder = PasswordEncoder(encode: string -> string, matches: (string, string) -> bool)

  /** A derived single-result query: no match, exactly one, or several (which
      the repository reports by throwing). */
  datatype Lookup = NoMatch | Unique(id: UserId) | Ambiguous

  /** The derived queries the controller issues. A `None` argument is a Java
      `null`, which the store matches against an absent field. */
  datatype Query =
    | ByUsername(username: string)
    | ByEmail(email: Option<string>)
    | ByResetToken(token: Option<string>)

  predicate Matches(u: User, q: Query) {
    match q
    case ByUsername(name) => u.username == name
    case ByEmail(email) => u.email == email
    case ByResetToken(token) => u.resetToken == token
  }

  /** `r` is what the single-result query `q` returns on `users`. */
  ghost predicate IsLookup(users: map<UserId, User>, q: Query, r: Lookup) {
    match r
    case NoMatch => forall id :: id in users ==> !Matches(users[id], q)
    case Unique(id) =>
      && id in users && Matches(users[id], q)
      && forall other :: other in users && Matches(users[other], q) ==> other == id
    case Ambiguous =>
      exists a, b :: a in users && b in users && a != b && Matches(users[a], q) && Matches(users[b], q)
  }

  /** A query has one answer. */
  lemma LookupDeterministic(users: map<UserId, User>, q: Query, r1: Lookup, r2: Lookup)
    requires IsLookup(users, q, r1) && IsLookup(users, q, r2)
    ensures r1 == r2
  {
  }

  /** No two users share a username. */
  ghost predicate UniqueUsernames(users: map<UserId, User>) {
    forall a, b :: a in users && b in users && users[a].username == users[b].username ==> a == b
  }

  /** With unique usernames the login lookup is never ambiguous. */
  lemma UsernameLookupUnambiguous(users: map<UserId, User>, name: string)
    requires UniqueUsernames(users)
    ensures !IsLookup(users, ByUsername(name), Ambiguous)
  {
  }

  const UserExists: string := "User already exists - please log in"
  const Registered: string := "User registered successfully!"
  const Authenticated: string := "User authenticated"
  const InvalidCredentials: string := "Invalid credentials"
  const UserNotFound: string := "User not found"
  const LinkSent: string := "Password reset link sent to your email!"
  const InvalidToken: string := "Invalid or expired token"
  const ResetDone: string := "Password reset successfully"
  const ResetFailed: string := "Something went wrong while resetting the password"
  /** The `error` field of the framework's default JSON reply to an exception no handler caught. */
  const InternalError: string := "Internal Server Error"

  /** `existsByUsername`. */
  predicate UsernameTaken(users: map<UserId, User>, name: string) {
    exists id :: id in users && users[id].username == name
  }

  /** Some user with this username stores a password the given one matches. */
  ghost predicate CredentialsMatch(users: map<UserId, User>, encoder: PasswordEncoder, name: string, password: string) {
    exists id :: id in users && users[id].username == name && encoder.matches(password, users[id].password)
  }

  /** `resetToken == token` for a token the request actually carries. */
  ghost predicate HoldsToken(users: map<UserId, User>, token: Option<string>) {
    token.Some? && exists id :: id in users && users[id].resetToken == token
  }

  class AuthController {
    const encoder: PasswordEncoder
    var users: map<UserId, User>

    ghost predicate Valid()
      reads this
    {
      UniqueUsernames(users)
    }

    constructor (encoder: PasswordEncoder)
      ensures this.encoder == encoder && users == map[] && Valid()
    {
      this.encoder := encoder;
      users := map[];
    }

    /** The repository's answer to the single-result query `q`. */
    method Find(q: Query) returns (r: Lookup)
      ensures IsLookup(users, q, r)
    {
      var matching := set id | id in users && Matches(users[id], q);
      assert forall id :: id in users && Matches(users[id], q) ==> id in matching;
      if matching == {} {
        r := NoMatch;
      } else {
        var id :| id in matching;
        if matching == {id} {
          r := Unique(id);
        } else {
          var other :| other in matching && other != id;
          r := Ambiguous;
        }
      }
    }

    /** `registerUser`: refuse a taken username, otherwise store the user
        with its password encoded. `newId` is the fresh `_id` the store assigns. */
    method RegisterUser(user: User, newId: UserId) returns (reply: Reply<string>)
      requires Valid() && newId !in users
      modifies this
      ensures Valid()
      ensures UsernameTaken(old(users), user.username) ==>
                reply == Err(400, UserExists) && users == old(users)
      ensures !UsernameTaken(old(users), user.username) ==>
                && reply == Ok(200, Registered)
                && users == old(users)[newId := user.(password := encoder.encode(user.password))]
    {
      if exists id :: id in users && users[id].username == user.username {
        return Err(400, UserExists);
      }
      users := users[newId := user.(password := encoder.encode(user.password))];
      reply := Ok(200, Registered);
    }

    /** `authenticateUser`: 200 exactly when the named user exists and the
        given password matches the stored one; several users under one name
        (which a valid table never holds) make the lookup throw. */
    method AuthenticateUser(user: User) returns (reply: Reply<string>)
      ensures Valid() ==> (reply.Ok? <==> CredentialsMatch(users, encoder, user.username, user.password))
      ensures reply.Ok? ==> reply == Ok(200, Authenticated)
      ensures reply.Err? ==>
                reply == Err(401, InvalidCredentials) || (reply == Err(500, InternalError) && !Valid())
    {
      var found := Find(ByUsername(user.username));
      match found
      case NoMatch =>
        reply := Err(401, InvalidCredentials);
      case Ambiguous =>
        reply := Err(500, InternalError);
      case Unique(id) =>
        if encoder.matches(user.password, users[id].password) {
          reply := Ok(200, Authenticated);
        } else {
          reply := Err(401, InvalidCredentials);
        }
    }

    /** `forgotPassword`: store the fresh `token` on the one user with this
        email, then mail the link; `mailDelivered` says whether sending works.
        The token is saved before the mail goes out, so a failed send still
        leaves it in place. */
    method ForgotPassword(email: Option<string>, token: string, mailDelivered: bool) returns (reply: Reply<string>)
      requires Valid()
      modifies this
      ensures Valid()
      ensures IsLookup(old(users), ByEmail(email), NoMatch) ==> reply == Err(404, UserNotFound) && users == old(users)
      ensures IsLookup(old(users), ByEmail(email), Ambiguous) ==> reply == Err(500, InternalError) && users == old(users)
      ensures forall id :: IsLookup(old(users), ByEmail(email), Unique(id)) ==>
                && users == old(users)[id := old(users)[id].(resetToken := Some(token))]
                && reply == (if mailDelivered then Ok(200, LinkSent) else Err(500, InternalError))
    {
      var found := Find(ByEmail(email));
      forall r | IsLookup(users, ByEmail(email), r) ensures r == found {
        LookupDeterministic(users, ByEmail(email), r, found);
      }
      match found
      case NoMatch =>
        reply := Err(404, UserNotFound);
      case Ambiguous =>
        reply := Err(500, InternalError);
      case Unique(id) =>
        users := users[id := users[id].(resetToken := Some(token))];
        reply := if mailDelivered then Ok(200, LinkSent) else Err(500, InternalError);
    }

    /** `resetPassword`: the one user holding `token` gets the encoded new
        password and loses the token. A request without a token is refused
        like an unknown one (see the findings on the lookup as written). */
    method ResetPassword(token: Option<string>, newPassword: string) returns (reply: Reply<string>)
      requires Valid()
      modifies this
      ensures Valid()
      ensures !HoldsToken(old(users), token) ==> reply == Err(400, InvalidToken) && users == old(users)
      ensures token.Some? && IsLookup(old(users), ByResetToken(token), Ambiguous) ==>
                reply == Err(500, ResetFailed) && users == old(users)
      ensures forall id :: token.Some? && IsLookup(old(users), ByResetToken(token), Unique(id)) ==>
                && reply == Ok(200, ResetDone)
                && users == old(users)[id := old(users)[id].(password := encoder.encode(newPassword), resetToken := None)]
      ensures reply.Ok? ==> !HoldsToken(users, token)
    {
      if token.None? {
        return Err(400, InvalidToken);
      }
      var found := Find(ByResetToken(token));
      forall r | IsLookup(users, ByResetToken(token), r) ensures r == found {
        LookupDeterministic(users, ByResetToken(token), r, found);
      }
      match found
      case NoMatch =>
        reply := Err(400, InvalidToken);
      case Ambiguous =>
        reply := Err(500, ResetFailed);
      case Unique(id) =>
        users := users[id := users[id].(password := encoder.encode(newPassword), resetToken := None)];
        reply := Ok(200, ResetDone);
    }

    /** `resetPassword` as the controller writes it: the request's token goes
        to the lookup unchecked, so a request without one is a query for
        `null`. */
    method ResetPasswordAsWritten(token: Option<string>, newPassword: string) returns (reply: Reply<string>)
      requires Valid()
      modifies this
      ensures Valid()
      ensures IsLookup(old(users), ByResetToken(token), NoMatch) ==> reply == Err(400, InvalidToken) && users == old(users)
      ensures IsLookup(old(users), ByResetToken(token), Ambiguous) ==> reply == Err(500, ResetFailed) && users == old(users)
      ensures forall id :: IsLookup(old(users), ByResetToken(token), Unique(id)) ==>
                && reply == Ok(200, ResetDone)
                && users == old(users)[id := old(users)[id].(password := encoder.encode(newPassword), resetToken := None)]
    {
      var found := Find(ByResetToken(token));
      forall r | IsLookup(users, ByResetToken(token), r) ensures r == found {
        LookupDeterministic(users, ByResetToken(token), r, found);
      }
      match found
      case NoMatch =>
        reply := Err(400, InvalidToken);
      case Ambiguous =>
        reply := Err(500, ResetFailed);
      case Unique(id) =>
        users := users[id := users[id].(password := encoder.encode(newPassword), resetToken := None)];
        reply := Ok(200, ResetDone);
    }
  }

  // ---------------------------------------------------------------------------
  // The token lookup as the controller writes it

  /** Passing the request's token straight to `findByResetToken`: a missing
      token becomes `null`, which matches every user with no pending reset. */
  lemma TokenlessLookup(users: map<UserId, User>, id: UserId)
    requires id in users && users[id].resetToken.None?
    requires forall other :: other in users && other != id ==> users[other].resetToken.Some?
    ensures IsLookup(users, ByResetToken(None), Unique(id))
    ensures !HoldsToken(users, None)
  {
  }

  /** A reset request without a token, sent to the controller as written,
      replaces the password of an account that never asked for a reset, and
      the new password then opens it. The corrected handler refuses it. */
  method TokenlessResetAsWritten(encoder: PasswordEncoder, victim: User, newPassword: string)
    returns (asWritten: Reply<string>, login: Reply<string>, corrected: Reply<string>)
    requires victim.resetToken.None?
    requires encoder.matches(newPassword, encoder.encode(newPassword))
    ensures asWritten == Ok(200, ResetDone)
    ensures login == Ok(200, Authenticated)
    ensures corrected == Err(400, InvalidToken)
  {
    var c := new AuthController(encoder);
    var _ := c.RegisterUser(victim, 0);
    TokenlessLookup(c.users, 0);
    corrected := c.ResetPassword(None, newPassword);
    asWritten := c.ResetPasswordAsWritten(None, newPassword);
    assert c.users[0].username == victim.username;
    login := c.AuthenticateUser(victim.(password := newPassword));
  }

  // ---------------------------------------------------------------------------
  // Client sessions

  /** A new account logs in with the password it signed up with. */
  method SignupThenLogin(encoder: PasswordEncoder, user: User) returns (signup: Reply<string>, login: Reply<string>)
    requires encoder.matches(user.password, encoder.encode(user.password))
    ensures signup == Ok(200, Registered) && login == Ok(200, Authenticated)
  {
    var c := new AuthController(encoder);
    signup := c.RegisterUser(user, 0);
    login := c.AuthenticateUser(user);
    assert c.users[0].username == user.username;
  }

  /** Signing up twice under one name fails the second time. */
  method SignupTwice(encoder: PasswordEncoder, first: User, second: User) returns (again: Reply<string>)
    requires first.username == second.username
    ensures again == Err(400, UserExists)
  {
    var c := new AuthController(encoder);
    var _ := c.RegisterUser(first, 0);
    assert c.users[0].username == second.username;
    again := c.RegisterUser(second, 1);
  }

  /** Forgot password, reset, reset again with the same token, then log in:
      the token works once, and afterwards the new password opens the account
      and the old one (when the encoder tells them apart) no longer does. */
  method ForgotThenResetTwice(encoder: PasswordEncoder, user: User, token: string, newPassword: string)
    returns (forgot: Reply<string>, reset: Reply<string>, again: Reply<string>, withNew: Reply<string>, withOld: Reply<string>)
    requires user.email.Some?
    requires encoder.matches(newPassword, encoder.encode(newPassword))
    requires !encoder.matches(user.password, encoder.encode(newPassword))
    ensures forgot == Ok(200, LinkSent)
    ensures reset == Ok(200, ResetDone)
    ensures again == Err(400, InvalidToken)
    ensures withNew == Ok(200, Authenticated)
    ensures withOld == Err(401, InvalidCredentials)
  {
    var c := new AuthController(encoder);
    var _ := c.RegisterUser(user, 0);
    assert IsLookup(c.users, ByEmail(user.email), Unique(0));
    forgot := c.ForgotPassword(user.email, token, true);
    assert IsLookup(c.users, ByResetToken(Some(token)), Unique(0));
    reset := c.ResetPassword(Some(token), newPassword);
    again := c.ResetPassword(Some(token), newPassword);
    withNew := c.AuthenticateUser(user.(password := newPassword));
    assert c.users[0].username == user.username;
    withOld := c.AuthenticateUser(user);
  }
}
