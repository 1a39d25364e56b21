/**
 * The auth router as the running service holds it: the users table, the
 * cache and the background-task queue are fields, and each route is a
 * method that reads them and then updates them step by step, in the order
 * the handler does. Each method's postcondition ties the new state and its
 * response to the route's specification in module `Session`.
 */
module AuthRoutes {
  import opened Wrappers
  import opened Http
  import opened Codec
  import opened Schemas
  import Session
  import SessionTraces

  class AuthRouter {
    var users: map<string, Session.UserRow>
    var cache: map<string, Session.CacheEntry>
    var outbox: seq<Session.Mail>
    var minted: nat
    var nextId: nat

    /** The state as a value. */
    function State(): Session.Store
      reads this
    {
      Session.Store(users, cache, outbox, minted, nextId)
    }

    /** The invariant every route keeps: see `Session.Valid`. */
    ghost predicate Valid()
      reads this
    {
      Session.Valid(State())
    }

    constructor ()
      ensures State() == Session.Store(map[], map[], [], 0, 1)
      ensures Valid()
    {
      users, cache, outbox, minted, nextId := map[], map[], [], 0, 1;
    }

    /** The next token serial, advancing the token service's counter. */
    method NextSerial() returns (serial: nat)
      modifies this
      ensures serial == old(minted) && minted == old(minted) + 1
      ensures users == old(users) && cache == old(cache) && outbox == old(outbox) && nextId == old(nextId)
    {
      serial := minted;
      minted := minted + 1;
    }

    method Signup(body: UserSchema, baseUrl: string) returns (reply: Response<Session.Body>)
      requires Valid()
      modifies this
      ensures Session.Step(State(), reply) == Session.Signup(old(State()), body, baseUrl)
      ensures Valid()
    {
      ghost var s0 := State();
      SessionTraces.SignupPreservesValid(s0, body, baseUrl);
      if !ValidUserSchema(body) {
        return Unprocessable;
      }
      if body.email in users {
        return Raised(409, "Account already exists");
      }
      var hashed := Hash(body.password);
      var user := Session.UserRow(nextId, body.username, body.email, hashed, false, None, User);
      users := users[body.email := user];
      nextId := nextId + 1;
      cache := cache[body.email := Session.CacheEntry(user, Session.CacheTtl)];
      outbox := outbox + [Session.Mail(Session.ConfirmationMail, body.email, body.username, baseUrl)];
      reply := Ok(201, Session.NewUser(Session.ToResponse(user)));
    }

    method Login(email: string, password: string) returns (reply: Response<Session.Body>)
      requires Valid()
      modifies this
      ensures Session.Step(State(), reply) == Session.Login(old(State()), email, password)
      ensures Valid()
    {
      ghost var s0 := State();
      SessionTraces.LoginPreservesValid(s0, email, password);
      if email !in users {
        return Raised(401, "Invalid email");
      }
      var user := users[email];
      if !user.confirmed {
        return Raised(401, "Email not confirmed");
      }
      if !Verify(password, user.password) {
        return Raised(401, "Invalid password");
      }
      var a := NextSerial();
      var access := MintAccess(email, a);
      var r := NextSerial();
      var refresh := MintRefresh(email, r);
      users := users[email := user.(refreshToken := Some(refresh))];
      reply := Ok(200, Session.Tokens(BearerPair(access, refresh)));
    }

    method RefreshToken(presented: Token) returns (reply: Response<Session.Body>)
      requires Valid()
      modifies this
      ensures Session.Step(State(), reply) == Session.Refresh(old(State()), presented)
      ensures Valid()
    {
      ghost var s0 := State();
      SessionTraces.RefreshPreservesValid(s0, presented);
      var email := DecodeRefresh(presented);
      if email.None? {
        return TokenRejected;
      }
      if email.value !in users {
        return Crashed;
      }
      var user := users[email.value];
      if user.refreshToken != Some(presented) {
        users := users[email.value := user.(refreshToken := None)];
        return Raised(401, "Invalid refresh token");
      }
      var a := NextSerial();
      var access := MintAccess(email.value, a);
      var r := NextSerial();
      var refresh := MintRefresh(email.value, r);
      users := users[email.value := user.(refreshToken := Some(refresh))];
      reply := Ok(200, Session.Tokens(BearerPair(access, refresh)));
    }

    method ConfirmedEmail(token: Token) returns (reply: Response<Session.Body>)
      requires Valid()
      modifies this
      ensures Session.Step(State(), reply) == Session.ConfirmEmail(old(State()), token)
      ensures Valid()
    {
      ghost var s0 := State();
      SessionTraces.ConfirmPreservesValid(s0, token);
      var email := EmailFromToken(token);
      if email.None? {
        return TokenRejected;
      }
      if email.value !in users {
        return Raised(400, "Verification error");
      }
      if users[email.value].confirmed {
        return Ok(200, Session.Message("Your email is already confirmed"));
      }
      users := users[email.value := users[email.value].(confirmed := true)];
      reply := Ok(200, Session.Message("Email confirmed"));
    }

    /** The route as written; see `Session.RequestEmailAsWritten`. */
    method RequestEmail(email: string, baseUrl: string) returns (reply: Response<Session.Body>)
      requires Valid()
      modifies this
      ensures Session.Step(State(), reply) == Session.RequestEmailAsWritten(old(State()), email, baseUrl)
      ensures Valid()
    {
      ghost var s0 := State();
      SessionTraces.ResendAsWrittenPreservesValid(s0, email, baseUrl);
      if email !in users {
        return Crashed;
      }
      var user := users[email];
      if user.confirmed {
        return Ok(200, Session.Message("Your email is already confirmed"));
      }
      outbox := outbox + [Session.Mail(Session.ConfirmationMail, email, user.username, baseUrl)];
      reply := Ok(200, Session.Message("Check your email for confirmation."));
    }

    method ResetPasswordEmail(email: string, baseUrl: string) returns (reply: Response<Session.Body>)
      requires Valid()
      modifies this
      ensures Session.Step(State(), reply) == Session.ResetPasswordEmail(old(State()), email, baseUrl)
      ensures Valid()
    {
      ghost var s0 := State();
      SessionTraces.ResetPreservesValid(s0, email, baseUrl);
      if email in users {
        outbox := outbox + [Session.Mail(Session.ResetMail, email, users[email].username, baseUrl)];
        reply := Ok(200, Session.Message("Check your email for update your password"));
      } else {
        reply := Ok(200, Session.Message("User with email doesn't exist"));
      }
    }

    method ConfirmedResetPassword(body: UserResetPassword, token: Token) returns (reply: Response<Session.Body>)
      requires Valid()
      modifies this
      ensures Session.Step(State(), reply) == Session.ConfirmResetPassword(old(State()), body, token)
      ensures Valid()
    {
      ghost var s0 := State();
      SessionTraces.ResetFormPreservesValid(s0, body, token);
      if !ValidUserResetPassword(body) {
        return Unprocessable;
      }
      var email := EmailFromToken(token);
      if email.None? {
        return TokenRejected;
      }
      if email.value !in users {
        return Raised(400, "Verification error");
      }
      var newHash := Hash(body.password2);
      if !Verify(body.password1, newHash) {
        return Raised(401, "Passwords are not the same");
      }
      users := users[email.value := users[email.value].(password := newHash)];
      reply := Ok(200, Session.Message("Password was updated successfully!"));
    }
  }
}
