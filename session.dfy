/**
 * The auth routes of `src/routes/auth.py` as functions from the state they
 * see to the state they leave and the response they give. Each function is
 * the specification of the corresponding method of `AuthRoutes.AuthRouter`.
 *
 * The state is the users table keyed by email, the user cache (key, pickled
 * snapshot, time to live), the queue of background mail tasks, and two
 * counters: the number of tokens the token service has minted and the next
 * user id the database will assign.
 */
module Session {
  import opened Wrappers
  import opened Http
  import opened Codec
  import opened Schemas

  /** A row of the users table. */
  datatype UserRow = UserRow(
    id: nat,
    username: string,
    email: string,
    password: PasswordHash,
    confirmed: bool,
    refreshToken: Option<Token>,
    role: Role)

  /** What `cache.set` followed by `cache.expire` leave under a key. */
  datatype CacheEntry = CacheEntry(snapshot: UserRow, ttl: nat)

  /** The seconds `signup` gives a cache entry. */
  const CacheTtl: nat := 300

  /** Which mail a background task sends: `send_email` or `send_reset_passw_email`. */
  datatype MailKind = ConfirmationMail | ResetMail

  /** A queued `background_tasks.add_task(...)` with its arguments. */
  datatype Mail = Mail(kind: MailKind, email: string, username: string, baseUrl: string)

  datatype Store = Store(
    users: map<string, UserRow>,
    cache: map<string, CacheEntry>,
    outbox: seq<Mail>,
    minted: nat,
    nextId: nat)

  /** The bodies the auth routes return. */
  datatype Body = NewUser(user: UserResponse) | Tokens(tokens: TokenSchema) | Message(text: string)

  /** The state after a route and its response. */
  datatype Step = Step(next: Store, reply: Response<Body>)

  /** Serialising a row through `response_model=UserResponse`. */
  function ToResponse(u: UserRow): (r: UserResponse)
    ensures r.id == u.id && r.username == u.username && r.email == u.email && r.role == u.role
  {
    UserResponse(u.id, u.username, u.email, u.role)
  }

  /** The response of a row does not depend on its hash, its token or its confirmation. */
  lemma ResponseHidesSecrets(u: UserRow, h: PasswordHash, t: Option<Token>, c: bool)
    ensures ToResponse(u.(password := h, refreshToken := t, confirmed := c)) == ToResponse(u)
  {
  }

  /** A token the service minted before its counter reached `n`. */
  predicate IssuedBefore(t: Token, n: nat)
  {
    t.Signed? && t.serial < n
  }

  /** The stored refresh token of the user at `email`, if any, is one the service issued to that user. */
  ghost predicate TokenOwned(s: Store, email: string)
    requires email in s.users
  {
    match s.users[email].refreshToken
    case None => true
    case Some(t) => t.Signed? && t.purpose == RefreshPurpose && t.sub == email && t.serial < s.minted
  }

  /**
   * What every route keeps: each row sits under its own email, ids are
   * distinct and below the next id, stored refresh tokens were issued to
   * their user, and the cache holds only registered emails.
   */
  ghost predicate Valid(s: Store)
  {
    && (forall e :: e in s.users ==> s.users[e].email == e && s.users[e].id < s.nextId && TokenOwned(s, e))
    && (forall e1, e2 :: e1 in s.users && e2 in s.users && e1 != e2 ==> s.users[e1].id != s.users[e2].id)
    && (forall e :: e in s.cache ==> e in s.users)
  }

  /** The row `signup` inserts for a body. */
  function NewRow(id: nat, body: UserSchema): UserRow
  {
    UserRow(id, body.username, body.email, Hash(body.password), false, None, User)
  }

  /** `POST /api/auth/signup`. */
  function Signup(s: Store, body: UserSchema, baseUrl: string): (r: Step)
    ensures !ValidUserSchema(body) ==> r == Step(s, Unprocessable)
    ensures ValidUserSchema(body) && body.email in s.users ==>
              r == Step(s, Raised(409, "Account already exists"))
    ensures ValidUserSchema(body) && body.email !in s.users ==>
              var e := body.email;
              && e in r.next.users
              && r.next.users == s.users[e := r.next.users[e]]
              && var u := r.next.users[e];
              && u.username == body.username && u.email == e && u.role == User
              && !u.confirmed && u.refreshToken == None
              && u.password == Hash(body.password)
              && (forall p :: Verify(p, u.password) <==> p == body.password)
              && u.id == s.nextId && r.next.nextId == s.nextId + 1
              && r.next.cache == s.cache[e := CacheEntry(u, CacheTtl)]
              && r.next.outbox == s.outbox + [Mail(ConfirmationMail, e, body.username, baseUrl)]
              && r.next.minted == s.minted
              && r.reply == Ok(201, NewUser(ToResponse(u)))
  {
    if !ValidUserSchema(body) then Step(s, Unprocessable)
    else if body.email in s.users then Step(s, Raised(409, "Account already exists"))
    else
      var u := NewRow(s.nextId, body);
      var next := Store(
        s.users[body.email := u],
        s.cache[body.email := CacheEntry(u, CacheTtl)],
        s.outbox + [Mail(ConfirmationMail, body.email, body.username, baseUrl)],
        s.minted,
        s.nextId + 1);
      Step(next, Ok(201, NewUser(ToResponse(u))))
  }

  /** `POST /api/auth/login`, with the form's `username` field holding the email. */
  function Login(s: Store, email: string, password: string): (r: Step)
    ensures email !in s.users ==> r == Step(s, Raised(401, "Invalid email"))
    ensures email in s.users && !s.users[email].confirmed ==>
              r == Step(s, Raised(401, "Email not confirmed"))
    ensures email in s.users && s.users[email].confirmed && !Verify(password, s.users[email].password) ==>
              r == Step(s, Raised(401, "Invalid password"))
    ensures r.reply.Ok? <==>
              email in s.users && s.users[email].confirmed && Verify(password, s.users[email].password)
    ensures r.reply.Ok? ==>
              var access, refresh := MintAccess(email, s.minted), MintRefresh(email, s.minted + 1);
              && r.reply == Ok(200, Tokens(BearerPair(access, refresh)))
              && r.next == s.(users := s.users[email := s.users[email].(refreshToken := Some(refresh))],
                              minted := s.minted + 2)
              && (forall t :: IssuedBefore(t, s.minted) ==> r.next.users[email].refreshToken != Some(t))
  {
    if email !in s.users then Step(s, Raised(401, "Invalid email"))
    else
      var u := s.users[email];
      if !u.confirmed then Step(s, Raised(401, "Email not confirmed"))
      else if !Verify(password, u.password) then Step(s, Raised(401, "Invalid password"))
      else
        var access := MintAccess(email, s.minted);
        var refresh := MintRefresh(email, s.minted + 1);
        var next := s.(users := s.users[email := u.(refreshToken := Some(refresh))], minted := s.minted + 2);
        Step(next, Ok(200, Tokens(BearerPair(access, refresh))))
  }

  /** Does the stored refresh token accept the presented one? `None` accepts nothing. */
  predicate Accepts(stored: Option<Token>, presented: Token)
  {
    stored == Some(presented)
  }

  /** `GET /api/auth/refresh_token` with the bearer credential `presented`. */
  function Refresh(s: Store, presented: Token): (r: Step)
    ensures DecodeRefresh(presented).None? ==> r == Step(s, TokenRejected)
    ensures DecodeRefresh(presented).Some? && presented.sub !in s.users ==> r == Step(s, Crashed)
    ensures DecodeRefresh(presented).Some? && presented.sub in s.users
            && !Accepts(s.users[presented.sub].refreshToken, presented) ==>
              var e := presented.sub;
              r == Step(s.(users := s.users[e := s.users[e].(refreshToken := None)]),
                        Raised(401, "Invalid refresh token"))
    ensures r.reply.Ok? <==>
              DecodeRefresh(presented).Some? && presented.sub in s.users
              && Accepts(s.users[presented.sub].refreshToken, presented)
    ensures r.reply.Ok? ==>
              var e := presented.sub;
              var access, refresh := MintAccess(e, s.minted), MintRefresh(e, s.minted + 1);
              && r.reply == Ok(200, Tokens(BearerPair(access, refresh)))
              && r.next == s.(users := s.users[e := s.users[e].(refreshToken := Some(refresh))],
                              minted := s.minted + 2)
              && (forall t :: IssuedBefore(t, s.minted) ==> !Accepts(r.next.users[e].refreshToken, t))
  {
    match DecodeRefresh(presented)
    case None => Step(s, TokenRejected)
    case Some(e) =>
      if e !in s.users then Step(s, Crashed)
      else
        var u := s.users[e];
        if u.refreshToken != Some(presented) then
          Step(s.(users := s.users[e := u.(refreshToken := None)]), Raised(401, "Invalid refresh token"))
        else
          var access := MintAccess(e, s.minted);
          var refresh := MintRefresh(e, s.minted + 1);
          var next := s.(users := s.users[e := u.(refreshToken := Some(refresh))], minted := s.minted + 2);
          Step(next, Ok(200, Tokens(BearerPair(access, refresh))))
  }

  /** `GET /api/auth/confirmed_email/{token}`. */
  function ConfirmEmail(s: Store, token: Token): (r: Step)
    ensures EmailFromToken(token).None? ==> r == Step(s, TokenRejected)
    ensures EmailFromToken(token).Some? && token.sub !in s.users ==>
              r == Step(s, Raised(400, "Verification error"))
    ensures EmailFromToken(token).Some? && token.sub in s.users && s.users[token.sub].confirmed ==>
              r == Step(s, Ok(200, Message("Your email is already confirmed")))
    ensures EmailFromToken(token).Some? && token.sub in s.users && !s.users[token.sub].confirmed ==>
              var e := token.sub;
              && r.next == s.(users := s.users[e := s.users[e].(confirmed := true)])
              && r.reply == Ok(200, Message("Email confirmed"))
    ensures forall e :: e in s.users && s.users[e].confirmed ==> e in r.next.users && r.next.users[e].confirmed
  {
    match EmailFromToken(token)
    case None => Step(s, TokenRejected)
    case Some(e) =>
      if e !in s.users then Step(s, Raised(400, "Verification error"))
      else if s.users[e].confirmed then Step(s, Ok(200, Message("Your email is already confirmed")))
      else Step(s.(users := s.users[e := s.users[e].(confirmed := true)]), Ok(200, Message("Email confirmed")))
  }

  /**
   * `POST /api/auth/request_email` as written: `user.confirmed` is read
   * before `user` is tested, so an unknown email ends in an uncaught
   * `AttributeError`.
   */
  function RequestEmailAsWritten(s: Store, email: string, baseUrl: string): (r: Step)
    ensures email !in s.users ==> r == Step(s, Crashed)
    ensures email in s.users && s.users[email].confirmed ==>
              r == Step(s, Ok(200, Message("Your email is already confirmed")))
    ensures email in s.users && !s.users[email].confirmed ==>
              && r.next == s.(outbox := s.outbox + [Mail(ConfirmationMail, email, s.users[email].username, baseUrl)])
              && r.reply == Ok(200, Message("Check your email for confirmation."))
  {
    if email !in s.users then Step(s, Crashed)
    else if s.users[email].confirmed then Step(s, Ok(200, Message("Your email is already confirmed")))
    else
      var u := s.users[email];
      Step(s.(outbox := s.outbox + [Mail(ConfirmationMail, email, u.username, baseUrl)]),
           Ok(200, Message("Check your email for confirmation.")))
  }

  /**
   * `POST /api/auth/request_email` with the `None` test first, as the
   * handler's own `if user:` intends: an unknown email gets the same reply
   * as an unconfirmed one and queues nothing.
   */
  function RequestEmail(s: Store, email: string, baseUrl: string): (r: Step)
    ensures r.reply.Ok? && r.reply.status == 200
    ensures r.next.users == s.users && r.next.cache == s.cache && r.next.minted == s.minted
    ensures r.next.nextId == s.nextId
    ensures email in s.users && !s.users[email].confirmed <==> |r.next.outbox| == |s.outbox| + 1
    ensures |r.next.outbox| == |s.outbox| + 1 ==>
              r.next.outbox == s.outbox + [Mail(ConfirmationMail, email, s.users[email].username, baseUrl)]
    ensures |r.next.outbox| != |s.outbox| + 1 ==> r.next.outbox == s.outbox
    ensures r.reply == Ok(200, Message("Your email is already confirmed")) <==>
              email in s.users && s.users[email].confirmed
  {
    if email in s.users && s.users[email].confirmed then
      Step(s, Ok(200, Message("Your email is already confirmed")))
    else if email in s.users then
      Step(s.(outbox := s.outbox + [Mail(ConfirmationMail, email, s.users[email].username, baseUrl)]),
           Ok(200, Message("Check your email for confirmation.")))
    else
      Step(s, Ok(200, Message("Check your email for confirmation.")))
  }

  /** `POST /api/auth/reset_password`. */
  function ResetPasswordEmail(s: Store, email: string, baseUrl: string): (r: Step)
    ensures email in s.users ==>
              && r.next == s.(outbox := s.outbox + [Mail(ResetMail, email, s.users[email].username, baseUrl)])
              && r.reply == Ok(200, Message("Check your email for update your password"))
    ensures email !in s.users ==> r == Step(s, Ok(200, Message("User with email doesn't exist")))
  {
    if email in s.users then
      Step(s.(outbox := s.outbox + [Mail(ResetMail, email, s.users[email].username, baseUrl)]),
           Ok(200, Message("Check your email for update your password")))
    else
      Step(s, Ok(200, Message("User with email doesn't exist")))
  }

  /** `POST /api/auth/form_reset_password/{token}`. */
  function ConfirmResetPassword(s: Store, body: UserResetPassword, token: Token): (r: Step)
    ensures !ValidUserResetPassword(body) ==> r == Step(s, Unprocessable)
    ensures ValidUserResetPassword(body) && EmailFromToken(token).None? ==> r == Step(s, TokenRejected)
    ensures ValidUserResetPassword(body) && EmailFromToken(token).Some? && token.sub !in s.users ==>
              r == Step(s, Raised(400, "Verification error"))
    ensures ValidUserResetPassword(body) && EmailFromToken(token).Some? && token.sub in s.users
            && body.password1 != body.password2 ==>
              r == Step(s, Raised(401, "Passwords are not the same"))
    ensures r.reply.Ok? <==>
              ValidUserResetPassword(body) && EmailFromToken(token).Some? && token.sub in s.users
              && body.password1 == body.password2
    ensures r.reply.Ok? ==>
              var e := token.sub;
              && r.next == s.(users := s.users[e := s.users[e].(password := Hash(body.password2))])
              && (forall p :: Verify(p, r.next.users[e].password) <==> p == body.password2)
              && r.reply == Ok(200, Message("Password was updated successfully!"))
  {
    if !ValidUserResetPassword(body) then Step(s, Unprocessable)
    else
      match EmailFromToken(token)
      case None => Step(s, TokenRejected)
      case Some(e) =>
        if e !in s.users then Step(s, Raised(400, "Verification error"))
        else
          var newHash := Hash(body.password2);
          if !Verify(body.password1, newHash) then
            VerifyHash(body.password1, body.password2);
            Step(s, Raised(401, "Passwords are not the same"))
          else
            Step(s.(users := s.users[e := s.users[e].(password := newHash)]),
                 Ok(200, Message("Password was updated successfully!")))
  }

  /** Only registered users receive a reset mail, and the reply tells which case occurred. */
  lemma ResetReplyRevealsRegistration(s: Store, e1: string, e2: string, url: string)
    requires ResetPasswordEmail(s, e1, url).reply == ResetPasswordEmail(s, e2, url).reply
    ensures e1 in s.users <==> e2 in s.users
  {
  }

  /** On registered emails the corrected `request_email` does exactly what the written one does. */
  lemma RequestEmailFixAgrees(s: Store, email: string, url: string)
    requires email in s.users
    ensures RequestEmail(s, email, url) == RequestEmailAsWritten(s, email, url)
  {
  }

  /**
   * The correction changes only the reply to an unregistered email: the new
   * state is the same for every input, so whatever holds of the states a
   * trace of corrected requests reaches holds of the written route too.
   */
  lemma RequestEmailFixKeepsState(s: Store, email: string, url: string)
    ensures RequestEmail(s, email, url).next == RequestEmailAsWritten(s, email, url).next
    ensures RequestEmailAsWritten(s, email, url).reply != Crashed ==>
              RequestEmail(s, email, url).reply == RequestEmailAsWritten(s, email, url).reply
  {
    if email in s.users {
      RequestEmailFixAgrees(s, email, url);
    }
  }

  /** The written `request_email` crashes on every unregistered email; the corrected one answers as for an unconfirmed user. */
  lemma RequestEmailUnknownCrashes(s: Store, email: string, url: string)
    requires email !in s.users
    ensures RequestEmailAsWritten(s, email, url).reply == Crashed
    ensures RequestEmail(s, email, url) == Step(s, Ok(200, Message("Check your email for confirmation.")))
  {
  }
}
