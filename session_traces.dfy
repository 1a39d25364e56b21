/**
 * Sequences of auth requests, each handled as one atomic step, and what
 * holds across them: the state invariant, monotonic confirmation, the
 * single live refresh token, and the lockout that follows a detected
 * token reuse.
 */
module SessionTraces {
  import opened Wrappers
  import opened Http
  import opened Codec
  import opened Schemas
  import opened Session

  datatype Request =
    | SignupRequest(body: UserSchema, baseUrl: string)
    | LoginRequest(email: string, password: string)
    | RefreshRequest(token: Token)
    | ConfirmRequest(token: Token)
    | ResendRequest(email: string, baseUrl: string)
    | ResetRequest(email: string, baseUrl: string)
    | ResetFormRequest(form: UserResetPassword, token: Token)

  /** One request against the state; `request_email` with its `None` test in place. */
  function Handle(s: Store, q: Request): Step
  {
    match q
    case SignupRequest(body, url) => Signup(s, body, url)
    case LoginRequest(email, password) => Login(s, email, password)
    case RefreshRequest(t) => Refresh(s, t)
    case ConfirmRequest(t) => ConfirmEmail(s, t)
    case ResendRequest(email, url) => RequestEmail(s, email, url)
    case ResetRequest(email, url) => ResetPasswordEmail(s, email, url)
    case ResetFormRequest(form, t) => ConfirmResetPassword(s, form, t)
  }

  /** The final state and the responses, one per request, in order. */
  function Run(s: Store, qs: seq<Request>): (r: (Store, seq<Response<Body>>))
    ensures |r.1| == |qs|
    decreases |qs|
  {
    if qs == [] then (s, [])
    else
      var first := Handle(s, qs[0]);
      var rest := Run(first.next, qs[1..]);
      (rest.0, [first.reply] + rest.1)
  }

  lemma SignupPreservesValid(s: Store, body: UserSchema, url: string)
    requires Valid(s)
    ensures Valid(Signup(s, body, url).next)
  {
    var n := Signup(s, body, url).next;
    if ValidUserSchema(body) && body.email !in s.users {
      forall e | e in n.users
        ensures n.users[e].email == e && n.users[e].id < n.nextId && TokenOwned(n, e)
      {
        if e != body.email {
          assert n.users[e] == s.users[e];
          assert TokenOwned(s, e);
        }
      }
    }
  }

  lemma LoginPreservesValid(s: Store, email: string, password: string)
    requires Valid(s)
    ensures Valid(Login(s, email, password).next)
  {
    var n := Login(s, email, password).next;
    if Login(s, email, password).reply.Ok? {
      forall e | e in n.users ensures TokenOwned(n, e) {
        if e != email {
          assert TokenOwned(s, e);
        }
      }
    }
  }

  lemma RefreshPreservesValid(s: Store, t: Token)
    requires Valid(s)
    ensures Valid(Refresh(s, t).next)
  {
    var n := Refresh(s, t).next;
    if DecodeRefresh(t).Some? && t.sub in s.users {
      forall e | e in n.users ensures TokenOwned(n, e) {
        if e != t.sub {
          assert TokenOwned(s, e);
        }
      }
    }
  }

  /** A step that keeps the table's keys, emails, ids, tokens and counters keeps the invariant. */
  lemma TokensKeptPreservesValid(s: Store, n: Store)
    requires Valid(s)
    requires n.users.Keys == s.users.Keys && n.cache.Keys <= s.cache.Keys
    requires n.minted == s.minted && n.nextId == s.nextId
    requires forall e :: e in s.users ==>
               n.users[e].email == s.users[e].email && n.users[e].id == s.users[e].id
               && n.users[e].refreshToken == s.users[e].refreshToken
    ensures Valid(n)
  {
    forall e | e in n.users ensures TokenOwned(n, e) {
      assert TokenOwned(s, e);
    }
  }

  lemma ConfirmPreservesValid(s: Store, t: Token)
    requires Valid(s)
    ensures Valid(ConfirmEmail(s, t).next)
  {
    TokensKeptPreservesValid(s, ConfirmEmail(s, t).next);
  }

  lemma ResendPreservesValid(s: Store, email: string, url: string)
    requires Valid(s)
    ensures Valid(RequestEmail(s, email, url).next)
  {
    TokensKeptPreservesValid(s, RequestEmail(s, email, url).next);
  }

  /** The written `request_email` keeps the invariant too, on the paths where it does not crash. */
  lemma ResendAsWrittenPreservesValid(s: Store, email: string, url: string)
    requires Valid(s)
    ensures Valid(RequestEmailAsWritten(s, email, url).next)
  {
    TokensKeptPreservesValid(s, RequestEmailAsWritten(s, email, url).next);
  }

  lemma ResetPreservesValid(s: Store, email: string, url: string)
    requires Valid(s)
    ensures Valid(ResetPasswordEmail(s, email, url).next)
  {
    TokensKeptPreservesValid(s, ResetPasswordEmail(s, email, url).next);
  }

  lemma ResetFormPreservesValid(s: Store, form: UserResetPassword, t: Token)
    requires Valid(s)
    ensures Valid(ConfirmResetPassword(s, form, t).next)
  {
    TokensKeptPreservesValid(s, ConfirmResetPassword(s, form, t).next);
  }

  /** Every route keeps the invariant. */
  lemma HandlePreservesValid(s: Store, q: Request)
    requires Valid(s)
    ensures Valid(Handle(s, q).next)
  {
    match q
    case SignupRequest(body, url) => SignupPreservesValid(s, body, url);
    case LoginRequest(email, password) => LoginPreservesValid(s, email, password);
    case RefreshRequest(t) => RefreshPreservesValid(s, t);
    case ConfirmRequest(t) => ConfirmPreservesValid(s, t);
    case ResendRequest(email, url) => ResendPreservesValid(s, email, url);
    case ResetRequest(email, url) => ResetPreservesValid(s, email, url);
    case ResetFormRequest(form, t) => ResetFormPreservesValid(s, form, t);
  }

  /**
   * Under the invariant, a refresh succeeds only with a refresh token the
   * service itself issued to that user before this request: a token naming
   * another user, or one from a serial not yet reached, is never accepted.
   */
  lemma RefreshNeedsIssuedToken(s: Store, t: Token)
    requires Valid(s)
    requires Refresh(s, t).reply.Ok?
    ensures t.Signed? && t.purpose == RefreshPurpose && t.serial < s.minted
    ensures t.sub in s.users && s.users[t.sub].refreshToken == Some(t)
  {
    assert TokenOwned(s, t.sub);
  }

  /** Every sequence of requests keeps the invariant. */
  lemma {:induction false} RunPreservesValid(s: Store, qs: seq<Request>)
    requires Valid(s)
    ensures Valid(Run(s, qs).0)
    decreases |qs|
  {
    if qs != [] {
      HandlePreservesValid(s, qs[0]);
      RunPreservesValid(Handle(s, qs[0]).next, qs[1..]);
    }
  }

  /**
   * From `s` to `t` no user disappeared, no id, username or role changed,
   * and no confirmed user became unconfirmed.
   */
  ghost predicate Evolves(s: Store, t: Store)
  {
    forall e :: e in s.users ==>
      && e in t.users
      && t.users[e].id == s.users[e].id
      && t.users[e].username == s.users[e].username
      && t.users[e].role == s.users[e].role
      && (s.users[e].confirmed ==> t.users[e].confirmed)
  }

  lemma HandleEvolves(s: Store, q: Request)
    ensures Evolves(s, Handle(s, q).next)
  {
  }

  /** Over any sequence of requests, users are never removed, roles never change and confirmation is never undone. */
  lemma {:induction false} RunEvolves(s: Store, qs: seq<Request>)
    ensures Evolves(s, Run(s, qs).0)
    decreases |qs|
  {
    if qs != [] {
      var mid := Handle(s, qs[0]).next;
      HandleEvolves(s, qs[0]);
      RunEvolves(mid, qs[1..]);
    }
  }

  predicate IsLoginOf(q: Request, email: string)
  {
    q.LoginRequest? && q.email == email
  }

  predicate IsRefreshOf(q: Request, email: string)
  {
    q.RefreshRequest? && DecodeRefresh(q.token) == Some(email)
  }

  /** A request that is not a login for `email` leaves that user registered with no refresh token. */
  lemma HandleKeepsLockout(s: Store, q: Request, email: string)
    requires email in s.users && s.users[email].refreshToken == None
    requires !IsLoginOf(q, email)
    ensures email in Handle(s, q).next.users && Handle(s, q).next.users[email].refreshToken == None
    ensures IsRefreshOf(q, email) ==> Handle(s, q).reply == Raised(401, "Invalid refresh token")
  {
  }

  /**
   * Once a user's stored refresh token is cleared (by a detected reuse),
   * every refresh presented for that user fails with 401 until a login for
   * that user, and the stored token stays cleared.
   */
  lemma {:induction false} LockedOutUntilLogin(s: Store, qs: seq<Request>, email: string)
    requires email in s.users && s.users[email].refreshToken == None
    requires forall i :: 0 <= i < |qs| ==> !IsLoginOf(qs[i], email)
    ensures email in Run(s, qs).0.users && Run(s, qs).0.users[email].refreshToken == None
    ensures forall i :: 0 <= i < |qs| && IsRefreshOf(qs[i], email) ==>
              Run(s, qs).1[i] == Raised(401, "Invalid refresh token")
    decreases |qs|
  {
    if qs != [] {
      HandleKeepsLockout(s, qs[0], email);
      var mid := Handle(s, qs[0]).next;
      LockedOutUntilLogin(mid, qs[1..], email);
      var r := Run(s, qs).1;
      assert r == [Handle(s, qs[0]).reply] + Run(mid, qs[1..]).1;
      forall i | 0 <= i < |qs| && IsRefreshOf(qs[i], email)
        ensures r[i] == Raised(401, "Invalid refresh token")
      {
        if i > 0 {
          assert qs[1..][i - 1] == qs[i];
        }
      }
    }
  }

  /**
   * After signup, login fails with "Email not confirmed" until the email
   * is confirmed with a token for it; then the same credentials log in.
   */
  lemma SignupConfirmLogin(s: Store, body: UserSchema, url: string, serial: nat)
    requires ValidUserSchema(body) && body.email !in s.users
    ensures var s1 := Signup(s, body, url).next;
            && Login(s1, body.email, body.password).reply == Raised(401, "Email not confirmed")
            && var c := ConfirmEmail(s1, MintEmail(body.email, serial));
            && c.reply == Ok(200, Message("Email confirmed"))
            && Login(c.next, body.email, body.password).reply.Ok?
  {
    var s1 := Signup(s, body, url).next;
    var s2 := ConfirmEmail(s1, MintEmail(body.email, serial)).next;
    VerifyHash(body.password, body.password);
    assert s2.users[body.email].password == Hash(body.password);
  }

  /**
   * After two logins, the refresh token of the first one is refused and
   * clears the stored token, so the refresh token of the second login is
   * refused too.
   */
  lemma SupersededRefreshLocksOut(s: Store, email: string, password: string)
    requires Login(s, email, password).reply.Ok?
    ensures var l1 := Login(s, email, password);
            var l2 := Login(l1.next, email, password);
            var old1 := l1.reply.body.tokens.refreshToken;
            var new2 := l2.reply.body.tokens.refreshToken;
            var r1 := Refresh(l2.next, old1);
            && l2.reply.Ok?
            && r1.reply == Raised(401, "Invalid refresh token")
            && Refresh(r1.next, new2).reply == Raised(401, "Invalid refresh token")
  {
    var l1 := Login(s, email, password);
    assert l1.next.users[email].confirmed && l1.next.users[email].password == s.users[email].password;
    var l2 := Login(l1.next, email, password);
    var old1 := l1.reply.body.tokens.refreshToken;
    assert IssuedBefore(old1, l1.next.minted);
  }

  /** A user who logged in and then refreshes with the token just issued gets a new pair, and the old one stops working. */
  lemma RefreshRotates(s: Store, email: string, password: string)
    requires Login(s, email, password).reply.Ok?
    ensures var l := Login(s, email, password);
            var t := l.reply.body.tokens.refreshToken;
            var r := Refresh(l.next, t);
            && r.reply.Ok?
            && r.reply.body.tokens.refreshToken != t
            && Refresh(r.next, t).reply == Raised(401, "Invalid refresh token")
  {
    var l := Login(s, email, password);
    var t := l.reply.body.tokens.refreshToken;
    MintedTokensDiffer(email, s.minted + 1, email, s.minted + 3);
  }
}
