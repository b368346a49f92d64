/** The authentication routes: registration into the `users` collection,
    login issuing a bearer token, and the identity lookup behind
    `/users/me`. Password hashing and token signing are the collaborators
    gathered in an `AuthContext`; the collection is an in-memory sequence
    of documents. Times are integer seconds. */
module Auth {
  import opened Http

  /** Token lifetime in minutes when `ACCESS_TOKEN_EXPIRE_MINUTES` is unset. */
  const DefaultExpireMinutes := 60

  /** A value inside a token's claim set. */
  datatype ClaimValue = Str(s: string) | Int(n: int) | Null

  type Claims = map<string, ClaimValue>

  /** The collaborators of the routes and the one setting they read:
      `hash` and `verify` stand for the bcrypt context, `encode` and
      `decode` for signing and checking a token with the configured secret
      and algorithm (`decode` gives `None` when the signature, the format
      or the expiry check fails), and `expireMinutesSetting` for the
      `ACCESS_TOKEN_EXPIRE_MINUTES` environment variable. */
  datatype AuthContext = AuthContext(
    hash: string -> string,
    verify: (string, string) -> bool,
    encode: Claims -> string,
    decode: string -> Option<Claims>,
    expireMinutesSetting: Option<int>)

  /** `ACCESS_TOKEN_EXPIRE_MINUTES`: the setting when present, 60 otherwise. */
  function ExpireMinutes(ctx: AuthContext): (m: int)
    ensures ctx.expireMinutesSetting == None ==> m == DefaultExpireMinutes
    ensures ctx.expireMinutesSetting.Some? ==> m == ctx.expireMinutesSetting.value
  {
    match ctx.expireMinutesSetting
    case None => DefaultExpireMinutes
    case Some(m) => m
  }

  /** `expires_delta or timedelta(minutes=ACCESS_TOKEN_EXPIRE_MINUTES)`, in
      seconds: an absent delta and a zero delta (which Python treats as
      false) both fall back to the configured lifetime. */
  function ExpiryDelta(ctx: AuthContext, delta: Option<int>): (d: int)
    ensures delta.Some? && delta.value != 0 ==> d == delta.value
    ensures delta == None || delta == Some(0) ==> d == 60 * ExpireMinutes(ctx)
    ensures ctx.expireMinutesSetting == None && (delta == None || delta == Some(0)) ==> d == 3600
  {
    if delta.Some? && delta.value != 0 then delta.value else 60 * ExpireMinutes(ctx)
  }

  /** The claim set `create_access_token` signs: a copy of the caller's
      claims with `exp` set to `now` plus the expiry delta. */
  function AccessTokenClaims(ctx: AuthContext, data: Claims, delta: Option<int>, now: int): (c: Claims)
    ensures c.Keys == data.Keys + {"exp"}
    ensures forall k :: k in data && k != "exp" ==> c[k] == data[k]
    ensures c["exp"] == Int(now + ExpiryDelta(ctx, delta))
  {
    data["exp" := Int(now + ExpiryDelta(ctx, delta))]
  }

  /** `create_access_token`: the token signed over exactly the claim set
      above. */
  function CreateAccessToken(ctx: AuthContext, data: Claims, delta: Option<int>, now: int): (token: string)
    ensures token == ctx.encode(AccessTokenClaims(ctx, data, delta, now))
  {
    ctx.encode(AccessTokenClaims(ctx, data, delta, now))
  }

  /** A stored user document. `password` holds the hash. */
  datatype UserRecord = UserRecord(email: string, password: string)

  /** The body of `/register`. `email` is the address as the `EmailStr`
      validation hands it on: already normalized (its domain lower-cased),
      and that normalized form is what gets stored. */
  datatype UserIn = UserIn(email: string, password: string)

  /** The public view of a user: the email only. */
  datatype UserOut = UserOut(email: string)

  /** The form posted to `/login`. */
  datatype LoginForm = LoginForm(username: string, password: string)

  /** The body `/login` returns. */
  datatype Token = Token(accessToken: string, tokenType: string)

  /** `find_one({"email": email})`: the first document with that email. */
  function FindUser(docs: seq<UserRecord>, email: string): (r: Option<UserRecord>)
    ensures r.None? <==> forall i :: 0 <= i < |docs| ==> docs[i].email != email
    ensures r.Some? ==> r.value in docs && r.value.email == email
    ensures r.Some? ==> exists i :: 0 <= i < |docs| && docs[i] == r.value && NoneBefore(docs, email, i)
  {
    if docs == [] then None
    else if docs[0].email == email then
      assert NoneBefore(docs, email, 0);
      Some(docs[0])
    else
      var r := FindUser(docs[1..], email);
      assert r.Some? ==> exists i :: 0 <= i < |docs| && docs[i] == r.value && NoneBefore(docs, email, i) by {
        if r.Some? {
          var i :| 0 <= i < |docs[1..]| && docs[1..][i] == r.value && NoneBefore(docs[1..], email, i);
          assert NoneBefore(docs, email, i + 1);
        }
      }
      r
  }

  /** No document before index `i` has the email. */
  ghost predicate NoneBefore(docs: seq<UserRecord>, email: string, i: int)
    requires 0 <= i <= |docs|
  {
    forall j :: 0 <= j < i ==> docs[j].email != email
  }

  /** At most one document per email. */
  ghost predicate UniqueEmails(docs: seq<UserRecord>) {
    forall i, j :: 0 <= i < j < |docs| ==> docs[i].email != docs[j].email
  }

  /** Appending a document changes a lookup only when nothing with that
      email was stored before. */
  lemma {:induction false} FindAppend(docs: seq<UserRecord>, doc: UserRecord, email: string)
    ensures FindUser(docs + [doc], email) ==
      if FindUser(docs, email).Some? then FindUser(docs, email)
      else if doc.email == email then Some(doc)
      else None
  {
    if docs != [] {
      assert (docs + [doc])[1..] == docs[1..] + [doc];
      FindAppend(docs[1..], doc, email);
    }
  }

  /** The collection after `/register` with the hashed password: one new
      document when the email is fresh, the same documents otherwise. */
  function RegisterStep(docs: seq<UserRecord>, email: string, hashed: string): (r: seq<UserRecord>)
    ensures FindUser(docs, email).Some? ==> r == docs
    ensures FindUser(docs, email).None? ==> r == docs + [UserRecord(email, hashed)]
    ensures FindUser(docs, email).None? ==> FindUser(r, email) == Some(UserRecord(email, hashed))
    ensures FindUser(r, email).Some?
    ensures forall e :: e != email ==> FindUser(r, e) == FindUser(docs, e)
    ensures UniqueEmails(docs) ==> UniqueEmails(r)
  {
    if FindUser(docs, email).Some? then docs
    else
      var r := docs + [UserRecord(email, hashed)];
      FindAppend(docs, UserRecord(email, hashed), email);
      forall e | e != email
        ensures FindUser(r, e) == FindUser(docs, e)
      {
        FindAppend(docs, UserRecord(email, hashed), e);
      }
      r
  }

  /** The `users` collection of the document store. */
  class UserCollection {
    var docs: seq<UserRecord>

    constructor ()
      ensures docs == []
    {
      docs := [];
    }

    /** `insert_one`: the document is added after the existing ones. */
    method InsertOne(doc: UserRecord)
      modifies this
      ensures docs == old(docs) + [doc]
    {
      docs := docs + [doc];
    }
  }

  const EmailAlreadyRegistered := HttpException(400, "Email already registered", map[])

  /** `/register`: look the email up; if it is taken, fail and leave the
      collection alone; otherwise store the email with the hashed password
      and answer with the email alone. */
  method RegisterUser(ctx: AuthContext, users: UserCollection, user: UserIn) returns (r: Result<UserOut>)
    modifies users
    ensures users.docs == RegisterStep(old(users.docs), user.email, ctx.hash(user.password))
    ensures old(FindUser(users.docs, user.email)).Some? ==>
      r == Err(EmailAlreadyRegistered) && users.docs == old(users.docs)
    ensures old(FindUser(users.docs, user.email)).None? ==>
      r == Ok(UserOut(user.email)) && users.docs == old(users.docs) + [UserRecord(user.email, ctx.hash(user.password))]
    ensures UniqueEmails(old(users.docs)) ==> UniqueEmails(users.docs)
  {
    var existing := FindUser(users.docs, user.email);
    if existing.Some? {
      return Err(EmailAlreadyRegistered);
    }
    var hashed := ctx.hash(user.password);
    users.InsertOne(UserRecord(user.email, hashed));
    r := Ok(UserOut(user.email));
  }

  /** The collection after a sequence of `/register` calls, in order. */
  function RegisterAll(ctx: AuthContext, docs: seq<UserRecord>, requests: seq<UserIn>): seq<UserRecord>
    decreases |requests|
  {
    if requests == [] then docs
    else RegisterAll(ctx, RegisterStep(docs, requests[0].email, ctx.hash(requests[0].password)), requests[1..])
  }

  /** Any run of registrations keeps at most one document per email, and
      afterwards every requested email, and every email found before, is
      found. */
  lemma {:induction false} RegisterAllKeepsUnique(ctx: AuthContext, docs: seq<UserRecord>, requests: seq<UserIn>)
    requires UniqueEmails(docs)
    ensures UniqueEmails(RegisterAll(ctx, docs, requests))
    ensures forall e :: FindUser(docs, e).Some? ==> FindUser(RegisterAll(ctx, docs, requests), e).Some?
    ensures forall k :: 0 <= k < |requests| ==> FindUser(RegisterAll(ctx, docs, requests), requests[k].email).Some?
    decreases |requests|
  {
    if requests != [] {
      var next := RegisterStep(docs, requests[0].email, ctx.hash(requests[0].password));
      RegisterAllKeepsUnique(ctx, next, requests[1..]);
      forall k | 0 < k < |requests|
        ensures FindUser(RegisterAll(ctx, docs, requests), requests[k].email).Some?
      {
        assert requests[k] == requests[1..][k - 1];
      }
    }
  }

  /** Registering an email twice: the second attempt finds the first
      document, so it fails and leaves exactly one document for the email. */
  lemma RegisterTwice(docs: seq<UserRecord>, email: string, hashed1: string, hashed2: string)
    requires UniqueEmails(docs)
    ensures var once := RegisterStep(docs, email, hashed1);
      && FindUser(once, email).Some?
      && RegisterStep(once, email, hashed2) == once
      && UniqueEmails(once)
  {
  }

  const IncorrectCredentials := HttpException(400, "Incorrect email or password", map[])

  /** `/login`: an unknown email and a wrong password fail alike; on
      success the token's subject is the email it was issued for. */
  function LoginUser(ctx: AuthContext, docs: seq<UserRecord>, form: LoginForm, now: int): (r: Result<Token>)
    ensures r.Err? <==>
      FindUser(docs, form.username).None? || !ctx.verify(form.password, FindUser(docs, form.username).value.password)
    ensures r.Err? ==> r.error == IncorrectCredentials
    ensures r.Ok? ==> r.value.tokenType == "bearer"
    ensures r.Ok? ==> r.value.accessToken == ctx.encode(AccessTokenClaims(ctx, map["sub" := Str(form.username)], None, now))
  {
    var user := FindUser(docs, form.username);
    if user.None? || !ctx.verify(form.password, user.value.password) then
      Err(IncorrectCredentials)
    else
      Ok(Token(CreateAccessToken(ctx, map["sub" := Str(user.value.email)], None, now), "bearer"))
  }

  /** The claims of a token issued at login: the subject is the email and
      the expiry is the configured lifetime after `now`. */
  lemma LoginClaims(ctx: AuthContext, email: string, now: int)
    ensures var c := AccessTokenClaims(ctx, map["sub" := Str(email)], None, now);
      && c.Keys == {"sub", "exp"}
      && c["sub"] == Str(email)
      && c["exp"] == Int(now + 60 * ExpireMinutes(ctx))
  {
  }

  /** A caller cannot tell an unknown email from a wrong password. */
  lemma LoginFailuresAlike(ctx: AuthContext, docs: seq<UserRecord>, unknown: LoginForm, wrong: LoginForm, now1: int, now2: int)
    requires FindUser(docs, unknown.username).None?
    requires FindUser(docs, wrong.username).Some?
    requires !ctx.verify(wrong.password, FindUser(docs, wrong.username).value.password)
    ensures LoginUser(ctx, docs, unknown, now1) == LoginUser(ctx, docs, wrong, now2) == Err(IncorrectCredentials)
  {
  }

  /** With the hash verifying its own password, registering and then
      logging in succeeds. The login form must carry the email in the
      normalized form registration stored (see `UserIn`). */
  lemma RegisterThenLogin(ctx: AuthContext, docs: seq<UserRecord>, user: UserIn, now: int)
    requires FindUser(docs, user.email).None?
    requires ctx.verify(user.password, ctx.hash(user.password))
    ensures LoginUser(ctx, RegisterStep(docs, user.email, ctx.hash(user.password)), LoginForm(user.email, user.password), now)
      == Ok(Token(ctx.encode(AccessTokenClaims(ctx, map["sub" := Str(user.email)], None, now)), "bearer"))
  {
  }

  const CredentialsException := HttpException(401, "Could not validate credentials.", map["WWW-Authenticate" := "Bearer"])

  /** The `sub` claim of a decoded token, when it is a string. */
  function Subject(payload: Claims): (r: Option<string>)
    ensures r.Some? <==> "sub" in payload && payload["sub"].Str?
    ensures r.Some? ==> payload["sub"] == Str(r.value)
  {
    if "sub" in payload && payload["sub"].Str? then Some(payload["sub"].s) else None
  }

  /** The subject of a token that decodes, if it has one. */
  function TokenSubject(ctx: AuthContext, token: string): (r: Option<string>)
    ensures r.None? <==> ctx.decode(token).None? || Subject(ctx.decode(token).value).None?
    ensures r.Some? ==>
      ctx.decode(token).Some? && "sub" in ctx.decode(token).value && ctx.decode(token).value["sub"] == Str(r.value)
  {
    match ctx.decode(token)
    case None => None
    case Some(payload) => Subject(payload)
  }

  /** `get_current_user`: the stored user the token's subject names. A token
      that does not decode, one without a string `sub`, and one whose
      subject has no document all fail with the same 401. */
  function GetCurrentUser(ctx: AuthContext, docs: seq<UserRecord>, token: string): (r: Result<UserRecord>)
    ensures r.Ok? ==> TokenSubject(ctx, token) == Some(r.value.email) && r.value in docs
    ensures r.Err? ==> r.error == CredentialsException
    ensures r.Err? <==>
      || ctx.decode(token).None?
      || Subject(ctx.decode(token).value).None?
      || forall u :: u in docs ==> u.email != Subject(ctx.decode(token).value).value
  {
    match TokenSubject(ctx, token)
    case None => Err(CredentialsException)
    case Some(email) =>
      match FindUser(docs, email)
      case None => Err(CredentialsException)
      case Some(user) => Ok(user)
  }

  /** `/users/me`: the email of the user the token names, and nothing else. */
  function ReadUsersMe(ctx: AuthContext, docs: seq<UserRecord>, token: string): (r: Result<UserOut>)
    ensures r.Ok? ==> TokenSubject(ctx, token) == Some(r.value.email) && exists u :: u in docs && u.email == r.value.email
    ensures r.Err? ==> r.error == CredentialsException
    ensures r.Ok? <==> GetCurrentUser(ctx, docs, token).Ok?
  {
    match GetCurrentUser(ctx, docs, token)
    case Err(e) => Err(e)
    case Ok(user) => Ok(UserOut(user.email))
  }

  /** A token issued at login, presented while it still decodes to the
      claims it was signed with, names the user who logged in. */
  lemma LoginThenMe(ctx: AuthContext, docs: seq<UserRecord>, form: LoginForm, now: int)
    requires LoginUser(ctx, docs, form, now).Ok?
    requires var c := AccessTokenClaims(ctx, map["sub" := Str(form.username)], None, now);
      ctx.decode(ctx.encode(c)) == Some(c)
    ensures ReadUsersMe(ctx, docs, LoginUser(ctx, docs, form, now).value.accessToken) == Ok(UserOut(form.username))
  {
    LoginClaims(ctx, form.username, now);
  }
}
