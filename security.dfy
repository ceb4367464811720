/** Access tokens: the claims an issued token carries (the registered claims `sub`,
    `iat` and `exp` of section 4.1 of RFC 7519, plus a private `role` claim), signed
    with HMAC SHA-256 (`HS256`, section 3.2 of RFC 7518), and the bearer gate of
    section 2.1 of RFC 6750 that protected routes run before their handler.
    Encoding, signing and verification are the JWT library's; they are given here
    as the opaque functions of a `Codec`. */
module Security {
  import opened Results

  /** The one signature algorithm used for issuing and accepted for verifying. */
  const JwtAlg: string := "HS256"
  /** The signing secret used when the environment supplies none. */
  const DefaultSecret: string := "CHANGE_ME"
  /** Token lifetime in minutes when the environment supplies none. */
  const DefaultAccessMin: int := 120
  /** The role given to a token that carries no `role` claim. */
  const DefaultRole: string := "ROLE_USER"

  /** Process-wide settings read once from the environment. */
  datatype Config = Config(secret: string, accessMin: int)

  const DefaultConfig: Config := Config(DefaultSecret, DefaultAccessMin)

  /** A token payload. A decoded payload need not carry every claim, so each
      may be absent. */
  datatype Claims = Claims(sub: Option<string>, role: Option<string>, iat: Option<int>, exp: Option<int>)

  /** The JWT library. `encode(claims, key, alg)` signs; `decode(token, key, algs, now)`
      checks the signature against `key`, accepts only the algorithms in `algs`, checks
      expiry against the clock `now`, and yields `None` where the library raises its
      `JWTError`. */
  datatype Codec = Codec(
    encode: (Claims, string, string) -> string,
    decode: (string, string, seq<string>, int) -> Option<Claims>)

  /** What issuing and verifying need: the settings and the library. */
  datatype Tokens = Tokens(config: Config, codec: Codec)

  /** Who made a request, as handed to the handlers behind the gate. */
  datatype Identity = Identity(userId: string, role: string)

  /** Python's `int(t)` on a timestamp: truncation toward zero. */
  function Seconds(t: real): (s: int)
    ensures 0.0 <= t ==> s as real <= t < s as real + 1.0
    ensures t < 0.0 ==> s as real - 1.0 < t <= s as real
  {
    if 0.0 <= t then t.Floor else -((-t).Floor)
  }

  /** Adding a whole number of seconds to a non-negative clock, and staying
      non-negative, adds the same number to its truncation. */
  lemma SecondsShift(t: real, n: int)
    requires 0.0 <= t && 0.0 <= t + n as real
    ensures Seconds(t + n as real) == Seconds(t) + n
  {
  }

  /** The payload of a token issued at wall-clock time `now` (seconds since the
      epoch) for `userId` with `role`. */
  function AccessClaims(config: Config, now: real, userId: string, role: string): (c: Claims)
    ensures c.sub == Some(userId) && c.role == Some(role)
    ensures c.iat.Some? && c.exp.Some?
    ensures c.iat == Some(Seconds(now))
    ensures 0.0 <= now && 0 <= config.accessMin ==> c.exp.value == c.iat.value + 60 * config.accessMin
    ensures Identify(c) == Ok(Identity(userId, role))
  {
    var ttl := 60 * config.accessMin;
    assert 0.0 <= now && 0 <= config.accessMin ==> Seconds(now + ttl as real) == Seconds(now) + ttl by {
      if 0.0 <= now && 0 <= config.accessMin { SecondsShift(now, ttl); }
    }
    Claims(Some(userId), Some(role), Some(Seconds(now)), Some(Seconds(now + ttl as real)))
  }

  /** The access token issued for `userId` with `role`: the claims above, signed
      with the configured secret under the pinned algorithm. Under a sound library
      the gate's check opens it as exactly those claims up to its `exp` second, and
      refuses it from then on. */
  function MakeAccessToken(tokens: Tokens, now: real, userId: string, role: string): (t: string)
    ensures var c := AccessClaims(tokens.config, now, userId, role);
      Ideal(tokens.codec) ==>
        forall clock: int :: Verify(tokens, t, clock) == if clock <= c.exp.value then Some(c) else None
  {
    tokens.codec.encode(AccessClaims(tokens.config, now, userId, role), tokens.config.secret, JwtAlg)
  }

  /** The identity a verified payload stands for. Reading `sub` from a payload that
      lacks it raises `KeyError`, which the gate does not catch. */
  function Identify(p: Claims): (r: Result<Identity>)
    ensures r.Ok? <==> p.sub.Some?
    ensures r.Err? ==> r.failure == Uncaught("KeyError")
    ensures r.Ok? ==> r.value.userId == p.sub.value
    ensures r.Ok? && p.role.Some? ==> r.value.role == p.role.value
    ensures r.Ok? && p.role.None? ==> r.value.role == DefaultRole
  {
    match p.sub
    case None => Err(Uncaught("KeyError"))
    case Some(sub) => Ok(Identity(sub, p.role.GetOr(DefaultRole)))
  }

  /** What the library makes of `token` under the configured secret with only the
      pinned algorithm accepted. Under a sound library a token yields its claims
      exactly when it was signed with the configured secret under `HS256` and has
      not expired. */
  function Verify(tokens: Tokens, token: string, now: int): (r: Option<Claims>)
    ensures Ideal(tokens.codec) ==>
      forall c: Claims, key: string, alg: string | token == tokens.codec.encode(c, key, alg) ::
        r == if key == tokens.config.secret && alg == JwtAlg && (c.exp.None? || now <= c.exp.value) then Some(c) else None
  {
    tokens.codec.decode(token, tokens.config.secret, [JwtAlg], now)
  }

  /** The bearer gate. `creds` is the credential of an `Authorization: Bearer` header;
      `None` when the header is absent or is not a bearer credential. */
  function CurrentUser(tokens: Tokens, creds: Option<string>, now: int): (r: Result<Identity>)
    ensures creds.None? <==> r == Err(HttpError(401, "missing token"))
    ensures creds.Some? && Verify(tokens, creds.value, now).None? <==> r == Err(HttpError(401, "invalid token"))
    ensures creds.Some? && Verify(tokens, creds.value, now).Some? ==> r == Identify(Verify(tokens, creds.value, now).value)
    ensures r.Err? && r.failure.HttpError? ==> r.failure.status == 401
    ensures r.Ok? ==> creds.Some? && Verify(tokens, creds.value, now).Some?
  {
    match creds
    case None => Err(HttpError(401, "missing token"))
    case Some(token) =>
      match Verify(tokens, token, now)
      case None => Err(HttpError(401, "invalid token"))
      case Some(payload) => Identify(payload)
  }

  /** An idealised JWT library: decoding a token yields exactly the claims it was
      encoded from when the key is the signing key, the token's algorithm is among
      those accepted and the token has not expired (`exp` is checked only when
      present, and a token is still valid at its `exp` second); otherwise decoding
      fails. Used only as an assumption of the lemmas below. */
  ghost predicate Ideal(codec: Codec) {
    forall c: Claims, key: string, alg: string, key': string, algs: seq<string>, now: int ::
      codec.decode(codec.encode(c, key, alg), key', algs, now)
      == if key == key' && alg in algs && (c.exp.None? || now <= c.exp.value) then Some(c) else None
  }

  /** A token the service issued at `issued` passes the gate at every clock up to its
      expiry, as the identity it was issued for. */
  lemma IssuedTokenAccepted(tokens: Tokens, issued: real, now: int, userId: string, role: string)
    requires Ideal(tokens.codec)
    requires now <= AccessClaims(tokens.config, issued, userId, role).exp.value
    ensures CurrentUser(tokens, Some(MakeAccessToken(tokens, issued, userId, role)), now) == Ok(Identity(userId, role))
  {
    var c := AccessClaims(tokens.config, issued, userId, role);
    assert Verify(tokens, MakeAccessToken(tokens, issued, userId, role), now) == Some(c);
  }

  /** After its expiry the same token is refused as invalid. */
  lemma ExpiredTokenRejected(tokens: Tokens, issued: real, now: int, userId: string, role: string)
    requires Ideal(tokens.codec)
    requires AccessClaims(tokens.config, issued, userId, role).exp.value < now
    ensures CurrentUser(tokens, Some(MakeAccessToken(tokens, issued, userId, role)), now) == Err(HttpError(401, "invalid token"))
  {
    var c := AccessClaims(tokens.config, issued, userId, role);
    assert Verify(tokens, MakeAccessToken(tokens, issued, userId, role), now) == None;
  }

  /** With the default lifetime, a token issued at a non-negative clock is accepted
      for exactly 7200 seconds after its `iat` and refused after. */
  lemma DefaultLifetime(codec: Codec, issued: real, now: int, userId: string, role: string)
    requires Ideal(codec)
    requires 0.0 <= issued
    ensures var tokens := Tokens(DefaultConfig, codec);
      CurrentUser(tokens, Some(MakeAccessToken(tokens, issued, userId, role)), now).Ok?
      <==> now <= Seconds(issued) + 7200
  {
    var tokens := Tokens(DefaultConfig, codec);
    if now <= Seconds(issued) + 7200 {
      IssuedTokenAccepted(tokens, issued, now, userId, role);
    } else {
      ExpiredTokenRejected(tokens, issued, now, userId, role);
    }
  }

  /** A token signed with any other key is refused as invalid, whatever it claims. */
  lemma ForeignKeyRejected(tokens: Tokens, c: Claims, key: string, alg: string, now: int)
    requires Ideal(tokens.codec)
    requires key != tokens.config.secret
    ensures CurrentUser(tokens, Some(tokens.codec.encode(c, key, alg)), now) == Err(HttpError(401, "invalid token"))
  {
    assert Verify(tokens, tokens.codec.encode(c, key, alg), now) == None;
  }

  /** The algorithm is pinned by the gate, not read from the token: a token made
      under any other algorithm (`none` included) is refused even with the right key. */
  lemma OtherAlgorithmRejected(tokens: Tokens, c: Claims, alg: string, now: int)
    requires Ideal(tokens.codec)
    requires alg != JwtAlg
    ensures CurrentUser(tokens, Some(tokens.codec.encode(c, tokens.config.secret, alg)), now) == Err(HttpError(401, "invalid token"))
  {
    assert Verify(tokens, tokens.codec.encode(c, tokens.config.secret, alg), now) == None;
  }

  /** A correctly signed, unexpired payload without `sub` is not answered with a 401:
      the `KeyError` escapes the gate. */
  lemma MissingSubEscapes(tokens: Tokens, c: Claims, now: int)
    requires Ideal(tokens.codec)
    requires c.sub.None? && (c.exp.None? || now <= c.exp.value)
    ensures CurrentUser(tokens, Some(tokens.codec.encode(c, tokens.config.secret, JwtAlg)), now) == Err(Uncaught("KeyError"))
  {
    assert Verify(tokens, tokens.codec.encode(c, tokens.config.secret, JwtAlg), now) == Some(c);
  }
}
