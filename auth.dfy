/**
 * Password checking, token issuing and identity resolution. Hashing (bcrypt)
 * and token signing (JWT) are not modelled: they are passed in as the
 * function values of a `Hasher` and a `Jwt`.
 */
module Auth {
  import opened Wrappers
  import opened Errors
  import opened Schemas
  import opened Models

  /** A JSON value a claim can carry. */
  datatype ClaimValue = Str(s: string) | Num(n: int) | Null

  /** A token payload: claim name to value. */
  type Claims = map<string, ClaimValue>

  /** The settings identity handling reads: the default token lifetime. */
  datatype Settings = Settings(accessTokenExpireMinutes: int)

  /**
   * `get_password_hash` and `verify_password`. The second argument of `hash`
   * stands for the random salt bcrypt draws on every call.
   */
  datatype Hasher = Hasher(hash: (string, string) -> string, verify: (string, string) -> bool)

  /**
   * `jwt.encode` and `jwt.decode` with the process-wide key and algorithm.
   * `decode` answers `None` wherever the library raises `JWTError`: a bad
   * signature, a malformed token, an expired `exp`.
   */
  datatype Jwt = Jwt(encode: Claims -> string, decode: string -> Option<Claims>)

  /** A `timedelta(minutes=m)` in seconds. */
  function Minutes(m: int): int
  {
    60 * m
  }

  /**
   * The `exp` instant of a new token. A missing delta and a zero delta (which
   * Python treats as false) both fall back to the configured lifetime; any
   * other delta, negative ones included, is added to `now`.
   */
  function Expiry(expiresDelta: Option<int>, now: Instant, settings: Settings): (exp: Instant)
    ensures expiresDelta.Some? && expiresDelta.value != 0 ==> exp == now + expiresDelta.value
    ensures expiresDelta.None? || expiresDelta.value == 0 ==>
              exp == now + Minutes(settings.accessTokenExpireMinutes)
  {
    match expiresDelta
    case Some(delta) => if delta != 0 then now + delta else now + Minutes(settings.accessTokenExpireMinutes)
    case None => now + Minutes(settings.accessTokenExpireMinutes)
  }

  /**
   * The payload `create_access_token` signs: a copy of `data` with `exp` set.
   * The caller's claims are a value and stay as they were.
   */
  function AccessClaims(data: Claims, expiresDelta: Option<int>, now: Instant, settings: Settings): (c: Claims)
    ensures c.Keys == data.Keys + {"exp"}
    ensures c["exp"] == Num(Expiry(expiresDelta, now, settings))
    ensures forall k :: k in data && k != "exp" ==> c[k] == data[k]
  {
    data["exp" := Num(Expiry(expiresDelta, now, settings))]
  }

  /**
   * `create_access_token`: the signed payload. Decoded by a library that
   * inverts its own encoding, the token carries the caller's claims, its
   * subject unchanged, plus the computed expiry.
   */
  function CreateAccessToken(data: Claims, expiresDelta: Option<int>, now: Instant, settings: Settings, jwt: Jwt): (token: string)
    ensures var c := AccessClaims(data, expiresDelta, now, settings);
            jwt.decode(jwt.encode(c)) == Some(c) ==>
              var p := jwt.decode(token);
              && p.Some?
              && p.value.Keys == data.Keys + {"exp"}
              && p.value["exp"] == Num(Expiry(expiresDelta, now, settings))
              && Subject(p.value) == Subject(data)
              && forall k :: k in data && k != "exp" ==> p.value[k] == data[k]
  {
    jwt.encode(AccessClaims(data, expiresDelta, now, settings))
  }

  /**
   * `payload.get("sub")` followed by the `is None` test: a missing claim and a
   * JSON null both read as no subject; any other value is the subject.
   */
  function Subject(payload: Claims): (r: Option<ClaimValue>)
    ensures r.None? <==> "sub" !in payload || payload["sub"] == Null
    ensures r.Some? ==> r.value == payload["sub"] && r.value != Null
  {
    if "sub" in payload && payload["sub"] != Null then Some(payload["sub"]) else None
  }

  /**
   * The check python-jose's `jwt.decode` makes by default (`verify_sub`): a
   * payload it returns has no `sub`, or a string one; any other value raises
   * `JWTClaimsError`, a `JWTError`, which is `decode` answering `None`.
   */
  ghost predicate ChecksSubject(jwt: Jwt)
  {
    forall token :: jwt.decode(token).Some? && "sub" in jwt.decode(token).value ==>
                      jwt.decode(token).value["sub"].Str?
  }

  /**
   * `get_current_user`: the user a bearer token names. A token that does not
   * decode, a payload without a subject and a subject no user has all give the
   * one credentials error. A subject that is a number would fail the
   * `TokenData` schema, whose error the handler does not catch; python-jose
   * refuses such a token itself (see `ChecksSubject`), so that branch is
   * reached only with a decoder that does not check the claim's type.
   */
  function GetCurrentUser(token: string, users: map<int, UserRow>, jwt: Jwt): (r: Result<UserRow, Error>)
    ensures r == Err(Unauthenticated) <==>
              || jwt.decode(token).None?
              || Subject(jwt.decode(token).value).None?
              || (Subject(jwt.decode(token).value).value.Str? &&
                  !EmailTaken(users, Subject(jwt.decode(token).value).value.s))
    ensures r == Err(ServerFault) <==>
              jwt.decode(token).Some? && Subject(jwt.decode(token).value).Some? &&
              Subject(jwt.decode(token).value).value.Num?
    ensures r.Err? ==> r.error == Unauthenticated || r.error == ServerFault
    ensures r.Ok? ==> r.value in users.Values &&
                      Subject(jwt.decode(token).value) == Some(Str(r.value.email))
  {
    match jwt.decode(token)
    case None => Err(Unauthenticated)
    case Some(payload) =>
      match Subject(payload)
      case None => Err(Unauthenticated)
      case Some(Num(_)) => Err(ServerFault)
      case Some(Str(email)) =>
        var tokenData := TokenData(Some(email));
        match UserByEmail(users, tokenData.email.value)
        case None => Err(Unauthenticated)
        case Some(user) => Ok(user)
  }

  /**
   * With a decoder that checks the type of `sub`, as python-jose does, the
   * server-fault branch is never taken: every failure is the credentials error.
   */
  lemma CheckedSubjectNeverFaults(token: string, users: map<int, UserRow>, jwt: Jwt)
    requires ChecksSubject(jwt)
    ensures GetCurrentUser(token, users, jwt).Err? ==> GetCurrentUser(token, users, jwt).error == Unauthenticated
  {
  }

  /**
   * `get_current_active_user`: the `is_active` check is commented out in the
   * source, so every resolved user passes through unchanged, inactive or not.
   */
  function GetCurrentActiveUser(user: UserRow): (r: Result<UserRow, Error>)
    ensures r == Ok(user)
  {
    Ok(user)
  }

  /**
   * The identity every protected handler receives: resolution followed by the
   * activity check.
   */
  function Authenticate(token: string, users: map<int, UserRow>, jwt: Jwt): (r: Result<UserRow, Error>)
    ensures r == GetCurrentUser(token, users, jwt)
    ensures r.Ok? ==> jwt.decode(token).Some? && Subject(jwt.decode(token).value) == Some(Str(r.value.email))
    ensures r.Ok? && KeyedById(users) ==> r.value.id in users && users[r.value.id] == r.value
    ensures r.Err? ==> r.error == Unauthenticated || r.error == ServerFault
  {
    match GetCurrentUser(token, users, jwt)
    case Err(e) => Err(e)
    case Ok(user) => GetCurrentActiveUser(user)
  }
}
