/**
 * The authentication service (internal/auth/auth.go): API keys for the data API and
 * JWTs for the admin API. Signing, serialising and parsing tokens and reading random
 * bytes belong to libraries outside this model; they are parameters here, and the
 * lemmas say what they rely on about them.
 */
module Auth {
  import opened Wrappers
  import opened Clock
  import opened Rfc3339
  import opened Base64Url
  import opened Store
  import opened ApiKeys

  /** What a middleware does with a request: pass it on (with a user id, for JWTs) or answer with a status. */
  datatype Gate = Allow | AllowAs(userId: int) | Deny(status: int)

  const StatusUnauthorized := 401
  const StatusInternalServerError := 500

  /** The API key of a request: the X-API-Key header, or the api_key query parameter when the header is empty. */
  function ExtractApiKey(header: string, query: string): (key: string)
    ensures header != "" ==> key == header
    ensures header == "" ==> key == query
    ensures key == "" <==> header == "" && query == ""
  {
    if header != "" then header else query
  }

  /**
   * AuthMiddleware's decision once the key is known: no key is 401, a failing lookup
   * is 500, an invalid key is 401, a valid one passes.
   */
  function AuthDecision(key: string, validated: Result<bool, DbError>): (g: Gate)
    ensures g == Allow <==> key != "" && validated == Success(true)
    ensures g == Deny(StatusInternalServerError) <==> key != "" && validated.Failure?
    ensures g == Allow || g == Deny(StatusUnauthorized) || g == Deny(StatusInternalServerError)
  {
    if key == "" then Deny(StatusUnauthorized)
    else match validated
      case Failure(_) => Deny(StatusInternalServerError)
      case Success(valid) => if valid then Allow else Deny(StatusUnauthorized)
  }

  /** AuthMiddleware against the api_keys table: a request passes exactly when its key is known and live. */
  method AuthMiddleware(keys: ApiKeyTable, header: string, query: string, now: Time) returns (g: Gate)
    requires keys.Valid()
    ensures g == Allow <==> ExtractApiKey(header, query) != "" && KeyValid(keys.rows, ExtractApiKey(header, query), now)
    ensures g != Allow ==> g == Deny(StatusUnauthorized)
  {
    var key := ExtractApiKey(header, query);
    if key == "" {
      return Deny(StatusUnauthorized);
    }
    var valid := keys.ValidateAPIKey(key, now);
    g := AuthDecision(key, Success(valid));
  }

  /* ---------------------------------------------------------------------------- */

  /** strings.Split(s, " "): the pieces between single spaces, empty ones included. */
  function Split(s: string): (parts: seq<string>)
    ensures |parts| >= 1
    ensures forall i :: 0 <= i < |parts| ==> ' ' !in parts[i]
    decreases |s|
  {
    if ' ' !in s then [s]
    else
      var i := FirstSpace(s);
      [s[..i]] + Split(s[i + 1..])
  }

  /** The index of the first space of s. */
  function FirstSpace(s: string): (i: nat)
    requires ' ' in s
    ensures i < |s| && s[i] == ' ' && ' ' !in s[..i]
  {
    if s[0] == ' ' then 0
    else
      var i := 1 + FirstSpace(s[1..]);
      assert s[..i] == [s[0]] + s[1..][..i - 1];
      i
  }

  /** strings.Join(parts, " "). */
  function Join(parts: seq<string>): string
    requires |parts| >= 1
  {
    if |parts| == 1 then parts[0] else parts[0] + " " + Join(parts[1..])
  }

  /** Splitting loses nothing: joining the pieces with spaces gives the string back. */
  lemma {:induction false} JoinSplit(s: string)
    ensures Join(Split(s)) == s
    decreases |s|
  {
    if ' ' in s {
      var i := FirstSpace(s);
      JoinSplit(s[i + 1..]);
      assert Split(s)[1..] == Split(s[i + 1..]);
      assert s == s[..i] + " " + s[i + 1..];
    }
  }

  /** JWTMiddleware's header check: exactly two pieces, the first one "Bearer". */
  function ParseBearer(header: string): (token: Option<string>)
    ensures token.Some? ==> ' ' !in token.value
    ensures ' ' !in header ==> token.None?
  {
    var parts := Split(header);
    if |parts| == 2 && parts[0] == "Bearer" then Some(parts[1]) else None
  }

  /** The header is accepted exactly when it is "Bearer ", then a token without spaces. */
  lemma BearerIff(header: string, token: string)
    ensures ParseBearer(header) == Some(token) <==> header == "Bearer " + token && ' ' !in token
  {
    if ParseBearer(header) == Some(token) {
      JoinSplit(header);
      assert Split(header)[1..] == [token];
    }
    if header == "Bearer " + token && ' ' !in token {
      assert ' ' in header by { assert header[6] == ' '; }
      assert FirstSpace(header) == 6 by {
        assert ' ' !in header[..6] by { assert header[..6] == "Bearer"; }
      }
      assert header[7..] == token;
      assert header[..6] == "Bearer";
      assert Split(token) == [token];
      assert Split(header) == [header[..6]] + Split(header[7..]);
    }
  }

  /* ---------------------------------------------------------------------------- */

  /** The signing methods a token header can name; only the HMAC family is accepted. */
  datatype SigningMethod = Hmac(bits: nat) | Other(name: string)

  /** The HS256 method GenerateJWT signs with. */
  const HS256 := Hmac(256)

  /** The claims: the user id and the standard time claims in Unix seconds, 0 meaning absent. */
  datatype Claims = Claims(userId: int, expiresAt: int, issuedAt: int, notBefore: int)

  /** A token as its header, claims and signature say, before any check. */
  datatype Jwt = Jwt(alg: SigningMethod, claims: Claims, signature: string)

  datatype JwtError = Malformed | UnexpectedSigningMethod | ClaimsInvalid | SignatureInvalid

  /** StandardClaims.Valid: not expired (exp >= now), issued and usable by now; absent claims always pass. */
  predicate ClaimsValid(c: Claims, nowUnix: int) {
    (c.expiresAt == 0 || nowUnix <= c.expiresAt)
    && (c.issuedAt == 0 || nowUnix >= c.issuedAt)
    && (c.notBefore == 0 || nowUnix >= c.notBefore)
  }

  /**
   * GenerateJWT: HS256 over the user id with an expiry TokenDuration minutes from now.
   * The duration is an int64 count of nanoseconds, so the multiplication wraps around.
   */
  function ExpiryOf(now: Time, tokenDurationMinutes: int): (exp: int)
    ensures ToUnix(now) - MaxDurationSeconds - 1 <= exp <= ToUnix(now) + MaxDurationSeconds
  {
    var d := Wrap64(Wrap64(tokenDurationMinutes) * 60 * NanosPerSecond);
    DurationSeconds(d);
    ToUnix(AddDuration(now, d))
  }

  /** Without overflow, the token expires TokenDuration minutes after now. */
  lemma ExpiryNoOverflow(now: Time, tokenDurationMinutes: int)
    requires InInt64(tokenDurationMinutes * 60 * NanosPerSecond)
    ensures ExpiryOf(now, tokenDurationMinutes) == ToUnix(now) + tokenDurationMinutes * 60
  {
    var d := tokenDurationMinutes;
    assert InInt64(d) by {
      if d > 0 { assert d <= d * 60 * NanosPerSecond; }
      if d < 0 { assert d * 60 * NanosPerSecond <= d; }
    }
    assert (d * 60 * NanosPerSecond) / NanosPerSecond == d * 60;
  }

  /**
   * GenerateJWT's token: an HS256 token whose claims carry the user id and the expiry and
   * no other time claim, signed with what the mac oracle gives for them and the secret.
   */
  function GenerateJWT(userId: int, now: Time, tokenDurationMinutes: int, secret: string,
                       mac: (SigningMethod, string, Claims) -> string,
                       serialize: Jwt -> string): (token: string)
    ensures exists j ::
              token == serialize(j) && j.alg == HS256
              && j.claims == Claims(userId, ExpiryOf(now, tokenDurationMinutes), 0, 0)
              && j.signature == mac(HS256, secret, j.claims)
  {
    var claims := Claims(userId, ExpiryOf(now, tokenDurationMinutes), 0, 0);
    serialize(Jwt(HS256, claims, mac(HS256, secret, claims)))
  }

  /**
   * ValidateJWT: a token that does not parse, names a method outside the HMAC family,
   * carries claims that are no longer (or not yet) valid, or whose signature is not the
   * one the secret gives, is refused; otherwise its claims are returned.
   */
  function ValidateJWT(token: string, secret: string, now: Time,
                       parse: string -> Option<Jwt>,
                       mac: (SigningMethod, string, Claims) -> string): (r: Result<Claims, JwtError>)
    ensures r.Success? <==>
      parse(token).Some? && parse(token).value.alg.Hmac? && ClaimsValid(parse(token).value.claims, ToUnix(now))
      && parse(token).value.signature == mac(parse(token).value.alg, secret, parse(token).value.claims)
    ensures r.Success? ==> r.value == parse(token).value.claims
  {
    match parse(token)
    case None => Failure(Malformed)
    case Some(jwt) =>
      if !jwt.alg.Hmac? then Failure(UnexpectedSigningMethod)
      else if !ClaimsValid(jwt.claims, ToUnix(now)) then Failure(ClaimsInvalid)
      else if jwt.signature != mac(jwt.alg, secret, jwt.claims) then Failure(SignatureInvalid)
      else Success(jwt.claims)
  }

  /**
   * A token this service issued validates, up to and including its expiry second,
   * giving back the user id, provided the parser reads back what the serialiser wrote.
   */
  lemma GenerateValidate(userId: int, issued: Time, tokenDurationMinutes: int, secret: string, now: Time,
                         mac: (SigningMethod, string, Claims) -> string,
                         serialize: Jwt -> string, parse: string -> Option<Jwt>)
    requires forall j :: parse(serialize(j)) == Some(j)
    requires ExpiryOf(issued, tokenDurationMinutes) != 0
    ensures var r := ValidateJWT(GenerateJWT(userId, issued, tokenDurationMinutes, secret, mac, serialize), secret, now, parse, mac);
      (r.Success? <==> ToUnix(now) <= ExpiryOf(issued, tokenDurationMinutes))
      && (r.Success? ==> r.value.userId == userId)
  {
    var claims := Claims(userId, ExpiryOf(issued, tokenDurationMinutes), 0, 0);
    var jwt := Jwt(HS256, claims, mac(HS256, secret, claims));
    assert parse(serialize(jwt)) == Some(jwt);
  }

  /** A token signed with another secret is refused whenever the mac tells the secrets apart. */
  lemma OtherSecretRefused(userId: int, issued: Time, tokenDurationMinutes: int, secret: string, other: string, now: Time,
                           mac: (SigningMethod, string, Claims) -> string,
                           serialize: Jwt -> string, parse: string -> Option<Jwt>)
    requires forall j :: parse(serialize(j)) == Some(j)
    requires forall c :: mac(HS256, secret, c) != mac(HS256, other, c)
    ensures ValidateJWT(GenerateJWT(userId, issued, tokenDurationMinutes, other, mac, serialize), secret, now, parse, mac).Failure?
  {
    var claims := Claims(userId, ExpiryOf(issued, tokenDurationMinutes), 0, 0);
    var jwt := Jwt(HS256, claims, mac(HS256, other, claims));
    assert parse(serialize(jwt)) == Some(jwt);
  }

  /**
   * JWTMiddleware: no header, a header not of the form "Bearer <token>", or a token
   * ValidateJWT refuses is 401; otherwise the request passes with the token's user id.
   */
  function JwtGate(header: string, secret: string, now: Time,
                   parse: string -> Option<Jwt>,
                   mac: (SigningMethod, string, Claims) -> string): (g: Gate)
    ensures g.AllowAs? <==> exists token :: header == "Bearer " + token && ' ' !in token
                                         && ValidateJWT(token, secret, now, parse, mac).Success?
    ensures g.AllowAs? ==>
      ParseBearer(header).Some? && ValidateJWT(ParseBearer(header).value, secret, now, parse, mac).Success?
      && g.userId == ValidateJWT(ParseBearer(header).value, secret, now, parse, mac).value.userId
    ensures !g.AllowAs? ==> g == Deny(StatusUnauthorized)
  {
    if header == "" then Deny(StatusUnauthorized)
    else match ParseBearer(header)
      case None =>
        assert forall token :: !(header == "Bearer " + token && ' ' !in token) by {
          forall token ensures !(header == "Bearer " + token && ' ' !in token) { BearerIff(header, token); }
        }
        Deny(StatusUnauthorized)
      case Some(token) =>
        BearerIff(header, token);
        assert forall t :: header == "Bearer " + t && ' ' !in t ==> t == token by {
          forall t | header == "Bearer " + t && ' ' !in t ensures t == token { BearerIff(header, t); }
        }
        match ValidateJWT(token, secret, now, parse, mac)
        case Failure(_) => Deny(StatusUnauthorized)
        case Success(claims) => AllowAs(claims.userId)
  }

  /* ---------------------------------------------------------------------------- */

  datatype KeyError = RandomSourceFailed | StoreFailed(error: DbError)

  /**
   * generateRandomString: fills a buffer of `length` bytes from the system's random
   * source (`read`: the bytes it delivers, or None when it fails) and encodes it as
   * padded base64url.
   */
  method GenerateRandomString(length: nat, read: Option<seq<byte>>) returns (r: Result<string, KeyError>)
    requires read.Some? ==> |read.value| == length
    ensures r.Success? <==> read.Some?
    ensures r.Failure? ==> r.error == RandomSourceFailed
    ensures r.Success? ==> r.value == Encode(read.value) && Decode(r.value) == Some(read.value)
  {
    if read.None? {
      return Failure(RandomSourceFailed);
    }
    var b := new byte[length];
    var i := 0;
    while i < length
      invariant 0 <= i <= length
      invariant b[..i] == read.value[..i]
    {
      b[i] := read.value[i];
      i := i + 1;
    }
    assert b[..] == read.value;
    DecodeEncode(b[..]);
    r := Success(Encode(b[..]));
  }

  /**
   * time.Now().AddDate(0, 0, days) in UTC: the same time of day, `days` calendar days
   * later. time.Date counts the seconds since year 1 in 64 bits, so the instant wraps
   * around modulo 2^64.
   */
  function AddDays(now: Time, days: int): Time {
    Wrap64(now + days * SecondsPerDay)
  }

  /**
   * 2^57 days are 675 * 2^64 seconds, so a request for that many days, a valid Go int,
   * gets an expiry of exactly now, and one day fewer an expiry of yesterday.
   */
  lemma WrappedExpiry(now: Time)
    requires InInt64(now) && InInt64(now - SecondsPerDay)
    ensures AddDays(now, 0x200_0000_0000_0000) == now
    ensures AddDays(now, 0x200_0000_0000_0000 - 1) == now - SecondsPerDay
  {
    var days := 0x200_0000_0000_0000;
    assert days * SecondsPerDay == 675 * TwoTo64;
    WrapShift(now, 675);
    WrapShift(now - SecondsPerDay, 675);
  }

  /** Adding a multiple of 2^64 to an int64 value wraps back to it. */
  lemma WrapShift(x: int, k: int)
    requires InInt64(x)
    ensures Wrap64(x + k * TwoTo64) == x
  {
    var r := Wrap64(x + k * TwoTo64);
    var q := (r - x - k * TwoTo64) / TwoTo64;
    assert r - x == (q + k) * TwoTo64;
  }

  /**
   * The expiry GenerateAPIKey writes is one the store can read back: none, or an instant
   * from year 1 up to year 9999. A wrapped instant before year 1 is refused.
   */
  predicate ExpiryParses(now: Time, days: int) {
    days <= 0 || (AddDays(now, days) >= 0 && YearOfTime(AddDays(now, days)) <= 9999)
  }

  /**
   * What the store makes of the RFC 3339 text of an expiry instant: exactly that
   * instant, except past year 9999, whose five-digit year the parser refuses.
   */
  lemma ExpiryStored(t: Time)
    requires t >= 0
    ensures YearOfTime(t) <= 9999 ==> ParsedExpiry(Some(Format(t))) == Some(t) && StoredExpiry(Some(Format(t))) == Some(t)
    ensures YearOfTime(t) > 9999 ==> ParsedExpiry(Some(Format(t))) == None
  {
    ParseFormat(t);
    FormatWallClock(t);
  }

  /**
   * GenerateAPIKey: a fresh 32-byte key, stored with the description and, for a positive
   * number of days, the expiry that many days from now; the key is returned only when
   * the store accepted it.
   */
  method GenerateAPIKey(keys: ApiKeyTable, description: string, expiryDays: int, now: Time, read: Option<seq<byte>>)
    returns (r: Result<string, KeyError>)
    requires keys.Valid() && now >= 0
    requires read.Some? ==> |read.value| == 32
    modifies keys
    ensures keys.Valid()
    ensures read.None? ==> r == Failure(RandomSourceFailed) && keys.rows == old(keys.rows) && keys.nextId == old(keys.nextId)
    ensures read.Some? && !ExpiryParses(now, expiryDays) ==>
      r == Failure(StoreFailed(InvalidTimestamp)) && keys.rows == old(keys.rows) && keys.nextId == old(keys.nextId)
    ensures read.Some? && ExpiryParses(now, expiryDays) && HasKey(old(keys.rows), Encode(read.value)) ==>
      r == Failure(StoreFailed(UniqueViolation)) && keys.rows == old(keys.rows) && keys.nextId == old(keys.nextId) + 1
    ensures read.Some? && ExpiryParses(now, expiryDays) && !HasKey(old(keys.rows), Encode(read.value)) ==>
      r.Success? && keys.nextId == old(keys.nextId) + 1
    ensures r.Success? ==>
      read.Some? && r.value == Encode(read.value) && |r.value| == 44
      && var id := old(keys.nextId);
      keys.rows == old(keys.rows)[id := ApiKey(id, r.value, description, now,
                                               if expiryDays > 0 then AddDays(now, expiryDays) else ZeroTime,
                                               true, None)]
  {
    var key := GenerateRandomString(32, read);
    if key.Failure? {
      return Failure(key.error);
    }
    KeyShape(read.value);
    var expiresAt: Option<string> := None;
    if expiryDays > 0 {
      var t := AddDays(now, expiryDays);
      if t < 0 {
        // Go writes a year below 0 with a '-' sign, which the store's parser refuses.
        return Failure(StoreFailed(InvalidTimestamp));
      }
      ExpiryStored(t);
      expiresAt := Some(Format(t));
    }
    var stored := keys.CreateAPIKey(key.value, description, expiresAt, now);
    if stored.Failure? {
      return Failure(StoreFailed(stored.error));
    }
    r := Success(key.value);
  }
}
