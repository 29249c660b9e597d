/** middleware/auth_middleware.go: the bearer-token check chain, the role
    gate, and token issuance. JWT signing and parsing are library calls and
    appear here as function parameters; the environment is a map; the clock
    is a `now` parameter in Unix seconds. */
module Middleware {
  import opened Results
  import opened Models
  import opened UserService

  const StatusUnauthorized: int := 401
  const StatusForbidden: int := 403

  const MissingHeader: string := "missing authorization header"
  const InvalidHeader: string := "invalid authorization header"
  const InvalidToken: string := "invalid token"
  const InvalidClaims: string := "invalid token claims"
  const NotAuthenticated: string := "not authenticated"
  const InsufficientPrivileges: string := "insufficient privileges"

  /** The context key under which the resolved user is stored. */
  const CurrentUserKey: string := "currentUser"

  const PlaceholderSecret: string := "replace_with_secure_secret"

  // ---------------------------------------------------------------------
  // Environment

  /** The process environment; `os.Getenv` yields "" for an unset name. */
  type Env = map<string, string>

  function Getenv(env: Env, name: string): string {
    if name in env then env[name] else ""
  }

  /** `getSecret`: the JWT_SECRET variable when it is set and non-empty,
      otherwise the fixed placeholder. The secret is never empty. */
  function GetSecret(env: Env): (secret: string)
    ensures Getenv(env, "JWT_SECRET") != "" ==> secret == Getenv(env, "JWT_SECRET")
    ensures Getenv(env, "JWT_SECRET") == "" ==> secret == PlaceholderSecret
    ensures secret != ""
  {
    var s := Getenv(env, "JWT_SECRET");
    if s != "" then s else PlaceholderSecret
  }

  // ---------------------------------------------------------------------
  // Claims and token issuance

  /** `Claims`: the user's identity plus the registered time claims, in Unix
      seconds (the precision `jwt.NewNumericDate` keeps). */
  datatype Claims = Claims(userId: int, username: string, role: string,
                           issuedAt: int, notBefore: int, expiresAt: int)

  /** `SignedString` with HS256: claims and secret to a token, or an error. */
  type Signer = (Claims, string) -> Result<string>

  /** What a `time.Duration` counts: nanoseconds. */
  const Second: int := 1_000_000_000
  const Hour: int := 3600 * Second

  /** The claims `GenerateToken` signs for user `u`, issued at `now` with a
      lifetime of `ttl` nanoseconds. */
  function TokenClaims(u: User, ttl: int, now: int): (c: Claims)
    ensures c.userId == u.id && c.username == u.username && c.role == u.role
    ensures c.issuedAt == now && c.notBefore == now
    ensures c.expiresAt == now + ttl / Second
  {
    Claims(u.id, u.username, u.role, now, now, now + ttl / Second)
  }

  /** `GenerateToken`: sign `TokenClaims(u, ttl, now)` with `getSecret()`. */
  function GenerateToken(u: User, ttl: int, now: int, env: Env, sign: Signer): (r: Result<string>)
    ensures Getenv(env, "JWT_SECRET") != "" ==>
      r == sign(Claims(u.id, u.username, u.role, now, now, now + ttl / Second), Getenv(env, "JWT_SECRET"))
    ensures Getenv(env, "JWT_SECRET") == "" ==>
      r == sign(Claims(u.id, u.username, u.role, now, now, now + ttl / Second), PlaceholderSecret)
  {
    sign(TokenClaims(u, ttl, now), GetSecret(env))
  }

  /** A token is valid at time t when its issue time and its not-before have
      passed and its expiry has not (the time checks jwt v4 makes on the
      registered claims when parsing). */
  predicate ValidAt(c: Claims, t: int) {
    c.issuedAt <= t && c.notBefore <= t < c.expiresAt
  }

  /** Claims issued at `now` with a lifetime of at least one second are
      valid exactly from `now` up to, not including, `now + ttl/Second`. */
  lemma TokenClaimsWindow(u: User, ttl: int, now: int, t: int)
    requires ttl >= Second
    ensures ValidAt(TokenClaims(u, ttl, now), t) <==> now <= t < now + ttl / Second
    ensures ValidAt(TokenClaims(u, ttl, now), now)
  {
  }

  // ---------------------------------------------------------------------
  // strconv.Atoi on a 64-bit platform, and its inverse strconv.Itoa

  const MaxInt64: int := 0x7fff_ffff_ffff_ffff
  const MinInt64: int := -0x8000_0000_0000_0000

  predicate IsDigit(c: char) {
    '0' <= c <= '9'
  }

  predicate AllDigits(s: string) {
    forall i :: 0 <= i < |s| ==> IsDigit(s[i])
  }

  /** The value of a string of decimal digits. */
  function DecimalValue(s: string): nat
    requires AllDigits(s)
  {
    if s == [] then 0 else DecimalValue(s[..|s| - 1]) * 10 + (s[|s| - 1] as int - '0' as int)
  }

  /** `strconv.Atoi`: an optional '+' or '-' followed by at least one decimal
      digit, whose value lies in the int64 range; anything else is an error. */
  function Atoi(s: string): (n: Option<int>)
    ensures n.Some? ==> MinInt64 <= n.value <= MaxInt64
    ensures n.Some? ==> |s| > 0 && (s[0] == '+' || s[0] == '-' || IsDigit(s[0]))
    ensures n.Some? ==> |s| > 1 || IsDigit(s[0])
    ensures n.Some? ==> forall i :: 0 < i < |s| ==> IsDigit(s[i])
  {
    var digits := if |s| > 0 && (s[0] == '+' || s[0] == '-') then s[1..] else s;
    if digits == [] || !AllDigits(digits) then None
    else
      var magnitude: int := DecimalValue(digits);
      var v := if s[0] == '-' then -magnitude else magnitude;
      if MinInt64 <= v <= MaxInt64 then Some(v) else None
  }

  /** The decimal digits of a natural number, most significant first, without
      leading zeros. */
  function NatToDecimal(n: nat): (s: string)
    ensures |s| >= 1 && AllDigits(s)
  {
    if n < 10 then [('0' as int + n) as char]
    else NatToDecimal(n / 10) + [('0' as int + n % 10) as char]
  }

  /** `strconv.Itoa`. */
  function Itoa(n: int): string {
    if n < 0 then "-" + NatToDecimal(-n) else NatToDecimal(n)
  }

  lemma {:induction false} DecimalValueOfNat(n: nat)
    ensures DecimalValue(NatToDecimal(n)) == n
  {
    var s := NatToDecimal(n);
    if n >= 10 {
      DecimalValueOfNat(n / 10);
      assert s[..|s| - 1] == NatToDecimal(n / 10);
    }
  }

  /** Atoi reads back every int64 that Itoa writes. */
  lemma AtoiItoa(n: int)
    requires MinInt64 <= n <= MaxInt64
    ensures Atoi(Itoa(n)) == Some(n)
  {
    var s := Itoa(n);
    if n < 0 {
      DecimalValueOfNat(-n);
      assert s[1..] == NatToDecimal(-n);
    } else {
      DecimalValueOfNat(n);
      assert IsDigit(s[0]);
    }
  }

  // ---------------------------------------------------------------------
  // TokenFromUser: the token lifetime

  const TtlVariable: string := "JWT_TTL_HOURS"
  const DefaultTtl: int := 24 * Hour

  /** The largest hour count whose duration fits a time.Duration (int64
      nanoseconds): 2562047 hours. */
  const MaxTtlHours: int := MaxInt64 / Hour

  /** Two's-complement wrap-around into the int64 range. */
  function WrapInt64(x: int): (r: int)
    ensures MinInt64 <= r <= MaxInt64
    ensures MinInt64 <= x <= MaxInt64 ==> r == x
    ensures (x - r) % 0x1_0000_0000_0000_0000 == 0
  {
    (x - MinInt64) % 0x1_0000_0000_0000_0000 + MinInt64
  }

  /** The lifetime TokenFromUser computes, as written: 24 hours, or
      `time.Duration(n) * time.Hour` when JWT_TTL_HOURS parses as n > 0. The
      product wraps around for n beyond MaxTtlHours. */
  function TtlAsWritten(env: Env): (ttl: int)
    ensures MinInt64 <= ttl <= MaxInt64
  {
    var v := Getenv(env, TtlVariable);
    if v == "" then DefaultTtl
    else match Atoi(v)
      case Some(n) => if n > 0 then WrapInt64(n * Hour) else DefaultTtl
      case None => DefaultTtl
  }

  /** Every hour count from just past MaxTtlHours up to twice it wraps the
      as-written lifetime around to a negative duration, so every token
      issued with it is already expired. */
  lemma TtlAsWrittenOverflows(env: Env, n: int)
    requires Atoi(Getenv(env, TtlVariable)) == Some(n)
    requires MaxTtlHours < n <= 2 * MaxTtlHours + 1
    ensures TtlAsWritten(env) == n * Hour - 0x1_0000_0000_0000_0000 < 0
  {
  }

  /** The smallest such setting: JWT_TTL_HOURS=2562048. */
  lemma TtlJustPastMaxOverflows()
    ensures MaxTtlHours + 1 == 2562048
    ensures TtlAsWritten(map[TtlVariable := Itoa(MaxTtlHours + 1)]) < 0
  {
    AtoiItoa(MaxTtlHours + 1);
    TtlAsWrittenOverflows(map[TtlVariable := Itoa(MaxTtlHours + 1)], MaxTtlHours + 1);
  }

  /** The lifetime TokenFromUser evidently intends: n hours when
      JWT_TTL_HOURS parses as an n with 0 < n and n hours fit a duration,
      24 hours otherwise. Always positive and a whole number of hours. */
  function TokenTtl(env: Env): (ttl: int)
    ensures 0 < ttl <= MaxInt64 && ttl % Hour == 0
    ensures (Atoi(Getenv(env, TtlVariable)).Some? && 0 < Atoi(Getenv(env, TtlVariable)).value <= MaxTtlHours)
      ==> ttl == Atoi(Getenv(env, TtlVariable)).value * Hour
    ensures !(Atoi(Getenv(env, TtlVariable)).Some? && 0 < Atoi(Getenv(env, TtlVariable)).value <= MaxTtlHours)
      ==> ttl == DefaultTtl
  {
    var v := Getenv(env, TtlVariable);
    if v == "" then DefaultTtl
    else match Atoi(v)
      case Some(n) => if 0 < n <= MaxTtlHours then n * Hour else DefaultTtl
      case None => DefaultTtl
  }

  /** Wherever no overflow happens the two lifetimes agree. */
  lemma TokenTtlAgreesWithoutOverflow(env: Env)
    requires Atoi(Getenv(env, TtlVariable)).Some? ==> Atoi(Getenv(env, TtlVariable)).value <= MaxTtlHours
    ensures TtlAsWritten(env) == TokenTtl(env)
  {
  }

  /** `TokenFromUser` as written: a token for `u` with the lifetime
      `TtlAsWritten`, which overflows for large JWT_TTL_HOURS. */
  function TokenFromUserAsWritten(u: User, env: Env, now: int, sign: Signer): (r: Result<string>)
    ensures (Atoi(Getenv(env, TtlVariable)).None? || Atoi(Getenv(env, TtlVariable)).value <= 0)
      ==> r == GenerateToken(u, DefaultTtl, now, env, sign)
    ensures Atoi(Getenv(env, TtlVariable)).Some? && Atoi(Getenv(env, TtlVariable)).value > 0
      ==> r == GenerateToken(u, WrapInt64(Atoi(Getenv(env, TtlVariable)).value * Hour), now, env, sign)
  {
    GenerateToken(u, TtlAsWritten(env), now, env, sign)
  }

  /** `TokenFromUser` with the corrected lifetime `TokenTtl`. For every
      setting whose hour count does not overflow it issues the very token the
      code as written issues; unset or unparsable, the lifetime is 24 hours. */
  function TokenFromUser(u: User, env: Env, now: int, sign: Signer): (r: Result<string>)
    ensures (Atoi(Getenv(env, TtlVariable)).Some? ==> Atoi(Getenv(env, TtlVariable)).value <= MaxTtlHours)
      ==> r == TokenFromUserAsWritten(u, env, now, sign)
    ensures Atoi(Getenv(env, TtlVariable)).None? ==> r == GenerateToken(u, DefaultTtl, now, env, sign)
  {
    var fits := Atoi(Getenv(env, TtlVariable)).Some? ==> Atoi(Getenv(env, TtlVariable)).value <= MaxTtlHours;
    assert fits ==> TokenTtl(env) == TtlAsWritten(env) by {
      if fits {
        TokenTtlAgreesWithoutOverflow(env);
      }
    }
    GenerateToken(u, TokenTtl(env), now, env, sign)
  }

  /** The claims TokenFromUser signs identify the user, start at `now` and
      last the configured number of hours: 24 when JWT_TTL_HOURS is unset. */
  lemma TokenFromUserLifetime(u: User, env: Env, now: int)
    ensures var c := TokenClaims(u, TokenTtl(env), now);
      && c.userId == u.id && c.username == u.username && c.role == u.role
      && c.issuedAt == c.notBefore == now
      && c.expiresAt - now == TokenTtl(env) / Second >= 3600
      && (TtlVariable !in env ==> c.expiresAt == now + 86400)
  {
  }

  // ---------------------------------------------------------------------
  // The Authorization header

  function LowerChar(c: char): char {
    if 'A' <= c <= 'Z' then (c as int + 32) as char else c
  }

  /** `strings.ToLower` on ASCII letters. */
  function ToLower(s: string): (r: string)
    ensures |r| == |s|
    ensures forall i :: 0 <= i < |s| ==> r[i] == LowerChar(s[i])
  {
    if s == [] then [] else [LowerChar(s[0])] + ToLower(s[1..])
  }

  /** `strings.SplitN(s, sep, 2)`: the part before the first `sep` and the
      rest after it, or `[s]` when `sep` does not occur. */
  function SplitFirst(s: string, sep: char): (parts: seq<string>)
    ensures |parts| == 1 || |parts| == 2
    ensures |parts| == 1 <==> sep !in s
    ensures |parts| == 1 ==> parts[0] == s
    ensures |parts| == 2 ==> s == parts[0] + [sep] + parts[1] && sep !in parts[0]
  {
    if s == [] then [s]
    else if s[0] == sep then ["", s[1..]]
    else
      var rest := SplitFirst(s[1..], sep);
      assert s == [s[0]] + s[1..];
      [[s[0]] + rest[0]] + rest[1..]
  }

  /** Splitting at the first separator is unique: the prefix is the longest
      one free of `sep`, whatever follows. */
  lemma {:induction false} SplitFirstAt(a: string, sep: char, b: string)
    requires sep !in a
    ensures SplitFirst(a + [sep] + b, sep) == [a, b]
  {
    var s := a + [sep] + b;
    if a != [] {
      assert s[1..] == a[1..] + [sep] + b;
      SplitFirstAt(a[1..], sep, b);
      assert [a[0]] + a[1..] == a;
    }
  }

  /** A header of the shape "<scheme> <rest>" whose six-character scheme
      lowercases to "bearer" splits into exactly that scheme and that rest. */
  lemma BearerSplit(header: string)
    requires |header| > 6 && header[6] == ' ' && ToLower(header[..6]) == "bearer"
    ensures SplitFirst(header, ' ') == [header[..6], header[7..]]
  {
    forall i | 0 <= i < 6
      ensures header[..6][i] != ' '
    {
      assert LowerChar(header[i]) == "bearer"[i];
    }
    assert header == header[..6] + [' '] + header[7..];
    SplitFirstAt(header[..6], ' ', header[7..]);
  }

  /** The token of an `Authorization: Bearer <token>` header: `SplitN` at the
      first space must give two parts, and the first must lowercase to
      "bearer". */
  function BearerToken(header: string): (token: Option<string>)
    ensures token.Some? <==>
      |header| > 6 && header[6] == ' ' && ToLower(header[..6]) == "bearer"
    ensures token.Some? ==> token.value == header[7..]
  {
    var parts := SplitFirst(header, ' ');
    assert |header| > 6 && header[6] == ' ' && ToLower(header[..6]) == "bearer" ==>
      parts == [header[..6], header[7..]]
    by {
      if |header| > 6 && header[6] == ' ' && ToLower(header[..6]) == "bearer" {
        BearerSplit(header);
      }
    }
    if |parts| != 2 then None
    else if ToLower(parts[0]) != "bearer" then None
    else
      assert |parts[0]| == 6 && header == parts[0] + [' '] + parts[1];
      assert header[..6] == parts[0] && header[7..] == parts[1];
      Some(parts[1])
  }

  // ---------------------------------------------------------------------
  // The chain of checks in AuthMiddleware

  /** What `jwt.ParseWithClaims` (with `getSecret` as key) yields: an error,
      or a token that is valid or not, whose claims have the `Claims` type or
      not. */
  datatype ParseResult = ParseFailed | Parsed(valid: bool, claims: Option<Claims>)

  /** The library's parser: token, secret and the current time to a result. */
  type Parser = (string, string, int) -> ParseResult

  /** The outcome of a middleware: abort with a status and an error message,
      or let the request through as `user`. */
  datatype Decision = Reject(status: int, message: string) | Proceed(user: User)

  /** The checks after the header: token validity, the claims' type, and the
      lookup of the claimed user id in the store. */
  function Resolve(parsed: ParseResult, users: map<int, User>): (d: Decision)
    ensures d.Proceed? <==> parsed.Parsed? && parsed.valid && parsed.claims.Some? && parsed.claims.value.userId in users
    ensures d.Proceed? ==> d.user == users[parsed.claims.value.userId]
  {
    if parsed.ParseFailed? || !parsed.valid then Reject(StatusUnauthorized, InvalidToken)
    else if parsed.claims.None? then Reject(StatusUnauthorized, InvalidClaims)
    else if parsed.claims.value.userId !in users then Reject(StatusUnauthorized, UserNotFound)
    else Proceed(users[parsed.claims.value.userId])
  }

  /** The decision `AuthMiddleware` takes for an Authorization header. Each
      rejection happens exactly when every earlier check passed and its own
      failed; a request that passes every check proceeds as the store's user
      under the claimed id. */
  function Authorize(header: string, secret: string, now: int, parse: Parser, users: map<int, User>): (d: Decision)
    ensures d.Reject? ==> d.status == StatusUnauthorized
    ensures d == Reject(StatusUnauthorized, MissingHeader) <==> header == ""
    ensures d == Reject(StatusUnauthorized, InvalidHeader) <==> header != "" && BearerToken(header).None?
    ensures d == Reject(StatusUnauthorized, InvalidToken) <==>
      && BearerToken(header).Some?
      && var p := parse(BearerToken(header).value, secret, now); p.ParseFailed? || !p.valid
    ensures d == Reject(StatusUnauthorized, InvalidClaims) <==>
      && BearerToken(header).Some?
      && var p := parse(BearerToken(header).value, secret, now); p.Parsed? && p.valid && p.claims.None?
    ensures d == Reject(StatusUnauthorized, UserNotFound) <==>
      && BearerToken(header).Some?
      && var p := parse(BearerToken(header).value, secret, now);
      && p.Parsed? && p.valid && p.claims.Some? && p.claims.value.userId !in users
    ensures d.Proceed? ==>
      && BearerToken(header).Some?
      && var p := parse(BearerToken(header).value, secret, now);
      && p.Parsed? && p.valid && p.claims.Some? && p.claims.value.userId in users
      && d.user == users[p.claims.value.userId]
  {
    if header == "" then Reject(StatusUnauthorized, MissingHeader)
    else match BearerToken(header)
      case None => Reject(StatusUnauthorized, InvalidHeader)
      case Some(token) => Resolve(parse(token, secret, now), users)
  }

  /** The store is consulted only after the token and its claims passed:
      every earlier rejection is the same whatever the store holds. */
  lemma RejectionsBeforeLookupIgnoreStore(header: string, secret: string, now: int, parse: Parser,
                                          users: map<int, User>, others: map<int, User>)
    requires Authorize(header, secret, now, parse, users).Reject?
    requires Authorize(header, secret, now, parse, users).message != UserNotFound
    ensures Authorize(header, secret, now, parse, others) == Authorize(header, secret, now, parse, users)
  {
  }

  /** Only the claimed user id matters: two tokens whose claims name the same
      id (whatever role they carry) lead to the same decision, and the user
      let through is the store's, with the store's current role. */
  lemma ResolveIgnoresClaimedRole(c: Claims, c': Claims, users: map<int, User>)
    requires c.userId == c'.userId
    ensures Resolve(Parsed(true, Some(c)), users) == Resolve(Parsed(true, Some(c')), users)
  {
  }

  /** A parser that accepts what the signer produced with the same secret,
      yielding those claims and whether they are valid at the moment of
      parsing: HS256 signing followed by `ParseWithClaims`. */
  ghost predicate ParsesSigned(sign: Signer, parse: Parser) {
    forall c, secret, token, t ::
      sign(c, secret) == Ok(token) ==> parse(token, secret, t) == Parsed(ValidAt(c, t), Some(c))
  }

  /** A login token, sent as "Bearer <token>", lets its user through from
      the moment it is issued until its lifetime ends, as the user now in
      the store; from then on it is an invalid token. */
  lemma IssuedTokenAuthorizes(u: User, env: Env, now: int, t: int, sign: Signer, parse: Parser,
                              users: map<int, User>)
    requires ParsesSigned(sign, parse)
    requires TokenFromUser(u, env, now, sign).Ok?
    requires now <= t
    ensures var d := Authorize("Bearer " + TokenFromUser(u, env, now, sign).value, GetSecret(env), t, parse, users);
      && (t < now + TokenTtl(env) / Second && u.id in users ==> d == Proceed(users[u.id]))
      && (t < now + TokenTtl(env) / Second && u.id !in users ==> d == Reject(StatusUnauthorized, UserNotFound))
      && (t >= now + TokenTtl(env) / Second ==> d == Reject(StatusUnauthorized, InvalidToken))
  {
    var token := TokenFromUser(u, env, now, sign).value;
    var header := "Bearer " + token;
    assert header[..6] == "Bearer" && header[6] == ' ' && header[7..] == token;
    assert ToLower("Bearer") == "bearer";
    assert BearerToken(header) == Some(token);
    var c := TokenClaims(u, TokenTtl(env), now);
    assert sign(c, GetSecret(env)) == Ok(token);
    assert parse(token, GetSecret(env), t) == Parsed(ValidAt(c, t), Some(c));
  }

  /** `GenerateToken` round trip: what it signs, the matching parser reads
      back as the claims naming `u`, valid exactly in the window from `now`
      to `now + ttl`. */
  lemma GeneratedTokenParses(u: User, ttl: int, now: int, env: Env, sign: Signer, parse: Parser, t: int)
    requires ParsesSigned(sign, parse) && GenerateToken(u, ttl, now, env, sign).Ok?
    ensures var p := parse(GenerateToken(u, ttl, now, env, sign).value, GetSecret(env), t);
      && p.Parsed? && p.claims.Some?
      && p.claims.value.userId == u.id && p.claims.value.username == u.username && p.claims.value.role == u.role
      && (p.valid <==> now <= t < now + ttl / Second)
  {
    var c := TokenClaims(u, ttl, now);
    assert sign(c, GetSecret(env)) == Ok(GenerateToken(u, ttl, now, env, sign).value);
  }

  /** The as-written lifetime for JWT_TTL_HOURS=2562048 puts the expiry
      before the issue time: no moment from issuance on is in the window. */
  lemma AsWrittenTokenExpiredAtIssue(u: User, now: int, t: int)
    requires now <= t
    ensures !ValidAt(TokenClaims(u, TtlAsWritten(map[TtlVariable := Itoa(MaxTtlHours + 1)]), now), t)
  {
    TtlJustPastMaxOverflows();
  }

  /** With JWT_TTL_HOURS=2562048 every token the code as written issues is
      rejected by the middleware as an invalid token, at every moment from
      its issuance on. */
  lemma AsWrittenTokenAlwaysRejected(u: User, now: int, t: int, sign: Signer, parse: Parser,
                                     users: map<int, User>)
    requires ParsesSigned(sign, parse)
    requires TokenFromUserAsWritten(u, map[TtlVariable := Itoa(MaxTtlHours + 1)], now, sign).Ok?
    requires now <= t
    ensures var env := map[TtlVariable := Itoa(MaxTtlHours + 1)];
      Authorize("Bearer " + TokenFromUserAsWritten(u, env, now, sign).value, GetSecret(env), t, parse, users)
        == Reject(StatusUnauthorized, InvalidToken)
  {
    var env := map[TtlVariable := Itoa(MaxTtlHours + 1)];
    var token := TokenFromUserAsWritten(u, env, now, sign).value;
    var header := "Bearer " + token;
    assert header[..6] == "Bearer" && header[6] == ' ' && header[7..] == token;
    assert ToLower("Bearer") == "bearer";
    assert BearerToken(header) == Some(token);
    var c := TokenClaims(u, TtlAsWritten(env), now);
    assert sign(c, GetSecret(env)) == Ok(token);
    AsWrittenTokenExpiredAtIssue(u, now, t);
    assert parse(token, GetSecret(env), t) == Parsed(false, Some(c));
  }

  // ---------------------------------------------------------------------
  // The request context

  /** The part of gin's request context the middlewares use: the request's
      Authorization header, the values set with `c.Set`, and the response an
      abort wrote. */
  class Context {
    const authorization: string
    var keys: map<string, User>
    var aborted: Option<(int, string)>

    constructor (authorization: string)
      ensures this.authorization == authorization && keys == map[] && aborted == None
    {
      this.authorization := authorization;
      keys := map[];
      aborted := None;
    }
  }

  /** `GetCurrentUser`: the user a previous `AuthMiddleware` stored, if any. */
  function GetCurrentUser(c: Context): (u: Option<User>)
    reads c
    ensures u.Some? <==> CurrentUserKey in c.keys
    ensures u.Some? ==> u.value == c.keys[CurrentUserKey]
  {
    if CurrentUserKey in c.keys then Some(c.keys[CurrentUserKey]) else None
  }

  /** `AuthMiddleware`: runs the chain of checks on the request's header and
      either aborts with the rejection or stores the store's user under
      "currentUser". */
  method AuthMiddleware(c: Context, store: UserStore, env: Env, now: int, parse: Parser)
    requires store.Valid()
    modifies c
    ensures match Authorize(c.authorization, GetSecret(env), now, parse, store.users)
      case Reject(status, message) => c.aborted == Some((status, message)) && c.keys == old(c.keys)
      case Proceed(user) => c.keys == old(c.keys)[CurrentUserKey := user] && c.aborted == old(c.aborted)
  {
    var auth := c.authorization;
    if auth == "" {
      c.aborted := Some((StatusUnauthorized, MissingHeader));
      return;
    }
    var parts := SplitFirst(auth, ' ');
    if |parts| != 2 || ToLower(parts[0]) != "bearer" {
      c.aborted := Some((StatusUnauthorized, InvalidHeader));
      return;
    }
    var tokenStr := parts[1];
    var parsed := parse(tokenStr, GetSecret(env), now);
    if parsed.ParseFailed? || !parsed.valid {
      c.aborted := Some((StatusUnauthorized, InvalidToken));
      return;
    }
    if parsed.claims.None? {
      c.aborted := Some((StatusUnauthorized, InvalidClaims));
      return;
    }
    var user := store.GetUserByID(parsed.claims.value.userId);
    if user.Err? {
      c.aborted := Some((StatusUnauthorized, UserNotFound));
      return;
    }
    c.keys := c.keys[CurrentUserKey := user.value];
  }

  // ---------------------------------------------------------------------
  // RequireRole

  /** The role check: a request proceeds iff a user was stored and its role
      is one of the allowed ones; otherwise it is refused with 403. */
  function RoleCheck(current: Option<User>, allowed: set<string>): (rejection: Option<(int, string)>)
    ensures rejection.None? <==> current.Some? && current.value.role in allowed
    ensures current.None? ==> rejection == Some((StatusForbidden, NotAuthenticated))
    ensures current.Some? && current.value.role !in allowed ==>
      rejection == Some((StatusForbidden, InsufficientPrivileges))
  {
    if current.None? then Some((StatusForbidden, NotAuthenticated))
    else if current.value.role !in allowed then Some((StatusForbidden, InsufficientPrivileges))
    else None
  }

  /** An empty role list admits nobody. */
  lemma NoRolesAdmitsNobody(roles: seq<string>, current: Option<User>)
    requires roles == []
    ensures RoleCheck(current, set r | r in roles).Some?
  {
  }

  /** `RequireRole(roles...)`, the part run once: the set of allowed roles,
      built by inserting every role of the list. */
  method RequireRole(roles: seq<string>) returns (allowed: set<string>)
    ensures forall r :: r in allowed <==> r in roles
  {
    allowed := {};
    for i := 0 to |roles|
      invariant forall r :: r in allowed <==> r in roles[..i]
    {
      assert roles[..i + 1] == roles[..i] + [roles[i]];
      allowed := allowed + {roles[i]};
    }
    assert roles[..|roles|] == roles;
  }

  /** The handler `RequireRole` returns, run on a request. */
  method RoleGate(c: Context, allowed: set<string>)
    modifies c
    ensures c.keys == old(c.keys)
    ensures c.aborted == match RoleCheck(GetCurrentUser(c), allowed)
      case Some(rejection) => Some(rejection)
      case None => old(c.aborted)
  {
    if CurrentUserKey !in c.keys {
      c.aborted := Some((StatusForbidden, NotAuthenticated));
      return;
    }
    var cu := c.keys[CurrentUserKey];
    if cu.role !in allowed {
      c.aborted := Some((StatusForbidden, InsufficientPrivileges));
      return;
    }
  }
}
