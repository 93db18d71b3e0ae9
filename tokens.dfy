/**
 * Token helpers of the server: time-to-live conversions, the signed access
 * token, the opaque refresh value, its digest and the refresh cookie's options.
 */
module Tokens {
  import opened Wrappers
  import opened Crypto
  import opened Schema

  /** `minutes(n)` in milliseconds. */
  function Minutes(n: int): int { n * 60 * 1000 }

  /** `days(n)` in milliseconds. */
  function Days(n: int): int { n * 24 * 60 * 60 * 1000 }

  /** The scale of the two conversions: a minute is 60 000 ms and a day 1 440 minutes. */
  lemma TimeUnits(n: int)
    ensures Minutes(n) == n * 60000
    ensures Days(n) == n * 86400000 == Minutes(n * 1440)
  {
  }

  /**
   * The process environment the helpers read. `None` stands for a variable
   * that is unset or empty (both falsy, so the `|| default` applies).
   */
  datatype Config = Config(
    accessTokenSecret: string,
    accessTokenTtlMin: Option<int>,
    refreshTokenTtlDays: Option<int>,
    nodeEnv: Option<string>)

  /** `Number(process.env.ACCESS_TOKEN_TTL_MIN || 15)` */
  function AccessTtlMinutes(cfg: Config): int { cfg.accessTokenTtlMin.GetOr(15) }

  /** `Number(process.env.REFRESH_TOKEN_TTL_DAYS || 7)` */
  function RefreshTtlDays(cfg: Config): int { cfg.refreshTokenTtlDays.GetOr(7) }

  /**
   * The payload `signAccess` hands to `jwt.sign` at clock `nowMs`: the user's
   * id, role and full name, issued at the current second and expiring
   * `AccessTtlMinutes` minutes later (`expiresIn: "<ttl>m"`).
   */
  function AccessPayloadFor(user: User, cfg: Config, nowMs: nat): (p: AccessPayload)
    ensures p.id == user.id && p.role == user.role && p.fullName == user.fullName
    ensures p.iat * 1000 <= nowMs < p.iat * 1000 + 1000
    ensures p.exp - p.iat == Minutes(AccessTtlMinutes(cfg)) / 1000
  {
    AccessPayload(user.id, user.role, user.fullName, nowMs / 1000, nowMs / 1000 + AccessTtlMinutes(cfg) * 60)
  }

  /** `signAccess(user)` */
  function SignAccess(prims: Primitives, cfg: Config, user: User, nowMs: nat): string {
    prims.jwtSign(AccessPayloadFor(user, cfg, nowMs), cfg.accessTokenSecret)
  }

  /**
   * An access token verifies, under the server's secret, to exactly the
   * user's claims while the clock is before its expiry, and fails from then on.
   */
  lemma AccessTokenVerifies(prims: Primitives, cfg: Config, user: User, nowMs: nat, laterSec: int)
    requires Sound(prims)
    ensures var p := AccessPayloadFor(user, cfg, nowMs);
      prims.jwtVerify(SignAccess(prims, cfg, user, nowMs), cfg.accessTokenSecret, laterSec)
      == if laterSec < nowMs / 1000 + AccessTtlMinutes(cfg) * 60 then Some(p) else None
  {
  }

  predicate IsLowerHexDigit(c: char) { '0' <= c <= '9' || 'a' <= c <= 'f' }

  predicate IsLowerHex(s: string) { forall i :: 0 <= i < |s| ==> IsLowerHexDigit(s[i]) }

  function HexDigit(n: int): (c: char)
    requires 0 <= n < 16
    ensures IsLowerHexDigit(c)
  {
    if n < 10 then ('0' as int + n) as char else ('a' as int + n - 10) as char
  }

  function HexValue(c: char): (n: int)
    requires IsLowerHexDigit(c)
    ensures 0 <= n < 16 && HexDigit(n) == c
    ensures forall m :: 0 <= m < 16 && HexDigit(m) == c ==> m == n
  {
    if c <= '9' then c as int - '0' as int else c as int - 'a' as int + 10
  }

  /** `buffer.toString("hex")`: two lower-case hex digits per byte, high nibble first. */
  function HexEncode(b: seq<byte>): (s: string)
    ensures |s| == 2 * |b|
    ensures IsLowerHex(s)
  {
    if b == [] then "" else [HexDigit(b[0] / 16), HexDigit(b[0] % 16)] + HexEncode(b[1..])
  }

  /** The inverse of `HexEncode`, on strings of even length made of hex digits. */
  function HexDecode(s: string): (b: seq<byte>)
    requires |s| % 2 == 0 && IsLowerHex(s)
    ensures |b| == |s| / 2
  {
    if s == "" then [] else [HexValue(s[0]) * 16 + HexValue(s[1])] + HexDecode(s[2..])
  }

  /** Hex encoding loses nothing: decoding gives back the bytes. */
  lemma {:induction false} HexRoundTrip(b: seq<byte>)
    ensures HexDecode(HexEncode(b)) == b
  {
    if b != [] {
      var s := HexEncode(b);
      var rest := HexEncode(b[1..]);
      HexEncodeCons(b);
      HexRoundTrip(b[1..]);
      ByteFromNibbles(b[0]);
      assert HexDecode(s) == [b[0]] + HexDecode(rest);
      assert b == [b[0]] + b[1..];
    }
  }

  /** The first two digits of the hex of `b` are the nibbles of `b[0]`; the rest is the hex of `b[1..]`. */
  lemma HexEncodeCons(b: seq<byte>)
    requires b != []
    ensures var s := HexEncode(b);
      s[0] == HexDigit(b[0] / 16) && s[1] == HexDigit(b[0] % 16) && s[2..] == HexEncode(b[1..])
  {
    var s := HexEncode(b);
    assert s == [HexDigit(b[0] / 16), HexDigit(b[0] % 16)] + HexEncode(b[1..]);
  }

  lemma ByteFromNibbles(x: byte)
    ensures HexValue(HexDigit(x / 16)) * 16 + HexValue(HexDigit(x % 16)) == x
  {
    assert HexValue(HexDigit(x / 16)) == x / 16;
    assert HexValue(HexDigit(x % 16)) == x % 16;
  }

  /** Distinct byte strings have distinct hex encodings. */
  lemma HexEncodeInjective(a: seq<byte>, b: seq<byte>)
    requires HexEncode(a) == HexEncode(b)
    ensures a == b
  {
    HexRoundTrip(a);
    HexRoundTrip(b);
  }

  /** The output of `crypto.randomBytes(64)`. */
  type RandomBytes = b: seq<byte> | |b| == 64 witness seq(64, _ => 0)

  /** `newRefreshValue()`: 64 random bytes, hex-encoded. */
  function NewRefreshValue(random: RandomBytes): (v: string)
    ensures |v| == 128 && IsLowerHex(v)
  {
    HexEncode(random)
  }

  /** `hashToken(v)`: the hex SHA-256 digest of `v`, the lookup key of a refresh row. */
  function HashToken(prims: Primitives, v: string): (d: string)
    ensures |d| == 64 && IsLowerHex(d)
  {
    HexEncode(prims.sha256(v))
  }

  /** Two values have the same digest exactly when SHA-256 gives them the same bytes. */
  lemma HashTokenKeys(prims: Primitives, v: string, w: string)
    ensures HashToken(prims, v) == HashToken(prims, w) <==> prims.sha256(v) == prims.sha256(w)
  {
    if HashToken(prims, v) == HashToken(prims, w) {
      HexEncodeInjective(prims.sha256(v), prims.sha256(w));
    }
  }

  /** The options of the `refresh_token` cookie. */
  datatype CookieOptions = CookieOptions(httpOnly: bool, secure: bool, sameSite: string, path: string, maxAge: int)

  /** `refreshCookieOptions()` */
  function RefreshCookieOptions(cfg: Config): (o: CookieOptions)
    ensures o.httpOnly && o.sameSite == "lax" && o.path == "/auth/refresh"
    ensures o.secure <==> cfg.nodeEnv == Some("production")
    ensures o.maxAge == Days(RefreshTtlDays(cfg))
  {
    CookieOptions(true, cfg.nodeEnv == Some("production"), "lax", "/auth/refresh", Days(RefreshTtlDays(cfg)))
  }

  /** With no configuration the cookie lives seven days and the access token fifteen minutes. */
  lemma Defaults(secret: string)
    ensures var cfg := Config(secret, None, None, None);
      && RefreshCookieOptions(cfg).maxAge == 604800000
      && !RefreshCookieOptions(cfg).secure
      && AccessTtlMinutes(cfg) == 15
  {
  }
}
