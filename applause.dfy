/**
 * frontend/src/app/api/applause/route.ts: a global applause counter in Redis with a
 * per-client-address rate limit.  Redis is a class holding the counters and the expiry
 * each key was given; whether a key has expired by now is not modelled.
 */
module Applause {
  import opened Wrappers
  import Seqs
  import Strings

  // ---------------- numbers ----------------

  /** What `Number(v)` makes of a Redis reply: nothing (`null`/`undefined`), a finite value, or not. */
  datatype Reply = Nil | Finite(n: int) | NotFinite

  /** `safeNumber`: 0 unless the reply converts to a finite number. */
  function SafeNumber(v: Reply): (r: int)
    ensures v.Finite? ==> r == v.n
    ensures !v.Finite? ==> r == 0
  {
    match v
    case Finite(n) => n
    case _ => 0
  }

  // ---------------- addresses ----------------

  predicate StartsWith(s: string, p: string) {
    |p| <= |s| && s[..|p|] == p
  }

  /** `/^172\.(1[6-9]|2[0-9]|3[0-1])\./`: 172.16. to 172.31. */
  predicate Private172(ip: string) {
    |ip| >= 7 && ip[..4] == "172." && ip[6] == '.'
    && ((ip[4] == '1' && '6' <= ip[5] <= '9') || (ip[4] == '2' && Strings.IsDigit(ip[5]))
        || (ip[4] == '3' && '0' <= ip[5] <= '1'))
  }

  /**
   * `isPrivateIp`: empty, the loopback addresses "::1" and "127.0.0.1", "unknown", the
   * private IPv4 blocks of section 3 of RFC 1918 (10/8, 172.16/12, 192.168/16), and text
   * starting "fc" or "fd" (the unique local IPv6 block fc00::/7 of section 3.1 of RFC 4193,
   * in lower case only).
   */
  predicate IsPrivateIp(ip: string) {
    ip == "" || ip == "::1" || ip == "127.0.0.1" || ip == "unknown"
    || StartsWith(ip, "10.") || StartsWith(ip, "192.168.") || Private172(ip)
    || StartsWith(ip, "fc") || StartsWith(ip, "fd")
  }

  /** The dotted-quad text of an IPv4 address. */
  function Quad(a: nat, b: nat, c: nat, d: nat): string {
    Strings.NatToString(a) + "." + Strings.NatToString(b) + "." + Strings.NatToString(c) + "." + Strings.NatToString(d)
  }

  /** Text without a dot followed by a dot: the first dot says where the first field ends. */
  lemma DotHead(x: string, r: string, y: string, r2: string)
    requires '.' !in x && '.' !in y
    ensures StartsWith(x + "." + r, y + ".") <==> x == y
    ensures x + "." + r == y + "." + r2 <==> x == y && r == r2
  {
    var s, t := x + "." + r, y + "." + r2;
    if |x| < |y| {
      assert s[|x|] == '.' && (y + ".")[|x|] == y[|x|] && t[|x|] == y[|x|];
      assert y[|x|] in y;
    } else if |x| > |y| {
      assert s[|y|] == x[|y|] && (y + ".")[|y|] == '.' && t[|y|] == '.';
      assert x[|y|] in x;
    } else {
      if s == t {
        assert x == s[..|x|] && y == t[..|y|];
        assert r == s[|x| + 1..] && r2 == t[|y| + 1..];
      }
      if StartsWith(s, y + ".") {
        assert x == s[..|x|] == (y + ".")[..|y|] == y;
      }
    }
  }

  lemma NoDotInNumber(n: nat)
    ensures '.' !in Strings.NatToString(n)
  {
  }

  /** The text of a two-digit number is its two digits; no other number has a two-character text. */
  lemma TwoDigits(n: nat)
    ensures |Strings.NatToString(n)| == 2 <==> 10 <= n <= 99
    ensures 10 <= n <= 99 ==> Strings.NatToString(n) == [Strings.DigitChar(n / 10), Strings.DigitChar(n % 10)]
  {
    if n >= 100 {
      assert |Strings.NatToString(n / 10)| >= 2 by {
        assert n / 10 >= 10;
      }
    }
  }

  lemma Private172OfQuad(b: nat, rest: string)
    ensures Private172("172." + Strings.NatToString(b) + "." + rest) <==> 16 <= b <= 31
  {
    var nb := Strings.NatToString(b);
    var s := "172." + nb + "." + rest;
    NoDotInNumber(b);
    TwoDigits(b);
    assert s[..4] == "172.";
    if |nb| == 2 {
      assert s[4] == nb[0] && s[5] == nb[1] && s[6] == '.';
    } else if |nb| == 1 {
      assert s[5] == '.';
    } else {
      assert s[6] == nb[2] && nb[2] in nb;
    }
  }

  /**
   * On IPv4 addresses `isPrivateIp` is exactly the three private blocks of RFC 1918 plus the
   * single loopback address 127.0.0.1 (other addresses of 127/8 count as public).
   */
  lemma PrivateQuads(a: nat, b: nat, c: nat, d: nat)
    ensures IsPrivateIp(Quad(a, b, c, d)) <==>
      a == 10 || (a == 172 && 16 <= b <= 31) || (a == 192 && b == 168) || (a == 127 && b == 0 && c == 0 && d == 1)
  {
    var na := Strings.NatToString(a);
    var q := Quad(a, b, c, d);
    assert Strings.IsDigit(q[0]) by { assert q[0] == na[0] && na[0] in na; }
    assert q != "" && q != "::1" && q != "unknown" && !StartsWith(q, "fc") && !StartsWith(q, "fd");
    QuadTen(a, b, c, d);
    Quad192(a, b, c, d);
    Quad172(a, b, c, d);
    QuadLoopback(a, b, c, d);
  }

  lemma QuadTen(a: nat, b: nat, c: nat, d: nat)
    ensures StartsWith(Quad(a, b, c, d), "10.") <==> a == 10
  {
    var na, nb, nc, nd := Strings.NatToString(a), Strings.NatToString(b), Strings.NatToString(c), Strings.NatToString(d);
    NoDotInNumber(a);
    assert Quad(a, b, c, d) == na + "." + (nb + "." + nc + "." + nd);
    DotHead(na, nb + "." + nc + "." + nd, "10", "");
    assert Strings.NatToString(10) == "10";
    Strings.NatToStringInjective(a, 10);
  }

  lemma Quad192(a: nat, b: nat, c: nat, d: nat)
    ensures StartsWith(Quad(a, b, c, d), "192.168.") <==> a == 192 && b == 168
  {
    var na, nb, nc, nd := Strings.NatToString(a), Strings.NatToString(b), Strings.NatToString(c), Strings.NatToString(d);
    var n192, n168 := Strings.NatToString(192), Strings.NatToString(168);
    NoDotInNumber(a); NoDotInNumber(b); NoDotInNumber(192); NoDotInNumber(168);
    var afterA := nb + "." + (nc + "." + nd);
    var q := Quad(a, b, c, d);
    assert q == na + "." + afterA;
    var p := n192 + "." + (n168 + ".");
    PrefixText192();
    DotHead(na, afterA, n192, "");
    DotHead(nb, nc + "." + nd, n168, "");
    Strings.NatToStringInjective(a, 192);
    Strings.NatToStringInjective(b, 168);
    if StartsWith(q, p) {
      assert q[..|n192| + 1] == p[..|n192| + 1] == n192 + ".";
      assert na == n192;
      assert afterA[..|n168| + 1] == q[|n192| + 1..|p|] == p[|n192| + 1..] == n168 + ".";
    }
    if a == 192 && b == 168 {
      assert q == n192 + "." + (n168 + "." + (nc + "." + nd));
    }
  }

  lemma PrefixText192()
    ensures Strings.NatToString(192) + "." + (Strings.NatToString(168) + ".") == "192.168."
  {
    assert Strings.NatToString(192) == "192" && Strings.NatToString(168) == "168";
  }

  lemma Quad172(a: nat, b: nat, c: nat, d: nat)
    ensures Private172(Quad(a, b, c, d)) <==> a == 172 && 16 <= b <= 31
  {
    var na, nb, nc, nd := Strings.NatToString(a), Strings.NatToString(b), Strings.NatToString(c), Strings.NatToString(d);
    NoDotInNumber(a);
    var afterA := nb + "." + (nc + "." + nd);
    var q := Quad(a, b, c, d);
    assert q == na + "." + afterA;
    DotHead(na, afterA, "172", "");
    assert Strings.NatToString(172) == "172";
    Strings.NatToStringInjective(a, 172);
    assert Private172(q) ==> StartsWith(q, "172.");
    if a == 172 {
      assert q == "172." + nb + "." + (nc + "." + nd);
      Private172OfQuad(b, nc + "." + nd);
    }
  }

  lemma QuadLoopback(a: nat, b: nat, c: nat, d: nat)
    ensures Quad(a, b, c, d) == "127.0.0.1" <==> a == 127 && b == 0 && c == 0 && d == 1
  {
    LoopbackText();
    QuadInjective(a, b, c, d, 127, 0, 0, 1);
  }

  lemma LoopbackText()
    ensures Quad(127, 0, 0, 1) == "127.0.0.1"
  {
    assert Strings.NatToString(127) == "127" && Strings.NatToString(0) == "0" && Strings.NatToString(1) == "1";
  }

  /** Different addresses have different dotted-quad texts. */
  lemma QuadInjective(a: nat, b: nat, c: nat, d: nat, a2: nat, b2: nat, c2: nat, d2: nat)
    ensures Quad(a, b, c, d) == Quad(a2, b2, c2, d2) <==> a == a2 && b == b2 && c == c2 && d == d2
  {
    var na, nb, nc, nd := Strings.NatToString(a), Strings.NatToString(b), Strings.NatToString(c), Strings.NatToString(d);
    var ma, mb, mc, md := Strings.NatToString(a2), Strings.NatToString(b2), Strings.NatToString(c2), Strings.NatToString(d2);
    NoDotInNumber(a); NoDotInNumber(b); NoDotInNumber(c);
    NoDotInNumber(a2); NoDotInNumber(b2); NoDotInNumber(c2);
    assert Quad(a, b, c, d) == na + "." + (nb + "." + (nc + "." + nd));
    assert Quad(a2, b2, c2, d2) == ma + "." + (mb + "." + (mc + "." + md));
    DotHead(na, nb + "." + (nc + "." + nd), ma, mb + "." + (mc + "." + md));
    DotHead(nb, nc + "." + nd, mb, mc + "." + md);
    DotHead(nc, nd, mc, md);
    Strings.NatToStringInjective(a, a2);
    Strings.NatToStringInjective(b, b2);
    Strings.NatToStringInjective(c, c2);
    Strings.NatToStringInjective(d, d2);
  }

  /** `forwardedHeader.split(",").map(s => s.trim()).filter(Boolean)`. */
  function Candidates(header: string): (ips: seq<string>)
    ensures forall ip <- ips :: ip != "" && ',' !in ip
  {
    var parts := Strings.Split(header, ',');
    var trimmed := seq(|parts|, i requires 0 <= i < |parts| => Strings.Trim(parts[i]));
    assert forall i :: 0 <= i < |parts| ==> ',' !in trimmed[i] by {
      forall i | 0 <= i < |parts| ensures ',' !in trimmed[i] {
        assert parts[i] in parts;
        var t := trimmed[i];
        if t != [] {
          assert t == parts[i][Strings.TrimStartIndex(parts[i])..Strings.TrimEndIndex(parts[i])];
          assert forall c <- t :: c in parts[i];
        }
      }
    }
    Seqs.Filter(trimmed, (ip: string) => ip != "")
  }

  /** The first candidate that is not private, if there is one. */
  function FirstPublic(ips: seq<string>): (r: Option<string>)
    ensures r.Some? ==> r.value in ips && !IsPrivateIp(r.value)
    ensures r.None? <==> forall ip <- ips :: IsPrivateIp(ip)
    ensures r.Some? ==> exists i :: 0 <= i < |ips| && ips[i] == r.value && forall j :: 0 <= j < i ==> IsPrivateIp(ips[j])
  {
    if ips == [] then None
    else if !IsPrivateIp(ips[0]) then Some(ips[0])
    else
      var r := FirstPublic(ips[1..]);
      assert forall ip <- ips :: ip == ips[0] || ip in ips[1..];
      if r.Some? then
        var i :| 0 <= i < |ips[1..]| && ips[1..][i] == r.value && forall j :: 0 <= j < i ==> IsPrivateIp(ips[1..][j]);
        assert ips[i + 1] == r.value && forall j :: 0 <= j < i + 1 ==> IsPrivateIp(ips[j]) by {
          forall j | 0 <= j < i + 1 ensures IsPrivateIp(ips[j]) {
            if j > 0 { assert ips[j] == ips[1..][j - 1]; }
          }
        }
        r
      else r
  }

  /**
   * `pickClientIp`: no address for a missing or empty header or one without non-empty
   * entries; otherwise the first public entry, or the first entry when all are private.
   */
  function PickClientIp(header: Option<string>): (r: Option<string>)
    ensures header.None? || header == Some("") ==> r.None?
    ensures header.Some? && header.value != "" ==>
      var ips := Candidates(header.value);
      (r.None? <==> ips == [])
      && (r.Some? ==> r.value in ips)
      && (r.Some? && (exists ip <- ips :: !IsPrivateIp(ip)) ==> r == FirstPublic(ips) && !IsPrivateIp(r.value))
      && (r.Some? && (forall ip <- ips :: IsPrivateIp(ip)) ==> r == Some(ips[0]))
  {
    if header.None? || header.value == "" then None
    else
      var ips := Candidates(header.value);
      if ips == [] then None
      else
        var p := FirstPublic(ips);
        if p.Some? then p else Some(ips[0])
  }

  /** `req.headers.get("x-forwarded-for") || req.headers.get("x-real-ip") || ""`. */
  function ClientHeader(forwardedFor: Option<string>, realIp: Option<string>): string {
    if forwardedFor.Some? && forwardedFor.value != "" then forwardedFor.value
    else if realIp.Some? && realIp.value != "" then realIp.value
    else ""
  }

  // ---------------- Redis and the route ----------------

  const CountKey := "applause_count"

  function IpKey(ip: string): string {
    "applause:ip:" + ip
  }

  lemma IpKeyIsNotCountKey(ip: string)
    ensures IpKey(ip) != CountKey
  {
    assert IpKey(ip)[8] == ':' && CountKey[8] == '_';
  }

  function Get(m: map<string, int>, k: string): int {
    if k in m then m[k] else 0
  }

  /** The Redis database: integer counters and the expiry in seconds last set on each key. */
  class Redis {
    var counters: map<string, int>
    var expiries: map<string, int>

    constructor ()
      ensures counters == map[] && expiries == map[]
    {
      counters := map[];
      expiries := map[];
    }

    /** `INCR`: a missing key counts from 0; returns the new value. */
    method Incr(key: string) returns (n: int)
      modifies this
      ensures n == Get(old(counters), key) + 1
      ensures counters == old(counters)[key := n] && expiries == old(expiries)
    {
      n := Get(counters, key) + 1;
      counters := counters[key := n];
    }

    /** `EXPIRE`. */
    method Expire(key: string, seconds: int)
      modifies this
      ensures expiries == old(expiries)[key := seconds] && counters == old(counters)
    {
      expiries := expiries[key := seconds];
    }
  }

  datatype Response =
    | CountIs(count: int)  // 200 `{ count }`
    | RateLimited          // 429
    | Misconfigured        // 500, no Redis client

  /** `GET`: the global count, 0 when it was never set. */
  method GetCount(redis: Redis?) returns (resp: Response)
    ensures redis == null ==> resp == Misconfigured
    ensures redis != null ==> resp == CountIs(Get(redis.counters, CountKey))
  {
    if redis == null {
      return Misconfigured;
    }
    var v := if CountKey in redis.counters then Finite(redis.counters[CountKey]) else Nil;
    resp := CountIs(SafeNumber(v));
  }

  /** Whether the per-address limit applies to a request from `ip`. */
  predicate Limited(ip: Option<string>, ipLimit: int) {
    ip.Some? && ip.value != "" && !IsPrivateIp(ip.value) && ipLimit > 0
  }

  /**
   * What `POST` does to the counters and expiries for a client address.  A request without
   * a public address, or with the limit switched off, only increments the global count.
   * Otherwise the address's counter is incremented (and given the window as expiry when
   * it becomes 1); past the limit the answer is 429 and the global count is left alone,
   * else the global count is incremented too.
   */
  predicate PostEffect(before: map<string, int>, beforeExp: map<string, int>,
                       after: map<string, int>, afterExp: map<string, int>, resp: Response,
                       ip: Option<string>, ipLimit: int, windowSec: int)
  {
    var total := Get(before, CountKey) + 1;
    if !Limited(ip, ipLimit) then
      after == before[CountKey := total] && afterExp == beforeExp && resp == CountIs(total)
    else
      var key := IpKey(ip.value);
      var ipCount := Get(before, key) + 1;
      afterExp == (if ipCount == 1 then beforeExp[key := windowSec] else beforeExp)
      && (ipCount > ipLimit ==> resp == RateLimited && after == before[key := ipCount])
      && (ipCount <= ipLimit ==> resp == CountIs(total) && after == before[key := ipCount][CountKey := total])
  }

  /** `POST`: without Redis nothing changes; otherwise the effect above for the client's address. */
  method Post(redis: Redis?, forwardedFor: Option<string>, realIp: Option<string>, ipLimit: int, windowSec: int)
    returns (resp: Response)
    modifies redis
    ensures redis == null ==> resp == Misconfigured
    ensures redis != null ==>
      PostEffect(old(redis.counters), old(redis.expiries), redis.counters, redis.expiries, resp,
                 PickClientIp(Some(ClientHeader(forwardedFor, realIp))), ipLimit, windowSec)
  {
    if redis == null {
      return Misconfigured;
    }
    var ip := PickClientIp(Some(ClientHeader(forwardedFor, realIp)));
    resp := PostFor(redis, ip, ipLimit, windowSec);
  }

  method PostFor(redis: Redis, ip: Option<string>, ipLimit: int, windowSec: int) returns (resp: Response)
    modifies redis
    ensures PostEffect(old(redis.counters), old(redis.expiries), redis.counters, redis.expiries, resp,
                       ip, ipLimit, windowSec)
  {
    // skipped for a missing or private address, and when the limit is off
    if Limited(ip, ipLimit) {
      IpKeyIsNotCountKey(ip.value);
      var over := CountClient(redis, IpKey(ip.value), ipLimit, windowSec);
      if over {
        return RateLimited;
      }
    }
    var newVal := redis.Incr(CountKey);
    resp := CountIs(SafeNumber(Finite(newVal)));
  }

  /**
   * The per-address step of `POST`: increment the address's counter, give it the window
   * as expiry when it becomes 1, and say whether it is past the limit.
   */
  method CountClient(redis: Redis, key: string, ipLimit: int, windowSec: int) returns (over: bool)
    modifies redis
    ensures var ipCount := Get(old(redis.counters), key) + 1;
      redis.counters == old(redis.counters)[key := ipCount]
      && redis.expiries == (if ipCount == 1 then old(redis.expiries)[key := windowSec] else old(redis.expiries))
      && (over <==> ipCount > ipLimit)
  {
    var ipCountRaw := redis.Incr(key);
    var ipCount := SafeNumber(Finite(ipCountRaw));
    if ipCount == 1 {
      redis.Expire(key, windowSec);
    }
    over := ipCount > ipLimit;
  }

  /** A rejected request never moves the global count; an accepted one moves it by exactly one. */
  method PostMovesCountByAtMostOne(redis: Redis, forwardedFor: Option<string>, realIp: Option<string>,
                                   ipLimit: int, windowSec: int) returns (resp: Response)
    modifies redis
    ensures resp == RateLimited ==> Get(redis.counters, CountKey) == Get(old(redis.counters), CountKey)
    ensures resp.CountIs? ==> Get(redis.counters, CountKey) == Get(old(redis.counters), CountKey) + 1 == resp.count
    ensures resp != Misconfigured
  {
    var ip := PickClientIp(Some(ClientHeader(forwardedFor, realIp)));
    if Limited(ip, ipLimit) {
      IpKeyIsNotCountKey(ip.value);
    }
    resp := Post(redis, forwardedFor, realIp, ipLimit, windowSec);
  }
}
