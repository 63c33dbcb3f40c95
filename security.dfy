/** The access-control layer of the web application (`src/security.py`):
    which address a request is attributed to, the path-traversal guard, the
    blacklist with automatic bans, the per-address rate limiter and the
    Strict-Transport-Security header. Time is a parameter (`now`, seconds as
    a real number) instead of a call to the clock. */
module Security {
  import opened Wrappers
  import opened Text

  /** The answer a middleware gives a request: hand it on, 403 or 429. */
  datatype Verdict = Pass | Forbidden | TooManyRequests

  // ---------------------------------------------------------------------
  // Client address (`get_client_ip` and the middlewares' `_get_client_ip`)

  /** A header value counts only when present and not empty (Python truthiness). */
  predicate Truthy(h: Option<string>) {
    h.Some? && h.value != ""
  }

  /** The address a request is attributed to: the first comma-separated
      element of X-Forwarded-For, stripped; else X-Real-IP, stripped; else the
      connection's host as given; else "unknown". */
  function ClientIp(forwarded: Option<string>, realIp: Option<string>, client: Option<string>): (r: string)
    ensures Truthy(forwarded) ==> ',' !in r
  {
    if Truthy(forwarded) then
      var first := FirstField(forwarded.value, ',');
      StripWithin(first, ',');
      Strip(first)
    else if Truthy(realIp) then Strip(realIp.value)
    else if client.Some? then client.value
    else "unknown"
  }

  /** Stripping never brings in a character. */
  lemma StripWithin(s: string, c: char)
    requires c !in s
    ensures c !in Strip(s)
  {
    var r := Strip(s);
    var i := SpaceEnd(s, 0);
    assert forall k :: 0 <= k < |r| ==> r[k] == s[i + k];
  }

  /** Only the first hop of X-Forwarded-For counts: whatever follows the
      first comma, and the other headers, make no difference. */
  lemma FirstHopWins(h: string, first: string, realIp: Option<string>, client: Option<string>)
    requires StartsWith(h, first) && |first| < |h| && h[|first|] == ',' && ',' !in first
    ensures ClientIp(Some(h), realIp, client) == Strip(first)
  {
    var r := FirstField(h, ',');
    assert forall j :: 0 <= j < |r| ==> h[j] == r[j];
    assert forall j :: 0 <= j < |first| ==> h[j] == first[j];
    assert |r| == |first|;
    assert r == first;
  }

  /** A header holding only an address is that address without its
      surrounding white space. */
  lemma SingleHop(h: string, realIp: Option<string>, client: Option<string>)
    requires h != "" && ',' !in h
    ensures ClientIp(Some(h), realIp, client) == Strip(h)
  {
  }

  /** An empty X-Forwarded-For is skipped like a missing one. */
  lemma EmptyForwardedSkipped(realIp: Option<string>, client: Option<string>)
    ensures ClientIp(Some(""), realIp, client) == ClientIp(None, realIp, client)
  {
  }

  /** Without headers the connection's host is used, and without a
      connection the address is "unknown". */
  lemma FallbackAddress(realIp: Option<string>, client: Option<string>)
    requires !Truthy(realIp)
    ensures client.Some? ==> ClientIp(None, realIp, client) == client.value
    ensures client.None? ==> ClientIp(None, realIp, client) == "unknown"
  {
  }

  // ---------------------------------------------------------------------
  // Path traversal guard (`PathTraversalMiddleware`)

  /** `ALLOWED_PATHS`, matched at the start of the path: the root alone
      (Python's `$` also matches before one final newline), or anything under
      "/api/" or "/assets/". The match is case-sensitive. */
  predicate AllowedPath(path: string) {
    path == "/" || path == "/\n" || StartsWith(path, "/api/") || StartsWith(path, "/assets/")
  }

  /** `PATH_TRAVERSAL_PATTERNS` as plain texts. The three patterns with a
      character class (`..` then `[\/]`, `[%]2f` or `[%]5c`) match exactly
      what "../", "..\", "..%2f" and "..%5c" match, so they add no entry. */
  const TraversalPatterns: seq<string> := [
    "../", "..\\", "%2e%2e/", "%252e%252e/", "..%2f", "..%5c", "~/",
    "%2fetc%2f", "%5cetc%5c", "%2e%2e%2f", "%2e%2e%5c"]

  /** The case-insensitive search for any pattern. The patterns' letters are
      `c`, `e`, `f` and `t`, which no character outside ASCII folds to, so
      ASCII lower-casing of the path is the whole of the case folding. */
  predicate Traversal(path: string) {
    exists p :: p in TraversalPatterns && Contains(Lower(path), p)
  }

  /** `dispatch`'s decision: a path off the allowed list that holds a
      traversal pattern is refused. */
  function PathDecision(path: string): (v: Verdict)
    ensures v != TooManyRequests
  {
    if !AllowedPath(path) && Traversal(path) then Forbidden else Pass
  }

  /** Allowed paths are never inspected, whatever they contain. */
  lemma AllowedNeverBlocked(path: string)
    requires AllowedPath(path)
    ensures PathDecision(path) == Pass
  {
  }

  /** Every pattern holds a '.', a '%' or a '~'. */
  lemma PatternMarks(p: string)
    requires p in TraversalPatterns
    ensures '.' in p || '%' in p || '~' in p
  {
    assert p[0] == '.' || p[0] == '%' || p[0] == '~';
  }

  /** A path with none of '.', '%' and '~' is never refused. */
  lemma PlainPathPasses(path: string)
    requires '.' !in path && '%' !in path && '~' !in path
    ensures PathDecision(path) == Pass
  {
    var low := Lower(path);
    assert '.' !in low && '%' !in low && '~' !in low by {
      forall i | 0 <= i < |low| ensures low[i] != '.' && low[i] != '%' && low[i] != '~' {
        assert path[i] != '.' && path[i] != '%' && path[i] != '~';
      }
    }
    forall p | p in TraversalPatterns
      ensures !Contains(low, p)
    {
      PatternMarks(p);
      if '.' in p { NotContainsMissingChar(low, p, '.'); }
      else if '%' in p { NotContainsMissingChar(low, p, '%'); }
      else { NotContainsMissingChar(low, p, '~'); }
    }
  }

  /** The search ignores letter case: a path and its lower-cased form hold
      the same patterns. */
  lemma TraversalIgnoresCase(path: string)
    ensures Traversal(path) <==> Traversal(Lower(path))
  {
    assert Lower(Lower(path)) == Lower(path);
  }

  /** A "../" anywhere in a path off the allowed list gets it refused. */
  lemma DotDotSlashRefused(path: string, k: nat)
    requires !AllowedPath(path) && OccursAt(path, "../", k)
    ensures PathDecision(path) == Forbidden
  {
    var low := Lower(path);
    assert low[k..k + 3] == path[k..k + 3] by {
      forall i | k <= i < k + 3 ensures low[i] == path[i] {
        assert path[i] == path[k..k + 3][i - k];
      }
    }
    assert OccursAt(low, "../", k);
    assert Contains(low, "../");
    assert "../" in TraversalPatterns;
  }

  /** An encoded "../" is refused in upper case as well: "%2E%2E/" is
      "%2e%2e/" after lower-casing. */
  lemma EncodedUpperRefused(path: string, k: nat)
    requires !AllowedPath(path) && OccursAt(path, "%2E%2E/", k)
    ensures PathDecision(path) == Forbidden
  {
    var low := Lower(path);
    assert low[k..k + 7] == "%2e%2e/" by {
      forall i | k <= i < k + 7 ensures low[i] == "%2e%2e/"[i - k] {
        assert path[i] == path[k..k + 7][i - k];
      }
    }
    assert OccursAt(low, "%2e%2e/", k);
    assert Contains(low, "%2e%2e/");
    assert "%2e%2e/" in TraversalPatterns;
  }

  // ---------------------------------------------------------------------
  // Blacklist (`IPBlacklistManager`)

  /** `ban_duration`: 24 hours in seconds. */
  const DefaultBanDuration: int := 24 * 60 * 60

  /** `self.suspicious_counts[ip]` of a `defaultdict(int)`. */
  function CountOf(counts: map<string, int>, ip: string): int {
    if ip in counts then counts[ip] else 0
  }

  /** `duration or self.ban_duration`: a missing or zero duration means the
      default, any other (a negative one too) is used as given. */
  function BanLength(duration: Option<int>): (d: int)
    ensures duration.Some? && duration.value != 0 ==> d == duration.value
    ensures duration.None? || duration.value == 0 ==> d == DefaultBanDuration
  {
    if duration.Some? && duration.value != 0 then duration.value else DefaultBanDuration
  }

  /** The blacklist after `is_blacklisted(ip)` at `now`: an entry whose
      expiry has passed is deleted. */
  function Expire(blacklist: map<string, real>, ip: string, now: real): (b: map<string, real>)
    ensures b.Keys <= blacklist.Keys
    ensures forall x :: x in b ==> b[x] == blacklist[x]
    ensures ip in b <==> ip in blacklist && now <= blacklist[ip]
    ensures forall x :: x != ip ==> (x in b <==> x in blacklist)
  {
    if ip in blacklist && now > blacklist[ip] then blacklist - {ip} else blacklist
  }

  /** The two dictionaries after `report_suspicious(ip)` at `now`: the count
      goes up by one, and once it reaches the threshold the address is banned
      for the default duration from now. */
  function Report(blacklist: map<string, real>, counts: map<string, int>, ip: string, now: real,
                  threshold: int): (map<string, real>, map<string, int>)
  {
    var c := CountOf(counts, ip) + 1;
    (if c >= threshold then blacklist[ip := now + DefaultBanDuration as real] else blacklist, counts[ip := c])
  }

  /** Reports from one address at the given times, one after another. */
  function ReportAll(blacklist: map<string, real>, counts: map<string, int>, ip: string, times: seq<real>,
                     threshold: int): (map<string, real>, map<string, int>)
  {
    if times == [] then (blacklist, counts)
    else
      var prev := ReportAll(blacklist, counts, ip, times[..|times| - 1], threshold);
      Report(prev.0, prev.1, ip, times[|times| - 1], threshold)
  }

  /** A run of reports from one address counts every one of them, and is
      never reset by a ban: while the count stays below the threshold the
      address's entry is untouched; once it has reached it, the latest report
      has banned the address for a day from that report. Other addresses are
      not affected. */
  lemma {:induction false} RepeatedReports(blacklist: map<string, real>, counts: map<string, int>, ip: string,
                                           times: seq<real>, threshold: int)
    ensures var (b, c) := ReportAll(blacklist, counts, ip, times, threshold);
            CountOf(c, ip) == CountOf(counts, ip) + |times|
            && (CountOf(counts, ip) + |times| < threshold ==>
                  (ip in b <==> ip in blacklist) && (ip in b ==> b[ip] == blacklist[ip]))
            && (times != [] && CountOf(counts, ip) + |times| >= threshold ==>
                  ip in b && b[ip] == times[|times| - 1] + DefaultBanDuration as real)
            && (forall x :: x != ip ==> CountOf(c, x) == CountOf(counts, x))
            && (forall x :: x != ip ==> (x in b <==> x in blacklist) && (x in b ==> b[x] == blacklist[x]))
  {
    if times != [] {
      RepeatedReports(blacklist, counts, ip, times[..|times| - 1], threshold);
    }
  }

  /** With the default threshold, a fresh address is banned by its third
      report and not before. */
  lemma ThirdReportBans(blacklist: map<string, real>, counts: map<string, int>, ip: string, t1: real, t2: real, t3: real)
    requires ip !in counts && ip !in blacklist
    ensures ip !in ReportAll(blacklist, counts, ip, [t1, t2], 3).0
    ensures var b := ReportAll(blacklist, counts, ip, [t1, t2, t3], 3).0;
            ip in b && b[ip] == t3 + DefaultBanDuration as real
  {
    RepeatedReports(blacklist, counts, ip, [t1, t2], 3);
    RepeatedReports(blacklist, counts, ip, [t1, t2, t3], 3);
    assert [t1, t2, t3][..2] == [t1, t2];
  }

  /** A ban made at `t` for `d` seconds holds at every moment up to and
      including `t + d`, and is gone after. */
  lemma BanHoldsUntilExpiry(blacklist: map<string, real>, ip: string, t: real, d: int, now: real)
    ensures ip in Expire(blacklist[ip := t + d as real], ip, now) <==> now <= t + d as real
  {
  }

  class IPBlacklistManager {
    /** `blacklist`: address to expiry time. */
    var blacklist: map<string, real>
    /** `suspicious_counts` */
    var suspiciousCounts: map<string, int>
    /** `auto_ban_threshold` */
    const autoBanThreshold: int

    constructor (autoBanThreshold: int)
      ensures blacklist == map[] && suspiciousCounts == map[] && this.autoBanThreshold == autoBanThreshold
    {
      blacklist := map[];
      suspiciousCounts := map[];
      this.autoBanThreshold := autoBanThreshold;
    }

    /** `is_blacklisted(ip)` at `now`: false for an unknown address; an
        expired entry is deleted and answers false; at the expiry time itself
        the address is still banned. */
    method IsBlacklisted(ip: string, now: real) returns (banned: bool)
      modifies this`blacklist
      ensures banned <==> ip in old(blacklist) && now <= old(blacklist)[ip]
      ensures blacklist == Expire(old(blacklist), ip, now)
    {
      if ip !in blacklist {
        return false;
      }
      if now > blacklist[ip] {
        blacklist := blacklist - {ip};
        return false;
      }
      return true;
    }

    /** `blacklist_ip(ip, duration)` at `now`. */
    method BlacklistIp(ip: string, duration: Option<int>, now: real)
      modifies this`blacklist
      ensures blacklist == old(blacklist)[ip := now + BanLength(duration) as real]
    {
      var banDuration := BanLength(duration);
      blacklist := blacklist[ip := now + banDuration as real];
    }

    /** `report_suspicious(ip)` at `now`. */
    method ReportSuspicious(ip: string, now: real)
      modifies this`blacklist, this`suspiciousCounts
      ensures (blacklist, suspiciousCounts)
              == Report(old(blacklist), old(suspiciousCounts), ip, now, autoBanThreshold)
    {
      suspiciousCounts := suspiciousCounts[ip := CountOf(suspiciousCounts, ip) + 1];
      if suspiciousCounts[ip] >= autoBanThreshold {
        BlacklistIp(ip, None, now);
      }
    }

    /** `whitelist_ip(ip)`: the ban and the count both go. */
    method WhitelistIp(ip: string)
      modifies this`blacklist, this`suspiciousCounts
      ensures blacklist == old(blacklist) - {ip}
      ensures suspiciousCounts == old(suspiciousCounts) - {ip}
      ensures CountOf(suspiciousCounts, ip) == 0
    {
      if ip in blacklist {
        blacklist := blacklist - {ip};
      }
      if ip in suspiciousCounts {
        suspiciousCounts := suspiciousCounts - {ip};
      }
    }
  }

  /** `IPBlacklistMiddleware.dispatch`: a banned address gets 403. */
  method BlacklistDispatch(manager: IPBlacklistManager, clientIp: string, now: real) returns (v: Verdict)
    modifies manager`blacklist
    ensures v == Forbidden <==> clientIp in old(manager.blacklist) && now <= old(manager.blacklist)[clientIp]
    ensures v != TooManyRequests
    ensures manager.blacklist == Expire(old(manager.blacklist), clientIp, now)
  {
    var banned := manager.IsBlacklisted(clientIp, now);
    v := if banned then Forbidden else Pass;
  }

  /** `PathTraversalMiddleware.dispatch`: a refused path is reported to the
      blacklist manager, when there is one. */
  method PathDispatch(manager: IPBlacklistManager?, path: string, clientIp: string, now: real) returns (v: Verdict)
    modifies manager
    ensures v == PathDecision(path)
    ensures manager != null && v == Forbidden ==>
              (manager.blacklist, manager.suspiciousCounts)
              == Report(old(manager.blacklist), old(manager.suspiciousCounts), clientIp, now, manager.autoBanThreshold)
    ensures manager != null && v == Pass ==>
              manager.blacklist == old(manager.blacklist) && manager.suspiciousCounts == old(manager.suspiciousCounts)
  {
    v := PathDecision(path);
    if v == Forbidden && manager != null {
      manager.ReportSuspicious(clientIp, now);
    }
  }

  // ---------------------------------------------------------------------
  // Rate limiter (`RateLimiter`)

  /** `window`: 60 seconds. */
  const Window: real := 60.0

  /** The time stamps `now - t < window` keeps, in their order. */
  function Recent(ts: seq<real>, now: real): (r: seq<real>)
    ensures |r| <= |ts|
    ensures forall t :: t in r <==> t in ts && now - t < Window
  {
    if ts == [] then []
    else
      var t := ts[|ts| - 1];
      Recent(ts[..|ts| - 1], now) + (if now - t < Window then [t] else [])
  }

  /** Nothing is pruned when every time stamp is inside the window. */
  lemma {:induction false} RecentKeepsAll(ts: seq<real>, now: real)
    requires forall i :: 0 <= i < |ts| ==> now - ts[i] < Window
    ensures Recent(ts, now) == ts
  {
    if ts != [] {
      RecentKeepsAll(ts[..|ts| - 1], now);
      assert ts[..|ts| - 1] + [ts[|ts| - 1]] == ts;
    }
  }

  /** Pruning twice at the same moment prunes no more. */
  lemma {:induction false} RecentIdempotent(ts: seq<real>, now: real)
    ensures Recent(Recent(ts, now), now) == Recent(ts, now)
  {
    var r := Recent(ts, now);
    assert forall i :: 0 <= i < |r| ==> r[i] in r;
    RecentKeepsAll(r, now);
  }

  /** What `is_allowed` stores for the address, given its stored time stamps. */
  function Stored(ts: seq<real>, now: real, limit: int): seq<real> {
    var kept := Recent(ts, now);
    if |kept| < limit then kept + [now] else kept
  }

  /** Requests from one address at the given times: how many were allowed,
      and the time stamps stored at the end. */
  function Run(ts: seq<real>, times: seq<real>, limit: int): (r: (nat, seq<real>))
  {
    if times == [] then (0, ts)
    else
      var prev := Run(ts, times[..|times| - 1], limit);
      var now := times[|times| - 1];
      (if |Recent(prev.1, now)| < limit then prev.0 + 1 else prev.0, Stored(prev.1, now, limit))
  }

  function Max(a: int, b: int): int {
    if a < b then b else a
  }

  /** Within one window of 60 seconds, at most `requests_per_minute`
      requests from an address are allowed, counting the ones already
      stored: nothing is pruned, and every allowed request is stored. */
  lemma {:induction false} BurstBound(ts: seq<real>, times: seq<real>, limit: int, t0: real)
    requires forall i :: 0 <= i < |ts| ==> t0 <= ts[i] < t0 + Window
    requires forall i :: 0 <= i < |times| ==> t0 <= times[i] < t0 + Window
    ensures Run(ts, times, limit).0 <= Max(limit - |ts|, 0)
    ensures |Run(ts, times, limit).1| == |ts| + Run(ts, times, limit).0
    ensures forall i :: 0 <= i < |Run(ts, times, limit).1| ==> t0 <= Run(ts, times, limit).1[i] < t0 + Window
  {
    if times != [] {
      var init := times[..|times| - 1];
      BurstBound(ts, init, limit, t0);
      var prev := Run(ts, init, limit);
      var now := times[|times| - 1];
      RecentKeepsAll(prev.1, now);
    }
  }

  class RateLimiter {
    /** `requests_per_minute` */
    const requestsPerMinute: int
    /** `requests`: address to the time stamps of its allowed requests. */
    var requests: map<string, seq<real>>

    /** No address has more time stamps stored than the limit allows. */
    ghost predicate Valid()
      reads this
    {
      forall ip :: ip in requests ==> |requests[ip]| <= Max(requestsPerMinute, 0)
    }

    constructor (requestsPerMinute: int)
      ensures Valid() && requests == map[] && this.requestsPerMinute == requestsPerMinute
    {
      this.requestsPerMinute := requestsPerMinute;
      requests := map[];
    }

    /** `is_allowed(ip)` at `now`: the address's old time stamps are pruned
        and stored back; a request over the limit is refused and not
        recorded, one under it is recorded as `now` and allowed. */
    method IsAllowed(ip: string, now: real) returns (allowed: bool)
      requires Valid()
      modifies this`requests
      ensures Valid()
      ensures var ts := if ip in old(requests) then old(requests)[ip] else [];
              (allowed <==> |Recent(ts, now)| < requestsPerMinute)
              && requests == old(requests)[ip := Stored(ts, now, requestsPerMinute)]
      ensures |Recent(requests[ip], now)| <= Max(requestsPerMinute, 0)
    {
      var ts := if ip in requests then requests[ip] else [];
      var kept := Recent(ts, now);
      requests := requests[ip := kept];
      if |kept| >= requestsPerMinute {
        return false;
      }
      requests := requests[ip := kept + [now]];
      allowed := true;
    }
  }

  /** `RateLimitMiddleware.dispatch`: a refused request gets 429. */
  method RateLimitDispatch(limiter: RateLimiter, clientIp: string, now: real) returns (v: Verdict)
    requires limiter.Valid()
    modifies limiter`requests
    ensures limiter.Valid()
    ensures var ts := if clientIp in old(limiter.requests) then old(limiter.requests)[clientIp] else [];
            (v == TooManyRequests <==> |Recent(ts, now)| >= limiter.requestsPerMinute)
            && limiter.requests == old(limiter.requests)[clientIp := Stored(ts, now, limiter.requestsPerMinute)]
    ensures v != Forbidden
  {
    var allowed := limiter.IsAllowed(clientIp, now);
    v := if allowed then Pass else TooManyRequests;
  }

  // ---------------------------------------------------------------------
  // Response headers (`SecurityHeadersMiddleware`)

  /** Response headers are held as Starlette's `MutableHeaders` stores
      them: under the lower-cased name, so `response.headers[name] = value`
      replaces the entry of that name whatever case the application wrote
      it in. The names `dispatch` sets, lower-cased: */
  const HstsHeader: string := "strict-transport-security"
  const HstsValue: string := "max-age=31536000; includeSubDomains"
  const CspHeader: string := "content-security-policy"

  /** The headers `dispatch` sets on every response. */
  const FixedHeaders: map<string, string> := map[
    "x-content-type-options" := "nosniff",
    "x-frame-options" := "DENY",
    "x-xss-protection" := "1; mode=block",
    "referrer-policy" := "strict-origin-when-cross-origin"]

  /** The response headers after `dispatch`: the fixed four, the policy
      when CSP is on, and the HSTS header only when HSTS is on and the
      request came over https, each replacing the stored header of that
      name; every other header is kept. */
  function SecuredHeaders(headers: map<string, string>, enableHsts: bool, enableCsp: bool,
                          scheme: string, csp: string): (r: map<string, string>)
    ensures forall k :: k in FixedHeaders ==> k in r && r[k] == FixedHeaders[k]
    ensures enableCsp ==> CspHeader in r && r[CspHeader] == csp
    ensures enableHsts && scheme == "https" ==> HstsHeader in r && r[HstsHeader] == HstsValue
    ensures forall k :: k in headers && k !in FixedHeaders
                        && !(enableCsp && k == CspHeader) && !(enableHsts && scheme == "https" && k == HstsHeader)
                        ==> k in r && r[k] == headers[k]
    ensures forall k :: k in r ==> k in headers || k in FixedHeaders
                                   || (enableCsp && k == CspHeader) || (enableHsts && scheme == "https" && k == HstsHeader)
  {
    var h := headers + FixedHeaders;
    var h := if enableCsp then h[CspHeader := csp] else h;
    if enableHsts && scheme == "https" then h[HstsHeader := HstsValue] else h
  }

  /** In the sense of section 7.2 of RFC 6797, the HSTS header is never
      added to a response over plain http (or any scheme but https), and it
      is always added over https when HSTS is on. */
  lemma HstsOnlyOverHttps(headers: map<string, string>, enableHsts: bool, enableCsp: bool,
                          scheme: string, csp: string)
    requires HstsHeader !in headers
    ensures HstsHeader in SecuredHeaders(headers, enableHsts, enableCsp, scheme, csp)
            <==> enableHsts && scheme == "https"
  {
    assert HstsHeader !in FixedHeaders;
    assert HstsHeader != CspHeader;
  }
}
