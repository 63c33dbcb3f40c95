/** Country-based filtering (`src/geolocation.py`): which countries a
    manager admits, what it answers for an address, and the middleware's
    decision. The GeoIP2 country database is a parameter `db`: the country
    code it holds for the stripped address, or `None` when the text is not
    an address, the address is not in it, or it has no code for it. */
module Geolocation {
  import opened Wrappers
  import opened Text
  import opened Security

  /** A `GeoIPManager`: whether its database is loaded (with a reader), and
      the normalised `allowed_countries`. */
  datatype GeoIpManager = GeoIpManager(loaded: bool, allowed: Option<seq<string>>)

  /** `allowed_countries` as the constructor keeps it: a missing list, an
      empty one and the lone wildcard all mean no restriction. */
  function NormalizeAllowed(allowed: Option<seq<string>>): (r: Option<seq<string>>)
    ensures r.None? <==> allowed.None? || allowed.value == [] || allowed.value == ["*"]
    ensures r.Some? ==> r == allowed
  {
    if allowed.Some? && allowed.value != [] && allowed.value != ["*"] then allowed else None
  }

  /** The manager the constructor builds, given whether the database could
      be found and opened. */
  function NewManager(databaseOpened: bool, allowed: Option<seq<string>>): (m: GeoIpManager)
    ensures m.loaded == databaseOpened && m.allowed == NormalizeAllowed(allowed)
  {
    GeoIpManager(databaseOpened, NormalizeAllowed(allowed))
  }

  /** `get_country_code(ip)`. */
  function CountryCode(m: GeoIpManager, db: string -> Option<string>, ip: string): (r: Option<string>)
    ensures !m.loaded ==> r.None?
    ensures m.loaded ==> r == db(Strip(ip))
  {
    if !m.loaded then None else db(Strip(ip))
  }

  /** `is_allowed_ip(ip)`. */
  function IsAllowedIp(m: GeoIpManager, db: string -> Option<string>, ip: string): bool {
    var code := CountryCode(m, db, ip);
    code.None? || m.allowed.None? || code.value in m.allowed.value
  }

  /** An address is refused exactly when the database is loaded, knows its
      country, the manager is restricted, and the country is not listed. */
  lemma RefusedExactly(m: GeoIpManager, db: string -> Option<string>, ip: string)
    ensures !IsAllowedIp(m, db, ip)
            <==> m.loaded && db(Strip(ip)).Some? && m.allowed.Some? && db(Strip(ip)).value !in m.allowed.value
  {
  }

  /** A manager built with no list, an empty list or ["*"] admits every
      address, as does one whose database could not be opened. */
  lemma UnrestrictedAdmitsAll(databaseOpened: bool, allowed: Option<seq<string>>, db: string -> Option<string>, ip: string)
    requires allowed.None? || allowed.value == [] || allowed.value == ["*"] || !databaseOpened
    ensures IsAllowedIp(NewManager(databaseOpened, allowed), db, ip)
  {
  }

  /** The wildcard only lifts the restriction on its own: beside a country
      it is an ordinary entry, and other countries stay out. */
  lemma WildcardBesideCountry(db: string -> Option<string>, ip: string, c: string, other: string)
    requires db(Strip(ip)) == Some(other) && other != c && other != "*"
    ensures !IsAllowedIp(NewManager(true, Some([c, "*"])), db, ip)
  {
    assert [c, "*"] != ["*"];
  }

  /** A listed country is admitted. */
  lemma ListedCountryAdmitted(m: GeoIpManager, db: string -> Option<string>, ip: string)
    requires m.allowed.Some? && db(Strip(ip)).Some? && db(Strip(ip)).value in m.allowed.value
    ensures IsAllowedIp(m, db, ip)
  {
  }

  /** `IPWhitelistMiddleware.dispatch` for a request with the given headers:
      off or without a database it passes everything; otherwise it refuses
      the addresses the manager does not admit. */
  function GeoDecision(enabled: bool, m: GeoIpManager, db: string -> Option<string>,
                       forwarded: Option<string>, realIp: Option<string>, client: Option<string>): (v: Verdict)
    ensures v != TooManyRequests
  {
    if !enabled || !m.loaded then Pass
    else if !IsAllowedIp(m, db, ClientIp(forwarded, realIp, client)) then Forbidden
    else Pass
  }

  /** The middleware answers 403 exactly when it is on and the manager
      refuses the request's address; a disabled filter or a missing
      database lets everything through. */
  lemma GeoForbiddenExactly(enabled: bool, m: GeoIpManager, db: string -> Option<string>,
                            forwarded: Option<string>, realIp: Option<string>, client: Option<string>)
    ensures GeoDecision(enabled, m, db, forwarded, realIp, client) == Forbidden
            <==> enabled && !IsAllowedIp(m, db, ClientIp(forwarded, realIp, client))
    ensures !enabled || !m.loaded ==> GeoDecision(enabled, m, db, forwarded, realIp, client) == Pass
  {
  }

  /** The country is looked up for the first hop of X-Forwarded-For, so a
      proxy chain cannot change the decision after its first comma. */
  lemma GeoUsesFirstHop(enabled: bool, m: GeoIpManager, db: string -> Option<string>,
                        h: string, first: string, realIp: Option<string>, client: Option<string>)
    requires StartsWith(h, first) && |first| < |h| && h[|first|] == ',' && ',' !in first
    ensures GeoDecision(enabled, m, db, Some(h), realIp, client)
            == GeoDecision(enabled, m, db, Some(first + ","), None, None)
  {
    FirstHopWins(h, first, realIp, client);
    var h2 := first + ",";
    assert h2[..|first|] == first;
    FirstHopWins(h2, first, None, None);
  }
}
