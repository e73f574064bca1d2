/**
 * Cookie attributes chosen at construction (`normalizeCookieOptions`): the
 * lifetime and fixed expiry are split off, the remaining options are merged
 * over the defaults, `SameSite=None` forces `Secure`, and a null domain is dropped.
 * Whether the request came over TLS is an input; sending the cookie is not modelled.
 */
module Cookies {
  import opened Php
  import opened Wrappers

  /** 30 days, the default cookie lifetime in seconds. */
  const DEFAULT_LIFETIME: int := 86400 * 30

  datatype CookieConfig = CookieConfig(options: map<string, Value>, lifetime: int, expires: Option<int>)

  function Defaults(https: bool): map<string, Value> {
    map["path" := Str("/"), "secure" := Bool(https), "httponly" := Bool(true), "samesite" := Str("Lax")]
  }

  /** `strcasecmp((string) $v, 'none') === 0`: only a string can read as "none". */
  predicate IsSameSiteNone(v: Value) {
    v.Str? && EqualsIgnoreCase(v.s, "none")
  }

  /** The merged option value for `name`: the caller's, else the default. */
  function Chosen(options: map<string, Value>, https: bool, name: string): Value
    requires name in Defaults(https)
  {
    if name in options then options[name] else Defaults(https)[name]
  }

  /**
   * `normalizeCookieOptions`: split off the lifetime and fixed expiry, merge the
   * remaining options over the defaults, force Secure for SameSite=None, drop a null domain.
   */
  function NormalizeCookieOptions(options: map<string, Value>, https: bool): CookieConfig
  {
    var lifetime := if "lifetime" in options then IntCast(options["lifetime"]) else DEFAULT_LIFETIME;
    var expires := if "expires" in options && options["expires"] != Null then Some(IntCast(options["expires"])) else None;
    var merged := Defaults(https) + (options - {"lifetime", "expires"});
    var secured :=
      if IsSameSiteNone(merged["samesite"]) && merged["secure"] != Bool(true) then merged["secure" := Bool(true)]
      else merged;
    var final := if "domain" in secured && secured["domain"] == Null then secured - {"domain"} else secured;
    CookieConfig(final, lifetime, expires)
  }

  /** The lifetime and expiry are split off; the defaults are present unless overridden; SameSite=None forces Secure. */
  lemma CookieDefaultsAndSecure(options: map<string, Value>, https: bool)
    ensures var c := NormalizeCookieOptions(options, https);
            && c.lifetime == (if "lifetime" in options then IntCast(options["lifetime"]) else DEFAULT_LIFETIME)
            && c.expires == (if "expires" in options && options["expires"] != Null then Some(IntCast(options["expires"])) else None)
            && "lifetime" !in c.options && "expires" !in c.options
    ensures var c := NormalizeCookieOptions(options, https);
            && "path" in c.options && c.options["path"] == Chosen(options, https, "path")
            && "httponly" in c.options && c.options["httponly"] == Chosen(options, https, "httponly")
            && "samesite" in c.options && c.options["samesite"] == Chosen(options, https, "samesite")
    ensures var c := NormalizeCookieOptions(options, https);
            && "secure" in c.options
            && (IsSameSiteNone(Chosen(options, https, "samesite")) ==> c.options["secure"] == Bool(true))
            && (!IsSameSiteNone(Chosen(options, https, "samesite")) ==> c.options["secure"] == Chosen(options, https, "secure"))
  {
  }

  /** A null domain is dropped, any other domain kept, and every other caller option passes through unchanged. */
  lemma CookieOptionsPassThrough(options: map<string, Value>, https: bool)
    ensures var c := NormalizeCookieOptions(options, https);
            && ("domain" in c.options <==> "domain" in options && options["domain"] != Null)
            && ("domain" in c.options ==> c.options["domain"] == options["domain"])
    ensures var c := NormalizeCookieOptions(options, https);
            forall k :: k !in {"lifetime", "expires", "domain"} && k !in Defaults(https) ==>
              (k in c.options <==> k in options) && (k in options ==> c.options[k] == options[k])
  {
  }
}
