/** The scheme defaulting shared by the add dialog, the add form and the
    click handler of a feed entry: `startsWith("http://")` /
    `startsWith("https://")`, case-sensitive. */
module Urls {
  import opened Results

  predicate HasHttpScheme(u: string) {
    "http://" <= u || "https://" <= u
  }

  /** Prepends `https://` exactly when `u` lacks an `http://`/`https://`
      prefix; the result always has one. */
  function WithHttps(u: string): (r: string)
    ensures HasHttpScheme(r)
    ensures HasHttpScheme(u) <==> r == u
    ensures !HasHttpScheme(u) ==> r == "https://" + u
  {
    if HasHttpScheme(u) then u else "https://" + u
  }

  /** Normalising twice is normalising once. */
  lemma WithHttpsIdempotent(u: string)
    ensures WithHttps(WithHttps(u)) == WithHttps(u)
  {
  }

  /** `new URL(u).hostname`, or `u` itself when the parser throws;
      `hostOf` is the platform URL parser. */
  function HostnameOr(u: string, hostOf: string -> Option<string>): (h: string)
    ensures hostOf(u).None? ==> h == u
    ensures hostOf(u).Some? ==> h == hostOf(u).value
  {
    match hostOf(u)
    case Some(host) => host
    case None => u
  }
}
