/** sanitizeURL: only http: and https: image links are accepted.  Parsing
    and canonicalising the address (WHATWG `new URL`, `toString()`) is not
    modelled: a link carries what that parser made of its `href`. */
module Url {
  import opened Base

  datatype ParsedUrl = ParsedUrl(protocol: string, serialized: string)

  /** The first `<a>` inside a clue text: its `href`, and the result of
      `new URL(href)` — None when the constructor throws. */
  datatype Link = Link(href: string, parsed: Option<ParsedUrl>)

  /** `{ url, error }` as sanitizeURL returns it; `error: null` is None. */
  datatype Sanitized = Sanitized(url: string, error: Option<string>)

  /** A fixed stand-in for the message of the TypeError `new URL` throws for
      an address it cannot parse; the real wording depends on the engine. */
  const INVALID_URL_MESSAGE: string := "Invalid URL"

  predicate AllowedProtocol(protocol: string)
  {
    protocol == "http:" || protocol == "https:"
  }

  function SanitizeURL(link: Link): (r: Sanitized)
    ensures r.error.None? <==> link.parsed.Some? && AllowedProtocol(link.parsed.value.protocol)
    ensures r.error.None? ==> r.url == link.parsed.value.serialized
    ensures r.error.Some? ==> r.url == "" && Present(r.error)
    ensures link.parsed.Some? && !AllowedProtocol(link.parsed.value.protocol) ==>
              r.error == Some("invalid protocol " + link.parsed.value.protocol)
  {
    match link.parsed
    case None => Sanitized("", Some(INVALID_URL_MESSAGE))
    case Some(url) =>
      if url.protocol != "http:" && url.protocol != "https:" then
        Sanitized("", Some("invalid protocol " + url.protocol))
      else
        Sanitized(url.serialized, None)
  }
}
