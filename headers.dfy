/**
 * The default-header middleware: after the handler has produced a response, a
 * response without a Content-Type is declared HTML, and any response that is
 * not HTML is made cacheable for ten minutes.
 */
module Headers {
  const ContentType: string := "content-type"
  const CacheControl: string := "cache-control"
  const HtmlContentType: string := "text/html; charset=utf-8"
  const TenMinutes: string := "max-age=600"

  /** Header names are compared in lower case; each name carries one value. */
  type HeaderMap = map<string, string>

  /** The headers after the two updates, as a value. */
  function WithDefaults(headers: HeaderMap): HeaderMap
  {
    var typed := if ContentType in headers then headers else headers[ContentType := HtmlContentType];
    if typed[ContentType] != HtmlContentType then typed[CacheControl := TenMinutes] else typed
  }

  /** A response whose headers the middleware updates in place. */
  class Response {
    var headers: HeaderMap

    constructor (headers: HeaderMap)
      ensures this.headers == headers
    {
      this.headers := headers;
    }

    /** The middleware's two conditional inserts. */
    method ApplyDefaults()
      modifies this
      ensures headers == WithDefaults(old(headers))
    {
      if ContentType !in headers {
        headers := headers[ContentType := HtmlContentType];
      }
      if headers[ContentType] != HtmlContentType {
        headers := headers[CacheControl := TenMinutes];
      }
    }
  }

  /** A response without a Content-Type becomes HTML, and gains no Cache-Control. */
  lemma MissingTypeBecomesHtml(headers: HeaderMap)
    requires ContentType !in headers
    ensures ContentType in WithDefaults(headers) && WithDefaults(headers)[ContentType] == HtmlContentType
    ensures (CacheControl in WithDefaults(headers)) == (CacheControl in headers)
    ensures CacheControl in headers ==> WithDefaults(headers)[CacheControl] == headers[CacheControl]
  {
  }

  /** An existing Content-Type is never overwritten. */
  lemma ExistingTypeKept(headers: HeaderMap)
    requires ContentType in headers
    ensures ContentType in WithDefaults(headers) && WithDefaults(headers)[ContentType] == headers[ContentType]
  {
  }

  /**
   * Cache-Control is "max-age=600" whenever the resulting Content-Type is not the
   * HTML value, and is left as it was when it is.
   */
  lemma CacheControlRule(headers: HeaderMap)
    ensures var out := WithDefaults(headers);
      ContentType in out && (out[ContentType] != HtmlContentType ==> CacheControl in out && out[CacheControl] == TenMinutes)
    ensures var out := WithDefaults(headers);
      ContentType in out && out[ContentType] == HtmlContentType ==>
        (CacheControl in out <==> CacheControl in headers)
        && (CacheControl in headers ==> out[CacheControl] == headers[CacheControl])
  {
  }

  /** Every header other than Content-Type and Cache-Control is left alone, and none is removed. */
  lemma OtherHeadersUnchanged(headers: HeaderMap, name: string)
    requires name != ContentType && name != CacheControl
    ensures (name in WithDefaults(headers)) == (name in headers)
    ensures name in headers ==> WithDefaults(headers)[name] == headers[name]
    ensures headers.Keys <= WithDefaults(headers).Keys
  {
  }

  /** Passing a response through the middleware twice changes nothing more. */
  lemma DefaultsIdempotent(headers: HeaderMap)
    ensures WithDefaults(WithDefaults(headers)) == WithDefaults(headers)
  {
  }
}
