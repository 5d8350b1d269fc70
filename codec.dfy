/**
 * What the code generated by `expand_all` does at run time, over abstract
 * HTTP messages: building the outgoing request's URI and Authorization
 * header, splitting an incoming request's path into segments, treating an
 * empty body as `{}`, and branching on the status of an incoming response.
 * JSON (de)serialisation and the per-field conversions are parameters.
 */
module Codec {
  import opened Wrappers
  import opened Api
  import opened Expand

  type Byte = b: int | 0 <= b < 256

  datatype Header = Header(name: string, value: string)

  const AuthorizationName := "authorization"
  const ContentTypeName := "content-type"
  const BearerPrefix := "Bearer "

  /** The bytes `{}`. */
  const EmptyJsonObject: seq<Byte> := [0x7B, 0x7D]

  /** The failures of `try_into_http_request` that this model covers. */
  datatype IntoHttpError = NeedsAuthentication | InvalidHeaderValue

  datatype HttpRequest = HttpRequest(httpMethod: string, uri: string, headers: seq<Header>, body: seq<Byte>)

  /**
   * What the helpers of the generated code produce for one request value:
   * the path with its parameters filled in, the query string (empty or
   * starting with `?`), the header pairs of its header fields, and the body.
   */
  datatype OutgoingParts = OutgoingParts(pathString: string, queryString: string, headers: seq<Header>, body: seq<Byte>)

  // ---- URI -------------------------------------------------------------

  predicate EndsWithSlash(s: string)
  {
    |s| > 0 && s[|s| - 1] == '/'
  }

  /** The base URL without its last character when that character is `/`; otherwise the base URL itself. */
  function TrimOneTrailingSlash(baseUrl: string): (r: string)
    ensures EndsWithSlash(baseUrl) ==> r + "/" == baseUrl
    ensures !EndsWithSlash(baseUrl) ==> r == baseUrl
  {
    if EndsWithSlash(baseUrl) then baseUrl[..|baseUrl| - 1] else baseUrl
  }

  /** The outgoing URI: `format!("{}{}{}", trimmed base URL, path, query)`. */
  function RequestUri(baseUrl: string, pathString: string, queryString: string): string
  {
    TrimOneTrailingSlash(baseUrl) + pathString + queryString
  }

  /**
   * The base URL is kept up to one trailing slash: with or without a slash
   * after `base`, the URI is `base`, then the path, then the query; only one
   * slash is removed, so `base + "//"` keeps one of them.
   */
  lemma UriKeepsBaseUpToOneSlash(base: string, pathString: string, queryString: string)
    requires !EndsWithSlash(base)
    ensures RequestUri(base, pathString, queryString) == base + pathString + queryString
    ensures RequestUri(base + "/", pathString, queryString) == base + pathString + queryString
    ensures RequestUri(base + "//", pathString, queryString) == base + "/" + pathString + queryString
  {
  }

  // ---- Authorization -----------------------------------------------------

  /** `HeaderValue::from_str`: every byte is visible ASCII, a space, a tab or part of a non-ASCII character. */
  predicate IsValidHeaderValue(s: string)
  {
    forall i :: 0 <= i < |s| ==> (s[i] as int >= 32 && s[i] as int != 127) || s[i] == '\t'
  }

  /** The `Authorization` header pairs appended after the request's own header fields. */
  function AuthorizationHeaders(sendsAccessToken: bool, accessToken: Option<string>): Result<seq<Header>, IntoHttpError>
  {
    if !sendsAccessToken then Ok([])
    else if accessToken.None? then Err(NeedsAuthentication)
    else if IsValidHeaderValue(BearerPrefix + accessToken.value) then
      Ok([Header(AuthorizationName, BearerPrefix + accessToken.value)])
    else Err(InvalidHeaderValue)
  }

  /**
   * `try_into_http_request` of the `OutgoingRequest` impl generated as `e`
   * describes: the method is the endpoint's, and the token is used exactly
   * when `e.sendsAccessToken` (the `AccessToken` scheme).
   */
  function TryIntoHttpRequest(e: Expansion, parts: OutgoingParts, baseUrl: string, accessToken: Option<string>)
    : (r: Result<HttpRequest, IntoHttpError>)
    ensures r.Ok? ==> r.value.httpMethod == e.metadata.httpMethod && r.value.body == parts.body
    ensures r.Ok? ==> r.value.uri == RequestUri(baseUrl, parts.pathString, parts.queryString)
    ensures !e.sendsAccessToken ==> r.Ok? && r.value.headers == parts.headers
    ensures e.sendsAccessToken && accessToken.None? ==> r == Err(NeedsAuthentication)
    ensures e.sendsAccessToken && accessToken.Some? ==>
      (r.Ok? <==> IsValidHeaderValue(accessToken.value))
      && (r.Ok? ==> r.value.headers == parts.headers + [Header(AuthorizationName, BearerPrefix + accessToken.value)])
      && (r.Err? ==> r.error == InvalidHeaderValue)
  {
    BearerValueValid(if accessToken.Some? then accessToken.value else "");
    match AuthorizationHeaders(e.sendsAccessToken, accessToken)
    case Err(err) => Err(err)
    case Ok(auth) =>
      Ok(HttpRequest(e.metadata.httpMethod, RequestUri(baseUrl, parts.pathString, parts.queryString),
                     parts.headers + auth, parts.body))
  }

  /** `"Bearer " + t` is a valid header value exactly when the token `t` is. */
  lemma BearerValueValid(token: string)
    ensures IsValidHeaderValue(BearerPrefix + token) <==> IsValidHeaderValue(token)
  {
    var v := BearerPrefix + token;
    if IsValidHeaderValue(v) {
      forall i | 0 <= i < |token| ensures (token[i] as int >= 32 && token[i] as int != 127) || token[i] == '\t' {
        assert token[i] == v[i + |BearerPrefix|];
      }
    }
  }

  /** The values of the headers named `name`, in order. */
  function HeaderValues(headers: seq<Header>, name: string): (vs: seq<string>)
    ensures |vs| <= |headers|
  {
    if headers == [] then []
    else (if headers[0].name == name then [headers[0].value] else []) + HeaderValues(headers[1..], name)
  }

  lemma {:induction false} HeaderValuesConcat(a: seq<Header>, b: seq<Header>, name: string)
    ensures HeaderValues(a + b, name) == HeaderValues(a, name) + HeaderValues(b, name)
  {
    if a == [] {
      assert a + b == b;
    } else {
      var ab := a + b;
      assert ab[0] == a[0] && ab[1..] == a[1..] + b;
      var first := if a[0].name == name then [a[0].value] else [];
      assert HeaderValues(ab, name) == first + HeaderValues(a[1..] + b, name);
      assert HeaderValues(a, name) == first + HeaderValues(a[1..], name);
      HeaderValuesConcat(a[1..], b, name);
    }
  }

  /**
   * When the request's own header fields carry no Authorization header, a
   * request that was built carries one exactly under the `AccessToken`
   * scheme, and its value is `Bearer ` followed by the token.
   */
  lemma AuthorizationCarriesToken(e: Expansion, parts: OutgoingParts, baseUrl: string, accessToken: Option<string>)
    requires HeaderValues(parts.headers, AuthorizationName) == []
    requires TryIntoHttpRequest(e, parts, baseUrl, accessToken).Ok?
    ensures var vs := HeaderValues(TryIntoHttpRequest(e, parts, baseUrl, accessToken).value.headers, AuthorizationName);
      if e.sendsAccessToken then
        accessToken.Some? && vs == [BearerPrefix + accessToken.value]
      else vs == []
  {
    if e.sendsAccessToken {
      var h := Header(AuthorizationName, BearerPrefix + accessToken.value);
      HeaderValuesConcat(parts.headers, [h], AuthorizationName);
      assert HeaderValues([h], AuthorizationName) == [h.value];
    }
  }

  // ---- Incoming request --------------------------------------------------

  /** `str::split(sep)`: the pieces between separators, always at least one. */
  function Split(s: string, sep: char): (parts: seq<string>)
    ensures |parts| >= 1
    ensures forall i :: 0 <= i < |parts| ==> sep !in parts[i]
  {
    if s == [] then [""]
    else
      var tail := Split(s[1..], sep);
      if s[0] == sep then [""] + tail
      else [[s[0]] + tail[0]] + tail[1..]
  }

  /** The pieces put back together with `sep` between them. */
  function Join(parts: seq<string>, sep: char): string
    requires |parts| >= 1
  {
    if |parts| == 1 then parts[0] else parts[0] + [sep] + Join(parts[1..], sep)
  }

  /** Splitting loses nothing: joining the pieces gives back the string. */
  lemma {:induction false} JoinOfSplit(s: string, sep: char)
    ensures Join(Split(s, sep), sep) == s
  {
    if s != [] {
      var tail := Split(s[1..], sep);
      JoinOfSplit(s[1..], sep);
      if s[0] == sep {
        assert ([""] + tail)[1..] == tail;
        assert s == [sep] + s[1..];
      } else {
        var parts := [[s[0]] + tail[0]] + tail[1..];
        if |tail| == 1 {
          assert s == [s[0]] + s[1..];
        } else {
          assert parts[1..] == tail[1..];
          assert Join(tail, sep) == tail[0] + [sep] + Join(tail[1..], sep);
          assert s == [s[0]] + s[1..];
        }
      }
    }
  }

  /** A piece without separators followed by a separator starts a new piece. */
  lemma {:induction false} SplitPieceThenSep(w: string, rest: string, sep: char)
    requires sep !in w
    ensures Split(w + [sep] + rest, sep) == [w] + Split(rest, sep)
  {
    if w == [] {
      assert w + [sep] + rest == [sep] + rest;
      assert ([sep] + rest)[1..] == rest;
    } else {
      var s := w + [sep] + rest;
      assert s[0] == w[0] && s[1..] == w[1..] + [sep] + rest;
      SplitPieceThenSep(w[1..], rest, sep);
      assert [w[0]] + w[1..] == w;
    }
  }

  /** A string without separators is one piece. */
  lemma {:induction false} SplitNoSep(w: string, sep: char)
    requires sep !in w
    ensures Split(w, sep) == [w]
  {
    if w != [] {
      SplitNoSep(w[1..], sep);
      assert [w[0]] + w[1..] == w;
    }
  }

  /** Joining pieces that contain no separator and splitting again gives back the pieces. */
  lemma {:induction false} SplitOfJoin(parts: seq<string>, sep: char)
    requires |parts| >= 1
    requires forall i :: 0 <= i < |parts| ==> sep !in parts[i]
    ensures Split(Join(parts, sep), sep) == parts
  {
    if |parts| == 1 {
      SplitNoSep(parts[0], sep);
    } else {
      SplitOfJoin(parts[1..], sep);
      SplitPieceThenSep(parts[0], Join(parts[1..], sep), sep);
      assert [parts[0]] + parts[1..] == parts;
    }
  }

  /** `request.uri().path()[1..].split('/')`: the path without its first character, split on `/`. */
  function PathSegments(path: string): seq<string>
    requires |path| >= 1
  {
    Split(path[1..], '/')
  }

  /** For any non-empty list of segments without `/` (`a`, `b`, `c` say), the path `/` followed by their `/`-join (`/a/b/c`) gives back that list. */
  lemma PathSegmentsOfJoinedPath(segments: seq<string>)
    requires |segments| >= 1
    requires forall i :: 0 <= i < |segments| ==> '/' !in segments[i]
    ensures PathSegments("/" + Join(segments, '/')) == segments
  {
    assert ("/" + Join(segments, '/'))[1..] == Join(segments, '/');
    SplitOfJoin(segments, '/');
  }

  /** The JSON text handed to `serde_json::from_slice`: an empty body reads as `{}`. */
  function JsonBody(body: seq<Byte>): (json: seq<Byte>)
    ensures json != []
    ensures body != [] ==> json == body
    ensures body == [] ==> json == EmptyJsonObject
  {
    if body == [] then EmptyJsonObject else body
  }

  /** An incoming request as the `http` crate presents it: its URI's path, its headers and its body. */
  datatype IncomingHttpRequest = IncomingHttpRequest(path: string, headers: seq<Header>, body: seq<Byte>)

  /** What the generated `TryFrom<http::Request>` reads before initialising the request's fields. */
  datatype RequestInputs = RequestInputs(
    pathSegments: Option<seq<string>>,
    headers: Option<seq<Header>>,
    bodyJson: Option<seq<Byte>>)

  function IncomingRequestInputs(e: Expansion, request: IncomingHttpRequest): (r: RequestInputs)
    requires e.extractsPathSegments ==> |request.path| >= 1
    ensures r.pathSegments.Some? <==> e.extractsPathSegments
    ensures r.pathSegments.Some? ==> r.pathSegments.value == PathSegments(request.path)
    ensures r.pathSegments.Some? ==> |r.pathSegments.value| >= 1 && Join(r.pathSegments.value, '/') == request.path[1..]
    ensures r.headers.Some? <==> e.extractsRequestHeaders
    ensures r.headers.Some? ==> r.headers.value == request.headers
    ensures r.bodyJson.Some? <==> e.decodesRequestBody
    ensures r.bodyJson.Some? ==> r.bodyJson.value == JsonBody(request.body)
    ensures r.bodyJson.Some? && request.body == [] ==> r.bodyJson.value == EmptyJsonObject
    ensures r.bodyJson.Some? && request.body != [] ==> r.bodyJson.value == request.body
  {
    RequestInputs(
      if e.extractsPathSegments then JoinOfSplit(request.path[1..], '/'); Some(PathSegments(request.path)) else None,
      if e.extractsRequestHeaders then Some(request.headers) else None,
      if e.decodesRequestBody then Some(JsonBody(request.body)) else None)
  }

  // ---- Responses ----------------------------------------------------------

  /** `http::StatusCode`: a three-digit code. */
  type StatusCode = s: int | 100 <= s <= 999 witness 200

  datatype HttpResponse = HttpResponse(status: StatusCode, headers: seq<Header>, body: seq<Byte>)

  /** `ServerError<E>`: a recognised error value, or the error type's failure to recognise the response. */
  datatype ServerError<+E, +D> = Known(err: E) | Unknown(responseErr: D)

  /** `FromHttpResponseError<E>`; `D` stands for `ResponseDeserializationError`. */
  datatype FromHttpResponseError<+E, +D> = Deserialization(cause: D) | Http(server: ServerError<E, D>)

  /** The generated `TryFrom<Response> for http::Response`: status 200, a JSON content type first, then the header fields. */
  function TryIntoHttpResponse(headers: seq<Header>, body: seq<Byte>): (r: HttpResponse)
    ensures r.status == 200 && r.body == body
    ensures |r.headers| == |headers| + 1 && r.headers[0] == Header(ContentTypeName, "application/json")
    ensures r.headers[1..] == headers
  {
    HttpResponse(200, [Header(ContentTypeName, "application/json")] + headers, body)
  }

  /**
   * The generated `TryFrom<http::Response> for Response`. Below 400 the
   * headers (when the response has header fields) and the JSON body (when it
   * has body fields or a newtype-body field) go to `initFields`; otherwise the endpoint's error type
   * gets the whole response through `tryFromResponse`.
   */
  function TryFromHttpResponse<R, E, D>(
    e: Expansion,
    response: HttpResponse,
    initFields: (Option<seq<Header>>, Option<seq<Byte>>) -> Result<R, D>,
    tryFromResponse: HttpResponse -> Result<E, D>): (r: Result<R, FromHttpResponseError<E, D>>)
    ensures r.Ok? ==> response.status < 400
    ensures response.status < 400 ==>
      r == match initFields(if e.extractsResponseHeaders then Some(response.headers) else None,
                            if e.decodesResponseBody then Some(JsonBody(response.body)) else None)
           case Ok(v) => Ok(v)
           case Err(d) => Err(Deserialization(d))
    ensures response.status < 400 ==> !(r.Err? && r.error.Http?)
    ensures response.status >= 400 ==> r.Err? && r.error.Http?
    ensures response.status >= 400 ==>
      (tryFromResponse(response).Ok? ==> r == Err(Http(Known(tryFromResponse(response).value))))
      && (tryFromResponse(response).Err? ==> r == Err(Http(Unknown(tryFromResponse(response).error))))
  {
    if response.status < 400 then
      var headers := if e.extractsResponseHeaders then Some(response.headers) else None;
      var json := if e.decodesResponseBody then Some(JsonBody(response.body)) else None;
      match initFields(headers, json)
      case Ok(value) => Ok(value)
      case Err(d) => Err(Deserialization(d))
    else
      match tryFromResponse(response)
      case Ok(err) => Err(Http(Known(err)))
      case Err(responseErr) => Err(Http(Unknown(responseErr)))
  }

  /**
   * A response produced by the generated encoder is decoded on the success
   * path: the field initialiser sees the encoded headers and the encoded
   * body, an empty one read as `{}`.
   */
  lemma ResponseRoundTripTakesSuccessPath<R, E, D>(
    e: Expansion,
    headers: seq<Header>,
    body: seq<Byte>,
    initFields: (Option<seq<Header>>, Option<seq<Byte>>) -> Result<R, D>,
    tryFromResponse: HttpResponse -> Result<E, D>)
    ensures var encoded := TryIntoHttpResponse(headers, body);
      var seen := (if e.extractsResponseHeaders then Some([Header(ContentTypeName, "application/json")] + headers) else None,
                   if e.decodesResponseBody then Some(JsonBody(body)) else None);
      TryFromHttpResponse(e, encoded, initFields, tryFromResponse)
        == match initFields(seen.0, seen.1)
           case Ok(v) => Ok(v)
           case Err(d) => Err(Deserialization(d))
  {
  }

  /** An endpoint usable without credentials builds its request whether or not a token is given, adding no header. */
  lemma NonAuthRequestNeedsNoToken(api: Api, parts: OutgoingParts, baseUrl: string, accessToken: Option<string>)
    requires ExpandAll(api).nonAuthImpls
    ensures TryIntoHttpRequest(ExpandAll(api), parts, baseUrl, accessToken).Ok?
    ensures TryIntoHttpRequest(ExpandAll(api), parts, baseUrl, accessToken).value.headers == parts.headers
  {
  }
}
