/**
 * `Api::parse`: assembles an endpoint from its metadata, request and
 * response sections and its optional error clause, rejecting a GET
 * endpoint whose request has a body with one combined error that names
 * every offending field.
 */
module Api {
  import opened Wrappers
  import opened Syntax
  import opened ErrorClause

  /** The `metadata` section; `httpMethod` and `authentication` are the identifiers written there. */
  datatype Metadata = Metadata(
    description: string,
    httpMethod: string,
    name: string,
    path: string,
    rateLimited: bool,
    authentication: string)

  /**
   * The `request` section, seen through the queries `expand_all` makes of
   * it: its body fields in declaration order, its newtype-body field, its
   * named query fields and query-map field, whether it has path or header
   * fields, and the lifetimes it declares.
   */
  datatype Request = Request(
    bodyFields: seq<Field>,
    newtypeBodyField: Option<Field>,
    hasPathFields: bool,
    hasHeaderFields: bool,
    queryFields: seq<Field>,
    queryMapField: Option<Field>,
    lifetimes: seq<string>)
  {
    /** `has_body_fields`: at least one per-field body field. */
    predicate HasBodyFields() { |bodyFields| > 0 }

    /** `contains_lifetimes`: the request struct declares a lifetime. */
    predicate ContainsLifetimes() { |lifetimes| > 0 }
  }

  /** The `response` section, seen through the same queries. */
  datatype Response = Response(
    bodyFields: seq<Field>,
    newtypeBodyField: Option<Field>,
    hasHeaderFields: bool)
  {
    predicate HasBodyFields() { |bodyFields| > 0 }
  }

  /** A parsed endpoint; `errorTy` is the type that decodes error responses. */
  datatype Api = Api(metadata: Metadata, request: Request, response: Response, errorTy: SynPath)

  const GetBodyMessage := "GET endpoints can't have body fields"

  /** `#ruma_api::error::Void`, given the path `rumaApi` under which the crate is imported. */
  function VoidPath(rumaApi: SynPath): (p: SynPath)
    ensures p.leadingColon == rumaApi.leadingColon
    ensures |p.segments| == |rumaApi.segments| + 2
    ensures p.segments[..|rumaApi.segments|] == rumaApi.segments
    ensures p.segments[|rumaApi.segments|..] == [PathSegment("error", false), PathSegment("Void", false)]
  {
    SynPath(rumaApi.leadingColon, rumaApi.segments + [PathSegment("error", false), PathSegment("Void", false)])
  }

  /**
   * The error type of the endpoint: the type of a well-formed `error: Type`
   * clause, and `error::Void` whenever the clause does not parse (in
   * particular when it is absent).
   */
  function ResolveErrorType(errorClause: seq<Token>, rumaApi: SynPath): (ty: SynPath)
    ensures ParseErrorType(errorClause).Ok? ==> ty == ParseErrorType(errorClause).value.0.ty
    ensures ParseErrorType(errorClause).Err? ==> ty == VoidPath(rumaApi)
  {
    match ParseErrorType(errorClause)
    case Ok((err, _)) => err.ty
    case Err(_) => VoidPath(rumaApi)
  }

  /** The method/body rule: a GET request may have neither body fields nor a newtype body. */
  predicate RejectsGetBody(metadata: Metadata, request: Request)
  {
    metadata.httpMethod == "GET" && (request.HasBodyFields() || request.newtypeBodyField.Some?)
  }

  /** One message per body field, in the order of the fields. */
  function BodyFieldErrors(fields: seq<Field>): (ms: seq<Message>)
    ensures |ms| == |fields|
  {
    seq(|fields|, i requires 0 <= i < |fields| => Message(FieldSpan(fields[i]), GetBodyMessage))
  }

  /** The messages of the combined error for a GET request with a body. */
  function GetBodyErrors(request: Request): seq<Message>
  {
    BodyFieldErrors(request.bodyFields)
      + (if request.newtypeBodyField.Some? then [Message(FieldSpan(request.newtypeBodyField.value), GetBodyMessage)] else [])
  }

  /**
   * What `Api::parse` returns, given the outcome of parsing each of the
   * three sections (the first failing section's error is propagated by `?`)
   * and the tokens that follow the response section.
   */
  function Parsed(
    metadata: Result<Metadata, SynError>,
    request: Result<Request, SynError>,
    response: Result<Response, SynError>,
    errorClause: seq<Token>,
    rumaApi: SynPath): Result<Api, SynError>
  {
    if metadata.Err? then Err(metadata.error)
    else if request.Err? then Err(request.error)
    else if response.Err? then Err(response.error)
    else if RejectsGetBody(metadata.value, request.value) then Err(SynError(GetBodyErrors(request.value)))
    else Ok(Api(metadata.value, request.value, response.value, ResolveErrorType(errorClause, rumaApi)))
  }

  /**
   * `Api::parse`, with the error accumulation written as the source writes
   * it: an `Option<syn::Error>` that the first offending field fills and
   * every later one is combined into, unwrapped at the end.
   */
  method Parse(
    metadata: Result<Metadata, SynError>,
    request: Result<Request, SynError>,
    response: Result<Response, SynError>,
    errorClause: seq<Token>,
    rumaApi: SynPath) returns (r: Result<Api, SynError>)
    ensures r == Parsed(metadata, request, response, errorClause, rumaApi)
  {
    if metadata.Err? { return Err(metadata.error); }
    if request.Err? { return Err(request.error); }
    if response.Err? { return Err(response.error); }
    var meta, req, resp := metadata.value, request.value, response.value;
    var errorTy := ResolveErrorType(errorClause, rumaApi);

    var newtypeBodyField := req.newtypeBodyField;
    if meta.httpMethod == "GET" && (req.HasBodyFields() || newtypeBodyField.Some?) {
      var combined: Option<SynError> := None;
      var i := 0;
      while i < |req.bodyFields|
        invariant 0 <= i <= |req.bodyFields|
        invariant combined == if i == 0 then None else Some(SynError(BodyFieldErrors(req.bodyFields[..i])))
      {
        var error := NewSpanned(req.bodyFields[i], GetBodyMessage);
        ghost var sofar := BodyFieldErrors(req.bodyFields[..i]);
        assert i == 0 ==> sofar == [];
        assert BodyFieldErrors(req.bodyFields[..i + 1]) == sofar + error.messages;
        if combined.Some? {
          combined := Some(Combine(combined.value, error));
        } else {
          combined := Some(error);
          assert error.messages == sofar + error.messages;
        }
        i := i + 1;
      }
      assert req.bodyFields[..i] == req.bodyFields;
      assert combined.Some? ==> combined.value.messages == BodyFieldErrors(req.bodyFields);
      if newtypeBodyField.Some? {
        var error := NewSpanned(newtypeBodyField.value, GetBodyMessage);
        if combined.Some? {
          combined := Some(Combine(combined.value, error));
        } else {
          combined := Some(error);
          assert BodyFieldErrors(req.bodyFields) == [];
        }
      }
      assert combined.value.messages == GetBodyErrors(req);
      return Err(combined.value);
    }
    return Ok(Api(meta, req, resp, errorTy));
  }

  /** A fully parsed definition is rejected exactly when it is a GET endpoint with a request body. */
  lemma RejectedExactlyForGetWithBody(m: Metadata, req: Request, resp: Response, errorClause: seq<Token>, rumaApi: SynPath)
    ensures Parsed(Ok(m), Ok(req), Ok(resp), errorClause, rumaApi).Err? <==> RejectsGetBody(m, req)
  {
  }

  /**
   * The rejection holds one message per body field, in order, then one for
   * the newtype-body field if there is one; it is never empty.
   */
  lemma RejectionNamesEveryBodyField(m: Metadata, req: Request, resp: Response, errorClause: seq<Token>, rumaApi: SynPath)
    requires RejectsGetBody(m, req)
    ensures var r := Parsed(Ok(m), Ok(req), Ok(resp), errorClause, rumaApi);
      && r.Err?
      && |r.error.messages| == |req.bodyFields| + (if req.newtypeBodyField.Some? then 1 else 0)
      && |r.error.messages| > 0
      && (forall i :: 0 <= i < |req.bodyFields| ==>
            r.error.messages[i] == Message(FieldSpan(req.bodyFields[i]), GetBodyMessage))
      && (req.newtypeBodyField.Some? ==>
            r.error.messages[|req.bodyFields|] == Message(FieldSpan(req.newtypeBodyField.value), GetBodyMessage))
  {
  }

  /** An accepted endpoint stores its three sections unchanged, with the resolved error type. */
  lemma AcceptedSectionsUnchanged(m: Metadata, req: Request, resp: Response, errorClause: seq<Token>, rumaApi: SynPath)
    requires !RejectsGetBody(m, req)
    ensures Parsed(Ok(m), Ok(req), Ok(resp), errorClause, rumaApi)
      == Ok(Api(m, req, resp, ResolveErrorType(errorClause, rumaApi)))
  {
  }

  /** The first section that fails to parse decides the error. */
  lemma SectionErrorsPropagateInOrder(
    metadata: Result<Metadata, SynError>,
    request: Result<Request, SynError>,
    response: Result<Response, SynError>,
    errorClause: seq<Token>,
    rumaApi: SynPath)
    ensures metadata.Err? ==> Parsed(metadata, request, response, errorClause, rumaApi) == Err(metadata.error)
    ensures metadata.Ok? && request.Err? ==> Parsed(metadata, request, response, errorClause, rumaApi) == Err(request.error)
    ensures metadata.Ok? && request.Ok? && response.Err? ==>
      Parsed(metadata, request, response, errorClause, rumaApi) == Err(response.error)
  {
  }

  /** Without an error clause the endpoint's error type is `error::Void`. */
  lemma MissingErrorClauseIsVoid(errorClause: seq<Token>, rumaApi: SynPath)
    requires errorClause == [] || errorClause[0] != Ident("error")
    ensures ResolveErrorType(errorClause, rumaApi) == VoidPath(rumaApi)
  {
  }

  /**
   * A clause `error: T` whose path `T` has a keyword segment does not parse,
   * so the endpoint's error type is `error::Void`.
   */
  lemma KeywordErrorTypeIsVoid(ty: SynPath, k: nat, rest: seq<Token>, rumaApi: SynPath)
    requires |ty.segments| >= 1 && k < |ty.segments| && ty.segments[k].ident in PathKeywords
    ensures ResolveErrorType([Ident("error"), Colon] + RenderTypePath(ty) + rest, rumaApi) == VoidPath(rumaApi)
  {
    KeywordTypePathRejected(ty, k, rest);
  }

  /** With a clause `error: T` the endpoint's error type is `T`. */
  lemma DeclaredErrorTypeIsUsed(ty: SynPath, rest: seq<Token>, rumaApi: SynPath)
    requires |ty.segments| >= 1 && PlainSegments(ty)
    requires rest == [] || rest[0] != PathSep
    ensures ResolveErrorType([Ident("error"), Colon] + RenderTypePath(ty) + rest, rumaApi) == ty
  {
    ErrorClauseRoundTrip(ty, rest);
  }
}
