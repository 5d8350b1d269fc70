/**
 * The decisions `expand_all` takes about the code it generates for a parsed
 * endpoint: which impls exist, which parts of an incoming request or
 * response are read, and how the query is turned into request fields.
 */
module Expand {
  import opened Wrappers
  import opened Syntax
  import opened Api

  /** How the incoming request's fields are initialised from its parsed query string. */
  datatype QueryInit =
    | WholeQuery(field: string)            // `#field_name: request_query`
    | NamedQueryFields(fields: seq<Field>)  // one initialiser per named query field

  datatype Expansion = Expansion(
    incomingRequestType: string,
    extractsPathSegments: bool,
    queryInit: QueryInit,
    sendsAccessToken: bool,
    extractsRequestHeaders: bool,
    decodesRequestBody: bool,
    extractsResponseHeaders: bool,
    decodesResponseBody: bool,
    metadata: Metadata,
    endpointError: SynPath,
    nonAuthImpls: bool)

  function ExpandAll(api: Api): (e: Expansion)
    ensures e.incomingRequestType == "IncomingRequest" <==> api.request.ContainsLifetimes()
    ensures e.incomingRequestType == "Request" <==> !api.request.ContainsLifetimes()
    ensures e.queryInit.WholeQuery? <==> api.request.queryMapField.Some?
    ensures e.queryInit.WholeQuery? ==> e.queryInit.field == api.request.queryMapField.value.ident
    ensures e.queryInit.NamedQueryFields? ==> e.queryInit.fields == api.request.queryFields
    ensures e.sendsAccessToken <==> api.metadata.authentication == "AccessToken"
    ensures e.nonAuthImpls <==> api.metadata.authentication == "None"
    ensures e.decodesRequestBody <==> api.request.HasBodyFields() || api.request.newtypeBodyField.Some?
    ensures e.decodesResponseBody <==> api.response.HasBodyFields() || api.response.newtypeBodyField.Some?
    ensures e.extractsPathSegments == api.request.hasPathFields
    ensures e.extractsRequestHeaders == api.request.hasHeaderFields
    ensures e.extractsResponseHeaders == api.response.hasHeaderFields
    ensures e.metadata == api.metadata && e.endpointError == api.errorTy
  {
    Expansion(
      incomingRequestType := if api.request.ContainsLifetimes() then "IncomingRequest" else "Request",
      extractsPathSegments := api.request.hasPathFields,
      queryInit :=
        if api.request.queryMapField.Some? then WholeQuery(api.request.queryMapField.value.ident)
        else NamedQueryFields(api.request.queryFields),
      sendsAccessToken := api.metadata.authentication == "AccessToken",
      extractsRequestHeaders := api.request.hasHeaderFields,
      decodesRequestBody := api.request.HasBodyFields() || api.request.newtypeBodyField.Some?,
      extractsResponseHeaders := api.response.hasHeaderFields,
      decodesResponseBody := api.response.HasBodyFields() || api.response.newtypeBodyField.Some?,
      metadata := api.metadata,
      endpointError := api.errorTy,
      nonAuthImpls := api.metadata.authentication == "None")
  }

  /** The generated decoder of an accepted GET endpoint never reads the request body. */
  lemma GetEndpointIgnoresRequestBody(
    metadata: Result<Metadata, SynError>,
    request: Result<Request, SynError>,
    response: Result<Response, SynError>,
    errorClause: seq<Token>,
    rumaApi: SynPath)
    requires Parsed(metadata, request, response, errorClause, rumaApi).Ok?
    requires metadata.Ok? && metadata.value.httpMethod == "GET"
    ensures !ExpandAll(Parsed(metadata, request, response, errorClause, rumaApi).value).decodesRequestBody
  {
  }
}
