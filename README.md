# ruma_api endpoint macro, modelled in Dafny

This project models the core of the `ruma_api!` procedural macro of the Ruma
Matrix libraries (`ruma-api-macros/src/api.rs`). The macro reads the
declarative description of one HTTP endpoint and generates its request and
response types plus four conversions between them and `http` messages.

The model has two halves.

- **Definition assembly.** `Api::parse` builds an endpoint from its parsed
  `metadata`, `request` and `response` sections and the optional trailing
  `error: Type` clause (`ErrorType::parse`). The error type defaults to
  `error::Void`. A GET endpoint whose request has body fields or a
  newtype-body field is rejected with one combined `syn::Error`. That error
  holds one message per offending field. `strip_serde_attrs` removes the
  `#[serde(...)]` attributes from a field.
- **Generated code at run time.** This covers the decisions `expand_all`
  takes and what the generated code does with an abstract HTTP message:
  - the outgoing URI (base URL, at most one trailing `/` removed, then path, then query);
  - the `Authorization: Bearer` header under the `AccessToken` scheme;
  - the path segments of an incoming request;
  - the empty body read as `{}`;
  - the status-code branch that hands error responses to the endpoint's error type.

Modules, one per file:

- `Wrappers` (`wrappers.dfy`): `Option` and `Result`.
- `Syntax` (`syntax.dfy`): the parts of `syn` the macro uses. These are paths, attributes, fields, the tokens of the error clause and the combinable `syn::Error`.
- `StripSerde` (`strip_serde.dfy`): `strip_serde_attrs`. The field is cloned into an array and the non-`serde` attributes are retained in place, as `Vec::retain` does.
- `ErrorClause` (`error_clause.dfy`): `ErrorType::parse` over path types.
- `Api` (`api.dfy`): `Api::parse`. The spec function is `Parsed`. The method `Parse` accumulates errors in an `Option<syn::Error>` inside a loop, as the source does.
- `Expand` (`expand.dfy`): the decisions of `expand_all`.
- `Codec` (`codec.dfy`): the run-time behaviour of the generated conversions.

## Model

| member | source | states |
|---|---|---|
| StripSerde.KeepNonSerde | ruma-api-macros/src/api.rs:21 | the attribute list with every `serde` attribute removed and the others kept in order; never longer than the input |
| StripSerde.KeepNonSerdeMembers | ruma-api-macros/src/api.rs:21 | an attribute is kept iff it was present and its path is not `serde`; none is added |
| StripSerde.KeepNonSerdeConcat | ruma-api-macros/src/api.rs:21 | the filter keeps the original order: it distributes over concatenation |
| StripSerde.KeepNonSerdeIdempotent | ruma-api-macros/src/api.rs:19-23 | stripping an already stripped list changes nothing |
| StripSerde.KeepNonSerdeNoSerde | ruma-api-macros/src/api.rs:21 | a list with no `serde` attribute is left exactly as it is |
| StripSerde.RetainNonSerde | ruma-api-macros/src/api.rs:21 | in-place `retain`: the array's new prefix is the filtered old contents |
| StripSerde.StripSerdeAttrs | ruma-api-macros/src/api.rs:19-23 | the result is the field with its attributes filtered; name and type are unchanged; an attribute survives iff it was present and is not `serde` |
| ErrorClause.ParseMoreSegmentsSound | ruma-api-macros/src/api.rs:415 | what the `:: Ident` tail parser accepts is the rendering of its segments, none with arguments or a keyword for its identifier, followed by tokens that do not start with `::` |
| ErrorClause.UnprefixedPathSound | ruma-api-macros/src/api.rs:415 | a path parsed after its optional leading `::` has at least one segment, and no segment has arguments or a keyword for its identifier; the input is its rendering followed by the rest |
| ErrorClause.ParseTypePathSound | ruma-api-macros/src/api.rs:415 | a parsed type path has at least one segment, and no segment has arguments or a keyword for its identifier; the input is its rendering followed by tokens that do not start with `::` |
| ErrorClause.ParseTypePath | ruma-api-macros/src/api.rs:415 | a type path: an optional leading `::`, an identifier, then `:: Ident` repetitions, where a Rust keyword other than `self`, `super`, `crate` and `Self` is not an identifier; returns the path and the tokens after it, or an `expected identifier` error at the offending token |
| ErrorClause.ParseErrorType | ruma-api-macros/src/api.rs:411-418 | the clause parses iff it is the keyword `error`, then `:`, then a type path; the type is that path |
| ErrorClause.ParseMoreSegmentsRoundTrip | ruma-api-macros/src/api.rs:415 | path segments without arguments and without keywords, written as tokens and followed by tokens that do not start with `::`, parse back to the same segments and following tokens |
| ErrorClause.UnprefixedPathRoundTrip | ruma-api-macros/src/api.rs:415 | the same round trip for a whole path of at least one segment, none with arguments or a keyword, after its optional leading `::`, followed by tokens that do not start with `::` |
| ErrorClause.TypePathRoundTrip | ruma-api-macros/src/api.rs:415 | the same round trip for a type path of at least one segment, none with arguments or a keyword, with or without a leading `::`, followed by tokens that do not start with `::` |
| ErrorClause.ParseMoreSegmentsRejectsKeyword | ruma-api-macros/src/api.rs:415 | rendered segments one of which is a keyword other than `self`, `super`, `crate` and `Self` are refused, whatever follows |
| ErrorClause.KeywordTypePathRejected | ruma-api-macros/src/api.rs:411-418 | a type path with a keyword segment (`struct`, `Foo::fn`) is refused, and so is the clause `error: T` written with it |
| ErrorClause.ErrorClauseRoundTrip | ruma-api-macros/src/api.rs:411-418 | `error: T`, for a path `T` of at least one segment, none with arguments or a keyword, followed by tokens that do not start with `::`, parses to `T` |
| Api.VoidPath | ruma-api-macros/src/api.rs:49 | the default type is the imported crate path followed by `error::Void` |
| Api.ResolveErrorType | ruma-api-macros/src/api.rs:47-50 | the parsed clause's type when the clause parses, otherwise `error::Void` |
| Api.Parsed | ruma-api-macros/src/api.rs:41-76 | the first section error in order metadata, request, response; otherwise, for GET with body fields or a newtype body, one combined error naming each of them; otherwise the endpoint with its resolved error type |
| Api.Parse | ruma-api-macros/src/api.rs:41-76 | the imperative accumulation of errors computes exactly `Parsed`; the final `unwrap` never meets `None` |
| Api.RejectedExactlyForGetWithBody | ruma-api-macros/src/api.rs:52-75 | a definition whose sections parse is rejected iff the method is GET and the request has body fields or a newtype body |
| Api.RejectionNamesEveryBodyField | ruma-api-macros/src/api.rs:54-72 | the combined error holds one message per body field in order, then one for the newtype-body field; it is never empty |
| Api.AcceptedSectionsUnchanged | ruma-api-macros/src/api.rs:75 | an accepted endpoint stores metadata, request and response unchanged, with the resolved error type |
| Api.SectionErrorsPropagateInOrder | ruma-api-macros/src/api.rs:44-46 | the first section that fails to parse (metadata, then request, then response) gives the error |
| Api.MissingErrorClauseIsVoid | ruma-api-macros/src/api.rs:47-50 | without an `error` clause the error type is `error::Void` |
| Api.KeywordErrorTypeIsVoid | ruma-api-macros/src/api.rs:47-50 | a clause `error: T` whose path has a keyword segment does not parse, so the error type is `error::Void` |
| Api.DeclaredErrorTypeIsUsed | ruma-api-macros/src/api.rs:47-48 | with the clause `error: T`, for a path `T` of at least one segment, none with arguments or a keyword, followed by tokens that do not start with `::`, the error type is `T` |
| Expand.ExpandAll | ruma-api-macros/src/api.rs:96-251 | the incoming request type is `IncomingRequest` iff the request has lifetimes; a query-map field takes the whole query, otherwise the named query fields are used; the token is sent iff the scheme is `AccessToken`; the non-auth impls exist iff the scheme is `None`; request and response bodies are read iff they have body fields or a newtype body; the metadata constant and endpoint error type are the endpoint's |
| Expand.GetEndpointIgnoresRequestBody | ruma-api-macros/src/api.rs:52-181 | the generated decoder of an accepted GET endpoint never reads the request body |
| Codec.TrimOneTrailingSlash | ruma-api-macros/src/api.rs:374-377 | a base URL ending in `/` loses exactly that slash; any other is unchanged |
| Codec.RequestUri | ruma-api-macros/src/api.rs:370-380 | the outgoing URI: the base URL with one trailing `/` removed, then the path, then the query |
| Codec.UriKeepsBaseUpToOneSlash | ruma-api-macros/src/api.rs:370-380 | the URI is the base URL (one trailing slash removed, and only one), then the path, then the query |
| Codec.AuthorizationHeaders | ruma-api-macros/src/api.rs:125-140 | no header when the token is not sent; otherwise `NeedsAuthentication` without a token, one `authorization: Bearer t` header when that is a valid value, and `InvalidHeaderValue` when it is not |
| Codec.TryIntoHttpRequest | ruma-api-macros/src/api.rs:358-387 | method, URI and body come from the endpoint and request; when the expansion sends the token (the `AccessToken` scheme) a missing token fails with `NeedsAuthentication` and a token `t` appends `authorization: Bearer t` exactly when that is a valid header value, failing with `InvalidHeaderValue` otherwise; when it does not, the headers are the request's own |
| Codec.BearerValueValid | ruma-api-macros/src/api.rs:130-137 | `Bearer t` is a valid header value iff `t` is |
| Codec.AuthorizationCarriesToken | ruma-api-macros/src/api.rs:125-140 | when the request's own header fields carry no Authorization value, a built request carries exactly one Authorization value, `Bearer ` and the token, when the expansion sends the token, and none otherwise |
| Codec.Split | ruma-api-macros/src/api.rs:102 | `split('/')` yields at least one piece, none containing the separator |
| Codec.JoinOfSplit | ruma-api-macros/src/api.rs:102 | splitting loses nothing: joining the pieces with the separator gives back the string |
| Codec.SplitOfJoin | ruma-api-macros/src/api.rs:102 | pieces without separators, joined and split again, are given back |
| Codec.PathSegments | ruma-api-macros/src/api.rs:102 | the request path without its leading character, split on `/` |
| Codec.PathSegmentsOfJoinedPath | ruma-api-macros/src/api.rs:101-102 | for every non-empty list of segments without `/`, dropping the leading `/` of the path joined from them and splitting on `/` gives back that list |
| Codec.JsonBody | ruma-api-macros/src/api.rs:168-171 | an empty body is read as `{}`; a non-empty body is passed on unchanged |
| Codec.IncomingRequestInputs | ruma-api-macros/src/api.rs:263-277 | path segments are read iff the request has path fields, and they are the path without its first character split on `/`, rejoining to it; headers are read iff it has header fields; the body is read iff it has body fields or a newtype-body field, an empty body as `{}` and any other as itself |
| Codec.TryIntoHttpResponse | ruma-api-macros/src/api.rs:289-306 | status 200, a JSON content type first, then the response's own headers, and the body unchanged |
| Codec.TryFromHttpResponse | ruma-api-macros/src/api.rs:318-333 | below 400 the result is exactly the field initialiser's, given the headers iff the response has header fields and the body (empty read as `{}`) iff it has body fields or a newtype-body field, with its failure wrapped as a deserialization error; success only below 400; at 400 or above always a server error, `Known` exactly when the error type decodes the response and `Unknown` with its failure otherwise |
| Codec.ResponseRoundTripTakesSuccessPath | ruma-api-macros/src/api.rs:289-333 | a response built by the generated encoder is decoded on the success path, and the field initialiser sees exactly the encoded headers and the encoded body, an empty one read as `{}` |
| Codec.NonAuthRequestNeedsNoToken | ruma-api-macros/src/api.rs:126-140 | an endpoint usable without credentials builds its request with or without a token and adds no header |

## Left out

- Token-stream mechanics are not modelled: `quote!`, spans, `to_token_stream` and the doc strings built at `ruma-api-macros/src/api.rs:232-235`. They have no behaviour to state.
- The `metadata`, `request`, `response` and `attribute` submodules and `util` are not part of this model. This includes `import_ruma_api`, `request_path_string_and_parse`, `build_query_string`, `extract_request_query`, `build_request_body` and `parse_request_body`.
  - `Api.Request` and `Api.Response` are records of what those submodules answer: body fields, newtype-body field, query fields, query-map field, path and header flags, and lifetimes.
  - `has_body_fields` is taken to mean "the list of body fields is not empty".
  - The path string, query string, request header pairs and body bytes of an outgoing request are inputs (`Codec.OutgoingParts`).
- Percent-encoding of path and query values is not modelled. Neither are the uniqueness of header names, the order of path placeholders, or the parsing of the query string.
- The `'_` lifetimes repeated for the request body type and `combine_lifetimes` are not modelled. They are Rust ownership bookkeeping.
- JSON (de)serialisation and the per-field initialisers are foreign code. `Codec.TryFromHttpResponse` receives them as the function parameters `initFields` and `tryFromResponse`. What `error::Void` keeps of an unrecognised response is up to that error type and is not stated.
- ErrorClause.ParseTypePath: only path types without generic arguments are parsed. Other `syn::Type` forms are not modelled. Keywords are refused as segment identifiers, except `self`, `super`, `crate` and `Self`, as `syn`'s path parser does; types that begin with a keyword (`fn()`, `dyn Trait`, `impl Trait`) or are `_` are other `syn::Type` forms, so the model refuses them and such a clause falls back to `error::Void`, where `syn` would parse them. A path followed by `+`, `!` or `<`, which `syn` reads as part of a longer type (`error: Foo + Send` is a trait-object type), is parsed as the path alone with those tokens left over.
- The tokens `:` and `::` are kept apart as `Colon` and `PathSep`. `syn`'s treatment of the first colon of a joint `::` is not modelled.
- After `Api::parse` returns, its caller rejects leftover tokens. That check is not part of this model. A malformed error clause is rejected there only when the failed parse left tokens unread: `syn` does not give back the tokens a failed parse has consumed, so a clause that fails at the end of the input (`error`, `error:`, `error: Foo::`) falls back to `error::Void` and the endpoint is accepted.
- Codec.TryIntoHttpRequest: does not model the `http` builder's own failures. An unparseable URI surfaces at `req_builder.body(...)?` in the source. The request's own header values are taken as already valid.
- `HeaderValue::from_str` is modelled by the `http` crate's byte rule: visible ASCII, space, tab, or bytes of a non-ASCII character. Its failure is the single error `InvalidHeaderValue`.
- The run-time code looks at the last byte of the base URL's UTF-8 encoding. It is modelled on characters. The two agree because `/` is ASCII and never occurs inside a multi-byte character.
- `Codec.PathSegments` requires a non-empty path. The source slices `path()[1..]`, which panics when the URI's path is empty (an authority-form URI such as `example.org:80` has the path `""`); the model excludes that input instead of modelling the panic.
- The `expect` on a query-map field's identifier is not modelled. The request's fields are named.
- The response header conversion (`apply_header_fields`) and its errors are not modelled.
- `ruma-common/src/lib.rs` holds only module declarations and has no logic.
- The GET/body rule is reported with the same `syn::Error` as any other definition error. Its messages are combined only with each other, in field order; a section that fails to parse returns its own error first and is never combined with them.
- Any failure to parse the error clause falls back to `error::Void` (`ruma-api-macros/src/api.rs:47-50`); `Api::parse` does not report it.
