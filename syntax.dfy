/**
 * The slice of `syn`'s syntax tree that the `ruma_api` macro looks at:
 * paths, attributes, struct fields, the tokens of the trailing error clause,
 * and the combinable error type `syn::Error`.
 */
module Syntax {

  /** One path segment: an identifier, possibly followed by generic or parenthesised arguments. */
  datatype PathSegment = PathSegment(ident: string, hasArguments: bool)

  /** A path such as `serde`, `::ruma_api` or `ruma_api::error::Void`. */
  datatype SynPath = SynPath(leadingColon: bool, segments: seq<PathSegment>)

  /** `syn::Path::is_ident`: no leading `::`, a single segment without arguments, named `name`. */
  predicate IsIdent(p: SynPath, name: string)
  {
    !p.leadingColon && |p.segments| == 1 && !p.segments[0].hasArguments && p.segments[0].ident == name
  }

  /** An outer attribute `#[path tokens]` on a field. */
  datatype Attribute = Attribute(path: SynPath, tokens: string)

  /** A named struct field: its attributes, its name and its (path) type. */
  datatype Field = Field(attrs: seq<Attribute>, ident: string, ty: SynPath)

  /** Tokens of the trailing `error: Type` clause, at the granularity `syn` parses them. */
  datatype Token = Ident(name: string) | Colon | PathSep | Other(text: string)

  /** Where an error message points: at a whole field, or at the input position with `count` tokens left. */
  datatype Span = FieldSpan(field: Field) | RemainingInput(count: nat)

  datatype Message = Message(span: Span, text: string)

  /** `syn::Error`: one or more spanned messages; `combine` appends another error's messages. */
  datatype SynError = SynError(messages: seq<Message>)

  /** `syn::Error::new_spanned(field, text)`. */
  function NewSpanned(field: Field, text: string): SynError
  {
    SynError([Message(FieldSpan(field), text)])
  }

  /** `syn::Error::combine`: the messages of `e` followed by those of `other`. */
  function Combine(e: SynError, other: SynError): SynError
  {
    SynError(e.messages + other.messages)
  }
}
