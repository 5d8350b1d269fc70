/**
 * `ErrorType::parse`: the optional trailing clause `error: Type` of a
 * `ruma_api!` invocation. Only path types (`Foo`, `crate::Foo`,
 * `::ruma_api::error::Void`) are modelled.
 */
module ErrorClause {
  import opened Wrappers
  import opened Syntax

  /** A parsed clause: the `error` keyword, a colon, and the type that follows. */
  datatype ErrorType = ErrorType(ty: SynPath)

  /**
   * The words `syn` refuses as an identifier (Rust's strict and reserved
   * keywords, and `_`), less `self`, `super`, `crate` and `Self`, which a
   * path segment accepts all the same.
   */
  const PathKeywords: set<string> := {
    "_", "abstract", "as", "async", "await", "become", "box", "break", "const", "continue",
    "do", "dyn", "else", "enum", "extern", "false", "final", "fn", "for", "if", "impl", "in",
    "let", "loop", "macro", "match", "mod", "move", "mut", "override", "priv", "pub", "ref",
    "return", "static", "struct", "trait", "true", "try", "type", "typeof", "unsafe", "unsized",
    "use", "virtual", "where", "while", "yield"
  }

  /** A token that `syn` reads as the identifier of a path segment. */
  predicate SegmentIdent(t: Token)
  {
    t.Ident? && t.name !in PathKeywords
  }

  /** A segment without arguments whose identifier is not a keyword. */
  predicate PlainSegment(s: PathSegment)
  {
    !s.hasArguments && s.ident !in PathKeywords
  }

  predicate PlainSegments(p: SynPath)
  {
    forall i :: 0 <= i < |p.segments| ==> PlainSegment(p.segments[i])
  }

  /** The error `syn` reports at the first of the tokens `ts`. */
  function Expected(ts: seq<Token>, what: string): SynError
  {
    SynError([Message(RemainingInput(|ts|), "expected " + what)])
  }

  /**
   * The `:: Ident` repetitions after a path's first segment. A `::` that
   * is not followed by an identifier, or is followed by a keyword, is an
   * error, as in `syn`'s path parser.
   */
  function ParseMoreSegments(ts: seq<Token>): Result<(seq<PathSegment>, seq<Token>), SynError>
    decreases |ts|
  {
    if |ts| == 0 || ts[0] != PathSep then Ok(([], ts))
    else if |ts| == 1 || !SegmentIdent(ts[1]) then Err(Expected(ts[1..], "identifier"))
    else
      var more := ParseMoreSegments(ts[2..]);
      if more.Err? then more
      else Ok(([PathSegment(ts[1].name, false)] + more.value.0, more.value.1))
  }

  /** A type path: an optional leading `::`, an identifier, then `:: Ident` repetitions; no segment may be a keyword. */
  function ParseTypePath(ts: seq<Token>): Result<(SynPath, seq<Token>), SynError>
  {
    if |ts| > 0 && ts[0] == PathSep then ParseUnprefixedPath(ts[1..], true) else ParseUnprefixedPath(ts, false)
  }

  /** The path after its optional leading `::`, which `lead` records. */
  function ParseUnprefixedPath(ts: seq<Token>, lead: bool): Result<(SynPath, seq<Token>), SynError>
  {
    if |ts| == 0 || !SegmentIdent(ts[0]) then Err(Expected(ts, "identifier"))
    else
      var more := ParseMoreSegments(ts[1..]);
      if more.Err? then Err(more.error)
      else Ok((SynPath(lead, [PathSegment(ts[0].name, false)] + more.value.0), more.value.1))
  }

  /**
   * `ErrorType::parse`: the custom keyword `error`, then `:`, then a type.
   * On success the type and the tokens after it are returned.
   */
  function ParseErrorType(ts: seq<Token>): (r: Result<(ErrorType, seq<Token>), SynError>)
    ensures r.Ok? <==> |ts| >= 2 && ts[0] == Ident("error") && ts[1] == Colon && ParseTypePath(ts[2..]).Ok?
    ensures r.Ok? ==> ParseTypePath(ts[2..]).value == (r.value.0.ty, r.value.1)
  {
    if |ts| == 0 || ts[0] != Ident("error") then Err(Expected(ts, "`error`"))
    else if |ts| == 1 || ts[1] != Colon then Err(Expected(ts[1..], "`:`"))
    else
      match ParseTypePath(ts[2..])
      case Ok((ty, rest)) => Ok((ErrorType(ty), rest))
      case Err(e) => Err(e)
  }

  /** The tokens a path is written as; the inverse of `ParseTypePath`. */
  function RenderSegments(segs: seq<PathSegment>): (r: seq<Token>)
    ensures |r| == 2 * |segs|
  {
    if segs == [] then [] else [PathSep, Ident(segs[0].ident)] + RenderSegments(segs[1..])
  }

  function RenderTypePath(p: SynPath): seq<Token>
    requires |p.segments| >= 1
  {
    (if p.leadingColon then [PathSep] else []) + [Ident(p.segments[0].ident)] + RenderSegments(p.segments[1..])
  }

  lemma {:induction false} ParseMoreSegmentsRoundTrip(segs: seq<PathSegment>, rest: seq<Token>)
    requires forall i :: 0 <= i < |segs| ==> PlainSegment(segs[i])
    requires |rest| == 0 || rest[0] != PathSep
    ensures ParseMoreSegments(RenderSegments(segs) + rest) == Ok((segs, rest))
  {
    if segs == [] {
      assert RenderSegments(segs) + rest == rest;
    } else {
      var ts := RenderSegments(segs) + rest;
      assert ts == [PathSep, Ident(segs[0].ident)] + (RenderSegments(segs[1..]) + rest);
      assert ts[2..] == RenderSegments(segs[1..]) + rest;
      ParseMoreSegmentsRoundTrip(segs[1..], rest);
      assert segs == [PathSegment(segs[0].ident, false)] + segs[1..];
    }
  }

  /**
   * Writing a path type and parsing it back yields the same path and leaves
   * the following tokens, provided they do not start with `::`.
   */
  lemma UnprefixedPathRoundTrip(p: SynPath, rest: seq<Token>)
    requires |p.segments| >= 1 && PlainSegments(p)
    requires |rest| == 0 || rest[0] != PathSep
    ensures ParseUnprefixedPath([Ident(p.segments[0].ident)] + RenderSegments(p.segments[1..]) + rest, p.leadingColon) == Ok((p, rest))
  {
    var more := p.segments[1..];
    var ts1 := [Ident(p.segments[0].ident)] + RenderSegments(more) + rest;
    assert ts1[1..] == RenderSegments(more) + rest;
    ParseMoreSegmentsRoundTrip(more, rest);
    assert p.segments == [PathSegment(p.segments[0].ident, false)] + more;
  }

  lemma TypePathRoundTrip(p: SynPath, rest: seq<Token>)
    requires |p.segments| >= 1 && PlainSegments(p)
    requires |rest| == 0 || rest[0] != PathSep
    ensures ParseTypePath(RenderTypePath(p) + rest) == Ok((p, rest))
  {
    var ts1 := [Ident(p.segments[0].ident)] + RenderSegments(p.segments[1..]) + rest;
    UnprefixedPathRoundTrip(p, rest);
    var ts := RenderTypePath(p) + rest;
    if p.leadingColon {
      calc {
        ts;
        [PathSep] + [Ident(p.segments[0].ident)] + RenderSegments(p.segments[1..]) + rest;
        [PathSep] + ts1;
      }
      assert ts[0] == PathSep && ts[1..] == ts1;
    } else {
      assert ts == ts1;
      assert ts[0] == Ident(p.segments[0].ident);
    }
  }

  /** `error: T` followed by tokens that do not start with `::` parses to `T`. */
  lemma ErrorClauseRoundTrip(p: SynPath, rest: seq<Token>)
    requires |p.segments| >= 1 && PlainSegments(p)
    requires |rest| == 0 || rest[0] != PathSep
    ensures ParseErrorType([Ident("error"), Colon] + RenderTypePath(p) + rest) == Ok((ErrorType(p), rest))
  {
    var ts := [Ident("error"), Colon] + RenderTypePath(p) + rest;
    assert ts[2..] == RenderTypePath(p) + rest;
    TypePathRoundTrip(p, rest);
  }

  /** A rendering whose `k`-th segment is a keyword is refused, whatever follows it. */
  lemma {:induction false} ParseMoreSegmentsRejectsKeyword(segs: seq<PathSegment>, k: nat, rest: seq<Token>)
    requires k < |segs| && segs[k].ident in PathKeywords
    ensures ParseMoreSegments(RenderSegments(segs) + rest).Err?
  {
    var ts := RenderSegments(segs) + rest;
    assert ts == [PathSep, Ident(segs[0].ident)] + (RenderSegments(segs[1..]) + rest);
    if k > 0 {
      assert ts[2..] == RenderSegments(segs[1..]) + rest;
      ParseMoreSegmentsRejectsKeyword(segs[1..], k - 1, rest);
    }
  }

  /**
   * A type path one of whose segments is a keyword (`struct`, `Foo::fn`)
   * is refused, and so is the clause `error: T` written with it.
   */
  lemma KeywordTypePathRejected(p: SynPath, k: nat, rest: seq<Token>)
    requires |p.segments| >= 1 && k < |p.segments| && p.segments[k].ident in PathKeywords
    ensures ParseTypePath(RenderTypePath(p) + rest).Err?
    ensures ParseErrorType([Ident("error"), Colon] + RenderTypePath(p) + rest).Err?
  {
    var more := p.segments[1..];
    var ts1 := [Ident(p.segments[0].ident)] + RenderSegments(more) + rest;
    var ts := RenderTypePath(p) + rest;
    if p.leadingColon {
      assert ts == [PathSep] + ts1;
      assert ts[0] == PathSep && ts[1..] == ts1;
    } else {
      assert ts == ts1;
    }
    if k > 0 {
      assert ts1[1..] == RenderSegments(more) + rest;
      ParseMoreSegmentsRejectsKeyword(more, k - 1, rest);
    }
    var clause := [Ident("error"), Colon] + RenderTypePath(p) + rest;
    assert clause[2..] == ts;
  }

  /** What the segment parser accepts is a rendering of its result followed by tokens that do not start with `::`. */
  lemma {:induction false} ParseMoreSegmentsSound(ts: seq<Token>, segs: seq<PathSegment>, rest: seq<Token>)
    requires ParseMoreSegments(ts) == Ok((segs, rest))
    ensures ts == RenderSegments(segs) + rest
    ensures forall i :: 0 <= i < |segs| ==> PlainSegment(segs[i])
    ensures rest == [] || rest[0] != PathSep
    decreases |ts|
  {
    if |ts| > 0 && ts[0] == PathSep {
      var name := ParseMoreSegmentsStep(ts);
      var more := segs[1..];
      ParseMoreSegmentsSound(ts[2..], more, rest);
      assert RenderSegments(segs) == [PathSep, Ident(name)] + RenderSegments(more);
    }
  }

  /** One `:: Ident` step of a successful `ParseMoreSegments`; `name` is the identifier read. */
  lemma ParseMoreSegmentsStep(ts: seq<Token>) returns (name: string)
    requires ParseMoreSegments(ts).Ok? && |ts| > 0 && ts[0] == PathSep
    ensures |ts| > 1 && ts[1] == Ident(name) && name !in PathKeywords && ts == [PathSep, Ident(name)] + ts[2..]
    ensures ParseMoreSegments(ts[2..]).Ok?
    ensures var (segs, rest) := ParseMoreSegments(ts).value;
      |segs| >= 1 && segs[0] == PathSegment(name, false)
      && ParseMoreSegments(ts[2..]) == Ok((segs[1..], rest))
  {
    name := ts[1].name;
    var tail := ParseMoreSegments(ts[2..]);
    assert ParseMoreSegments(ts) == Ok(([PathSegment(name, false)] + tail.value.0, tail.value.1));
    assert ([PathSegment(name, false)] + tail.value.0)[1..] == tail.value.0;
  }

  lemma UnprefixedPathSound(ts: seq<Token>, lead: bool, p: SynPath, rest: seq<Token>)
    requires ParseUnprefixedPath(ts, lead) == Ok((p, rest))
    ensures p.leadingColon == lead && |p.segments| >= 1 && PlainSegments(p)
    ensures ts == [Ident(p.segments[0].ident)] + RenderSegments(p.segments[1..]) + rest
    ensures rest == [] || rest[0] != PathSep
  {
    var segs := p.segments[1..];
    assert ParseMoreSegments(ts[1..]) == Ok((segs, rest));
    ParseMoreSegmentsSound(ts[1..], segs, rest);
    assert p.segments == [PathSegment(ts[0].name, false)] + segs;
    assert ts == [Ident(ts[0].name)] + ts[1..];
    forall i | 0 <= i < |p.segments| ensures PlainSegment(p.segments[i]) {
      if i > 0 {
        assert p.segments[i] == segs[i - 1];
      }
    }
  }

  /**
   * What the type parser accepts is a rendering of its result, a path with
   * at least one plain segment, followed by tokens that do not start with `::`.
   */
  lemma ParseTypePathSound(ts: seq<Token>, p: SynPath, rest: seq<Token>)
    requires ParseTypePath(ts) == Ok((p, rest))
    ensures |p.segments| >= 1 && PlainSegments(p)
    ensures ts == RenderTypePath(p) + rest
    ensures rest == [] || rest[0] != PathSep
  {
    if |ts| > 0 && ts[0] == PathSep {
      UnprefixedPathSound(ts[1..], true, p, rest);
      var body := [Ident(p.segments[0].ident)] + RenderSegments(p.segments[1..]);
      assert ts == [PathSep] + ts[1..];
      assert RenderTypePath(p) + rest == [PathSep] + (body + rest);
    } else {
      UnprefixedPathSound(ts, false, p, rest);
    }
  }
}
