/**
 * `strip_serde_attrs`: the copy of a struct field that the generated code
 * re-emits, with every `#[serde(...)]` attribute removed.
 */
module StripSerde {
  import opened Syntax

  /** The attribute `#[serde(...)]`, recognised by `attr.path.is_ident("serde")`. */
  predicate IsSerde(a: Attribute)
  {
    IsIdent(a.path, "serde")
  }

  /** The attributes that survive, in their original order. */
  function KeepNonSerde(attrs: seq<Attribute>): (r: seq<Attribute>)
    ensures |r| <= |attrs|
  {
    if attrs == [] then []
    else (if IsSerde(attrs[0]) then [] else [attrs[0]]) + KeepNonSerde(attrs[1..])
  }

  /** An attribute survives exactly when it was there and is not a `serde` attribute. */
  lemma {:induction false} KeepNonSerdeMembers(attrs: seq<Attribute>, x: Attribute)
    ensures x in KeepNonSerde(attrs) <==> x in attrs && !IsSerde(x)
  {
    if attrs != [] {
      KeepNonSerdeMembers(attrs[1..], x);
      assert attrs == [attrs[0]] + attrs[1..];
    }
  }

  /** Filtering distributes over concatenation: the survivors of `xs` come before those of `ys`. */
  lemma {:induction false} KeepNonSerdeConcat(xs: seq<Attribute>, ys: seq<Attribute>)
    ensures KeepNonSerde(xs + ys) == KeepNonSerde(xs) + KeepNonSerde(ys)
  {
    if xs == [] {
      assert xs + ys == ys;
    } else {
      var both := xs + ys;
      assert both[0] == xs[0] && both[1..] == xs[1..] + ys;
      var first := if IsSerde(xs[0]) then [] else [xs[0]];
      assert KeepNonSerde(both) == first + KeepNonSerde(xs[1..] + ys);
      assert KeepNonSerde(xs) == first + KeepNonSerde(xs[1..]);
      KeepNonSerdeConcat(xs[1..], ys);
    }
  }

  /** Stripping twice is stripping once. */
  lemma {:induction false} KeepNonSerdeIdempotent(attrs: seq<Attribute>)
    ensures KeepNonSerde(KeepNonSerde(attrs)) == KeepNonSerde(attrs)
  {
    if attrs != [] {
      var head := if IsSerde(attrs[0]) then [] else [attrs[0]];
      KeepNonSerdeConcat(head, KeepNonSerde(attrs[1..]));
      KeepNonSerdeIdempotent(attrs[1..]);
      if !IsSerde(attrs[0]) {
        assert [attrs[0]][1..] == [];
      }
    }
  }

  /** A list without `serde` attributes is left exactly as it is. */
  lemma {:induction false} KeepNonSerdeNoSerde(attrs: seq<Attribute>)
    requires forall i :: 0 <= i < |attrs| ==> !IsSerde(attrs[i])
    ensures KeepNonSerde(attrs) == attrs
  {
    if attrs != [] {
      KeepNonSerdeNoSerde(attrs[1..]);
    }
  }

  /** One more element of the input: the survivors grow by it unless it is a `serde` attribute. */
  lemma KeepNonSerdeStep(s: seq<Attribute>, i: nat)
    requires i < |s|
    ensures KeepNonSerde(s[..i + 1]) == KeepNonSerde(s[..i]) + (if IsSerde(s[i]) then [] else [s[i]])
  {
    assert s[..i + 1] == s[..i] + [s[i]];
    KeepNonSerdeConcat(s[..i], [s[i]]);
  }

  /**
   * `Vec::retain(|attr| !attr.path.is_ident("serde"))` on the vector held in
   * `a`: the kept attributes are moved, in order, to the front of the array,
   * and the returned length is the vector's new length.
   */
  method RetainNonSerde(a: array<Attribute>) returns (len: nat)
    modifies a
    ensures len <= a.Length
    ensures a[..len] == KeepNonSerde(old(a[..]))
  {
    ghost var s := a[..];
    var i := 0;
    len := 0;
    while i < a.Length
      invariant 0 <= len <= i <= a.Length
      invariant a[..len] == KeepNonSerde(s[..i])
      invariant forall j :: i <= j < a.Length ==> a[j] == s[j]
    {
      var x := a[i];
      KeepNonSerdeStep(s, i);
      if !IsSerde(x) {
        ghost var kept := a[..len];
        a[len] := x;
        assert a[..len + 1] == kept + [x];
        len := len + 1;
      }
      i := i + 1;
    }
    assert s[..a.Length] == s;
  }

  /**
   * `strip_serde_attrs`: clone the field, then retain its non-`serde`
   * attributes; the name and type of the field are not touched.
   */
  method StripSerdeAttrs(field: Field) returns (r: Field)
    ensures r == field.(attrs := KeepNonSerde(field.attrs))
    ensures r.ident == field.ident && r.ty == field.ty
    ensures forall x :: x in r.attrs <==> x in field.attrs && !IsSerde(x)
  {
    var n := |field.attrs|;
    var attrs := new Attribute[n](i requires 0 <= i < n => field.attrs[i]);
    assert attrs[..] == field.attrs;
    var len := RetainNonSerde(attrs);
    r := field.(attrs := attrs[..len]);
    forall x | true ensures x in r.attrs <==> x in field.attrs && !IsSerde(x) {
      KeepNonSerdeMembers(field.attrs, x);
    }
  }
}
