/**
 * The 'scale' facet of decimal datatypes: the most fraction digits a literal may have.
 * The facet counts the digits after the decimal point, checks a literal against its
 * scale, explains a violation, and refuses a derivation that would loosen the base's scale.
 */
module ScaleFacets {
  import opened Wrappers

  const FacetScale: string := "scale"

  predicate IsDigit(c: char)
  {
    '0' <= c <= '9'
  }

  /** The characters after the first '.', or "" when there is none. */
  function FractionOf(literal: string): (r: string)
    ensures |r| <= |literal|
  {
    if literal == [] then ""
    else if literal[0] == '.' then literal[1..]
    else FractionOf(literal[1..])
  }

  /** The number of characters '1'..'9' in `s`. */
  function NonZeroDigits(s: string): (r: nat)
    ensures r <= |s|
  {
    if s == [] then 0
    else NonZeroDigits(s[..|s| - 1]) + (if '0' < s[|s| - 1] <= '9' then 1 else 0)
  }

  /** The number of digits '0'..'9' in `s`. */
  function Digits(s: string): (r: nat)
    ensures r <= |s|
  {
    if s == [] then 0
    else Digits(s[..|s| - 1]) + (if IsDigit(s[|s| - 1]) then 1 else 0)
  }

  /** The length of the run of '0' that ends `s`. */
  function TrailingZeros(s: string): (r: nat)
    ensures r <= Digits(s)
  {
    if s != [] && s[|s| - 1] == '0' then TrailingZeros(s[..|s| - 1]) + 1 else 0
  }

  /** `s` without its trailing zeros. */
  function TrimZeros(s: string): (r: string)
    ensures |r| <= |s|
  {
    if s != [] && s[|s| - 1] == '0' then TrimZeros(s[..|s| - 1]) else s
  }

  /** The digits of the fraction up to its last non-zero digit: the literal's scale. */
  function FractionDigits(literal: string): nat
  {
    Digits(TrimZeros(FractionOf(literal)))
  }

  /** Counting all digits and discarding the trailing zeros counts the trimmed fraction. */
  lemma {:induction false} TrimmedCount(s: string)
    ensures Digits(s) - TrailingZeros(s) == Digits(TrimZeros(s))
  {
    if s != [] && s[|s| - 1] == '0' {
      TrimmedCount(s[..|s| - 1]);
    }
  }

  /** The fraction is what follows the first '.'. */
  lemma {:induction false} FractionAfterFirstDot(literal: string, dot: nat)
    requires dot < |literal| && literal[dot] == '.'
    requires forall k :: 0 <= k < dot ==> literal[k] != '.'
    ensures FractionOf(literal) == literal[dot + 1..]
  {
    if dot > 0 {
      FractionAfterFirstDot(literal[1..], dot - 1);
      assert literal[1..][dot..] == literal[dot + 1..];
    }
  }

  /** Without a '.', the fraction is empty. */
  lemma {:induction false} NoDotNoFraction(literal: string)
    requires forall k :: 0 <= k < |literal| ==> literal[k] != '.'
    ensures FractionOf(literal) == ""
  {
    if literal != [] {
      NoDotNoFraction(literal[1..]);
    }
  }

  /**
   * countScale as written: after the first '.', it counts the characters strictly above
   * '0' and at most '9', so zeros inside the fraction are not counted.
   */
  method CountScaleAsWritten(literal: string) returns (count: nat)
    ensures count == NonZeroDigits(FractionOf(literal))
    ensures count <= |literal|
  {
    var skipMode := true;
    count := 0;
    ghost var dot: nat := 0;
    var i := 0;
    while i < |literal|
      invariant 0 <= i <= |literal|
      invariant skipMode ==> count == 0 && forall k :: 0 <= k < i ==> literal[k] != '.'
      invariant !skipMode ==> dot < i && literal[dot] == '.' && (forall k :: 0 <= k < dot ==> literal[k] != '.')
                              && count == NonZeroDigits(literal[dot + 1..i])
    {
      if skipMode {
        if literal[i] == '.' {
          skipMode := false;
          dot := i;
          assert literal[dot + 1..i + 1] == [];
        }
      } else {
        assert literal[dot + 1..i + 1][..i - dot - 1] == literal[dot + 1..i];
        if '0' < literal[i] <= '9' {
          count := count + 1;
        }
      }
      i := i + 1;
    }
    if skipMode {
      NoDotNoFraction(literal);
    } else {
      FractionAfterFirstDot(literal, dot);
      assert literal[dot + 1..i] == literal[dot + 1..];
    }
  }

  /** As written, "1.01" counts one fraction digit although it has two. */
  lemma AsWrittenSkipsInnerZero()
    ensures NonZeroDigits(FractionOf("1.01")) == 1
    ensures FractionDigits("1.01") == 2
  {
    assert FractionOf("1.01") == "01";
    assert TrimZeros("01") == "01";
    assert "01"[..1] == "0";
  }

  /**
   * countScale as evidently intended: after the first '.', count the digits and discard
   * the run of zeros at the end.
   */
  method CountScale(literal: string) returns (count: nat)
    ensures count == FractionDigits(literal)
    ensures count <= |literal|
  {
    var skipMode := true;
    var digits: nat := 0;
    var trailing: nat := 0;
    ghost var dot: nat := 0;
    var i := 0;
    while i < |literal|
      invariant 0 <= i <= |literal|
      invariant skipMode ==> digits == 0 && trailing == 0 && forall k :: 0 <= k < i ==> literal[k] != '.'
      invariant !skipMode ==> dot < i && literal[dot] == '.' && (forall k :: 0 <= k < dot ==> literal[k] != '.')
                              && digits == Digits(literal[dot + 1..i])
                              && trailing == TrailingZeros(literal[dot + 1..i])
    {
      if skipMode {
        if literal[i] == '.' {
          skipMode := false;
          dot := i;
          assert literal[dot + 1..i + 1] == [];
        }
      } else {
        assert literal[dot + 1..i + 1][..i - dot - 1] == literal[dot + 1..i];
        if literal[i] == '0' {
          trailing := trailing + 1;
        } else {
          trailing := 0;
        }
        if IsDigit(literal[i]) {
          digits := digits + 1;
        }
      }
      i := i + 1;
    }
    if skipMode {
      NoDotNoFraction(literal);
    } else {
      FractionAfterFirstDot(literal, dot);
      assert literal[dot + 1..i] == literal[dot + 1..];
      TrimmedCount(literal[dot + 1..]);
    }
    count := digits - trailing;
  }

  /** A facet as derived: the type's name and its scale. */
  datatype ScaleFacet = ScaleFacet(typeName: string, scale: nat)

  /** The base type's scale facet, when it has one. */
  datatype BaseScale = BaseScale(typeName: string, scale: nat)

  /** BadTypeException.ERR_LOOSENED_FACET with the facet's name and the base facet's type name. */
  datatype FacetError = LoosenedFacet(facetName: string, baseTypeName: string)

  /** The constructor: a scale larger than the base type's would loosen the facet. */
  function NewScaleFacet(typeName: string, base: Option<BaseScale>, scale: nat): (r: Result<ScaleFacet, FacetError>)
    ensures r.Thrown? <==> base.Some? && base.value.scale < scale
    ensures r.Thrown? ==> r.error == LoosenedFacet(FacetScale, base.value.typeName)
    ensures r.Normal? ==> r.value == ScaleFacet(typeName, scale)
    ensures r.Normal? && base.Some? ==> r.value.scale <= base.value.scale
  {
    if base.Some? && base.value.scale < scale then Thrown(LoosenedFacet(FacetScale, base.value.typeName))
    else Normal(ScaleFacet(typeName, scale))
  }

  /** checkLexicalConstraint: the literal has no more fraction digits than the scale allows. */
  method CheckLexicalConstraint(facet: ScaleFacet, content: string) returns (ok: bool)
    ensures ok <==> FractionDigits(content) <= facet.scale
  {
    var count := CountScale(content);
    ok := count <= facet.scale;
  }

  /** DataTypeErrorDiagnosis for ERR_TOO_MUCH_SCALE: the literal, the count found and the scale allowed. */
  datatype ScaleDiagnosis = TooMuchScale(content: string, position: int, count: nat, scale: nat)

  /** diagnoseByFacet: nothing when the literal conforms, otherwise the count and the scale. */
  method DiagnoseByFacet(facet: ScaleFacet, content: string) returns (r: Option<ScaleDiagnosis>)
    ensures r == None <==> FractionDigits(content) <= facet.scale
    ensures r.Some? ==> r.value == TooMuchScale(content, -1, FractionDigits(content), facet.scale)
  {
    var count := CountScale(content);
    if count <= facet.scale {
      return None;
    }
    return Some(TooMuchScale(content, -1, count, facet.scale));
  }
}
