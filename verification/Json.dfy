/**
 JSON trees, references into an OpenAPI document's components, and names with
 a numeric suffix. The order of an object's keys is not kept.
 */
module Json {
  import opened Wrappers

  datatype Json =
    | Null
    | Bool(b: bool)
    | Num(n: int)
    | Str(s: string)
    | Arr(items: seq<Json>)
    | Obj(fields: map<string, Json>)

  /** `deepEqual`: as many keys on both sides, and each key of the first equal in the second. */
  predicate DeepEqual(a: Json, b: Json) {
    match (a, b)
    case (Arr(xs), Arr(ys)) =>
      |xs| == |ys| && forall i :: 0 <= i < |xs| ==> DeepEqual(xs[i], ys[i])
    case (Obj(f), Obj(g)) =>
      |f.Keys| == |g.Keys| && forall k :: k in f ==> k in g && DeepEqual(f[k], g[k])
    case _ => a == b
  }

  lemma SameSize<T>(a: set<T>, b: set<T>)
    requires a <= b && |a| == |b|
    ensures a == b
  {
    if x :| x in b && x !in a {
      assert a <= b - {x};
      SubsetSize(a, b - {x});
    }
  }

  lemma {:induction false} SubsetSize<T>(a: set<T>, b: set<T>)
    requires a <= b
    ensures |a| <= |b|
    decreases a
  {
    if a != {} {
      var x :| x in a;
      SubsetSize(a - {x}, b - {x});
    }
  }

  /** `deepEqual` decides equality of JSON trees. */
  lemma {:induction false} DeepEqualIsEqual(a: Json, b: Json)
    ensures DeepEqual(a, b) <==> a == b
    decreases a
  {
    match (a, b)
    case (Arr(xs), Arr(ys)) =>
      forall i | 0 <= i < |xs| && i < |ys| ensures DeepEqual(xs[i], ys[i]) <==> xs[i] == ys[i] {
        DeepEqualIsEqual(xs[i], ys[i]);
      }
    case (Obj(f), Obj(g)) =>
      forall k | k in f && k in g ensures DeepEqual(f[k], g[k]) <==> f[k] == g[k] {
        DeepEqualIsEqual(f[k], g[k]);
      }
      if DeepEqual(a, b) {
        SameSize(f.Keys, g.Keys);
        assert f == g;
      }
    case _ =>
  }

  // ---------- component references ----------

  datatype Section = Schemas | Responses | Parameters | SecuritySchemes

  const SECTIONS: seq<Section> := [Schemas, Responses, Parameters, SecuritySchemes]

  function SectionName(section: Section): string {
    match section
    case Schemas => "schemas"
    case Responses => "responses"
    case Parameters => "parameters"
    case SecuritySchemes => "securitySchemes"
  }

  function Prefix(section: Section): string {
    "#/components/" + SectionName(section) + "/"
  }

  function RefTo(section: Section, name: string): string {
    Prefix(section) + name
  }

  /** The component of this section that a reference string names, if it names one. */
  function RefName(ref: string, section: Section): Option<string> {
    if Prefix(section) <= ref then Some(ref[|Prefix(section)|..]) else None
  }

  lemma RefToOfRefName(ref: string, section: Section)
    requires RefName(ref, section).Some?
    ensures RefTo(section, RefName(ref, section).value) == ref
  {
  }

  /** The section a reference string points into, if it is one of the four. */
  function SectionOf(ref: string): (s: Option<Section>)
    ensures s.Some? ==> RefName(ref, s.value).Some?
  {
    if RefName(ref, Schemas).Some? then Some(Schemas)
    else if RefName(ref, Responses).Some? then Some(Responses)
    else if RefName(ref, Parameters).Some? then Some(Parameters)
    else if RefName(ref, SecuritySchemes).Some? then Some(SecuritySchemes)
    else None
  }

  /** A reference string points into at most one section. */
  lemma SectionOfRef(ref: string, s: Section)
    ensures RefName(ref, s).Some? <==> SectionOf(ref) == Some(s)
  {
    if RefName(ref, s).Some? {
      assert SectionOf(ref).Some?;
      OneSection(ref, s, SectionOf(ref).value);
    }
  }

  lemma SectionOfRefTo(s: Section, name: string)
    ensures SectionOf(RefTo(s, name)) == Some(s)
    ensures RefName(RefTo(s, name), s) == Some(name)
  {
    SectionOfRef(RefTo(s, name), s);
  }

  lemma OneSection(ref: string, a: Section, b: Section)
    requires RefName(ref, a).Some? && RefName(ref, b).Some?
    ensures a == b
  {
    var p, q := Prefix(a), Prefix(b);
    assert |p| > 14 && |q| > 14;
    assert ref[13] == p[13] == q[13] && ref[14] == p[14] == q[14];
    PrefixCode(a);
    PrefixCode(b);
  }

  lemma PrefixCode(s: Section)
    ensures |Prefix(s)| > 14
    ensures Prefix(s)[13] == match s case Schemas => 's' case Responses => 'r'
                                     case Parameters => 'p' case SecuritySchemes => 's'
    ensures Prefix(s)[14] == match s case Schemas => 'c' case Responses => 'e'
                                     case Parameters => 'a' case SecuritySchemes => 'e'
  {
    var head, name := "#/components/", SectionName(s);
    assert |head| == 13;
    assert Prefix(s)[13] == name[0] && Prefix(s)[14] == name[1];
  }

  // ---------- suffixed names ----------

  function Digit(n: nat): char
    requires n < 10
  {
    '0' + n as char
  }

  function Decimal(n: nat): (s: string)
    ensures |s| > 0
    ensures forall i :: 0 <= i < |s| ==> s[i] != '_'
  {
    if n < 10 then [Digit(n)] else Decimal(n / 10) + [Digit(n % 10)]
  }

  lemma {:induction false} DecimalInjective(a: nat, b: nat)
    requires Decimal(a) == Decimal(b)
    ensures a == b
    decreases a
  {
    var s, t := Decimal(a), Decimal(b);
    assert s[|s| - 1] == Digit(a % 10) && t[|t| - 1] == Digit(b % 10);
    assert (a >= 10 <==> |s| > 1) && (b >= 10 <==> |t| > 1);
    if a >= 10 {
      assert s[..|s| - 1] == Decimal(a / 10) && t[..|t| - 1] == Decimal(b / 10);
      DecimalInjective(a / 10, b / 10);
    }
  }

  function Suffixed(name: string, suffix: nat): string {
    name + "_" + Decimal(suffix)
  }

  /** A suffixed name determines the name and the suffix: no two names share one. */
  lemma SuffixedInjective(a: string, i: nat, b: string, j: nat)
    requires Suffixed(a, i) == Suffixed(b, j)
    ensures a == b && i == j
  {
    var s := Suffixed(a, i);
    var d, e := Decimal(i), Decimal(j);
    assert s[|a|] == '_' && s[|b|] == '_';
    assert forall k :: |a| < k < |s| ==> s[k] == d[k - |a| - 1];
    assert forall k :: |b| < k < |s| ==> s[k] == e[k - |b| - 1];
    assert |a| == |b|;
    assert s[..|a|] == a && s[..|b|] == b;
    assert s[|a| + 1..] == d && s[|b| + 1..] == e;
    DecimalInjective(i, j);
  }
}
