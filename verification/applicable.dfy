/**
 * Whether the extension generates an adapter for an AutoValue class: always for
 * `@JsonClass(generateAdapter = true, generator = "avm")`, otherwise only when the class declares a
 * static factory returning its JsonAdapter.
 */
module Applicability {
  import opened Wrappers
  import opened JavaTypes
  import opened Diagnostics

  /** The arguments of a @JsonClass annotation. */
  datatype JsonClassAnnotation = JsonClassAnnotation(generateAdapter: bool, generator: string)

  datatype MethodDecl = MethodDecl(
    name: string,
    isStatic: bool,
    isPrivate: bool,
    returnType: TypeExpr,
    parameters: seq<TypeExpr>)

  /** The parts of an AutoValue class that decide applicability. */
  datatype ValueClass = ValueClass(
    canonicalName: string,
    selfType: TypeExpr,                    // the class's own type, with its type variables
    jsonClass: Option<JsonClassAnnotation>,
    methods: seq<MethodDecl>)

  const MoshiGeneratorKey: string := "avm"

  /** generateExternalAdapter: the class asks Moshi's code generation to use this extension. */
  predicate GenerateExternalAdapter(c: ValueClass) {
    c.jsonClass.Some? && c.jsonClass.value.generateAdapter && c.jsonClass.value.generator == MoshiGeneratorKey
  }

  predicate StaticVisible(m: MethodDecl) {
    m.isStatic && !m.isPrivate
  }

  /** A static, non-private method returning exactly `JsonAdapter<Self>`. */
  predicate ReturnsOwnAdapter(m: MethodDecl, self: TypeExpr) {
    StaticVisible(m) && m.returnType == AdapterOf(self)
  }

  /** A static, non-private method returning some JsonAdapter, raw or parameterized. */
  predicate ReturnsSomeAdapter(m: MethodDecl) {
    StaticVisible(m)
    && (m.returnType == ClassType(JsonAdapterClass)
        || (m.returnType.Parameterized? && m.returnType.raw == JsonAdapterClass))
  }

  /** The return type of the last method that returns some JsonAdapter. */
  function LastAdapterReturn(ms: seq<MethodDecl>): (r: Option<TypeExpr>)
    ensures r.None? <==> forall j :: 0 <= j < |ms| ==> !ReturnsSomeAdapter(ms[j])
    ensures r.Some? ==> exists j :: 0 <= j < |ms| && ReturnsSomeAdapter(ms[j]) && ms[j].returnType == r.value
                                   && forall k :: j < k < |ms| ==> !ReturnsSomeAdapter(ms[k])
  {
    var j := LastAdapterIndex(ms, |ms|);
    if j < 0 then None else Some(ms[j].returnType)
  }

  /** The position of the last method before `n` that returns some JsonAdapter, or -1. */
  function LastAdapterIndex(ms: seq<MethodDecl>, n: nat): (r: int)
    requires n <= |ms|
    ensures -1 <= r < n
    ensures r == -1 ==> forall j :: 0 <= j < n ==> !ReturnsSomeAdapter(ms[j])
    ensures r >= 0 ==> ReturnsSomeAdapter(ms[r]) && forall k :: r < k < n ==> !ReturnsSomeAdapter(ms[k])
  {
    if n == 0 then -1
    else if ReturnsSomeAdapter(ms[n - 1]) then n - 1
    else LastAdapterIndex(ms, n - 1)
  }

  /** A JsonAdapter whose type argument is itself parameterized (a generic value class). */
  predicate AdapterOfParameterized(t: TypeExpr) {
    t.Parameterized? && |t.args| > 0 && t.args[0].Parameterized?
  }

  /** When the extension applies, in terms of the class's declarations. */
  predicate IsApplicable(c: ValueClass) {
    GenerateExternalAdapter(c)
    || (exists j :: 0 <= j < |c.methods| && ReturnsOwnAdapter(c.methods[j], c.selfType))
    || (LastAdapterReturn(c.methods).Some? && AdapterOfParameterized(LastAdapterReturn(c.methods).value))
  }

  const RawAdapterWarning: string :=
    "Found static method returning JsonAdapter with no type arguments, skipping MoshiJsonAdapter generation."

  function WrongAdapterWarning(argument: TypeExpr, c: ValueClass): string {
    "Found static method returning JsonAdapter<" + ShowType(argument) + "> on " + c.canonicalName
      + " class. Skipping MoshiJsonAdapter generation."
  }

  /** The warning for a class skipped although it declares a method returning a JsonAdapter. */
  function SkipWarning(returned: TypeExpr, c: ValueClass): Diagnostic {
    if returned.Parameterized? && |returned.args| > 0 then Warning(WrongAdapterWarning(returned.args[0], c), c.canonicalName)
    else Warning(RawAdapterWarning, c.canonicalName)
  }

  /**
   * The warnings `applicable` prints for a class: one exactly when the class is skipped although
   * it declares a static method returning some JsonAdapter.
   */
  function SkipWarnings(c: ValueClass): (r: seq<Diagnostic>)
    ensures |r| <= 1
    ensures |r| == 1 <==> !IsApplicable(c) && LastAdapterReturn(c.methods).Some?
    ensures forall d :: d in r ==> d.Warning? && d.subject == c.canonicalName
  {
    if IsApplicable(c) || LastAdapterReturn(c.methods).None? then []
    else [SkipWarning(LastAdapterReturn(c.methods).value, c)]
  }

  /**
   * applicable: scans the methods in order, answering yes at the first that returns the class's own
   * adapter; otherwise the last method returning any JsonAdapter decides, with a warning when that
   * adapter's type argument is not a parameterized type.
   */
  method Applicable(c: ValueClass) returns (applies: bool, warnings: seq<Diagnostic>)
    ensures applies <==> IsApplicable(c)
    ensures applies ==> warnings == []
    ensures !applies && LastAdapterReturn(c.methods).Some? ==> warnings == [SkipWarning(LastAdapterReturn(c.methods).value, c)]
    ensures LastAdapterReturn(c.methods).None? ==> warnings == []
    ensures warnings == SkipWarnings(c)
  {
    if GenerateExternalAdapter(c) {
      return true, [];
    }
    var returned: Option<TypeExpr> := None;
    var i := 0;
    while i < |c.methods|
      invariant 0 <= i <= |c.methods|
      invariant returned == LastAdapterReturn(c.methods[..i])
      invariant forall j :: 0 <= j < i ==> !ReturnsOwnAdapter(c.methods[j], c.selfType)
    {
      var m := c.methods[i];
      assert c.methods[..i + 1][..i] == c.methods[..i];
      if StaticVisible(m) {
        if m.returnType == AdapterOf(c.selfType) {
          return true, [];
        }
        if ReturnsSomeAdapter(m) {
          returned := Some(m.returnType);
        }
      }
      i := i + 1;
    }
    assert c.methods[..i] == c.methods;
    if returned.None? {
      return false, [];
    }
    if AdapterOfParameterized(returned.value) {
      return true, [];
    }
    return false, [SkipWarning(returned.value, c)];
  }
}
