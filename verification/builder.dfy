/**
 * Builder-driven reading: which AutoValue builder the generated `fromJson` obtains, and which
 * setter it calls for each property.
 */
module Builders {
  import opened Wrappers
  import opened JavaTypes
  import opened Properties
  import opened Diagnostics

  /** A static method of the value class that returns its builder. */
  datatype BuilderMethod = BuilderMethod(name: string, annotated: bool)   // annotated @AutoValueMoshiBuilder

  /** A builder setter and its single parameter's type. */
  datatype Setter = Setter(name: string, paramType: TypeExpr)

  /** AutoValue's view of a builder. */
  datatype BuilderContext = BuilderContext(
    builderTypeName: string,
    buildMethod: Option<string>,
    builderMethods: seq<BuilderMethod>,
    setters: map<string, seq<Setter>>)   // keyed by property name

  /** How the generated code gets a builder instance. */
  datatype Obtain = NewBuilder(builderTypeName: string) | CallBuilderMethod(methodName: string)

  datatype BuilderPlan = BuilderPlan(obtain: Obtain, buildMethod: string)

  const NoBuildMethodMessage: string := "Could not determine the build method. Make sure it is named \"build\"."
  const TooManyAnnotatedMessage: string := "Too many @AutoValueMoshiBuilder annotated builder methods."
  const TooManyMethodsMessage: string := "Too many builder methods. Annotate builder method with @AutoValueMoshiBuilder."

  function Annotated(ms: seq<BuilderMethod>): (r: seq<BuilderMethod>)
    ensures forall m :: m in r <==> m in ms && m.annotated
    ensures |r| <= |ms|
  {
    if |ms| == 0 then []
    else if ms[0].annotated then [ms[0]] + Annotated(ms[1..])
    else Annotated(ms[1..])
  }

  /**
   * The validation and selection in createReadMethod: a build method must exist, and several
   * builder methods are allowed only when exactly one is annotated, which is then the one used.
   */
  function PlanBuilder(ctx: BuilderContext): (r: Result<BuilderPlan, Diagnostic>)
    ensures r.Failure? <==> ctx.buildMethod.None? || (|ctx.builderMethods| > 1 && |Annotated(ctx.builderMethods)| != 1)
    ensures ctx.buildMethod.None? ==> r.Failure? && r.error.message == NoBuildMethodMessage
    ensures (ctx.buildMethod.Some? && |ctx.builderMethods| > 1 && |Annotated(ctx.builderMethods)| > 1)
              ==> r.Failure? && r.error.message == TooManyAnnotatedMessage
    ensures (ctx.buildMethod.Some? && |ctx.builderMethods| > 1 && |Annotated(ctx.builderMethods)| == 0)
              ==> r.Failure? && r.error.message == TooManyMethodsMessage
    ensures r.Failure? ==> r.error.Error?
    ensures r.Success? ==> r.value.buildMethod == ctx.buildMethod.value
    ensures r.Success? && |ctx.builderMethods| == 0 ==> r.value.obtain == NewBuilder(ctx.builderTypeName)
    ensures r.Success? && |ctx.builderMethods| > 0 ==>
              exists m :: m in ctx.builderMethods && r.value.obtain == CallBuilderMethod(m.name)
                          && (|ctx.builderMethods| > 1 ==> m.annotated)
  {
    var ms := ctx.builderMethods;
    if ctx.buildMethod.None? then Failure(Error(NoBuildMethodMessage, ctx.builderTypeName))
    else if |ms| > 1 && |Annotated(ms)| > 1 then Failure(Error(TooManyAnnotatedMessage, Annotated(ms)[0].name))
    else if |ms| > 1 && |Annotated(ms)| == 0 then Failure(Error(TooManyMethodsMessage, ms[0].name))
    else if |ms| == 0 then Success(BuilderPlan(NewBuilder(ctx.builderTypeName), ctx.buildMethod.value))
    else if |ms| == 1 then Success(BuilderPlan(CallBuilderMethod(ms[0].name), ctx.buildMethod.value))
    else
      var m := Annotated(ms)[0];
      assert m in Annotated(ms);
      Success(BuilderPlan(CallBuilderMethod(m.name), ctx.buildMethod.value))
  }

  /** The first setter whose parameter type is `t`. */
  function FirstSetterOfType(ss: seq<Setter>, t: TypeExpr): (r: Option<string>)
    ensures r.None? <==> forall i :: 0 <= i < |ss| ==> ss[i].paramType != t
    ensures r.Some? ==> exists i :: 0 <= i < |ss| && ss[i].name == r.value && ss[i].paramType == t
                                   && forall j :: 0 <= j < i ==> ss[j].paramType != t
  {
    if |ss| == 0 then None
    else if ss[0].paramType == t then Some(ss[0].name)
    else
      var r := FirstSetterOfType(ss[1..], t);
      assert r.Some? ==> exists i :: 1 <= i < |ss| && ss[i].name == r.value && ss[i].paramType == t
                                    && forall j :: 1 <= j < i ==> ss[j].paramType != t;
      r
  }

  function SetterNotFoundMessage(p: Property): string {
    "Setter not found for " + p.methodName + "()"
  }

  /**
   * addBuilderFieldSetting: the setter called for a property. A property without any setter entry
   * dereferences a missing map value; one whose setters all take another type is rejected.
   */
  function ResolveSetter(setters: map<string, seq<Setter>>, p: Property): (r: Result<string, Thrown>)
    ensures p.humanName !in setters ==> r == Failure(NullPointer)
    ensures p.humanName in setters ==>
              (r.Failure? <==> forall i :: 0 <= i < |setters[p.humanName]| ==> setters[p.humanName][i].paramType != p.propType)
    ensures r.Failure? && p.humanName in setters ==> r.error == IllegalArgument(SetterNotFoundMessage(p))
    ensures r.Success? ==> exists s :: s in setters[p.humanName] && s.name == r.value && s.paramType == p.propType
  {
    if p.humanName !in setters then Failure(NullPointer)
    else match FirstSetterOfType(setters[p.humanName], p.propType)
      case Some(n) => Success(n)
      case None => Failure(IllegalArgument(SetterNotFoundMessage(p)))
  }
}
