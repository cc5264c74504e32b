/**
 * The code the current extension generates for one AutoValue class, as plain data: the adapter
 * fields and their initialisation in the adapter's constructor, the NAMES table, the read and
 * write plans, the subclass constructor, and the choice between a nested adapter and an external
 * one.
 */
module AdapterGenerator {
  import opened Wrappers
  import opened Seqs
  import opened JavaTypes
  import opened JsonTokens
  import opened Properties
  import opened Diagnostics
  import opened Builders
  import opened Applicability
  import opened AdapterRuntime

  // ----- adapter fields -----

  function AdapterFieldName(p: Property): string {
    p.humanName + "Adapter"
  }

  /** `private final JsonAdapter<T> nameAdapter`, annotated with the property's qualifiers. */
  datatype AdapterField = AdapterField(name: string, fieldType: TypeExpr, annotations: seq<string>)

  function FieldFor(p: Property): AdapterField {
    AdapterField(AdapterFieldName(p), AdapterOf(Boxed(p.propType)), p.qualifiers)
  }

  /** createFields: one adapter field per non-transient property, for the boxed property type. */
  function CreateFields(ps: seq<Property>): (r: seq<AdapterField>)
    ensures |r| <= |ps|
    ensures forall p :: p in ps && !p.isTransient ==> FieldFor(p) in r
    ensures forall f :: f in r ==> exists p :: p in ps && !p.isTransient && f == FieldFor(p)
    ensures forall f :: f in r ==> f.fieldType.Parameterized? && f.fieldType.raw == JsonAdapterClass
                                   && |f.fieldType.args| == 1 && !f.fieldType.args[0].PrimitiveType?
  {
    if |ps| == 0 then []
    else if ps[0].isTransient then CreateFields(ps[1..])
    else [FieldFor(ps[0])] + CreateFields(ps[1..])
  }

  predicate DistinctHumanNames(ps: seq<Property>) {
    forall i, j :: 0 <= i < j < |ps| ==> ps[i].humanName != ps[j].humanName
  }

  lemma AdapterFieldNameInjective(p: Property, q: Property)
    requires p.humanName != q.humanName
    ensures AdapterFieldName(p) != AdapterFieldName(q)
  {
    var a, b := AdapterFieldName(p), AdapterFieldName(q);
    assert p.humanName == a[..|a| - 7];
    assert q.humanName == b[..|b| - 7];
  }

  /** Distinct property names give distinct adapter field names, so the fields never clash. */
  lemma {:induction false} CreateFieldsDistinct(ps: seq<Property>)
    requires DistinctHumanNames(ps)
    ensures FieldNamesDistinct(CreateFields(ps))
  {
    if |ps| > 0 {
      DistinctHumanNamesTail(ps);
      CreateFieldsDistinct(ps[1..]);
      if !ps[0].isTransient {
        HeadFieldFresh(ps);
        FieldNamesDistinctCons(FieldFor(ps[0]), CreateFields(ps[1..]));
      }
    }
  }

  predicate FieldNamesDistinct(fs: seq<AdapterField>) {
    forall i, j :: 0 <= i < j < |fs| ==> fs[i].name != fs[j].name
  }

  lemma DistinctHumanNamesTail(ps: seq<Property>)
    requires DistinctHumanNames(ps) && |ps| > 0
    ensures DistinctHumanNames(ps[1..])
  {
    forall i, j | 0 <= i < j < |ps[1..]| ensures ps[1..][i].humanName != ps[1..][j].humanName {
      assert ps[1..][i] == ps[i + 1] && ps[1..][j] == ps[j + 1];
    }
  }

  lemma FieldNamesDistinctCons(f: AdapterField, rest: seq<AdapterField>)
    requires FieldNamesDistinct(rest)
    requires forall g :: g in rest ==> g.name != f.name
    ensures FieldNamesDistinct([f] + rest)
  {
    var r := [f] + rest;
    forall i, j | 0 <= i < j < |r|
      ensures r[i].name != r[j].name
    {
      assert r[j] == rest[j - 1];
      if i > 0 {
        assert r[i] == rest[i - 1];
      }
    }
  }

  /** The first property's field name differs from every later property's. */
  lemma HeadFieldFresh(ps: seq<Property>)
    requires DistinctHumanNames(ps) && |ps| > 0
    ensures forall f :: f in CreateFields(ps[1..]) ==> f.name != AdapterFieldName(ps[0])
  {
    forall f | f in CreateFields(ps[1..])
      ensures f.name != AdapterFieldName(ps[0])
    {
      var p :| p in ps[1..] && !p.isTransient && f == FieldFor(p);
      var j :| 0 <= j < |ps[1..]| && ps[1..][j] == p;
      assert ps[j + 1] == p;
      AdapterFieldNameInjective(p, ps[0]);
    }
  }

  // ----- adapter initialisation in the adapter's constructor -----

  /**
   * `this.nameAdapter = moshi.<T>adapter(target, qualifiers).nullSafe()`: the explicit type
   * witness, the type lookup, the qualifier lookup (by field name) and the null-safe wrapper.
   */
  datatype AdapterInit = AdapterInit(
    field: string,
    typeWitness: Option<TypeExpr>,
    target: Lookup,
    qualifierField: Option<string>,
    nullSafe: bool)

  /** The three branches of createTypeAdapter's loop over the adapter fields. */
  function InitFor(p: Property, generics: Option<seq<string>>): (r: Result<AdapterInit, TypeError>)
    ensures r.Success? ==> r.value.field == AdapterFieldName(p)
    ensures r.Success? ==> (r.value.nullSafe <==> Nullable(p))
    ensures r.Success? ==> (r.value.qualifierField.Some? <==> HasQualifiers(p))
    ensures r.Success? && r.value.qualifierField.Some? ==> r.value.qualifierField.value == AdapterFieldName(p)
    ensures r.Success? ==> (r.value.typeWitness.Some? <==> p.propType.Parameterized? || r.value.target.TypesAt?)
    ensures r.Success? && r.value.typeWitness.Some? ==> r.value.typeWitness.value == p.propType
    ensures generics.Some? && p.propType.TypeVar? && p.propType.name in generics.value ==>
              r == Success(AdapterInit(AdapterFieldName(p), Some(p.propType),
                                       TypesAt(IndexOf(generics.value, p.propType.name)),
                                       if HasQualifiers(p) then Some(AdapterFieldName(p)) else None, Nullable(p)))
  {
    var qualifierField := if HasQualifiers(p) then Some(AdapterFieldName(p)) else None;
    var t := p.propType;
    if generics.Some? && t.Parameterized? then
      var target :- MakeType(t, generics);
      Success(AdapterInit(AdapterFieldName(p), Some(t), target, qualifierField, Nullable(p)))
    else if generics.Some? && TypeIndexInArray(generics.value, t) >= 0 then
      Success(AdapterInit(AdapterFieldName(p), Some(t), TypesAt(TypeIndexInArray(generics.value, t)), qualifierField, Nullable(p)))
    else
      var target :- MakeType(t, generics);
      Success(AdapterInit(AdapterFieldName(p), if t.Parameterized? then Some(t) else None, target, qualifierField, Nullable(p)))
  }

  /** Property types the generated lookups handle: see JavaTypes.ParamOk. */
  predicate PropertyTypeOk(t: TypeExpr, typeVars: seq<string>) {
    ParamOk(t, typeVars) || (t.TypeVar? && t.name in typeVars) || ClassLiteralOk(t)
  }

  /**
   * Every adapter is requested for the property's type with the class's type variables replaced
   * by the witnesses passed in `types`.
   */
  lemma InitSound(p: Property, generics: Option<seq<string>>, witnesses: seq<TypeExpr>)
    requires PropertyTypeOk(p.propType, TypeVarsOf(generics))
    requires |witnesses| == |TypeVarsOf(generics)|
    ensures InitFor(p, generics).Success?
    ensures Eval(InitFor(p, generics).value.target, witnesses) == Some(Subst(p.propType, Binding(TypeVarsOf(generics), witnesses)))
  {
    var t := p.propType;
    var sigma := Binding(TypeVarsOf(generics), witnesses);
    if t.Parameterized? {
      MakeTypeSound(t, generics, witnesses);
    } else if t.TypeVar? && t.name in TypeVarsOf(generics) {
      BindingAt(TypeVarsOf(generics), witnesses, t.name);
    } else {
      SubstClosed(t, sigma);
    }
  }

  function TypeErrorThrown(e: TypeError): Thrown {
    match e
    case UnrepresentableWildcard(w) =>
      IllegalArgument("Unrepresentable wildcard type. Cannot have more than one bound: " + ShowType(w))
    case NullTypesArray => NullPointer
  }

  /** The constructor statements, one per non-transient property; the first failure aborts. */
  function CreateInits(ps: seq<Property>, generics: Option<seq<string>>): (r: Result<seq<AdapterInit>, Thrown>)
    ensures r.Success? <==> forall p :: p in ps && !p.isTransient ==> InitFor(p, generics).Success?
    ensures r.Success? ==> forall x :: x in r.value ==> exists p :: p in ps && !p.isTransient && InitFor(p, generics) == Success(x)
  {
    if |ps| == 0 then Success([])
    else if ps[0].isTransient then CreateInits(ps[1..], generics)
    else
      match InitFor(ps[0], generics)
      case Failure(e) => Failure(TypeErrorThrown(e))
      case Success(x) =>
        var rest :- CreateInits(ps[1..], generics);
        Success([x] + rest)
  }

  // ----- the NAMES table and the read/write plans -----

  /** NAMES: the wire names of the non-transient properties, in declaration order. */
  function Names(ps: seq<Property>): (r: seq<string>)
    ensures |r| == |Slots(ps)|
    ensures forall i :: 0 <= i < |r| ==> r[i] == SerializedName(ps[Slots(ps)[i]])
  {
    WireNames(Serialized(ps))
  }

  /**
   * The array the NAMES initializer `{"a","b"}` actually denotes: it is assembled by joining the
   * names with `","` inside `{"` and `"}`, so an empty list yields `{""}`.
   */
  function NamesArrayAsWritten(names: seq<string>): (r: seq<string>)
    ensures |names| > 0 ==> r == names
    ensures |names| == 0 ==> r == [""]
  {
    if |names| == 0 then [""] else names
  }

  /** The initializer text of NAMES. */
  function NamesInitializer(names: seq<string>): string {
    "{\"" + Join(names, "\",\"") + "\"}"
  }

  lemma EmptyNamesInitializer()
    ensures NamesInitializer([]) == "{\"\"}"
  {
  }

  // ----- what the NAMES initializer denotes -----

  /**
   * The body of a Java string literal, its opening quote already read: the characters up to the
   * closing quote, and the text after it. `None` for an unterminated literal, or one holding an
   * escape sequence, which this reading does not interpret.
   */
  function LiteralBody(t: string): (r: Option<(string, string)>)
    ensures r.Some? ==> |r.value.1| < |t| && '"' !in r.value.0 && '\\' !in r.value.0
  {
    if |t| == 0 || t[0] == '\\' then None
    else if t[0] == '"' then Some(([], t[1..]))
    else
      match LiteralBody(t[1..])
      case None => None
      case Some(p) => Some(([t[0]] + p.0, p.1))
  }

  /** The string literals of an array initializer, its `{` already read, up to the closing `}`. */
  function LiteralList(t: string): (r: Option<seq<string>>)
    ensures r.Some? ==> |r.value| > 0
    decreases |t|
  {
    if |t| == 0 || t[0] != '"' then None
    else
      match LiteralBody(t[1..])
      case None => None
      case Some(p) =>
        if p.1 == "}" then Some([p.0])
        else if |p.1| > 0 && p.1[0] == ',' then
          match LiteralList(p.1[1..])
          case None => None
          case Some(more) => Some([p.0] + more)
        else None
  }

  /** The strings a Java array initializer `{"…","…"}` holds, when it is one. */
  function DecodeNamesLiteral(t: string): Option<seq<string>> {
    if |t| > 0 && t[0] == '{' then LiteralList(t[1..]) else None
  }

  /** A name without quote or backslash reads back whole, whatever follows its closing quote. */
  lemma {:induction false} LiteralBodyPlain(n: string, tail: string)
    requires '"' !in n && '\\' !in n
    ensures LiteralBody(n + "\"" + tail) == Some((n, tail))
  {
    var t := n + "\"" + tail;
    if |n| == 0 {
      assert t[0] == '"' && t[1..] == tail;
    } else {
      assert t[0] == n[0] && t[1..] == n[1..] + "\"" + tail;
      LiteralBodyPlain(n[1..], tail);
      assert [n[0]] + n[1..] == n;
    }
  }

  predicate PlainName(n: string) {
    '"' !in n && '\\' !in n
  }

  lemma {:induction false} LiteralListJoin(ns: seq<string>)
    requires |ns| > 0 && forall i :: 0 <= i < |ns| ==> PlainName(ns[i])
    ensures LiteralList("\"" + Join(ns, "\",\"") + "\"}") == Some(ns)
  {
    var sep := "\",\"";
    var t := "\"" + Join(ns, sep) + "\"}";
    assert PlainName(ns[0]);
    if |ns| == 1 {
      assert Join(ns, sep) == ns[0];
      assert t[0] == '"' && t[1..] == ns[0] + "\"" + "}";
      LiteralBodyPlain(ns[0], "}");
      assert [ns[0]] == ns;
    } else {
      var rest := ",\"" + Join(ns[1..], sep) + "\"}";
      assert t[1..] == ns[0] + "\"" + rest;
      LiteralBodyPlain(ns[0], rest);
      assert rest[0] == ',' && rest != "}";
      assert rest[1..] == "\"" + Join(ns[1..], sep) + "\"}";
      LiteralListJoin(ns[1..]);
      assert [ns[0]] + ns[1..] == ns;
    }
  }

  /**
   * The NAMES initializer as generated holds exactly `NamesArrayAsWritten(names)`, provided no
   * wire name contains a quote or a backslash: the names are pasted in without escaping.
   */
  lemma NamesInitializerDenotes(names: seq<string>)
    requires forall i :: 0 <= i < |names| ==> PlainName(names[i])
    ensures DecodeNamesLiteral(NamesInitializer(names)) == Some(NamesArrayAsWritten(names))
  {
    var t := NamesInitializer(names);
    assert t[0] == '{' && t[1..] == "\"" + Join(names, "\",\"") + "\"}";
    if |names| == 0 {
      LiteralBodyPlain("", "}");
    } else {
      LiteralListJoin(names);
    }
  }

  /** A wire name holding `","` is pasted in unescaped and becomes two entries of NAMES. */
  lemma QuotedNameSplits()
    ensures DecodeNamesLiteral(NamesInitializer(["a\",\"b"])) == Some(["a", "b"])
  {
    var t := NamesInitializer(["a\",\"b"]);
    assert t == "{\"a\",\"b\"}";
    assert t[1..] == "\"" + Join(["a", "b"], "\",\"") + "\"}";
    LiteralListJoin(["a", "b"]);
  }

  /** defaultValue: the initial value of a `fromJson` local, by declared type. */
  function DefaultLiteral(t: TypeExpr): (r: string)
    ensures r == "null" <==> !t.PrimitiveType?
  {
    match t
    case PrimitiveType(k) =>
      (match k
       case Boolean => "false"
       case Byte => "(byte) 0"
       case Short => "0"
       case Int => "0"
       case Long => "0L"
       case Char => "'\\0'"
       case Float => "0.0f"
       case Double => "0.0d")
    case _ => "null"
  }

  /** The default as a value: null for references, the zero literal for primitives. */
  function DefaultValue(t: TypeExpr): (r: JValue)
    ensures r == JNull <==> !t.PrimitiveType?
  {
    if t.PrimitiveType? then JScalar(DefaultLiteral(t)) else JNull
  }

  function StepFor(ps: seq<Property>, k: nat): WriteStep
    requires k < |ps|
  {
    WriteStep(SerializedName(ps[k]), k, Nullable(ps[k]))
  }

  /** createWriteMethod: one step per non-transient property, nulls skipped for nullable ones. */
  function WriteSteps(ps: seq<Property>): (r: seq<WriteStep>)
    ensures |r| == |Slots(ps)|
    ensures forall i :: 0 <= i < |r| ==> r[i].slot == Slots(ps)[i] && r[i].wireName == Names(ps)[i]
    ensures forall i :: 0 <= i < |r| ==> (r[i].skipNull <==> Nullable(ps[r[i].slot]))
  {
    var slots := Slots(ps);
    seq(|slots|, i requires 0 <= i < |slots| => StepFor(ps, slots[i]))
  }

  /** The switch arm of the property at position k; its label is the index of its wire name. */
  function ArmFor(ps: seq<Property>, names: seq<string>, k: nat, target: Target): Arm
    requires k < |ps|
  {
    Arm(IndexOf(names, SerializedName(ps[k])), target, ps[k].propType.PrimitiveType?, Nullable(ps[k]))
  }

  function PositionalArms(ps: seq<Property>): (r: seq<Arm>)
    ensures |r| == |Slots(ps)|
  {
    var slots := Slots(ps);
    seq(|slots|, i requires 0 <= i < |slots| => ArmFor(ps, Names(ps), slots[i], Local(slots[i])))
  }

  /** The switch arm of the property at position k in builder mode: its setter must resolve. */
  function SetterArm(ps: seq<Property>, setters: map<string, seq<Setter>>, k: nat): Result<Arm, Thrown>
    requires k < |ps|
  {
    var setter :- ResolveSetter(setters, ps[k]);
    Success(ArmFor(ps, Names(ps), k, CallSetter(setter, k)))
  }

  /** Builder-mode arms for the given property positions; the first unresolvable setter aborts. */
  function BuilderArms(ps: seq<Property>, setters: map<string, seq<Setter>>, slots: seq<nat>): (r: Result<seq<Arm>, Thrown>)
    requires forall j :: 0 <= j < |slots| ==> slots[j] < |ps|
    ensures r.Success? <==> forall j :: 0 <= j < |slots| ==> SetterArm(ps, setters, slots[j]).Success?
    ensures r.Success? ==> |r.value| == |slots|
                           && forall j :: 0 <= j < |slots| ==> SetterArm(ps, setters, slots[j]) == Success(r.value[j])
  {
    var rs := seq(|slots|, j requires 0 <= j < |slots| => SetterArm(ps, setters, slots[j]));
    assert forall j :: 0 <= j < |slots| ==> rs[j] == SetterArm(ps, setters, slots[j]);
    CollectArms(rs)
  }

  /** The arms in order, or the first failure: the generating loop stops at the first setter it cannot resolve. */
  function CollectArms(rs: seq<Result<Arm, Thrown>>): (r: Result<seq<Arm>, Thrown>)
    ensures r.Success? <==> forall j :: 0 <= j < |rs| ==> rs[j].Success?
    ensures r.Success? ==> |r.value| == |rs| && forall j :: 0 <= j < |rs| ==> rs[j] == Success(r.value[j])
    ensures r.Failure? ==> exists j :: 0 <= j < |rs| && rs[j] == Failure(r.error) && forall k :: 0 <= k < j ==> rs[k].Success?
  {
    if |rs| == 0 then Success([])
    else
      var tail := rs[1..];
      assert forall j :: 1 <= j < |rs| ==> tail[j - 1] == rs[j];
      match rs[0]
      case Failure(e) => Failure(e)
      case Success(arm) =>
        match CollectArms(tail)
        case Failure(e) =>
          assert exists j :: 0 <= j < |tail| && tail[j] == Failure(e) && forall k :: 0 <= k < j ==> tail[k].Success?;
          var j :| 0 <= j < |tail| && tail[j] == Failure(e) && forall k :: 0 <= k < j ==> tail[k].Success?;
          assert rs[j + 1] == Failure(e);
          Failure(e)
        case Success(rest) => Success([arm] + rest)
  }

  /** The locals' initial values, indexed by property position. */
  function Defaults(ps: seq<Property>): (r: seq<JValue>)
    ensures |r| == |ps|
    ensures forall k :: 0 <= k < |ps| && !ps[k].isTransient ==> r[k] == DefaultValue(ps[k].propType)
  {
    seq(|ps|, k requires 0 <= k < |ps| => if ps[k].isTransient then JNull else DefaultValue(ps[k].propType))
  }

  /** The constructor call's arguments: `null` for transient properties, the local otherwise. */
  function ConstructorArgs(ps: seq<Property>): (r: seq<ArgSource>)
    ensures |r| == |ps|
    ensures forall k :: 0 <= k < |ps| ==> (r[k] == NullLiteral <==> ps[k].isTransient)
    ensures forall k :: 0 <= k < |ps| && !ps[k].isTransient ==> r[k] == LocalArg(k)
  {
    seq(|ps|, k requires 0 <= k < |ps| => if ps[k].isTransient then NullLiteral else LocalArg(k))
  }

  /** The constructor's null checks, one per parameter: the properties AutoValue checks. */
  function ConstructorNonNull(ps: seq<Property>): (r: seq<bool>)
    ensures |r| == |ps|
    ensures forall k :: 0 <= k < |ps| ==> (r[k] <==> NullChecked(ps[k]))
  {
    seq(|ps|, k requires 0 <= k < |ps| => NullChecked(ps[k]))
  }

  /**
   * createReadMethod: positional construction without a builder. With one, the builder must pass
   * validation: otherwise the error is printed and `fromJson` is returned without statements,
   * and generation goes on. Every property must then have a setter (an exception aborts
   * generation). The third component is the errors printed.
   */
  function CreateReadPlan(ps: seq<Property>, builder: Option<BuilderContext>)
    : (r: Result<(ReadPlan, Option<BuilderPlan>, seq<Diagnostic>), GenFailure>)
    ensures builder.None? ==> r == Success((ReadPlan(Names(ps), PositionalArms(ps), Positional(Defaults(ps), ConstructorArgs(ps), ConstructorNonNull(ps))), None, []))
    ensures builder.Some? && PlanBuilder(builder.value).Failure? ==>
              r == Success((ReadPlan(Names(ps), [], EmptyBody), None, [PlanBuilder(builder.value).error]))
    ensures builder.Some? && PlanBuilder(builder.value).Success? ==>
              r == match BuilderArms(ps, builder.value.setters, Slots(ps))
                   case Failure(e) => Failure(Threw(e))
                   case Success(arms) => Success((ReadPlan(Names(ps), arms, ViaBuilder), Some(PlanBuilder(builder.value).value), []))
  {
    match builder
    case None => Success((ReadPlan(Names(ps), PositionalArms(ps), Positional(Defaults(ps), ConstructorArgs(ps), ConstructorNonNull(ps))), None, []))
    case Some(ctx) =>
      match PlanBuilder(ctx)
      case Failure(d) => Success((ReadPlan(Names(ps), [], EmptyBody), None, [d]))
      case Success(bp) =>
        match BuilderArms(ps, ctx.setters, Slots(ps))
        case Failure(e) => Failure(Threw(e))
        case Success(arms) => Success((ReadPlan(Names(ps), arms, ViaBuilder), Some(bp), []))
  }

  /** The generated JsonAdapter class. */
  datatype AdapterSpec = AdapterSpec(
    name: string,
    typeVars: seq<string>,
    fields: seq<AdapterField>,
    inits: seq<AdapterInit>,
    names: seq<string>,
    read: ReadPlan,
    builder: Option<BuilderPlan>,
    write: seq<WriteStep>)

  /**
   * createTypeAdapter: the constructor statements first, then the read method; the second
   * component is the errors printed while building the read method.
   */
  function CreateTypeAdapter(ps: seq<Property>, generics: Option<seq<string>>, builder: Option<BuilderContext>, name: string)
    : (r: Result<(AdapterSpec, seq<Diagnostic>), GenFailure>)
    ensures CreateInits(ps, generics).Failure? ==> r == Failure(Threw(CreateInits(ps, generics).error))
    ensures CreateInits(ps, generics).Success? && CreateReadPlan(ps, builder).Failure? ==> r == Failure(CreateReadPlan(ps, builder).error)
    ensures CreateInits(ps, generics).Success? && CreateReadPlan(ps, builder).Success? ==>
              r.Success? && r.value.0.read == CreateReadPlan(ps, builder).value.0 && r.value.1 == CreateReadPlan(ps, builder).value.2
    ensures r.Success? ==> r.value.0.name == name && r.value.0.typeVars == TypeVarsOf(generics)
                           && r.value.0.fields == CreateFields(ps) && r.value.0.names == Names(ps)
                           && r.value.0.write == WriteSteps(ps)
  {
    match CreateInits(ps, generics)
    case Failure(e) => Failure(Threw(e))
    case Success(inits) =>
      var plan :- CreateReadPlan(ps, builder);
      Success((AdapterSpec(name, TypeVarsOf(generics), CreateFields(ps), inits, Names(ps), plan.0, plan.1, WriteSteps(ps)), plan.2))
  }

  // ----- the AutoValue subclass -----

  datatype Param = Param(name: string, paramType: TypeExpr, annotation: Option<string>)

  /** The subclass constructor: one parameter per property and a `super($N, ...)` call. */
  datatype SubclassConstructor = SubclassConstructor(params: seq<Param>, superFormat: string, superArgs: seq<string>)

  function Placeholders(n: nat): (r: seq<string>)
    ensures |r| == n
    ensures forall i :: 0 <= i < n ==> r[i] == "$N"
  {
    seq(n, _ => "$N")
  }

  lemma {:induction false} JoinPlaceholders(n: nat)
    ensures Count(Join(Placeholders(n), ", "), '$') == n
  {
    if n > 1 {
      var ps := Placeholders(n);
      assert ps[1..] == Placeholders(n - 1);
      JoinPlaceholders(n - 1);
      CountAppend("$N" + ", ", Join(ps[1..], ", "), '$');
      CountAppend("$N", ", ", '$');
    } else if n == 1 {
      assert Join(Placeholders(1), ", ") == "$N";
    }
  }

  /** generateConstructor: parameters follow the property order; nullable ones keep their annotation. */
  function GenerateConstructor(ps: seq<Property>): (r: SubclassConstructor)
    ensures |r.params| == |ps| && r.superArgs == seq(|ps|, i requires 0 <= i < |ps| => ps[i].humanName)
    ensures forall i :: 0 <= i < |ps| ==>
              r.params[i].name == ps[i].humanName && r.params[i].paramType == ps[i].propType
              && r.params[i].annotation == NullableAnnotation(ps[i].annotations)
    ensures Count(r.superFormat, '$') == |ps|
  {
    var params := seq(|ps|, i requires 0 <= i < |ps| => Param(ps[i].humanName, ps[i].propType, NullableAnnotation(ps[i].annotations)));
    var format := "super(" + Join(Placeholders(|ps|), ", ") + ")";
    JoinPlaceholders(|ps|);
    CountAppend("super(", Join(Placeholders(|ps|), ", "), '$');
    CountAppend("super(" + Join(Placeholders(|ps|), ", "), ")", '$');
    SubclassConstructor(params, format, seq(|ps|, i requires 0 <= i < |ps| => ps[i].humanName))
  }

  /** What the extension knows about the class it generates for. */
  datatype ClassContext = ClassContext(
    packageName: string,
    valueClass: ValueClass,
    simpleNames: seq<string>,          // the value class's simple names, outermost first
    typeVars: seq<string>,
    properties: seq<Property>,         // AutoValue's properties, in declaration order
    builder: Option<BuilderContext>)

  datatype Generated =
    | ExternalAdapterFile(adapter: AdapterSpec)
    | Subclass(name: string, superclass: TypeExpr, typeVars: seq<string>, isFinal: bool, isAbstract: bool,
               adapter: AdapterSpec, init: SubclassConstructor)

  datatype ClassOutcome = ClassOutcome(diagnostics: seq<Diagnostic>, output: Result<Generated, GenFailure>)

  function Qualified(packageName: string, simple: string): string {
    if |packageName| == 0 then simple else packageName + "." + simple
  }

  /**
   * generateClass: an external adapter (`@JsonClass(generator = "avm")`) is written as its own
   * file named by Moshi's `generatedJsonAdapterName` convention, which is a parameter here;
   * otherwise a subclass holding a nested `MoshiJsonAdapter` is returned.
   */
  function GenerateClass(ctx: ClassContext, className: string, classToExtend: string, isFinal: bool,
                         generatedJsonAdapterName: string -> string): (r: ClassOutcome)
    ensures ReadProperties(ctx.properties).1 <= r.diagnostics
    ensures ctx.builder.None? ==> r.diagnostics == ReadProperties(ctx.properties).1
    ensures var ps := ReadProperties(ctx.properties).0;
            ctx.builder.Some? && PlanBuilder(ctx.builder.value).Failure? && CreateInits(ps, GenericsOf(ctx.typeVars)).Success? ==>
              r.diagnostics == ReadProperties(ctx.properties).1 + [PlanBuilder(ctx.builder.value).error]
              && r.output.Success? && r.output.value.adapter.read == ReadPlan(Names(ps), [], EmptyBody)
    ensures r.output.Failure? ==> r.output.error.Threw? && r.diagnostics == ReadProperties(ctx.properties).1
    ensures r.output.Success? ==> (r.output.value.ExternalAdapterFile? <==> GenerateExternalAdapter(ctx.valueClass))
    ensures r.output.Success? && r.output.value.ExternalAdapterFile? ==>
              r.output.value.adapter.name == generatedJsonAdapterName(Join(ctx.simpleNames, "$"))
    ensures r.output.Success? && r.output.value.Subclass? ==>
              r.output.value.adapter.name == "MoshiJsonAdapter"
              && r.output.value.isFinal == isFinal && r.output.value.isAbstract == !isFinal
              && r.output.value.init == GenerateConstructor(ReadProperties(ctx.properties).0)
              && (|ctx.typeVars| > 0 <==> r.output.value.superclass.Parameterized?)
  {
    var (ps, diagnostics) := ReadProperties(ctx.properties);
    var generics := GenericsOf(ctx.typeVars);
    var external := GenerateExternalAdapter(ctx.valueClass);
    var adapterName := if external then generatedJsonAdapterName(Join(ctx.simpleNames, "$")) else "MoshiJsonAdapter";
    var adapter := CreateTypeAdapter(ps, generics, ctx.builder, adapterName);
    var reported := if adapter.Failure? then [] else adapter.value.1;
    var output :=
      if adapter.Failure? then Failure(adapter.error)
      else if external then Success(ExternalAdapterFile(adapter.value.0))
      else
        var superclass :=
          if |ctx.typeVars| > 0
          then Parameterized(Qualified(ctx.packageName, classToExtend), seq(|ctx.typeVars|, i requires 0 <= i < |ctx.typeVars| => TypeVar(ctx.typeVars[i])))
          else TypeVar(classToExtend);
        Success(Subclass(className, superclass, ctx.typeVars, isFinal, !isFinal, adapter.value.0, GenerateConstructor(ps)));
    ClassOutcome(diagnostics + reported, output)
  }

  /**
   * A builder without a `build` method does not stop generation: the error is printed after the
   * properties' errors, and the class is still written with an empty `fromJson`.
   */
  lemma MissingBuildMethodStillGenerated(ctx: ClassContext, className: string, classToExtend: string, isFinal: bool,
                                         generatedJsonAdapterName: string -> string)
    requires ctx.builder.Some? && ctx.builder.value.buildMethod.None?
    requires CreateInits(ReadProperties(ctx.properties).0, GenericsOf(ctx.typeVars)).Success?
    ensures var r := GenerateClass(ctx, className, classToExtend, isFinal, generatedJsonAdapterName);
            r.output.Success? && r.output.value.adapter.read.mode == EmptyBody
            && (r.output.value.Subclass? <==> !GenerateExternalAdapter(ctx.valueClass))
            && |r.diagnostics| == |ReadProperties(ctx.properties).1| + 1
            && r.diagnostics[|r.diagnostics| - 1] == Error(NoBuildMethodMessage, PlanBuilder(ctx.builder.value).error.subject)
  {
    var d := PlanBuilder(ctx.builder.value).error;
    assert d.Error? && d.message == NoBuildMethodMessage;
  }

  /** The type variables of a generic value class, absent for a plain one. */
  function GenericsOf(typeVars: seq<string>): (r: Option<seq<string>>)
    ensures r.None? <==> |typeVars| == 0
    ensures r.Some? ==> r.value == typeVars
  {
    if |typeVars| > 0 then Some(typeVars) else None
  }
}
