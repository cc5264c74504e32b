/**
 * The first-generation AutoValue extension (the root `src/` tree). It handles every AutoValue
 * class, names each property on the wire by its @Json name or its property name, writes every
 * property in declaration order, and reads with a chain of string comparisons in which the first
 * matching property wins. Each generated class registers a per-class factory with the runtime
 * registry from a static initialiser.
 */
module LegacyExtension {
  import opened Wrappers
  import opened Seqs
  import opened JsonTokens
  import JavaTypes
  import Properties
  import Registry
  import AdapterRuntime

  type Property = Properties.Property

  /** applicable: this extension takes every AutoValue class, whatever its properties. */
  function Applicable(ps: seq<Property>): (r: bool)
    ensures r
  {
    true
  }

  // ---- Generated names ----------------------------------------------------------------------

  function AdapterClassName(simpleName: string): (r: string)
    ensures StartsWith(r, "AutoValue_") && EndsWith(r, "JsonAdapter")
  {
    "AutoValue_" + simpleName + "JsonAdapter"
  }

  function FactoryClassName(simpleName: string): (r: string)
    ensures StartsWith(r, "AutoValue_") && EndsWith(r, "JsonAdapterFactory")
  {
    "AutoValue_" + simpleName + "JsonAdapterFactory"
  }

  /**
   * The two nested classes never clash, neither within one value class nor across two, and
   * different value classes get different names.
   */
  lemma GeneratedNamesDistinct(a: string, b: string)
    ensures AdapterClassName(a) != FactoryClassName(b)
    ensures AdapterClassName(a) == AdapterClassName(b) ==> a == b
    ensures FactoryClassName(a) == FactoryClassName(b) ==> a == b
  {
    var x, y := AdapterClassName(a), FactoryClassName(b);
    assert x[|x| - 1] == 'r' && y[|y| - 1] == 'y';
    if AdapterClassName(a) == AdapterClassName(b) {
      assert a == AdapterClassName(a)[10..10 + |a|];
    }
    if FactoryClassName(a) == FactoryClassName(b) {
      assert a == FactoryClassName(a)[10..10 + |a|];
    }
  }

  // ---- What the generator emits ---------------------------------------------------------------

  /** `writer.name(wireName); moshi.adapter(adapterType.class).toJson(writer, value.accessor())`. */
  datatype WriteCall = WriteCall(wireName: string, accessor: string, adapterType: JavaTypes.TypeExpr)

  /** `T name = null;` at the top of fromJson. */
  datatype LocalDecl = LocalDecl(name: string, declType: JavaTypes.TypeExpr)

  /** `if ("wireName".equals(_name)) { local = moshi.adapter(adapterType.class).fromJson(reader); }`. */
  datatype ReadBranch = ReadBranch(wireName: string, local: string, adapterType: JavaTypes.TypeExpr)

  function PropertyNames(ps: seq<Property>): (r: seq<string>)
    ensures |r| == |ps| && forall i :: 0 <= i < |ps| ==> r[i] == ps[i].humanName
  {
    seq(|ps|, i requires 0 <= i < |ps| => ps[i].humanName)
  }

  function WireNames(ps: seq<Property>): (r: seq<string>)
    ensures |r| == |ps| && forall i :: 0 <= i < |ps| ==> r[i] == Properties.SerializedName(ps[i])
  {
    seq(|ps|, i requires 0 <= i < |ps| => Properties.SerializedName(ps[i]))
  }

  /**
   * The write calls, as written: the accessor invoked is the property name, the key of
   * AutoValue's property map, not the accessor method's own name.
   */
  function WriteCallsAsWritten(ps: seq<Property>): (r: seq<WriteCall>)
    ensures |r| == |ps|
    ensures forall i :: 0 <= i < |ps| ==> r[i].accessor == ps[i].humanName
  {
    seq(|ps|, i requires 0 <= i < |ps| =>
      WriteCall(Properties.SerializedName(ps[i]), ps[i].humanName, JavaTypes.Boxed(ps[i].propType)))
  }

  /**
   * The write calls as intended: one per property in declaration order, none skipped for a null
   * value, each calling the property's accessor method through the adapter of its boxed type.
   */
  function WriteCalls(ps: seq<Property>): (r: seq<WriteCall>)
    ensures |r| == |ps|
    ensures forall i :: 0 <= i < |ps| ==>
      r[i].wireName == Properties.SerializedName(ps[i]) && r[i].accessor == ps[i].methodName
      && !r[i].adapterType.PrimitiveType?
  {
    seq(|ps|, i requires 0 <= i < |ps| =>
      WriteCall(Properties.SerializedName(ps[i]), ps[i].methodName, JavaTypes.Boxed(ps[i].propType)))
  }

  /** `name` is the name of one of the value class's accessor methods. */
  predicate IsAccessor(name: string, ps: seq<Property>) {
    exists j :: 0 <= j < |ps| && ps[j].methodName == name
  }

  /** Every call names a method the value class declares. */
  predicate CallsAccessors(calls: seq<WriteCall>, ps: seq<Property>) {
    forall i :: 0 <= i < |calls| ==> IsAccessor(calls[i].accessor, ps)
  }

  lemma WriteCallsCallAccessors(ps: seq<Property>)
    ensures CallsAccessors(WriteCalls(ps), ps)
  {
    var calls := WriteCalls(ps);
    forall i | 0 <= i < |calls|
      ensures IsAccessor(calls[i].accessor, ps)
    {
      assert ps[i].methodName == calls[i].accessor;
    }
  }

  /** A getter-style value class: the property `name` is read by `getName()`. */
  function GetterStyleClass(): seq<Property> {
    [Properties.Property("name", "getName", None, JavaTypes.ClassType("java.lang.String"), [], [], false)]
  }

  /** As written, the generated toJson calls `value.name()`, which the class does not declare. */
  lemma GetterStyleAsWritten()
    ensures WriteCallsAsWritten(GetterStyleClass())[0].accessor == "name"
    ensures !CallsAccessors(WriteCallsAsWritten(GetterStyleClass()), GetterStyleClass())
  {
    var ps := GetterStyleClass();
    assert ps[0].methodName == "getName" != "name";
    assert !IsAccessor(WriteCallsAsWritten(ps)[0].accessor, ps);
  }

  /** As intended, it calls `value.getName()`. */
  lemma GetterStyleCorrected()
    ensures WriteCalls(GetterStyleClass())[0].accessor == "getName"
    ensures CallsAccessors(WriteCalls(GetterStyleClass()), GetterStyleClass())
  {
    WriteCallsCallAccessors(GetterStyleClass());
  }

  /** One local per property, in order, each of a reference type so that it can start out null. */
  function Locals(ps: seq<Property>): (r: seq<LocalDecl>)
    ensures |r| == |ps|
    ensures forall i :: 0 <= i < |ps| ==> r[i].name == ps[i].humanName && !r[i].declType.PrimitiveType?
    ensures forall i :: 0 <= i < |ps| && !ps[i].propType.PrimitiveType? ==> r[i].declType == ps[i].propType
  {
    seq(|ps|, i requires 0 <= i < |ps| => LocalDecl(ps[i].humanName, JavaTypes.Boxed(ps[i].propType)))
  }

  /** The if/else-if chain: one branch per property, in order, comparing its wire name. */
  function Branches(ps: seq<Property>): (r: seq<ReadBranch>)
    ensures |r| == |ps|
    ensures forall i :: 0 <= i < |ps| ==>
      r[i].wireName == Properties.SerializedName(ps[i]) && r[i].local == Locals(ps)[i].name
      && r[i].adapterType == Locals(ps)[i].declType
  {
    seq(|ps|, i requires 0 <= i < |ps| =>
      ReadBranch(Properties.SerializedName(ps[i]), ps[i].humanName, JavaTypes.Boxed(ps[i].propType)))
  }

  // ---- Format strings and their rendering -----------------------------------------------------

  /** Why JavaPoet refused a format. */
  datatype FormatError = MissingArgument | UnusedArguments | UnsupportedPlaceholder

  /**
   * JavaPoet's rendering of a statement whose only placeholders are `$N`: each takes the next
   * argument; too few or too many arguments are an error.
   */
  function Render(format: string, args: seq<string>): (r: Result<string, FormatError>)
    decreases |format|
  {
    if |format| == 0 then
      if |args| == 0 then Success("") else Failure(UnusedArguments)
    else if format[0] == '$' then
      if |format| >= 2 && format[1] == 'N' then
        if |args| == 0 then Failure(MissingArgument)
        else
          var rest := Render(format[2..], args[1..]);
          if rest.Failure? then rest else Success(args[0] + rest.value)
      else Failure(UnsupportedPlaceholder)
    else
      var rest := Render(format[1..], args);
      if rest.Failure? then rest else Success([format[0]] + rest.value)
  }

  /** `k` copies of "$N, ". */
  function Separated(k: nat): (r: string)
    ensures |r| == 4 * k
  {
    if k == 0 then "" else "$N, " + Separated(k - 1)
  }

  /** `n` placeholders joined by ", ". */
  function ArgsFormat(n: nat): string {
    if n == 0 then "" else Separated(n - 1) + "$N"
  }

  lemma {:induction false} SeparatedSnoc(k: nat)
    ensures Separated(k) + "$N, " == Separated(k + 1)
  {
    if k > 0 {
      SeparatedSnoc(k - 1);
      assert Separated(k) + "$N, " == "$N, " + (Separated(k - 1) + "$N, ");
    }
  }

  /** Literal text without '$' is copied through. */
  lemma {:induction false} RenderLiteral(lit: string, format: string, args: seq<string>)
    requires '$' !in lit
    requires Render(format, args).Success?
    ensures Render(lit + format, args) == Success(lit + Render(format, args).value)
  {
    var v := Render(format, args).value;
    if |lit| > 0 {
      assert (lit + format)[0] == lit[0];
      assert (lit + format)[1..] == lit[1..] + format;
      RenderLiteral(lit[1..], format, args);
      assert [lit[0]] + (lit[1..] + v) == lit + v;
    } else {
      assert lit + format == format;
      assert lit + v == v;
    }
  }

  /** Rendering a format without placeholders against no arguments copies it. */
  lemma RenderText(text: string)
    requires '$' !in text
    ensures Render(text, []) == Success(text)
  {
    assert Render("", []) == Success("");
    RenderLiteral(text, "", []);
    assert text + "" == text;
  }

  /** A leading `$N` takes the first argument. */
  lemma RenderPlaceholder(rest: string, args: seq<string>)
    requires |args| > 0 && Render(rest, args[1..]).Success?
    ensures Render("$N" + rest, args) == Success(args[0] + Render(rest, args[1..]).value)
  {
    var f := "$N" + rest;
    assert f[0] == '$' && f[1] == 'N' && f[2..] == rest;
  }

  lemma JoinCons(names: seq<string>)
    requires |names| >= 2
    ensures Join(names, ", ") == names[0] + ", " + Join(names[1..], ", ")
  {
  }

  /** One name and its placeholder. */
  lemma RenderLastArg(names: seq<string>, tail: string)
    requires |names| == 1 && '$' !in tail
    ensures Render(ArgsFormat(1) + tail, names) == Success(Join(names, ", ") + tail)
  {
    assert ArgsFormat(1) + tail == "$N" + tail;
    RenderText(tail);
    assert names[1..] == [];
    RenderPlaceholder(tail, names);
  }

  /** A format of two or more placeholders is one placeholder, a comma and the rest. */
  lemma ArgsFormatCons(n: nat, tail: string)
    requires n >= 2
    ensures ArgsFormat(n) + tail == "$N" + (", " + (ArgsFormat(n - 1) + tail))
  {
    assert Separated(n - 1) == "$N, " + Separated(n - 2);
    assert ArgsFormat(n) == "$N, " + ArgsFormat(n - 1);
  }

  /** Two steps of rendering: the placeholder, then the comma. */
  lemma RenderPlaceholderComma(g: string, names: seq<string>)
    requires |names| >= 2 && Render(g, names[1..]).Success?
    ensures Render("$N" + (", " + g), names) == Success(names[0] + (", " + Render(g, names[1..]).value))
  {
    RenderLiteral(", ", g, names[1..]);
    RenderPlaceholder(", " + g, names);
  }

  /** The placeholders of ArgsFormat take the names in order, separated by ", ". */
  lemma {:induction false} RenderArgs(names: seq<string>, tail: string)
    requires |names| >= 1
    requires '$' !in tail
    ensures Render(ArgsFormat(|names|) + tail, names) == Success(Join(names, ", ") + tail)
  {
    if |names| == 1 {
      RenderLastArg(names, tail);
    } else {
      var g := ArgsFormat(|names| - 1) + tail;
      RenderArgs(names[1..], tail);
      RenderPlaceholderComma(g, names);
      ArgsFormatCons(|names|, tail);
      JoinCons(names);
      Regroup(names[0], ", ", Join(names[1..], ", "), tail);
    }
  }

  lemma Regroup(a: string, b: string, c: string, d: string)
    ensures a + (b + (c + d)) == a + b + c + d
  {
  }

  /** A whole `prefix(args)` statement renders with the names joined by ", ". */
  lemma CallRenders(prefix: string, names: seq<string>)
    requires '$' !in prefix
    ensures Render(prefix + ArgsFormat(|names|) + ")", names) == Success(prefix + Join(names, ", ") + ")")
  {
    if |names| == 0 {
      assert prefix + ArgsFormat(0) + ")" == prefix + ")";
      RenderText(prefix + ")");
    } else {
      RenderArgs(names, ")");
      RenderLiteral(prefix, ArgsFormat(|names|) + ")", names);
      assert prefix + ArgsFormat(|names|) + ")" == prefix + (ArgsFormat(|names|) + ")");
      assert prefix + (Join(names, ", ") + ")") == prefix + Join(names, ", ") + ")";
    }
  }

  /** generateConstructor's loop: counts down from the number of properties, a comma after all but the last. */
  method SuperFormat(n: nat) returns (format: string)
    ensures format == "super(" + ArgsFormat(n) + ")"
  {
    format := "super(";
    assert format == "super(" + Separated(0) && format == "super(" + ArgsFormat(0);
    var i := n;
    while i > 0
      invariant 0 <= i <= n
      invariant i > 0 ==> format == "super(" + Separated(n - i)
      invariant i == 0 ==> format == "super(" + ArgsFormat(n)
    {
      format := format + "$N";
      if i > 1 {
        format := format + ", ";
        SeparatedSnoc(n - i);
        assert format == "super(" + (Separated(n - i) + "$N, ");
      }
      i := i - 1;
    }
    format := format + ")";
  }

  /** The class name the read method instantiates: every '$' removed (replaceAll("\\$", "")). */
  function StripDollar(s: string): (r: string)
    ensures '$' !in r
    ensures |r| <= |s|
    ensures '$' !in s ==> r == s
  {
    if |s| == 0 then ""
    else if s[0] == '$' then StripDollar(s[1..])
    else [s[0]] + StripDollar(s[1..])
  }

  /** createReadMethod's closing statement: iterate the fields, a comma while another follows. */
  method ReturnFormat(className: string, n: nat) returns (format: string)
    ensures format == "return new " + StripDollar(className) + "(" + ArgsFormat(n) + ")"
  {
    var head := "return new " + StripDollar(className) + "(";
    format := head;
    assert format == head + Separated(0) && format == head + ArgsFormat(0);
    var k := 0;
    while k < n
      invariant 0 <= k <= n
      invariant k < n ==> format == head + Separated(k)
      invariant k == n ==> format == head + ArgsFormat(n)
    {
      format := format + "$N";
      if k + 1 < n {
        format := format + ", ";
        SeparatedSnoc(k);
        assert format == head + (Separated(k) + "$N, ");
      }
      k := k + 1;
    }
    format := format + ")";
  }

  /** The constructor's `super(...)` passes the parameters in property order. */
  function SuperStatement(ps: seq<Property>): (r: Result<string, FormatError>)
    ensures r == Success("super(" + Join(PropertyNames(ps), ", ") + ")")
  {
    CallRenders("super(", PropertyNames(ps));
    Render("super(" + ArgsFormat(|ps|) + ")", PropertyNames(ps))
  }

  /** fromJson ends by constructing the generated class from the locals, in property order. */
  function ReturnStatement(className: string, ps: seq<Property>): (r: Result<string, FormatError>)
    ensures r == Success("return new " + StripDollar(className) + "(" + Join(PropertyNames(ps), ", ") + ")")
  {
    var prefix := "return new " + StripDollar(className) + "(";
    assert '$' !in prefix;
    CallRenders(prefix, PropertyNames(ps));
    Render(prefix + ArgsFormat(|ps|) + ")", PropertyNames(ps))
  }

  // ---- The generated adapter at run time -------------------------------------------------------

  /**
   * What the generated adapter does at run time: wire names in branch order, which constructor
   * parameters are primitive (a null local there cannot be unboxed), and which ones AutoValue's
   * constructor checks for null (reference properties without a nullable annotation).
   */
  datatype LegacyPlan = LegacyPlan(wireNames: seq<string>, primitive: seq<bool>, nonNull: seq<bool>)

  predicate WellFormed(plan: LegacyPlan) {
    |plan.wireNames| == |plan.primitive| == |plan.nonNull|
  }

  function PlanOf(ps: seq<Property>): (r: LegacyPlan)
    ensures WellFormed(r)
    ensures r.wireNames == WireNames(ps)
    ensures |r.primitive| == |ps|
    ensures forall i :: 0 <= i < |ps| ==> r.primitive[i] == ps[i].propType.PrimitiveType?
    ensures forall i :: 0 <= i < |ps| ==> r.nonNull[i] == Properties.NullChecked(ps[i])
  {
    LegacyPlan(WireNames(ps), seq(|ps|, i requires 0 <= i < |ps| => ps[i].propType.PrimitiveType?),
               seq(|ps|, i requires 0 <= i < |ps| => Properties.NullChecked(ps[i])))
  }

  predicate Fits(plan: LegacyPlan, inst: seq<JValue>) {
    WellFormed(plan) && |plan.wireNames| == |inst|
  }

  /** The members toJson writes: every property, null or not, under its wire name. */
  function WrittenMembers(names: seq<string>, inst: seq<JValue>): (r: seq<Member>)
    requires |names| == |inst|
    ensures |r| == |names|
    ensures forall i :: 0 <= i < |names| ==> r[i] == Member(names[i], inst[i])
  {
    seq(|names|, i requires 0 <= i < |names| => Member(names[i], inst[i]))
  }

  /** toJson: beginObject, a name and a value per property, endObject. */
  function ToJson(plan: LegacyPlan, inst: seq<JValue>): (r: seq<Token>)
    requires Fits(plan, inst)
    ensures r == Serialize(JObj(WrittenMembers(plan.wireNames, inst)))
  {
    [BeginObject] + WriteBody(plan.wireNames, inst) + [EndObject]
  }

  function WriteBody(names: seq<string>, inst: seq<JValue>): (r: seq<Token>)
    requires |names| == |inst|
    ensures r == SerializeMembers(WrittenMembers(names, inst))
  {
    if |names| == 0 then []
    else
      var ms := WrittenMembers(names, inst);
      assert ms[1..] == WrittenMembers(names[1..], inst[1..]);
      [Name(names[0])] + Serialize(inst[0]) + WriteBody(names[1..], inst[1..])
  }

  /**
   * The `while (reader.hasNext())` loop. A name selects the first branch whose wire name equals
   * it and that branch's local takes the value. A name no branch accepts leaves its value unread,
   * so the next `nextName()` meets a value and throws.
   */
  function ReadLoop(names: seq<string>, ts: seq<Token>, locals: seq<JValue>): (r: Result<(seq<JValue>, seq<Token>), ReadError>)
    requires |locals| == |names|
    ensures r.Success? ==> |r.value.0| == |names|
    decreases |ts|
  {
    if |ts| == 0 then Failure(UnexpectedEnd)
    else match ts[0]
      case EndObject => Success((locals, ts[1..]))
      case Name(n) =>
        var k := IndexOf(names, n);
        if k < 0 then
          if |ts| == 1 then Failure(UnexpectedEnd) else Failure(UnexpectedToken(ts[1]))
        else
          var v := ParseValue(ts[1..]);
          if v.Failure? then Failure(v.error)
          else ReadLoop(names, v.value.1, locals[k := v.value.0])
      case _ => Failure(UnexpectedToken(ts[0]))
  }

  /** The first primitive parameter whose local is still null, if any. */
  function FirstNullPrimitive(primitive: seq<bool>, locals: seq<JValue>, from: nat): (r: int)
    requires |primitive| == |locals| && from <= |locals|
    ensures r == -1 || from <= r < |locals|
    ensures r == -1 <==> forall i :: from <= i < |locals| ==> !(primitive[i] && locals[i] == JNull)
    ensures r >= 0 ==> primitive[r] && locals[r] == JNull
    ensures r >= 0 ==> forall i :: from <= i < r ==> !(primitive[i] && locals[i] == JNull)
    decreases |locals| - from
  {
    if from == |locals| then -1
    else if primitive[from] && locals[from] == JNull then from
    else FirstNullPrimitive(primitive, locals, from + 1)
  }

  /**
   * fromJson: beginObject, every local null, the loop, endObject, then the constructor call.
   * Unboxing the arguments fails on the first primitive parameter left null; otherwise AutoValue's
   * constructor fails on the first checked parameter that is null.
   */
  function FromJson(plan: LegacyPlan, ts: seq<Token>): (r: Result<(seq<JValue>, seq<Token>), ReadError>)
    requires WellFormed(plan)
    ensures r.Success? ==> |r.value.0| == |plan.wireNames|
    ensures r.Success? ==> forall i :: 0 <= i < |plan.primitive| && plan.primitive[i] ==> r.value.0[i] != JNull
    ensures r.Success? ==> forall i :: 0 <= i < |plan.nonNull| && plan.nonNull[i] ==> r.value.0[i] != JNull
  {
    if |ts| == 0 then Failure(UnexpectedEnd)
    else if ts[0] != BeginObject then Failure(UnexpectedToken(ts[0]))
    else
      var loop := ReadLoop(plan.wireNames, ts[1..], seq(|plan.wireNames|, _ => JNull));
      if loop.Failure? then Failure(loop.error)
      else
        var k := FirstNullPrimitive(plan.primitive, loop.value.0, 0);
        if k >= 0 then Failure(NullForPrimitive(k))
        else
          var m := AdapterRuntime.FirstRejected(loop.value.0, plan.nonNull, 0);
          if m >= 0 then Failure(NullForRequired(m))
          else
            assert forall i :: 0 <= i < |plan.nonNull| && plan.nonNull[i] ==> !AdapterRuntime.RejectedArg(loop.value.0, plan.nonNull, i);
            loop
  }

  /** A member whose name some branch accepts stores its value in that branch's local. */
  lemma ReadLoopKnown(names: seq<string>, w: string, v: JValue, tail: seq<Token>, locals: seq<JValue>)
    requires |locals| == |names| && w in names
    ensures ReadLoop(names, [Name(w)] + Serialize(v) + tail, locals)
         == ReadLoop(names, tail, locals[IndexOf(names, w) := v])
  {
    var ts := [Name(w)] + Serialize(v) + tail;
    assert ts[0] == Name(w);
    assert ts[1..] == Serialize(v) + tail;
    ParseSerialize(v, tail);
    var k := IndexOf(names, w);
    assert k >= 0;
    var pv := ParseValue(ts[1..]);
    assert pv == Success((v, tail));
    assert ReadLoop(names, ts, locals) == ReadLoop(names, pv.value.1, locals[k := pv.value.0]);
  }

  /** endObject ends the loop with the locals as they stand. */
  lemma ReadLoopEnd(names: seq<string>, rest: seq<Token>, locals: seq<JValue>)
    requires |locals| == |names|
    ensures ReadLoop(names, [EndObject] + rest, locals) == Success((locals, rest))
  {
    assert ([EndObject] + rest)[1..] == rest;
  }

  /** Reading the members written for slots k.. fills exactly those slots. */
  lemma {:induction false} ReadLoopWritten(names: seq<string>, inst: seq<JValue>, k: nat, locals: seq<JValue>, rest: seq<Token>)
    requires Distinct(names) && |names| == |inst| == |locals| && k <= |names|
    requires forall j :: 0 <= j < k ==> locals[j] == inst[j]
    ensures ReadLoop(names, WriteBody(names[k..], inst[k..]) + [EndObject] + rest, locals) == Success((inst, rest))
    decreases |names| - k
  {
    if k == |names| {
      assert names[k..] == [] && inst[k..] == [];
      assert WriteBody(names[k..], inst[k..]) + [EndObject] + rest == [EndObject] + rest;
      ReadLoopEnd(names, rest, locals);
      assert locals == inst;
    } else {
      var tail := WriteBody(names[k + 1..], inst[k + 1..]) + [EndObject] + rest;
      assert names[k..][1..] == names[k + 1..] && inst[k..][1..] == inst[k + 1..];
      assert WriteBody(names[k..], inst[k..]) + [EndObject] + rest == [Name(names[k])] + Serialize(inst[k]) + tail;
      IndexOfDistinct(names, k);
      ReadLoopKnown(names, names[k], inst[k], tail, locals);
      ReadLoopWritten(names, inst, k + 1, locals[k := inst[k]], rest);
    }
  }

  /**
   * Round trip: when every wire name is distinct and no primitive or checked property is null,
   * `fromJson` of what `toJson` wrote builds the same value and leaves what follows untouched.
   */
  lemma RoundTrip(plan: LegacyPlan, inst: seq<JValue>, rest: seq<Token>)
    requires Fits(plan, inst) && Distinct(plan.wireNames)
    requires forall i :: 0 <= i < |inst| && (plan.primitive[i] || plan.nonNull[i]) ==> inst[i] != JNull
    ensures FromJson(plan, ToJson(plan, inst) + rest) == Success((inst, rest))
  {
    var names := plan.wireNames;
    var nulls := seq(|names|, _ => JNull);
    var ts := ToJson(plan, inst) + rest;
    assert ts == [BeginObject] + (WriteBody(names, inst) + [EndObject] + rest);
    assert ts[1..] == WriteBody(names[0..], inst[0..]) + [EndObject] + rest;
    ReadLoopWritten(names, inst, 0, nulls, rest);
    assert AdapterRuntime.FirstRejected(inst, plan.nonNull, 0) == -1;
  }

  /** A member no branch accepts is not skipped: the loop's next nextName() meets its value and fails. */
  lemma UnknownNameFails(names: seq<string>, w: string, v: JValue, tail: seq<Token>, locals: seq<JValue>)
    requires |locals| == |names| && w !in names
    ensures ReadLoop(names, [Name(w)] + Serialize(v) + tail, locals) == Failure(UnexpectedToken(Serialize(v)[0]))
  {
    SerializeHead(v);
    var ts := [Name(w)] + Serialize(v) + tail;
    assert ts[1] == Serialize(v)[0];
  }

  /** A primitive property missing from the JSON leaves its local null and the constructor call fails. */
  lemma MissingPrimitiveFails(plan: LegacyPlan, rest: seq<Token>)
    requires WellFormed(plan) && |plan.primitive| > 0 && plan.primitive[0]
    ensures FromJson(plan, [BeginObject, EndObject] + rest) == Failure(NullForPrimitive(0))
  {
    var ts := [BeginObject, EndObject] + rest;
    assert ts[1..] == [EndObject] + rest;
  }

  /**
   * Reading `{}` into a class without primitive properties: it succeeds exactly when AutoValue's
   * constructor checks no parameter, and otherwise fails at the first checked one.
   */
  lemma MissingRequiredFails(plan: LegacyPlan, rest: seq<Token>)
    requires WellFormed(plan)
    requires forall i :: 0 <= i < |plan.primitive| ==> !plan.primitive[i]
    ensures FromJson(plan, [BeginObject, EndObject] + rest).Success?
            <==> forall i :: 0 <= i < |plan.nonNull| ==> !plan.nonNull[i]
    ensures FromJson(plan, [BeginObject, EndObject] + rest).Failure? ==>
              exists i :: 0 <= i < |plan.nonNull| && plan.nonNull[i]
                          && FromJson(plan, [BeginObject, EndObject] + rest).error == NullForRequired(i)
                          && forall j :: 0 <= j < i ==> !plan.nonNull[j]
  {
    var ts := [BeginObject, EndObject] + rest;
    assert ts[1..] == [EndObject] + rest;
    var nulls := seq(|plan.wireNames|, _ => JNull);
    ReadLoopEnd(plan.wireNames, rest, nulls);
    assert forall i :: 0 <= i < |nulls| ==> (AdapterRuntime.RejectedArg(nulls, plan.nonNull, i) <==> plan.nonNull[i]);
  }

  // ---- The per-class factory -----------------------------------------------------------------

  /** Run-time objects, as far as `instanceof` can tell them apart. */
  datatype RuntimeObject =
    | TypeObject(t: JavaTypes.TypeExpr)                  // a java.lang.reflect.Type, as Moshi passes one
    | Instance(runtimeClass: string, supertypes: set<string>)

  /** The JDK classes and interfaces a reflective Type object is an instance of. */
  const ReflectionClasses: set<string> := {
    "java.lang.Object", "java.lang.Class", "java.io.Serializable", "java.lang.reflect.Type",
    "java.lang.reflect.GenericDeclaration", "java.lang.reflect.AnnotatedElement",
    "java.lang.reflect.ParameterizedType", "java.lang.reflect.GenericArrayType",
    "java.lang.reflect.WildcardType", "java.lang.reflect.TypeVariable"}

  predicate InstanceOf(o: RuntimeObject, cls: string) {
    match o
    case TypeObject(_) => cls in ReflectionClasses
    case Instance(c, sup) => cls == c || cls in sup
  }

  /** The factory generated for one value class, and the adapter it hands out. */
  datatype LegacyFactory = LegacyFactory(valueClass: string)
  datatype AdapterRef = AdapterFor(valueClass: string)

  /** The generated create, as written: `if (!(type instanceof Value)) return null;`. */
  function CreateAsWritten(f: LegacyFactory, o: RuntimeObject): Option<AdapterRef> {
    if !InstanceOf(o, f.valueClass) then None else Some(AdapterFor(f.valueClass))
  }

  /** The type Moshi asks about is a Type object, never an instance of a value class: as written, create always answers null. */
  lemma CreateNeverServesAsWritten(f: LegacyFactory, t: JavaTypes.TypeExpr)
    requires f.valueClass !in ReflectionClasses
    ensures CreateAsWritten(f, TypeObject(t)) == None
  {
  }

  /** The intended create: serve the value class's own adapter when the type is exactly that class. */
  function Create(f: LegacyFactory, t: JavaTypes.TypeExpr): (r: Option<AdapterRef>)
    ensures r.Some? <==> t == JavaTypes.ClassType(f.valueClass)
    ensures r.Some? ==> r.value == AdapterFor(f.valueClass)
  {
    if t == JavaTypes.ClassType(f.valueClass) then Some(AdapterFor(f.valueClass)) else None
  }

  function ProduceAsWritten(t: JavaTypes.TypeExpr): LegacyFactory -> Option<AdapterRef> {
    f => CreateAsWritten(f, TypeObject(t))
  }

  function Produce(t: JavaTypes.TypeExpr): LegacyFactory -> Option<AdapterRef> {
    f => Create(f, t)
  }

  /** With the factories as written, the registry answers null for every type. */
  lemma RegistryServesNothingAsWritten(registered: set<LegacyFactory>, order: seq<LegacyFactory>, t: JavaTypes.TypeExpr)
    requires Registry.Enumerates(order, registered)
    requires forall f :: f in registered ==> f.valueClass !in ReflectionClasses
    ensures Registry.FirstProduced(order, ProduceAsWritten(t)) == None
  {
    forall i | 0 <= i < |order| ensures ProduceAsWritten(t)(order[i]).None? {
      CreateNeverServesAsWritten(order[i], t);
    }
  }

  /**
   * With the intended create, once a value class's static initialiser has registered its factory,
   * the registry serves that class's adapter, whatever else is registered and in whatever order.
   */
  lemma RegisteredClassServed(registered: set<LegacyFactory>, c: string, order: seq<LegacyFactory>)
    requires Registry.Enumerates(order, Registry.Register(registered, LegacyFactory(c)))
    ensures Registry.FirstProduced(order, Produce(JavaTypes.ClassType(c))) == Some(AdapterFor(c))
  {
    var f := LegacyFactory(c);
    assert f in order;
    Registry.SoleProducerWins(order, Produce(JavaTypes.ClassType(c)), f);
  }

  /** The test's value class `test.Test` is never served as written, and is served as intended. */
  lemma TestClassFactory()
    ensures CreateAsWritten(LegacyFactory("test.Test"), TypeObject(JavaTypes.ClassType("test.Test"))) == None
    ensures Create(LegacyFactory("test.Test"), JavaTypes.ClassType("test.Test")) == Some(AdapterFor("test.Test"))
  {
    CreateNeverServesAsWritten(LegacyFactory("test.Test"), JavaTypes.ClassType("test.Test"));
  }
}
