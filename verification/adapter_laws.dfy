/**
 * Laws of the adapter the current extension generates: the switch labels are the NAMES indices,
 * reading what `toJson` wrote gives back the same value (positionally or through the builder),
 * and unknown members are skipped.
 */
module AdapterLaws {
  import opened Wrappers
  import opened Seqs
  import opened JavaTypes
  import opened JsonTokens
  import opened Properties
  import opened Builders
  import opened AdapterRuntime
  import opened AdapterGenerator

  /**
   * A value of the class: one value per property, null for the transient ones (they are never
   * read or written), never null for a primitive one nor for one AutoValue's constructor checks.
   */
  predicate ValidInstance(ps: seq<Property>, inst: seq<JValue>) {
    |inst| == |ps|
    && forall k :: 0 <= k < |ps| ==>
         (ps[k].isTransient ==> inst[k] == JNull) && (ps[k].propType.PrimitiveType? ==> inst[k] != JNull)
         && (NullChecked(ps[k]) ==> inst[k] != JNull)
  }

  /** The read plan without a builder. */
  function PositionalPlan(ps: seq<Property>): ReadPlan {
    ReadPlan(Names(ps), PositionalArms(ps), Positional(Defaults(ps), ConstructorArgs(ps), ConstructorNonNull(ps)))
  }

  /** The labels of the switch are pairwise distinct exactly when the wire names are. */
  lemma CaseLabelsDistinct(ps: seq<Property>)
    ensures (forall i, j :: 0 <= i < j < |PositionalArms(ps)| ==> PositionalArms(ps)[i].caseLabel != PositionalArms(ps)[j].caseLabel)
            <==> Distinct(Names(ps))
  {
    var names, arms := Names(ps), PositionalArms(ps);
    assert forall i :: 0 <= i < |arms| ==> arms[i].caseLabel == IndexOf(names, names[i]);
    if Distinct(names) {
      forall i | 0 <= i < |names| ensures arms[i].caseLabel == i {
        IndexOfDistinct(names, i);
      }
    } else {
      var i, j :| 0 <= i < j < |names| && names[i] == names[j];
      assert arms[i].caseLabel == arms[j].caseLabel;
    }
  }

  /** With distinct wire names each property's label is its index in NAMES. */
  lemma CaseLabelIsIndex(names: seq<string>, arms: seq<Arm>, i: nat)
    requires Distinct(names)
    requires |arms| == |names|
    requires forall j :: 0 <= j < |arms| ==> arms[j].caseLabel == IndexOf(names, names[j])
    requires i < |arms|
    ensures ArmForLabel(arms, IndexOf(names, names[i])) == Some(arms[i])
  {
    forall j | 0 <= j < i
      ensures arms[j].caseLabel != i
    {
      IndexOfDistinct(names, j);
    }
    IndexOfDistinct(names, i);
    ArmForLabelFirst(arms, i, i);
  }

  /**
   * Arms labelled with the NAMES index of their own wire name, in step order, dispatch every step
   * to its own arm.
   */
  lemma LabelledArmsDispatch(names: seq<string>, arms: seq<Arm>, steps: seq<WriteStep>, inst: seq<JValue>, mode: ReadMode)
    requires Distinct(names) && |arms| == |names| == |steps|
    requires forall j :: 0 <= j < |arms| ==> arms[j].caseLabel == IndexOf(names, names[j])
    requires forall j :: 0 <= j < |steps| ==>
               steps[j].wireName == names[j] && steps[j].slot < |inst| && TargetSlot(arms[j].target) == steps[j].slot
               && (arms[j].primitive ==> inst[steps[j].slot] != JNull)
    ensures AllDispatch(ReadPlan(names, arms, mode), steps, inst)
    ensures forall i :: 0 <= i < |steps| ==> ArmForLabel(arms, IndexOf(names, steps[i].wireName)) == Some(arms[i])
  {
    forall i | 0 <= i < |steps|
      ensures ArmForLabel(arms, IndexOf(names, steps[i].wireName)) == Some(arms[i])
    {
      CaseLabelIsIndex(names, arms, i);
    }
  }

  lemma PositionalDispatch(ps: seq<Property>, inst: seq<JValue>)
    requires Distinct(Names(ps)) && ValidInstance(ps, inst)
    ensures AllDispatch(PositionalPlan(ps), WriteSteps(ps), inst)
    ensures forall a :: a in WrittenAssignments(PositionalPlan(ps), WriteSteps(ps), inst) ==> a.target.Local?
  {
    var steps, names, arms, slots := WriteSteps(ps), Names(ps), PositionalArms(ps), Slots(ps);
    forall j | 0 <= j < |arms|
      ensures arms[j] == ArmFor(ps, names, slots[j], Local(slots[j]))
      ensures arms[j].caseLabel == IndexOf(names, names[j])
      ensures steps[j].wireName == names[j] && steps[j].slot == slots[j] < |inst|
      ensures TargetSlot(arms[j].target) == steps[j].slot
      ensures arms[j].primitive ==> inst[steps[j].slot] != JNull
    {
    }
    LabelledArmsDispatch(names, arms, steps, inst, PositionalPlan(ps).mode);
    forall a | a in arms ensures a.target.Local? {
    }
  }

  /**
   * The constructor call rebuilds the instance when every assignment agrees with it and every
   * serialized property left unassigned holds null (its local then keeps the null default).
   */
  lemma ConstructAgrees(ps: seq<Property>, inst: seq<JValue>, assigns: seq<Assignment>)
    requires ValidInstance(ps, inst)
    requires forall a :: a in assigns ==> TargetSlot(a.target) < |inst| && a.value == inst[TargetSlot(a.target)]
    requires forall k :: 0 <= k < |ps| && !ps[k].isTransient && k !in AssignedLocals(assigns) ==> inst[k] == JNull
    ensures Construct(ConstructorArgs(ps), Apply(Defaults(ps), assigns), ConstructorNonNull(ps)) == Success(inst)
  {
    var defaults, args, nonNull := Defaults(ps), ConstructorArgs(ps), ConstructorNonNull(ps);
    var locals := Apply(defaults, assigns);
    ApplyAgreeing(defaults, assigns, inst);
    var out := ArgValues(args, locals);
    forall k | 0 <= k < |ps|
      ensures out[k] == inst[k]
    {
      if !ps[k].isTransient {
        assert args[k] == LocalArg(k);
        if k !in AssignedLocals(assigns) {
          assert locals[k] == defaults[k] == DefaultValue(ps[k].propType);
        }
      }
    }
    assert out == inst;
    assert forall k :: 0 <= k < |args| ==> !RejectedArg(out, nonNull, k);
  }

  /** A serialized property holding a non-null value is assigned when its member is read back. */
  lemma WrittenSlotAssigned(ps: seq<Property>, inst: seq<JValue>, k: nat)
    requires Distinct(Names(ps)) && ValidInstance(ps, inst)
    requires k < |ps| && !ps[k].isTransient && inst[k] != JNull
    requires AllDispatch(PositionalPlan(ps), WriteSteps(ps), inst)
    ensures k in AssignedLocals(WrittenAssignments(PositionalPlan(ps), WriteSteps(ps), inst))
  {
    var plan, steps, slots := PositionalPlan(ps), WriteSteps(ps), Slots(ps);
    PositionalDispatch(ps, inst);
    assert k in slots;
    var i :| 0 <= i < |slots| && slots[i] == k;
    StepAssignsLocal(plan, steps, inst, i);
  }

  /**
   * Round trip without a builder: `fromJson` of what `toJson` wrote constructs the same value and
   * leaves the rest of the stream untouched.
   */
  lemma PositionalRoundTrip(ps: seq<Property>, inst: seq<JValue>, rest: seq<Token>)
    requires Distinct(Names(ps))
    requires ValidInstance(ps, inst)
    ensures ReadPositional(PositionalPlan(ps), Write(WriteSteps(ps), inst) + rest) == Success((inst, rest))
  {
    var plan, steps := PositionalPlan(ps), WriteSteps(ps);
    PositionalDispatch(ps, inst);
    ReadWrite(plan, steps, inst, rest);
    var assigns := WrittenAssignments(plan, steps, inst);
    forall k | 0 <= k < |ps| && !ps[k].isTransient && inst[k] != JNull
      ensures k in AssignedLocals(assigns)
    {
      WrittenSlotAssigned(ps, inst, k);
    }
    ConstructAgrees(ps, inst, assigns);
  }

  /** An unknown member at the front of the object is skipped and changes nothing about the result. */
  lemma UnknownMemberIgnored(ps: seq<Property>, u: string, v: JValue, body: seq<Token>)
    requires u !in Names(ps)
    ensures ReadPositional(PositionalPlan(ps), [BeginObject, Name(u)] + Serialize(v) + body)
            == ReadPositional(PositionalPlan(ps), [BeginObject] + body)
  {
    ReadObjectSkipsUnknown(PositionalPlan(ps), u, v, body);
  }

  /**
   * A property the constructor checks that no member of the object assigned is still null when
   * `new Class(...)` runs, so `fromJson` throws NullPointerException, at that property or at an
   * earlier checked one.
   */
  lemma UnassignedCheckedFails(ps: seq<Property>, ts: seq<Token>, k: nat)
    requires ReadObject(PositionalPlan(ps), ts).Success?
    requires k < |ps| && NullChecked(ps[k])
    requires k !in AssignedLocals(ReadObject(PositionalPlan(ps), ts).value.0)
    ensures ReadPositional(PositionalPlan(ps), ts).Failure?
    ensures ReadPositional(PositionalPlan(ps), ts).error.NullForRequired?
    ensures ReadPositional(PositionalPlan(ps), ts).error.slot <= k
  {
    var assigns := ReadObject(PositionalPlan(ps), ts).value.0;
    var defaults, args, nonNull := Defaults(ps), ConstructorArgs(ps), ConstructorNonNull(ps);
    var locals := Apply(defaults, assigns);
    ApplyUnassigned(defaults, assigns, k);
    var values := ArgValues(args, locals);
    assert values[k] == JNull;
    assert RejectedArg(values, nonNull, k);
  }

  /** A local no assignment targets keeps its initial value. */
  lemma {:induction false} ApplyUnassigned(locals: seq<JValue>, assigns: seq<Assignment>, k: nat)
    requires k < |locals| && k !in AssignedLocals(assigns)
    ensures Apply(locals, assigns)[k] == locals[k]
    decreases |assigns|
  {
    if |assigns| > 0 {
      var a := assigns[0];
      var next := if a.target.Local? && a.target.slot < |locals| then locals[a.target.slot := a.value] else locals;
      assert next[k] == locals[k];
      ApplyUnassigned(next, assigns[1..], k);
    }
  }

  /** `{}` makes no assignment, for any plan, and leaves what follows it. */
  lemma EmptyObjectAssignsNothing(plan: ReadPlan, rest: seq<Token>)
    ensures ReadObject(plan, [BeginObject, EndObject] + rest) == Success(([], rest))
  {
    var ts := [BeginObject, EndObject] + rest;
    assert ts[0] == BeginObject && ts[1..] == [EndObject] + rest;
    assert Scan(plan, ts[1..]) == Success(([], ts[1..]));
    assert ([EndObject] + rest)[1..] == rest;
  }

  /** With every local at its default, parameter k is rejected exactly when the constructor checks it. */
  lemma DefaultsRejected(ps: seq<Property>, k: nat)
    requires k < |ps|
    ensures RejectedArg(ArgValues(ConstructorArgs(ps), Defaults(ps)), ConstructorNonNull(ps), k) <==> NullChecked(ps[k])
  {
    if NullChecked(ps[k]) && !ps[k].isTransient {
      assert ArgValues(ConstructorArgs(ps), Defaults(ps))[k] == Defaults(ps)[k] == DefaultValue(ps[k].propType);
    }
  }

  /**
   * Reading `{}`: it succeeds exactly when the constructor checks no property; otherwise it throws
   * at the first checked property.
   */
  lemma EmptyObjectRead(ps: seq<Property>, rest: seq<Token>)
    ensures ReadPositional(PositionalPlan(ps), [BeginObject, EndObject] + rest).Success?
            <==> forall k :: 0 <= k < |ps| ==> !NullChecked(ps[k])
    ensures ReadPositional(PositionalPlan(ps), [BeginObject, EndObject] + rest).Failure? ==>
              exists k :: 0 <= k < |ps| && NullChecked(ps[k])
                          && ReadPositional(PositionalPlan(ps), [BeginObject, EndObject] + rest).error == NullForRequired(k)
                          && forall j :: 0 <= j < k ==> !NullChecked(ps[j])
  {
    var plan := PositionalPlan(ps);
    EmptyObjectAssignsNothing(plan, rest);
    var r := Construct(ConstructorArgs(ps), Defaults(ps), ConstructorNonNull(ps));
    assert Apply(Defaults(ps), []) == Defaults(ps);
    forall k | 0 <= k < |ps| {
      DefaultsRejected(ps, k);
    }
    if r.Failure? {
      var k := r.error.slot;
      assert NullChecked(ps[k]);
    }
  }

  /** One required `String` property, as in the functional tests' value classes. */
  function RequiredString(): Property {
    Property("name", "name", None, ClassType("java.lang.String"), [], [], false)
  }

  /** `{}` for a class with one required `String` property throws instead of building an instance. */
  lemma MissingRequiredStringThrows()
    ensures ReadPositional(PositionalPlan([RequiredString()]), [BeginObject, EndObject]) == Failure(NullForRequired(0))
  {
    assert NullableAnnotation(RequiredString().annotations) == None;
    EmptyObjectRead([RequiredString()], []);
    assert [BeginObject, EndObject] + [] == [BeginObject, EndObject];
  }

  // ----- builder mode -----

  /** The setter resolved for the property at position k (when generation succeeded). */
  function SetterFor(ps: seq<Property>, setters: map<string, seq<Setter>>, k: nat): string
    requires k < |ps|
  {
    var r := ResolveSetter(setters, ps[k]);
    if r.Success? then r.value else ""
  }

  /** The setter calls expected for a value: one per written member, in declaration order. */
  function ExpectedCalls(ps: seq<Property>, setters: map<string, seq<Setter>>, steps: seq<WriteStep>, inst: seq<JValue>): seq<SetterCall>
    requires StepsFit(steps, inst)
    requires forall i :: 0 <= i < |steps| ==> steps[i].slot < |ps|
  {
    if |steps| == 0 then []
    else
      var rest := ExpectedCalls(ps, setters, steps[1..], inst);
      if Skipped(steps[0], inst) then rest
      else [SetterCall(SetterFor(ps, setters, steps[0].slot), inst[steps[0].slot])] + rest
  }

  lemma {:induction false} SetterCallsWritten(ps: seq<Property>, setters: map<string, seq<Setter>>, plan: ReadPlan,
                                              steps: seq<WriteStep>, inst: seq<JValue>)
    requires AllDispatch(plan, steps, inst)
    requires forall i :: 0 <= i < |steps| ==> steps[i].slot < |ps|
    requires forall i :: 0 <= i < |steps| ==>
               ArmForLabel(plan.arms, IndexOf(plan.options, steps[i].wireName)).value.target
               == CallSetter(SetterFor(ps, setters, steps[i].slot), steps[i].slot)
    ensures SetterCalls(WrittenAssignments(plan, steps, inst)) == ExpectedCalls(ps, setters, steps, inst)
  {
    if |steps| > 0 {
      assert AllDispatch(plan, steps[1..], inst) by {
        forall i | 0 <= i < |steps[1..]| ensures Dispatches(plan, steps[1..][i], inst) {
          assert steps[1..][i] == steps[i + 1];
        }
      }
      SetterCallsWritten(ps, setters, plan, steps[1..], inst);
    }
  }

  /** With a builder the plan reads the NAMES options into the setter arms, without positional locals. */
  lemma BuilderPlanShape(ps: seq<Property>, ctx: BuilderContext)
    requires PlanBuilder(ctx).Success? && CreateReadPlan(ps, Some(ctx)).Success?
    ensures BuilderArms(ps, ctx.setters, Slots(ps)).Success?
    ensures CreateReadPlan(ps, Some(ctx)).value.0 == ReadPlan(Names(ps), BuilderArms(ps, ctx.setters, Slots(ps)).value, ViaBuilder)
  {
  }

  /** The builder arm at position j reads the property at slots[j] into its resolved setter. */
  lemma BuilderArmAt(ps: seq<Property>, setters: map<string, seq<Setter>>, slots: seq<nat>, arms: seq<Arm>, j: nat)
    requires forall i :: 0 <= i < |slots| ==> slots[i] < |ps|
    requires BuilderArms(ps, setters, slots) == Success(arms)
    requires j < |slots|
    ensures j < |arms| && arms[j] == ArmFor(ps, Names(ps), slots[j], CallSetter(SetterFor(ps, setters, slots[j]), slots[j]))
  {
    assert SetterArm(ps, setters, slots[j]) == Success(arms[j]);
  }

  /** Every written step dispatches to its own setter arm. */
  lemma BuilderDispatch(ps: seq<Property>, ctx: BuilderContext, inst: seq<JValue>)
    requires Distinct(Names(ps)) && ValidInstance(ps, inst)
    requires PlanBuilder(ctx).Success? && CreateReadPlan(ps, Some(ctx)).Success?
    ensures AllDispatch(CreateReadPlan(ps, Some(ctx)).value.0, WriteSteps(ps), inst)
    ensures forall i :: 0 <= i < |WriteSteps(ps)| ==>
              ArmForLabel(CreateReadPlan(ps, Some(ctx)).value.0.arms,
                          IndexOf(CreateReadPlan(ps, Some(ctx)).value.0.options, WriteSteps(ps)[i].wireName)).value.target
              == CallSetter(SetterFor(ps, ctx.setters, WriteSteps(ps)[i].slot), WriteSteps(ps)[i].slot)
  {
    BuilderPlanShape(ps, ctx);
    SetterArmsDispatch(ps, ctx.setters, BuilderArms(ps, ctx.setters, Slots(ps)).value, inst);
  }

  /** The setter arms built for the serialized properties dispatch every written step to its own setter. */
  lemma SetterArmsDispatch(ps: seq<Property>, setters: map<string, seq<Setter>>, arms: seq<Arm>, inst: seq<JValue>)
    requires Distinct(Names(ps)) && ValidInstance(ps, inst)
    requires BuilderArms(ps, setters, Slots(ps)) == Success(arms)
    ensures AllDispatch(ReadPlan(Names(ps), arms, ViaBuilder), WriteSteps(ps), inst)
    ensures forall i :: 0 <= i < |WriteSteps(ps)| ==>
              ArmForLabel(arms, IndexOf(Names(ps), WriteSteps(ps)[i].wireName)).value.target
              == CallSetter(SetterFor(ps, setters, WriteSteps(ps)[i].slot), WriteSteps(ps)[i].slot)
  {
    var steps, names, slots := WriteSteps(ps), Names(ps), Slots(ps);
    assert |arms| == |slots| == |names| == |steps|;
    forall j | 0 <= j < |slots|
      ensures arms[j] == ArmFor(ps, names, slots[j], CallSetter(SetterFor(ps, setters, slots[j]), slots[j]))
      ensures arms[j].caseLabel == IndexOf(names, names[j])
      ensures steps[j].wireName == names[j] && steps[j].slot == slots[j] < |inst|
      ensures TargetSlot(arms[j].target) == steps[j].slot
      ensures arms[j].primitive ==> inst[steps[j].slot] != JNull
    {
      BuilderArmAt(ps, setters, slots, arms, j);
    }
    LabelledArmsDispatch(names, arms, steps, inst, ViaBuilder);
  }

  /**
   * Round trip with a builder: `fromJson` of what `toJson` wrote calls the resolved setter of each
   * written property with its value, in declaration order, and returns exactly what `build()`
   * makes of those calls, including its failure.
   */
  lemma BuilderRoundTrip<V>(ps: seq<Property>, ctx: BuilderContext, inst: seq<JValue>, rest: seq<Token>,
                            build: seq<SetterCall> -> Result<V, string>)
    requires Distinct(Names(ps))
    requires ValidInstance(ps, inst)
    requires PlanBuilder(ctx).Success? && CreateReadPlan(ps, Some(ctx)).Success?
    ensures ReadWithBuilder(CreateReadPlan(ps, Some(ctx)).value.0, Write(WriteSteps(ps), inst) + rest, build)
            == match build(ExpectedCalls(ps, ctx.setters, WriteSteps(ps), inst))
               case Success(v) => Success((v, rest))
               case Failure(e) => Failure(BuildFailed(e))
  {
    var plan, steps := CreateReadPlan(ps, Some(ctx)).value.0, WriteSteps(ps);
    BuilderDispatch(ps, ctx, inst);
    ReadWrite(plan, steps, inst, rest);
    SetterCallsWritten(ps, ctx.setters, plan, steps, inst);
  }
}

/**
 * The NAMES array as the generator writes it: its initializer joins the names inside `{"` and `"}`,
 * so a class without serialized properties gets the one-element array `{""}` instead of `{}`, and
 * a member named "" then is not skipped.
 */
module EmptyNamesTable {
  import opened Wrappers
  import opened JsonTokens
  import opened Properties
  import opened AdapterRuntime
  import opened AdapterGenerator
  import opened AdapterLaws

  /** The read plan with the NAMES array the initializer text actually denotes. */
  function PositionalPlanAsWritten(ps: seq<Property>): (r: ReadPlan)
    ensures r.arms == PositionalPlan(ps).arms && r.mode == PositionalPlan(ps).mode
    ensures |Names(ps)| > 0 ==> r == PositionalPlan(ps)
    ensures |Names(ps)| == 0 ==> r.options == [""]
  {
    ReadPlan(NamesArrayAsWritten(Names(ps)), PositionalArms(ps), Positional(Defaults(ps), ConstructorArgs(ps), ConstructorNonNull(ps)))
  }

  /** An object with one unknown member named "" and a number value. */
  function EmptyNamedMember(): seq<Token> {
    [BeginObject, Name(""), Scalar("1"), EndObject]
  }

  /**
   * As written: for a class without properties, "" is selected as option 0, no case handles it,
   * the loop comes round to the value, and skipName fails on it.
   */
  lemma EmptyNameNotSkippedAsWritten()
    ensures ReadPositional(PositionalPlanAsWritten([]), EmptyNamedMember()) == Failure(UnexpectedToken(Scalar("1")))
  {
    var plan := PositionalPlanAsWritten([]);
    var ts := EmptyNamedMember();
    assert Names([]) == [];
    assert plan.options == [""] && plan.arms == [];
    assert SelectName(plan.options, ts[1..]) == 0;
    assert ts[1..][1..] == [Scalar("1"), EndObject];
    assert Scan(plan, [Scalar("1"), EndObject]) == Failure(UnexpectedToken(Scalar("1")));
    assert Scan(plan, ts[1..]) == Failure(UnexpectedToken(Scalar("1")));
  }

  /** With the empty NAMES array the same member is skipped like any unknown one. */
  lemma EmptyNameSkippedCorrected()
    ensures ReadPositional(PositionalPlan([]), EmptyNamedMember()) == Success(([], []))
  {
    assert Names([]) == [];
    assert EmptyNamedMember() == [BeginObject, Name("")] + Serialize(JScalar("1")) + [EndObject];
    UnknownMemberIgnored([], "", JScalar("1"), [EndObject]);
    var plan := PositionalPlan([]);
    var ts := [BeginObject] + [EndObject];
    assert ts[1..] == [EndObject];
    assert Scan(plan, ts[1..]) == Success(([], [EndObject]));
  }
}
