/**
 * What a generated MoshiJsonAdapter does at run time, as an interpreter over the plan the
 * generator fixes: `toJson` writes the serialized properties in order, skipping null nullable
 * ones; `fromJson` loops over the object's members, dispatches on the index `selectName` returns,
 * skips unknown members, and then either calls the value class's constructor or `build()`.
 *
 * A value-class instance is the sequence of its property values, one slot per property in
 * declaration order. Nested adapters are the identity codec on JSON values.
 */
module AdapterRuntime {
  import opened Wrappers
  import opened Seqs
  import opened JsonTokens

  /** One property written by `toJson`; a null value is skipped when `skipNull` (nullable properties). */
  datatype WriteStep = WriteStep(wireName: string, slot: nat, skipNull: bool)

  /** Where a value read for a case label goes: a local of `fromJson`, or a builder setter. */
  datatype Target = Local(slot: nat) | CallSetter(setter: string, slot: nat)

  /** One `case label:` arm of the switch over `selectName(OPTIONS)`. */
  datatype Arm = Arm(caseLabel: int, target: Target, primitive: bool, nullSafe: bool)

  /** An argument of the value class's constructor call: a local or the literal `null`. */
  datatype ArgSource = NullLiteral | LocalArg(slot: nat)

  /**
   * Without a builder, locals are seeded with `defaults` and `new Class(args)` is called; the
   * constructor AutoValue generates throws NullPointerException for a null argument where
   * `nonNull` is set (a reference property without @Nullable).
   */
  datatype ReadMode =
    | Positional(defaults: seq<JValue>, args: seq<ArgSource>, nonNull: seq<bool>)
    | ViaBuilder                                               // setters on a builder; `builder.build()`
    | EmptyBody                                                // no statements: builder validation reported an error

  datatype ReadPlan = ReadPlan(options: seq<string>, arms: seq<Arm>, mode: ReadMode)

  // ----- toJson -----

  predicate StepsFit(steps: seq<WriteStep>, inst: seq<JValue>) {
    forall i :: 0 <= i < |steps| ==> steps[i].slot < |inst|
  }

  predicate Skipped(step: WriteStep, inst: seq<JValue>)
    requires step.slot < |inst|
  {
    step.skipNull && inst[step.slot] == JNull
  }

  /** The members `toJson` writes, in order. */
  function WrittenMembers(steps: seq<WriteStep>, inst: seq<JValue>): (r: seq<Member>)
    requires StepsFit(steps, inst)
    ensures |r| <= |steps|
  {
    if |steps| == 0 then []
    else if Skipped(steps[0], inst) then WrittenMembers(steps[1..], inst)
    else [Member(steps[0].wireName, inst[steps[0].slot])] + WrittenMembers(steps[1..], inst)
  }

  /** The tokens `toJson` emits: beginObject, then per step name and value, then endObject. */
  function Write(steps: seq<WriteStep>, inst: seq<JValue>): seq<Token>
    requires StepsFit(steps, inst)
  {
    [BeginObject] + WriteBody(steps, inst) + [EndObject]
  }

  function WriteBody(steps: seq<WriteStep>, inst: seq<JValue>): seq<Token>
    requires StepsFit(steps, inst)
  {
    if |steps| == 0 then []
    else if Skipped(steps[0], inst) then WriteBody(steps[1..], inst)
    else [Name(steps[0].wireName)] + Serialize(inst[steps[0].slot]) + WriteBody(steps[1..], inst)
  }

  /** The written tokens are exactly the JSON object holding the written members. */
  lemma {:induction false} WriteIsObject(steps: seq<WriteStep>, inst: seq<JValue>)
    requires StepsFit(steps, inst)
    ensures Write(steps, inst) == Serialize(JObj(WrittenMembers(steps, inst)))
  {
    WriteBodyMembers(steps, inst);
  }

  lemma {:induction false} WriteBodyMembers(steps: seq<WriteStep>, inst: seq<JValue>)
    requires StepsFit(steps, inst)
    ensures WriteBody(steps, inst) == SerializeMembers(WrittenMembers(steps, inst))
  {
    if |steps| > 0 {
      WriteBodyMembers(steps[1..], inst);
      if !Skipped(steps[0], inst) {
        var ms := WrittenMembers(steps, inst);
        assert ms[0] == Member(steps[0].wireName, inst[steps[0].slot]);
        assert ms[1..] == WrittenMembers(steps[1..], inst);
      }
    }
  }

  /** A step's member is written exactly when its value is non-null or nulls are not skipped. */
  lemma {:induction false} WrittenMemberOf(steps: seq<WriteStep>, inst: seq<JValue>, i: nat)
    requires StepsFit(steps, inst)
    requires i < |steps|
    requires forall j :: 0 <= j < |steps| && j != i ==> steps[j].wireName != steps[i].wireName
    ensures (exists v :: Member(steps[i].wireName, v) in WrittenMembers(steps, inst))
            <==> !Skipped(steps[i], inst)
    ensures !Skipped(steps[i], inst) ==> Member(steps[i].wireName, inst[steps[i].slot]) in WrittenMembers(steps, inst)
  {
    var w := steps[i].wireName;
    var tail := WrittenMembers(steps[1..], inst);
    if i == 0 {
      NameAbsent(steps[1..], inst, w);
      if !Skipped(steps[0], inst) {
        assert WrittenMembers(steps, inst) == [Member(w, inst[steps[0].slot])] + tail;
      } else {
        assert WrittenMembers(steps, inst) == tail;
      }
    } else {
      WrittenMemberOf(steps[1..], inst, i - 1);
      if !Skipped(steps[0], inst) {
        assert steps[0].wireName != w;
        assert WrittenMembers(steps, inst) == [Member(steps[0].wireName, inst[steps[0].slot])] + tail;
      } else {
        assert WrittenMembers(steps, inst) == tail;
      }
    }
  }

  lemma {:induction false} NameAbsent(steps: seq<WriteStep>, inst: seq<JValue>, w: string)
    requires StepsFit(steps, inst)
    requires forall j :: 0 <= j < |steps| ==> steps[j].wireName != w
    ensures forall v :: Member(w, v) !in WrittenMembers(steps, inst)
  {
    if |steps| > 0 {
      NameAbsent(steps[1..], inst, w);
    }
  }

  // ----- fromJson -----

  /** JsonReader.hasNext: there is another member before the end of the object. */
  predicate HasNext(ts: seq<Token>) {
    |ts| > 0 && ts[0] != EndObject && ts[0] != EndArray
  }

  /** JsonReader.selectName: the option index of the next name, or -1 for anything else. */
  function SelectName(options: seq<string>, ts: seq<Token>): (r: int)
    ensures -1 <= r < |options|
    ensures r >= 0 <==> |ts| > 0 && ts[0].Name? && ts[0].name in options
    ensures r >= 0 ==> options[r] == ts[0].name
  {
    if |ts| > 0 && ts[0].Name? then IndexOf(options, ts[0].name) else -1
  }

  /** The arm the switch jumps to for a label. */
  function ArmForLabel(arms: seq<Arm>, caseLabel: int): (r: Option<Arm>)
    ensures r.None? <==> forall i :: 0 <= i < |arms| ==> arms[i].caseLabel != caseLabel
    ensures r.Some? ==> exists i :: 0 <= i < |arms| && arms[i] == r.value && r.value.caseLabel == caseLabel
                                   && forall j :: 0 <= j < i ==> arms[j].caseLabel != caseLabel
  {
    if |arms| == 0 then None
    else if arms[0].caseLabel == caseLabel then Some(arms[0])
    else
      var r := ArmForLabel(arms[1..], caseLabel);
      assert r.Some? ==> exists i :: 1 <= i < |arms| && arms[i] == r.value && r.value.caseLabel == caseLabel
                                    && forall j :: 1 <= j < i ==> arms[j].caseLabel != caseLabel;
      r
  }

  /** The arm selected for a label is the first one carrying it. */
  lemma {:induction false} ArmForLabelFirst(arms: seq<Arm>, caseLabel: int, i: nat)
    requires i < |arms| && arms[i].caseLabel == caseLabel
    requires forall j :: 0 <= j < i ==> arms[j].caseLabel != caseLabel
    ensures ArmForLabel(arms, caseLabel) == Some(arms[i])
  {
    if i > 0 {
      assert arms[1..][i - 1] == arms[i];
      assert forall j :: 0 <= j < i - 1 ==> arms[1..][j] == arms[j + 1];
      ArmForLabelFirst(arms[1..], caseLabel, i - 1);
    }
  }

  /**
   * The property's adapter reading one value: a null-safe adapter answers null for a NULL token
   * itself; a null cannot be stored into a primitive.
   */
  function ReadDelegate(arm: Arm, ts: seq<Token>): (r: Result<(JValue, seq<Token>), ReadError>)
    ensures r.Success? ==> ProperSuffix(r.value.1, ts)
    ensures r.Success? && arm.primitive ==> r.value.0 != JNull
  {
    ParseValueSuffix(ts);
    var read :=
      if arm.nullSafe && |ts| > 0 && ts[0] == NullToken then Success((JNull, ts[1..]))
      else ParseValue(ts);
    if read.Failure? then read
    else if arm.primitive && read.value.0 == JNull then Failure(NullForPrimitive(TargetSlot(arm.target)))
    else read
  }

  function TargetSlot(t: Target): nat {
    match t
    case Local(k) => k
    case CallSetter(_, k) => k
  }

  /** A value read and where it went. */
  datatype Assignment = Assignment(target: Target, value: JValue)

  /**
   * The `while (reader.hasNext())` loop: the assignments made, in document order, and the tokens
   * left when hasNext turns false.
   */
  function Scan(plan: ReadPlan, ts: seq<Token>): (r: Result<(seq<Assignment>, seq<Token>), ReadError>)
    ensures r.Success? ==> !HasNext(r.value.1) && |r.value.1| <= |ts|
    ensures r.Success? ==> forall a :: a in r.value.0 ==> exists arm :: arm in plan.arms && arm.target == a.target
    decreases |ts|
  {
    if !HasNext(ts) then Success(([], ts))
    else
      var index := SelectName(plan.options, ts);
      if index == -1 then
        // case -1: skipName(), then skipValue()
        if !ts[0].Name? then Failure(UnexpectedToken(ts[0]))
        else
          var skipped := ParseValue(ts[1..]);
          if skipped.Failure? then Failure(skipped.error)
          else Scan(plan, skipped.value.1)
      else
        match ArmForLabel(plan.arms, index)
        case None => Scan(plan, ts[1..])
        case Some(arm) =>
          var read := ReadDelegate(arm, ts[1..]);
          if read.Failure? then Failure(read.error)
          else
            var more := Scan(plan, read.value.1);
            if more.Failure? then more
            else Success(([Assignment(arm.target, read.value.0)] + more.value.0, more.value.1))
  }

  /** The locals after the assignments, in order (a later value for the same slot wins). */
  function Apply(locals: seq<JValue>, assigns: seq<Assignment>): (r: seq<JValue>)
    ensures |r| == |locals|
    decreases |assigns|
  {
    if |assigns| == 0 then locals
    else
      var a := assigns[0];
      var next := if a.target.Local? && a.target.slot < |locals| then locals[a.target.slot := a.value] else locals;
      Apply(next, assigns[1..])
  }

  /** The values the constructor call `new Class(args)` passes. */
  function ArgValues(args: seq<ArgSource>, locals: seq<JValue>): (r: seq<JValue>)
    ensures |r| == |args|
    ensures forall i :: 0 <= i < |args| && args[i].NullLiteral? ==> r[i] == JNull
    ensures forall i :: 0 <= i < |args| && args[i].LocalArg? && args[i].slot < |locals| ==> r[i] == locals[args[i].slot]
  {
    seq(|args|, i requires 0 <= i < |args| =>
      match args[i]
      case NullLiteral => JNull
      case LocalArg(k) => if k < |locals| then locals[k] else JNull)
  }

  /** Parameter `i` is one the constructor checks, and it receives null. */
  predicate RejectedArg(values: seq<JValue>, nonNull: seq<bool>, i: int) {
    0 <= i < |values| && i < |nonNull| && nonNull[i] && values[i] == JNull
  }

  /** The first parameter at or after `from` that the constructor rejects, or -1. */
  function FirstRejected(values: seq<JValue>, nonNull: seq<bool>, from: nat): (r: int)
    requires from <= |values|
    ensures r == -1 <==> forall i :: from <= i < |values| ==> !RejectedArg(values, nonNull, i)
    ensures r != -1 ==> from <= r && RejectedArg(values, nonNull, r)
                        && forall i :: from <= i < r ==> !RejectedArg(values, nonNull, i)
    decreases |values| - from
  {
    if from == |values| then -1
    else if RejectedArg(values, nonNull, from) then from
    else FirstRejected(values, nonNull, from + 1)
  }

  /**
   * The constructor call `new Class(args)`: the instance holding the argument values, or the
   * NullPointerException of the first checked parameter that receives null (AutoValue checks the
   * parameters in declaration order).
   */
  function Construct(args: seq<ArgSource>, locals: seq<JValue>, nonNull: seq<bool>): (r: Result<seq<JValue>, ReadError>)
    ensures r.Success? <==> forall i :: 0 <= i < |args| ==> !RejectedArg(ArgValues(args, locals), nonNull, i)
    ensures r.Success? ==> r.value == ArgValues(args, locals)
    ensures r.Failure? ==> r.error.NullForRequired? && RejectedArg(ArgValues(args, locals), nonNull, r.error.slot)
                           && forall j :: 0 <= j < r.error.slot ==> !RejectedArg(ArgValues(args, locals), nonNull, j)
  {
    var values := ArgValues(args, locals);
    var k := FirstRejected(values, nonNull, 0);
    if k == -1 then Success(values) else Failure(NullForRequired(k))
  }

  /** beginObject, the loop, endObject. */
  function ReadObject(plan: ReadPlan, ts: seq<Token>): (r: Result<(seq<Assignment>, seq<Token>), ReadError>)
    ensures r.Success? ==> ProperSuffix(r.value.1, ts)
  {
    if |ts| == 0 then Failure(UnexpectedEnd)
    else if ts[0] != BeginObject then Failure(UnexpectedToken(ts[0]))
    else
      var body := Scan(plan, ts[1..]);
      if body.Failure? then Failure(body.error)
      else if |body.value.1| == 0 then Failure(UnexpectedEnd)
      else if body.value.1[0] != EndObject then Failure(UnexpectedToken(body.value.1[0]))
      else
        assert ProperSuffix(body.value.1[1..], ts) by {
          ScanSuffix(plan, ts[1..]);
          DropFirst(ts);
          DropFirst(body.value.1);
          SuffixTrans(body.value.1, ts[1..], ts);
          SuffixTrans(body.value.1[1..], body.value.1, ts);
        }
        Success((body.value.0, body.value.1[1..]))
  }

  lemma {:induction false} ScanSuffix(plan: ReadPlan, ts: seq<Token>)
    requires Scan(plan, ts).Success?
    ensures Suffix(Scan(plan, ts).value.1, ts)
    decreases |ts|
  {
    var left := Scan(plan, ts).value.1;
    if HasNext(ts) {
      DropFirst(ts);
      var index := SelectName(plan.options, ts);
      if index == -1 {
        var skipped := ParseValue(ts[1..]);
        ParseValueSuffix(ts[1..]);
        ScanSuffix(plan, skipped.value.1);
        SuffixTrans(skipped.value.1, ts[1..], ts);
        SuffixTrans(left, skipped.value.1, ts);
      } else {
        match ArmForLabel(plan.arms, index)
        case None =>
          ScanSuffix(plan, ts[1..]);
          SuffixTrans(left, ts[1..], ts);
        case Some(arm) =>
          var read := ReadDelegate(arm, ts[1..]);
          var more := Scan(plan, read.value.1);
          ScanSuffix(plan, read.value.1);
          assert left == more.value.1;
          SuffixTrans(read.value.1, ts[1..], ts);
          SuffixTrans(left, read.value.1, ts);
      }
    }
  }

  /** `fromJson` without a builder: the constructed instance and the unread tokens. */
  function ReadPositional(plan: ReadPlan, ts: seq<Token>): (r: Result<(seq<JValue>, seq<Token>), ReadError>)
    requires plan.mode.Positional?
    ensures r.Success? ==> |r.value.0| == |plan.mode.args| && ProperSuffix(r.value.1, ts)
  {
    var body :- ReadObject(plan, ts);
    var inst :- Construct(plan.mode.args, Apply(plan.mode.defaults, body.0), plan.mode.nonNull);
    Success((inst, body.1))
  }

  /** A setter call on the builder, in the order `fromJson` makes them. */
  datatype SetterCall = SetterCall(setter: string, value: JValue)

  function SetterCalls(assigns: seq<Assignment>): (r: seq<SetterCall>)
    ensures |r| <= |assigns|
  {
    if |assigns| == 0 then []
    else if assigns[0].target.CallSetter? then
      [SetterCall(assigns[0].target.setter, assigns[0].value)] + SetterCalls(assigns[1..])
    else SetterCalls(assigns[1..])
  }

  /**
   * `fromJson` with a builder: the setter calls are made in document order on the builder
   * obtained up front and the result is whatever `build()` makes of them; `build` is the builder's
   * behaviour (AutoValue's checks and any user validation), an exception from it propagates.
   */
  function ReadWithBuilder<V>(plan: ReadPlan, ts: seq<Token>, build: seq<SetterCall> -> Result<V, string>)
    : (r: Result<(V, seq<Token>), ReadError>)
    ensures ReadObject(plan, ts).Failure? ==> r == Failure(ReadObject(plan, ts).error)
    ensures ReadObject(plan, ts).Success? ==>
              r == (match build(SetterCalls(ReadObject(plan, ts).value.0))
                    case Success(v) => Success((v, ReadObject(plan, ts).value.1))
                    case Failure(e) => Failure(BuildFailed(e)))
  {
    var body :- ReadObject(plan, ts);
    match build(SetterCalls(body.0))
    case Success(v) => Success((v, body.1))
    case Failure(e) => Failure(BuildFailed(e))
  }

  /** Moshi's default lenience: an unknown member and its value are skipped without effect. */
  lemma UnknownMemberSkipped(plan: ReadPlan, u: string, v: JValue, ts: seq<Token>)
    requires u !in plan.options
    ensures Scan(plan, [Name(u)] + Serialize(v) + ts) == Scan(plan, ts)
  {
    var input := [Name(u)] + Serialize(v) + ts;
    assert input[1..] == Serialize(v) + ts;
    ParseSerialize(v, ts);
  }

  /** An unknown member right after beginObject changes nothing about what the object reads to. */
  lemma ReadObjectSkipsUnknown(plan: ReadPlan, u: string, v: JValue, body: seq<Token>)
    requires u !in plan.options
    ensures ReadObject(plan, [BeginObject, Name(u)] + Serialize(v) + body) == ReadObject(plan, [BeginObject] + body)
  {
    var withUnknown := [BeginObject, Name(u)] + Serialize(v) + body;
    assert withUnknown[0] == BeginObject && withUnknown[1..] == [Name(u)] + Serialize(v) + body;
    assert ([BeginObject] + body)[0] == BeginObject && ([BeginObject] + body)[1..] == body;
    UnknownMemberSkipped(plan, u, v, body);
  }

  // ----- reading back what was written -----

  /** The arm `fromJson` runs for a written step reads into that step's slot and accepts its value. */
  predicate Dispatches(plan: ReadPlan, step: WriteStep, inst: seq<JValue>)
    requires step.slot < |inst|
  {
    step.wireName in plan.options
    && var arm := ArmForLabel(plan.arms, IndexOf(plan.options, step.wireName));
       arm.Some? && TargetSlot(arm.value.target) == step.slot
       && (arm.value.primitive ==> inst[step.slot] != JNull)
  }

  predicate AllDispatch(plan: ReadPlan, steps: seq<WriteStep>, inst: seq<JValue>) {
    StepsFit(steps, inst) && forall i :: 0 <= i < |steps| ==> Dispatches(plan, steps[i], inst)
  }

  /** The assignments reading the written members makes: one per written step, in order. */
  function WrittenAssignments(plan: ReadPlan, steps: seq<WriteStep>, inst: seq<JValue>): (r: seq<Assignment>)
    requires AllDispatch(plan, steps, inst)
    ensures forall a :: a in r ==> TargetSlot(a.target) < |inst| && a.value == inst[TargetSlot(a.target)]
    ensures forall a :: a in r ==> exists arm :: arm in plan.arms && arm.target == a.target
  {
    if |steps| == 0 then []
    else
      var rest := WrittenAssignments(plan, steps[1..], inst);
      if Skipped(steps[0], inst) then rest
      else
        var arm := ArmForLabel(plan.arms, IndexOf(plan.options, steps[0].wireName)).value;
        [Assignment(arm.target, inst[steps[0].slot])] + rest
  }

  /** Every step that is written leads to an assignment of its slot. */
  lemma {:induction false} WrittenStepAssigned(plan: ReadPlan, steps: seq<WriteStep>, inst: seq<JValue>, i: nat)
    requires AllDispatch(plan, steps, inst)
    requires i < |steps| && !Skipped(steps[i], inst)
    ensures exists a :: a in WrittenAssignments(plan, steps, inst) && TargetSlot(a.target) == steps[i].slot
  {
    if i > 0 {
      WrittenStepAssigned(plan, steps[1..], inst, i - 1);
    } else {
      var arm := ArmForLabel(plan.arms, IndexOf(plan.options, steps[0].wireName)).value;
      assert WrittenAssignments(plan, steps, inst)[0] == Assignment(arm.target, inst[steps[0].slot]);
    }
  }

  /** A property's adapter reads back exactly the value it wrote. */
  lemma DelegateReadsSerialized(arm: Arm, v: JValue, tail: seq<Token>)
    requires arm.primitive ==> v != JNull
    ensures ReadDelegate(arm, Serialize(v) + tail) == Success((v, tail))
  {
    ParseSerialize(v, tail);
    var ts := Serialize(v) + tail;
    if v == JNull {
      assert ts == [NullToken] + tail;
    } else {
      SerializeHead(v);
      assert ts[0] == Serialize(v)[0];
    }
  }

  /** With local targets only, a written step's slot ends up among the assigned locals. */
  lemma StepAssignsLocal(plan: ReadPlan, steps: seq<WriteStep>, inst: seq<JValue>, i: nat)
    requires AllDispatch(plan, steps, inst)
    requires forall a :: a in WrittenAssignments(plan, steps, inst) ==> a.target.Local?
    requires i < |steps| && !Skipped(steps[i], inst)
    ensures steps[i].slot in AssignedLocals(WrittenAssignments(plan, steps, inst))
  {
    WrittenStepAssigned(plan, steps, inst, i);
    var a :| a in WrittenAssignments(plan, steps, inst) && TargetSlot(a.target) == steps[i].slot;
  }

  /** One known member: its arm reads the value, and the loop carries on after it. */
  lemma ScanMember(plan: ReadPlan, w: string, v: JValue, tail: seq<Token>, arm: Arm)
    requires w in plan.options
    requires ArmForLabel(plan.arms, IndexOf(plan.options, w)) == Some(arm)
    requires arm.primitive ==> v != JNull
    requires Scan(plan, tail).Success?
    ensures Scan(plan, [Name(w)] + (Serialize(v) + tail))
            == Success(([Assignment(arm.target, v)] + Scan(plan, tail).value.0, Scan(plan, tail).value.1))
  {
    var ts := [Name(w)] + (Serialize(v) + tail);
    assert ts[0] == Name(w) && ts[1..] == Serialize(v) + tail;
    assert HasNext(ts);
    assert SelectName(plan.options, ts) == IndexOf(plan.options, w);
    DelegateReadsSerialized(arm, v, tail);
  }

  lemma {:induction false} ScanWrite(plan: ReadPlan, steps: seq<WriteStep>, inst: seq<JValue>, rest: seq<Token>)
    requires AllDispatch(plan, steps, inst)
    requires !HasNext(rest)
    ensures Scan(plan, WriteBody(steps, inst) + rest) == Success((WrittenAssignments(plan, steps, inst), rest))
  {
    if |steps| == 0 {
      assert WriteBody(steps, inst) + rest == rest;
    } else {
      DispatchTail(plan, steps, inst);
      ScanWrite(plan, steps[1..], inst, rest);
      if Skipped(steps[0], inst) {
        assert WriteBody(steps, inst) == WriteBody(steps[1..], inst);
        assert WrittenAssignments(plan, steps, inst) == WrittenAssignments(plan, steps[1..], inst);
      } else {
        ScanWrittenHead(plan, steps, inst, rest);
      }
    }
  }

  lemma DispatchTail(plan: ReadPlan, steps: seq<WriteStep>, inst: seq<JValue>)
    requires AllDispatch(plan, steps, inst) && |steps| > 0
    ensures AllDispatch(plan, steps[1..], inst)
  {
    forall i | 0 <= i < |steps[1..]|
      ensures Dispatches(plan, steps[1..][i], inst)
    {
      assert steps[1..][i] == steps[i + 1];
    }
  }

  /** A written first member is read into its arm's target ahead of the others. */
  lemma ScanWrittenHead(plan: ReadPlan, steps: seq<WriteStep>, inst: seq<JValue>, rest: seq<Token>)
    requires AllDispatch(plan, steps, inst) && |steps| > 0 && !Skipped(steps[0], inst)
    requires AllDispatch(plan, steps[1..], inst)
    requires Scan(plan, WriteBody(steps[1..], inst) + rest) == Success((WrittenAssignments(plan, steps[1..], inst), rest))
    ensures Scan(plan, WriteBody(steps, inst) + rest) == Success((WrittenAssignments(plan, steps, inst), rest))
  {
    var w := steps[0].wireName;
    var v := inst[steps[0].slot];
    var tail := WriteBody(steps[1..], inst) + rest;
    assert WriteBody(steps, inst) + rest == [Name(w)] + (Serialize(v) + tail);
    assert Dispatches(plan, steps[0], inst);
    var arm := ArmForLabel(plan.arms, IndexOf(plan.options, w)).value;
    assert WrittenAssignments(plan, steps, inst) == [Assignment(arm.target, v)] + WrittenAssignments(plan, steps[1..], inst);
    ScanMember(plan, w, v, tail, arm);
  }

  /**
   * Reading what `toJson` wrote: beginObject, one assignment per written member in order, and
   * endObject, leaving the following tokens untouched.
   */
  lemma ReadWrite(plan: ReadPlan, steps: seq<WriteStep>, inst: seq<JValue>, rest: seq<Token>)
    requires AllDispatch(plan, steps, inst)
    ensures ReadObject(plan, Write(steps, inst) + rest) == Success((WrittenAssignments(plan, steps, inst), rest))
  {
    var body := WriteBody(steps, inst);
    var ts := Write(steps, inst) + rest;
    assert ts == [BeginObject] + (body + ([EndObject] + rest));
    assert ts[1..] == body + ([EndObject] + rest);
    ScanWrite(plan, steps, inst, [EndObject] + rest);
    assert ([EndObject] + rest)[1..] == rest;
  }

  /** The locals that some assignment targets. */
  function AssignedLocals(assigns: seq<Assignment>): (r: set<nat>)
    ensures forall a :: a in assigns && a.target.Local? ==> a.target.slot in r
    ensures forall k :: k in r ==> exists a :: a in assigns && a.target == Local(k)
  {
    if |assigns| == 0 then {}
    else
      var rest := AssignedLocals(assigns[1..]);
      if assigns[0].target.Local? then {assigns[0].target.slot} + rest else rest
  }

  /** Assignments that agree with `inst` leave assigned locals equal to `inst` and others unchanged. */
  lemma {:induction false} ApplyAgreeing(locals: seq<JValue>, assigns: seq<Assignment>, inst: seq<JValue>)
    requires |locals| == |inst|
    requires forall a :: a in assigns ==> TargetSlot(a.target) < |inst| && a.value == inst[TargetSlot(a.target)]
    ensures forall k :: 0 <= k < |locals| && k in AssignedLocals(assigns) ==> Apply(locals, assigns)[k] == inst[k]
    ensures forall k :: 0 <= k < |locals| && k !in AssignedLocals(assigns) ==> Apply(locals, assigns)[k] == locals[k]
    decreases |assigns|
  {
    if |assigns| > 0 {
      var a := assigns[0];
      var next := if a.target.Local? && a.target.slot < |locals| then locals[a.target.slot := a.value] else locals;
      ApplyAgreeing(next, assigns[1..], inst);
    }
  }
}
