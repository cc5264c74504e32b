/**
 * ProguardConfig: the shrinker rules written next to each generated adapter. A config names the
 * target class, the adapter's simple name, the adapter constructor's parameter types, whether the
 * adapter is looked up reflectively ("external"), and the properties that carry JSON qualifier
 * annotations. It is written to one resource per target class, as lines each ended by "\n":
 *
 *   -if class T / -keepnames class T                          (external only)
 *   -if class T / -keep class A { ... }                       (external, or some qualified property)
 *   -if class T / -keep @interface Q                          (per qualifier, in sorted order)
 *
 * The sets of the source (the qualified properties, the qualifiers of each) are sequences here, in
 * their iteration order.
 */
module Proguard {
  import opened Wrappers
  import opened Seqs

  /** A JavaPoet class name: its package ("" for the default package) and its simple names, outermost first. */
  datatype ClassName = ClassName(packageName: string, simpleNames: seq<string>)

  /** canonicalName: the simple names joined by ".", after the package when there is one. */
  function CanonicalName(c: ClassName): string {
    if c.packageName == "" then Join(c.simpleNames, ".") else c.packageName + "." + Join(c.simpleNames, ".")
  }

  /** A property whose adapter field is annotated with JSON qualifiers. */
  datatype QualifierAdapterProperty = QualifierAdapterProperty(name: string, qualifiers: seq<ClassName>)

  datatype ProguardConfig = ProguardConfig(
    isExternal: bool,
    targetClass: ClassName,
    adapterName: string,
    adapterConstructorParams: seq<string>,
    qualifierProperties: seq<QualifierAdapterProperty>,
    outputFile: string)

  // ----- the output file -----

  const OutputPrefix: string := "META-INF/proguard/avm-"
  const OutputSuffix: string := ".pro"

  /** The resource a target class's rules go to. */
  function OutputFileFor(target: ClassName): string {
    OutputPrefix + CanonicalName(target) + OutputSuffix
  }

  /** The canonical name a resource name stands for, when it has the shape of one. */
  function TargetOfOutputFile(file: string): (r: Option<string>)
    ensures r.Some? ==> OutputPrefix + r.value + OutputSuffix == file
  {
    if |file| >= |OutputPrefix| + |OutputSuffix|
       && file[..|OutputPrefix|] == OutputPrefix
       && file[|file| - |OutputSuffix|..] == OutputSuffix
    then
      var middle := file[|OutputPrefix|..|file| - |OutputSuffix|];
      assert file == file[..|OutputPrefix|] + middle + file[|file| - |OutputSuffix|..];
      Some(middle)
    else None
  }

  /** The resource name gives back the target's canonical name. */
  lemma OutputFileRoundTrip(target: ClassName)
    ensures TargetOfOutputFile(OutputFileFor(target)) == Some(CanonicalName(target))
  {
    var f := OutputFileFor(target);
    var n := CanonicalName(target);
    assert f[..|OutputPrefix|] == OutputPrefix;
    assert f[|f| - |OutputSuffix|..] == OutputSuffix;
    assert f[|OutputPrefix|..|f| - |OutputSuffix|] == n;
  }

  /** Two target classes share a resource exactly when they share a canonical name. */
  lemma OutputFileInjective(a: ClassName, b: ClassName)
    ensures OutputFileFor(a) == OutputFileFor(b) <==> CanonicalName(a) == CanonicalName(b)
  {
    if OutputFileFor(a) == OutputFileFor(b) {
      OutputFileRoundTrip(a);
      OutputFileRoundTrip(b);
    }
  }

  /** create: the config, with its resource name derived from the target class. */
  function Create(
    isExternal: bool,
    targetClass: ClassName,
    adapterName: string,
    adapterConstructorParams: seq<string>,
    qualifierProperties: seq<QualifierAdapterProperty>): (r: ProguardConfig)
    ensures TargetOfOutputFile(r.outputFile) == Some(CanonicalName(targetClass))
    ensures r.isExternal == isExternal && r.targetClass == targetClass && r.adapterName == adapterName
    ensures r.adapterConstructorParams == adapterConstructorParams && r.qualifierProperties == qualifierProperties
  {
    OutputFileRoundTrip(targetClass);
    ProguardConfig(isExternal, targetClass, adapterName, adapterConstructorParams, qualifierProperties,
                   OutputFileFor(targetClass))
  }

  // ----- String.compareTo -----

  /** `a.compareTo(b) <= 0`: at the first position where they differ the character of `a` is smaller, or `a` is a prefix of `b`. */
  predicate LessEq(a: string, b: string) {
    |a| == 0 || (|b| > 0 && (a[0] < b[0] || (a[0] == b[0] && LessEq(a[1..], b[1..]))))
  }

  lemma {:induction false} LessEqTotal(a: string, b: string)
    ensures LessEq(a, b) || LessEq(b, a)
  {
    if |a| > 0 && |b| > 0 && a[0] == b[0] {
      LessEqTotal(a[1..], b[1..]);
    }
  }

  lemma {:induction false} LessEqReflexive(a: string)
    ensures LessEq(a, a)
  {
    if |a| > 0 {
      LessEqReflexive(a[1..]);
    }
  }

  lemma {:induction false} LessEqAntisymmetric(a: string, b: string)
    requires LessEq(a, b) && LessEq(b, a)
    ensures a == b
  {
    if |a| > 0 {
      LessEqAntisymmetric(a[1..], b[1..]);
      assert a == [a[0]] + a[1..] && b == [b[0]] + b[1..];
    }
  }

  lemma {:induction false} LessEqTransitive(a: string, b: string, c: string)
    requires LessEq(a, b) && LessEq(b, c)
    ensures LessEq(a, c)
  {
    if |a| > 0 && a[0] == b[0] && b[0] == c[0] {
      LessEqTransitive(a[1..], b[1..], c[1..]);
    }
  }

  // ----- Stream.sorted() -----

  predicate Sorted(s: seq<string>) {
    forall i, j :: 0 <= i < j < |s| ==> LessEq(s[i], s[j])
  }

  /** Place `x` before the first element it does not follow. */
  function Insert(x: string, s: seq<string>): (r: seq<string>)
    requires Sorted(s)
    ensures multiset(r) == multiset(s) + multiset{x}
    ensures Sorted(r)
    ensures |r| > 0 && (r[0] == x || (|s| > 0 && r[0] == s[0]))
  {
    if |s| == 0 then [x]
    else if LessEq(x, s[0]) then
      assert forall j :: 0 < j < |s| ==> LessEq(s[0], s[j]);
      InsertFrontSorted(x, s);
      [x] + s
    else
      SortedTail(s);
      var rest := Insert(x, s[1..]);
      InsertBehind(x, s, rest);
      [s[0]] + rest
  }

  /** When `x` follows the head, the head stays in front of `x` inserted into the tail. */
  lemma InsertBehind(x: string, s: seq<string>, rest: seq<string>)
    requires Sorted(s) && |s| > 0 && !LessEq(x, s[0])
    requires Sorted(rest) && multiset(rest) == multiset(s[1..]) + multiset{x}
    requires |rest| > 0 && (rest[0] == x || (|s[1..]| > 0 && rest[0] == s[1..][0]))
    ensures multiset([s[0]] + rest) == multiset(s) + multiset{x}
    ensures Sorted([s[0]] + rest)
  {
    LessEqTotal(x, s[0]);
    var tail := s[1..];
    assert forall j :: 0 <= j < |tail| ==> tail[j] == s[j + 1];
    assert s == [s[0]] + tail;
    InsertBehindSorted(s[0], rest, x, tail);
  }

  lemma InsertFrontSorted(x: string, s: seq<string>)
    requires Sorted(s) && |s| > 0 && LessEq(x, s[0])
    ensures Sorted([x] + s)
  {
    forall j | 0 <= j < |s|
      ensures LessEq(x, s[j])
    {
      if j > 0 {
        LessEqTransitive(x, s[0], s[j]);
      }
    }
  }

  lemma InsertBehindSorted(y: string, rest: seq<string>, x: string, s: seq<string>)
    requires Sorted(rest) && |rest| > 0 && (rest[0] == x || (|s| > 0 && rest[0] == s[0]))
    requires LessEq(y, x) && (|s| > 0 ==> LessEq(y, s[0]))
    requires multiset(rest) == multiset(s) + multiset{x}
    requires forall j :: 0 <= j < |s| ==> LessEq(y, s[j])
    ensures Sorted([y] + rest)
  {
    forall j | 0 <= j < |rest|
      ensures LessEq(y, rest[j])
    {
      assert rest[j] in multiset(rest);
      if rest[j] != x {
        assert rest[j] in multiset(s);
        var k :| 0 <= k < |s| && s[k] == rest[j];
      }
    }
  }

  /** Insertion sort in the order of String.compareTo. */
  function Sort(s: seq<string>): (r: seq<string>)
    ensures multiset(r) == multiset(s)
    ensures Sorted(r)
  {
    if |s| == 0 then []
    else
      assert s == [s[0]] + s[1..];
      Insert(s[0], Sort(s[1..]))
  }

  /** Two sorted arrangements of the same names are the same sequence. */
  lemma {:induction false} SortedUnique(a: seq<string>, b: seq<string>)
    requires Sorted(a) && Sorted(b) && multiset(a) == multiset(b)
    ensures a == b
  {
    assert |a| == |multiset(a)| && |b| == |multiset(b)|;
    if |a| > 0 {
      var x, y := a[0], b[0];
      assert x in multiset(b) && y in multiset(a);
      var i :| 0 <= i < |b| && b[i] == x;
      var j :| 0 <= j < |a| && a[j] == y;
      LessEqReflexive(x);
      LessEqReflexive(y);
      assert LessEq(x, a[j]) && LessEq(y, b[i]);
      LessEqAntisymmetric(x, y);
      SortedTail(a);
      SortedTail(b);
      SortedUnique(a[1..], b[1..]);
      assert a == [x] + a[1..] && b == [y] + b[1..];
    }
  }

  /** Dropping the first element keeps a sequence sorted and removes one occurrence from its multiset. */
  lemma SortedTail(a: seq<string>)
    requires Sorted(a) && |a| > 0
    ensures Sorted(a[1..]) && multiset(a[1..]) == multiset(a) - multiset{a[0]}
  {
    assert a == [a[0]] + a[1..];
  }

  /** The sorted names depend only on which names there are, not on the order they come in. */
  lemma SortIgnoresOrder(a: seq<string>, b: seq<string>)
    requires multiset(a) == multiset(b)
    ensures Sort(a) == Sort(b)
  {
    SortedUnique(Sort(a), Sort(b));
  }

  // ----- the rules -----

  function CanonicalNames(cs: seq<ClassName>): (r: seq<string>)
    ensures |r| == |cs| && forall i :: 0 <= i < |cs| ==> r[i] == CanonicalName(cs[i])
  {
    seq(|cs|, i requires 0 <= i < |cs| => CanonicalName(cs[i]))
  }

  /** The canonical names of every qualifier of every property, in iteration order, duplicates kept. */
  function QualifierNames(ps: seq<QualifierAdapterProperty>): (r: seq<string>)
    ensures |ps| == 0 ==> r == []
  {
    if |ps| == 0 then [] else CanonicalNames(ps[0].qualifiers) + QualifierNames(ps[1..])
  }

  /** The adapter's canonical name: the adapter's simple name in the target's package. */
  function AdapterCanonicalName(c: ProguardConfig): string {
    CanonicalName(ClassName(c.targetClass.packageName, [c.adapterName]))
  }

  function IfClass(target: string): string {
    "-if class " + target
  }

  function ConstructorLine(params: seq<string>): string {
    "    public <init>(" + Join(params, ",") + ");"
  }

  function FieldLine(p: QualifierAdapterProperty): string {
    "    private com.squareup.moshi.JsonAdapter " + p.name + ";"
  }

  /** The field lines of the first `n` qualified properties. */
  function FieldLines(ps: seq<QualifierAdapterProperty>, n: nat): (r: seq<string>)
    requires n <= |ps|
    ensures |r| == n
  {
    if n == 0 then [] else FieldLines(ps, n - 1) + [FieldLine(ps[n - 1])]
  }

  /** The `-if`/`-keep @interface` pair of the first `n` qualifier names. */
  function QualifierRules(target: string, qs: seq<string>, n: nat): (r: seq<string>)
    requires n <= |qs|
    ensures |r| == 2 * n
  {
    if n == 0 then [] else QualifierRules(target, qs, n - 1) + [IfClass(target), "-keep @interface " + qs[n - 1]]
  }

  /** The lines before the keep block: kept class name for an external adapter. */
  function HeadLines(c: ProguardConfig): seq<string> {
    var t := CanonicalName(c.targetClass);
    if c.isExternal then [IfClass(t), "-keepnames class " + t] else []
  }

  /** The opening of the keep block: the condition, the adapter class, and its constructor when external. */
  function KeepTop(c: ProguardConfig): seq<string> {
    [IfClass(CanonicalName(c.targetClass)), "-keep class " + AdapterCanonicalName(c) + " {"]
    + (if c.isExternal then [ConstructorLine(c.adapterConstructorParams)] else [])
  }

  /** The keep block: the adapter class with its constructor (external only) and its qualified fields. */
  function KeepBlock(c: ProguardConfig): seq<string> {
    KeepTop(c) + (FieldLines(c.qualifierProperties, |c.qualifierProperties|) + ["}"])
  }

  /** The qualifier names in the order the rules list them. */
  function SortedQualifiers(c: ProguardConfig): (r: seq<string>)
    ensures Sorted(r) && multiset(r) == multiset(QualifierNames(c.qualifierProperties))
  {
    Sort(QualifierNames(c.qualifierProperties))
  }

  predicate HasKeepBlock(c: ProguardConfig) {
    c.isExternal || |c.qualifierProperties| > 0
  }

  /** The lines written for a config. */
  function Lines(c: ProguardConfig): seq<string> {
    var qs := SortedQualifiers(c);
    HeadLines(c)
    + (if HasKeepBlock(c) then KeepBlock(c) + QualifierRules(CanonicalName(c.targetClass), qs, |qs|) else [])
  }

  /** With a keep block, the lines are the opening lines, the block, then the qualifier rules. */
  lemma LinesSplit(c: ProguardConfig)
    requires HasKeepBlock(c)
    ensures Lines(c) == (HeadLines(c) + KeepBlock(c))
                        + QualifierRules(CanonicalName(c.targetClass), SortedQualifiers(c), |SortedQualifiers(c)|)
  {
  }

  /** Every line followed by a newline. */
  function Terminated(lines: seq<string>): (r: string)
    ensures |r| >= |lines|
  {
    if |lines| == 0 then "" else lines[0] + "\n" + Terminated(lines[1..])
  }

  lemma {:induction false} TerminatedAppend(a: seq<string>, b: seq<string>)
    ensures Terminated(a + b) == Terminated(a) + Terminated(b)
  {
    if |a| == 0 {
      assert a + b == b;
    } else {
      assert (a + b)[1..] == a[1..] + b;
      TerminatedAppend(a[1..], b);
    }
  }

  lemma TerminatedPair(a: string, b: string)
    ensures Terminated([a, b]) == a + "\n" + b + "\n"
  {
    assert [a, b][1..] == [b];
    assert Terminated([b]) == b + "\n" + Terminated([]);
  }

  lemma TerminatedTriple(a: string, b: string, d: string)
    ensures Terminated([a, b, d]) == a + "\n" + b + "\n" + d + "\n"
  {
    assert [a, b, d] == [a, b] + [d];
    TerminatedAppend([a, b], [d]);
    TerminatedPair(a, b);
    assert Terminated([d]) == d + "\n" + Terminated([]);
  }

  /** The text written for a config. */
  function Text(c: ProguardConfig): string {
    Terminated(Lines(c))
  }

  // ----- what the text says -----

  /** Nothing is written exactly when the adapter is not external and no property is qualified. */
  lemma TextEmptyIff(c: ProguardConfig)
    ensures Text(c) == "" <==> !c.isExternal && |c.qualifierProperties| == 0
  {
    if HasKeepBlock(c) {
      assert |Lines(c)| > 0;
    }
  }

  /** An external adapter's rules open by keeping the target class's name. */
  lemma ExternalOpening(c: ProguardConfig)
    requires c.isExternal
    ensures var t := CanonicalName(c.targetClass);
            StartsWith(Text(c), "-if class " + t + "\n" + "-keepnames class " + t + "\n")
  {
    var t := CanonicalName(c.targetClass);
    var rest := if HasKeepBlock(c) then KeepBlock(c) + QualifierRules(t, SortedQualifiers(c), |SortedQualifiers(c)|) else [];
    assert Lines(c) == [IfClass(t), "-keepnames class " + t] + rest;
    TerminatedAppend([IfClass(t), "-keepnames class " + t], rest);
    assert Terminated([IfClass(t), "-keepnames class " + t]) == IfClass(t) + "\n" + ("-keepnames class " + t + "\n");
  }

  /** A keep block for the adapter class is written exactly when the adapter is external or some property is qualified. */
  lemma KeepBlockIff(c: ProguardConfig)
    ensures ("-keep class " + AdapterCanonicalName(c) + " {" in Lines(c)) <==> HasKeepBlock(c)
  {
    if HasKeepBlock(c) {
      assert Lines(c)[|HeadLines(c)| + 1] == "-keep class " + AdapterCanonicalName(c) + " {";
    } else {
      assert Lines(c) == [];
    }
  }

  lemma {:induction false} FieldLinesAt(ps: seq<QualifierAdapterProperty>, n: nat, i: nat)
    requires n <= |ps| && i < n
    ensures FieldLines(ps, n)[i] == FieldLine(ps[i])
  {
    if i < n - 1 {
      FieldLinesAt(ps, n - 1, i);
    }
  }

  lemma {:induction false} QualifierRulesAt(target: string, qs: seq<string>, n: nat, j: nat)
    requires n <= |qs| && j < n
    ensures QualifierRules(target, qs, n)[2 * j] == IfClass(target)
    ensures QualifierRules(target, qs, n)[2 * j + 1] == "-keep @interface " + qs[j]
  {
    if j < n - 1 {
      QualifierRulesAt(target, qs, n - 1, j);
    }
  }

  /**
   * The keep block's layout: the condition and the class, then the constructor when external,
   * then one field line per qualified property in iteration order, then the closing brace.
   */
  lemma KeepBlockLayout(c: ProguardConfig)
    ensures var e := if c.isExternal then 1 else 0;
            var b := KeepBlock(c);
            var ps := c.qualifierProperties;
            |b| == 3 + e + |ps|
            && b[0] == "-if class " + CanonicalName(c.targetClass)
            && b[1] == "-keep class " + AdapterCanonicalName(c) + " {"
            && (c.isExternal ==> b[2] == ConstructorLine(c.adapterConstructorParams))
            && (forall i :: 0 <= i < |ps| ==> b[2 + e + i] == FieldLine(ps[i]))
            && b[2 + e + |ps|] == "}"
  {
    var e := if c.isExternal then 1 else 0;
    var ps := c.qualifierProperties;
    var fields := FieldLines(ps, |ps|);
    var top := KeepTop(c);
    assert |top| == 2 + e;
    forall i | 0 <= i < |ps|
      ensures KeepBlock(c)[2 + e + i] == FieldLine(ps[i])
    {
      assert KeepBlock(c)[2 + e + i] == fields[i];
      FieldLinesAt(ps, |ps|, i);
    }
  }

  /**
   * The qualifier rules close the text: one `-if class T` / `-keep @interface Q` pair per
   * qualifier name, the names in ascending order and each as often as the properties carry it.
   */
  lemma QualifierRulesLayout(c: ProguardConfig)
    requires HasKeepBlock(c)
    ensures var qs := SortedQualifiers(c);
            var start := |HeadLines(c)| + |KeepBlock(c)|;
            |Lines(c)| == start + 2 * |qs|
            && forall j :: 0 <= j < |qs| ==>
                 Lines(c)[start + 2 * j] == "-if class " + CanonicalName(c.targetClass)
                 && Lines(c)[start + 2 * j + 1] == "-keep @interface " + qs[j]
  {
    var qs := SortedQualifiers(c);
    var t := CanonicalName(c.targetClass);
    var pre := HeadLines(c) + KeepBlock(c);
    var rules := QualifierRules(t, qs, |qs|);
    var lines := Lines(c);
    LinesSplit(c);
    assert lines == pre + rules;
    forall j | 0 <= j < |qs|
      ensures lines[|pre| + 2 * j] == "-if class " + t
      ensures lines[|pre| + 2 * j + 1] == "-keep @interface " + qs[j]
    {
      QualifierRulesAt(t, qs, |qs|, j);
      assert lines[|pre| + 2 * j] == rules[2 * j];
      assert lines[|pre| + 2 * j + 1] == rules[2 * j + 1];
    }
  }

  /**
   * The qualifier rules do not depend on the order in which the sets of qualified properties and
   * of qualifiers are iterated.
   */
  lemma QualifierRulesIgnoreOrder(c: ProguardConfig, d: ProguardConfig)
    requires multiset(QualifierNames(c.qualifierProperties)) == multiset(QualifierNames(d.qualifierProperties))
    ensures SortedQualifiers(c) == SortedQualifiers(d)
  {
    SortIgnoresOrder(QualifierNames(c.qualifierProperties), QualifierNames(d.qualifierProperties));
  }

  /** The constructor's parameter types are joined by "," alone: no space enters the line between them. */
  lemma ConstructorParamsUnspaced(params: seq<string>)
    requires forall i :: 0 <= i < |params| ==> ' ' !in params[i]
    ensures ' ' !in Join(params, ",")
    ensures ConstructorLine(params) == "    public <init>(" + Join(params, ",") + ");"
  {
    JoinElements(params, ",", ' ');
  }

  // ----- writeTo(Appendable) -----

  /** The appends of the keep block: condition, class, constructor when external, the fields, the brace. */
  method WriteKeepBlock(c: ProguardConfig) returns (out: string)
    ensures out == Terminated(KeepBlock(c))
  {
    var ps := c.qualifierProperties;
    var opening := WriteKeepTop(c);
    var fields := WriteFields(ps);
    out := opening + fields;
    out := out + "}\n";
    var tailLines := FieldLines(ps, |ps|) + ["}"];
    assert Terminated(["}"]) == "}" + "\n" + Terminated([]);
    TerminatedAppend(FieldLines(ps, |ps|), ["}"]);
    TerminatedAppend(KeepTop(c), tailLines);
    assert out == opening + (fields + "}\n");
  }

  /** The appends that open the keep block. */
  method WriteKeepTop(c: ProguardConfig) returns (out: string)
    ensures out == Terminated(KeepTop(c))
  {
    var ifLine := "-if class " + CanonicalName(c.targetClass);
    var keepLine := "-keep class " + AdapterCanonicalName(c) + " {";
    out := ifLine + "\n";
    out := out + keepLine + "\n";
    if c.isExternal {
      var constructorArgs := Join(c.adapterConstructorParams, ",");
      var constructorLine := "    public <init>(" + constructorArgs + ");";
      out := out + constructorLine + "\n";
      TerminatedTriple(ifLine, keepLine, constructorLine);
    } else {
      TerminatedPair(ifLine, keepLine);
    }
  }

  /** The field appends of the keep block, one line per qualified property. */
  method WriteFields(ps: seq<QualifierAdapterProperty>) returns (out: string)
    ensures out == Terminated(FieldLines(ps, |ps|))
  {
    out := "";
    var i := 0;
    while i < |ps|
      invariant 0 <= i <= |ps|
      invariant out == Terminated(FieldLines(ps, i))
    {
      TerminatedAppend(FieldLines(ps, i), [FieldLine(ps[i])]);
      assert Terminated([FieldLine(ps[i])]) == FieldLine(ps[i]) + "\n" + Terminated([]);
      out := out + ("    private com.squareup.moshi.JsonAdapter " + ps[i].name + ";\n");
      i := i + 1;
    }
  }

  /** The appends of the qualifier rules, one pair of lines per sorted qualifier name. */
  method WriteQualifierRules(target: string, qs: seq<string>) returns (out: string)
    ensures out == Terminated(QualifierRules(target, qs, |qs|))
  {
    out := "";
    var j := 0;
    while j < |qs|
      invariant 0 <= j <= |qs|
      invariant out == Terminated(QualifierRules(target, qs, j))
    {
      TerminatedAppend(QualifierRules(target, qs, j), [IfClass(target), "-keep @interface " + qs[j]]);
      TerminatedPair(IfClass(target), "-keep @interface " + qs[j]);
      out := out + ("-if class " + target + "\n" + "-keep @interface " + qs[j] + "\n");
      j := j + 1;
    }
  }

  /**
   * writeTo(Appendable): the name-keeping lines when external, then, when the adapter is external
   * or some property is qualified, the keep block and the sorted qualifier rules.
   */
  method WriteTo(c: ProguardConfig) returns (out: string)
    ensures out == Text(c)
    ensures out == "" <==> !c.isExternal && |c.qualifierProperties| == 0
  {
    var t := CanonicalName(c.targetClass);
    out := "";
    if c.isExternal {
      out := out + "-if class " + t + "\n";
      out := out + "-keepnames class " + t + "\n";
      TerminatedPair(IfClass(t), "-keepnames class " + t);
    }
    assert out == Terminated(HeadLines(c));
    if c.isExternal || |c.qualifierProperties| > 0 {
      var block := WriteKeepBlock(c);
      var qs := SortedQualifiers(c);
      var rules := WriteQualifierRules(t, qs);
      out := out + block + rules;
      TerminatedAppend(HeadLines(c), KeepBlock(c));
      TerminatedAppend(HeadLines(c) + KeepBlock(c), QualifierRules(t, qs, |qs|));
      LinesSplit(c);
    } else {
      assert Lines(c) == [];
    }
    TextEmptyIff(c);
  }
}
