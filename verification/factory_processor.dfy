/**
 * The `@MoshiAdapterFactory` processor: it checks each annotated factory, picks the value classes
 * the factory may reach, and generates `AutoValueMoshi_<Factory>`, whose `create` hands out each
 * value class's own static JsonAdapter method. The generated `create` is modelled by what it
 * returns for a requested type.
 */
module FactoryProcessor {
  import opened Wrappers
  import opened JavaTypes
  import opened Diagnostics
  import opened Applicability
  import opened TypeHierarchy
  import opened Seqs
  import opened ElementNames

  // ----- visibility -----

  /** Declared access of an element, read from its own modifiers only (`Visibility.ofElement`). */
  datatype Visibility = Private | Default | Protected | Public

  function Width(v: Visibility): nat {
    match v
    case Private => 0
    case Default => 1
    case Protected => 2
    case Public => 3
  }

  /**
   * The narrower of two declared accesses. The filter tests the class's access and then the
   * adapter method's, each on its own; both pass exactly when the narrower of the two does.
   */
  function Narrower(a: Visibility, b: Visibility): (r: Visibility)
    ensures r == a || r == b
    ensures Width(r) <= Width(a) && Width(r) <= Width(b)
  {
    if Width(a) <= Width(b) then a else b
  }

  /** Whether code generated into another class can name the element: public, or from its own package. */
  predicate VisibleFrom(v: Visibility, samePackage: bool) {
    match v
    case Private => false
    case Default => samePackage
    case Protected => samePackage
    case Public => true
  }

  lemma NarrowerVisible(a: Visibility, b: Visibility, samePackage: bool)
    ensures VisibleFrom(Narrower(a, b), samePackage) <==> VisibleFrom(a, samePackage) && VisibleFrom(b, samePackage)
  {
  }

  // ----- value classes as the factory sees them -----

  /**
   * An AutoValue class: its declarations, where it is declared, its own declared access, and the
   * declared access of each of its methods (parallel to `valueClass.methods`).
   */
  datatype Candidate = Candidate(
    valueClass: ValueClass,
    element: Element,
    visibility: Visibility,
    methodAccess: seq<Visibility>)

  predicate Consistent(c: Candidate) {
    c.element.TypeElement?
    && |c.methodAccess| == |c.valueClass.methods|
    && forall j :: 0 <= j < |c.methodAccess| ==> (c.methodAccess[j] == Private <==> c.valueClass.methods[j].isPrivate)
  }

  function SamePackage(c: Candidate, pkg: string): bool {
    PackageNameOf(c.element) == pkg
  }

  /** The first method at or after `from` that is static, non-private and returns `JsonAdapter<self>`. */
  function FindAdapterMethod(ms: seq<MethodDecl>, self: TypeExpr, from: nat): (r: Option<nat>)
    requires from <= |ms|
    ensures r.Some? ==> from <= r.value < |ms| && ReturnsOwnAdapter(ms[r.value], self)
                        && forall k :: from <= k < r.value ==> !ReturnsOwnAdapter(ms[k], self)
    ensures r.None? ==> forall k :: from <= k < |ms| ==> !ReturnsOwnAdapter(ms[k], self)
    decreases |ms| - from
  {
    if from == |ms| then None
    else if ReturnsOwnAdapter(ms[from], self) then Some(from)
    else FindAdapterMethod(ms, self, from + 1)
  }

  /** getJsonAdapterMethod: the index of the class's adapter method; an AssertionError when there is none. */
  function GetJsonAdapterMethod(c: ValueClass): (r: Result<nat, Thrown>)
    ensures r.Success? ==> r.value < |c.methods| && ReturnsOwnAdapter(c.methods[r.value], c.selfType)
                           && forall k :: 0 <= k < r.value ==> !ReturnsOwnAdapter(c.methods[k], c.selfType)
    ensures r.Failure? <==> forall k :: 0 <= k < |c.methods| ==> !ReturnsOwnAdapter(c.methods[k], c.selfType)
    ensures r.Failure? ==> r.error == Assertion("")
  {
    match FindAdapterMethod(c.methods, c.selfType, 0)
    case None => Failure(Assertion(""))
    case Some(j) => Success(j)
  }

  predicate HasAdapterMethod(c: Candidate) {
    GetJsonAdapterMethod(c.valueClass).Success?
  }

  /**
   * The visibility filter as written: private classes and classes package-visible from elsewhere
   * are dropped; for any other class the adapter method is looked up, which throws when there is
   * none, and the method must be visible the same way.
   */
  function KeepAsWritten(c: Candidate, pkg: string): Result<bool, Thrown>
    requires Consistent(c)
  {
    var same := SamePackage(c, pkg);
    if !VisibleFrom(c.visibility, same) then Success(false)
    else
      var j :- GetJsonAdapterMethod(c.valueClass);
      Success(VisibleFrom(Narrower(c.visibility, c.methodAccess[j]), same))
  }

  /** Where the filter as written throws: a visible class without an adapter method. */
  predicate Throws(c: Candidate, pkg: string) {
    VisibleFrom(c.visibility, SamePackage(c, pkg)) && !HasAdapterMethod(c)
  }

  /**
   * The intended filter: a class stays when it and its adapter method are visible from the
   * factory's package; a class without an adapter method is skipped.
   */
  function Keep(c: Candidate, pkg: string): (r: bool)
    requires Consistent(c)
    ensures r ==> c.visibility != Private && (c.visibility == Public || SamePackage(c, pkg))
    ensures r ==> HasAdapterMethod(c)
                  && !c.valueClass.methods[GetJsonAdapterMethod(c.valueClass).value].isPrivate
  {
    var same := SamePackage(c, pkg);
    VisibleFrom(c.visibility, same)
    && HasAdapterMethod(c)
    && VisibleFrom(c.methodAccess[GetJsonAdapterMethod(c.valueClass).value], same)
  }

  /** Where the filter as written answers at all, it answers as the intended one. */
  lemma KeepAsWrittenAgrees(c: Candidate, pkg: string)
    requires Consistent(c)
    ensures KeepAsWritten(c, pkg).Failure? <==> Throws(c, pkg)
    ensures KeepAsWritten(c, pkg).Success? ==> KeepAsWritten(c, pkg).value == Keep(c, pkg)
  {
    if HasAdapterMethod(c) {
      NarrowerVisible(c.visibility, c.methodAccess[GetJsonAdapterMethod(c.valueClass).value], SamePackage(c, pkg));
    }
  }

  /** The value classes a factory in package `pkg` serves, in declaration order. */
  function Filter(cs: seq<Candidate>, pkg: string): (r: seq<Candidate>)
    requires forall c :: c in cs ==> Consistent(c)
    ensures forall c :: c in r <==> c in cs && Keep(c, pkg)
    ensures forall c :: c in r ==> HasAdapterMethod(c)
    ensures |r| <= |cs|
  {
    if |cs| == 0 then []
    else
      var init := Filter(cs[..|cs| - 1], pkg);
      assert cs == cs[..|cs| - 1] + [cs[|cs| - 1]];
      if Keep(cs[|cs| - 1], pkg) then init + [cs[|cs| - 1]] else init
  }

  /** One class is served exactly when it is kept. */
  lemma FilterSingle(c: Candidate, pkg: string)
    requires Consistent(c)
    ensures Filter([c], pkg) == if Keep(c, pkg) then [c] else []
  {
    assert [c][..0] == [];
  }

  /**
   * The filter keeps order and multiplicity: the classes of `a + b` served are those of `a`
   * served, then those of `b`.
   */
  lemma {:induction false} FilterAppend(a: seq<Candidate>, b: seq<Candidate>, pkg: string)
    requires forall c :: c in a ==> Consistent(c)
    requires forall c :: c in b ==> Consistent(c)
    ensures Filter(a + b, pkg) == Filter(a, pkg) + Filter(b, pkg)
    decreases |b|
  {
    if |b| == 0 {
      assert a + b == a;
    } else {
      var init, last := b[..|b| - 1], b[|b| - 1];
      FilterDropLast(a, b, pkg);
      FilterAppend(a, init, pkg);
      AppendAssoc(Filter(a, pkg), Filter(init, pkg), if Keep(last, pkg) then [last] else []);
    }
  }

  /** The last class of `b` contributes the same to the filter of `a + b` and of `b`. */
  lemma FilterDropLast(a: seq<Candidate>, b: seq<Candidate>, pkg: string)
    requires |b| > 0
    requires forall c :: c in a ==> Consistent(c)
    requires forall c :: c in b ==> Consistent(c)
    ensures forall c :: c in a + b[..|b| - 1] ==> Consistent(c)
    ensures forall c :: c in b[..|b| - 1] ==> Consistent(c)
    ensures var kept := if Keep(b[|b| - 1], pkg) then [b[|b| - 1]] else [];
            Filter(a + b, pkg) == Filter(a + b[..|b| - 1], pkg) + kept
            && Filter(b, pkg) == Filter(b[..|b| - 1], pkg) + kept
  {
    var n := |b| - 1;
    ConsistentSplit(a, b, n);
    AppendLast(a, b);
    FilterSnoc(a + b[..n], b[n], pkg);
    FilterSnoc(b[..n], b[n], pkg);
  }

  lemma ConsistentSplit(a: seq<Candidate>, b: seq<Candidate>, n: nat)
    requires forall c :: c in a ==> Consistent(c)
    requires forall c :: c in b ==> Consistent(c)
    requires n < |b|
    ensures forall c :: c in b[..n] ==> Consistent(c)
    ensures forall c :: c in a + b[..n] ==> Consistent(c)
    ensures Consistent(b[n])
  {
    assert forall c :: c in b[..n] ==> c in b;
  }

  /** One more class is served at the end exactly when it is kept. */
  lemma FilterSnoc(cs: seq<Candidate>, c: Candidate, pkg: string)
    requires forall d :: d in cs ==> Consistent(d)
    requires Consistent(c)
    ensures Filter(cs + [c], pkg) == Filter(cs, pkg) + if Keep(c, pkg) then [c] else []
  {
    var s := cs + [c];
    assert s[..|s| - 1] == cs;
    assert s[|s| - 1] == c;
  }

  /** The stream filter as written: it stops at the first class that throws. */
  function FilterAsWritten(cs: seq<Candidate>, pkg: string): (r: Result<seq<Candidate>, Thrown>)
    requires forall c :: c in cs ==> Consistent(c)
    ensures r.Failure? <==> exists i :: 0 <= i < |cs| && Throws(cs[i], pkg)
    ensures r.Failure? ==> r.error == Assertion("")
  {
    if |cs| == 0 then Success([])
    else
      var init := FilterAsWritten(cs[..|cs| - 1], pkg);
      var last := cs[|cs| - 1];
      KeepAsWrittenAgrees(last, pkg);
      assert forall i :: 0 <= i < |cs| - 1 ==> cs[..|cs| - 1][i] == cs[i];
      if init.Failure? then init
      else
        match KeepAsWritten(last, pkg)
        case Failure(e) => Failure(e)
        case Success(keep) => Success(if keep then init.value + [last] else init.value)
  }

  /** Where the filter as written does not throw, it keeps what the intended filter keeps. */
  lemma {:induction false} FilterAsWrittenAgrees(cs: seq<Candidate>, pkg: string)
    requires forall c :: c in cs ==> Consistent(c)
    ensures FilterAsWritten(cs, pkg).Success? ==> FilterAsWritten(cs, pkg).value == Filter(cs, pkg)
  {
    if |cs| > 0 {
      var n := |cs| - 1;
      assert forall c :: c in cs[..n] ==> c in cs;
      FilterAsWrittenAgrees(cs[..n], pkg);
      KeepAsWrittenAgrees(cs[n], pkg);
    }
  }

  // ----- the generated factory class -----

  /** A `@MoshiAdapterFactory` class: where it is declared, its modifiers and its `nullSafe` flag. */
  datatype FactoryDecl = FactoryDecl(element: Element, isAbstract: bool, isPublic: bool, nullSafe: bool)

  /** One arm of the generated `create`: `Owner.method(moshi)` (with the type arguments for a generic owner). */
  datatype Entry = Entry(owner: string, factoryMethod: string, parameterCount: nat)

  /**
   * The generated class: it lives in `factory`'s package, is final, and extends `factory` (named
   * there by `ClassNameOf(factory)`). The datatype carries no class name: as written the name is
   * `FactoryClassNameAsWritten(factory)`, which keeps the dot of a nested factory, and the
   * intended one is `FactoryClassName(factory)` (both in `ElementNames`).
   */
  datatype GeneratedFactory = GeneratedFactory(
    factory: Element,
    isPublic: bool,
    nullSafe: bool,
    generics: seq<Entry>,     // arms tried when the requested type is parameterized
    classes: seq<Entry>)      // arms tried otherwise

  /** A value class with type parameters is served by a generic arm. */
  predicate IsGeneric(c: Candidate) {
    c.valueClass.selfType.Parameterized?
  }

  /** The class an arm tests against: the raw type of a generic value class. */
  function OwnerName(c: ValueClass): string {
    if c.selfType.Parameterized? then c.selfType.raw else c.canonicalName
  }

  function EntryOf(c: Candidate): (e: Entry)
    requires HasAdapterMethod(c)
    ensures e.owner == OwnerName(c.valueClass)
  {
    var m := c.valueClass.methods[GetJsonAdapterMethod(c.valueClass).value];
    Entry(OwnerName(c.valueClass), m.name, |m.parameters|)
  }

  /** The arms for the value classes of one kind, generic or not, in order. */
  function Entries(cs: seq<Candidate>, generic: bool): (r: seq<Entry>)
    requires forall c :: c in cs ==> HasAdapterMethod(c)
    ensures |r| <= |cs|
  {
    if |cs| == 0 then []
    else
      var last := cs[|cs| - 1];
      var init := Entries(cs[..|cs| - 1], generic);
      if IsGeneric(last) == generic then init + [EntryOf(last)] else init
  }

  /** Every arm comes from a value class of its kind. */
  lemma {:induction false} EntriesFrom(cs: seq<Candidate>, generic: bool, k: nat)
    requires forall c :: c in cs ==> HasAdapterMethod(c)
    requires k < |Entries(cs, generic)|
    ensures exists i :: 0 <= i < |cs| && IsGeneric(cs[i]) == generic && EntryOf(cs[i]) == Entries(cs, generic)[k]
  {
    var n := |cs| - 1;
    var init := Entries(cs[..n], generic);
    if k < |init| {
      EntriesFrom(cs[..n], generic, k);
      var i :| 0 <= i < n && IsGeneric(cs[..n][i]) == generic && EntryOf(cs[..n][i]) == init[k];
      assert cs[..n][i] == cs[i];
    } else {
      assert Entries(cs, generic)[k] == EntryOf(cs[n]);
    }
  }

  /** Every value class of the kind has its arm. */
  lemma {:induction false} EntriesContain(cs: seq<Candidate>, generic: bool, i: nat)
    requires forall c :: c in cs ==> HasAdapterMethod(c)
    requires i < |cs| && IsGeneric(cs[i]) == generic
    ensures EntryOf(cs[i]) in Entries(cs, generic)
  {
    var n := |cs| - 1;
    assert forall c :: c in cs[..n] ==> c in cs;
    if i < n {
      assert cs[..n][i] == cs[i];
      EntriesContain(cs[..n], generic, i);
    }
  }

  lemma {:induction false} EntriesPartition(cs: seq<Candidate>)
    requires forall c :: c in cs ==> HasAdapterMethod(c)
    ensures |Entries(cs, true)| + |Entries(cs, false)| == |cs|
  {
    if |cs| > 0 {
      assert forall c :: c in cs[..|cs| - 1] ==> c in cs;
      EntriesPartition(cs[..|cs| - 1]);
    }
  }

  /**
   * createJsonAdapterFactory: `AutoValueMoshi_<name>` in the factory's package, public when the
   * factory is, extending it, with one arm per served value class.
   */
  function CreateJsonAdapterFactory(f: FactoryDecl, served: seq<Candidate>): (r: GeneratedFactory)
    requires f.element.TypeElement?
    requires forall c :: c in served ==> HasAdapterMethod(c)
    ensures r.factory == f.element && r.isPublic == f.isPublic && r.nullSafe == f.nullSafe
    ensures |r.generics| + |r.classes| == |served|
  {
    EntriesPartition(served);
    GeneratedFactory(
      f.element,
      f.isPublic,
      f.nullSafe,
      Entries(served, true),
      Entries(served, false))
  }

  // ----- the generated create method -----

  /** A java.lang.reflect.Type handed to `create`. */
  datatype ReflectType =
    | ClassRef(name: string)
    | ParameterizedRef(raw: string, args: seq<ReflectType>)
    | ArrayRef(component: ReflectType)
    | VariableRef(name: string)
    | WildcardRef(upper: ReflectType)

  /** Moshi's Types.getRawType: type variables widen to Object, wildcards to their upper bound. */
  function RawType(t: ReflectType): string {
    match t
    case ClassRef(n) => n
    case ParameterizedRef(raw, _) => raw
    case ArrayRef(c) => RawType(c) + "[]"
    case VariableRef(_) => ObjectClass
    case WildcardRef(u) => RawType(u)
  }

  /** What `create` returns: a call of a value class's adapter method, optionally wrapped in nullSafe(). */
  datatype AdapterCall = AdapterCall(arm: Entry, typeArguments: Option<seq<ReflectType>>, nullSafe: bool)

  /** The first arm at or after `from` whose class `isAssignableFrom(raw)`. */
  function FirstAssignable(arms: seq<Entry>, raw: string, assignable: (string, string) -> bool, from: nat): (r: Option<nat>)
    requires from <= |arms|
    ensures r.Some? ==> from <= r.value < |arms| && assignable(arms[r.value].owner, raw)
                        && forall k :: from <= k < r.value ==> !assignable(arms[k].owner, raw)
    ensures r.None? ==> forall k :: from <= k < |arms| ==> !assignable(arms[k].owner, raw)
    decreases |arms| - from
  {
    if from == |arms| then None
    else if assignable(arms[from].owner, raw) then Some(from)
    else FirstAssignable(arms, raw, assignable, from + 1)
  }

  /**
   * The generated `create(type, annotations, moshi)`. `assignable(a, b)` stands for
   * `a.class.isAssignableFrom(b)`. Qualified requests get nothing. A parameterized request, when
   * the factory has generic arms, is answered by the first generic arm that matches, and only
   * when that arm's method takes the type arguments; it never falls through to the other arms.
   */
  function Create(f: GeneratedFactory, t: ReflectType, annotations: seq<string>, assignable: (string, string) -> bool): (r: Option<AdapterCall>)
    ensures |annotations| > 0 ==> r.None?
    ensures r.Some? ==> r.value.nullSafe == f.nullSafe && assignable(r.value.arm.owner, RawType(t))
    ensures r.Some? && r.value.typeArguments.Some? ==>
              t.ParameterizedRef? && r.value.typeArguments.value == t.args
              && r.value.arm in f.generics && r.value.arm.parameterCount > 1
    ensures r.Some? && r.value.typeArguments.None? ==>
              r.value.arm in f.classes
    ensures r.Some? && |f.generics| > 0 && t.ParameterizedRef? ==> r.value.typeArguments.Some?
  {
    if |annotations| > 0 then None
    else
      var raw := RawType(t);
      if |f.generics| > 0 && t.ParameterizedRef? then
        match FirstAssignable(f.generics, raw, assignable, 0)
        case None => None
        case Some(i) =>
          var e := f.generics[i];
          if e.parameterCount > 1 then Some(AdapterCall(e, Some(t.args), f.nullSafe)) else None
      else
        match FirstAssignable(f.classes, raw, assignable, 0)
        case None => None
        case Some(i) => Some(AdapterCall(f.classes[i], None, f.nullSafe))
  }

  ghost predicate Reflexive(assignable: (string, string) -> bool) {
    forall n :: assignable(n, n)
  }

  /** A request for a class is answered by the first class arm that matches, whenever one does. */
  lemma ClassRequestAnswered(g: GeneratedFactory, t: ReflectType, assignable: (string, string) -> bool, k: nat)
    requires !(|g.generics| > 0 && t.ParameterizedRef?)
    requires k < |g.classes| && assignable(g.classes[k].owner, RawType(t))
    ensures var r := Create(g, t, [], assignable);
            r.Some? && r.value.typeArguments.None? && r.value.nullSafe == g.nullSafe && r.value.arm in g.classes
  {
    var first := FirstAssignable(g.classes, RawType(t), assignable, 0);
    assert first.Some?;
  }

  /** Every served class without type parameters gets an adapter when its own class is requested. */
  lemma ServedClassFound(f: FactoryDecl, served: seq<Candidate>, i: nat, assignable: (string, string) -> bool)
    requires f.element.TypeElement?
    requires forall c :: c in served ==> HasAdapterMethod(c)
    requires Reflexive(assignable)
    requires i < |served| && !IsGeneric(served[i])
    ensures var r := Create(CreateJsonAdapterFactory(f, served), ClassRef(OwnerName(served[i].valueClass)), [], assignable);
            r.Some? && r.value.typeArguments.None? && r.value.nullSafe == f.nullSafe
  {
    var g := CreateJsonAdapterFactory(f, served);
    var t := ClassRef(OwnerName(served[i].valueClass));
    EntriesContain(served, false, i);
    var k :| 0 <= k < |g.classes| && g.classes[k] == EntryOf(served[i]);
    assert assignable(g.classes[k].owner, RawType(t));
    ClassRequestAnswered(g, t, assignable, k);
  }

  /** A parameterized request is answered by a generic arm when every generic arm that matches takes the type arguments. */
  lemma GenericRequestAnswered(g: GeneratedFactory, raw: string, args: seq<ReflectType>, assignable: (string, string) -> bool, k: nat)
    requires k < |g.generics| && assignable(g.generics[k].owner, raw)
    requires forall m :: 0 <= m < |g.generics| && assignable(g.generics[m].owner, raw) ==> g.generics[m].parameterCount > 1
    ensures var r := Create(g, ParameterizedRef(raw, args), [], assignable);
            r.Some? && r.value.typeArguments == Some(args) && r.value.arm in g.generics
  {
    var first := FirstAssignable(g.generics, raw, assignable, 0);
    assert first.Some?;
  }

  /** Every generic arm is the arm of a generic value class. */
  lemma GenericArmsFromServed(served: seq<Candidate>, m: nat)
    requires forall c :: c in served ==> HasAdapterMethod(c)
    requires m < |Entries(served, true)|
    ensures exists j :: 0 <= j < |served| && IsGeneric(served[j]) && EntryOf(served[j]) == Entries(served, true)[m]
  {
  }

  /**
   * A served generic class gets an adapter for any parameterization of it, provided every generic
   * class whose arm matches has an adapter method taking the type arguments.
   */
  lemma ServedGenericFound(f: FactoryDecl, served: seq<Candidate>, i: nat, args: seq<ReflectType>, assignable: (string, string) -> bool)
    requires f.element.TypeElement?
    requires forall c :: c in served ==> HasAdapterMethod(c)
    requires Reflexive(assignable)
    requires i < |served| && IsGeneric(served[i])
    requires forall j :: 0 <= j < |served| && IsGeneric(served[j]) && assignable(OwnerName(served[j].valueClass), OwnerName(served[i].valueClass))
               ==> EntryOf(served[j]).parameterCount > 1
    ensures var r := Create(CreateJsonAdapterFactory(f, served), ParameterizedRef(OwnerName(served[i].valueClass), args), [], assignable);
            r.Some? && r.value.typeArguments == Some(args)
  {
    var g := CreateJsonAdapterFactory(f, served);
    var raw := OwnerName(served[i].valueClass);
    EntriesContain(served, true, i);
    var k :| 0 <= k < |g.generics| && g.generics[k] == EntryOf(served[i]);
    assert assignable(g.generics[k].owner, raw);
    forall m | 0 <= m < |g.generics| && assignable(g.generics[m].owner, raw)
      ensures g.generics[m].parameterCount > 1
    {
      GenericArmsFromServed(served, m);
      var j :| 0 <= j < |served| && IsGeneric(served[j]) && EntryOf(served[j]) == g.generics[m];
    }
    GenericRequestAnswered(g, raw, args, assignable, k);
  }

  // ----- one processing round -----

  const MustBeAbstract: string := "Must be abstract!"
  const MustImplementFactory: string := "Must implement JsonAdapter.Factory!"

  /** The factory is a type known to the hierarchy, which declares JsonAdapter.Factory as an interface. */
  predicate Declared(h: Hierarchy, f: FactoryDecl) {
    f.element.TypeElement? && QualifiedName(f.element) in h
    && FactoryInterface in h && h[FactoryInterface].isInterface
  }

  /** The errors reported on a factory; generation goes ahead regardless. */
  function ValidationErrors(f: FactoryDecl, h: Hierarchy, rank: map<string, nat>): seq<Diagnostic>
    requires Valid(h, rank) && Declared(h, f)
  {
    var name := QualifiedName(f.element);
    (if !f.isAbstract then [Error(MustBeAbstract, name)] else [])
    + (if !ImplementsFactory(h, rank, name, FactoryInterface) then [Error(MustImplementFactory, name)] else [])
  }

  /**
   * A factory draws no error exactly when it is abstract and JsonAdapter.Factory is among its
   * supertypes; every error names the factory, and "Must be abstract!" appears exactly for a
   * concrete one.
   */
  lemma ValidationErrorsMeaning(f: FactoryDecl, h: Hierarchy, rank: map<string, nat>)
    requires Valid(h, rank) && Declared(h, f)
    ensures ValidationErrors(f, h, rank) == [] <==> f.isAbstract && Reaches(h, QualifiedName(f.element), FactoryInterface)
    ensures forall d :: d in ValidationErrors(f, h, rank) ==> d.Error? && d.subject == QualifiedName(f.element)
    ensures (Error(MustBeAbstract, QualifiedName(f.element)) in ValidationErrors(f, h, rank)) <==> !f.isAbstract
  {
    ImplementsFactoryIffReaches(h, rank, QualifiedName(f.element), FactoryInterface);
  }

  datatype RoundOutcome = RoundOutcome(diagnostics: seq<Diagnostic>, files: seq<GeneratedFactory>, thrown: Option<Thrown>)

  /** The AutoValue classes the extension applies to, in order. */
  function ApplicableClasses(cs: seq<Candidate>): (r: seq<Candidate>)
    ensures forall c :: c in r <==> c in cs && IsApplicable(c.valueClass)
  {
    if |cs| == 0 then []
    else
      var init := ApplicableClasses(cs[..|cs| - 1]);
      assert cs == cs[..|cs| - 1] + [cs[|cs| - 1]];
      if IsApplicable(cs[|cs| - 1].valueClass) then init + [cs[|cs| - 1]] else init
  }

  /**
   * The warnings `applicable` prints while the round picks its AutoValue classes: each class's
   * skip warning, in order.
   */
  function ApplicabilityWarnings(cs: seq<Candidate>): (r: seq<Diagnostic>)
    ensures |r| <= |cs|
  {
    if |cs| == 0 then [] else SkipWarnings(cs[0].valueClass) + ApplicabilityWarnings(cs[1..])
  }

  /** The warnings of two lists of classes are the two lists' warnings, in order. */
  lemma {:induction false} ApplicabilityWarningsAppend(a: seq<Candidate>, b: seq<Candidate>)
    ensures ApplicabilityWarnings(a + b) == ApplicabilityWarnings(a) + ApplicabilityWarnings(b)
  {
    if |a| == 0 {
      assert a + b == b;
    } else {
      assert (a + b)[0] == a[0];
      assert (a + b)[1..] == a[1..] + b;
      ApplicabilityWarningsAppend(a[1..], b);
    }
  }

  /** The warnings are exactly the classes' skip warnings: none is invented and none is lost. */
  lemma {:induction false} ApplicabilityWarningsMembers(cs: seq<Candidate>)
    ensures forall d :: d in ApplicabilityWarnings(cs) <==> exists c :: c in cs && d in SkipWarnings(c.valueClass)
  {
    if |cs| > 0 {
      var c, rest := cs[0], cs[1..];
      ApplicabilityWarningsMembers(rest);
      assert ApplicabilityWarnings(cs) == SkipWarnings(c.valueClass) + ApplicabilityWarnings(rest);
      forall d | d in ApplicabilityWarnings(cs)
        ensures exists e :: e in cs && d in SkipWarnings(e.valueClass)
      {
        if d !in SkipWarnings(c.valueClass) {
          var e :| e in rest && d in SkipWarnings(e.valueClass);
          assert e in cs;
        }
      }
      forall e, d | e in cs && d in SkipWarnings(e.valueClass)
        ensures d in ApplicabilityWarnings(cs)
      {
        if e != c {
          assert e in rest;
        }
      }
    }
  }

  predicate Factories(fs: seq<FactoryDecl>) {
    forall i :: 0 <= i < |fs| ==> fs[i].element.TypeElement?
  }

  predicate Elements(cs: seq<Candidate>) {
    forall c :: c in cs ==> Consistent(c)
  }

  predicate RoundInputs(h: Hierarchy, rank: map<string, nat>, fs: seq<FactoryDecl>, cs: seq<Candidate>) {
    Valid(h, rank) && (forall i :: 0 <= i < |fs| ==> Declared(h, fs[i])) && Elements(cs)
  }

  /** The errors reported on the factories, in order. */
  function Errors(fs: seq<FactoryDecl>, h: Hierarchy, rank: map<string, nat>): seq<Diagnostic>
    requires Valid(h, rank) && forall i :: 0 <= i < |fs| ==> Declared(h, fs[i])
  {
    Flatten(ErrorLists(fs, h, rank))
  }

  function ErrorLists(fs: seq<FactoryDecl>, h: Hierarchy, rank: map<string, nat>): (r: seq<seq<Diagnostic>>)
    requires Valid(h, rank) && forall i :: 0 <= i < |fs| ==> Declared(h, fs[i])
    ensures |r| == |fs| && forall i :: 0 <= i < |fs| ==> r[i] == ValidationErrors(fs[i], h, rank)
  {
    seq(|fs|, i requires 0 <= i < |fs| => ValidationErrors(fs[i], h, rank))
  }

  /** The round reports nothing exactly when no factory draws an error. */
  lemma ErrorsEmpty(fs: seq<FactoryDecl>, h: Hierarchy, rank: map<string, nat>)
    requires Valid(h, rank) && forall i :: 0 <= i < |fs| ==> Declared(h, fs[i])
    ensures Errors(fs, h, rank) == [] <==> forall i :: 0 <= i < |fs| ==> ValidationErrors(fs[i], h, rank) == []
  {
    FlattenEmpty(ErrorLists(fs, h, rank));
  }

  /** One generated class per factory, each serving what the intended filter keeps for its package. */
  function GeneratedFiles(fs: seq<FactoryDecl>, elements: seq<Candidate>): (r: seq<GeneratedFactory>)
    requires Factories(fs) && Elements(elements)
    ensures |r| == |fs|
    ensures forall i :: 0 <= i < |fs| ==> r[i] == CreateJsonAdapterFactory(fs[i], Filter(elements, PackageNameOf(fs[i].element)))
  {
    seq(|fs|, i requires 0 <= i < |fs| => CreateJsonAdapterFactory(fs[i], Filter(elements, PackageNameOf(fs[i].element))))
  }

  /** Generation as written: the classes written before a filter throws, the throw, and how many factories were reached. */
  datatype FilesOutcome = FilesOutcome(files: seq<GeneratedFactory>, thrown: Option<Thrown>, reached: nat)

  predicate Servable(served: seq<Candidate>) {
    forall c :: c in served ==> HasAdapterMethod(c)
  }

  /** The filter as written, run for each factory's package. */
  function FilterResults(fs: seq<FactoryDecl>, elements: seq<Candidate>): (r: seq<Result<seq<Candidate>, Thrown>>)
    requires Elements(elements)
    ensures |r| == |fs|
    ensures forall i :: 0 <= i < |fs| ==> r[i] == FilterAsWritten(elements, PackageNameOf(fs[i].element))
    ensures forall i :: 0 <= i < |fs| && r[i].Success? ==> Servable(r[i].value)
  {
    if |fs| == 0 then []
    else
      var n := |fs| - 1;
      FilterAsWrittenAgrees(elements, PackageNameOf(fs[n].element));
      FilterResults(fs[..n], elements) + [FilterAsWritten(elements, PackageNameOf(fs[n].element))]
  }

  /** The factory loop as written, given each factory's filter result: the first throw ends it. */
  function Assemble(fs: seq<FactoryDecl>, results: seq<Result<seq<Candidate>, Thrown>>): (r: FilesOutcome)
    requires Factories(fs) && |results| == |fs|
    requires forall i :: 0 <= i < |fs| && results[i].Success? ==> Servable(results[i].value)
    ensures r.reached <= |fs|
  {
    if |fs| == 0 then FilesOutcome([], None, 0)
    else
      var n := |fs| - 1;
      var init := Assemble(fs[..n], results[..n]);
      if init.thrown.Some? then init
      else
        assert results[n].Success? ==> Servable(results[n].value);
        match results[n]
        case Failure(e) => FilesOutcome(init.files, Some(e), |fs|)
        case Success(served) => FilesOutcome(init.files + [CreateJsonAdapterFactory(fs[n], served)], None, |fs|)
  }

  /** The loop is aborted exactly when some factory's filter throws. */
  lemma {:induction false} AssembleThrows(fs: seq<FactoryDecl>, results: seq<Result<seq<Candidate>, Thrown>>)
    requires Factories(fs) && |results| == |fs|
    requires forall i :: 0 <= i < |fs| && results[i].Success? ==> Servable(results[i].value)
    ensures Assemble(fs, results).thrown.Some? <==> exists i :: 0 <= i < |fs| && results[i].Failure?
  {
    if |fs| > 0 {
      var n := |fs| - 1;
      assert forall i :: 0 <= i < n ==> results[..n][i] == results[i];
      AssembleThrows(fs[..n], results[..n]);
    }
  }

  function GeneratedFilesAsWritten(fs: seq<FactoryDecl>, elements: seq<Candidate>): FilesOutcome
    requires Factories(fs) && Elements(elements)
  {
    Assemble(fs, FilterResults(fs, elements))
  }

  /** When no filter throws, the loop writes one class per factory, serving what its filter returned. */
  lemma {:induction false} AssembleAllServed(fs: seq<FactoryDecl>, results: seq<Result<seq<Candidate>, Thrown>>)
    requires Factories(fs) && |results| == |fs|
    requires forall i :: 0 <= i < |fs| ==> results[i].Success? && Servable(results[i].value)
    ensures var r := Assemble(fs, results);
            r.thrown.None? && r.reached == |fs| && |r.files| == |fs|
            && forall i :: 0 <= i < |fs| ==> r.files[i] == CreateJsonAdapterFactory(fs[i], results[i].value)
  {
    if |fs| > 0 {
      var n := |fs| - 1;
      var fsn, rn := fs[..n], results[..n];
      assert forall i :: 0 <= i < n ==> fsn[i] == fs[i] && rn[i] == results[i];
      AssembleAllServed(fsn, rn);
      var init := Assemble(fsn, rn).files;
      assert Assemble(fs, results).files == init + [CreateJsonAdapterFactory(fs[n], results[n].value)];
    }
  }

  /** As written, generation that is not aborted writes the intended classes for every factory. */
  lemma AssembleAgrees(fs: seq<FactoryDecl>, elements: seq<Candidate>, results: seq<Result<seq<Candidate>, Thrown>>)
    requires Factories(fs) && Elements(elements) && |results| == |fs|
    requires forall i :: 0 <= i < |fs| ==> results[i] == FilterAsWritten(elements, PackageNameOf(fs[i].element))
    requires forall i :: 0 <= i < |fs| && results[i].Success? ==> Servable(results[i].value)
    ensures var r := Assemble(fs, results);
            r.thrown.None? ==> r.files == GeneratedFiles(fs, elements) && r.reached == |fs|
  {
    AssembleThrows(fs, results);
    if Assemble(fs, results).thrown.None? {
      forall i | 0 <= i < |fs|
        ensures results[i] == Success(Filter(elements, PackageNameOf(fs[i].element)))
      {
        FilterAsWrittenAgrees(elements, PackageNameOf(fs[i].element));
      }
      AssembleAllServed(fs, results);
    }
  }

  /** Whether the filter as written throws for a factory declared in package `pkg`. */
  predicate FilterThrows(elements: seq<Candidate>, pkg: string)
    requires Elements(elements)
  {
    FilterAsWritten(elements, pkg).Failure?
  }

  /**
   * process: picking the applicable AutoValue classes prints their skip warnings; beyond that,
   * nothing happens in a round without applicable classes, not even the checks on the factories;
   * otherwise each factory is checked and gets its generated class.
   */
  function ProcessRound(cs: seq<Candidate>, fs: seq<FactoryDecl>, h: Hierarchy, rank: map<string, nat>): (r: RoundOutcome)
    requires RoundInputs(h, rank, fs, cs)
    ensures (forall c :: c in cs ==> !IsApplicable(c.valueClass)) ==> r == RoundOutcome(ApplicabilityWarnings(cs), [], None)
    ensures (exists c :: c in cs && IsApplicable(c.valueClass)) ==>
              r.thrown.None? && r.diagnostics == ApplicabilityWarnings(cs) + Errors(fs, h, rank) && |r.files| == |fs|
              && forall i :: 0 <= i < |fs| ==>
                   r.files[i] == CreateJsonAdapterFactory(fs[i], Filter(ApplicableClasses(cs), PackageNameOf(fs[i].element)))
  {
    var warnings := ApplicabilityWarnings(cs);
    var elements := ApplicableClasses(cs);
    if |elements| == 0 then RoundOutcome(warnings, [], None)
    else RoundOutcome(warnings + Errors(fs, h, rank), GeneratedFiles(fs, elements), None)
  }

  /**
   * A round whose only AutoValue class declares `static JsonAdapter<Other> adapter()` generates
   * nothing, checks no factory, and prints the one warning naming `Other`.
   */
  lemma WrongAdapterRoundWarns(fs: seq<FactoryDecl>, h: Hierarchy, rank: map<string, nat>)
    requires RoundInputs(h, rank, fs, [WrongAdapterClass()])
    ensures ProcessRound([WrongAdapterClass()], fs, h, rank)
            == RoundOutcome([Warning(WrongAdapterWarning(ClassType("test.Other"), WrongAdapterClass().valueClass), "test.Foo")], [], None)
  {
    var c := WrongAdapterClass().valueClass;
    assert ReturnsSomeAdapter(c.methods[0]) && !ReturnsOwnAdapter(c.methods[0], c.selfType);
    assert !IsApplicable(c);
    assert LastAdapterReturn(c.methods) == Some(AdapterOf(ClassType("test.Other")));
    assert [WrongAdapterClass()][..0] == [];
  }

  /** `class test.Foo` declaring `static JsonAdapter<test.Other> adapter()`. */
  function WrongAdapterClass(): Candidate {
    Candidate(
      ValueClass("test.Foo", ClassType("test.Foo"), None,
                 [MethodDecl("adapter", true, false, AdapterOf(ClassType("test.Other")), [])]),
      TypeElement("Foo", Package("test")),
      Public,
      [Public])
  }

  /**
   * One factory's errors as written, `None` while the supertype search has not returned within
   * `fuel` steps (the search as written can loop for ever on a valid hierarchy).
   */
  function ValidationErrorsAsWritten(f: FactoryDecl, h: Hierarchy, fuel: nat): Option<seq<Diagnostic>>
    requires WellFormed(h) && Declared(h, f)
  {
    var name := QualifiedName(f.element);
    match ImplementsAsWritten(h, name, FactoryInterface, fuel)
    case None => None
    case Some(implements) =>
      Some((if !f.isAbstract then [Error(MustBeAbstract, name)] else [])
           + (if !implements then [Error(MustImplementFactory, name)] else []))
  }

  /** Whenever the search as written returns, the factory draws exactly the intended errors. */
  lemma ValidationErrorsAsWrittenAgrees(f: FactoryDecl, h: Hierarchy, rank: map<string, nat>, fuel: nat)
    requires Valid(h, rank) && Declared(h, f)
    ensures ValidationErrorsAsWritten(f, h, fuel).Some? ==> ValidationErrorsAsWritten(f, h, fuel).value == ValidationErrors(f, h, rank)
  {
    ImplementsAsWrittenSound(h, rank, QualifiedName(f.element), FactoryInterface, fuel);
  }

  /** The errors of the factories in order, `None` when the search has not returned for one of them. */
  function ErrorsAsWritten(fs: seq<FactoryDecl>, h: Hierarchy, fuel: nat): (r: Option<seq<Diagnostic>>)
    requires WellFormed(h) && forall i :: 0 <= i < |fs| ==> Declared(h, fs[i])
    ensures r.None? <==> exists i :: 0 <= i < |fs| && ValidationErrorsAsWritten(fs[i], h, fuel).None?
  {
    if |fs| == 0 then Some([])
    else
      assert forall i :: 1 <= i < |fs| ==> fs[1..][i - 1] == fs[i];
      match ValidationErrorsAsWritten(fs[0], h, fuel)
      case None => None
      case Some(first) =>
        match ErrorsAsWritten(fs[1..], h, fuel)
        case None => None
        case Some(rest) => Some(first + rest)
  }

  /** Whenever every search as written returns, the factories draw exactly the intended errors. */
  lemma {:induction false} ErrorsAsWrittenAgrees(fs: seq<FactoryDecl>, h: Hierarchy, rank: map<string, nat>, fuel: nat)
    requires Valid(h, rank) && forall i :: 0 <= i < |fs| ==> Declared(h, fs[i])
    ensures ErrorsAsWritten(fs, h, fuel).Some? ==> ErrorsAsWritten(fs, h, fuel).value == Errors(fs, h, rank)
  {
    if |fs| > 0 {
      ValidationErrorsAsWrittenAgrees(fs[0], h, rank, fuel);
      ErrorsAsWrittenAgrees(fs[1..], h, rank, fuel);
      assert ErrorLists(fs, h, rank)[1..] == ErrorLists(fs[1..], h, rank);
    }
  }

  /**
   * process as written, each supertype search run for at most `fuel` steps: `None` while the
   * round has not finished; otherwise the skip warnings, the errors of the factories reached, then the files
   * written before any throw. Each factory is checked before its filter runs.
   */
  function ProcessRoundAsWritten(cs: seq<Candidate>, fs: seq<FactoryDecl>, h: Hierarchy, rank: map<string, nat>, fuel: nat): Option<RoundOutcome>
    requires RoundInputs(h, rank, fs, cs)
  {
    var warnings := ApplicabilityWarnings(cs);
    var elements := ApplicableClasses(cs);
    if |elements| == 0 then Some(RoundOutcome(warnings, [], None))
    else
      var o := GeneratedFilesAsWritten(fs, elements);
      match ErrorsAsWritten(fs[..o.reached], h, fuel)
      case None => None
      case Some(errors) => Some(RoundOutcome(warnings + errors, o.files, o.thrown))
  }

  /**
   * A round as written that finishes without a throw is the intended round, and one that
   * finishes throws exactly when some factory's filter as written throws.
   */
  lemma ProcessRoundAsWrittenAgrees(cs: seq<Candidate>, fs: seq<FactoryDecl>, h: Hierarchy, rank: map<string, nat>, fuel: nat)
    requires RoundInputs(h, rank, fs, cs)
    ensures var r := ProcessRoundAsWritten(cs, fs, h, rank, fuel);
            r.Some? && r.value.thrown.None? ==> r.value == ProcessRound(cs, fs, h, rank)
    ensures var r := ProcessRoundAsWritten(cs, fs, h, rank, fuel);
            r.Some? ==> (r.value.thrown.Some? <==>
              |ApplicableClasses(cs)| > 0 && exists i :: 0 <= i < |fs| && FilterThrows(ApplicableClasses(cs), PackageNameOf(fs[i].element)))
  {
    var elements := ApplicableClasses(cs);
    if |elements| > 0 {
      AssembledThrowsIff(fs, elements);
      AssembledUnthrownAgrees(cs, fs, h, rank, fuel);
    }
  }

  /** The loop as written throws exactly when some factory's filter does. */
  lemma AssembledThrowsIff(fs: seq<FactoryDecl>, elements: seq<Candidate>)
    requires Factories(fs) && Elements(elements)
    ensures GeneratedFilesAsWritten(fs, elements).thrown.Some? <==>
              exists i :: 0 <= i < |fs| && FilterThrows(elements, PackageNameOf(fs[i].element))
  {
    var results := FilterResults(fs, elements);
    AssembleThrows(fs, results);
    assert forall i :: 0 <= i < |fs| ==> (results[i].Failure? <==> FilterThrows(elements, PackageNameOf(fs[i].element)));
  }

  /** A round as written whose loop does not throw reaches every factory and is the intended round. */
  lemma AssembledUnthrownAgrees(cs: seq<Candidate>, fs: seq<FactoryDecl>, h: Hierarchy, rank: map<string, nat>, fuel: nat)
    requires RoundInputs(h, rank, fs, cs) && |ApplicableClasses(cs)| > 0
    ensures var r := ProcessRoundAsWritten(cs, fs, h, rank, fuel);
            r.Some? && r.value.thrown.None? ==> r.value == ProcessRound(cs, fs, h, rank)
  {
    var elements := ApplicableClasses(cs);
    var results := FilterResults(fs, elements);
    AssembleAgrees(fs, elements, results);
    var o := Assemble(fs, results);
    if o.thrown.None? {
      assert fs[..o.reached] == fs;
      ErrorsAsWrittenAgrees(fs, h, rank, fuel);
      assert ProcessRound(cs, fs, h, rank) == RoundOutcome(ApplicabilityWarnings(cs) + Errors(fs, h, rank), GeneratedFiles(fs, elements), None);
    }
  }

  /**
   * A round as written finishes whenever every factory's search returns, and one that does not
   * finish has applicable classes and a factory whose search has not returned.
   */
  lemma ProcessRoundAsWrittenFinishes(cs: seq<Candidate>, fs: seq<FactoryDecl>, h: Hierarchy, rank: map<string, nat>, fuel: nat)
    requires RoundInputs(h, rank, fs, cs)
    ensures (forall i :: 0 <= i < |fs| ==> ValidationErrorsAsWritten(fs[i], h, fuel).Some?) ==>
              ProcessRoundAsWritten(cs, fs, h, rank, fuel).Some?
    ensures ProcessRoundAsWritten(cs, fs, h, rank, fuel).None? ==>
              |ApplicableClasses(cs)| > 0 && exists i :: 0 <= i < |fs| && ValidationErrorsAsWritten(fs[i], h, fuel).None?
  {
    var elements := ApplicableClasses(cs);
    if |elements| > 0 {
      var o := GeneratedFilesAsWritten(fs, elements);
      var reached := fs[..o.reached];
      assert forall i :: 0 <= i < |reached| ==> reached[i] == fs[i];
    }
  }
}

/**
 * The functional tests' round: the public factory `FunctionalTestsAdapterFactory` shares its
 * package with `GenericNativeMoshiClass`, a value class that asks Moshi's code generation for its
 * adapter (`@JsonClass(generateAdapter = true, generator = "avm")`) and so declares no static
 * adapter method.
 */
module NativeClassRound {
  import opened Wrappers
  import opened JavaTypes
  import opened Diagnostics
  import opened Applicability
  import opened TypeHierarchy
  import opened ElementNames
  import opened FactoryProcessor

  const NativeName: string := TestsPackage + ".GenericNativeMoshiClass"
  const TestsFactoryName: string := TestsPackage + ".FunctionalTestsAdapterFactory"

  function NativeClass(): Candidate {
    Candidate(
      ValueClass(NativeName, Parameterized(NativeName, [TypeVar("T")]), Some(JsonClassAnnotation(true, MoshiGeneratorKey)), []),
      TypeElement("GenericNativeMoshiClass", Package(TestsPackage)),
      Public,
      [])
  }

  function TestsFactory(): FactoryDecl {
    FactoryDecl(TypeElement("FunctionalTestsAdapterFactory", Package(TestsPackage)), true, true, false)
  }

  function TestsHierarchy(): Hierarchy {
    map[
      ObjectClass := TypeDecl(false, None, []),
      FactoryInterface := TypeDecl(true, None, []),
      TestsFactoryName := TypeDecl(false, Some(ObjectClass), [FactoryInterface])
    ]
  }

  function TestsRank(): map<string, nat> {
    map[ObjectClass := 0, FactoryInterface := 0, TestsFactoryName := 1]
  }

  lemma TestsHierarchyValid()
    ensures Valid(TestsHierarchy(), TestsRank())
  {
    var h, rank := TestsHierarchy(), TestsRank();
    assert h.Keys == rank.Keys == {ObjectClass, FactoryInterface, TestsFactoryName};
    assert WellFormed(h) by {
      forall t | t in h
        ensures h[t].superclass.Some? ==> h[t].superclass.value in h && !h[h[t].superclass.value].isInterface
        ensures h[t].isInterface ==> h[t].superclass.None?
        ensures forall i :: i in h[t].interfaces ==> i in h && h[i].isInterface
      {
      }
    }
    assert Ranked(h, rank) by {
      forall t | t in h
        ensures t in rank
        ensures h[t].superclass.Some? && h[t].superclass.value in rank ==> rank[h[t].superclass.value] < rank[t]
        ensures forall i :: i in h[t].interfaces && i in rank ==> rank[i] < rank[t]
      {
      }
    }
  }

  lemma TestsRoundInputs()
    ensures RoundInputs(TestsHierarchy(), TestsRank(), [TestsFactory()], [NativeClass()])
  {
    TestsHierarchyValid();
    TestsFactoryQualifiedName();
  }

  lemma TestsFactoryQualifiedName()
    ensures QualifiedName(TestsFactory().element) == TestsFactoryName
  {
    assert |TestsPackage| > 0;
    assert QualifiedName(TestsFactory().element) == TestsPackage + "." + "FunctionalTestsAdapterFactory";
  }

  lemma NativeClassApplicable()
    ensures ApplicableClasses([NativeClass()]) == [NativeClass()]
  {
    assert IsApplicable(NativeClass().valueClass);
  }

  /** The filter as written throws on the value class; the intended one drops it. */
  lemma NativeClassFiltered()
    ensures FilterAsWritten([NativeClass()], TestsPackage).Failure?
    ensures Filter([NativeClass()], TestsPackage) == []
  {
    var c := NativeClass();
    assert PackageNameOf(c.element) == TestsPackage;
    assert Throws(c, TestsPackage);
    assert !Keep(c, TestsPackage);
  }

  /** The factory is abstract and implements JsonAdapter.Factory, so it draws no error. */
  lemma TestsFactoryAccepted()
    ensures Valid(TestsHierarchy(), TestsRank()) && Declared(TestsHierarchy(), TestsFactory())
    ensures ValidationErrors(TestsFactory(), TestsHierarchy(), TestsRank()) == []
  {
    TestsRoundInputs();
    TestsFactoryImplements();
    TestsFactoryQualifiedName();
    var name := QualifiedName(TestsFactory().element);
    assert ImplementsFactory(TestsHierarchy(), TestsRank(), name, FactoryInterface);
  }

  lemma TestsFactoryImplements()
    ensures Valid(TestsHierarchy(), TestsRank())
    ensures ImplementsFactory(TestsHierarchy(), TestsRank(), TestsFactoryName, FactoryInterface)
  {
    TestsHierarchyValid();
    assert TestsHierarchy()[TestsFactoryName].interfaces[0] == FactoryInterface;
  }

  /** Given two steps, the search as written finds JsonAdapter.Factory among the factory's own interfaces. */
  lemma TestsSearchReturns(fuel: nat)
    requires fuel >= 2
    ensures WellFormed(TestsHierarchy()) && TestsFactoryName in TestsHierarchy()
    ensures ImplementsAsWritten(TestsHierarchy(), TestsFactoryName, FactoryInterface, fuel) == Some(true)
  {
    TestsHierarchyValid();
    var h := TestsHierarchy();
    assert h[TestsFactoryName].interfaces[0] == FactoryInterface;
    assert InnerLoopAsWritten(h, TestsFactoryName, Some(FactoryInterface), FactoryInterface, fuel - 1) == Some(true);
    assert EachInterfaceAsWritten(h, TestsFactoryName, h[TestsFactoryName].interfaces, FactoryInterface, fuel - 1) == Some(true);
    assert SearchAsWritten(h, TestsFactoryName, FactoryInterface, fuel) == Some(true);
  }

  /**
   * As written, once the factory's check has returned, the round throws an AssertionError before
   * any factory class is written, and reports no error.
   */
  lemma NativeClassAbortsAsWritten(fuel: nat)
    requires fuel >= 2
    ensures RoundInputs(TestsHierarchy(), TestsRank(), [TestsFactory()], [NativeClass()])
    ensures ProcessRoundAsWritten([NativeClass()], [TestsFactory()], TestsHierarchy(), TestsRank(), fuel)
            == Some(RoundOutcome([], [], Some(Assertion(""))))
  {
    TestsRoundInputs();
    NativeClassApplicable();
    NativeClassFiltered();
    TestsFactoryQualifiedName();
    TestsSearchReturns(fuel);
    assert PackageNameOf(TestsFactory().element) == TestsPackage;
    var fs := [TestsFactory()];
    assert fs[..1] == fs;
    assert ImplementsAsWritten(TestsHierarchy(), QualifiedName(TestsFactory().element), FactoryInterface, fuel) == Some(true);
    var v := ValidationErrorsAsWritten(TestsFactory(), TestsHierarchy(), fuel);
    assert v.Some?;
    assert v.value == [];
    assert ErrorsAsWritten(fs[1..], TestsHierarchy(), fuel) == Some([]);
  }

  /** With the intended filter the value class is skipped and the factory is generated without arms or errors. */
  lemma NativeClassSkippedCorrected()
    ensures RoundInputs(TestsHierarchy(), TestsRank(), [TestsFactory()], [NativeClass()])
    ensures ProcessRound([NativeClass()], [TestsFactory()], TestsHierarchy(), TestsRank())
            == RoundOutcome([], [GeneratedFactory(TestsFactory().element, true, false, [], [])], None)
  {
    TestsRoundServesNothing();
    var g := CreateJsonAdapterFactory(TestsFactory(), []);
    assert g.generics == [] && g.classes == [];
  }

  lemma TestsRoundServesNothing()
    ensures RoundInputs(TestsHierarchy(), TestsRank(), [TestsFactory()], [NativeClass()])
    ensures var r := ProcessRound([NativeClass()], [TestsFactory()], TestsHierarchy(), TestsRank());
            r.thrown.None? && r.diagnostics == [] && r.files == [CreateJsonAdapterFactory(TestsFactory(), [])]
  {
    TestsRoundInputs();
    NativeClassApplicable();
    NativeClassFiltered();
    TestsFactoryAccepted();
    assert PackageNameOf(TestsFactory().element) == TestsPackage;
    assert [TestsFactory()][..0] == [];
  }
}

/**
 * A round whose factory `class MyFactory implements Marker, JsonAdapter.Factory` sits in the
 * unnamed package: as written its check never returns, so the round never finishes, while the
 * intended round accepts the factory.
 */
module StuckRound {
  import opened Wrappers
  import opened TypeHierarchy
  import opened ElementNames
  import opened FactoryProcessor
  import opened StuckSearch
  import opened NativeClassRound

  function StuckFactory(): FactoryDecl {
    FactoryDecl(TypeElement("MyFactory", Package("")), true, true, false)
  }

  lemma StuckRoundInputs()
    ensures RoundInputs(Example(), ExampleRank(), [StuckFactory()], [NativeClass()])
  {
    ExampleValid();
    assert QualifiedName(StuckFactory().element) == "MyFactory";
  }

  /** As written, no number of steps lets the round finish. */
  lemma StuckRoundNeverFinishes(fuel: nat)
    ensures RoundInputs(Example(), ExampleRank(), [StuckFactory()], [NativeClass()])
    ensures ProcessRoundAsWritten([NativeClass()], [StuckFactory()], Example(), ExampleRank(), fuel) == None
  {
    StuckRoundInputs();
    NativeClassApplicable();
    SearchNeverReturnsAsWritten(fuel);
    assert QualifiedName(StuckFactory().element) == "MyFactory";
    assert ValidationErrorsAsWritten(StuckFactory(), Example(), fuel) == None;
    var o := GeneratedFilesAsWritten([StuckFactory()], [NativeClass()]);
    assert o.reached == 1;
    assert [StuckFactory()][..1] == [StuckFactory()];
  }

  /** The intended round draws no error for the same factory. */
  lemma StuckFactoryAcceptedCorrected()
    ensures RoundInputs(Example(), ExampleRank(), [StuckFactory()], [NativeClass()])
    ensures ProcessRound([NativeClass()], [StuckFactory()], Example(), ExampleRank()).diagnostics == []
  {
    StuckRoundInputs();
    NativeClassApplicable();
    SearchAcceptsCorrected();
    assert QualifiedName(StuckFactory().element) == "MyFactory";
    assert ValidationErrors(StuckFactory(), Example(), ExampleRank()) == [];
    ErrorsEmpty([StuckFactory()], Example(), ExampleRank());
  }
}
