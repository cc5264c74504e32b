/**
 * The legacy `@MoshiAdapterFactory` processor: in a round with AutoValue classes it checks each
 * annotated factory, reporting errors without stopping, and generates `AutoValueMoshi_<Factory>`,
 * whose `create` compares the requested type against every AutoValue class of the round. Value
 * classes with type parameters are compared by raw type inside an `instanceof ParameterizedType`
 * block; the others by equality with their class literal, in an `if`/`else if` chain.
 *
 * The generated `create` is modelled as a small structured program (`CreateBody`) and given a
 * meaning by `Run`, which answers what the method returns for a requested type.
 */
module LegacyFactoryProcessor {
  import opened Wrappers
  import opened JavaTypes
  import opened Diagnostics
  import opened ElementNames
  import opened TypeHierarchy
  import opened Seqs
  import FactoryProcessor

  type ReflectType = FactoryProcessor.ReflectType
  type FactoryDecl = FactoryProcessor.FactoryDecl

  // ----- value classes and their adapter methods -----

  /** A method of a value class, as the adapter-method lookup sees it. */
  datatype LegacyMethod = LegacyMethod(name: string, isStatic: bool, isPublic: bool, returnType: TypeExpr, parameterCount: nat)

  /** An AutoValue class: its declaration, its type variables and its methods in declaration order. */
  datatype ValueElement = ValueElement(element: Element, typeVariables: seq<string>, methods: seq<LegacyMethod>)

  /** A class with type variables is named by a parameterized type name, and compared by raw type. */
  predicate IsGeneric(e: ValueElement) {
    |e.typeVariables| > 0
  }

  /** `TypeName.get(element.asType())`: the class, applied to its own type variables when it has any. */
  function SelfType(e: ValueElement): (r: TypeExpr)
    ensures r.Parameterized? <==> IsGeneric(e)
  {
    if |e.typeVariables| == 0 then ClassType(QualifiedName(e.element))
    else Parameterized(QualifiedName(e.element), seq(|e.typeVariables|, i requires 0 <= i < |e.typeVariables| => TypeVar(e.typeVariables[i])))
  }

  /** The lookup's test as written: public, static, and returning `JsonAdapter<Self>` or any parameterized type. */
  predicate PickedAsWritten(m: LegacyMethod, self: TypeExpr) {
    m.isStatic && m.isPublic && (m.returnType == AdapterOf(self) || m.returnType.Parameterized?)
  }

  /** The intended test: public, static, and returning a parameterized JsonAdapter. */
  predicate ReturnsAdapter(m: LegacyMethod) {
    m.isStatic && m.isPublic && m.returnType.Parameterized? && m.returnType.raw == JsonAdapterClass
  }

  /**
   * getJsonAdapterMethod as written (None stands for null). `JsonAdapter<Self>` is itself a
   * parameterized type, so the test reduces to "public, static, with a parameterized return
   * type": the first such method is picked, whatever type it returns.
   */
  function AdapterMethodAsWritten(e: ValueElement): (r: Option<nat>)
    ensures r.Some? ==> r.value < |e.methods| && e.methods[r.value].isStatic && e.methods[r.value].isPublic
                        && e.methods[r.value].returnType.Parameterized?
    ensures r.Some? ==> forall k :: 0 <= k < r.value ==>
              !(e.methods[k].isStatic && e.methods[k].isPublic && e.methods[k].returnType.Parameterized?)
    ensures r.None? <==> forall k :: 0 <= k < |e.methods| ==>
              !(e.methods[k].isStatic && e.methods[k].isPublic && e.methods[k].returnType.Parameterized?)
  {
    FirstPicked(e.methods, SelfType(e), 0)
  }

  function FirstPicked(ms: seq<LegacyMethod>, self: TypeExpr, from: nat): (r: Option<nat>)
    requires from <= |ms|
    ensures r.Some? ==> from <= r.value < |ms| && PickedAsWritten(ms[r.value], self)
                        && forall k :: from <= k < r.value ==> !PickedAsWritten(ms[k], self)
    ensures r.None? <==> forall k :: from <= k < |ms| ==> !PickedAsWritten(ms[k], self)
    decreases |ms| - from
  {
    if from == |ms| then None
    else if PickedAsWritten(ms[from], self) then Some(from)
    else FirstPicked(ms, self, from + 1)
  }

  /** The intended variant: the first public static method returning a JsonAdapter. */
  function AdapterMethod(e: ValueElement): (r: Option<nat>)
    ensures r.Some? ==> r.value < |e.methods| && ReturnsAdapter(e.methods[r.value])
                        && forall k :: 0 <= k < r.value ==> !ReturnsAdapter(e.methods[k])
    ensures r.None? <==> forall k :: 0 <= k < |e.methods| ==> !ReturnsAdapter(e.methods[k])
  {
    FirstAdapter(e.methods, 0)
  }

  function FirstAdapter(ms: seq<LegacyMethod>, from: nat): (r: Option<nat>)
    requires from <= |ms|
    ensures r.Some? ==> from <= r.value < |ms| && ReturnsAdapter(ms[r.value])
                        && forall k :: from <= k < r.value ==> !ReturnsAdapter(ms[k])
    ensures r.None? <==> forall k :: from <= k < |ms| ==> !ReturnsAdapter(ms[k])
    decreases |ms| - from
  {
    if from == |ms| then None
    else if ReturnsAdapter(ms[from]) then Some(from)
    else FirstAdapter(ms, from + 1)
  }

  /**
   * The two lookups agree whenever the method picked as written does return a JsonAdapter, and
   * the lookup as written finds a method whenever the intended one does.
   */
  lemma AdapterMethodAgrees(e: ValueElement)
    ensures AdapterMethod(e).Some? ==> AdapterMethodAsWritten(e).Some?
    ensures (AdapterMethodAsWritten(e).Some? && ReturnsAdapter(e.methods[AdapterMethodAsWritten(e).value]))
              ==> AdapterMethod(e) == AdapterMethodAsWritten(e)
  {
  }

  /** A value class with a public static helper returning `List<String>` ahead of its adapter method. */
  function HelperFirstClass(): ValueElement {
    ValueElement(
      TypeElement("Foo", Package("test")),
      [],
      [ LegacyMethod("names", true, true, Parameterized("java.util.List", [ClassType("java.lang.String")]), 0),
        LegacyMethod("jsonAdapter", true, true, AdapterOf(ClassType("test.Foo")), 1) ])
  }

  /** As written, the helper is taken for the adapter method, so the generated code calls `Foo.names(moshi)`. */
  lemma HelperPickedAsWritten()
    ensures AdapterMethodAsWritten(HelperFirstClass()) == Some(0)
    ensures HelperFirstClass().methods[0].name == "names"
  {
  }

  /** The intended lookup skips the helper and finds `jsonAdapter`. */
  lemma HelperSkippedCorrected()
    ensures AdapterMethod(HelperFirstClass()) == Some(1)
    ensures HelperFirstClass().methods[1].name == "jsonAdapter"
  {
    var e := HelperFirstClass();
    assert !ReturnsAdapter(e.methods[0]);
    assert ReturnsAdapter(e.methods[1]);
  }

  /**
   * Which generation runs. `AsWritten` is the processor as it stands: getJsonAdapterMethod
   * accepts any parameterized return type, and the generated class name keeps the dots of a
   * nested factory. `Intended` only accepts a JsonAdapter and joins a nesting path with '_'.
   */
  datatype Variant = AsWritten | Intended

  /** `AutoValueMoshi_` followed by the factory's class name, as the variant spells it. */
  function GeneratedName(variant: Variant, factory: Element): string
    requires factory.TypeElement?
  {
    match variant
    case AsWritten => FactoryClassNameAsWritten(factory)
    case Intended => FactoryClassName(factory)
  }

  /**
   * Both variants name a top-level factory `AutoValueMoshi_<Simple>`; only the intended one
   * keeps the name of a nested factory free of dots.
   */
  lemma GeneratedNameShape(variant: Variant, factory: Element)
    requires factory.TypeElement?
    ensures factory.enclosing.Package? ==> GeneratedName(variant, factory) == "AutoValueMoshi_" + factory.simpleName
    ensures variant == Intended && (forall i :: 0 <= i < |SimpleNames(factory)| ==> '.' !in SimpleNames(factory)[i])
            ==> '.' !in GeneratedName(variant, factory)
  {
    if factory.enclosing.Package? {
      TopLevelNamesAgree(factory);
    }
    if forall i :: 0 <= i < |SimpleNames(factory)| ==> '.' !in SimpleNames(factory)[i] {
      FactoryClassNameIsSimple(factory);
    }
  }

  /**
   * The test each lookup applies to a method: as written, public, static and with any
   * parameterized return type; intended, public, static and returning a JsonAdapter.
   */
  predicate Accepts(variant: Variant, m: LegacyMethod) {
    match variant
    case AsWritten => m.isStatic && m.isPublic && m.returnType.Parameterized?
    case Intended => ReturnsAdapter(m)
  }

  /** The index of the first method the chosen lookup accepts, if any. */
  function Find(variant: Variant, e: ValueElement): (r: Option<nat>)
    ensures r.Some? ==> r.value < |e.methods| && Accepts(variant, e.methods[r.value])
                        && forall k :: 0 <= k < r.value ==> !Accepts(variant, e.methods[k])
    ensures r.None? <==> forall k :: 0 <= k < |e.methods| ==> !Accepts(variant, e.methods[k])
  {
    match variant
    case AsWritten => AdapterMethodAsWritten(e)
    case Intended => AdapterMethod(e)
  }

  /** Whatever the intended lookup finds, the lookup as written finds something too. */
  lemma FindAsWrittenWider(e: ValueElement)
    ensures Find(Intended, e).Some? ==> Find(AsWritten, e).Some?
  {
    AdapterMethodAgrees(e);
  }

  /** A value class the generated factory can serve: a type on which the lookup finds a method. */
  predicate Servable(variant: Variant, e: ValueElement) {
    e.element.TypeElement? && Find(variant, e).Some?
  }

  // ----- the generated create method, as code -----

  /** `return Owner.method(moshi)`, passing the type arguments when `passTypeArguments`. */
  datatype Statement = ReturnAdapter(owner: string, factoryMethod: string, passTypeArguments: bool)

  /** One arm of an `if`/`else if` chain: its keyword, the class it compares against, and its statements. */
  datatype Branch = Branch(keyword: string, testedClass: string, body: seq<Statement>)

  /**
   * The body of `create`: the generic chain inside `if (type instanceof ParameterizedType)` when
   * some value class is generic, then the chain of class comparisons when some is not, then
   * `return null`.
   */
  datatype CreateBody = CreateBody(generics: Option<seq<Branch>>, classes: Option<seq<Branch>>)

  /** The generated class: its package, simple name, superclass, and the body of `create`. */
  datatype LegacyGenerated = LegacyGenerated(packageName: string, className: string, superclass: string, create: CreateBody)

  /** addControlFlow: position 0 opens a chain with `if`, later positions continue it with `else if`. */
  function Keyword(pos: nat): string {
    if pos == 0 then "if" else "else if"
  }

  function Name(e: ValueElement): string {
    QualifiedName(e.element)
  }

  function SimpleName(e: ValueElement): string {
    match e.element
    case TypeElement(s, _) => s
    case Package(q) => q
  }

  /**
   * The method the lookup finds, when it finds one: a public static method of the class with a
   * parameterized return type, the first the lookup accepts.
   */
  function FoundMethod(variant: Variant, e: ValueElement): (r: Option<LegacyMethod>)
    ensures r.Some? <==> Find(variant, e).Some?
    ensures r.Some? ==> r.value.isStatic && r.value.isPublic && r.value.returnType.Parameterized? && Accepts(variant, r.value)
    ensures r.Some? ==> exists j :: 0 <= j < |e.methods| && e.methods[j] == r.value
                                    && forall k :: 0 <= k < j ==> !Accepts(variant, e.methods[k])
  {
    match Find(variant, e)
    case None => None
    case Some(j) => Some(e.methods[j])
  }

  /**
   * addControlFlowGenric's statements: return the adapter with the type arguments only when the
   * method found takes more than the Moshi instance. (No branch is ever built for a class
   * without a method found: the lookup's null is dereferenced first.)
   */
  function GenericBody(variant: Variant, e: ValueElement): seq<Statement> {
    match FoundMethod(variant, e)
    case None => []
    case Some(m) => if m.parameterCount > 1 then [ReturnAdapter(SimpleName(e), m.name, true)] else []
  }

  /** The statement for a class without type parameters: return what the method found returns. */
  function ClassBody(variant: Variant, e: ValueElement): seq<Statement> {
    match FoundMethod(variant, e)
    case None => []
    case Some(m) => [ReturnAdapter(Name(e), m.name, false)]
  }

  /** The branch of a value class at position `pos` of its chain: it compares against the class itself. */
  function BranchFor(variant: Variant, e: ValueElement, generic: bool, pos: nat): (r: Branch)
    ensures r.testedClass == Name(e) && r.keyword == Keyword(pos)
  {
    Branch(Keyword(pos), Name(e), if generic then GenericBody(variant, e) else ClassBody(variant, e))
  }

  predicate AllServable(variant: Variant, es: seq<ValueElement>) {
    forall j :: 0 <= j < |es| ==> Servable(variant, es[j])
  }

  /**
   * The chain for the first `n` value classes of one kind, generic or not, in order: at most
   * one branch per class.
   */
  function Chain(variant: Variant, es: seq<ValueElement>, n: nat, generic: bool): (r: seq<Branch>)
    requires n <= |es|
    ensures |r| <= n
  {
    if n == 0 then []
    else
      var init := Chain(variant, es, n - 1, generic);
      if IsGeneric(es[n - 1]) == generic then init + [BranchFor(variant, es[n - 1], generic, |init|)] else init
  }

  /** The chain for all value classes of one kind. */
  function Branches(variant: Variant, es: seq<ValueElement>, generic: bool): seq<Branch> {
    Chain(variant, es, |es|, generic)
  }

  /** A chain grows by at most one branch per value class, and keeps what it had. */
  lemma ChainStep(variant: Variant, es: seq<ValueElement>, n: nat, generic: bool)
    requires 0 < n <= |es|
    ensures var init := Chain(variant, es, n - 1, generic);
            Chain(variant, es, n, generic)[..|init|] == init
            && (IsGeneric(es[n - 1]) == generic ==> Chain(variant, es, n, generic) == init + [BranchFor(variant, es[n - 1], generic, |init|)])
            && (IsGeneric(es[n - 1]) != generic ==> Chain(variant, es, n, generic) == init)
  {
  }

  /** Every branch comes from a value class of its kind, at its position. */
  lemma {:induction false} ChainFrom(variant: Variant, es: seq<ValueElement>, n: nat, generic: bool, k: nat) returns (j: nat)
    requires n <= |es| && k < |Chain(variant, es, n, generic)|
    ensures j < n && IsGeneric(es[j]) == generic && Chain(variant, es, n, generic)[k] == BranchFor(variant, es[j], generic, k)
  {
    ChainStep(variant, es, n, generic);
    var init := Chain(variant, es, n - 1, generic);
    if k < |init| {
      j := ChainFrom(variant, es, n - 1, generic, k);
    } else {
      j := n - 1;
    }
  }

  /** Every value class of the kind has its branch. */
  lemma {:induction false} ChainContains(variant: Variant, es: seq<ValueElement>, n: nat, generic: bool, i: nat) returns (k: nat)
    requires n <= |es| && i < n && IsGeneric(es[i]) == generic
    ensures k < |Chain(variant, es, n, generic)| && Chain(variant, es, n, generic)[k] == BranchFor(variant, es[i], generic, k)
  {
    ChainStep(variant, es, n, generic);
    var init := Chain(variant, es, n - 1, generic);
    if i < n - 1 {
      k := ChainContains(variant, es, n - 1, generic, i);
    } else {
      k := |init|;
    }
  }

  /** The first branch of a chain opens it with `if`; every later one continues it with `else if`. */
  lemma ChainKeywords(variant: Variant, es: seq<ValueElement>, generic: bool, k: nat)
    requires k < |Branches(variant, es, generic)|
    ensures Branches(variant, es, generic)[k].keyword == if k == 0 then "if" else "else if"
  {
    var j := ChainFrom(variant, es, |es|, generic, k);
  }

  /** A chain is empty exactly when no value class is of its kind. */
  lemma {:induction false} ChainEmpty(variant: Variant, es: seq<ValueElement>, n: nat, generic: bool)
    requires n <= |es|
    ensures |Chain(variant, es, n, generic)| == 0 <==> forall j :: 0 <= j < n ==> IsGeneric(es[j]) != generic
  {
    if n > 0 {
      ChainEmpty(variant, es, n - 1, generic);
    }
  }

  /** A block is emitted only when it has a branch. */
  function Block(bs: seq<Branch>): Option<seq<Branch>> {
    if |bs| == 0 then None else Some(bs)
  }

  /** The body of the generated `create` for the value classes of a round. */
  function Body(variant: Variant, es: seq<ValueElement>): CreateBody
  {
    CreateBody(Block(Branches(variant, es, true)), Block(Branches(variant, es, false)))
  }

  /**
   * createJsonAdapterFactory as a reference: the factory's class, or a NullPointerException when
   * the lookup finds nothing on some value class.
   */
  function Generate(variant: Variant, es: seq<ValueElement>, factory: Element): (r: Result<LegacyGenerated, Thrown>)
    requires factory.TypeElement? && forall j :: 0 <= j < |es| ==> es[j].element.TypeElement?
    ensures r.Failure? <==> !AllServable(variant, es)
    ensures r.Failure? ==> r.error == NullPointer
    ensures r.Success? ==> r.value == FileFor(variant, es, factory)
  {
    if !AllServable(variant, es) then Failure(NullPointer) else Success(FileFor(variant, es, factory))
  }

  /**
   * The class generated for a factory: `AutoValueMoshi_<Factory>` in the factory's package,
   * extending the factory, whose `create` holds the chains of the round's value classes.
   */
  function FileFor(variant: Variant, es: seq<ValueElement>, factory: Element): (r: LegacyGenerated)
    requires factory.TypeElement?
    ensures r.packageName == PackageNameOf(factory) && r.className == GeneratedName(variant, factory)
    ensures r.superclass == QualifiedName(factory) && r.create == Body(variant, es)
  {
    QualifiedNameShape(factory);
    LegacyGenerated(PackageNameOf(factory), GeneratedName(variant, factory), PackagePrefix(factory) + ClassNameOf(factory), Body(variant, es))
  }

  /**
   * Generation throws exactly when the lookup finds nothing on some value class; otherwise the
   * generic block is there exactly when some value class is generic, and the class block
   * exactly when some is not.
   */
  lemma GenerateMeaning(variant: Variant, es: seq<ValueElement>, factory: Element)
    requires factory.TypeElement? && forall j :: 0 <= j < |es| ==> es[j].element.TypeElement?
    ensures Generate(variant, es, factory).Failure? <==> exists i :: 0 <= i < |es| && Find(variant, es[i]).None?
    ensures Generate(variant, es, factory).Success? ==>
              (Generate(variant, es, factory).value.create.generics.Some? <==> exists i :: 0 <= i < |es| && IsGeneric(es[i]))
              && (Generate(variant, es, factory).value.create.classes.Some? <==> exists i :: 0 <= i < |es| && !IsGeneric(es[i]))
  {
    ChainEmpty(variant, es, |es|, true);
    ChainEmpty(variant, es, |es|, false);
  }

  /**
   * The adapter-method lookups of createJsonAdapterFactory's pass over the value classes, in
   * order: `ok` is false when one of them returns null, where the pass throws a
   * NullPointerException.
   */
  method LookUpAdapterMethods(variant: Variant, es: seq<ValueElement>) returns (ok: bool)
    requires forall j :: 0 <= j < |es| ==> es[j].element.TypeElement?
    ensures ok <==> forall j :: 0 <= j < |es| ==> Find(variant, es[j]).Some?
    ensures ok <==> AllServable(variant, es)
  {
    var i := 0;
    while i < |es|
      invariant 0 <= i <= |es|
      invariant forall j :: 0 <= j < i ==> Servable(variant, es[j])
    {
      if Find(variant, es[i]).None? {
        assert !Servable(variant, es[i]);
        return false;
      }
      i := i + 1;
    }
    return true;
  }

  /**
   * The branches built by the pass: each class adds its branch to the chain of its kind, the
   * counter of that chain deciding between `if` and `else if`.
   */
  method BuildChains(variant: Variant, es: seq<ValueElement>) returns (generics: seq<Branch>, classes: seq<Branch>)
    ensures generics == Branches(variant, es, true) && classes == Branches(variant, es, false)
  {
    generics, classes := [], [];
    var numGenerics := 0;
    var numClasses := 0;
    var i := 0;
    while i < |es|
      invariant 0 <= i <= |es|
      invariant generics == Chain(variant, es, i, true) && numGenerics == |generics|
      invariant classes == Chain(variant, es, i, false) && numClasses == |classes|
    {
      var e := es[i];
      if IsGeneric(e) {
        generics := generics + [BranchFor(variant, e, true, numGenerics)];
        numGenerics := numGenerics + 1;
      } else {
        classes := classes + [BranchFor(variant, e, false, numClasses)];
        numClasses := numClasses + 1;
      }
      i := i + 1;
    }
  }

  /**
   * createJsonAdapterFactory: the class `AutoValueMoshi_<Factory>` extending the factory, with
   * the chains built by the pass; a NullPointerException when a lookup returns null. The
   * lookups are made before the chains are built: the exception discards the class being built,
   * so where in the pass it is thrown cannot be observed.
   */
  method CreateJsonAdapterFactory(variant: Variant, es: seq<ValueElement>, factory: Element) returns (r: Result<LegacyGenerated, Thrown>)
    requires factory.TypeElement? && forall j :: 0 <= j < |es| ==> es[j].element.TypeElement?
    ensures r.Failure? <==> exists j :: 0 <= j < |es| && Find(variant, es[j]).None?
    ensures r.Failure? ==> r.error == NullPointer
    ensures r.Success? ==> r.value.packageName == PackageNameOf(factory) && r.value.className == GeneratedName(variant, factory)
                           && r.value.superclass == QualifiedName(factory)
                           && r.value.create == CreateBody(Block(Branches(variant, es, true)), Block(Branches(variant, es, false)))
    ensures r == Generate(variant, es, factory)
  {
    var ok := LookUpAdapterMethods(variant, es);
    if !ok {
      return Failure(NullPointer);
    }
    var generics, classes := BuildChains(variant, es);
    r := Success(LegacyGenerated(
      PackageNameOf(factory),
      GeneratedName(variant, factory),
      PackagePrefix(factory) + ClassNameOf(factory),
      CreateBody(Block(generics), Block(classes))));
    assert r.value == FileFor(variant, es, factory);
  }

  // ----- what the generated create returns -----

  /** What `create` returns when it does not return null: a call of a value class's adapter method. */
  datatype LegacyCall = LegacyCall(owner: string, factoryMethod: string, typeArguments: Option<seq<ReflectType>>)

  /** The statements of the branch taken: an empty branch falls through to the `return null` after its chain. */
  function Execute(body: seq<Statement>, args: Option<seq<ReflectType>>): (r: Option<LegacyCall>)
    ensures r.Some? <==> |body| > 0
    ensures r.Some? ==> r.value.owner == body[0].owner && r.value.factoryMethod == body[0].factoryMethod
  {
    if |body| == 0 then None
    else Some(LegacyCall(body[0].owner, body[0].factoryMethod, if body[0].passTypeArguments then args else None))
  }

  /** The first branch of a chain whose comparison holds for the class `name`. */
  function FirstTesting(bs: seq<Branch>, name: string): (r: Option<nat>)
    ensures r.Some? ==> r.value < |bs| && bs[r.value].testedClass == name
                        && forall k :: 0 <= k < r.value ==> bs[k].testedClass != name
    ensures r.None? <==> forall k :: 0 <= k < |bs| ==> bs[k].testedClass != name
  {
    FirstTestingFrom(bs, name, 0)
  }

  function FirstTestingFrom(bs: seq<Branch>, name: string, from: nat): (r: Option<nat>)
    requires from <= |bs|
    ensures r.Some? ==> from <= r.value < |bs| && bs[r.value].testedClass == name
                        && forall k :: from <= k < r.value ==> bs[k].testedClass != name
    ensures r.None? <==> forall k :: from <= k < |bs| ==> bs[k].testedClass != name
    decreases |bs| - from
  {
    if from == |bs| then None
    else if bs[from].testedClass == name then Some(from)
    else FirstTestingFrom(bs, name, from + 1)
  }

  /**
   * The generated `create(type, annotations, moshi)`. A parameterized request, when there is a
   * generic block, is decided inside it: the first branch whose class equals the raw type runs,
   * and the block ends in `return null`. Any other request is compared for equality with the
   * class literals of the second chain; a parameterized type or an array is never equal to one.
   */
  function Run(c: CreateBody, t: ReflectType): (r: Option<LegacyCall>)
    ensures r.Some? ==> t.ClassRef? || t.ParameterizedRef?
    ensures r.Some? && t.ClassRef? ==>
              c.classes.Some? && exists k :: 0 <= k < |c.classes.value| && c.classes.value[k].testedClass == t.name
    ensures r.Some? && t.ParameterizedRef? ==>
              c.generics.Some? && exists k :: 0 <= k < |c.generics.value| && c.generics.value[k].testedClass == t.raw
  {
    if c.generics.Some? && t.ParameterizedRef? then
      match FirstTesting(c.generics.value, t.raw)
      case None => None
      case Some(k) => Execute(c.generics.value[k].body, Some(t.args))
    else if c.classes.Some? && t.ClassRef? then
      match FirstTesting(c.classes.value, t.name)
      case None => None
      case Some(k) => Execute(c.classes.value[k].body, None)
    else None
  }

  /** No two value classes of a round share a qualified name, as Java guarantees. */
  predicate DistinctNames(es: seq<ValueElement>) {
    forall i, j :: 0 <= i < |es| && 0 <= j < |es| && Name(es[i]) == Name(es[j]) ==> i == j
  }

  /** The first branch of the chain testing a class's name is that class's own branch. */
  lemma FoundOwnBranch(variant: Variant, es: seq<ValueElement>, generic: bool, i: nat) returns (k: nat)
    requires AllServable(variant, es) && DistinctNames(es)
    requires i < |es| && IsGeneric(es[i]) == generic
    ensures FirstTesting(Branches(variant, es, generic), Name(es[i])) == Some(k)
    ensures k < |Branches(variant, es, generic)| && Branches(variant, es, generic)[k] == BranchFor(variant, es[i], generic, k)
  {
    var bs := Branches(variant, es, generic);
    var k1 := ChainContains(variant, es, |es|, generic, i);
    assert bs[k1].testedClass == Name(es[i]);
    k := FirstTesting(bs, Name(es[i])).value;
    var j := ChainFrom(variant, es, |es|, generic, k);
    assert bs[k].testedClass == Name(es[j]);
    SameNameSameClass(es, i, j);
  }

  lemma SameNameSameClass(es: seq<ValueElement>, i: nat, j: nat)
    requires DistinctNames(es) && i < |es| && j < |es|
    requires Name(es[i]) == Name(es[j])
    ensures i == j
  {
  }

  /**
   * A value class without type parameters is served, when its class is requested, by the method
   * the lookup found on it.
   */
  lemma PlainClassServed(variant: Variant, es: seq<ValueElement>, factory: Element, i: nat)
    requires factory.TypeElement? && AllServable(variant, es) && DistinctNames(es)
    requires i < |es| && !IsGeneric(es[i])
    ensures Generate(variant, es, factory).Success? && Generate(variant, es, factory).value.create == Body(variant, es)
    ensures Run(Body(variant, es), FactoryProcessor.ClassRef(Name(es[i])))
         == Some(LegacyCall(Name(es[i]), FoundMethod(variant, es[i]).value.name, None))
  {
    var k := FoundOwnBranch(variant, es, false, i);
  }

  /**
   * A generic value class, requested with any type arguments, gets the method found on it called
   * with those arguments when the method takes more than the Moshi instance, and null otherwise.
   */
  lemma GenericClassServed(variant: Variant, es: seq<ValueElement>, factory: Element, i: nat, args: seq<ReflectType>)
    requires factory.TypeElement? && AllServable(variant, es) && DistinctNames(es)
    requires i < |es| && IsGeneric(es[i])
    ensures Generate(variant, es, factory).Success? && Generate(variant, es, factory).value.create == Body(variant, es)
    ensures Run(Body(variant, es), FactoryProcessor.ParameterizedRef(Name(es[i]), args))
         == if FoundMethod(variant, es[i]).value.parameterCount > 1
            then Some(LegacyCall(es[i].element.simpleName, FoundMethod(variant, es[i]).value.name, Some(args)))
            else None
  {
    var k := FoundOwnBranch(variant, es, true, i);
  }

  /**
   * A class is served exactly when it is one of the value classes without type parameters; a
   * generic value class requested by its bare class gets null.
   */
  lemma ClassRequestServedIff(variant: Variant, es: seq<ValueElement>, factory: Element, n: string)
    requires factory.TypeElement? && AllServable(variant, es) && DistinctNames(es)
    ensures Generate(variant, es, factory).Success? && Generate(variant, es, factory).value.create == Body(variant, es)
    ensures Run(Body(variant, es), FactoryProcessor.ClassRef(n)).Some?
        <==> exists i :: 0 <= i < |es| && !IsGeneric(es[i]) && Name(es[i]) == n
  {
    var t := FactoryProcessor.ClassRef(n);
    var c := Body(variant, es);
    if Run(c, t).Some? {
      var bs := Branches(variant, es, false);
      var k :| 0 <= k < |bs| && bs[k].testedClass == n;
      var j := ChainFrom(variant, es, |es|, false, k);
    }
    if i :| 0 <= i < |es| && !IsGeneric(es[i]) && Name(es[i]) == n {
      PlainClassServed(variant, es, factory, i);
    }
  }

  /**
   * A parameterized request is never answered by a class without type parameters: whatever
   * `create` returns for it is a generic value class's method, called with the request's type
   * arguments.
   */
  lemma ParameterizedNeverReachesClasses(variant: Variant, es: seq<ValueElement>, factory: Element, raw: string, args: seq<ReflectType>)
    requires factory.TypeElement? && AllServable(variant, es)
    ensures Generate(variant, es, factory).Success? && Generate(variant, es, factory).value.create == Body(variant, es)
    ensures var r := Run(Body(variant, es), FactoryProcessor.ParameterizedRef(raw, args));
            r.Some? ==> r.value.typeArguments == Some(args)
                        && exists i :: 0 <= i < |es| && IsGeneric(es[i]) && Name(es[i]) == raw
  {
    var c := Body(variant, es);
    var t := FactoryProcessor.ParameterizedRef(raw, args);
    if Run(c, t).Some? {
      var bs := Branches(variant, es, true);
      var k := FirstTesting(bs, raw).value;
      var j := ChainFrom(variant, es, |es|, true, k);
      assert Run(c, t) == Execute(bs[k].body, Some(args));
    }
  }

  /**
   * The legacy processor pastes `classNameOf` into the generated name too, so a nested factory
   * gets a class name with a dot as written, and the name the functional tests load when
   * corrected.
   */
  lemma NestedFactoryFileNames(es: seq<ValueElement>)
    ensures '.' in FileFor(AsWritten, es, NestedFactory()).className
    ensures FileFor(Intended, es, NestedFactory()).className
         == "AutoValueMoshi_" + "FunctionalTestsAdapterFactory" + "_" + "NestedFactoryForNaming"
  {
    NestedFactoryNameAsWritten();
    NestedFactoryNameCorrected();
  }

  // ----- the two lookups on concrete classes -----

  /** A factory `test.Factory` to generate for. */
  function TestFactory(): Element {
    TypeElement("Factory", Package("test"))
  }

  /**
   * With a helper ahead of the adapter method, the generated `create` as written answers a
   * request for `Foo` with `Foo.names(moshi)`; with the intended variant, with `Foo.jsonAdapter(moshi)`.
   */
  lemma HelperFirstServed()
    ensures Run(Body(AsWritten, [HelperFirstClass()]), FactoryProcessor.ClassRef("test.Foo"))
            == Some(LegacyCall("test.Foo", "names", None))
    ensures Run(Body(Intended, [HelperFirstClass()]), FactoryProcessor.ClassRef("test.Foo"))
            == Some(LegacyCall("test.Foo", "jsonAdapter", None))
  {
    var es := [HelperFirstClass()];
    assert Name(es[0]) == "test.Foo";
    HelperPickedAsWritten();
    HelperSkippedCorrected();
    PlainClassServed(AsWritten, es, TestFactory(), 0);
    PlainClassServed(Intended, es, TestFactory(), 0);
  }

  /** A value class whose only public static method is a helper returning `List<String>`. */
  function HelperOnlyClass(): ValueElement {
    ValueElement(
      TypeElement("Bar", Package("test")),
      [],
      [LegacyMethod("names", true, true, Parameterized("java.util.List", [ClassType("java.lang.String")]), 0)])
  }

  /**
   * As written, a factory is generated for a class without an adapter method, its `create`
   * answering with `Bar.names(moshi)`; the intended lookup throws a NullPointerException instead.
   */
  lemma HelperOnlyGeneratedAsWritten()
    ensures Generate(AsWritten, [HelperOnlyClass()], TestFactory()).Success?
    ensures Run(Body(AsWritten, [HelperOnlyClass()]), FactoryProcessor.ClassRef("test.Bar"))
            == Some(LegacyCall("test.Bar", "names", None))
    ensures Generate(Intended, [HelperOnlyClass()], TestFactory()) == Failure(NullPointer)
  {
    var es := [HelperOnlyClass()];
    assert Name(es[0]) == "test.Bar";
    assert AdapterMethodAsWritten(es[0]) == Some(0);
    assert !ReturnsAdapter(es[0].methods[0]);
    assert AdapterMethod(es[0]).None?;
    PlainClassServed(AsWritten, es, TestFactory(), 0);
  }

  // ----- one processing round -----

  /**
   * What a round leaves behind: the errors reported, the files written, and the exception that
   * ended it, if one did.
   */
  datatype LegacyRound = LegacyRound(diagnostics: seq<Diagnostic>, files: seq<LegacyGenerated>, thrown: Option<Thrown>)

  /** What the loop needs: a well-formed hierarchy declaring the factories, and value classes that are types. */
  predicate LoopInputs(h: Hierarchy, fs: seq<FactoryDecl>, es: seq<ValueElement>) {
    WellFormed(h) && (forall i :: 0 <= i < |fs| ==> FactoryProcessor.Declared(h, fs[i]))
    && forall j :: 0 <= j < |es| ==> es[j].element.TypeElement?
  }

  predicate RoundInputs(h: Hierarchy, rank: map<string, nat>, fs: seq<FactoryDecl>, es: seq<ValueElement>) {
    Valid(h, rank) && LoopInputs(h, fs, es)
  }

  /** Every factory's supertype search as written returns within `fuel` steps. */
  predicate Answered(fs: seq<FactoryDecl>, h: Hierarchy, fuel: nat)
    requires WellFormed(h) && forall i :: 0 <= i < |fs| ==> FactoryProcessor.Declared(h, fs[i])
  {
    forall i :: 0 <= i < |fs| ==> FactoryProcessor.ValidationErrorsAsWritten(fs[i], h, fuel).Some?
  }

  /**
   * The loop over the factories: each one is checked, its errors reported, and its class
   * generated anyway; an exception from the generation ends the round. `None` while the
   * supertype search as written, run for at most `fuel` steps, has not returned for a factory
   * the loop reached.
   */
  function FactoryLoop(variant: Variant, fs: seq<FactoryDecl>, es: seq<ValueElement>, h: Hierarchy, fuel: nat): (r: Option<LegacyRound>)
    requires LoopInputs(h, fs, es)
    ensures r.Some? ==> |r.value.files| <= |fs|
    ensures r.Some? && r.value.thrown.None? ==> |r.value.files| == |fs|
    ensures r.Some? && r.value.thrown.Some? ==> r.value.thrown == Some(NullPointer) && |fs| > 0
  {
    if |fs| == 0 then Some(LegacyRound([], [], None))
    else
      match FactoryProcessor.ValidationErrorsAsWritten(fs[0], h, fuel)
      case None => None
      case Some(errors) =>
        match Generate(variant, es, fs[0].element)
        case Failure(e) => Some(LegacyRound(errors, [], Some(e)))
        case Success(g) =>
          match FactoryLoop(variant, fs[1..], es, h, fuel)
          case None => None
          case Some(rest) => Some(LegacyRound(errors + rest.diagnostics, [g] + rest.files, rest.thrown))
  }

  /**
   * process: the applicable classes are every AutoValue class of the round, the legacy extension
   * applying to all of them; with none, the round does nothing, and otherwise every factory is
   * checked and generated.
   */
  function ProcessRound(variant: Variant, es: seq<ValueElement>, fs: seq<FactoryDecl>, h: Hierarchy, fuel: nat): Option<LegacyRound>
    requires LoopInputs(h, fs, es)
  {
    if |es| == 0 then Some(LegacyRound([], [], None)) else FactoryLoop(variant, fs, es, h, fuel)
  }

  /** A round without AutoValue classes reports nothing and writes nothing, whatever its factories. */
  lemma EmptyRoundQuiet(variant: Variant, fs: seq<FactoryDecl>, h: Hierarchy, fuel: nat)
    requires LoopInputs(h, fs, [])
    ensures ProcessRound(variant, [], fs, h, fuel) == Some(LegacyRound([], [], None))
  {
  }

  /** With every value class served, generating any factory's class succeeds. */
  lemma GenerateServable(variant: Variant, es: seq<ValueElement>, factory: Element)
    requires factory.TypeElement? && AllServable(variant, es)
    ensures Generate(variant, es, factory).Success?
  {
  }

  /**
   * When every value class has a method found, the loop finishes exactly when every factory's
   * search returns, and then ends normally with every factory's errors, in order, as the
   * current processor reports them.
   */
  lemma {:induction false} LoopAllServable(variant: Variant, fs: seq<FactoryDecl>, es: seq<ValueElement>, h: Hierarchy, rank: map<string, nat>, fuel: nat)
    requires RoundInputs(h, rank, fs, es) && AllServable(variant, es)
    ensures FactoryLoop(variant, fs, es, h, fuel).Some? <==> Answered(fs, h, fuel)
    ensures FactoryLoop(variant, fs, es, h, fuel).Some? ==>
              FactoryLoop(variant, fs, es, h, fuel).value.thrown.None?
              && FactoryLoop(variant, fs, es, h, fuel).value.diagnostics == FactoryProcessor.Errors(fs, h, rank)
  {
    if |fs| > 0 {
      var tail := fs[1..];
      assert forall i :: 1 <= i < |fs| ==> tail[i - 1] == fs[i];
      GenerateServable(variant, es, fs[0].element);
      LoopAllServable(variant, tail, es, h, rank, fuel);
      FactoryProcessor.ValidationErrorsAsWrittenAgrees(fs[0], h, rank, fuel);
      var lists := FactoryProcessor.ErrorLists(fs, h, rank);
      assert lists[1..] == FactoryProcessor.ErrorLists(tail, h, rank);
    }
  }

  /** One step of the loop when generation succeeds: the first factory's class, then the rest of the loop's. */
  lemma LoopStep(variant: Variant, fs: seq<FactoryDecl>, es: seq<ValueElement>, h: Hierarchy, fuel: nat)
    requires LoopInputs(h, fs, es) && AllServable(variant, es) && |fs| > 0
    ensures FactoryLoop(variant, fs, es, h, fuel).Some? ==>
              FactoryLoop(variant, fs[1..], es, h, fuel).Some?
              && FactoryLoop(variant, fs, es, h, fuel).value.files
                 == [FileFor(variant, es, fs[0].element)] + FactoryLoop(variant, fs[1..], es, h, fuel).value.files
  {
  }

  /**
   * When every value class has a method found and the loop finishes, every factory gets its
   * class, in order, whatever errors it drew: the i-th file written is the i-th factory's class.
   */
  lemma {:induction false} LoopFiles(variant: Variant, fs: seq<FactoryDecl>, es: seq<ValueElement>, h: Hierarchy, fuel: nat, i: nat)
    requires LoopInputs(h, fs, es) && AllServable(variant, es) && i < |fs|
    ensures FactoryLoop(variant, fs, es, h, fuel).Some? ==>
              |FactoryLoop(variant, fs, es, h, fuel).value.files| == |fs|
              && FactoryLoop(variant, fs, es, h, fuel).value.files[i] == FileFor(variant, es, fs[i].element)
  {
    LoopStep(variant, fs, es, h, fuel);
    var tail := fs[1..];
    if FactoryLoop(variant, fs, es, h, fuel).Some? {
      var files := FactoryLoop(variant, fs, es, h, fuel).value.files;
      var rest := FactoryLoop(variant, tail, es, h, fuel).value.files;
      if i > 0 {
        LoopFiles(variant, tail, es, h, fuel, i - 1);
        var f := fs[i].element;
        assert tail[i - 1].element == f;
        assert rest[i - 1] == FileFor(variant, es, f);
        assert files[i] == rest[i - 1];
      } else if |tail| > 0 {
        LoopFiles(variant, tail, es, h, fuel, 0);
      }
    }
  }

  /**
   * A round with value classes, all of them served, finishes exactly when every factory's search
   * returns; it then ends normally, reports the factories' errors in order, as the current
   * processor does, and writes one class per factory, in order.
   */
  lemma RoundAllServable(variant: Variant, es: seq<ValueElement>, fs: seq<FactoryDecl>, h: Hierarchy, rank: map<string, nat>, fuel: nat, i: nat)
    requires RoundInputs(h, rank, fs, es) && |es| > 0 && AllServable(variant, es) && i < |fs|
    ensures ProcessRound(variant, es, fs, h, fuel).Some? <==> Answered(fs, h, fuel)
    ensures var r := ProcessRound(variant, es, fs, h, fuel);
            r.Some? ==> r.value.thrown.None? && r.value.diagnostics == FactoryProcessor.Errors(fs, h, rank)
                        && |r.value.files| == |fs| && r.value.files[i] == FileFor(variant, es, fs[i].element)
  {
    LoopAllServable(variant, fs, es, h, rank, fuel);
    LoopFiles(variant, fs, es, h, fuel, i);
  }

  /**
   * The errors do not stop generation: a concrete factory is reported as "Must be abstract!" and
   * still gets its class.
   */
  lemma ConcreteFactoryStillGenerated(variant: Variant, es: seq<ValueElement>, fs: seq<FactoryDecl>, h: Hierarchy, rank: map<string, nat>, fuel: nat, i: nat)
    requires RoundInputs(h, rank, fs, es) && |es| > 0 && AllServable(variant, es) && i < |fs| && !fs[i].isAbstract
    ensures var r := ProcessRound(variant, es, fs, h, fuel);
            r.Some? ==> Error(FactoryProcessor.MustBeAbstract, QualifiedName(fs[i].element)) in r.value.diagnostics
                        && |r.value.files| == |fs| && r.value.files[i] == FileFor(variant, es, fs[i].element)
  {
    RoundAllServable(variant, es, fs, h, rank, fuel, i);
    FactoryProcessor.ValidationErrorsMeaning(fs[i], h, rank);
    FlattenContains(FactoryProcessor.ErrorLists(fs, h, rank), i, Error(FactoryProcessor.MustBeAbstract, QualifiedName(fs[i].element)));
  }

  /**
   * When the lookup finds nothing on some value class, the round finishes exactly when the first
   * factory's search returns: its errors are reported, its generation throws a
   * NullPointerException, and the round ends there without a file.
   */
  lemma RoundThrows(variant: Variant, es: seq<ValueElement>, fs: seq<FactoryDecl>, h: Hierarchy, rank: map<string, nat>, fuel: nat)
    requires RoundInputs(h, rank, fs, es) && |fs| > 0
    requires exists i :: 0 <= i < |es| && Find(variant, es[i]).None?
    ensures ProcessRound(variant, es, fs, h, fuel).None? <==> FactoryProcessor.ValidationErrorsAsWritten(fs[0], h, fuel).None?
    ensures ProcessRound(variant, es, fs, h, fuel).Some? ==>
              ProcessRound(variant, es, fs, h, fuel).value == LegacyRound(FactoryProcessor.ValidationErrors(fs[0], h, rank), [], Some(NullPointer))
  {
    GenerateMeaning(variant, es, fs[0].element);
    FactoryProcessor.ValidationErrorsAsWrittenAgrees(fs[0], h, rank, fuel);
  }
}

/**
 * The legacy round for the factory whose supertype search as written never returns
 * (`class MyFactory implements Marker, JsonAdapter.Factory`).
 */
module LegacyStuckRound {
  import opened Wrappers
  import opened TypeHierarchy
  import opened StuckSearch
  import StuckRound
  import FactoryProcessor
  import opened LegacyFactoryProcessor

  /** As written, no number of steps lets the round finish, whichever lookup generation uses. */
  lemma LegacyRoundNeverFinishes(variant: Variant, fuel: nat)
    ensures LoopInputs(Example(), [StuckRound.StuckFactory()], [HelperFirstClass()])
    ensures ProcessRound(variant, [HelperFirstClass()], [StuckRound.StuckFactory()], Example(), fuel) == None
  {
    StuckRound.StuckRoundInputs();
    SearchNeverReturnsAsWritten(fuel);
    assert FactoryProcessor.ValidationErrorsAsWritten(StuckRound.StuckFactory(), Example(), fuel) == None;
  }
}
