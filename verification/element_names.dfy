/**
 * Names of type elements: a type is declared either directly in a package or inside another
 * type. `classNameOf` keeps the enclosing types but drops the package; the factory processor
 * derives its generated class name from it.
 */
module ElementNames {
  import opened Seqs

  datatype Element =
    | Package(qualifiedName: string)             // "" is the unnamed package
    | TypeElement(simpleName: string, enclosing: Element)

  /** Element.getQualifiedName: enclosing names joined with '.', no prefix in the unnamed package. */
  function QualifiedName(e: Element): string {
    match e
    case Package(q) => q
    case TypeElement(s, enc) =>
      if enc == Package("") then s else QualifiedName(enc) + "." + s
  }

  /** The package an element is declared in, found by climbing the enclosing elements. */
  function PackageOf(e: Element): (r: Element)
    ensures r.Package?
  {
    match e
    case Package(_) => e
    case TypeElement(_, enc) => PackageOf(enc)
  }

  function PackageNameOf(e: Element): string {
    PackageOf(e).qualifiedName
  }

  /** The simple names from the outermost type inward. */
  function SimpleNames(e: Element): seq<string> {
    match e
    case Package(_) => []
    case TypeElement(s, enc) => SimpleNames(enc) + [s]
  }

  lemma {:induction false} JoinSnoc<T>(parts: seq<seq<T>>, x: seq<T>, sep: seq<T>)
    ensures Join(parts + [x], sep) == if |parts| == 0 then x else Join(parts, sep) + sep + x
  {
    if |parts| > 1 {
      assert (parts + [x])[1..] == parts[1..] + [x];
      JoinSnoc(parts[1..], x, sep);
    } else if |parts| == 1 {
      assert (parts + [x])[1..] == [x];
    }
  }

  /** A type's qualified name is its package, a dot unless the package is unnamed, then its nesting path. */
  lemma {:induction false} QualifiedNameShape(t: Element)
    requires t.TypeElement?
    ensures QualifiedName(t) == PackagePrefix(t) + Join(SimpleNames(t), ".")
  {
    var enc := t.enclosing;
    JoinSnoc(SimpleNames(enc), t.simpleName, ".");
    match enc
    case Package(q) =>
      assert SimpleNames(enc) == [];
      assert PackageOf(t) == PackageOf(enc) == enc;
      if q != "" {
        assert QualifiedName(t) == (q + ".") + t.simpleName;
      }
    case TypeElement(_, _) =>
      QualifiedNameShape(enc);
      assert PackageOf(t) == PackageOf(enc);
      assert |SimpleNames(enc)| > 0;
  }

  function PackagePrefix(t: Element): string {
    if PackageNameOf(t) == "" then "" else PackageNameOf(t) + "."
  }

  /**
   * classNameOf: the qualified name with the package and its dot removed; in the unnamed package
   * the qualified name itself. The result is the type's nesting path joined with '.'.
   */
  function ClassNameOf(t: Element): (r: string)
    requires t.TypeElement?
    ensures r == Join(SimpleNames(t), ".")
  {
    var name := QualifiedName(t);
    var pkg := PackageNameOf(t);
    QualifiedNameShape(t);
    if pkg == "" then name else name[|pkg| + 1..]
  }

  /** The class name a factory's generated subclass receives, as written: nested types keep their dot. */
  function FactoryClassNameAsWritten(t: Element): string
    requires t.TypeElement?
  {
    "AutoValueMoshi_" + ClassNameOf(t)
  }

  /** The intended class name: the nesting path joined with '_', a single valid identifier. */
  function FactoryClassName(t: Element): string
    requires t.TypeElement?
  {
    "AutoValueMoshi_" + Join(SimpleNames(t), "_")
  }

  /** For a type declared directly in its package both names agree. */
  lemma TopLevelNamesAgree(t: Element)
    requires t.TypeElement? && t.enclosing.Package?
    ensures FactoryClassName(t) == FactoryClassNameAsWritten(t) == "AutoValueMoshi_" + t.simpleName
  {
    assert SimpleNames(t) == [t.simpleName];
  }

  /** The intended name has no '.' whenever the simple names have none. */
  lemma FactoryClassNameIsSimple(t: Element)
    requires t.TypeElement?
    requires forall i :: 0 <= i < |SimpleNames(t)| ==> '.' !in SimpleNames(t)[i]
    ensures '.' !in FactoryClassName(t)
  {
    JoinElements(SimpleNames(t), "_", '.');
  }

  const TestsPackage: string := "com.ryanharter.auto.value.moshi.test"

  /** A factory declared inside another class, as the functional tests declare one. */
  function NestedFactory(): Element {
    TypeElement("NestedFactoryForNaming", TypeElement("FunctionalTestsAdapterFactory", Package(TestsPackage)))
  }

  /** As written, the nested factory's generated class name contains a dot. */
  lemma NestedFactoryNameAsWritten()
    ensures FactoryClassNameAsWritten(NestedFactory())
         == "AutoValueMoshi_" + "FunctionalTestsAdapterFactory" + "." + "NestedFactoryForNaming"
    ensures '.' in FactoryClassNameAsWritten(NestedFactory())
  {
    var t := NestedFactory();
    var parts := ["FunctionalTestsAdapterFactory", "NestedFactoryForNaming"];
    assert SimpleNames(t) == parts;
    assert parts[1..] == ["NestedFactoryForNaming"];
    assert Join(parts, ".") == "FunctionalTestsAdapterFactory" + "." + "NestedFactoryForNaming";
    var r := FactoryClassNameAsWritten(t);
    assert r == "AutoValueMoshi_" + ("FunctionalTestsAdapterFactory" + "." + "NestedFactoryForNaming");
    assert r[|"AutoValueMoshi_" + "FunctionalTestsAdapterFactory"|] == '.';
  }

  /** The intended name is the one the functional tests load. */
  lemma NestedFactoryNameCorrected()
    ensures FactoryClassName(NestedFactory())
         == "AutoValueMoshi_" + "FunctionalTestsAdapterFactory" + "_" + "NestedFactoryForNaming"
  {
    var parts := ["FunctionalTestsAdapterFactory", "NestedFactoryForNaming"];
    assert SimpleNames(NestedFactory()) == parts;
    assert parts[1..] == ["NestedFactoryForNaming"];
    assert Join(parts, "_") == "FunctionalTestsAdapterFactory" + "_" + "NestedFactoryForNaming";
    assert FactoryClassName(NestedFactory()) == "AutoValueMoshi_" + ("FunctionalTestsAdapterFactory" + "_" + "NestedFactoryForNaming");
  }
}
