/**
 * Java type names as the generator sees them (JavaPoet's TypeName family), the adapter-lookup
 * expressions it emits for them (`makeType`), and the runtime types those expressions denote.
 */
module JavaTypes {
  import opened Wrappers
  import opened Seqs

  datatype PrimitiveKind = Boolean | Byte | Short | Int | Long | Char | Float | Double

  /** A type name: class, primitive, array, parameterized type, type variable or wildcard. */
  datatype TypeExpr =
    | ClassType(name: string)
    | PrimitiveType(kind: PrimitiveKind)
    | ArrayType(elem: TypeExpr)
    | Parameterized(raw: string, args: seq<TypeExpr>)
    | TypeVar(name: string)
    | Wildcard(lowerBounds: seq<TypeExpr>, upperBounds: seq<TypeExpr>)

  const ObjectClass: string := "java.lang.Object"
  const JsonAdapterClass: string := "com.squareup.moshi.JsonAdapter"

  function BoxName(k: PrimitiveKind): string {
    match k
    case Boolean => "java.lang.Boolean"
    case Byte => "java.lang.Byte"
    case Short => "java.lang.Short"
    case Int => "java.lang.Integer"
    case Long => "java.lang.Long"
    case Char => "java.lang.Character"
    case Float => "java.lang.Float"
    case Double => "java.lang.Double"
  }

  /** TypeName.box() applied where the source writes `type.isPrimitive() ? type.box() : type`. */
  function Boxed(t: TypeExpr): (r: TypeExpr)
    ensures !r.PrimitiveType?
    ensures !t.PrimitiveType? ==> r == t
    ensures t.PrimitiveType? ==> r.ClassType?
  {
    if t.PrimitiveType? then ClassType(BoxName(t.kind)) else t
  }

  /** Distinct primitives box to distinct wrapper classes. */
  lemma BoxedInjectiveOnPrimitives(a: PrimitiveKind, b: PrimitiveKind)
    requires Boxed(PrimitiveType(a)) == Boxed(PrimitiveType(b))
    ensures a == b
  {
  }

  function PrimitiveName(k: PrimitiveKind): string {
    match k
    case Boolean => "boolean"
    case Byte => "byte"
    case Short => "short"
    case Int => "int"
    case Long => "long"
    case Char => "char"
    case Float => "float"
    case Double => "double"
  }

  /** How JavaPoet prints a type name in generated source and in messages. */
  function ShowType(t: TypeExpr): string
    decreases t, 1
  {
    match t
    case ClassType(n) => n
    case PrimitiveType(k) => PrimitiveName(k)
    case ArrayType(e) => ShowType(e) + "[]"
    case Parameterized(raw, args) => raw + "<" + ShowArgs(args) + ">"
    case TypeVar(n) => n
    case Wildcard(lower, upper) =>
      if |lower| == 1 then "? super " + ShowType(lower[0])
      else if |upper| == 0 || upper[0] == ClassType(ObjectClass) then "?"
      else "? extends " + ShowType(upper[0])
  }

  function ShowArgs(ts: seq<TypeExpr>): string
    decreases ts, 0
  {
    if |ts| == 0 then ""
    else if |ts| == 1 then ShowType(ts[0])
    else ShowType(ts[0]) + ", " + ShowArgs(ts[1..])
  }

  /** `JsonAdapter<t>`. */
  function AdapterOf(t: TypeExpr): TypeExpr {
    Parameterized(JsonAdapterClass, [t])
  }

  /**
   * getTypeIndexInArray: the first position whose type variable equals `t`, or -1 (also for any
   * `t` that is not a type variable).
   */
  function TypeIndexInArray(typeVars: seq<string>, t: TypeExpr): (r: int)
    ensures -1 <= r < |typeVars|
    ensures r == -1 <==> !(t.TypeVar? && t.name in typeVars)
    ensures r >= 0 ==> t == TypeVar(typeVars[r]) && forall j :: 0 <= j < r ==> TypeVar(typeVars[j]) != t
  {
    if t.TypeVar? then IndexOf(typeVars, t.name) else -1
  }

  /** The code `makeType` emits to denote a type at adapter-construction time. */
  datatype Lookup =
    | ClassLiteral(t: TypeExpr)                            // T.class
    | NewParameterizedType(raw: string, args: seq<Lookup>)  // Types.newParameterizedType(Raw.class, ...)
    | SupertypeOf(bound: TypeExpr)                         // Types.supertypeOf(B.class)
    | SubtypeOf(bound: TypeExpr)                           // Types.subtypeOf(B.class)
    | TypesAt(index: int)                                  // types[index]

  /** Failures of code generation that abort the generator (thrown exceptions). */
  datatype TypeError =
    | UnrepresentableWildcard(wildcard: TypeExpr)   // IllegalArgumentException
    | NullTypesArray                               // NullPointerException on a missing types array

  /**
   * makeType: a parameterized type becomes `newParameterizedType` over its arguments, anything
   * else a class literal. `generics` is None when the value class declares no type variables.
   */
  function MakeType(t: TypeExpr, generics: Option<seq<string>>): Result<Lookup, TypeError>
    decreases t, 1
  {
    match t
    case Parameterized(raw, args) =>
      var ls :- MakeArgs(args, generics);
      Success(NewParameterizedType(raw, ls))
    case _ => Success(ClassLiteral(t))
  }

  function MakeArgs(args: seq<TypeExpr>, generics: Option<seq<string>>): Result<seq<Lookup>, TypeError>
    decreases args, 0
  {
    if |args| == 0 then Success([])
    else
      var head :- MakeArg(args[0], generics);
      var tail :- MakeArgs(args[1..], generics);
      Success([head] + tail)
  }

  /** One type argument of a parameterized type, following the four branches of the loop. */
  function MakeArg(a: TypeExpr, generics: Option<seq<string>>): Result<Lookup, TypeError>
    decreases a, 2
  {
    match a
    case Parameterized(_, _) => MakeType(a, generics)
    case Wildcard(lower, upper) =>
      if |lower| == 1 then Success(SupertypeOf(lower[0]))
      else if |upper| == 1 then Success(SubtypeOf(upper[0]))
      else Failure(UnrepresentableWildcard(a))
    case TypeVar(_) =>
      if generics.None? then Failure(NullTypesArray)
      else Success(TypesAt(TypeIndexInArray(generics.value, a)))
    case _ => Success(ClassLiteral(a))
  }

  // ----- What the emitted expressions denote at run time -----

  /**
   * The runtime type an emitted lookup evaluates to, given the `types` array passed to the
   * adapter's constructor; None when `types[i]` is out of bounds.
   */
  function Eval(l: Lookup, witnesses: seq<TypeExpr>): Option<TypeExpr>
    decreases l, 1
  {
    match l
    case ClassLiteral(t) => Some(t)
    case NewParameterizedType(raw, args) =>
      var ts :- EvalArgs(args, witnesses);
      Some(Parameterized(raw, ts))
    case SupertypeOf(b) => Some(Wildcard([b], [ClassType(ObjectClass)]))
    case SubtypeOf(b) => Some(Wildcard([], [b]))
    case TypesAt(i) => if 0 <= i < |witnesses| then Some(witnesses[i]) else None
  }

  function EvalArgs(args: seq<Lookup>, witnesses: seq<TypeExpr>): Option<seq<TypeExpr>>
    decreases args, 0
  {
    if |args| == 0 then Some([])
    else
      var head :- Eval(args[0], witnesses);
      var tail :- EvalArgs(args[1..], witnesses);
      Some([head] + tail)
  }

  // ----- Reference semantics: substitution of type variables -----

  /** The binding of each declared type variable to the witness at the same position. */
  function Binding(typeVars: seq<string>, witnesses: seq<TypeExpr>): map<string, TypeExpr>
    requires |typeVars| == |witnesses|
  {
    if |typeVars| == 0 then map[]
    else Binding(typeVars[1..], witnesses[1..])[typeVars[0] := witnesses[0]]
  }

  lemma {:induction false} BindingAt(typeVars: seq<string>, witnesses: seq<TypeExpr>, n: string)
    requires |typeVars| == |witnesses|
    requires n in typeVars
    ensures n in Binding(typeVars, witnesses)
    ensures Binding(typeVars, witnesses)[n] == witnesses[IndexOf(typeVars, n)]
  {
    if typeVars[0] != n {
      BindingAt(typeVars[1..], witnesses[1..], n);
    }
  }

  /** Capture-free substitution of type variables. */
  function Subst(t: TypeExpr, sigma: map<string, TypeExpr>): TypeExpr
    decreases t, 1
  {
    match t
    case ClassType(_) => t
    case PrimitiveType(_) => t
    case ArrayType(e) => ArrayType(Subst(e, sigma))
    case Parameterized(raw, args) => Parameterized(raw, SubstAll(args, sigma))
    case TypeVar(n) => if n in sigma then sigma[n] else t
    case Wildcard(lower, upper) => Wildcard(SubstAll(lower, sigma), SubstAll(upper, sigma))
  }

  function SubstAll(ts: seq<TypeExpr>, sigma: map<string, TypeExpr>): (r: seq<TypeExpr>)
    decreases ts, 0
  {
    if |ts| == 0 then [] else [Subst(ts[0], sigma)] + SubstAll(ts[1..], sigma)
  }

  /** Types a class literal `X.class` can name: classes, primitives and arrays of those. */
  predicate ClassLiteralOk(t: TypeExpr) {
    match t
    case ClassType(_) => true
    case PrimitiveType(_) => true
    case ArrayType(e) => ClassLiteralOk(e)
    case _ => false
  }

  lemma {:induction false} SubstClosed(t: TypeExpr, sigma: map<string, TypeExpr>)
    requires ClassLiteralOk(t)
    ensures Subst(t, sigma) == t
  {
    if t.ArrayType? {
      SubstClosed(t.elem, sigma);
    }
  }

  /**
   * The types makeType can represent for a declaration with type variables `typeVars`: every
   * argument is a nested parameterized type, a single-bound wildcard in JavaPoet's canonical form
   * over a class literal, a declared type variable, or a class literal.
   */
  predicate ParamOk(t: TypeExpr, typeVars: seq<string>)
    decreases t, 1
  {
    t.Parameterized? && ArgsOk(t.args, typeVars)
  }

  predicate ArgsOk(args: seq<TypeExpr>, typeVars: seq<string>)
    decreases args, 0
  {
    |args| == 0 || (ArgOk(args[0], typeVars) && ArgsOk(args[1..], typeVars))
  }

  predicate ArgOk(a: TypeExpr, typeVars: seq<string>)
    decreases a, 2
  {
    match a
    case Parameterized(_, _) => ParamOk(a, typeVars)
    case Wildcard(lower, upper) =>
      (|lower| == 1 && ClassLiteralOk(lower[0]) && upper == [ClassType(ObjectClass)])
      || (|lower| == 0 && |upper| == 1 && ClassLiteralOk(upper[0]))
    case TypeVar(n) => n in typeVars
    case _ => ClassLiteralOk(a)
  }

  /** The declared type variables; a declaration without any has no `types` array. */
  function TypeVarsOf(generics: Option<seq<string>>): seq<string> {
    if generics.Some? then generics.value else []
  }

  /**
   * Generic witness threading: for a representable parameterized property type, the emitted
   * lookup evaluated against the constructor's `types` array is the property type with each
   * type variable replaced by its witness.
   */
  lemma {:induction false} MakeTypeSound(t: TypeExpr, generics: Option<seq<string>>, witnesses: seq<TypeExpr>)
    requires ParamOk(t, TypeVarsOf(generics))
    requires |witnesses| == |TypeVarsOf(generics)|
    ensures MakeType(t, generics).Success?
    ensures Eval(MakeType(t, generics).value, witnesses) == Some(Subst(t, Binding(TypeVarsOf(generics), witnesses)))
    decreases t, 1
  {
    MakeArgsSound(t.args, generics, witnesses);
  }

  lemma {:induction false} MakeArgsSound(args: seq<TypeExpr>, generics: Option<seq<string>>, witnesses: seq<TypeExpr>)
    requires ArgsOk(args, TypeVarsOf(generics))
    requires |witnesses| == |TypeVarsOf(generics)|
    ensures MakeArgs(args, generics).Success?
    ensures EvalArgs(MakeArgs(args, generics).value, witnesses) == Some(SubstAll(args, Binding(TypeVarsOf(generics), witnesses)))
    decreases args, 0
  {
    if |args| > 0 {
      MakeArgSound(args[0], generics, witnesses);
      MakeArgsSound(args[1..], generics, witnesses);
      var ls := MakeArgs(args, generics).value;
      assert ls[1..] == MakeArgs(args[1..], generics).value;
      assert ls[0] == MakeArg(args[0], generics).value;
    }
  }

  lemma {:induction false} MakeArgSound(a: TypeExpr, generics: Option<seq<string>>, witnesses: seq<TypeExpr>)
    requires ArgOk(a, TypeVarsOf(generics))
    requires |witnesses| == |TypeVarsOf(generics)|
    ensures MakeArg(a, generics).Success?
    ensures Eval(MakeArg(a, generics).value, witnesses) == Some(Subst(a, Binding(TypeVarsOf(generics), witnesses)))
    decreases a, 2
  {
    var typeVars := TypeVarsOf(generics);
    var sigma := Binding(typeVars, witnesses);
    match a
    case Parameterized(_, _) =>
      MakeTypeSound(a, generics, witnesses);
    case Wildcard(lower, upper) =>
      if |lower| == 1 {
        SubstClosed(lower[0], sigma);
        SubstClosed(ClassType(ObjectClass), sigma);
        assert SubstAll(lower, sigma) == [lower[0]];
        assert SubstAll(upper, sigma) == upper;
      } else {
        SubstClosed(upper[0], sigma);
        assert SubstAll(upper, sigma) == [upper[0]];
        assert SubstAll(lower, sigma) == [];
      }
    case TypeVar(n) =>
      BindingAt(typeVars, witnesses, n);
    case _ =>
      SubstClosed(a, sigma);
  }

  /**
   * A wildcard argument is representable exactly when it has one lower bound or one upper bound;
   * the first argument that is not makes the whole `makeType` throw, naming that wildcard.
   */
  lemma {:induction false} UnboundedWildcardThrows(raw: string, args: seq<TypeExpr>, generics: Option<seq<string>>, k: nat)
    requires k < |args| && args[k].Wildcard?
    requires |args[k].lowerBounds| != 1 && |args[k].upperBounds| != 1
    requires forall j :: 0 <= j < k ==> MakeArg(args[j], generics).Success?
    ensures MakeType(Parameterized(raw, args), generics) == Failure(UnrepresentableWildcard(args[k]))
  {
    WildcardArgsThrow(args, generics, k);
  }

  lemma {:induction false} WildcardArgsThrow(args: seq<TypeExpr>, generics: Option<seq<string>>, k: nat)
    requires k < |args| && args[k].Wildcard?
    requires |args[k].lowerBounds| != 1 && |args[k].upperBounds| != 1
    requires forall j :: 0 <= j < k ==> MakeArg(args[j], generics).Success?
    ensures MakeArgs(args, generics) == Failure(UnrepresentableWildcard(args[k]))
  {
    if k > 0 {
      assert forall j :: 0 <= j < k - 1 ==> args[1..][j] == args[j + 1];
      WildcardArgsThrow(args[1..], generics, k - 1);
    }
  }

  /** A wildcard argument is emitted exactly when it has one lower or one upper bound. */
  lemma WildcardArgRepresentable(w: TypeExpr, generics: Option<seq<string>>)
    requires w.Wildcard?
    ensures MakeArg(w, generics).Success? <==> |w.lowerBounds| == 1 || |w.upperBounds| == 1
    ensures |w.lowerBounds| == 1 ==> MakeArg(w, generics) == Success(SupertypeOf(w.lowerBounds[0]))
    ensures |w.lowerBounds| != 1 && |w.upperBounds| == 1 ==> MakeArg(w, generics) == Success(SubtypeOf(w.upperBounds[0]))
  {
  }
}
