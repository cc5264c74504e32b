# auto-value-moshi, modelled in Dafny

auto-value-moshi is a Java annotation processor. It plugs into AutoValue and generates Moshi
`JsonAdapter`s for AutoValue value classes. It also generates `@MoshiAdapterFactory` classes that
hand those adapters out, and ProGuard keep rules for them. Nothing here generates Java. The model
describes, as data, what the processor decides and emits. It also interprets the emitted adapters
over a JSON token stream, so that the promises of the generated code can be stated and proved.

The repository contains two generations of the processor, and both are modelled:

- **The current extension** (`auto-value-moshi/…/AutoValueMoshiExtension.java`) is covered by
  several modules:
  - `Properties`: reading properties, wire names and nullable markers.
  - `Applicability`: when the extension applies.
  - `JavaTypes`: type names, boxing, and the `makeType` lookups with their run-time meaning.
  - `Builders`: builder validation and setter resolution.
  - `AdapterGenerator`: adapter fields, constructor statements, the NAMES table, the read and
    write plans, the subclass constructor, and external versus nested adapters.
  - `AdapterRuntime`: what a generated adapter does on a token stream.
  - `AdapterLaws`: round trips and dispatch.
  - `EmptyNamesTable`: the NAMES initializer for a class without serialized properties.
- **The current factory processor** (`auto-value-moshi/…/AutoValueMoshiAdapterFactoryProcessor.java`)
  is covered by:
  - `TypeHierarchy` and `StuckSearch`: the `JsonAdapter.Factory` check.
  - `ElementNames`: `classNameOf` and the generated class name.
  - `FactoryProcessor`: the visibility filter, the generated `create`, and a whole processing round.
  - `NativeClassRound`: a round with a `@JsonClass` value class.
- **The ProGuard rules** (`ProguardConfig.java`) are covered by `Proguard`.
- **The legacy extension and processor** (`src/main/…`) are covered by `LegacyExtension` and
  `LegacyFactoryProcessor`. The legacy runtime registry `AutoValueMoshiJsonAdapterFactory` is
  covered by `Registry`.
- **The hand-written adapters** the tests and examples use are covered by `ReverseCodecs`
  (`ReverseList`, `ReverseString`) and `Color` (`ColorAdapter`).

Shared modules:

- `Wrappers` holds `Option` and `Result`.
- `Seqs` holds sequence helpers.
- `JavaStrings` holds Java's view of a string, its UTF-16 units (`char`s), and their relation
  to a Dafny string of characters.
- `JsonTokens` holds the JSON token stream that `JsonWriter` emits and `JsonReader` consumes. It
  defines a value tree, its serialization and a parser, with the round trip proved.
- `Diagnostics` holds the processor's messages.

Conventions used throughout:

- A value-class instance is the sequence of its property values.
- A nested property adapter is the identity codec on JSON values.
- A thrown exception is a `Failure` carrying the exception's kind.
- Whatever iterates a `HashSet` takes the iteration order as a parameter.

## Model

| member | source | states |
|---|---|---|
| Properties.SerializedName | auto-value-moshi/src/main/java/com/ryanharter/auto/value/moshi/AutoValueMoshiExtension.java:111-118 | the wire name is the `@Json` name when one is present, and the property name otherwise |
| Properties.NullableAnnotation | auto-value-moshi/src/main/java/com/ryanharter/auto/value/moshi/AutoValueMoshiExtension.java:128-135 | the marker is absent exactly when no annotation is a nullable marker; otherwise it is the first one |
| Properties.ReadProperties | auto-value-moshi/src/main/java/com/ryanharter/auto/value/moshi/AutoValueMoshiExtension.java:79-87 | a property is kept exactly when it is accepted (a transient property must be nullable), and every dropped property yields one "Required property cannot be transient!" error; with `ReadPropertiesHead`, the first property's error, printed on it, comes first |
| Properties.ReadPropertiesAppend | auto-value-moshi/src/main/java/com/ryanharter/auto/value/moshi/AutoValueMoshiExtension.java:284-295 | properties are read one at a time: the kept list and the error list of a concatenation are those of the two parts concatenated, so the errors come in the order of the rejected properties |
| Properties.ReadPropertiesSingle | auto-value-moshi/src/main/java/com/ryanharter/auto/value/moshi/AutoValueMoshiExtension.java:79-87 | one accepted property is kept with no error; one rejected property is dropped and yields exactly one "Required property cannot be transient!" error naming it |
| Properties.ReadPropertiesOrder | auto-value-moshi/src/main/java/com/ryanharter/auto/value/moshi/AutoValueMoshiExtension.java:284-295 | kept properties stay in their declaration order |
| Properties.Serialized | auto-value-moshi/src/main/java/com/ryanharter/auto/value/moshi/AutoValueMoshiExtension.java:297-321 | the properties that get an adapter are exactly the non-transient ones |
| Properties.WireNames | auto-value-moshi/src/main/java/com/ryanharter/auto/value/moshi/AutoValueMoshiExtension.java:377-381 | the NAMES list holds each serialized property's wire name, in order |
| JavaTypes.Boxed | auto-value-moshi/src/main/java/com/ryanharter/auto/value/moshi/AutoValueMoshiExtension.java:303-306 | boxing changes only primitives, and turns them into class types |
| JavaTypes.BoxedInjectiveOnPrimitives | auto-value-moshi/src/main/java/com/ryanharter/auto/value/moshi/AutoValueMoshiExtension.java:303-306 | distinct primitives box to distinct wrappers |
| JavaTypes.TypeIndexInArray | auto-value-moshi/src/main/java/com/ryanharter/auto/value/moshi/AutoValueMoshiExtension.java:457-464 | the result is the first position of an equal type variable, or -1 exactly when there is none |
| JavaTypes.MakeTypeSound | auto-value-moshi/src/main/java/com/ryanharter/auto/value/moshi/AutoValueMoshiExtension.java:708-745 | for a representable type, the lookup `makeType` emits (`MakeType`, with `MakeArgs` and `MakeArg` for the arguments), evaluated against the `types` array, denotes the type with each type variable replaced by its witness |
| JavaTypes.MakeArgsSound | auto-value-moshi/src/main/java/com/ryanharter/auto/value/moshi/AutoValueMoshiExtension.java:715-739 | the same holds for every type argument of a parameterized type |
| JavaTypes.MakeArgSound | auto-value-moshi/src/main/java/com/ryanharter/auto/value/moshi/AutoValueMoshiExtension.java:716-738 | the same holds for one type argument in each of the four branches |
| JavaTypes.UnboundedWildcardThrows | auto-value-moshi/src/main/java/com/ryanharter/auto/value/moshi/AutoValueMoshiExtension.java:710-731 | for any parameterized type, the first argument that is a wildcard with neither exactly one lower nor exactly one upper bound makes `makeType` throw IllegalArgumentException naming that wildcard, once every argument before it has been emitted |
| JavaTypes.WildcardArgRepresentable | auto-value-moshi/src/main/java/com/ryanharter/auto/value/moshi/AutoValueMoshiExtension.java:718-731 | a wildcard argument is emitted exactly when it has one lower or one upper bound: `supertypeOf` the lower bound when there is one, `subtypeOf` the upper bound otherwise |
| Applicability.LastAdapterReturn | auto-value-moshi/src/main/java/com/ryanharter/auto/value/moshi/AutoValueMoshiExtension.java:143-190 | the result is absent exactly when no static non-private method returns a JsonAdapter; otherwise it is the return type of the last such method |
| Applicability.Applicable | auto-value-moshi/src/main/java/com/ryanharter/auto/value/moshi/AutoValueMoshiExtension.java:143-190 | the extension applies exactly under the declarative condition `IsApplicable`, and its warnings are `SkipWarnings(c)`: exactly one for a skipped class that has an adapter-returning method, none otherwise |
| Builders.Annotated | auto-value-moshi/src/main/java/com/ryanharter/auto/value/moshi/AutoValueMoshiExtension.java:536-539 | the result is exactly the builder methods carrying the annotation |
| Builders.PlanBuilder | auto-value-moshi/src/main/java/com/ryanharter/auto/value/moshi/AutoValueMoshiExtension.java:524-600 | validation fails exactly when the build method is missing, or when there are several builder methods and not exactly one is annotated; each failure has its own message, and success picks `new Builder()`, the only method, or the annotated one |
| Builders.FirstSetterOfType | auto-value-moshi/src/main/java/com/ryanharter/auto/value/moshi/AutoValueMoshiExtension.java:666-673 | the result is absent exactly when no setter takes the type; otherwise it is the first one that does |
| Builders.ResolveSetter | auto-value-moshi/src/main/java/com/ryanharter/auto/value/moshi/AutoValueMoshiExtension.java:660-683 | a property with no setter entry fails with a NullPointerException; otherwise resolution fails exactly when no setter takes the property's type |
| AdapterGenerator.CreateFields | auto-value-moshi/src/main/java/com/ryanharter/auto/value/moshi/AutoValueMoshiExtension.java:297-321 | there is one field per non-transient property and nothing else |
| AdapterGenerator.AdapterFieldNameInjective | auto-value-moshi/src/main/java/com/ryanharter/auto/value/moshi/AutoValueMoshiExtension.java:320 | distinct property names give distinct adapter field names |
| AdapterGenerator.CreateFieldsDistinct | auto-value-moshi/src/main/java/com/ryanharter/auto/value/moshi/AutoValueMoshiExtension.java:297-321 | the generated fields never clash |
| AdapterGenerator.InitFor | auto-value-moshi/src/main/java/com/ryanharter/auto/value/moshi/AutoValueMoshiExtension.java:383-425 | each constructor statement assigns the property's own field; it is null-safe exactly when the property is nullable, and does a qualifier lookup exactly when the property has qualifiers |
| AdapterGenerator.InitSound | auto-value-moshi/src/main/java/com/ryanharter/auto/value/moshi/AutoValueMoshiExtension.java:389-425 | every adapter is requested for the property's type with the class's type variables replaced by the witnesses |
| AdapterGenerator.CreateInits | auto-value-moshi/src/main/java/com/ryanharter/auto/value/moshi/AutoValueMoshiExtension.java:377-426 | the statements are generated exactly when every serialized property's statement is, and each statement belongs to a serialized property |
| AdapterGenerator.Names | auto-value-moshi/src/main/java/com/ryanharter/auto/value/moshi/AutoValueMoshiExtension.java:377-381 | NAMES lists the wire names of the serialized properties, in order |
| AdapterGenerator.NamesInitializerDenotes | auto-value-moshi/src/main/java/com/ryanharter/auto/value/moshi/AutoValueMoshiExtension.java:439-448 | read back as a Java array initializer (`DecodeNamesLiteral`, which reads `{"…","…"}` literals without escape sequences), the NAMES initializer holds exactly `NamesArrayAsWritten(names)`: the names themselves, or the one-element array `{""}` when there are none. This holds for wire names without a quote or backslash (`LiteralBodyPlain`, `LiteralListJoin`) |
| AdapterGenerator.QuotedNameSplits | auto-value-moshi/src/main/java/com/ryanharter/auto/value/moshi/AutoValueMoshiExtension.java:441 | the names are pasted in unescaped: a wire name holding `","` reads back as the two entries `a` and `b` |
| AdapterGenerator.EmptyNamesInitializer | auto-value-moshi/src/main/java/com/ryanharter/auto/value/moshi/AutoValueMoshiExtension.java:441 | with no names the initializer text is `{""}` |
| AdapterGenerator.DefaultLiteral | auto-value-moshi/src/main/java/com/ryanharter/auto/value/moshi/AutoValueMoshiExtension.java:685-705 | the default is `null` exactly for non-primitive types |
| AdapterGenerator.DefaultValue | auto-value-moshi/src/main/java/com/ryanharter/auto/value/moshi/AutoValueMoshiExtension.java:603-608 | a local starts as null exactly when its type is not primitive |
| AdapterGenerator.WriteSteps | auto-value-moshi/src/main/java/com/ryanharter/auto/value/moshi/AutoValueMoshiExtension.java:466-508 | `toJson` has one step per serialized property, in order, under its wire name; a step skips nulls exactly for a nullable property |
| AdapterGenerator.PositionalArms | auto-value-moshi/src/main/java/com/ryanharter/auto/value/moshi/AutoValueMoshiExtension.java:615-634 | there is one switch arm per serialized property |
| AdapterGenerator.BuilderArms | auto-value-moshi/src/main/java/com/ryanharter/auto/value/moshi/AutoValueMoshiExtension.java:622-625 | builder arms are generated exactly when every property's setter resolves, one arm per property |
| AdapterGenerator.CollectArms | auto-value-moshi/src/main/java/com/ryanharter/auto/value/moshi/AutoValueMoshiExtension.java:615-634 | the loop succeeds exactly when every arm does, and it yields them in order |
| AdapterGenerator.Defaults | auto-value-moshi/src/main/java/com/ryanharter/auto/value/moshi/AutoValueMoshiExtension.java:603-608 | each serialized property's local starts at its type's default |
| AdapterGenerator.ConstructorArgs | auto-value-moshi/src/main/java/com/ryanharter/auto/value/moshi/AutoValueMoshiExtension.java:615-630 | the constructor receives `null` exactly at the transient positions and the property's local elsewhere |
| AdapterGenerator.ConstructorNonNull | auto-value-moshi/src/main/java/com/ryanharter/auto/value/moshi/AutoValueMoshiExtension.java:649-651 | AutoValue's constructor checks a parameter for null exactly when its property is a reference without a nullable marker |
| AdapterGenerator.CreateReadPlan | auto-value-moshi/src/main/java/com/ryanharter/auto/value/moshi/AutoValueMoshiExtension.java:510-654 | without a builder, the plan is positional over the NAMES options and prints nothing. With one that fails validation, the error is printed and `fromJson` is left empty (`EmptyBody`), and generation continues. With a valid builder, an unresolvable setter aborts generation (the only failure), and otherwise the plan calls the setters |
| AdapterGenerator.CreateTypeAdapter | auto-value-moshi/src/main/java/com/ryanharter/auto/value/moshi/AutoValueMoshiExtension.java:349-455 | a constructor statement that fails aborts generation; otherwise the read plan decides, and the adapter carries its plan together with the errors printed while building it |
| AdapterGenerator.Placeholders | auto-value-moshi/src/main/java/com/ryanharter/auto/value/moshi/AutoValueMoshiExtension.java:323-347 | the `super` call has one `$N` per property |
| AdapterGenerator.JoinPlaceholders | auto-value-moshi/src/main/java/com/ryanharter/auto/value/moshi/AutoValueMoshiExtension.java:323-347 | the joined `super` arguments contain exactly as many `$` as there are properties |
| AdapterGenerator.GenerateConstructor | auto-value-moshi/src/main/java/com/ryanharter/auto/value/moshi/AutoValueMoshiExtension.java:323-347 | the constructor has one parameter per property in order, passes them on to `super` in order, and annotates exactly the nullable ones |
| AdapterGenerator.GenerateClass | auto-value-moshi/src/main/java/com/ryanharter/auto/value/moshi/AutoValueMoshiExtension.java:197-282 | the diagnostics start with those of reading the properties, followed by a builder validation error when there is one; that error leaves the class generated with an empty `fromJson`. A failed generation is a thrown exception. The output is an external adapter file exactly when `@JsonClass(generator = "avm")` asks for one, and the subclass is final or abstract as requested |
| AdapterGenerator.MissingBuildMethodStillGenerated | auto-value-moshi/src/main/java/com/ryanharter/auto/value/moshi/AutoValueMoshiExtension.java:524-532 | a builder without a `build` method prints "Could not determine the build method" after the properties' errors, and the class is still written, its `fromJson` empty |
| AdapterRuntime.WriteIsObject | auto-value-moshi/src/main/java/com/ryanharter/auto/value/moshi/AutoValueMoshiExtension.java:479-505 | `toJson` (`Write`) emits exactly the JSON object of the written members |
| AdapterRuntime.WrittenMemberOf | auto-value-moshi/src/main/java/com/ryanharter/auto/value/moshi/AutoValueMoshiExtension.java:492-503 | a property's member is written exactly when it is not a skipped null, and it then carries the property's value |
| AdapterRuntime.NameAbsent | auto-value-moshi/src/main/java/com/ryanharter/auto/value/moshi/AutoValueMoshiExtension.java:484-504 | a name that is not a step's wire name is never written |
| AdapterRuntime.SelectName | auto-value-moshi/src/main/java/com/ryanharter/auto/value/moshi/AutoValueMoshiExtension.java:614 | `selectName` answers an option index exactly when the next token is a name among the options |
| AdapterRuntime.ArmForLabel | auto-value-moshi/src/main/java/com/ryanharter/auto/value/moshi/AutoValueMoshiExtension.java:623 | the switch finds an arm exactly when some arm carries the label, and it finds the first one |
| AdapterRuntime.ReadDelegate | auto-value-moshi/src/main/java/com/ryanharter/auto/value/moshi/AutoValueMoshiExtension.java:656-658 | a successful read consumes input; a primitive never reads as null |
| JsonTokens.ParseValue | auto-value-moshi/src/main/java/com/ryanharter/auto/value/moshi/AutoValueMoshiExtension.java:639-640 | reading one value from the front of the stream, as `skipValue` does, consumes at least one token |
| JsonTokens.ParseSerialize | auto-value-moshi/src/main/java/com/ryanharter/auto/value/moshi/AutoValueMoshiExtension.java:492-503 | reading back the tokens a value is written as (`Serialize`) gives the value and leaves the following tokens untouched |
| AdapterRuntime.Scan | auto-value-moshi/src/main/java/com/ryanharter/auto/value/moshi/AutoValueMoshiExtension.java:611-644 | the loop stops only at the end of the object, and every assignment comes from an arm of the plan |
| AdapterRuntime.ReadWithBuilder | auto-value-moshi/src/main/java/com/ryanharter/auto/value/moshi/AutoValueMoshiExtension.java:646-648 | with a builder the result is exactly what `build()` makes of the setter calls, and a read failure propagates |
| AdapterRuntime.UnknownMemberSkipped | auto-value-moshi/src/main/java/com/ryanharter/auto/value/moshi/AutoValueMoshiExtension.java:637-641 | an unknown member and its value are skipped without effect |
| AdapterRuntime.ReadObjectSkipsUnknown | auto-value-moshi/src/main/java/com/ryanharter/auto/value/moshi/AutoValueMoshiExtension.java:637-641 | an unknown first member changes nothing about what the object reads to |
| AdapterRuntime.ReadWrite | auto-value-moshi/src/main/java/com/ryanharter/auto/value/moshi/AutoValueMoshiExtension.java:466-654 | reading what `toJson` wrote makes one assignment per written member, in order, and leaves the rest of the stream |
| AdapterRuntime.ApplyAgreeing | auto-value-moshi/src/main/java/com/ryanharter/auto/value/moshi/AutoValueMoshiExtension.java:603-630 | assignments that agree with the instance set the assigned locals to its values and leave the others unchanged |
| AdapterRuntime.ReadObject | auto-value-moshi/src/main/java/com/ryanharter/auto/value/moshi/AutoValueMoshiExtension.java:562-646 | `beginObject`, the loop and `endObject`: a successful read consumes a proper prefix of the stream |
| AdapterRuntime.ArgValues | auto-value-moshi/src/main/java/com/ryanharter/auto/value/moshi/AutoValueMoshiExtension.java:649-651 | the constructor receives null at the literal-null positions and the local's value at the others |
| AdapterRuntime.FirstRejected | auto-value-moshi/src/main/java/com/ryanharter/auto/value/moshi/AutoValueMoshiExtension.java:649-651 | the result is the first parameter that AutoValue's constructor checks and that receives null, or -1 exactly when there is none |
| AdapterRuntime.Construct | auto-value-moshi/src/main/java/com/ryanharter/auto/value/moshi/AutoValueMoshiExtension.java:649-651 | `new Class(args)` succeeds exactly when no checked parameter receives null, and then holds the argument values; otherwise it throws a NullPointerException at the first such parameter |
| AdapterRuntime.ReadPositional | auto-value-moshi/src/main/java/com/ryanharter/auto/value/moshi/AutoValueMoshiExtension.java:562-651 | without a builder, a successful read yields one value per constructor argument and consumes a proper prefix of the stream |
| AdapterLaws.CaseLabelsDistinct | auto-value-moshi/src/main/java/com/ryanharter/auto/value/moshi/AutoValueMoshiExtension.java:623 | the switch labels are pairwise distinct exactly when the wire names are |
| AdapterLaws.CaseLabelIsIndex | auto-value-moshi/src/main/java/com/ryanharter/auto/value/moshi/AutoValueMoshiExtension.java:623 | with distinct wire names, each property's label is its index in NAMES |
| AdapterLaws.PositionalDispatch | auto-value-moshi/src/main/java/com/ryanharter/auto/value/moshi/AutoValueMoshiExtension.java:611-634 | every written member is dispatched to its own property's arm |
| AdapterLaws.ConstructAgrees | auto-value-moshi/src/main/java/com/ryanharter/auto/value/moshi/AutoValueMoshiExtension.java:646-651 | when no checked property is null, the constructor call rebuilds the instance from agreeing assignments |
| AdapterLaws.PositionalRoundTrip | auto-value-moshi/src/main/java/com/ryanharter/auto/value/moshi/AutoValueMoshiExtension.java:466-654 | without a builder, `fromJson` of `toJson(x)` is `x` for every instance whose checked properties are not null, and the following tokens are untouched |
| AdapterLaws.UnknownMemberIgnored | auto-value-moshi/src/main/java/com/ryanharter/auto/value/moshi/AutoValueMoshiExtension.java:637-641 | an unknown member does not change what is decoded |
| AdapterLaws.UnassignedCheckedFails | auto-value-moshi/src/main/java/com/ryanharter/auto/value/moshi/AutoValueMoshiExtension.java:603-651 | when no member assigns a checked property, its local stays null and `fromJson` throws a NullPointerException at it or at an earlier checked property |
| AdapterLaws.EmptyObjectRead | auto-value-moshi/src/main/java/com/ryanharter/auto/value/moshi/AutoValueMoshiExtension.java:562-651 | reading `{}` succeeds exactly when the constructor checks no property, and otherwise throws at the first checked property |
| AdapterLaws.MissingRequiredStringThrows | auto-value-moshi/src/main/java/com/ryanharter/auto/value/moshi/AutoValueMoshiExtension.java:649-651 | `{}` for a class with one required `String` property throws a NullPointerException |
| AdapterLaws.BuilderDispatch | auto-value-moshi/src/main/java/com/ryanharter/auto/value/moshi/AutoValueMoshiExtension.java:622-625 | with a builder that passes validation, every written member reaches its own setter arm |
| AdapterLaws.SetterCallsWritten | auto-value-moshi/src/main/java/com/ryanharter/auto/value/moshi/AutoValueMoshiExtension.java:660-683 | reading back makes the resolved setter call of each written property, in declaration order |
| AdapterLaws.BuilderRoundTrip | auto-value-moshi/src/main/java/com/ryanharter/auto/value/moshi/AutoValueMoshiExtension.java:573-648 | with a builder that passes validation, `fromJson` of `toJson(x)` is exactly `build()` applied to the setter calls for `x`, including a failure of `build()` |
| EmptyNamesTable.PositionalPlanAsWritten | auto-value-moshi/src/main/java/com/ryanharter/auto/value/moshi/AutoValueMoshiExtension.java:439-448 | the plan as generated differs from the intended one only in the options of an empty NAMES list |
| EmptyNamesTable.EmptyNameNotSkippedAsWritten | auto-value-moshi/src/main/java/com/ryanharter/auto/value/moshi/AutoValueMoshiExtension.java:439-448 | as written, a member named "" in an object of a class without properties makes `fromJson` fail |
| EmptyNamesTable.EmptyNameSkippedCorrected | auto-value-moshi/src/main/java/com/ryanharter/auto/value/moshi/AutoValueMoshiExtension.java:637-641 | with an empty NAMES array the same member is skipped |
| TypeHierarchy.AnyInterface | auto-value-moshi/src/main/java/com/ryanharter/auto/value/moshi/AutoValueMoshiAdapterFactoryProcessor.java:321-339 | the search succeeds exactly when some interface is the target or a searching interface reaches it |
| TypeHierarchy.ImplementsFactoryIffReaches | auto-value-moshi/src/main/java/com/ryanharter/auto/value/moshi/AutoValueMoshiAdapterFactoryProcessor.java:305-339 | the intended check `ImplementsFactory` (with `SearchInterfaces` over the interfaces) answers exactly whether `JsonAdapter.Factory` is a supertype |
| TypeHierarchy.SearchReaches | auto-value-moshi/src/main/java/com/ryanharter/auto/value/moshi/AutoValueMoshiAdapterFactoryProcessor.java:321-339 | a successful search means the target is a supertype |
| TypeHierarchy.PathImplements | auto-value-moshi/src/main/java/com/ryanharter/auto/value/moshi/AutoValueMoshiAdapterFactoryProcessor.java:305-319 | any inheritance path to the target is found by the supertype test |
| TypeHierarchy.SearchAsWrittenSound | auto-value-moshi/src/main/java/com/ryanharter/auto/value/moshi/AutoValueMoshiAdapterFactoryProcessor.java:321-339 | whenever the search as written (`SearchAsWritten`) returns within its step bound, its answer is the right one |
| TypeHierarchy.ImplementsAsWrittenSound | auto-value-moshi/src/main/java/com/ryanharter/auto/value/moshi/AutoValueMoshiAdapterFactoryProcessor.java:305-319 | whenever the supertype test as written (`ImplementsAsWritten`) returns, it agrees with the intended one |
| StuckSearch.ObjectLoopNeverReturns | auto-value-moshi/src/main/java/com/ryanharter/auto/value/moshi/AutoValueMoshiAdapterFactoryProcessor.java:326-336 | the inner loop parked on `java.lang.Object` never returns |
| StuckSearch.SearchNeverReturnsAsWritten | auto-value-moshi/src/main/java/com/ryanharter/auto/value/moshi/AutoValueMoshiAdapterFactoryProcessor.java:305-339 | as written, the supertype test never returns for `class MyFactory implements Marker, JsonAdapter.Factory` |
| StuckSearch.SearchAcceptsCorrected | auto-value-moshi/src/main/java/com/ryanharter/auto/value/moshi/AutoValueMoshiAdapterFactoryProcessor.java:305-339 | the corrected search accepts the same factory |
| ElementNames.QualifiedNameShape | auto-value-moshi/src/main/java/com/ryanharter/auto/value/moshi/AutoValueMoshiAdapterFactoryProcessor.java:354-364 | a qualified name (`QualifiedName`) is the package name (`PackageNameOf`), a dot unless the package is unnamed, and then the nesting path |
| ElementNames.ClassNameOf | auto-value-moshi/src/main/java/com/ryanharter/auto/value/moshi/AutoValueMoshiAdapterFactoryProcessor.java:344-348 | `classNameOf` is the nesting path joined with '.' |
| ElementNames.PackageOf | auto-value-moshi/src/main/java/com/ryanharter/auto/value/moshi/AutoValueMoshiAdapterFactoryProcessor.java:354-364 | climbing the enclosing elements always ends at a package |
| ElementNames.TopLevelNamesAgree | auto-value-moshi/src/main/java/com/ryanharter/auto/value/moshi/AutoValueMoshiAdapterFactoryProcessor.java:177 | for a top-level factory the generated name, as written (`FactoryClassNameAsWritten`) and corrected (`FactoryClassName`), is `AutoValueMoshi_` followed by its simple name |
| ElementNames.FactoryClassNameIsSimple | auto-value-moshi/src/main/java/com/ryanharter/auto/value/moshi/AutoValueMoshiAdapterFactoryProcessor.java:177 | the corrected generated name contains no '.' |
| ElementNames.NestedFactoryNameAsWritten | auto-value-moshi/src/main/java/com/ryanharter/auto/value/moshi/AutoValueMoshiAdapterFactoryProcessor.java:344-348 | as written, a nested factory's generated class name contains a dot |
| ElementNames.NestedFactoryNameCorrected | auto-value-moshi-tests/src/main/java/com/ryanharter/auto/value/moshi/test/FunctionalTestsAdapterFactory.java:13-18 | the corrected name is the one the functional tests load |
| FactoryProcessor.Narrower | auto-value-moshi/src/main/java/com/ryanharter/auto/value/moshi/AutoValueMoshiAdapterFactoryProcessor.java:119-147 | the narrower of the class's declared access and its adapter method's declared access, which is one of the two and no wider than either |
| FactoryProcessor.NarrowerVisible | auto-value-moshi/src/main/java/com/ryanharter/auto/value/moshi/AutoValueMoshiAdapterFactoryProcessor.java:119-147 | the narrower access is visible from the factory's package exactly when the class's and the method's declared accesses both are, so testing them one after the other is the same test |
| FactoryProcessor.FindAdapterMethod | auto-value-moshi/src/main/java/com/ryanharter/auto/value/moshi/AutoValueMoshiAdapterFactoryProcessor.java:283-296 | the result is the first static non-private method returning `JsonAdapter<Self>`, or absent exactly when there is none |
| FactoryProcessor.GetJsonAdapterMethod | auto-value-moshi/src/main/java/com/ryanharter/auto/value/moshi/AutoValueMoshiAdapterFactoryProcessor.java:283-296 | the same, with an AssertionError when there is none |
| FactoryProcessor.Keep | auto-value-moshi/src/main/java/com/ryanharter/auto/value/moshi/AutoValueMoshiAdapterFactoryProcessor.java:119-147 | a class is kept only when it and its adapter method are visible from the factory's package |
| FactoryProcessor.KeepAsWrittenAgrees | auto-value-moshi/src/main/java/com/ryanharter/auto/value/moshi/AutoValueMoshiAdapterFactoryProcessor.java:119-147 | the filter as written (`KeepAsWritten`) throws exactly for a visible class without an adapter method; otherwise it agrees with the intended filter |
| FactoryProcessor.Filter | auto-value-moshi/src/main/java/com/ryanharter/auto/value/moshi/AutoValueMoshiAdapterFactoryProcessor.java:119-147 | the served classes are exactly the kept ones, each with an adapter method |
| FactoryProcessor.FilterAppend | auto-value-moshi/src/main/java/com/ryanharter/auto/value/moshi/AutoValueMoshiAdapterFactoryProcessor.java:119-147 | the filter keeps order and multiplicity: the classes served from `a + b` are those served from `a`, then those from `b` (via `FilterSnoc`) |
| FactoryProcessor.FilterSingle | auto-value-moshi/src/main/java/com/ryanharter/auto/value/moshi/AutoValueMoshiAdapterFactoryProcessor.java:119-147 | one class is served, once, exactly when it is kept |
| FactoryProcessor.FilterAsWritten | auto-value-moshi/src/main/java/com/ryanharter/auto/value/moshi/AutoValueMoshiAdapterFactoryProcessor.java:119-147 | the stream throws exactly when some class throws, with an AssertionError |
| FactoryProcessor.FilterAsWrittenAgrees | auto-value-moshi/src/main/java/com/ryanharter/auto/value/moshi/AutoValueMoshiAdapterFactoryProcessor.java:119-147 | when the stream does not throw, it keeps what the intended filter keeps |
| FactoryProcessor.EntriesPartition | auto-value-moshi/src/main/java/com/ryanharter/auto/value/moshi/AutoValueMoshiAdapterFactoryProcessor.java:209-238 | every served class yields exactly one arm, generic or not |
| FactoryProcessor.Entries | auto-value-moshi/src/main/java/com/ryanharter/auto/value/moshi/AutoValueMoshiAdapterFactoryProcessor.java:209-238 | there are at most as many arms of a kind as served classes |
| FactoryProcessor.EntriesContain | auto-value-moshi/src/main/java/com/ryanharter/auto/value/moshi/AutoValueMoshiAdapterFactoryProcessor.java:209-238 | every served class of a kind has its arm |
| FactoryProcessor.CreateJsonAdapterFactory | auto-value-moshi/src/main/java/com/ryanharter/auto/value/moshi/AutoValueMoshiAdapterFactoryProcessor.java:171-255 | the generated class keeps the factory's public flag and `nullSafe`, and it has one arm per served class |
| FactoryProcessor.FirstAssignable | auto-value-moshi/src/main/java/com/ryanharter/auto/value/moshi/AutoValueMoshiAdapterFactoryProcessor.java:274-281 | the result is the first arm whose class is assignable from the raw type |
| FactoryProcessor.Create | auto-value-moshi/src/main/java/com/ryanharter/auto/value/moshi/AutoValueMoshiAdapterFactoryProcessor.java:202-252 | a qualified request gets null; any answer comes from an arm assignable from the raw type (`RawType`) and is wrapped in `nullSafe()` exactly when the factory asks for it |
| FactoryProcessor.ClassRequestAnswered | auto-value-moshi/src/main/java/com/ryanharter/auto/value/moshi/AutoValueMoshiAdapterFactoryProcessor.java:226-249 | a class request is answered by the first matching class arm |
| FactoryProcessor.ServedClassFound | auto-value-moshi/src/main/java/com/ryanharter/auto/value/moshi/AutoValueMoshiAdapterFactoryProcessor.java:171-255 | every served non-generic class gets an adapter when its own class is requested |
| FactoryProcessor.GenericRequestAnswered | auto-value-moshi/src/main/java/com/ryanharter/auto/value/moshi/AutoValueMoshiAdapterFactoryProcessor.java:257-272 | a parameterized request is answered with its type arguments by a generic arm whose method takes them |
| FactoryProcessor.ServedGenericFound | auto-value-moshi/src/main/java/com/ryanharter/auto/value/moshi/AutoValueMoshiAdapterFactoryProcessor.java:257-272 | every served generic class is reached by a parameterized request for it |
| FactoryProcessor.ValidationErrorsMeaning | auto-value-moshi/src/main/java/com/ryanharter/auto/value/moshi/AutoValueMoshiAdapterFactoryProcessor.java:106-114 | a factory draws no error from `ValidationErrors` exactly when it is abstract and reaches `JsonAdapter.Factory`, and each error names the factory |
| FactoryProcessor.ApplicableClasses | auto-value-moshi/src/main/java/com/ryanharter/auto/value/moshi/AutoValueMoshiAdapterFactoryProcessor.java:97-101 | the round considers exactly the applicable AutoValue classes |
| FactoryProcessor.ErrorsEmpty | auto-value-moshi/src/main/java/com/ryanharter/auto/value/moshi/AutoValueMoshiAdapterFactoryProcessor.java:106-114 | the round has no errors exactly when no factory has one |
| FactoryProcessor.GeneratedFiles | auto-value-moshi/src/main/java/com/ryanharter/auto/value/moshi/AutoValueMoshiAdapterFactoryProcessor.java:152-159 | each factory gets its own generated class over the classes it may serve |
| FactoryProcessor.AssembleThrows | auto-value-moshi/src/main/java/com/ryanharter/auto/value/moshi/AutoValueMoshiAdapterFactoryProcessor.java:104-166 | the round throws exactly when the filter throws for some factory |
| FactoryProcessor.AssembleAgrees | auto-value-moshi/src/main/java/com/ryanharter/auto/value/moshi/AutoValueMoshiAdapterFactoryProcessor.java:104-166 | a round that does not throw generates one file per factory, exactly the intended ones |
| FactoryProcessor.ProcessRound | auto-value-moshi/src/main/java/com/ryanharter/auto/value/moshi/AutoValueMoshiAdapterFactoryProcessor.java:95-169 | the intended round: its diagnostics start with the skip warnings `applicable` prints while the classes are picked (`ApplicabilityWarnings`); with no applicable class that is all it does, and otherwise it then reports every factory's errors and generates every factory's class |
| FactoryProcessor.WrongAdapterRoundWarns | auto-value-moshi/src/main/java/com/ryanharter/auto/value/moshi/AutoValueMoshiAdapterFactoryProcessor.java:97-101 | a round whose only AutoValue class declares `static JsonAdapter<Other> adapter()` generates nothing and prints exactly the warning naming `Other` |
| FactoryProcessor.ApplicabilityWarningsMembers | auto-value-moshi/src/main/java/com/ryanharter/auto/value/moshi/AutoValueMoshiAdapterFactoryProcessor.java:97-101 | the round's applicability warnings are exactly the classes' skip warnings |
| FactoryProcessor.ApplicabilityWarningsAppend | auto-value-moshi/src/main/java/com/ryanharter/auto/value/moshi/AutoValueMoshiAdapterFactoryProcessor.java:97-101 | the warnings come in class order: those of `a + b` are those of `a`, then those of `b` |
| FactoryProcessor.ProcessRoundAsWrittenAgrees | auto-value-moshi/src/main/java/com/ryanharter/auto/value/moshi/AutoValueMoshiAdapterFactoryProcessor.java:95-169 | the round as written (`ProcessRoundAsWritten`, each `Factory` check run by the as-written search with a step bound, its diagnostics led by the same skip warnings) that finishes without a throw is the intended round, and one that finishes throws exactly when some factory's filter as written throws |
| FactoryProcessor.ValidationErrorsAsWrittenAgrees | auto-value-moshi/src/main/java/com/ryanharter/auto/value/moshi/AutoValueMoshiAdapterFactoryProcessor.java:106-114 | whenever a factory's search as written returns, the factory draws exactly the intended errors |
| FactoryProcessor.ErrorsAsWrittenAgrees | auto-value-moshi/src/main/java/com/ryanharter/auto/value/moshi/AutoValueMoshiAdapterFactoryProcessor.java:104-114 | whenever every factory's search as written returns, the factories draw exactly the intended errors, in order |
| FactoryProcessor.ProcessRoundAsWrittenFinishes | auto-value-moshi/src/main/java/com/ryanharter/auto/value/moshi/AutoValueMoshiAdapterFactoryProcessor.java:95-169 | a round as written finishes whenever every factory's search returns, and one that does not finish has applicable classes and a factory whose search has not returned |
| NativeClassRound.NativeClassAbortsAsWritten | auto-value-moshi/src/main/java/com/ryanharter/auto/value/moshi/AutoValueMoshiAdapterFactoryProcessor.java:119-147 | as written, once the factory's supertype test returns (two steps suffice), a public `@JsonClass(generator = "avm")` class in the factory's package makes the round throw an AssertionError before any class is written |
| NativeClassRound.NativeClassSkippedCorrected | auto-value-moshi/src/main/java/com/ryanharter/auto/value/moshi/AutoValueMoshiAdapterFactoryProcessor.java:95-169 | the corrected round skips that class and generates the factory |
| NativeClassRound.TestsRoundServesNothing | auto-value-moshi/src/main/java/com/ryanharter/auto/value/moshi/AutoValueMoshiAdapterFactoryProcessor.java:171-255 | the generated factory then serves nothing for it |
| StuckRound.StuckRoundNeverFinishes | auto-value-moshi/src/main/java/com/ryanharter/auto/value/moshi/AutoValueMoshiAdapterFactoryProcessor.java:95-114 | as written, a round with an applicable class and the factory `MyFactory implements Marker, JsonAdapter.Factory` never finishes, whatever the step bound |
| StuckRound.StuckFactoryAcceptedCorrected | auto-value-moshi/src/main/java/com/ryanharter/auto/value/moshi/AutoValueMoshiAdapterFactoryProcessor.java:95-114 | the intended round draws no error for that factory |
| Proguard.TargetOfOutputFile | auto-value-moshi/src/main/java/com/ryanharter/auto/value/moshi/ProguardConfig.java:45 | a decoded target is exactly what lies between the `META-INF/proguard/avm-` prefix and the `.pro` suffix |
| Proguard.OutputFileRoundTrip | auto-value-moshi/src/main/java/com/ryanharter/auto/value/moshi/ProguardConfig.java:45 | the output file name records the target's canonical name |
| Proguard.OutputFileInjective | auto-value-moshi/src/main/java/com/ryanharter/auto/value/moshi/ProguardConfig.java:45 | two targets share an output file exactly when their canonical names agree |
| Proguard.Create | auto-value-moshi/src/main/java/com/ryanharter/auto/value/moshi/ProguardConfig.java:39-52 | `create` keeps every field and derives the output file from the target |
| Proguard.LessEqTotal | auto-value-moshi/src/main/java/com/ryanharter/auto/value/moshi/ProguardConfig.java:112 | the string order is total |
| Proguard.LessEqTransitive | auto-value-moshi/src/main/java/com/ryanharter/auto/value/moshi/ProguardConfig.java:112 | the string order is transitive |
| Proguard.Sort | auto-value-moshi/src/main/java/com/ryanharter/auto/value/moshi/ProguardConfig.java:109-113 | sorting yields a sorted permutation |
| Proguard.SortedUnique | auto-value-moshi/src/main/java/com/ryanharter/auto/value/moshi/ProguardConfig.java:109-113 | two sorted permutations of each other are equal |
| Proguard.SortIgnoresOrder | auto-value-moshi/src/main/java/com/ryanharter/auto/value/moshi/ProguardConfig.java:109-113 | the sorted qualifiers do not depend on the set's iteration order |
| Proguard.SortedQualifiers | auto-value-moshi/src/main/java/com/ryanharter/auto/value/moshi/ProguardConfig.java:109-112 | the qualifier names are the sorted permutation of all the properties' qualifiers |
| Proguard.TextEmptyIff | auto-value-moshi/src/main/java/com/ryanharter/auto/value/moshi/ProguardConfig.java:62-128 | nothing is written exactly when the adapter is not external and has no qualifier properties |
| Proguard.ExternalOpening | auto-value-moshi/src/main/java/com/ryanharter/auto/value/moshi/ProguardConfig.java:76-84 | an external adapter's rules begin with `-if class T` and `-keepnames class T` |
| Proguard.KeepBlockIff | auto-value-moshi/src/main/java/com/ryanharter/auto/value/moshi/ProguardConfig.java:86-92 | the `-keep class` rule appears exactly when the adapter is external or has qualifier properties |
| Proguard.KeepBlockLayout | auto-value-moshi/src/main/java/com/ryanharter/auto/value/moshi/ProguardConfig.java:86-107 | the keep block is the `-if` line, the `-keep` line, the constructor line when external, one field line per property, and `}` |
| Proguard.QualifierRulesLayout | auto-value-moshi/src/main/java/com/ryanharter/auto/value/moshi/ProguardConfig.java:109-126 | after the keep block come two lines per sorted qualifier: `-if class T` and `-keep @interface Q` |
| Proguard.QualifierRulesIgnoreOrder | auto-value-moshi/src/main/java/com/ryanharter/auto/value/moshi/ProguardConfig.java:109-126 | two configurations that differ only in qualifier order get the same qualifier rules |
| Proguard.ConstructorParamsUnspaced | auto-value-moshi/src/main/java/com/ryanharter/auto/value/moshi/ProguardConfig.java:94-100 | the constructor parameters are joined by ',' without spaces |
| Proguard.WriteTo | auto-value-moshi/src/main/java/com/ryanharter/auto/value/moshi/ProguardConfig.java:62-128 | the text appended is the lines, each ending in a newline, and it is empty exactly when there is nothing to keep |
| Registry.Register | src/main/java/com/ryanharter/auto/value/moshi/AutoValueMoshiJsonAdapterFactory.java:21-23 | registering adds the factory and nothing else |
| Registry.RegisterIdempotent | src/main/java/com/ryanharter/auto/value/moshi/AutoValueMoshiJsonAdapterFactory.java:21-23 | registering twice is registering once |
| Registry.FirstProduced | src/main/java/com/ryanharter/auto/value/moshi/AutoValueMoshiJsonAdapterFactory.java:26-33 | the answer is null exactly when no factory produces one; otherwise it is some factory's answer, taken over an order that `Enumerates` the registered set |
| Registry.Create | src/main/java/com/ryanharter/auto/value/moshi/AutoValueMoshiJsonAdapterFactory.java:26-33 | `create` answers null exactly when every registered factory does; otherwise it answers a registered factory's adapter, the first in iteration order |
| Registry.SoleProducerWins | src/main/java/com/ryanharter/auto/value/moshi/AutoValueMoshiJsonAdapterFactory.java:26-33 | when exactly one registered factory produces an adapter, that adapter is the answer, whatever the iteration order |
| LegacyExtension.AdapterClassName | src/main/java/com/ryanharter/auto/value/moshi/AutoValueMoshiExtension.java:194 | the adapter is named `AutoValue_…JsonAdapter` |
| LegacyExtension.Applicable | src/main/java/com/ryanharter/auto/value/moshi/AutoValueMoshiExtension.java:72-73 | the legacy extension applies to every AutoValue class |
| LegacyExtension.FactoryClassName | src/main/java/com/ryanharter/auto/value/moshi/AutoValueMoshiExtension.java:165 | the per-class factory is named `AutoValue_…JsonAdapterFactory` |
| LegacyExtension.GeneratedNamesDistinct | src/main/java/com/ryanharter/auto/value/moshi/AutoValueMoshiExtension.java:164-211 | the adapter and factory names never clash, and each determines its class |
| LegacyExtension.WireNames | src/main/java/com/ryanharter/auto/value/moshi/AutoValueMoshiExtension.java:61-68 | each property's wire name is its `@Json` name or its property name |
| LegacyExtension.WriteCallsAsWritten | src/main/java/com/ryanharter/auto/value/moshi/AutoValueMoshiExtension.java:223-229 | as written, `toJson` calls a method named after the property |
| LegacyExtension.WriteCalls | src/main/java/com/ryanharter/auto/value/moshi/AutoValueMoshiExtension.java:223-229 | the corrected `toJson` writes every property under its wire name through its accessor |
| LegacyExtension.WriteCallsCallAccessors | src/main/java/com/ryanharter/auto/value/moshi/AutoValueMoshiExtension.java:223-229 | the corrected write calls use each property's accessor |
| LegacyExtension.GetterStyleAsWritten | src/main/java/com/ryanharter/auto/value/moshi/AutoValueMoshiExtension.java:226-227 | as written, a getter-style class `getName()` is written through a nonexistent `name()` |
| LegacyExtension.GetterStyleCorrected | src/main/java/com/ryanharter/auto/value/moshi/AutoValueMoshiExtension.java:226-227 | corrected, it is written through `getName()` |
| LegacyExtension.Locals | src/main/java/com/ryanharter/auto/value/moshi/AutoValueMoshiExtension.java:248-253 | `fromJson` declares one boxed local per property |
| LegacyExtension.Branches | src/main/java/com/ryanharter/auto/value/moshi/AutoValueMoshiExtension.java:255-271 | `fromJson` has one `equals` branch per property, under its wire name, assigning its local |
| LegacyExtension.RenderArgs | src/main/java/com/ryanharter/auto/value/moshi/AutoValueMoshiExtension.java:133-139 | the generated `$N` list renders (`Render`) to the argument names joined by ", " |
| LegacyExtension.SuperFormat | src/main/java/com/ryanharter/auto/value/moshi/AutoValueMoshiExtension.java:133-138 | the `super` format has exactly one `$N` per property |
| LegacyExtension.ReturnFormat | src/main/java/com/ryanharter/auto/value/moshi/AutoValueMoshiExtension.java:275-284 | the return format names the class without '$' and has one `$N` per property |
| LegacyExtension.SuperStatement | src/main/java/com/ryanharter/auto/value/moshi/AutoValueMoshiExtension.java:124-142 | the constructor's statement passes the property names to `super` in order |
| LegacyExtension.ReturnStatement | src/main/java/com/ryanharter/auto/value/moshi/AutoValueMoshiExtension.java:275-285 | the read method returns `new Class(locals)` in property order |
| LegacyExtension.StripDollar | src/main/java/com/ryanharter/auto/value/moshi/AutoValueMoshiExtension.java:276 | the result has no '$', is no longer than the name, and a name without '$' is unchanged |
| LegacyExtension.PlanOf | src/main/java/com/ryanharter/auto/value/moshi/AutoValueMoshiExtension.java:188-211 | the adapter writes the wire names, knows which properties are primitive, and knows which ones AutoValue's constructor checks for null |
| LegacyExtension.ToJson | src/main/java/com/ryanharter/auto/value/moshi/AutoValueMoshiExtension.java:213-232 | `toJson` emits the JSON object with one member per property, under its wire name and with its value, nulls included |
| LegacyExtension.FirstNullPrimitive | src/main/java/com/ryanharter/auto/value/moshi/AutoValueMoshiExtension.java:275-285 | the result is the first primitive whose local is still null, or -1 exactly when there is none |
| LegacyExtension.FromJson | src/main/java/com/ryanharter/auto/value/moshi/AutoValueMoshiExtension.java:234-288 | a successful read yields one value per property, never null for a primitive nor for a property the constructor checks; a null primitive fails when unboxed, and otherwise the first null checked property fails with a NullPointerException |
| LegacyExtension.ReadLoopWritten | src/main/java/com/ryanharter/auto/value/moshi/AutoValueMoshiExtension.java:255-271 | the loop reads what `toJson` wrote back into the locals |
| LegacyExtension.ReadLoop | src/main/java/com/ryanharter/auto/value/moshi/AutoValueMoshiExtension.java:255-271 | a successful loop yields one local per property |
| LegacyExtension.RoundTrip | src/main/java/com/ryanharter/auto/value/moshi/AutoValueMoshiExtension.java:213-288 | with distinct wire names and no null primitive or checked property, `fromJson` of `toJson(x)` is `x`, and the following tokens are untouched |
| LegacyExtension.UnknownNameFails | src/main/java/com/ryanharter/auto/value/moshi/AutoValueMoshiExtension.java:255-271 | an unknown member name is not skipped, so the read fails on its value |
| LegacyExtension.MissingPrimitiveFails | src/main/java/com/ryanharter/auto/value/moshi/AutoValueMoshiExtension.java:275-285 | a primitive property missing from the input fails when unboxed |
| LegacyExtension.MissingRequiredFails | src/main/java/com/ryanharter/auto/value/moshi/AutoValueMoshiExtension.java:275-285 | reading `{}` into a class without primitives succeeds exactly when the constructor checks no property, and otherwise throws a NullPointerException at the first checked one |
| LegacyExtension.CreateNeverServesAsWritten | src/main/java/com/ryanharter/auto/value/moshi/AutoValueMoshiExtension.java:177 | as written, the per-class factory (`CreateAsWritten`) never answers a `Type` request |
| LegacyExtension.Create | src/main/java/com/ryanharter/auto/value/moshi/AutoValueMoshiExtension.java:172-179 | the corrected factory answers exactly a request for its own class, with its adapter |
| LegacyExtension.RegistryServesNothingAsWritten | src/main/java/com/ryanharter/auto/value/moshi/AutoValueMoshiJsonAdapterFactory.java:26-33 | as written, the registry never answers |
| LegacyExtension.RegisteredClassServed | src/main/java/com/ryanharter/auto/value/moshi/AutoValueMoshiExtension.java:108-110 | corrected, a registered class's own request is answered with its adapter |
| LegacyFactoryProcessor.SelfType | src/main/java/com/ryanharter/auto/value/moshi/AutoValueMoshiAdapterFactoryProcessor.java:206-210 | a value class is referred to by a parameterized type exactly when it is generic |
| LegacyFactoryProcessor.AdapterMethodAsWritten | src/main/java/com/ryanharter/auto/value/moshi/AutoValueMoshiAdapterFactoryProcessor.java:206-220 | as written, the lookup picks the first static public method returning `JsonAdapter<Self>` or any parameterized type |
| LegacyFactoryProcessor.FirstPicked | src/main/java/com/ryanharter/auto/value/moshi/AutoValueMoshiAdapterFactoryProcessor.java:206-220 | the result is the first method the as-written test picks, or absent exactly when none passes |
| LegacyFactoryProcessor.AdapterMethod | src/main/java/com/ryanharter/auto/value/moshi/AutoValueMoshiAdapterFactoryProcessor.java:206-220 | the corrected lookup picks the first static public method returning a JsonAdapter, or none |
| LegacyFactoryProcessor.AdapterMethodAgrees | src/main/java/com/ryanharter/auto/value/moshi/AutoValueMoshiAdapterFactoryProcessor.java:206-220 | when the as-written pick returns an adapter, it is the corrected one |
| LegacyFactoryProcessor.HelperPickedAsWritten | src/main/java/com/ryanharter/auto/value/moshi/AutoValueMoshiAdapterFactoryProcessor.java:206-220 | as written, a `static List<String> names()` declared first is picked |
| LegacyFactoryProcessor.HelperSkippedCorrected | src/main/java/com/ryanharter/auto/value/moshi/AutoValueMoshiAdapterFactoryProcessor.java:206-220 | corrected, the adapter method after it is picked |
| LegacyFactoryProcessor.GeneratedNameShape | src/main/java/com/ryanharter/auto/value/moshi/AutoValueMoshiAdapterFactoryProcessor.java:114 | both variants name a top-level factory `AutoValueMoshi_<Simple>`; the intended one keeps a nested factory's name free of dots |
| LegacyFactoryProcessor.Find | src/main/java/com/ryanharter/auto/value/moshi/AutoValueMoshiAdapterFactoryProcessor.java:206-220 | the result is the first method the variant's test accepts, or absent exactly when it accepts none |
| LegacyFactoryProcessor.FindAsWrittenWider | src/main/java/com/ryanharter/auto/value/moshi/AutoValueMoshiAdapterFactoryProcessor.java:206-220 | the lookup as written finds a method whenever the intended one does |
| LegacyFactoryProcessor.FoundMethod | src/main/java/com/ryanharter/auto/value/moshi/AutoValueMoshiAdapterFactoryProcessor.java:206-220 | for either variant, a method is found exactly when the variant's lookup accepts one; it is public, static and parameterized, and it is the first the lookup accepts. `AsWritten` is the source's `getJsonAdapterMethod` |
| LegacyFactoryProcessor.BranchFor | src/main/java/com/ryanharter/auto/value/moshi/AutoValueMoshiAdapterFactoryProcessor.java:182-204 | a branch tests the class's name, with `if` first and `else if` after; its body (`GenericBody` or `ClassBody`) calls the method found |
| LegacyFactoryProcessor.ChainKeywords | src/main/java/com/ryanharter/auto/value/moshi/AutoValueMoshiAdapterFactoryProcessor.java:197-204 | the first branch of a chain opens with `if` and every later one with `else if` |
| LegacyFactoryProcessor.ChainContains | src/main/java/com/ryanharter/auto/value/moshi/AutoValueMoshiAdapterFactoryProcessor.java:138-163 | every value class of the kind has its branch in the chain |
| LegacyFactoryProcessor.ChainFrom | src/main/java/com/ryanharter/auto/value/moshi/AutoValueMoshiAdapterFactoryProcessor.java:138-163 | every branch comes from a value class of the kind |
| LegacyFactoryProcessor.ChainEmpty | src/main/java/com/ryanharter/auto/value/moshi/AutoValueMoshiAdapterFactoryProcessor.java:165-177 | a chain is empty exactly when no class is of its kind |
| LegacyFactoryProcessor.Generate | src/main/java/com/ryanharter/auto/value/moshi/AutoValueMoshiAdapterFactoryProcessor.java:110-180 | for either variant, generation fails with a NullPointerException exactly when the lookup finds nothing on some value class; otherwise it produces the factory file |
| LegacyFactoryProcessor.FileFor | src/main/java/com/ryanharter/auto/value/moshi/AutoValueMoshiAdapterFactoryProcessor.java:110-116 | the file lives in the factory's package, extends the factory, and carries the variant's generated name: `AutoValueMoshi_` and `classNameOf` as written, the nesting path joined by '_' when corrected |
| LegacyFactoryProcessor.GenerateMeaning | src/main/java/com/ryanharter/auto/value/moshi/AutoValueMoshiAdapterFactoryProcessor.java:138-177 | for either variant, generation fails exactly when the lookup finds nothing on some class; the generic block and the class block exist exactly when some class of their kind exists |
| LegacyFactoryProcessor.LookUpAdapterMethods | src/main/java/com/ryanharter/auto/value/moshi/AutoValueMoshiAdapterFactoryProcessor.java:138-163 | the pass's lookups, with the variant's test, all succeed exactly when every class has a method the test accepts |
| LegacyFactoryProcessor.BuildChains | src/main/java/com/ryanharter/auto/value/moshi/AutoValueMoshiAdapterFactoryProcessor.java:138-163 | the two chains built are the generic and the class branches in order |
| LegacyFactoryProcessor.CreateJsonAdapterFactory | src/main/java/com/ryanharter/auto/value/moshi/AutoValueMoshiAdapterFactoryProcessor.java:110-180 | the method fails with a NullPointerException exactly when some lookup finds nothing; otherwise its class has the factory's package, the variant's name, the factory as superclass and the chains as body |
| LegacyFactoryProcessor.Execute | src/main/java/com/ryanharter/auto/value/moshi/AutoValueMoshiAdapterFactoryProcessor.java:182-195 | a branch body runs its first call, if any |
| LegacyFactoryProcessor.FirstTesting | src/main/java/com/ryanharter/auto/value/moshi/AutoValueMoshiAdapterFactoryProcessor.java:197-204 | the chain runs the first branch testing the requested name |
| LegacyFactoryProcessor.Run | src/main/java/com/ryanharter/auto/value/moshi/AutoValueMoshiAdapterFactoryProcessor.java:110-180 | any answer comes from a branch for the requested kind and name |
| LegacyFactoryProcessor.PlainClassServed | src/main/java/com/ryanharter/auto/value/moshi/AutoValueMoshiAdapterFactoryProcessor.java:151-161 | for either variant, when every class has a method, a non-generic value class's own request is answered by the method the lookup found on it |
| LegacyFactoryProcessor.GenericClassServed | src/main/java/com/ryanharter/auto/value/moshi/AutoValueMoshiAdapterFactoryProcessor.java:142-150 | for either variant, a generic value class's parameterized request is answered by the method found on it exactly when that method takes the type arguments |
| LegacyFactoryProcessor.ClassRequestServedIff | src/main/java/com/ryanharter/auto/value/moshi/AutoValueMoshiAdapterFactoryProcessor.java:151-161 | for either variant, a class request is answered exactly when a non-generic value class has that name |
| LegacyFactoryProcessor.ParameterizedNeverReachesClasses | src/main/java/com/ryanharter/auto/value/moshi/AutoValueMoshiAdapterFactoryProcessor.java:142-150 | a parameterized request is never answered by a class branch |
| LegacyFactoryProcessor.NestedFactoryFileNames | src/main/java/com/ryanharter/auto/value/moshi/AutoValueMoshiAdapterFactoryProcessor.java:110-116 | as written, a nested factory's generated class name contains a dot; corrected, it is the name the functional tests load |
| LegacyFactoryProcessor.HelperFirstServed | src/main/java/com/ryanharter/auto/value/moshi/AutoValueMoshiAdapterFactoryProcessor.java:151-161 | as written, a class declaring `static List<String> names()` before `jsonAdapter(Moshi)` is served by `names`; corrected, by `jsonAdapter` |
| LegacyFactoryProcessor.HelperOnlyGeneratedAsWritten | src/main/java/com/ryanharter/auto/value/moshi/AutoValueMoshiAdapterFactoryProcessor.java:110-220 | as written, a class whose only static method is `List<String> names()` is generated and served by `names`; corrected, generation throws a NullPointerException |
| LegacyFactoryProcessor.FactoryLoop | src/main/java/com/ryanharter/auto/value/moshi/AutoValueMoshiAdapterFactoryProcessor.java:86-104 | the loop, each factory checked by the as-written search with a step bound, generates at most one file per factory, one per factory when nothing is thrown, and throws only a NullPointerException |
| LegacyFactoryProcessor.EmptyRoundQuiet | src/main/java/com/ryanharter/auto/value/moshi/AutoValueMoshiAdapterFactoryProcessor.java:85 | a round without value classes (`ProcessRound`) does nothing |
| LegacyFactoryProcessor.LoopAllServable | src/main/java/com/ryanharter/auto/value/moshi/AutoValueMoshiAdapterFactoryProcessor.java:86-104 | when every class has a method, the loop finishes exactly when every search as written returns, throws nothing, and reports every factory's intended errors |
| LegacyFactoryProcessor.RoundAllServable | src/main/java/com/ryanharter/auto/value/moshi/AutoValueMoshiAdapterFactoryProcessor.java:75-108 | when every class has a method the variant's lookup accepts, the round finishes exactly when every factory's search as written returns; it then reports every factory's intended errors and generates one file per factory, the i-th for the i-th factory |
| LegacyFactoryProcessor.ConcreteFactoryStillGenerated | src/main/java/com/ryanharter/auto/value/moshi/AutoValueMoshiAdapterFactoryProcessor.java:88-103 | once the searches return, a concrete factory is reported as "Must be abstract!" but still generated |
| LegacyFactoryProcessor.RoundThrows | src/main/java/com/ryanharter/auto/value/moshi/AutoValueMoshiAdapterFactoryProcessor.java:95-103 | when the variant's lookup finds nothing on some class, the round finishes exactly when the first factory's search returns, and then reports that factory's errors and throws a NullPointerException |
| LegacyStuckRound.LegacyRoundNeverFinishes | src/main/java/com/ryanharter/auto/value/moshi/AutoValueMoshiAdapterFactoryProcessor.java:75-108 | as written, the legacy round never finishes for `MyFactory implements Marker, JsonAdapter.Factory`, whichever variant of the lookup generation uses |
| JavaStrings.Units | auto-value-moshi-tests/src/main/java/com/ryanharter/auto/value/moshi/test/ReverseString.java:25 | `toCharArray` holds one unit for a character below U+10000 and a high then a low surrogate for any other |
| JavaStrings.UnitsDecode | auto-value-moshi-tests/src/main/java/com/ryanharter/auto/value/moshi/test/ReverseString.java:25 | a surrogate pair decodes back to the character it encodes |
| JavaStrings.EncodeBmp | example/src/main/java/com/ryanharter/auto/value/moshi/example/hexcolor/ColorAdapter.java:13 | a string within the Basic Multilingual Plane is stored one unit per character, none of them a surrogate |
| JavaStrings.EncodeNeverStartsLow | auto-value-moshi-tests/src/main/java/com/ryanharter/auto/value/moshi/test/ReverseString.java:23-31 | the units of a string never start with a low surrogate |
| JavaStrings.CharsEncode | example/src/main/java/com/ryanharter/auto/value/moshi/example/hexcolor/ColorAdapter.java:13 | reading back the units of a string within the Basic Multilingual Plane gives the string |
| ReverseCodecs.Reverse | auto-value-moshi-tests/src/main/java/com/ryanharter/auto/value/moshi/test/ReverseList.java:24-30 | position i of the result holds position n-1-i of the input |
| ReverseCodecs.ReverseByAppending | auto-value-moshi-tests/src/main/java/com/ryanharter/auto/value/moshi/test/ReverseList.java:24-30 | the loop from the last index down computes the reversal |
| ReverseCodecs.ReverseInvolution | auto-value-moshi-tests/src/main/java/com/ryanharter/auto/value/moshi/test/ReverseList.java:16-30 | reversing twice is the identity |
| ReverseCodecs.ListRoundTrip | auto-value-moshi-tests/src/main/java/com/ryanharter/auto/value/moshi/test/ReverseList.java:16-22 | the list adapter's read and write (`ListFromJson`, `ListToJson`) are inverse to each other |
| ReverseCodecs.ListExample | auto-value-moshi-tests/src/test/java/com/ryanharter/auto/value/moshi/test/AutoValueMoshiFunctionalTest.java:104-122 | `["one","two","three"]` reads as `["three","two","one"]` |
| ReverseCodecs.StringRoundTrip | auto-value-moshi-tests/src/main/java/com/ryanharter/auto/value/moshi/test/ReverseString.java:15-31 | on UTF-16 units (`StringFromJson`, `StringToJson`), the string adapter's read and write are inverse to each other |
| ReverseCodecs.StringReverseBmp | auto-value-moshi-tests/src/main/java/com/ryanharter/auto/value/moshi/test/ReverseString.java:23-31 | for a string within the Basic Multilingual Plane, reversing the units reverses the characters |
| ReverseCodecs.StringSplitsPairs | auto-value-moshi-tests/src/main/java/com/ryanharter/auto/value/moshi/test/ReverseString.java:23-31 | a character above U+FFFF reads back as its two surrogates swapped, the encoding of no string |
| ReverseCodecs.StringExamples | auto-value-moshi-tests/src/test/java/com/ryanharter/auto/value/moshi/test/AutoValueMoshiFunctionalTest.java:139-171 | the units of "abc" read as those of "cba", and "def" as "fed" |
| Color.Unsigned | example/src/main/java/com/ryanharter/auto/value/moshi/example/hexcolor/ColorAdapter.java:9 | the int is taken as a 32-bit two's complement unsigned value for `%x` |
| Color.HexDigits | example/src/main/java/com/ryanharter/auto/value/moshi/example/hexcolor/ColorAdapter.java:9 | the hex digits are lower-case with no leading zero |
| Color.HexDigitsValue | example/src/main/java/com/ryanharter/auto/value/moshi/example/hexcolor/ColorAdapter.java:9 | the hex digits denote the number (`Value`) |
| Color.PadTo6 | example/src/main/java/com/ryanharter/auto/value/moshi/example/hexcolor/ColorAdapter.java:9 | `%06x` pads on the left with zeros to six digits |
| Color.ParseInt | example/src/main/java/com/ryanharter/auto/value/moshi/example/hexcolor/ColorAdapter.java:13 | a successful parse needs a non-empty string, and every failure is a NumberFormatException |
| Color.FromJson | example/src/main/java/com/ryanharter/auto/value/moshi/example/hexcolor/ColorAdapter.java:12-14 | on the UTF-16 units of the string: an empty string fails with an index error, a surrogate unit after the first fails with a NumberFormatException, and a success needs a unit after the '#' |
| Color.FromChars | example/src/main/java/com/ryanharter/auto/value/moshi/example/hexcolor/ColorAdapter.java:12-14 | read by characters: an empty string fails with an index error, and a success needs a character after the '#' |
| Color.FromJsonBmp | example/src/main/java/com/ryanharter/auto/value/moshi/example/hexcolor/ColorAdapter.java:12-14 | within the Basic Multilingual Plane, reading units and reading characters agree |
| Color.SupplementaryFirstCharRejected | example/src/main/java/com/ryanharter/auto/value/moshi/example/hexcolor/ColorAdapter.java:13 | "\U{1F600}ff" reads as 255 by characters, but `substring(1)` keeps a low surrogate, which `parseInt` rejects |
| Color.FromJsonHash | example/src/main/java/com/ryanharter/auto/value/moshi/example/hexcolor/ColorAdapter.java:13 | read by characters (`FromChars`), dropping the first character leaves the rest to parse |
| Color.ParseUnsigned | example/src/main/java/com/ryanharter/auto/value/moshi/example/hexcolor/ColorAdapter.java:13 | a non-empty string of hex digits below 2^31 parses to the number it denotes |
| Color.ToJsonShape | example/src/main/java/com/ryanharter/auto/value/moshi/example/hexcolor/ColorAdapter.java:8-10 | the output of `ToJson` is '#' followed by lower-case hex digits |
| Color.ToJsonWidth | example/src/main/java/com/ryanharter/auto/value/moshi/example/hexcolor/ColorAdapter.java:8-10 | a 24-bit color is written as exactly seven characters |
| Color.ToJsonBmp | example/src/main/java/com/ryanharter/auto/value/moshi/example/hexcolor/ColorAdapter.java:8-10 | what toJson writes is one UTF-16 unit per character |
| Color.RoundTrip | example/src/main/java/com/ryanharter/auto/value/moshi/example/hexcolor/ColorAdapter.java:6-14 | every non-negative int reads back from the UTF-16 units of what is written |
| Color.RedWritten | example/src/main/java/com/ryanharter/auto/value/moshi/example/hexcolor/ColorAdapter.java:6 | 0xff0000 is written as "#ff0000" |
| Color.RedRead | example/src/main/java/com/ryanharter/auto/value/moshi/example/hexcolor/ColorAdapter.java:6 | the units of "#ff0000" read as 0xff0000 |
| Color.NegativeDoesNotRoundTrip | example/src/main/java/com/ryanharter/auto/value/moshi/example/hexcolor/ColorAdapter.java:8-14 | -1 is written as "#ffffffff", whose units `parseInt` rejects |

## Left out

- The Java code JavaPoet generates, the Filer and its IOExceptions are not modelled. Files are
  values, and `writeTo(Filer)` (auto-value-moshi/src/main/java/com/ryanharter/auto/value/moshi/ProguardConfig.java:55-60) with its error message is not modelled. The same goes
  for the `RuntimeException` wrapping in the qualifier loop (auto-value-moshi/src/main/java/com/ryanharter/auto/value/moshi/ProguardConfig.java:121-125) and the "Failed to write"
  message (auto-value-moshi/src/main/java/com/ryanharter/auto/value/moshi/AutoValueMoshiAdapterFactoryProcessor.java:158-164).
- Strings other than those the `ReverseString` and `ColorAdapter` adapters take apart are
  Dafny strings of characters. Java compares strings by UTF-16 unit, so the sort of qualifier
  names (`Proguard.Sort`) can differ from Java's for characters outside the Basic Multilingual
  Plane.
- AdapterGenerator.NamesArrayAsWritten: wire names are pasted into the NAMES initializer without
  escaping (auto-value-moshi/src/main/java/com/ryanharter/auto/value/moshi/AutoValueMoshiExtension.java:441). `NamesInitializerDenotes` therefore covers only names without a quote or
  backslash. `QuotedNameSplits` shows a name holding `","` becoming two entries; a name with a
  single quote gives Java that does not compile, and that is not modelled.
- LegacyExtension.Branches: for a value class without properties, the legacy `fromJson` closes
  an `if` block it never opened (src/main/java/com/ryanharter/auto/value/moshi/AutoValueMoshiExtension.java:259-271). The model describes the branches, not the Java text, so this is not modelled.
- `Character.digit` accepts non-ASCII digits; `Color.ParseInt` accepts only ASCII hex digits.
- Hash-set iteration order is a parameter, and so is the order of AutoValue's property maps. The
  `synchronizedSet` of the registry is not modelled, because the model has no concurrency.
- Moshi's `Types.generatedJsonAdapterName` and AutoValue's builder introspection are parameters.
- The `JsonReader` and `JsonWriter` streams are modelled as JSON tokens. Lenient parsing,
  numbers, escaping and the reader's path are left out.
- Nested property adapters are the identity codec on JSON values. A real adapter may reject a
  value; the model does not.
- `LimitedContext` is not modelled. Its `packageName` is not modelled either (src/main/java/com/ryanharter/auto/value/moshi/AutoValueMoshiAdapterFactoryProcessor.java:302-305 and
  auto-value-moshi/src/main/java/com/ryanharter/auto/value/moshi/AutoValueMoshiAdapterFactoryProcessor.java:379-382), because neither `applicable` reads it.
- `LegacyFactoryProcessor.CreateJsonAdapterFactory` looks up every adapter method before it builds
  any branch, whereas the source interleaves the two (src/main/java/com/ryanharter/auto/value/moshi/AutoValueMoshiAdapterFactoryProcessor.java:138-163). The exception discards the
  whole class, so the order cannot be observed.
- Generic value classes in the legacy processor: a branch compares raw class names, and the
  class literal of a generic property type is not modelled.
- `TypeHierarchy.SearchAsWrittenSound`: the as-written search is run with a step bound (`fuel`).
  `None` stands for "has not returned yet", so non-termination is stated as `None` for every
  bound. The rounds as written (`FactoryProcessor.ProcessRoundAsWritten`,
  `LegacyFactoryProcessor.FactoryLoop`) pass the same bound to every factory's search.
- The processor's `getSupportedAnnotationTypes`, `getSupportedSourceVersion`, `init`,
  `incrementalType` and `mustBeAtEnd` only configure the annotation-processing framework and
  are not modelled.

## Findings

| source | as written | input that shows it | evidently intended | confidence | as-written member | corrected member |
|---|---|---|---|---|---|---|
| auto-value-moshi/src/main/java/com/ryanharter/auto/value/moshi/AutoValueMoshiAdapterFactoryProcessor.java:321-339 | after an interface fails, `iface` becomes the superclass of the root element, not of the interface; the legacy processor repeats the loop at src/main/java/com/ryanharter/auto/value/moshi/AutoValueMoshiAdapterFactoryProcessor.java:245-263 | `abstract class MyFactory implements Marker, JsonAdapter.Factory`: the loop stays on `java.lang.Object` forever | move up the interface's own supertypes, then try the next interface | high; not executed | StuckSearch.SearchNeverReturnsAsWritten | StuckSearch.SearchAcceptsCorrected |
| auto-value-moshi/src/main/java/com/ryanharter/auto/value/moshi/AutoValueMoshiAdapterFactoryProcessor.java:119-147 | the filter calls `getJsonAdapterMethod`, which throws AssertionError, for every visible applicable class | a public `@JsonClass(generateAdapter = true, generator = "avm")` class without a static adapter method, in the factory's package | skip classes that have no adapter method | medium; not executed | NativeClassRound.NativeClassAbortsAsWritten | NativeClassRound.NativeClassSkippedCorrected |
| auto-value-moshi/src/main/java/com/ryanharter/auto/value/moshi/AutoValueMoshiAdapterFactoryProcessor.java:344-348 | `classNameOf` keeps the dot of a nested factory, and line 177 pastes it into the generated class name; the legacy processor does the same at src/main/java/com/ryanharter/auto/value/moshi/AutoValueMoshiAdapterFactoryProcessor.java:114 | `FunctionalTestsAdapterFactory.NestedFactoryForNaming` gives `AutoValueMoshi_FunctionalTestsAdapterFactory.NestedFactoryForNaming` | `AutoValueMoshi_FunctionalTestsAdapterFactory_NestedFactoryForNaming`, the name auto-value-moshi-tests/src/main/java/com/ryanharter/auto/value/moshi/test/FunctionalTestsAdapterFactory.java:16 loads | medium; not executed | ElementNames.NestedFactoryNameAsWritten | ElementNames.NestedFactoryNameCorrected |
| src/main/java/com/ryanharter/auto/value/moshi/AutoValueMoshiExtension.java:177 | the per-class factory tests `type instanceof Foo` on a `java.lang.reflect.Type` | a request for `test.Test` gets null, so the registry never answers | compare the type with `Foo.class` | high; not executed | LegacyExtension.CreateNeverServesAsWritten | LegacyExtension.RegisteredClassServed |
| auto-value-moshi/src/main/java/com/ryanharter/auto/value/moshi/AutoValueMoshiExtension.java:441 | the NAMES initializer joins the names inside `{"` and `"}` | a class without serialized properties gets `{""}`; a member named "" is then selected as option 0, no case handles it, and `skipName` fails on its value | `{}`, so that "" is skipped like any unknown name | medium; not executed | EmptyNamesTable.EmptyNameNotSkippedAsWritten | EmptyNamesTable.EmptyNameSkippedCorrected |
| src/main/java/com/ryanharter/auto/value/moshi/AutoValueMoshiExtension.java:226-227 | `toJson` calls `value.<property name>()` | a getter-style class with `getName()` (property `name`) is written through `name()`, which does not exist | call the accessor method | medium; not executed | LegacyExtension.GetterStyleAsWritten | LegacyExtension.GetterStyleCorrected |
| src/main/java/com/ryanharter/auto/value/moshi/AutoValueMoshiAdapterFactoryProcessor.java:206-220 | the adapter-method lookup also accepts any static public method with a parameterized return type | a `static List<String> names()` declared before `jsonAdapter(Moshi)` is picked | accept only a method returning a JsonAdapter | low; not executed | LegacyFactoryProcessor.HelperPickedAsWritten | LegacyFactoryProcessor.HelperSkippedCorrected |
