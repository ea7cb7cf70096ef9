# Extension subtypes validator — a Dafny model

This project models `SubtypesModelValidator`. It is the extension-model
validator of the Mule runtime. It checks the subtypes mapping declared by an
extension: each base type mapped to the list of subtypes that may stand in for
it. If the model carries no subtypes-mapping property, `validate` accepts it
unchecked. Otherwise five rules run in a fixed order, and the first rule that
fails rejects the model:

1. no base type (key) is final;
2. every subtype is instantiable;
3. every subtype supports top-level (global) declaration;
4. for every base type in the JAVA metadata format, the base class is
   assignable from the class of each of its subtypes;
5. no two unequal mapped types (keys first, then the flattened value lists)
   share a top-level type name.

Files:

- `metadata_types.dfy` (module `MetadataTypes`) holds the type-level facts the
  validator consults. A metadata type is the record `MType`. Its fields are the
  answers of the helpers the validator calls: id, alias, top-level type name,
  the simple name of its Java class, metadata format, final, instantiable and
  supports-top-level-declaration. Java class assignability is an uninterpreted
  relation `Assignable(base, sub)`, passed as a parameter. The mapping is a
  sequence of `Entry(base, subtypes)`, because the iteration order of the
  Java validator's `Map` is unspecified, so every order is a possible input. `Select`
  is the `filter(..).map(..).collect(toList())` stream idiom.
- `subtypes_validator.dfy` (module `SubtypesModelValidator`) holds the five
  checks, `Validate`, and the properties proved about them. Where the Java validator
  throws `IllegalModelDefinitionException`, a check returns
  `Some(violation)` and `Validate` returns `Invalid(violation)`. The violation
  carries what the exception message reports: the ids of the final bases, the
  ids of the non-instantiable subtypes, the non-global subtypes, the simple
  names of the non-assignable subtypes with the base's simple name, or the
  clashing type with its name and the type it displaced.

The checks follow the Java validator's form. Rules 1 and 3 are stream expressions, so
they are functions. Rule 2 appends into a list entry by entry. Rule 4 loops
over the entries with `continue` and an early exit. Rule 5 fills a
`map<string, MType>` (the Java validator's `HashMap typesByName`) and compares each
type with the one its `put` displaces. Those three are methods with loops, and
each is proved equal to a specification function. Each rule also has an
independent statement, `RuleHolds`. `CheckFailsIffRuleBroken` proves that every
check fails exactly when its rule is broken. For rule 5, `NameClashSpecMeaning`
proves the map-based check equivalent to "some name is shared by two unequal
types".

Validation reads only. The mapping and the model are values, and no method
has a `modifies` clause, so neither can change, whether validation succeeds or
fails. The only local mutable state is the offender list of rule 2 and the map
of rule 5, both local variables of their methods.

## Model

| member | source | states |
|---|---|---|
| `SubtypesModelValidator.Validate` | modules/extensions-support/src/main/java/org/mule/runtime/module/extension/internal/introspection/validation/SubtypesModelValidator.java:46-56 | Running the five checks in order gives `Verdict(model)`. A model without a subtypes mapping is `Valid`. |
| `SubtypesModelValidator.Verdict` | modules/extensions-support/src/main/java/org/mule/runtime/module/extension/internal/introspection/validation/SubtypesModelValidator.java:46-56 | Without a subtypes mapping the outcome is valid. A rejection happens only with a mapping. |
| `SubtypesModelValidator.ValidIffAllRulesHold` | modules/extensions-support/src/main/java/org/mule/runtime/module/extension/internal/introspection/validation/SubtypesModelValidator.java:49-55 | Validation succeeds iff there is no mapping, or all five rules hold (both directions). |
| `SubtypesModelValidator.FirstFailingRuleReported` | modules/extensions-support/src/main/java/org/mule/runtime/module/extension/internal/introspection/validation/SubtypesModelValidator.java:50-54 | On a rejection, the reported rule does not hold, and every rule checked before it does hold. Its violation, offenders included, is exactly what that rule's check reports. |
| `SubtypesModelValidator.CheckFailsIffRuleBroken` | modules/extensions-support/src/main/java/org/mule/runtime/module/extension/internal/introspection/validation/SubtypesModelValidator.java:58-135 | For each of the five rules, its check reports nothing exactly when the rule holds. |
| `SubtypesModelValidator.CheckResult` | modules/extensions-support/src/main/java/org/mule/runtime/module/extension/internal/introspection/validation/SubtypesModelValidator.java:50-54 | A violation reported by a rule's check names that rule. |
| `SubtypesModelValidator.FinalIds` | modules/extensions-support/src/main/java/org/mule/runtime/module/extension/internal/introspection/validation/SubtypesModelValidator.java:73-76 | The ids collected are exactly the ids of the final types, one id per final type (the length is the number of final types). The list is empty iff no type is final. |
| `SubtypesModelValidator.CheckBaseTypeNotFinal` | modules/extensions-support/src/main/java/org/mule/runtime/module/extension/internal/introspection/validation/SubtypesModelValidator.java:72-82 | Fails iff some key is final. The offenders are exactly the ids of the final keys, one id per final key. |
| `SubtypesModelValidator.BaseCheckIgnoresSubtypes` | modules/extensions-support/src/main/java/org/mule/runtime/module/extension/internal/introspection/validation/SubtypesModelValidator.java:73-76 | Two mappings with the same keys in the same order get the same rule-1 result: subtypes are not inspected. |
| `SubtypesModelValidator.NonInstantiableIds` | modules/extensions-support/src/main/java/org/mule/runtime/module/extension/internal/introspection/validation/SubtypesModelValidator.java:87-88 | The ids collected are exactly those of the non-instantiable types, one id per such type. The list is empty iff all types are instantiable. |
| `SubtypesModelValidator.NonAbstractSpec` | modules/extensions-support/src/main/java/org/mule/runtime/module/extension/internal/introspection/validation/SubtypesModelValidator.java:84-95 | Rule 2 fails iff some subtype in any value list is not instantiable. The offenders are exactly the ids of the non-instantiable subtypes, one id per such subtype. |
| `SubtypesModelValidator.CheckNonAbstractSubtypes` | modules/extensions-support/src/main/java/org/mule/runtime/module/extension/internal/introspection/validation/SubtypesModelValidator.java:84-96 | The loop appends, entry by entry, each entry's non-instantiable subtype ids. It computes `NonAbstractSpec`, the same filter over the flattened value lists. |
| `SubtypesModelValidator.NonGlobal` | modules/extensions-support/src/main/java/org/mule/runtime/module/extension/internal/introspection/validation/SubtypesModelValidator.java:60-62 | Keeps exactly the types that do not support top-level declaration, one entry per such type. The list is empty iff every type supports it. |
| `SubtypesModelValidator.CheckSubtypesSupportGlobalDeclaration` | modules/extensions-support/src/main/java/org/mule/runtime/module/extension/internal/introspection/validation/SubtypesModelValidator.java:58-70 | Fails iff some flattened subtype cannot be declared globally. The offenders are exactly those subtypes, one entry per such subtype. |
| `SubtypesModelValidator.GlobalCheckIgnoresBases` | modules/extensions-support/src/main/java/org/mule/runtime/module/extension/internal/introspection/validation/SubtypesModelValidator.java:60-62 | Two mappings with the same value lists in the same order get the same rule-3 result: base types are not inspected. |
| `SubtypesModelValidator.NotAssignableNames` | modules/extensions-support/src/main/java/org/mule/runtime/module/extension/internal/introspection/validation/SubtypesModelValidator.java:105-107 | The names collected are exactly the simple names of the subtypes the base is not assignable from. The list is empty iff every subtype is assignable. |
| `SubtypesModelValidator.FirstNotAssignable` | modules/extensions-support/src/main/java/org/mule/runtime/module/extension/internal/introspection/validation/SubtypesModelValidator.java:100-115 | A reported violation is an assignability violation with a non-empty offender list. |
| `SubtypesModelValidator.CheckSubtypesExtendBaseType` | modules/extensions-support/src/main/java/org/mule/runtime/module/extension/internal/introspection/validation/SubtypesModelValidator.java:98-116 | The loop, with its `continue` past non-JAVA bases and its early exit, computes `FirstNotAssignable`. |
| `SubtypesModelValidator.FirstNotAssignableMeaning` | modules/extensions-support/src/main/java/org/mule/runtime/module/extension/internal/introspection/validation/SubtypesModelValidator.java:100-115 | Rule 4 fails iff some JAVA-format base has a non-assignable subtype. The reported entry is the first such entry in iteration order. Its offenders are that entry's non-assignable subtypes. |
| `SubtypesModelValidator.LastWithName` | modules/extensions-support/src/main/java/org/mule/runtime/module/extension/internal/introspection/validation/SubtypesModelValidator.java:125-127 | What `typesByName` holds for a name after the `put`s of a prefix: when a type is held, its top-level name is that name. |
| `SubtypesModelValidator.LastWithNameMeaning` | modules/extensions-support/src/main/java/org/mule/runtime/module/extension/internal/introspection/validation/SubtypesModelValidator.java:125-127 | What the name-keyed map holds for a name is a type of the sequence with that name. Nothing is held iff no type has that name. |
| `SubtypesModelValidator.ClashOnPut` | modules/extensions-support/src/main/java/org/mule/runtime/module/extension/internal/introspection/validation/SubtypesModelValidator.java:127-128 | A `put` clashes only with a different earlier type of the same name, and reports the new type and that name. |
| `SubtypesModelValidator.NameClashSpec` | modules/extensions-support/src/main/java/org/mule/runtime/module/extension/internal/introspection/validation/SubtypesModelValidator.java:125-134 | A reported clash names two unequal types of the sequence with the same top-level name. |
| `SubtypesModelValidator.ClashPersists` | modules/extensions-support/src/main/java/org/mule/runtime/module/extension/internal/introspection/validation/SubtypesModelValidator.java:126-129 | Once a prefix clashes, that clash is the one reported for the whole sequence: the loop stops at the first clash. |
| `SubtypesModelValidator.NameClashSpecMeaning` | modules/extensions-support/src/main/java/org/mule/runtime/module/extension/internal/introspection/validation/SubtypesModelValidator.java:118-135 | The map-based check fails iff some top-level name is shared by two unequal types. |
| `SubtypesModelValidator.NameClashIsFirst` | modules/extensions-support/src/main/java/org/mule/runtime/module/extension/internal/introspection/validation/SubtypesModelValidator.java:126-133 | The reported type sits at an index with no clash before it. The reported previous type is the last earlier type with the same name, the one `put` displaced. |
| `SubtypesModelValidator.RepeatedTypeNeverClashes` | modules/extensions-support/src/main/java/org/mule/runtime/module/extension/internal/introspection/validation/SubtypesModelValidator.java:127-128 | Putting again a type that is already present, such as a key that is also a subtype, never causes a clash by itself. |
| `SubtypesModelValidator.Held` | modules/extensions-support/src/main/java/org/mule/runtime/module/extension/internal/introspection/validation/SubtypesModelValidator.java:127 | What `put` returns as the previous type: nothing (the `null`) iff the name is not a key of the map, otherwise a type the map holds. |
| `SubtypesModelValidator.PutOne` | modules/extensions-support/src/main/java/org/mule/runtime/module/extension/internal/introspection/validation/SubtypesModelValidator.java:127-128 | After one `put`, the map again holds the last type per name. The step clashes iff the `put` displaces an unequal type. |
| `SubtypesModelValidator.CheckSubtypesNameClashing` | modules/extensions-support/src/main/java/org/mule/runtime/module/extension/internal/introspection/validation/SubtypesModelValidator.java:118-136 | Filling `typesByName` over the keys, then the flattened values, computes `NameClashSpec`. By `NameClashSpecMeaning`, it fails iff two unequal mapped types share a top-level name. |
| `MetadataTypes.Bases` | modules/extensions-support/src/main/java/org/mule/runtime/module/extension/internal/introspection/validation/SubtypesModelValidator.java:121 | The key list has one base per entry, in iteration order. |
| `MetadataTypes.Subtypes` | modules/extensions-support/src/main/java/org/mule/runtime/module/extension/internal/introspection/validation/SubtypesModelValidator.java:60 | `values().stream().flatMap(Collection::stream)`: a type is among the flattened values iff some entry declares it. |
| `MetadataTypes.MappedTypes` | modules/extensions-support/src/main/java/org/mule/runtime/module/extension/internal/introspection/validation/SubtypesModelValidator.java:120-123 | The list built for rule 5 holds one type per key and per declared subtype, and starts with the keys, one per entry in entry order. |
| `MetadataTypes.InMappedTypes` | modules/extensions-support/src/main/java/org/mule/runtime/module/extension/internal/introspection/validation/SubtypesModelValidator.java:120-123 | A type is in that list exactly when some entry has it as its key or declares it as a subtype. |
| `MetadataTypes.Select` | modules/extensions-support/src/main/java/org/mule/runtime/module/extension/internal/introspection/validation/SubtypesModelValidator.java:73-76 | The `filter`/`map`/`collect(toList())` stream has no more elements than its source. |
| `MetadataTypes.SelectMeaning` | modules/extensions-support/src/main/java/org/mule/runtime/module/extension/internal/introspection/validation/SubtypesModelValidator.java:73-76 | The filter-map-collect result holds exactly the images of the accepted elements, and its length is the number of accepted elements. It is empty iff nothing is accepted. |
| `MetadataTypes.SelectAppend` | modules/extensions-support/src/main/java/org/mule/runtime/module/extension/internal/introspection/validation/SubtypesModelValidator.java:86-89 | Filtering a concatenation is the concatenation of the filtered parts. This is why rule 2's entry-by-entry `addAll` equals filtering the flattened values. |
| `SubtypesModelValidator.SameSubtypes` | modules/extensions-support/src/main/java/org/mule/runtime/module/extension/internal/introspection/validation/SubtypesModelValidator.java:60 | Mappings with equal value lists, entry by entry, flatten to the same sequence. |

## Left out

- The exception message text is not modelled: no `String.format`, no
  `Arrays.toString`, and no extension name in the message. A violation
  carries only the rule that failed and the values the message would print.
- Java reflection and the metadata helpers are not modelled: `getType`,
  `Class.isAssignableFrom`, `getSimpleName`, `isFinal`, `isInstantiable`,
  `supportsTopLevelDeclaration`, `getTopLevelTypeName`, `getId` and
  `getAlias`. Their answers are fields of `MType`, and assignability is a
  parameter relation. Whatever these helpers might throw is not modelled. For
  example, resolving the class of a subtype that is not in the JAVA format is
  assumed to succeed.
- `MetadataType.equals` is taken to be equality of `MType` records.
- A Java `Map` has distinct keys and a hash-based iteration order. The model
  takes any sequence of entries instead, so it covers every iteration order.
  Nothing in the model depends on the keys being distinct.
- `BaseEventContext.java` is not part of this model. It is an interface whose
  before-response, response and completion publishers are asynchronous
  signals implemented elsewhere. Its static `create` overloads only forward
  their arguments.
- `Latch.java` (a thin wrapper over a count-down latch),
  `SessionVarEnricherDataTypePropagator.java` (a delegation to a session
  property store not shown) and `BananaConfig.java` (an annotation-only test
  fixture) have no logic to verify and are not part of this model.
