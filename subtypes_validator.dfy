/**
 * The extension subtypes validator.
 *
 * Given the subtypes mapping of an extension model, five rules are checked in
 * a fixed order; the first rule that fails rejects the model. Where the Java
 * validator throws an `IllegalModelDefinitionException`, each check here
 * returns `Some(violation)`, carrying what the exception message reports,
 * and `Validate` returns `Invalid(violation)`.
 */
module SubtypesModelValidator {
  import opened MetadataTypes

  /** What each rule reports when it fails (the arguments of its message). */
  datatype Violation =
    | FinalBaseTypes(finalIds: seq<string>)
    | NonInstantiableSubtypes(abstractIds: seq<string>)
    | NonGlobalSubtypes(nonGlobal: seq<MType>)
    | NotAssignable(invalidNames: seq<string>, baseName: string)
    | NameClash(clashing: MType, name: string, previous: MType)

  datatype Outcome = Valid | Invalid(violation: Violation)

  /** The five rules, in the order in which they are checked. */
  datatype Rule = BaseTypeNotFinal | NonAbstractSubtypes | GlobalDeclaration | ExtendsBaseType | NameClashing

  function Rank(rule: Rule): nat
  {
    match rule
    case BaseTypeNotFinal => 0
    case NonAbstractSubtypes => 1
    case GlobalDeclaration => 2
    case ExtendsBaseType => 3
    case NameClashing => 4
  }

  function RuleOf(v: Violation): Rule
  {
    match v
    case FinalBaseTypes(_) => BaseTypeNotFinal
    case NonInstantiableSubtypes(_) => NonAbstractSubtypes
    case NonGlobalSubtypes(_) => GlobalDeclaration
    case NotAssignable(_, _) => ExtendsBaseType
    case NameClash(_, _, _) => NameClashing
  }

  // ---------------------------------------------------------------------------
  // What each rule demands of a mapping, stated independently of the checks.
  // ---------------------------------------------------------------------------

  /** Some top-level name is shared by two unequal types of `ts`. */
  predicate SharesName(ts: seq<MType>)
  {
    exists i, j :: 0 <= i < |ts| && 0 <= j < |ts| && ts[i].topLevelName == ts[j].topLevelName && ts[i] != ts[j]
  }

  predicate RuleHolds(m: Mapping, rule: Rule, assignable: Assignable)
  {
    match rule
    case BaseTypeNotFinal => forall i :: 0 <= i < |m| ==> !m[i].base.isFinal
    case NonAbstractSubtypes => forall s :: s in Subtypes(m) ==> s.instantiable
    case GlobalDeclaration => forall s :: s in Subtypes(m) ==> s.supportsTopLevel
    case ExtendsBaseType => AllAssignable(m, assignable)
    case NameClashing => !SharesName(MappedTypes(m))
  }

  // The filters and projections the checks' streams use.
  predicate IsFinal(t: MType) { t.isFinal }
  predicate NotInstantiable(t: MType) { !t.instantiable }
  predicate NotGlobal(t: MType) { !t.supportsTopLevel }
  function IdOf(t: MType): string { t.id }
  function Itself(t: MType): MType { t }

  // ---------------------------------------------------------------------------
  // Rule 1: base types must not be final.
  // ---------------------------------------------------------------------------

  /** The ids of the final types of `ts`, one per final type. */
  function FinalIds(ts: seq<MType>): (r: seq<string>)
    ensures |r| == Count(ts, IsFinal)
    ensures r == [] <==> forall t :: t in ts ==> !t.isFinal
    ensures forall id :: id in r <==> exists t :: t in ts && t.isFinal && t.id == id
  {
    SelectMeaning(ts, IsFinal, IdOf);
    Select(ts, IsFinal, IdOf)
  }

  /** Only the keys are inspected; the offenders are the ids of every final key, one per final key. */
  function CheckBaseTypeNotFinal(m: Mapping): (r: Option<Violation>)
    ensures r.None? <==> forall i :: 0 <= i < |m| ==> !m[i].base.isFinal
    ensures r.Some? ==> r.value.FinalBaseTypes? && |r.value.finalIds| == Count(Bases(m), IsFinal)
    ensures r.Some? ==> forall id :: id in r.value.finalIds <==> exists i :: 0 <= i < |m| && m[i].base.isFinal && m[i].base.id == id
  {
    var ids := FinalIds(Bases(m));
    assert forall k :: k in Bases(m) <==> exists i :: 0 <= i < |m| && m[i].base == k;
    if ids == [] then None else Some(FinalBaseTypes(ids))
  }

  /** Two mappings with the same keys in the same order pass or fail rule 1 alike. */
  lemma {:induction false} BaseCheckIgnoresSubtypes(m: Mapping, m': Mapping)
    requires |m| == |m'|
    requires forall i :: 0 <= i < |m| ==> m[i].base == m'[i].base
    ensures CheckBaseTypeNotFinal(m) == CheckBaseTypeNotFinal(m')
  {
    assert Bases(m) == Bases(m');
  }

  // ---------------------------------------------------------------------------
  // Rule 2: subtypes must be instantiable.
  // ---------------------------------------------------------------------------

  /** The ids of the non-instantiable types of `ts`, one per such type. */
  function NonInstantiableIds(ts: seq<MType>): (r: seq<string>)
    ensures |r| == Count(ts, NotInstantiable)
    ensures r == [] <==> forall t :: t in ts ==> t.instantiable
    ensures forall id :: id in r <==> exists t :: t in ts && !t.instantiable && t.id == id
  {
    SelectMeaning(ts, NotInstantiable, IdOf);
    Select(ts, NotInstantiable, IdOf)
  }

  /**
   * Rule 2 over the flattened value lists: fails iff some subtype is not
   * instantiable, reporting the ids of all such subtypes in order.
   */
  function NonAbstractSpec(m: Mapping): (r: Option<Violation>)
    ensures r.None? <==> forall s :: s in Subtypes(m) ==> s.instantiable
    ensures r.Some? ==> r.value.NonInstantiableSubtypes? && |r.value.abstractIds| == Count(Subtypes(m), NotInstantiable)
    ensures r.Some? ==> forall id :: id in r.value.abstractIds <==> exists s :: s in Subtypes(m) && !s.instantiable && s.id == id
  {
    var ids := NonInstantiableIds(Subtypes(m));
    if ids == [] then None else Some(NonInstantiableSubtypes(ids))
  }

  /**
   * Appends, entry by entry, the ids of the non-instantiable subtypes; fails
   * with all of them, which are those of the flattened value lists.
   */
  method CheckNonAbstractSubtypes(m: Mapping) returns (r: Option<Violation>)
    ensures r == NonAbstractSpec(m)
  {
    var abstractSubtypes: seq<string> := [];
    for i := 0 to |m|
      invariant abstractSubtypes == NonInstantiableIds(Subtypes(m[..i]))
    {
      assert m[..i + 1][..i] == m[..i];
      SelectAppend(Subtypes(m[..i]), m[i].subtypes, NotInstantiable, IdOf);
      abstractSubtypes := abstractSubtypes + NonInstantiableIds(m[i].subtypes);
    }
    assert m[..|m|] == m;
    if abstractSubtypes != [] {
      return Some(NonInstantiableSubtypes(abstractSubtypes));
    }
    return None;
  }

  // ---------------------------------------------------------------------------
  // Rule 3: subtypes must support top-level declaration.
  // ---------------------------------------------------------------------------

  /** The types of `ts` that cannot be declared globally, one entry per such type. */
  function NonGlobal(ts: seq<MType>): (r: seq<MType>)
    ensures |r| == Count(ts, NotGlobal)
    ensures r == [] <==> forall t :: t in ts ==> t.supportsTopLevel
    ensures forall t :: t in r <==> t in ts && !t.supportsTopLevel
  {
    SelectMeaning(ts, NotGlobal, Itself);
    Select(ts, NotGlobal, Itself)
  }

  /** Only the value lists are inspected; the offenders are the subtypes that cannot be global. */
  function CheckSubtypesSupportGlobalDeclaration(m: Mapping): (r: Option<Violation>)
    ensures r.None? <==> forall s :: s in Subtypes(m) ==> s.supportsTopLevel
    ensures r.Some? ==> r.value.NonGlobalSubtypes? && |r.value.nonGlobal| == Count(Subtypes(m), NotGlobal)
    ensures r.Some? ==> forall t :: t in r.value.nonGlobal <==> t in Subtypes(m) && !t.supportsTopLevel
  {
    var nonGlobalTypes := NonGlobal(Subtypes(m));
    if nonGlobalTypes == [] then None else Some(NonGlobalSubtypes(nonGlobalTypes))
  }

  /** Two mappings with the same value lists in the same order pass or fail rule 3 alike. */
  lemma {:induction false} GlobalCheckIgnoresBases(m: Mapping, m': Mapping)
    requires |m| == |m'|
    requires forall i :: 0 <= i < |m| ==> m[i].subtypes == m'[i].subtypes
    ensures CheckSubtypesSupportGlobalDeclaration(m) == CheckSubtypesSupportGlobalDeclaration(m')
  {
    SameSubtypes(m, m');
  }

  lemma {:induction false} SameSubtypes(m: Mapping, m': Mapping)
    requires |m| == |m'|
    requires forall i :: 0 <= i < |m| ==> m[i].subtypes == m'[i].subtypes
    ensures Subtypes(m) == Subtypes(m')
  {
    if m != [] {
      SameSubtypes(m[..|m| - 1], m'[..|m'| - 1]);
    }
  }

  // ---------------------------------------------------------------------------
  // Rule 4: subtypes of a Java base type must be assignable to it.
  // ---------------------------------------------------------------------------

  /** Simple names of the subtypes in `ts` whose class `base` is not assignable from. */
  function NotAssignableNames(base: MType, ts: seq<MType>, assignable: Assignable): (r: seq<string>)
    ensures r == [] <==> forall s :: s in ts ==> assignable(base, s)
    ensures forall name :: name in r <==> exists s :: s in ts && !assignable(base, s) && s.simpleName == name
  {
    var keep, image := (s: MType) => !assignable(base, s), (s: MType) => s.simpleName;
    SelectMeaning(ts, keep, image);
    Select(ts, keep, image)
  }

  /** The first entry, in iteration order, with a Java base and a non-assignable subtype. */
  function FirstNotAssignable(m: Mapping, assignable: Assignable): (r: Option<Violation>)
    ensures r.Some? ==> r.value.NotAssignable? && r.value.invalidNames != []
  {
    if m == [] then None
    else if m[0].base.format != Java then FirstNotAssignable(m[1..], assignable)
    else
      var invalid := NotAssignableNames(m[0].base, m[0].subtypes, assignable);
      if invalid != [] then Some(NotAssignable(invalid, m[0].base.simpleName))
      else FirstNotAssignable(m[1..], assignable)
  }

  /** Skips non-Java bases and stops at the first entry with an offending subtype. */
  method CheckSubtypesExtendBaseType(m: Mapping, assignable: Assignable) returns (r: Option<Violation>)
    ensures r == FirstNotAssignable(m, assignable)
  {
    for i := 0 to |m|
      invariant FirstNotAssignable(m[i..], assignable) == FirstNotAssignable(m, assignable)
    {
      assert m[i..][1..] == m[i + 1..];
      var subtypes := m[i];
      if subtypes.base.format != Java {
        continue;
      }
      var invalidTypes := NotAssignableNames(subtypes.base, subtypes.subtypes, assignable);
      if invalidTypes != [] {
        return Some(NotAssignable(invalidTypes, subtypes.base.simpleName));
      }
    }
    return None;
  }

  /**
   * Rule 4 fails exactly when some Java base has a non-assignable subtype; the
   * reported entry is the first such one, and its offenders are exactly that
   * entry's non-assignable subtypes.
   */
  lemma {:induction false} FirstNotAssignableMeaning(m: Mapping, assignable: Assignable)
    ensures FirstNotAssignable(m, assignable).None? <==> AllAssignable(m, assignable)
    ensures FirstNotAssignable(m, assignable).Some? ==>
      exists i :: FirstNotAssignableAt(m, assignable, i)
  {
    if m != [] {
      var rest := m[1..];
      FirstNotAssignableMeaning(rest, assignable);
      var r := FirstNotAssignable(m, assignable);
      assert forall i :: 1 <= i < |m| ==> m[i] == rest[i - 1];
      if !EntryAssignable(m[0], assignable) {
        assert r == Some(NotAssignable(NotAssignableNames(m[0].base, m[0].subtypes, assignable), m[0].base.simpleName));
        assert FirstNotAssignableAt(m, assignable, 0) by {
          assert m[..0] == [];
        }
      } else {
        assert r == FirstNotAssignable(rest, assignable);
        if r.Some? {
          var i :| FirstNotAssignableAt(rest, assignable, i);
          assert m[..i + 1] == [m[0]] + rest[..i];
          assert FirstNotAssignableAt(m, assignable, i + 1);
        }
      }
    }
  }

  /** The entries of `m` whose base is a Java type accept every subtype they declare. */
  predicate AllAssignable(m: Mapping, assignable: Assignable)
  {
    forall i :: 0 <= i < |m| ==> EntryAssignable(m[i], assignable)
  }

  predicate EntryAssignable(e: Entry, assignable: Assignable)
  {
    e.base.format == Java ==> forall s :: s in e.subtypes ==> assignable(e.base, s)
  }

  /** Entry `i` is the first one that breaks rule 4, and `FirstNotAssignable` reports its offenders. */
  predicate FirstNotAssignableAt(m: Mapping, assignable: Assignable, i: int)
  {
    && 0 <= i < |m|
    && !EntryAssignable(m[i], assignable)
    && AllAssignable(m[..i], assignable)
    && FirstNotAssignable(m, assignable)
       == Some(NotAssignable(NotAssignableNames(m[i].base, m[i].subtypes, assignable), m[i].base.simpleName))
  }

  // ---------------------------------------------------------------------------
  // Rule 5: no two unequal mapped types may share a top-level name.
  // ---------------------------------------------------------------------------

  /** The type a name-keyed map holds for `name` after putting `ts` in order: the last one with that name. */
  function LastWithName(ts: seq<MType>, name: string): (r: Option<MType>)
    ensures r.Some? ==> r.value.topLevelName == name
  {
    if ts == [] then None
    else if ts[|ts| - 1].topLevelName == name then Some(ts[|ts| - 1])
    else LastWithName(ts[..|ts| - 1], name)
  }

  /** No type is held for `name` iff no type of `ts` has that name. */
  lemma {:induction false} LastWithNameMeaning(ts: seq<MType>, name: string)
    ensures LastWithName(ts, name).Some? ==> LastWithName(ts, name).value in ts && LastWithName(ts, name).value.topLevelName == name
    ensures LastWithName(ts, name).None? <==> forall t :: t in ts ==> t.topLevelName != name
  {
    if ts != [] {
      var init := ts[..|ts| - 1];
      LastWithNameMeaning(init, name);
      assert ts == init + [ts[|ts| - 1]];
    }
  }

  /**
   * Puts the types of `ts` one by one into a name-keyed map and fails on the
   * first type that displaces an unequal one.
   */
  function NameClashSpec(ts: seq<MType>): (r: Option<Violation>)
    ensures r.Some? ==> r.value.NameClash? && r.value.clashing in ts && r.value.previous in ts
    ensures r.Some? ==> r.value.clashing != r.value.previous
    ensures r.Some? ==> r.value.clashing.topLevelName == r.value.name == r.value.previous.topLevelName
  {
    if ts == [] then None
    else
      var init, t := ts[..|ts| - 1], ts[|ts| - 1];
      match NameClashSpec(init)
      case Some(v) => Some(v)
      case None => ClashOnPut(init, t)
  }

  /** Putting `t` after `init`: a clash when the type it displaces is a different one. */
  function ClashOnPut(init: seq<MType>, t: MType): (r: Option<Violation>)
    ensures r.Some? ==> r.value.NameClash? && r.value.clashing == t && r.value.name == t.topLevelName
    ensures r.Some? ==> r.value.previous in init && r.value.previous != t && r.value.previous.topLevelName == t.topLevelName
  {
    LastWithNameMeaning(init, t.topLevelName);
    match LastWithName(init, t.topLevelName)
    case Some(p) => if p != t then Some(NameClash(t, t.topLevelName, p)) else None
    case None => None
  }

  /** Once a prefix clashes, the whole sequence reports that same clash. */
  lemma {:induction false} ClashPersists(ts: seq<MType>, k: nat)
    requires k <= |ts|
    requires NameClashSpec(ts[..k]).Some?
    ensures NameClashSpec(ts) == NameClashSpec(ts[..k])
  {
    if k < |ts| {
      var init := ts[..|ts| - 1];
      assert init[..k] == ts[..k];
      ClashPersists(init, k);
    } else {
      assert ts[..k] == ts;
    }
  }

  /** The map-based check fails exactly when some name is shared by two unequal types. */
  lemma {:induction false} NameClashSpecMeaning(ts: seq<MType>)
    ensures NameClashSpec(ts).None? <==> !SharesName(ts)
  {
    if ts != [] {
      var init, t := ts[..|ts| - 1], ts[|ts| - 1];
      NameClashSpecMeaning(init);
      assert forall i :: 0 <= i < |init| ==> ts[i] == init[i];
      if NameClashSpec(init).Some? {
        var i, j :| 0 <= i < |init| && 0 <= j < |init| && init[i].topLevelName == init[j].topLevelName && init[i] != init[j];
        assert ts[i] == init[i] && ts[j] == init[j];
      } else {
        LastWithNameMeaning(init, t.topLevelName);
        match LastWithName(init, t.topLevelName)
        case Some(p) =>
          var k :| 0 <= k < |init| && init[k] == p;
          if p != t {
            assert ts[k] == p && ts[|ts| - 1] == t;
          } else {
            NoOtherWithName(ts, init, t);
          }
        case None =>
          NoOtherWithName(ts, init, t);
      }
    }
  }

  /** Helper: when `init` has no clash and every type of `init` named like `t` is `t`, neither has `init + [t]`. */
  lemma NoOtherWithName(ts: seq<MType>, init: seq<MType>, t: MType)
    requires ts == init + [t]
    requires !SharesName(init)
    requires forall u :: u in init && u.topLevelName == t.topLevelName ==> u == t
    ensures !SharesName(ts)
  {
  }

  /**
   * A reported clash is the first one: the clashing type sits at some index
   * `j` of `ts`, nothing before `j` clashes, and the previous type is the last
   * one before `j` with the same name.
   */
  lemma {:induction false} NameClashIsFirst(ts: seq<MType>)
    requires NameClashSpec(ts).Some?
    ensures exists j ::
      && 0 < j < |ts|
      && ts[j] == NameClashSpec(ts).value.clashing
      && !SharesName(ts[..j])
      && LastWithName(ts[..j], NameClashSpec(ts).value.name) == Some(NameClashSpec(ts).value.previous)
  {
    var init := ts[..|ts| - 1];
    if NameClashSpec(init).Some? {
      NameClashIsFirst(init);
      var j :| 0 < j < |init| && init[j] == NameClashSpec(init).value.clashing && !SharesName(init[..j]) &&
        LastWithName(init[..j], NameClashSpec(init).value.name) == Some(NameClashSpec(init).value.previous);
      assert init[..j] == ts[..j];
    } else {
      NameClashSpecMeaning(init);
      assert ts[..|ts| - 1] == init;
    }
  }

  /** Putting again a type that is already mapped never causes a clash by itself. */
  lemma RepeatedTypeNeverClashes(ts: seq<MType>, t: MType)
    requires t in ts
    ensures NameClashSpec(ts + [t]) == NameClashSpec(ts)
  {
    var ts' := ts + [t];
    assert ts'[..|ts'| - 1] == ts;
    if NameClashSpec(ts).None? {
      NameClashSpecMeaning(ts);
      LastWithNameMeaning(ts, t.topLevelName);
      var p := LastWithName(ts, t.topLevelName).value;
      var i :| 0 <= i < |ts| && ts[i] == p;
      var j :| 0 <= j < |ts| && ts[j] == t;
      assert p == t;
    }
  }

  /** What `get(name)` returns on a name-keyed map: the `null` of a missing key is `None`. */
  function Held(typesByName: map<string, MType>, name: string): (r: Option<MType>)
    ensures r.None? <==> name !in typesByName
    ensures r.Some? ==> r.value in typesByName.Values
  {
    if name in typesByName then Some(typesByName[name]) else None
  }

  /** `typesByName` holds, for every name, the last type of `ts` with that name. */
  ghost predicate Tracks(typesByName: map<string, MType>, ts: seq<MType>)
  {
    forall name :: Held(typesByName, name) == LastWithName(ts, name)
  }

  /**
   * Helper: one `put` of `ts[i]` keeps the map in step with the longer prefix,
   * and clashes exactly when it displaces an unequal type.
   */
  lemma PutOne(ts: seq<MType>, i: nat, before: map<string, MType>)
    requires i < |ts|
    requires NameClashSpec(ts[..i]).None?
    requires Tracks(before, ts[..i])
    ensures Tracks(before[ts[i].topLevelName := ts[i]], ts[..i + 1])
    ensures var previous := Held(before, ts[i].topLevelName);
      NameClashSpec(ts[..i + 1]) ==
        if previous.Some? && previous.value != ts[i] then Some(NameClash(ts[i], ts[i].topLevelName, previous.value)) else None
  {
    var prefix := ts[..i + 1];
    assert prefix[..i] == ts[..i] && prefix[i] == ts[i] && |prefix| == i + 1;
    var after := before[ts[i].topLevelName := ts[i]];
    forall name
      ensures Held(after, name) == LastWithName(prefix, name)
    {
    }
  }

  /** Fills `typesByName` in order and compares each type with the one it displaces. */
  method CheckSubtypesNameClashing(m: Mapping) returns (r: Option<Violation>)
    ensures r == NameClashSpec(MappedTypes(m))
  {
    var mappedTypes := Bases(m) + Subtypes(m);
    var typesByName: map<string, MType> := map[];
    for i := 0 to |mappedTypes|
      invariant NameClashSpec(mappedTypes[..i]).None?
      invariant Tracks(typesByName, mappedTypes[..i])
    {
      var t := mappedTypes[i];
      var name := t.topLevelName;
      var previousType := Held(typesByName, name);
      PutOne(mappedTypes, i, typesByName);
      typesByName := typesByName[name := t];
      if previousType.Some? && previousType.value != t {
        ClashPersists(mappedTypes, i + 1);
        return Some(NameClash(t, name, previousType.value));
      }
    }
    assert mappedTypes[..|mappedTypes|] == mappedTypes;
    return None;
  }

  // ---------------------------------------------------------------------------
  // validate: the five rules in order.
  // ---------------------------------------------------------------------------

  /** What the check of `rule` reports on `m` (for rules 2, 4 and 5, the specification of its method). */
  function CheckResult(m: Mapping, rule: Rule, assignable: Assignable): (r: Option<Violation>)
    ensures r.Some? ==> RuleOf(r.value) == rule
  {
    match rule
    case BaseTypeNotFinal => CheckBaseTypeNotFinal(m)
    case NonAbstractSubtypes => NonAbstractSpec(m)
    case GlobalDeclaration => CheckSubtypesSupportGlobalDeclaration(m)
    case ExtendsBaseType => FirstNotAssignable(m, assignable)
    case NameClashing => NameClashSpec(MappedTypes(m))
  }

  /** The outcome of validation: no mapping is valid; otherwise the first failing rule is reported. */
  function Verdict(model: ExtensionModel, assignable: Assignable): (r: Outcome)
    ensures model.subtypesMapping.None? ==> r == Valid
    ensures r.Invalid? ==> model.subtypesMapping.Some?
  {
    match model.subtypesMapping
    case None => Valid
    case Some(m) =>
      if CheckResult(m, BaseTypeNotFinal, assignable).Some? then Invalid(CheckResult(m, BaseTypeNotFinal, assignable).value)
      else if CheckResult(m, NonAbstractSubtypes, assignable).Some? then Invalid(CheckResult(m, NonAbstractSubtypes, assignable).value)
      else if CheckResult(m, GlobalDeclaration, assignable).Some? then Invalid(CheckResult(m, GlobalDeclaration, assignable).value)
      else if CheckResult(m, ExtendsBaseType, assignable).Some? then Invalid(CheckResult(m, ExtendsBaseType, assignable).value)
      else if CheckResult(m, NameClashing, assignable).Some? then Invalid(CheckResult(m, NameClashing, assignable).value)
      else Valid
  }

  method Validate(model: ExtensionModel, assignable: Assignable) returns (r: Outcome)
    ensures r == Verdict(model, assignable)
    ensures model.subtypesMapping.None? ==> r == Valid
  {
    if model.subtypesMapping.None? {
      return Valid;
    }
    var typesMapping := model.subtypesMapping.value;
    var v := CheckBaseTypeNotFinal(typesMapping);
    assert v == CheckResult(typesMapping, BaseTypeNotFinal, assignable);
    if v.Some? {
      return Invalid(v.value);
    }
    v := CheckNonAbstractSubtypes(typesMapping);
    assert v == CheckResult(typesMapping, NonAbstractSubtypes, assignable);
    if v.Some? {
      return Invalid(v.value);
    }
    v := CheckSubtypesSupportGlobalDeclaration(typesMapping);
    assert v == CheckResult(typesMapping, GlobalDeclaration, assignable);
    if v.Some? {
      return Invalid(v.value);
    }
    v := CheckSubtypesExtendBaseType(typesMapping, assignable);
    assert v == CheckResult(typesMapping, ExtendsBaseType, assignable);
    if v.Some? {
      return Invalid(v.value);
    }
    v := CheckSubtypesNameClashing(typesMapping);
    assert v == CheckResult(typesMapping, NameClashing, assignable);
    if v.Some? {
      return Invalid(v.value);
    }
    return Valid;
  }

  /** Each rule's check fails exactly when the rule does not hold. */
  lemma CheckFailsIffRuleBroken(m: Mapping, rule: Rule, assignable: Assignable)
    ensures CheckResult(m, rule, assignable).None? <==> RuleHolds(m, rule, assignable)
  {
    match rule
    case ExtendsBaseType => FirstNotAssignableMeaning(m, assignable);
    case NameClashing => NameClashSpecMeaning(MappedTypes(m));
    case _ =>
  }

  /** Validation succeeds iff the model has no mapping or all five rules hold. */
  lemma ValidIffAllRulesHold(model: ExtensionModel, assignable: Assignable)
    ensures Verdict(model, assignable) == Valid <==>
      model.subtypesMapping.None? || forall rule :: RuleHolds(model.subtypesMapping.value, rule, assignable)
  {
    if model.subtypesMapping.Some? {
      var m := model.subtypesMapping.value;
      forall rule ensures CheckResult(m, rule, assignable).None? <==> RuleHolds(m, rule, assignable) {
        CheckFailsIffRuleBroken(m, rule, assignable);
      }
      if Verdict(model, assignable) != Valid {
        var v := Verdict(model, assignable).violation;
        assert CheckResult(m, RuleOf(v), assignable).Some?;
      }
    }
  }

  /**
   * A rejection reports the first rule, in checking order, that does not hold,
   * with exactly the violation that rule's check reports.
   */
  lemma FirstFailingRuleReported(model: ExtensionModel, assignable: Assignable)
    requires Verdict(model, assignable).Invalid?
    ensures model.subtypesMapping.Some?
    ensures !RuleHolds(model.subtypesMapping.value, RuleOf(Verdict(model, assignable).violation), assignable)
    ensures forall rule :: Rank(rule) < Rank(RuleOf(Verdict(model, assignable).violation)) ==>
      RuleHolds(model.subtypesMapping.value, rule, assignable)
    ensures CheckResult(model.subtypesMapping.value, RuleOf(Verdict(model, assignable).violation), assignable)
      == Some(Verdict(model, assignable).violation)
  {
    var m := model.subtypesMapping.value;
    forall rule ensures CheckResult(m, rule, assignable).None? <==> RuleHolds(m, rule, assignable) {
      CheckFailsIffRuleBroken(m, rule, assignable);
    }
    var v := Verdict(model, assignable).violation;
    assert CheckResult(m, RuleOf(v), assignable) == Some(v);
  }
}
