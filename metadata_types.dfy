/**
 * The type-level facts the subtypes validator consults, as plain values.
 *
 * A `MType` stands for a metadata type of an extension model. Its fields are
 * the answers of the helpers the validator calls on it (`getId`, `getAlias`,
 * `getTopLevelTypeName`, `isFinal`, `isInstantiable`,
 * `supportsTopLevelDeclaration`, its metadata format and the simple name of
 * the Java class it resolves to). Whether one Java class is assignable from
 * another is not a property of a single type; it is passed around as a
 * relation `Assignable` between a base type and a subtype.
 *
 * A subtypes mapping is a sequence of entries (base type, declared subtypes):
 * the validator iterates over a Java `Map` whose iteration order is not
 * specified, so every order is a possible input.
 */
module MetadataTypes {

  datatype Option<T> = None | Some(value: T)

  /** The metadata format of a type; the validator only asks whether it is JAVA. */
  datatype MetadataFormat = Java | NonJava

  datatype MType = MType(
    id: string,              // MetadataTypeUtils.getId
    alias: string,           // MetadataTypeUtils.getAlias
    topLevelName: string,    // NameUtils.getTopLevelTypeName
    simpleName: string,      // simple name of the Java class the type resolves to
    format: MetadataFormat,
    isFinal: bool,
    instantiable: bool,
    supportsTopLevel: bool)  // XmlModelUtils.supportsTopLevelDeclaration

  /** `Assignable(base, sub)`: the class of `base` is assignable from the class of `sub`. */
  type Assignable = (MType, MType) -> bool

  /** One entry of the subtypes mapping: a base type and its declared subtypes. */
  datatype Entry = Entry(base: MType, subtypes: seq<MType>)

  type Mapping = seq<Entry>

  /** The extension model, reduced to its name and its optional subtypes-mapping property. */
  datatype ExtensionModel = ExtensionModel(name: string, subtypesMapping: Option<Mapping>)

  /** The key set of the mapping, in iteration order. */
  function Bases(m: Mapping): (r: seq<MType>)
    ensures |r| == |m|
    ensures forall i :: 0 <= i < |m| ==> r[i] == m[i].base
  {
    if m == [] then [] else Bases(m[..|m| - 1]) + [m[|m| - 1].base]
  }

  /**
   * The value lists of the mapping, flattened in iteration order: a type is a
   * flattened subtype exactly when some entry declares it.
   */
  function Subtypes(m: Mapping): (r: seq<MType>)
    ensures forall s :: s in r <==> exists i :: 0 <= i < |m| && s in m[i].subtypes
  {
    if m == [] then []
    else
      var init := m[..|m| - 1];
      assert forall i :: 0 <= i < |init| ==> init[i] == m[i];
      Subtypes(init) + m[|m| - 1].subtypes
  }

  /**
   * Every type the mapping mentions, the keys first: one type per key and per
   * declared subtype, and the first `|m|` types are the bases in entry order.
   */
  function MappedTypes(m: Mapping): (r: seq<MType>)
    ensures |r| == |m| + |Subtypes(m)|
    ensures forall i :: 0 <= i < |m| ==> r[i] == m[i].base
  {
    Bases(m) + Subtypes(m)
  }

  /** A type is mapped exactly when some entry has it as its base or declares it as a subtype. */
  lemma InMappedTypes(m: Mapping, t: MType)
    ensures t in MappedTypes(m) <==> exists i :: 0 <= i < |m| && (t == m[i].base || t in m[i].subtypes)
  {
  }

  /** The number of elements of `ts` that `keep` accepts. */
  function Count(ts: seq<MType>, keep: MType -> bool): (n: nat)
    ensures n <= |ts|
  {
    if ts == [] then 0 else (if keep(ts[0]) then 1 else 0) + Count(ts[1..], keep)
  }

  /**
   * The stream idiom `filter(keep).map(f).collect(toList())`: the image under
   * `f` of the elements of `ts` that `keep` accepts, in their order, one image
   * per accepted element.
   */
  function Select<T>(ts: seq<MType>, keep: MType -> bool, f: MType -> T): (r: seq<T>)
    ensures |r| <= |ts|
  {
    if ts == [] then []
    else (if keep(ts[0]) then [f(ts[0])] else []) + Select(ts[1..], keep, f)
  }

  /**
   * The selection holds exactly the images of the accepted elements and is
   * empty iff nothing is accepted.
   */
  lemma {:induction false} SelectMeaning<T(!new)>(ts: seq<MType>, keep: MType -> bool, f: MType -> T)
    ensures |Select(ts, keep, f)| == Count(ts, keep)
    ensures forall y :: y in Select(ts, keep, f) <==> exists t :: t in ts && keep(t) && f(t) == y
    ensures Select(ts, keep, f) == [] <==> forall t :: t in ts ==> !keep(t)
  {
    if ts != [] {
      SelectMeaning(ts[1..], keep, f);
      assert forall t :: t in ts <==> t == ts[0] || t in ts[1..];
    }
  }

  /** Selecting from a concatenation is concatenating the selections. */
  lemma {:induction false} SelectAppend<T>(a: seq<MType>, b: seq<MType>, keep: MType -> bool, f: MType -> T)
    ensures Select(a + b, keep, f) == Select(a, keep, f) + Select(b, keep, f)
  {
    if a != [] {
      assert (a + b)[0] == a[0] && (a + b)[1..] == a[1..] + b;
      SelectAppend(a[1..], b, keep, f);
    } else {
      assert a + b == b;
    }
  }
}
