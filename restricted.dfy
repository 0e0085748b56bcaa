/**
 * The restricted node as a whole: the tag text, the named constructor that
 * picks the variant, the double dispatch of the dependency query, and what
 * the codes mean across the three variants.
 */
module RestrictedNodes {
  import opened Exceptions
  import opened CppString
  import opened Schema
  import Lists
  import Maps
  import Enums

  /** operator<<(RestrictedTypes): the text written for a tag. */
  function TagText(t: RestrictedTypes): (text: string)
    ensures t == ListTag <==> text == "list"
    ensures t == MapTag <==> text == "map"
    ensures t == EnumTag <==> text == "enum"
  {
    match t
    case ListTag => "list"
    case MapTag => "map"
    case EnumTag => "enum"
  }

  /** Different tags are written differently. */
  lemma TagTextInjective(a: RestrictedTypes, b: RestrictedTypes)
    ensures TagText(a) == TagText(b) <==> a == b
  {
  }

  /**
   * The names the parsers handle: any name whose positions fit a size_t,
   * and for a map a name whose positions fit the `uint` of Map::mapType.
   */
  predicate NameFits(name: string, isMap: bool)
  {
    |name| < NPOS && (isMap ==> |name| < UINT_RANGE)
  }

  /** The message of the runtime_error the factory throws. */
  const UNKNOWN_RESTRICTED_TYPE: string := "Unknown restricted type"

  /**
   * Restricted::make: a "list" source with no choices makes a List, a
   * "list" source with choices an Enum (AMQP has no enumeration of its own);
   * a "map" source makes a Map, whose name parser may throw out_of_range;
   * any other source throws runtime_error.
   */
  function Make(descriptor: Descriptor, name: string, labelText: string, provided: seq<string>,
                source: string, choices: seq<Choice>): (r: Result<Restricted>)
    requires NameFits(name, source == "map")
    ensures source != "list" && source != "map" ==> r == Throw(RuntimeError(UNKNOWN_RESTRICTED_TYPE))
    ensures source == "list" ==> r.Ok?
    ensures source == "map" ==> (r.Throw? <==> Maps.MapNameParts(name).Throw?)
    ensures r.Ok? ==> r.value.descriptor == descriptor && r.value.name == name &&
                      r.value.labelText == labelText && r.value.provided == provided
    ensures r.Ok? ==> r.value.NodeType() == RestrictedType
    ensures r.Ok? ==> (r.value.Source() == ListTag <==> source == "list" && choices == [])
    ensures r.Ok? ==> (r.value.Source() == EnumTag <==> source == "list" && choices != [])
    ensures r.Ok? ==> (r.value.Source() == MapTag <==> source == "map")
    ensures r.Ok? && r.value.Enum? ==> r.value.choices == choices
  {
    if source == "list" then
      if choices == [] then Ok(Lists.NewList(descriptor, name, labelText, provided))
      else Ok(Enums.NewEnum(descriptor, name, labelText, provided, choices))
    else if source == "map" then Maps.NewMap(descriptor, name, labelText, provided)
    else Throw(RuntimeError(UNKNOWN_RESTRICTED_TYPE))
  }

  /**
   * The nodes the named constructor can produce: a list whose element is
   * parsed from its name, a map whose key and value are, and an enumeration
   * with at least one choice.
   */
  predicate Constructed(n: Restricted): (r: bool)
    requires NameFits(n.name, n.Map?)
    ensures r && n.List? ==> n.Types() == [Lists.ListType(n.name).1]
    ensures r && n.Map? ==> Maps.MapNameParts(n.name).Ok? &&
                            n.Types() == [Maps.MapNameParts(n.name).value.1, Maps.MapNameParts(n.name).value.2]
    ensures n.Enum? ==> (r <==> n.choices != [])
  {
    match n
    case List(_, name, _, _, elem) => elem == Lists.ListType(name).1
    case Map(_, name, _, _, k, v) => Maps.MapNameParts(name).Ok? &&
                                     Maps.MapNameParts(name).value.1 == k && Maps.MapNameParts(name).value.2 == v
    case Enum(_, _, _, _, cs) => cs != []
  }

  /** Everything the named constructor returns is a constructed node. */
  lemma MakeIsConstructed(descriptor: Descriptor, name: string, labelText: string, provided: seq<string>,
                          source: string, choices: seq<Choice>)
    requires NameFits(name, source == "map")
    ensures var r := Make(descriptor, name, labelText, provided, source, choices);
            r.Ok? ==> Constructed(r.value)
  {
  }

  /** Every constructed node is what the named constructor returns for its own fields and the right source text. */
  lemma ConstructedIsMade(n: Restricted)
    requires NameFits(n.name, n.Map?) && Constructed(n)
    ensures n.List? ==> Make(n.descriptor, n.name, n.labelText, n.provided, "list", []) == Ok(n)
    ensures n.Map? ==> forall cs :: Make(n.descriptor, n.name, n.labelText, n.provided, "map", cs) == Ok(n)
    ensures n.Enum? ==> Make(n.descriptor, n.name, n.labelText, n.provided, "list", n.choices) == Ok(n)
  {
    match n
    case List(d, name, l, p, elem) =>
      assert Make(d, name, l, p, "list", []) == Ok(Lists.NewList(d, name, l, p));
    case Map(d, name, l, p, k, v) =>
      forall cs
        ensures Make(d, name, l, p, "map", cs) == Ok(n)
      {
        assert Make(d, name, l, p, "map", cs) == Maps.NewMap(d, name, l, p);
      }
    case Enum(d, name, l, p, cs) =>
      assert Make(d, name, l, p, "list", cs) == Ok(Enums.NewEnum(d, name, l, p, cs));
  }

  /**
   * The text written for a tag is accepted back by the named constructor for
   * lists and maps only: "enum" is rejected as an unknown restricted type.
   */
  lemma MakeFromTagText(descriptor: Descriptor, name: string, labelText: string, provided: seq<string>,
                        t: RestrictedTypes)
    requires NameFits(name, t == MapTag)
    ensures var r := Make(descriptor, name, labelText, provided, TagText(t), []);
            (t == ListTag ==> r.Ok? && r.value.Source() == ListTag) &&
            (t == MapTag ==> (r.Ok? ==> r.value.Source() == MapTag)) &&
            (t == EnumTag ==> r == Throw(RuntimeError(UNKNOWN_RESTRICTED_TYPE)))
  {
    assert TagText(EnumTag) != "list" && TagText(EnumTag) != "map";
  }

  /**
   * Restricted::dependsOn(Restricted): the code of the pair (self, other),
   * found by asking self's dependsOnList, dependsOnMap or dependsOnEnum
   * according to other's tag.
   *
   * Between lists and maps the code reports the reference relation: 2 when
   * self refers to other, 1 when other refers to self, 0 when neither does.
   * When both do, two lists answer 2 (List::dependsOnList checks its own
   * element last, overriding) and every other pair answers 1 (the "other
   * depends on me" test comes first). With an enumeration on either side the
   * rules differ per pair, as stated.
   */
  function DependsOnRestricted(self: Restricted, other: Restricted): (r: Direction)
    ensures !self.Enum? && !other.Enum? ==>
              (r == 0 <==> other.name !in self.Arguments() && self.name !in other.Arguments())
    ensures !self.Enum? && !other.Enum? && r == 2 ==> other.name in self.Arguments()
    ensures !self.Enum? && !other.Enum? && r == 1 ==> self.name in other.Arguments()
    ensures !self.Enum? && !other.Enum? && other.name in self.Arguments() && self.name in other.Arguments() ==>
              r == if self.List? && other.List? then 2 else 1
    ensures self.Map? && other.Enum? ==> (r == 1 <==> other.name == self.name)
    ensures self.Map? && other.Enum? ==> (r == 2 <==> other.name != self.name && other.name in self.Arguments())
    ensures self.List? && other.Enum? ==> r == 0
    ensures self.Enum? && other.Map? ==> (r == 1 <==> self.name in other.Arguments()) && r != 2
    ensures self.Enum? && other.List? ==> (r == 2 <==> self.name in other.Arguments()) && r != 1
    ensures self.Enum? && other.Enum? ==> r == 0
  {
    match self
    case List(_, _, _, _, _) =>
      (match other.Source()
       case ListTag => Lists.DependsOnList(self, other)
       case MapTag => Lists.DependsOnMap(self, other)
       case EnumTag => Lists.DependsOnEnum(self, other))
    case Map(_, _, _, _, _, _) =>
      (match other.Source()
       case ListTag => Maps.DependsOnList(self, other)
       case MapTag => Maps.DependsOnMap(self, other)
       case EnumTag => Maps.DependsOnEnum(self, other))
    case Enum(_, _, _, _, _) =>
      (match other.Source()
       case ListTag => Enums.DependsOnList(self, other)
       case MapTag => Enums.DependsOnMap(self, other)
       case EnumTag => Enums.DependsOnEnum(self, other))
  }

  /**
   * The composite check of each variant: List::dependsOn(Composite),
   * Map::dependsOn(Composite) and Enum::dependsOnRHS.
   */
  function DependsOnComposite(self: Restricted, c: Composite): (r: Direction)
    ensures !self.Enum? ==> (r == 2 <==> c.name in self.Arguments())
    ensures !self.Enum? ==> (r == 1 <==> c.name !in self.Arguments() && self.name in c.fields)
    ensures self.Enum? ==> (r == 1 <==> c.name == self.name)
    ensures self.Enum? ==> (r == 2 <==> c.name != self.name && self.name in c.fields)
  {
    match self
    case List(_, _, _, _, _) => Lists.CompositeRule(self, c)
    case Map(_, _, _, _, _, _) => Maps.CompositeRule(self, c)
    case Enum(_, _, _, _, _) => Enums.DependsOnComposite(self, c)
  }

  /**
   * Restricted::dependsOn(OrderedTypeNotation): the arguments are swapped and
   * the other node is asked about this one. A composite answers through its
   * own dependsOn(Restricted), which is not part of this model and is given
   * as compositeSide.
   */
  function DependsOnNotation(self: Restricted, rhs: TypeNotation,
                             compositeSide: (Composite, Restricted) -> Direction): (r: Direction)
    ensures rhs.RestrictedNotation? ==> r == DependsOnRestricted(rhs.restricted, self)
    ensures rhs.CompositeNotation? ==> r == compositeSide(rhs.composite, self)
  {
    match rhs
    case RestrictedNotation(other) => DependsOnRestricted(other, self)
    case CompositeNotation(c) => compositeSide(c, self)
  }

  /** The code seen from the other side of the pair: 1 and 2 exchanged. */
  function Flip(d: Direction): (r: Direction)
    ensures d == 0 <==> r == 0
    ensures d == 1 <==> r == 2
  {
    if d == 0 then 0 else 3 - d
  }

  /**
   * Between lists and maps the codes are antisymmetric: unless each refers to
   * the other, the pair read the other way round gives the exchanged code.
   */
  lemma DependsOnMirror(a: Restricted, b: Restricted)
    requires !a.Enum? && !b.Enum?
    requires !(b.name in a.Arguments() && a.name in b.Arguments())
    ensures DependsOnRestricted(b, a) == Flip(DependsOnRestricted(a, b))
  {
  }

  /**
   * For a restricted right-hand side, the swapping dependsOn gives the
   * exchanged code of the direct query between lists and maps.
   */
  lemma DependsOnNotationIsMirror(a: Restricted, b: Restricted, compositeSide: (Composite, Restricted) -> Direction)
    requires !a.Enum? && !b.Enum?
    requires !(b.name in a.Arguments() && a.name in b.Arguments())
    ensures DependsOnNotation(a, RestrictedNotation(b), compositeSide) == Flip(DependsOnRestricted(a, b))
  {
    DependsOnMirror(a, b);
  }

  /**
   * Between lists and maps that do not refer to each other, the code is the
   * reference relation of the schema: 2 exactly when self must be emitted
   * after other, 1 exactly when other must be emitted after self.
   */
  lemma DependsOnIsReference(a: Restricted, b: Restricted)
    requires !a.Enum? && !b.Enum?
    requires !(RefersTo(RestrictedNotation(a), RestrictedNotation(b)) && RefersTo(RestrictedNotation(b), RestrictedNotation(a)))
    ensures DependsOnRestricted(a, b) == 2 <==> RefersTo(RestrictedNotation(a), RestrictedNotation(b))
    ensures DependsOnRestricted(a, b) == 1 <==> RefersTo(RestrictedNotation(b), RestrictedNotation(a))
  {
  }

  /**
   * A node asked about itself answers 0 unless it names itself as an
   * argument; then a list says 2 (its element check wins) and a map says 1
   * (its "other depends on me" check comes first). An enumeration always
   * says 0.
   */
  lemma SelfDependence(a: Restricted)
    ensures DependsOnRestricted(a, a) != 0 <==> a.name in a.Arguments()
    ensures a.List? && a.name in a.Arguments() ==> DependsOnRestricted(a, a) == 2
    ensures a.Map? && a.name in a.Arguments() ==> DependsOnRestricted(a, a) == 1
  {
  }

  /**
   * The pair built by the `dependsOn1` unit test: a second list of the first
   * list's type. The first list answers 1 (the other depends on it) and the
   * second answers 2 (it depends on the other).
   */
  lemma ListOfListPair(list1: Restricted, list2: Restricted)
    requires list1.List? && list2.List?
    requires list2.listOf == list1.name && list1.listOf != list2.name
    ensures DependsOnRestricted(list1, list2) == 1
    ensures DependsOnRestricted(list2, list1) == 2
  {
  }

  /**
   * An enumeration used by a map and by a list answers with two different
   * codes: 1 for the map and 2 for the list, although both depend on it.
   */
  lemma EnumAnswersDiffer(e: Restricted, m: Restricted, list: Restricted)
    requires e.Enum? && m.Map? && list.List?
    requires m.key == e.name && list.listOf == e.name
    ensures DependsOnRestricted(e, m) == 1
    ensures DependsOnRestricted(e, list) == 2
  {
  }
}
