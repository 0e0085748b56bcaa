/**
 * The schema type nodes of an AMQP 1.0 schema section: composite types (a
 * name and the resolved types of their fields) and the restricted types built
 * on AMQP's `list` and `map` (lists, maps and enumerations).
 *
 * A node is an immutable value: its label, provides list and restricted tag
 * are set once, by the factory in module RestrictedNodes, and only read
 * afterwards.
 */
module Schema {

  /**
   * The dependency code returned for an ordered pair (self, other):
   * 0 no direct dependency, 1 other depends on self (self goes first),
   * 2 self depends on other (other goes first).
   */
  type Direction = d: int | 0 <= d <= 2

  /** The descriptor (symbolic or numeric type identifier), carried but never examined. */
  type Descriptor = string

  /** One choice of an enumeration: its name and its value. */
  datatype Choice = Choice(choice: string, value: string)

  /** A composite type, seen only through its name and the resolved type name of each field. */
  datatype Composite = Composite(name: string, fields: seq<string>)

  /** The restricted tag (Restricted::RestrictedTypes): exactly three values. */
  datatype RestrictedTypes = ListTag | MapTag | EnumTag

  /** AMQPTypeNotation::Type: the two kinds of schema type node. */
  datatype NotationType = CompositeType | RestrictedType

  /**
   * A restricted node. Every variant has the common part of Restricted
   * (descriptor, name, label, provides; stored as labelText and provided) and the data of its own class:
   * a list its element type, a map its key and value types, an enumeration
   * its choices in schema order.
   */
  datatype Restricted =
    | List(descriptor: Descriptor, name: string, labelText: string, provided: seq<string>,
           listOf: string)
    | Map(descriptor: Descriptor, name: string, labelText: string, provided: seq<string>,
          key: string, value: string)
    | Enum(descriptor: Descriptor, name: string, labelText: string, provided: seq<string>,
           choices: seq<Choice>)
  {
    /** restrictedType() and source(): the stored tag, one per variant. */
    function Source(): (t: RestrictedTypes)
      ensures t == ListTag <==> List?
      ensures t == MapTag <==> Map?
      ensures t == EnumTag <==> Enum?
    {
      match this
      case List(_, _, _, _, _) => ListTag
      case Map(_, _, _, _, _, _) => MapTag
      case Enum(_, _, _, _, _) => EnumTag
    }

    /** type(): every restricted node is of the Restricted kind. */
    function NodeType(): (t: NotationType)
      ensures t == RestrictedType
    {
      RestrictedType
    }

    /** Map::mapOf(): the key and value types, in that order. */
    function MapOf(): (r: (string, string))
      requires Map?
      ensures [r.0, r.1] == Types()
    {
      (key, value)
    }

    /**
     * The range begin()..end(): the types the node represents. A list yields
     * its element type, a map its key then its value type, an enumeration
     * its own name.
     */
    function Types(): (ts: seq<string>)
      ensures List? ==> ts == [listOf]
      ensures Map? ==> ts == [key, value]
      ensures Enum? ==> ts == [name]
    {
      match this
      case List(_, _, _, _, elem) => [elem]
      case Map(_, _, _, _, k, v) => [k, v]
      case Enum(_, n, _, _, _) => [n]
    }

    /**
     * The type names this node's own definition refers to: the element type
     * of a list, the key and value types of a map; an enumeration refers to
     * no other type. This is the reference relation the dependency codes are
     * meant to report.
     */
    function Arguments(): (ts: seq<string>)
      ensures Enum? ==> ts == []
      ensures !Enum? ==> ts == Types()
    {
      if Enum? then [] else Types()
    }
  }

  /** The schema type notations: exactly a composite or a restricted node. */
  datatype TypeNotation = CompositeNotation(composite: Composite) | RestrictedNotation(restricted: Restricted)
  {
    function Name(): string
    {
      match this
      case CompositeNotation(c) => c.name
      case RestrictedNotation(r) => r.name
    }

    /** The names this node refers to: a composite's field types, a restricted node's arguments. */
    function Refers(): seq<string>
    {
      match this
      case CompositeNotation(c) => c.fields
      case RestrictedNotation(r) => r.Arguments()
    }
  }

  /** a refers to b by name: a must be emitted after b. */
  predicate RefersTo(a: TypeNotation, b: TypeNotation)
  {
    b.Name() in a.Refers()
  }
}
