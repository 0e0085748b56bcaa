/** The Enum restricted type: its constructor, its choices and its dependency rules. */
module Enums {
  import opened Schema

  /**
   * The Enum constructor: the node keeps its name, label and provides, its
   * one represented type is its own name, and the choices are stored in the
   * order given.
   */
  function NewEnum(descriptor: Descriptor, name: string, labelText: string, provided: seq<string>,
                   choices: seq<Choice>): (r: Restricted)
    ensures r.Enum? && r.Source() == EnumTag
    ensures r.descriptor == descriptor && r.name == name && r.labelText == labelText && r.provided == provided
    ensures r.Types() == [name] && r.Arguments() == []
    ensures r.choices == choices
  {
    Enum(descriptor, name, labelText, provided, choices)
  }

  /**
   * Enum::dependsOnMap: 1 when the map has this enumeration as its key or
   * value type, and 0 otherwise; an enumeration never depends on a map.
   */
  function DependsOnMap(e: Restricted, m: Restricted): (r: Direction)
    requires e.Enum? && m.Map?
    ensures r == 1 <==> e.name in m.Arguments()
    ensures r != 2
  {
    var (key, value) := m.MapOf();
    if key == e.name || value == e.name then 1 else 0
  }

  /**
   * Enum::dependsOnList: 2 when the list's element is this enumeration, and
   * 0 otherwise; the code never returns 1 here.
   */
  function DependsOnList(e: Restricted, list: Restricted): (r: Direction)
    requires e.Enum? && list.List?
    ensures r == 2 <==> e.name in list.Arguments()
    ensures r != 1
  {
    if list.listOf == e.name then 2 else 0
  }

  /** Enum::dependsOnEnum: two enumerations never depend on one another. */
  function DependsOnEnum(e: Restricted, other: Restricted): (r: Direction)
    requires e.Enum? && other.Enum?
    ensures r == 0
  {
    0
  }

  /**
   * Enum::dependsOnRHS(Composite): 1 when the composite has the enumeration's
   * name (checked first); otherwise 2 when the search over the fields meets
   * one of the enumeration's type; otherwise 0.
   */
  function DependsOnComposite(e: Restricted, c: Composite): (r: Direction)
    requires e.Enum?
    ensures r == 1 <==> c.name == e.name
    ensures r == 2 <==> c.name != e.name && exists i :: 0 <= i < |c.fields| && c.fields[i] == e.name
  {
    if e.name == c.name then 1
    else if e.name in c.fields then 2
    else 0
  }

  /** Enum::makeChoices: the name of every choice, in the stored order. */
  function MakeChoices(choices: seq<Choice>): (r: seq<string>)
    ensures |r| == |choices|
    ensures forall i :: 0 <= i < |choices| ==> r[i] == choices[i].choice
  {
    if choices == [] then []
    else [choices[0].choice] + MakeChoices(choices[1..])
  }

  /** The names of two runs of choices one after the other are the two runs of names: order and duplicates are kept. */
  lemma {:induction false} MakeChoicesAppend(a: seq<Choice>, b: seq<Choice>)
    ensures MakeChoices(a + b) == MakeChoices(a) + MakeChoices(b)
  {
    if a == [] {
      assert a + b == b;
    } else {
      assert (a + b)[1..] == a[1..] + b;
      MakeChoicesAppend(a[1..], b);
    }
  }
}
