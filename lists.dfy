/** The List restricted type: its name parser, its constructor and its dependency rules. */
module Lists {
  import opened CppString
  import opened Schema

  /**
   * List::listType: splits `outer<elem>` at the first '<'. The outer name is
   * everything before that '<'; the element is everything after it except
   * the string's last character (the closing '>'). With no '<' at all, find
   * returns npos, npos + 1 wraps to 0 and the count wraps to size - 1, so the
   * whole string comes back as the outer name and, as the element, the string
   * without its last character.
   */
  function ListType(s: string): (r: (string, string))
    requires |s| < NPOS
    ensures '<' in s ==>
              var p := FirstIndex(s, '<');
              r.0 == s[..p] && r.1 == (if p + 1 < |s| then s[p + 1..|s| - 1] else "")
    ensures '<' !in s ==> r == (s, if s == "" then "" else s[..|s| - 1])
  {
    var pos := Find(s, '<');
    var start, count := SizeT(pos + 1), SizeT(|s| - pos - 2);
    assert pos == NPOS ==> start == 0 && count == if s == "" then NPOS else |s| - 1;
    assert pos < |s| ==> start == pos + 1 && count == if pos + 1 < |s| then |s| - pos - 2 else NPOS;
    var outer := Substr(s, 0, pos);
    var elem := Substr(s, start, count);
    assert pos == NPOS ==> outer.value == s[..|s|] == s;
    (outer.value, elem.value)
  }

  /**
   * The outer name, the '<', the element and the last character give back the
   * original name whenever something follows the first '<'; a nested generic
   * element is therefore kept whole.
   */
  lemma ListTypeRoundTrip(s: string)
    requires |s| < NPOS && '<' in s && FirstIndex(s, '<') + 1 < |s|
    ensures ListType(s).0 + "<" + ListType(s).1 + [s[|s| - 1]] == s
  {
    var p := FirstIndex(s, '<');
    ListTypeAt(s, p);
    SplitAround(s, p);
  }

  /** Cutting s around position p and at its last character loses nothing. */
  lemma SplitAround(s: string, p: nat)
    requires p + 1 < |s| && s[p] == '<'
    ensures s[..p] + "<" + s[p + 1..|s| - 1] + [s[|s| - 1]] == s
  {
  }

  /** The unit test `List.name`: "java.util.list<int>" parses as ("java.util.list", "int"). */
  lemma ListTypeOfJavaList()
    ensures ListType("java.util.list<int>") == ("java.util.list", "int")
  {
    var s := "java.util.list<int>";
    assert s[..14] == "java.util.list" && s[15..18] == "int";
    ListTypeAt(s, 14);
  }

  /** ListType of a name whose first '<' is at p and that goes on past it. */
  lemma ListTypeAt(s: string, p: nat)
    requires |s| < NPOS && p + 1 < |s| && s[p] == '<' && '<' !in s[..p]
    ensures ListType(s) == (s[..p], s[p + 1..|s| - 1])
  {
    FirstIndexIsUnique(s, '<', p);
  }

  /** The List constructor: the node keeps its name and stores the element type parsed from it. */
  function NewList(descriptor: Descriptor, name: string, labelText: string, provided: seq<string>): (r: Restricted)
    requires |name| < NPOS
    ensures r.List? && r.Source() == ListTag
    ensures r.descriptor == descriptor && r.name == name && r.labelText == labelText && r.provided == provided
    ensures r.Types() == [ListType(name).1]
  {
    List(descriptor, name, labelText, provided, ListType(name).1)
  }

  /**
   * List::dependsOnMap: 1 when the map has this list as its key or value type
   * (that check comes first); otherwise 2 when the list's element is the map;
   * otherwise 0.
   */
  function DependsOnMap(list: Restricted, m: Restricted): (r: Direction)
    requires list.List? && m.Map?
    ensures r == 1 <==> list.name in m.Arguments()
    ensures r == 2 <==> list.name !in m.Arguments() && m.name in list.Arguments()
  {
    var (key, value) := m.MapOf();
    if key == list.name || value == list.name then 1
    else if list.listOf == m.name then 2
    else 0
  }

  /**
   * List::dependsOnList: the code is built in two steps; 1 when the other
   * list's element is this list, then overwritten by 2 when this list's
   * element is the other list, so 2 takes precedence.
   */
  function DependsOnList(list: Restricted, other: Restricted): (r: Direction)
    requires list.List? && other.List?
    ensures r == 2 <==> other.name in list.Arguments()
    ensures r == 1 <==> other.name !in list.Arguments() && list.name in other.Arguments()
  {
    var rtn := 0;
    var rtn := if other.listOf == list.name then 1 else rtn;
    var rtn := if list.listOf == other.name then 2 else rtn;
    rtn
  }

  /**
   * List::dependsOnEnum has an empty body and returns no value in the
   * source, which is undefined behaviour; the model fixes the result to 0,
   * "no dependency", whatever the list and the enumeration are.
   */
  function DependsOnEnum(list: Restricted, e: Restricted): (r: Direction)
    requires list.List? && e.Enum?
    ensures r == 0
  {
    0
  }

  /**
   * What List::dependsOn(Composite) computes: 2 when the list's element is
   * the composite (this overrides); otherwise 1 when some field of the
   * composite has the list's type; otherwise 0.
   */
  function CompositeRule(list: Restricted, c: Composite): (r: Direction)
    requires list.List?
    ensures r == 2 <==> c.name in list.Arguments()
    ensures r == 1 <==> c.name !in list.Arguments() && list.name in c.fields
  {
    if list.listOf == c.name then 2
    else if list.name in c.fields then 1
    else 0
  }

  /** List::dependsOn(Composite): the loop over the fields, then the element check. */
  method DependsOnComposite(list: Restricted, c: Composite) returns (rtn: Direction)
    requires list.List?
    ensures rtn == CompositeRule(list, c)
  {
    rtn := 0;
    for i := 0 to |c.fields|
      invariant rtn == (if list.name in c.fields[..i] then 1 else 0)
    {
      assert c.fields[..i + 1] == c.fields[..i] + [c.fields[i]];
      if c.fields[i] == list.name {
        rtn := 1;
      }
    }
    assert c.fields[..|c.fields|] == c.fields;
    if list.listOf == c.name {
      rtn := 2;
    }
  }

  /** The composite rule looks at the fields only as a multiset: reordering them changes nothing. */
  lemma {:induction false} CompositeRuleIgnoresFieldOrder(list: Restricted, c: Composite, d: Composite)
    requires list.List? && c.name == d.name && multiset(c.fields) == multiset(d.fields)
    ensures CompositeRule(list, c) == CompositeRule(list, d)
  {
    assert list.name in c.fields <==> list.name in multiset(c.fields);
    assert list.name in d.fields <==> list.name in multiset(d.fields);
  }
}
