/** The Map restricted type: its nesting-aware name parser, its constructor and its dependency rules. */
module Maps {
  import opened Exceptions
  import opened CppString
  import opened Schema

  /** How a character moves the nesting counter of the scan. */
  function Step(c: char): int
  {
    if c == '<' then 1 else if c == '>' then -1 else 0
  }

  /** The nesting depth reached over s[lo..hi]: the '<' seen minus the '>' seen. */
  function Depth(s: string, lo: nat, hi: nat): int
    requires lo <= hi <= |s|
    decreases hi
  {
    if lo == hi then 0 else Depth(s, lo, hi - 1) + Step(s[hi - 1])
  }

  /** Position k splits s for a scan that starts at from: a ',' at depth 0 relative to from. */
  predicate SplitsAt(s: string, from: nat, k: nat)
    requires from <= k < |s|
  {
    s[k] == ',' && Depth(s, from, k) == 0
  }

  /**
   * The loop of Map::mapType as a function: from position i with the given
   * nesting counter, the position where the scan stops, a ',' met while the
   * counter is 0, or the end of the string.
   */
  function ScanFrom(s: string, i: nat, nesting: int): (k: nat)
    requires i <= |s|
    ensures i <= k <= |s|
    decreases |s| - i
  {
    if i == |s| then |s|
    else if s[i] == '<' then ScanFrom(s, i + 1, nesting + 1)
    else if s[i] == '>' then ScanFrom(s, i + 1, nesting - 1)
    else if s[i] == ',' && nesting == 0 then i
    else ScanFrom(s, i + 1, nesting)
  }

  /**
   * The scan stops at the first position that splits s, and at the end of s
   * only when no position splits it: a ',' inside a nested <...> is never a
   * split point.
   */
  lemma {:induction false} ScanFindsFirstSplit(s: string, from: nat, i: nat)
    requires from <= i <= |s|
    ensures var k := ScanFrom(s, i, Depth(s, from, i));
            (k < |s| ==> SplitsAt(s, from, k)) &&
            forall j :: i <= j < k ==> !SplitsAt(s, from, j)
    decreases |s| - i
  {
    if i < |s| {
      var n := Depth(s, from, i);
      assert Depth(s, from, i + 1) == n + Step(s[i]);
      if !(s[i] == ',' && n == 0) {
        ScanFindsFirstSplit(s, from, i + 1);
      }
    }
  }

  /** `uint pos = map_.find('<')`: the first '<', with npos truncated to 32 bits when there is none. */
  function OpenPos(s: string): (pos: nat)
    requires |s| < UINT_RANGE
    ensures '<' in s ==> pos == FirstIndex(s, '<')
    ensures '<' !in s ==> pos == UINT_RANGE - 1
  {
    UInt(Find(s, '<'))
  }

  /** Where the scan starts: just after the first '<', or at 0 when there is none (pos + 1 wraps). */
  function ScanStart(s: string): (start: nat)
    requires |s| < UINT_RANGE
    ensures start <= |s|
    ensures '<' in s ==> start == FirstIndex(s, '<') + 1
    ensures '<' !in s ==> start == 0
  {
    UInt(OpenPos(s) + 1)
  }

  /** The position the loop of Map::mapType ends at. */
  function SplitIndex(s: string): (idx: nat)
    requires |s| < UINT_RANGE
    ensures ScanStart(s) <= idx <= |s|
  {
    ScanFrom(s, ScanStart(s), 0)
  }

  /**
   * The split point is the first position at depth 0 relative to the scan
   * start that holds a ','; the scan reaches the end of the string exactly
   * when there is none.
   */
  lemma SplitIndexIsFirstTopLevelComma(s: string)
    requires |s| < UINT_RANGE
    ensures var (start, idx) := (ScanStart(s), SplitIndex(s));
            (idx < |s| ==> SplitsAt(s, start, idx)) &&
            (forall j :: start <= j < idx ==> !SplitsAt(s, start, j)) &&
            (idx == |s| <==> forall j :: start <= j < |s| ==> !SplitsAt(s, start, j))
  {
    ScanFindsFirstSplit(s, ScanStart(s), ScanStart(s));
  }

  /** `map_.substr(0, pos)`: the outer name, everything before the first '<', the whole name when there is none. */
  function OuterPart(s: string): (outer: string)
    requires |s| < UINT_RANGE
    ensures '<' in s ==> outer == s[..FirstIndex(s, '<')]
    ensures '<' !in s ==> outer == s
  {
    var r := Substr(s, 0, OpenPos(s));
    assert '<' !in s ==> r.value == s[..|s|] == s;
    r.value
  }

  /**
   * `map_.substr(pos + 1, idx - pos - 1)`: the raw key, from the scan start
   * to the split point. Without a '<' both arguments wrap and the key is
   * the name up to the split point.
   */
  function KeyPart(s: string): (key: string)
    requires |s| < UINT_RANGE
    ensures key == s[ScanStart(s)..SplitIndex(s)]
  {
    var pos, idx := OpenPos(s), SplitIndex(s);
    assert '<' !in s ==> UInt(idx - pos - 1) == idx;
    Substr(s, UInt(pos + 1), UInt(idx - pos - 1)).value
  }

  /**
   * `map_.substr(idx + 1, map_.size() - (idx + 2))`: the raw value, from
   * after the split comma up to the last character. A comma in last place
   * leaves an empty value (the count wraps). When the scan ran to the end
   * of the name the substring throws std::out_of_range, except for a name
   * of exactly 2^32 - 1 characters: there the `uint` sums idx + 1 and
   * idx + 2 wrap to 0 and 1, and the value is the name without its last
   * character.
   */
  function ValuePart(s: string): (r: Result<string>)
    requires |s| < UINT_RANGE
    ensures r.Throw? <==> SplitIndex(s) == |s| && |s| < UINT_RANGE - 1
    ensures r.Throw? ==> r.exception == OutOfRange
    ensures r.Ok? && SplitIndex(s) < |s| ==>
              r.value == s[SplitIndex(s) + 1..if SplitIndex(s) + 1 < |s| then |s| - 1 else |s|]
    ensures r.Ok? && SplitIndex(s) == |s| ==> |s| == UINT_RANGE - 1 && r.value == s[..|s| - 1]
  {
    var idx := SplitIndex(s);
    assert idx + 2 < UINT_RANGE ==> UInt(idx + 2) == idx + 2;
    assert idx + 2 == UINT_RANGE ==> UInt(idx + 2) == 0;
    assert idx == |s| == UINT_RANGE - 1 ==> UInt(idx + 1) == 0 && UInt(idx + 2) == 1;
    Substr(s, UInt(idx + 1), SizeT(|s| - UInt(idx + 2)))
  }

  /**
   * Map::mapType before the leading spaces are erased: the outer name, the
   * raw key and the raw value, or the std::out_of_range of the value's
   * substring when the scan ran to the end of a name shorter than
   * 2^32 - 1 characters.
   */
  function RawMapType(s: string): (r: Result<(string, string, string)>)
    requires |s| < UINT_RANGE
    ensures r.Throw? <==> SplitIndex(s) == |s| && |s| < UINT_RANGE - 1
    ensures r.Throw? ==> r.exception == OutOfRange
    ensures r.Ok? ==> r.value.0 == (if '<' in s then s[..FirstIndex(s, '<')] else s)
    ensures r.Ok? ==> r.value.1 == s[ScanStart(s)..SplitIndex(s)]
    ensures r.Ok? && SplitIndex(s) < |s| ==>
              r.value.2 == s[SplitIndex(s) + 1..if SplitIndex(s) + 1 < |s| then |s| - 1 else |s|]
    ensures r.Ok? && SplitIndex(s) == |s| ==> r.value.2 == s[..|s| - 1]
  {
    match ValuePart(s)
    case Throw(e) => Throw(e)
    case Ok(to) => Ok((OuterPart(s), KeyPart(s), to))
  }

  /**
   * Map::mapType: out_of_range exactly when the scan finds no top-level
   * comma in a name shorter than 2^32 - 1 characters; otherwise the outer
   * name, and the key and the value with their leading spaces erased.
   */
  function MapNameParts(s: string): (r: Result<(string, string, string)>)
    requires |s| < UINT_RANGE
    ensures r.Throw? <==> SplitIndex(s) == |s| && |s| < UINT_RANGE - 1
    ensures r.Throw? ==> r.exception == OutOfRange
    ensures r.Ok? ==> r.value.0 == (if '<' in s then s[..FirstIndex(s, '<')] else s)
    ensures r.Ok? ==> r.value.1 == EraseLeadingSpaces(s[ScanStart(s)..SplitIndex(s)])
    ensures r.Ok? && SplitIndex(s) < |s| ==>
              r.value.2 == EraseLeadingSpaces(s[SplitIndex(s) + 1..if SplitIndex(s) + 1 < |s| then |s| - 1 else |s|])
    ensures r.Ok? && SplitIndex(s) == |s| ==> r.value.2 == EraseLeadingSpaces(s[..|s| - 1])
  {
    match RawMapType(s)
    case Throw(e) => Throw(e)
    case Ok((outer, of, to)) => Ok((outer, EraseLeadingSpaces(of), EraseLeadingSpaces(to)))
  }

  /**
   * Map::mapType as the source runs it: the index loop with its nesting
   * counter (a `uint` there; only its test against 0 matters, and that test
   * agrees for -1 and 2^32 - 1), then the three substrings. The `uint`
   * index reaches the size of any name of at most 2^32 - 1 characters; on a
   * longer name it wraps to 0, and the loop need not end.
   */
  method MapType(s: string) returns (r: Result<(string, string, string)>)
    requires |s| < UINT_RANGE
    ensures r == MapNameParts(s)
  {
    var pos := UInt(Find(s, '<'));
    var idx := UInt(pos + 1);
    var nesting := 0;
    while idx < |s|
      invariant idx <= |s|
      invariant ScanFrom(s, idx, nesting) == SplitIndex(s)
      decreases |s| - idx
    {
      if s[idx] == '<' {
        nesting := nesting + 1;
      } else if s[idx] == '>' {
        nesting := nesting - 1;
      } else if s[idx] == ',' && nesting == 0 {
        break;
      }
      idx := idx + 1;
    }
    MapNamePartsFrom(s, pos, idx);
    var outer := Substr(s, 0, pos);
    var of := Substr(s, UInt(pos + 1), UInt(idx - pos - 1));
    var key := EraseLeadingSpaces(of.value);
    var to := Substr(s, UInt(idx + 1), SizeT(|s| - UInt(idx + 2)));
    if to.Throw? {
      return Throw(to.exception);
    }
    var value := EraseLeadingSpaces(to.value);
    r := Ok((outer.value, key, value));
  }

  /** MapNameParts spelled as the statements of Map::mapType compute it, from the positions the loop finds. */
  lemma MapNamePartsFrom(s: string, pos: nat, idx: nat)
    requires |s| < UINT_RANGE
    requires pos == OpenPos(s) && idx == SplitIndex(s)
    ensures Substr(s, 0, pos).Ok? && Substr(s, UInt(pos + 1), UInt(idx - pos - 1)).Ok?
    ensures var to := Substr(s, UInt(idx + 1), SizeT(|s| - UInt(idx + 2)));
            MapNameParts(s) ==
              if to.Throw? then Throw(to.exception)
              else Ok((Substr(s, 0, pos).value,
                       EraseLeadingSpaces(Substr(s, UInt(pos + 1), UInt(idx - pos - 1)).value),
                       EraseLeadingSpaces(to.value)))
  {
    assert Substr(s, 0, pos).value == OuterPart(s);
    assert Substr(s, UInt(pos + 1), UInt(idx - pos - 1)).value == KeyPart(s);
    assert Substr(s, UInt(idx + 1), SizeT(|s| - UInt(idx + 2))) == ValuePart(s);
  }

  /**
   * The round trip before the spaces are erased: when the split comma comes
   * before the last character, the outer name, '<', the raw key, ',', the raw
   * value and the last character give back the name.
   */
  lemma RawMapTypeRoundTrip(s: string)
    requires |s| < UINT_RANGE && '<' in s && SplitIndex(s) + 1 < |s|
    ensures RawMapType(s).Ok?
    ensures var (outer, key, value) := RawMapType(s).value;
            outer + "<" + key + "," + value + [s[|s| - 1]] == s
  {
    var p, k := FirstIndex(s, '<'), SplitIndex(s);
    SplitIndexIsFirstTopLevelComma(s);
    assert ScanStart(s) == p + 1;
    var r := RawMapType(s);
    assert r.value.0 == s[..p] && r.value.1 == s[p + 1..k] && r.value.2 == s[k + 1..|s| - 1];
    SplitTwice(s, p, k);
  }

  /**
   * A name of exactly 2^32 - 1 characters without a top-level comma does
   * not throw: the wrapped substring returns the name less its last
   * character as the value.
   */
  lemma LongNameWithoutSplit(s: string)
    requires |s| == UINT_RANGE - 1 && SplitIndex(s) == |s|
    ensures MapNameParts(s).Ok?
    ensures MapNameParts(s).value.2 == EraseLeadingSpaces(s[..|s| - 1])
  {
  }

  /** Cutting s at p, at k and before its last character loses nothing. */
  lemma SplitTwice(s: string, p: nat, k: nat)
    requires p < k && k + 1 < |s| && s[p] == '<' && s[k] == ','
    ensures s[..p] + "<" + s[p + 1..k] + "," + s[k + 1..|s| - 1] + [s[|s| - 1]] == s
  {
  }

  /**
   * A nested key: in "Map<Map<A, B>, C>" the comma inside the inner <...> is
   * skipped, the key keeps its inner space and the value loses its leading one.
   */
  lemma MapTypeOfNestedKey()
    ensures MapNameParts("Map<Map<A, B>, C>") == Ok(("Map", "Map<A, B>", "C"))
  {
    NestedKeyRaw("Map<Map<A, B>, C>");
    EraseNoLeadingSpace("Map<A, B>");
    EraseLeadingSpace(" C");
    EraseNoLeadingSpace("C");
  }

  /** The three raw parts of "Map<Map<A, B>, C>". */
  lemma NestedKeyRaw(s: string)
    requires s == "Map<Map<A, B>, C>"
    ensures RawMapType(s) == Ok(("Map", "Map<A, B>", " C"))
  {
    NestedKeyOpen();
    NestedKeySplit();
    RawMapTypeAt(s, 3, 13);
    NestedKeySlices(s);
  }

  /** The pieces of "Map<Map<A, B>, C>" around positions 3 and 13. */
  lemma NestedKeySlices(s: string)
    requires s == "Map<Map<A, B>, C>"
    ensures s[..3] == "Map" && s[4..13] == "Map<A, B>" && s[14..|s| - 1] == " C"
  {
  }

  /** RawMapType of a name whose first '<' is at p and whose scan stops at a comma k before the last character. */
  lemma RawMapTypeAt(s: string, p: nat, k: nat)
    requires |s| < UINT_RANGE && p < |s| && s[p] == '<' && FirstIndex(s, '<') == p
    requires p + 1 <= k && k + 1 < |s| && ScanFrom(s, p + 1, 0) == k
    ensures RawMapType(s) == Ok((s[..p], s[p + 1..k], s[k + 1..|s| - 1]))
  {
    assert '<' in s;
    assert SplitIndex(s) == k;
    OuterAt(s, p);
    KeyAt(s, p, k);
    ValueAt(s, k);
  }

  /** The outer name of a name whose first '<' is at p. */
  lemma OuterAt(s: string, p: nat)
    requires |s| < UINT_RANGE && '<' in s && FirstIndex(s, '<') == p
    ensures OuterPart(s) == s[..p]
  {
  }

  /** The raw key of a name whose first '<' is at p and whose scan stops at k. */
  lemma KeyAt(s: string, p: nat, k: nat)
    requires |s| < UINT_RANGE && '<' in s && FirstIndex(s, '<') == p && SplitIndex(s) == k
    ensures p + 1 <= k && KeyPart(s) == s[p + 1..k]
  {
  }

  /** The raw value of a name whose scan stops at a comma k before the last character. */
  lemma ValueAt(s: string, k: nat)
    requires |s| < UINT_RANGE && SplitIndex(s) == k && k + 1 < |s|
    ensures ValuePart(s) == Ok(s[k + 1..|s| - 1])
  {
  }

  /** The first '<' of "Map<Map<A, B>, C>" is at 3. */
  lemma NestedKeyOpen()
    ensures FirstIndex("Map<Map<A, B>, C>", '<') == 3
  {
    var s := "Map<Map<A, B>, C>";
    assert s[..3] == "Map";
    FirstIndexIsUnique(s, '<', 3);
  }

  /** Where the scan of "Map<Map<A, B>, C>" from just after its first '<' stops: the comma at 13. */
  lemma NestedKeySplit()
    ensures ScanFrom("Map<Map<A, B>, C>", 4, 0) == 13
  {
    var s := "Map<Map<A, B>, C>";
    assert ScanFrom(s, 13, 0) == 13;
    assert ScanFrom(s, 12, 1) == 13;
    assert ScanFrom(s, 11, 1) == 13;
    assert ScanFrom(s, 10, 1) == 13;
    assert ScanFrom(s, 9, 1) == 13;
    assert ScanFrom(s, 8, 1) == 13;
    assert ScanFrom(s, 7, 0) == 13;
    assert ScanFrom(s, 6, 0) == 13;
    assert ScanFrom(s, 5, 0) == 13;
  }

  /** The Map constructor: the node keeps its name and stores [key, value] as parsed from it. */
  function NewMap(descriptor: Descriptor, name: string, labelText: string, provided: seq<string>): (r: Result<Restricted>)
    requires |name| < UINT_RANGE
    ensures r.Throw? <==> MapNameParts(name).Throw?
    ensures r.Ok? ==> r.value.Map? && r.value.Source() == MapTag
    ensures r.Ok? ==> r.value.descriptor == descriptor && r.value.name == name &&
                      r.value.labelText == labelText && r.value.provided == provided
    ensures r.Ok? ==> r.value.Types() == [MapNameParts(name).value.1, MapNameParts(name).value.2]
  {
    match MapNameParts(name)
    case Throw(e) => Throw(e)
    case Ok((_, of, to)) => Ok(Map(descriptor, name, labelText, provided, of, to))
  }

  /**
   * Map::dependsOnMap: 1 when the other map has this map as key or value
   * (checked first); otherwise 2 when this map's key or value is the other
   * map; otherwise 0.
   */
  function DependsOnMap(m: Restricted, other: Restricted): (r: Direction)
    requires m.Map? && other.Map?
    ensures r == 1 <==> m.name in other.Arguments()
    ensures r == 2 <==> m.name !in other.Arguments() && other.name in m.Arguments()
  {
    var (k, v) := other.MapOf();
    if k == m.name || v == m.name then 1
    else if m.key == other.name || m.value == other.name then 2
    else 0
  }

  /**
   * Map::dependsOnList: 1 when the list's element is this map (checked first);
   * otherwise 2 when this map's key or value is the list; otherwise 0.
   */
  function DependsOnList(m: Restricted, list: Restricted): (r: Direction)
    requires m.Map? && list.List?
    ensures r == 1 <==> m.name in list.Arguments()
    ensures r == 2 <==> m.name !in list.Arguments() && list.name in m.Arguments()
  {
    if list.listOf == m.name then 1
    else if m.key == list.name || m.value == list.name then 2
    else 0
  }

  /**
   * Map::dependsOnEnum: 1 when the enumeration has the same name as this map
   * (checked first); otherwise 2 when this map's key or value is the
   * enumeration; otherwise 0.
   */
  function DependsOnEnum(m: Restricted, e: Restricted): (r: Direction)
    requires m.Map? && e.Enum?
    ensures r == 1 <==> e.name == m.name
    ensures r == 2 <==> e.name != m.name && e.name in m.Arguments()
  {
    if e.name == m.name then 1
    else if m.key == e.name || m.value == e.name then 2
    else 0
  }

  /**
   * What Map::dependsOn(Composite) computes: 2 when the map's key or value is
   * the composite (this overrides); otherwise 1 when some field of the
   * composite has the map's type; otherwise 0.
   */
  function CompositeRule(m: Restricted, c: Composite): (r: Direction)
    requires m.Map?
    ensures r == 2 <==> c.name in m.Arguments()
    ensures r == 1 <==> c.name !in m.Arguments() && m.name in c.fields
  {
    if m.key == c.name || m.value == c.name then 2
    else if m.name in c.fields then 1
    else 0
  }

  /** Map::dependsOn(Composite): the loop over the fields, then the key and value check. */
  method DependsOnComposite(m: Restricted, c: Composite) returns (rtn: Direction)
    requires m.Map?
    ensures rtn == CompositeRule(m, c)
  {
    rtn := 0;
    for i := 0 to |c.fields|
      invariant rtn == (if m.name in c.fields[..i] then 1 else 0)
    {
      assert c.fields[..i + 1] == c.fields[..i] + [c.fields[i]];
      if c.fields[i] == m.name {
        rtn := 1;
      }
    }
    assert c.fields[..|c.fields|] == c.fields;
    if m.key == c.name || m.value == c.name {
      rtn := 2;
    }
  }
}
