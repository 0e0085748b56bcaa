# Restricted schema types and the bucketing test allocator

This project models two independent parts of the Corda repository in Dafny and proves properties of the models.

**1. The AMQP restricted schema types of the C++ serializer.** An AMQP 1.0 schema section describes composite types and restricted types. The restricted types are built on AMQP's `list` and `map`: lists, maps, and enumerations (a `list` that carries choices). The model covers:

- the two generic-name parsers:
  - `List::listType` splits `outer<elem>`;
  - `Map::mapType` splits `outer<key, value>` at the first comma at nesting depth 0 and strips leading spaces.
- the named constructor `Restricted::make`, which picks the variant from the source text and the choices;
- the data each variant stores and the types it represents (`begin..end`);
- the pairwise dependency codes: 0 none, 1 "the other depends on me", 2 "I depend on the other". These are answered by `dependsOnList`, `dependsOnMap`, `dependsOnEnum`, the composite check of each variant, and the argument-swapping `dependsOn(OrderedTypeNotation)`.

The C++ `std::string` operations these parsers use are modelled in `CppString` with their unsigned arithmetic written out:

- `find` returns `npos`, which is 2^64 - 1.
- `substr` throws `std::out_of_range` past the end.
- `size_t` wraps modulo 2^64.
- The `uint` positions of `Map::mapType` wrap modulo 2^32.

Exceptions are values (`Exceptions.Result`).

**2. The greedy `BucketingAllocator` of the build.** The tests found on the classpath are handled in four steps:

1. They are paired with their Gradle test task and sorted by name.
2. Each is matched to the recorded test durations, giving a `TestBucket` whose duration is `max(sum of max(d, 1), default)`.
3. The buckets are sorted longest first.
4. Each bucket goes, in turn, to the fork container with the smallest running duration (the first such container on ties). Every container is then frozen, which groups its buckets by test task.

The containers and the allocator are classes whose methods update their fields. The orders, the grouping and the allocation are also given as functions, which specify those methods; the lemmas are proved about the functions.

The two Java stream sorts are stable. They are modelled by one generic insertion sort, `StableSort.Sort`, over a total preorder. Its result is proved sorted, a permutation of its input, and stable (elements that compare equal keep their relative order).

The model follows the C++ code where it differs from the intended design of the schema rules:

- A map name of exactly 2^32 - 1 characters with no top-level comma does not throw out_of_range: `idx + 1` and `idx + 2` wrap to 0 and 1, and the value is the name less its last character (`Maps.LongNameWithoutSplit`).
- A restricted node asked about itself answers 0, not 1, unless it names itself as an argument (`RestrictedNodes.SelfDependence`).
- `Map::dependsOn(Composite)` answers 2 when the map's key or value is the composite. It answers 1 when a field has the map's type. There is no name-equality check.
- When two non-enumeration nodes refer to each other, two lists answer 2 and every other pair answers 1. The reason is that `List::dependsOnList` tests its own element last, while the other rules test "the other depends on me" first.
- `Enum::dependsOnList` answers 2 when the list's element is the enumeration. `Enum::dependsOnMap` answers 1 for the analogous map case (`RestrictedNodes.EnumAnswersDiffer`).

Two modelling choices:

- The restricted-versus-restricted dispatch `Restricted::dependsOn(const Restricted &)` is declared in `Restricted.h` and called from `Map.cxx`, but its body is not part of this model. It is modelled as a choice on the other node's tag that asks `self.dependsOnList/Map/Enum(other)`. That is what the three pure virtuals and the delegation in `Map::dependsOn(Restricted)` call for.
- `Enum.cxx` tags enumerations with `RestrictedTypes::enum_t`, while `Restricted.h` declares `{ List, Map, Enum }`. The model uses the third tag.

## Model

| member | source | states |
|---|---|---|
| CppString.SizeT | experimental/cpp-serializer/src/amqp/schema/restricted-types/List.cxx:25 | size_t arithmetic wraps modulo 2^64: values in range are kept, and one wrap below 0 or above 2^64 is undone |
| CppString.UInt | experimental/cpp-serializer/src/amqp/schema/restricted-types/Map.cxx:15-17 | conversion to 32-bit `uint` wraps modulo 2^32; npos becomes 2^32 - 1 |
| CppString.FirstIndex | experimental/cpp-serializer/src/amqp/schema/restricted-types/List.cxx:21 | the position found holds the character, and no earlier position does |
| CppString.FirstIndexIsUnique | experimental/cpp-serializer/src/amqp/schema/restricted-types/List.cxx:21 | any position holding the character with none before it is the first index |
| CppString.Find | experimental/cpp-serializer/src/amqp/schema/restricted-types/List.cxx:21 | `find` is below the size exactly when the character occurs, is then its first occurrence, and is npos otherwise |
| CppString.Substr | experimental/cpp-serializer/src/amqp/schema/restricted-types/List.cxx:24-25 | `substr` throws out_of_range exactly when pos is past the end; otherwise it returns the min(count, size - pos) characters from pos |
| CppString.FirstIndexNot | experimental/cpp-serializer/src/amqp/schema/restricted-types/Map.cxx:30 | the first position not holding the character; everything before it holds the character |
| CppString.FindFirstNotOf | experimental/cpp-serializer/src/amqp/schema/restricted-types/Map.cxx:30 | `find_first_not_of` gives the first other character, or npos when every character is the given one |
| CppString.EraseFront | experimental/cpp-serializer/src/amqp/schema/restricted-types/Map.cxx:30 | `erase(0, n)` drops min(n, size) leading characters |
| CppString.EraseLeadingSpaces | experimental/cpp-serializer/src/amqp/schema/restricted-types/Map.cxx:30-32 | the result is a suffix that is empty or starts with a non-space, and every character removed was a space |
| CppString.EraseNoLeadingSpace | experimental/cpp-serializer/src/amqp/schema/restricted-types/Map.cxx:30 | a string not starting with a space is left unchanged (trailing spaces are kept) |
| CppString.EraseLeadingSpace | experimental/cpp-serializer/src/amqp/schema/restricted-types/Map.cxx:32 | one leading space is removed and the rest is treated the same way |
| Schema.Restricted.Source | experimental/cpp-serializer/src/amqp/schema/restricted-types/Restricted.h:42 | the tag is one of exactly three values, one per variant, `restrictedType()`/`source()` |
| Schema.Restricted.Types | experimental/cpp-serializer/src/amqp/schema/restricted-types/Restricted.h:91-97 | `begin..end`: a list yields its element, a map its key then its value, an enumeration its own name |
| Schema.Restricted.Arguments | experimental/cpp-serializer/src/amqp/schema/restricted-types/Restricted.h:91-97 | the types a node refers to: the represented types of a list or map; none for an enumeration |
| Schema.Restricted.NodeType | experimental/cpp-serializer/src/amqp/schema/restricted-types/Restricted.cxx:133-137 | every list, map and enumeration reports the Restricted kind of schema node |
| Schema.Restricted.MapOf | experimental/cpp-serializer/src/amqp/schema/restricted-types/Map.cxx:81-85 | the pair is the key then the value: exactly the two types the map's range `begin..end` yields |
| Lists.ListType | experimental/cpp-serializer/src/amqp/schema/restricted-types/List.cxx:18-27 | with a '<': the prefix before the first '<' and the text between it and the last character; with none, npos wraps and the whole name and the name without its last character come back |
| Lists.ListTypeRoundTrip | experimental/cpp-serializer/src/amqp/schema/restricted-types/List.cxx:21-26 | outer + "<" + element + last character gives back the name whenever something follows the first '<' |
| Lists.ListTypeAt | experimental/cpp-serializer/src/amqp/schema/restricted-types/List.cxx:21-26 | a name whose first '<' is at p splits into s[..p] and s[p+1..size-1] |
| Lists.ListTypeOfJavaList | experimental/cpp-serializer/src/amqp/test/List.cxx:9-14 | "java.util.list<int>" parses as ("java.util.list", "int") |
| Lists.NewList | experimental/cpp-serializer/src/amqp/schema/restricted-types/List.cxx:35-81 | the List node keeps descriptor, name, label and provides, has the List tag, and represents exactly the element parsed from its name |
| Lists.DependsOnMap | experimental/cpp-serializer/src/amqp/schema/restricted-types/List.cxx:85-100 | 1 iff the map's key or value is the list; 2 iff not and the list's element is the map |
| Lists.DependsOnList | experimental/cpp-serializer/src/amqp/schema/restricted-types/List.cxx:104-119 | 2 iff this list's element is the other list (takes precedence); 1 iff not and the other's element is this list |
| Lists.DependsOnEnum | experimental/cpp-serializer/src/amqp/schema/restricted-types/List.cxx:123-127 | the missing return is fixed to 0 |
| Lists.CompositeRule | experimental/cpp-serializer/src/amqp/schema/restricted-types/List.cxx:131-148 | 2 iff the element is the composite (overrides); 1 iff not and some field has the list's type |
| Lists.DependsOnComposite | experimental/cpp-serializer/src/amqp/schema/restricted-types/List.cxx:131-148 | the field loop followed by the element check computes the composite rule |
| Lists.CompositeRuleIgnoresFieldOrder | experimental/cpp-serializer/src/amqp/schema/restricted-types/List.cxx:135-140 | reordering a composite's fields does not change the code |
| Maps.ScanFrom | experimental/cpp-serializer/src/amqp/schema/restricted-types/Map.cxx:18-26 | the scan loop stops at or after its start and never beyond the end |
| Maps.ScanFindsFirstSplit | experimental/cpp-serializer/src/amqp/schema/restricted-types/Map.cxx:18-26 | the scan stops at the first ',' at depth 0, and runs to the end only when there is none; a ',' inside nested <...> never stops it |
| Maps.OpenPos | experimental/cpp-serializer/src/amqp/schema/restricted-types/Map.cxx:15 | `uint pos` is the first '<', or npos truncated to 2^32 - 1 |
| Maps.ScanStart | experimental/cpp-serializer/src/amqp/schema/restricted-types/Map.cxx:17 | the scan starts just after the first '<', or at 0 when `pos + 1` wraps |
| Maps.SplitIndex | experimental/cpp-serializer/src/amqp/schema/restricted-types/Map.cxx:17-26 | the loop's final index lies between the scan start and the end |
| Maps.SplitIndexIsFirstTopLevelComma | experimental/cpp-serializer/src/amqp/schema/restricted-types/Map.cxx:17-26 | the final index is the first top-level comma after the '<'; it is the size exactly when no such comma exists |
| Maps.OuterPart | experimental/cpp-serializer/src/amqp/schema/restricted-types/Map.cxx:28 | the outer name is everything before the first '<', the whole name when there is none |
| Maps.KeyPart | experimental/cpp-serializer/src/amqp/schema/restricted-types/Map.cxx:29 | the raw key runs from the scan start to the split point, also when the positions wrap |
| Maps.ValuePart | experimental/cpp-serializer/src/amqp/schema/restricted-types/Map.cxx:31 | out_of_range exactly when the scan reached the end of a name shorter than 2^32 - 1 characters; otherwise from after the comma up to the last character, or at exactly 2^32 - 1 characters with no split the name less its last character (the `uint` sums wrap) |
| Maps.RawMapType | experimental/cpp-serializer/src/amqp/schema/restricted-types/Map.cxx:28-31 | out_of_range exactly when the scan reached the end of a name shorter than 2^32 - 1 characters; otherwise the outer name and raw key as slices around '<' and the split comma, and the raw value up to the last character |
| Maps.MapNameParts | experimental/cpp-serializer/src/amqp/schema/restricted-types/Map.cxx:12-35 | `mapType` throws out_of_range exactly when no top-level comma follows the '<' (names shorter than 2^32 - 1 characters); otherwise the outer name before '<', and the key and value slices with their leading spaces erased |
| Maps.MapType | experimental/cpp-serializer/src/amqp/schema/restricted-types/Map.cxx:12-35 | the index loop with its nesting counter and the three substrings give MapNameParts, for every name whose positions fit a `uint` |
| Maps.MapNamePartsFrom | experimental/cpp-serializer/src/amqp/schema/restricted-types/Map.cxx:28-32 | the statements after the loop, from the loop's positions, compute MapNameParts; the first two substrings never throw |
| Maps.LongNameWithoutSplit | experimental/cpp-serializer/src/amqp/schema/restricted-types/Map.cxx:17-31 | a name of exactly 2^32 - 1 characters without a top-level comma does not throw; its value is the name less its last character |
| Maps.RawMapTypeRoundTrip | experimental/cpp-serializer/src/amqp/schema/restricted-types/Map.cxx:28-31 | with a top-level comma before the last character, outer + "<" + key + "," + value + last character gives back the name |
| Maps.RawMapTypeAt | experimental/cpp-serializer/src/amqp/schema/restricted-types/Map.cxx:28-31 | with the first '<' at p and the scan stopping at k, the raw parts are s[..p], s[p+1..k], s[k+1..size-1] |
| Maps.MapTypeOfNestedKey | experimental/cpp-serializer/src/amqp/schema/restricted-types/Map.cxx:17-32 | "Map<Map<A, B>, C>" parses as ("Map", "Map<A, B>", "C"): the nested comma is skipped and only leading spaces go |
| Maps.NewMap | experimental/cpp-serializer/src/amqp/schema/restricted-types/Map.cxx:43-59 | the constructor throws exactly when mapType does; otherwise a Map tagged Map that keeps its fields and represents [key, value] as parsed |
| Maps.DependsOnMap | experimental/cpp-serializer/src/amqp/schema/restricted-types/Map.cxx:89-104 | 1 iff the other map's key or value is this map (checked first); 2 iff not and this map's key or value is the other |
| Maps.DependsOnList | experimental/cpp-serializer/src/amqp/schema/restricted-types/Map.cxx:108-122 | 1 iff the list's element is this map (checked first); 2 iff not and this map's key or value is the list |
| Maps.DependsOnEnum | experimental/cpp-serializer/src/amqp/schema/restricted-types/Map.cxx:126-140 | 1 iff the enumeration has this map's name; 2 iff not and this map's key or value is the enumeration |
| Maps.CompositeRule | experimental/cpp-serializer/src/amqp/schema/restricted-types/Map.cxx:144-162 | 2 iff key or value is the composite (overrides); 1 iff not and some field has the map's type |
| Maps.DependsOnComposite | experimental/cpp-serializer/src/amqp/schema/restricted-types/Map.cxx:144-162 | the field loop followed by the key and value check computes the composite rule |
| Enums.NewEnum | experimental/cpp-serializer/src/amqp/schema/restricted-types/Enum.cxx:13-46 | an Enum tagged Enum that keeps its fields, represents exactly its own name, refers to nothing, and keeps its choices in order |
| Enums.DependsOnMap | experimental/cpp-serializer/src/amqp/schema/restricted-types/Enum.cxx:50-60 | 1 iff the map's key or value is the enumeration; never 2 |
| Enums.DependsOnList | experimental/cpp-serializer/src/amqp/schema/restricted-types/Enum.cxx:64-75 | 2 iff the list's element is the enumeration; never 1 |
| Enums.DependsOnEnum | experimental/cpp-serializer/src/amqp/schema/restricted-types/Enum.cxx:79-84 | two enumerations never depend on one another |
| Enums.DependsOnComposite | experimental/cpp-serializer/src/amqp/schema/restricted-types/Enum.cxx:88-103 | 1 iff the composite has the enumeration's name; 2 iff not and some field has its type |
| Enums.MakeChoices | experimental/cpp-serializer/src/amqp/schema/restricted-types/Enum.cxx:107-118 | one choice name per stored choice, in order |
| Enums.MakeChoicesAppend | experimental/cpp-serializer/src/amqp/schema/restricted-types/Enum.cxx:107-118 | the names of concatenated choices are the concatenated names: order and duplicates are kept |
| RestrictedNodes.TagText | experimental/cpp-serializer/src/amqp/schema/restricted-types/Restricted.cxx:41-62 | the text is "list" exactly for List, "map" exactly for Map and "enum" exactly for Enum |
| RestrictedNodes.TagTextInjective | experimental/cpp-serializer/src/amqp/schema/restricted-types/Restricted.cxx:46-59 | two tags are written the same exactly when they are equal |
| RestrictedNodes.Make | experimental/cpp-serializer/src/amqp/schema/restricted-types/Restricted.cxx:82-113 | "list" without choices gives a List and with choices an Enum carrying them; "map" gives a Map whatever the choices, throwing only when the name parser does; anything else throws "Unknown restricted type"; fields, node type and tag are kept |
| RestrictedNodes.Constructed | experimental/cpp-serializer/src/amqp/schema/restricted-types/Restricted.h:60-69 | of a node the named constructor can build, the range is the element parsed from a list's name, or the key and value parsed from a map's name (which must parse); an enumeration qualifies exactly when it has a choice |
| RestrictedNodes.MakeIsConstructed | experimental/cpp-serializer/src/amqp/schema/restricted-types/Restricted.h:61-83 | every node `make` returns has its arguments parsed from its name (or non-empty choices) |
| RestrictedNodes.ConstructedIsMade | experimental/cpp-serializer/src/amqp/schema/restricted-types/Restricted.h:61-83 | every such node is what `make` returns for its own fields and source text |
| RestrictedNodes.MakeFromTagText | experimental/cpp-serializer/src/amqp/schema/restricted-types/Restricted.cxx:98-112 | the text of the List tag builds a List, that of Map can only build a Map, and "enum" is rejected as unknown |
| RestrictedNodes.DependsOnRestricted | experimental/cpp-serializer/src/amqp/schema/restricted-types/Restricted.h:72-74 | between lists and maps: 0 iff neither refers to the other, 2 only when self refers to other, 1 only when other refers to self, and under mutual reference 2 for two lists and 1 otherwise; the enumeration pairs as their rules say |
| RestrictedNodes.DependsOnComposite | experimental/cpp-serializer/src/amqp/schema/restricted-types/Restricted.h:101 | the composite check of each variant, in terms of the node's arguments and the composite's fields |
| RestrictedNodes.DependsOnNotation | experimental/cpp-serializer/src/amqp/schema/restricted-types/Restricted.cxx:149-153 | the arguments are swapped: the other node is asked about this one |
| RestrictedNodes.Flip | experimental/cpp-serializer/src/amqp/schema/restricted-types/Restricted.cxx:149-153 | the code seen from the other side: 0 stays, 1 and 2 exchange |
| RestrictedNodes.DependsOnMirror | experimental/cpp-serializer/src/amqp/schema/restricted-types/Map.cxx:166-170 | between lists and maps not referring to each other, swapping the pair exchanges 1 and 2 |
| RestrictedNodes.DependsOnNotationIsMirror | experimental/cpp-serializer/src/amqp/schema/restricted-types/Restricted.cxx:149-153 | the swapping dependsOn gives the exchanged code of the direct query |
| RestrictedNodes.DependsOnIsReference | experimental/cpp-serializer/src/amqp/schema/restricted-types/Restricted.h:99-100 | without mutual reference, 2 exactly when self must come after other and 1 exactly when other must come after self |
| RestrictedNodes.SelfDependence | experimental/cpp-serializer/src/amqp/schema/restricted-types/List.cxx:104-119 | a node asked about itself answers non-zero exactly when it names itself; then a list answers 2 and a map 1 |
| RestrictedNodes.ListOfListPair | experimental/cpp-serializer/src/amqp/test/List.cxx:18-24 | for a list of the first list's type, the first answers 1 and the second 2 |
| RestrictedNodes.EnumAnswersDiffer | experimental/cpp-serializer/src/amqp/schema/restricted-types/Enum.cxx:50-75 | an enumeration used by a map and by a list answers 1 and 2 respectively |
| StableSort.Insert | buildSrc/src/main/groovy/net/corda/testing/BucketingAllocator.java:91 | inserting adds exactly the element to the multiset |
| StableSort.InsertSorted | buildSrc/src/main/groovy/net/corda/testing/BucketingAllocator.java:91 | inserting into a sorted sequence keeps it sorted |
| StableSort.Sort | buildSrc/src/main/groovy/net/corda/testing/BucketingAllocator.java:91 | `sorted(comparator)` gives a sorted permutation of its input |
| StableSort.SortIsStable | buildSrc/src/main/groovy/net/corda/testing/BucketingAllocator.java:91 | elements that compare equal keep their input order |
| TestPlan.ClampedSum | buildSrc/src/main/groovy/net/corda/testing/BucketingAllocator.java:116 | the sum of max(d, 1) is at least the number of found tests |
| TestPlan.ClampedSumAppend | buildSrc/src/main/groovy/net/corda/testing/BucketingAllocator.java:116 | the clamped sum is additive over concatenation |
| TestPlan.NewTestBucket | buildSrc/src/main/groovy/net/corda/testing/BucketingAllocator.java:108-118 | the bucket keeps task, name and found tests; its duration is the larger of the clamped sum and the default, so at least both and at least the number of found tests |
| TestPlan.TotalDuration | buildSrc/src/main/groovy/net/corda/testing/BucketingAllocator.java:147 | with no negative duration the running total is non-negative and at least the duration of every bucket added |
| TestPlan.TotalDurationAppend | buildSrc/src/main/groovy/net/corda/testing/BucketingAllocator.java:147 | the total duration is additive over concatenation |
| TestPlan.LongerFirst | buildSrc/src/main/groovy/net/corda/testing/BucketingAllocator.java:91 | a bucket may come first exactly when `Long.compare` of the other's duration with its own is not positive, which is `comparing(getDuration).reversed()` |
| TestPlan.LongerFirstIsTotalPreorder | buildSrc/src/main/groovy/net/corda/testing/BucketingAllocator.java:91 | the reversed duration comparator is a total preorder |
| TestPlan.StringLeq | buildSrc/src/main/groovy/net/corda/testing/BucketingAllocator.java:99 | a prefix comes first, a longer string never precedes its own prefix, and at the first differing position the smaller character decides |
| TestPlan.StringLeqTotal | buildSrc/src/main/groovy/net/corda/testing/BucketingAllocator.java:99 | any two names are comparable |
| TestPlan.StringLeqTransitive | buildSrc/src/main/groovy/net/corda/testing/BucketingAllocator.java:99 | the name order is transitive |
| TestPlan.StringLeqAntisymmetric | buildSrc/src/main/groovy/net/corda/testing/BucketingAllocator.java:99 | names tied in the order are equal |
| TestPlan.NameFirst | buildSrc/src/main/groovy/net/corda/testing/BucketingAllocator.java:99 | two tests of the same name tie whatever their tasks; of two different names exactly one comes first |
| TestPlan.NameFirstIsTotalPreorder | buildSrc/src/main/groovy/net/corda/testing/BucketingAllocator.java:99 | the comparator on the test name is a total preorder |
| TestPlan.Tagged | buildSrc/src/main/groovy/net/corda/testing/BucketingAllocator.java:98 | each discovered test of a source is paired with that source's task, in order |
| TestPlan.Discovered | buildSrc/src/main/groovy/net/corda/testing/BucketingAllocator.java:95-99 | a pair is discovered exactly when some source lists the test under that task |
| TestPlan.DiscoveredSingle | buildSrc/src/main/groovy/net/corda/testing/BucketingAllocator.java:95-99 | one source gives its lister's tests in order, each paired with the source's task |
| TestPlan.DiscoveredAppend | buildSrc/src/main/groovy/net/corda/testing/BucketingAllocator.java:95-99 | the flatMap distributes over concatenation: the sources' tests come source after source, with their counts |
| TestPlan.TestsOnClasspath | buildSrc/src/main/groovy/net/corda/testing/BucketingAllocator.java:94-100 | the discovered tests, sorted by name, each as often as discovered |
| TestPlan.ClasspathIsStable | buildSrc/src/main/groovy/net/corda/testing/BucketingAllocator.java:99 | tests of the same name keep the order of their sources |
| TestPlan.Buckets | buildSrc/src/main/groovy/net/corda/testing/BucketingAllocator.java:78-90 | one bucket per discovered test, built from the recorded tests under its name and the mean duration |
| TestPlan.MatchTestsToFile | buildSrc/src/main/groovy/net/corda/testing/BucketingAllocator.java:76-92 | the buckets ordered by non-increasing duration, each as often as built |
| TestPlan.MatchIsStable | buildSrc/src/main/groovy/net/corda/testing/BucketingAllocator.java:91 | buckets of equal duration keep the order of the discovered tests |
| TestPlan.ForTaskCounts | buildSrc/src/main/groovy/net/corda/testing/BucketingAllocator.java:154-158 | a task's list holds exactly the fork's buckets of that task, each as often as in the fork |
| TestPlan.GroupByTask | buildSrc/src/main/groovy/net/corda/testing/BucketingAllocator.java:155-157 | freezing keeps every task that already had a list and gives a list to the task of every bucket of the fork |
| TestPlan.GroupByTaskIsForTask | buildSrc/src/main/groovy/net/corda/testing/BucketingAllocator.java:154-158 | after freezing, a task's list is its earlier list followed by its buckets in insertion order |
| TestPlan.GroupByTaskKeys | buildSrc/src/main/groovy/net/corda/testing/BucketingAllocator.java:156 | a task has a list after freezing exactly when it had one or some bucket belongs to it |
| TestPlan.FreezeTwiceRepeats | buildSrc/src/main/groovy/net/corda/testing/BucketingAllocator.java:154-158 | freezing twice lists every bucket of the task twice |
| TestPlan.Lookup | buildSrc/src/main/groovy/net/corda/testing/BucketingAllocator.java:161 | `getOrDefault`: the task's list when it has one, the empty list otherwise |
| TestPlan.Names | buildSrc/src/main/groovy/net/corda/testing/BucketingAllocator.java:161 | the test name of each bucket, in order |
| TestPlan.IndexOfMin | buildSrc/src/main/groovy/net/corda/testing/BucketingAllocator.java:71 | `Collections.min` returns a position among the forks |
| TestPlan.IndexOfMinIsFirstMin | buildSrc/src/main/groovy/net/corda/testing/BucketingAllocator.java:71 | the position picked holds a smallest running duration and every earlier one is strictly larger: the first minimum on ties |
| TestPlan.IndexOfMinNext | buildSrc/src/main/groovy/net/corda/testing/BucketingAllocator.java:71 | extending the forks by one keeps the earlier pick unless the new fork is strictly smaller |
| TestPlan.Loads | buildSrc/src/main/groovy/net/corda/testing/BucketingAllocator.java:71 | one running duration per fork |
| TestPlan.LoadsAreTotals | buildSrc/src/main/groovy/net/corda/testing/BucketingAllocator.java:71 | fork i's load is the total duration of its buckets |
| TestPlan.Place | buildSrc/src/main/groovy/net/corda/testing/BucketingAllocator.java:70-73 | one allocation step keeps the number of forks |
| TestPlan.PlaceAt | buildSrc/src/main/groovy/net/corda/testing/BucketingAllocator.java:71-72 | a step appends to the fork the minimum search picks |
| TestPlan.PlaceIsGreedy | buildSrc/src/main/groovy/net/corda/testing/BucketingAllocator.java:71-72 | the bucket is appended to the first fork of smallest running duration and no other fork changes |
| TestPlan.Allocate | buildSrc/src/main/groovy/net/corda/testing/BucketingAllocator.java:69-74 | allocating keeps the number of forks |
| TestPlan.AllocateNext | buildSrc/src/main/groovy/net/corda/testing/BucketingAllocator.java:69-74 | allocating one more bucket of the run is one more step |
| TestPlan.FlattenAppendAt | buildSrc/src/main/groovy/net/corda/testing/BucketingAllocator.java:72 | appending to one fork adds just that bucket to all the forks' buckets |
| TestPlan.FlattenUpdateDuration | buildSrc/src/main/groovy/net/corda/testing/BucketingAllocator.java:147 | replacing one fork's buckets replaces its share of the total duration |
| TestPlan.PlaceKeepsEveryBucket | buildSrc/src/main/groovy/net/corda/testing/BucketingAllocator.java:70-73 | a step adds exactly the placed bucket to the forks |
| TestPlan.AllocateKeepsEveryBucket | buildSrc/src/main/groovy/net/corda/testing/BucketingAllocator.java:69-74 | every bucket goes to exactly one fork: the forks hold their earlier buckets and the allocated ones |
| TestPlan.AllocateAddsDurations | buildSrc/src/main/groovy/net/corda/testing/BucketingAllocator.java:69-74 | the total duration across forks grows by exactly the allocated buckets' durations |
| TestPlan.AllocateOnlyAppends | buildSrc/src/main/groovy/net/corda/testing/BucketingAllocator.java:69-74 | each fork's earlier buckets stay first, in order |
| Bucketing.TestsForForkContainer.constructor | buildSrc/src/main/groovy/net/corda/testing/BucketingAllocator.java:136-143 | a new container has its index, no buckets, nothing frozen and a running duration of 0 |
| Bucketing.TestsForForkContainer.AddBucket | buildSrc/src/main/groovy/net/corda/testing/BucketingAllocator.java:145-148 | the bucket goes last, the running duration grows by its duration, and the running-total invariant is kept |
| Bucketing.TestsForForkContainer.GetCurrentDuration | buildSrc/src/main/groovy/net/corda/testing/BucketingAllocator.java:150-152 | the running duration equals the total of the fork's buckets |
| Bucketing.TestsForForkContainer.Freeze | buildSrc/src/main/groovy/net/corda/testing/BucketingAllocator.java:154-158 | each bucket in turn is appended to its task's list; buckets and running duration are unchanged |
| Bucketing.TestsForForkContainer.GetTestsForTask | buildSrc/src/main/groovy/net/corda/testing/BucketingAllocator.java:160-162 | the names of the task's frozen buckets in order, none for an unknown task |
| Bucketing.TestsForForkContainer.GetBucketsForFork | buildSrc/src/main/groovy/net/corda/testing/BucketingAllocator.java:164-166 | a copy equal to the fork's bucket list |
| Bucketing.FrozenOnceListsTaskBuckets | buildSrc/src/main/groovy/net/corda/testing/BucketingAllocator.java:154-162 | after one freeze, a task's tests are the names of its buckets in the fork's order |
| Bucketing.BucketingAllocator.constructor | buildSrc/src/main/groovy/net/corda/testing/BucketingAllocator.java:30-33 | forkCount fresh empty containers (none for a non-positive count), container i with index i |
| Bucketing.BucketingAllocator.AddSource | buildSrc/src/main/groovy/net/corda/testing/BucketingAllocator.java:35-37 | the source is registered last |
| Bucketing.BucketingAllocator.GetTestsForForkAndTestTask | buildSrc/src/main/groovy/net/corda/testing/BucketingAllocator.java:39-41 | forwards to container `fork`; no answer for a fork out of range |
| Bucketing.BucketingAllocator.Durations | buildSrc/src/main/groovy/net/corda/testing/BucketingAllocator.java:71 | the running duration of each container, fork by fork |
| Bucketing.BucketingAllocator.SmallestContainer | buildSrc/src/main/groovy/net/corda/testing/BucketingAllocator.java:71 | the loop finds the position IndexOfMin picks among the running durations: the first smallest |
| Bucketing.BucketingAllocator.LoadsAreDurations | buildSrc/src/main/groovy/net/corda/testing/BucketingAllocator.java:71 | with the running-total invariant, the loads compared are the containers' running durations |
| Bucketing.BucketingAllocator.PlaceBucket | buildSrc/src/main/groovy/net/corda/testing/BucketingAllocator.java:71-72 | one step changes the forks as Place does and keeps the invariant and the frozen lists |
| Bucketing.BucketingAllocator.AddTo | buildSrc/src/main/groovy/net/corda/testing/BucketingAllocator.java:72 | container k alone gets the bucket last; the invariant and the frozen lists are kept |
| Bucketing.BucketingAllocator.AllocateTestsToForks | buildSrc/src/main/groovy/net/corda/testing/BucketingAllocator.java:69-74 | the forks' buckets become Allocate of the matched buckets; with no forks and something to place it fails (`Collections.min` of nothing) and changes nothing |
| Bucketing.BucketingAllocator.GenerateTestPlan | buildSrc/src/main/groovy/net/corda/testing/BucketingAllocator.java:43-54 | allocates the matched, name-sorted discovered tests and then freezes every container |
| Bucketing.BucketingAllocator.FreezeAll | buildSrc/src/main/groovy/net/corda/testing/BucketingAllocator.java:51 | every container is frozen once; the buckets are unchanged |

## Left out

- Output: the stream operator for a node, the constructors' `std::cout` logging, the `DBG` macros and `printSummary` write text and are not modelled.
- Descriptor, Field, Choice, Composite and AMQPTypeNotation are not part of this model. A descriptor is an opaque string, a choice a pair of strings, and a composite its name with the resolved type name of each field.
- The composite side of double dispatch (`Composite::dependsOn(Restricted)`) is not part of this model; `RestrictedNodes.DependsOnNotation` takes it as the parameter `compositeSide`.
- `unique_ptr` ownership, moves and the deleted copy constructor carry no behaviour; nodes are immutable values.
- Protected construction cannot be enforced on a Dafny datatype. The predicate `RestrictedNodes.Constructed` names the nodes `make` can build, and two lemmas show that these are exactly its results.
- `Map.h`, `List.h` and `Enum.h` only declare; their signatures are followed. `List.h` declares `dependsOnRHS(const Composite &)` as the override, while `List.cxx` defines `List::dependsOn(const Composite &)` instead; Lists.DependsOnComposite follows the definition in `List.cxx`. `Enum.h` declares `dependsOn(const Composite &)` as the override, while `Enum.cxx` defines `Enum::dependsOnRHS(const Composite &)` instead; Enums.DependsOnComposite takes `dependsOnRHS` to be the enumeration's composite check.
- RestrictedNodes.DependsOnRestricted: the body of `Restricted::dependsOn(const Restricted &)` is not part of this model; it is assumed to ask `self.dependsOnList/Map/Enum(other)` by the other node's tag.
- Lists.DependsOnEnum: the source returns no value (undefined behaviour); the model answers 0.
- RestrictedNodes.Make: requires a name shorter than 2^64 - 1 characters (positions fit a `size_t`) and, for the source "map", at most 2^32 - 1 characters, for the reason given for Maps.NewMap.
- Maps.NewMap: requires a name of at most 2^32 - 1 characters, as do Maps.MapType, Maps.MapNameParts and the functions they use, because `Map::mapType` keeps its index in a 32-bit `uint`. On a name of 2^32 characters or more that index never reaches the size: `++idx` wraps to 0 and the loop goes on until it meets a ',' at nesting 0, possibly never. That behaviour is not modelled.
- A name is a sequence of Dafny characters, while `std::string::size` and the `uint` positions count bytes. The 2^64 and 2^32 bounds and `Maps.LongNameWithoutSplit` therefore match the source for names whose characters are single bytes (ASCII); for a name with multi-byte UTF-8 characters, positions are counted in characters instead of bytes.
- The gtest `dependsOn1` only prints; its pair is stated as `RestrictedNodes.ListOfListPair`.
- The Gradle task action, the `Supplier<Tests>` of recorded durations and `TestLister` are not part of this model. The recorded tests matching a name (`startsWith`) and the mean duration are parameters, and a source is the list of tests its lister discovers.
- `synchronizedList` is a concurrency concern; the list is a plain sequence and no concurrency is modelled.
- Java `long` durations are unbounded integers; overflow of the sums is not modelled.
- TestPlan.StringLeq: compares Dafny characters lexicographically; `String.compareTo` compares UTF-16 code units, which differs for characters outside the Basic Multilingual Plane.
- A null forkCount or fork index (a `NullPointerException` when unboxed) is not modelled; the parameters are plain integers.
- Bucketing.BucketingAllocator.GetTestsForForkAndTestTask: `forkContainers.get` throwing for an index out of range is modelled as `None`.
- Bucketing.BucketingAllocator.AllocateTestsToForks: the `NoSuchElementException` of `Collections.min` over no containers is modelled as the result `false` with nothing changed.
- Test tasks are compared by value (strings) rather than by object identity and hash.
