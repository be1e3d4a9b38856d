# polymorphic-gson: a Dafny model of `GsonPolymorphAdapter`

`GsonPolymorphAdapter` is a Gson `TypeAdapterFactory`. It serializes a class
hierarchy polymorphically. A root class is marked `@GsonPolymorph`. Every class
of the root's family has one canonical name: its `@GsonPolymorphName`, or else
its simple name with the first letter lower-cased. A class may also have
read-only alternate names from `@GsonPolymorphAltName`. When it is constructed,
the factory builds one name → class map per root and rejects two classes that
share a name. For a root type, `create` returns an adapter that writes the
canonical name of the runtime class next to the payload, in one of three
styles:

- ARRAY: `[name, payload]`;
- PROPERTY: `{name: payload}`;
- TYPE_PROPERTY: the payload object plus a `"@type": name` member.

On read, the adapter resolves the name it finds back to a class.

The model has one module per part:

- `Wrappers`: `Option` and `Result`.
- `Metadata`: the per-class annotation data (`ClassInfo`), one scanned family (`Family`), the three styles, and the errors as values.
- `Json`: a JSON tree, the `JsonObject` operations the adapter uses, and the two ways it reads a discriminator as a string.
- `Names`: the default name extractor, `getName` and `getNames`. `getNames` is a function; `CollectNames` is the loop that fills the set.
- `Families`: the registry build as specification functions, and lemmas about what a successful build holds and what a failed build reports.
- `Codec`:
  - the two adapter tables;
  - `write`, `read` and `getAdapter` of the anonymous `TypeAdapter`;
  - the round trip.
- `Adapter`: the factory as a class whose `classesByName` map is filled by a loop method, and `create`. The family, name-insertion and table loops are separate methods, each proved against its specification function.
- `Scenario`: the family of the repository's test (`Base`, `SubClassA`, and `SubClassB` with alternate name `"b"`), and the test's expectations as lemmas.

Gson's payload adapters, the ones that write and read the fields of an object,
are a parameter (`Framework`): a write function and a read function per
adapter. The round trip (`Codec.RoundTrip`) assumes:

- each payload adapter reads back what it wrote;
- the two tables are consistent (`Codec.WellFormed`), as `create` builds them;
- the written value is null or of a class registered in the family;
- for TYPE_PROPERTY, the payload is a JSON object tree that has no key twice, at any depth, and
  does not already hold the type property.

An alternate name equal to the class's own canonical name collapses in
`getNames`' `HashSet` and is not a collision (`Scenario.TestSelfNamed`). The
root's own names are never checked at all.

## Model

| member | source | states |
|---|---|---|
| Names.Decapitalize | src/main/java/com/github/ruediste/polymorphicGson/GsonPolymorphAdapter.java:66-68 | same length and same characters from index 1 on; the first character is never upper case afterwards; an upper-case first letter is lowered by exactly 32, anything else leaves the name unchanged |
| Names.DecapitalizeIdempotent | src/main/java/com/github/ruediste/polymorphicGson/GsonPolymorphAdapter.java:66-68 | decapitalizing twice equals decapitalizing once |
| Names.DefaultName | src/main/java/com/github/ruediste/polymorphicGson/GsonPolymorphAdapter.java:62-69 | fails exactly on an empty simple name, with the error naming the class; otherwise it is the decapitalized simple name |
| Names.GetName | src/main/java/com/github/ruediste/polymorphicGson/GsonPolymorphAdapter.java:117-123 | an explicit name always wins; without one the result is the default extractor's; fails exactly when there is no explicit name and the simple name is empty; a derived name keeps the simple name's length and tail and does not start in upper case |
| Names.Distinct | src/main/java/com/github/ruediste/polymorphicGson/GsonPolymorphAdapter.java:129-133 | no duplicates, the same elements as the input, and the first element is kept first |
| Names.GetNames | src/main/java/com/github/ruediste/polymorphicGson/GsonPolymorphAdapter.java:128-135 | succeeds exactly when getName does; the names are duplicate-free, lead with the canonical name, and are exactly the canonical name plus every alternate name |
| Names.CollectNames | src/main/java/com/github/ruediste/polymorphicGson/GsonPolymorphAdapter.java:128-135 | the set-filling loop yields exactly GetNames |
| Json.Get | src/main/java/com/github/ruediste/polymorphicGson/GsonPolymorphAdapter.java:219 | a value is found exactly when the key is present, and it is a member of the object |
| Json.Put | src/main/java/com/github/ruediste/polymorphicGson/GsonPolymorphAdapter.java:186 | the keys afterwards are the old keys plus the new one; a new key is appended at the end |
| Json.GetPut | src/main/java/com/github/ruediste/polymorphicGson/GsonPolymorphAdapter.java:186 | after adding, the key holds the new value and every other key reads as before |
| Json.Remove | src/main/java/com/github/ruediste/polymorphicGson/GsonPolymorphAdapter.java:220 | the keys afterwards are the old keys minus the removed one; removing an absent key changes nothing |
| Json.GetRemove | src/main/java/com/github/ruediste/polymorphicGson/GsonPolymorphAdapter.java:220 | after removing, the key is absent and every other key reads as before |
| Json.RemovePut | src/main/java/com/github/ruediste/polymorphicGson/GsonPolymorphAdapter.java:217-221 | adding a member and then removing its key gives the object without that key |
| Json.PutUnique | src/main/java/com/github/ruediste/polymorphicGson/GsonPolymorphAdapter.java:186 | adding keeps an object's keys unique |
| Json.RemoveUnique | src/main/java/com/github/ruediste/polymorphicGson/GsonPolymorphAdapter.java:220 | removing keeps an object's keys unique |
| Json.AsString | src/main/java/com/github/ruediste/polymorphicGson/GsonPolymorphAdapter.java:219 | a string reads as itself, a number as its literal, a boolean as "true" or "false", a one-element array as its element; null, an object, and an array that does not have exactly one element give no string |
| Json.Lookup | src/main/java/com/github/ruediste/polymorphicGson/GsonPolymorphAdapter.java:218 | finds a value exactly when the key is present |
| Json.Collapse | src/main/java/com/github/ruediste/polymorphicGson/GsonPolymorphAdapter.java:218 | the parsed tree has the same keys as the member list and no key twice |
| Json.GetCollapse | src/main/java/com/github/ruediste/polymorphicGson/GsonPolymorphAdapter.java:218-219 | a key of the parsed tree holds the last value the input gave it |
| Json.CollapseUnique | src/main/java/com/github/ruediste/polymorphicGson/GsonPolymorphAdapter.java:218 | a member list without repeated keys parses to itself |
| Json.Parse | src/main/java/com/github/ruediste/polymorphicGson/GsonPolymorphAdapter.java:218 | the parsed tree keeps each value's shape; an array's elements are each parsed; an object keeps its keys and holds none twice, so objects at every depth, inside arrays too, are folded |
| Json.GetParse | src/main/java/com/github/ruediste/polymorphicGson/GsonPolymorphAdapter.java:218-219 | a key of a parsed object holds the parsed last value the input gave it, and is absent exactly when the input lacks it |
| Json.ParseAppend | src/main/java/com/github/ruediste/polymorphicGson/GsonPolymorphAdapter.java:185-188 | an object tree with a member appended under a new key, whose value is a tree, parses to itself |
| Json.AsStringParse | src/main/java/com/github/ruediste/polymorphicGson/GsonPolymorphAdapter.java:219 | parsing does not change what getAsString reads from a value |
| Json.NextString | src/main/java/com/github/ruediste/polymorphicGson/GsonPolymorphAdapter.java:205 | gives a string exactly for a string or number token; a string reads as itself and a number as its literal text |
| Families.RootNameMap | src/main/java/com/github/ruediste/polymorphicGson/GsonPolymorphAdapter.java:94 | the keys are exactly the root's names, and all of them map to the root |
| Families.PutSubclasses | src/main/java/com/github/ruediste/polymorphicGson/GsonPolymorphAdapter.java:97-106 | the subclass loop keeps every key it started with, and fails only with an empty simple name or a collision |
| Families.FamilyMap | src/main/java/com/github/ruediste/polymorphicGson/GsonPolymorphAdapter.java:89-106 | a family build fails only with an empty simple name or a collision |
| Families.ScanAll | src/main/java/com/github/ruediste/polymorphicGson/GsonPolymorphAdapter.java:88-108 | the scan keeps every root registered before it, and fails only with an empty simple name or a collision |
| Families.PutSubclassNames | src/main/java/com/github/ruediste/polymorphicGson/GsonPolymorphAdapter.java:99-104 | success means all names were fresh and the result is the old map plus every name mapped to the subclass; fresh distinct names always succeed; a failure is a collision naming the subclass, the root and one of its names, and, for distinct names, the class that already held the name |
| Families.PutSubclassesSucceeds | src/main/java/com/github/ruediste/polymorphicGson/GsonPolymorphAdapter.java:97-106 | the subclass phase succeeds exactly when every subclass has a name, none of its names is already taken, and no two subclasses share a name |
| Families.PutSubclassesKeys | src/main/java/com/github/ruediste/polymorphicGson/GsonPolymorphAdapter.java:97-106 | after a successful subclass phase, the keys are the starting keys plus the union of the subclasses' names |
| Families.PutSubclassesKeeps | src/main/java/com/github/ruediste/polymorphicGson/GsonPolymorphAdapter.java:97-106 | a successful subclass phase keeps every earlier entry unchanged |
| Families.PutSubclassesDeclared | src/main/java/com/github/ruediste/polymorphicGson/GsonPolymorphAdapter.java:99-100 | after a successful subclass phase with result r, every name of subclass i is a key of r and maps to subclass i |
| Families.FamilyMapSucceeds | src/main/java/com/github/ruediste/polymorphicGson/GsonPolymorphAdapter.java:89-106 | a family builds exactly when every class has a name, no subclass name is a root name, and no two subclasses share a name |
| Families.FamilyMapUnfold | src/main/java/com/github/ruediste/polymorphicGson/GsonPolymorphAdapter.java:90-97 | a family build starts from the root's names, each mapped to the root |
| Families.FamilyMapKeys | src/main/java/com/github/ruediste/polymorphicGson/GsonPolymorphAdapter.java:89-107 | a built family's keys are exactly the root's names together with all the subclasses' names |
| Families.FamilyMapRootNames | src/main/java/com/github/ruediste/polymorphicGson/GsonPolymorphAdapter.java:94 | in a built family, every root name maps to the root |
| Families.FamilyMapSubclassNames | src/main/java/com/github/ruediste/polymorphicGson/GsonPolymorphAdapter.java:97-105 | in a built family, every name of a subclass maps to that subclass |
| Families.PutSubclassesErrors | src/main/java/com/github/ruediste/polymorphicGson/GsonPolymorphAdapter.java:99-104 | a failed subclass phase reports either a subclass that has no name, or a collision between a subclass and a class that held that name before it (an entry of the starting map or an earlier subclass), both of which declare the name |
| Families.PutSubclassesErrorKinds | src/main/java/com/github/ruediste/polymorphicGson/GsonPolymorphAdapter.java:99-104 | a failed subclass phase reports a subclass that has no name, or a collision naming the root and two classes that both declare the name |
| Families.PutSubclassesHolder | src/main/java/com/github/ruediste/polymorphicGson/GsonPolymorphAdapter.java:100-103 | the class a collision reports as the holder was in the starting map or is an earlier subclass than the one reported |
| Families.FamilyMapErrors | src/main/java/com/github/ruediste/polymorphicGson/GsonPolymorphAdapter.java:99-104 | a failed family build reports a class of the family that has no name, or a collision naming the root, a subclass and the root or an earlier subclass, both of which declare the name |
| Families.FamilyMapClosed | src/main/java/com/github/ruediste/polymorphicGson/GsonPolymorphAdapter.java:89-107 | a built family maps each name to a class that declares it, and every name of that class is there too; the root's canonical name maps to the root |
| Families.ScanAllSucceeds | src/main/java/com/github/ruediste/polymorphicGson/GsonPolymorphAdapter.java:88-108 | the scan succeeds exactly when every family builds |
| Families.ScanAllKeys | src/main/java/com/github/ruediste/polymorphicGson/GsonPolymorphAdapter.java:107 | after a successful scan, the registry holds exactly the earlier roots plus every scanned root |
| Families.ScanAllClosed | src/main/java/com/github/ruediste/polymorphicGson/GsonPolymorphAdapter.java:88-108 | scanning marked roots keeps the registry invariant: only roots, each with a closed family |
| Families.ScanAllFamilies | src/main/java/com/github/ruediste/polymorphicGson/GsonPolymorphAdapter.java:107 | with distinct roots, each root's entry is the map built from its family |
| Families.ScanAllKeeps | src/main/java/com/github/ruediste/polymorphicGson/GsonPolymorphAdapter.java:107 | a root that no scanned family names keeps its entry |
| Codec.AdapterFor | src/main/java/com/github/ruediste/polymorphicGson/GsonPolymorphAdapter.java:150-154 | the adapter is for the class asked about; it is the delegate exactly when that class is the root |
| Codec.NameTable | src/main/java/com/github/ruediste/polymorphicGson/GsonPolymorphAdapter.java:148-157 | the name table has exactly the family's names, each with the adapter of its class |
| Codec.ClassTable | src/main/java/com/github/ruediste/polymorphicGson/GsonPolymorphAdapter.java:147-157 | the class table has exactly the family's classes, each with its own adapter |
| Codec.TablesWellFormed | src/main/java/com/github/ruediste/polymorphicGson/GsonPolymorphAdapter.java:147-157 | for a closed family, every class in the class table is in the name table under its canonical name, with the same adapter, and that adapter belongs to the class |
| Codec.Envelope | src/main/java/com/github/ruediste/polymorphicGson/GsonPolymorphAdapter.java:169-188 | ARRAY gives [name, payload] and PROPERTY gives {name: payload}; TYPE_PROPERTY gives the payload object whose type property holds the name, whose other members are the payload's, with the property appended last when it was new and no key doubled; it fails exactly for TYPE_PROPERTY with a payload that is not an object |
| Codec.Write | src/main/java/com/github/ruediste/polymorphicGson/GsonPolymorphAdapter.java:162-191 | null is written as JSON null; a class without a name fails with that error; a class outside the family fails; otherwise the envelope of the canonical name around the payload its class's adapter wrote |
| Codec.WriteDiscriminator | src/main/java/com/github/ruediste/polymorphicGson/GsonPolymorphAdapter.java:168-188 | a written instance is [name, payload], {name: payload}, or the payload object with the type property set to the name (appended last when new), where name is the class's canonical name and payload what its adapter wrote |
| Codec.GetAdapter | src/main/java/com/github/ruediste/polymorphicGson/GsonPolymorphAdapter.java:228-234 | succeeds exactly on a registered name, with that name's adapter; otherwise "Unknown sub type" with the name and the root |
| Codec.ReadPayload | src/main/java/com/github/ruediste/polymorphicGson/GsonPolymorphAdapter.java:206 | a value read with an adapter is of that adapter's class; a failure is the payload adapter's |
| Codec.Read | src/main/java/com/github/ruediste/polymorphicGson/GsonPolymorphAdapter.java:196-226 | JSON null reads as null; any instance read belongs to a class in the name table; "Unknown sub type" is raised only for an unregistered name and names the root |
| Codec.ReadTagged | src/main/java/com/github/ruediste/polymorphicGson/GsonPolymorphAdapter.java:217-221 | a TYPE_PROPERTY object is read by the last value of its type property, wherever it stands and whatever token reads as the name: a tag that reads as a registered name reads the parsed tree (repeated keys folded at every depth) minus the tag with that name's adapter, any other name fails with "Unknown sub type" |
| Codec.ReadTaggedTree | src/main/java/com/github/ruediste/polymorphicGson/GsonPolymorphAdapter.java:217-221 | for an object already shaped as Gson's tree (no key twice at any depth), the payload read is exactly the object with the type property removed |
| Codec.ReadEnvelope | src/main/java/com/github/ruediste/polymorphicGson/GsonPolymorphAdapter.java:196-234 | reading any style's envelope resolves the name it carries, canonical or alternate: a registered name reads the payload with its adapter, and any other name fails with "Unknown sub type" |
| Codec.RoundTrip | src/main/java/com/github/ruediste/polymorphicGson/GsonPolymorphAdapter.java:162-226 | with consistent tables, payload adapters that read back what they wrote, a registered class, and for TYPE_PROPERTY a payload object tree without the type property or doubled keys at any depth, reading what write produced returns the same value in every style, for the root class, a subclass and null |
| Adapter.PolymorphAdapter.constructor | src/main/java/com/github/ruediste/polymorphicGson/GsonPolymorphAdapter.java:56-82 | the style is set, the type property is "@type", and the registry is empty and valid |
| Adapter.PolymorphAdapter.Scan | src/main/java/com/github/ruediste/polymorphicGson/GsonPolymorphAdapter.java:84-108 | the registry becomes the result of building every family in order, or the first error is returned; the registry invariant is kept |
| Adapter.PolymorphAdapter.Create | src/main/java/com/github/ruediste/polymorphicGson/GsonPolymorphAdapter.java:139-158 | a type that is not a marked root gets no adapter; an unscanned root fails; otherwise the codec has the root, the style, the type property, a name table with exactly the family's names, both tables built from the family, and consistent tables |
| Adapter.BuildFamily | src/main/java/com/github/ruediste/polymorphicGson/GsonPolymorphAdapter.java:89-106 | the root's names, then the subclass loop, compute exactly the family map, or its error |
| Adapter.PutRootNames | src/main/java/com/github/ruediste/polymorphicGson/GsonPolymorphAdapter.java:94 | the unchecked puts of the root's names compute exactly RootNameMap |
| Adapter.PutAllSubclasses | src/main/java/com/github/ruediste/polymorphicGson/GsonPolymorphAdapter.java:97-106 | the subclass loop computes exactly PutSubclasses, the first failure included |
| Adapter.PutNames | src/main/java/com/github/ruediste/polymorphicGson/GsonPolymorphAdapter.java:99-105 | put-then-check over one subclass's names computes exactly PutSubclassNames |
| Adapter.BuildTables | src/main/java/com/github/ruediste/polymorphicGson/GsonPolymorphAdapter.java:146-157 | the forEach fills both tables exactly as NameTable and ClassTable, whatever the iteration order |
| Scenario.BaseNames | src/test/java/com/github/ruediste/polymorphicGson/GsonFactoryTest.java:20-23 | Base is read only under "base" |
| Scenario.SubClassANames | src/test/java/com/github/ruediste/polymorphicGson/GsonFactoryTest.java:25-34 | SubClassA is read only under "subClassA" |
| Scenario.SubClassBNames | src/test/java/com/github/ruediste/polymorphicGson/GsonFactoryTest.java:36-46 | SubClassB is read under "subClassB" and "b" |
| Scenario.TestFamilyMap | src/test/java/com/github/ruediste/polymorphicGson/GsonFactoryTest.java:20-46 | the test family maps "base" to Base, "subClassA" to SubClassA, and "subClassB" and "b" to SubClassB |
| Scenario.TestScan | src/test/java/com/github/ruediste/polymorphicGson/GsonFactoryTest.java:78-81 | scanning the test family registers Base with that map |
| Scenario.TestNameTable | src/main/java/com/github/ruediste/polymorphicGson/GsonPolymorphAdapter.java:148-157 | the test name table holds the delegate under "base" and the subclasses' adapters under their names, including "b" |
| Scenario.TestClassTable | src/main/java/com/github/ruediste/polymorphicGson/GsonPolymorphAdapter.java:147-157 | the test class table holds the delegate for Base and their own adapters for the two subclasses |
| Scenario.TestTables | src/main/java/com/github/ruediste/polymorphicGson/GsonPolymorphAdapter.java:147-157 | the test tables are consistent |
| Scenario.WritePropertyStyle | src/main/java/com/github/ruediste/polymorphicGson/GsonPolymorphAdapter.java:176-183 | a SubClassB in PROPERTY style is written as {"subClassB": payload} |
| Scenario.WriteArrayStyle | src/main/java/com/github/ruediste/polymorphicGson/GsonPolymorphAdapter.java:170-175 | a SubClassB in ARRAY style is written as ["subClassB", payload] |
| Scenario.ReadAltName | src/test/java/com/github/ruediste/polymorphicGson/GsonFactoryTest.java:83-89 | an object tagged "@type": "b" is read with SubClassB's adapter, after the tag is removed |
| Scenario.ReadRepeatedTag | src/main/java/com/github/ruediste/polymorphicGson/GsonPolymorphAdapter.java:218-221 | {"@type": "subClassA", "@type": "b"} is read with SubClassB's adapter, as the parsed tree keeps the last value |
| Scenario.ReadNestedRepeat | src/main/java/com/github/ruediste/polymorphicGson/GsonPolymorphAdapter.java:218-221 | {"@type": "b", "x": {"y": null, "y": true}} is read with SubClassB's adapter from {"x": {"y": true}}: a nested repeated key is folded too |
| Scenario.ReadNumberTag | src/main/java/com/github/ruediste/polymorphicGson/GsonPolymorphAdapter.java:219-221 | {"@type": 5} is read as the name "5" and fails with "Unknown sub type" |
| Scenario.ReadUnknownName | src/main/java/com/github/ruediste/polymorphicGson/GsonPolymorphAdapter.java:228-232 | {"z": {}} in PROPERTY style fails with "Unknown sub type" for "z" of Base |
| Scenario.TestRoundTrip | src/test/java/com/github/ruediste/polymorphicGson/GsonFactoryTest.java:48-76 | in every style, a SubClassB, a SubClassA, a plain Base and null all read back as written |
| Scenario.TestCollision | src/main/java/com/github/ruediste/polymorphicGson/GsonPolymorphAdapter.java:99-104 | when SubClassA also claims "b", the build fails with a collision of SubClassB with SubClassA over "b" in Base's family |
| Scenario.SelfNamedNames | src/main/java/com/github/ruediste/polymorphicGson/GsonPolymorphAdapter.java:129-133 | an alternate name equal to the class's own canonical name collapses into one name |
| Scenario.TestSelfNamed | src/main/java/com/github/ruediste/polymorphicGson/GsonPolymorphAdapter.java:128-135 | such a class builds without a collision |
| Scenario.BuildTestAdapter | src/test/java/com/github/ruediste/polymorphicGson/GsonFactoryTest.java:78-81 | constructing the adapter, scanning the test family and calling create for Base gives exactly the test codec |

## Left out

- Classpath scanning and class loading (ClassGraph, `loadClass`, the `ClassNotFoundException` wrapping) are not modelled. `PolymorphAdapter.Scan` takes the scanned families as an input list instead.
- Reflection over annotations is not modelled. Each class is a `ClassInfo` record holding its annotation values.
- `defaultNameExtractor` is a public, replaceable field in the source. The model fixes it to the default extractor.
- Names.Decapitalize: `Character.isUpperCase` and `Character.toLowerCase` are restricted to ASCII. Unicode case mapping is not modelled.
- Gson's streaming reader and writer, `Streams.write`, `JsonTreeReader` and `toJsonTree` are not modelled. Wrapping and unwrapping act on a `Json` value. Of `Streams.parse`, only the tree it builds is modelled (`Json.Parse`): every object, at every depth, folds its repeated keys (`Json.Collapse`); its syntax errors are not.
- Gson's payload adapters are not modelled. They are the `Framework` parameter, assumed to read back what they write.
- Names.GetNames: the source's `HashSet` has no specified iteration order. The model iterates the canonical name first, then the alternate names in declaration order. The order only decides which of several clashing names a collision error reports.
- Codec.Read: every way in which Gson's reader rejects input of the wrong shape becomes the single `Malformed` error. This covers a wrong token, a missing type property, and a tag that `getAsString` rejects (null, an object, or an array without exactly one element). A number or boolean tag is read as its text. The order of the checks follows the source.
- Codec.Write: writing an instance of a class outside the family is a `NullPointerException` in the source. The model reports it as `UnregisteredClass`.
- PolymorphAdapter.Scan: after a failure, the registry keeps the families built before the failing one. The source's constructor throws instead and leaves no adapter at all.
- PolymorphAdapter.Create: `typePropertyName` is a public mutable field that the source's adapter reads at each call. The codec copies it when it is created, so a later change of the field is not seen.
- The payload adapter returning an instance of a different class is not modelled. A value read with an adapter is taken to be of that adapter's class.
- The unreachable `default` branches that throw `IllegalArgumentException` are not modelled. The style is a closed datatype.
- Gson's adapter cache and thread safety are not modelled.
- A JSON number keeps its literal text, and floating-point values are not modelled.
