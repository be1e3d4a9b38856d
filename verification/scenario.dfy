/**
 * The family of the repository's test: Base (the marked root), SubClassA, and
 * SubClassB with the alternate name "b"; and variants of it with clashing
 * names.
 */
module Scenario {
  import opened Wrappers
  import opened Metadata
  import opened Names
  import opened Json
  import opened Families
  import opened Codec
  import opened Adapter

  const Base := ClassInfo("GsonFactoryTest.Base", "Base", true, None, [])
  const SubClassA := ClassInfo("GsonFactoryTest.SubClassA", "SubClassA", false, None, [])
  const SubClassB := ClassInfo("GsonFactoryTest.SubClassB", "SubClassB", false, None, ["b"])

  lemma BaseNames()
    ensures GetNames(Base) == Success(["base"])
  {
    assert Decapitalize("Base") == "base" by {
      assert ToLower('B') == 'b';
    }
    assert Distinct(["base"]) == ["base"];
  }

  lemma SubClassANames()
    ensures GetNames(SubClassA) == Success(["subClassA"])
  {
    assert Decapitalize("SubClassA") == "subClassA" by {
      assert ToLower('S') == 's';
    }
    assert Distinct(["subClassA"]) == ["subClassA"];
  }

  lemma SubClassBNames()
    ensures GetNames(SubClassB) == Success(["subClassB", "b"])
  {
    assert Decapitalize("SubClassB") == "subClassB" by {
      assert ToLower('S') == 's';
    }
    assert Distinct(["subClassB", "b"]) == ["subClassB", "b"] by {
      assert ["subClassB", "b"][..1] == ["subClassB"];
      assert Distinct(["subClassB"]) == ["subClassB"];
    }
  }

  const TestFamily := Family(Base, [SubClassA, SubClassB])

  /** The expected name map of the test family: the three canonical names, and "b". */
  const TestNames: NameMap :=
    map["base" := Base, "subClassA" := SubClassA, "subClassB" := SubClassB, "b" := SubClassB]

  lemma SubClassAStep()
    ensures PutSubclassNames(map["base" := Base], SubClassA, Base, ["subClassA"]) ==
              Success(map["base" := Base, "subClassA" := SubClassA])
  {
  }

  lemma SubClassBStep()
    ensures PutSubclassNames(map["base" := Base, "subClassA" := SubClassA], SubClassB, Base, ["subClassB", "b"]) ==
              Success(TestNames)
  {
    assert ["subClassB", "b"][1..] == ["b"];
  }

  /** The names of the test family: canonical names of all three classes, and "b". */
  lemma TestFamilyMap()
    ensures FamilyMap(TestFamily) == Success(TestNames)
  {
    var m0 := map["base" := Base];
    var m1 := map["base" := Base, "subClassA" := SubClassA];
    assert PutSubclasses(TestNames, Base, []) == Success(TestNames);
    assert PutSubclasses(m1, Base, [SubClassB]) == Success(TestNames) by {
      SubClassBNames();
      SubClassBStep();
      assert [SubClassB][1..] == [];
    }
    assert PutSubclasses(m0, Base, [SubClassA, SubClassB]) == Success(TestNames) by {
      SubClassANames();
      SubClassAStep();
      assert [SubClassA, SubClassB][1..] == [SubClassB];
    }
    assert RootNameMap(Base, ["base"]) == m0 by {
      assert ["base"][..0] == [];
    }
    BaseNames();
  }

  /** A registry scanned from the test family alone. */
  lemma TestScan()
    ensures ScanAll(map[], [TestFamily]) == Success(map[Base := TestNames])
  {
    TestFamilyMap();
    assert [TestFamily][1..] == [];
  }

  /** The codec create builds for Base in the given style. */
  function TestCodec(style: PolymorphStyle): PolymorphCodec
  {
    PolymorphCodec(Base, style, "@type", ClassTable(Base, TestNames), NameTable(Base, TestNames))
  }

  /** In the test codec the root is read and written with the delegate adapter, every other class with its own. */
  lemma TestNameTable(style: PolymorphStyle)
    ensures TestCodec(style).adapterByName ==
              map["base" := Delegate(Base), "subClassA" := Normal(SubClassA),
                  "subClassB" := Normal(SubClassB), "b" := Normal(SubClassB)]
  {
  }

  lemma TestClassTable(style: PolymorphStyle)
    ensures TestCodec(style).adapterByClass ==
              map[Base := Delegate(Base), SubClassA := Normal(SubClassA), SubClassB := Normal(SubClassB)]
  {
    assert TestNames.Values == {Base, SubClassA, SubClassB} by {
      assert TestNames["base"] == Base && TestNames["subClassA"] == SubClassA && TestNames["subClassB"] == SubClassB;
    }
  }

  lemma TestTables(style: PolymorphStyle)
    ensures WellFormed(TestCodec(style))
  {
    TestFamilyMap();
    FamilyMapClosed(TestFamily);
    TablesWellFormed(Base, style, "@type", TestNames);
  }

  /** A SubClassB written in PROPERTY style is wrapped in an object keyed by its canonical name. */
  lemma WritePropertyStyle<P>(fw: Framework<P>, fields: P)
    ensures Write(TestCodec(Property), fw, Instance(SubClassB, fields)) ==
              Success(JObject([Member("subClassB", fw.write(Normal(SubClassB), fields))]))
  {
    TestClassTable(Property);
    SubClassBNames();
  }

  /** A SubClassB written in ARRAY style is a two-element array led by its canonical name. */
  lemma WriteArrayStyle<P>(fw: Framework<P>, fields: P)
    ensures Write(TestCodec(Array), fw, Instance(SubClassB, fields)) ==
              Success(JArray([JString("subClassB"), fw.write(Normal(SubClassB), fields)]))
  {
    TestClassTable(Array);
    SubClassBNames();
  }

  /** A TYPE_PROPERTY object tagged with the alternate name "b" is read with SubClassB's adapter, without the tag. */
  lemma ReadAltName<P>(fw: Framework<P>)
    ensures var payload := [Member("fieldB", JNumber("5")), Member("baseField", JNumber("0"))];
            Read(TestCodec(TypeProperty), fw, JObject(payload + [Member("@type", JString("b"))])) ==
              ReadPayload(fw, Normal(SubClassB), JObject(payload))
  {
    TestNameTable(TypeProperty);
    var payload := [Member("fieldB", JNumber("5")), Member("baseField", JNumber("0"))];
    AltNameTree();
    ReadTaggedTree(TestCodec(TypeProperty), fw, payload + [Member("@type", JString("b"))], JString("b"), "b");
  }

  /** The object of ReadAltName is already a tree; its tag is "b" and the rest is the payload. */
  lemma AltNameTree()
    ensures var payload := [Member("fieldB", JNumber("5")), Member("baseField", JNumber("0"))];
            var ms := payload + [Member("@type", JString("b"))];
            && Parse(JObject(ms)) == JObject(ms)
            && Get(ms, "@type") == Some(JString("b"))
            && Remove(ms, "@type") == payload
  {
    var payload := [Member("fieldB", JNumber("5")), Member("baseField", JNumber("0"))];
    AltNamePayloadTree(payload);
    ParseAppend(payload, Member("@type", JString("b")));
    AltNameTag(payload);
  }

  lemma AltNamePayloadTree(payload: seq<Member>)
    requires payload == [Member("fieldB", JNumber("5")), Member("baseField", JNumber("0"))]
    ensures Parse(JObject(payload)) == JObject(payload)
  {
    ParseAppend([], payload[0]);
    assert [] + [payload[0]] == [payload[0]];
    ParseAppend([payload[0]], payload[1]);
    assert [payload[0]] + [payload[1]] == payload;
  }

  lemma AltNameTag(payload: seq<Member>)
    requires payload == [Member("fieldB", JNumber("5")), Member("baseField", JNumber("0"))]
    ensures var ms := payload + [Member("@type", JString("b"))];
            Get(ms, "@type") == Some(JString("b")) && Remove(ms, "@type") == payload
  {
    var ms := payload + [Member("@type", JString("b"))];
    assert ms[1..] == [ms[1], ms[2]] && ms[2..] == [ms[2]];
    assert Get(ms, "@type") == Some(JString("b")) by {
      assert ms[0].key != "@type" && ms[1].key != "@type";
    }
    assert Remove(ms, "@type") == payload by {
      assert Remove(ms[2..], "@type") == [];
      assert Remove(ms[1..], "@type") == [ms[1]];
    }
  }

  /** A repeated type property counts with its last value, as the parsed tree holds it. */
  lemma ReadRepeatedTag<P>(fw: Framework<P>)
    ensures Read(TestCodec(TypeProperty), fw, JObject([Member("@type", JString("subClassA")), Member("@type", JString("b"))])) ==
              ReadPayload(fw, Normal(SubClassB), JObject([]))
  {
    TestNameTable(TypeProperty);
    RepeatedTagTree();
    ReadTagged(TestCodec(TypeProperty), fw, [Member("@type", JString("subClassA")), Member("@type", JString("b"))], JString("b"), "b");
  }

  /** The object of ReadRepeatedTag parses to its last tag alone. */
  lemma RepeatedTagTree()
    ensures var ms := [Member("@type", JString("subClassA")), Member("@type", JString("b"))];
            && Lookup(ms, "@type") == Some(JString("b"))
            && Remove(Parse(JObject(ms)).members, "@type") == []
  {
    var ms := [Member("@type", JString("subClassA")), Member("@type", JString("b"))];
    assert Lookup(ms, "@type") == Some(JString("b"));
    assert Parse(JObject(ms)).members == [Member("@type", JString("b"))] by {
      assert ParseValues(ms) == ms;
      assert ms[..1] == [ms[0]] && ms[..0] == [];
    }
  }

  /**
   * The payload reaches its adapter as Gson's tree holds it: a key repeated in a
   * nested object counts with its last value there too.
   */
  lemma ReadNestedRepeat<P>(fw: Framework<P>)
    ensures Read(TestCodec(TypeProperty), fw,
                 JObject([Member("@type", JString("b")),
                          Member("x", JObject([Member("y", JNull), Member("y", JBool(true))]))])) ==
              ReadPayload(fw, Normal(SubClassB), JObject([Member("x", JObject([Member("y", JBool(true))]))]))
  {
    TestNameTable(TypeProperty);
    NestedRepeatTree();
    var inner := [Member("y", JNull), Member("y", JBool(true))];
    ReadTagged(TestCodec(TypeProperty), fw, [Member("@type", JString("b")), Member("x", JObject(inner))], JString("b"), "b");
  }

  /** The object of ReadNestedRepeat, parsed and without its tag, keeps the nested key's last value. */
  lemma NestedRepeatTree()
    ensures var ms := [Member("@type", JString("b")),
                       Member("x", JObject([Member("y", JNull), Member("y", JBool(true))]))];
            && Lookup(ms, "@type") == Some(JString("b"))
            && Remove(Parse(JObject(ms)).members, "@type") == [Member("x", JObject([Member("y", JBool(true))]))]
  {
    var inner := [Member("y", JNull), Member("y", JBool(true))];
    NestedRepeatInner(inner);
    NestedRepeatOuter(inner);
  }

  lemma NestedRepeatInner(inner: seq<Member>)
    requires inner == [Member("y", JNull), Member("y", JBool(true))]
    ensures Parse(JObject(inner)) == JObject([Member("y", JBool(true))])
  {
    assert ParseValues(inner) == inner;
    assert inner[..1] == [inner[0]] && inner[..0] == [];
    assert Collapse(inner[..1]) == [inner[0]];
    assert Collapse(inner) == Put([inner[0]], "y", JBool(true));
  }

  lemma NestedRepeatOuter(inner: seq<Member>)
    requires Parse(JObject(inner)) == JObject([Member("y", JBool(true))])
    ensures var ms := [Member("@type", JString("b")), Member("x", JObject(inner))];
            && Lookup(ms, "@type") == Some(JString("b"))
            && Remove(Parse(JObject(ms)).members, "@type") == [Member("x", JObject([Member("y", JBool(true))]))]
  {
    var ms := [Member("@type", JString("b")), Member("x", JObject(inner))];
    var parsed := [Member("@type", JString("b")), Member("x", JObject([Member("y", JBool(true))]))];
    assert Parse(JObject(ms)).members == parsed by {
      assert ParseValues(ms) == parsed;
      assert parsed[..1] == [parsed[0]] && parsed[..0] == [];
    }
    assert Lookup(ms, "@type") == Some(JString("b")) by {
      assert ms[..1] == [ms[0]];
    }
    assert Remove(parsed, "@type") == [parsed[1]] by {
      assert parsed[1..] == [parsed[1]];
    }
  }

  /** A number tag is read as its literal text, like any other name. */
  lemma ReadNumberTag<P>(fw: Framework<P>)
    ensures Read(TestCodec(TypeProperty), fw, JObject([Member("@type", JNumber("5"))])) ==
              Failure(UnknownSubType("5", Base))
  {
    TestNameTable(TypeProperty);
    var ms := [Member("@type", JNumber("5"))];
    assert Lookup(ms, "@type") == Some(JNumber("5"));
    assert Parse(JObject(ms)).members == ms by {
      assert ParseValues(ms) == ms;
    }
    ReadTagged(TestCodec(TypeProperty), fw, ms, JNumber("5"), "5");
  }

  /** A PROPERTY object keyed by a name nobody declared fails with "Unknown sub type". */
  lemma ReadUnknownName<P>(fw: Framework<P>)
    ensures Read(TestCodec(Property), fw, JObject([Member("z", JObject([]))])) ==
              Failure(UnknownSubType("z", Base))
  {
    TestNameTable(Property);
  }

  /**
   * The round trip of the repository's test: a SubClassB, a plain Base and
   * null all come back as they were written, in every style, given payload
   * adapters that read back what they write (and, for TYPE_PROPERTY, write
   * object trees without the type property and without repeated keys).
   */
  lemma TestRoundTrip<P(!new)>(style: PolymorphStyle, fw: Framework<P>, v: Value<P>)
    requires PayloadRoundTrip(fw)
    requires v.Null? || v.cls == Base || v.cls == SubClassA || v.cls == SubClassB
    requires v.Instance? && style == TypeProperty ==>
               var payload := fw.write(AdapterFor(Base, v.cls), v.fields);
               payload.JObject? && Parse(payload) == payload && "@type" !in Keys(payload.members)
    ensures Write(TestCodec(style), fw, v).Success?
    ensures Read(TestCodec(style), fw, Write(TestCodec(style), fw, v).value) == Success(v)
  {
    TestClassTable(style);
    TestTables(style);
    RoundTrip(TestCodec(style), fw, v);
  }

  /**
   * The test's SubClassA with a different annotation: the alternate name "b"
   * as well, clashing with SubClassB. It is the same Java class, so it keeps
   * SubClassA's qualified name; only its annotation differs.
   */
  const ClashingA := ClassInfo("GsonFactoryTest.SubClassA", "SubClassA", false, None, ["b"])

  lemma ClashingANames()
    ensures GetNames(ClashingA) == Success(["subClassA", "b"])
  {
    assert Decapitalize("SubClassA") == "subClassA" by {
      assert ToLower('S') == 's';
    }
    assert Distinct(["subClassA", "b"]) == ["subClassA", "b"] by {
      assert ["subClassA", "b"][..1] == ["subClassA"];
      assert Distinct(["subClassA"]) == ["subClassA"];
    }
  }

  lemma ClashingAStep()
    ensures PutSubclassNames(map["base" := Base], ClashingA, Base, ["subClassA", "b"]) ==
              Success(map["base" := Base, "subClassA" := ClashingA, "b" := ClashingA])
  {
    assert ["subClassA", "b"][1..] == ["b"];
  }

  lemma ClashingBStep()
    ensures PutSubclassNames(map["base" := Base, "subClassA" := ClashingA, "b" := ClashingA], SubClassB, Base, ["subClassB", "b"]) ==
              Failure(NameCollision(SubClassB, ClashingA, Base, "b"))
  {
    assert ["subClassB", "b"][1..] == ["b"];
  }

  /** Two subclasses sharing a name make the build fail, naming the later subclass, the earlier one and the name. */
  lemma TestCollision()
    ensures FamilyMap(Family(Base, [ClashingA, SubClassB])) ==
              Failure(NameCollision(SubClassB, ClashingA, Base, "b"))
  {
    var m0 := map["base" := Base];
    var m1 := map["base" := Base, "subClassA" := ClashingA, "b" := ClashingA];
    var e := NameCollision(SubClassB, ClashingA, Base, "b");
    assert PutSubclasses(m1, Base, [SubClassB]) == Failure(e) by {
      SubClassBNames();
      ClashingBStep();
    }
    assert PutSubclasses(m0, Base, [ClashingA, SubClassB]) == Failure(e) by {
      ClashingANames();
      ClashingAStep();
      assert [ClashingA, SubClassB][1..] == [SubClassB];
    }
    assert RootNameMap(Base, ["base"]) == m0 by {
      assert ["base"][..0] == [];
    }
    BaseNames();
  }

  /** A class whose alternate name repeats its own canonical name: the repeat collapses, it is no collision. */
  const SelfNamed := ClassInfo("GsonFactoryTest.SubClassC", "SubClassC", false, None, ["subClassC"])

  lemma SelfNamedNames()
    ensures GetNames(SelfNamed) == Success(["subClassC"])
  {
    assert Decapitalize("SubClassC") == "subClassC" by {
      assert ToLower('S') == 's';
    }
    var s := ["subClassC", "subClassC"];
    assert Distinct(s) == ["subClassC"] by {
      assert s[..|s| - 1] == ["subClassC"] && s[|s| - 1] == "subClassC";
      assert Distinct(["subClassC"]) == ["subClassC"];
    }
    assert [Decapitalize("SubClassC")] + SelfNamed.altNames == s;
  }

  lemma TestSelfNamed()
    ensures FamilyMap(Family(Base, [SelfNamed])) == Success(map["base" := Base, "subClassC" := SelfNamed])
  {
    var m0 := map["base" := Base];
    assert PutSubclasses(m0, Base, [SelfNamed]) == Success(map["base" := Base, "subClassC" := SelfNamed]) by {
      SelfNamedNames();
      assert [SelfNamed][1..] == [];
    }
    assert RootNameMap(Base, ["base"]) == m0 by {
      assert ["base"][..0] == [];
    }
    BaseNames();
  }

  /**
   * The adapter of the repository's test, built as the test builds it: the
   * test family is scanned, and create for Base yields the test codec.
   */
  method BuildTestAdapter(style: PolymorphStyle) returns (r: Result<Option<PolymorphCodec>, Error>)
    ensures r == Success(Some(TestCodec(style)))
  {
    var adapter := new PolymorphAdapter(style);
    TestScan();
    var failure := adapter.Scan([TestFamily]);
    assert failure == None;
    r := adapter.Create(Base);
  }
}
