/**
 * The type adapter factory itself: its settings, the registry of families it
 * builds when constructed, and create, which turns a registered root into the
 * codec of codec.dfy.
 */
module Adapter {
  import opened Wrappers
  import opened Metadata
  import opened Names
  import opened Families
  import opened Codec

  class PolymorphAdapter {
    /** The discriminator style, fixed at construction. */
    const style: PolymorphStyle
    /** The member that holds the discriminator in TYPE_PROPERTY style. */
    var typePropertyName: string
    /** For every scanned root, the map from each name of its family to the class declaring it. */
    var classesByName: map<ClassInfo, NameMap>

    ghost predicate Valid()
      reads this
    {
      ClosedRegistry(classesByName)
    }

    /** Allocation: the style is set, the registry is still empty. */
    constructor (style: PolymorphStyle)
      ensures this.style == style
      ensures typePropertyName == "@type"
      ensures classesByName == map[]
      ensures Valid()
    {
      this.style := style;
      typePropertyName := "@type";
      classesByName := map[];
    }

    /**
     * The registry build of the constructor over the families the classpath
     * scan reports. For each root, its names go in unchecked, then the names of
     * every subclass, where a name already present is fatal. A family is
     * registered only once it is complete; on the first error the build stops
     * and returns that error.
     */
    method Scan(families: seq<Family>) returns (failure: Option<Error>)
      requires Valid()
      requires forall i | 0 <= i < |families| :: families[i].root.isRoot
      modifies this`classesByName
      ensures Valid()
      ensures ScanAll(old(classesByName), families).Success? ==>
                failure == None && classesByName == ScanAll(old(classesByName), families).value
      ensures ScanAll(old(classesByName), families).Failure? ==>
                failure == Some(ScanAll(old(classesByName), families).error)
    {
      ghost var start := classesByName;
      var i := 0;
      while i < |families|
        invariant 0 <= i <= |families|
        invariant ClosedRegistry(classesByName)
        invariant ScanAll(start, families) == ScanAll(classesByName, families[i..])
      {
        var family := families[i];
        assert families[i..][0] == family && families[i..][1..] == families[i + 1..];
        var built := BuildFamily(family);
        if built.Failure? {
          return Some(built.error);
        }
        FamilyMapClosed(family);
        classesByName := classesByName[family.root := built.value];
        i := i + 1;
      }
      return None;
    }

    /**
     * create: no adapter for a type that is not a marked root, an error for a
     * marked root the scan never saw, and otherwise the codec whose tables hold
     * every name and every class of the family, with the delegate adapter for
     * the root class and Gson's adapter for every other class.
     */
    method Create(rawType: ClassInfo) returns (r: Result<Option<PolymorphCodec>, Error>)
      requires Valid()
      ensures !rawType.isRoot ==> r == Success(None)
      ensures rawType.isRoot && rawType !in classesByName ==> r == Failure(BaseClassNotScanned(rawType))
      ensures rawType.isRoot && rawType in classesByName ==>
                && r.Success? && r.value.Some?
                && r.value.value.base == rawType
                && r.value.value.style == style
                && r.value.value.typePropertyName == typePropertyName
                && r.value.value.adapterByName.Keys == classesByName[rawType].Keys
                && r.value.value.adapterByName == NameTable(rawType, classesByName[rawType])
                && r.value.value.adapterByClass == ClassTable(rawType, classesByName[rawType])
                && WellFormed(r.value.value)
    {
      if !rawType.isRoot {
        return Success(None);
      }
      if rawType !in classesByName {
        return Failure(BaseClassNotScanned(rawType));
      }
      var classMap := classesByName[rawType];
      var adapterByClass, adapterByName := BuildTables(rawType, classMap);
      TablesWellFormed(rawType, style, typePropertyName, classMap);
      return Success(Some(PolymorphCodec(rawType, style, typePropertyName, adapterByClass, adapterByName)));
    }
  }

  /**
   * The name map of one family, filled in place: the root's names without a
   * check, then the names of each subclass, a name already present being fatal.
   */
  method BuildFamily(family: Family) returns (r: Result<NameMap, Error>)
    ensures r == FamilyMap(family)
  {
    var rootNames := CollectNames(family.root);
    if rootNames.Failure? {
      return Failure(rootNames.error);
    }
    var nameMap := PutRootNames(family.root, rootNames.value);
    r := PutAllSubclasses(nameMap, family.root, family.subclasses);
  }

  /** The root's names put into a fresh map one by one, unchecked. */
  method PutRootNames(root: ClassInfo, names: seq<string>) returns (nameMap: NameMap)
    ensures nameMap == RootNameMap(root, names)
  {
    nameMap := map[];
    var k := 0;
    while k < |names|
      invariant 0 <= k <= |names|
      invariant nameMap == RootNameMap(root, names[..k])
    {
      assert names[..k + 1] == names[..k] + [names[k]];
      nameMap := nameMap[names[k] := root];
      k := k + 1;
    }
    assert names[..k] == names;
  }

  /** The subclass loop: each subclass's names go in, and the first failure ends the build. */
  method PutAllSubclasses(nameMap: NameMap, root: ClassInfo, subs: seq<ClassInfo>)
    returns (r: Result<NameMap, Error>)
    ensures r == PutSubclasses(nameMap, root, subs)
  {
    var m := nameMap;
    var j := 0;
    while j < |subs|
      invariant 0 <= j <= |subs|
      invariant PutSubclasses(nameMap, root, subs) == PutSubclasses(m, root, subs[j..])
    {
      var sub := subs[j];
      assert subs[j..][0] == sub && subs[j..][1..] == subs[j + 1..];
      var subNames := CollectNames(sub);
      if subNames.Failure? {
        return Failure(subNames.error);
      }
      var next := PutNames(m, sub, root, subNames.value);
      if next.Failure? {
        return Failure(next.error);
      }
      m := next.value;
      j := j + 1;
    }
    return Success(m);
  }

  /** The names of one subclass put into the map one by one; an existing entry is a collision. */
  method PutNames(nameMap: NameMap, sub: ClassInfo, root: ClassInfo, names: seq<string>)
    returns (r: Result<NameMap, Error>)
    ensures r == PutSubclassNames(nameMap, sub, root, names)
  {
    var m := nameMap;
    var n := 0;
    while n < |names|
      invariant 0 <= n <= |names|
      invariant PutSubclassNames(nameMap, sub, root, names) == PutSubclassNames(m, sub, root, names[n..])
    {
      var name := names[n];
      assert names[n..][0] == name && names[n..][1..] == names[n + 1..];
      var existing := if name in m then Some(m[name]) else None;
      m := m[name := sub];
      if existing.Some? {
        return Failure(NameCollision(sub, existing.value, root, name));
      }
      n := n + 1;
    }
    return Success(m);
  }

  /** The forEach of create: both tables filled from the family map, in any order. */
  method BuildTables(base: ClassInfo, classMap: NameMap)
    returns (adapterByClass: map<ClassInfo, AdapterRef>, adapterByName: map<string, AdapterRef>)
    ensures adapterByName == NameTable(base, classMap)
    ensures adapterByClass == ClassTable(base, classMap)
  {
    adapterByClass := map[];
    adapterByName := map[];
    var todo := classMap.Keys;
    while todo != {}
      invariant todo <= classMap.Keys
      invariant adapterByName.Keys == classMap.Keys - todo
      invariant forall n | n in adapterByName :: adapterByName[n] == AdapterFor(base, classMap[n])
      invariant adapterByClass.Keys == set n | n in classMap.Keys - todo :: classMap[n]
      invariant forall c | c in adapterByClass :: adapterByClass[c] == AdapterFor(base, c)
      decreases todo
    {
      var name :| name in todo;
      var cls := classMap[name];
      var t := if cls == base then Delegate(base) else Normal(cls);
      adapterByClass := adapterByClass[cls := t];
      adapterByName := adapterByName[name := t];
      todo := todo - {name};
    }
    assert classMap.Values == set n | n in classMap.Keys :: classMap[n];
  }
}
