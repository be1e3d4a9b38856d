/**
 * The TypeAdapter that create returns for a polymorphic root: its two tables
 * (adapter by class, adapter by name), write, read and the name lookup.
 * Gson's own payload adapters are a parameter (Framework): the model knows of
 * them only how each writes the fields of a value to a JSON tree and reads
 * them back.
 */
module Codec {
  import opened Wrappers
  import opened Metadata
  import opened Names
  import opened Json
  import opened Families

  /**
   * A payload adapter as the tables hold it: the delegate adapter beneath this
   * factory (used for the root class itself, so the layer does not call itself)
   * or the adapter Gson resolves for a class.
   */
  datatype AdapterRef = Delegate(cls: ClassInfo) | Normal(cls: ClassInfo)

  /** The adapter chosen for class cls of the family of base. */
  function AdapterFor(base: ClassInfo, cls: ClassInfo): (a: AdapterRef)
    ensures a.cls == cls
    ensures a.Delegate? <==> cls == base
  {
    if cls == base then Delegate(base) else Normal(cls)
  }

  /** The per-name table built from a family map. */
  function NameTable(base: ClassInfo, family: NameMap): (t: map<string, AdapterRef>)
    ensures t.Keys == family.Keys
    ensures forall n | n in t :: t[n] == AdapterFor(base, family[n])
  {
    map n | n in family :: AdapterFor(base, family[n])
  }

  /** The per-class table built from a family map. */
  function ClassTable(base: ClassInfo, family: NameMap): (t: map<ClassInfo, AdapterRef>)
    ensures t.Keys == family.Values
    ensures forall c | c in t :: t[c] == AdapterFor(base, c)
  {
    map c | c in family.Values :: AdapterFor(base, c)
  }

  /** The state of the anonymous TypeAdapter: the outer adapter's settings and the two tables. */
  datatype PolymorphCodec = PolymorphCodec(
    base: ClassInfo,
    style: PolymorphStyle,
    typePropertyName: string,
    adapterByClass: map<ClassInfo, AdapterRef>,
    adapterByName: map<string, AdapterRef>)

  /** A value of the root's static type: null, or an instance of a class with its field data. */
  datatype Value<P> = Null | Instance(cls: ClassInfo, fields: P)

  /**
   * Gson's payload adapters: how the adapter for a class writes a value's
   * fields as a JSON tree, and reads them back (a JSON null reads as null).
   */
  datatype Framework<!P> = Framework(
    write: (AdapterRef, P) -> Json,
    read: (AdapterRef, Json) -> Result<Option<P>, string>)

  /** Each payload adapter reads back what it wrote. */
  ghost predicate PayloadRoundTrip<P(!new)>(fw: Framework<P>)
  {
    forall a, p :: fw.read(a, fw.write(a, p)) == Success(Some(p))
  }

  /**
   * The tables agree: every class of the family is registered under its
   * canonical name, with the same adapter in both tables, and that adapter is
   * the one for the class itself.
   */
  ghost predicate WellFormed(codec: PolymorphCodec)
  {
    forall c | c in codec.adapterByClass ::
      && GetName(c).Success?
      && GetName(c).value in codec.adapterByName
      && codec.adapterByName[GetName(c).value] == codec.adapterByClass[c]
      && codec.adapterByClass[c].cls == c
  }

  /** Tables built from a closed family map agree with each other. */
  lemma TablesWellFormed(base: ClassInfo, style: PolymorphStyle, typePropertyName: string, family: NameMap)
    requires ClosedFamily(family)
    ensures WellFormed(PolymorphCodec(base, style, typePropertyName, ClassTable(base, family), NameTable(base, family)))
  {
    var byClass := ClassTable(base, family);
    forall c | c in byClass
      ensures && GetName(c).Success?
              && GetName(c).value in family
              && family[GetName(c).value] == c
    {
      var n :| n in family && family[n] == c;
      assert GetName(c).value in NameSet(c);
    }
  }

  // ---------------------------------------------------------------------------
  // write

  /**
   * The discriminator wrapped around a payload tree, per style: a two-element
   * array, a one-member object, or the payload object with the type property
   * added (replacing one the payload already had, else appended last).
   */
  function Envelope(codec: PolymorphCodec, name: string, payload: Json): (r: Result<Json, Error>)
    ensures r.Failure? <==> codec.style == TypeProperty && !payload.JObject?
    ensures r.Failure? ==> r.error == NotAnObject
    ensures codec.style == Array ==> r == Success(JArray([JString(name), payload]))
    ensures codec.style == Property ==> r == Success(JObject([Member(name, payload)]))
    ensures codec.style == TypeProperty && payload.JObject? ==>
              var k := codec.typePropertyName;
              && r.Success? && r.value.JObject?
              && Get(r.value.members, k) == Some(JString(name))
              && Remove(r.value.members, k) == Remove(payload.members, k)
              && (k !in Keys(payload.members) ==> r.value.members == payload.members + [Member(k, JString(name))])
              && (UniqueKeys(payload.members) ==> UniqueKeys(r.value.members))
  {
    match codec.style
    case Array => Success(JArray([JString(name), payload]))
    case Property => Success(JObject([Member(name, payload)]))
    case TypeProperty =>
      if payload.JObject? then
        var k := codec.typePropertyName;
        GetPut(payload.members, k, JString(name), k);
        RemovePut(payload.members, k, JString(name));
        assert UniqueKeys(payload.members) ==> UniqueKeys(Put(payload.members, k, JString(name))) by {
          if UniqueKeys(payload.members) {
            PutUnique(payload.members, k, JString(name));
          }
        }
        Success(JObject(Put(payload.members, k, JString(name))))
      else Failure(NotAnObject)
  }

  /** write: null as JSON null; otherwise the payload wrapped with the canonical name. */
  function Write<P>(codec: PolymorphCodec, fw: Framework<P>, v: Value<P>): (r: Result<Json, Error>)
    ensures v.Null? ==> r == Success(JNull)
    ensures v.Instance? && GetName(v.cls).Failure? ==> r == Failure(EmptySimpleName(v.cls))
    ensures v.Instance? && GetName(v.cls).Success? && v.cls !in codec.adapterByClass ==>
              r == Failure(UnregisteredClass(v.cls))
    ensures v.Instance? && GetName(v.cls).Success? && v.cls in codec.adapterByClass ==>
              r == Envelope(codec, GetName(v.cls).value, fw.write(codec.adapterByClass[v.cls], v.fields))
  {
    match v
    case Null => Success(JNull)
    case Instance(cls, fields) =>
      var name :- GetName(cls);
      if cls !in codec.adapterByClass then Failure(UnregisteredClass(cls))
      else Envelope(codec, name, fw.write(codec.adapterByClass[cls], fields))
  }

  /**
   * A written value carries its class's canonical name (never an alternate
   * name) and the payload its class's adapter wrote: as the array
   * [name, payload], as the object {name: payload}, or as the payload object
   * with the type property set to the name and, when the payload did not
   * have that property, appended as its last member.
   */
  lemma WriteDiscriminator<P>(codec: PolymorphCodec, fw: Framework<P>, v: Value<P>)
    requires v.Instance? && Write(codec, fw, v).Success?
    ensures GetName(v.cls).Success? && v.cls in codec.adapterByClass
    ensures var out, name := Write(codec, fw, v).value, GetName(v.cls).value;
            var payload, k := fw.write(codec.adapterByClass[v.cls], v.fields), codec.typePropertyName;
            match codec.style
            case Array => out == JArray([JString(name), payload])
            case Property => out == JObject([Member(name, payload)])
            case TypeProperty =>
              && payload.JObject? && out.JObject?
              && Get(out.members, k) == Some(JString(name))
              && Remove(out.members, k) == Remove(payload.members, k)
              && (k !in Keys(payload.members) ==> out.members == payload.members + [Member(k, JString(name))])
  {
  }

  // ---------------------------------------------------------------------------
  // read

  /** getAdapter: the adapter registered under a name, or "Unknown sub type". */
  function GetAdapter(codec: PolymorphCodec, name: string): (r: Result<AdapterRef, Error>)
    ensures r.Success? <==> name in codec.adapterByName
    ensures r.Success? ==> r.value == codec.adapterByName[name]
    ensures r.Failure? ==> r.error == UnknownSubType(name, codec.base)
  {
    if name in codec.adapterByName then Success(codec.adapterByName[name])
    else Failure(UnknownSubType(name, codec.base))
  }

  /** Reads a payload with the resolved adapter; the value is of that adapter's class. */
  function ReadPayload<P>(fw: Framework<P>, a: AdapterRef, payload: Json): (r: Result<Value<P>, Error>)
    ensures r.Success? && r.value.Instance? ==> r.value.cls == a.cls
    ensures r.Failure? ==> r.error.PayloadError?
  {
    match fw.read(a, payload)
    case Failure(message) => Failure(PayloadError(message))
    case Success(None) => Success(Null)
    case Success(Some(fields)) => Success(Instance(a.cls, fields))
  }

  /**
   * read: JSON null as null; otherwise unwrap per style, resolve the name, read
   * the payload. TYPE_PROPERTY first parses the whole object into a tree, so a
   * repeated key counts with its last value, at every depth of the payload too.
   */
  function Read<P>(codec: PolymorphCodec, fw: Framework<P>, j: Json): (r: Result<Value<P>, Error>)
    ensures j.JNull? ==> r == Success(Null)
    ensures r.Success? && r.value.Instance? ==>
              exists name :: name in codec.adapterByName && codec.adapterByName[name].cls == r.value.cls
    ensures r.Failure? && r.error.UnknownSubType? ==>
              r.error.base == codec.base && r.error.name !in codec.adapterByName
  {
    if j.JNull? then Success(Null)
    else
      match codec.style
      case Array =>
        if !j.JArray? || |j.elements| == 0 then Failure(Malformed)
        else
          var name :- NextString(j.elements[0]).ToResult(Malformed);
          var a :- GetAdapter(codec, name);
          if |j.elements| < 2 then Failure(Malformed)
          else
            var v :- ReadPayload(fw, a, j.elements[1]);
            if |j.elements| > 2 then Failure(Malformed) else Success(v)
      case Property =>
        if !j.JObject? || |j.members| == 0 then Failure(Malformed)
        else
          var a :- GetAdapter(codec, j.members[0].key);
          var v :- ReadPayload(fw, a, j.members[0].value);
          if |j.members| > 1 then Failure(Malformed) else Success(v)
      case TypeProperty =>
        if !j.JObject? then Failure(Malformed)
        else
          var tree := Parse(j).members;
          var tag :- Get(tree, codec.typePropertyName).ToResult(Malformed);
          var name :- AsString(tag).ToResult(Malformed);
          var rest := Remove(tree, codec.typePropertyName);
          var a :- GetAdapter(codec, name);
          ReadPayload(fw, a, JObject(rest))
  }

  /**
   * A TYPE_PROPERTY object is read by its type property, wherever it stands
   * and with its last value if it is repeated: a tag that reads as a
   * registered name reads the rest of the object with that name's adapter,
   * any other name fails with "Unknown sub type".
   */
  lemma ReadTagged<P>(codec: PolymorphCodec, fw: Framework<P>, ms: seq<Member>, tag: Json, name: string)
    requires codec.style == TypeProperty
    requires Lookup(ms, codec.typePropertyName) == Some(tag) && AsString(tag) == Some(name)
    ensures Read(codec, fw, JObject(ms)) ==
              if name in codec.adapterByName
              then ReadPayload(fw, codec.adapterByName[name], JObject(Remove(Parse(JObject(ms)).members, codec.typePropertyName)))
              else Failure(UnknownSubType(name, codec.base))
  {
    GetParse(ms, codec.typePropertyName);
    AsStringParse(tag);
  }

  /**
   * For an object already shaped as Gson's tree (no key twice, at any depth),
   * the payload read is the object with the type property removed and every
   * other member as it was.
   */
  lemma ReadTaggedTree<P>(codec: PolymorphCodec, fw: Framework<P>, ms: seq<Member>, tag: Json, name: string)
    requires codec.style == TypeProperty && Parse(JObject(ms)) == JObject(ms)
    requires Get(ms, codec.typePropertyName) == Some(tag) && AsString(tag) == Some(name)
    ensures Read(codec, fw, JObject(ms)) ==
              if name in codec.adapterByName
              then ReadPayload(fw, codec.adapterByName[name], JObject(Remove(ms, codec.typePropertyName)))
              else Failure(UnknownSubType(name, codec.base))
  {
  }

  /**
   * Reading an envelope resolves whatever name it carries, canonical or
   * alternate: a registered name reads the payload with that name's adapter,
   * any other name fails with "Unknown sub type". For TYPE_PROPERTY the
   * payload object must not itself hold the type property, and, being a Gson
   * JsonObject tree, holds no key twice at any depth.
   */
  lemma ReadEnvelope<P>(codec: PolymorphCodec, fw: Framework<P>, name: string, payload: Json)
    requires Envelope(codec, name, payload).Success?
    requires codec.style == TypeProperty ==>
               codec.typePropertyName !in Keys(payload.members) && Parse(payload) == payload
    ensures Read(codec, fw, Envelope(codec, name, payload).value) ==
              if name in codec.adapterByName then ReadPayload(fw, codec.adapterByName[name], payload)
              else Failure(UnknownSubType(name, codec.base))
  {
    if codec.style == TypeProperty {
      var k := codec.typePropertyName;
      var out := Envelope(codec, name, payload).value.members;
      ParseAppend(payload.members, Member(k, JString(name)));
      ReadTaggedTree(codec, fw, out, JString(name), name);
      assert Remove(out, k) == payload.members;
    }
  }

  /**
   * Round trip: with payload adapters that read back what they write, reading
   * what write produced gives back the same value, of the same class, in every
   * style; this covers the root class itself and null.
   */
  lemma RoundTrip<P(!new)>(codec: PolymorphCodec, fw: Framework<P>, v: Value<P>)
    requires WellFormed(codec) && PayloadRoundTrip(fw)
    requires v.Instance? ==> v.cls in codec.adapterByClass
    requires v.Instance? && codec.style == TypeProperty ==>
               var payload := fw.write(codec.adapterByClass[v.cls], v.fields);
               && payload.JObject? && Parse(payload) == payload
               && codec.typePropertyName !in Keys(payload.members)
    ensures Write(codec, fw, v).Success?
    ensures Read(codec, fw, Write(codec, fw, v).value) == Success(v)
  {
    if v.Instance? {
      var a := codec.adapterByClass[v.cls];
      var payload := fw.write(a, v.fields);
      ReadEnvelope(codec, fw, GetName(v.cls).value, payload);
      assert fw.read(a, payload) == Success(Some(v.fields));
    }
  }
}
