/**
 * JSON trees as Gson's JsonElement holds them, and the few tree operations the
 * adapter uses: member lookup, adding a member (JsonObject.addProperty), removing
 * a member (JsonObject.remove), and the two ways of reading a discriminator as a
 * string (JsonElement.getAsString on a tree, JsonReader.nextString on a stream).
 */
module Json {
  import opened Wrappers

  /** A number keeps its literal text, as Gson's lazily parsed numbers do. */
  datatype Json =
    | JNull
    | JBool(b: bool)
    | JNumber(literal: string)
    | JString(str: string)
    | JArray(elements: seq<Json>)
    | JObject(members: seq<Member>)

  datatype Member = Member(key: string, value: Json)

  function Keys(ms: seq<Member>): set<string>
  {
    if ms == [] then {} else {ms[0].key} + Keys(ms[1..])
  }

  /** Gson's JsonObject is a map: no key occurs twice. */
  ghost predicate UniqueKeys(ms: seq<Member>)
  {
    forall i, j | 0 <= i < j < |ms| :: ms[i].key != ms[j].key
  }

  /** JsonObject.get: the value stored under key k, if any. */
  function Get(ms: seq<Member>, k: string): (r: Option<Json>)
    ensures r.Some? <==> k in Keys(ms)
    ensures r.Some? ==> Member(k, r.value) in ms
  {
    if ms == [] then None
    else if ms[0].key == k then Some(ms[0].value)
    else Get(ms[1..], k)
  }

  /**
   * JsonObject.add / addProperty: an existing member keeps its position and gets
   * the new value; otherwise the member is appended.
   */
  function Put(ms: seq<Member>, k: string, v: Json): (r: seq<Member>)
    ensures Keys(r) == Keys(ms) + {k}
    ensures k !in Keys(ms) ==> r == ms + [Member(k, v)]
  {
    if ms == [] then [Member(k, v)]
    else if ms[0].key == k then [Member(k, v)] + ms[1..]
    else
      var r := [ms[0]] + Put(ms[1..], k, v);
      assert r[1..] == Put(ms[1..], k, v);
      assert k !in Keys(ms) ==> r == ms + [Member(k, v)] by {
        if k !in Keys(ms) {
          assert ms == [ms[0]] + ms[1..];
        }
      }
      r
  }

  /** After adding, the key holds the new value and every other key is untouched. */
  lemma {:induction false} GetPut(ms: seq<Member>, k: string, v: Json, k': string)
    ensures Get(Put(ms, k, v), k') == if k' == k then Some(v) else Get(ms, k')
  {
    if ms != [] && ms[0].key != k {
      GetPut(ms[1..], k, v, k');
      assert Put(ms, k, v)[1..] == Put(ms[1..], k, v);
    }
  }

  /** JsonObject.remove: drops the member stored under key k, if any. */
  function Remove(ms: seq<Member>, k: string): (r: seq<Member>)
    ensures Keys(r) == Keys(ms) - {k}
    ensures k !in Keys(ms) ==> r == ms
  {
    if ms == [] then []
    else if ms[0].key == k then Remove(ms[1..], k)
    else
      var r := [ms[0]] + Remove(ms[1..], k);
      assert r[1..] == Remove(ms[1..], k);
      assert k !in Keys(ms) ==> r == ms by {
        if k !in Keys(ms) {
          assert ms == [ms[0]] + ms[1..];
        }
      }
      r
  }

  /** After removing, the key is absent and every other key is untouched. */
  lemma {:induction false} GetRemove(ms: seq<Member>, k: string, k': string)
    ensures Get(Remove(ms, k), k') == if k' == k then None else Get(ms, k')
  {
    if ms != [] {
      GetRemove(ms[1..], k, k');
      if ms[0].key != k {
        assert Remove(ms, k)[1..] == Remove(ms[1..], k);
      }
    }
  }

  /** Adding a member and removing it again gives back the object without that key. */
  lemma {:induction false} RemovePut(ms: seq<Member>, k: string, v: Json)
    ensures Remove(Put(ms, k, v), k) == Remove(ms, k)
  {
    if ms != [] && ms[0].key != k {
      RemovePut(ms[1..], k, v);
      assert Put(ms, k, v)[1..] == Put(ms[1..], k, v);
    }
  }

  /** Adding and removing keep an object's keys unique. */
  lemma {:induction false} PutUnique(ms: seq<Member>, k: string, v: Json)
    requires UniqueKeys(ms)
    ensures UniqueKeys(Put(ms, k, v))
  {
    if ms == [] {
    } else if ms[0].key == k {
      FirstKeyUnique(ms);
      ConsUnique(Member(k, v), ms[1..]);
    } else {
      FirstKeyUnique(ms);
      PutUnique(ms[1..], k, v);
      ConsUnique(ms[0], Put(ms[1..], k, v));
    }
  }

  lemma {:induction false} RemoveUnique(ms: seq<Member>, k: string)
    requires UniqueKeys(ms)
    ensures UniqueKeys(Remove(ms, k))
  {
    if ms != [] {
      FirstKeyUnique(ms);
      RemoveUnique(ms[1..], k);
      if ms[0].key != k {
        ConsUnique(ms[0], Remove(ms[1..], k));
      }
    }
  }

  /** A member whose key is new can go in front of an object with unique keys. */
  lemma ConsUnique(m: Member, ms: seq<Member>)
    requires UniqueKeys(ms) && m.key !in Keys(ms)
    ensures UniqueKeys([m] + ms)
  {
    KeysMembers(ms);
    var r := [m] + ms;
    forall i, j | 0 <= i < j < |r|
      ensures r[i].key != r[j].key
    {
      assert r[j] == ms[j - 1];
      if i > 0 {
        assert r[i] == ms[i - 1];
      }
    }
  }

  /** In an object with unique keys, the first key does not recur. */
  lemma FirstKeyUnique(ms: seq<Member>)
    requires ms != [] && UniqueKeys(ms)
    ensures UniqueKeys(ms[1..]) && ms[0].key !in Keys(ms[1..])
  {
    KeysMembers(ms[1..]);
    assert forall i | 0 <= i < |ms[1..]| :: ms[1..][i].key == ms[i + 1].key;
  }

  /** A key is in Keys exactly when some member carries it. */
  lemma {:induction false} KeysMembers(ms: seq<Member>)
    ensures forall k :: k in Keys(ms) <==> exists i :: 0 <= i < |ms| && ms[i].key == k
  {
    if ms != [] {
      KeysMembers(ms[1..]);
      forall k | k in Keys(ms[1..])
        ensures exists i :: 0 <= i < |ms| && ms[i].key == k
      {
        var i :| 0 <= i < |ms[1..]| && ms[1..][i].key == k;
        assert ms[i + 1].key == k;
      }
      forall k | (exists i :: 0 <= i < |ms| && ms[i].key == k) && k != ms[0].key
        ensures k in Keys(ms[1..])
      {
        var i :| 0 <= i < |ms| && ms[i].key == k;
        assert ms[1..][i - 1].key == k;
      }
    }
  }

  /** The value of the last member stored under key k, if any. */
  function Lookup(ms: seq<Member>, k: string): (r: Option<Json>)
    ensures r.Some? <==> k in Keys(ms)
  {
    if ms == [] then None
    else
      var init := ms[..|ms| - 1];
      KeysSnoc(init, ms[|ms| - 1]);
      assert init + [ms[|ms| - 1]] == ms;
      if ms[|ms| - 1].key == k then Some(ms[|ms| - 1].value) else Lookup(init, k)
  }

  /**
   * The object Gson's tree parser builds from a member list: each member is
   * added with JsonObject.add, so a repeated key keeps its first position and
   * takes its last value.
   */
  function Collapse(ms: seq<Member>): (r: seq<Member>)
    ensures Keys(r) == Keys(ms)
    ensures UniqueKeys(r)
  {
    if ms == [] then []
    else
      var init := ms[..|ms| - 1];
      var last := ms[|ms| - 1];
      KeysSnoc(init, last);
      assert init + [last] == ms;
      PutUnique(Collapse(init), last.key, last.value);
      Put(Collapse(init), last.key, last.value)
  }

  /** Looking up a key of the parsed object finds the last value the input gave it. */
  lemma {:induction false} GetCollapse(ms: seq<Member>, k: string)
    ensures Get(Collapse(ms), k) == Lookup(ms, k)
    decreases |ms|
  {
    if ms != [] {
      var init := ms[..|ms| - 1];
      GetCollapse(init, k);
      GetPut(Collapse(init), ms[|ms| - 1].key, ms[|ms| - 1].value, k);
    }
  }

  /** An object without repeated keys parses to itself. */
  lemma {:induction false} CollapseUnique(ms: seq<Member>)
    requires UniqueKeys(ms)
    ensures Collapse(ms) == ms
    decreases |ms|
  {
    if ms != [] {
      var init := ms[..|ms| - 1];
      var last := ms[|ms| - 1];
      assert ms == init + [last];
      CollapseUnique(init);
      KeysMembers(init);
      assert last.key !in Keys(init);
      assert Collapse(ms) == Put(init, last.key, last.value);
    }
  }

  lemma {:induction false} KeysSnoc(ms: seq<Member>, m: Member)
    ensures Keys(ms + [m]) == Keys(ms) + {m.key}
    decreases |ms|
  {
    if ms != [] {
      assert (ms + [m])[1..] == ms[1..] + [m];
      KeysSnoc(ms[1..], m);
    }
  }

  /**
   * Streams.parse: the tree Gson builds from a JSON text. Every object, at every
   * depth, is built with JsonObject.add, so each folds its repeated keys as
   * Collapse does; arrays and scalars keep their shape.
   */
  function Parse(j: Json): (r: Json)
    ensures r.JObject? <==> j.JObject?
    ensures r.JArray? <==> j.JArray?
    ensures !j.JObject? && !j.JArray? ==> r == j
    ensures j.JArray? ==> |r.elements| == |j.elements|
    ensures j.JArray? ==> forall i | 0 <= i < |j.elements| :: r.elements[i] == Parse(j.elements[i])
    ensures j.JObject? ==> Keys(r.members) == Keys(j.members) && UniqueKeys(r.members)
  {
    match j
    case JArray(es) => JArray(seq(|es|, i requires 0 <= i < |es| => Parse(es[i])))
    case JObject(ms) => JObject(Collapse(ParseValues(ms)))
    case _ => j
  }

  /** An object's members with each value parsed, before the keys are folded. */
  function ParseValues(ms: seq<Member>): (r: seq<Member>)
    ensures |r| == |ms|
    ensures forall i | 0 <= i < |ms| :: r[i] == Member(ms[i].key, Parse(ms[i].value))
    ensures Keys(r) == Keys(ms)
  {
    var r := seq(|ms|, i requires 0 <= i < |ms| => Member(ms[i].key, Parse(ms[i].value)));
    KeysMembers(r);
    KeysMembers(ms);
    r
  }

  /** Looking up a key of a parsed object finds the parsed last value the input gave it. */
  lemma {:induction false} GetParse(ms: seq<Member>, k: string)
    ensures Get(Parse(JObject(ms)).members, k) ==
              if k in Keys(ms) then Some(Parse(Lookup(ms, k).value)) else None
    decreases |ms|
  {
    GetCollapse(ParseValues(ms), k);
    LookupParseValues(ms, k);
  }

  lemma {:induction false} LookupParseValues(ms: seq<Member>, k: string)
    ensures Lookup(ParseValues(ms), k) ==
              if k in Keys(ms) then Some(Parse(Lookup(ms, k).value)) else None
    decreases |ms|
  {
    if ms != [] {
      var init := ms[..|ms| - 1];
      assert ParseValues(ms)[..|ms| - 1] == ParseValues(init);
      LookupParseValues(init, k);
    }
  }

  /**
   * A tree as Gson holds it, each object without repeated keys at every depth,
   * with one member appended under a new key whose value is such a tree, is
   * parsed to itself.
   */
  lemma ParseAppend(ms: seq<Member>, m: Member)
    requires Parse(JObject(ms)) == JObject(ms)
    requires m.key !in Keys(ms) && Parse(m.value) == m.value
    ensures Parse(JObject(ms + [m])) == JObject(ms + [m])
  {
    var pv := ParseValues(ms + [m]);
    var init := ParseValues(ms);
    ParseValuesSnoc(ms, m);
    assert pv[..|pv| - 1] == init;
    assert pv[|pv| - 1] == m;
    assert Collapse(pv) == Put(Collapse(init), m.key, m.value);
  }

  /**
   * JsonElement.getAsString: a string, a number's literal, a boolean's text, or
   * the string of the only element of a one-element array; anything else throws.
   */
  function AsString(j: Json): (r: Option<string>)
    ensures j.JString? ==> r == Some(j.str)
    ensures j.JNumber? ==> r == Some(j.literal)
    ensures j.JBool? ==> r == Some(if j.b then "true" else "false")
    ensures j.JArray? && |j.elements| == 1 ==> r == AsString(j.elements[0])
    ensures (j.JNull? || j.JObject?) ==> r == None
    ensures j.JArray? && |j.elements| != 1 ==> r == None
  {
    match j
    case JString(s) => Some(s)
    case JNumber(lit) => Some(lit)
    case JBool(b) => Some(if b then "true" else "false")
    case JArray(es) => if |es| == 1 then AsString(es[0]) else None
    case _ => None
  }

  /** JsonReader.nextString: accepts a string or a number token, nothing else. */
  function NextString(j: Json): (r: Option<string>)
    ensures r.Some? <==> j.JString? || j.JNumber?
    ensures j.JString? ==> r == Some(j.str)
    ensures j.JNumber? ==> r == Some(j.literal)
  {
    match j
    case JString(s) => Some(s)
    case JNumber(lit) => Some(lit)
    case _ => None
  }

  lemma ParseValuesSnoc(ms: seq<Member>, m: Member)
    ensures ParseValues(ms + [m]) == ParseValues(ms) + [Member(m.key, Parse(m.value))]
  {
    var l := ParseValues(ms + [m]);
    var r := ParseValues(ms) + [Member(m.key, Parse(m.value))];
    forall i | 0 <= i < |ms| + 1 ensures l[i] == r[i] {
      if i < |ms| {
        assert (ms + [m])[i] == ms[i];
      }
    }
  }

  /** Parsing does not change what getAsString reads. */
  lemma {:induction false} AsStringParse(j: Json)
    ensures AsString(Parse(j)) == AsString(j)
  {
    if j.JArray? && |j.elements| == 1 {
      AsStringParse(j.elements[0]);
    }
  }
}
