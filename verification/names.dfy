/**
 * How the adapter names a class: the default name extractor, getName (the
 * canonical name, used for writing) and getNames (every name a class is read
 * under).
 */
module Names {
  import opened Wrappers
  import opened Metadata

  /** Character.isUpperCase, restricted to ASCII. */
  predicate IsUpper(ch: char)
  {
    'A' <= ch <= 'Z'
  }

  /** Character.toLowerCase, restricted to ASCII. */
  function ToLower(ch: char): (r: char)
    ensures !IsUpper(r)
  {
    if IsUpper(ch) then (ch as int - 'A' as int + 'a' as int) as char else ch
  }

  /** Lower-cases the first character of a non-empty name when it is upper case. */
  function Decapitalize(name: string): (r: string)
    requires |name| > 0
    ensures |r| == |name| && r[1..] == name[1..]
    ensures !IsUpper(r[0])
    ensures IsUpper(name[0]) ==> r[0] as int == name[0] as int + 32
    ensures !IsUpper(name[0]) ==> r == name
  {
    if IsUpper(name[0]) then [ToLower(name[0])] + name[1..] else name
  }

  /** Decapitalizing a decapitalized name changes nothing. */
  lemma DecapitalizeIdempotent(name: string)
    requires |name| > 0
    ensures Decapitalize(Decapitalize(name)) == Decapitalize(name)
  {
  }

  /** The default name extractor: refuses an empty simple name, else decapitalizes it. */
  function DefaultName(cls: ClassInfo): (r: Result<string, Error>)
    ensures r.Failure? <==> cls.simpleName == []
    ensures r.Failure? ==> r.error == EmptySimpleName(cls)
    ensures r.Success? ==> r.value == Decapitalize(cls.simpleName)
  {
    if cls.simpleName == [] then Failure(EmptySimpleName(cls))
    else Success(Decapitalize(cls.simpleName))
  }

  /** getName: the name a class is written under. */
  function GetName(cls: ClassInfo): (r: Result<string, Error>)
    ensures cls.explicitName.Some? ==> r == Success(cls.explicitName.value)
    ensures cls.explicitName.None? ==> r == DefaultName(cls)
    ensures r.Failure? <==> cls.explicitName.None? && cls.simpleName == []
    ensures cls.explicitName.None? && r.Success? ==>
              |r.value| == |cls.simpleName| && r.value[1..] == cls.simpleName[1..] && !IsUpper(r.value[0])
  {
    match cls.explicitName
    case Some(name) => Success(name)
    case None => DefaultName(cls)
  }

  predicate NoDuplicates(s: seq<string>)
  {
    forall i, j | 0 <= i < j < |s| :: s[i] != s[j]
  }

  /**
   * The elements of s in order of first occurrence: what iterating a set that
   * was filled from s in that order yields.
   */
  function Distinct(s: seq<string>): (r: seq<string>)
    ensures NoDuplicates(r)
    ensures forall x :: x in r <==> x in s
    ensures |s| > 0 ==> |r| > 0 && r[0] == s[0]
  {
    if s == [] then []
    else
      var init := s[..|s| - 1];
      var last := s[|s| - 1];
      assert s == init + [last];
      var d := Distinct(init);
      assert |init| > 0 ==> d[0] == s[0];
      if last in d then d else d + [last]
  }

  /**
   * getNames: the canonical name and every declared alternate name, each once.
   * The source collects them in a HashSet, whose iteration order is not
   * specified; the model iterates canonical name first, then the alternate
   * names in declaration order.
   */
  function GetNames(cls: ClassInfo): (r: Result<seq<string>, Error>)
    ensures r.Success? <==> GetName(cls).Success?
    ensures r.Failure? ==> r == Failure(EmptySimpleName(cls))
    ensures r.Success? ==> NoDuplicates(r.value) && |r.value| > 0 && r.value[0] == GetName(cls).value
    ensures r.Success? ==> forall n :: n in r.value <==> n == GetName(cls).value || n in cls.altNames
  {
    var name :- GetName(cls);
    Success(Distinct([name] + cls.altNames))
  }

  /**
   * getNames as the source runs it: a set that starts with the canonical name
   * and receives the alternate names one by one, a name already present being
   * skipped.
   */
  method CollectNames(cls: ClassInfo) returns (r: Result<seq<string>, Error>)
    ensures r == GetNames(cls)
  {
    var name := GetName(cls);
    if name.Failure? {
      return Failure(name.error);
    }
    var all := [name.value] + cls.altNames;
    var result := [name.value];
    var k := 1;
    while k < |all|
      invariant 1 <= k <= |all|
      invariant result == Distinct(all[..k])
    {
      assert all[..k + 1][..k] == all[..k];
      if all[k] !in result {
        result := result + [all[k]];
      }
      k := k + 1;
    }
    assert all[..k] == all;
    return Success(result);
  }
}
