/**
 * The registry build of the adapter's constructor, as specification functions:
 * for every root, a map from each name (canonical or alternate) of the root and
 * of its subclasses to the class that declares it. The root's names go in
 * without any check; a subclass name that is already present is a collision.
 */
module Families {
  import opened Wrappers
  import opened Metadata
  import opened Names

  type NameMap = map<string, ClassInfo>

  /** The names of a class, as a set. */
  ghost function NameSet(cls: ClassInfo): set<string>
    requires GetNames(cls).Success?
  {
    set n | n in GetNames(cls).value
  }

  /** The root's names put one by one, each mapping to the root; nothing is checked. */
  function RootNameMap(root: ClassInfo, names: seq<string>): (r: NameMap)
    ensures r.Keys == set n | n in names
    ensures forall n | n in r :: r[n] == root
  {
    if names == [] then map[]
    else RootNameMap(root, names[..|names| - 1])[names[|names| - 1] := root]
  }

  /** Inserts the names of one subclass; a name already present is a collision. */
  function PutSubclassNames(m: NameMap, sub: ClassInfo, root: ClassInfo, names: seq<string>): (r: Result<NameMap, Error>)
    ensures r.Success? ==> forall n | n in names :: n !in m
    ensures NoDuplicates(names) && (forall n | n in names :: n !in m) ==> r.Success?
    ensures r.Success? ==> r.value == m + map n | n in names :: sub
    ensures r.Failure? ==> && r.error.NameCollision?
                           && r.error.subclass == sub && r.error.root == root
                           && r.error.name in names
    ensures r.Failure? && NoDuplicates(names) ==>
              r.error.name in m && r.error.existing == m[r.error.name]
    decreases |names|
  {
    if names == [] then Success(m)
    else if names[0] in m then Failure(NameCollision(sub, m[names[0]], root, names[0]))
    else
      var r := PutSubclassNames(m[names[0] := sub], sub, root, names[1..]);
      assert forall n :: n in names <==> n == names[0] || n in names[1..] by {
        assert names == [names[0]] + names[1..];
      }
      assert NoDuplicates(names) ==> NoDuplicates(names[1..]) && names[0] !in names[1..];
      if r.Success? then
        assert r.value == m + map n | n in names :: sub;
        r
      else r
  }

  /** Inserts the names of the subclasses, in order. */
  function PutSubclasses(m: NameMap, root: ClassInfo, subs: seq<ClassInfo>): (r: Result<NameMap, Error>)
    ensures r.Success? ==> m.Keys <= r.value.Keys
    ensures r.Failure? ==> r.error.EmptySimpleName? || r.error.NameCollision?
    decreases |subs|
  {
    if subs == [] then Success(m)
    else
      var names :- GetNames(subs[0]);
      var m' :- PutSubclassNames(m, subs[0], root, names);
      PutSubclasses(m', root, subs[1..])
  }

  /** The name map of one family: the root's names, then its subclasses' names. */
  function FamilyMap(f: Family): (r: Result<NameMap, Error>)
    ensures r.Failure? ==> r.error.EmptySimpleName? || r.error.NameCollision?
  {
    var names :- GetNames(f.root);
    PutSubclasses(RootNameMap(f.root, names), f.root, f.subclasses)
  }

  /** The registry after scanning the families in order, starting from `registry`. */
  function ScanAll(registry: map<ClassInfo, NameMap>, fs: seq<Family>): (r: Result<map<ClassInfo, NameMap>, Error>)
    ensures r.Success? ==> registry.Keys <= r.value.Keys
    ensures r.Failure? ==> r.error.EmptySimpleName? || r.error.NameCollision?
    decreases |fs|
  {
    if fs == [] then Success(registry)
    else
      var m :- FamilyMap(fs[0]);
      ScanAll(registry[fs[0].root := m], fs[1..])
  }

  // ---------------------------------------------------------------------------
  // What a successful build contains, and when a build succeeds

  ghost predicate AllNamed(cs: seq<ClassInfo>)
  {
    forall i | 0 <= i < |cs| :: GetNames(cs[i]).Success?
  }

  /** Every name declared by one of the classes. */
  ghost function Union(cs: seq<ClassInfo>): set<string>
    requires AllNamed(cs)
    decreases |cs|
  {
    if cs == [] then {} else NameSet(cs[0]) + Union(cs[1..])
  }

  lemma {:induction false} InUnion(cs: seq<ClassInfo>, n: string)
    requires AllNamed(cs)
    ensures n in Union(cs) <==> exists i :: 0 <= i < |cs| && n in NameSet(cs[i])
    decreases |cs|
  {
    if cs != [] {
      InUnion(cs[1..], n);
      if n in Union(cs[1..]) {
        var i :| 0 <= i < |cs[1..]| && n in NameSet(cs[1..][i]);
        assert n in NameSet(cs[i + 1]);
      }
      if exists i :: 0 <= i < |cs| && n in NameSet(cs[i]) {
        var i :| 0 <= i < |cs| && n in NameSet(cs[i]);
        if i > 0 {
          assert n in NameSet(cs[1..][i - 1]);
        }
      }
    }
  }

  /** No subclass name is among `taken`, and no two subclasses share a name. */
  ghost predicate Separate(taken: set<string>, subs: seq<ClassInfo>)
    requires AllNamed(subs)
  {
    && (forall i | 0 <= i < |subs| :: taken !! NameSet(subs[i]))
    && (forall i, j | 0 <= i < j < |subs| :: NameSet(subs[i]) !! NameSet(subs[j]))
  }

  lemma SeparateCons(taken: set<string>, subs: seq<ClassInfo>)
    requires |subs| > 0 && AllNamed(subs)
    ensures AllNamed(subs[1..])
    ensures Separate(taken, subs) <==>
              taken !! NameSet(subs[0]) && Separate(taken + NameSet(subs[0]), subs[1..])
  {
    var t := subs[1..];
    assert forall i | 0 <= i < |t| :: t[i] == subs[i + 1];
    if taken !! NameSet(subs[0]) && Separate(taken + NameSet(subs[0]), t) {
      forall i, j | 0 <= i < j < |subs|
        ensures NameSet(subs[i]) !! NameSet(subs[j])
      {
        if i == 0 {
          assert subs[j] == t[j - 1];
        } else {
          assert subs[i] == t[i - 1] && subs[j] == t[j - 1];
        }
      }
      forall i | 0 <= i < |subs|
        ensures taken !! NameSet(subs[i])
      {
        if i > 0 {
          assert subs[i] == t[i - 1];
        }
      }
    }
  }

  lemma AllNamedCons(cs: seq<ClassInfo>)
    requires |cs| > 0
    ensures AllNamed(cs) <==> GetNames(cs[0]).Success? && AllNamed(cs[1..])
  {
    var t := cs[1..];
    assert forall i | 0 <= i < |t| :: t[i] == cs[i + 1];
    if GetNames(cs[0]).Success? && AllNamed(t) {
      forall i | 0 <= i < |cs| ensures GetNames(cs[i]).Success? {
        if i > 0 { assert cs[i] == t[i - 1]; }
      }
    }
  }

  /** The subclass phase succeeds exactly when all names are fresh and distinct. */
  lemma {:induction false} PutSubclassesSucceeds(m: NameMap, root: ClassInfo, subs: seq<ClassInfo>)
    ensures PutSubclasses(m, root, subs).Success? <==> AllNamed(subs) && Separate(m.Keys, subs)
    decreases |subs|
  {
    if subs != [] {
      var s := subs[0];
      AllNamedCons(subs);
      if GetNames(s).Success? {
        var step := PutSubclassNames(m, s, root, GetNames(s).value);
        if AllNamed(subs) {
          SeparateCons(m.Keys, subs);
        }
        if step.Success? {
          assert step.value.Keys == m.Keys + NameSet(s);
          PutSubclassesSucceeds(step.value, root, subs[1..]);
        }
      }
    }
  }

  /** One subclass step of a successful subclass phase. */
  lemma PutSubclassesStep(m: NameMap, root: ClassInfo, subs: seq<ClassInfo>)
    requires subs != [] && GetNames(subs[0]).Success?
    requires PutSubclassNames(m, subs[0], root, GetNames(subs[0]).value).Success?
    ensures var m' := PutSubclassNames(m, subs[0], root, GetNames(subs[0]).value).value;
            && PutSubclasses(m, root, subs) == PutSubclasses(m', root, subs[1..])
            && m'.Keys == m.Keys + NameSet(subs[0])
            && (forall n | n in m :: m'[n] == m[n])
            && (forall n | n in NameSet(subs[0]) :: m'[n] == subs[0])
  {
  }

  /** A successful subclass phase adds exactly the subclasses' names. */
  lemma {:induction false} PutSubclassesKeys(m: NameMap, root: ClassInfo, subs: seq<ClassInfo>)
    requires PutSubclasses(m, root, subs).Success?
    ensures AllNamed(subs)
    ensures PutSubclasses(m, root, subs).value.Keys == m.Keys + Union(subs)
    decreases |subs|
  {
    PutSubclassesSucceeds(m, root, subs);
    if subs != [] {
      AllNamedCons(subs);
      var m' := PutSubclassNames(m, subs[0], root, GetNames(subs[0]).value).value;
      PutSubclassesStep(m, root, subs);
      PutSubclassesKeys(m', root, subs[1..]);
    }
  }

  /** A successful subclass phase keeps what was already in the map. */
  lemma {:induction false} PutSubclassesKeeps(m: NameMap, root: ClassInfo, subs: seq<ClassInfo>)
    requires PutSubclasses(m, root, subs).Success?
    ensures m.Keys <= PutSubclasses(m, root, subs).value.Keys
    ensures forall n | n in m :: PutSubclasses(m, root, subs).value[n] == m[n]
    decreases |subs|
  {
    PutSubclassesKeys(m, root, subs);
    if subs != [] {
      AllNamedCons(subs);
      var m' := PutSubclassNames(m, subs[0], root, GetNames(subs[0]).value).value;
      PutSubclassesStep(m, root, subs);
      PutSubclassesKeeps(m', root, subs[1..]);
    }
  }

  /** After a successful subclass phase with result r, a name of subs[i] maps to subs[i]. */
  lemma {:induction false} PutSubclassesDeclared(m: NameMap, root: ClassInfo, subs: seq<ClassInfo>, r: NameMap, i: nat, n: string)
    requires PutSubclasses(m, root, subs) == Success(r)
    requires i < |subs| && GetNames(subs[i]).Success? && n in NameSet(subs[i])
    ensures n in r && r[n] == subs[i]
    decreases i
  {
    if i == 0 {
      PutSubclassesDeclaredHead(m, root, subs, n);
    } else {
      var m' := PutSubclassesTail(m, root, subs);
      var t := subs[1..];
      assert t[i - 1] == subs[i];
      PutSubclassesDeclared(m', root, t, r, i - 1, n);
    }
  }

  /** The map a successful subclass phase continues from after its first subclass. */
  lemma PutSubclassesTail(m: NameMap, root: ClassInfo, subs: seq<ClassInfo>) returns (m': NameMap)
    requires subs != [] && PutSubclasses(m, root, subs).Success?
    ensures PutSubclasses(m, root, subs) == PutSubclasses(m', root, subs[1..])
    ensures GetNames(subs[0]).Success?
    ensures forall n | n in NameSet(subs[0]) :: n in m' && m'[n] == subs[0]
  {
    assert GetNames(subs[0]).Success?;
    assert PutSubclassNames(m, subs[0], root, GetNames(subs[0]).value).Success?;
    m' := PutSubclassNames(m, subs[0], root, GetNames(subs[0]).value).value;
    PutSubclassesStep(m, root, subs);
  }

  lemma PutSubclassesDeclaredHead(m: NameMap, root: ClassInfo, subs: seq<ClassInfo>, n: string)
    requires subs != [] && PutSubclasses(m, root, subs).Success?
    requires GetNames(subs[0]).Success? && n in NameSet(subs[0])
    ensures n in PutSubclasses(m, root, subs).value
    ensures PutSubclasses(m, root, subs).value[n] == subs[0]
  {
    var m' := PutSubclassesTail(m, root, subs);
    PutSubclassesKeeps(m', root, subs[1..]);
  }

  /**
   * Building a family succeeds exactly when every class has a name, no subclass
   * shares a name with the root, and no two subclasses share a name (the root's
   * own names are never checked against each other).
   */
  lemma FamilyMapSucceeds(f: Family)
    ensures FamilyMap(f).Success? <==>
              && GetNames(f.root).Success?
              && AllNamed(f.subclasses)
              && Separate(NameSet(f.root), f.subclasses)
  {
    if GetNames(f.root).Success? {
      var m0 := RootNameMap(f.root, GetNames(f.root).value);
      assert m0.Keys == NameSet(f.root);
      PutSubclassesSucceeds(m0, f.root, f.subclasses);
    }
  }

  /** A family starts from the root's names, each mapped to the root. */
  lemma FamilyMapUnfold(f: Family)
    requires GetNames(f.root).Success?
    ensures var m0 := RootNameMap(f.root, GetNames(f.root).value);
            && FamilyMap(f) == PutSubclasses(m0, f.root, f.subclasses)
            && m0.Keys == NameSet(f.root)
            && (forall n | n in m0 :: m0[n] == f.root)
  {
  }

  /** A built family holds exactly the names of the root and of its subclasses. */
  lemma FamilyMapKeys(f: Family)
    requires FamilyMap(f).Success?
    ensures GetNames(f.root).Success? && AllNamed(f.subclasses)
    ensures FamilyMap(f).value.Keys == NameSet(f.root) + Union(f.subclasses)
  {
    FamilyMapUnfold(f);
    PutSubclassesKeys(RootNameMap(f.root, GetNames(f.root).value), f.root, f.subclasses);
  }

  /** In a built family every name of the root maps to the root. */
  lemma FamilyMapRootNames(f: Family)
    requires FamilyMap(f).Success?
    ensures GetNames(f.root).Success?
    ensures forall n | n in NameSet(f.root) :: n in FamilyMap(f).value && FamilyMap(f).value[n] == f.root
  {
    FamilyMapUnfold(f);
    PutSubclassesKeeps(RootNameMap(f.root, GetNames(f.root).value), f.root, f.subclasses);
  }

  /** In a built family every name of a subclass maps to that subclass. */
  lemma FamilyMapSubclassNames(f: Family, i: nat, n: string)
    requires FamilyMap(f).Success?
    requires i < |f.subclasses| && GetNames(f.subclasses[i]).Success? && n in NameSet(f.subclasses[i])
    ensures n in FamilyMap(f).value && FamilyMap(f).value[n] == f.subclasses[i]
  {
    FamilyMapKeys(f);
    FamilyMapUnfold(f);
    PutSubclassesDeclared(RootNameMap(f.root, GetNames(f.root).value), f.root, f.subclasses, FamilyMap(f).value, i, n);
  }

  // ---------------------------------------------------------------------------
  // Errors of a failed build

  /** Every entry of a name map is a name its class declares. */
  ghost predicate Declared(m: NameMap)
  {
    forall n | n in m :: GetNames(m[n]).Success? && n in NameSet(m[n])
  }

  /**
   * The subclass phase fails only on a class without a name, or on a subclass
   * name that is already taken by the map it started from or by an earlier
   * subclass.
   */
  lemma PutSubclassesErrors(m: NameMap, root: ClassInfo, subs: seq<ClassInfo>)
    requires Declared(m)
    requires PutSubclasses(m, root, subs).Failure?
    ensures var e := PutSubclasses(m, root, subs).error;
            || (e.EmptySimpleName? && e.cls in subs && GetName(e.cls).Failure?)
            || (&& e.NameCollision? && e.root == root && e.subclass in subs
                && GetNames(e.subclass).Success? && e.name in NameSet(e.subclass)
                && GetNames(e.existing).Success? && e.name in NameSet(e.existing)
                && (|| e.existing in m.Values
                    || exists i, j | 0 <= i < j < |subs| :: subs[i] == e.existing && subs[j] == e.subclass))
  {
    PutSubclassesErrorKinds(m, root, subs);
    if PutSubclasses(m, root, subs).error.NameCollision? {
      PutSubclassesHolder(m, root, subs);
    }
  }

  /** What a failed subclass phase reports, apart from which class held the name first. */
  lemma {:induction false} PutSubclassesErrorKinds(m: NameMap, root: ClassInfo, subs: seq<ClassInfo>)
    requires Declared(m)
    requires PutSubclasses(m, root, subs).Failure?
    ensures var e := PutSubclasses(m, root, subs).error;
            || (e.EmptySimpleName? && e.cls in subs && GetName(e.cls).Failure?)
            || (&& e.NameCollision? && e.root == root && e.subclass in subs
                && GetNames(e.subclass).Success? && e.name in NameSet(e.subclass)
                && GetNames(e.existing).Success? && e.name in NameSet(e.existing))
    decreases |subs|
  {
    var s := subs[0];
    if GetNames(s).Success? {
      var step := PutSubclassNames(m, s, root, GetNames(s).value);
      if step.Success? {
        var m' := step.value;
        assert Declared(m');
        PutSubclassesErrorKinds(m', root, subs[1..]);
        assert PutSubclasses(m, root, subs) == PutSubclasses(m', root, subs[1..]);
      }
    }
  }

  /** A collision names a class that held the name before the subclass did. */
  lemma {:induction false} PutSubclassesHolder(m: NameMap, root: ClassInfo, subs: seq<ClassInfo>)
    requires PutSubclasses(m, root, subs).Failure?
    requires PutSubclasses(m, root, subs).error.NameCollision?
    ensures var e := PutSubclasses(m, root, subs).error;
            && e.subclass in subs
            && (|| e.existing in m.Values
                || exists i, j | 0 <= i < j < |subs| :: subs[i] == e.existing && subs[j] == e.subclass)
    decreases |subs|
  {
    var s := subs[0];
    var e := PutSubclasses(m, root, subs).error;
    if GetNames(s).Success? {
      var step := PutSubclassNames(m, s, root, GetNames(s).value);
      if step.Success? {
        var m' := step.value;
        var t := subs[1..];
        assert e == PutSubclasses(m', root, t).error;
        PutSubclassesHolder(m', root, t);
        if e.existing in m'.Values {
          var n :| n in m' && m'[n] == e.existing;
          if n !in m {
            assert e.existing == subs[0];
            var j :| 0 <= j < |t| && t[j] == e.subclass;
            assert subs[j + 1] == e.subclass;
          } else {
            assert e.existing in m.Values;
          }
        } else {
          var i, j :| 0 <= i < j < |t| && t[i] == e.existing && t[j] == e.subclass;
          assert subs[i + 1] == e.existing && subs[j + 1] == e.subclass;
        }
      }
    }
  }

  /**
   * A failed family build names a class of the family without a name, or a
   * subclass whose name is already declared by the root or by an earlier
   * subclass, together with that other class and the root.
   */
  lemma FamilyMapErrors(f: Family)
    requires FamilyMap(f).Failure?
    ensures var e := FamilyMap(f).error;
            || (e.EmptySimpleName? && (e.cls == f.root || e.cls in f.subclasses) && GetName(e.cls).Failure?)
            || (&& e.NameCollision? && e.root == f.root && e.subclass in f.subclasses
                && GetNames(e.subclass).Success? && e.name in NameSet(e.subclass)
                && GetNames(e.existing).Success? && e.name in NameSet(e.existing)
                && (|| e.existing == f.root
                    || exists i, j | 0 <= i < j < |f.subclasses| ::
                         f.subclasses[i] == e.existing && f.subclasses[j] == e.subclass))
  {
    if GetNames(f.root).Success? {
      FamilyMapUnfold(f);
      var m0 := RootNameMap(f.root, GetNames(f.root).value);
      assert m0.Values <= {f.root};
      PutSubclassesErrors(m0, f.root, f.subclasses);
    }
  }

  // ---------------------------------------------------------------------------
  // The registry

  /**
   * Every name of the map belongs to the class it maps to, and every name of
   * such a class maps to it: reading can find every class under each of its names.
   */
  ghost predicate ClosedFamily(m: NameMap)
  {
    forall n | n in m ::
      && GetNames(m[n]).Success?
      && n in NameSet(m[n])
      && (forall n' | n' in NameSet(m[n]) :: n' in m && m[n'] == m[n])
  }

  /** A built family is closed, and holds the root under its canonical name. */
  lemma FamilyMapClosed(f: Family)
    requires FamilyMap(f).Success?
    ensures ClosedFamily(FamilyMap(f).value)
    ensures GetName(f.root).Success?
    ensures GetName(f.root).value in FamilyMap(f).value
    ensures FamilyMap(f).value[GetName(f.root).value] == f.root
  {
    var m := FamilyMap(f).value;
    FamilyMapKeys(f);
    FamilyMapRootNames(f);
    forall n | n in m
      ensures && GetNames(m[n]).Success?
              && n in NameSet(m[n])
              && (forall n' | n' in NameSet(m[n]) :: n' in m && m[n'] == m[n])
    {
      if n !in NameSet(f.root) {
        InUnion(f.subclasses, n);
        var i :| 0 <= i < |f.subclasses| && n in NameSet(f.subclasses[i]);
        FamilyMapSubclassNames(f, i, n);
        forall n' | n' in NameSet(f.subclasses[i])
          ensures n' in m && m[n'] == f.subclasses[i]
        {
          FamilyMapSubclassNames(f, i, n');
        }
      }
    }
  }

  /** The registry invariant: only roots, each with a closed family. */
  ghost predicate ClosedRegistry(registry: map<ClassInfo, NameMap>)
  {
    forall root | root in registry :: root.isRoot && ClosedFamily(registry[root])
  }

  /** Scanning succeeds exactly when every family builds. */
  lemma {:induction false} ScanAllSucceeds(registry: map<ClassInfo, NameMap>, fs: seq<Family>)
    ensures ScanAll(registry, fs).Success? <==> forall i | 0 <= i < |fs| :: FamilyMap(fs[i]).Success?
    decreases |fs|
  {
    if fs != [] {
      assert forall i | 0 <= i < |fs[1..]| :: fs[1..][i] == fs[i + 1];
      if FamilyMap(fs[0]).Success? {
        ScanAllSucceeds(registry[fs[0].root := FamilyMap(fs[0]).value], fs[1..]);
        if forall i | 0 <= i < |fs[1..]| :: FamilyMap(fs[1..][i]).Success? {
          forall i | 0 <= i < |fs| ensures FamilyMap(fs[i]).Success? {
            if i > 0 { assert fs[i] == fs[1..][i - 1]; }
          }
        }
      }
    }
  }

  /** A successful scan registers exactly the scanned roots in addition. */
  lemma {:induction false} ScanAllKeys(registry: map<ClassInfo, NameMap>, fs: seq<Family>)
    requires ScanAll(registry, fs).Success?
    ensures ScanAll(registry, fs).value.Keys == registry.Keys + set f | f in fs :: f.root
    decreases |fs|
  {
    if fs != [] {
      var t := fs[1..];
      ScanAllKeys(registry[fs[0].root := FamilyMap(fs[0]).value], t);
      assert (set f | f in fs :: f.root) == {fs[0].root} + set f | f in t :: f.root by {
        assert fs == [fs[0]] + t;
      }
    }
  }

  /** Scanning families whose roots are marked keeps the registry invariant. */
  lemma {:induction false} ScanAllClosed(registry: map<ClassInfo, NameMap>, fs: seq<Family>)
    requires forall i | 0 <= i < |fs| :: fs[i].root.isRoot
    requires ScanAll(registry, fs).Success?
    requires ClosedRegistry(registry)
    ensures ClosedRegistry(ScanAll(registry, fs).value)
    decreases |fs|
  {
    if fs != [] {
      FamilyMapClosed(fs[0]);
      assert forall i | 0 <= i < |fs[1..]| :: fs[1..][i] == fs[i + 1];
      ScanAllClosed(registry[fs[0].root := FamilyMap(fs[0]).value], fs[1..]);
    }
  }

  /** With distinct roots, each root gets the family map built from it. */
  lemma {:induction false} ScanAllFamilies(registry: map<ClassInfo, NameMap>, fs: seq<Family>, i: nat)
    requires ScanAll(registry, fs).Success?
    requires forall i, j | 0 <= i < j < |fs| :: fs[i].root != fs[j].root
    requires i < |fs|
    ensures FamilyMap(fs[i]).Success?
    ensures fs[i].root in ScanAll(registry, fs).value
    ensures ScanAll(registry, fs).value[fs[i].root] == FamilyMap(fs[i]).value
    decreases i
  {
    var t := fs[1..];
    var registry' := registry[fs[0].root := FamilyMap(fs[0]).value];
    assert forall k | 0 <= k < |t| :: t[k] == fs[k + 1];
    if i == 0 {
      ScanAllKeeps(registry', t, fs[0].root);
    } else {
      ScanAllFamilies(registry', t, i - 1);
    }
  }

  /** A root that no later family names keeps its entry. */
  lemma {:induction false} ScanAllKeeps(registry: map<ClassInfo, NameMap>, fs: seq<Family>, root: ClassInfo)
    requires ScanAll(registry, fs).Success?
    requires root in registry && forall i | 0 <= i < |fs| :: fs[i].root != root
    ensures root in ScanAll(registry, fs).value
    ensures ScanAll(registry, fs).value[root] == registry[root]
    decreases |fs|
  {
    if fs != [] {
      assert forall i | 0 <= i < |fs[1..]| :: fs[1..][i] == fs[i + 1];
      ScanAllKeeps(registry[fs[0].root := FamilyMap(fs[0]).value], fs[1..], root);
    }
  }
}
