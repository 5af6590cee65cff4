/** The transform-name registry: a map from lower-cased short transform names
    to iterator class names. A stored value may be PHP `NULL` (`None`), which
    lookup treats as absent because it tests the entry with `isset`. */
module SplashRegistry {
  import opened Wrappers
  import opened Ascii

  /** The one built-in entry. */
  const DefaultName: string := "inverseregex"
  const DefaultClass: string := @"\Splash\Iterator\InverseRegexIterator"

  datatype Registry = Registry(classmap: map<string, Option<string>>)

  /** Every stored key is its own lower-case form. */
  predicate Normalized(r: Registry) {
    forall k :: k in r.classmap ==> IsLowerStr(k)
  }

  /** A newly constructed registry holds only the built-in entry. */
  function Fresh(): (r: Registry)
    ensures Normalized(r)
    ensures r.classmap.Keys == {DefaultName}
    ensures r.classmap[DefaultName] == Some(DefaultClass)
  {
    Registry(map[DefaultName := Some(DefaultClass)])
  }

  /** Looks a short name up ignoring ASCII case; `None` is the `FALSE` the
      source returns for a missing name or a `NULL` entry. On a registry
      whose keys are lower-cased, it succeeds exactly when some stored key
      equals the name ignoring case and holds a non-null class, and it
      returns that class. */
  function GetIteratorClass(r: Registry, shortname: string): (res: Option<string>)
    ensures Normalized(r) ==>
      (res.Some? <==> exists k :: k in r.classmap && EqualsIgnoreCase(k, shortname) && r.classmap[k].Some?)
    ensures Normalized(r) && res.Some? ==>
      exists k :: k in r.classmap && EqualsIgnoreCase(k, shortname) && r.classmap[k] == res
  {
    var key := LowerStr(shortname);
    KeyMatchesExactlyLowerForm(r, shortname);
    if key in r.classmap && r.classmap[key].Some? then r.classmap[key] else None
  }

  /** In a registry with lower-cased keys, the only stored key that equals a
      name ignoring case is the name's lower-case form. */
  lemma KeyMatchesExactlyLowerForm(r: Registry, shortname: string)
    ensures Normalized(r) ==>
      forall k :: k in r.classmap ==> (EqualsIgnoreCase(k, shortname) <==> k == LowerStr(shortname))
  {
    if Normalized(r) {
      forall k | k in r.classmap
        ensures EqualsIgnoreCase(k, shortname) <==> k == LowerStr(shortname)
      {
        SameNameIff(k, shortname);
        LowerStrIsLower(k);
      }
    }
  }

  /** Stores `cls` under the lower-cased short name, replacing any previous
      entry for that name and leaving every other entry alone. */
  function SetIteratorClass(r: Registry, shortname: string, cls: Option<string>): (r': Registry)
    ensures r'.classmap.Keys == r.classmap.Keys + {LowerStr(shortname)}
    ensures r'.classmap[LowerStr(shortname)] == cls
    ensures forall k :: k in r.classmap && k != LowerStr(shortname) ==> r'.classmap[k] == r.classmap[k]
    ensures Normalized(r) ==> Normalized(r')
  {
    LowerStrIsLower(shortname);
    Registry(r.classmap[LowerStr(shortname) := cls])
  }

  /** A fresh registry resolves every case variant of `inverseregex`, and
      nothing else. */
  lemma FreshLookup(shortname: string)
    ensures GetIteratorClass(Fresh(), shortname) ==
      if EqualsIgnoreCase(shortname, DefaultName) then Some(DefaultClass) else None
  {
    FreshLookupByKey(shortname);
    DefaultNameIsLower();
    SameNameIff(shortname, DefaultName);
  }

  /** A fresh registry resolves exactly the names whose lower-case form is the
      built-in key. */
  lemma FreshLookupByKey(shortname: string)
    ensures GetIteratorClass(Fresh(), shortname) ==
      if LowerStr(shortname) == DefaultName then Some(DefaultClass) else None
  {
    var r, key := Fresh(), LowerStr(shortname);
    if key != DefaultName {
      assert key !in r.classmap;
    }
  }

  /** The built-in key is its own lower-case form. */
  lemma DefaultNameIsLower()
    ensures LowerStr(DefaultName) == DefaultName
  {
    DefaultNameHasNoUpper();
    LowerStrIsLower(DefaultName);
  }

  lemma DefaultNameHasNoUpper()
    ensures IsLowerStr(DefaultName)
  {
  }

  /** After storing a class, every case variant of the name reads it back. */
  lemma SetThenGet(r: Registry, n: string, m: string, c: string)
    requires SameName(m, n)
    ensures GetIteratorClass(SetIteratorClass(r, n, Some(c)), m) == Some(c)
  {
  }

  /** Storing `NULL` makes every case variant of the name read as a miss,
      although the key is present. */
  lemma SetNullReadsAsMiss(r: Registry, n: string, m: string)
    requires SameName(m, n)
    ensures LowerStr(m) in SetIteratorClass(r, n, None).classmap
    ensures GetIteratorClass(SetIteratorClass(r, n, None), m) == None
  {
  }

  /** Of two writes to the same name, only the second remains. */
  lemma LastWriteWins(r: Registry, n1: string, n2: string, c1: Option<string>, c2: Option<string>)
    requires SameName(n1, n2)
    ensures SetIteratorClass(SetIteratorClass(r, n1, c1), n2, c2) == SetIteratorClass(r, n2, c2)
  {
  }

  /** A write under one name does not change what any other name reads. */
  lemma SetLeavesOthers(r: Registry, n: string, m: string, c: Option<string>)
    requires !SameName(m, n)
    ensures GetIteratorClass(SetIteratorClass(r, n, c), m) == GetIteratorClass(r, m)
  {
  }

  /** Lookup gives the same answer for a name and for its lower-case form. */
  lemma GetIsCaseInsensitive(r: Registry, s: string)
    ensures GetIteratorClass(r, s) == GetIteratorClass(r, LowerStr(s))
  {
    LowerStrIdempotent(s);
  }

  /** The process-wide state behind `go()`: the registry, once created. */
  datatype Process = Process(singleton: Option<Registry>)

  /** Returns the shared registry, creating a fresh one on the first call
      only. */
  function Go(p: Process): (res: (Process, Registry))
    ensures res.0.singleton == Some(res.1)
    ensures p.singleton.Some? ==> res.0 == p
    ensures p.singleton.None? ==> res.1 == Fresh()
  {
    match p.singleton
    case Some(r) => (p, r)
    case None => (Process(Some(Fresh())), Fresh())
  }

  /** A second call to `go()` returns the registry the first call did. */
  lemma GoReturnsSameRegistry(p: Process)
    ensures Go(Go(p).0) == Go(p)
  {
  }
}
