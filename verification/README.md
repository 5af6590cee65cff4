# Splash transform-name registry, in Dafny

Splash composes lazy PHP iterator pipelines; a stage can be requested by a
short transform name, which `SplashRegistry` resolves to an iterator class
name. This project models that registry (`src/SplashRegistry.php`) and
proves its behaviour:

- a fresh registry holds one entry, `inverseregex` →
  `\Splash\Iterator\InverseRegexIterator`;
- `getIteratorClass` lower-cases the name (`strtolower`) and returns the
  stored class, or `FALSE` when the key is missing or its value is `NULL`
  (the source tests the entry with `isset`);
- `setIteratorClass` lower-cases the name and overwrites unconditionally;
- `go()` hands out one shared registry, created on the first call.

Files:

- `wrappers.dfy` — `Option`: `None` is PHP `NULL` as a stored value and
  `FALSE` as a lookup result.
- `ascii.dfy` — `Lower`/`LowerStr`, an ASCII-only `strtolower`, and an
  independent position-by-position case-insensitive equality
  `EqualsIgnoreCase`, proved equivalent to comparing lower-cased forms.
- `registry.dfy` — the registry as an immutable value
  `Registry(classmap: map<string, Option<string>>)`, with `Fresh`,
  `GetIteratorClass`, `SetIteratorClass`, the key invariant `Normalized`,
  the `go()` singleton as a `Process` value, and the properties of single
  calls.
- `history.dfy` — a registry as a fresh start followed by a sequence of
  `setIteratorClass` calls (`Replay`), and a reference answer for lookups
  (`Expected`: last matching write, else the built-in entry, else a miss)
  proved to agree with lookup on every history.

Mutation is modelled functionally: `SetIteratorClass` returns the updated
registry, and `GetIteratorClass` is a function of the registry, so a lookup
never modifies the map. The process-wide `static $singleton` of `go()` is
passed explicitly as a `Process` value.

A key stored with a `NULL` value is present, but lookup reports `FALSE`
for it, because `getIteratorClass` tests the entry with `isset`
(`src/SplashRegistry.php:28`); see `SetNullReadsAsMiss`.

## Model

| member | source | states |
|---|---|---|
| Ascii.Lower | src/SplashRegistry.php:27 | the result is never an upper-case ASCII letter; an upper-case letter becomes the lower-case letter 32 code points above it; every other character is returned unchanged, and only those |
| Ascii.LowerStr | src/SplashRegistry.php:27 | lower-casing keeps the length and lower-cases each character at its own position |
| Ascii.LowerStrIsLower | src/SplashRegistry.php:27 | a lower-cased string contains no upper-case letter, and a string is its own lower-case form exactly when it contains none |
| Ascii.LowerStrIdempotent | src/SplashRegistry.php:27 | lower-casing twice gives the same string as lower-casing once |
| Ascii.LowerCharIff | src/SplashRegistry.php:27 | two characters lower-case to the same character exactly when they are equal or differ only in ASCII case |
| Ascii.SameNameIff | src/SplashRegistry.php:27-29 | two names lower-case to the same key if and only if they are equal ignoring ASCII case, position by position |
| SplashRegistry.Fresh | src/SplashRegistry.php:14-16 | a new registry has exactly one key, `inverseregex`, mapped to `\Splash\Iterator\InverseRegexIterator`, and its keys are lower-case |
| SplashRegistry.GetIteratorClass | src/SplashRegistry.php:26-32 | on a registry whose keys are lower-case, lookup succeeds exactly when some stored key equals the name ignoring ASCII case and holds a non-null class, and then returns the class stored under that key; otherwise it reports a miss (`FALSE`) |
| SplashRegistry.KeyMatchesExactlyLowerForm | src/SplashRegistry.php:27-28 | in a registry whose keys are lower-case, a stored key equals a name ignoring case exactly when it is the lower-cased name, so lower-casing before the lookup finds every case variant |
| SplashRegistry.SetIteratorClass | src/SplashRegistry.php:34-36 | after a write the keys are the old keys plus the lower-cased name, that key holds the new value, every other key keeps its value, and lower-cased keys stay lower-cased |
| SplashRegistry.FreshLookup | src/SplashRegistry.php:14-29 | a fresh registry resolves a name to the built-in class exactly when the name equals `inverseregex` ignoring case, and misses otherwise |
| SplashRegistry.FreshLookupByKey | src/SplashRegistry.php:14-29 | a fresh registry resolves a name to the built-in class exactly when its lower-case form is `inverseregex`, and misses otherwise |
| SplashRegistry.DefaultNameIsLower | src/SplashRegistry.php:15 | the built-in key is already its own lower-case form, so the initial map satisfies the key invariant |
| SplashRegistry.SetThenGet | src/SplashRegistry.php:26-36 | after storing a non-null class under a name, every case variant of that name reads the class back |
| SplashRegistry.SetNullReadsAsMiss | src/SplashRegistry.php:26-36 | after storing `NULL` under a name, the key is present but every case variant of the name reads as a miss |
| SplashRegistry.LastWriteWins | src/SplashRegistry.php:34-36 | two writes to case variants of one name leave the same registry as the second write alone |
| SplashRegistry.SetLeavesOthers | src/SplashRegistry.php:26-36 | a write under one name does not change the lookup of any name that differs from it ignoring case |
| SplashRegistry.GetIsCaseInsensitive | src/SplashRegistry.php:26-32 | looking up a name and looking up its lower-case form give the same answer |
| SplashRegistry.Go | src/SplashRegistry.php:18-24 | after `go()` the process holds the returned registry; if one already existed it is returned and nothing changes, otherwise a fresh registry is created |
| SplashRegistry.GoReturnsSameRegistry | src/SplashRegistry.php:18-24 | a second `go()` returns the same registry as the first and leaves the process state unchanged |
| RegistryHistory.Replay | src/SplashRegistry.php:14-36 | every registry reachable from a fresh one by writes keeps all its keys lower-cased |
| RegistryHistory.ReplayMatchesReference | src/SplashRegistry.php:14-36 | after any sequence of writes, lookup returns the class of the last write whose name matches ignoring case (a miss if that class is `NULL`), else the built-in class for `inverseregex`, else a miss |
| RegistryHistory.MissIsReported | src/SplashRegistry.php:28-31 | a name never written under any case variant, and not the built-in one, is reported as a miss after any sequence of writes |
| RegistryHistory.LastMatchingCallDecides | src/SplashRegistry.php:26-36 | if write `i` is the last one whose name matches ignoring case, lookup returns exactly the value that write stored |

## Left out

- `strtolower` is modelled as ASCII-only: locale-dependent lower-casing of
  other characters, and the byte-string nature of PHP strings, are not
  modelled (characters outside `A`..`Z` are left unchanged).
- PHP's conversion of integer-like string keys (`"1"` to `1`) is not
  modelled: it is applied identically on write and lookup, so it does not
  change which writes a lookup sees.
- Values other than a string or `NULL` (`setIteratorClass` accepts any PHP
  value; `FALSE`, numbers and objects pass `isset` like strings) are not
  modelled; the class value is `Option<string>`.
- Whether a stored class name denotes a real, instantiable iterator class
  is not checked by the registry and is not modelled.
- The `Splash` chain class, its stages (diff, unique, regex, directory
  walks) and the fallback from a registry miss to a literal class name are
  not part of this model; `src/Tests/BasicTest.php` exercises them and is
  not modelled either.
- Concurrency and object identity of the singleton: `go()` is modelled as
  a function of an explicit process state, not as a shared object.

- SplashRegistry.GetIteratorClass: its contract describes lookup only on
  registries whose keys are lower-case; every registry reachable from a
  fresh one has that property (`RegistryHistory.Replay`), so nothing
  reachable is left undescribed.
