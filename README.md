# Universals: the Universe registry, modelled in Dafny

The Ruby gem `universals` provides one class, `Universals::Universe`. It is a
registry shared across an application. It keeps its values in a Hash (`@values`)
under String keys, in insertion order. Every key must be a Ruby method name.
A value that responds to `call` is resolved lazily: the first read calls it and
stores the result in its place. Values can also be read and written as
properties (`universe.name`, `universe.name = x`) through `method_missing`.

The model has four modules:

- `Wrappers` (`wrappers.dfy`): `Option`, `Result` and `Outcome`.
- `OrderedMap` (`ordered_map.dfy`): the part of Ruby's Hash the class relies on.
  It is an association list. `Put` overwrites a present key in place and appends
  a new one. `Fetch` is `Hash#fetch` with a default. `KeyFor` is `Hash#key`.
  `Keys` and `Values` give the keys and values in insertion order. `PutAll` is a
  series of `Put`s.
- `Names` (`names.dfy`): `validate_name`. `Key` is either a String (`Name`) or
  any other object (`NonString`). `ValidName` is the pattern
  `[A-Za-z_][A-Za-z_0-9]*[?!]?` matched against the whole string. `ValidateName`
  returns the error `validate_name` raises, with one of its two reasons.
- `Universals` (`universe.dfy`): the stored `Value`s. A `Proc(id, result)` is a
  callable that produces `result`. This module also holds the specification
  functions `Read` (get_property), `Write` (set_property), `WriteAll` (set) and
  `RouteName` (the name rule of method_missing), the lemmas about them, and
  class `Universe`. The class's field `entries` is `@values`. Its ghost field
  `calls` logs the ids of the procs it has called. Each method's postcondition
  ties the new `entries` and `calls` to the specification functions.

`scenarios.dfy` (module `UniverseScenarios`) replays the scenarios of
`test/unit/test_universe.rb` as client methods. Those methods use only the
class's contracts and the lemmas.

Two behaviours of the code are easy to miss:

- A read of an absent key with a callable default changes the registry. It
  calls the default and stores the result under that key, without validating
  the key.
- `each` yields the stored pairs as they are, so a callable that has not been
  read yet is yielded unresolved.

Errors are values: `Names.InvalidKey` is the rejection `validate_name` raises
(the key and whether it was not a String or not a method name), and
`Universals.Error` is either that rejection as a `UniversalsError` or the
`NoMethodError` of `method_missing`.

The aliases `[]`, `[]=` and `include?` are the same methods as `get_property`,
`set_property` and `has_property?`, so they have no members of their own.

## Model

| member | source | states |
|---|---|---|
| `OrderedMap.Find` | lib/universals/universe.rb:34-36 | the key lookup of the Hash: the first position holding the key, or none exactly when no entry has that key |
| `OrderedMap.Contains` | lib/universals/universe.rb:35 | `include?`: true exactly when some entry has the key |
| `OrderedMap.Lookup` | lib/universals/universe.rb:45 | the value stored under a key is found exactly when the key is present, and it is the value of that key's entry |
| `OrderedMap.Fetch` | lib/universals/universe.rb:45 | `fetch(key, default)`: the stored value when the key is present, otherwise the default |
| `OrderedMap.Put` | lib/universals/universe.rb:57 | `@values[key] = value` (also the write-back at line 48): the key then holds the value, the size grows only for a new key, and every entry of another key stays where it was |
| `OrderedMap.PutLookupSame` | lib/universals/universe.rb:57 | after `@values[key] = value` the key holds the value |
| `OrderedMap.PutLookupOther` | lib/universals/universe.rb:57 | assignment changes no other key's value or presence |
| `OrderedMap.PutShape` | lib/universals/universe.rb:55-58 | overwriting keeps the key list, the position and the size; a new key is appended, so the size grows by one; other entries are unchanged |
| `OrderedMap.PutDistinct` | lib/universals/universe.rb:57 | assignment keeps each key present only once |
| `OrderedMap.DistinctSize` | lib/universals/universe.rb:79-81 | the number of entries equals the number of distinct keys |
| `OrderedMap.FindValue` | lib/universals/universe.rb:88-90 | the first position whose stored value equals the given one, or none exactly when no value matches |
| `OrderedMap.KeyForSpec` | lib/universals/universe.rb:88-90 | `Hash#key` returns nil exactly when no stored value equals `v`, and otherwise the key of the first entry holding `v` |
| `OrderedMap.KeyFor` | lib/universals/universe.rb:89 | `Hash#key`: nil exactly when no stored value equals `v`; otherwise the key of the first entry, in insertion order, holding `v` |
| `OrderedMap.PutAllOther` | lib/universals/universe.rb:68-70 | a batch leaves every key it does not mention as it was |
| `OrderedMap.PutAllLookup` | lib/universals/universe.rb:68-70 | after a batch with distinct keys, each of its keys holds its batch value |
| `OrderedMap.PutAllFresh` | lib/universals/universe.rb:68-70 | a batch of distinct new keys is appended in its own order |
| `Names.ValidateName` | lib/universals/universe.rb:148-159 | passes exactly for a String that is a valid name; a failure names the key and says "not a String" exactly for a non-String |
| `Names.ValidName` | lib/universals/universe.rb:154 | the whole-string rule: a head character first, word characters in between, and a last character that is a word character, `?` or `!` |
| `Names.MatchesAsWritten` | lib/universals/universe.rb:154 | the pattern with Ruby's line anchors, defined as "some line of the key is a valid name"; its contract: every valid name passes it |
| `Names.LiteralIdentifierEquivalent` | lib/universals/universe.rb:154 | `[a-zA-Z_]+[a-zA-Z_0-9]*` read literally accepts exactly one head character followed by word characters |
| `Names.ValidNameNotAssignment` | lib/universals/universe.rb:154 | no valid name ends in `=`, so `p=` is rejected for every `p` |
| `Names.ValidNameHasNoNewline` | lib/universals/universe.rb:154 | a valid name under the whole-string rule contains no newline |
| `Names.ValidNameAgreesOnOneLine` | lib/universals/universe.rb:154 | the whole-string rule accepts nothing the source's pattern rejects, and on one-line strings the two agree |
| `Names.MultiLineKeyPassesAsWritten` | lib/universals/universe.rb:154 | the source's line-anchored pattern accepts `"1_method\nvalid"`, which is not a method name |
| `Names.TestSuiteRejections` | test/unit/test_universe.rb:169-191 | `"1_method"`, `"method-one"`, `"method[]"` and `"method="` fail as non-method names, and `123` fails as not a String |
| `Names.TestSuiteAcceptances` | lib/universals/universe.rb:154 | names with a leading underscore or a trailing `?` or `!` are accepted |
| `Universals.Read` | lib/universals/universe.rb:44-51 | get_property: at most one proc is called; if none is, the table is unchanged; a key present afterwards holds the value returned; an absent key with a non-callable default returns the default; a read of a present key keeps the key list |
| `Universals.Write` | lib/universals/universe.rb:55-58 | set_property: succeeds exactly for a valid key and then the key holds the value; otherwise it raises a UniversalsError naming the key and the reason |
| `Universals.WriteAll` | lib/universals/universe.rb:68-70 | set: passes exactly when every key of the batch is valid; a failure is the UniversalsError of an invalid key |
| `Universals.RouteName` | lib/universals/universe.rb:126-137 | method_missing's rule: a read exactly for a present name, and of that name; an assignment of `p` only for the name `p=`; unhandled exactly for an absent name that does not end in `=` |
| `Universals.FirstInvalid` | lib/universals/universe.rb:68-70 | the position of the first pair of a batch whose key is invalid; every earlier key is valid |
| `Universals.WriteSpec` | lib/universals/universe.rb:55-58 | set_property fails exactly for an invalid key, with validate_name's error; on success the key holds the value, an existing key keeps its position and the size is unchanged, a new key goes last, and no other key changes |
| `Universals.SetThenRead` | lib/universals/universe.rb:44-58 | after set_property of a non-callable value under a valid key, has_property? holds and get_property returns the value and changes nothing |
| `Universals.ReadAbsent` | lib/universals/universe.rb:44-51 | reading an absent key with a non-callable default returns the default, changes nothing and calls nothing |
| `Universals.LazyResolution` | lib/universals/universe.rb:45-49 | the first read of a stored proc calls it exactly once and stores its result at the same position, leaving other keys alone; the second read returns the same result and calls nothing |
| `Universals.CallableDefaultInserts` | lib/universals/universe.rb:45-48 | reading an absent key with a callable default calls it once and appends the result under that key unvalidated, so an invalid key can enter the registry |
| `Universals.ReadKeepsInvariants` | lib/universals/universe.rb:44-51 | every read keeps keys distinct; a read other than the callable-default case keeps all keys valid |
| `Universals.WriteKeepsInvariants` | lib/universals/universe.rb:55-58 | set_property keeps keys distinct and all keys valid |
| `Universals.WriteAllStopsAtFirstInvalid` | lib/universals/universe.rb:68-70 | set applies exactly the pairs before the first invalid key and raises that key's error; it succeeds exactly when every key is valid |
| `Universals.WriteAllKeepsInvariants` | lib/universals/universe.rb:68-70 | set keeps keys distinct and all keys valid |
| `Universals.WriteAllValidBatch` | test/unit/test_universe.rb:66-74 | a batch of valid, distinct keys succeeds; each key is then retrievable with its value, other keys are untouched, and new keys are appended so the size grows by the batch's length |
| `Universals.RouteAssignment` | lib/universals/universe.rb:126-137 | while all keys are valid, `p=` always routes to an assignment of `p` with the `=` stripped, and a present name routes to a read of itself |
| `Universals.Universe.constructor` | lib/universals/universe.rb:25-27 | a new registry is empty and has called nothing |
| `Universals.Universe.HasProperty` | lib/universals/universe.rb:34-36 | true exactly when some entry has the key; nothing is resolved |
| `Universals.Universe.GetProperty` | lib/universals/universe.rb:44-51 | the value returned, the new table and the procs called are those of `Read`, and the default is nil when omitted |
| `Universals.Universe.SetProperty` | lib/universals/universe.rb:55-58 | on a valid key, returns the value and assigns it as `Write` does; on an invalid key, returns validate_name's error and leaves the registry unchanged |
| `Universals.Universe.Set` | lib/universals/universe.rb:68-70 | the new table and the outcome are those of `WriteAll`: the pairs before the first failure are applied, the rest are not |
| `Universals.Universe.Each` | lib/universals/universe.rb:73-75 | the stored pairs as keys and values at each position, in insertion order, unresolved callables included |
| `Universals.Universe.Size` | lib/universals/universe.rb:79-81 | the number of distinct keys present |
| `Universals.Universe.KeyFor` | lib/universals/universe.rb:88-90 | nil exactly when no raw stored value equals `v`; otherwise the key of the first entry, in insertion order, holding `v` |
| `Universals.Universe.Keys` | lib/universals/universe.rb:94-96 | the keys in insertion order, as many as entries, each once |
| `Universals.Universe.Values` | lib/universals/universe.rb:100-102 | the raw stored values in insertion order, as many as entries |
| `Universals.Universe.Clear` | lib/universals/universe.rb:105-107 | the registry is empty afterwards, so a second clear changes nothing |
| `Universals.Universe.MethodMissing` | lib/universals/universe.rb:126-137 | a present name reads it with a nil default; otherwise a name ending in `=` assigns its first argument, or nil, under the stripped name through set_property's validation and returns the object itself; any other name raises NoMethodError and changes nothing |

## Left out

- The `Singleton` mixin and lazy `instance` creation (lib/universals/universe.rb:6, 19) are library behaviour. The model is an ordinary object that callers construct.
- `respond_to?` (lib/universals/universe.rb:114-116) reads `@hash`, which is never assigned, and depends on Ruby reflection.
- Ruby method dispatch in `method_missing` is not modelled: `name.to_s`, the `super` call and the dispatch itself. Only the name rule is modelled, with NoMethodError as an `Error` value.
- `Enumerable` methods other than `each` are library-provided. `each` is modelled as the snapshot of pairs it iterates over. The block and its effects are not modelled.
- The text of error messages and the `UniversalsError` class are not modelled. Failure is an `Error` value that carries the key and the reason.
- Side effects of user callables, and callables that take arguments, are not modelled. A callable produces a fixed value.
- Ruby object equality and hashing for keys and values are not modelled. Non-String keys and values such as floats are opaque tags. A proc is equal only to itself.
- `set` returns its argument Hash on success. The model returns `Pass`. Its argument is a sequence of pairs, which may repeat a key where a Hash cannot.
- lib/universals/version.rb holds only version constants.
- The code has no thread safety, and the model treats every operation as atomic.
- Universals.LazyResolution: stated only for a proc whose result is not callable itself. When the result is callable, `Read` stores it, and the next read calls it in turn. `Read` models that, but the lemma does not state it.

## Findings

| source | as written | input that shows it | evidently intended | confidence | as-written member | corrected member |
|---|---|---|---|---|---|---|
| lib/universals/universe.rb:154 | `/^[a-zA-Z_]+[a-zA-Z_0-9]*[\?!]?$/.match(name)`: in Ruby, `^` and `$` match at line boundaries, so a key passes if any one of its lines is a method name | `set_property("1_method\nvalid", v)` is accepted | the whole key must be a method name (`\A…\z`) | high; not executed | `Names.MultiLineKeyPassesAsWritten` | `Names.ValidNameHasNoNewline` |

The rest of the model validates keys with the whole-string rule `Names.ValidName`.
`Names.ValidNameAgreesOnOneLine` shows that this rule differs from the source's
pattern only on keys that contain a newline.
