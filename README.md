# Canonicalized maps and zipped iterables

This project is a Dafny model of two collection classes from Dart's
`collection` package, in the JavaScript that the Dart dev compiler emits for
them.

- **`CanonicalizedMap<C, K, V>`** is a map whose keys are compared through a
  caller-supplied `canonicalize: K -> C`.
  - It keeps a backing Dart map `_base` from canonical keys to `Pair(key,
    value)`, so the original key survives next to its value.
  - Reads, writes and removals pass through the gate `_isValidKey`. The gate
    accepts a key when it is null or a `K`, and when the optional `isValidKey`
    callback (if there is one) accepts it.
  - A write goes to the slot of the key's canonical form, and the last write
    to a slot wins.
  - `putIfAbsent` skips the gate.
- **`IterableZip` / `_IteratorZip`** walk several sources in lockstep.
  - Every `iterator` holds one fresh iterator per source.
  - `moveNext` advances them in order. It stops at the first one that has run
    out, setting `current` to null and answering false. Otherwise it builds a
    new row of their current elements.

The files:

- `optional.dfy` — `Option`. `None` plays the part of the `null` that a lookup
  returns.
- `linked_map.dfy` — Dart's default `Map`, a linked hash map, as an
  insertion-ordered association list.
  - Writing an existing key replaces its entry in place; writing a new key
    appends an entry.
  - `remove` deletes the entry and leaves the order of the others alone.
- `canonicalized_map.dfy` — the gate and the key tests (`Config`), the backing
  map after `set` and `addAll` as value functions with their lemmas, and the
  class `CanonicalizedMap`.
  - The class has one mutable field `base`.
  - The mutators are methods that state the new `base`.
  - The read-only members are functions of `base`.
  - The invariant `Valid()` is `Canonical`: every slot is the canonical form
    of the key it keeps, and no slot occurs twice. Every mutator preserves it.
- `iterable_zip.dfy` covers the zip. Its parts:
  - `SeqIterator` is a Dart iterator over a finite source. Its position is the
    number of `moveNext` calls it has had, capped one past the end. Once it
    answers false it keeps answering false.
  - `IteratorZip` (`_IteratorZip`) has the two loops of `moveNext` over the
    iterators it owns.
  - Its `moveNext` is proved against `Step`, a pure function of the positions
    of the iterators and `current`.
  - `Trace` (k successive calls) and the lemmas about it give the whole run:
    `MinLength` rows, then only false answers.
  - `IterableZip` is a value: its `Iterator` method makes the fresh iterators.

Nothing in the model performs I/O.
- Two values are parameters of a `Config`: the runtime type test
  `dart.is(key, K)` (`isK`) and the test `key == null` (`isNull`).
- The callbacks `canonicalize`, `isValidKey` and `ifAbsent` are pure
  functions.

## Model

| member | source | states |
|---|---|---|
| CanonicalizedMaps.Config.IsValidKey | test/codegen/expect/collection/src/canonicalized_map.js:107-109 | The gate is true exactly when the key is null or a `K` and there is no validator. With a validator, it is true exactly when the key is null or a `K` and the validator also accepts it. A valid key always passes the type test. |
| CanonicalizedMaps.SetBase | test/codegen/expect/collection/src/canonicalized_map.js:35-43 | `set` on an invalid key leaves the backing map unchanged. A valid key makes slot `canonicalize(key)` answer `Pair(key, value)`. The backing map grows by one entry exactly when the key is valid and its slot was empty. |
| CanonicalizedMaps.SetKeepsCanonical | test/codegen/expect/collection/src/canonicalized_map.js:40 | `set` preserves the slot invariant: every slot is the canonical form of its stored key, and slots are distinct. |
| CanonicalizedMaps.SetKeepsOtherSlots | test/codegen/expect/collection/src/canonicalized_map.js:40 | `set` changes no slot other than that of its own key. |
| CanonicalizedMaps.LastWriteWins | test/codegen/expect/collection/src/canonicalized_map.js:30-43 | Take two valid writes to keys of one canonical class. Afterwards every valid key of that class reads the second pair (key and value), and the second write takes no new slot. |
| CanonicalizedMaps.LastWriteWinsFromEmpty | test/codegen/expect/collection/src/canonicalized_map.js:35-43 | Starting from an empty map, two same-class writes leave exactly one entry: the canonical slot holding the second key and value. |
| CanonicalizedMaps.CaseInsensitiveScenario | test/codegen/expect/collection/src/canonicalized_map.js:30-43 | With lower-casing as the canonical form, `set("Foo", 1)` then `set("foo", 2)` leaves the single entry `"foo"` holding 2, and `get("FOO")` finds it. |
| CanonicalizedMaps.AddAllBase | test/codegen/expect/collection/src/canonicalized_map.js:44-51 | The backing map after `addAll(other)`: `set` on each entry of `other` in its enumeration order, so it gains at most one entry per entry of `other`. What each slot then holds is stated by `AddAllLookup`, and the invariant it keeps by `AddAllKeepsCanonical`. |
| CanonicalizedMaps.LastWrite | test/codegen/expect/collection/src/canonicalized_map.js:44-51 | The pair of the last valid entry of a source in a given canonical class: None exactly when the class has no valid entry. Otherwise it is that entry, and no later entry in the class is valid. |
| CanonicalizedMaps.AddAllLookup | test/codegen/expect/collection/src/canonicalized_map.js:44-51 | After `addAll(other)`, a slot holds the last valid entry of `other` in its class. If `other` has none, the slot holds what it held before. |
| CanonicalizedMaps.AddAllKeepsCanonical | test/codegen/expect/collection/src/canonicalized_map.js:44-51 | `addAll` preserves the slot invariant. |
| CanonicalizedMaps.AddAllFromEmpty | test/codegen/expect/collection/src/canonicalized_map.js:23-29 | The map built by `from(other)` satisfies the invariant, and every slot holds the last valid `other` entry of its class. |
| CanonicalizedMaps.CanonicalizedMap.constructor | test/codegen/expect/collection/src/canonicalized_map.js:17-22 | A new map is empty, keeps the callbacks it was given, and satisfies the invariant. |
| CanonicalizedMaps.CanonicalizedMap.From | test/codegen/expect/collection/src/canonicalized_map.js:23-29 | `from(other)` keeps the callbacks it was given and ends with the backing map of `addAll(other)` applied to an empty map. |
| CanonicalizedMaps.CanonicalizedMap.Get | test/codegen/expect/collection/src/canonicalized_map.js:30-34 | `get` answers a value exactly when the key passes the gate and its canonical slot is occupied. The value is the `last` of the pair in that slot. |
| CanonicalizedMaps.CanonicalizedMap.Set | test/codegen/expect/collection/src/canonicalized_map.js:35-43 | `set` returns `value` whether or not the key is valid, and the new backing map is `SetBase` of the old one. An invalid key changes nothing. After a valid write, every valid key with the same canonical form reads `value`. The invariant is kept. |
| CanonicalizedMaps.CanonicalizedMap.AddAll | test/codegen/expect/collection/src/canonicalized_map.js:44-51 | `addAll(other)` leaves the same backing map as `set` on each entry of `other` in order, and keeps the invariant. |
| CanonicalizedMaps.CanonicalizedMap.Clear | test/codegen/expect/collection/src/canonicalized_map.js:52-54 | `clear` empties the backing map and keeps the invariant. |
| CanonicalizedMaps.CanonicalizedMap.ContainsKey | test/codegen/expect/collection/src/canonicalized_map.js:55-58 | `containsKey` is true exactly when the key passes the gate and some slot equals its canonical form, that is, exactly when `get` finds a value. |
| CanonicalizedMaps.CanonicalizedMap.ContainsValue | test/codegen/expect/collection/src/canonicalized_map.js:59-64 | `containsValue(v)` is true exactly when some stored pair's `last` is `v`. Keys play no part. |
| CanonicalizedMaps.CanonicalizedMap.Keys | test/codegen/expect/collection/src/canonicalized_map.js:79-84 | `keys` has one element per entry: the original key of each pair, in backing-map order. Under the invariant each key's canonical form is its slot, and no two keys share a canonical form. |
| CanonicalizedMaps.CanonicalizedMap.Values | test/codegen/expect/collection/src/canonicalized_map.js:98-103 | `values` has one element per entry: the value of each pair, in backing-map order. |
| CanonicalizedMaps.CanonicalizedMap.ForEach | test/codegen/expect/collection/src/canonicalized_map.js:65-72 | `forEach` makes `length` calls, and call `i` receives the `i`-th key and the `i`-th value, which come from the same pair. |
| CanonicalizedMaps.CanonicalizedMap.Length | test/codegen/expect/collection/src/canonicalized_map.js:85-87 | `length` equals the number of keys and the number of values. |
| CanonicalizedMaps.CanonicalizedMap.IsEmpty | test/codegen/expect/collection/src/canonicalized_map.js:73-75 | `isEmpty` holds exactly when `length` is 0, that is, when there are no keys. |
| CanonicalizedMaps.CanonicalizedMap.IsNotEmpty | test/codegen/expect/collection/src/canonicalized_map.js:76-78 | `isNotEmpty` is the negation of `isEmpty`: `length` is positive. |
| CanonicalizedMaps.CanonicalizedMap.PutIfAbsent | test/codegen/expect/collection/src/canonicalized_map.js:88-92 | No gate is applied. If the slot is occupied, `putIfAbsent` returns the stored value and changes nothing. Otherwise it appends `Pair(key, ifAbsent())`, grows `length` by one and returns the produced value. The invariant is kept. |
| CanonicalizedMaps.CanonicalizedMap.Remove | test/codegen/expect/collection/src/canonicalized_map.js:93-97 | `remove` returns what `get` answered before. An invalid key changes nothing. A valid key deletes only its slot, leaving the other entries in order, and the key is absent afterwards. The invariant is kept. |
| LinkedMap.IndexOf | test/codegen/expect/collection/src/canonicalized_map.js:32 | The lookup in the backing map finds the first entry for a key, and finds nothing exactly when there is no entry for it. |
| LinkedMap.ContainsKey | test/codegen/expect/collection/src/canonicalized_map.js:57 | `_base.containsKey(c)` is true exactly when some entry has key `c`. |
| LinkedMap.Get | test/codegen/expect/collection/src/canonicalized_map.js:32 | `_base[c]` answers a value exactly when `c` is a key. With distinct keys, the value is that of the entry for `c`. |
| LinkedMap.Put | test/codegen/expect/collection/src/canonicalized_map.js:40 | `_base[c] = p` makes `c` read `p`. An existing entry is overwritten in place and every other entry is unchanged. A new key is appended at the end. Distinct keys stay distinct. |
| LinkedMap.PutOther | test/codegen/expect/collection/src/canonicalized_map.js:40 | A write leaves the lookup of every other key unchanged. |
| LinkedMap.Remove | test/codegen/expect/collection/src/canonicalized_map.js:95 | `_base.remove(c)` returns the old lookup of `c`. With no entry for `c` it changes nothing. Otherwise it cuts exactly that entry out. Distinct keys stay distinct, and `c` is gone. |
| LinkedMap.RemoveOther | test/codegen/expect/collection/src/canonicalized_map.js:95 | In a map with distinct keys, a removal leaves the lookup of every other key unchanged. |
| LinkedMap.Values | test/codegen/expect/collection/src/canonicalized_map.js:60 | `_base.values` lists the entries' values in entry order. |
| IterableZips.SeqIterator.constructor | test/codegen/expect/collection/src/iterable_zip.js:17 | A source's iterator starts before its first element. |
| IterableZips.SeqIterator.MoveNext | test/codegen/expect/collection/src/iterable_zip.js:36 | A source iterator's `moveNext` answers true exactly when an element is left, and moves one on. Once it has answered false it stays there. |
| IterableZips.SeqIterator.Current | test/codegen/expect/collection/src/iterable_zip.js:43 | A source iterator's `current` is the element it is on, and is null before the first element and after the end. |
| IterableZips.FailAt | test/codegen/expect/collection/src/iterable_zip.js:35-36 | The first iterator, from a given index on, whose `moveNext` answers false, or the number of sources if there is none. |
| IterableZips.Advanced | test/codegen/expect/collection/src/iterable_zip.js:35-40 | The positions after the first loop has called `moveNext` on iterators `0..f`: each of those has moved as one `moveNext` moves it, and the iterators after `f` are untouched. |
| IterableZips.CurrentRow | test/codegen/expect/collection/src/iterable_zip.js:41-44 | The row the second loop builds: one element per source, element `j` being the current element of iterator `j`. |
| IterableZips.Step | test/codegen/expect/collection/src/iterable_zip.js:33-46 | One `moveNext` of the zip. With no sources it leaves everything as it is and answers false. It answers true exactly when every iterator has an element left. Then `current` is the row of their elements in source order and every iterator is one on. A false answer with sources sets `current` to null. |
| IterableZips.StepFailure | test/codegen/expect/collection/src/iterable_zip.js:35-40 | On a false answer, the iterators before the first exhausted one `f` have moved one element on, and `f` has answered false. The iterators after `f` are untouched. |
| IterableZips.StepStopsAt | test/codegen/expect/collection/src/iterable_zip.js:35-40 | Conversely, iterators that stopped at `i` in that way are exactly the state a failing `moveNext` leaves, with `current` null. |
| IterableZips.StepAdvancesAll | test/codegen/expect/collection/src/iterable_zip.js:41-45 | Conversely, when all iterators have moved once, the state and row are exactly what a successful `moveNext` leaves. |
| IterableZips.Trace | test/codegen/expect/collection/src/iterable_zip.js:33-46 | `k` successive `moveNext` calls give `k` answers, each with the `current` it leaves. `TraceUnfold` states that the first is one `Step` and the rest continue from the state it leaves. |
| IterableZips.MinLength | test/codegen/expect/collection/src/iterable_zip.js:33-46 | The length of the shortest source: no source is shorter, one has that length, and it is 0 with no sources. |
| IterableZips.RowAt | test/codegen/expect/collection/src/iterable_zip.js:41-44 | Row `r` holds element `r` of every source, in source order. |
| IterableZips.Initial | test/codegen/expect/collection/src/iterable_zip.js:29-32 | A fresh zip iterator has every iterator before its first element and no row. |
| IterableZips.ExhaustedStaysExhausted | test/codegen/expect/collection/src/iterable_zip.js:35-40 | Once some source iterator has answered false, every `moveNext` answers false, sets `current` to null, and the zip stays exhausted. |
| IterableZips.FalseExhausts | test/codegen/expect/collection/src/iterable_zip.js:35-40 | A false answer from a zip with sources leaves it exhausted. |
| IterableZips.TraceExhausted | test/codegen/expect/collection/src/iterable_zip.js:33-46 | From an exhausted zip, every later call answers false with no row. |
| IterableZips.TraceNoSources | test/codegen/expect/collection/src/iterable_zip.js:34 | With no sources, every call answers false and `current` never changes. |
| IterableZips.TraceFrom | test/codegen/expect/collection/src/iterable_zip.js:33-46 | Start with all iterators at position `p`, no further than the shortest length. Call `i` yields row `p + i` while that is below the shortest length, and false with no row from then on. |
| IterableZips.TraceUnfold | test/codegen/expect/collection/src/iterable_zip.js:33-46 | The first of `k` calls is one `moveNext`, and the remaining calls continue from the state it leaves. |
| IterableZips.StepInLockstep | test/codegen/expect/collection/src/iterable_zip.js:41-45 | From all iterators at position `p` below the shortest length, a call yields row `p` and moves every iterator to `p + 1`. |
| IterableZips.ZipTrace | test/codegen/expect/collection/src/iterable_zip.js:33-46 | For a fresh zip iterator, call `i` answers true exactly when `i` is below the length of the shortest source, with `current` holding row `i`. Every later call answers false with `current` null. |
| IterableZips.SingleSource | test/codegen/expect/collection/src/iterable_zip.js:41-44 | With one source, row `i` is the one-element list holding its element `i`, until the source runs out. |
| IterableZips.ShortestOfThree | test/codegen/expect/collection/src/iterable_zip.js:33-46 | Sources of lengths 3, 5 and 2 give exactly two rows, each in source order, and then only false answers. |
| IterableZips.IteratorZip.constructor | test/codegen/expect/collection/src/iterable_zip.js:29-32 | `new _IteratorZip(iterators)` keeps the iterators it is given and starts with `current` null. |
| IterableZips.IteratorZip.MoveNext | test/codegen/expect/collection/src/iterable_zip.js:33-46 | Both loops of `moveNext` move the answer, the iterators' positions and `current` exactly as `Step` says, and keep the zip iterator well formed. |
| IterableZips.IterableZip.Iterator | test/codegen/expect/collection/src/iterable_zip.js:16-19 | The `iterator` getter returns a new zip iterator whose iterators are fresh, one per source and in source order, each before its first element, with `current` null. |
| IterableZips.IndependentIterators | test/codegen/expect/collection/src/iterable_zip.js:16-19 | Two iterators of one zip own disjoint iterators. Moving the first once leaves it one step on and leaves the second at the start. |

## Left out

- `toString` (`Maps.mapToString`) is a formatting helper outside the class, and `Maps` is not part of this model.
- The Dart runtime calls are not modelled as operations:
  - `dart.generic`, `dart.setSignature`, `dart.implements` and `dart.defineExtensionMembers` are plumbing;
  - `dart.dcall` is a plain call of the callback;
  - `dart.is(key, K)` and `key == null` are the `isK` and `isNull` parameters of a `Config`.
- CanonicalizedMaps.CanonicalizedMap.Set: the checked casts `dart.as(key, K)` become the precondition that the key is null or a `K`. The type error a failing cast throws is not modelled. The same applies to `From`, `AddAll` and `PutIfAbsent`.
- CanonicalizedMaps.CanonicalizedMap.Get: the result is an `Option`. A stored value `v` reads `Some(v)`, even when `v` stands for Dart's `null`; only an invalid key or an empty slot reads `None`. Dart returns `null` in both cases (`pair == null ? null : pair.last`), so the model distinguishes two cases that the program does not. The same holds for `Remove`.
- CanonicalizedMaps.CanonicalizedMap.PutIfAbsent: `ifAbsent` is a pure function, so any side effects it has are not modelled. Because this method skips the gate, it can store a key that `get` and `containsKey` then reject. The model allows this, as the code does.
- CanonicalizedMaps.CanonicalizedMap.ForEach: it returns the sequence of arguments the callback receives. What the callback does, and any failure it raises, are outside the model.
- `keys` and `values` are lazy live views in Dart. Here they are sequences computed from the current state, and changing the map while iterating over them is not modelled.
- `containsValue` uses Dart's `==` on values. It is modelled as Dafny equality on `V`.
- `IterableZip` extends `IterableBase`, and its iterators are collected with `toList({growable: false})`. Only "one fresh iterator per source, in order" is kept. The other `Iterable` members inherited from `IterableBase` are not part of this model.
- IterableZips.SeqIterator: Dart iterators over arbitrary `Iterable`s are modelled as iterators over finite sequences. Infinite or lazily generated sources, and their side effects, are not modelled. Neither is changing a source while it is being iterated.
- IterableZips.IteratorZip.MoveNext: `current` is a Dafny sequence value, so the freshness of the new row (it shares nothing with earlier rows) holds by construction and is not stated separately.
- The `current` getter of `_IteratorZip` is the field `current` itself.
