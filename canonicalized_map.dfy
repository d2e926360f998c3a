/**
  A map whose keys are compared through a canonical form: every key `k` is
  stored under the slot `canonicalize(k)` of a backing linked map, together
  with the original key, so that keys with the same canonical form share one
  slot and the last write to a slot decides both its key and its value.
 */
module CanonicalizedMaps {
  import opened Optional
  import LinkedMap

  /** What a slot holds: the original key (`first`) and the value (`last`). */
  datatype Pair<K, V> = Pair(first: K, last: V)

  /**
    The callbacks a map is built with, and the runtime's two type tests on
    keys. The key type `K` here is every value a caller may pass as a key,
    `isNull` is the test `key == null` and `isK` the runtime test that the key
    is an instance of the map's declared key type.
   */
  datatype Config<C, !K> = Config(
    canonicalize: K -> C,
    isNull: K -> bool,
    isK: K -> bool,
    isValidKeyFn: Option<K -> bool>)
  {
    /**
      The gate `_isValidKey` that reads, writes and removals pass through: the
      key is null or a `K`, and the validator, if there is one, accepts it.
     */
    function IsValidKey(key: K): (valid: bool)
      ensures valid ==> IsTyped(key)
      ensures isValidKeyFn.None? ==> (valid <==> IsTyped(key))
      ensures isValidKeyFn.Some? ==> (valid <==> IsTyped(key) && isValidKeyFn.value(key))
    {
      (isNull(key) || isK(key)) && (isValidKeyFn.None? || isValidKeyFn.value(key))
    }

    /** The keys the checked cast to the key type lets through. */
    predicate IsTyped(key: K) {
      isNull(key) || isK(key)
    }
  }

  /** The backing map, from canonical keys to pairs, in enumeration order. */
  type Base<C, K, V> = LinkedMap.Entries<C, Pair<K, V>>

  /** Every slot is the canonical form of the key it keeps, and slots are distinct. */
  ghost predicate Canonical<C, K, V>(cfg: Config<C, K>, base: Base<C, K, V>) {
    && LinkedMap.DistinctKeys(base)
    && forall i :: 0 <= i < |base| ==> base[i].0 == cfg.canonicalize(base[i].1.first)
  }

  /** The backing map after `set(key, value)`. */
  function SetBase<C(==), K, V>(cfg: Config<C, K>, base: Base<C, K, V>, key: K, value: V): (r: Base<C, K, V>)
    ensures !cfg.IsValidKey(key) ==> r == base
    ensures cfg.IsValidKey(key) ==> LinkedMap.Get(r, cfg.canonicalize(key)) == Some(Pair(key, value))
    ensures |r| == if cfg.IsValidKey(key) && !LinkedMap.ContainsKey(base, cfg.canonicalize(key))
                   then |base| + 1 else |base|
  {
    if cfg.IsValidKey(key) then LinkedMap.Put(base, cfg.canonicalize(key), Pair(key, value)) else base
  }

  lemma SetKeepsCanonical<C, K, V>(cfg: Config<C, K>, base: Base<C, K, V>, key: K, value: V)
    requires Canonical(cfg, base)
    ensures Canonical(cfg, SetBase(cfg, base, key, value))
  {
    var r := SetBase(cfg, base, key, value);
    if cfg.IsValidKey(key) {
      var c := cfg.canonicalize(key);
      forall i | 0 <= i < |r| ensures r[i].0 == cfg.canonicalize(r[i].1.first) {
        if i < |base| && base[i].0 != c {
          assert r[i] == base[i];
        } else {
          assert r[i].0 == c;
          assert LinkedMap.Get(r, c) == Some(r[i].1);
        }
      }
    }
  }

  /** A write touches only the slot of its own key. */
  lemma SetKeepsOtherSlots<C, K, V>(cfg: Config<C, K>, base: Base<C, K, V>, key: K, value: V, c: C)
    requires c != cfg.canonicalize(key)
    ensures LinkedMap.Get(SetBase(cfg, base, key, value), c) == LinkedMap.Get(base, c)
  {
    if cfg.IsValidKey(key) {
      LinkedMap.PutOther(base, cfg.canonicalize(key), Pair(key, value), c);
    }
  }

  /**
    Two valid writes whose keys have the same canonical form: the second one
    decides the key and the value seen through every key of that form, and
    it takes no new slot.
   */
  lemma LastWriteWins<C, K, V>(cfg: Config<C, K>, base: Base<C, K, V>, k1: K, v1: V, k2: K, v2: V)
    requires cfg.IsValidKey(k1) && cfg.IsValidKey(k2)
    requires cfg.canonicalize(k1) == cfg.canonicalize(k2)
    ensures var r := SetBase(cfg, SetBase(cfg, base, k1, v1), k2, v2);
            && |r| == |SetBase(cfg, base, k1, v1)|
            && forall k3 :: cfg.IsValidKey(k3) && cfg.canonicalize(k3) == cfg.canonicalize(k1) ==>
                 LinkedMap.Get(r, cfg.canonicalize(k3)) == Some(Pair(k2, v2))
  {
  }

  /** Starting empty, `set(k1, v1)` then `set(k2, v2)` on one canonical class leaves one entry: `k2` and `v2`. */
  lemma LastWriteWinsFromEmpty<C, K, V>(cfg: Config<C, K>, k1: K, v1: V, k2: K, v2: V)
    requires cfg.IsValidKey(k1) && cfg.IsValidKey(k2)
    requires cfg.canonicalize(k1) == cfg.canonicalize(k2)
    ensures SetBase(cfg, SetBase(cfg, [], k1, v1), k2, v2) == [(cfg.canonicalize(k2), Pair(k2, v2))]
  {
    var r1 := SetBase(cfg, [], k1, v1);
    var r := SetBase(cfg, r1, k2, v2);
    assert r1 == [(cfg.canonicalize(k1), Pair(k1, v1))];
    assert |r| == 1 && r[0].0 == cfg.canonicalize(k2);
    assert LinkedMap.Get(r, cfg.canonicalize(k2)) == Some(r[0].1);
  }

  /** ASCII lower-casing, the canonical form of a case-insensitive map. */
  function Lower(s: string): (r: string)
    ensures |r| == |s|
  {
    seq(|s|, i requires 0 <= i < |s| => if 'A' <= s[i] <= 'Z' then (s[i] as int + 32) as char else s[i])
  }

  /**
    A case-insensitive map: `set("Foo", 1)` then `set("foo", 2)` leaves one
    entry, enumerated as `"foo"`, and `get("FOO")` answers 2.
   */
  lemma CaseInsensitiveScenario()
    ensures var cfg := Config(Lower, (_: string) => false, (_: string) => true, None);
            var r := SetBase(cfg, SetBase(cfg, [], "Foo", 1), "foo", 2);
            && r == [("foo", Pair("foo", 2))]
            && LinkedMap.Get(r, Lower("FOO")) == Some(Pair("foo", 2))
  {
    var cfg := Config(Lower, (_: string) => false, (_: string) => true, None);
    assert Lower("Foo") == "foo";
    assert Lower("foo") == "foo";
    assert Lower("FOO") == "foo";
    LastWriteWinsFromEmpty(cfg, "Foo", 1, "foo", 2);
  }

  /** The backing map after `addAll(other)`: `set` on each entry of `other` in its enumeration order. */
  function AddAllBase<C(==), K, V>(cfg: Config<C, K>, base: Base<C, K, V>, other: seq<(K, V)>): (r: Base<C, K, V>)
    ensures |r| <= |base| + |other|
    decreases |other|
  {
    if other == [] then base
    else
      var n := |other| - 1;
      SetBase(cfg, AddAllBase(cfg, base, other[..n]), other[n].0, other[n].1)
  }

  /** The pair of the last entry of `other` whose key is valid and has canonical form `c`. */
  function LastWrite<C(==), K, V>(cfg: Config<C, K>, other: seq<(K, V)>, c: C): (r: Option<Pair<K, V>>)
    ensures r.None? <==>
              forall i :: 0 <= i < |other| ==> !(cfg.IsValidKey(other[i].0) && cfg.canonicalize(other[i].0) == c)
    ensures r.Some? ==>
              exists i :: 0 <= i < |other| && cfg.IsValidKey(other[i].0) && cfg.canonicalize(other[i].0) == c
                          && r.value == Pair(other[i].0, other[i].1)
                          && forall j :: i < j < |other| ==>
                               !(cfg.IsValidKey(other[j].0) && cfg.canonicalize(other[j].0) == c)
    decreases |other|
  {
    if other == [] then None
    else
      var n := |other| - 1;
      var (k, v) := other[n];
      if cfg.IsValidKey(k) && cfg.canonicalize(k) == c then Some(Pair(k, v))
      else LastWrite(cfg, other[..n], c)
  }

  /**
    After `addAll(other)` a slot holds the pair of the last valid entry of
    `other` in its class, and keeps what it held before if there is none.
   */
  lemma {:induction false} AddAllLookup<C, K, V>(cfg: Config<C, K>, base: Base<C, K, V>, other: seq<(K, V)>, c: C)
    ensures LinkedMap.Get(AddAllBase(cfg, base, other), c) ==
              if LastWrite(cfg, other, c).Some? then LastWrite(cfg, other, c) else LinkedMap.Get(base, c)
    decreases |other|
  {
    if other != [] {
      var n := |other| - 1;
      var (k, v) := other[n];
      AddAllLookup(cfg, base, other[..n], c);
      if cfg.canonicalize(k) != c {
        SetKeepsOtherSlots(cfg, AddAllBase(cfg, base, other[..n]), k, v, c);
      }
    }
  }

  lemma {:induction false} AddAllKeepsCanonical<C, K, V>(cfg: Config<C, K>, base: Base<C, K, V>, other: seq<(K, V)>)
    requires Canonical(cfg, base)
    ensures Canonical(cfg, AddAllBase(cfg, base, other))
    decreases |other|
  {
    if other != [] {
      var n := |other| - 1;
      AddAllKeepsCanonical(cfg, base, other[..n]);
      SetKeepsCanonical(cfg, AddAllBase(cfg, base, other[..n]), other[n].0, other[n].1);
    }
  }

  /**
    Copying a map into an empty canonicalized map keeps exactly one entry per
    canonical class of the valid keys of the source, holding the last source
    entry of that class.
   */
  lemma AddAllFromEmpty<C, K, V>(cfg: Config<C, K>, other: seq<(K, V)>)
    ensures Canonical(cfg, AddAllBase(cfg, [], other))
    ensures forall c :: LinkedMap.Get(AddAllBase(cfg, [], other), c) == LastWrite(cfg, other, c)
  {
    AddAllKeepsCanonical(cfg, [], other);
    forall c ensures LinkedMap.Get(AddAllBase(cfg, [], other), c) == LastWrite(cfg, other, c) {
      AddAllLookup(cfg, [], other, c);
    }
  }

  /** `CanonicalizedMap<C, K, V>`: the backing map `_base` and the callbacks it was made with. */
  class CanonicalizedMap<C(==), K, V(==)> {
    const canonicalize: K -> C
    const isValidKeyFn: Option<K -> bool>
    const isNull: K -> bool
    const isK: K -> bool
    var base: Base<C, K, V>

    function Cfg(): Config<C, K> {
      Config(canonicalize, isNull, isK, isValidKeyFn)
    }

    ghost predicate Valid()
      reads this
    {
      Canonical(Cfg(), base)
    }

    /** `new CanonicalizedMap(canonicalize, {isValidKey})`: an empty map. */
    constructor (canonicalize: K -> C, isNull: K -> bool, isK: K -> bool, isValidKey: Option<K -> bool>)
      ensures Valid()
      ensures Cfg() == Config(canonicalize, isNull, isK, isValidKey)
      ensures base == []
    {
      this.canonicalize := canonicalize;
      this.isNull := isNull;
      this.isK := isK;
      this.isValidKeyFn := isValidKey;
      base := [];
    }

    /** `new CanonicalizedMap.from(other, canonicalize, {isValidKey})`: an empty map, then `addAll(other)`. */
    constructor From(other: seq<(K, V)>, canonicalize: K -> C, isNull: K -> bool, isK: K -> bool,
                     isValidKey: Option<K -> bool>)
      requires forall i :: 0 <= i < |other| ==> Config(canonicalize, isNull, isK, isValidKey).IsTyped(other[i].0)
      ensures Valid()
      ensures Cfg() == Config(canonicalize, isNull, isK, isValidKey)
      ensures base == AddAllBase(Cfg(), [], other)
    {
      this.canonicalize := canonicalize;
      this.isNull := isNull;
      this.isK := isK;
      this.isValidKeyFn := isValidKey;
      base := [];
      new;
      AddAll(other);
    }

    /** `get(key)`: None for an invalid key or an empty slot. */
    function Get(key: K): (r: Option<V>)
      reads this
      ensures r.Some? <==> Cfg().IsValidKey(key) && LinkedMap.ContainsKey(base, canonicalize(key))
      ensures r.Some? ==>
                exists i :: 0 <= i < |base| && base[i].0 == canonicalize(key) && r.value == base[i].1.last
    {
      if !Cfg().IsValidKey(key) then None
      else match LinkedMap.Get(base, canonicalize(key))
        case None => None
        case Some(pair) => Some(pair.last)
    }

    /** `set(key, value)`: a silent no-op on an invalid key; returns `value` either way. */
    method Set(key: K, value: V) returns (r: V)
      requires Valid() && Cfg().IsTyped(key)
      modifies this
      ensures Valid()
      ensures r == value
      ensures base == SetBase(Cfg(), old(base), key, value)
      ensures !Cfg().IsValidKey(key) ==> base == old(base)
      ensures Cfg().IsValidKey(key) ==>
                forall k :: Cfg().IsValidKey(k) && canonicalize(k) == canonicalize(key) ==> Get(k) == Some(value)
    {
      SetKeepsCanonical(Cfg(), base, key, value);
      if Cfg().IsValidKey(key) {
        base := LinkedMap.Put(base, canonicalize(key), Pair(key, value));
      }
      r := value;
    }

    /** `addAll(other)`: `set` on each entry of `other`, in its enumeration order. */
    method AddAll(other: seq<(K, V)>)
      requires Valid()
      requires forall i :: 0 <= i < |other| ==> Cfg().IsTyped(other[i].0)
      modifies this
      ensures Valid()
      ensures base == AddAllBase(Cfg(), old(base), other)
    {
      for i := 0 to |other|
        invariant Valid()
        invariant base == AddAllBase(Cfg(), old(base), other[..i])
      {
        assert other[..i + 1][..i] == other[..i];
        var _ := Set(other[i].0, other[i].1);
      }
      assert other[..|other|] == other;
    }

    /** `clear()` */
    method Clear()
      requires Valid()
      modifies this
      ensures Valid()
      ensures base == []
    {
      base := [];
    }

    /** `containsKey(key)`: false for an invalid key. */
    function ContainsKey(key: K): (b: bool)
      reads this
      ensures b <==> Cfg().IsValidKey(key) && exists i :: 0 <= i < |base| && base[i].0 == canonicalize(key)
      ensures b <==> Get(key).Some?
    {
      Cfg().IsValidKey(key) && LinkedMap.ContainsKey(base, canonicalize(key))
    }

    /** `containsValue(value)`: some stored pair holds `value`; canonical forms play no part. */
    function ContainsValue(value: V): (b: bool)
      reads this
      ensures b <==> exists i :: 0 <= i < |base| && base[i].1.last == value
    {
      value in Values()
    }

    /** `keys`: the original keys of the stored pairs, in backing-map order. */
    function Keys(): (ks: seq<K>)
      reads this
      ensures |ks| == |base|
      ensures forall i :: 0 <= i < |base| ==> ks[i] == base[i].1.first
      ensures Valid() ==> forall i :: 0 <= i < |ks| ==> canonicalize(ks[i]) == base[i].0
      ensures Valid() ==> forall i, j :: 0 <= i < j < |ks| ==> canonicalize(ks[i]) != canonicalize(ks[j])
    {
      seq(|base|, i requires 0 <= i < |base| reads this => base[i].1.first)
    }

    /** `values`: the values of the stored pairs, in backing-map order. */
    function Values(): (vs: seq<V>)
      reads this
      ensures |vs| == |base|
      ensures forall i :: 0 <= i < |base| ==> vs[i] == base[i].1.last
    {
      seq(|base|, i requires 0 <= i < |base| reads this => base[i].1.last)
    }

    /**
      `forEach(f)`: the arguments of the calls `f(key, value)` in call order,
      one per stored pair; what `f` does with them is the caller's business.
     */
    function ForEach(): (calls: seq<(K, V)>)
      reads this
      ensures |calls| == Length()
      ensures forall i :: 0 <= i < |calls| ==> calls[i] == (Keys()[i], Values()[i])
    {
      seq(|base|, i requires 0 <= i < |base| reads this => (base[i].1.first, base[i].1.last))
    }

    /** `length` */
    function Length(): (n: nat)
      reads this
      ensures n == |Keys()| == |Values()|
    {
      |base|
    }

    /** `isEmpty` */
    function IsEmpty(): (b: bool)
      reads this
      ensures b <==> Length() == 0
      ensures b <==> Keys() == []
    {
      base == []
    }

    /** `isNotEmpty` */
    function IsNotEmpty(): (b: bool)
      reads this
      ensures b <==> !IsEmpty()
      ensures b <==> Length() > 0
    {
      base != []
    }

    /**
      `putIfAbsent(key, ifAbsent)`: the gate is not consulted. An occupied slot
      answers its value and nothing changes; an empty one gets `Pair(key, ifAbsent())`
      appended, and that value is returned.
     */
    method PutIfAbsent(key: K, ifAbsent: () -> V) returns (r: V)
      requires Valid() && Cfg().IsTyped(key)
      modifies this
      ensures Valid()
      ensures LinkedMap.ContainsKey(old(base), canonicalize(key)) ==>
                base == old(base) && LinkedMap.Get(old(base), canonicalize(key)).value.last == r
      ensures !LinkedMap.ContainsKey(old(base), canonicalize(key)) ==>
                && base == old(base) + [(canonicalize(key), Pair(key, ifAbsent()))]
                && |base| == |old(base)| + 1
                && r == ifAbsent()
    {
      var c := canonicalize(key);
      match LinkedMap.Get(base, c)
      case Some(pair) =>
        r := pair.last;
      case None =>
        var v := ifAbsent();
        base := base + [(c, Pair(key, v))];
        r := v;
    }

    /**
      `remove(key)`: None and no change for an invalid key; otherwise the
      slot of `key` is deleted, every other entry keeps its place, and the
      value it held (None if there was none) is returned.
     */
    method Remove(key: K) returns (r: Option<V>)
      requires Valid()
      modifies this
      ensures Valid()
      ensures r == old(Get(key))
      ensures !Cfg().IsValidKey(key) ==> base == old(base)
      ensures Cfg().IsValidKey(key) ==> base == LinkedMap.Remove(old(base), canonicalize(key)).0
      ensures Cfg().IsValidKey(key) ==> !ContainsKey(key)
    {
      if !Cfg().IsValidKey(key) {
        return None;
      }
      var (rest, pair) := LinkedMap.Remove(base, canonicalize(key));
      r := match pair case None => None case Some(p) => Some(p.last);
      base := rest;
    }
  }
}
