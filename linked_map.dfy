/**
  The backing store of a canonicalized map: Dart's default `Map`, a linked hash
  map, seen as an insertion-ordered association list. Writing an existing key
  replaces its value in place (the entry keeps its position), writing a new key
  appends an entry, and removing a key deletes its entry and leaves the others
  in their order.
 */
module LinkedMap {
  import opened Optional

  type Entries<K, V> = seq<(K, V)>

  /** No key occurs twice: the shape every Dart map has. */
  predicate DistinctKeys<K(==), V>(m: Entries<K, V>) {
    forall i, j :: 0 <= i < j < |m| ==> m[i].0 != m[j].0
  }

  /** Position of the (first) entry for `k`, if any. */
  function IndexOf<K(==), V>(m: Entries<K, V>, k: K): (r: Option<nat>)
    ensures r.Some? ==> r.value < |m| && m[r.value].0 == k
    ensures r.Some? ==> forall j :: 0 <= j < r.value ==> m[j].0 != k
    ensures r.None? <==> forall j :: 0 <= j < |m| ==> m[j].0 != k
  {
    if |m| == 0 then None
    else if m[0].0 == k then Some(0)
    else match IndexOf(m[1..], k)
      case None => None
      case Some(i) => Some(i + 1)
  }

  /** The first-occurrence characterisation of IndexOf pins it down. */
  lemma IndexOfAt<K, V>(m: Entries<K, V>, k: K, i: nat)
    requires i < |m| && m[i].0 == k
    requires forall j :: 0 <= j < i ==> m[j].0 != k
    ensures IndexOf(m, k) == Some(i)
  {
  }

  /** `m.containsKey(k)` */
  function ContainsKey<K(==), V>(m: Entries<K, V>, k: K): (b: bool)
    ensures b <==> exists j :: 0 <= j < |m| && m[j].0 == k
  {
    IndexOf(m, k).Some?
  }

  /** `m[k]`: the value stored for `k`, or None. */
  function Get<K(==), V>(m: Entries<K, V>, k: K): (r: Option<V>)
    ensures r.Some? <==> ContainsKey(m, k)
    ensures DistinctKeys(m) ==>
              forall j :: 0 <= j < |m| && m[j].0 == k ==> r == Some(m[j].1)
  {
    match IndexOf(m, k)
    case None => None
    case Some(i) => Some(m[i].1)
  }

  /** `m[k] = v`: overwrite in place, or append a new entry. */
  function Put<K(==), V>(m: Entries<K, V>, k: K, v: V): (r: Entries<K, V>)
    ensures Get(r, k) == Some(v)
    ensures |r| == if ContainsKey(m, k) then |m| else |m| + 1
    ensures forall j :: 0 <= j < |m| ==> r[j].0 == m[j].0
    ensures forall j :: 0 <= j < |m| && m[j].0 != k ==> r[j] == m[j]
    ensures !ContainsKey(m, k) ==> r[|m|] == (k, v)
    ensures DistinctKeys(m) ==> DistinctKeys(r)
  {
    match IndexOf(m, k)
    case None =>
      var r := m + [(k, v)];
      IndexOfAt(r, k, |m|);
      r
    case Some(i) =>
      var r := m[i := (k, v)];
      IndexOfAt(r, k, i);
      r
  }

  /** Writing one key leaves the lookup of every other key as it was. */
  lemma PutOther<K, V>(m: Entries<K, V>, k: K, v: V, k': K)
    requires k' != k
    ensures Get(Put(m, k, v), k') == Get(m, k')
  {
    var r := Put(m, k, v);
    match IndexOf(m, k')
    case None =>
      assert forall j :: 0 <= j < |r| ==> r[j].0 != k' by {
        forall j | 0 <= j < |r| ensures r[j].0 != k' {
          if j < |m| { assert r[j].0 == m[j].0; } else { assert r[j] == (k, v); }
        }
      }
    case Some(i) =>
      IndexOfAt(r, k', i);
  }

  /** `m.remove(k)`: the map without the entry for `k`, and the value it held. */
  function Remove<K(==), V>(m: Entries<K, V>, k: K): (r: (Entries<K, V>, Option<V>))
    ensures r.1 == Get(m, k)
    ensures !ContainsKey(m, k) ==> r.0 == m
    ensures ContainsKey(m, k) ==>
              exists i :: 0 <= i < |m| && m[i].0 == k && r.0 == m[..i] + m[i + 1..]
    ensures |r.0| == if ContainsKey(m, k) then |m| - 1 else |m|
    ensures DistinctKeys(m) ==> DistinctKeys(r.0) && !ContainsKey(r.0, k)
  {
    match IndexOf(m, k)
    case None => (m, None)
    case Some(i) =>
      var rest := m[..i] + m[i + 1..];
      assert forall j :: 0 <= j < |rest| ==> rest[j] == m[if j < i then j else j + 1];
      (rest, Some(m[i].1))
  }

  /** Removing one key leaves the lookup of every other key as it was. */
  lemma RemoveOther<K, V>(m: Entries<K, V>, k: K, k': K)
    requires DistinctKeys(m) && k' != k
    ensures Get(Remove(m, k).0, k') == Get(m, k')
  {
    var r := Remove(m, k).0;
    if ContainsKey(m, k') {
      var j :| 0 <= j < |m| && m[j].0 == k';
      assert Get(m, k') == Some(m[j].1);
      match IndexOf(m, k)
      case Some(i) =>
        var jr := if j < i then j else j - 1;
        assert r[jr] == m[j];
      case None =>
    } else {
      match IndexOf(m, k)
      case Some(i) =>
        assert forall j :: 0 <= j < |r| ==> r[j] == m[if j < i then j else j + 1];
      case None =>
    }
  }

  /** `m.values`, in entry order. */
  function Values<K, V>(m: Entries<K, V>): (r: seq<V>)
    ensures |r| == |m|
    ensures forall j :: 0 <= j < |m| ==> r[j] == m[j].1
  {
    seq(|m|, j requires 0 <= j < |m| => m[j].1)
  }
}
