/**
  A model of the part of Ruby's Hash that a Universe relies on: an
  association list that keeps insertion order. Assigning to a key that is
  already present replaces its value where it stands; assigning to a new
  key appends it.
 */
module OrderedMap {
  import opened Wrappers

  /** No key occurs twice. Every Hash satisfies this. */
  ghost predicate DistinctKeys<K, V>(e: seq<(K, V)>)
  {
    forall i, j :: 0 <= i < j < |e| ==> e[i].0 != e[j].0
  }

  /** The keys, in insertion order (Hash#keys). */
  function Keys<K, V>(e: seq<(K, V)>): seq<K>
  {
    seq(|e|, i requires 0 <= i < |e| => e[i].0)
  }

  /** The stored values, in insertion order (Hash#values). */
  function Values<K, V>(e: seq<(K, V)>): seq<V>
  {
    seq(|e|, i requires 0 <= i < |e| => e[i].1)
  }

  /** The set of keys present. */
  ghost function KeySet<K, V>(e: seq<(K, V)>): set<K>
  {
    set i | 0 <= i < |e| :: e[i].0
  }

  /** The position of `k`, if it is present. */
  function Find<K(==), V>(e: seq<(K, V)>, k: K): (r: Option<nat>)
    ensures r.Some? ==> r.value < |e| && e[r.value].0 == k
    ensures r.Some? ==> forall j :: 0 <= j < r.value ==> e[j].0 != k
    ensures r.None? <==> forall j :: 0 <= j < |e| ==> e[j].0 != k
  {
    if e == [] then None
    else if e[0].0 == k then Some(0)
    else match Find(e[1..], k)
      case None => None
      case Some(i) => Some(i + 1)
  }

  /** Hash#include?: whether `k` is a key. */
  predicate Contains<K(==), V>(e: seq<(K, V)>, k: K): (b: bool)
    ensures b <==> exists i :: 0 <= i < |e| && e[i].0 == k
  {
    Find(e, k).Some?
  }

  /** The value stored under `k`, if any. */
  function Lookup<K(==), V>(e: seq<(K, V)>, k: K): (r: Option<V>)
    ensures r.Some? <==> Contains(e, k)
    ensures r.Some? ==> (k, r.value) in e
  {
    match Find(e, k)
    case None => None
    case Some(i) => Some(e[i].1)
  }

  /** Hash#fetch(k, d): the stored value, or `d` when `k` is absent. */
  function Fetch<K(==), V>(e: seq<(K, V)>, k: K, d: V): (r: V)
    ensures Contains(e, k) ==> Lookup(e, k) == Some(r)
    ensures !Contains(e, k) ==> r == d
  {
    match Find(e, k)
    case None => d
    case Some(i) => e[i].1
  }

  /**
    Hash#[]=: overwrite in place when present, append when new. The key
    then holds `v`, the size grows only for a new key, and every entry of
    another key stays where it was.
   */
  function Put<K(==), V>(e: seq<(K, V)>, k: K, v: V): (r: seq<(K, V)>)
    ensures Lookup(r, k) == Some(v)
    ensures |r| == if Contains(e, k) then |e| else |e| + 1
    ensures forall i :: 0 <= i < |e| && e[i].0 != k ==> r[i] == e[i]
  {
    match Find(e, k)
    case None =>
      var r := e + [(k, v)];
      FindAt(r, k, |e|);
      r
    case Some(i) =>
      var r := e[i := (k, v)];
      FindAt(r, k, i);
      r
  }

  /** The position of the first entry whose value equals `v`. */
  function FindValue<K, V(==)>(e: seq<(K, V)>, v: V): (r: Option<nat>)
    ensures r.Some? ==> r.value < |e| && e[r.value].1 == v
    ensures r.Some? ==> forall j :: 0 <= j < r.value ==> e[j].1 != v
    ensures r.None? <==> forall j :: 0 <= j < |e| ==> e[j].1 != v
  {
    if e == [] then None
    else if e[0].1 == v then Some(0)
    else match FindValue(e[1..], v)
      case None => None
      case Some(i) => Some(i + 1)
  }

  /** Hash#key(v): the first key, in insertion order, whose value equals `v`. */
  function KeyFor<K, V(==)>(e: seq<(K, V)>, v: V): (r: Option<K>)
    ensures r.None? <==> forall i :: 0 <= i < |e| ==> e[i].1 != v
    ensures r.Some? ==> exists i :: 0 <= i < |e| && e[i] == (r.value, v) && forall j :: 0 <= j < i ==> e[j].1 != v
  {
    match FindValue(e, v)
    case None => None
    case Some(i) => Some(e[i].0)
  }

  /** Applies Put to each pair of `batch`, in order. */
  function PutAll<K(==), V>(e: seq<(K, V)>, batch: seq<(K, V)>): seq<(K, V)>
    decreases |batch|
  {
    if batch == [] then e else PutAll(Put(e, batch[0].0, batch[0].1), batch[1..])
  }

  /** Find returns the first position holding `k`, so it is determined by it. */
  lemma FindAt<K, V>(e: seq<(K, V)>, k: K, i: nat)
    requires i < |e| && e[i].0 == k
    requires forall j :: 0 <= j < i ==> e[j].0 != k
    ensures Find(e, k) == Some(i)
  {
  }

  /** After Put, the key holds the new value. */
  lemma PutLookupSame<K, V>(e: seq<(K, V)>, k: K, v: V)
    ensures Lookup(Put(e, k, v), k) == Some(v)
  {
    var e' := Put(e, k, v);
    match Find(e, k)
    case None =>
      FindAt(e', k, |e|);
    case Some(i) =>
      FindAt(e', k, i);
  }

  /** Put changes no other key's value and adds or removes no other key. */
  lemma PutLookupOther<K, V>(e: seq<(K, V)>, k: K, v: V, k': K)
    requires k' != k
    ensures Lookup(Put(e, k, v), k') == Lookup(e, k')
    ensures Contains(Put(e, k, v), k') == Contains(e, k')
  {
    var e' := Put(e, k, v);
    match Find(e, k')
    case None =>
      assert forall j :: 0 <= j < |e'| ==> e'[j].0 != k';
    case Some(i) =>
      FindAt(e', k', i);
  }

  /**
    An overwrite keeps the key list and every position; a new key is
    appended at the end, so the size grows by exactly one.
   */
  lemma PutShape<K, V>(e: seq<(K, V)>, k: K, v: V)
    ensures Contains(e, k) ==> Keys(Put(e, k, v)) == Keys(e)
    ensures Contains(e, k) ==> Find(Put(e, k, v), k) == Find(e, k)
    ensures !Contains(e, k) ==> Keys(Put(e, k, v)) == Keys(e) + [k]
    ensures !Contains(e, k) ==> Find(Put(e, k, v), k) == Some(|e|)
    ensures |Put(e, k, v)| == if Contains(e, k) then |e| else |e| + 1
    ensures forall i :: 0 <= i < |e| && e[i].0 != k ==> Put(e, k, v)[i] == e[i]
  {
    var e' := Put(e, k, v);
    match Find(e, k)
    case None =>
      FindAt(e', k, |e|);
      assert Keys(e') == Keys(e) + [k];
    case Some(i) =>
      FindAt(e', k, i);
      assert Keys(e') == Keys(e);
  }

  /** Put keeps keys distinct. */
  lemma PutDistinct<K, V>(e: seq<(K, V)>, k: K, v: V)
    requires DistinctKeys(e)
    ensures DistinctKeys(Put(e, k, v))
  {
    PutShape(e, k, v);
  }

  /** With distinct keys, the number of entries is the number of keys. */
  lemma {:induction false} DistinctSize<K, V>(e: seq<(K, V)>)
    requires DistinctKeys(e)
    ensures |KeySet(e)| == |e|
  {
    if e != [] {
      var t := e[1..];
      assert DistinctKeys(t) by {
        forall i, j | 0 <= i < j < |t| ensures t[i].0 != t[j].0 {
          assert t[i] == e[i + 1] && t[j] == e[j + 1];
        }
      }
      DistinctSize(t);
      assert KeySet(e) == {e[0].0} + KeySet(t) by {
        forall x | x in KeySet(e) ensures x in {e[0].0} + KeySet(t) {
          var i :| 0 <= i < |e| && e[i].0 == x;
          if i > 0 { assert t[i - 1] == e[i]; }
        }
        forall x | x in KeySet(t) ensures x in KeySet(e) {
          var i :| 0 <= i < |t| && t[i].0 == x;
          assert e[i + 1] == t[i];
        }
      }
      assert e[0].0 !in KeySet(t) by {
        forall i | 0 <= i < |t| ensures t[i].0 != e[0].0 {
          assert t[i] == e[i + 1];
        }
      }
    }
  }

  /** KeyFor finds a key exactly when some stored value equals `v`, and it is the first such key. */
  lemma KeyForSpec<K, V>(e: seq<(K, V)>, v: V)
    ensures KeyFor(e, v).None? <==> v !in Values(e)
    ensures KeyFor(e, v).Some? ==>
      exists i :: 0 <= i < |e| && e[i] == (KeyFor(e, v).value, v) && forall j :: 0 <= j < i ==> e[j].1 != v
  {
    match FindValue(e, v)
    case None =>
      assert forall j :: 0 <= j < |e| ==> Values(e)[j] != v;
    case Some(i) =>
      assert Values(e)[i] == v;
      assert e[i] == (KeyFor(e, v).value, v);
  }
  /** PutAll leaves a key that the batch does not mention as it was. */
  lemma {:induction false} PutAllOther<K, V>(e: seq<(K, V)>, batch: seq<(K, V)>, k: K)
    requires forall i :: 0 <= i < |batch| ==> batch[i].0 != k
    ensures Lookup(PutAll(e, batch), k) == Lookup(e, k)
    ensures Contains(PutAll(e, batch), k) == Contains(e, k)
    decreases |batch|
  {
    if batch != [] {
      PutLookupOther(e, batch[0].0, batch[0].1, k);
      PutAllOther(Put(e, batch[0].0, batch[0].1), batch[1..], k);
    }
  }

  /** With distinct batch keys, every key of the batch ends up holding its batch value. */
  lemma {:induction false} PutAllLookup<K, V>(e: seq<(K, V)>, batch: seq<(K, V)>)
    requires DistinctKeys(batch)
    ensures forall i :: 0 <= i < |batch| ==> Lookup(PutAll(e, batch), batch[i].0) == Some(batch[i].1)
    decreases |batch|
  {
    if batch != [] {
      var e1, rest := Put(e, batch[0].0, batch[0].1), batch[1..];
      assert DistinctKeys(rest) by {
        forall i, j | 0 <= i < j < |rest| ensures rest[i].0 != rest[j].0 {
          assert rest[i] == batch[i + 1] && rest[j] == batch[j + 1];
        }
      }
      PutAllLookup(e1, rest);
      forall i | 0 <= i < |batch| ensures Lookup(PutAll(e, batch), batch[i].0) == Some(batch[i].1) {
        if i == 0 {
          assert forall j :: 0 <= j < |rest| ==> rest[j].0 != batch[0].0 by {
            forall j | 0 <= j < |rest| ensures rest[j].0 != batch[0].0 {
              assert rest[j] == batch[j + 1];
            }
          }
          PutAllOther(e1, rest, batch[0].0);
          PutLookupSame(e, batch[0].0, batch[0].1);
        } else {
          assert batch[i] == rest[i - 1];
        }
      }
    }
  }

  /** Dropping the first entry keeps keys distinct. */
  lemma DistinctTail<K, V>(e: seq<(K, V)>)
    requires DistinctKeys(e) && e != []
    ensures DistinctKeys(e[1..])
    ensures forall j :: 0 <= j < |e| - 1 ==> e[1..][j].0 != e[0].0
  {
    var t := e[1..];
    forall i, j | 0 <= i < j < |t| ensures t[i].0 != t[j].0 {
      assert t[i] == e[i + 1] && t[j] == e[j + 1];
    }
    forall j | 0 <= j < |t| ensures t[j].0 != e[0].0 {
      assert t[j] == e[j + 1];
    }
  }

  /** Putting a new key appends exactly its pair. */
  lemma PutFresh<K, V>(e: seq<(K, V)>, k: K, v: V)
    requires !Contains(e, k)
    ensures Put(e, k, v) == e + [(k, v)]
  {
  }

  /** After appending the first key of a batch of new keys, the rest are still new. */
  lemma RestStaysFresh<K, V>(e: seq<(K, V)>, batch: seq<(K, V)>)
    requires DistinctKeys(batch) && batch != []
    requires forall i :: 0 <= i < |batch| ==> !Contains(e, batch[i].0)
    ensures forall i :: 0 <= i < |batch| - 1 ==> !Contains(e + [batch[0]], batch[1..][i].0)
  {
    DistinctTail(batch);
    var rest := batch[1..];
    forall i | 0 <= i < |rest| ensures !Contains(e + [batch[0]], rest[i].0) {
      assert rest[i] == batch[i + 1];
      var x := rest[i].0;
      assert !Contains(e, x);
      assert forall j :: 0 <= j < |e| + 1 ==> (e + [batch[0]])[j].0 != x;
    }
  }

  /** The first n + 1 elements of `s`, without the first, are the first n of its tail. */
  lemma PrefixTail<T>(s: seq<T>, n: nat)
    requires n < |s|
    ensures s[..n + 1][1..] == s[1..][..n]
  {
  }

  /** Appending the first entry of `s` and then the rest appends `s`. */
  lemma AppendFirst<T>(e: seq<T>, s: seq<T>)
    requires s != []
    ensures e + [s[0]] + s[1..] == e + s
  {
    assert s == [s[0]] + s[1..];
    assert e + [s[0]] + s[1..] == e + ([s[0]] + s[1..]);
  }

  /** A batch of distinct new keys is appended as it is, in its own order. */
  lemma {:induction false} PutAllFresh<K, V>(e: seq<(K, V)>, batch: seq<(K, V)>)
    requires DistinctKeys(batch)
    requires forall i :: 0 <= i < |batch| ==> !Contains(e, batch[i].0)
    ensures PutAll(e, batch) == e + batch
    decreases |batch|
  {
    if batch != [] {
      PutFresh(e, batch[0].0, batch[0].1);
      DistinctTail(batch);
      RestStaysFresh(e, batch);
      PutAllFresh(e + [batch[0]], batch[1..]);
      AppendFirst(e, batch);
    }
  }
}
