/**
  The Universe registry: a store of values under validated String keys,
  in insertion order, whose callable values are resolved on first read.
 */
module Universals {
  import opened Wrappers
  import opened OrderedMap
  import opened Names

  /**
    A stored value. `Proc` is anything that responds to `call`: calling it
    produces `result` (which may itself be callable). `id` is the object's
    identity, so two distinct procs are never equal.
   */
  datatype Value =
    | Nil
    | Int(n: int)
    | Text(s: string)
    | Other(tag: int)
    | Proc(id: nat, result: Value)

  /** The contents of the `@values` Hash. */
  type Table = seq<(Key, Value)>

  /** The invariant every write path except one keeps: all keys are valid names. */
  ghost predicate AllNamesValid(e: Table)
  {
    forall i :: 0 <= i < |e| ==> ValidKey(e[i].0)
  }

  /**
    What the registry raises: the UniversalsError of validate_name, or the
    NoMethodError of method_missing falling back to `super`.
   */
  datatype Error = UniversalsError(cause: InvalidKey) | NoMethodError(name: string)

  /** What a read returns, the table afterwards, and the procs it called, in order. */
  datatype Fetched = Fetched(value: Value, entries: Table, invoked: seq<nat>)

  /**
    get_property(k, d): fetch the stored value or the default; if it is
    callable, call it and store the result under `k`, whether or not `k`
    was present, without validating `k`.
   */
  function Read(e: Table, k: Key, d: Value): (r: Fetched)
    ensures |r.invoked| <= 1
    ensures r.invoked == [] ==> r.entries == e
    ensures Contains(r.entries, k) ==> Lookup(r.entries, k) == Some(r.value)
    ensures !Contains(e, k) && r.invoked == [] ==> r.value == d
    ensures Contains(e, k) ==> OrderedMap.Keys(r.entries) == OrderedMap.Keys(e)
  {
    var v := Fetch(e, k, d);
    if v.Proc? then
      PutShape(e, k, v.result);
      Fetched(v.result, Put(e, k, v.result), [v.id])
    else
      Fetched(v, e, [])
  }

  /** set_property(k, v): validate, then assign; on failure nothing is assigned. */
  function Write(e: Table, k: Key, v: Value): (r: Result<Table, Error>)
    ensures r.Success? <==> ValidKey(k)
    ensures r.Success? ==> Lookup(r.value, k) == Some(v)
    ensures r.Failure? ==> r.error == UniversalsError(InvalidKey(k, if k.NonString? then NotAString else NotAMethodName))
  {
    match ValidateName(k)
    case Fail(err) => Failure(UniversalsError(err))
    case Pass => Success(Put(e, k, v))
  }

  /** The table after a batch assignment and whether it raised. */
  datatype Batch = Batch(entries: Table, status: Outcome<Error>)

  /** set(h): set_property on each pair of `h` in order, stopping at the first that raises. */
  function WriteAll(e: Table, batch: Table): (r: Batch)
    ensures r.status.Pass? <==> forall i :: 0 <= i < |batch| ==> ValidKey(batch[i].0)
    ensures r.status.Fail? ==> r.status.error.UniversalsError? && !ValidKey(r.status.error.cause.key)
    decreases |batch|
  {
    if batch == [] then Batch(e, Pass)
    else match Write(e, batch[0].0, batch[0].1)
      case Failure(err) => Batch(e, Fail(err))
      case Success(e') => WriteAll(e', batch[1..])
  }

  /** The position of the first pair whose key is not valid, or |batch| if there is none. */
  function FirstInvalid(batch: Table): (n: nat)
    ensures n <= |batch|
    ensures forall i :: 0 <= i < n ==> ValidKey(batch[i].0)
    ensures n < |batch| ==> !ValidKey(batch[n].0)
    decreases |batch|
  {
    if batch == [] then 0
    else if !ValidKey(batch[0].0) then 0
    else 1 + FirstInvalid(batch[1..])
  }

  /** How method_missing treats a method name. */
  datatype Route = ReadProperty(key: string) | WriteProperty(key: string) | Unhandled

  /**
    method_missing: a name that is a present key reads it; otherwise a
    name ending in `=` assigns the name without it; anything else is not
    handled.
   */
  function RouteName(e: Table, name: string): (r: Route)
    ensures r.ReadProperty? <==> Contains(e, Name(name))
    ensures r.ReadProperty? ==> r.key == name
    ensures r.WriteProperty? ==> name == r.key + "="
    ensures r.Unhandled? <==> !Contains(e, Name(name)) && (name == [] || name[|name| - 1] != '=')
  {
    if Contains(e, Name(name)) then ReadProperty(name)
    else if |name| > 0 && name[|name| - 1] == '=' then WriteProperty(name[..|name| - 1])
    else Unhandled
  }

  /** What a handled method_missing call returns: the value read, or the object itself after an assignment. */
  datatype Reply = Got(value: Value) | Chained

  /** The argument method_missing assigns: the first one, or nil. */
  function FirstArgument(args: seq<Value>): Value
  {
    if |args| > 0 then args[0] else Nil
  }

  // ---------------------------------------------------------------------
  // Properties of the registry operations
  // ---------------------------------------------------------------------

  /**
    set_property fails exactly on an invalid key and then changes nothing;
    otherwise the key holds the value, an existing key keeps its position
    and the size, a new key goes last, and no other key changes.
   */
  lemma WriteSpec(e: Table, k: Key, v: Value)
    ensures Write(e, k, v).Failure? <==> !ValidKey(k)
    ensures Write(e, k, v).Failure? ==> Write(e, k, v).error == UniversalsError(ValidateName(k).error)
    ensures Write(e, k, v).Success? ==>
      var e' := Write(e, k, v).value;
      && Lookup(e', k) == Some(v)
      && (Contains(e, k) ==> OrderedMap.Keys(e') == OrderedMap.Keys(e) && Find(e', k) == Find(e, k))
      && (!Contains(e, k) ==> OrderedMap.Keys(e') == OrderedMap.Keys(e) + [k])
      && |e'| == (if Contains(e, k) then |e| else |e| + 1)
      && (forall k' :: k' != k ==> Lookup(e', k') == Lookup(e, k'))
  {
    if ValidKey(k) {
      PutLookupSame(e, k, v);
      PutShape(e, k, v);
      forall k' | k' != k ensures Lookup(Put(e, k, v), k') == Lookup(e, k') {
        PutLookupOther(e, k, v, k');
      }
    }
  }

  /** After a successful set_property of a non-callable value, has_property? holds and get_property returns it. */
  lemma SetThenRead(e: Table, k: Key, v: Value, d: Value)
    requires ValidKey(k) && !v.Proc?
    ensures Write(e, k, v).Success?
    ensures Contains(Write(e, k, v).value, k)
    ensures Read(Write(e, k, v).value, k, d) == Fetched(v, Write(e, k, v).value, [])
  {
    PutLookupSame(e, k, v);
  }

  /** Reading an absent key with a non-callable default returns the default and changes nothing. */
  lemma ReadAbsent(e: Table, k: Key, d: Value)
    requires !Contains(e, k) && !d.Proc?
    ensures Read(e, k, d) == Fetched(d, e, [])
  {
  }

  /**
    A stored proc is called once by the first read, which replaces it in
    place with its result; the second read returns that result and calls
    nothing.
   */
  lemma LazyResolution(e: Table, k: Key, id: nat, y: Value, d1: Value, d2: Value)
    requires Lookup(e, k) == Some(Proc(id, y)) && !y.Proc?
    ensures Read(e, k, d1).value == y && Read(e, k, d1).invoked == [id]
    ensures OrderedMap.Keys(Read(e, k, d1).entries) == OrderedMap.Keys(e)
    ensures Find(Read(e, k, d1).entries, k) == Find(e, k)
    ensures forall k' :: k' != k ==> Lookup(Read(e, k, d1).entries, k') == Lookup(e, k')
    ensures Read(Read(e, k, d1).entries, k, d2) == Fetched(y, Read(e, k, d1).entries, [])
  {
    PutShape(e, k, y);
    PutLookupSame(e, k, y);
    forall k' | k' != k ensures Lookup(Put(e, k, y), k') == Lookup(e, k') {
      PutLookupOther(e, k, y, k');
    }
  }

  /**
    The one write that skips validation: reading an absent key with a
    callable default calls it and appends the result under that key, so
    an invalid key can enter the table.
   */
  lemma CallableDefaultInserts(e: Table, k: Key, id: nat, y: Value)
    requires !Contains(e, k)
    ensures Read(e, k, Proc(id, y)) == Fetched(y, e + [(k, y)], [id])
    ensures !ValidKey(k) ==> !AllNamesValid(Read(e, k, Proc(id, y)).entries)
  {
    var e' := e + [(k, y)];
    assert e'[|e|].0 == k;
  }

  /** Every read keeps keys distinct; a read other than the callable-default one keeps all keys valid. */
  lemma ReadKeepsInvariants(e: Table, k: Key, d: Value)
    ensures DistinctKeys(e) ==> DistinctKeys(Read(e, k, d).entries)
    ensures AllNamesValid(e) && (Contains(e, k) || !d.Proc?) ==> AllNamesValid(Read(e, k, d).entries)
  {
    var v := Fetch(e, k, d);
    if v.Proc? {
      if DistinctKeys(e) { PutDistinct(e, k, v.result); }
      PutShape(e, k, v.result);
    }
  }

  /** set_property keeps keys distinct and all keys valid. */
  lemma WriteKeepsInvariants(e: Table, k: Key, v: Value)
    requires Write(e, k, v).Success?
    ensures DistinctKeys(e) ==> DistinctKeys(Write(e, k, v).value)
    ensures AllNamesValid(e) ==> AllNamesValid(Write(e, k, v).value)
  {
    if DistinctKeys(e) { PutDistinct(e, k, v); }
    PutShape(e, k, v);
  }

  /**
    set(h) applies exactly the pairs before the first invalid key, and
    raises that key's error if there is one.
   */
  lemma {:induction false} WriteAllStopsAtFirstInvalid(e: Table, batch: Table)
    ensures WriteAll(e, batch).entries == PutAll(e, batch[..FirstInvalid(batch)])
    ensures WriteAll(e, batch).status.Pass? <==> FirstInvalid(batch) == |batch|
    ensures FirstInvalid(batch) < |batch| ==>
      WriteAll(e, batch).status == Fail(UniversalsError(ValidateName(batch[FirstInvalid(batch)].0).error))
    decreases |batch|
  {
    if batch != [] {
      if ValidKey(batch[0].0) {
        var rest := batch[1..];
        WriteAllStopsAtFirstInvalid(Put(e, batch[0].0, batch[0].1), rest);
        PrefixTail(batch, FirstInvalid(rest));
      }
    }
  }

  /** set(h) keeps keys distinct and all keys valid. */
  lemma {:induction false} WriteAllKeepsInvariants(e: Table, batch: Table)
    ensures DistinctKeys(e) ==> DistinctKeys(WriteAll(e, batch).entries)
    ensures AllNamesValid(e) ==> AllNamesValid(WriteAll(e, batch).entries)
    decreases |batch|
  {
    if batch != [] && ValidKey(batch[0].0) {
      WriteKeepsInvariants(e, batch[0].0, batch[0].1);
      WriteAllKeepsInvariants(Put(e, batch[0].0, batch[0].1), batch[1..]);
    }
  }

  /**
    A batch of valid, distinct keys succeeds; each of its keys then holds
    its value, other keys are untouched, and a batch of new keys is
    appended as given, so the size grows by its length.
   */
  lemma WriteAllValidBatch(e: Table, batch: Table)
    requires AllNamesValid(batch) && DistinctKeys(batch)
    ensures WriteAll(e, batch).status == Pass
    ensures forall i :: 0 <= i < |batch| ==> Lookup(WriteAll(e, batch).entries, batch[i].0) == Some(batch[i].1)
    ensures forall k :: (forall i :: 0 <= i < |batch| ==> batch[i].0 != k) ==>
      Lookup(WriteAll(e, batch).entries, k) == Lookup(e, k)
    ensures (forall i :: 0 <= i < |batch| ==> !Contains(e, batch[i].0)) ==> WriteAll(e, batch).entries == e + batch
  {
    WriteAllStopsAtFirstInvalid(e, batch);
    assert batch[..|batch|] == batch;
    PutAllLookup(e, batch);
    forall k | forall i :: 0 <= i < |batch| ==> batch[i].0 != k
      ensures Lookup(PutAll(e, batch), k) == Lookup(e, k)
    {
      PutAllOther(e, batch, k);
    }
    if forall i :: 0 <= i < |batch| ==> !Contains(e, batch[i].0) {
      PutAllFresh(e, batch);
    }
  }

  /**
    With all keys valid, `p=` is never a present key, so it always routes
    to an assignment of `p`, whatever `p` is; a present key always routes
    to a read of itself.
   */
  lemma RouteAssignment(e: Table, p: string)
    requires AllNamesValid(e)
    ensures RouteName(e, p + "=") == WriteProperty(p)
    ensures forall n :: Contains(e, Name(n)) ==> RouteName(e, n) == ReadProperty(n)
  {
    ValidNameNotAssignment(p);
    var s := p + "=";
    assert s[..|s| - 1] == p;
  }

  /**
    The registry. The Ruby class is a process-wide singleton; here it is
    an ordinary object that callers construct.
   */
  class Universe {
    /** `@values`, in insertion order. */
    var entries: Table
    /** The ids of the procs called so far, in order. */
    ghost var calls: seq<nat>

    ghost predicate Valid()
      reads this
    {
      DistinctKeys(entries)
    }

    /** initialize: an empty table. */
    constructor ()
      ensures Valid() && entries == [] && calls == []
    {
      entries := [];
      calls := [];
    }

    /** has_property? (alias include?): whether `k` is a key; nothing is resolved. */
    function HasProperty(k: Key): (b: bool)
      reads this
      ensures b <==> exists i :: 0 <= i < |entries| && entries[i].0 == k
    {
      Contains(entries, k)
    }

    /** get_property (alias []): read `k`, resolving and caching a callable. */
    method GetProperty(k: Key, d: Value := Nil) returns (r: Value)
      requires Valid()
      modifies this
      ensures Valid()
      ensures r == Read(old(entries), k, d).value
      ensures entries == Read(old(entries), k, d).entries
      ensures calls == old(calls) + Read(old(entries), k, d).invoked
    {
      ReadKeepsInvariants(entries, k, d);
      var v := Fetch(entries, k, d);
      if v.Proc? {
        calls := calls + [v.id];
        v := v.result;
        entries := Put(entries, k, v);
      }
      r := v;
    }

    /** set_property (alias []=): validate `k`, then assign; returns the value. */
    method SetProperty(k: Key, v: Value) returns (r: Result<Value, Error>)
      requires Valid()
      modifies this`entries
      ensures Valid()
      ensures Write(old(entries), k, v).Success? ==> r == Success(v) && entries == Write(old(entries), k, v).value
      ensures Write(old(entries), k, v).Failure? ==> r == Failure(Write(old(entries), k, v).error) && entries == old(entries)
    {
      var status := ValidateName(k);
      if status.Fail? {
        return Failure(UniversalsError(status.error));
      }
      WriteKeepsInvariants(entries, k, v);
      entries := Put(entries, k, v);
      r := Success(v);
    }

    /** set: set_property on each pair of `batch` in order; the first failure propagates. */
    method Set(batch: Table := []) returns (r: Outcome<Error>)
      requires Valid()
      modifies this`entries
      ensures Valid()
      ensures WriteAll(old(entries), batch) == Batch(entries, r)
    {
      var i := 0;
      while i < |batch|
        invariant 0 <= i <= |batch|
        invariant Valid()
        invariant WriteAll(old(entries), batch) == WriteAll(entries, batch[i..])
      {
        assert batch[i..][1..] == batch[i + 1..];
        var step := SetProperty(batch[i].0, batch[i].1);
        if step.Failure? {
          return Fail(step.error);
        }
        i := i + 1;
      }
      r := Pass;
    }

    /** each: the raw stored pairs in insertion order; callables are yielded unresolved. */
    function Each(): (pairs: Table)
      reads this
      ensures |pairs| == |Keys()| == |Values()|
      ensures forall i :: 0 <= i < |pairs| ==> pairs[i] == (Keys()[i], Values()[i])
    {
      entries
    }

    /** size: the number of distinct keys present. */
    function Size(): (n: nat)
      reads this
      requires Valid()
      ensures n == |KeySet(entries)|
    {
      DistinctSize(entries);
      |entries|
    }

    /** key: the first key, in insertion order, whose raw stored value equals `v`; nil if none. */
    function KeyFor(v: Value): (r: Option<Key>)
      reads this
      ensures r.None? <==> forall i :: 0 <= i < |entries| ==> entries[i].1 != v
      ensures r.Some? ==>
        exists i :: 0 <= i < |entries| && entries[i] == (r.value, v) && forall j :: 0 <= j < i ==> entries[j].1 != v
    {
      KeyForSpec(entries, v);
      OrderedMap.KeyFor(entries, v)
    }

    /** keys: a snapshot of the keys in insertion order, each once. */
    function Keys(): (ks: seq<Key>)
      reads this
      ensures |ks| == |entries|
      ensures forall i :: 0 <= i < |ks| ==> ks[i] == entries[i].0
      ensures Valid() ==> forall i, j :: 0 <= i < j < |ks| ==> ks[i] != ks[j]
    {
      OrderedMap.Keys(entries)
    }

    /** values: a snapshot of the raw stored values in insertion order. */
    function Values(): (vs: seq<Value>)
      reads this
      ensures |vs| == |entries|
      ensures forall i :: 0 <= i < |vs| ==> vs[i] == entries[i].1
    {
      OrderedMap.Values(entries)
    }

    /** clear: remove every entry; the object stays usable. */
    method Clear()
      modifies this`entries
      ensures Valid() && entries == []
    {
      entries := [];
    }

    /**
      method_missing: `obj.name` reads a present key; `obj.name = x`
      assigns through set_property and returns the object itself; any
      other name raises NoMethodError.
     */
    method MethodMissing(name: string, args: seq<Value>) returns (r: Result<Reply, Error>)
      requires Valid()
      modifies this
      ensures Valid()
      ensures RouteName(old(entries), name).ReadProperty? ==>
        var f := Read(old(entries), Name(name), Nil);
        r == Success(Got(f.value)) && entries == f.entries && calls == old(calls) + f.invoked
      ensures RouteName(old(entries), name).WriteProperty? ==>
        var w := Write(old(entries), Name(RouteName(old(entries), name).key), FirstArgument(args));
        && calls == old(calls)
        && (w.Success? ==> r == Success(Chained) && entries == w.value)
        && (w.Failure? ==> r == Failure(w.error) && entries == old(entries))
      ensures RouteName(old(entries), name).Unhandled? ==>
        r == Failure(NoMethodError(name)) && entries == old(entries) && calls == old(calls)
    {
      match RouteName(entries, name)
      case ReadProperty(p) =>
        var v := GetProperty(Name(p));
        r := Success(Got(v));
      case WriteProperty(p) =>
        var s := SetProperty(Name(p), FirstArgument(args));
        r := if s.Success? then Success(Chained) else Failure(s.error);
      case Unhandled =>
        r := Failure(NoMethodError(name));
    }
  }
}
