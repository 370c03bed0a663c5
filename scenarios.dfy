/**
  Clients of a Universe that replay the scenarios of the unit tests
  (test/unit/test_universe.rb), using only the contracts of the class
  and the lemmas about the registry.
 */
module UniverseScenarios {
  import opened Wrappers
  import opened OrderedMap
  import opened Names
  import opened Universals

  /** test_get_property, before anything is set: absent keys give the default, nil when omitted. */
  method AbsentScenario()
  {
    var u := new Universe();
    assert !u.HasProperty(Name("one")) && !u.HasProperty(Name("three"));
    var a := u.GetProperty(Name("one"));
    assert a == Nil;
    var b := u.GetProperty(Name("three"), Text("blah"));
    assert b == Text("blah");
    assert u.entries == [];
  }

  /** `one` and `three` written through `obj.name = x`, as the tests do. */
  method TwoProperties() returns (u: Universe)
    ensures fresh(u) && u.Valid()
    ensures u.entries == [(Name("one"), Text("Blah")), (Name("three"), Text("Ningy"))]
  {
    u := new Universe();
    assert "one="[..3] == "one" && ValidName("one");
    SetFresh(u.entries, Name("one"), Text("Blah"));
    var w1 := u.MethodMissing("one=", [Text("Blah")]);
    assert w1 == Success(Chained);
    assert "three="[..5] == "three" && ValidName("three");
    SetFresh(u.entries, Name("three"), Text("Ningy"));
    var w2 := u.MethodMissing("three=", [Text("Ningy")]);
    assert w2 == Success(Chained);
  }

  /** test_has_property?: exactly the written keys are present. */
  method PropertiesScenario()
  {
    var u := TwoProperties();
    assert u.entries[0].0 == Name("one") && u.entries[1].0 == Name("three");
    assert u.HasProperty(Name("one")) && u.HasProperty(Name("three"));
    assert u.entries[0].0 != Name("two") by { assert "two"[0] != "one"[0]; }
    assert u.entries[1].0 != Name("two") by { assert "two"[1] != "three"[1]; }
    assert !u.HasProperty(Name("two"));
  }

  /** test_get_property, after two keys are set: present keys ignore the default. */
  method PresentScenario()
  {
    var u := TwoProperties();
    var c := u.GetProperty(Name("one"));
    assert c == Text("Blah");
    var d := u.GetProperty(Name("two"), Int(123));
    assert d == Int(123);
    FindAt(u.entries, Name("three"), 1);
    var e := u.GetProperty(Name("three"), Text("Bazinga"));
    assert e == Text("Ningy");
  }

  /** test_set and test_size: a batch of three new keys. */
  method BatchScenario()
  {
    var u := new Universe();
    assert u.Size() == 0;
    var batch := [(Name("One"), Int(1)), (Name("Two"), Text("2")), (Name("Three"), Int(3))];
    assert ValidName("One") && ValidName("Two") && ValidName("Three");
    assert AllNamesValid(batch);
    assert "One"[0] != "Two"[0] && "One"[0] != "Three"[0] && "Two"[1] != "Three"[1];
    assert DistinctKeys(batch);
    WriteAllValidBatch([], batch);
    var r := u.Set(batch);
    assert r == Pass;
    assert u.entries == batch;
    assert u.Size() == 3;
  }

  /** Writing a new valid key appends its pair. */
  lemma SetFresh(e: Table, k: Key, v: Value)
    requires ValidKey(k) && forall i :: 0 <= i < |e| ==> e[i].0 != k
    ensures Write(e, k, v) == Success(e + [(k, v)])
  {
    PutFresh(e, k, v);
  }

  /** Three keys set one after the other, in that order. */
  method ThreeKeys() returns (u: Universe)
    ensures fresh(u) && u.Valid()
    ensures u.entries == [(Name("A"), Int(1)), (Name("B"), Int(2)), (Name("C"), Int(3))]
  {
    u := new Universe();
    assert ValidName("A") && ValidName("B") && ValidName("C");
    SetFresh(u.entries, Name("A"), Int(1));
    var a := u.SetProperty(Name("A"), Int(1));
    SetFresh(u.entries, Name("B"), Int(2));
    var b := u.SetProperty(Name("B"), Int(2));
    SetFresh(u.entries, Name("C"), Int(3));
    var c := u.SetProperty(Name("C"), Int(3));
  }

  /** test_keys and test_values: snapshots follow insertion order. */
  method SnapshotScenario()
  {
    var u := ThreeKeys();
    assert u.Keys() == [Name("A"), Name("B"), Name("C")];
    assert u.Values() == [Int(1), Int(2), Int(3)];
  }

  /** test_key: the key of a stored value, and nil for a value not stored. */
  method KeyScenario()
  {
    var u := ThreeKeys();
    var found := u.KeyFor(Int(2));
    assert u.entries[1].1 == Int(2);
    ghost var i :| 0 <= i < |u.entries| && u.entries[i] == (found.value, Int(2));
    assert found == Some(Name("B"));
    assert u.KeyFor(Int(99)).None?;
  }

  /** clear empties the registry, and clearing again changes nothing. */
  method ClearScenario()
  {
    var u := ThreeKeys();
    u.Clear();
    assert u.Size() == 0 && !u.HasProperty(Name("A"));
    u.Clear();
    assert u.entries == [];
  }

  /** test_invalid_key_names: each rejected key raises and leaves the registry as it was. */
  method InvalidKeysScenario()
  {
    var u := new Universe();
    var ok := u.SetProperty(Name("One"), Int(1));
    ghost var before := u.entries;
    TestSuiteRejections();
    var r1 := u.SetProperty(Name("1_method"), Text("blah"));
    var r2 := u.SetProperty(Name("method-one"), Text("blah"));
    var r3 := u.SetProperty(Name("method[]"), Text("blah"));
    var r4 := u.SetProperty(Name("method="), Text("blah"));
    var r5 := u.SetProperty(NonString(123), Text("blah"));
    assert r1.Failure? && r2.Failure? && r3.Failure? && r4.Failure? && r5.Failure?;
    assert r5.error.cause.reason == NotAString;
    assert u.entries == before;
  }

  /** test_deferred_creation: a proc stored as a property is called once, on first read. */
  method DeferredScenario()
  {
    var u := new Universe();
    assert "deferred="[..8] == "deferred";
    var w := u.MethodMissing("deferred=", [Proc(7, Text("Blah-de-blah"))]);
    assert w == Success(Chained);
    assert u.HasProperty(Name("deferred"));
    var first := u.MethodMissing("deferred", []);
    assert first == Success(Got(Text("Blah-de-blah")));
    assert u.calls == [7];
    var second := u.MethodMissing("deferred", []);
    assert second == Success(Got(Text("Blah-de-blah")));
    assert u.calls == [7];
  }
}
