/** A concrete session: Alice ("a1") and Bob ("b2") join, Bob shares a
    location, then Bob disconnects. Each lemma pins down one step. */
module Scenario {
  import opened JsTypes
  import opened Protocol
  import opened Presence
  import OrderedMap

  const Alice := User("a1", Some("Alice"), Missing, Missing, Missing, 0)
  const Bob := User("b2", Some("Bob"), Missing, Missing, Missing, 2)
  const Here := LocationData(Finite(10.0), Finite(20.0), Finite(5.0), None)
  const BobHere := User("b2", Some("Bob"), Finite(10.0), Finite(20.0), Finite(5.0), 4)

  /** Alice is connected but has not set a nickname. */
  const S1 := State(OrderedMap.OMap([], map[]), map["a1" := NewUser("a1", 0)])
  /** Alice is registered. */
  const S2 := State(OrderedMap.OMap(["a1"], map["a1" := Alice]), map["a1" := Alice])
  /** Bob is connected too. */
  const S3 := State(OrderedMap.OMap(["a1"], map["a1" := Alice]), map["a1" := Alice, "b2" := NewUser("b2", 2)])
  /** Both are registered. */
  const S4 := State(OrderedMap.OMap(["a1", "b2"], map["a1" := Alice, "b2" := Bob]), map["a1" := Alice, "b2" := Bob])
  /** Bob has shared a location. */
  const S5 := State(OrderedMap.OMap(["a1", "b2"], map["a1" := Alice, "b2" := BobHere]), map["a1" := Alice, "b2" := BobHere])
  /** Bob is gone. */
  const S6 := State(OrderedMap.OMap(["a1"], map["a1" := Alice]), map["a1" := Alice])

  lemma AliceConnects()
    ensures Step(Initial(), "a1", Connect, 0) == Success(Outcome(S1, []))
  {
  }

  /** Alice, alone, is told that nobody else is here. */
  lemma AliceSetsNickname()
    ensures Inv(S1)
    ensures Step(S1, "a1", SetNickname(Some("Alice")), 1) == Success(Outcome(S2, [
      Outbound(ToSender("a1"), ActiveUsers([])),
      Outbound(ToAllExcept("a1"), UserJoined("a1", Some("Alice"), 1))]))
  {
    assert Or(Some("Alice"), Some(Anonymous)) == Some("Alice");
    assert S1.sessions["a1"].(nickname := Some("Alice")) == Alice;
    AliceRegisters();
    AliceSeesNobody();
  }

  lemma AliceRegisters()
    ensures Inv(S1) && Commit(S1, "a1", Alice) == S2
  {
    assert Inv(S1) by {
      assert OrderedMap.Valid(S1.registry);
      assert S1.sessions["a1"].userId == "a1";
    }
    assert OrderedMap.Set(S1.registry, "a1", Alice) == S2.registry by {
      assert S1.registry.order + ["a1"] == ["a1"];
      assert S1.registry.entries["a1" := Alice] == map["a1" := Alice];
    }
    assert S1.sessions["a1" := Alice] == S2.sessions;
  }

  lemma AliceSeesNobody()
    ensures OrderedMap.Valid(S2.registry) && Snapshot(S2.registry, "a1") == []
  {
    assert OrderedMap.Values(S2.registry) == [Alice];
    assert OthersOf([Alice], "a1") == OthersOf([], "a1") == [];
  }

  lemma BobConnects()
    ensures Inv(S2)
    ensures Step(S2, "b2", Connect, 2) == Success(Outcome(S3, []))
  {
  }

  /** Bob is shown Alice; Alice hears that Bob joined. */
  lemma BobSetsNickname()
    ensures Inv(S3)
    ensures Step(S3, "b2", SetNickname(Some("Bob")), 3) == Success(Outcome(S4, [
      Outbound(ToSender("b2"), ActiveUsers([Alice])),
      Outbound(ToAllExcept("b2"), UserJoined("b2", Some("Bob"), 3))]))
  {
    assert Or(Some("Bob"), Some(Anonymous)) == Some("Bob");
    assert S3.sessions["b2"].(nickname := Some("Bob")) == Bob;
    BobRegisters();
    BobSeesAlice();
  }

  lemma BobRegisters()
    ensures Inv(S3) && Commit(S3, "b2", Bob) == S4
  {
    assert OrderedMap.Set(S3.registry, "b2", Bob) == S4.registry;
    assert S3.sessions["b2" := Bob] == S4.sessions;
  }

  lemma BobSeesAlice()
    ensures OrderedMap.Valid(S4.registry) && Snapshot(S4.registry, "b2") == [Alice]
  {
    assert OrderedMap.Values(S4.registry) == [Alice, Bob];
    assert OthersOf([Bob], "b2") == OthersOf([], "b2") == [];
    assert OthersOf([Alice, Bob], "b2") == [Alice] + OthersOf([Bob], "b2");
  }

  /** Alice hears Bob's location under his nickname. */
  lemma BobSharesLocation()
    ensures Inv(S4)
    ensures Step(S4, "b2", LocationUpdate(Some(Here)), 4) == Success(Outcome(S5, [
      Outbound(ToAllExcept("b2"), UserLocation("b2", Finite(10.0), Finite(20.0), Finite(5.0), Some("Bob"), 4))]))
  {
    assert Or(None, Some("Bob")) == Some("Bob");
    assert S4.sessions["b2"].(lat := Finite(10.0), lng := Finite(20.0), accuracy := Finite(5.0),
                              nickname := Some("Bob"), timestamp := 4) == BobHere;
    BobMoves();
  }

  lemma BobMoves()
    ensures Inv(S4) && Commit(S4, "b2", BobHere) == S5
  {
    BobRegisters();
    assert OrderedMap.Set(S4.registry, "b2", BobHere) == S5.registry;
    assert S4.sessions["b2" := BobHere] == S5.sessions;
  }

  /** Alice hears that Bob left, and the registry no longer holds him. */
  lemma BobDisconnects()
    ensures Inv(S5)
    ensures Step(S5, "b2", Disconnect, 5) == Success(Outcome(S6, [
      Outbound(ToAllExcept("b2"), UserLeft("b2", Some("Bob")))]))
  {
    assert OrderedMap.Without(["a1", "b2"], "b2") == ["a1"];
    assert S5.registry.entries - {"b2"} == S6.registry.entries;
    assert S5.sessions - {"b2"} == S6.sessions;
    assert LeavingNickname(S5.registry, "b2") == Some("Bob");
  }
}
