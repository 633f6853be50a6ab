/** Worked runs of the registry, broadcast and tag sender on concrete values. */
module Scenarios {
  import opened Wrappers
  import opened Messages
  import opened Watermark
  import opened Registry
  import opened Fanout
  import opened TagSync

  function Tagged(id: string, ts: Int64): Message {
    Message(id, "news", "", ts)
  }

  const Page := [Tagged("a", 60), Tagged("b", 40), Tagged("c", 20), Tagged("d", 5)]

  lemma PageWindow()
    ensures Window(Page, ConnUpdTime(50, 10)) == [Tagged("b", 40), Tagged("c", 20)]
  {
    var ut := ConnUpdTime(50, 10);
    assert Window(Page[3..], ut) == [];
    assert Window(Page[2..], ut) == [Tagged("c", 20)];
    assert Window(Page[1..], ut) == [Tagged("b", 40), Tagged("c", 20)];
  }

  /**
    Watermarks (tag 10, message 50) and a fetched page at 60, 40, 20, 5: the
    messages at 40 and 20 are sent, in that order, and the tag watermark
    becomes 60 although 60 lies outside the window. The registry is a
    parameter fixed by the requires so that the solver does not unfold the
    whole pass on literal arguments.
   */
  lemma WindowExample(reg: Registry)
    requires reg == map[Handle(1) := ConnUpdTime(50, 10)]
    ensures Enumerates([Handle(1)], reg.Keys)
    ensures TagCycle(reg, Some(Page), [Handle(1)])
      == Cycle(Round(map[Handle(1) := ConnUpdTime(50, 60)], map[Handle(1) := [Tagged("b", 40), Tagged("c", 20)]]))
  {
    var h := Handle(1);
    assert Elems([h]) == {h};
    PageWindow();
    var r := TagCycle(reg, Some(Page), [h]);
    assert r.round.registry.Keys == {h};
    assert r.round.outbox.Keys == {h};
  }

  lemma ScenarioRegister(a: Handle, b: Handle, c: Handle)
    requires a != b && b != c && a != c
    ensures AddConn(AddConn(AddConn(map[], a, 100), b, 100), c, 100)
      == map[a := ConnUpdTime(100, 100), b := ConnUpdTime(100, 100), c := ConnUpdTime(100, 100)]
  {
  }

  /** The helpers below take their registry as a parameter fixed by the requires, for the same reason as `WindowExample`. */
  lemma ScenarioBroadcastOutbox(reg0: Registry, a: Handle, b: Handle, c: Handle, hi: Message)
    requires a != b && b != c && a != c
    requires reg0 == map[a := ConnUpdTime(100, 100), b := ConnUpdTime(100, 100), c := ConnUpdTime(100, 100)]
    ensures Enumerates([a, b, c], reg0.Keys)
    ensures Broadcast(reg0, hi, {a}, [a, b, c]).outbox == map[a := [hi], b := [hi], c := [hi]]
  {
    assert Elems([a, b, c]) == {a, b, c};
    var bc := Broadcast(reg0, hi, {a}, [a, b, c]);
    assert bc.outbox.Keys == {a, b, c};
  }

  lemma ScenarioBroadcastRegistry(reg0: Registry, a: Handle, b: Handle, c: Handle, hi: Message)
    requires a != b && b != c && a != c && hi.ts == 105
    requires reg0 == map[a := ConnUpdTime(100, 100), b := ConnUpdTime(100, 100), c := ConnUpdTime(100, 100)]
    requires Enumerates([a, b, c], reg0.Keys)
    ensures Broadcast(reg0, hi, {a}, [a, b, c]).registry == map[b := ConnUpdTime(105, 100), c := ConnUpdTime(105, 100)]
  {
    var bc := Broadcast(reg0, hi, {a}, [a, b, c]);
    assert bc.registry.Keys == {b, c};
  }

  lemma ScenarioTagCycle(reg1: Registry, b: Handle, c: Handle, tagged: Message)
    requires b != c && tagged.ts == 110
    requires reg1 == map[b := ConnUpdTime(105, 100), c := ConnUpdTime(105, 100)]
    ensures Enumerates([b, c], reg1.Keys)
    ensures TagCycle(reg1, Some([tagged]), [b, c])
      == Cycle(Round(map[b := ConnUpdTime(105, 110), c := ConnUpdTime(105, 110)], map[b := [], c := []]))
  {
    assert Elems([b, c]) == {b, c};
    assert Window([tagged], ConnUpdTime(105, 100)) == [];
    var r := TagCycle(reg1, Some([tagged]), [b, c]);
    assert r.round.registry.Keys == {b, c};
    assert r.round.outbox.Keys == {b, c};
  }

  /**
    Three clients register at 100; a message at 105 is sent to all three, the
    send to `a` fails and `a` is pruned; `b` and `c` are left behind (105 > 100).
    A cycle that fetches one tagged message at 110 sends them nothing, since 110
    lies outside their window (100, 105], yet moves their tag watermark to 110,
    so they are no longer behind. The handles and messages are parameters,
    which keeps the solver from unfolding the passes on literal arguments;
    the run is the same for any three distinct handles.
   */
  lemma ThreeClientScenario(a: Handle, b: Handle, c: Handle, hi: Message, tagged: Message)
    requires a != b && b != c && a != c && hi.ts == 105 && tagged.ts == 110
    ensures Enumerates([a, b, c], AddConn(AddConn(AddConn(map[], a, 100), b, 100), c, 100).Keys)
    ensures
      var bc := Broadcast(AddConn(AddConn(AddConn(map[], a, 100), b, 100), c, 100), hi, {a}, [a, b, c]);
      && bc.outbox == map[a := [hi], b := [hi], c := [hi]]
      && bc.registry == map[b := ConnUpdTime(105, 100), c := ConnUpdTime(105, 100)]
      && Enumerates([b, c], bc.registry.Keys)
      && TagCycle(bc.registry, Some([tagged]), [b, c])
         == Cycle(Round(map[b := ConnUpdTime(105, 110), c := ConnUpdTime(105, 110)], map[b := [], c := []]))
  {
    ScenarioRegister(a, b, c);
    var reg0 := AddConn(AddConn(AddConn(map[], a, 100), b, 100), c, 100);
    ScenarioBroadcastOutbox(reg0, a, b, c, hi);
    ScenarioBroadcastRegistry(reg0, a, b, c, hi);
    ScenarioTagCycle(Broadcast(reg0, hi, {a}, [a, b, c]).registry, b, c, tagged);
  }
}
