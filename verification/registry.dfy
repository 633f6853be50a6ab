/**
  The connection registry `Server.conns` (chat/chat.go:22-26): a map from an
  opaque connection handle to its watermark record, and the one way the server
  walks it, a `range` over the map in an order Go leaves unspecified.
 */
module Registry {
  import opened Messages
  import opened Watermark

  /** The identity of a `*websocket.Conn`. */
  datatype Handle = Handle(id: nat)

  type Registry = map<Handle, ConnUpdTime>

  /** What visiting one connection does to its record. */
  datatype Verdict = Keep | Replace(record: ConnUpdTime) | Drop

  /** The verdict for one connection and the frames sent to it on the way. */
  datatype Step = Step(verdict: Verdict, emitted: seq<Message>)

  type Visitor = (Handle, ConnUpdTime) -> Step

  /** The registry after one pass, and the frames each visited connection was sent. */
  datatype Round = Round(registry: Registry, outbox: map<Handle, seq<Message>>)

  /** `addConn`: (re)register `h` with both watermarks at the accept time `now`. */
  function AddConn(reg: Registry, h: Handle, now: Int64): (r: Registry)
    ensures r.Keys == reg.Keys + {h}
    ensures r[h].lastMessageUpd == now && r[h].lastTagUpd == now
    ensures !r[h].NeedsUpdate()
    ensures forall g :: g in reg && g != h ==> r[g] == reg[g]
    ensures |r| == if h in reg then |reg| else |reg| + 1
  {
    reg[h := ConnUpdTime(now, now)]
  }

  /** Registering the same handle twice keeps one entry, holding the later time. */
  lemma AddConnTwice(reg: Registry, h: Handle, t1: Int64, t2: Int64)
    ensures AddConn(AddConn(reg, h, t1), h, t2) == AddConn(reg, h, t2)
    ensures |AddConn(AddConn(reg, h, t1), h, t2)| == |AddConn(reg, h, t1)|
  {
  }

  function Elems(hs: seq<Handle>): set<Handle> {
    set h | h in hs
  }

  predicate NoDup(hs: seq<Handle>) {
    forall i, j :: 0 <= i < j < |hs| ==> hs[i] != hs[j]
  }

  /** `order` is one possible `range` order over `keys`: each key exactly once. */
  predicate Enumerates(order: seq<Handle>, keys: set<Handle>) {
    NoDup(order) && Elems(order) == keys
  }

  /** The record a verdict leaves behind, for a verdict other than Drop. */
  function Applied(ut: ConnUpdTime, v: Verdict): ConnUpdTime {
    if v.Replace? then v.record else ut
  }

  /** One loop iteration: visit `h` if it is still registered. */
  function Visit(cur: Round, h: Handle, f: Visitor): Round {
    if h !in cur.registry then cur
    else
      var s := f(h, cur.registry[h]);
      var reg := if s.verdict.Drop? then cur.registry - {h}
                 else cur.registry[h := Applied(cur.registry[h], s.verdict)];
      Round(reg, cur.outbox[h := s.emitted])
  }

  /**
    Order-free reference for a pass: every registered handle in `hs` has been
    visited once against its record in `cur`, and nothing else changed.
   */
  function Touched(cur: Round, hs: set<Handle>, f: Visitor): Round {
    Round(
      map h | h in cur.registry && !(h in hs && f(h, cur.registry[h]).verdict.Drop?) ::
        if h in hs then Applied(cur.registry[h], f(h, cur.registry[h]).verdict) else cur.registry[h],
      map h | h in cur.outbox.Keys + (hs * cur.registry.Keys) ::
        if h in hs && h in cur.registry then f(h, cur.registry[h]).emitted else cur.outbox[h])
  }

  lemma TouchedNothing(cur: Round, f: Visitor)
    ensures Touched(cur, {}, f) == cur
  {
    var t := Touched(cur, {}, f);
    assert t.registry == cur.registry;
    assert t.outbox == cur.outbox;
  }

  /** The registry half of `VisitThenTouched`. */
  lemma VisitThenTouchedRegistry(cur: Round, h: Handle, hs: set<Handle>, f: Visitor)
    requires h !in hs
    ensures Touched(Visit(cur, h, f), hs, f).registry == Touched(cur, hs + {h}, f).registry
  {
  }

  /** The outbox half of `VisitThenTouched`. */
  lemma VisitThenTouchedOutbox(cur: Round, h: Handle, hs: set<Handle>, f: Visitor)
    requires h !in hs
    ensures Touched(Visit(cur, h, f), hs, f).outbox == Touched(cur, hs + {h}, f).outbox
  {
  }

  /** Visiting `h` first and then the handles of `hs` is touching `hs + {h}`. */
  lemma VisitThenTouched(cur: Round, h: Handle, hs: set<Handle>, f: Visitor)
    requires h !in hs
    ensures Touched(Visit(cur, h, f), hs, f) == Touched(cur, hs + {h}, f)
  {
    VisitThenTouchedRegistry(cur, h, hs, f);
    VisitThenTouchedOutbox(cur, h, hs, f);
  }

  /** The `range` loop: visit the handles in `pending`, in that order. */
  function Fold(cur: Round, pending: seq<Handle>, f: Visitor): (r: Round)
    requires NoDup(pending)
    ensures r == Touched(cur, Elems(pending), f)
    decreases |pending|
  {
    if |pending| == 0 then
      TouchedNothing(cur, f);
      assert Elems(pending) == {};
      cur
    else
      var h := pending[0];
      assert NoDup(pending[1..]);
      assert Elems(pending) == Elems(pending[1..]) + {h};
      VisitThenTouched(cur, h, Elems(pending[1..]), f);
      Fold(Visit(cur, h, f), pending[1..], f)
  }

  /**
    One pass over the whole registry in the order `order`: each connection is
    visited once against its record, dropped, replaced or kept, and sent the
    frames its step emits; no handle appears that was not registered.
   */
  function ForEach(reg: Registry, order: seq<Handle>, f: Visitor): (r: Round)
    requires Enumerates(order, reg.Keys)
    ensures forall h :: h in r.registry <==> h in reg && !f(h, reg[h]).verdict.Drop?
    ensures forall h :: h in r.registry ==> r.registry[h] == Applied(reg[h], f(h, reg[h]).verdict)
    ensures r.outbox.Keys == reg.Keys
    ensures forall h :: h in r.outbox ==> r.outbox[h] == f(h, reg[h]).emitted
  {
    Fold(Round(reg, map[]), order, f)
  }

  /** The pass does not depend on the order Go happens to iterate in. */
  lemma ForEachOrderIndependent(reg: Registry, o1: seq<Handle>, o2: seq<Handle>, f: Visitor)
    requires Enumerates(o1, reg.Keys) && Enumerates(o2, reg.Keys)
    ensures ForEach(reg, o1, f) == ForEach(reg, o2, f)
  {
  }
}
