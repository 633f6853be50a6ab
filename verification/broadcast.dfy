/**
  One fan-out round of `Server.broadcast` (chat/chat.go:218-241), run one
  connection at a time. Which sends fail is an oracle: the set `failed`.
 */
module Fanout {
  import opened Messages
  import opened Watermark
  import opened Registry

  /** A failed send unregisters the connection; a successful one sets its message watermark to `msg.ts`. */
  function BroadcastVisitor(msg: Message, failed: set<Handle>): (f: Visitor)
    ensures forall h: Handle, ut: ConnUpdTime :: f(h, ut).emitted == [msg]
    ensures forall h: Handle, ut: ConnUpdTime :: f(h, ut).verdict.Drop? <==> h in failed
    ensures forall h: Handle, ut: ConnUpdTime :: h !in failed ==>
      f(h, ut).verdict.Replace?
      && f(h, ut).verdict.record.lastMessageUpd == msg.ts
      && f(h, ut).verdict.record.lastTagUpd == ut.lastTagUpd
  {
    (h: Handle, ut: ConnUpdTime) =>
      Step(if h in failed then Drop else Replace(ut.(lastMessageUpd := msg.ts)), [msg])
  }

  lemma BroadcastVisitorSteps(msg: Message, failed: set<Handle>, reg: Registry)
    ensures forall h :: h in reg ==>
      BroadcastVisitor(msg, failed)(h, reg[h]).emitted == [msg]
      && (BroadcastVisitor(msg, failed)(h, reg[h]).verdict.Drop? <==> h in failed)
      && (h !in failed ==> Applied(reg[h], BroadcastVisitor(msg, failed)(h, reg[h]).verdict) == reg[h].(lastMessageUpd := msg.ts))
  {
  }

  /** Order-free reference for the registry after a round. */
  function Broadcasted(reg: Registry, msg: Message, failed: set<Handle>): Registry {
    map h | h in reg && h !in failed :: reg[h].(lastMessageUpd := msg.ts)
  }

  /**
    A broadcast round in the iteration order `order`: every registered
    connection is sent `msg` exactly once; the ones whose send failed are gone,
    the others have `lastMessageUpd = msg.ts` with `lastTagUpd` untouched, and
    no new handle appears.
   */
  function Broadcast(reg: Registry, msg: Message, failed: set<Handle>, order: seq<Handle>): (r: Round)
    requires Enumerates(order, reg.Keys)
    ensures forall h :: h in r.registry <==> h in reg && h !in failed
    ensures forall h :: h in r.registry ==>
      r.registry[h].lastMessageUpd == msg.ts && r.registry[h].lastTagUpd == reg[h].lastTagUpd
    ensures r.outbox.Keys == reg.Keys
    ensures forall h :: h in r.outbox ==> r.outbox[h] == [msg]
    ensures r.registry == Broadcasted(reg, msg, failed)
  {
    var f := BroadcastVisitor(msg, failed);
    var r := ForEach(reg, order, f);
    BroadcastVisitorSteps(msg, failed, reg);
    assert r.registry == Broadcasted(reg, msg, failed);
    r
  }

  /** The watermark does not go back when the message is not older than what the connection last saw. */
  lemma BroadcastMonotone(reg: Registry, msg: Message, failed: set<Handle>, h: Handle)
    requires h in Broadcasted(reg, msg, failed)
    requires msg.ts >= reg[h].lastMessageUpd
    ensures Broadcasted(reg, msg, failed)[h].lastMessageUpd >= reg[h].lastMessageUpd
  {
  }

  /** The watermark is assigned, not maximised: an older message moves it back. */
  lemma BroadcastAssignsWatermark(reg: Registry, msg: Message, h: Handle)
    requires h in reg && msg.ts < reg[h].lastMessageUpd
    ensures h in Broadcasted(reg, msg, {})
    ensures Broadcasted(reg, msg, {})[h].lastMessageUpd < reg[h].lastMessageUpd
  {
  }

  /** Consecutive broadcast rounds; round `i` sends `msgs[i]` and the sends to `fails[i]` fail. */
  function Rounds(reg: Registry, msgs: seq<Message>, fails: seq<set<Handle>>): Registry
    requires |msgs| == |fails|
    decreases |msgs|
  {
    if |msgs| == 0 then reg
    else Rounds(Broadcasted(reg, msgs[0], fails[0]), msgs[1..], fails[1..])
  }

  /**
    Over messages broadcast in timestamp order, starting from records no newer
    than the first message, each surviving connection's message watermark only
    grows, ends at the last message's timestamp, and its tag watermark is untouched.
   */
  lemma {:induction false} RoundsMonotone(reg: Registry, msgs: seq<Message>, fails: seq<set<Handle>>)
    requires |msgs| == |fails|
    requires OldestFirst(msgs)
    requires |msgs| > 0 ==> forall h :: h in reg ==> reg[h].lastMessageUpd <= msgs[0].ts
    ensures forall h :: h in Rounds(reg, msgs, fails) ==>
      h in reg
      && Rounds(reg, msgs, fails)[h].lastMessageUpd >= reg[h].lastMessageUpd
      && Rounds(reg, msgs, fails)[h].lastTagUpd == reg[h].lastTagUpd
    ensures |msgs| > 0 ==> forall h :: h in Rounds(reg, msgs, fails) ==>
      Rounds(reg, msgs, fails)[h].lastMessageUpd == msgs[|msgs| - 1].ts
    decreases |msgs|
  {
    if |msgs| > 0 {
      var next := Broadcasted(reg, msgs[0], fails[0]);
      var rest := msgs[1..];
      assert OldestFirst(rest);
      if |rest| > 0 {
        assert msgs[0].ts <= msgs[1].ts;
      }
      RoundsMonotone(next, rest, fails[1..]);
      if |rest| == 0 {
        assert Rounds(next, rest, fails[1..]) == next;
      }
    }
  }

  /** A connection whose send failed in any round is absent afterwards: rounds never add handles. */
  lemma {:induction false} RoundsPrune(reg: Registry, msgs: seq<Message>, fails: seq<set<Handle>>)
    requires |msgs| == |fails|
    ensures Rounds(reg, msgs, fails).Keys <= reg.Keys
    ensures forall i, h :: 0 <= i < |fails| && h in fails[i] ==> h !in Rounds(reg, msgs, fails)
    decreases |msgs|
  {
    if |msgs| > 0 {
      var next := Broadcasted(reg, msgs[0], fails[0]);
      RoundsPrune(next, msgs[1..], fails[1..]);
      forall i, h | 0 <= i < |fails| && h in fails[i]
        ensures h !in Rounds(reg, msgs, fails)
      {
        if i > 0 {
          assert h in fails[1..][i - 1];
        }
      }
    }
  }
}
