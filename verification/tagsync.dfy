/**
  The tag sender: `getTagsByRange` (chat/chat.go:149-180) and one cycle of the
  loop in `startTagSender` (chat/chat.go:188-213). Clock, sleep and the search
  itself are inputs; send errors are only logged, so they change nothing here.
 */
module TagSync {
  import opened Wrappers
  import opened Messages
  import opened Watermark
  import opened Registry

  /** The hits of the tag search as announcements; None (Go's nil) when the search returned none. */
  function GetTagsByRange(search: Option<seq<Hit>>): (r: Option<seq<Message>>)
    ensures r.None? <==> search.None?
    ensures r.Some? ==> |r.value| == |search.value|
    ensures r.Some? ==> forall i :: 0 <= i < |r.value| ==>
      r.value[i].id == search.value[i].id && r.value[i].content == ""
      && r.value[i].tag == Decoded(search.value[i]).tag && r.value[i].ts == Decoded(search.value[i]).ts
  {
    match search
    case None => None
    case Some(hits) => Some(seq(|hits|, i requires 0 <= i < |hits| => TagMessage(hits[i])))
  }

  /** The fetched messages a record is owed, in fetched order. */
  function Window(msgs: seq<Message>, ut: ConnUpdTime): (r: seq<Message>)
    ensures forall m :: m in r <==> m in msgs && ut.InUpdateRange(m.ts)
    ensures |r| <= |msgs|
    decreases |msgs|
  {
    if |msgs| == 0 then []
    else if ut.InUpdateRange(msgs[0].ts) then [msgs[0]] + Window(msgs[1..], ut)
    else Window(msgs[1..], ut)
  }

  /** Filtering a page distributes over splitting it, so the fetched order is kept. */
  lemma {:induction false} WindowAppend(a: seq<Message>, b: seq<Message>, ut: ConnUpdTime)
    ensures Window(a + b, ut) == Window(a, ut) + Window(b, ut)
    decreases |a|
  {
    if |a| > 0 {
      assert (a + b)[0] == a[0];
      assert (a + b)[1..] == a[1..] + b;
      WindowAppend(a[1..], b, ut);
    } else {
      assert a + b == b;
    }
  }

  /** A newest-first page yields a newest-first window. */
  lemma {:induction false} WindowNewestFirst(msgs: seq<Message>, ut: ConnUpdTime)
    requires NewestFirst(msgs)
    ensures NewestFirst(Window(msgs, ut))
    decreases |msgs|
  {
    if |msgs| > 0 {
      assert NewestFirst(msgs[1..]);
      WindowNewestFirst(msgs[1..], ut);
      var w := Window(msgs[1..], ut);
      forall k | 0 <= k < |w|
        ensures w[k].ts <= msgs[0].ts
      {
        assert w[k] in msgs[1..];
      }
    }
  }

  /** A record that is not behind is owed nothing, whatever was fetched. */
  lemma WindowEmptyUnlessBehind(msgs: seq<Message>, ut: ConnUpdTime)
    requires !ut.NeedsUpdate()
    ensures Window(msgs, ut) == []
  {
    var w := Window(msgs, ut);
    if |w| > 0 {
      assert w[0] in w;
      InRangeImpliesBehind(ut, w[0].ts);
    }
  }

  /** What the cycle does to one connection: only a behind one is sent its window and caught up to `lastUpd`. */
  function TagVisitor(msgs: seq<Message>, lastUpd: Int64): (f: Visitor)
    ensures forall h: Handle, ut: ConnUpdTime :: !f(h, ut).verdict.Drop?
    ensures forall h: Handle, ut: ConnUpdTime :: ut.NeedsUpdate() ==>
      f(h, ut).emitted == Window(msgs, ut)
      && f(h, ut).verdict.Replace?
      && f(h, ut).verdict.record.lastTagUpd == lastUpd
      && f(h, ut).verdict.record.lastMessageUpd == ut.lastMessageUpd
    ensures forall h: Handle, ut: ConnUpdTime :: !ut.NeedsUpdate() ==> f(h, ut) == Step(Keep, [])
  {
    (h: Handle, ut: ConnUpdTime) =>
      if ut.NeedsUpdate() then Step(Replace(ut.(lastTagUpd := lastUpd)), Window(msgs, ut))
      else Step(Keep, [])
  }

  lemma TagVisitorSteps(msgs: seq<Message>, lastUpd: Int64, reg: Registry)
    ensures forall h :: h in reg ==>
      !TagVisitor(msgs, lastUpd)(h, reg[h]).verdict.Drop?
      && TagVisitor(msgs, lastUpd)(h, reg[h]).emitted == (if reg[h].NeedsUpdate() then Window(msgs, reg[h]) else [])
      && Applied(reg[h], TagVisitor(msgs, lastUpd)(h, reg[h]).verdict)
         == (if reg[h].NeedsUpdate() then reg[h].(lastTagUpd := lastUpd) else reg[h])
  {
  }

  /** A cycle either finishes or crashes on `msgs[0]` of a non-nil empty page. */
  datatype CycleOutcome = Cycle(round: Round) | IndexPanic

  /**
    One tag-sender cycle over the fetched page `fetch`, visiting connections in
    `order`. Nil leaves everything alone. Otherwise every behind connection is
    sent exactly the fetched messages inside its window, in fetched order, and
    its tag watermark becomes the first (newest) fetched timestamp; other
    connections are untouched and sent nothing; no handle is added or removed.
   */
  function TagCycle(reg: Registry, fetch: Option<seq<Message>>, order: seq<Handle>): (r: CycleOutcome)
    requires Enumerates(order, reg.Keys)
    ensures fetch.None? ==> r == Cycle(Round(reg, map[]))
    ensures fetch == Some([]) ==> r == IndexPanic
    ensures fetch.Some? && |fetch.value| > 0 ==>
      && r.Cycle?
      && r.round.registry.Keys == reg.Keys
      && r.round.outbox.Keys == reg.Keys
      && (forall h :: h in reg && reg[h].NeedsUpdate() ==>
            && r.round.registry[h].lastTagUpd == fetch.value[0].ts
            && r.round.registry[h].lastMessageUpd == reg[h].lastMessageUpd
            && r.round.outbox[h] == Window(fetch.value, reg[h]))
      && (forall h :: h in reg && !reg[h].NeedsUpdate() ==>
            r.round.registry[h] == reg[h] && r.round.outbox[h] == [])
  {
    match fetch
    case None => Cycle(Round(reg, map[]))
    case Some(msgs) =>
      if |msgs| == 0 then IndexPanic
      else
        var f := TagVisitor(msgs, msgs[0].ts);
        TagVisitorSteps(msgs, msgs[0].ts, reg);
        Cycle(ForEach(reg, order, f))
  }

  /** A cycle fed by the tag search never panics, and every frame it sends has its content blanked. */
  lemma TagFramesBlank(reg: Registry, search: Option<seq<Hit>>, order: seq<Handle>)
    requires Enumerates(order, reg.Keys)
    requires search != Some([])
    ensures TagCycle(reg, GetTagsByRange(search), order).Cycle?
    ensures var out := TagCycle(reg, GetTagsByRange(search), order).round.outbox;
      forall h, m :: h in out && m in out[h] ==> m.content == ""
  {
  }

  /** On a newest-first page, every connection's frames are newest-first too. */
  lemma TagCycleNewestFirst(reg: Registry, msgs: seq<Message>, order: seq<Handle>, h: Handle)
    requires Enumerates(order, reg.Keys)
    requires |msgs| > 0 && NewestFirst(msgs)
    requires h in reg
    ensures NewestFirst(TagCycle(reg, Some(msgs), order).round.outbox[h])
  {
    WindowNewestFirst(msgs, reg[h]);
  }

  /**
    On a newest-first page, a behind connection ends with its tag watermark at
    or past every fetched timestamp, and it is caught up (no longer behind)
    exactly when the newest fetched timestamp reaches its message watermark.
   */
  lemma TagCycleCatchesUp(reg: Registry, msgs: seq<Message>, order: seq<Handle>, h: Handle)
    requires Enumerates(order, reg.Keys)
    requires |msgs| > 0 && NewestFirst(msgs)
    requires h in reg && reg[h].NeedsUpdate()
    ensures forall m :: m in msgs ==> m.ts <= TagCycle(reg, Some(msgs), order).round.registry[h].lastTagUpd
    ensures !TagCycle(reg, Some(msgs), order).round.registry[h].NeedsUpdate() <==> msgs[0].ts >= reg[h].lastMessageUpd
  {
  }

  /**
    The tag watermark is assigned, not maximised: a behind record whose tag
    watermark is newer than the newest fetched message is moved back to it.
   */
  lemma TagCycleAssignsTagWatermark(reg: Registry, msgs: seq<Message>, order: seq<Handle>, h: Handle)
    requires Enumerates(order, reg.Keys)
    requires |msgs| > 0
    requires h in reg && reg[h].NeedsUpdate() && msgs[0].ts < reg[h].lastTagUpd
    ensures TagCycle(reg, Some(msgs), order).round.registry[h].lastTagUpd == msgs[0].ts
    ensures TagCycle(reg, Some(msgs), order).round.registry[h].lastTagUpd < reg[h].lastTagUpd
  {
  }
}
