/** The per-connection pair of watermarks, `connUpdTime` (chat/chat.go:40-59). */
module Watermark {
  import opened Messages

  /**
    `lastMessageUpd` is the timestamp of the last broadcast this connection was
    sent; `lastTagUpd` is how far the tag sender has caught it up.
   */
  datatype ConnUpdTime = ConnUpdTime(lastMessageUpd: Int64, lastTagUpd: Int64) {

    /** The connection is "behind": the tag sender owes it a pass. */
    predicate NeedsUpdate(): (r: bool)
      ensures r <==> InUpdateRange(lastMessageUpd)
    {
      lastMessageUpd > lastTagUpd
    }

    /** `ts` lies in the window the tag sender still owes: above the tag watermark, up to the message one. */
    predicate InUpdateRange(ts: int): (r: bool)
      ensures r ==> lastTagUpd < ts <= lastMessageUpd && lastMessageUpd > lastTagUpd
    {
      lastTagUpd < ts && lastMessageUpd >= ts
    }
  }

  /** Anything owed means the record is behind. */
  lemma InRangeImpliesBehind(ut: ConnUpdTime, ts: int)
    requires ut.InUpdateRange(ts)
    ensures ut.NeedsUpdate()
    ensures ut.lastTagUpd < ts <= ut.lastMessageUpd
  {
  }

  /** A record is behind exactly when its update window holds some timestamp. */
  lemma BehindIffWindowInhabited(ut: ConnUpdTime)
    ensures ut.NeedsUpdate() <==> exists ts: int :: ut.InUpdateRange(ts)
  {
    if ut.NeedsUpdate() {
      assert ut.InUpdateRange(ut.lastMessageUpd);
    }
  }

  /** A record whose two watermarks agree is not behind and owes nothing. */
  lemma EqualWatermarksOweNothing(now: Int64, ts: int)
    ensures !ConnUpdTime(now, now).NeedsUpdate()
    ensures !ConnUpdTime(now, now).InUpdateRange(ts)
  {
  }
}
