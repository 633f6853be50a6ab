/**
  The chat message, the stored document and the search hit, and the two ways
  the server turns a hit back into a message (chat/chat.go).
 */
module Messages {
  import opened Wrappers

  const MinInt64: int := -0x8000_0000_0000_0000
  const MaxInt64: int := 0x7fff_ffff_ffff_ffff

  /** Go's int64. Timestamps are only compared, never added, so no wrap-around arises. */
  type Int64 = x: int | MinInt64 <= x <= MaxInt64

  /** A chat message as it travels over the websocket. */
  datatype Message = Message(id: string, tag: string, content: string, ts: Int64)

  /** A stored chat document; the id is the storage key, not a field. */
  datatype Document = Document(tag: string, content: string, ts: Int64)

  /** A search hit: its id and its source, already decoded; None when the source is not well-formed JSON, and a partial decode is Some. */
  datatype Hit = Hit(id: string, source: Option<Document>)

  /** The zero value Go leaves in `doc` when the source is not well-formed JSON. */
  const ZeroDocument := Document("", "", 0)

  /** The document a hit is read as: its decoded source, or the zero document. */
  function Decoded(hit: Hit): Document {
    hit.source.GetOr(ZeroDocument)
  }

  /** The message replayed to a newly connected client. */
  function ReplayMessage(hit: Hit): (m: Message)
    ensures m.id == hit.id
    ensures hit.source.Some? ==> m.tag == hit.source.value.tag && m.content == hit.source.value.content && m.ts == hit.source.value.ts
    ensures hit.source.None? ==> m.tag == "" && m.content == "" && m.ts == 0
  {
    var doc := Decoded(hit);
    Message(hit.id, doc.tag, doc.content, doc.ts)
  }

  /** The message announced by the tag sender: its content is always blanked. */
  function TagMessage(hit: Hit): (m: Message)
    ensures m.id == hit.id && m.content == ""
    ensures hit.source.Some? ==> m.tag == hit.source.value.tag && m.ts == hit.source.value.ts
    ensures hit.source.None? ==> m.tag == "" && m.ts == 0
  {
    var doc := Decoded(hit);
    Message(hit.id, doc.tag, "", doc.ts)
  }

  /** A tag announcement is the replay message with its content blanked. */
  lemma TagMessageIsBlankedReplay(hit: Hit)
    ensures TagMessage(hit) == ReplayMessage(hit).(content := "")
  {
  }

  /** Newest first, as both searches sort: timestamps never increase. */
  predicate NewestFirst(msgs: seq<Message>) {
    forall i, j :: 0 <= i < j < |msgs| ==> msgs[i].ts >= msgs[j].ts
  }

  /** Oldest first, the chronological order of a replay. */
  predicate OldestFirst(msgs: seq<Message>) {
    forall i, j :: 0 <= i < j < |msgs| ==> msgs[i].ts <= msgs[j].ts
  }
}
