# tagged_chat: connection watermarks, broadcast and tag sync, in Dafny

This project models the core of a websocket chat relay (`chat/chat.go`). The
server keeps a registry from each open connection to a pair of watermarks,
`connUpdTime{lastMessageUpd, lastTagUpd}`. Every inbound message is broadcast
to all registered connections. A connection whose send fails is dropped. A
connection whose send succeeds has its message watermark set to the message's
timestamp. A background tag sender periodically fetches the newest tagged
messages. Each connection that is "behind" (message watermark above tag
watermark) is sent the fetched messages inside its window
`(lastTagUpd, lastMessageUpd]`, and its tag watermark is then moved to the
newest fetched timestamp. The model also covers the in-place reversal that
replays history oldest-first to a new connection, and the helpers of the
tag-list handlers: `contains`, the add rule and `removeElement`.

Everything is modelled as pure functions over immutable values:

- `Wrappers`: `Option`, which stands for Go's nil slices and for decode failures.
- `Messages`: `Message`, `Document` and `Hit`. `Int64` is a subset type of `int`. It covers the two ways a search hit becomes a message.
- `Watermark`: `ConnUpdTime` with `NeedsUpdate` and `InUpdateRange`.
- `Registry`: connection handles and `AddConn`. It also holds the generic pass `ForEach` over the registry. The pass visits every handle once, in an order that is an input: Go's map iteration order is unspecified. Each visit yields a verdict (keep, replace or drop) and the frames sent. `ForEach` is proved equal to an order-free reference, `Touched`.
- `Fanout`: the broadcast round. Which sends fail is an oracle, the set `failed`. It also includes a multi-round fold for monotonicity and pruning.
- `TagSync`: `getTagsByRange` and one cycle of `startTagSender`.
- `History`: the replay of `sendInitialMsgs`, with its two-index swap loop.
- `TagList`: `contains`, add-tag, `removeElement` and delete-tag. Case folding is an abstract key function.
- `Scenarios`: worked runs on concrete timestamps.

Behaviours of the code worth knowing, which the model keeps:

- A send error during a tag-sync cycle is only logged. The connection stays registered (chat/chat.go:199-201).
- Tag-sync frames always have their content blanked (chat/chat.go:172).
- With three clients registered at 100 and a broadcast at 105 whose send to A fails, a cycle that fetches a tagged message at 110 sends B and C nothing, because their window is `(100, 105]`, and still moves their tag watermark to 110 (`Scenarios.ThreeClientScenario`).
- A tag-sync cycle assigns the newest fetched timestamp to a behind connection's tag watermark without comparing it with the old value, so the tag watermark can move backwards (chat/chat.go:192, 206), just as a broadcast assigns the message watermark (chat/chat.go:232).
- Registering a handle again overwrites its record with fresh watermarks.
- The search returns nil exactly when it has no hits. A non-nil empty page would make `msgs[0]` panic. The model returns `IndexPanic` for that case rather than skipping the cycle.

## Model

| member | source | states |
|---|---|---|
| Watermark.ConnUpdTime.NeedsUpdate | chat/chat.go:45-51 | a record is behind exactly when its own message watermark lies inside its update window |
| Watermark.ConnUpdTime.InUpdateRange | chat/chat.go:53-59 | a timestamp in the update window lies strictly above the tag watermark and at or below the message watermark, so the two watermarks are apart |
| Watermark.InRangeImpliesBehind | chat/chat.go:45-59 | a timestamp inside the update window implies the record needs an update, and lies in (lastTagUpd, lastMessageUpd] |
| Watermark.BehindIffWindowInhabited | chat/chat.go:45-59 | a record needs an update exactly when some timestamp lies in its update window |
| Watermark.EqualWatermarksOweNothing | chat/chat.go:45-59 | a record with equal watermarks is not behind and owes no timestamp |
| Registry.AddConn | chat/chat.go:75-84 | registering adds exactly the handle, both watermarks equal `now`, so the new record is not behind; other records are untouched; an existing handle is overwritten and the size does not grow |
| Registry.AddConnTwice | chat/chat.go:75-84 | registering the same handle twice equals registering it once with the later time, with no second entry |
| Registry.Fold | chat/chat.go:221-237 | visiting handles one by one in a duplicate-free order equals the order-free reference in which each listed registered handle is visited once against its original record |
| Registry.ForEach | chat/chat.go:194-211 | a pass over the whole registry keeps exactly the handles not dropped, gives each its verdict's record, sends each registered handle exactly its step's frames, and adds no handle |
| Registry.ForEachOrderIndependent | chat/chat.go:195 | the result of a pass does not depend on the map iteration order |
| Fanout.BroadcastVisitor | chat/chat.go:224-235 | per connection: the message is sent once; a failed send drops the connection; a successful one keeps it with lastMessageUpd = msg.ts and lastTagUpd unchanged |
| Fanout.Broadcast | chat/chat.go:218-241 | after a round, failed handles are gone, the others have lastMessageUpd = msg.ts with lastTagUpd unchanged, no handle appears, and every registered handle was sent the message exactly once |
| Fanout.BroadcastMonotone | chat/chat.go:229-234 | a surviving watermark does not decrease when the message is not older than it |
| Fanout.BroadcastAssignsWatermark | chat/chat.go:232 | the watermark is assigned, not maximised: an older message moves it back |
| Fanout.RoundsMonotone | chat/chat.go:218-241 | over messages in timestamp order starting no earlier than every record, each surviving message watermark only grows and ends at the last timestamp, and tag watermarks never change |
| Fanout.RoundsPrune | chat/chat.go:225-228 | a handle whose send failed in any round is absent afterwards; rounds never add handles |
| TagSync.GetTagsByRange | chat/chat.go:149-180 | nil search gives nil; otherwise one message per hit, in hit order, with the hit's id, the decoded tag and ts, and empty content |
| TagSync.Window | chat/chat.go:197-204 | a message is sent to a connection exactly when it was fetched and its ts lies in the connection's update window; never more than fetched |
| TagSync.WindowAppend | chat/chat.go:197-204 | the filter distributes over concatenation, so the fetched order is kept |
| TagSync.WindowNewestFirst | chat/chat.go:197-204 | a newest-first page yields a newest-first sequence of frames |
| TagSync.WindowEmptyUnlessBehind | chat/chat.go:196-198 | a connection that is not behind would be owed nothing |
| TagSync.TagVisitor | chat/chat.go:196-210 | per connection: never dropped; a behind record is sent exactly its window and gets lastTagUpd = the cycle's newest ts with lastMessageUpd unchanged; any other record is kept and sent nothing |
| TagSync.TagCycle | chat/chat.go:191-213 | a nil fetch changes nothing and sends nothing; an empty non-nil page panics; otherwise every behind connection is sent exactly its window in fetched order and gets lastTagUpd = msgs[0].TS with lastMessageUpd unchanged, other connections are unchanged and sent nothing, and the handle set is unchanged |
| TagSync.TagFramesBlank | chat/chat.go:161-177 | a cycle fed by the tag search never panics on a nil or non-empty result, and every frame it sends has empty content |
| TagSync.TagCycleNewestFirst | chat/chat.go:197-204 | on a newest-first page every connection's tag frames are newest-first |
| TagSync.TagCycleCatchesUp | chat/chat.go:192-206 | on a newest-first page a behind connection's new tag watermark is at or past every fetched ts, and it stops being behind exactly when the newest fetched ts reaches its message watermark |
| TagSync.TagCycleAssignsTagWatermark | chat/chat.go:192-206 | the tag watermark is assigned, not maximised: a behind record whose tag watermark is newer than the newest fetched message is moved back to that message's ts |
| Messages.ReplayMessage | chat/chat.go:91-101 | a replayed message takes the hit's id and the decoded document's tag, content and ts, or zero values when the source was not well-formed JSON |
| Messages.TagMessage | chat/chat.go:164-174 | a tag announcement takes the hit's id and the decoded tag and ts (zero when the source was not well-formed JSON), and always has empty content |
| Messages.TagMessageIsBlankedReplay | chat/chat.go:169-174 | a tag announcement is the replay message with its content blanked |
| History.ReverseInPlace | chat/chat.go:105-107 | the swap loop produces the exact reverse of its input, with the same length and multiset of elements |
| History.ReverseSymmetric | chat/chat.go:105-107 | reversal is its own inverse |
| History.ReverseOfNewestFirst | chat/chat.go:105-107 | reversing a newest-first list yields an oldest-first one |
| History.SendInitialMsgs | chat/chat.go:86-115 | a nil search replays nothing; otherwise one frame per hit, in reverse hit order, with the same multiset, and oldest-first whenever the hits were newest-first |
| TagList.Contains | chat/chat.go:278-285 | true exactly when some tag equals the string up to case |
| TagList.PendingAdd | chat/chat.go:309-314 | storage is asked to store the old list with the new tag appended, exactly when no tag matched up to case |
| TagList.AddTag | chat/chat.go:303-332 | the list either stays or gains `newtag` at the end; it changes exactly when no tag matched up to case and storage accepted the new list; after an accepted update the tag is present up to case |
| TagList.AddTagKeepsDistinct | chat/chat.go:312-328 | adding keeps the list free of case-duplicates |
| TagList.AddTagIdempotent | chat/chat.go:312-328 | adding a tag (or a case variant) again after an accepted add changes nothing |
| TagList.FirstIndex | chat/chat.go:335-336 | the index found holds the value and no earlier element does |
| TagList.RemoveElement | chat/chat.go:334-341 | without a match the list is returned unchanged; the length shrinks by one exactly when there was a match |
| TagList.RemoveElementShape | chat/chat.go:334-341 | with a match, the result is the list with its first exact match cut out, the other elements in their original order |
| TagList.RemoveElementMultiset | chat/chat.go:334-341 | removal takes away exactly one copy of the value if present, and nothing else |
| TagList.RemoveElementKeepsDistinct | chat/chat.go:334-341 | removing keeps the list free of case-duplicates |
| TagList.DeleteTag | chat/chat.go:343-373 | the list changes only when storage accepted the update, and then is the old list with the first exact match removed and the other tags in their original order, losing exactly one copy of the deleted tag |
| Scenarios.WindowExample | chat/chat.go:191-211 | watermarks (tag 10, message 50) and a page at 60, 40, 20, 5: the messages at 40 then 20 are sent and the tag watermark becomes 60 |
| Scenarios.ThreeClientScenario | chat/chat.go:182-241 | three clients at 100, a broadcast at 105 whose send to the first fails, then a cycle fetching 110: the first is pruned, the others reach (105, 100), receive nothing from the cycle and end at (105, 110) |

## Left out

- chat/storage.go (connect, index creation, insert, search) is I/O. Search results enter the model as `Option<seq<Hit>>`. The query bodies (page size 10, `ts <= now`, non-empty tag, newest first) are the storage's business and are not modelled.
- tags/tag_adder.py is not part of this model. It is an embedding lookup with a floating-point similarity threshold.
- Goroutines, `sync.Mutex`, `sync.WaitGroup`, `time.Sleep`, the endless loop of `startTagSender` and the `THROTTLE` environment parsing are left out. One broadcast round and one tag cycle are modelled as sequential passes.
- A broadcast goroutine reads `s.conns[ws]` again before writing. Only a concurrent deletion could make that read see Go's zero record and re-insert the handle. That interleaving is not modelled.
- `time.Now`, `uuid.New`, JSON encoding and decoding, and websocket send and receive are I/O. Times are parameters. A hit's source is given already decoded: `None` stands for a source that is not well-formed JSON, so `doc` stays Go's zero document; a decode that fails on a type mismatch but fills other fields is `Some` of the partly decoded document, with the unfilled fields at zero. Send outcomes are the oracle `failed`. `readLoop`, `handleWS` and the persist-while-broadcasting of `readLoop` are left out apart from the broadcast they call.
- Fanout.Broadcast: its outbox records every attempted send, including the ones that failed. It does not separate delivered frames from attempted ones; the failed handles are exactly the ones missing from the new registry.
- The Unicode rules of `strings.EqualFold` are abstracted as equality of an arbitrary key function.
- HTTP handlers and rendering (`handleIndex`, `handleTags`, `sendTags`, `handleSearch`), the JSON string building of the tag update, HTTP status codes, `main`, `getInitialTags` and `addInitialTags` are left out. They are request plumbing or startup I/O.
- Timestamps are Go `int64`. They are only compared and never added, so no wrap-around is modelled.
