# nmp: a Dafny model of the reference caches, the content pipeline and chat presence

This project models the state machines and transformations at the core of nmp and proves what they keep over every input, every run and every reachable state.

| files | component |
|---|---|
| `Revs.dfy`, `RefRows.dfy`, `RefRowLaws.dfy`, `RefRowWire.dfy`, `RefProducer.dfy`, `KeyedCaches.dfy` | the keyed reference cache emitted as Kotlin, Swift and TypeScript |
| `ProjectionCache.dfy` | its whole-value sibling, `ProjectionMergeCache` |
| `Content.dfy`, `Tokenizer.dfy`, `Grouper.dfy`, `Pipeline.dfy` | inline tokenizer, media grouper and the two composed |
| `Markdown.dfy`, `MarkdownLaws.dfy`, `MarkdownMeaning.dfy`, `AltText.dfy` | the markdown stack machine, what it computes for document trees, and when that is what they mean |
| `EmbedStore.dfy`, `Registry.dfy` | the two depth-first walks over cyclic graphs |
| `Presence.dfy`, `GroupKey.dfy` | the chat presence projection and its per-group key |
| `BitRegroup.dfy` | bech32 bit regrouping |
| `Common.dfy` | shared vocabulary |

Code that works by changing things is a class or a method with loops, proved equal to a function on values (`RefRows.Merge`, `Markdown.Run`, `Grouper.Group`, `Presence.Run`, ...). The laws are then proved about that function, so that they hold of every run of the class. What the functions are built from is in turn pinned by laws on the fields alone (`RefRowWire.dfy`, the sections "on their fields", `ComesOutAs`, `Light`, the document meanings), which do not call it.

Main results:

- **Keyed cache.** Each batch acts on each slot as one threshold gate (`BatchIsGate`), so redelivery changes no row. Clear-free rows converge to the greatest revs whatever their order, batching or duplication. With clears, two rows commute exactly when they do not conflict, and any reordering of conflict-free rows agrees. `needsResync` is up exactly when something raised it and nothing healed it since. Unless it is up, all rows stem from the applied identity. The cache mirrors every well-behaved producer. The Kotlin and the Swift class move in lockstep on every run. The web class does so if and only if it registers the same projections and its decoders give the same verdicts, which the shipped registry does not ensure for `refs.event`.
- **Markdown.** For every document tree the machine computes a threaded reading of the tree and ends with all stacks empty. It renders the tree as what it means, with each picture's alt its plain string content (section 6.4 of CommonMark), exactly when no list item puts visible loose text in front of a visible nested block and no text under emphasis, strong or a link inside a picture is changed by tokenizing. The "only when" for pictures needs tokenizing to make no such text heavier by some weighing of characters. The inline tokenizer is shown to meet that with Unicode lower-casing, which does lengthen one character: the dotted capital I counts for two, every other character for one (`ShippedWalkerIsFaithfulIff`).
- **Tokenizer and grouper.** The pass finishes exactly when no kept nostr match has its sixth byte inside a character. Where it does, segments can be laid over consecutive slices that together are the content. Grouping loses nothing but bridging text inside a run, and leaves maximal runs.
- **Walks.** Both terminate on every graph and visit exactly what is reachable.
- **Presence.** Marker, clock, typing rows, stored messages and the unread count are each given as a function of the input history.
- **Regrouping.** The loop cuts each output digit from the accumulator where its bits are, whatever the digits. For digits in range that is the shifted value, and undoes the zero-padded encoding.

## What the code does differently from what it says

- A delta under a new identity only adopts the identity. Its own redelivery then merges it (`RedeliveredFrameChangesNoRow`, `AdoptedDeltaMergesWhenRedelivered`).
- Clears leave no tombstone: a stale row that arrives after the clear comes back (`Conflicts`, `RowsCommuteIffPeaceful`).
- `ProjectionMergeCache` empties its slots on a new identity without reporting them as changed (`ProjectionCache.UnreportedSlots`). A baseline under a new identity does the same in the keyed cache (`RefRowLaws.UnreportedSlots`).
- The field comment at `crates/nmp-content/src/markdown.rs:51-52` has each list item be its own paragraph followed by its sub-blocks. In a tight list the item's text is loose, and `:305-310` flushes it only when the item closes: a nested block that closes first takes the text in (`FaithfulIffTidy`, `TightNestedListLeaks`).
- The comment at `crates/nmp-content/src/markdown.rs:358-360` has the alt text of a picture accumulated raw and never tokenized, as CommonMark asks. Only text directly under the picture is. Text under emphasis, strong or a link inside it is tokenized and then flattened: mentions, references, invoices and URLs vanish (the flattening at `:436` knows plain URLs, the tokenizer emits another variant), and tags are lower-cased (`AltIsPlainContent`, `WrappedMentionVanishes`, `AltText.PiecesShow`).
- The three emitted caches are described as twins, but `crates/nmp-codegen/src/keyed_projection_row_payload.rs:194` gives `refs.event` no decoder on the web. There the web class commits any non-empty payload, where the Kotlin and Swift classes refuse what their decoder refuses and ask for a resync (`WebFollowsNativeIff`, `RawEventsSeparateTheWeb`).
- `crates/nmp-content/src/tokenizer.rs:240` slices a nostr match at byte six. The pattern ignores case by Unicode, so a match may hold the long s or the Kelvin sign, and the slice panics when one of them straddles that byte, as in `npub1ſ` (`SchemeByBytes`, `LongSIsCut`, `TokenizeInline`).
- The whole-value cache is described as one algorithm on both platforms, but Kotlin commits any non-empty payload where Swift runs a decoder, so they part unless no decoder refuses one (`SwiftFollowsKotlinIff`).
- `crates/nmp-content/src/tokenizer.rs:164-167` re-emits a whole hashtag match after its separator was already emitted. `PiecesSpellContentIff` says exactly when that loses the round trip. The hashtag pattern never reaches that branch.

## Model

| member | source | states |
|---|---|---|
| `RefRowLaws.BatchIsGate` | crates/nmp-codegen/src/kotlin_keyed_cache.rs:318-350 | Whatever a batch mixes, on every slot it acts as one gate independent of the table: slots at or above a rev limit survive, all others end in one fixed slot. |
| `RefRowLaws.RedeliveredRowsChangeNothing` | crates/nmp-codegen/src/kotlin_keyed_cache.rs:318-350 | Applying a batch of any rows straight after itself leaves the row table unchanged, from every table. |
| `RefRowLaws.RedeliveredFrameChangesNoRow` | crates/nmp-codegen/src/kotlin_keyed_cache.rs:173-254 | Redelivering any frame moves no row in any projection, except that a delta which only adopted a new identity is merged by its second delivery; the resulting row map is given exactly. |
| `RefRowLaws.AdoptedDeltaMergesWhenRedelivered` | crates/nmp-codegen/src/kotlin_keyed_cache.rs:173-254 | A concrete frame in the exceptional case. |
| `RefRowLaws.ClearFreeKeepsGreatestRevs` | crates/nmp-codegen/src/ts_keyed_cache.rs:342-379 | After clear-free rows the table holds, per key, the greatest rev among the starting entry and the decodable rows. |
| `RefRowLaws.GreatestRevsAreUnique` | crates/nmp-codegen/src/ts_keyed_cache.rs:342-379 | When key and rev determine the payload, only one table does so. |
| `RefRowLaws.SteadyRunAppliesItsRows` | crates/nmp-codegen/src/ts_keyed_cache.rs:245-274 | A run of deltas at the applied identity is, per projection, its concatenated rows; other projections' frames do not interfere. |
| `RefRowLaws.ClearFreeRunsConverge` | crates/nmp-codegen/src/ts_keyed_cache.rs:342-379 | Two clear-free runs carrying the same decodable rows, however permuted, re-batched or duplicated, end with the same rows. |
| `RefRowLaws.RowsCommuteIffPeaceful` | crates/nmp-codegen/src/kotlin_keyed_cache.rs:318-350 | Two rows commute on every table if and only if they do not conflict: an older change against a newer clear, or two payloads at one rev. |
| `RefRowLaws.ReorderedRowsAgree` | crates/nmp-codegen/src/kotlin_keyed_cache.rs:318-350 | Rows, clears included, without a conflict among them give the same table in any order. |
| `RefRowLaws.FlagAfterStep` | crates/nmp-codegen/src/kotlin_keyed_cache.rs:187-312 | Exactly which frames raise the resync flag and which heal it, never both. |
| `RefRowLaws.ResyncFlagIsALatch` | crates/nmp-codegen/src/kotlin_keyed_cache.rs:154-312 | Over every run the flag is up if and only if something raised it (or it started up) and neither a reset nor a decodable baseline under a new identity came later. |
| `RefRowLaws.MarkAt` | crates/nmp-codegen/src/kotlin_keyed_cache.rs:154-312 | Each op of a run is judged raising or healing in the state the run is in when it meets it. |
| `RefRowLaws.UndecodableFramesOnlyRaise` | crates/nmp-codegen/src/kotlin_keyed_cache.rs:187-312 | A refused buffer, or a baseline with any undecodable row, changes nothing but the flag and reports no key. |
| `RefRowLaws.CachedRowsAreCurrent` | crates/nmp-codegen/src/kotlin_keyed_cache.rs:173-312 | In every reachable state every cached row carries the identity of the batch that committed it, and all of these are the applied one unless a resync is pending. |
| `RefRowLaws.RunsStoreAccepted` | crates/nmp-codegen/src/ts_keyed_cache.rs:287-379 | In every reachable state each stored payload passed its namespace's decoder. |
| `RefRowLaws.UnreportedSlots` | crates/nmp-codegen/src/kotlin_keyed_cache.rs:173-350 | A slot outside the reported set keeps its payload if and only if the frame was not a decodable baseline under a new identity or the slot was empty. |
| `RefRowLaws.BaselineReportsWhatMoved` | crates/nmp-codegen/src/kotlin_keyed_cache.rs:267-312 | A baseline at the applied identity reports exactly the keys whose payload moved. |
| `RefRowWire.DecodeOnWire` | crates/nmp-codegen/src/swift_keyed_cache.rs:205-307 | A buffer is refused exactly when it is garbage or some row has no key or a state of 2 or more; otherwise row i has the wire's key, rev and payload, and is a clear exactly when its state field is 1, an omitted state being a change. |
| `RefRowWire.EffectOnWire` | crates/nmp-codegen/src/kotlin_keyed_cache.rs:173-254 | For every frame and cache, on the wire's fields: ignored, refused, rebuilding, adopted or merged. |
| `RefRowWire.EmptyCacheOnFields` | crates/nmp-codegen/src/kotlin_keyed_cache.rs:154-160 | A reset leaves no row, session and epoch 0 and both flags down. |
| `RefRowWire.OmittedStateCommits` | crates/nmp-codegen/src/swift_keyed_cache.rs:301-304 | A baseline row without a state field is what is cached afterwards. |
| `RefRowWire.StateOneClears` | crates/nmp-codegen/src/kotlin_keyed_cache.rs:318-350 | A delta row with state 1 and a newer rev removes the entry and asks for nothing. |
| `RefRowWire.RowOnSlot` | crates/nmp-codegen/src/kotlin_keyed_cache.rs:318-350 | What one row does to any slot, by its state, rev and payload. |
| `RefRowWire.ReportedIffMoved` | crates/nmp-codegen/src/kotlin_keyed_cache.rs:318-350 | A delta reports a key if and only if one of its rows moved that slot. |
| `RefRowWire.SpoilsIffRowSpoils` | crates/nmp-codegen/src/kotlin_keyed_cache.rs:318-350 | A delta asks for a resync if and only if a changed row newer than the slot it meets is empty or does not decode. |
| `RefRowWire.CachedPayloadsDecode` | crates/nmp-codegen/src/kotlin_keyed_cache.rs:267-350 | In every reachable state every cached payload is non-empty and accepted by its namespace's decoder. |
| `RefRowWire.BaselineKeepsGreatestStanding` | crates/nmp-codegen/src/kotlin_keyed_cache.rs:267-282 | A baseline caches a key if and only if a change of it is not cleared later in the batch, and then the first of those with the greatest rev. |
| `RefRowWire.BaselinedIsALatch` | crates/nmp-codegen/src/kotlin_keyed_cache.rs:173-350 | The cache is baselined if and only if a frame was merged or rebuilt and neither a reset nor an adopted identity came later. |
| `RefProducer.RisingRowsReplay` | crates/nmp-codegen/src/swift_keyed_cache.rs:373-410 | On rows with rising per-key revs the guarded merge equals plain replay and nothing spoils. |
| `RefProducer.ListingRebuildsTable` | crates/nmp-codegen/src/swift_keyed_cache.rs:318-369 | A baseline listing a table in any order rebuilds exactly that table. |
| `RefProducer.BaselineMirrors` | crates/nmp-codegen/src/swift_keyed_cache.rs:318-369 | A full baseline keeps the cache equal to the producer, at the same or a new identity. |
| `RefProducer.DeltaMirrors` | crates/nmp-codegen/src/swift_keyed_cache.rs:373-410 | A touched-keys-only delta keeps the cache equal to the producer, omitted rows retained. |
| `RefProducer.CacheMirrorsProducer` | crates/nmp-codegen/src/swift_keyed_cache.rs:175-264 | After every legal run, identity bumps included, each projection announced under the current identity is cached row for row and no resync is pending. |
| `KeyedCaches.ReadBatch` | crates/nmp-codegen/src/ts_keyed_cache.rs:92-123 | The row-building loop decodes the batch, or refuses it whole for one missing key or unknown state. |
| `KeyedCaches.MovedKeys` | crates/nmp-codegen/src/kotlin_keyed_cache.rs:297-302 | The loop finds exactly the keys that appear or change payload. |
| `KeyedCaches.DroppedKeys` | crates/nmp-codegen/src/kotlin_keyed_cache.rs:303-305 | The loop finds exactly the keys that disappear. |
| `KeyedCaches.KotlinKeyedRefCache.Reset` | crates/nmp-codegen/src/kotlin_keyed_cache.rs:154-160 | Back to the empty cache, flag and identity included. |
| `KeyedCaches.KotlinKeyedRefCache.Merge` | crates/nmp-codegen/src/kotlin_keyed_cache.rs:173-254 | New state and reported keys are those of the merge function, for every frame and state. |
| `KeyedCaches.KotlinKeyedRefCache.BuildScratch` | crates/nmp-codegen/src/kotlin_keyed_cache.rs:267-282 | The scratch table, or nothing if any changed row does not decode. |
| `KeyedCaches.KotlinKeyedRefCache.ApplyBaseline` | crates/nmp-codegen/src/kotlin_keyed_cache.rs:267-312 | Scratch then commit: all or only the flag; reports the difference to the prior table. |
| `KeyedCaches.KotlinKeyedRefCache.ApplyIncremental` | crates/nmp-codegen/src/kotlin_keyed_cache.rs:318-350 | The in-place row loop absorbs the rows into one projection, raises the flag exactly if a row spoils and reports exactly the touched keys. |
| `KeyedCaches.SwiftKeyedRefCache.RawRowStateDiscriminants` | crates/nmp-codegen/src/swift_keyed_cache.rs:281-307 | One raw state per row, in order, an omitted one read as Changed. |
| `KeyedCaches.SwiftKeyedRefCache.Validate` | crates/nmp-codegen/src/swift_keyed_cache.rs:205-247 | Whole-batch validation: succeeds exactly when every row has a key and a known raw state. |
| `KeyedCaches.SwiftKeyedRefCache.Merge` | crates/nmp-codegen/src/swift_keyed_cache.rs:175-264 | New state and reported keys are those of the same merge function, although rows are read through an accessor that coerces unknown states. |
| `KeyedCaches.SwiftKeyedRefCache.ApplyBaseline` | crates/nmp-codegen/src/swift_keyed_cache.rs:318-369 | As the Kotlin baseline, on wire rows. |
| `KeyedCaches.SwiftKeyedRefCache.MergeRows` | crates/nmp-codegen/src/swift_keyed_cache.rs:373-410 | The row loop on the local copy. |
| `KeyedCaches.SwiftKeyedRefCache.ApplyIncremental` | crates/nmp-codegen/src/swift_keyed_cache.rs:373-410 | Copy, edit, store back: the same result as editing in place. |
| `KeyedCaches.TsKeyedRefCache.Merge` | crates/nmp-codegen/src/ts_keyed_cache.rs:245-274 | The same merge function; in addition exactly when a decode failure is reported, and that every stored row still decodes. |
| `KeyedCaches.TsKeyedRefCache.ApplyBaseline` | crates/nmp-codegen/src/ts_keyed_cache.rs:287-336 | Fails exactly when a changed row does not decode, and then moves only the flag. |
| `KeyedCaches.TsKeyedRefCache.ApplyIncremental` | crates/nmp-codegen/src/ts_keyed_cache.rs:342-379 | The row loop absorbs the rows; fails exactly if a row spoils. |
| `KeyedCaches.TsKeyedRefCache.Get` | crates/nmp-codegen/src/ts_keyed_cache_typed.rs:117-121 | In every valid state the typed accessor succeeds on exactly the cached keys and returns their decoded payload. |
| `KeyedCaches.TsKeyedRefCache.GetAll` | crates/nmp-codegen/src/ts_keyed_cache_typed.rs:122-129 | The full snapshot has exactly the cached keys, each decoded. |
| `KeyedCaches.SameVerdictsSameMerge` | crates/nmp-codegen/src/ts_keyed_cache_typed.rs:73-98 | Keying decoders by projection or by namespace makes no difference to a merge as long as the verdicts agree. |
| `KeyedCaches.LockstepIffSameVerdicts` | crates/nmp-codegen/src/ts_keyed_cache.rs:245-379 | No run from the empty cache tells two hosts apart, by state or by report, if and only if they register the same projections and accept the same payloads for each. |
| `KeyedCaches.WebFollowsNativeIff` | crates/nmp-codegen/src/ts_keyed_cache_typed.rs:73-98 | The web class follows the native ones on every run if and only if the projections are the same, its typed decoders give the native verdicts, and where it has none the native decoder refuses only empty payloads. |
| `KeyedCaches.RawEventsSeparateTheWeb` | crates/nmp-codegen/src/keyed_projection_row_payload.rs:164-197 | With `refs.event` untyped on the web, one event row the native decoder refuses is committed there and only asks for a resync on Kotlin and Swift. |
| `KeyedCaches.Lockstep` | crates/nmp-codegen/src/ts_keyed_cache.rs:245-379 | Fed the same frames and resets, the Kotlin and Swift classes end every run in the same state with the same reports; the web class ends in that of its own decoders, which is the same whenever the verdicts agree. |
| `ProjectionCache.ProjectionMergeCache.Reset` | crates/nmp-codegen/src/kotlin_projection_cache.rs:226-238 | Back to the empty cache. |
| `ProjectionCache.ProjectionMergeCache.MergeRow` | crates/nmp-codegen/src/kotlin_projection_cache.rs:301-342 | One row of the loop: unguarded clear, rev guard, decode before commit, unknown states skipped. |
| `ProjectionCache.ProjectionMergeCache.MergeRows` | crates/nmp-codegen/src/kotlin_projection_cache.rs:299-342 | The row loop absorbs all rows and reports exactly the touched keys. |
| `ProjectionCache.ProjectionMergeCache.Rebuild` | crates/nmp-codegen/src/kotlin_projection_cache.rs:343-356 | The merged envelopes are the cached entries, each once. |
| `ProjectionCache.ProjectionMergeCache.Merge` | crates/nmp-codegen/src/kotlin_projection_cache.rs:262-364 | State, merged envelopes (each cached entry once), changed keys and flag for every frame; session 0 passes through. |
| `ProjectionCache.RedeliveredFrameChangesNothing` | crates/nmp-codegen/src/kotlin_projection_cache.rs:303-341 | A frame delivered twice leaves the table it left the first time, although clears carry no rev guard. |
| `ProjectionCache.UnreportedSlots` | crates/nmp-codegen/src/swift_projection_cache.rs:253-327 | A slot outside the changed set is unchanged if and only if the identity did not change or the slot was empty. |
| `ProjectionCache.RowOnSlot` | crates/nmp-codegen/src/kotlin_projection_cache.rs:301-342 | What one row does to any slot, by its raw state, rev and payload. |
| `ProjectionCache.ReportedIffMoved` | crates/nmp-codegen/src/kotlin_projection_cache.rs:301-342 | A frame reports a key if and only if one of its rows clears it or moves its slot. |
| `ProjectionCache.SpoilsIffRowSpoils` | crates/nmp-codegen/src/kotlin_projection_cache.rs:309-333 | Rows ask for a resync if and only if a changed one newer than its slot is empty or does not decode. |
| `ProjectionCache.FlagFollowsFrames` | crates/nmp-codegen/src/kotlin_projection_cache.rs:290-333 | Over every run the flag is up if and only if some frame spoilt and no frame with another identity came since. |
| `ProjectionCache.IdentityIsOfLastFrame` | crates/nmp-codegen/src/kotlin_projection_cache.rs:286-298 | The applied identity is that of the last sessioned frame; the cache is baselined once there was one. |
| `ProjectionCache.LockstepIffSameVerdicts` | crates/nmp-codegen/src/swift_projection_cache.rs:216-327 | No run tells two decode probes apart, by state or by report, if and only if they agree on every non-empty payload. |
| `ProjectionCache.SwiftFollowsKotlinIff` | crates/nmp-codegen/src/swift_projection_cache.rs:216-234 | The Swift and Kotlin classes stay together on every run if and only if no typed Swift decoder refuses a non-empty payload. |
| `ProjectionCache.SessionlessFramesLeaveNoTrace` | crates/nmp-codegen/src/kotlin_projection_cache.rs:283-290 | Session-0 frames inserted anywhere leave every later result unchanged. |
| `ProjectionCache.EmissionMirrors` | crates/nmp-codegen/src/kotlin_projection_cache.rs:262-364 | Each full, delta or session-0 frame keeps the cache equal to the producer. |
| `ProjectionCache.MergedSetIsProducersMap` | crates/nmp-codegen/src/kotlin_projection_cache.rs:262-364 | After every frame of every in-order run the merged set is the producer's full projection map and no resync is pending. |
| `Markdown.InlinePlainText` | crates/nmp-content/src/markdown.rs:424-453 | The appending recursion adds exactly the plain text of the inline. |
| `Markdown.Walker.PushInlineRun` | crates/nmp-content/src/markdown.rs:374-389 | Where an inline lands: pending run, open frame, or image alt as text. |
| `Markdown.Walker.PushTextRun` | crates/nmp-content/src/markdown.rs:353-372 | Text goes to the open code block, the open image alt, or through the tokenizer. |
| `Markdown.Walker.Emit` | crates/nmp-content/src/markdown.rs:410-418 | A node goes to the open quote or item, else to the document. |
| `Markdown.Walker.Open` | crates/nmp-content/src/markdown.rs:205-270 | The frame each opening tag pushes. |
| `Markdown.Walker.CloseEmphasis` | crates/nmp-content/src/markdown.rs:391-408 | Popping a frame under the wrong tag pushes it as what it is. |
| `Markdown.Walker.CloseItem` | crates/nmp-content/src/markdown.rs:305-315 | The pending run closes the item body; without a list below the body is dropped. |
| `Markdown.Walker.Close` | crates/nmp-content/src/markdown.rs:272-351 | The whole effect of each closing tag, mismatched ones included. |
| `Markdown.Walker.HandleEvent` | crates/nmp-content/src/markdown.rs:187-203 | The walker steps as the machine, event by event. |
| `Markdown.ParseMarkdownBlocks` | crates/nmp-content/src/markdown.rs:99-116 | The result is the machine's document after the whole stream, node by node. |
| `MarkdownLaws.SpanRuns` | crates/nmp-content/src/markdown.rs:353-408 | On the events of any inline tree, in any collecting state, the machine adds its reading of the tree, or inside an image the alt text it makes of it, and restores the stack; what that alt text is worth is `AltIsPlainContent`. |
| `MarkdownLaws.SpansRun` | crates/nmp-content/src/markdown.rs:353-408 | The same for sequences of inline trees. |
| `MarkdownLaws.BlockRuns` | crates/nmp-content/src/markdown.rs:187-351 | On the events of any block, from any ready state, the machine emits the block's reading with the waiting run threaded through it. |
| `MarkdownLaws.ItemRuns` | crates/nmp-content/src/markdown.rs:305-315 | An item adds one body to the list below and flushes the run. |
| `MarkdownLaws.WalkComputesTree` | crates/nmp-content/src/markdown.rs:187-453 | For every document the machine ends with exactly that reading and with all stacks and buffers empty. |
| `MarkdownLaws.MismatchedBlockEnd` | crates/nmp-content/src/markdown.rs:272-351 | A block end without its frame: nothing on an empty stack, otherwise the other frame is dropped and all else kept, except that an HTML end leaves it. |
| `MarkdownLaws.StrayItem` | crates/nmp-content/src/markdown.rs:305-315 | An item with no list below loses its body and the waiting run. |
| `MarkdownLaws.MismatchedInlineEnd` | crates/nmp-content/src/markdown.rs:326-408 | Link and image ends drop a frame of another kind; emphasis and strong ends wrap or pass on what they find. |
| `MarkdownLaws.StrayEnds` | crates/nmp-content/src/markdown.rs:187-408 | Inline and code ends with nothing open, and the tags and events the walker ignores, change nothing. |
| `MarkdownMeaning.AltIsPlainContent` | crates/nmp-content/src/markdown.rs:353-389 | A picture's alt text is its plain string content when every text under a wrapper inside it survives tokenizing and flattening; and only then, if by some weighing of characters tokenizing makes none of those texts heavier. |
| `MarkdownMeaning.WrappedMentionVanishes` | crates/nmp-content/src/markdown.rs:357-363 | A mention directly in an alt text stays, one under emphasis leaves nothing. |
| `MarkdownMeaning.WrappedPlainUrlStays` | crates/nmp-content/src/markdown.rs:436 | A plain URL segment under emphasis is flattened to its address. |
| `AltText.PiecesShow` | crates/nmp-content/src/markdown.rs:424-453 | Flattening tokenized text gives the text back exactly when all its pieces are text, shortcodes, lower-case tags or empty, and never gives more weight, for any weighing by which lower-casing does not. |
| `AltText.CoveredTextIsNoHeavier` | crates/nmp-content/src/markdown.rs:367-370 | A text whose segments cover it is not made heavier by tokenizing and flattening. |
| `AltText.UnicodeLowerIsNoHeavier` | crates/nmp-content/src/tokenizer.rs:222-229 | Lower-casing character by character, into one character each or two for the dotted capital I, makes no text heavier when that character counts for two. |
| `AltText.ShippedWalkerIsFaithfulIff` | crates/nmp-content/src/markdown.rs:187-453 | With such lower-casing, a document whose pictures' wrapped texts tokenize is rendered as what it means if and only if it is tidy and those texts survive. |
| `MarkdownMeaning.SpansAgree` | crates/nmp-content/src/markdown.rs:353-408 | What the machine collects for inline trees is what they mean if and only if every outermost picture's alt text is its plain string content. |
| `MarkdownMeaning.BlocksAgree` | crates/nmp-content/src/markdown.rs:272-351 | The threaded reading is the tree's own meaning if and only if the tree is tidy and its alt texts are plain. |
| `MarkdownMeaning.FaithfulIffTidy` | crates/nmp-content/src/markdown.rs:187-453 | The walker renders a document as what it means, fence languages, image titles and paragraphs spelled out in the meaning itself, if no list item puts visible loose text before a visible nested block and every wrapped text inside a picture survives; never if the first fails; and, where tokenizing makes no such text heavier by some weighing, only if both hold. |
| `MarkdownMeaning.TightNestedListLeaks` | crates/nmp-content/src/markdown.rs:305-315 | A tight nested list is a failing document. |
| `Tokenizer.SortSorts` | crates/nmp-content/src/tokenizer.rs:116 | The match order on the offsets: the earlier start first, the longer match first among equal starts; a permutation, and stable among ties. |
| `Tokenizer.CollectMatches` | crates/nmp-content/src/tokenizer.rs:99-118 | Gathers every pattern's matches and sorts them. |
| `Tokenizer.ResolveOverlaps` | crates/nmp-content/src/tokenizer.rs:122-133 | The loop computes the greedy selection. |
| `Tokenizer.KeptAreDisjoint` | crates/nmp-content/src/tokenizer.rs:122-133 | Kept matches are pairwise disjoint, in order, and come from the input. |
| `Tokenizer.EveryMatchIsAccounted` | crates/nmp-content/src/tokenizer.rs:122-133 | A dropped match overlaps a kept one that starts no later, and at the same start is no shorter. |
| `Tokenizer.Classify` | crates/nmp-content/src/tokenizer.rs:135-197 | The cursor loop emits the pieces of all matches with the text between them, coalesced, or panics at a cut nostr match. |
| `Tokenizer.SchemeByBytes` | crates/nmp-content/src/tokenizer.rs:239-245 | The canonical URI computed through a six-byte slice is the one by characters, and is undefined exactly when the match has six bytes or more and the sixth is inside a character. |
| `Tokenizer.LongSIsCut` | crates/nmp-content/src/tokenizer.rs:239-245 | A match on which the slice is undefined. |
| `Tokenizer.MatchSource` | crates/nmp-content/src/tokenizer.rs:147-187 | The pieces of one match spell its slice, except for the doubled separator of an empty hashtag. |
| `Tokenizer.UrlMatchSource` | crates/nmp-content/src/tokenizer.rs:255-262 | Trimming punctuation off a URL loses no character. |
| `Tokenizer.PiecesSpellContentIff` | crates/nmp-content/src/tokenizer.rs:135-197 | The emitted pieces spell the content exactly if and only if no kept hashtag has an empty tag behind a separator. |
| `Tokenizer.MatchReads` | crates/nmp-content/src/tokenizer.rs:199-262 | Under the regex contract every piece's slice reads as its segment: mention, reference, tag, URL, shortcode, invoice or text. |
| `Tokenizer.CanonicalIs` | crates/nmp-content/src/tokenizer.rs:239-245 | The URI parsed is the match itself if it is spelled with the scheme in any ASCII case, else the scheme in place of its leading at signs. |
| `Tokenizer.TrimmedEnds` | crates/nmp-content/src/tokenizer.rs:255-256 | The trimmed URL is the longest prefix not ending in one of the seven punctuation marks. |
| `Tokenizer.MatchComesOut` | crates/nmp-content/src/tokenizer.rs:135-262 | Every regex match comes out as its own segment wherever it parses: mention or reference by kind of URI, shortcode with its image, tag behind its separator, URL and cut punctuation, invoice of its pattern; as text only where it does not. |
| `Tokenizer.ClassifiedRenders` | crates/nmp-content/src/tokenizer.rs:135-197 | The segments other than text are those of the matches, in order, coalescing included. |
| `Tokenizer.CoalesceText` | crates/nmp-content/src/tokenizer.rs:264-275 | The loop joins adjacent text. |
| `Tokenizer.JoinPiecesKeeps` | crates/nmp-content/src/tokenizer.rs:264-275 | Coalescing keeps the spelled source and the readings, and leaves no two text runs adjacent. |
| `Tokenizer.ClassifiedCovers` | crates/nmp-content/src/tokenizer.rs:135-197 | The classified segments of disjoint regex matches partition the content in order. |
| `Tokenizer.TokenizeInline` | crates/nmp-content/src/tokenizer.rs:71-78 | For every content and every regex output meeting the contract: the pass finishes if and only if no kept nostr match is cut, and then the segments cover the content, slice by slice, and those other than text are what the kept matches have to come out as, in order. |
| `Grouper.FlushMedia` | crates/nmp-content/src/grouper.rs:83-105 | Appends the open run as one media segment, then the bridge. |
| `Grouper.GroupConsecutiveMedia` | crates/nmp-content/src/grouper.rs:22-81 | The loop computes the grouping. |
| `Grouper.GroupConserves` | crates/nmp-content/src/grouper.rs:22-105 | The input is cut into consecutive stretches, one per output segment: passed through as it is, or a same-kind media run, whose texts hold only whitespace, commas, middle dots and bars, with all its URLs in order. |
| `Grouper.BridgesAreLight` | crates/nmp-content/src/grouper.rs:109-112 | Text bridges a run if and only if every character of it is whitespace, a comma, a middle dot or a bar. |
| `Grouper.HeavyTextStays` | crates/nmp-content/src/grouper.rs:22-112 | A text holding any other character is an output segment of its own, after exactly what stood before it, and no media segment spans it. |
| `Grouper.GroupLeavesNoMediaUrls` | crates/nmp-content/src/grouper.rs:22-81 | No media URL is left ungrouped. |
| `Grouper.GroupIsIdempotent` | crates/nmp-content/src/grouper.rs:22-81 | Grouping is the identity on its own output. |
| `Grouper.GroupedRunsAreMaximal` | crates/nmp-content/src/grouper.rs:22-112 | On media-free input, between two same-kind media segments stands something other than text of whitespace, commas, middle dots and bars. |
| `Pipeline.GroupedTokens` | crates/nmp-content/src/tokenizer.rs:80-86 | Grouping any segments that cover the content keeps the account of every character and yields maximal runs. |
| `Pipeline.TokenizeInlineWithGrouping` | crates/nmp-content/src/tokenizer.rs:80-86 | The two passes together: finish if and only if no kept nostr match is cut, and then every character accounted for, no media URL left outside a media segment, runs maximal. |
| `EmbedStore.CollectUris` | crates/nmp-content-fixtures/src/embed_store.rs:227-234 | Appends exactly the URIs of the segment, in order. |
| `EmbedStore.CollectNodeUris` | crates/nmp-content-fixtures/src/embed_store.rs:236-258 | Appends exactly the URIs of a markdown node, nested lists and quotes included. |
| `EmbedStore.CollectInlineUris` | crates/nmp-content-fixtures/src/embed_store.rs:260-275 | Appends exactly the URIs of an inline, nested ones included. |
| `EmbedStore.TreeUrisAreMentions` | crates/nmp-content-fixtures/src/embed_store.rs:227-275 | A URI is collected if and only if it is mentioned somewhere in the tree outside code and images. |
| `EmbedStore.ResolveOne` | crates/nmp-content-fixtures/src/embed_store.rs:116-148 | Only registered targets get a rendered body, so dangling URIs never descend. |
| `EmbedStore.EntryOnFields` | crates/nmp-content-fixtures/src/embed_store.rs:116-191 | Every field of an entry: dangling, profile, event of one of the six rendered kinds, any other event. |
| `EmbedStore.ChildrenAreReferred` | crates/nmp-content-fixtures/src/embed_store.rs:205-221 | The walk descends from a URI to exactly those its rendered body mentions. |
| `EmbedStore.EmbedWalk.Visit` | crates/nmp-content-fixtures/src/embed_store.rs:210-219 | One loop body: adds the URI with everything its body needs; terminates because each descent uses up a registered target. |
| `EmbedStore.EmbedWalk.Walk` | crates/nmp-content-fixtures/src/embed_store.rs:205-221 | All URIs of the tree are resolved, only reachable ones are, and what was added is closed under references. |
| `EmbedStore.ResolveAll` | crates/nmp-content-fixtures/src/embed_store.rs:199-203 | On every store, cyclic ones included: terminates with exactly the URIs reachable from the root through mentions in bodies of rendered kinds, each resolved on its own. |
| `Registry.FindIsFirst` | crates/nmp-component-registry/src/registry.rs:109-113 | Among components listed under one id the first is found. |
| `Registry.DependsOnFirstListing` | crates/nmp-component-registry/src/registry.rs:109-116 | So dependencies are those of the first listing. |
| `Registry.Resolver.Collect` | crates/nmp-component-registry/src/registry.rs:100-119 | Lists what the id reaches, dependencies first up to cycles, or names a reachable unknown id; terminates on cyclic registries. |
| `Registry.Resolver.CollectAll` | crates/nmp-component-registry/src/registry.rs:114-116 | The dependency loop keeps that invariant. |
| `Registry.Resolve` | crates/nmp-component-registry/src/registry.rs:77-82 | Fails if and only if some reachable id is unknown, naming one; otherwise lists each reachable component exactly once. |
| `Registry.ResolvedIsReachable` | crates/nmp-component-registry/src/registry.rs:77-119 | The listed ids hold everything reachable. |
| `Registry.AcyclicOrderIsTopological` | crates/nmp-component-registry/src/registry.rs:100-119 | On acyclic graphs every dependency stands before its dependents. |
| `Presence.ChatPresenceProjection.constructor` | crates/nmp-chat/src/presence.rs:135-158 | Starts empty with both kind lists sorted and free of duplicates. |
| `Presence.ChatPresenceProjection.MarkReadAt` | crates/nmp-chat/src/presence.rs:161-172 | The marker moves, and reports it, exactly when the new one has a greater time, or an equal time and a greater id. |
| `Presence.ChatPresenceProjection.AdvanceTo` | crates/nmp-chat/src/presence.rs:201-207 | The clock never goes back; expired rows are pruned and reported. |
| `Presence.ChatPresenceProjection.ApplyUpdate` | crates/nmp-chat/src/presence.rs:176-198 | The whole new state and exactly when a change is reported. |
| `Presence.ChatPresenceProjection.OnKernelEvent` | crates/nmp-chat/src/presence.rs:234-256 | Other groups ignored, typing signals applied, messages stored, all else dropped. |
| `Presence.ChatPresenceProjection.Unreads` | crates/nmp-chat/src/presence.rs:271-283 | Counts the rows by another author at a greater time than the marker, or at its time with a greater id, saturating at 32 bits. |
| `Presence.AfterIsTotal` | crates/nmp-chat/src/presence.rs:35-38 | The order is a strict total order: greater time, at equal times greater id. |
| `Presence.AfterIsLater` | crates/nmp-chat/src/presence.rs:35-38 | One position is after another exactly when its time is greater, or equal with a greater id. |
| `Presence.LessIsSooner` | crates/nmp-chat/src/presence.rs:35-38 | An id is smaller as a proper prefix or at the first differing character. |
| `Presence.AfterIsTransitive` | crates/nmp-chat/src/presence.rs:293-296 | And transitive. |
| `Presence.InsertBySlot` | crates/nmp-core/src/substrate/bounded.rs:108-120 | A known id keeps its place, a new one goes last, and at 10,000 rows the oldest makes room. |
| `Presence.InsertIsBounded` | crates/nmp-core/src/substrate/bounded.rs:108-120 | Insertion keeps ids distinct and the store within capacity, stores the row and adds nothing else. |
| `Presence.InsertStores` | crates/nmp-core/src/substrate/bounded.rs:108-120 | With room, or for a known id, every other row is kept as it was. |
| `Presence.MarkReadNeverRaisesUnread` | crates/nmp-chat/src/presence.rs:161-172 | In every state, for every marker, marking never raises the unread count, and the marked message is read. |
| `Presence.MarkerIsLatest` | crates/nmp-chat/src/presence.rs:161-172 | Over every interleaving the marker is a supplied one with the greatest time and among those the greatest id, and absent if there were none. |
| `Presence.MarkerIgnoresOrder` | crates/nmp-chat/src/presence.rs:161-172 | Two runs with the same markers end with the same one. |
| `Presence.ReachableStatesAreSound` | crates/nmp-chat/src/presence.rs:176-256 | In every reachable state each typing row outlives the clock and is not the active user's, and each stored message was delivered to this group under a message kind. |
| `Presence.TypingEventsAreNeverCounted` | crates/nmp-chat/src/presence.rs:226-256 | A typing-kind event, understood or not, changes neither messages nor unread count. |
| `Presence.TypingFollowsLastSignal` | crates/nmp-chat/src/presence.rs:176-207 | The clock is the latest time seen, and a user has a typing row exactly when their last signal was a start that has not expired; the row is that signal's. |
| `Presence.SignalOnFields` | crates/nmp-chat/src/typing_event.rs:59-105 | An event signals typing if and only if it is of the group, of a typing kind and has an understood tag; the signal says what the first such tag says, at its time in milliseconds, expiring after the ttl, both capped at 64 bits. |
| `Presence.MessageOnFields` | crates/nmp-chat/src/presence.rs:222-256 | An event is stored if and only if it is of the group, not of a typing kind, and of a message kind if any are named. |
| `Presence.ClockIsLatestTime` | crates/nmp-chat/src/presence.rs:176-207 | The clock is no earlier than any time carried so far and is one of them. |
| `Presence.NothingIsForgottenIffIdsFit` | crates/nmp-chat/src/presence.rs:234-256 | The stored messages are the last row of every delivered id if and only if no more than 10,000 ids were delivered. |
| `Presence.UnreadFollowsHistory` | crates/nmp-chat/src/presence.rs:271-283 | As long as the ids fit, the unread count is the number of delivered ids whose last row is another author's and has a greater time than the newest marker, or its time and a greater id. |
| `Presence.SortDedupKeepsKinds` | crates/nmp-chat/src/typing_event.rs:41-46 | Sorting and deduplicating keeps exactly the kinds, strictly increasing. |
| `Presence.ContainsKind` | crates/nmp-chat/src/typing_event.rs:54-56 | On such a list binary search is membership. |
| `Presence.SubscriptionMatchesProjection` | crates/nmp-chat/src/group.rs:210-219 | The combined subscription asks for a kind exactly when the projection could use it as message or typing signal. |
| `GroupKey.LowerHexLoop` | crates/nmp-chat/src/group.rs:221-229 | The table-driven loop computes two lower-case digits per byte. |
| `GroupKey.HexRoundTrip` | crates/nmp-chat/src/group.rs:221-229 | Reading the digits back gives the bytes. |
| `GroupKey.KeyParts` | crates/nmp-chat/src/group.rs:92-98 | How the key is spelled. |
| `GroupKey.ProjectionKeyIsInjective` | crates/nmp-chat/src/group.rs:92-98 | Distinct (relay URL, group id) pairs have distinct keys. |
| `BitRegroup.Drain` | scripts/perf-sanity/resolve-account.py:39-41 | The inner loop moves whole digits to the output, each cut from the accumulator where its bits are, and leaves fewer bits than one digit. |
| `BitRegroup.ConvertBits` | scripts/perf-sanity/resolve-account.py:31-42 | For all widths and all digits: floor(from*n/to) in-range output digits, each cut from the accumulated input as soon as its bits are in; for in-range digits their value is the input's, shifted right by the leftover bits. |
| `BitRegroup.OverlappingDigitsLoseBits` | scripts/perf-sanity/resolve-account.py:37 | Digits out of range overlap: 1, 32 in 5-bit digits accumulates to 32, not to its value 64. |
| `BitRegroup.ValueIsInjective` | scripts/perf-sanity/resolve-account.py:31-42 | Those facts determine the output. |
| `BitRegroup.RegroupInvertsEncoding` | scripts/perf-sanity/resolve-account.py:31-42 | Regrouping undoes the zero-padded encoding into digits no wider than the data's. |
| `BitRegroup.DecodeEncoded` | scripts/perf-sanity/resolve-account.py:45-50 | 5-to-8 regrouping returns the bytes whose zero-padded 8-to-5 encoding it is given (BIP-173, section "Bech32"). |

## Left out

- FlatBuffers parsing: a buffer is either refused or read as rows whose key and state may be missing and whose state is a raw byte.
- KeyedCaches.SwiftKeyedRefCache.RawRowStateDiscriminants: does not model the offset arithmetic of the vtable walk, nor its nil result for a negative row count, which a buffer that passed the checked root decode does not have.
- Row-change listeners, publishers, logging and locks: each call is atomic and notifications appear only as the reported key set; the branches for a poisoned lock are left out.
- Map iteration order and the sorted order in which the web class returns its changed keys: reported keys are sets.
- 64-bit revs, sessions and epochs are unbounded naturals, since the caches only compare them; the presence clock saturates explicitly.
- The regex engine, URL parsing, `nostr:` URI parsing, lower-casing, the media-kind lookup and the markdown parser are parameters; the regex engine is held to the contract `RegexMatch`, read off `crates/nmp-content/src/regex_set.rs`.
- Byte offsets and UTF-8: strings are sequences of characters and match offsets count them; the one slice at a fixed byte, in the canonical nostr URI, is modelled with UTF-8 widths.
- The walker on a text where the inline tokenizer panics: its tokenizer is a total function, so a document holding such a text is outside what is said of the walker.
- A buffer that passes the root decode and throws only while its rows are read: the Kotlin reader refuses it, the web reader lets the exception through; `WebFollowsNativeIff` is about buffers that are refused or read in full.
- The emoji table builder and the choice between plain and markdown mode: simple lookups.
- Markdown tags that the walker ignores are modelled as events, but document trees do not contain them; table parts open paragraphs as HTML blocks do.
- The typed kind projection of an embed entry, and the key an event is given against cycles: plain field mappings, taken as a parameter or dropped.
- The bech32 string checks and the 32-byte cut in `npub_to_hex`: string handling around the regrouping.
- BitRegroup.ConvertBits: does not model a target width of zero, on which the source does not terminate.
- RefProducer.CacheMirrorsProducer: is about producers that keep the rules of the protocol; other streams are covered by the laws over arbitrary runs.
- Code generators, command-line tools, manifests, ownership descriptors, the browser runtime and the Rust row cache in `crates/nmp-core/src/refs/cache.rs`: plumbing or repetition of the algorithm modelled here.
