# A verified model of the solid-pod-rs cores

This project models the parts of solid-pod-rs that carry real invariants, and
proves them for all inputs and all runs: the Nostr relay and its WebSocket
protocol, the RDF printer, parser and patch engines, JSON Patch, HTTP
Signatures, the ActivityPub inbox and delivery queue, the identity provider's
code flow and key ring, the base58 and `did:key` codecs, the quota counter and
the layered configuration merge.

`dafny verify dfyconfig.toml` checks everything (Dafny 4.11).

## How it is laid out

| module | models |
|---|---|
| `Relay`, `RelayProtocol`, `RelayRuns`, `RelayLaws` | event store, `ingest`, `history`; one WebSocket; every interleaving of both; kinds, addresses and filters |
| `NTriples`, `NTriplesRoundTrip`, `NTriplesErrors`, `NTriplesLaws` | N-Triples printer and parser; exactly which graphs survive them and which texts are refused; the rules of the dialect |
| `Blocks`, `RdfPatch`, `SparqlQuads`, `PatchLaws` | block extraction; N3 and SPARQL patch; which changes both can express; each operation triple by triple |
| `N3Layout`, `N3Document`, `Braces` | patch documents as text; what they do end to end and which are refused; exactly which graphs they carry |
| `Json`, `JsonPointer`, `JsonPatch`, `JsonPatchLaws` | JSON values, pointers as lenses, JSON Patch; each operation member by member |
| `Config` | layered merge |
| `HttpSignature`, `SignatureLists` | signature header scanner and printer; the headers of other senders |
| `SignedRequests`, `SignedLaws` | signing and verifying; exactly which requests are accepted |
| `Provider`, `Jwks` | authorization codes and tokens; signing-key rollover |
| `Inbox`, `InboxRuns`, `InboxLaws` | idempotent inbox; its interleavings; what its answers tell |
| `Delivery`, `DeliveryRuns`, `DeliveryLaws` | durable retry queue; overlapping drains of it; the fate of a row by the answers it meets |
| `Base58`, `Base58Codec`, `DidKey` | carry-loop encoder, the bijection it computes, identifiers |
| `Quota` | the check-then-add byte counter under interleaving |
| `Text` | the string operations of the Rust standard library that the above use |

The modules named `…Laws` say what the operations mean without their code: who
is accepted, what each step changes and what it leaves alone.

Objects that the source updates in place are classes; each of their methods is
proved equal to a function of the old state, and the theorems are about those
functions. Loops of the source are loops here. Concurrency is a step relation
over the same functions. Time, randomness, SHA-256, RSA, Schnorr, DPoP, the
client registry and the user store are parameters, so every result holds
whatever they answer, under the conditions each lemma names.

## What the code does, where its own words say otherwise

- The delivery worker documents waits of 30 s up to 24 h. The 24 h step is never
  taken: a row is sent six times at most, so there are five waits
  (`Delivery.SendsAreSpaced`).
- Replaceable events are documented to supersede older ones. `ingest` does not
  compare `created_at`, so an older event that arrives later wins
  (`Relay.OlderTakesTheSlot`). The rule holds throughout a run exactly if the
  events of each slot arrive in order (`Relay.NewestWinsIffInOrder`).
- "At most one event per slot" needs serialised ingests. The lock is taken twice,
  so two ingests of one slot can both append (`RelayRuns.RaceFromTheStart`). For
  capacities of two and more that race is the exact boundary: without it the
  rule holds (`RelayRuns.OnePerSlotUnlessRacing`), and every run that reaches it
  goes on to break the rule (`RelayRuns.RaceExtends`). At capacity one the race
  is harmless (`RelayRuns.OneEventNeverDuplicates`).
- N-Triples literals are read byte by byte, so a value above ASCII does not come
  back (`NTriplesRoundTrip.RoundTrip` gives the exact condition,
  `NTriplesRoundTrip.NonAsciiIsDamaged` an input).
- The N3 patch documentation allows `?var` in WHERE. A `?` starts no term of the
  parser (`NTriplesErrors.UnexpectedExactly`), so the documented example is
  refused whatever the target (`N3Document.DocumentedExampleIsRefused`); a patch
  is malformed exactly if some clause has an unreadable line
  (`N3Document.MalformedExactly`).
- The end of a block is found by counting braces, and those in literals and IRIs
  count. A printed graph is read back from its block, whatever follows, exactly
  if its braces balance (`Braces.BlockReadsExactly`): the literal `{}` comes back,
  `{` and `}` do not (`Braces.BraceLiterals`).
- A literal typed `xsd:string` can be inserted by N3 and not by SPARQL, which
  writes it back untyped (`SparqlQuads.TypedStringsAreN3Only`); blank nodes can be
  inserted and not deleted (`SparqlQuads.ReachesExactly`).
- The verifier's comment calls the digest check mandatory for POST. It is made only
  if the sender lists `digest`; a request that leaves it out is accepted with any
  body (`SignedRequests.BodyIsBoundIff`).
- The delivery worker may be shared with manual flushes. Then two drains can send
  one row at once: with w drains in progress the cap of six sends becomes 2w + 4
  (`DeliveryRuns.SendBound`), and that many can happen (`DeliveryRuns.BoundIsReached`).
- JSON Patch `replace` with `-` appends, and `01` writes to index 1
  (`JsonPatch.UnreadableReplaceStrays`, `JsonPatch.StrayingReplaces`); a failing
  `move` may have removed its source (`JsonPatch.FailingMove`,
  `JsonPatch.LosingMove`); a failing patch keeps its earlier operations
  (`JsonPatch.FailureKeepsPrefix`).
- The quota check and update are two operations; `Quota.QuotaBound` gives the
  overshoot and `Quota.BoundIsTight` reaches it. A quota of 2^64-1 never refuses
  and lets the counter wrap, because the check saturates and the update does not
  (`Quota.QuotaTracker.Reserve`).
- Configuration layers are merged from the left, and grouping matters:
  `Config.AssociativeIff` says exactly when it does not.
- `handle_inbox` awaits between recording an activity and acting on it, so an Undo
  can overtake the Follow recorded before it (`InboxRuns.UndoOvertaken`). The
  tables always follow the order of acting (`InboxRuns.Linearised`), and follow
  the order of recording unless two deliveries about one follower are pending
  together (`InboxRuns.RecordOrderUnlessRacing`, `InboxRuns.RaceReorders`).
- The inbox log is keyed by activity id alone, so an activity addressed to two
  local actors takes effect for the first only (`Inbox.SecondAddresseeIsIgnored`).
- The `publicKeyMultibase` of a Nostr DID document carries the secp256k1 codec
  over a 32-byte key, which the `did:key` decoder refuses
  (`DidKey.SchnorrMultibaseIsNoDidKey`).

## Model

| member | source | states |
|---|---|---|
| Relay.FirstTag | crates/solid-pod-rs-nostr/src/relay.rs:91-96 | the tag found is the first of its name |
| Relay.SupersedesIsSameSlot | crates/solid-pod-rs-nostr/src/relay.rs:412-437 | the replacement predicates of `ingest` mean: same NIP-16 slot, (pubkey, kind) or (pubkey, kind, d tag) |
| RelayLaws.KindClasses | crates/solid-pod-rs-nostr/src/relay.rs:203-213 | kinds by ten thousands: exactly one of replaceable, ephemeral, parameterised and regular |
| RelayLaws.SlotsAreAddresses | crates/solid-pod-rs-nostr/src/relay.rs:412-437 | slots are equal exactly for the same author and kind and, for parameterised kinds, the same first `d` tag value |
| RelayLaws.TwoEvents | crates/solid-pod-rs-nostr/src/relay.rs:403-449 | of two valid events the second replaces the first exactly if they have the same address; ephemeral ones are never stored |
| RelayLaws.FilterMeans | crates/solid-pod-rs-nostr/src/relay.rs:147-200 | a filter asks for all of its criteria: ids and authors without regard to case, kinds, an inclusive time window, one wanted value for every tag name |
| RelayLaws.CriteriaAddUp | crates/solid-pod-rs-nostr/src/relay.rs:147-200 | criteria that do not overlap add up, and no criteria match everything |
| Relay.EventStore.constructor | crates/solid-pod-rs-nostr/src/relay.rs:251-258 | an empty store whose capacity is at least one |
| Relay.EventStore.Put | crates/solid-pod-rs-nostr/src/relay.rs:267-273 | appends, evicting the oldest event of a full store; the capacity is never exceeded |
| Relay.EventStore.Remove | crates/solid-pod-rs-nostr/src/relay.rs:275-278 | keeps, in order, the events with another id |
| Relay.WithoutExact | crates/solid-pod-rs-nostr/src/relay.rs:275-278 | after removal an event is stored exactly if it was and has another id |
| RelayLaws.RemovesInOrder | crates/solid-pod-rs-nostr/src/relay.rs:275-278 | removal keeps the order and number of the others |
| Relay.EventStore.ReplaceWhere | crates/solid-pod-rs-nostr/src/relay.rs:287-300 | overwrites the first match in place, or reports that there is none and changes nothing |
| RelayLaws.ReplacesInPlace | crates/solid-pod-rs-nostr/src/relay.rs:287-300 | a replacement takes the place of the first event of its address; the rest of the store stays |
| Relay.RelayServer.Ingest | crates/solid-pod-rs-nostr/src/relay.rs:403-449 | an undisturbed ingest rejects invalid events without effect, otherwise writes as NIP-16 says and broadcasts once |
| Relay.WrittenHasTheNewEvent | crates/solid-pod-rs-nostr/src/relay.rs:412-448 | a non-ephemeral event is stored right after its ingest |
| Relay.StoreInvariant | crates/solid-pod-rs-nostr/src/relay.rs:403-449 | over every serialised run: within capacity, one event per slot, every stored event valid, not ephemeral, and the last valid one ingested for its slot |
| Relay.OlderTakesTheSlot | crates/solid-pod-rs-nostr/src/relay.rs:397-421 | an older event that arrives after a newer one of its slot is the one stored |
| Relay.StoredIsLast | crates/solid-pod-rs-nostr/src/relay.rs:412-443 | what a run stores for a slot is its last valid ingest, and that is the newest exactly if no earlier valid ingest of the slot was newer |
| Relay.NewestWinsIffInOrder | crates/solid-pod-rs-nostr/src/relay.rs:397-449 | the documented rule holds in every prefix of a run if and only if the valid events of each slot arrive in order of `created_at` |
| Relay.RegularRun | crates/solid-pod-rs-nostr/src/relay.rs:445-448 | with regular kinds only, the store is exactly the last min(n, capacity) events |
| Relay.ComputeHistory | crates/solid-pod-rs-nostr/src/relay.rs:453-473 | the filter loops with the `seen` set compute `History` |
| Relay.HistoryByPosition | crates/solid-pod-rs-nostr/src/relay.rs:453-473 | the answer by store positions alone: filter by filter and in store order, the matches that fewer than `limit` later matches follow, each id where it is first met |
| Relay.HistoryExact | crates/solid-pod-rs-nostr/src/relay.rs:453-473 | no id twice; the ids are exactly those of positions some filter selects; every event is stored and matches some filter |
| Relay.UnlimitedIsComplete | crates/solid-pod-rs-nostr/src/relay.rs:460-470 | a stored match of a filter without limit is never left out |
| RelayProtocol.Connection.HandleReq | crates/solid-pod-rs-nostr/src/ws.rs:159-189 | one bad filter rejects the request and leaves subscriptions alone; otherwise binds the id and sends history, then EOSE |
| RelayLaws.AnswerByPosition | crates/solid-pod-rs-nostr/src/ws.rs:170-189 | the frames of an answer are the history, position by position, and then one EOSE |
| RelayProtocol.Connection.HandleClose | crates/solid-pod-rs-nostr/src/ws.rs:191-200 | unbinds exactly the named subscription |
| RelayProtocol.Connection.Deliver | crates/solid-pod-rs-nostr/src/ws.rs:73-87 | for each subscription exactly one frame if the event matches and none otherwise, in whatever order the map is iterated |
| RelayRuns.Preserved | crates/solid-pod-rs-nostr/src/ws.rs:44-88 | every step of every party keeps the protocol invariant, including the exact per-subscription transcript |
| RelayRuns.Invariant | crates/solid-pod-rs-nostr/src/ws.rs:39-90 | in every state of every run the client has seen, per subscription: history, EOSE, then each matching channel event once, in order |
| RelayRuns.NoGap | crates/solid-pod-rs-nostr/src/relay.rs:403-449 | for every interleaving: a written event that matches an unlimited filter of an open subscription was sent, or was gone before the request, or is still on its way, or was skipped by lagging |
| RelayLaws.LostIsOld | crates/solid-pod-rs-nostr/src/ws.rs:73-87 | in every run a connection loses an event by lagging only once the broadcast buffer has gone past it |
| RelayRuns.OnePerSlotUnlessRacing | crates/solid-pod-rs-nostr/src/relay.rs:412-443 | one event per slot in every run in which no two ingests of a slot are between their two lock acquisitions |
| RelayRuns.WithinCapacity | crates/solid-pod-rs-nostr/src/relay.rs:267-300 | the capacity bound holds in every interleaving |
| RelayRuns.RaceExtends | crates/solid-pod-rs-nostr/src/relay.rs:415-421 | from capacity two on, every run that reaches such a race goes on to a run with two events in one slot |
| RelayRuns.RaceFromTheStart | crates/solid-pod-rs-nostr/src/relay.rs:403-421 | any two valid events of one slot have such a run from the empty relay |
| RelayRuns.OneEventNeverDuplicates | crates/solid-pod-rs-nostr/src/relay.rs:267-273 | at capacity one the race is harmless |
| RelayRuns.SerialIngest | crates/solid-pod-rs-nostr/src/relay.rs:403-449 | the steps of one ingest, taken without interruption, have the effect of `ingest` |
| NTriples.WriteNTriples | crates/solid-pod-rs/src/ldp.rs:461-499 | appends the N-Triples form of a term to the buffer |
| NTriples.ToNTriples | crates/solid-pod-rs/src/ldp.rs:579-590 | prints one line per triple, in listing order |
| NTriples.ScanLiteral | crates/solid-pod-rs/src/ldp.rs:641-665 | the byte loop collects what the recursive scan specifies and stops just past the closing quote |
| NTriples.ByteScanIsCharScan | crates/solid-pod-rs/src/ldp.rs:636-666 | for every text the byte scan stops at a character boundary and equals a scan by characters |
| NTriples.ParseNTriples | crates/solid-pod-rs/src/ldp.rs:593-605 | the line loop computes the parsed graph or the first error with its line number |
| NTriplesRoundTrip.ReadWritten | crates/solid-pod-rs/src/ldp.rs:618-634 | a printed term is read back up to its delimiter, whatever follows |
| NTriplesRoundTrip.ParsePrinted | crates/solid-pod-rs/src/ldp.rs:579-616 | every graph of printable terms parses, to exactly its terms with literals re-read byte by byte |
| NTriplesRoundTrip.ParsedIsShaped | crates/solid-pod-rs/src/ldp.rs:593-686 | whatever the input, parsed terms contain no delimiter of their own kind and never both language and datatype |
| NTriplesRoundTrip.RoundTrip | crates/solid-pod-rs/src/ldp.rs:579-605 | parse(print(g)) = g if and only if every triple is well formed |
| NTriplesRoundTrip.PrintInjective | crates/solid-pod-rs/src/ldp.rs:579-590 | well-formed graphs with the same text are equal |
| NTriplesRoundTrip.NonAsciiIsDamaged | crates/solid-pod-rs/src/ldp.rs:660-663 | U+00E9 comes back as U+00C3 U+00A9 |
| NTriplesErrors.UnexpectedExactly | crates/solid-pod-rs/src/ldp.rs:618-634 | a term is refused as unexpected exactly if it starts as neither IRI, literal nor blank node |
| NTriplesErrors.ParseExactly | crates/solid-pod-rs/src/ldp.rs:593-605 | a text is refused exactly if one of its lines is bad; the error carries the number and the cause of the first |
| NTriplesErrors.ForeignIsRefused | crates/solid-pod-rs/src/ldp.rs:607-634 | a `?`, or any other character no term starts with, where subject, predicate or object is due makes the line bad, whatever follows |
| NTriplesLaws.EscapeIsPlain | crates/solid-pod-rs/src/ldp.rs:461-499 | printed literals hold no raw newline, return or tab |
| NTriplesLaws.LanguageWins | crates/solid-pod-rs/src/ldp.rs:485-497 | a literal with both is printed with its language alone |
| NTriplesLaws.ScanRules | crates/solid-pod-rs/src/ldp.rs:641-665 | how a literal is read, character by character, known and unknown escapes and both ends included |
| NTriplesLaws.Utf8Means | crates/solid-pod-rs/src/ldp.rs:636-663 | the bytes of a character, read backwards, give its code point in the least number of bytes |
| NTriplesLaws.LabelMeans | crates/solid-pod-rs/src/ldp.rs:623-627 | labels and language tags run to white space or a full stop |
| NTriplesLaws.UnterminatedExactly | crates/solid-pod-rs/src/ldp.rs:618-686 | exactly which terms are refused as unterminated |
| NTriplesLaws.LooseLine | crates/solid-pod-rs/src/ldp.rs:607-616 | a line of three terms is read for them whatever follows, full stop or not |
| NTriplesLaws.CommentsDoNotMatter | crates/solid-pod-rs/src/ldp.rs:593-605 | a blank or comment line anywhere leaves graph and error cause as they are |
| NTriplesLaws.TextsOneAfterTheOther | crates/solid-pod-rs/src/ldp.rs:593-605 | parsing two texts on lines of their own is parsing the one and then the other |
| Blocks.SearchKeyword | crates/solid-pod-rs/src/ldp.rs:977-1025 | the search that restarts after each keyword finds the first qualifying occurrence of all |
| Blocks.MatchBrace | crates/solid-pod-rs/src/ldp.rs:1006-1021 | the depth counter finds where the block closes, or that it does not |
| Blocks.ExtractBlock | crates/solid-pod-rs/src/ldp.rs:967-1028 | keyword loop and search compute `FindBlock` |
| Blocks.BlockAtExact | crates/solid-pod-rs/src/ldp.rs:984-1024 | a block is found at a position exactly if: keyword there, at a left word boundary, then white space, then a block whose depth is positive until its last character |
| Blocks.FindBlockExact | crates/solid-pod-rs/src/ldp.rs:976-1027 | sound, complete and first: `None` only if no keyword occurrence qualifies |
| Blocks.KeywordsAreSearchable | crates/solid-pod-rs/src/ldp.rs:918-920 | the keyword lists in use meet the condition under which no occurrence is skipped |
| PatchLaws.KeywordsAre | crates/solid-pod-rs/src/ldp.rs:918-920 | the keywords of each clause, and no others |
| PatchLaws.GluedKeywords | crates/solid-pod-rs/src/ldp.rs:986-998 | a keyword after a letter, digit or underscore opens no block |
| RdfPatch.ApplyN3Patch | crates/solid-pod-rs/src/ldp.rs:917-965 | the loops compute the set algebra of an N3 patch |
| RdfPatch.ApplySparql | crates/solid-pod-rs/src/ldp.rs:1172-1234 | the quad-by-quad loops with their counters compute the set algebra of the operations |
| PatchLaws.InsertDataMeans | crates/solid-pod-rs/src/ldp.rs:1177-1187 | a triple is in the graph exactly if it was or is named; the count is what is new |
| PatchLaws.DeleteDataMeans | crates/solid-pod-rs/src/ldp.rs:1188-1196 | a triple is in the graph exactly if it was and is not named; the count is what is gone |
| PatchLaws.DeleteInsertMeans | crates/solid-pod-rs/src/ldp.rs:1197-1222 | templates: a triple is in the graph exactly if inserted, or there and not deleted; graph and counts are those of DELETE DATA then INSERT DATA |
| PatchLaws.OpsInSequence | crates/solid-pod-rs/src/ldp.rs:1176-1230 | operations act one after the other, and any other operation refuses the document |
| PatchLaws.UpdateMeans | crates/solid-pod-rs/src/ldp.rs:1197-1222 | the same from quads: by the quads of the triples that templates can say |
| PatchLaws.ErrorsInOrder | crates/solid-pod-rs/src/ldp.rs:922-958 | which error a patch gives: that of the first clause in reading order that does not parse; WHERE is checked after all have |
| PatchLaws.PatchMeans | crates/solid-pod-rs/src/ldp.rs:946-964 | a triple is in the patched graph exactly if inserted, or there and not deleted |
| RdfPatch.EnginesAgree | crates/solid-pod-rs/src/ldp.rs:933-964 | N3 succeeds exactly if WHERE is contained in the target; graph and deleted count equal DELETE DATA then INSERT DATA; insert counts agree exactly if no insert survives the deletes |
| SparqlQuads.ReachesExactly | crates/solid-pod-rs/src/ldp.rs:1055-1171 | the three quad conversions reach exactly these triples: IRI predicates, no literal typed `xsd:string`, blank nodes in INSERT DATA only |
| PatchLaws.ConversionsInvert | crates/solid-pod-rs/src/ldp.rs:1064-1171 | a quad converts to a triple exactly if it is that triple's own quad in the default graph and the triple can be said; all others are skipped |
| SparqlQuads.ExpressibleIff | crates/solid-pod-rs/src/ldp.rs:1055-1200 | DELETE DATA and INSERT DATA can make the change of an N3 patch on every graph if and only if all it inserts and all it really deletes can be said |
| SparqlQuads.TypedStringsAreN3Only | crates/solid-pod-rs/src/ldp.rs:1049-1062 | no SPARQL document inserts a literal typed `xsd:string` |
| RdfPatch.ConservationFromTarget | crates/solid-pod-rs/src/ldp.rs:1176-1234 | for every operation list, result size + deleted = target size + inserted |
| N3Document.BlockParses | crates/solid-pod-rs/src/ldp.rs:1030-1035 | a printed graph in braces is stripped and parsed back to itself |
| PatchLaws.StripsPadding | crates/solid-pod-rs/src/ldp.rs:1030-1035 | white space around a block and inside its braces does not matter |
| N3Layout.DocumentMeaning | crates/solid-pod-rs/src/ldp.rs:917-1035 | for clauses in any order, with any keyword of their kind, any white space and any text between and inside them in which no keyword is followed by a brace: each clause is read from its own block, to the matching brace |
| N3Layout.WholeBodyIsRead | crates/solid-pod-rs/src/ldp.rs:1006-1035 | a block whose braces balance is read whole, whatever follows it |
| N3Document.DocumentApplies | crates/solid-pod-rs/src/ldp.rs:917-965 | end to end: a document printed from well-formed graphs, braces balanced, applies if and only if its WHERE graph is contained in the target, and then removes exactly the one graph and adds exactly the other |
| N3Document.MalformedExactly | crates/solid-pod-rs/src/ldp.rs:917-940 | any patch on any target is malformed if and only if the block of some clause has a bad line |
| N3Document.ForeignLineRefuses | crates/solid-pod-rs/src/ldp.rs:917-940 | one line with a variable or other foreign text as subject, predicate or object, in any clause, among any others, makes a document malformed for every target |
| N3Document.DocumentedExampleIsRefused | crates/solid-pod-rs/src/ldp.rs:903-916 | the documented patch with `<#s> <#p> ?var .` is refused for every target |
| Braces.ParseCounts | crates/solid-pod-rs/src/ldp.rs:593-686 | whatever the text, the triples parsed from it hold no more closing braces than it does |
| Braces.FewerIsNotTheGraph | crates/solid-pod-rs/src/ldp.rs:593-605 | text with fewer closing braces than a printed graph never parses to that graph |
| Braces.BlockReadsExactly | crates/solid-pod-rs/src/ldp.rs:1006-1035 | the block of a printed graph is read back as the graph, whatever follows it, if and only if it closes with its own last brace and not before |
| Braces.DocumentReadsExactly | crates/solid-pod-rs/src/ldp.rs:967-1035 | every clause of a printed document says its graph if and only if each of its blocks closes last |
| Braces.BraceLiterals | crates/solid-pod-rs/src/ldp.rs:1006-1021 | between brace-free IRIs the literal `{}` comes back, `{` and `}` do not |
| JsonPointer.SplitPointerInverts | crates/solid-pod-rs/src/ldp.rs:1866-1876 | `split_pointer` recovers every key from its RFC 6901 escape, under any parent |
| JsonPointer.SplitIsLastToken | crates/solid-pod-rs/src/ldp.rs:1866-1876 | splitting agrees with tokenising |
| JsonPointer.TokensOfPointer | crates/solid-pod-rs/src/ldp.rs:1768-1776 | a pointer built from any keys names exactly those keys |
| JsonPatchLaws.ReadsStepwise | crates/solid-pod-rs/src/ldp.rs:1768-1776 | a pointer reads members by name and elements by their decimal position, and nothing below anything else |
| JsonPointer.LensLaws | crates/solid-pod-rs/src/ldp.rs:1782-1804 | writing through a pointer: read gives the written value, the last write wins, writing back what was read changes nothing |
| JsonPointer.PutElsewhere | crates/solid-pod-rs/src/ldp.rs:1821-1863 | writing at one path leaves every unrelated path as it was |
| JsonPatch.Document.JsonPointerSet | crates/solid-pod-rs/src/ldp.rs:1811-1864 | sets in place; a failing set changes nothing |
| JsonPatch.Document.JsonPointerRemove | crates/solid-pod-rs/src/ldp.rs:1778-1809 | removes in place; a failing remove changes nothing |
| JsonPatch.Document.ApplyJsonPatch | crates/solid-pod-rs/src/ldp.rs:1691-1766 | applies operations in order and stops at the first failure |
| JsonPatchLaws.TestAfterSet | crates/solid-pod-rs/src/ldp.rs:1725-1735 | after a set at a readable place `test` passes for exactly that value |
| JsonPatchLaws.TestMeans | crates/solid-pod-rs/src/ldp.rs:1725-1735 | `test` passes for the value a pointer reads, for no other, and changes nothing |
| JsonPatchLaws.TestInPatch | crates/solid-pod-rs/src/ldp.rs:1698-1765 | a passing `test` is as if it were not there; a failing one leaves the effect of the operations before it |
| JsonPatchLaws.CopyAndMove | crates/solid-pod-rs/src/ldp.rs:1736-1757 | `copy` is an `add` of what is read, `move` a `remove` and such an `add` |
| JsonPatchLaws.RootAndMalformed | crates/solid-pod-rs/src/ldp.rs:1779-1818 | the root can be set and not removed; an operation that does not decode changes nothing |
| JsonPatchLaws.EditsContainer | crates/solid-pod-rs/src/ldp.rs:1778-1864 | a path edits the container its parent pointer reads, or fails if there is none |
| JsonPatchLaws.SlashlessPath | crates/solid-pod-rs/src/ldp.rs:1866-1876 | a path without a slash edits a member of the root, and reads nothing |
| JsonPatchLaws.MemberEdits | crates/solid-pod-rs/src/ldp.rs:1786-1832 | objects: `add` sets any member, `replace` and `remove` need it to be there; all others stay |
| JsonPatchLaws.PositionAdd | crates/solid-pod-rs/src/ldp.rs:1833-1857 | arrays: `add` shifts what follows and is refused exactly beyond the end |
| JsonPatchLaws.PositionReplace | crates/solid-pod-rs/src/ldp.rs:1833-1857 | arrays: `replace` changes one position, which must be there |
| JsonPatchLaws.PositionRemove | crates/solid-pod-rs/src/ldp.rs:1793-1806 | arrays: `remove` closes the gap, and the position must be there |
| JsonPatchLaws.OtherEdits | crates/solid-pod-rs/src/ldp.rs:1793-1863 | the end marker appends, what is no position is unsupported, and scalars hold nothing |
| JsonPatchLaws.PositionTexts | crates/solid-pod-rs/src/ldp.rs:1797-1845 | positions for edits: optional plus, any zeros, the digits of a 64-bit number; for reading the digits only |
| JsonPatchLaws.NoPosition | crates/solid-pod-rs/src/ldp.rs:1797-1845 | any other text is no position |
| JsonPatch.AddThenRemove | crates/solid-pod-rs/src/ldp.rs:1708-1724 | add then remove restores the document if and only if the add made a new member or array position |
| JsonPatch.SetThenRead | crates/solid-pod-rs/src/ldp.rs:1811-1864 | the written value is read back if and only if the last token is a member name or a canonical index |
| JsonPatch.ReplaceElsewhere | crates/solid-pod-rs/src/ldp.rs:1715-1721 | replace leaves every path that is not above or below it unchanged |
| JsonPatch.UnreadableReplaceStrays | crates/solid-pod-rs/src/ldp.rs:1836-1857 | without a canonical last token, any replace that changes something changes an unrelated path |
| JsonPatch.StrayingReplaces | crates/solid-pod-rs/src/ldp.rs:1836-1857 | in every array `-` appends and `01` overwrites index 1 |
| JsonPatch.MoveToItself | crates/solid-pod-rs/src/ldp.rs:1747-1757 | moving a readable value to its own place is the identity; the root is refused |
| JsonPatch.TransferThenRead | crates/solid-pod-rs/src/ldp.rs:1737-1757 | a copied or moved value is read at its destination if and only if the last token there is readable |
| JsonPatch.FailingMove | crates/solid-pod-rs/src/ldp.rs:1747-1757 | a failing move leaves the document alone if and only if its source cannot be read or is the root |
| JsonPatch.LosingMove | crates/solid-pod-rs/src/ldp.rs:1747-1757 | for every value: a move into a missing parent fails and has removed its source |
| JsonPatch.FailureKeepsPrefix | crates/solid-pod-rs/src/ldp.rs:1698-1765 | a failing patch leaves the effect of the operations before the one that failed |
| Config.MergeJson | crates/solid-pod-rs/src/config/sources.rs:588-604 | the recursive key loop, in any key order, computes the merge |
| Config.Load | crates/solid-pod-rs/src/config/loader.rs:154-166 | folds the sources from the left, fails with the first source that fails, and uses the defaults when there are none |
| Config.Precedence | crates/solid-pod-rs/src/config/loader.rs:161-165 | for any sources, objects or not, a leaf is in the merged tree if and only if it is the value of the last source that is not silent on its path |
| Config.MergeTwice | crates/solid-pod-rs/src/config/sources.rs:588-604 | merging the same overlay twice is merging it once |
| Config.AssociativeIff | crates/solid-pod-rs/src/config/sources.rs:588-604 | regrouping three layers gives the same tree if and only if no scalar lies between two objects of which the later does not override the earlier |
| Config.MergeIsNotAssociative | crates/solid-pod-rs/src/config/sources.rs:600-602 | an instance where it does not |
| HttpSignature.ScanAttributes | crates/solid-pod-rs-activitypub/src/http_sig.rs:161-219 | the flag-driven character loop computes the scan |
| HttpSignature.ParseSignatureHeader | crates/solid-pod-rs-activitypub/src/http_sig.rs:158-252 | scanning, attribute dispatch, required attributes and defaults compute `Parse` |
| HttpSignature.ScanAttr | crates/solid-pod-rs-activitypub/src/http_sig.rs:167-216 | a printed attribute is read back whatever came before it |
| HttpSignature.HeaderRoundTrip | crates/solid-pod-rs-activitypub/src/http_sig.rs:384-389 | the printed header is recovered in all four parts if and only if key id and signature are non-empty and quote-free |
| HttpSignature.MinimalHeader | crates/solid-pod-rs-activitypub/src/http_sig.rs:241-250 | without algorithm and covered list the defaults are rsa-sha256 and the date alone |
| HttpSignature.ParsedNames | crates/solid-pod-rs-activitypub/src/http_sig.rs:221-250 | whatever a sender writes, the covered list is not empty and no name in it is empty or holds ASCII white space |
| SignatureLists.ScanList | crates/solid-pod-rs-activitypub/src/http_sig.rs:161-219 | attributes in any order, case, spacing and quoting are read back |
| SignatureLists.ParsesList | crates/solid-pod-rs-activitypub/src/http_sig.rs:158-252 | on any such list the last attribute of each name counts and other names do not; key and signature are required, the rest has defaults |
| SignatureLists.StrayText | crates/solid-pod-rs-activitypub/src/http_sig.rs:196-219 | a name without `=` and a value without name yield no attribute; such a value stays in front of the next |
| SignatureLists.WordsByRule | crates/solid-pod-rs-activitypub/src/http_sig.rs:226-231 | covered names are separated by any run of white space |
| SignedRequests.BuildSignatureBase | crates/solid-pod-rs-activitypub/src/http_sig.rs:256-276 | builds the covered lines, or fails if a covered header is missing |
| SignedRequests.Outbound.SignRequest | crates/solid-pod-rs-activitypub/src/http_sig.rs:343-404 | replaces exactly the four canonical headers and keeps all others; a bad URL, a URL without host and a bad key fail in this order and leave the headers alone |
| SignedLaws.TargetSplits | crates/solid-pod-rs-activitypub/src/http_sig.rs:352-356 | the signed target splits at its first `?` into the path and query of the URL |
| SignedLaws.EmittedVerifies | crates/solid-pod-rs-activitypub/src/http_sig.rs:343-404 | what `sign_request` emits for a URL verifies at a receiver that sees its path and query |
| SignedLaws.OtherHeadersKept | crates/solid-pod-rs-activitypub/src/http_sig.rs:391-402 | every other header keeps its values and their order |
| SignedLaws.ReceivedJoins | crates/solid-pod-rs-activitypub/src/http_sig.rs:36-38 | on arrival a header is there if it was sent, whatever its case, its values joined by commas |
| SignedRequests.ReceivedSigned | crates/solid-pod-rs-activitypub/src/http_sig.rs:391-402 | on arrival each canonical header has exactly the one signed value |
| SignedRequests.BasesAgree | crates/solid-pod-rs-activitypub/src/http_sig.rs:360-376 | the verifier's base equals the text that was signed |
| SignedRequests.SignedVerifies | crates/solid-pod-rs-activitypub/src/http_sig.rs:287-335 | a signed request is accepted on arrival, if RSA accepts its own signatures |
| SignedLaws.AcceptedIff | crates/solid-pod-rs-activitypub/src/http_sig.rs:287-335 | exactly which requests of any sender are accepted: key, signature, algorithm, headers present, digest if listed, and the signature over the lines in listed order |
| SignedLaws.RefusedBecause | crates/solid-pod-rs-activitypub/src/http_sig.rs:287-335 | which refusal a request gets: algorithm, digest, key, covered headers, in this order |
| SignedRequests.BaseBinds | crates/solid-pod-rs-activitypub/src/http_sig.rs:256-276 | two requests with the same base agree on every covered value, for every covered list |
| SignedRequests.TargetBinds | crates/solid-pod-rs-activitypub/src/http_sig.rs:260-266 | the request-target line determines method and path |
| SignedRequests.ListIsForced | crates/solid-pod-rs-activitypub/src/http_sig.rs:256-276 | whatever lists sender and signer choose: a signed text is reproduced only by naming the signed list |
| SignedRequests.AcceptedWasSigned | crates/solid-pod-rs-activitypub/src/http_sig.rs:287-335 | conversely, if only texts the key's owner signed check, under whatever lists, then every accepted request names exactly a signed list and is value for value on it a request the owner signed; its body fits the digest if that is listed |
| SignedRequests.OwnListBindsAll | crates/solid-pod-rs-activitypub/src/http_sig.rs:359-376 | with the list of `sign_request` that fixes method, path, host, date, digest and body |
| SignedRequests.BodyIsBoundIff | crates/solid-pod-rs-activitypub/src/http_sig.rs:299-319 | an accepted request is accepted with every other body if and only if its list leaves out the digest |
| Provider.SessionStore.IssueCode | crates/solid-pod-rs-idp/src/session.rs:158-180 | stores the new record under its code and touches no other |
| Provider.SessionStore.TakeCode | crates/solid-pod-rs-idp/src/session.rs:185-192 | removes the code in any case; yields the record unless it is missing or too old |
| Provider.Provider.Authorize | crates/solid-pod-rs-idp/src/provider.rs:136-203 | the checks in order, the login gate, and a minted code only after all of them |
| Provider.MintedIff | crates/solid-pod-rs-idp/src/provider.rs:136-203 | a code is minted exactly for a known client, any of its redirect URIs, type `code`, an S256 challenge and a session; each other case has its own error |
| Provider.Provider.Token | crates/solid-pod-rs-idp/src/provider.rs:210-304 | grant type and DPoP before the code is consumed; binding, PKCE, account checks and signing after, so a failure to sign burns the code |
| Provider.Provenance | crates/solid-pod-rs-idp/src/provider.rs:210-304 | every token of every run goes back to exactly one earlier authorisation: same client, registered redirect URI, account, S256 challenge of the presented verifier, within the lifetime |
| Provider.SingleUse | crates/solid-pod-rs-idp/src/session.rs:185-192 | two tokens never come from one code |
| Provider.Burned | crates/solid-pod-rs-idp/src/provider.rs:240-244 | a redemption that reaches `take_code` burns the code even if it fails |
| Provider.Honoured | crates/solid-pod-rs-idp/src/provider.rs:240-304 | conversely, the rightful client with an unpresented code in time gets its token |
| Provider.GoodFlow | crates/solid-pod-rs-idp/src/provider.rs:136-304 | a good authorisation and then the first good redemption of its code issue the token asked for |
| Provider.RefusedBecause | crates/solid-pod-rs-idp/src/provider.rs:246-293 | which refusal a redemption gets: binding, verifier, account, key |
| Jwks.KeyRing.Rotate | crates/solid-pod-rs-idp/src/jwks.rs:238-252 | the new key becomes active and the old one is retired, not lost |
| Jwks.KeyRing.PruneExpired | crates/solid-pod-rs-idp/src/jwks.rs:255-261 | drops exactly the keys retired for the retention time or longer |
| Jwks.PrunedExactly | crates/solid-pod-rs-idp/src/jwks.rs:255-261 | a retired key stays exactly until it has been retired for the retention time |
| Jwks.KeptInOrder | crates/solid-pod-rs-idp/src/jwks.rs:255-261 | the keys that stay keep their order |
| Jwks.RotatedExactly | crates/solid-pod-rs-idp/src/jwks.rs:238-252 | after rotation the new key is active and all published before, and no others, still are |
| Jwks.KeyRing.PublicDocument | crates/solid-pod-rs-idp/src/jwks.rs:266-274 | lists exactly the active and the retained keys |
| Jwks.RolloverSafety | crates/solid-pod-rs-idp/src/jwks.rs:232-274 | for every interleaving of issuing, rotating, inserting, pruning and waiting: the key of every unexpired token is published, if tokens live no longer than retention |
| Jwks.LongerTokensOutliveTheirKey | crates/solid-pod-rs-idp/src/tokens.rs:99-117 | for every longer token lifetime there is a run in which it fails |
| Inbox.Store.RecordInbox | crates/solid-pod-rs-activitypub/src/store.rs:263-288 | records an id once; an activity without id is never new |
| Inbox.Store.HandleInbox | crates/solid-pod-rs-activitypub/src/inbox.rs:50-130 | acts on new activities only, by type, with the matching outcome |
| InboxLaws.NothingHappened | crates/solid-pod-rs-activitypub/src/inbox.rs:56-64 | an untyped, id-less or logged activity changes nothing and is answered so; any other is logged |
| InboxLaws.FollowerAccepted | crates/solid-pod-rs-activitypub/src/inbox.rs:67-94 | the answer names the stored follower: the document's actor, else the verified sender |
| InboxLaws.FollowerRemoved | crates/solid-pod-rs-activitypub/src/inbox.rs:95-110 | the answer names the follower removed by the undoing of a Follow |
| InboxLaws.RequestAcknowledged | crates/solid-pod-rs-activitypub/src/inbox.rs:111-125 | the answer names the target; its row is set only if there was one |
| InboxLaws.LoggedOnly | crates/solid-pod-rs-activitypub/src/inbox.rs:126-129 | content activities are accepted, others ignored, and neither touches the tables |
| InboxLaws.ChangesAreTold | crates/solid-pod-rs-activitypub/src/inbox.rs:66-129 | the tables change only under the answers that name a follower or a target |
| Inbox.Store.AddFollowing | crates/solid-pod-rs-activitypub/src/store.rs:212-228 | a follow request is stored as not accepted, also if it was accepted before |
| Inbox.LogIsClaims | crates/solid-pod-rs-activitypub/src/store.rs:276-287 | the log holds exactly the ids of typed activities received |
| Inbox.ReplayImmunity | crates/solid-pod-rs-activitypub/src/inbox.rs:61-64 | for every run, all tables equal those of the run without repeated deliveries |
| Inbox.ReplayChangesNothing | crates/solid-pod-rs-activitypub/src/inbox.rs:61-64 | a replay at any later point, even after an Undo and with other content, changes nothing |
| Inbox.FollowersExact | crates/solid-pod-rs-activitypub/src/inbox.rs:66-112 | over every serial run the follower table holds exactly the last effective word on each follower: inbox and time of a Follow, nothing after an Undo |
| Inbox.FollowingExact | crates/solid-pod-rs-activitypub/src/inbox.rs:113-126 | over every serial run a following is known exactly if requested, and accepted exactly if an effective Accept followed and no newer request |
| InboxRuns.UninterruptedIsHandled | crates/solid-pod-rs-activitypub/src/inbox.rs:50-64 | recording and acting without interruption is `handle_inbox` |
| InboxRuns.Linearised | crates/solid-pod-rs-activitypub/src/inbox.rs:61-130 | for every interleaving the tables are those of the serial run of the effects in the order they took place, each id acting once; so both results above hold in that order, with the times of acting |
| InboxRuns.RecordOrderUnlessRacing | crates/solid-pod-rs-activitypub/src/inbox.rs:61-112 | if no two deliveries about a follower are ever pending together, then whenever none is pending the table holds the last word recorded |
| InboxRuns.RaceReorders | crates/solid-pod-rs-activitypub/src/inbox.rs:61-112 | two that are pending together and disagree can leave the earlier word standing |
| InboxRuns.UndoOvertaken | crates/solid-pod-rs-activitypub/src/inbox.rs:94-112 | such a run from the start, for every Follow and the Undo after it |
| Delivery.Worker.EnqueueDelivery | crates/solid-pod-rs-activitypub/src/store.rs:360-375 | appends a due row with a fresh id and no attempts |
| Delivery.Worker.DrainOnce | crates/solid-pod-rs-activitypub/src/delivery.rs:76-166 | takes the first due row and delivers, drops or reschedules it |
| Delivery.Worker.DrainUntilIdle | crates/solid-pod-rs-activitypub/src/delivery.rs:189-203 | the drain loop ends whatever the network answers, after at most six turns per row, with nothing due or an error |
| Delivery.DrainProgress | crates/solid-pod-rs-activitypub/src/delivery.rs:76-166 | the sum of (6 - attempts) strictly falls on every step that is neither idle nor an error; other steps change nothing |
| Delivery.SendsAreSpaced | crates/solid-pod-rs-activitypub/src/delivery.rs:24-29 | over every run of drains that do not overlap, whatever the clock shows: a row is sent at most six times, and between two sends lies at least the table entry for the earlier one; a queued row's attempts and date are those of its sends |
| Delivery.Accounting | crates/solid-pod-rs-activitypub/src/delivery.rs:76-166 | over every run of drains that do not overlap: attempts stay in 0..5, no row is sent more than six times, enqueued = queued + delivered + dropped |
| DeliveryLaws.Fates | crates/solid-pod-rs-activitypub/src/delivery.rs:108-166 | over every run: a row is retried while its answers are neither 2xx nor 4xx (408 and 429 apart), fewer than six times, and leaves the queue only by such an answer, its sixth, or for want of its activity |
| DeliveryLaws.DeliveredIsAccepted | crates/solid-pod-rs-activitypub/src/delivery.rs:110-115 | what is counted as delivered is exactly what was answered by 2xx |
| DeliveryLaws.EnqueuedIsSent | crates/solid-pod-rs-activitypub/src/store.rs:360-395 | a row is due from the moment it is enqueued, and not before |
| DeliveryLaws.WaitsAre | crates/solid-pod-rs-activitypub/src/delivery.rs:24-29 | the six waits of the table and the cap on attempts |
| DeliveryRuns.AloneIsDrained | crates/solid-pod-rs-activitypub/src/delivery.rs:76-166 | the steps of a drain that nothing interrupts have the effect of `drain_once` |
| DeliveryRuns.SendBound | crates/solid-pod-rs-activitypub/src/delivery.rs:51-166 | for every interleaving with at most w drains in progress: no row is sent more than 2w + 4 times, and no queued row stores more than w + 4 attempts |
| DeliveryRuns.BoundIsReached | crates/solid-pod-rs-activitypub/src/delivery.rs:76-166 | for every w a run sends a row 2w + 4 times |
| Base58.MultiplyIn | crates/solid-pod-rs-nostr/src/did.rs:195-199 | the in-place carry loop multiplies by 256; the carry stays below 256 |
| Base58.ShiftIn | crates/solid-pod-rs-nostr/src/did.rs:194-203 | one byte: the digits keep base-58 form without a leading zero and their value becomes 256 times the old plus the byte |
| Base58.Base58Encode | crates/solid-pod-rs-nostr/src/did.rs:180-212 | the nested loops yield one '1' per leading zero byte and the base-58 numeral of the number |
| Base58.AlphabetIs | crates/solid-pod-rs-nostr/src/did.rs:180-183 | the alphabet: ASCII letters and digits except 0, O, I and l, in ASCII order |
| Base58Codec.DecodeEncode | crates/solid-pod-rs-nostr/src/did.rs:180-212 | the decoder inverts the encoder on every byte string |
| Base58Codec.EncodeDecode | crates/solid-pod-rs-nostr/src/did.rs:180-212 | the encoder inverts the decoder on every text that decodes |
| Base58Codec.EncodeInjective | crates/solid-pod-rs-nostr/src/did.rs:180-212 | distinct byte strings have distinct texts |
| DidKey.MulticodecExact | crates/solid-pod-rs-didkey/src/pubkey.rs:87-136 | bytes parse to a key if and only if the key has its legal length and they are its encoding |
| DidKey.KnownPrefixes | crates/solid-pod-rs-didkey/src/pubkey.rs:87-136 | the bytes that start each kind of key and the one length each takes |
| DidKey.UnknownPrefixes | crates/solid-pod-rs-didkey/src/pubkey.rs:100-136 | any other code is unknown, whatever follows it |
| DidKey.Canonicity | crates/solid-pod-rs-didkey/src/did.rs:29-48 | an identifier decodes to a key if and only if it is that key's encoding, alone or with a fragment |
| DidKey.RefusedBecause | crates/solid-pod-rs-didkey/src/did.rs:29-48 | which refusal an identifier gets before its payload is read: no prefix, or no multibase tag |
| DidKey.RoundTrip | crates/solid-pod-rs-didkey/src/did.rs:18-48 | every legal key round-trips, with any fragment |
| DidKey.OneIdentifierPerKey | crates/solid-pod-rs-didkey/src/did.rs:29-48 | two fragment-free identifiers never name the same key |
| DidKey.SchnorrMultibaseIsNoDidKey | crates/solid-pod-rs-nostr/src/did.rs:170-176 | the Nostr multibase text is refused by the `did:key` decoder for every key |
| Quota.QuotaTracker.Reserve | crates/solid-pod-rs/src/provision.rs:313-325 | uninterrupted, from any use: granted exactly if the sum stays within the quota, and then counted; without a quota or with the largest one nothing is refused and the counter wraps |
| Quota.QuotaTracker.Release | crates/solid-pod-rs/src/provision.rs:328-331 | gives back accounted bytes; releasing more wraps around |
| Quota.QuotaBound | crates/solid-pod-rs/src/provision.rs:313-331 | with at most k reserves of at most m bytes in flight, used plus pending never exceeds quota + (k-1)*m, and nothing wraps |
| Quota.ReserveThenRelease | crates/solid-pod-rs/src/provision.rs:313-331 | what was reserved can be released, all of it, and leaves the counter as it was |
| Quota.BoundIsTight | crates/solid-pod-rs/src/provision.rs:313-325 | for every k and m up to the quota a run reaches that bound |

## Left out

- HTTP plumbing, CLI, storage back ends, access control, DPoP verification, rate limiting, git service, resolvers and discovery documents: input/output around library calls, or shallow tables.
- SHA-256, RSA, Schnorr, ECDSA, base64 and SPARQL parsing: foreign code. A SPARQL document is modelled from the quads its parser yields.
- Event ids and signatures: `Event::verify` is a parameter of the relay model.
- Wire JSON: frames, filters and activities are modelled after decoding; notices carry no text, and OK frames and the `EVENT` dispatch are not modelled.
- Relay runs follow one connection. Other connections do not touch its state; a connection's own events are ingests like any other.
- Graphs are printed in any listing order; the sorted order of the source is one of them and no result depends on it.
- Error texts, and the `last_error` and outbox state columns. SQL and storage failures are not modelled.
- Login sessions (create, look up, revoke): a map with a sliding expiry, which would only add easy members.
- Configuration warnings, environment mapping and final deserialisation.
- JSON numbers are integers, and in-place edits of a JSON tree are modelled as replacing the document with its edited value; sharing inside the tree does not exist in the source either.
- N3Layout.DocumentMeaning: documents in which a keyword and a brace stand inside a literal or between the clauses are not covered; the reader may then take that brace for the clause.
- Delivery.SendsAreSpaced: drains do not overlap here; drains that do can send a row twice at once, and `DeliveryRuns.SendBound` bounds them.
- DidKey.MulticodecExact: varints and base58btc follow the multiformats specifications (nine bytes at most, minimal); the decoding crates are not part of the repository.
- Quota.QuotaBound: assumes that quota + (k-1)*m is below 2^64 - 1 and that only reserved bytes are released, as the method's comment asks.
