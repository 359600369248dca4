# Tydom client: a verified model

`tydomio` talks to a Tydom home-automation box over one websocket that carries HTTP/1.1
messages in both directions: requests answered by transaction id, and pushes. This project
models the parts of it where order, identity and bookkeeping matter, and proves what they
promise, for every input, every interleaving and every run.

| module | models | what is at stake |
|---|---|---|
| `Cache`, `CacheState`, `CacheScan`, `CacheEffects` | the cache of the MCP server | the mutable class, its meaning on values, that meaning as a scan of a log, and the effect of each document read off its fields |
| `Responses`, `Pending`, `Client` | responses, pending requests, `send` | who gets a response, under any interleaving of sends |
| `EventLoop`, `EventLoopInv`, `EventLoopRuns`, `EventLoopOrder`, `EventLoopWire`, `EventLoopTheorems`, `EventLoopEffects` | one connection after the other: reading, bootstrap routine, push handlers | how the cache follows the wire, exactly when it does so in order, what a fresh cache means, and what each step does to the cache |
| `Writes`, `WritesGate`, `Installation`, `Server` | the write tools | what may leave, and how often |
| `Policy`, `AnonymizeWalk`, `AnonymizeMatch`, `Numbering`, `AnonymizeRender`, `AnonymizeShape`, `AnonymizeLeaves`, `AnonymizeBlind`, `DescriptorIndex`, `Anonymizer`, `AnonymizeOutcomes`, `AnonymizeReports`, `AnonymizedCapture` | the anonymizer of captures | rule matching, structure, numbering, what cannot be seen, what each key and leaf becomes, and what exactly is reported |
| `WireText`, `Chunked`, `Protocol`, `Requests`, `Messages` | the messages of the websocket | exact acceptance of chunked content and of start lines, round trips, refusals |
| `Names`, `Catalogs`, `CatalogClaims`, `CatalogTheorems`, `CatalogEntries` | the catalog of usages | the algebra that makes repeated captures safe to merge, and what the entries of a capture give |
| `Fetch` | the resumable fetcher | nothing final is fetched twice |

Objects that the program updates in place are classes (`Cache.Cache`, `Pending.PendingRequests`,
`Writes.Writes`, `Anonymizer.Anonymizing`, `DescriptorIndex.Indexer`, `Fetch.Fetcher`), whose methods are
proved equal to functions on values; the theorems are about these functions. asyncio is a FIFO
queue of actions, each run up to its next await; timeouts, cancellations, the link and the
replies of the box are steps or parameters. Clocks and rates are reals. Python's `str` of a
composite value, regular expressions and the validation of payloads are parameters too.

## What the proofs found

- `AsyncTydomClient.subscribe` and `send` document (tydomio/client.py:149-151 and 347-350) that pushes and
  responses take effect in the order in which they are read. Of the code this holds in part. In every run,
  each message read takes effect at most once, only those lost with their connection or answering nothing
  never do, pushes keep their order among themselves and so do responses
  (`EventLoopWire.CacheFollowsTheWire`). A push and a response may swap, in exactly two steps, called
  crossings: the response to the routine's request is read while the return of `websocket.send` is in the
  ready queue with a push behind it, or a push is read after such a response while that return is not yet
  queued. A run is in the order of the wire all along if and only if no step of it is a crossing
  (`RunIsInOrderIff`), every crossing may be run to messages applied out of order
  (`CrossingMayDisorder`), and `EventLoopTheorems.EarlyAnswerOvertakesPush` is a run that does. The model
  follows the code.
- The size line of a chunk may have any of the six ASCII spaces around its digits, a lone CR or LF among
  them, where section 7.1 of RFC 9112 has spaces and tabs before an extension only; the text of an extension
  is any text without CRLF. `Chunked.ToleratesSpaces` says exactly which lines differ.
- Objects of an anonymized body keep all their entries at every position where no declared
  segment is the text of a renamed key, and only there (`AnonymizeShape.EntriesKeptIff`).
- `parse_path` undoes its printer on more paths than those without backslashes; `ParseUndoesPrintIff`
  gives all of them.
- A request whose method spells `HTTP/1.1` is read back as a response
  (`Requests.ParseUndoesPrintedRequest`); every other well-formed one is read back as itself.

## Model

| member | source | states |
|---|---|---|
| Cache.Entity.Merge | tydomio/mcp_server/cache.py:39-43 | a merge overwrites the named fields in place, takes the error, and clears `invalid` |
| Cache.Cache.constructor | tydomio/mcp_server/cache.py:49-59 | a new cache is empty, connecting and not synced |
| Cache.Cache.Fresh | tydomio/mcp_server/cache.py:61-64 | fresh is connected and synced |
| Cache.Cache.ApplyConfig | tydomio/mcp_server/cache.py:66-83 | the cache after a config: ids removed or whose usage changed are dropped, the rest is kept, entity objects never shared |
| Cache.Cache.ReplaceDevices | tydomio/mcp_server/cache.py:85-100 | the endpoints become those of the snapshot, whatever they were |
| Cache.Cache.ReplaceAreas | tydomio/mcp_server/cache.py:102-113 | the areas become those of the snapshot, whatever they were |
| Cache.Cache.MergeDevices | tydomio/mcp_server/cache.py:115-123 | a devices push is the fold of its items over the configured endpoints, in place |
| Cache.Cache.MergeAreas | tydomio/mcp_server/cache.py:125-131 | an areas push is the fold of its items over the configured areas, in place |
| Cache.Cache.MarkConnected | tydomio/mcp_server/cache.py:133-135 | only the connection changes |
| Cache.Cache.MarkSynced | tydomio/mcp_server/cache.py:137-140 | only the sync mark and its time change |
| Cache.Cache.MarkDisconnected | tydomio/mcp_server/cache.py:142-145 | the data stay, and the cache is no longer synced |
| CacheScan.EndpointIsScan | tydomio/mcp_server/cache.py:66-131 | after any log of operations, every endpoint is what a scan of the log reads: last writer of each field since the last snapshot or usage change, invalid exactly when last touched as invalid |
| CacheScan.AreaIsScan | tydomio/mcp_server/cache.py:66-131 | likewise for every area |
| CacheState.PushesCompose | tydomio/mcp_server/cache.py:115-131 | merging two pushes in turn is merging their concatenation |
| CacheState.OnlyConfiguredIds | tydomio/mcp_server/cache.py:66-131 | after any log, only configured ids are cached, and the installation is that of the last config |
| CacheEffects.ConfigIsTaken | tydomio/mcp_server/cache.py:32-83 | a config gives each id the usage of its last entry, endpoints by (device id, endpoint id), and the installation the same; an entity stays exactly where the configs before and after give the same usage |
| CacheEffects.ConfiguredIsListed | tydomio/mcp_server/cache.py:66-83 | an id is configured if and only if the config of the cache lists it |
| CacheEffects.PushesAreTaken | tydomio/mcp_server/cache.py:115-131 | a push leaves each configured id it names with its last error, the last data of each field it names, its other fields as they were, and not invalid; all else stays |
| CacheEffects.SnapshotsAreTaken | tydomio/mcp_server/cache.py:85-113 | a snapshot, as received, leaves each configured id absent when not listed, invalid when a reading of it does not validate, else with exactly its last reading; the other collection stays |
| Collections.LastWinsIsLast | tydomio/installation.py:82-87 | a dictionary built by a comprehension has exactly the keys its pairs name, each with the value of the last pair that names it |
| Installation.AreasAgree | tydomio/installation.py:78-88 | the areas of the installation are the keys of the area usages of its config |
| Responses.SplitDevices | tydomio/response.py:196-214 | the loop over a devices snapshot gives its valid endpoints by device and the keys of the others |
| Responses.SplitAreas | tydomio/response.py:225-239 | the loop over an areas snapshot gives its valid areas and the ids of the others |
| Responses.EndpointsSplit | tydomio/response.py:205-209 | every entity is listed once, as valid or as invalid, and nothing else is |
| Responses.DevicesSplit | tydomio/response.py:203-213 | a key is invalid exactly when some device lists it with data that fail to validate; every device is kept |
| Pending.PendingRequests.constructor | tydomio/pending_requests.py:11-13 | nothing is pending at first |
| Pending.PendingRequests.Contains | tydomio/pending_requests.py:15-17 | whether the id is pending |
| Pending.PendingRequests.Len | tydomio/pending_requests.py:19-21 | how many ids are pending |
| Pending.PendingRequests.Register | tydomio/pending_requests.py:23-27 | a new waiting future under the id, all others as they were |
| Pending.PendingRequests.Resolve | tydomio/pending_requests.py:29-39 | the entry is taken out; its future is settled only when it still waits, which is what is returned |
| Pending.PendingRequests.Abandon | tydomio/pending_requests.py:41-49 | the entry is taken out only when it holds this very future |
| Pending.PendingRequests.Flush | tydomio/pending_requests.py:51-59 | every waiting future fails, those done stay as they are, and nothing is pending |
| Client.StepEvolves | tydomio/pending_requests.py:23-59 | in every step of any number of sends: a settled future never changes, an ended send stays as it ended, a live entry is never overwritten |
| Client.EndTakesOnlyItsOwn | tydomio/client.py:378-403 | the step that ends a send, by whatever path, takes its own entry out of the map and no other, even under a reused id |
| Client.RunsKeepInv | tydomio/client.py:362-403 | every interleaving keeps the invariant: an entry belongs to a live send of its id and is waiting or cancelled |
| Client.ResponsesReachTheirRequest | tydomio/client.py:362-403 | in every run, a delivered response carries the id of its request and parses as its type; no future in the map holds a result or an error; no ended send is in the map |
| Client.AcceptsIff | tydomio/response.py:155-239 | the answers each kind of request accepts, by status, origin and content |
| Client.SendsIff | tydomio/client.py:362-378 | a request is sent if and only if it has an id no pending one has, while connected, and then as asked |
| Client.ReadSettles | tydomio/pending_requests.py:29-39 | a response settles the waiting live request of its id and no other, and its id is no longer pending |
| Client.FlushFailsWaiting | tydomio/client.py:244-247 | the end of a connection fails every request still waiting, whose send then reports a lost connection, leaves all others as they were, and nothing pending |
| Client.ConnectedSinceConnect | tydomio/client.py:368-369 | a request may be sent from the opening of a connection to its end |
| Client.EndsHaveCauses | tydomio/client.py:378-403 | in every run, a send returns or rejects only a response that was read, times out only after its deadline, reports a lost connection only after its write failed or the connection ended, is cancelled only when it was |
| EventLoopRuns.RunsKeepInv | tydomio/mcp_server/sync.py:43-79 | every run of the event loop keeps its invariant; in particular no error escapes the bootstrap routine |
| EventLoopRuns.HeadCanRun | tydomio/client.py:260-296 | in every reachable state, the head of the ready queue can run |
| EventLoopWire.CacheFollowsTheWire | tydomio/client.py:278-290 | in every reachable state: the cache is the fold of the messages applied; those applied, then those due, are each message read once, but those lost with their connection and those without effect, which are never pushes; its pushes are in wire order, and so are its answers |
| EventLoopWire.InOrderIsPrefix | tydomio/client.py:278-290 | in a state in order, the messages applied are a prefix of those accepted, and those due are the remainder |
| EventLoopWire.StepKeepsOrderIff | tydomio/client.py:149-151 | from any reachable state in the order of the wire, a step keeps the order if and only if it is not a crossing |
| EventLoopWire.RunIsInOrderIff | tydomio/client.py:149-151 | messages take effect in the order of the wire all along a run if and only if no step of the run is a crossing |
| EventLoopWire.CrossingNeedsEarlyAnswer | tydomio/client.py:378-384 | a crossing needs an answer of the routine read while its request is still being written |
| EventLoopWire.DueMayTakeEffect | tydomio/client.py:260-296 | in every reachable state of a connection, a run leads to all that is due being applied, in the order in which it is due |
| EventLoopWire.CrossingMayDisorder | tydomio/client.py:347-350 | from every reachable state, a crossing may be run to messages applied out of the order of the wire |
| EventLoopTheorems.EarlyAnswerOvertakesPush | tydomio/client.py:347-350 | a state that is reached in order with a push queued, where the response read next is a crossing, and a run from there that applies messages out of order |
| EventLoopTheorems.FreshMeansResynced | tydomio/mcp_server/sync.py:55-79 | in every reachable state, a fresh cache was resynced by the latest attempt of the running routine: its config, devices and areas, in order, each answering its own request, and nothing cached owes anything to what came before |
| EventLoopTheorems.LateAnswersAreDropped | tydomio/client.py:284-290 | an answer to anything but the request the routine waits for changes neither the cache nor the routine nor the queue |
| EventLoopTheorems.AttemptsTakeNewIds | tydomio/mcp_server/sync.py:58-60 | an attempt, the first of a connection or one after a pause, takes ids above those of every earlier request |
| EventLoopTheorems.ConnectionLosesOnlyItsQueue | tydomio/client.py:206-222 | the end of a connection keeps the cache; in every later state what was applied still is, and what was due is neither applied nor due |
| EventLoopTheorems.OnlyTheEndLosesPushes | tydomio/client.py:278-282 | in any other step, a push that is due stays due or takes effect |
| EventLoopTheorems.UnwindDisconnects | tydomio/mcp_server/sync.py:52-53 | once the routine has ended, the cache is not fresh, keeps its content, and no request of the routine is pending |
| EventLoopEffects.StepsTakeEffect | tydomio/mcp_server/sync.py:64-110 | in every reachable state, a step changes the content of the cache only by the message at the head of the queue, and as its fields say: a push merged, the config of an answer taken, its devices or areas replacing those cached |
| EventLoopEffects.AnswersThatCount | tydomio/mcp_server/sync.py:64-72 | an answer read is to take effect if and only if it has the id, origin, status and content of the next answer of the attempt, and its request has no outcome yet |
| EventLoopEffects.MarksOfTheCache | tydomio/mcp_server/sync.py:43-79 | the cache is connected from the start of an attempt, synced by its third answer at the time of that step, disconnected and not synced by the end of the routine, and otherwise as it was |
| Writes.Writes.constructor | tydomio/mcp_server/writes.py:313-332 | no send is remembered, and the interval is the inverse of the rate |
| Writes.Writes.Count | tydomio/mcp_server/writes.py:370-379 | refuses within the interval and remembers nothing then, else remembers now |
| Writes.Writes.Write | tydomio/mcp_server/writes.py:381-432 | one call, checked and counted in one atomic step, is sent at most once; it is told acknowledged, unknown or cancelled exactly when it was sent and its reply is that |
| WritesGate.RunsAreSpaced | tydomio/mcp_server/writes.py:370-379 | in every run, consecutive sends are at least an interval apart |
| WritesGate.AtMostTheRate | tydomio/mcp_server/writes.py:370-379 | any window of length T holds at most T * rate + 1 sends |
| WritesGate.OutcomesTellTheSends | tydomio/mcp_server/writes.py:398-432 | in every run, whatever the replies: the requests sent are one for each call whose outcome is acknowledged, unknown or cancelled, the one it asked for, in the order of the calls, and none for the others |
| WritesGate.ToldWhatHappened | tydomio/mcp_server/writes.py:412-432 | in every run, a call is told acknowledged, unknown or cancelled if and only if it sends and its reply is that, and otherwise that nothing was sent |
| WritesGate.ToldWhyNot | tydomio/mcp_server/writes.py:362-405 | in every run over reachable caches no call breaks, and a call is refused if and only if a check fails, for the first that does: input, freshness, target, usage, write, rate |
| WritesGate.UsageNameIs | tydomio/mcp_server/writes.py:230-241 | the usage of a target is that of the last entry of the config with its ids |
| WritesGate.RetryAfterPasses | tydomio/mcp_server/writes.py:374-378 | the delay told is the wait that remains rounded up to the millisecond, never above 1/rate; after any calls in between that send nothing, a call made after the delay is not limited |
| WritesGate.AllSentWereChecked | tydomio/mcp_server/writes.py:256-307 | every request that left was built over a fresh cache, for a configured target of a usage on the tool's list, with a valid write |
| WritesGate.InstallationNeverDisagrees | tydomio/mcp_server/writes.py:230-307 | over any reachable cache a call decides as the entries of the config alone do, with no table and no `Installation`: its second check never refuses, and no request is refused by its own constructor |
| Server.WritesSeeAResyncedCache | tydomio/mcp_server/writes.py:362-368 | in every reachable state of the event loop, a write that may leave is decided by a config and snapshots of the latest attempt |
| Policy.ParsePathLoop | tydomio/capture/policy.py:58-71 | the loops over parts and trailing items give the segments of the path |
| Policy.ParseUndoesPrint | tydomio/capture/policy.py:58-71 | parsing a printed path gives back its segments |
| Policy.ParseUndoesPrintIff | tydomio/capture/policy.py:58-71 | it does exactly for keys that are not empty, do not end in "[]", and do not end in a backslash before another key |
| AnonymizeMatch.WalkRefinesWholePaths | tydomio/capture/anonymize.py:108-143 | at the node any path leads to, the rule found incrementally is the first whose whole path matches, and the node is opaque exactly under an opaque path |
| AnonymizeMatch.FirstMatchIsFirst | tydomio/capture/anonymize.py:138-143 | the first match is a rule of the policy that matches, with none before it that does |
| Numbering.NumbersFollowFirstVisits | tydomio/capture/anonymize.py:269-285 | texts visited in turn get exactly 1..n, equal texts equal numbers and others others, in the order of their first visits |
| AnonymizeRender.WalkIsRender | tydomio/capture/anonymize.py:206-285 | walking a body from any state, growing the maps on the way, writes what rendering it with the final maps writes, and grows them by its visits in order |
| AnonymizeRender.CaptureIsRender | tydomio/capture/anonymize.py:311-332 | all bodies of a capture are rendered with its final maps, each numbered 1..n by first visit over all of them |
| AnonymizeRender.NumbersNeverChange | tydomio/capture/anonymize.py:232-285 | what was written and numbered stays while a capture goes on |
| AnonymizeShape.EntriesKeptIff | tydomio/capture/anonymize.py:216-236 | at a position, objects keep all their entries for every state and object if and only if no declared segment is the text of a renamed key |
| AnonymizeShape.NoAngleIsClear | tydomio/capture/policy.py:79-84 | a rule whose segments do not end in ">" declares no text of a renamed key |
| AnonymizeShape.RenderKeepsShape | tydomio/capture/anonymize.py:206-308 | a body keeps its lists, its objects entry by entry under distinct keys, and the type of every leaf |
| AnonymizeLeaves.CaptureKeepsShape | tydomio/capture/anonymize.py:311-332 | every body of a capture keeps its structure |
| AnonymizeLeaves.SameIdIffSameText | tydomio/capture/anonymize.py:269-275 | over all bodies of a capture, two ids become the same number if and only if they print the same |
| AnonymizeLeaves.SameNameIffSame | tydomio/capture/anonymize.py:277-285 | two names of a kind become the same if and only if they are the same |
| AnonymizeLeaves.SameKeyIffSame | tydomio/capture/anonymize.py:221-236 | two renamed keys, anywhere in a capture, become the same if and only if they are the same |
| AnonymizeBlind.WalkIsBlind | tydomio/capture/anonymize.py:206-267 | without descriptors, bodies that differ only in redacted leaves give the same body, the same maps and the same report |
| AnonymizeBlind.ValueShowsOnlyEnums | tydomio/capture/anonymize.py:287-308 | with descriptors or not, a data value shows only bools, nulls and enum texts listed by its descriptor: numbers of a type, and texts not listed, are written alike |
| AnonymizeBlind.CaptureIsBlind | tydomio/capture/anonymize.py:311-332 | so do captures |
| AnonymizeOutcomes.SegmentMatchesIff | tydomio/capture/policy.py:74-84 | a segment matches the key it spells, or, after a `*`, the keys that end so with at least one character before |
| AnonymizeOutcomes.IdentifierIff | tydomio/capture/anonymize.py:25-25 | a plain name is at most 64 letters, digits and underscores, the first no digit |
| AnonymizeOutcomes.KeyOutcome | tydomio/capture/anonymize.py:221-236 | a key stays when an active rule names it or, not under an opaque path, when it is a plain name; else it becomes `<key-n>`, n being its number, and is reported at its output path |
| AnonymizeOutcomes.LeafOutcome | tydomio/capture/anonymize.py:238-308 | a leaf becomes what its complete rule says, by its type: kept only when of a listed type and matching the pattern, numbered by its text, named by kind and number, its described value, or blank; not taken, it is blank and reported with the reason |
| AnonymizeOutcomes.ValueOutcome | tydomio/capture/anonymize.py:287-308 | with the descriptor of the ids of the objects around it and of its name: bools and nulls stay, a number becomes the described minimum in its own type, truncated toward zero, a text stays only when listed and safe |
| AnonymizeReports.LeavesBecome | tydomio/capture/anonymize.py:206-308 | so does every leaf of a capture, in its place, with the final numbers |
| AnonymizeReports.KeysBecome | tydomio/capture/anonymize.py:215-236 | and every key of every object |
| AnonymizeReports.ReportIsExact | tydomio/capture/anonymize.py:259-267 | a leaf is reported if and only if some leaf has that url, that path in the output, that type, and is not taken for that reason; once |
| AnonymizeReports.RenamedAreExact | tydomio/capture/anonymize.py:232-236 | a key is reported if and only if some key is renamed at that url and path in the output; once |
| AnonymizeReports.ReportedPathIsRulePath | tydomio/capture/anonymize.py:91-95 | a path without dots in its keys is reported in the notation of rule paths, and parsed as a rule path has the same segments |
| AnonymizedCapture.OrderIs | tydomio/capture/anonymize.py:324-325 | each body is handled once, those of urls with a policy in its order, then the others in theirs |
| AnonymizedCapture.JobsAre | tydomio/capture/anonymize.py:319-331 | each body is walked under its url, with the rules of its url when its status is 200 and else with none, and the descriptors of its source when that one's status is 200 |
| AnonymizedCapture.OutputIs | tydomio/capture/anonymize.py:326-332 | the output holds the anonymized body of each url, in that order |
| AnonymizedCapture.ErrorsAreBlanked | tydomio/capture/anonymize.py:328-331 | every leaf of the body of an error, or of a url without policy, is blank in its place |
| DescriptorIndex.Indexer.AddMetadata | tydomio/capture/anonymize.py:166-171 | the inner loop adds the descriptors not indexed yet |
| DescriptorIndex.Indexer.Visit | tydomio/capture/anonymize.py:154-171 | the recursive visit adds all descriptors below, in document order |
| DescriptorIndex.IndexDescriptors | tydomio/capture/anonymize.py:150-174 | the index of a body is that of its listing |
| DescriptorIndex.FirstIsKept | tydomio/capture/anonymize.py:171-171 | a key is indexed exactly when some descriptor has it, with the first that does |
| DescriptorIndex.ListedIff | tydomio/capture/anonymize.py:154-171 | the listing of a body holds exactly the metadata descriptors reached through its levels, under the ids on the way and their name |
| Anonymizer.Anonymizing.constructor | tydomio/capture/anonymize.py:180-187 | all maps and the report are empty at first |
| Anonymizer.Anonymizing.Key | tydomio/capture/anonymize.py:221-236 | the output key, the numbers and the report after one key |
| Anonymizer.Anonymizing.UnknownLeaf | tydomio/capture/anonymize.py:259-267 | the leaf is redacted and reported once |
| Anonymizer.Anonymizing.Id | tydomio/capture/anonymize.py:269-275 | the id written and the numbers after it |
| Anonymizer.Anonymizing.Name | tydomio/capture/anonymize.py:277-285 | the name written and the numbers of its kind after it |
| Anonymizer.Anonymizing.Leaf | tydomio/capture/anonymize.py:238-257 | what the complete rule does to a leaf |
| Anonymizer.Anonymizing.Node | tydomio/capture/anonymize.py:206-219 | the recursive walk with fields updated in place is the walk on values |
| Anonymizer.Anonymizing.Endpoint | tydomio/capture/anonymize.py:189-196 | a body is walked from the root position of its policy |
| Anonymizer.Anonymize | tydomio/capture/anonymize.py:311-332 | descriptors are indexed, the bodies walked in policy order then the others, and the report is that of all of them |
| Anonymizer.OrderOfBodiesDoesNotMatter | tydomio/capture/anonymize.py:316-317 | captures of the same bodies, all of urls with a policy, are handled alike whatever the order of their bodies |
| Anonymizer.RedactedLeavesLeaveNoTrace | tydomio/capture/anonymize.py:238-267 | in the body of a url without descriptor source, redacted leaves may be any others of their types: the whole capture and its report are the same |
| Chunked.DecodeChunked | tydomio/protocol.py:120-141 | the loop returns, or refuses with, what decoding from the start gives |
| Chunked.SizeOfIsSizeLine | tydomio/protocol.py:126-130 | a size is read from a line if and only if the line is hex digits of that value with spaces around them, then nothing or a semicolon and any text |
| Chunked.HexDigitIs | tydomio/protocol.py:130-130 | the digits of a size are the sixteen, in either case, with their values |
| Chunked.ToleratesSpaces | tydomio/protocol.py:126-130 | an accepted size line is one of section 7.1 of RFC 9112, up to the text of its extension, if and only if it starts with a digit, has only spaces and tabs before the extension, and none without extension |
| Chunked.FramingDecodes | tydomio/protocol.py:120-141 | any framing in non-empty chunks, each announced by a line of its size, decodes to their data joined |
| Chunked.AcceptsExactlyFramings | tydomio/protocol.py:120-141 | a body is accepted with a content if and only if it is a framing of that content: size lines and chunks, a last line of size zero, no trailer section |
| Chunked.NothingMayFollow | tydomio/protocol.py:138-140 | no accepted body stays accepted with bytes appended |
| Chunked.ChunksRoundTrip | tydomio/protocol.py:120-141 | every list of non-empty data has a framing, which decodes to them joined |
| Protocol.ReadAll | tydomio/protocol.py:100-105 | the loop over header lines gives the last value of each name, or refuses a line without colon |
| Protocol.SplitMessage | tydomio/protocol.py:88-107 | a message is split at the first empty line, its headers read, its content decoded, each with its refusal |
| Protocol.Content | tydomio/protocol.py:110-117 | the content as it is, decoded when chunked, refused for another encoding |
| Protocol.ChunkedContent | tydomio/protocol.py:88-141 | a chunked message gives the joined data of its chunks, None when there are none |
| Messages.ParseReadsPlainResponse | tydomio/protocol.py:33-44 | a response of status 100 to 999, of any reason, plain headers without transfer encoding, any content and any prefix is parsed as its status, its headers by lower-case name and its content, none when empty |
| Messages.ParseReadsChunkedResponse | tydomio/protocol.py:33-44 | in chunks, its content is the data of the chunks, joined |
| Messages.ParseRefusesEncoding | tydomio/protocol.py:110-117 | with any other transfer encoding, it is refused for that |
| Messages.ParsedByItsStart | tydomio/protocol.py:23-54 | a message that splits is, less its prefix, a response when it starts with the version and a space, else a request: with its headers and content when its start line is one, and else invalid as that |
| Messages.StatusIff | tydomio/protocol.py:18-39 | a start line gives a status if and only if it is the version, three digits of that value, then nothing or a space and a reason without line feed |
| Messages.RequestLineIff | tydomio/protocol.py:49-54 | a start line gives a method and a url if and only if it is these and the version, one space apart, with no other space |
| Messages.HeaderReads | tydomio/protocol.py:100-105 | a header is read by lower-case name, without the spaces around its name and its value |
| Messages.LowersLetters | tydomio/protocol.py:105-105 | lower case takes each of the 26 letters to its own and changes nothing else |
| Messages.SpacesAre | tydomio/protocol.py:105-126 | the spaces stripped of bytes and of texts |
| Messages.LinesJoin | tydomio/protocol.py:96-96 | the lines of a head have no line break, and joined by line breaks are the head |
| Messages.RefusedForNoEnd | tydomio/protocol.py:92-94 | a message is refused for its end of headers if and only if it has no two line breaks in a row |
| Messages.RefusedFor | tydomio/protocol.py:95-104 | a message with an empty line is refused as not ASCII if and only if its head is not, and for a header line without colon if and only if its head is ASCII and some line after the first has none |
| Requests.SplitUndoesPrint | tydomio/requests.py:49-81 | splitting a printed request gives back its start line, its headers by lower-case name and its content, even one with empty lines in it |
| Requests.DistinctAreRead | tydomio/protocol.py:100-105 | when names are distinct whatever the case, every header is read with its value |
| Requests.ParseUndoesPrintedRequest | tydomio/protocol.py:23-55 | a printed request is parsed into its method, url, headers and content, exactly when its method does not spell the version |
| Messages.LengthIsThatOfContent | tydomio/requests.py:55-63 | a content-length not given is made exactly for a content or a POST, PUT or PATCH without transfer encoding, and is the size of the content in decimal |
| Messages.IdIsThatOfRequest | tydomio/requests.py:65-66 | a transac-id not given is always made, and is that of the request, spelled `None` when it has none |
| Messages.PrintedIff | tydomio/requests.py:69-81 | a request can be printed if and only if its method, its url and its headers are ASCII |
| Names.Sort | tydomio/capture/catalog.py:133-133 | the only increasing list of the elements of a set |
| Names.LessIff | tydomio/capture/catalog.py:133-133 | names are ordered by the first character that differs, a name before those it starts |
| Catalogs.MergeField | tydomio/capture/catalog.py:143-162 | the loop over attributes reports those that differ, and the enum values are united |
| Catalogs.FieldsAgreeIff | tydomio/capture/catalog.py:146-158 | a field merges without conflict if and only if only enum values differ |
| Catalogs.ConflictsSayWhatDiffers | tydomio/capture/catalog.py:146-158 | the conflicts of a field are one for each attribute that differs, named, with the known value first and the found one second |
| Catalogs.CommandConflictsSay | tydomio/capture/catalog.py:173-185 | each conflict of commands names the command that stays and one found under the same name that differs from it |
| Catalogs.MergeUsage | tydomio/capture/catalog.py:165-192 | the loops over fields and commands give the usage and conflicts of merging them in turn |
| Catalogs.Merge | tydomio/capture/catalog.py:195-208 | the loop over usages gives the catalog and conflicts of merging them in turn |
| Catalogs.Extract | tydomio/capture/catalog.py:254-264 | the loop over entries gives the catalog and conflicts of merging them in turn |
| CatalogClaims.ConflictFreeIff | tydomio/capture/catalog.py:143-192 | claims added in turn conflict nowhere if and only if they agree pairwise |
| CatalogClaims.KnownIsClaimed | tydomio/capture/catalog.py:143-192 | conflicts or not, what is known is what the claims say: every name, attributes of some claim, the union of enum values |
| CatalogTheorems.MergesIff | tydomio/capture/catalog.py:195-208 | two normalized catalogs merge without conflict if and only if their claims agree pairwise |
| CatalogTheorems.MergeIsNormalized | tydomio/capture/catalog.py:143-208 | a merge result has names sorted and unique, and enum values sorted and unique when they were |
| CatalogTheorems.MergeCommutes | tydomio/capture/catalog.py:195-208 | merging is commutative: conflicts both ways or neither, and else the same catalog |
| CatalogTheorems.MergeAssociates | tydomio/capture/catalog.py:195-208 | merging is associative: conflicts in both groupings or neither, and else the same catalog |
| CatalogTheorems.MergeIsIdempotent | tydomio/capture/catalog.py:195-208 | a normalized catalog merged with itself is itself, without conflict |
| CatalogTheorems.MergingAgainChangesNothing | tydomio/capture/catalog.py:305-305 | merging a capture again into a catalog that holds it changes nothing |
| CatalogTheorems.ExtractsIff | tydomio/capture/catalog.py:254-264 | a capture has no conflict if and only if its claims agree pairwise |
| CatalogTheorems.OrderOfEntriesDoesNotMatter | tydomio/capture/catalog.py:254-264 | captures with the same entries in any order conflict alike, and without conflict have the same catalog |
| CatalogEntries.CatalogIsThatOfEntries | tydomio/capture/catalog.py:211-264 | without conflict, the catalog of a capture has exactly the usages, fields and commands of its entries: each field with the attributes they all give it and the enum values of all, each command with its permission and parameters as they all have it |
| CatalogTheorems.NothingKnownIsLost | tydomio/capture/catalog.py:143-208 | conflicts or not, every known usage, field, attribute, enum value and command stays |
| CatalogTheorems.NothingFoundIsLost | tydomio/capture/catalog.py:143-208 | without conflict, so does everything found |
| Fetch.Fetcher.constructor | tydomio/capture/fetch.py:114-119 | nothing is recorded, connected or done at first |
| Fetch.Fetcher.Call | tydomio/capture/fetch.py:126-148 | the loop over the table makes the requests, records the outcomes and ends as one pass does |
| Fetch.ResultOf | tydomio/capture/fetch.py:150-176 | a communication error is recorded exactly for a connection lost, a timeout for a timeout, an http error for any status but 200; a response is recorded with its status, what its content parses to and its length, and is ok exactly when 200 and parsed |
| Fetch.PassReaches | tydomio/capture/fetch.py:126-148 | a pass requests, in table order, the urls from the first without a final outcome; all get one but that which ended the pass, and final outcomes are kept |
| Fetch.PassRecords | tydomio/capture/fetch.py:133-148 | what is recorded of each url requested is the result of the reply to its own request, and nothing else changes |
| Fetch.PassesReach | tydomio/capture/fetch.py:126-148 | after any passes, however ended: final outcomes are those of a prefix of the table, only the next may be a communication error, and the requests number the final outcomes plus the broken passes |
| Fetch.DoneMeansAllFinal | tydomio/capture/fetch.py:148-148 | done implies that every outcome is final |
| Fetch.FinalIsNeverRequestedAgain | tydomio/capture/fetch.py:134-136 | a final outcome is neither requested again nor changed |
| Fetch.AnsweredPassCompletes | tydomio/capture/fetch.py:133-148 | a pass whose requests all get an answer or time out completes |
| Fetch.ReportIsOrdered | tydomio/capture/fetch.py:207-212 | the report names every url in order: final outcomes, then at most one communication error, then only urls not fetched |
| Fetch.ReportedUnlessNeverConnected | tydomio/capture/fetch.py:194-212 | a capture stopped by its client says so; any other reports whatever was recorded, unless no pass ever began |

## Left out

- TLS, digest authorization, the websocket library, stdio, the MCP SDK and the tools that read: I/O and libraries; a connection only opens, ends and closes.
- asyncio itself: the ready queue is FIFO, a coroutine starts when its turn comes, and runs up to its next await; timers are steps that may come at any time.
- The class `Sync` is steps of `EventLoop` over the same functions that the class `Cache.Cache` is proved against, not a class, since its methods await; `_config_date` only chooses a log line.
- Errors other than communication and cancellation in the run loop, `CacheError` among them, end the process; a text message ends the connection as any other end does.
- A `transac-id` header that is not a number raises outside the errors that reading catches and so ends the process: messages of the event loop carry an id already read, or none.
- In `EventLoop`, `_disconnect` is one step: requests sent while its disconnection routines run are not modelled there (`Client` has the two steps).
- Subscriptions are the two push handlers; other request types and malformed messages are read without effect.
- The backoff table and the JSON depth limit.
- pydantic validation, JSON text parsing, regular expressions and the usage models under tydomio/model/usages: abstract predicates, or what each model reads from a content.
- The classes of requests and responses built after the start line is read, and `has_json_content`: they only validate.
- The literal rules of the policy: theorems hold for any policy, the structure ones under a condition on its segments that `AnonymizeShape.NoAngleIsClear` makes easy to see on it.
- `_keys` holds the texts `<key-n>`; `Anonymizing.keys` holds their numbers n.
- Floating point, infinities and NaN: numbers of JSON, of descriptors and of the clock are exact; Python's equality of 1 and 1.0 is equality of numbers.
- Characters outside ASCII in header names, where Python may lower-case a name into ASCII: the head is refused by its encoding anyway.
- The reading of the capture documents into entries (`_validated`, `_entries`): validation, and lookups of usages.
- The order of the usages in a catalog file written by hand, which only orders the conflicts reported: a catalog is a map, merged in sorted order.
- The deadline of `run_capture` and the choice of the exception it raises when the client stops: a parameter.
- Logging, secret scrubbing, text sanitizing, command lines and files on disk.
- Writes.Writes.Write: the text of the result and the time it was sent are not modelled, only its outcome; the target's pattern is a datatype, checked before.
- In `EventLoop` every request takes a new id, as the counter of the program gives; `Client` allows ids to be reused, as `send` does.
