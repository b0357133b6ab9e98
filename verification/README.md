# Agent orchestrator: verified models

Dafny models of the parts of the agent orchestrator in which several steps, writers or runs have to
agree, with proofs of what they promise together. `dafny verify dfyconfig.toml` checks everything.

| files | what they model |
|---|---|
| `BrokerState`, `BrokerProtocol`, `BrokerReplies`, `Broker`, `WriteGate`, `BrokerWire` | the browser command broker: commands, reconnects, read loops, disconnects and result senders interleaved at their lock boundaries; what each call returns and why; the mutex-guarded object itself; the write gate and its short-write loop; protocol and gate together |
| `GoNames`, `Schemas`, `GoTypes`, `Declarations`, `Closure`, `DeclaredBodies`, `DiscriminatorClash`, `CircularKind`, `Renderer`, `MergeDefs`, `SameOutput` | the generator of Go protocol types from JSON Schema: naming, types, widening of union fields, the list of inline objects that grows while it is walked, closure of the generated names, what every declaration holds, merging of schema files |
| `JsonValues`, `FieldValues`, `DeclaredValues` | the generated types measured against JSON values: what a schema admits, what Go's decoder takes |
| `Failover`, `FailoverRuns`, `FailoverIds` | manual failover: choice of a rung, folds over the attempts of an incident, whole runs of continuations that read first and act later and of settlements, composed ids |
| `ChangeFeed`, `ChangeFeedRuns` | the change-log poller and the broadcaster, and runs of both with appends and changing subscribers |
| `DevImport`, `DevImportLaws`, `DevImportReports` | the project importer between two registries: two lookup tables held against a plan on the target's rows, laws of dry, real and repeated runs, and the truth of the report |
| `AgentSwitch` | the durable states of an agent switch, judged over whole histories |
| `UntrustedText`, `HookText` | the markers around page-controlled text, and the byte cap on hook texts with its UTF-8 repair |
| `ProjectLookup` | the search for the project the current directory belongs to |
| `Options`, `Strings` | optional values; byte order and sorting, trimming and decimal numbers as Go's library has them |

Three conventions run through the files. What the source does step by step is a method or a class
whose methods change fields, proved equal to a function on values; the laws are lemmas about that
function. A concurrent or long-running part is a state with atomic actions, `Legal` runs of actions and
an invariant that every action keeps, so a statement about `Run(INIT, actions)` is about every
interleaving. Errors are values (`None`, `FetchFailed`, `LimitReached`, ...), not preconditions.

Points where the model takes a side:

- The failover contract's comments say that an attempt whose source is stopped never becomes failed
  (backend/internal/domain/failover_contract.go:46-60). The function that computes the state of a
  failure does not look at the attempt's own state
  (backend/internal/session_manager/failover.go:852-981), so the model allows it.
- `FindProjectByPath` is documented as seeing archived projects; its query sees active ones only
  (backend/internal/storage/sqlite/gen/projects.sql.go:44-47), and the model follows the query.
- The generator looks a type's definition up by its Go name in a Go map, so which one it finds is
  undefined if two definitions share a Go name. The methods that look kinds up, and the comparison of
  two outputs, require injective names (`InjectiveNames`).
- That lookup follows single `allOf` references and does not return when they run in a circle. It is
  made only while a tagged union gives one field different types, so `renderTypes` does not return on
  every finite forest: `RenderingReturnsIff` gives the exact condition, `OnlyTheUnionAsks` an input on
  either side of it, and every statement about the output is made for exactly the forests on which the
  source returns. A partial value (`Option`) stands for a computation that may not return.
- Nothing keeps two active projects from one path: the schema does not
  (backend/internal/storage/sqlite/migrations/0028_allow_scratch_projects.sql:6-16), and the legacy
  import checks ids only (backend/internal/legacyimport/importer.go:141-160). The importer's table by
  path then holds the row listed last, while the store's query yields any of them, so a real run can
  be refused an update that a dry run counts; `DryEqualsRealIff` says exactly when, and the laws of one
  run are stated for whatever the store answers.
- The generated types are measured against values: a schema admits what its keywords say, given what
  references admit; a Go type takes what decoding accepts, given what named types take. An integer is a
  literal without fraction and exponent, and a format such as `uint32` names a range. Widening loses
  large unsigned integers (`WideningLosesUnsigned`), and a schema whose first type is narrower than
  another it names, or an integer without a width, admits values its field cannot take (`ReadableIff`).
- A path is modelled as the components `filepath.Clean` leaves, and a text as a sequence of Unicode
  scalars or, in `WriteGate` and `HookText`, of bytes.

## Model

| member | source | states |
|---|---|---|
| BrokerProtocol.StepKeepsInv | backend/internal/browserruntime/broker.go:157-200 | Every atomic step of a command, reconnect, read loop, disconnect, sender or cancellation keeps the invariant: each request owns its channel, a pending or taken channel is unsent and in one place only, everything pending is on the current connection, and nobody waiting is forgotten. |
| BrokerProtocol.AtMostOneReplyEach | backend/internal/browserruntime/broker.go:343-403 | In every interleaving each result channel is sent to at most once, a decoded reply in it carries the id of the request that owns it, and no sender ever finds the one-slot channel full. |
| BrokerProtocol.ReturnedReplyIsOwn | backend/internal/browserruntime/broker.go:178-200 | What `Execute` returns is the single reply put into its own channel, with its own id if it is a decoded one. |
| BrokerProtocol.NoWaiterStranded | backend/internal/browserruntime/broker.go:162-184 | From registration until it gives up, a request is pending on the connection it captured and that one is current, or exactly one sender holds its channel, or its reply lies in the slot. |
| BrokerProtocol.WaiterCanAlwaysReturn | backend/internal/browserruntime/broker.go:178-200 | From every reachable state in which a request waits, at most three further steps, none a cancellation, make its `Execute` return a reply. |
| BrokerProtocol.NoConnectionNoPending | backend/internal/browserruntime/broker.go:368-397 | Without a connection nothing is pending, and the status fields agree on whether there is one. |
| BrokerProtocol.RetiredStaysRetired | backend/internal/browserruntime/broker.go:248-257 | A connection that was replaced or dropped never becomes current again. |
| BrokerProtocol.LateDisconnectIsHarmless | backend/internal/browserruntime/broker.go:368-385 | However late the read loop of a replaced connection ends, its disconnect changes no connection field, pending entry, channel, request or sender. |
| BrokerReplies.EveryOutcomeHasItsReason | backend/internal/browserruntime/broker.go:178-200 | Over every run: a call that returned a decoded reply returned what one message read in the run held, and the message carried its id; one that returned the unavailable error has lost its connection for good; one that failed to write and was not cancelled has dropped it; and one that gave up was cancelled. |
| BrokerReplies.FoundMessageDecides | backend/internal/browserruntime/broker.go:343-366 | Once a message has found its request pending, that call can return nothing but what the message holds, whatever happens afterwards. |
| BrokerReplies.ANewCallIsAnswered | backend/internal/browserruntime/broker.go:157-200 | From every reachable state with a connection a new call can run to its answer and returns what the message holds; without one it is refused at once. |
| BrokerReplies.StatusTimeIsTheAccepts | backend/internal/browserruntime/broker.go:248-257 | The time the status gives is the one at which the current connection was accepted. |
| BrokerObject.FailPending | backend/internal/browserruntime/broker.go:399-403 | In whatever order the map is walked, every taken channel gets exactly the error and no send blocks. |
| BrokerObject.Broker.Register | backend/internal/browserruntime/broker.go:162-172 | The first critical section of `Execute` captures the connection and registers the channel, or changes nothing when there is no runtime. |
| BrokerObject.Broker.RemovePending | backend/internal/browserruntime/broker.go:387-391 | Takes just this request out of `pending`. |
| BrokerObject.Broker.AcceptRuntime | backend/internal/browserruntime/broker.go:248-257 | The new connection replaces the old, which is to be closed if it is another one, and every waiter of the old gets the unavailable error. |
| BrokerObject.Broker.Resolve | backend/internal/browserruntime/broker.go:343-366 | Only the named request's channel gets a reply, and its entry is gone: the result's text as sent, the empty object for a missing or null result, the decode error for a malformed one, and for a failure the runtime's error or else the default one; an unknown id changes nothing. |
| BrokerObject.Broker.Disconnect | backend/internal/browserruntime/broker.go:368-385 | Clears the fields and fails every waiter if the connection is current, and does nothing if it is not. |
| WriteGate.WriteFrame | backend/internal/browserruntime/broker.go:302-334 | The short-write loop ends, puts a prefix of the frame with its newline onto the wire and nothing else, and reports success exactly when that is all of it and the last write had no error; an unencodable or oversized message writes nothing. From any state in which the writer holds the token the loop is a legal run of the gate's steps, after which the writer gives the token back with just that result. |
| WriteGate.OneToken | backend/internal/browserruntime/broker.go:131-137 | Over all writers there is exactly one token: in the gate, or with exactly one writer. |
| WriteGate.TurnsAreContiguous | backend/internal/browserruntime/broker.go:278-292 | What a write puts onto a wire is one contiguous piece there, after the pieces of all earlier holders of the token. |
| WriteGate.NilMeansWholeFrame | backend/internal/browserruntime/broker.go:309-334 | A nil error means that the whole frame and its newline stand on the wire in one piece. |
| WriteGate.WireIsWholeFramesIff | backend/internal/browserruntime/broker.go:322-327 | A wire consists of whole frames if and only if no write on it stopped midway. |
| BrokerWire.StepKeepsInv | backend/internal/browserruntime/broker.go:157-200 | Protocol and gate together: every step keeps both invariants, a command's frame goes to the connection its request captured, and a call whose write failed never goes on to wait. |
| BrokerWire.CutFramesOnTheCurrentConnection | backend/internal/browserruntime/broker.go:178-197 | If a write on the connection that is current stopped midway, it was the write of a cancel frame, whose error is ignored, or of a command that returned cancelled, or of one still on its way to finding out and then dropping the connection. |
| BrokerWire.OnlyTheCancelledCut | backend/internal/browserruntime/broker.go:178-197 | Once every call has returned, only cancelled commands and cancel frames can have cut a frame on the connection in use. |
| BrokerWire.ACutFrameCanStay | backend/internal/browserruntime/broker.go:178-184 | A concrete run in which one did: the command is cancelled, half its frame is on the wire, and the connection is still current. |
| WriteGate.FramingRoundTrip | backend/internal/browserruntime/broker.go:265-274 | Reading lines off newline-terminated frames gives back the payloads, in order. |
| WriteGate.ReaderSeesWholeMessages | backend/internal/browserruntime/broker.go:278-334 | If no write on a connection stopped midway and no message holds a raw newline, the other end reads exactly the messages written whole, in token order. |
| GoNames.BuildExportName | backend/cmd/gencodexproto/main.go:1007-1046 | The builder loop and the pass over the initialisms compute the name function the other proofs use. |
| GoNames.ExportNameIsIdentifier | backend/cmd/gencodexproto/main.go:1007-1046 | The result is an exported Go identifier exactly when the name has a letter or digit, and empty otherwise. |
| GoNames.ExportNameSpells | backend/cmd/gencodexproto/main.go:1007-1046 | The name holds the letters and digits in order, those that start a word capitalised, with an `N` before a leading digit; its ending is replaced if and only if it is an initialism, and then by that one's spelling alone. |
| Schemas.TaggedUnion | backend/cmd/gencodexproto/main.go:496-536 | Intersecting the arms' single-valued properties finds a tag exactly when at least two arms share one, and then the first in order. |
| GoTypes.AfterLastSlashIs | backend/cmd/gencodexproto/main.go:381-386 | A reference is named by what follows its last slash, or by the whole of it if it has none. |
| FieldValues.BaseIs | backend/cmd/gencodexproto/main.go:188-210 | A schema with exactly one arm that is not null only is typed as that arm, and a single `allOf` that stands for nothing else as what it wraps. |
| FieldValues.TypedTakesExactly | backend/cmd/gencodexproto/main.go:392-464 | A schema that has one type at every depth, behind optional wrappings, in list items and in map values, gets the Go type that takes null and exactly its instances: integers in 64 bits, unsigned exactly for `uint64` and `uint32`; no value of another type is taken. |
| FieldValues.FieldTakesItsValues | backend/cmd/gencodexproto/main.go:388-464 | Every value a readable schema admits is taken by the type of its field, through references, wrappings, enumerations, lists and maps. |
| FieldValues.ReadableIff | backend/cmd/gencodexproto/main.go:403-425 | For schemas that only name types or only list values that condition is exact: the first type named covers the others, an integer has a format that names a width, and listed values are strings or null. |
| GoTypes.GoTypeIsScoped | backend/cmd/gencodexproto/main.go:392-464 | A rendered type mentions only the object it hands out and what the schema's references lead to, and so will that object. |
| GoTypes.InlineIsNoLarger | backend/cmd/gencodexproto/main.go:440-464 | A handed-out object has fields and is no larger than the schema it was met in. |
| GoTypes.EndlessIffCircular | backend/cmd/gencodexproto/main.go:838-855 | The lookup of a name's JSON kind goes on for ever if and only if following single `allOf` references comes to some name twice, and exactly then it finds no kind. |
| GoTypes.FoldReturnsIff | backend/cmd/gencodexproto/main.go:798-926 | Folding a field's types returns if and only if the arms agree on the type or none of their types is such a name. |
| GoTypes.FoldedIsFieldType | backend/cmd/gencodexproto/main.go:798-858 | If folding the arms' types returns, it gives the declared outcome: the shared type, else the canonical type of the shared scalar kind, else raw JSON. |
| GoTypes.FieldTypeIgnoresArmOrder | backend/cmd/gencodexproto/main.go:884-926 | That outcome, and whether there is one, is the same for every order of the arms, although the fold widens pairwise. |
| Declarations.UnionReturnsIff | backend/cmd/gencodexproto/main.go:874-926 | Folding a union returns if and only if no non-tag property has different types in its arms with a circular name among them. |
| Declarations.UnionHasOneFieldPerProperty | backend/cmd/gencodexproto/main.go:874-966 | A flattened union whose folding returns has exactly one field for each non-tag property that occurs in any arm, and no other, each with the declared outcome as its type and the property's Go name, with an underscore exactly if that name was used. |
| Declarations.UnionIgnoresArmOrder | backend/cmd/gencodexproto/main.go:884-926 | Reordering the arms changes neither whether folding returns, nor which fields there are, nor the type of any. |
| DeclaredValues.KindIsTheValues | backend/cmd/gencodexproto/main.go:819-858 | If the lookup of a definition's name finds a kind, through whatever references, it is the kind of every value the definition admits. |
| DeclaredValues.SoleTypeHasItsKind | backend/cmd/gencodexproto/main.go:838-858 | And a definition of one scalar type has that type's kind, an enumeration of strings that of strings. |
| DeclaredValues.UnionTakesItsArms | backend/cmd/gencodexproto/main.go:874-966 | The flattened union takes an object that one of its arms admits, widened fields included, if and only if what it carries under the names of other arms' fields is taken there and the integers under signed fields fit. |
| DeclaredValues.WideningLosesUnsigned | backend/cmd/gencodexproto/main.go:798-817 | Where an unsigned and a signed field are widened, the values lost are exactly the integers from 2^63 on, and there are such. |
| Declarations.StructDescribes | backend/cmd/gencodexproto/main.go:733-789 | A struct has one field, in name order, for each property that has a Go name and no other, of the property's type, and under its Go name with an underscore exactly if an earlier field took that. |
| DeclaredBodies.EveryBodyHasItsSource | backend/cmd/gencodexproto/main.go:627-758 | Over the whole run every declaration is for a definition, an inline object or a discriminator and holds what that asks for; every definition whose Go name no earlier one took is declared, and so is the first inline object of every name no definition took. |
| DeclaredValues.StructTakesItsObjects | backend/cmd/gencodexproto/main.go:733-789 | The struct for a schema takes every object the schema admits. |
| DeclaredValues.DefinitionTakesItsValues | backend/cmd/gencodexproto/main.go:651-731 | So what any definition but a tagged union is declared as takes every value the definition admits: enumerations of strings, structs and aliases. |
| Declarations.WorklistShrinks | backend/cmd/gencodexproto/main.go:641-648 | Although declaring an inline object appends to the list being walked, the weight of what is left strictly falls. |
| Closure.RenderingReturnsIff | backend/cmd/gencodexproto/main.go:627-649 | Rendering returns if and only if no tagged union that gets declared has a non-tag property to which its arms give different types, one of them a name whose single `allOf` references run in a circle. |
| CircularKind.OnlyTheUnionAsks | backend/cmd/gencodexproto/main.go:838-855 | A circular definition alone is rendered; beside a union that gives one field its type and string, rendering does not return. |
| Closure.EveryNameIsDeclared | backend/cmd/gencodexproto/main.go:627-758 | On every forest on which rendering returns, every definition's Go name and every inline name handed out is declared; only discriminator types can repeat a name, and one does if and only if a definition sorted before its union took that name. |
| Closure.EveryUsedNameIsDeclared | backend/cmd/gencodexproto/main.go:381-464 | If rendering returns and every reference leads to a definition, every type name the generated file uses is declared in it. |
| DiscriminatorClash.ADiscriminatorCanRepeat | backend/cmd/gencodexproto/main.go:954-955 | Two definitions on which rendering returns and declares a name twice: a tagged union `x` and a definition `XType`. |
| Rendering.Renderer.GoType | backend/cmd/gencodexproto/main.go:392-464 | Returns the value-level type and appends exactly the object it hands out to the shared list. |
| Rendering.Renderer.KindOf | backend/cmd/gencodexproto/main.go:819-858 | Walking the definitions in any map order finds the kind the value level gives, for every type whose lookup returns, when Go names are injective. |
| Rendering.Renderer.WidenTypes | backend/cmd/gencodexproto/main.go:798-817 | Computes the pairwise widening whenever both lookups return. |
| Rendering.Renderer.RenderStruct | backend/cmd/gencodexproto/main.go:733-758 | Declares the struct once, and the declaration describes the schema: a field per usable property in name order, of its type and under its Go name, the inline objects of the types appended. |
| Rendering.Renderer.RenderFlattenedUnion | backend/cmd/gencodexproto/main.go:874-966 | For every union whose folding returns, the nested loops over arms and properties declare it with exactly the folded fields, then its discriminator type. |
| Rendering.Renderer.RenderDef | backend/cmd/gencodexproto/main.go:651-731 | Takes the branch (enum, union, struct, alias) and adds the declarations the value level adds, for every definition but a union whose folding does not return. |
| Rendering.Renderer.RenderInlines | backend/cmd/gencodexproto/main.go:641-648 | The loop over the growing list ends for every forest, having declared every object in it. |
| Rendering.Renderer.RenderTypes | backend/cmd/gencodexproto/main.go:627-649 | Terminates, with the output of the value level, on every finite forest of schemas in which no declared union asks for the kind of a circular name; so every name is declared, every used name is among them, and every declaration holds what its definition or inline object asks for. |
| MergeDefs.StripDocsIdempotent | backend/cmd/gencodexproto/main.go:308-344 | Stripping documentation, at every depth, twice is stripping it once. |
| MergeDefs.SameShapeIff | backend/cmd/gencodexproto/main.go:302-344 | Two schemas have the same shape if and only if they agree in everything but titles and descriptions, at every depth. |
| MergeDefs.Generator.Merge | backend/cmd/gencodexproto/main.go:276-300 | Walked in any order, a file merges exactly when it agrees in shape with what is there; what was there is never replaced. |
| MergeDefs.MergeFiles | backend/cmd/gencodexproto/main.go:233-272 | Merging file after file yields the merge of the list, or fails as soon as one disagrees. |
| MergeDefs.MergeSucceedsIff | backend/cmd/gencodexproto/main.go:276-300 | Merging succeeds if and only if every two files agree on the shape of every name they share. |
| MergeDefs.MergeOrderIsIrrelevant | backend/cmd/gencodexproto/main.go:273-306 | Any order of the files fails in every order or yields the same names with the same shapes. |
| SameOutput.AlikeRenderAlike | backend/cmd/gencodexproto/main.go:302-344 | Rendering returns for both or neither of two sets of definitions that differ only in documentation, and declares the same. |
| SameOutput.MergeOrderCannotBeSeen | backend/cmd/gencodexproto/main.go:273-306 | So the order of the schema files changes neither whether the generator fails, nor whether rendering returns, nor a single declaration. |
| Failover.NextFailoverRung | backend/internal/domain/failover_contract.go:183-227 | Returns, trimmed, the lowest rung with a known harness that equals neither the current target nor a spent one once space around the models is trimmed; no target exactly when there is none, and an error exactly for a blank role. |
| Failover.LatestFailoverAttempt | backend/internal/domain/failover.go:40-53 | Returns an attempt with the highest sequence number, and none exactly for no attempts. |
| Failover.UsedFailoverTargets | backend/internal/domain/failover.go:77-85 | Lists every attempt's trimmed target, in order. |
| Failover.FoldsIgnoreOrder | backend/internal/domain/failover.go:44-112 | The latest and the active attempt, the next number, the count and the set of used targets are the same in whatever order the attempts are listed. |
| FailoverRuns.ContinuesExactlyWhen | backend/internal/session_manager/failover.go:150-327 | In every state of an incident: a continuation adopts exactly if an attempt is open, converges exactly if one is acknowledged, and starts another exactly if all have failed, it is manual or the first, there are fewer than eight, role and generation are given, and a rung of the ladder is free; else it names the first of these that is missing. |
| FailoverRuns.AppendTakesLowestRung | backend/internal/session_manager/failover.go:235-327 | A continuation that adds an attempt takes the lowest eligible rung of the ladder in force, below the limit, to a target no earlier attempt went to; an automatic one only as the first. |
| FailoverRuns.EventKeepsSound | backend/internal/session_manager/failover.go:150-327 | Every reading, acting and settling keeps the attempts numbered from 1, different in target, at most eight, and all but the latest failed; and whoever may still append has read the attempts as they are, or its number is taken and the append will be rejected. |
| FailoverRuns.EveryIncidentIsSafe | backend/internal/domain/failover_contract.go:16-79 | Over any run, role-map edits and stale readings included: unique numbers, pairwise different targets, never more than eight attempts, and an open attempt is always the latest and the only one. |
| FailoverRuns.OpenAttemptIsAdopted | backend/internal/session_manager/failover.go:168-186 | While an attempt is open, every continuation that reads the attempts adopts it, in whatever order they are listed, and none under way, however old its reading, adds one or spends a rung. |
| FailoverRuns.AcknowledgedIncidentIsOver | backend/internal/session_manager/failover.go:190-220 | Once an attempt is acknowledged no continuation, new or under way, starts another. |
| FailoverRuns.DecisionIgnoresOrder | backend/internal/session_manager/failover.go:150-327 | What a continuation does never depends on the order in which the store lists the attempts. |
| FailoverRuns.AppendSpendsARung | backend/internal/domain/failover_contract.go:154-227 | Each new attempt strictly lowers the number of unspent distinct rungs of its ladder. |
| FailoverRuns.LadderBoundsAttempts | backend/internal/domain/failover_contract.go:16-25 | With a fixed ladder an incident has at most as many attempts as rungs, and at most the limit. |
| FailoverIds.AttemptIDIsUnique | backend/internal/domain/failover.go:15-24 | Equal attempt ids mean equal session, trimmed incident and number, as long as incident ids hold no colon. |
| FailoverIds.LedgerIDIsUnique | backend/internal/domain/failover.go:26-38 | Equal ledger ids also mean equal phases. |
| FailoverIds.LedgerIDsCollideIff | backend/internal/domain/failover.go:26-38 | A failover ledger id equals a switch ledger id if and only if the phases agree and the switch's session and generation spell out the rest. |
| FailoverIds.LedgersNeverCollide | backend/internal/domain/failover.go:26-38 | So it never does when the switch's session and generation hold no colon. |
| ChangeFeed.KeptAscends | backend/internal/cdc/poller.go:112-118 | Whatever the source returns, what a poll lets through is numbered strictly upwards. |
| ChangeFeed.KeptAreRecords | backend/internal/cdc/poller.go:112-118 | What passes is exactly the events numbered above the cursor and above everything before them in the batch. |
| ChangeFeed.CursorIsLastKept | backend/internal/cdc/poller.go:112-118 | The cursor moves exactly when something passes, to the number of the last event that did. |
| ChangeFeed.Broadcaster.Subscribe | backend/internal/cdc/broadcast.go:28-39 | Gives the callback an id no subscription had before, ended ones included: ids only go up. |
| ChangeFeed.Broadcaster.Unsubscribe | backend/internal/cdc/broadcast.go:34-38 | However late or often it is called, ends just this subscription. |
| ChangeFeed.Broadcaster.Publish | backend/internal/cdc/broadcast.go:51-57 | In whatever order the map is walked, every current subscriber gets the event exactly once. |
| ChangeFeed.Poller.Poll | backend/internal/cdc/poller.go:107-120 | Every subscriber receives exactly the events of the batch that pass, in order, and the cursor follows; a failed read changes nothing. |
| ChangeFeedRuns.EverySubscriberSeesASegment | backend/internal/cdc/broadcast.go:25-57 | For any source, even misordered: published numbers strictly increase, and every subscriber got one contiguous segment of what was published, from when it subscribed and up to now while subscribed. |
| ChangeFeedRuns.SubscriptionGetsItsSpan | backend/internal/cdc/broadcast.go:25-57 | A subscription receives exactly what is published from when it begins until it is ended. |
| ChangeFeedRuns.EndedStaysEnded | backend/internal/cdc/broadcast.go:34-38 | After it unsubscribed a subscriber gets nothing more, whatever happens. |
| ChangeFeedRuns.PublishedIsTheLogSegment | backend/internal/cdc/poller.go:71-120 | With an append-only log of increasing numbers, what was published is exactly the log between the start and the cursor, in order and once each, and every subscriber's part is one contiguous segment of the log. |
| ChangeFeedRuns.DrainedIsPoll | backend/internal/cdc/poller.go:107-120 | Delivering a batch step by step does to cursor and subscribers what the poller's method does. |
| ChangeFeedRuns.PollsAdvance | backend/internal/cdc/poller.go:107-120 | On a quiet log k polls advance by k batches, or to the head if that is nearer. |
| ChangeFeedRuns.PollsReachTheHead | backend/internal/cdc/poller.go:71-120 | Every run can be continued, by reads of the log and deliveries alone, to one that has published everything after the start and stands at the head; k polls are such a continuation once k batches cover what is left. |
| ChangeFeedRuns.SeekSkipsHistory | backend/internal/cdc/poller.go:71-80 | A poller that starts where `SeekToHead` puts it publishes only rows appended since, in order from the first one. |
| DevImport.Preflight | backend/internal/devimport/importer.go:68-85 | Passes if and only if every active row on either side, and every target row of a source id, can be decoded, and else names one that cannot. |
| DevImport.TablesJudge | backend/internal/devimport/importer.go:91-143 | What the two lookup tables decide about a project is what the plan decides on the target's rows, shared paths included. |
| DevImport.Store.ImportWorkspaceProject | backend/internal/storage/sqlite/store/project_store.go:47-169 | The store repeats the conflict checks on its own rows and writes row and child repositories together, or nothing. |
| DevImport.Tables | backend/internal/devimport/importer.go:91-96 | Filled from a listing in id order, the tables know exactly the active rows: by id, and the last one at each path. |
| DevImport.StoreRefusesOnlyShared | backend/internal/devimport/importer.go:154-176 | The store refuses an import the tables let through only if it is an update of the last row at a path that another active row has too. |
| DevImport.ImportOne | backend/internal/devimport/importer.go:98-179 | One pass of the loop does what the plan says to report, tables and target, given the store's refusal if it gave one, and a dry one leaves the target alone. |
| DevImport.Run | backend/internal/devimport/importer.go:53-182 | For every target: fails exactly when the preflight does, naming the row, with nothing touched; otherwise a dry run gives the report of the plan with nothing refused, and a real run the report and the target of the plan for the refusals the store gave; what those reports count is `ReportCounts`. |
| DevImportLaws.EveryProjectIsCounted | backend/internal/devimport/importer.go:97-187 | Inserted, updated and skipped add up to the number of source projects, with one conflict per skip. |
| DevImportLaws.PlanKeepsTheTarget | backend/internal/devimport/importer.go:97-182 | No existing id/path pair changes, archived rows are untouched, two active rows share a path only if they did before, and new or changed rows are source rows. |
| DevImportLaws.PathsStayUnique | backend/internal/devimport/importer.go:97-182 | In particular active rows that were unique by path stay so. |
| DevImportLaws.DryEqualsRealIff | backend/internal/devimport/importer.go:153-176 | A dry run gives the report of the real run, whatever the store answers, if and only if no source project has in the target an active row of its id and path that is the last one at that path while another active row has the path too. |
| DevImportLaws.DryAndRealCanDiffer | backend/internal/storage/sqlite/store/project_store.go:143-154 | With active rows `a` and `b` at one path, importing `b` counts an update when dry and may report a conflict when real; importing `a` reports the same conflict in every run. |
| DevImportLaws.RerunRepeats | backend/internal/devimport/importer.go:87-187 | For every target, a run on its own result to which the store answers as before, as it may, inserts nothing, reports the same conflicts, updates as many projects as were inserted or updated, and changes nothing. |
| DevImportLaws.RerunIsIdempotentIff | backend/internal/devimport/importer.go:87-187 | Every rerun does, whatever the store answers, if and only if no update is at risk of being refused. |
| DevImportLaws.RerunUpdatesTheSame | backend/internal/devimport/importer.go:87-187 | A rerun lets through, now as updates, exactly the projects the first run let through, and refuses the others for the same reason; what the first run wrote the target holds as the source does, child repositories included. |
| DevImportReports.ReportCounts | backend/internal/devimport/importer.go:97-187 | The insert count is the number of ids the target gained, which are those of the source projects without a conflict that it did not have; the update count is the number of those it had; the skips are the projects with a conflict; and every other project stands in the target as the source has it. |
| DevImportReports.ConflictsAreTrue | backend/internal/devimport/importer.go:97-166 | Every reported conflict is a source project's, and its reason is so: an archived row, an active row at another path, or another active row at its path, with that row's id and path. |
| DevImportReports.DryRealAgain | backend/internal/devimport/importer.go:51-182 | A dry run, a real run and a rerun of the importer itself: dry and real report the same inserts, as many as the target gained ids; the updates are the accepted projects it had; every active source project is counted, and every id/path pair is kept. Unless an update is at risk, the dry report equals the real one, and the rerun reports the inserts as updates and leaves every row and child repository alone. |
| AgentSwitch.HistoriesAreOrderly | backend/internal/domain/agent_switching.go:147-181 | States can follow one another in a switch if and only if nothing follows a terminal one and, repeats removed, they are a prefix of the seven-state chain or an uncompleted prefix followed by failed. |
| AgentSwitch.EverySwitchIsSafe | backend/internal/domain/agent_switching.go:147-181 | So there are at most six changes, completion passed every phase, no target start precedes a confirmed source stop, terminal states end the history, and recovery is asked for only after a confirmed stop. |
| AgentSwitch.RecoveryIsAskedIff | backend/internal/domain/agent_switching.go:352-356 | In every history recovery is asked for exactly from when the target's start was begun until it succeeded or failed, while no target is recorded and the start is marked unconfirmed. |
| UntrustedText.ReplacementMakesNone | backend/internal/cli/browser.go:652-659 | Replacing a marker leaves no occurrence of it and creates none of the other, not even across the ends of a replacement. |
| UntrustedText.MarkersOnlyAtTheEnds | backend/internal/cli/browser.go:652-659 | For every text the begin marker occurs in the wrapping at position 0 and nowhere else, and the end marker at the very end and nowhere else. |
| UntrustedText.WrappedVerbatimIff | backend/internal/cli/browser.go:652-659 | A text stands verbatim between the two markers, each on a line of its own, if and only if it holds no marker. |
| UntrustedText.TextIsRestoredIff | backend/internal/cli/browser.go:652-659 | Taking the markers and the two newlines off and reading the escapes back gives the text if and only if it held no escaped marker. |
| HookText.CapIsWithinLimit | backend/internal/cli/hooks.go:216-229 | For every positive limit the capped text has at most that many bytes, repair included, and nothing is left of it exactly if it was empty or too long for a limit without room beside the marker. |
| HookText.CapKeepsBothEnds | backend/internal/cli/hooks.go:216-229 | A truncated well-formed text becomes its longest whole-sequence prefix within the head, the marker and its longest whole-sequence suffix within the tail, with one question mark at a cut exactly when that split a sequence. |
| HookText.CapIsValid | backend/internal/cli/hooks.go:216-229 | Capping well-formed text gives well-formed text, and changes it exactly when it is over a positive limit. |
| HookText.RepairIsValid | backend/internal/cli/hooks.go:228-228 | Repaired bytes are well-formed, and are the bytes themselves exactly when those were. |
| ProjectLookup.ContainsIsPrefix | backend/internal/cli/spawn.go:390-399 | The test on the text of the relative path holds exactly when the root's components start the child's, whatever dots directory names begin with. |
| ProjectLookup.ResolveProjectFromCWD | backend/internal/cli/spawn.go:304-373 | The single pass returns the deepest project that contains the directory, ambiguity exactly when two share that path, the lone scratch project or nothing when none does, and an error if any request fails. |
| ProjectLookup.OutcomeIgnoresOrder | backend/internal/cli/spawn.go:319-362 | With distinct ids there is one outcome, and it is the same in whatever order the projects are listed. |

## Left out

- Broker: sockets, timeouts, tokens, the runtime hello and JSON decoding; a connection is an opaque id, a write takes any number of bytes or fails, request ids are fresh, and the reason given for a disconnect is not recorded.
- WireIsWholeFramesIff: does not say that the wire always holds whole frames, because it does not: see `ACutFrameCanStay`.
- Generator: reading files, running the provider, formatting, hashing and the output text. A struct is its fields with name, JSON name and type; tags, pointers, their order in the text and comments are not modelled.
- FieldTakesItsValues: asks of every enumeration met that it holds strings or null, because any enumeration becomes a string field; for schemas with combining keywords the condition is sufficient, as no value may meet the offending part.
- JsonValues: Go's decoder also matches member names without regard to case and fails on numbers beyond the float range; members are matched exactly, and float fields take every number.
- SameShape: compares the `type` keyword as decoded, the source its compacted text, which differs only where a name is spelt with escapes; `additionalProperties` is compared by its text, documentation included, as the source does.
- RenderStruct: does not claim that Go field names in a struct differ, because a third JSON name with one Go name takes the underscore form a second time.
- Schemas: the schema member the generator never reads (the permissive flag of a boolean schema) is part of no statement.
- Failover: the pause and harness policy checks, session reads and the switch engine around a continuation. Appends are serialised by the unique key on the sequence number (backend/internal/storage/sqlite/migrations/9008_session_failover_attempts.sql:50-53), settlements are the store's compare-and-set.
- AttemptIDIsUnique: says nothing about incident ids with a colon, for which ids may collide.
- Poller: the ticker and the logger, subscriber panics, and callbacks that block or call back into the broadcaster.
- Importer: I/O errors, concurrent writers of the target, and the columns that decide no conflict, which travel as one text.
- AgentSwitch: the store's further conditions on single transitions (stop confirmation, activation, acknowledgement), which only narrow the histories.
- HookText: trimming and the removal of control characters, which come before the cap; its input is the text they leave.
- ProjectLookup: reading the working directory, resolving symbolic links and `filepath.Clean`; which of several failed requests is reported.
- Electron and UI code, CLI commands, HTTP handlers, daemon wiring and the small enumerations: they would add only easy members.
