# Zendure bridge: a verified model

The bridge polls Zendure battery units and keeps an MQTT broker, Home Assistant's
discovery tree and an evcc battery-mode profile in step with them. This project
models the parts of it that hold state, parse foreign bytes or follow a protocol,
and proves what they promise over every input and every run.

| files | what they model |
|---|---|
| `NameWalk`, `DnsName`, `DnsCompression` | DNS names: the pointer-following decoder, its hop bound, the encoder, compressed names |
| `DnsMessage`, `DnsResponse`, `DnsServices` | DNS messages: the record fold, responses and queries as bytes, what browsing finds |
| `DnsPlain` | names, records and services byte by byte and field by field |
| `Evcc`, `EvccUnit`, `EvccHistory`, `EvccDevice` | one unit's battery mode: targets, snapshot, difference; commands; whole runs; the unit's own registers |
| `EvccInForce` | what each command sends and leaves, with names and numbers |
| `EvccPlane`, `EvccDaemon` | all units under one lock, the timeout fallback and its ticker |
| `HaRuntime`, `Discovery`, `DiscoveryLaws` | the discovery plane over a retained store that may lose writes |
| `DiscoveryFleet` | reports and reconnects by device and owner |
| `DiscoveryRuns`, `DiscoveryHealing` | its goroutines interleaved: what is lost, when it comes back, what is never touched |
| `DiscoverySent` | which ids count as sent after any run, and what the next report does |
| `DiscoveryReconnect` | what a new connection inherits: documents out too early, configs that stay, writes that are skipped |
| `Ownership`, `OrphanSweep`, `Reconcile` | which retained configs are ours, one device's orphan sweep, when it is made |
| `Migration` | the sweep of the old topic layout |
| `ObjectId` | the entity-id seed |
| `Reachability`, `StateStore` | the debounced reachability and the notifying cache, with their concurrency |
| `Catalog`, `ValuePath`, `Numbers` | the property catalog and a value's way out and back |
| `ValuePlain` | commands and published values in words and numbers |
| `Sequences` | splitting and joining, distinctness, the pigeonhole principle |

`dafny verify dfyconfig.toml` checks everything.

## How it is modelled

Objects that change in place are classes, and each of their methods is proved equal
to a function of the old state; the laws are proved about those functions. A section
under a mutex is one atomic step. Where a method releases the lock and goes on
(the fallback's scan and turns, a document's guard, write and bookkeeping, a sweep's
claims, retractions and Forget, the observer's calls, a notification round), the steps
are interleaved with everyone else's. The methods of `Discovery` and `EvccPlane` that
span such steps are proved for an undisturbed call, and `DiscoveryRuns`,
`DiscoveryHealing`, `DiscoverySent`, `DiscoveryReconnect` and `EvccDaemon` have the laws for every
interleaving.

Bytes are integers 0 to 255; `float64` is `real`; times are integers. The answers of
the outside world (whether a unit takes a write, what becomes of a retained message,
what a subscription delivers) are parameters, so every theorem holds for all of them.

The MQTT library's runtime is taken as the source documents it: `PublishBundle` retracts
the superseded topics it does not remember having retracted, stops at a refusal, then
writes the document, skipping one whose body was written before on the connection;
`Reset` forgets the per-connection half; `Declared` only loses what is retracted;
`Retract` goes on past a refusal. A write may be delivered, refused, or lost although
it looked fine, which at QoS 0 is possible. One `PublishBundle`, and the retraction of
one topic, is one step together with what the runtime notes about it.

## Where the code and its comments differ

- `saved` is described as nil while normal (internal/coordinator/evcc.go:51-53). A first
  hold whose write fails leaves it set: `SavedWhileNormal`; exactly when:
  `SavedWhileNormalIff`.
- `normal` is described as writing back exactly what was there
  (internal/coordinator/evcc.go:31-32). The snapshot is rounded, so that is so exactly
  for whole numbers: `RestoredExactlyIffWhole`.
- The fallback ends a mode evcc stopped sending. Its list is made before its writes, so
  it can also end one that was just sent again: `ResentHoldIsEnded`; exactly when the
  listed unit is no longer overdue: `TurnFindsStaleIffUntouched`.
- The claims of a sweep are described as what keeps it from retracting a document this
  process is publishing (internal/hass/discovery.go:48-53, internal/coordinator/coordinator.go:799-807).
  They are read once, before the retractions, so a document written after them is
  retracted: `SweptWhileReported`; exactly when: `WrittenIsMissingIff`.
- `Forget` is described as restoring such a document with the next report
  (internal/coordinator/coordinator.go:885-890). It does not when the bookkeeping of the
  write comes after it, `SweptForGood`, or when the report renders only ids that an
  earlier rendering carried and the last one did not, `ForgottenButSent`. Exactly when:
  `MissingIsRestoredIff`, with `SentIff` and `ReleasedIff` for what counts as sent. A
  reconnect has the first seam too: `NotedAcrossReconnect`.
- An entity that a report leaves out is gone from its document once another rendering
  brings a new id, and does not come back with the next report that has it, because it
  counts as sent: `OverwrittenEntityStaysAway`; exactly when: `DroppedIffNotedAgain`.
- `Reset` is described as closing the window in which a document goes out into a tree
  that still holds the configs it supersedes (internal/coordinator/coordinator.go:457-484).
  It runs once the link is up, without a lock shared with the reports, and a report
  before it finds the window open: `ReportBeforeReset`; exactly when:
  `OutBeforeRetractionIff`, `SupersededStaysIff`, `SupersededIsRemovedIff`. The same
  report may skip a document the new broker lacks: `WriteIsSkippedIff`.
- `normal` leaves the unit itself at a hold when a report read before the hold's write is
  merged after it, because the write is decided on the cache
  (internal/coordinator/evcc.go:188-203): `LateReportLeavesTheHold`; exactly when:
  `UnitIsRestoredIff`.
- `reconcileOrphans` is described as running when the topic set changed. The signature
  is stored before the busy check, so a change during a check is missed, and stays
  missed: `EveryChangeIsCheckedIff`, `AMissedChangeStaysMissed`.
- Even an undisturbed reconnect brings every document back only if each has an own id:
  `OnlineRestoresIffFresh`. Ids can coincide across a unit and its packs: `UniqueIdClash`.
- The separators keep instances apart only where entities carry a state topic:
  `StatelessIsOursIff`.
- A serial that extends another by an underscore has its per-entity configs claimed by
  the shorter one: `UnderscoredSerialIsClaimed`; exactly when: `EntityIsClaimedIff`.
- The observer is called after the unlock, so with two units the upstream level can end
  on an outdated report: `UpstreamKnownIffOneUnit`.
- `result` appends to the services it returns, so it is for one call: `AttachTwice`.

## Model

| member | source | states |
|---|---|---|
| `DnsName.ParseName` | internal/discovery/mdns.go:200-246 | the loop with its hop counter ends on every input and computes what the name at an offset is by a walk that has no counter: same name, same next offset, same error; which bytes the name has, DnsPlain.NameIsSpelled says |
| `NameWalk.NameIffDecoding` | internal/discovery/mdns.go:200-246 | a name is read exactly when a finite decoding exists (labels, strictly backward pointers, a zero byte), and then it is that decoding's labels and end |
| `DnsName.HopBoundIsComplete` | internal/discovery/mdns.go:203-208 | both halves for a message: the bound refuses no finite decoding, and the loop error occurs exactly when some pointer position comes up a second time |
| `NameWalk.LoopIffPointerRecurs` | internal/discovery/mdns.go:203-208 | the loop error is equivalent to a recurring pointer position, for any step function that stays within a bound |
| `NameWalk.TooManyPointers` | internal/discovery/mdns.go:224-227 | pigeonhole: more pointers met than there are bytes means the walk never ends |
| `NameWalk.DecodingIsName` | internal/discovery/mdns.go:200-246 | there is at most one finite decoding from an offset, and it is the result |
| `DnsPlain.NameIsSpelled` | internal/discovery/mdns.go:200-246 | where a finite decoding exists the name read is a single dot without labels, else as long as the labels and a dot each, every label at its place and a dot right behind it, the last one included |
| `DnsPlain.CanonicalIsSpelled` | internal/discovery/mdns.go:103-115 | the canonical form of a name, which the round trip returns, is spelled the same way from its labels |
| `DnsPlain.StepSpelled` | internal/discovery/mdns.go:207-243 | one step at a position, by the byte there: zero ends the name, 1 to 191 takes so many bytes, 192 and above goes back to a 14-bit position strictly before; all four refusals |
| `NameWalk.NextInBounds` | internal/discovery/mdns.go:200-246 | a read name's next offset is past its start and not past the message, pointers or not |
| `NameWalk.PointerJoinsTail` | internal/discovery/mdns.go:228-235 | a walk that reaches its first pointer continues as the name at the target, and resumes two bytes after the pointer |
| `DnsName.PointerBits` | internal/discovery/mdns.go:220-228 | the division and remainder used for the two top bits and the 14-bit offset are the source's mask, shift and or |
| `DnsName.BackwardPointersCanLoop` | internal/discovery/mdns.go:203-207 | a five-byte message whose only pointer is strictly backward and which still never ends: the comment's reason for the bound |
| `DnsName.AppendName` | internal/discovery/mdns.go:103-115 | appends exactly the wire form of the name's labels |
| `DnsPlain.EncodedIsSpelled` | internal/discovery/mdns.go:103-115 | an encoded name: at the place of each label its length, 1 to 63, then its bytes, and a zero behind the last |
| `DnsPlain.LabelsArePartsCut` | internal/discovery/mdns.go:103-111 | for any parts without dots: the labels of the dotted name, a final dot or not, are the parts without the empty ones, each cut to 63 bytes |
| `DnsName.NameRoundTrip` | internal/discovery/mdns.go:103-115 | for every dotted name, prefix and suffix: decoding at the end of the prefix returns the name in canonical form (no empty labels, labels cut to 63 bytes, one trailing dot) and an offset exactly past the encoding |
| `DnsName.CompressedName` | internal/discovery/mdns.go:218-235 | labels followed by a pointer to an earlier name decode to those labels in front of that name; the record goes on after the pointer |
| `DnsCompression.NameDecodes` | internal/discovery/mdns.go:200-246 | a name written as labels and either a zero byte or a pointer to where an earlier name, or the rest of one, stands decodes to all of its labels |
| `DnsCompression.SuffixesStand` | internal/discovery/mdns.go:218-235 | behind a name, compressed or not, it and each of its suffixes can be pointed to in turn |
| `DnsName.LabelsOfDotted` | internal/discovery/mdns.go:103-115 | a name that is already in wire form is split back into exactly its labels |
| `DnsName.EncodeCanonical` | internal/discovery/mdns.go:103-115 | canonicalisation is idempotent and invisible to the encoder |
| `DnsMessage.ParseTxt` | internal/discovery/mdns.go:249-263 | the strings of TXT data in order, empty ones dropped, stopping at a length that overruns, without an index out of range on any bytes |
| `DnsPlain.TxtUpToTheBreak` | internal/discovery/mdns.go:249-263 | TXT data that breaks off after any number of whole strings yields those that are not empty |
| `DnsMessage.SkipQuestions` | internal/discovery/mdns.go:134-145 | the offset past the questions, or none where a question is cut off |
| `DnsMessage.ParseRecord` | internal/discovery/mdns.go:148-160 | the owner, type and data extent of the record at an offset, or none when it does not fit |
| `DnsMessage.RecordAt` | internal/discovery/mdns.go:148-160 | a record found lies within the message and takes eleven bytes at least |
| `DnsPlain.RecordSpelled` | internal/discovery/mdns.go:148-160 | a record's type, data and end from the bytes behind its owner's name, and none where the fixed part or the data does not fit |
| `DnsPlain.FactSpelled` | internal/discovery/mdns.go:161-183 | what a record states by its type number, 1, 12, 16 or 33, with the data each needs, and nothing otherwise |
| `DnsPlain.MessageSpelled` | internal/discovery/mdns.go:128-147 | the header: twelve bytes, questions skipped by their count, records read by the sum of three counts |
| `DnsPlain.EqualFoldSpelled` | internal/discovery/mdns.go:162-165 | names are equal ignoring case exactly when they differ in nothing but upper and lower case letters |
| `DnsMessage.Collector.Ensure` | internal/discovery/mdns.go:188-195 | the service of an instance, existing or new, and no other entry touched |
| `DnsMessage.Collector.IngestRecord` | internal/discovery/mdns.go:161-183 | one record changes the two maps as its fact does, whatever its type and however malformed its data |
| `DnsMessage.Collector.Ingest` | internal/discovery/mdns.go:128-185 | any bytes whatever: the maps afterwards are the fold of the facts the message states, with no index out of range |
| `DnsMessage.Collector.Result` | internal/discovery/mdns.go:274-283 | every service once, with the addresses of its host appended, in some order; the map itself is changed too |
| `DnsPlain.ListingSpelled` | internal/discovery/mdns.go:274-283 | a listing has as many entries as there are services, each instance once, with its service |
| `DnsMessage.FoldCompose` | internal/discovery/mdns.go:128-185 | packet after packet is the same as all facts in a row |
| `DnsResponse.FactsBounded` | internal/discovery/mdns.go:128-160 | whatever the header counts say, at most (length - 12) / 11 records are folded |
| `DnsResponse.TxtReadBack` | internal/discovery/mdns.go:249-263 | length-prefixed strings come back, empty ones dropped |
| `DnsResponse.RecordReadBack` | internal/discovery/mdns.go:148-183 | an encoded PTR, SRV, TXT or A record, its names written out or compressed, is found whole wherever it stands and states what it says; its names can be pointed to from behind it |
| `DnsResponse.MessageFacts` | internal/discovery/mdns.go:128-185 | a message built from any questions and records, any names compressed against any earlier ones, states exactly the facts of its records in order, however they are split over the three counts and whatever bytes trail it |
| `DnsResponse.QuestionCanBePointedTo` | internal/discovery/mdns.go:218-235 | a record may give its owner by a bare pointer to the question |
| `DnsResponse.BuildQuery` | internal/discovery/mdns.go:88-100 | the bytes are the encoding of a message with one question |
| `DnsPlain.QuerySpelled` | internal/discovery/mdns.go:88-100 | the query byte by byte: header with one question, the name, type 12, class 0x8001 |
| `DnsResponse.QueryAsksForName` | internal/discovery/mdns.go:88-100 | parsed back, the query asks for the canonical name, PTR, class IN with the QU bit, and states no record |
| `DnsServices.ServicesAreStated` | internal/discovery/mdns.go:161-195 | closed form of any fold: an instance is found exactly when mentioned, with host and port of its last SRV record, all TXT strings, and all addresses of that host |
| `DnsPlain.ServiceNamed` | internal/discovery/mdns.go:188-195 | every service found is called a prefix of its instance without a dot, the whole of it or up to its first dot |
| `DnsPlain.FoundIffMentioned` | internal/discovery/mdns.go:161-195 | a service is found exactly for an instance some PTR, SRV or TXT record is about |
| `DnsPlain.LastSrvCounts` | internal/discovery/mdns.go:166-174 | whatever came before and whatever other records follow: host and port are those of the last SRV record of the instance, none without one |
| `DnsPlain.TextsAndAddressesInOrder` | internal/discovery/mdns.go:175-183 | one more record appends its strings or its address to the services they belong to and touches no other text or address |
| `DnsPlain.AddressesAreOfTheHost` | internal/discovery/mdns.go:274-283 | an address is listed exactly when some A record gives it for the service's host |
| `DnsServices.AddressesMayComeAnywhere` | internal/discovery/mdns.go:117-126 | moving A records about among the others, before or after the SRV record naming the host, changes nothing in the result |
| `DnsServices.Browse` | internal/discovery/mdns.go:71-86 | the receive loop returns a listing of what all packets before the first other read state, each cut off at the 9000 bytes of the buffer, and reports that read exactly when it is a failure and not the deadline |
| `DnsPlain.ReceivedSpelled` | internal/discovery/mdns.go:71-86 | what a browse receives: every packet before the first read that is none, in order, each up to the buffer |
| `DnsServices.BrowseFindsWhatWasSaid` | internal/discovery/mdns.go:48-86 | browsing well-formed responses that fit the buffer, compressed or not, finds exactly the services their records describe |
| `DnsServices.AttachTwice` | internal/discovery/mdns.go:274-283 | result is for one call: a second one leaves the services unchanged exactly when no service's host has an address |
| `Evcc.Snapshot` | internal/evcc/evcc.go:194-202 | the rounded numbers of the controlled properties that are reported, and nothing else |
| `EvccInForce.SnapshotSpelled` | internal/evcc/evcc.go:194-202 | a snapshot holds exactly those of acMode, inputLimit, outputLimit and smartMode that are numbers, rounded |
| `Evcc.Diff` | internal/evcc/evcc.go:207-221 | the entries that are not reported as wanted already; nil when there is none |
| `Evcc.DiffApplies` | internal/evcc/evcc.go:204-221 | writing the difference makes the properties agree with all that was wanted, moves nothing else, contains exactly what differed, and leaves no difference |
| `Evcc.ControlledWritesAreInvisible` | internal/evcc/evcc.go:119-133 | a write of controlled properties changes neither the derived values nor any mode's target |
| `Numbers.RoundExact` | internal/evcc/evcc.go:199-200 | rounding keeps a value exactly when it is a whole number |
| `EvccUnit.Unit.Merge` | internal/coordinator/evcc.go:78-84 | a report is merged over what was known; the values and the mode published come from the merged state |
| `EvccUnit.Unit.ApplyBatteryMode` | internal/coordinator/evcc.go:166-213 | the whole new state, the write and the error of one command: refusal without a report, first snapshot, failed write, success; the settings it sends and leaves are written out by EvccInForce.ChargeInForce and HoldInForce |
| `EvccUnit.CommandKeepsGood` | internal/coordinator/evcc.go:172-213 | every command, failing or not, keeps: out of normal there is something saved, and only controlled properties are saved or written; the nothing-to-restore log line is never reached |
| `EvccUnit.SuccessSettles` | internal/coordinator/evcc.go:188-213 | after a success all that was wanted is in place, everything else is as it was, and the mode and the saved settings are the new ones |
| `EvccInForce.ChargeInForce` | internal/evcc/evcc.go:176-189 | after any history a successful charge leaves smartMode 1, acMode 1, outputLimit 0, and as inputLimit the unit's rounded chargeMaxLimit where that is reported and positive, else the configured watts; all other properties are as before |
| `EvccInForce.HoldInForce` | internal/evcc/evcc.go:176-180 | after any history a successful hold leaves smartMode 1 and outputLimit 0, and all other properties, acMode and inputLimit among them, as before |
| `EvccInForce.OnlyWhatDiffersIsSent` | internal/coordinator/evcc.go:188-198 | a hold or charge from any state sends, taken or not, exactly those of its settings, by name and number, that the unit does not report already |
| `EvccInForce.CommandOutcome` | internal/coordinator/evcc.go:166-213 | a command fails exactly as a hold or charge before any report or with a refused write; then properties and mode stay, and only a first attempt saves |
| `EvccInForce.DerivedSpelled` | internal/evcc/evcc.go:119-133 | the derived values by name: battery power is packInputPower less outputPackPower, soc the electricLevel, pv power the solarInputPower, each exactly when its inputs are numbers |
| `EvccInForce.ReportAdds` | internal/coordinator/evcc.go:78-84 | after any history a report brings what it carries, the rest stays known, and mode, saved settings and the time of the last command stay |
| `EvccInForce.RoundsHalvesAway` | internal/evcc/evcc.go:199-200 | halves go away from zero, on both sides of it |
| `EvccUnit.ResendCostsNothing` | internal/coordinator/evcc.go:159-165 | sending the mode just applied again, with no report between, writes nothing and changes only the time of the last command |
| `EvccHistory.SavedIsFirstAttempt` | internal/coordinator/evcc.go:180-186 | after any run, what is saved is the snapshot taken at the first hold or charge attempt since the last successful restore; no later command overwrites it |
| `EvccHistory.SavedIffOpen` | internal/coordinator/evcc.go:180-210 | nothing is saved only when every attempt was restored; something saved belongs to an attempt that stands open |
| `EvccHistory.AllRunsGood` | internal/coordinator/evcc.go:166-213 | the invariant holds after every run of reports and commands, with any writes failing |
| `EvccHistory.NormalRestores` | internal/coordinator/evcc.go:166-213 | over every run: a successful normal makes each controlled property that was numeric at the first attempt its rounded value from then, moves nothing else, and ends in normal with nothing saved |
| `EvccHistory.NormalWithoutAttempt` | internal/coordinator/evcc.go:174-178 | with no open attempt the unit is in normal and normal writes nothing |
| `EvccHistory.RestoredExactlyIffWhole` | internal/coordinator/evcc.go:31-32 | the comment's 'exactly what they were' holds of a property exactly when its value was a whole number |
| `EvccHistory.ModeIsLastSuccess` | internal/coordinator/evcc.go:203-206 | the mode is that of the last command that succeeded |
| `EvccHistory.SavedWhileNormal` | internal/coordinator/evcc.go:51-53 | the field comment's 'nil while normal' is false: a first hold whose write fails |
| `EvccHistory.SavedWhileNormalIff` | internal/coordinator/evcc.go:51-53 | exactly when it is false: an attempt stands open and every success since was a normal |
| `EvccDevice.BeliefsAreTrue` | internal/coordinator/evcc.go:201-203 | with true reports, the optimistic merge keeps the bridge's view of the controlled settings equal to the unit's own |
| `EvccDevice.UnitIsRestored` | internal/coordinator/evcc.go:29-33 | when every report is true at the moment it is merged, a successful normal leaves the unit itself, not only the cache, at the rounded values of the first attempt |
| `EvccDevice.UnitIsRestoredIff` | internal/coordinator/evcc.go:174-203 | whatever the reports said: after a successful normal a saved setting of the unit has its rounded first value exactly when it had it already or the cache before the command did not report that value |
| `EvccDevice.LateReportLeavesTheHold` | internal/coordinator/coordinator.go:640-663 | a report read before a hold's write and merged after it: normal succeeds, writes nothing, and the unit stays at the hold |
| `EvccPlane.Plane.UnitOf` | internal/coordinator/evcc.go:63-70 | the unit of a serial, created in normal when new; the fleet is otherwise unchanged and no two serials share a unit |
| `EvccPlane.Plane.PublishEvcc` | internal/coordinator/evcc.go:74-84 | merges into one unit and leaves every other as it was |
| `EvccPlane.Plane.ApplyBatteryMode` | internal/coordinator/evcc.go:166-213 | one serial's command moves that unit only |
| `EvccPlane.Plane.Scan` | internal/coordinator/evcc.go:230-238 | exactly the units out of normal with a last command at least the timeout ago |
| `EvccInForce.OverdueFrom` | internal/coordinator/evcc.go:230-238 | after any history: whatever the last command came to and whatever was reported since, a unit is overdue exactly in hold or charge, from the timeout after that command on |
| `EvccPlane.Plane.Fallback` | internal/coordinator/evcc.go:228-253 | the whole fleet after a pass: every known stale unit has had its normal, successful or not, and no other moved |
| `EvccPlane.NoStaleUnitAfterPass` | internal/coordinator/evcc.go:225-253 | after an undisturbed pass no known unit is overdue, even when writes fail |
| `EvccPlane.UnknownUnitsStay` | internal/coordinator/evcc.go:239-244 | a pass leaves a unit of an unknown serial alone, and no unit comes or goes |
| `EvccPlane.PassRestoresStaleUnits` | internal/coordinator/evcc.go:225-253 | a stale unit whose write is taken is in normal with all its saved settings in place; a fresh one is untouched |
| `EvccDaemon.EveryUnitIsKnown` | internal/coordinator/coordinator.go:616-624 | in every course of readings, commands, scans and turns every unit's serial is in bySN and every unit satisfies the invariant: the skip of unknown serials is never taken |
| `EvccDaemon.NothingOverdueAfterAPass` | internal/coordinator/evcc.go:239-244 | readings and commands may fall anywhere between a pass's scan and its turns: once every listed unit has had its turn no unit is overdue, even when writes fail |
| `EvccDaemon.OverdueIsListed` | internal/coordinator/evcc.go:228-253 | at every moment of a pass, what is overdue is still to have its turn |
| `EvccDaemon.TurnFindsStaleIffUntouched` | internal/coordinator/evcc.go:231-252 | a listed unit is still overdue before its turn exactly when no command for it came since the scan |
| `EvccDaemon.TurnEndsWhateverStands` | internal/coordinator/evcc.go:246-252 | a turn whose write is taken ends in normal, with all saved settings in place, whatever mode stands by then |
| `EvccDaemon.ResentHoldIsEnded` | internal/coordinator/evcc.go:225-252 | a hold sent again between scan and turn is in force and not overdue, and the turn ends it all the same |
| `EvccDaemon.HoldEndsInTime` | internal/coordinator/evcc.go:255-269 | left alone with the ticker running and writes taken, a hold stands until a scan finds it due and is over within one tick and one write delay after the timeout, whatever is reported, whatever other units do and whatever falls into a pass |
| `HaRuntime.Runtime.PublishBundle` | internal/hass/discovery.go:36-60 | the library contract used: superseded topics not yet remembered are retracted first, a refusal aborts before the document, the document is written and remembered |
| `HaRuntime.Runtime.Reset` | internal/coordinator/coordinator.go:457-484 | forgets what is per connection and keeps what was declared |
| `HaRuntime.RetractionsBacked` | internal/hass/discovery.go:36-50 | where all that is remembered was retracted on the present connection, retracting keeps it so, whatever is refused or lost, and a success leaves every superseded topic so backed |
| `HaRuntime.PublishFates` | internal/hass/discovery.go:36-60 | whatever becomes of the writes: a publish fails exactly with a refusal, which ends it and leaves nothing counted as written or declared; only its last write can have a body, the document's; a success counts that body as written and all it supersedes as retracted |
| `HaRuntime.OneWrite` | internal/hass/discovery.go:36-60 | one retained write changes its own topic only, and that only when delivered; only a refused one is noticed |
| `HaRuntime.EveryTopicHasItsTurn` | internal/coordinator/coordinator.go:881-890 | Retract writes one retraction for each orphan in order, whatever becomes of the others |
| `HaRuntime.ClearingFates` | internal/coordinator/coordinator.go:881-890 | an orphan is gone exactly when some retraction of it was delivered, and stays declared and counted as written exactly when every one was refused |
| `HaRuntime.LosslessPublish` | internal/hass/discovery.go:36-60 | what one publish does to the retained store of a lossless connection |
| `Discovery.Discovery.PublishOne` | internal/hass/discovery.go:155-193 | guard, publish and bookkeeping with nothing in between: nothing on the wire when all ids were sent, else ids and topic recorded only after a success |
| `Discovery.Discovery.IsFresh` | internal/hass/discovery.go:167-178 | the section under the lock before the write: whether some id of the document was never sent |
| `Discovery.Discovery.Note` | internal/hass/discovery.go:187-192 | the section after it: all ids count as sent, and are what is recorded for the topic |
| `Discovery.Discovery.Publish` | internal/hass/discovery.go:138-211 | every owner's document in order, and the topics of all rendered ones whether written or not |
| `Discovery.Discovery.Forget` | internal/hass/discovery.go:236-245 | the recorded ids of these documents leave the sent set, and their records go |
| `Discovery.Discovery.Reopen` | internal/hass/discovery.go:258-262 | nothing counts as sent; the records per topic stay |
| `Discovery.PublishOnline` | internal/coordinator/coordinator.go:456-528 | Reset, Reopen and every device's latest report again, undisturbed, as one state change; what that leaves of each owner of each device, DiscoveryFleet.FleetIsRestored says |
| `Discovery.SweepOrphans` | internal/coordinator/coordinator.go:850-894 | claims, retractions and Forget, undisturbed, as one state change |
| `Discovery.ClaimOrphans` | internal/coordinator/coordinator.go:850-877 | the seen topics that neither the report nor the process claims, in their order |
| `DiscoveryLaws.OnlineRestores` | internal/coordinator/coordinator.go:498-528 | an undisturbed PublishOnline on a lossless connection, whatever the broker retained and the process remembered: afterwards the store is what it was, less every superseded topic, plus every document of every latest report |
| `DiscoveryFleet.FleetIsRestored` | internal/coordinator/coordinator.go:498-528 | by device and owner: after an undisturbed PublishOnline on a lossless connection the document of every owner of every device is retained with its body, nothing it supersedes is, and every other topic is as it was |
| `DiscoveryFleet.FleetIsRestoredIffFresh` | internal/coordinator/coordinator.go:498-528 | to a broker that lost its store: every owner's document of every device comes back exactly when each carries an id that no earlier device and no earlier owner of its device carries |
| `DiscoveryFleet.ReportIsPublished` | internal/hass/discovery.go:138-211 | one report, by owner: every owner's document is retained with its body and declared, and what it supersedes is gone unless it was remembered as retracted and stood again; other topics are as they were |
| `DiscoveryFleet.ReportTopics` | internal/hass/discovery.go:138-211 | the topics a report returns are exactly those of its owners' documents, written or not |
| `DiscoveryLaws.OnlineRestoresIffFresh` | internal/coordinator/coordinator.go:498-528 | after a broker lost its store an undisturbed PublishOnline brings every document back exactly when each carries an id that none before it carried |
| `DiscoveryLaws.OwnIdsAreFresh` | internal/hass/discovery.go:215-224 | an id of its own in every document is enough for that |
| `DiscoveryLaws.WithoutResetRememberedConfigsSurvive` | internal/coordinator/coordinator.go:457-473 | what Reset is for: without it a superseded config survives exactly when it is retained and was remembered as retracted |
| `DiscoveryLaws.OnlineInOrder` | internal/coordinator/coordinator.go:505-509 | an undisturbed PublishOnline on any connection, refusing or losing what it likes: no document is on the log before a retraction of each config it supersedes, on the same connection |
| `DiscoveryLaws.SweepIsExact` | internal/coordinator/coordinator.go:850-894 | an undisturbed sweep on a lossless connection removes exactly the seen, unpublished, undeclared topics |
| `DiscoveryLaws.OnlineIsHeld` | internal/coordinator/coordinator.go:456-528 | after an undisturbed reconnect all that is remembered as written is declared and retained |
| `DiscoveryRuns.WrittenIsMissingIff` | internal/coordinator/coordinator.go:850-894 | in every run of reports, sweeps and reconnects, over any number of connections: a document last written on the present, lossless connection with an accurate memory of it is missing at the end exactly when a sweep that had listed it before that write came to it after |
| `DiscoveryRuns.SoundOnceReset` | internal/coordinator/coordinator.go:480-484 | that memory is accurate from a connection's first Reset on |
| `DiscoveryRuns.MissingIffListedBeforeWritten` | internal/coordinator/coordinator.go:850-894 | the same from the last write on, with the body: until then it is retained as written, and only sweeps that listed it before can still take it |
| `DiscoveryRuns.StandsForGoodIffUnlisted` | internal/coordinator/coordinator.go:846-866 | a written document stays in every continuation exactly when no sweep under way lists it |
| `DiscoveryRuns.ListedIsCleared` | internal/coordinator/coordinator.go:881-890 | what a sweep lists is gone once the sweep is through, unless it was written meanwhile |
| `DiscoveryRuns.StepOfTopic` | internal/coordinator/coordinator.go:850-894 | a write puts a topic in place, a sweep coming to it takes it away, and no other step touches it |
| `DiscoveryHealing.UndisturbedPublish` | internal/hass/discovery.go:167-192 | with nothing in between the three steps of a document are PublishOne |
| `DiscoveryHealing.UndisturbedSweep` | internal/coordinator/coordinator.go:850-891 | and the steps of a sweep are SweepOrphans |
| `DiscoveryHealing.ReportRestoresIffFresh` | internal/hass/discovery.go:167-192 | a missing document that is reported is retained again exactly when some id of it does not count as sent; otherwise nothing at all happens |
| `DiscoveryHealing.ReportRestoresIff` | internal/hass/discovery.go:167-192 | before a Reset too: exactly when some id does not count as sent and its body does not count as written |
| `DiscoverySent.SentIff` | internal/hass/discovery.go:187-262 | after any run over any connections, for any id, whatever the reports rendered and whichever documents share it: it counts as sent exactly when a document carrying it was noted and not released since, a release being a Reopen, or a Forget of a topic it was recorded for |
| `DiscoverySent.RecordedIff` | internal/hass/discovery.go:187-192 | it is recorded for a topic exactly when the document last noted on the topic since its last Forget carried it |
| `DiscoverySent.ReleasedIff` | internal/hass/discovery.go:236-245 | hence a Forget releases exactly the ids of the documents last noted on its topics, not those of earlier renderings |
| `DiscoverySent.MissingIsRestoredIff` | internal/hass/discovery.go:226-245 | for a document missing at the end of any run: the next report makes it retained again, with its body, exactly when some id it renders was not noted or was released since, and its body does not count as written; with no such id the report is a no-op |
| `DiscoverySent.ForgottenIsFreshIff` | internal/hass/discovery.go:226-245 | right after a Forget a report is published exactly when it carries an unsent id, or one on the last recorded list of a forgotten topic |
| `DiscoverySent.ForgottenButSent` | internal/hass/discovery.go:187-245 | a run in which the bookkeeping comes before the Forget and a document stays missing all the same: an id only an earlier rendering carried still counts as sent, and a report of no other id is a no-op |
| `DiscoverySent.DroppedIffNotedAgain` | internal/hass/discovery.go:187-192 | an id noted on a topic is absent from the document last noted there exactly when another was noted after the last one that carried it |
| `DiscoverySent.OverwrittenEntityStaysAway` | internal/hass/discovery.go:163-192 | without any sweep: a second rendering without an entity overwrites the document, and a third that has it again is a no-op |
| `DiscoveryHealing.SweptWhileReported` | internal/coordinator/coordinator.go:850-894 | for any earlier report and any declared topics without it: a run in which a document just written is cleared by a sweep already under way, and comes back with the next report |
| `DiscoveryHealing.SweptForGood` | internal/hass/discovery.go:180-192 | the same, noted only after the sweep's Forget: missing, counted as sent, every report a no-op until a reconnect |
| `DiscoveryHealing.NotedAcrossReconnect` | internal/coordinator/coordinator.go:510-528 | a write lost with the old connection, or skipped on the new one, and noted after Reopen makes the reconnect's own publish of the document do nothing |
| `DiscoveryHealing.UndisturbedSweepForgetsNothing` | internal/coordinator/coordinator.go:883-891 | while what is recorded is declared an undisturbed sweep's Forget changes nothing: it matters only for what is noted while the sweep runs |
| `DiscoveryHealing.UnseenIsKept` | internal/coordinator/coordinator.go:817-846 | in every interleaving, on any connection: a retained topic no window delivers stays retained, and unless written, as it is |
| `DiscoveryReconnect.LastConnection` | internal/coordinator/coordinator.go:456-484 | every run ends as a run on its last connection, which begins with the store it found, an empty log, and all that was remembered and under way |
| `DiscoveryReconnect.OutBeforeRetractionIff` | internal/coordinator/coordinator.go:457-484 | on any connection, where a document goes out: a config it supersedes has no retraction before it on this connection exactly when it was remembered from an earlier one, no Reset has come yet, and nothing has retracted it here; one PublishBundle lies within one connection |
| `DiscoveryReconnect.WrittenAfterRetractions` | internal/hass/discovery.go:36-50 | so from a connection's first Reset on, or where it began with nothing remembered from another, every document goes out behind a retraction of every config it supersedes, whatever is refused or lost, given that no reconnect falls inside one PublishBundle |
| `DiscoveryReconnect.SupersededStaysIff` | internal/coordinator/coordinator.go:457-473 | on a lossless connection a config is still retained at the end exactly when it was at the beginning, no sweep came to it, and every document superseding it was written before the first Reset while it was remembered as retracted |
| `DiscoveryReconnect.ReportRemovesIff` | internal/hass/discovery.go:36-60 | a report removes a retained config it supersedes exactly when it carries an unsent id and the config is not remembered |
| `DiscoveryReconnect.SupersededIsRemovedIff` | internal/coordinator/coordinator.go:457-528 | for a config still retained at the end of any run, the process's first connection included: the next report removes it exactly when the present connection was reset or did not begin with it remembered, and some id the report renders does not count as sent |
| `DiscoveryReconnect.WriteIsSkippedIff` | internal/coordinator/coordinator.go:457-484 | a document is missing right after its own write exactly when the broker lacked it as the connection began while its body counted as written, no Reset has come yet, and nothing has touched it |
| `DiscoveryReconnect.ReportBeforeReset` | internal/coordinator/coordinator.go:456-528 | a run in which a report on the new connection comes before Reset and is noted after Reopen: document and superseded config are both retained, no retraction is on the log, and every report is a no-op until the next reconnect |
| `OrphanSweep.Collect` | internal/coordinator/coordinator.go:817-846 | the window's callbacks keep, in order, the rebuilt topic of every config that is this device's by topic and this instance's by payload |
| `OrphanSweep.SweepDevice` | internal/coordinator/coordinator.go:809-894 | the whole sweep, undisturbed, as one change of the store, the declared topics and the discovery memory |
| `OrphanSweep.SweepRemovesExactlyOrphans` | internal/coordinator/coordinator.go:789-894 | for an undisturbed sweep on a lossless connection, topic by topic: removed exactly when delivered, owned by topic and by payload, and neither published nor declared; what stays is unchanged |
| `OrphanSweep.UnparsableIsKept` | internal/hass/cleanup.go:48-60 | a topic under which only payloads arrive that cannot be read stays retained as it is |
| `OrphanSweep.SiblingIsSpared` | internal/coordinator/coordinator.go:741-748 | in every interleaving of reports and sweeps of any units, on any connection, what another instance wrote with state topics stays exactly as it is under any topic no document of ours is written to or supersedes; the sibling may be on the default pair |
| `OrphanSweep.OtherUnitIsSpared` | internal/coordinator/coordinator.go:741-748 | in every interleaving, sweeps of one unit leave retained what stands for another: its documents and its per-entity configs, for serials without an underscore |
| `Ownership.OwnershipNeverCrosses` | internal/hass/cleanup.go:48-77 | a payload written by any instance, on the default pair or on one name, is judged ours exactly when its identity root is ours and its state topics are under our name or root: never for a root that is nested, extended or unrelated |
| `Ownership.StatelessIsOursIff` | internal/hass/cleanup.go:71-77 | an entity without a state topic is taken for ours exactly when its root is ours, extends ours by an underscore, or ours extends it by what its unique_id goes on with |
| `Ownership.StatelessSiblingIsTaken` | internal/hass/cleanup.go:71-77 | so a stateless entity of an instance a_b is taken for one of a |
| `Ownership.RootsAgree` | internal/hass/cleanup.go:33-47 | two roots cannot both stand before one unique_id's underscore and one state topic's slash: why the two separators differ |
| `Ownership.PayloadSpelled` | internal/hass/cleanup.go:48-69 | a payload is ours by all its components, by its own identity when it has none, and never when it cannot be read |
| `Ownership.IdentitySpelled` | internal/hass/cleanup.go:71-77 | an identity is ours exactly when its unique_id continues our root and an underscore, and its state topic, where there is one, our name or root and a slash |
| `Ownership.DeviceTopicSpelled` | internal/hass/cleanup.go:118-127 | which topics are a unit's: the unit's document, its packs' documents, and four-level configs under its unique_ids |
| `Ownership.IdentitiesSpelled` | internal/hass/discovery.go:283-288 | unique_ids, node ids and the paths of documents and configs, level by level, packs with a pack level |
| `Ownership.DocumentClaims` | internal/hass/cleanup.go:118-123 | for serials without an underscore a device claims exactly its own documents, its packs' included |
| `Ownership.EntityClaims` | internal/hass/cleanup.go:124-127 | and exactly its own per-entity configs |
| `Ownership.UnderscoredSerialIsClaimed` | internal/hass/cleanup.go:118-127 | why the restriction: the per-entity configs of a serial that extends this one by an underscore are claimed with it |
| `Ownership.EntityIsClaimedIff` | internal/hass/cleanup.go:124-127 | for all serials: a per-entity config is claimed exactly when its serial is this one, extends it by an underscore, or this one extends it by what follows the serial in the unique_id |
| `Ownership.DocumentIsClaimedIff` | internal/hass/cleanup.go:118-123 | for all serials and whatever the identity: a document is claimed exactly when what follows the identity is this serial or begins with it and the pack infix |
| `Ownership.UniqueIdClash` | internal/hass/discovery.go:283-288 | a pack's id equals one of its unit's exactly when the unit's leaf spells out that battery and its leaf |
| `Ownership.PackIdsDistinct` | internal/hass/discovery.go:283-288 | ids of two packs with serials free of underscores are equal exactly when pack and leaf are |
| `Ownership.NodeIdClash` | internal/hass/cleanup.go:91-96 | why that is assumed of the topic: a pack's document has the node id of a unit of an instance whose root spells out our root, unit and infix |
| `Ownership.PathsApart` | internal/hass/cleanup.go:91-107 | a device document never stands on a per-entity config's topic |
| `Migration.OldLayoutIsTwoShapes` | internal/coordinator/migrate.go:47-74 | the level test accepts exactly the two documented shapes |
| `Migration.OldTopicsSpelled` | internal/coordinator/migrate.go:52-76 | for any levels: a topic of three is old exactly when it ends in state or set, one of four when it also begins with battery, no level being empty and the serial no function |
| `Migration.OldTopicHasLevels` | internal/coordinator/migrate.go:52-76 | every old topic is root, serial and three or four levels |
| `Migration.OldTopicOfOneDevice` | internal/coordinator/migrate.go:52-74 | no topic is an old topic of two serials without a slash |
| `Migration.NewLayoutIsNeverOld` | internal/coordinator/migrate.go:52-56 | no topic of the new layout, under any function level, is an old one |
| `Migration.SweepRetained` | internal/coordinator/migrate.go:129-187 | clears what the window collected in order up to the first refusal and returns the number; a window cut short clears nothing |
| `Migration.FoundOnce` | internal/coordinator/migrate.go:135-149 | the collection holds each matching retained topic once and nothing else |
| `Migration.FoundSpelled` | internal/coordinator/migrate.go:129-165 | a topic is collected exactly when it came retained, with a payload and owned; later deliveries only add behind |
| `Migration.CompleteWindowFindsAll` | internal/coordinator/migrate.go:129-187 | with every retained topic delivered the collection is exactly the matching part of the store |
| `Migration.SweepDevice` | internal/coordinator/migrate.go:103-110 | over a complete window nothing cuts short: exactly the device's old topics are gone, and their number is returned |
| `Migration.DeviceSweepExactAndIdempotent` | internal/coordinator/migrate.go:103-110 | a device's sweep collects exactly its old topics; once they are gone the next one finds none |
| `ObjectId.Slugify` | internal/hass/discovery.go:354-370 | the loop with its pending separator yields the runs of letters and digits joined by single underscores |
| `ObjectId.SlugOfRun` | internal/hass/discovery.go:354-370 | a run of letters and digits that anything else separates goes behind the slug so far with one underscore; what follows it adds nothing |
| `ObjectId.UmlautsSpelled` | internal/hass/discovery.go:350 | an umlaut becomes its letter, sharp s two, every other character stays |
| `ObjectId.CaseDoesNotMatter` | internal/hass/discovery.go:354-355 | names that differ in case only have one slug |
| `ObjectId.Compact` | internal/hass/discovery.go:373-382 | compaction over the array being read never overwrites an unread token and leaves the tokens without empties and immediate repetitions |
| `ObjectId.CollapseTokens` | internal/hass/discovery.go:373-383 | the joined result of that |
| `ObjectId.CollapsedLaws` | internal/hass/discovery.go:373-383 | every kept token is one of the given, every non-empty given token is kept somewhere, and no two neighbours are equal |
| `ObjectId.CollapsedKeeps` | internal/hass/discovery.go:373-383 | which tokens are kept, by their places, in order: the first of each row of equal ones, empty ones left out of account |
| `ObjectId.DeviceThenTopic` | internal/hass/discovery.go:345-347 | of two canonical seeds: the words of the device's name, then those of the topic |
| `ObjectId.ObjectIdCanonical` | internal/hass/discovery.go:345-383 | an object id is words of [a-z0-9] with single underscores between and none at the edges, no word twice in a row, and both steps leave it unchanged |
| `Reconcile.SignatureTellsSetsApart` | internal/coordinator/coordinator.go:896-905 | two sets of one-line topics have equal signatures exactly when they are equal |
| `Reconcile.ChangeIff` | internal/coordinator/coordinator.go:749-757 | in every run a published set counts as a change exactly when it differs from the one published before it, or is a first one that is not empty |
| `Reconcile.CheckStartsIff` | internal/coordinator/coordinator.go:749-764 | a changed set is checked at once exactly unless a check is under way, an unchanged one starts nothing, and a finished check makes room |
| `Reconcile.Reconciler.ReconcileOrphans` | internal/coordinator/coordinator.go:749-764 | the two gates in their order: signature stored first, then the busy check |
| `Reconcile.EveryChangeIsCheckedIff` | internal/coordinator/coordinator.go:735-763 | 'runs when the set changed' is false: every changed set is checked exactly when none arrives during a check |
| `Reconcile.AMissedChangeStaysMissed` | internal/coordinator/coordinator.go:753-763 | one that does is never checked while the unit keeps publishing it |
| `Reachability.Backend.Observe` | internal/zendure/local/source.go:83-105 | both maps and the two values handed to the observer; nothing changes without an observer |
| `Reachability.HistoryIsDebounced` | internal/zendure/local/source.go:76-82 | for any interleaving: a unit is false exactly when its own last two polls failed, true exactly when one succeeded and at most one failed after, unset otherwise |
| `Reachability.SecondMissLosesAUnit` | internal/zendure/local/source.go:83-105 | in every history: an answer makes a unit reachable, one miss after it does not change that, two in a row do |
| `Reachability.UsableIffSomeUnitAnswers` | internal/zendure/local/source.go:80-82 | usable as computed is 'some unit is reachable' in that sense |
| `Reachability.ToldUnlessFirstMiss` | internal/zendure/local/source.go:83-105 | after any history the observer is told of a poll exactly unless it is a first miss, with the outcome and with whether some unit answers |
| `Reachability.UnitsAreKnown` | internal/zendure/local/source.go:102-105 | with the calls made after the unlock in any order, the observer's last word about a unit is the current one unless its call is under way |
| `Reachability.UpstreamKnownIffOneUnit` | internal/zendure/local/source.go:102-105 | the upstream as last told is current after every finished run exactly when there are not two units: with two, a report can be overtaken and stay wrong |
| `StateStore.Store.SetOnline` | internal/state/state.go:119-127 | stores the flag, and signals every subscription exactly when it changed |
| `StateStore.Store.SetUpstream` | internal/state/state.go:130-138 | the same for the upstream, the first report counting as a change |
| `StateStore.Store.AddProblem` | internal/state/state.go:153-164 | appends, stamps a missing time, drops the oldest beyond twenty, signals |
| `StateStore.Store.Problems` | internal/state/state.go:167-174 | the log reversed, by the in-place reversal of a copy |
| `StateStore.Store.Snapshot` | internal/state/state.go:179-200 | every unit with a report or a reachability once, with its own entries, the profile's after them, and its reachability |
| `StateStore.LatestStands` | internal/state/state.go:89-138 | in every history the latest report, evcc entries and reachability of each unit stand, whatever else came after |
| `StateStore.ListedSpelled` | internal/state/state.go:179-200 | a unit is listed with its report's entries and those of the evcc profile behind them |
| `StateStore.Store.Notify` | internal/state/state.go:221-230 | every channel holds one signal afterwards |
| `StateStore.NotifiesIffChanged` | internal/state/state.go:119-138 | a level notifies exactly when it changes the cache |
| `StateStore.ProblemsNewestFirst` | internal/state/state.go:151-174 | after any history the k-th entry shown is the k-th last addition, twenty at most |
| `StateStore.LogSpelled` | internal/state/state.go:153-164 | up to twenty problems all are there, never more than twenty, and nothing but AddProblem adds one |
| `StateStore.NoWakeUpIsLost` | internal/state/state.go:203-230 | in every interleaving of mutators, notification rounds, subscriptions, cancellations and receivers: who has not seen the current cache has a signal, is about to look, or is still to be signalled |
| `StateStore.AtRestAllHaveSeen` | internal/state/state.go:203-230 | when nothing is left to do every subscriber has seen the current cache |
| `Catalog.Load` | internal/catalog/load.go:20-47 | accepts exactly the catalogs with complete entries and distinct properties and leaves, indexes them, and reports the first fault otherwise |
| `ValuePlain.SoundSpelled` | internal/catalog/load.go:20-47 | accepted are exactly the lists with a property and a known platform in every entry, no property twice and no leaf twice |
| `ValuePlain.OneFirstFault` | internal/catalog/load.go:20-47 | at most one fault can be the one reported |
| `Catalog.NewCatalog` | internal/catalog/catalog.go:158-170 | both indexes, a later entry replacing an earlier one of the same key |
| `Catalog.FoundIffUnshared` | internal/catalog/load.go:34-41 | why duplicates are refused: every entry is found under its key exactly when no two different ones share it |
| `Catalog.LeafLeadsBack` | internal/catalog/catalog.go:175-187 | in an accepted catalog the leaf a property is published on leads back to that property and to no other |
| `ValuePlain.LeafSpelled` | internal/catalog/catalog.go:66-71 | a property is published on its topic where it has one, else on its name |
| `ValuePlain.LastOneIsFound` | internal/catalog/catalog.go:158-170 | of all entries of a key the last is found, wherever it stands |
| `Catalog.CodeForToken` | internal/catalog/catalog.go:107-114 | the first code in the given order whose token matches ignoring case |
| `ValuePlain.FirstCodeIs` | internal/catalog/catalog.go:107-114 | the code found has the token, letter by letter ignoring case, and no code before it does; none is found only where none has it |
| `Catalog.TokensLeadBackIffDifferent` | internal/catalog/catalog.go:99-114 | each code's token leads back to the code exactly when no two tokens agree ignoring case, for every order of the codes |
| `ValuePath.DecodeCommand` | internal/coordinator/coordinator.go:1126-1149 | clamp, unscale, range check and rounding, or the trimmed text |
| `ValuePlain.NumberIsUnscaled` | internal/coordinator/coordinator.go:1140-1147 | a number within its bounds is written as itself times the scale, where there is one, plus the offset, rounded, and refused beyond 64 bits |
| `ValuePlain.NumberIsClamped` | internal/coordinator/coordinator.go:1131-1137 | a number beyond a bound writes what the bound writes |
| `ValuePlain.TextIsTrimmed` | internal/coordinator/coordinator.go:1126-1149 | what is no number is handed on without the white space around it, what is not finite is refused |
| `ValuePath.DecodedIsLimited` | internal/coordinator/coordinator.go:1131-1147 | for every finite payload and every scale, negative ones too, with Min at most Max: the result is the rounded raw value held between the rounded raw bounds |
| `ValuePath.CrossedBoundsWriteTheUpper` | internal/coordinator/coordinator.go:1131-1137 | with Min above Max every payload writes the same value |
| `ValuePath.ReadThenWriteIff` | internal/process/process.go:186-200 | an integer read and written back arrives unchanged exactly when it lies within the rounded raw bounds |
| `ValuePath.ReadThenWrite` | internal/process/process.go:186-200 | always so when its display lies within the bounds |
| `ValuePath.WriteThenRead` | internal/coordinator/coordinator.go:1120-1125 | a written number reads back within half a raw unit of the clamped request, and equal to it exactly when the request is a whole number of raw units |
| `ValuePath.CodeIsCanonical` | internal/process/process.go:216-231 | a value's code is the one decimal spelling of its integer |
| `ValuePlain.CodeSpelled` | internal/process/process.go:216-231 | codes are the whole numbers of 32 bits and the strings that spell one between white space; nothing else has a code |
| `ValuePlain.AtoiSpelled` | internal/process/process.go:219-223 | a whole number is read with either sign or none, up to the ends of 64 bits |
| `ValuePlain.CodeIsPublishedAsToken` | internal/process/process.go:175-185 | a known code is published as its token, no value as none, anything else as it is and marked unmapped |
| `ValuePlain.NumberIsScaled` | internal/process/process.go:186-200 | what is published for a number, times the scale plus the offset, is that number; everything else goes out as it is |
| `ValuePath.TokenThenWrite` | internal/coordinator/coordinator.go:1097-1116 | a mapped value's token, sent back in any case, writes the number that was read, when tokens differ ignoring case |
| `ValuePlain.UnknownWordIsRefused` | internal/coordinator/coordinator.go:1097-1116 | an enumerated property and a text that is no code's token or German label, ignoring case: refused unless it is a finite number, which is written as for a property without tokens |
| `ValuePlain.TokenWritesItsCode` | internal/coordinator/coordinator.go:1097-1108 | a token in any case writes its code, as a number where it spells one, whatever the text may also be |
| `ValuePlain.LabelWritesItsCode` | internal/coordinator/coordinator.go:1097-1108 | so does a German label, unless the text is a token |
| `ValuePlain.StructuredIsRefused` | internal/coordinator/coordinator.go:1098-1100 | a structured payload is refused for every property |
| `ValuePlain.NothingIsSet` | internal/coordinator/coordinator.go:961-983 | nothing reaches the unit for an unknown leaf, a property that is not writable or an unknown word; else one property, the leaf's |
| `ValuePath.WriteThenToken` | internal/coordinator/coordinator.go:1097-1116 | a token that was set is the token the next report publishes |
| `ValuePath.SettingWhatWasReadChangesNothing` | internal/coordinator/coordinator.go:961-983 | for an accepted catalog: the published value sent to the leaf it was published on writes the same property with the value it had |
| `ValuePath.SettingATokenChangesNothing` | internal/coordinator/coordinator.go:961-983 | the same for an enumerated property: its published token, in any case, writes the number it was published for |

## Left out

- Sockets, HTTP, TLS, cloud login, signing, tickers, configuration, logging, translations and the web UI: input and output.
- The internals of the MQTT libraries: command routing, state publishing, JSON rendering and parsing, claim checks of a sweep window; a sweep's window delivers what the model is given.
- DnsMessage.Collector.Result: the order in which a Go map yields its services is arbitrary, so the listing is stated up to order.
- DnsMessage.Collector.IngestRecord: the service name of a PTR record is compared ignoring ASCII case; the Unicode foldings of EqualFold that reach ASCII concern only letters the service name does not have.
- DnsServices.Browse: reads are what a socket brings; the query that is sent first is DnsResponse.BuildQuery, and resolving and opening the socket are left out.
- DnsMessage.Collector.Ensure: a service is a value in the map, written back after a change, where the source shares a pointer.
- DnsServices.BrowseFindsWhatWasSaid: a longer response is cut off at the buffer; what is then found only Browse says.
- EvccDevice.UnitIsRestoredIff: assumes that a refused write changes nothing on the unit, and that nobody else changes the controlled settings meanwhile.
- EvccDevice.UnitIsRestored: assumes that a refused write changes nothing on the unit, that reports are true when they are merged, and that nobody else changes the controlled settings meanwhile.
- EvccDaemon.HoldEndsInTime: the time a pass's earlier writes take is the delay; the order of the turns is any; the tick is any number, where the source takes a quarter of the timeout between one and five seconds.
- EvccHistory.NormalRestores: the times of commands do not matter to it; a restart, which forgets what was saved, begins a new run.
- ParseMode, which trims, ignores case and takes the words and the numbers 1 to 3, and the routing of evcc commands.
- IEEE-754 rounding, NaN and infinities beyond their rejection, and the 64-bit boundary itself: reals are used.
- ValuePath.SettingWhatWasReadChangesNothing: virtual switches, which are looked up before the catalog, are not part of this model.
- ValuePath.TokenThenWrite: the library's search for a token or a German label is taken as tokens first, in the order of the codes.
- Catalog.CodeForToken: the sort of the codes is not modelled, because its comparison is no order on mixed numeric and other codes; the results hold for every order.
- StateStore.Store.Snapshot: the sorting by serial, and the start time.
- StateStore.NoWakeUpIsLost: what a subscription vouches for begins when it is made; that goroutines which can run do run is not stated.
- Reachability.UnitsAreKnown: one poll loop for each serial, as with distinct configured serials.
- Reconcile.SignatureTellsSetsApart: topics are taken to be without line breaks and not empty.
- ObjectId.ObjectIdCanonical: lower-casing is a parameter that must leave [a-z0-9_] alone; one character becomes one character.
- Migration.DeviceSweepExactAndIdempotent: the once-per-process guard, and clearing the single old bridge-status topic, which is the same sweep with an exact match.
- OrphanSweep.SweepDevice: the library's parsing of config topics; a parsed level has no slash and a platform is not called device.
- OrphanSweep.SweepRemovesExactlyOrphans: for an undisturbed sweep; for every interleaving DiscoveryRuns says what is cleared and what stays.
- Ownership.OwnershipNeverCrosses: payloads are taken as already parsed; one that is no JSON is nobody's.
- Discovery.Discovery.PublishOne: the method is for an undisturbed call; its three steps interleave in DiscoveryRuns.
- Discovery.SweepOrphans: the same, and its steps likewise.
- DiscoveryRuns.WrittenIsMissingIff: a library call that writes is one step with its own bookkeeping; what happens inside one, a reconnect between its retractions and its document included, is not modelled.
- Discovery.PublishOnline: the announcements, reachability and cached states written beside the discovery documents.
- Resolving a report into points, owners, topic-safe segments, topic layout and filters: each says little beyond its own body.
