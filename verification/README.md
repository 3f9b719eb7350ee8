# OpenLogi: models and proofs

These modules model the parts of OpenLogi whose correctness is easiest to get
wrong, and prove what the program relies on:

- **The HID++ channel** (`Wire`, `Channel`, `ChannelLife`, `LeaseMask`, `SwIdPool`,
  `SwIds`, `RotatingIds`): requests matched with reports by a read thread that
  runs beside any number of senders, the end of a channel field by field, and
  the process-wide lease of software ids that keeps channels on one shared
  report stream apart. The critical sections are
  methods proved against functions on values; the same functions are the steps
  of machines whose runs are all interleavings.
- **Enumeration** (`ChannelCache`, `ProbeCache`, `OneShotScan`): the life of one
  channel per node across passes and other holders, the memo of probe results,
  and the one-shot retry loop.
- **The configuration** (`Bindings`, `DeviceConfigs`, `Configs`, `Fold`,
  `DeviceParts`, `Adoption`, `TransportMigration`, `TransportMerging`,
  `GestureMigration`, `ThumbwheelMigration`, `LegacyBindings`, `Loading`,
  `LiveConfigs`): which entry a device's settings
  live under, moving them there, and the migrations a loaded file goes through.
  `LiveConfigs.LiveConfig` edits the configuration in place, loop by loop, and
  every method is proved equal to the function the theorems are about.
- **The configuration file** (`Reconcile`, `ConfigStore`): making an edited
  document say what a generated one says, and saving it so that no failure or
  interruption loses the text it must not lose.
- **Small machines** (`Pairing`, `Swipe`, `LightRange`, `DeviceKeys`): the
  pairing session, swipe recognition, light ranges, and the device-key formats.

`Machine`, `Wrappers`, `Arithmetic`, `Queues`, `Text`, `StringOrder` and `Walks`
hold what the others share.

Some promises hold only under a condition the program does not check. There the
code is modelled as it is, a lemma gives an input at which the promise fails,
and the exact condition is proved (condition first, then the input):

- `Wire.CrossMatchExactly`: `Wire.ErrorIndexCrossMatches`, and a run to it: `SwIds.ErrorIndexResolvesTwo`
- `ChannelCache.ReopenedInSamePassExactly`: `ChannelCache.RepeatedCandidateReopensAtOnce`
- `DeviceKeys.PhysicalKeyParsesExactly`: `DeviceKeys.EmptyReceiverKeyIsRefused`
- `Adoption.AwakeFindsTheAdoptedExactly`: `Adoption.FullKeyOutranksTheAdopted`
- `Fold.BroughtRoutesExactly`: `Fold.CanonicalDpiDisplaces`
- `TransportMigration.SelectionIsFinalExactly` and `TransportMigration.TargetIsFinalExactly`: `TransportMigration.NestedKeysAreUnwrappedOnce`
- `TransportMigration.SelectionDanglesExactly`: `TransportMigration.ChasedEntryLosesItsSelection`
- `ThumbwheelMigration.CustomPairsKeptExactly`: `ThumbwheelMigration.InheritedHalfIsReversed`
- `LightRange.EvenStepRoundTripExactly`: `LightRange.EvenStepFailsAtFiftyOne`

The documentation of the thumb-wheel migration says that mixed pairs remain
untouched; what is stored does, but the half a mixed pair inherits is reversed,
and the model follows the code. That of the key migration calls its phase
lossless; an entry whose key holds another direct key can lose its selection,
and `TransportMigration.WrittenKeysSplit` shows that the program writes no such
key.

## Model

| member | source | states |
|---|---|---|
| `Wire.RawRoundTrip` | crates/openlogi-hidpp/src/channel.rs:27-49 | a written message reads back as itself, and no other byte string reads as it |
| `Wire.PingAcceptsExactly` | crates/openlogi-hidpp/src/protocol.rs:60-92 | byte for byte: a ping accepts what starts with its header and the short 1.0 error for it, and nothing else |
| `Wire.FeatureAcceptsExactly` | crates/openlogi-hidpp/src/protocol/v20.rs:129-152 | byte for byte: a feature call accepts what starts with its header and the 2.0 error for it, and nothing else |
| `Wire.DistinctIdsDoNotCrossMatch` | crates/openlogi-hidpp/src/protocol.rs:71-92 | no report is accepted by two requests with different software ids, unless one targets the error feature index |
| `Wire.CrossMatchExactly` | crates/openlogi-hidpp/src/protocol/v20.rs:123-165 | when one report can be accepted by two requests with different ids: exactly when one request's header spells the other's error header |
| `Wire.ErrorIndexCrossMatches` | crates/openlogi-hidpp/src/protocol/v20.rs:123-165 | a report that requests of ids 3 and 5 both accept |
| `Channel.HidppChannel.Register` | crates/openlogi-hidpp/src/channel.rs:233-251 | a request joins the back of the queue |
| `Channel.HidppChannel.DropRequest` | crates/openlogi-hidpp/src/channel.rs:260-267 | a guard takes the first entry of its id out of the queue and nothing else |
| `Channel.HidppChannel.ResolveReport` | crates/openlogi-hidpp/src/channel.rs:576-597 | the read thread takes out and resolves the first request that accepts the report |
| `Channel.HidppChannel.ReadLoop` | crates/openlogi-hidpp/src/channel.rs:555-612 | the queue and the announcements after any stretch of reads, unparsable and failed ones skipped |
| `Channel.HidppChannel.AddListener` | crates/openlogi-hidpp/src/channel.rs:519-528 | a new handle is handed out and its listener is in |
| `Channel.HidppChannel.RemoveListener` | crates/openlogi-hidpp/src/channel.rs:544-551 | the listener is out, and the answer is whether it was in |
| `Channel.NextReadExactly` | crates/openlogi-hidpp/src/channel.rs:555-612 | after any stretch of reads the written form of a message, of either width, is announced next with whether a queued request accepts it and takes the first such request out, and any other read changes nothing |
| `Channel.EveryReportAnnounced` | crates/openlogi-hidpp/src/channel.rs:555-612 | what is told is one announcement for each read that is the written form of a message, in order, and the queue shrinks by exactly those announced as matched |
| `Channel.QueueIsTheUnanswered` | crates/openlogi-hidpp/src/channel.rs:418-466 | in every interleaving the queue holds exactly the calls in flight that no report has answered, each once, and is empty when no send is in flight |
| `Channel.GuardRemovesOnlyItsOwn` | crates/openlogi-hidpp/src/channel.rs:253-267 | a call that ends, however it ends, removes its own entry only and keeps the others in order and untouched |
| `Channel.ReportResolvesTheFirstAccepting` | crates/openlogi-hidpp/src/channel.rs:576-597 | a report resolves the first queued request accepting it and only that, and none exactly when no queued request accepts it |
| `Channel.ResolvedAtMostOnce` | crates/openlogi-hidpp/src/channel.rs:576-597 | over a whole run no request is resolved by two reports |
| `Channel.FinishedStaysFinished` | crates/openlogi-hidpp/src/channel.rs:227-267 | once a call is over its outcome stands and no later report resolves it |
| `Channel.ResponseMatchesRequest` | crates/openlogi-hidpp/src/channel.rs:418-466 | a returned response is a report that arrived, that the request's own predicate accepts, and that resolved this very request |
| `Channel.ListenersHearTheTruth` | crates/openlogi-hidpp/src/channel.rs:600-612 | a listener that is called is told a report that arrived, with `matched` exactly when it resolved a request |
| `Channel.HeardAtMostOnce` | crates/openlogi-hidpp/src/channel.rs:600-612 | no listener hears of one report twice |
| `Channel.EveryoneIsCalledInOrder` | crates/openlogi-hidpp/src/channel.rs:600-612 | when the read thread goes back to reading, the last calls made are one for each of the snapshot, in order, about that report |
| `SwIdPool.Pool.FindFree` | crates/openlogi-hid/src/transport.rs:349-362 | the lowest request id whose bit is clear, or none exactly when all fifteen are set |
| `SwIdPool.Pool.CompareExchange` | crates/openlogi-hid/src/transport.rs:349-362 | the mask gains the one id exactly when it was still the mask loaded |
| `SwIdPool.Pool.TryLease` | crates/openlogi-hid/src/transport.rs:349-362 | whatever other threads write meanwhile, the lease taken is free in the mask it is added to |
| `SwIdPool.Pool.Free` | crates/openlogi-hid/src/transport.rs:364-371 | the mask loses the id, when it is a request id |
| `LeaseMask.MaskIsItsIds` | crates/openlogi-hid/src/transport.rs:349-371 | two masks are equal exactly when they stand for the same ids |
| `ChannelLife.TransportBeforePolicy` | crates/openlogi-hidpp/src/channel.rs:128-176 | whenever the drop of the fields has passed the policy it has passed the transport |
| `ChannelLife.DropKeepsExact` | crates/openlogi-hidpp/src/channel.rs:178-207 | dropping one more field keeps the transport's references exactly those of its field and of the read thread, and a lease alive exactly until its field is dropped |
| `ChannelLife.PolicyIsDroppedLast` | crates/openlogi-hidpp/src/channel.rs:155-160 | once the policy is dropped the read thread is over and nobody refers to the transport |
| `SwIds.MaskIsTheIdsHeld` | crates/openlogi-hid/src/transport.rs:349-392 | in every interleaving the set bits are exactly the ids held, each by one holder, and id 0 is never one |
| `SwIds.NoIdIsShared` | crates/openlogi-hid/src/transport.rs:381-392 | while the read thread of a channel runs or its transport is open, its id is on offer to nobody, held by no opener, and not the id of another such channel |
| `SwIds.LeaseOutlivesTheReader` | crates/openlogi-hidpp/src/channel.rs:128-207 | over all runs an id returns to the mask exactly in the step that drops its channel's policy field, and by then the read thread has exited and the transport has no references |
| `SwIds.ReportResolvesOneChannel` | crates/openlogi-hidpp/src/channel.rs:576-597 | a report seen by every channel on a stream resolves requests of at most one of them, unless the header of one of the two requests spells the error header of the other |
| `SwIds.ErrorIndexResolvesTwo` | crates/openlogi-hidpp/src/channel.rs:576-597 | a run after which one report resolves a request of each of two channels |
| `SwIds.ReportTakesWhatItResolves` | crates/openlogi-hidpp/src/channel.rs:576-597 | a report takes the first accepting request out of a queue, or leaves the queue as it was |
| `RotatingIds.Rotation.GetSwId` | crates/openlogi-hidpp/src/channel.rs:343-362 | one request takes the counter's low nibble and advances the counter |
| `RotatingIds.FifteenInARowDiffer` | crates/openlogi-hidpp/src/channel.rs:113-119 | fifteen requests in a row carry fifteen different ids from 1 to 15 |
| `RotatingIds.ReservedIdExactly` | crates/openlogi-hidpp/src/channel.rs:343-362 | a rotation carries the reserved id 0 exactly in its first request and only when started at a value with low nibble 0 |
| `ChannelCache.Cache.Get` | crates/openlogi-device/src/inventory.rs:220-225 | the active channel of a node, never a retiring one |
| `ChannelCache.Cache.Insert` | crates/openlogi-device/src/inventory.rs:237-256 | a fresh channel takes the slot unless a retiring one still drains there |
| `ChannelCache.Cache.RetireNode` | crates/openlogi-device/src/inventory.rs:261-276 | an active channel becomes retiring, and the answer is whether one did |
| `ChannelCache.Cache.PrepareOpen` | crates/openlogi-device/src/inventory.rs:280-288 | a retiring node may not be opened, and its channel is dropped once nobody else holds it |
| `ChannelCache.Cache.RetireAbsent` | crates/openlogi-device/src/inventory.rs:291-302 | exactly the active nodes not seen retire, and they are counted |
| `ChannelCache.Cache.ReapAbsent` | crates/openlogi-device/src/inventory.rs:304-309 | exactly the unseen retiring channels nobody else holds are dropped |
| `ChannelCache.Cache.PrepareNodes` | crates/openlogi-device/src/inventory.rs:574-651 | a whole pass: the slots it leaves, the channels it serves in order, the failures and the nodes still draining |
| `ChannelCache.ReportsExactly` | crates/openlogi-device/src/inventory.rs:574-651 | the failures are the nodes that were to be opened and failed, and the retiring ones those whose channel was draining at their turn, each in candidate order |
| `ChannelCache.ReportedExactly` | crates/openlogi-device/src/inventory.rs:590-627 | a node is reported failed exactly when a candidate of it failed to open and retiring exactly when one was draining; a node that is no HID++ device is neither |
| `ChannelCache.ServedExactly` | crates/openlogi-device/src/inventory.rs:598-622 | a channel is served to a candidate exactly when one found it cached or opened it |
| `ChannelCache.ServedNext` | crates/openlogi-device/src/inventory.rs:598-622 | each candidate is served at most that one channel, after those before it |
| `ChannelCache.SlotAfterExactly` | crates/openlogi-device/src/inventory.rs:586-627 | a candidate changes its own slot only: emptied once its old channel is quiescent, filled by an open, kept while active |
| `ChannelCache.InsertExactly` | crates/openlogi-device/src/inventory.rs:237-256 | an inserted channel is found unless an old one still drains there, which is kept |
| `ChannelCache.RetireExactly` | crates/openlogi-device/src/inventory.rs:261-276 | a retired channel is no longer found and drains from then on |
| `ChannelCache.Cache.AppendLive` | crates/openlogi-device/src/inventory.rs:475-500 | one served channel for each omitted node that still reports a connection |
| `ChannelCache.EndOfPassExactly` | crates/openlogi-device/src/inventory.rs:291-309 | a node that is gone is forgotten once its channel is quiescent and retires until then, and the others stay |
| `ChannelCache.ForgottenExactly` | crates/openlogi-device/src/inventory.rs:291-309 | over all runs a pass forgets exactly the nodes that are gone and whose channel nobody else refers to, and the channel dies with it |
| `ChannelCache.OneLiveChannelPerNode` | crates/openlogi-device/src/inventory.rs:200-309 | over any run of passes and of holders cloning and dropping, no node ever has two live channels |
| `ChannelCache.OpensOnlyDeadNodes` | crates/openlogi-device/src/inventory.rs:280-288 | a node is opened only when every earlier channel of it is no longer referenced by anyone |
| `ChannelCache.DeadStaysDead` | crates/openlogi-device/src/inventory.rs:200-309 | a channel nobody refers to never comes back |
| `ChannelCache.OmittedNodeIsHeldWhileRetiring` | crates/openlogi-device/src/inventory.rs:475-500 | a run in which a connected node the system omitted is served, held elsewhere, and then retires without being quiescent |
| `ChannelCache.ReopenedInSamePassExactly` | crates/openlogi-device/src/inventory.rs:574-651 | a retiring node is opened in the pass that drops its channel exactly when it is listed again later in that pass |
| `ChannelCache.DistinctCandidatesDeferReopening` | crates/openlogi-device/src/inventory.rs:278-288 | with distinct candidates a retiring node is never opened in the same pass |
| `ChannelCache.RepeatedCandidateReopensAtOnce` | crates/openlogi-device/src/inventory.rs:574-651 | a node listed twice is reopened in the pass that dropped it |
| `ProbeCache.Enumerator.ApplyOutcomes` | crates/openlogi-device/src/inventory.rs:833-859 | the cache, the seen keys and the dirty flag after folding in a pass |
| `ProbeCache.Enumerator.EvictUnseen` | crates/openlogi-device/src/inventory.rs:863-882 | the counters and evictions of a pass, and dirty exactly when a persistable key was evicted |
| `ProbeCache.MissesCountTheStreak` | crates/openlogi-device/src/inventory.rs:863-882 | after any run of passes counters exist for cached keys only, equal the passes missed in a row, and never exceed the grace |
| `ProbeCache.CachedExactly` | crates/openlogi-device/src/inventory.rs:833-882 | a key is cached exactly when it came from the store or a probe and since then was never missing for more passes in a row than the grace |
| `ProbeCache.CachedProbeIsTheLast` | crates/openlogi-device/src/inventory.rs:833-859 | a cached probe is the last one any pass stored for its key |
| `ProbeCache.CachedProbeIsTheStores` | crates/openlogi-device/src/inventory.rs:833-859 | or the one the store kept, if none was |
| `OneShotScan.Enumerate` | crates/openlogi-device/src/inventory.rs:354-445 | the passes made are exactly those up to the first that is complete, repeats a healthy one, fails or is the fourth, whose inventory is returned |
| `DeviceKeys.RuntimeKeyInjective` | crates/openlogi-core/src/device_order.rs:146-166 | two stable ids share a runtime key exactly when they are equal, whatever their uid, serial and node strings hold |
| `DeviceKeys.PhysicalKeyParsesExactly` | crates/openlogi-core/src/device_order.rs:196-255 | a persistent key is accepted back exactly unless it is a receiver key with an empty uid |
| `DeviceKeys.EmptyReceiverKeyIsRefused` | crates/openlogi-core/src/device_order.rs:196-255 | the persistent key of a receiver without a uid is refused |
| `DeviceKeys.ParsesExactly` | crates/openlogi-core/src/device_order.rs:241-330 | a string is read as a device key exactly when it is one of the five kinds of key, part by part |
| `DeviceKeys.KeyedExactly` | crates/openlogi-core/src/device_order.rs:196-222 | which devices have a persistent key: receivers always, the others when their serial, unit or node is named for good |
| `DeviceKeys.DirectFormat` | crates/openlogi-core/src/device_order.rs:146-189 | the key of a cabled device is the key of its route, a colon and the key of its identity |
| `DeviceKeys.OtherFormats` | crates/openlogi-core/src/device_order.rs:146-166 | the receiver, raw and routeless keys as they are written |
| `DeviceKeys.UnkeyedNeverParses` | crates/openlogi-core/src/device_order.rs:196-255 | the runtime key of a device without a persistent key is never accepted as one |
| `DeviceKeys.ParsedIsNotTransient` | crates/openlogi-core/src/device_order.rs:241-263 | no string is both accepted as persistent and reported as transient |
| `DeviceKeys.TransientExactly` | crates/openlogi-core/src/device_order.rs:257-263 | a runtime key reports as transient exactly when its identity is the all-zero unit or an OS node |
| `DeviceKeys.IdentityKeyReads` | crates/openlogi-core/src/device_order.rs:313-322 | an identity's fragment reads as physical exactly when the identity is |
| `DeviceKeys.RoutesAreNotIdentities` | crates/openlogi-core/src/device_order.rs:177-189 | no route key or runtime key is also the bare key of an identity |
| `Text.DecimalRoundTrip` | crates/openlogi-core/src/device_order.rs:278-283 | a slot number parses back to itself, with or without a leading plus |
| `Bindings.BuildButtonBindings` | crates/openlogi-core/src/bindings.rs:41-62 | stored bindings over the seeded defaults, a gesture without a click keeping the default click |
| `Bindings.DispatchedExactly` | crates/openlogi-core/src/bindings.rs:41-62 | every seeded and stored button is dispatched as stored, a gesture keeping its arms and gaining a missing click, or else as its default |
| `Bindings.SingleActionExactly` | crates/openlogi-core/src/bindings.rs:24-39 | the single action of a button: its own, the click of a gesture, the short press of a long one, or the default |
| `Bindings.BuildFilledGesture` | crates/openlogi-core/src/binding/value.rs:154-161 | every direction is bound, and the user's own stay |
| `Bindings.FilledExactly` | crates/openlogi-core/src/binding/value.rs:154-161 | every direction of a filled gesture is bound as the user bound it, or else by default |
| `Bindings.DemoteUndoesUpgrade` | crates/openlogi-core/src/binding/value.rs:124-146 | demoting a promoted binding gives back its plain press |
| `Bindings.ShapeKeepsTheProjection` | crates/openlogi-core/src/bindings.rs:24-62 | promoting or demoting a stored button changes no single action of the projection |
| `DeviceConfigs.MetadataIsNotSettings` | crates/openlogi-core/src/config/device.rs:338-343 | an entry's identity and links never count as settings, and everything else does |
| `StringOrder.LeqExactly` | crates/openlogi-core/src/config/identity.rs:50-63 | the walk order of the entries: a prefix first, otherwise the first different character decides |
| `Fold.FoldMap` | crates/openlogi-core/src/config/identity.rs:374-397 | a map merge in which the canonical side wins key by key |
| `Fold.FoldField` | crates/openlogi-core/src/config/identity.rs:268-281 | an unset value is taken, a different one becomes an override |
| `Fold.FoldInto` | crates/openlogi-core/src/config/identity.rs:247-366 | the whole merged entry, field by field |
| `Fold.IndexedRoutesUndisturbed` | crates/openlogi-core/src/config/identity.rs:247-310 | on every other route the canonical entry indexed, all five effective values it set are unchanged, and only unset ones are filled in |
| `Fold.LegacyValuesOnTheFoldedRouteExactly` | crates/openlogi-core/src/config/identity.rs:253-293 | on the folded route each legacy value stays in force exactly when no earlier override there shadows it; an inversion that was on likewise, and one that was off decides nothing |
| `Fold.BroughtRoutesExactly` | crates/openlogi-core/src/config/identity.rs:247-310 | a route the legacy entry brings along behaves as before exactly when no canonical default displaces a value it left to the device |
| `Fold.CanonicalDpiDisplaces` | crates/openlogi-core/src/config/identity.rs:247-310 | a brought route whose 1600 dpi becomes the canonical 800 |
| `DeviceParts.CanonicalPartWins` | crates/openlogi-core/src/config/identity.rs:247-397 | every separately settable part of the merge is the canonical one where that is set, and the legacy one otherwise |
| `Fold.NothingIsDropped` | crates/openlogi-core/src/config/identity.rs:247-397 | every key of either entry survives, canonical bindings are untouched, and the folded route is indexed |
| `Fold.FoldedLinksExactly` | crates/openlogi-core/src/config/identity.rs:247-293 | the canonical owner and inversion stay, the folded link keeps its capabilities or takes the legacy ones, and every other link is one of the two |
| `Fold.FoldTwice` | crates/openlogi-core/src/config/identity.rs:247-366 | folding the same entry in again changes nothing |
| `Fold.FoldIntoBare` | crates/openlogi-core/src/config/identity.rs:247-366 | an entry without settings takes over all of the legacy ones and behaves like the legacy entry on the folded route |
| `Fold.FoldingDefaultsOnlyIndexes` | crates/openlogi-core/src/config/identity.rs:247-366 | an all-default entry adds its route and nothing else |
| `Adoption.RepairKeepsEveryAnswer` | crates/openlogi-core/src/config/identity.rs:64-144 | repair leaves each route one owner and changes the resolved key of no device, asleep or awake |
| `Adoption.RepairIsIdleExactly` | crates/openlogi-core/src/config/identity.rs:64-81 | repair changes nothing exactly when each route had one owner |
| `Adoption.RepairExactly` | crates/openlogi-core/src/config/identity.rs:64-81 | repair takes away exactly the routes that an entry of a smaller key indexes too, and touches nothing else |
| `Adoption.AwakeReadsExactly` | crates/openlogi-core/src/config/identity.rs:108-132 | a device with an identity reads its own entry, unless that holds nothing and its pre-upgrade entry holds settings |
| `Adoption.AsleepReadsExactly` | crates/openlogi-core/src/config/identity.rs:133-144 | a device without one reads the first entry in key order that indexes its route, if that is a device key, and else the route-derived one |
| `Adoption.AnswerIsWhetherItChanged` | crates/openlogi-core/src/config/identity.rs:175-212 | `adopt_route` returns true exactly when the configuration changed |
| `Adoption.AdoptingAgainIsIdle` | crates/openlogi-core/src/config/identity.rs:175-212 | a repeated adoption returns false and changes nothing |
| `Adoption.AdoptionKeepsOneOwner` | crates/openlogi-core/src/config/identity.rs:181-213 | adoption keeps one owner per route, also when the consumed entry brings links of its own |
| `Adoption.PlainAdoptionExactly` | crates/openlogi-core/src/config/identity.rs:175-208 | an adoption that consumes nothing changes no setting, no override and no other link of any entry: the route moves, with what was measured |
| `Adoption.PlainAdoptionKeepsValues` | crates/openlogi-core/src/config/identity.rs:175-208 | so every entry behaves on every route it indexed and keeps as it did |
| `Adoption.BystandersOfAdoptionExactly` | crates/openlogi-core/src/config/identity.rs:181-213 | when an entry is consumed every bystander is as it was, but for the route and the references |
| `Adoption.ConsumingKeepsOtherRoutes` | crates/openlogi-core/src/config/identity.rs:187-213 | and the canonical entry behaves on its other routes as it did, up to values it had left unset |
| `Adoption.ConsumingOnTheRouteExactly` | crates/openlogi-core/src/config/identity.rs:187-213 | and on the route each consumed value is in force exactly unless an override there shadows it |
| `Adoption.ConsumingJoinsLinks` | crates/openlogi-core/src/config/identity.rs:187-213 | and off the route it has its own links and else the consumed entry's |
| `Adoption.ConsumingTakesParts` | crates/openlogi-core/src/config/identity.rs:187-213 | and every other part is its own where it sets it and else the consumed entry's |
| `Adoption.ReferencesFollow` | crates/openlogi-core/src/config/identity.rs:217-228 | no reference newly dangles, the selection follows a consumed entry, and targets keep their places |
| `Adoption.AsleepFindsTheAdopted` | crates/openlogi-core/src/config/identity.rs:133-144 | after an adoption the sleeping device resolves to the key adopted under |
| `Adoption.AwakeFindsTheAdoptedExactly` | crates/openlogi-core/src/config/identity.rs:108-132 | after it the awake device does too, always for receiver, raw and routeless ones, and for a cabled one exactly unless its full direct key alone still holds settings |
| `Adoption.FullKeyOutranksTheAdopted` | crates/openlogi-core/src/config/identity.rs:108-132 | any cabled device with a setting under its full direct key alone still resolves to that key after adoption |
| `Adoption.OwnKeyIsTheConfigKey` | crates/openlogi-core/src/config/identity.rs:113-118 | the parse filter never drops the key of a reported identity |
| `Adoption.AdoptionCarriesTheSettings` | crates/openlogi-core/src/config/identity.rs:108-213 | when the device reads the route's own entry, the entry read after adoption has the same settings and the same values apply on the route |
| `LiveConfigs.LiveConfig.RepairDuplicateRoutes` | crates/openlogi-core/src/config/identity.rs:64-81 | each route is kept by its first owner in key order only |
| `LiveConfigs.LiveConfig.AdoptRoute` | crates/openlogi-core/src/config/identity.rs:175-212 | the new configuration and the answer, step by step in place |
| `LiveConfigs.LiveConfig.RepointReferences` | crates/openlogi-core/src/config/identity.rs:217-228 | the selection and every host-switch target are rewritten and nothing else |
| `TransportMigration.KeyParts` | crates/openlogi-core/src/config.rs:462-473 | a renamed key is its route, a colon and its new key |
| `TransportMigration.RenamedExactly` | crates/openlogi-core/src/config.rs:462-473 | a key is renamed exactly when it is direct: vendor, product and a device key, to that and out of the route before it |
| `TransportMigration.WrittenKeysSplit` | crates/openlogi-core/src/device_order.rs:146-189 | of the keys the program writes exactly those of cabled devices are renamed, to the key of the identity and out of the key of the route, and none is nested in another |
| `TransportMigration.EntriesAfterExactly` | crates/openlogi-core/src/config.rs:494-513 | the entries afterwards have exactly the keys where the old ones end, a new key that is walked later being renamed on |
| `TransportMigration.EntriesAreFoundUnderTheirNewKeys` | crates/openlogi-core/src/config.rs:458-522 | everything an entry sets and every route it indexes is set and indexed where it ends, with the route it was renamed out of, under the name references get unless it was chased on |
| `TransportMigration.PartsComeFrom` | crates/openlogi-core/src/config.rs:494-513 | nothing is made up: every part of an entry afterwards is as one of the entries that ended there had it |
| `TransportMigration.BystandersStay` | crates/openlogi-core/src/config.rs:494-513 | an entry that is not renamed and where no other ends is left as it was |
| `TransportMigration.LoneEntriesBehaveTheSame` | crates/openlogi-core/src/config.rs:494-513 | an entry that ends where no other does keeps everything but its links and targets, and the same values apply on every route |
| `TransportMigration.TargetsCameFrom` | crates/openlogi-core/src/config.rs:515-521 | each target list is the list of one entry that ended there, renamed |
| `TransportMigration.OnlyUnwrappedKeysAreLeft` | crates/openlogi-core/src/config.rs:458-522 | a renameable key left as entry, selection or target is what a nested key was unwrapped to |
| `TransportMigration.NoneIsLeft` | crates/openlogi-core/src/config.rs:458-522 | without nested keys none is left |
| `TransportMigration.SelectionIsFinalExactly` | crates/openlogi-core/src/config.rs:506-513 | the migrated selection is renameable again exactly when the old one was nested |
| `TransportMigration.TargetIsFinalExactly` | crates/openlogi-core/src/config.rs:515-521 | and so is a migrated target |
| `TransportMigration.NestedKeysAreUnwrappedOnce` | crates/openlogi-core/src/config.rs:462-470 | for every cabled device, its key wrapped in another route leaves a renameable selection behind |
| `TransportMigration.NoNewDangling` | crates/openlogi-core/src/config.rs:458-522 | a dangling reference after the migration dangled before, or the entry it named was chased on |
| `TransportMigration.SelectionDanglesExactly` | crates/openlogi-core/src/config.rs:494-513 | the selection of an entry dangles afterwards exactly when the entry was chased on and no entry ended in its place |
| `TransportMigration.ChasedEntryLosesItsSelection` | crates/openlogi-core/src/config.rs:494-513 | an entry and a key nested in it for which the selection is left dangling |
| `TransportMigration.IdleExactly` | crates/openlogi-core/src/config.rs:458-522 | the migration changes nothing exactly when no mentioned key is renameable |
| `TransportMigration.MigratingAgainIsIdle` | crates/openlogi-core/src/config.rs:458-522 | a second migration changes nothing exactly when the first left no renameable key, so always without nested keys |
| `TransportMerging.MergedEntriesStayInForce` | crates/openlogi-core/src/config.rs:450-457 | whatever entries meet under a new key, each one's dpi, scroll resolution, lighting, smart shift and inversion stay in force on the route they were set for |
| `TransportMerging.CanonicalEntryStaysInForce` | crates/openlogi-core/src/config.rs:498-513 | the entry they meet keeps its own values in force on every route it indexed and none of them came from |
| `TransportMerging.FirstSetterWins` | crates/openlogi-core/src/config.rs:494-513 | where entries meet, every other part is taken from the entry that was there from the start, or else from the smallest key that sets it |
| `LiveConfigs.LiveConfig.MigrateTransportScopedKeys` | crates/openlogi-core/src/config.rs:458-522 | the pass in place: entries moved in key order, folded where they meet, references rewritten |
| `GestureMigration.InferGestureOwner` | crates/openlogi-core/src/config.rs:252-270 | the owner the owner-locked rules infer |
| `GestureMigration.FirstGestureIsFirst` | crates/openlogi-core/src/config.rs:252-259 | no button declared before the inferred one is stored as a gesture |
| `GestureMigration.MigrateDevice` | crates/openlogi-core/src/config.rs:387-437 | the rewritten shapes and stash of one device |
| `GestureMigration.EveryButtonIsDeclared` | crates/openlogi-core/src/binding/button.rs:11-84 | the declaration order lists every button |
| `GestureMigration.RecordedOwnerDecides` | crates/openlogi-core/src/config.rs:387-398 | a recorded off means that nobody gestures, and a recorded button that nobody else does |
| `GestureMigration.UnrecordedOwnerIsTheFirst` | crates/openlogi-core/src/config.rs:252-270 | without a record the first declared button storing a gesture is the only one, or else the dedicated button unless it stores another shape |
| `GestureMigration.OnlyShapesAndStashChange` | crates/openlogi-core/src/config.rs:387-437 | no owner is recorded afterwards, and everything but shapes and stash stays |
| `GestureMigration.StashExactly` | crates/openlogi-core/src/config.rs:399-412 | the stash gains the maps of those who gestured without owning and keeps the others |
| `GestureMigration.OnlyTheOwnerGesturesExactly` | crates/openlogi-core/src/config.rs:387-437 | a button gestures afterwards exactly when it owned the role and is a HID++ source or stores a gesture |
| `GestureMigration.SameGesturesDispatched` | crates/openlogi-core/src/bindings.rs:64-140 | under every app overlay the migrated shapes dispatch the gesture maps the owner lock did, an overlaid OS-hook owner dropping out |
| `GestureMigration.SameSingleActions` | crates/openlogi-core/src/bindings.rs:24-62 | under every app overlay every button's single action is what it was, except a HID++ owner that stored no gesture |
| `GestureMigration.DemotedMapsComeBack` | crates/openlogi-core/src/config.rs:322-357 | turning a demoted button back on restores its map exactly |
| `GestureMigration.OffAndOnRestores` | crates/openlogi-core/src/config.rs:322-357 | off and on again hands back a gesturing button's map exactly |
| `GestureMigration.TurningOnExactly` | crates/openlogi-core/src/config.rs:322-340 | turning on hands a stashed map back, and else keeps what a click did in a full map |
| `GestureMigration.TurningOffExactly` | crates/openlogi-core/src/config.rs:341-357 | turning off keeps the click and stashes the map of a gesturing button, and changes nothing else |
| `GestureMigration.ModeIsWhatWasSet` | crates/openlogi-core/src/config.rs:282-357 | gesture mode afterwards is what was set, for that button alone |
| `LiveConfigs.LiveConfig.SetGestureMode` | crates/openlogi-core/src/config.rs:322-357 | the device's bindings and stash after the switch, everything else untouched |
| `LiveConfigs.LiveConfig.MigrateOwnerLockedGestures` | crates/openlogi-core/src/config.rs:387-437 | every device rewritten in place |
| `LiveConfigs.LiveConfig.EffectiveBindingsOf` | crates/openlogi-core/src/config.rs:594-611 | stored bindings with each overlay entry replacing a whole button |
| `LegacyBindings.Merge` | crates/openlogi-core/src/config/device.rs:499-530 | the merged map of an oldest-schema device |
| `LegacyBindings.MergedExactly` | crates/openlogi-core/src/config/device.rs:499-530 | button by button: the newer binding, else the old gesture map for the gesture button, else the old single action |
| `LegacyBindings.NewerBindingsWin` | crates/openlogi-core/src/config/device.rs:499-530 | a binding of the newer map is never displaced by an old one |
| `LegacyBindings.SinglesProjectAsTheyWere` | crates/openlogi-core/src/config/device.rs:513-530 | each button keeps its own single action |
| `LegacyBindings.OldGesturesDispatchAsTheyWere` | crates/openlogi-core/src/config/device.rs:501-530 | the gesture button keeps its whole map, and its unused single action stays unused |
| `ThumbwheelMigration.MigrateDevice` | crates/openlogi-core/src/config.rs:534-584 | one device's rewritten bindings and overlays |
| `ThumbwheelMigration.NativeStaysNative` | crates/openlogi-core/src/config.rs:534-584 | every profile whose effective pair was the old default has the new default |
| `ThumbwheelMigration.CustomPairsKeptExactly` | crates/openlogi-core/src/config.rs:534-584 | any other profile keeps its pair exactly when each half is its own override or stored in a device pair that was not native |
| `ThumbwheelMigration.InheritedHalfIsReversed` | crates/openlogi-core/src/config.rs:534-584 | a profile overriding one half only has its inherited half reversed |
| `ThumbwheelMigration.UnrelatedIsUntouched` | crates/openlogi-core/src/config.rs:534-584 | a stored device pair that was not native, and every other button, is left alone |
| `ThumbwheelMigration.OnlyTheWheelChanges` | crates/openlogi-core/src/config.rs:534-584 | overlays keep every other button, and a device everything but its two maps |
| `ThumbwheelMigration.MigratingAgainIsIdle` | crates/openlogi-core/src/config.rs:534-584 | a second migration changes nothing |
| `LiveConfigs.LiveConfig.MigrateThumbwheelNativeDirection` | crates/openlogi-core/src/config.rs:534-584 | every device rewritten in place |
| `LiveConfigs.LiveConfig.Migrate` | crates/openlogi-core/src/config/file.rs:262-282 | the passes a version needs, in order, in place |
| `Loading.PassesByVersion` | crates/openlogi-core/src/config/file.rs:262-282 | which passes a file of each version goes through, and in which order |
| `Loading.NewerFilesKeepTheirKeys` | crates/openlogi-core/src/config/file.rs:262-282 | a file of version 5 or newer keeps its keys and references, and a current one everything but duplicate routes |
| `Loading.LoadedRoutesHaveOneOwner` | crates/openlogi-core/src/config/file.rs:262-282 | whatever its version, a loaded configuration indexes each route once |
| `Loading.LoadedKeysAreFinal` | crates/openlogi-core/src/config/file.rs:262-282 | through all passes, a renameable key in a loaded file of version 4 or older is what a nested key was unwrapped to |
| `Loading.LoadingAgainIsIdle` | crates/openlogi-core/src/config/file.rs:262-282 | loading the result as the current version changes nothing |
| `Loading.CurrentFilesLoadAsTheyAreExactly` | crates/openlogi-core/src/config/file.rs:262-282 | a current file is loaded unchanged exactly when no route is indexed twice |
| `Reconcile.ReconcileTable` | crates/openlogi-core/src/config/file.rs:340-356 | stale keys removed, shared ones reconciled where they are, new ones appended |
| `Reconcile.ReconcileItem` | crates/openlogi-core/src/config/file.rs:358-368 | tables reconciled, everything else replaced with a value's decor kept |
| `Reconcile.SaysWhatWasGenerated` | crates/openlogi-core/src/config/file.rs:340-368 | at every path the result says exactly what the generated document says |
| `Reconcile.KeepsTheDecorExactly` | crates/openlogi-core/src/config/file.rs:340-368 | at every path the old decor is kept where both documents have a value, or both a table, and is the generated one elsewhere |
| `Reconcile.KeysKeepTheirOrder` | crates/openlogi-core/src/config/file.rs:340-356 | kept keys stay in order with what is written around them, and the new ones follow with nothing around them |
| `Reconcile.ReconcilingAgainIsIdle` | crates/openlogi-core/src/config/file.rs:340-368 | a second reconciliation changes nothing |
| `ConfigStore.ConfigFile.constructor` | crates/openlogi-core/src/config/file.rs:123-151 | a handle remembers the text it loaded, and owes its copy when the schema is older |
| `ConfigStore.ConfigFile.Save` | crates/openlogi-core/src/config/file.rs:154-214 | the handle, the result and every disk passed through, for every way the file operations can fail |
| `ConfigStore.SaveSucceedsExactly` | crates/openlogi-core/src/config/file.rs:154-214 | a save succeeds exactly when nothing it has to do fails and the file is the text last known |
| `ConfigStore.SuccessfulSaveExactly` | crates/openlogi-core/src/config/file.rs:154-214 | what a successful save leaves at every path: the new text, the copy it owed, and on the first save of a start each backup moved up by one with the replaced text as the newest |
| `ConfigStore.FailuresExactly` | crates/openlogi-core/src/config/file.rs:154-198 | which failure is reported when, and that the handle keeps its source and what it owes |
| `ConfigStore.BackedUpBeforeReplaced` | crates/openlogi-core/src/config/file.rs:199-206 | at every intermediate disk of a first save, a config that is no longer the old text has that text as the newest backup |
| `ConfigStore.CountsAsBackedUpExactly` | crates/openlogi-core/src/config/file.rs:370-383 | a start counts as backed up from the save on whose backup step finished |
| `ConfigStore.OneBackupPerStart` | crates/openlogi-core/src/config/file.rs:370-383 | until the program starts again the backups stay as that save left them |
| `ConfigStore.ConfigFile.BackupExisting` | crates/openlogi-core/src/config/file.rs:386-396 | every disk a rotation passes through, and whether it finished |
| `ConfigStore.OriginalNeverLost` | crates/openlogi-core/src/config/file.rs:154-214 | over any sequence of saves and restarts, whatever fails and at every intermediate disk, the exact pre-migration text is at the config path or its own backup path |
| `ConfigStore.OnlyKnownTextIsReplaced` | crates/openlogi-core/src/config/file.rs:154-171 | with restarts and outside edits between saves, a save replaces only the text the handle last loaded or wrote, with exactly what it rendered, and over any other text changes no file |
| `ConfigStore.RotationKeepsAllButTheOldest` | crates/openlogi-core/src/config/file.rs:386-396 | at every interruption point each generation but the oldest, and the config, is where it was or one further |
| `ConfigStore.FinishedRotation` | crates/openlogi-core/src/config/file.rs:386-396 | a finished rotation moved each generation up by one and put the config first |
| `ConfigStore.RotatedExactly` | crates/openlogi-core/src/config/file.rs:386-396 | a rotation finishes exactly when each step it has to do goes well, and then each generation moved up by one and nothing else changed |
| `ConfigStore.FileNamesDiffer` | crates/openlogi-core/src/config/file.rs:403-425 | the config, its pre-migration copy and its backups never share a file name |
| `Pairing.PairingSession.Drive` | crates/openlogi-device/src/pairing.rs:289-403 | the session after any inputs, whichever register writes fail |
| `Pairing.PairingSession.Run` | crates/openlogi-device/src/pairing.rs:243-286 | the whole transcript: events, register writes and result |
| `Pairing.RunPairing` | crates/openlogi-device/src/pairing.rs:243-273 | the transcript of a run, with or without a receiver found |
| `Pairing.SucceedsExactly` | crates/openlogi-device/src/pairing.rs:315-399 | a run on an opened receiver succeeds with a slot exactly when the first input that ends anything says the device in it is paired |
| `Pairing.FailsExactly` | crates/openlogi-device/src/pairing.rs:315-399 | and fails with each error exactly when that input is one of those it stands for, or with a timeout when none ends it |
| `Pairing.UnopenedFails` | crates/openlogi-device/src/pairing.rs:297-311 | a failed opening write fails the run, whatever follows |
| `Pairing.SearchFails` | crates/openlogi-device/src/pairing.rs:249-256 | a search without a receiver says why and touches no register |
| `Pairing.TranscriptExactly` | crates/openlogi-device/src/pairing.rs:243-403 | the whole transcript: the search, what each input taken calls for, a failure last; the opening registers, one per device a Bolt receiver is told to pair, a cancel on failure and the restored flags |
| `Pairing.PairCommandNamesTheDevice` | crates/openlogi-device/src/pairing.rs:436-448 | the sixteen bytes of a pair command, and that two are the same exactly when address, authentication and entropy are |
| `Pairing.KindExactly` | crates/openlogi-device/src/pairing.rs:416-432 | the kind is the low four bits, and the unknown one unless known |
| `Pairing.OneTerminalEventLast` | crates/openlogi-device/src/pairing.rs:243-286 | exactly one terminal event is sent, last, and it is the pairing exactly when the run succeeds, also when no receiver is found |
| `Pairing.CancelledExactlyOnFailure` | crates/openlogi-device/src/pairing.rs:273-286 | a cancel is written exactly when the session fails, once, to the register of the phase reached, Bolt pairing exactly when a pair command was taken on Bolt |
| `Pairing.AnnouncedExactlyWhenComplete` | crates/openlogi-device/src/pairing.rs:347-362 | a device is announced exactly at the frame that completes its counter, with what the latest frames said |
| `Pairing.AnnouncedAtMostOnce` | crates/openlogi-device/src/pairing.rs:416-432 | no counter is announced twice |
| `Pairing.PasskeyFollowsThePick` | crates/openlogi-device/src/pairing.rs:363-372 | a passkey is typed exactly when the device last picked asks for that, and clicked out otherwise |
| `Pairing.ClicksSpellThePasskey` | crates/openlogi-device/src/pairing.rs:130-141 | ten clicks spell the passkey's ten low bits, the highest first |
| `Swipe.DetectSwipeExactly` | crates/openlogi-core/src/binding/swipe.rs:35-66 | the saturating classifier is the exact 35% rule, except that beyond 61,356,675 it rejects some of what the rule accepts |
| `Swipe.DirectionsExclude` | crates/openlogi-core/src/binding/swipe.rs:35-66 | the rule fits at most one direction |
| `Swipe.SwipeAccumulator.Accumulate` | crates/openlogi-core/src/binding/swipe.rs:116-131 | the travel summed within 32 bits and the direction reported, if any |
| `Swipe.SwipeAccumulator.EndHold` | crates/openlogi-core/src/binding/swipe.rs:136-140 | the hold is over, and a click is reported exactly when it was on and silent |
| `Swipe.OneSwipePerHold` | crates/openlogi-core/src/binding/swipe.rs:116-131 | a hold reports at most one direction, the one the classifier sees in the clamped travel since it began, which is the exact travel whenever that fits 32 bits |
| `Swipe.ClickExactlyWithoutSwipe` | crates/openlogi-core/src/binding/swipe.rs:136-140 | a hold ends in a click exactly when it reported no direction |
| `Swipe.NothingOutsideAHold` | crates/openlogi-core/src/binding/swipe.rs:116-140 | outside a hold motion reports nothing and a release is no click |
| `Swipe.HeldOrNot` | crates/openlogi-core/src/binding/swipe.rs:96-140 | every moment of every run is inside a hold or outside one |
| `LightRange.AcceptedExactly` | crates/openlogi-core/src/device/light.rs:38-62 | a range is accepted exactly when its end is whole positive steps from its start, and percentages stop at 100 |
| `LightRange.ContainsExactly` | crates/openlogi-core/src/device/light.rs:90-96 | the supported values are exactly the grid points |
| `LightRange.QuantizeIsNearest` | crates/openlogi-core/src/device/light.rs:99-112 | snapping finds the nearest supported value, ties upward, despite 16-bit saturation |
| `LightRange.QuantizeMonotone` | crates/openlogi-core/src/device/light.rs:99-112 | snapping keeps order |
| `LightRange.QuantizeIdempotent` | crates/openlogi-core/src/device/light.rs:99-112 | snapping twice is snapping once, and the values it keeps are exactly the supported ones |
| `LightRange.PercentShownExactly` | crates/openlogi-core/src/device/light.rs:126-136 | exactly the supported values have a percentage, the ends are 0 and 100, and no whole percentage is nearer |
| `LightRange.NativeShownExactly` | crates/openlogi-core/src/device/light.rs:116-124 | exactly percentages up to 100 name a value, it is supported, the ends are the ends, and it is within half a step and the rounding of its share |
| `LightRange.NativeMonotone` | crates/openlogi-core/src/device/light.rs:116-124 | a higher percentage never names a lower value |
| `LightRange.FiftyStepsRoundTrip` | crates/openlogi-core/src/device/light.rs:116-136 | with at most 50 steps every supported value survives the way to a percentage and back |
| `LightRange.OddStepRoundTripExactly` | crates/openlogi-core/src/device/light.rs:116-136 | with an odd step every value does exactly when there are at most 100 steps |
| `LightRange.EvenStepRoundTripExactly` | crates/openlogi-core/src/device/light.rs:116-136 | with an even step every value does exactly when there are at most 100 steps and the largest multiple up to half of them of what their number shares with 100 is, in hundredths of a step, under half a step |
| `LightRange.ReadsBackExactly` | crates/openlogi-core/src/device/light.rs:116-136 | over every range, a value survives exactly when its percentage's rounding error, turned back into the range, is under half a step |
| `LightRange.EvenStepFailsAtFiftyOne` | crates/openlogi-core/src/device/light.rs:116-136 | with an even step and 51 steps a value does not |

## Left out

- Fixed-width counters: the request and listener ids of a channel are unbounded numbers, so the wrap of the 64-bit and 32-bit counters is not modelled.
- Concurrency of the in-place classes: they run one critical section or one pass at a time; interleavings are in the machines `Channel`, `SwIds` and `ChannelCache`, whose steps use the same functions.
- Response predicates that do not compare software ids (register access, raw writes): no claim is made for channels that use them on a shared stream.
- TransportMerging.MergedEntriesStayInForce: stated for configurations without nested keys and without link overrides, which files of that age do not have; through a nested key an entry is folded twice, and the second fold can displace what it brought.
- TransportMerging.FirstSetterWins: stated without nested keys, since a chased entry arrives with the key it was last renamed from; where every part comes from is proved for all of them.
- The partially discovered devices of a pairing session and the entries of the configuration are values inside the maps of their classes, replaced rather than updated through references.
- The foreground-app lookup with its executable-name fallback: an app's overlay is a parameter.
- Settings that are only compared and moved (lighting, SmartShift, capabilities, ring layouts, camera controls) are opaque values; the per-unit identifiers stripped from a persisted identity are not part of it.
- Reading and writing TOML text, and the rejection of obsolete fields: documents are trees, a load is a parsed configuration, and rendering is an input that may fail.
- The channel registry, the node ledger and its replay, the probing of devices, and notification parsing: their answers are inputs.
- Building stable ids from routes, with its case folding.
- The receiver search before a pairing session, whose result is an input, and removing a paired device.
- Time: timeouts, hold durations and deadlines are inputs that may come at any point.
- Logging, operating-system calls, the graphical interface and the action catalog: no part of the modelled state, or finite tables with easy claims.
