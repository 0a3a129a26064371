# Verified core of the temporal knowledge graph

A Dafny model of the parts of the graph library whose correctness is hard to see from the code: the
asynchronous event bus, the integrity-hash encoding, Allen's interval algebra, copy-on-write sharing between
frozen rows and nodes, exact numeric equality and index keys, and the loops and caches that must agree with a
simple specification (column scans, recurrence expansion, the ontology token cache, the change-log watch).
`dafny verify dfyconfig.toml` checks everything.

## What is proved

**Event bus** (`EventBus*.dfy`). One step per lock operation, channel operation and atomic access; the dispatcher
inspects one queue per step. Invariants hold over all interleavings of one dispatcher, one closer and any number of
publishing calls. Main results: a batch comes out in priority order and caller order if no *wide* scan (one that may
still look past the most urgent queue) is under way when it raises its first ceiling; for every configuration and
argument list, some call is delivered out of order if and only if the list spans two priorities and, under Block, its
most urgent events fit an empty queue; wake-ups are never lost exactly under the strategies that do not reject
newcomers; a blocked publisher is always let through by dispatcher moves alone; events are conserved; Close can always
be completed, and empties the queues for good. `EventBusPublish` states the same in priority names and says what
becomes of an event under each strategy.

**Integrity-hash bytes** (`ByteStrings`, `PropertyEncoding`, `PropertySlices`, `PropertyHash`, `PropertyLayout`,
`PropertyEquality`, `EqualityForms`). A decoder recovers every value from its encoding followed by anything, exactly
when the lengths keep to the 32-bit bounds; distinct maps have distinct hash bytes whatever order their keys are met
in; the appending code produces that encoding and panics exactly on values nested too deeply; property equality is
equality of encodings after normalising zeros and NaNs. `PropertyLayout` gives every byte of the encoding by
arithmetic on the value, and `EqualityForms` gives equality case by case.

**Interval algebra** (`Allen`, `AllenTable`, `AllenDoors`). Each relation is its definition on endpoints; the table
built from the 21 intervals on seven points is the exact composition of the thirteen relations over all integers, by
order compression; composition is associative and reversed by inversion, also on bit sets.

**Sharing** (`PropertyArrays`, `CompactMeta`, `Rows`, `RowRules`, `Entities`, `Sharing`). Nodes and relationships are
objects whose property slices may share backing arrays that are written in place. The result is `Sharing.Run`: any run
of operations shows the same rows as a world in which nothing is shared, so no write through one entity ever reaches
another, and compact frozen copies read like frozen deep copies. `Rows` is the specification it is proved against;
`RowRules` says field by field what each of its operations does and how long a write lasts, and
`Sharing.WrittenIsRead` carries that over to the shared storage.

**Numbers** (`Dyadic`, `Numbers`, `NumberForms`, `FloatPatterns`, `IndexKeys`, `KeyForms`). Floats are exact dyadic
numbers with the representable sets given concretely and shown to be those of the IEEE 754 bit patterns. Equality
forms, comparison and index keys agree with exact mathematical values for all twelve widths; rounding is to nearest
with ties to even. Keys are given as they are written, and no two values of any type share one.

**Loops and caches** (`ColumnScan`, `ColumnRows`, `ColumnForms`, `Calendar`, `Recurrence`, `RecurrenceDates`,
`OntologyCache`, `OntologyLookups`, `Watch`, `WatchPacing`, `ElementKeys`). Column scans are refused exactly for mixed
numeric columns and otherwise carry the rows, whichever driver runs; numbers are carried exactly unless they are
unsigned integers past the signed range that float64 rounds; expansions hold exactly the instants at which a pattern
applies, stated by civil date and weekday; cached lookups are linearizable as long as the registry takes no label back
that was classified since it was given out, and exactly which rollbacks break that is settled; a watch yields a
gap-free prefix of the log, can always catch up, and doubles its idle wait up to a bound.

## Where the code and its documentation differ

- The comment on the batch ceiling says no inversion is possible (`pkg/graph/events/events.go:311`), and
  `PublishBatch` promises strict priority. A scan that loaded no ceiling before the batch began, or that loaded the
  ceiling of an earlier batch which has since finished, can still serve a later queue first
  (`EventBusInversion.CeilingFreeScanInverts`, `EventBusInversion.StaleCeilingScanInverts`). Exactly which calls can
  be hit is `EventBusCallOrder.BatchCanInvertIff`.
- Under DropLatest a batch whose every event is rejected raises the ceiling and signals nothing; a dispatcher that
  used up its token meanwhile sleeps on non-empty queues (`EventBusWakeup.DropLatestLosesAWakeup`).
- Lengths are written modulo 2^32 without a check, so values beyond the bounds can collide
  (`PropertyEncoding.TruncatedLengthsCollide`). The bounds are exactly those within which a value can be read back
  (`PropertyEncoding.ReadsBackIffSized`); beyond them collisions occur, though not for every value.
- A lookup is said to cache its result only if the registry has not changed (`pkg/graph/ontology/ontology.go:88-89`);
  the code compares the registry's pointer, and a swap is all that empties the cache. A registry also
  takes labels back in place (`pkg/graph/internal/registry/label_registry.go:276-311`) and gives their tokens out
  again: after a failed write the class cached for the label taken back is inherited by the next one
  (`OntologyCache.StaleClassInherited`), and where a transaction's rollback installs the same registry again a lookup
  in flight can refill the emptied cache with the stale class (`OntologyCache.FlushedCacheRefilled`). Which rollbacks
  do harm is `OntologyCache.RollbackGoesWrongIff`; taking back tokens that were not classified since they were given
  out never does (`OntologyCache.UnclassifiedIsSafe`).
- `SetProperties` says it validates its input; a value that is overwritten by a later entry of the same key is
  never validated (`PropertySlices.OverwrittenFaultAccepted`).
- `SetPropertiesCanonicalShared` has no frozen check, so it can change a frozen node; nothing else can
  (`Rows.FrozenRowChangesIff`, with the run `Rows.FrozenNodeChanged`).
- `Relate` is documented to require endpoints above 0; the code also classifies non-empty intervals with negative
  endpoints (`AllenDoors.RelateClosedAsDocumentedIff`, `AllenDoors.NegativeEndpointAccepted`).
- `RelateOpen` is documented to require starts above 0; the code also classifies negative ones
  (`AllenDoors.RelateOpenAsDocumentedIff`, `AllenDoors.NegativeStartAccepted`). It takes the largest instant for
  infinity and calls that exact; it is, except where that instant itself occurs
  (`AllenDoors.RelateOpenIsExactIff`, `AllenDoors.LargestInstantMisread`).

## Model

| member | source | states |
|---|---|---|
| EventBusModel.LevelIsDrainPosition | pkg/graph/events/events.go:643-668 | a queue's level is the position of the event's normalised priority in the drain order |
| EventBusPublish.LevelOfPriority | pkg/graph/events/events.go:44-50 | Critical (2) is level 0, High (1) level 1, Normal (0, or any value from 5 on) level 2, Low (3) level 3 and Deferred (4) level 4, each in both directions |
| EventBusPublish.DrainOrder | pkg/graph/events/events.go:662-668 | the drain order lists the priorities 2, 1, 0, 3, 4 |
| EventBusPublish.CapacityAsConfigured | pkg/graph/events/events.go:364-367 | a queue holds the configured number of events, and 256 if that is not positive |
| EventBusPublish.PublishWithRoom | pkg/graph/events/events.go:517-571 | an event for a queue with room is written at its end and nothing is dropped |
| EventBusPublish.PublishDropLatest | pkg/graph/events/events.go:558-571 | DropLatest on a full queue drops the newcomer and leaves the queue |
| EventBusPublish.PublishDropOldest | pkg/graph/events/events.go:538-557 | DropOldest on a full queue evicts the head and writes the newcomer |
| EventBusPublish.PublishBlock | pkg/graph/events/events.go:521-537 | Block on a full queue wakes the dispatcher and waits with the queue untouched |
| EventBusPublish.FinishedCallSettled | pkg/graph/events/events.go:463-571 | a call about to give the mutex back has had every one of its events accepted or given up on |
| EventBusPublish.IdleScanServes | pkg/graph/events/events.go:680-724 | a scan hands the handlers the head of the most urgent non-empty queue within its limit |
| EventBusInvariants.InvStep | pkg/graph/events/events.go:422-571 | every step of every party keeps the combined invariant: control points and capacities, conservation per queue, acceptance in call order, every passed event accepted or given up on |
| EventBusInvariants.ReachableInv | pkg/graph/events/events.go:422-786 | the invariant holds in every reachable state of every interleaving |
| EventBusOrder.OrderedStep | pkg/graph/events/events.go:463-505 | every step keeps the ordering invariant that links delivered log, queue contents, ceiling and scan position |
| EventBusOrder.CalmBatchDeliveredInOrder | pkg/graph/events/events.go:463-505 | the handlers see the events of a calm batch in non-increasing priority and in caller order within a priority, under any strategy, saturation and competing publishers |
| EventBusPublish.CalmBatchByPriority | pkg/graph/events/events.go:463-505 | in priority names: of a calm batch no High event precedes a Critical one, no Normal a High one, no Low a Normal one and no Deferred a Low one, with values from 5 on as Normal, and events of one priority come in caller order |
| EventBusOrder.ScanWaitsForCalmBatch | pkg/graph/events/events.go:680-724 | no scan gets past a queue before every event the calm batch has for a more urgent queue was enqueued or dropped |
| EventBusInversion.CalmNeverInverts | pkg/graph/events/events.go:463-505 | once a batch is calm, no continuation delivers it out of order |
| EventBusInversion.CeilingFreeScanInverts | pkg/graph/events/events.go:695-710 | a scan that loaded ceiling 0 is reachable as a batch begins, and a run delivers that batch out of order |
| EventBusInversion.StaleCeilingScanInverts | pkg/graph/events/events.go:695-710 | the same for a scan that loaded the ceiling of an earlier, finished batch |
| EventBusCallOrder.LogInCallOrder | pkg/graph/events/events.go:517-571 | events of one priority reach the handlers in call order and, inside a call, in argument order |
| EventBusCallOrder.OneLevelInOrder | pkg/graph/events/events.go:463-505 | a batch of one priority is never delivered out of order, calm or not |
| EventBusCallOrder.PassUnfinished | pkg/graph/events/events.go:521-537 | under Block a first pass with more events than the queue holds does not end before the scan then under way has served or ended |
| EventBusCallOrder.PhasesStep | pkg/graph/events/events.go:463-505 | every step of such a call leads from one safe phase to another |
| EventBusCallOrder.UnexposedInOrder | pkg/graph/events/events.go:463-505 | a call outside the condition is delivered in order in every continuation from every reachable state |
| EventBusCallOrder.ExposedInverts | pkg/graph/events/events.go:463-505 | for a list inside the condition there is a run that delivers the call out of order, under every strategy and capacity |
| EventBusCallOrder.BatchCanInvertIff | pkg/graph/events/events.go:443-505 | for every configuration and argument list, some call is delivered out of order if and only if the list spans two priorities and, under Block, its most urgent events fit an empty queue |
| EventBusWakeup.NoWakeupLostUnlessSilent | pkg/graph/events/events.go:654-659 | with the dispatcher parked, no token, no publisher inside and no signal owed, all queues are empty, as long as every batch wrote something |
| EventBusWakeup.WakeupsLostOnlyUnderDropLatest | pkg/graph/events/events.go:479-537 | that guarantee holds in all reachable states if and only if the strategy is not DropLatest, for every capacity |
| EventBusWakeup.DropLatestLosesAWakeup | pkg/graph/events/events.go:486-500 | under DropLatest a run leads to a sleeping dispatcher in front of queued events |
| EventBusWakeup.DispatcherMakesRoom | pkg/graph/events/events.go:680-724 | from any state of the invariant with a stuck publisher, finitely many dispatcher moves free a slot in the queue it waits for |
| EventBusWakeup.BlockedPublisherIsLetThrough | pkg/graph/events/events.go:521-537 | a publisher blocked on a full queue always has its send enabled after dispatcher moves alone |
| EventBusDelivery.EventsConserved | pkg/graph/events/events.go:517-571 | per priority, accepted equals removed followed by queued; the handlers saw exactly the removals that are not evictions, in order; nothing is accepted twice |
| EventBusDelivery.EvictionIsFollowedByAcceptance | pkg/graph/events/events.go:538-557 | after an eviction the next action of that enqueue writes its own event, also when stopping |
| EventBusDelivery.BlockDeliversEverything | pkg/graph/events/events.go:521-537 | under Block nothing is lost or given up on while the bus runs |
| EventBusDelivery.CloseLeavesNothingQueued | pkg/graph/events/events.go:727-786 | when Close returns the queues are empty and everything accepted was handed out or evicted |
| EventBusDelivery.NothingAcceptedPastGate | pkg/graph/events/events.go:771-786 | once Close has held the publish mutex nothing is accepted in any continuation |
| EventBusDelivery.ClosedForGood | pkg/graph/events/events.go:771-786 | after Close has returned nothing is accepted and nothing handed out, ever |
| EventBusClose.CallLeaves | pkg/graph/events/events.go:517-571 | once stop is closed the call that holds the mutex gives it up after finitely many of its own steps, under every strategy |
| EventBusClose.DispatcherExits | pkg/graph/events/events.go:680-742 | once stop is closed the dispatcher drains and exits after finitely many of its own steps |
| EventBusPublish.StopIsNoticed | pkg/graph/events/events.go:680-724 | once stop is closed the dispatcher hands out at most one more event before it only drains, whatever the publishers do |
| EventBusClose.CloseCompletes | pkg/graph/events/events.go:771-786 | from every reachable state in which Close has begun, steps of the closer, the dispatcher and the call in progress alone complete it |
| Allen.RelateIsEndpointOrder | pkg/types/allen.go:203-232 | two pairs of intervals are related alike if and only if their endpoints are ordered alike |
| Allen.RelateMeans | pkg/types/allen.go:203-232 | thirteen equivalences from each named relation to its definition on endpoints, independent of the order of the cases |
| Allen.RelationCodes | pkg/types/allen.go:25-39 | the relations are numbered from 1 (Before) to 13 (Equals) |
| Allen.InverseCodes | pkg/types/allen.go:119-150 | 1 and 2, 3 and 4 and so on up to 12 are inverse to each other, 13 to itself |
| Allen.KnownCompositions | pkg/types/allen.go:331-363 | Meets with Meets is Before alone, During with During is During alone, and Overlaps with Overlaps is Before, Meets or Overlaps |
| Allen.InverseSwaps | pkg/types/allen.go:119-150 | inverting the relation of A to B gives the relation of B to A |
| Allen.Compress | pkg/types/allen.go:331-354 | any three integer intervals have counterparts on the seven-point timeline with the same three relations |
| Allen.InverseReversesComposition | pkg/types/allen.go:119-150 | a relation composes from r1 and r2 if and only if its inverse composes from the inverses in reverse |
| Allen.EqualsIsNeutral | pkg/types/allen.go:358-363 | composing with Equals changes nothing |
| Allen.Amalgamate | pkg/types/allen.go:331-354 | an interval can be found for any two intervals that stands to them as in a given pattern of three |
| Allen.CompositionIsAssociative | pkg/types/allen.go:358-363 | composition of relations is associative over all integer intervals |
| Allen.SetsAssociate | pkg/types/allen.go:366-380 | composition of relation sets is associative |
| Allen.InverseReversesSets | pkg/types/allen.go:305-313 | inverting a composition of sets is composing the inverted sets in reverse |
| AllenTable.AddIsInsertion | pkg/types/allen.go:249-251 | adding a relation to a bit set inserts exactly it, and nothing for an invalid one |
| AllenTable.UnionIsUnion | pkg/types/allen.go:254-256 | union of bit sets is union of their members |
| AllenTable.ResultsAreClean | pkg/types/allen.go:249-256 | adding and uniting clear the bits beyond the thirteen |
| AllenTable.CleanWordsEqual | pkg/types/allen.go:234-256 | clean words are equal if and only if they stand for the same relations; the loops return clean words |
| AllenTable.InverseSet | pkg/types/allen.go:305-313 | the loop over the thirteen bits inverts exactly the members |
| AllenTable.Timeline | pkg/types/allen.go:336-342 | the nested loops list every interval on the seven points |
| AllenTable.TimelineSuffices | pkg/types/allen.go:331-354 | a table filled from all timeline triples is the composition over all integers |
| AllenTable.BuildCompositionTable | pkg/types/allen.go:331-354 | the init loops fill each cell with exactly the relations that some integer triple realises |
| AllenTable.Compose | pkg/types/allen.go:358-363 | the lookup returns exactly the composition, and the empty set for invalid relations |
| AllenTable.BitCodes | pkg/types/allen.go:234-251 | relation r is bit r - 1 of a set |
| AllenTable.MembersMean | pkg/types/allen.go:234-256 | the members of a set are the relations whose bit is set |
| AllenTable.TableIsSound | pkg/types/allen.go:331-354 | the cell of the relations of A to B and of B to C holds the relation of A to C, for all integer intervals |
| AllenTable.TableIsExact | pkg/types/allen.go:331-354 | every relation in a cell is realised by three integer intervals, which are given |
| AllenTable.ComposeRow | pkg/types/allen.go:372-377 | the inner loop adds the compositions of one relation with all members |
| AllenTable.ComposeSets | pkg/types/allen.go:366-380 | the nested loops return the composition lifted to sets by union |
| AllenTable.SetsMean | pkg/types/allen.go:366-380 | a relation is in the composition of two sets if and only if three intervals realise it with members of both |
| AllenDoors.RelateClosedAccepts | pkg/types/allen.go:163-171 | which inputs are classified: the documented ones and, beyond them, exactly the usable ones with a negative endpoint; swapping the intervals inverts the answer |
| AllenDoors.RelateClosedAsDocumentedIff | pkg/types/allen.go:160-171 | acceptance is as documented if and only if the input is not usable or has no negative endpoint |
| AllenDoors.NegativeEndpointAccepted | pkg/types/allen.go:163-171 | a classified input with negative endpoints |
| AllenDoors.RelateOpenAccepts | pkg/types/allen.go:173-200 | which inputs are classified: the documented ones and, beyond them, exactly the usable ones with a negative start; swapping the intervals inverts the answer |
| AllenDoors.RelateOpenAsDocumentedIff | pkg/types/allen.go:173-200 | acceptance is as documented if and only if the input is not usable or has no negative start |
| AllenDoors.NegativeStartAccepted | pkg/types/allen.go:183-200 | a classified open interval with a negative start |
| AllenDoors.AnyInfinity | pkg/types/allen.go:183-200 | any number beyond all instants gives the same answers for open ends |
| AllenDoors.RelateOpenIsExactIff | pkg/types/allen.go:183-200 | with the largest instant for infinity the answers are exact if and only if no open interval starts there and no open interval meets one closed there |
| AllenDoors.LargestInstantMisread | pkg/types/allen.go:183-200 | two inputs at the largest instant that are misread |
| AllenDoors.ClosedAnswers | pkg/types/allen.go:163-171 | an endpoint of 0 is reported first, then an empty interval; every other input gets the relation of its intervals |
| AllenDoors.OpenAnswers | pkg/types/allen.go:183-200 | a start of 0 is reported first; ends of 0 read as the largest 64-bit instant, and non-empty intervals get their relation |
| Dyadic.RoundingExactIffFits | pkg/types/property_equal.go:141-171 | rounding to p bits and a least exponent is exact if and only if the number is representable |
| Dyadic.RoundedIsNearest | pkg/types/property_equal.go:141-171 | no representable number is nearer than the rounded one |
| Dyadic.TiesToEven | pkg/types/property_equal.go:141-171 | of two representable numbers equally near, the even multiple of their common step is taken |
| Numbers.IntToFloat64ExactIff | pkg/types/property_equal.go:115-139 | an integer survives conversion to float64 if and only if it is representable |
| Numbers.Float32ExactIff | pkg/types/property_equal.go:164-171 | a float survives narrowing to float32 if and only if it is representable |
| Numbers.FormsAreTheEqualValues | pkg/types/property_equal.go:54-205 | the forms listed for a number are exactly the stored values of any width with the same exact value |
| Numbers.FormsDistinct | pkg/types/property_equal.go:54-205 | no form is listed twice and there are at most twelve |
| Numbers.CompareNumberIsExact | pkg/types/property_equal.go:221-308 | the comparison returns the sign of the exact difference for every width and float, and declines exactly on NaN and non-numbers |
| NumberForms.ComparedWithFinite | pkg/types/property_equal.go:221-308 | -1, 0 or 1 as the integer or float is below, equal to or above the finite float, as numbers |
| NumberForms.ComparedWithOthers | pkg/types/property_equal.go:221-308 | infinities lie beyond all other numbers and equal themselves; NaN and non-numbers compare with nothing |
| NumberForms.SameNumbers | pkg/types/property_equal.go:211-216 | when two stored values are the same number, pair of types by pair of types |
| NumberForms.IntegerRanges | pkg/types/property_equal.go:173-205 | the ranges of the ten integer types as literals |
| FloatPatterns.PatternsAreRepresentable | pkg/types/property_hash.go:153-166 | every bit pattern of either width denotes a NaN, an infinity or a number of the representable set |
| FloatPatterns.RepresentableHasBits | pkg/types/property_hash.go:153-166 | every number of the representable set, every infinity and NaN is denoted by a bit pattern |
| FloatPatterns.EqualPatternsDenoteTheSame | pkg/types/propertyslice.go:739-745 | patterns compare equal if and only if they denote the same float, all NaNs being one |
| NumberForms.PatternsOfOne | pkg/types/property_hash.go:153-166 | the bit patterns of 1.0 in both widths denote the number one |
| IndexKeys.FaithfulRendererExists | pkg/types/propertyslice.go:530-533 | what is assumed of the float rendering can be met |
| IndexKeys.NumberKeysInjective | pkg/types/propertyslice.go:461-533 | two numbers have the same key if and only if they are the same value of the same width |
| KeyForms.KeysInjective | pkg/types/propertyslice.go:461-533 | two values that have keys, strings, temporals, bools and numbers of any width, have the same key if and only if they are the same value |
| KeyForms.TextKeys | pkg/types/propertyslice.go:463-516 | a string is written "s:" and itself, the bools "b:true" and "b:false", and nil and composite values have no key |
| KeyForms.TemporalKeys | pkg/types/propertyslice.go:465-471 | a temporal value is written "tv:", its kind in decimal, a colon and its text |
| KeyForms.IntegerKeys | pkg/types/propertyslice.go:472-491 | each of the ten integer types has its own literal prefix before the decimal number |
| KeyForms.FloatKeys | pkg/types/propertyslice.go:492-507 | zeros and NaNs are written "0" and "nan" and other floats as rendered, after "f32:" or "f64:" |
| KeyForms.DecimalText | pkg/types/propertyslice.go:520-528 | decimal text digit by digit, with a minus sign for negative numbers |
| KeyForms.KeysNotEmpty | pkg/types/propertyslice.go:461-519 | exactly nil and composite values have the empty key |
| KeyForms.CanonicalIntegerKeys | pkg/types/property_equal.go:315-334 | the canonical key of an integer is one literal prefix and its decimal text, whatever its width |
| IndexKeys.EqualIndexKeys | pkg/types/property_equal.go:91-103 | the loop returns exactly the keys under which an equal number can be stored, each once, at most twelve; a string, bool or temporal gives exactly its own key, nil and composites none |
| IndexKeys.NumericEqualIsExact | pkg/types/property_equal.go:211-216 | numeric equality holds if and only if the exact values are equal; NaN equals nothing |
| IndexKeys.EqualIndexKeysExact | pkg/types/property_equal.go:91-103 | the keys are exactly the keys of equal values, each once, at most twelve |
| IndexKeys.CanonicalKeyIdentifiesIntegers | pkg/types/property_equal.go:315-334 | canonical keys of integers of any widths coincide if and only if the integers are equal |
| IndexKeys.CanonicalKeyKeepsOthers | pkg/types/property_equal.go:315-334 | string, temporal, bool and float keys are left unchanged and differ from every integer key |
| IndexKeys.CanonicalKeyIdempotent | pkg/types/property_equal.go:315-334 | canonicalising twice is canonicalising once, for every string |
| ByteStrings.CollectSorted | pkg/types/property_hash.go:246-250 | keys collected in any order and sorted are the one ascending enumeration of the key set |
| ByteStrings.EnumerationUnique | pkg/types/property_hash.go:246-250 | a key set has only one ascending enumeration |
| PropertyEncoding.RoundTrip | pkg/types/property_hash.go:113-301 | from the encoding of a value followed by anything the decoder recovers the value and the rest |
| PropertyEncoding.EncodingIsInjective | pkg/types/property_hash.go:47-301 | the encoding is injective and self-delimiting; nil and empty containers, widths and float bits are kept apart |
| PropertyEncoding.DecodedIsSized | pkg/types/property_hash.go:113-301 | whatever the bytes, only values within the length bounds can be read from them |
| PropertyEncoding.ReadsBackIffSized | pkg/types/property_hash.go:113-301 | a value reads back from its encoding if and only if its lengths keep to the bounds |
| PropertyEncoding.TruncatedLengthsCollide | pkg/types/property_hash.go:167-169 | two distinct values beyond the bounds have the same encoding |
| PropertyHash.AppendAll | pkg/types/property_hash.go:233-240 | the element loop appends the encodings of all elements, or panics exactly if one is too deep |
| PropertyHash.AppendPairs | pkg/types/property_hash.go:241-255 | the key loop appends keys and values in ascending key order, or panics exactly if a value is too deep |
| PropertyHash.AppendFlat | pkg/types/property_hash.go:126-232 | every value without nested values is appended as encoded |
| PropertyHash.AppendValue | pkg/types/property_hash.go:113-297 | the code appends exactly the encoding, whose bytes the layout lemmas give, and panics if and only if something is nested more than 32 deep |
| PropertyLayout.FirstByteOfScalar | pkg/types/property_hash.go:13-40 | the first byte of nil, of each scalar type, of strings, custom and temporal values as a literal |
| PropertyLayout.FirstByteOfContainer | pkg/types/property_hash.go:13-40 | the first byte of each container type, nil or not, as a literal |
| PropertyLayout.OneByteScalar | pkg/types/property_hash.go:126-166 | bools, int8 and uint8 take one byte, the negative ones in two's complement |
| PropertyLayout.TwoByteScalar | pkg/types/property_hash.go:126-166 | int16 and uint16 take two bytes, the more significant one first |
| PropertyLayout.FourByteScalar | pkg/types/property_hash.go:126-166 | byte i of a four-byte scalar is (n mod 2^32) / 256^(3 - i) mod 256 |
| PropertyLayout.EightByteScalar | pkg/types/property_hash.go:126-166 | byte i of an eight-byte scalar is (n mod 2^64) / 256^(7 - i) mod 256 |
| PropertyLayout.LengthBytes | pkg/types/property_hash.go:167-169 | a length is written as four bytes, the most significant first, modulo 2^32 |
| PropertyLayout.FlatLayout | pkg/types/property_hash.go:126-301 | strings are four length bytes and their own bytes; nil containers four bytes 255; temporal and custom values their parts in order |
| PropertyLayout.SliceLayout | pkg/types/property_hash.go:170-240 | slices are their count and their elements one after the other |
| PropertyLayout.ElementKinds | pkg/types/property_hash.go:170-232 | the scalar type in which each typed slice writes its elements |
| PropertyLayout.BelowMeans | pkg/types/property_hash.go:246-250 | the key order: a proper prefix first, otherwise the smaller byte at the first difference |
| PropertyLayout.MapLayout | pkg/types/property_hash.go:241-255 | a map is its count, then keys and values with the keys ascending in that order |
| PropertyLayout.TextMapLayout | pkg/types/property_hash.go:256-275 | the same for maps of strings |
| PropertyLayout.EntriesLayout | pkg/types/property_hash.go:305-312 | a property slice is keys and values one after the other, without a count |
| PropertyLayout.AppendedInt | pkg/types/property_hash.go:113-136 | for an int the code appends the byte 2 and eight bytes in two's complement |
| PropertyLayout.AppendedText | pkg/types/property_hash.go:113-169 | for a string the code appends the byte 14, four length bytes and its own bytes |
| PropertyHash.HashNeedsRecover | pkg/types/property_hash.go:314-351 | the early-exit walk asks for a guard exactly if hashing would panic or a temporal or custom value is inside |
| EqualityForms.OpaqueIffReachable | pkg/types/property_hash.go:314-351 | a temporal or custom value counts as inside exactly if a chain of lists and maps leads to it |
| PropertyHash.EntriesRoundTrip | pkg/types/property_hash.go:305-312 | a slice is recovered from its hash bytes although no count is written |
| PropertyHash.AppendHashBytes | pkg/types/property_hash.go:305-312 | the loop appends keys and values of all entries in order |
| PropertyHash.HashBytesCoverContents | pkg/types/property_hash.go:305-312 | two sorted slices have equal hash bytes if and only if they stand for the same map |
| PropertyHash.MapBytesInjective | pkg/types/propertyslice.go:1213-1245 | the hash bytes of two maps agree if and only if the maps do, floats compared by bits |
| PropertyHash.HashMap | pkg/types/propertyslice.go:1213-1245 | building and hashing a map depends on no iteration order, and a map that passes validation never makes hashing panic |
| PropertyEquality.FloatEqualIffCanonical | pkg/types/propertyslice.go:739-745 | numeric float equality with all NaNs alike is equality of bit patterns after normalising |
| PropertyEquality.MagnitudeIncreases | pkg/types/propertyslice.go:739-745 | unsigned float patterns denote strictly increasing numbers |
| PropertyEquality.EqualScalars | pkg/types/propertyslice.go:560-581 | the element loop decides equality of normalised slices |
| PropertyEquality.EqualMaps | pkg/types/propertyslice.go:598-614 | comparing sizes and the first map's entries decides equality of normalised maps |
| PropertyEquality.ValuesEqual | pkg/types/propertyslice.go:543-618 | property equality holds if and only if the normalised values are the same |
| EqualityForms.EqualIffAlike | pkg/types/propertyslice.go:543-618 | that is so if and only if the values are of one type and equal case by case: scalars bit by bit except that NaNs are alike and zeros are alike, lists element by element, maps entry by entry |
| PropertyEquality.EqualIffEncodingsAgree | pkg/types/propertyslice.go:534-545 | that is so if and only if the normalised encodings coincide |
| PropertySlices.SortedSliceUnique | pkg/types/propertyslice.go:73-75 | a map has one sorted slice |
| PropertySlices.LookupAtPosition | pkg/types/propertyslice.go:236-242 | looking a key up at its sorted position is looking it up in the map |
| PropertySlices.InsertedContents | pkg/types/propertyslice.go:115-117 | inserting at the sorted position binds the key and keeps the rest |
| PropertySlices.RemovedContents | pkg/types/propertyslice.go:1128-1130 | removing an index unbinds its key and keeps the rest |
| PropertySlices.SearchKey | pkg/types/propertyslice.go:221-232 | the binary search finds the sorted position |
| PropertySlices.Validate | pkg/types/propertyslice.go:761-838 | the recursive check accepts exactly the values nested at most 32 deep |
| PropertySlices.RefusedValues | pkg/types/propertyslice.go:761-838 | a value is refused if and only if 33 of its lists and maps lie inside one another, around a further value |
| PropertySlices.RefusedKeys | pkg/types/propertyslice.go:91-100 | exactly the empty key and the keys that start with "tkg_" are refused, each with its own fault |
| PropertySlices.RefusedEntries | pkg/types/propertyslice.go:91-106 | an entry is refused for its key first and then for its value |
| PropertySlices.NewPropertySlice | pkg/types/propertyslice.go:1213-1245 | succeeds exactly if no entry is faulty, then holds exactly the map sorted; a refusal names the fault of some entry |
| PropertySlices.CanonicalPropertySlice | pkg/types/propertyslice.go:1151-1199 | both paths give what setting the entries from left to right gives, with the exact acceptance condition |
| PropertySlices.CanonicalAcceptsIff | pkg/types/propertyslice.go:1151-1199 | accepted are exactly the inputs with fine keys whose last value of each key is acceptable |
| PropertySlices.LastEntryIsContent | pkg/types/propertyslice.go:1151-1199 | the last entry of a key is what the map binds it to |
| PropertySlices.ContentHasLastEntry | pkg/types/propertyslice.go:1151-1199 | every binding of the map is the last entry of its key |
| PropertySlices.OverwrittenFaultAccepted | pkg/types/propertyslice.go:1180-1183 | inputs that are accepted here and refused entry by entry |
| PropertyArrays.Set | pkg/types/propertyslice.go:91-119 | the in-place insertion or overwrite updates the map the slice stands for and keeps it sorted, in the same array or a new one |
| PropertyArrays.Delete | pkg/types/propertyslice.go:1117-1132 | the in-place removal takes exactly the key out of the map and says whether it was there |
| PropertyArrays.Get | pkg/types/propertyslice.go:236-242 | the lookup agrees with the map |
| CompactMeta.DecodeHash | pkg/internal/hash32/hash32.go:13-26 | accepts exactly 64 lower-case hex digits and returns the 32 bytes they spell |
| CompactMeta.HexInjective | pkg/internal/hash32/hash32.go:36-40 | rendered hashes are canonical and distinct for distinct bytes |
| CompactMeta.HashDigits | pkg/internal/hash32/hash32.go:13-40 | the sixteen digits are 0 to 9 and a to f, and a canonical hash is 64 of them |
| CompactMeta.HexAt | pkg/internal/hash32/hash32.go:36-40 | the digits of byte i are its high and its low half, at positions 2i and 2i + 1 |
| CompactMeta.CompactNode | pkg/types/compact.go:91-97 | packs exactly the metadata that some compact form rebuilds, into that form |
| CompactMeta.CompactRel | pkg/types/compact.go:63-77 | packs exactly when nothing would be lost, and then rebuilding restores both records |
| CompactMeta.Pack | pkg/types/compact.go:130-143 | node or relationship records are packed exactly when nothing is lost, and the compact form rebuilds both |
| CompactMeta.RebuiltRelFits | pkg/types/compact.go:81-87 | everything a compact relationship form rebuilds would pack again |
| CompactMeta.FittingRecords | pkg/types/compact.go:54-59 | exactly the records with nothing beyond the three instants fit |
| CompactMeta.RebuiltRecords | pkg/types/compact.go:79-97 | what a compact form rebuilds, field by field |
| CompactMeta.AccessorsIgnoreTheForm | pkg/types/valid_axis.go:82-124 | valid range, transaction stamps and the start on any axis depend only on the metadata the form stands for |
| CompactMeta.StartCases | pkg/types/temporal.go:152-162 | a row starts at its claimed valid-from, else at its TxFrom, else at its UpdatedAt, else at the mint instant |
| Rows.OthersUntouched | pkg/types/node.go:205-279 | an operation changes no row but the one it names, loses no row and thaws none |
| Rows.FrozenRowChangesIff | pkg/types/node.go:229-235 | a frozen row changes if and only if it is a node's and a different slice is installed on it by the unchecked setter |
| Rows.FrozenNodeChanged | pkg/types/node.go:229-235 | a run from the empty store in which a frozen node changes |
| Rows.FrozenRowsFixed | pkg/types/node.go:205-279 | through any run without that setter on it a frozen row stays as it is |
| Rows.CompactIsCopyThenFreeze | pkg/types/compact.go:99-184 | a compact frozen copy shows what a deep copy that is then frozen shows |
| Rows.OwnedSliceInstalledOnce | pkg/types/node.go:237-257 | an owned slice can be installed once; a second use leaves the node without properties |
| RowRules.SetPropertyRule | pkg/types/node.go:270-279 | an accepted write binds the key and keeps every other key, field and row; a refused one changes nothing |
| RowRules.DeletePropertyRule | pkg/types/node.go:370-379 | an accepted removal takes out exactly the key; a refused one changes nothing |
| RowRules.SetPropertiesRule | pkg/types/node.go:205-219 | an accepted replacement leaves exactly the contents of the slice; a refused one changes nothing |
| RowRules.SettersRule | pkg/types/node.go:569-577 | version, temporal and integrity setters replace their field of an unfrozen row and nothing else |
| RowRules.InstallRule | pkg/types/node.go:229-235 | the unchecked setter installs the slice on a node, frozen or not, and changes nothing else |
| RowRules.OwnedRule | pkg/types/node.go:237-257 | an owned slice moves into an unfrozen row and is used up; a frozen row refuses and keeps it |
| RowRules.CopyRule | pkg/types/compact.go:99-184 | a compact copy and a deep copy add a row with every field of the original, frozen and not |
| RowRules.AliasRule | pkg/types/node.go:440-445 | the alias of a frozen node is the row's properties; other rows give none |
| RowRules.WriteLasts | pkg/types/node.go:205-445 | after any run, an accepted write is still there at the end of every continuation that does not touch that key of that row again |
| RowRules.DeleteLasts | pkg/types/node.go:205-445 | the same for an accepted removal |
| Entities.Entity.OwnProperties | pkg/types/node.go:261-266 | the node ends with an array of its own and shows the same |
| Entities.Entity.SetProperty | pkg/types/node.go:270-279 | without error the row binds the key to the value and is otherwise as before; with one it is unchanged; the array is written only if it is private |
| Entities.Entity.DeleteProperty | pkg/types/node.go:370-379 | without error the key is gone and all else kept; with one the row is unchanged; found tells whether it was there; the array is written only if it is private |
| Entities.Entity.SetProperties | pkg/types/node.go:205-219 | without error the properties are the contents of the given slice; with one the row is unchanged; no existing array is written |
| Entities.Entity.SetPropertiesCanonicalShared | pkg/types/node.go:229-235 | aliases the slice, marks the node as sharing, checks nothing |
| Entities.Entity.SetOwnedProperties | pkg/types/node.go:241-257 | moves the slice in, or refuses on a frozen node without consuming it |
| Entities.Entity.SetTemporal | pkg/types/node.go:569-577 | replaces the metadata, or panics on a frozen node and changes nothing |
| Entities.Entity.CompactFrozenCopy | pkg/types/compact.go:149-184 | the copy is frozen, shares the array and shows the same; the source shows the same and is marked; metadata is compact exactly when it fits |
| Entities.Entity.DeepCopy | pkg/types/node.go:707-735 | the copy is mutable, in ordinary form, with its own array, and shows the same |
| Entities.Entity.GetProperty | pkg/types/node.go:282-287 | the lookup returns the value the row shows, or none |
| Entities.Entity.GetTemporal | pkg/types/node.go:488-501 | the metadata shown, whichever form holds it |
| Entities.Entity.GetIntegrity | pkg/types/node.go:585-597 | the integrity record shown, whichever form holds it |
| Entities.Entity.GetStamps | pkg/types/valid_axis.go:91-106 | range, stamps and start read off the row equal those of the metadata shown |
| Sharing.World.SharersAreMarked | pkg/types/node.go:37-40 | of two entities with one backing array each is frozen or marked as sharing |
| Sharing.World.Put | pkg/types/node.go:270-279 | a property write through one entity changes that row only, whatever arrays are shared |
| Sharing.World.AddCompact | pkg/types/compact.go:149-184 | a compact copy adds a frozen row and changes no other |
| Sharing.World.AddAlias | pkg/types/node.go:440-445 | the slice handed out for a frozen node stands for that row's properties and its array is never written again; other nodes hand out nothing |
| Sharing.World.Share | pkg/types/node.go:229-235 | installing a shared slice changes that row only and keeps the sharing invariant |
| Sharing.World.Do | pkg/types/relationship.go:153-210 | every operation on shared storage, of nodes and relationships, has exactly the effect it has on unshared rows, and keeps the sharing invariant |
| Sharing.Run | pkg/types/node.go:205-445 | any run of operations shows the rows of the same run on values that share nothing |
| Sharing.ReadAfter | pkg/types/node.go:282-287 | a property read after any run on shared storage is what the unshared row binds |
| Sharing.WrittenIsRead | pkg/types/node.go:270-287 | what was written is read back, however storage was shared before and after the write |
| ColumnScan.AlignTyped | pkg/graph/store/column_batch_build.go:336-355 | pads the slice of the column's kind with its zero and touches nothing else |
| ColumnScan.AddCell | pkg/graph/store/column_batch_build.go:63-106 | after each cell the column stands for the cells so far: nulls, values, padding before the kind was known, marks |
| ColumnScan.MixedSnoc | pkg/graph/store/column_batch_build.go:77-90 | the local test refuses exactly when the column so far becomes mixed |
| ColumnScan.AddRow | pkg/graph/store/column_batch_build.go:54-106 | a row is added to every column, or refused exactly if some column becomes mixed |
| ColumnScan.Flush | pkg/graph/store/column_batch_build.go:276-285 | sealing makes every slice as long as the batch with every cell in its place; the reset buffers start the next batch |
| ColumnScan.Scan | pkg/graph/store/column_batch_build.go:31-120 | the batches hold the rows in order, with nulls, values and outside marks exactly as the rows have them; the scan ends early exactly at a full batch the callback declines, is refused only for a mixed column, and is otherwise complete |
| ColumnScan.ScanAll | pkg/graph/store/column_batch_build.go:31-120 | with a callback that never declines, refused if and only if numbers of both kinds meet in a column, and otherwise complete |
| ColumnRows.ClassifiedIsExactIff | pkg/graph/store/column_batch_build.go:391-433 | the column carries the stored number if and only if it is no unsigned integer past the signed range that float64 rounds |
| ColumnRows.LargeUintIsRounded | pkg/graph/store/column_batch_build.go:428-433 | 2^63 + 1 is carried rounded |
| ColumnRows.ClassifiedKinds | pkg/graph/store/column_batch_build.go:391-425 | which values are column scalars and of which kind |
| ColumnRows.ReadRow | pkg/graph/store/column_batch_build.go:63-71 | the property loop classifies every requested property: missing, held outside, or a scalar |
| ColumnRows.ScanStored | pkg/graph/store/column_batch_build.go:158-257 | the scan over stored rows hands out the batches of the classified rows, with the refusal and early end of Scan |
| ColumnRows.DriversAgree | pkg/graph/store/column_batch_build.go:467-649 | batches of the same rows from any two drivers agree in ids, kinds, values, nulls and outside marks |
| ColumnRows.UnreportedAgrees | pkg/graph/store/column_batch_build.go:486-530 | a source that does not report outside cells hands out the same columns without marks |
| ColumnRows.CarriedIsStored | pkg/graph/store/column_batch_build.go:95-105 | an entry that is not null is the stored number exactly unless float64 rounds it |
| ColumnForms.BatchIsRead | pkg/graph/store/column_batch_build.go:63-106 | every column of a batch reads, cell by cell, as the stored values: the entry of its own slice or zero, null unless the value is of its kind, marked exactly if the row then holds something else |
| ColumnForms.StoredCell | pkg/graph/store/column_batch_build.go:391-433 | which stored value becomes which scalar, type by type |
| ColumnForms.MixedIff | pkg/graph/store/column_batch_build.go:77-90 | a column is mixed if and only if its first scalar is a number and a cell holds the other kind of number |
| ColumnForms.FirstKindIs | pkg/graph/store/column_batch_build.go:73-76 | a column has the kind of its first scalar |
| ColumnForms.BatchSizes | pkg/graph/store/column_batch_build.go:14-14 | batches hold 4096 rows in order, the last one the rest |
| ColumnScan.KindIsOfTheColumn | pkg/graph/store/column_batch_build.go:73-76 | a batch's kind is the kind of the whole column, or the batch holds no scalar of it |
| Calendar.MonthsAdjoin | pkg/types/recurrence.go:197-203 | Gregorian months follow one another, each of its length, leap years included |
| Calendar.GregorianIsCalendar | pkg/types/recurrence.go:164-203 | the Gregorian months satisfy what the expansion assumes of a calendar |
| Recurrence.FirstMatchingDayOnOrAfter | pkg/types/recurrence.go:221-232 | finds the first matching day of the range, or there is none |
| Recurrence.NextMatchingDay | pkg/types/recurrence.go:234-242 | finds the next matching day, within a week, skipping none |
| Recurrence.AppendOccurrence | pkg/types/recurrence.go:205-219 | appending the clipped occurrence extends exact coverage by one day |
| Recurrence.NearFits64 | pkg/types/recurrence.go:205-219 | for windows 402 days away from the ends of the 64-bit range, no midnight and no bound of an occurrence that the loops compute overflows |
| Recurrence.ExpandByDay | pkg/types/recurrence.go:148-162 | the day loop terminates and covers exactly the due instants |
| Recurrence.ExpandMonthly | pkg/types/recurrence.go:164-179 | the month loop covers exactly the due instants |
| Recurrence.ExpandYearly | pkg/types/recurrence.go:181-195 | the year loop covers exactly the due instants |
| Recurrence.Expand | pkg/types/recurrence.go:127-146 | each error exactly when due; otherwise non-empty, ascending, disjoint intervals inside the window whose union is exactly the instants at which the pattern applies |
| Recurrence.ExpandUTC | pkg/types/recurrence.go:127-146 | on the Gregorian calendar the intervals hold exactly the instants at which the pattern applies |
| Recurrence.AppliesOnDate | pkg/types/recurrence.go:197-203 | monthly and yearly patterns apply on the named date, or the last of the month for 0, and on no other |
| RecurrenceDates.ExpandByDate | pkg/types/recurrence.go:127-219 | by date: a millisecond of a date is covered if and only if it is in the window, the pattern applies on that date and the time of day lies between start and end; one interval per day; errors with literal bounds |
| RecurrenceDates.AppliesByDate | pkg/types/recurrence.go:148-203 | weekday patterns apply by the mask, monthly ones on the named or last day, yearly ones also in the named month, 0 being January |
| RecurrenceDates.DatesSucceed | pkg/types/recurrence.go:164-203 | the next date, by literal month lengths and leap years, is the next day |
| RecurrenceDates.FirstDate | pkg/types/recurrence.go:164-203 | 1 January 1970 is day 0 |
| RecurrenceDates.DateOf | pkg/types/recurrence.go:164-203 | every day has exactly one date |
| RecurrenceDates.WeekdaysSucceed | pkg/types/recurrence.go:244-268 | day 0 is a Thursday and weekdays follow one another |
| RecurrenceDates.MaskBits | pkg/types/recurrence.go:21-36 | bit 0 of a mask is Monday and bit 6 Sunday |
| RecurrenceDates.ValidMeans | pkg/types/recurrence.go:83-121 | the validity conditions with literal bounds |
| OntologyCache.InvStep | pkg/graph/ontology/ontology.go:73-127 | every lookup step, swap, registration and safe rollback keeps the cache coherent and every running call able to justify its answer |
| OntologyCache.LookupsAreLinearizable | pkg/graph/ontology/ontology.go:73-127 | after every run whose rollbacks are safe, every cached entry is the uncached answer of the wired registry, and every finished lookup returned the uncached answer of an instant within its call |
| OntologyCache.AnswersAreOfTheCall | pkg/graph/ontology/ontology.go:78-112 | the answers credited to a call are exactly those of the states passed while it ran |
| OntologyCache.RollbackGoesWrongIff | pkg/graph/internal/registry/label_registry.go:276-311 | a rollback has a continuation with a wrong answer if and only if it drops a token that is cached or about to be cached while a reference label is not kept, or one a lookup is about to ask of an unwired registry without an instant at which the token was no reference |
| OntologyCache.NextRollbackGoesWrongIff | pkg/graph/internal/registry/label_registry.go:276-311 | the same after every run whose earlier rollbacks were safe |
| OntologyCache.UnclassifiedRun | pkg/graph/ontology/ontology.go:73-112 | a token that is not looked up stays out of the cache and of all running lookups |
| OntologyCache.UnclassifiedIsSafe | pkg/graph/internal/registry/label_registry.go:276-311 | taking back tokens that no lookup has touched since they were given out is safe |
| OntologyCache.StaleClassInherited | pkg/graph/internal/core/registry_rollback.go:393-413 | a run in which the class cached for a label taken back is inherited by the next label, and a lookup answers wrongly |
| OntologyCache.FlushedCacheRefilled | pkg/graph/internal/core/tx.go:1541-1548 | a run in which a lookup in flight refills the cache that the rollback has just emptied with the class of a label taken back |
| OntologyLookups.AnswerIs | pkg/graph/ontology/ontology.go:78-112 | a token is a reference if and only if the wired registry gives it, counting from 1, a reference name |
| OntologyLookups.NameRegistered | pkg/graph/internal/registry/label_registry.go:102-146 | a new name gets the next token and earlier tokens keep their names |
| OntologyLookups.RolledBack | pkg/graph/internal/registry/label_registry.go:276-311 | a rollback keeps the first names and touches neither cache nor lookups |
| OntologyLookups.Swapped | pkg/graph/ontology/ontology.go:114-127 | a swap wires the registry and empties the cache |
| OntologyLookups.FirstLook | pkg/graph/ontology/ontology.go:78-92 | the cache is read first; token 0 and a missing registry answer at once |
| OntologyLookups.LastLook | pkg/graph/ontology/ontology.go:93-112 | what was found is stored only if the registry is still the wired one; otherwise the lookup starts over |
| OntologyLookups.MissIsCached | pkg/graph/ontology/ontology.go:78-112 | a lookup left alone finds the class of an uncached name and caches it |
| OntologyLookups.AloneIsUncached | pkg/graph/ontology/ontology.go:78-112 | a lookup left alone ends with the uncached answer, cached or not |
| Watch.InvStep | pkg/graph/replication/watch.go:87-152 | every record streamed, append, pull and wait keeps the feed's position, the reader's cursor and what was yielded in step |
| Watch.FeedIsAtCursor | pkg/graph/replication/watch.go:112-125 | the record at the feed's own position, if the pull asks for it, is the next one after the reader's cursor and the next one wanted |
| Watch.YieldsAreAPrefix | pkg/graph/replication/watch.go:87-152 | after any run the yielded records are the first of the wanted committed ones, in order, none skipped or repeated; the wait stays between 25 and 500 ms |
| Watch.WantedAreFrom | pkg/graph/replication/watch.go:100-103 | the wanted records are exactly the committed ones with LSN at least fromLSN |
| Watch.PullCatchesUp | pkg/graph/replication/watch.go:112-138 | when a pull ends and the watch goes on, everything committed when the pull began has been yielded |
| WatchPacing.PullBegins | pkg/graph/replication/watch.go:105-112 | a pull starts after the cursor with everything committed in view; a cancelled reader stops |
| WatchPacing.RecordStreams | pkg/graph/replication/watch.go:112-125 | a record is yielded, and the cursor moves to it if the consumer goes on |
| WatchPacing.PullEnding | pkg/graph/replication/watch.go:133-138 | a productive pull sets the wait back to 25 ms and goes on at once; an idle one waits |
| WatchPacing.WaitEnds | pkg/graph/replication/watch.go:140-151 | after an idle wait the next one is twice as long but at most 500 ms; a cancelled reader stops |
| WatchPacing.IdleRounds | pkg/graph/replication/watch.go:104-152 | while nothing is committed the waits are 25, 50, 100, 200, 400 and then 500 ms, and nothing is yielded |
| WatchPacing.CanCatchUp | pkg/graph/replication/watch.go:104-138 | from every reachable state between two pulls the reader alone can get to have yielded everything wanted |
| WatchPacing.SilentForGood | pkg/graph/replication/watch.go:105-152 | a cancelled or stopped reader yields nothing more in any continuation |
| WatchPacing.RefusalIsFinal | pkg/graph/replication/watch.go:117-120 | a record the consumer declines is the last one yielded |
| ElementKeys.ForEachElementKey | pkg/types/propertyslice.go:363-394 | each distinct key is reported once, in order of first occurrence, across the switch to a map, until the visitor declines one |
| ElementKeys.DistinctOrder | pkg/types/propertyslice.go:363-394 | a key is reported before another only if it occurs first |
| ElementKeys.HasKey | pkg/types/propertyslice.go:399-412 | a value carries a key exactly as its scalar key or, with elements, as the key of an element |
| ElementKeys.ListCarriesNumber | pkg/types/propertyslice.go:399-412 | a list carries the key of a number exactly if it holds that number in that width |
| KeyForms.ListCarriesValue | pkg/types/propertyslice.go:399-412 | a list carries the key of a value of any type exactly if it holds that value |
| KeyForms.CarriedKeys | pkg/types/propertyslice.go:399-412 | a scalar carries its own key and a list, in an elements index only, those of its elements |

## Left out

- Event handlers, panics in handlers, logging and OnDrop callbacks: handlers are taken to return and not to call the bus.
- The order of the shutdown drain across priorities: it takes one event per queue and round, and no strict order is claimed for it.
- The first, unlocked look at the closing flag in Publish and PublishBatch: a call that gives up there does nothing the model could see.
- AllenRelationSet's Len, ToSlice and String: they add only easy members.
- Label and type mutators, ordinals and the nil receiver checks of nodes and relationships.
- Entities.Entity.SetTemporal: metadata records are values, so sharing of metadata pointers on nodes that are not frozen is not captured.
- Nil and empty property slices of a row are not told apart.
- PropertyArrays.Set: the capacity a grown array gets is fixed here and left to the runtime in Go.
- PropertySlices.Validate: well-formedness of temporal values, time.Time input and types outside the allowlist are not modelled; property values are finite trees of supported types.
- PropertySlices.NewPropertySlice: the same.
- PropertySlices.CanonicalPropertySlice: the same.
- PropertyEquality.ValuesEqual: registered custom values, which the source compares field by field by reflection, are left out; they enter hashing with their name, pointer flag and own bytes.
- PropertyEquality.EqualMaps: the same.
- Library sorting is modelled by insertion; strconv's float rendering is assumed injective per width (`IndexKeys.Faithful`, which `IndexKeys.FaithfulRendererExists` shows can be met).
- The sign of zero in `Numbers`: both zeros are one number there; bit patterns are treated in `PropertyEquality` and `FloatPatterns`.
- ColumnScan.Scan: it stands for the two drivers over sources of classified cells, as ColumnRows.ScanStored does for the two over stored rows; row identifiers stand for all per-row fields, and a column's parallel slices are grouped in one record.
- ColumnRows.ClassifiedKinds: the case of types.Instant, which property validation does not admit as a stored value, is absent.
- The registry's capacity limit, its import of names, and names that are blank but not empty.
- ElementKeys.ForEachElementKey: the element keys are listed before the loop instead of one at a time.
- Recurrence.Expand: arithmetic is unbounded; away from the ends of the int64 range it agrees with the code's (Recurrence.NearFits64), and windows nearer to the ends are not captured.
- Recurrence.ExpandUTC: the same.
- Watch.YieldsAreAPrefix: assumes that no smaller LSN becomes visible after a larger one, as the change log promises.
- The error records that a failed pull or an inactive change log yields before the watch stops.
- Storage, snapshots, replication transport, SHA-256 and the sub-API forwarding layers.
