# Verified models of blaueis-libmidea

blaueis-libmidea drives Midea air conditioners from a data file, the glossary, which says
where every field lives on the wire and which fields exclude or force each other. A client
turns "set these fields" into gated, expanded, clamped and bit-packed frames and keeps a
status store; a gateway speaks the dongle side of the serial protocol and serves several
encrypted clients. This project models the parts with real guarantees and proves them for
every glossary, every batch, every byte stream and every interleaving.

The glossary is always an arbitrary value. What the program updates in place is a class
(status store, capability document, UART protocol, device link, gateway, slot pool, session,
recorder) or a method with a loop over an array, each proved equal to a function; the
theorems are about those functions and about runs of them. Code between two awaits is one
atomic step.

| file | models |
|---|---|
| PyValues, Bytes | Python values with `==` and truth, insertion-ordered dicts, octets |
| Glossary, Query | flattened glossary entries and visibility, per-field source slots and the priority read |
| MutexExpansion, Gating | the command pipeline as functions: expansion, gates, mode mask, clamp |
| Observers, StatusDb | events and whole runs; the status store object |
| GlossaryLint | the static lint and what a clean report buys at run time |
| BitLaws, BitField, Codec | bit slots, field encoding and decoding |
| Packing, Collisions | fields packed into one body, bit by bit; the bit-collision checker and the 0x40 frame |
| Command, PropertyWrite | preflight and value choice; the 0xB0 record list |
| Sending | from the final set to the wire: split, preflight of each part, what is sent and what it decodes to |
| CrcTable, Crc, Frame, UartStream, Tlv | CRC, frames, re-framing, the two TLV formats |
| Capabilities | B5 frames, the freeze and the ratchet |
| Uart, DeviceLink, Admission, SecureChannel | the four protocols as state machines over all runs |
| Override, DebugRing | the recursive merge; the flight recorder |

## Where the code does less than its description

Each of these is a lemma with a witness, beside the exact condition under which the
described property does hold.

- The lint makes the mode mask idle exactly when it looked at every force and no forced mode
  hides a field without a hardware flag: a flag on the forced field, an active forced value
  that is falsy or equals the lint's default, and a forced `operating_mode` that hides a
  field all escape it (`GlossaryLint.LintExact`, `FlaggedTargetEscapesLint`,
  `ForcedModeEscapesLint`; a forced mode may also do no harm, `ForcedModeMayStay`).
- With the power off, `power: 1` is not `True`, so the gate stays shut but the entry passes
  and what it forces is set (`Gating.PowerOffTouchesOnlyPower`, `PowerOneExpands`); the
  final set is free of it only where the envelope is an empty set (`PowerOffFinalExactly`).
- A field masked to zero is clamped back on by an envelope above zero
  (`Gating.HiddenStaysOff`, `ClampTurnsOn`).
- The collision checker catalogues neither half-degree flags nor the source bits of
  combining steps (`Collisions.HalfFlagEscapesChecker`, `CombinedSourceEscapesChecker`), and
  it counts bits that are never written. For any fields of distinct names the order is
  without effect exactly when no two write a common bit that one of them can set
  (`Packing.OrderFreeExactly`), and a plain field decodes to its own value exactly when it
  has the last word on every bit it writes, or neither it nor the last one to write the bit
  can set it (`LosslessExactly`).
- The preflight looks at the byte or property of the changed fields and at every source; the
  encoder writes all fields and reads through each field's own priority list
  (`Command.OtherPositionsUnasked`, `OwnPriorityEscapes`). A passed preflight protects a
  field exactly when a changed one shares its position and its list starts with all sources
  (`ProtectedExactly`). A property record ignores glossary defaults, although the preflight
  exempts fields that have one: a field of a written property is protected exactly when it
  is not exempt and its list starts with all sources (`RecordProtectedExactly`,
  `DefaultEscapesRecord`).
- Property fields that share an offset overwrite each other: the last one decodes from the
  record, the others leave no trace in it (`PropertyWrite.LastOneWritten`,
  `SecondTakesOffset`, `EntryDecodes`, `OverwrittenLeavesNoTrace`).
- A shrunken length octet can pass validation, because the CRC takes the body from the end
  of the input and not from the length (`Frame.LengthOctetAccepted`, `LengthOctetEscapes`);
  a frame around an empty body is rejected, and bodies of 241 to 244 octets can be built but
  are not read back (`Frame.BuildValidate`, `UartStream.FrontFrame`).
- The handshake learns from replies whose CRC or checksum is wrong: what was learned is only
  known to come from some frame that parses and has the type of a query sent before
  (`Uart.LearnsExactly`, `LearnedFromReply`, `CorruptReplyLearned`).
- The freeze guards availability, not envelopes of values that name no availability
  (`Capabilities.FreezeBlocksOnlyDemotions`, `UnratedValueReplacesEnvelope`); the final pass
  compares capability ids without their type (`UndecidedAfterScan`, `UnmatchedAfterScan`,
  `OtherTypeLeavesUndecided`); a new id that one frame repeats is stored twice, a known one
  is not (`MergedUnique`, `RepeatedIdStays`).
- Stopping while a connect or reconnect is in flight lets the device report "connected" on a
  link that is gone; beginning a stop is safe exactly when neither is
  (`DeviceLink.SafeStopExactly`, `RacingStopReports`, `RedialReached`).
- A handler cancelled while its hello message is on its way never gives its slot back
  (`Admission.AdmissionExact`); as many as there are slots leave the pool full with nobody
  connected (`GonePoolFull`).
- The gate on excluded fields looks at field patches only: removing or replacing the
  category or the whole block goes through (`Override.LockedFieldKept`, `LockedFieldLost`);
  merging again is not idle when a removal sits in a part copied whole (`RemergeIdle`,
  `BuriedRemovalActs`).
- A command writes its values optimistically even when the preflight has kept its frame from
  being sent (`Sending.UnsentReadsBack`). All of them were carried exactly when the
  preflight of both parts is empty and each field is written by the frame of its part: its
  slot lies inside the 0x40 body, or no later field takes its place in its record
  (`AllCarriedExactly`).

## Model

| member | source | states |
|---|---|---|
| Glossary.HiddenExactly | packages/blaueis-client/src/blaueis/client/status_db.py:288-370 | what gate, mask and clear take for hidden: a mode list and either a hardware flag or a known mode that no entry of the list is or names, the five names spelled out |
| Query.NewestAmong | packages/blaueis-core/src/blaueis/core/query.py:52-61 | none exactly when no slot of the scope has a timestamp; otherwise a slot of the scope no other is newer than |
| Query.NewestIsFirst | packages/blaueis-core/src/blaueis/core/query.py:52-61 | of equally new slots the first in dict order is taken |
| Query.DefaultReads | packages/blaueis-core/src/blaueis/core/query.py:67-133 | a field without a priority list of its own reads as the newest of all its timestamped slots |
| Query.WinnerAfterWrite | packages/blaueis-core/src/blaueis/core/query.py:108-133 | a freshly stamped optimistic slot wins a priority list exactly when the first non-empty scope admits it |
| Query.ReadAfterWrite | packages/blaueis-core/src/blaueis/core/query.py:136-169 | such a write is what the next read returns |
| MutexExpansion.ForwardPassExact | packages/blaueis-client/src/blaueis/client/status_db.py:479-520 | caller values kept; every other entry has an active forcer assigning that value, along a chain of at most ten hops from an active batch field; closed under forces unless the depth cap cut the last round |
| MutexExpansion.ExpandExact | packages/blaueis-client/src/blaueis/client/status_db.py:479-544 | the whole expansion: exactly the forward entries plus, on a mode change, the safe default of every on, hidden field without an entry |
| MutexExpansion.ClearedExactly | packages/blaueis-client/src/blaueis/client/status_db.py:522-535 | an entry the forward pass did not make is in the result exactly when the result sets a mode that the mode list of the field does not admit, or the field has a hardware flag, and its reading is on and not zero; its value is the default, spelled out |
| MutexExpansion.UnlistedStaysOut | packages/blaueis-client/src/blaueis/client/status_db.py:524-535 | a field without a mode list enters the batch by a force alone |
| Gating.ClampNearest | packages/blaueis-client/src/blaueis/client/status_db.py:438-457 | a number leaves the clamp inside its envelope and no admissible value is nearer |
| Gating.NearestIsFirst | packages/blaueis-client/src/blaueis/client/status_db.py:438-449 | of equally near members of a set the first is taken |
| Gating.DropExactly | packages/blaueis-client/src/blaueis/client/status_db.py:372-436 | a field is dropped exactly when its envelope is an empty set |
| Gating.ConstrainIdempotent | packages/blaueis-client/src/blaueis/client/status_db.py:372-457 | the constraint gate applied twice is the gate applied once |
| Gating.FinalWithinEnvelope | packages/blaueis-client/src/blaueis/client/status_db.py:141-170 | every number of the final set lies in the envelope of the effective mode, at minimal distance |
| Gating.FinalInMode | packages/blaueis-client/src/blaueis/client/status_db.py:331-457 | read off the stored constraints: a number leaves within the envelope listed for the first label of the effective mode, without one within the top level, unchanged if it was inside and else at minimal distance; a bool, or a field without constraints, leaves as the mask left it |
| Gating.HiddenStaysOff | packages/blaueis-client/src/blaueis/client/status_db.py:331-457 | mask then clamp keep a hidden field off for every value if and only if its masked default and zero are clamped to inactive values |
| Gating.ClampTurnsOn | packages/blaueis-client/src/blaueis/client/status_db.py:331-457 | the witness: a masked field clamped into 16..30 is on |
| Gating.FinalHidesHidden | packages/blaueis-client/src/blaueis/client/status_db.py:125-170 | no hidden field leaves the pipeline on when it rests quietly |
| Gating.PowerOffTouchesOnlyPower | packages/blaueis-client/src/blaueis/client/status_db.py:244-264 | with power known off and not turned on, the expanded set is `power` alone if and only if the accepted entry is off or forces nothing else |
| Gating.PowerOffFinal | packages/blaueis-client/src/blaueis/client/status_db.py:244-264 | under that condition the final set holds nothing but `power` |
| Gating.PowerOffFinalExactly | packages/blaueis-client/src/blaueis/client/status_db.py:141-170 | for every status and batch the final set holds nothing but `power` if and only if every other expanded field has an empty set for an envelope |
| Gating.RefusedMeans | packages/blaueis-client/src/blaueis/client/status_db.py:146-157 | for each of the three reasons exactly when a field is refused with it, in terms of the status, the power and the mode asked for; any other field is accepted unchanged |
| Gating.PowerOneExpands | packages/blaueis-client/src/blaueis/client/status_db.py:255-264 | the witness: `power: 1` expands on a device that is off |
| GlossaryLint.Lint | packages/blaueis-tools/src/blaueis/tools/glossary_lint.py:128-212 | an error is reported exactly when the glossary breaks that rule |
| GlossaryLint.LintField | packages/blaueis-tools/src/blaueis/tools/glossary_lint.py:135-194 | the same for one field |
| GlossaryLint.LintCycles | packages/blaueis-tools/src/blaueis/tools/glossary_lint.py:196-212 | the same for mutual forces |
| GlossaryLint.CleanExactly | packages/blaueis-tools/src/blaueis/tools/glossary_lint.py:84-212 | the report is empty if and only if every listed mode is one of the five, every forcing field has a mode list, every force has a known target, a legal value and a target visible wherever its source is, and no two fields force each other off their defaults; legal values and defaults are spelled out |
| GlossaryLint.LintSound | packages/blaueis-client/src/blaueis/client/status_db.py:331-370 | a clean lint, watched forces and harmless forced modes: for every status and batch no forced value is on in a mode that hides it |
| GlossaryLint.LintExact | packages/blaueis-tools/src/blaueis/tools/glossary_lint.py:84-194 | for a clean glossary whose mode is not itself mode-gated that guarantee holds if and only if the lint watched every force and no forced mode hides a field without a hardware flag |
| GlossaryLint.MaskIdle | packages/blaueis-client/src/blaueis/client/status_db.py:331-370 | under the same condition the mode mask is the identity on everything the pipeline hands it |
| GlossaryLint.FlaggedTargetEscapesLint | packages/blaueis-core/src/blaueis/core/ux_gating.py:39-86 | a clean glossary whose hardware-flagged target the mask must still clear |
| GlossaryLint.ForcedModeEscapesLint | packages/blaueis-tools/src/blaueis/tools/glossary_lint.py:128-194 | a clean glossary, every force watched, that forces the operating mode and hides the field being turned on |
| GlossaryLint.ForcedModeMayStay | packages/blaueis-tools/src/blaueis/tools/glossary_lint.py:128-194 | a clean glossary that forces the operating mode and never hides a forced value |
| Observers.RejectionKeepsReading | packages/blaueis-core/src/blaueis/core/process.py:337-360 | a refused property leaves every reading as it was |
| Observers.ReadingWins | packages/blaueis-core/src/blaueis/core/process.py:282-330 | a reading newer than all others is what the next read returns |
| Observers.IngestExactly | packages/blaueis-core/src/blaueis/core/process.py:278-367 | every slot of every field after a data frame: its key holds the reading with stamp and generation, or the old reading marked rejected; all else is as it was |
| Observers.FlushFaithful | packages/blaueis-client/src/blaueis/client/status_db.py:607-628 | merging the queued events keeps the listener's final value, in at most one call per field, from the value it holds, never without a net change |
| Observers.MirrorStep | packages/blaueis-client/src/blaueis/client/status_db.py:88-214 | after one operation a listener holds what a read returns; `old` is what it held |
| Observers.MirrorRun | packages/blaueis-client/src/blaueis/client/status_db.py:571-628 | the same over every run of ingests and commands: after each operation the listener holds what a read returns, and each operation called it at most once, from the value it held, for a net change |
| Observers.CommandReadsBack | packages/blaueis-client/src/blaueis/client/status_db.py:210-214 | every final value of a command that did not raise reads back |
| Observers.CommandTouchesFinal | packages/blaueis-client/src/blaueis/client/status_db.py:210-214 | a command that raises, and any command outside its final set, leaves the field untouched |
| StatusDb.StatusDB.FilterGate | packages/blaueis-client/src/blaueis/client/status_db.py:266-286 | a batch is split exactly into the kept entries, in order, and the others with the reason |
| StatusDb.StatusDB.ApplyGates | packages/blaueis-client/src/blaueis/client/status_db.py:146-157 | the three gates in order; refused is exactly what was not accepted, each field under the reason of the gate that stopped it |
| StatusDb.StatusDB.ExpandMutexForces | packages/blaueis-client/src/blaueis/client/status_db.py:479-544 | the work-list loop with its `seen` set computes the expansion |
| StatusDb.StatusDB.MaskModeInvalid | packages/blaueis-client/src/blaueis/client/status_db.py:331-370 | the mask loop computes the mask |
| StatusDb.StatusDB.ApplyConstraintGate | packages/blaueis-client/src/blaueis/client/status_db.py:372-436 | the clamp loop computes the constraint gate |
| StatusDb.StatusDB.ApplyOptimistic | packages/blaueis-client/src/blaueis/client/status_db.py:571-582 | new status and queued events of the optimistic write |
| StatusDb.StatusDB.StoreReadings | packages/blaueis-core/src/blaueis/core/process.py:278-367 | slot and rejection writes of a data frame, field by field |
| StatusDb.StatusDB.DetectChanges | packages/blaueis-client/src/blaueis/client/status_db.py:593-605 | one event per listed field whose read changed |
| StatusDb.StatusDB.FlushEvents | packages/blaueis-client/src/blaueis/client/status_db.py:607-628 | the callbacks in call order; the queue is empty afterwards |
| StatusDb.StatusDB.Ingest | packages/blaueis-client/src/blaueis/client/status_db.py:88-121 | the locked ingest as a whole |
| StatusDb.StatusDB.SplitByProtocol | packages/blaueis-client/src/blaueis/client/status_db.py:556-569 | the split into the 0x40 and the 0xB0 part, in order |
| StatusDb.StatusDB.BuildPart | packages/blaueis-client/src/blaueis/client/status_db.py:176-208 | a part is sent exactly if it is not empty and its preflight is |
| StatusDb.StatusDB.Command | packages/blaueis-client/src/blaueis/client/status_db.py:125-214 | the locked command as a whole: final set, refusals, the frames sent in order, status and callbacks; a send that raises cuts the frames off and changes nothing |
| Sending.AllCarriedExactly | packages/blaueis-client/src/blaueis/client/status_db.py:172-210 | every final value was carried by a frame if and only if the preflight of both parts is empty and each field is written by the frame of its part: inside the 0x40 body, or not overwritten in its record |
| Sending.EncodesExactly | packages/blaueis-core/src/blaueis/core/command.py:320-513 | what writing a field means: whatever the value, its encoding step inserts something into the 0x40 body, or into its record where no later field of the property has its offset |
| Sending.UnsentReadsBack | packages/blaueis-client/src/blaueis/client/status_db.py:172-214 | the witness: a never-read sibling keeps the only frame back and the new value still reads back |
| Sending.CommandOnTheWire | packages/blaueis-core/src/blaueis/core/command.py:310-356 | preflight passed: from the sent 0x40 body each field that keeps its bits, on a clean frame all, decodes to what survives of its final value or, as a visible sibling, of its newest observation, which is recent |
| Sending.UnchangedOnTheWire | packages/blaueis-core/src/blaueis/core/command.py:320-353 | an unchanged field that keeps its bits decodes from the 0x40 body, whatever the preflight said, to what survives of its safe default where the mode of the frame hides it, else of its frame default, else of what a read returns, else of zero |
| Sending.ValueSurvives | packages/blaueis-core/src/blaueis/core/codec.py:267-464 | what survives, in Python values: the truth in a one-bit flag, an integer exactly when it fits above the added constant, a float cut to the half degree |
| Sending.RecordsOnTheWire | packages/blaueis-core/src/blaueis/core/command.py:430-513 | preflight passed: parsing the sent 0xB0 body gives each written property a record from which a field that keeps its bits decodes to what survives of its final value or, unchanged, of what a read returns, else zero; for a sibling that is its newest observation, which is recent |
| BitField.InsertedBit | packages/blaueis-core/src/blaueis/core/codec.py:178-182 | inserting replaces the bits of the slot and no others |
| BitField.ExtractedBit | packages/blaueis-core/src/blaueis/core/codec.py:171-175 | extracting returns the bits of the slot, moved down |
| BitField.InsertExtract | packages/blaueis-core/src/blaueis/core/codec.py:171-182 | what is inserted is extracted, cut to the width |
| Codec.EncodeField | packages/blaueis-core/src/blaueis/core/codec.py:267-310 | the in-place encoder performs exactly the insertions of the first step |
| Codec.DecodeField | packages/blaueis-core/src/blaueis/core/codec.py:354-464 | the decode chain: the first step that applies decides |
| Codec.FirstDecides | packages/blaueis-core/src/blaueis/core/codec.py:354-464 | the first step that applies decides alone: one inside the body whose slot has some bit set, or clear where it inverts, if it is conditional; a combining one reads whether some bit of some source is set |
| Codec.NoneDecides | packages/blaueis-core/src/blaueis/core/codec.py:354-464 | without such a step there is no reading |
| Codec.InvertedReads | packages/blaueis-core/src/blaueis/core/codec.py:388-401 | an inverted step reads what the plain one reads from the complemented octet |
| Codec.BoolSurvives | packages/blaueis-core/src/blaueis/core/codec.py:290-302 | a bool in a one-bit slot survives as its truth |
| Codec.DegreesSurvive | packages/blaueis-core/src/blaueis/core/codec.py:295-310 | a whole or half-degree value, shifted or not, survives exactly when it lies between the added constant and the width of the slot |
| Codec.DegreesRound | packages/blaueis-core/src/blaueis/core/codec.py:295-310 | a value between two halves survives as the half degree above its whole part |
| Codec.LinearSurvives | packages/blaueis-core/src/blaueis/core/codec.py:233-264 | a value on the grid of a linear encoding survives exactly when its raw number is not negative and fits |
| Packing.PackAll | packages/blaueis-core/src/blaueis/core/command.py:320-356 | the encode loop: fields packed in order into a body, in place |
| Packing.PackedBit | packages/blaueis-core/src/blaueis/core/codec.py:267-310 | every bit of the body is what the last field that writes it leaves there, or as it was |
| Packing.OrderFreeExactly | packages/blaueis-core/src/blaueis/core/command.py:310-356 | for any fields of distinct names all orders give the same body for all values if and only if no two write a common bit that one of them can set |
| Packing.LosslessExactly | packages/blaueis-core/src/blaueis/core/codec.py:267-464 | for fields of distinct names a plain one decodes to what survives of its own value, whatever all values are, if and only if it has the last word on each bit it writes or neither it nor the last one to write the bit can set it |
| Collisions.BuildCatalogue | packages/blaueis-tools/src/blaueis/tools/glossary_collisions.py:74-226 | one record per bit of every non-combining step, and no other |
| Collisions.FindCollisions | packages/blaueis-tools/src/blaueis/tools/glossary_collisions.py:234-286 | exactly the places with several owners that are not allowed with those owners |
| Collisions.CleanReportExactly | packages/blaueis-tools/src/blaueis/tools/glossary_collisions.py:234-286 | the report is empty if and only if no two fields claim one bit |
| Collisions.ApartExactly | packages/blaueis-tools/src/blaueis/tools/glossary_collisions.py:74-93 | that is, if and only if no slots of different fields overlap |
| Collisions.EncodeAll | packages/blaueis-core/src/blaueis/core/command.py:310-356 | the encode loop over the blank 0x40 body |
| Collisions.OrderIndependent | packages/blaueis-core/src/blaueis/core/command.py:310-356 | on a clean frame every order of the fields gives the same body |
| Collisions.UnclaimedStay | packages/blaueis-core/src/blaueis/core/command.py:310-312 | bits no field claims are clear and the first octet is the tag 0x40 |
| Collisions.DecodesBack | packages/blaueis-core/src/blaueis/core/codec.py:267-464 | on a clean frame every field decodes to what survives of its own value |
| Collisions.HalfFlagEscapesChecker | packages/blaueis-tools/src/blaueis/tools/glossary_collisions.py:74-93 | two fields the checker passes whose frame depends on their order |
| Collisions.CombinedSourceEscapesChecker | packages/blaueis-tools/src/blaueis/tools/glossary_collisions.py:74-93 | the same for the source bit of a combining step |
| Command.Preflight | packages/blaueis-core/src/blaueis/core/command.py:137-261 | every unchanged, non-exempt field at the position of a changed one whose newest observation is missing or too old is reported once with the right reason, and no other |
| Command.AtRiskExactly | packages/blaueis-core/src/blaueis/core/command.py:95-134 | whom the preflight asks about: unchanged fields in the status with a read path, without default, of a tier that is neither excluded nor open, at the place of some other changed field |
| Command.ComplaintExactly | packages/blaueis-core/src/blaueis/core/command.py:207-259 | no complaint exactly when some stored observation of any source is recent; never read exactly when none has a timestamp; otherwise the age of the newest |
| Command.EmptyExactly | packages/blaueis-core/src/blaueis/core/command.py:137-261 | the list is empty if and only if all of them were observed recently enough |
| Command.SiblingKept | packages/blaueis-core/src/blaueis/core/command.py:320-353 | then each visible one whose priority list starts with all sources is encoded as its newest observation, or as zero when that holds no value |
| Command.ProtectedExactly | packages/blaueis-core/src/blaueis/core/command.py:195-353 | whatever the sources of a visible, unchanged, non-exempt field hold, a passed preflight means it is encoded as a recent observation or zero, if and only if a changed field shares its position and its priority list starts with all sources |
| Command.RecordProtectedExactly | packages/blaueis-core/src/blaueis/core/command.py:430-470 | the same for an unchanged field of a written property: if and only if it is not exempt and its priority list starts with all sources |
| Command.OwnPriorityEscapes | packages/blaueis-core/src/blaueis/core/command.py:212-217 | a field with its own priority list passes and is encoded with an old value |
| Command.DefaultEscapesRecord | packages/blaueis-core/src/blaueis/core/command.py:110-117 | a field with a default is not asked about, and its record carries what a read returns |
| Command.OtherPositionsUnasked | packages/blaueis-core/src/blaueis/core/command.py:320-341 | an unread field at another position goes out as zero |
| PropertyWrite.Upsert | packages/blaueis-core/src/blaueis/core/command.py:469-470 | a field takes the place of the one at its offset and leaves the others |
| PropertyWrite.LastOneWritten | packages/blaueis-core/src/blaueis/core/command.py:444-470 | a field reaches its record exactly when no later field of the property has its offset |
| PropertyWrite.SecondTakesOffset | packages/blaueis-core/src/blaueis/core/command.py:469-470 | the witness: of two fields at one offset the second alone is written |
| PropertyWrite.EntryDecodes | packages/blaueis-core/src/blaueis/core/command.py:472-498 | each field that reaches its record and keeps its bits there, among plain slots every one, decodes from the data octets to what survives of its value |
| PropertyWrite.OverwrittenLeavesNoTrace | packages/blaueis-core/src/blaueis/core/command.py:469-498 | the record does not depend on the value of an overwritten field |
| PropertyWrite.BuildBody | packages/blaueis-core/src/blaueis/core/command.py:472-513 | tag, count and one serialised record per changed property; fails exactly when a count exceeds an octet |
| PropertyWrite.RecordsRecovered | packages/blaueis-core/src/blaueis/core/codec.py:490-511 | the 3-octet-header loop recovers those records, one per changed property, and ends at the end |
| PropertyWrite.ChangedHaveRecords | packages/blaueis-core/src/blaueis/core/command.py:444-498 | a property has a record exactly when a changed field belongs to it, and then one |
| CrcTable.TableCorrect | packages/blaueis-core/src/blaueis/core/frame.py:31-65 | every table entry is its index clocked eight times through the reflected polynomial |
| CrcTable.TableInjective | packages/blaueis-core/src/blaueis/core/frame.py:31-65 | distinct indices have distinct entries |
| Crc.Crc8 | packages/blaueis-core/src/blaueis/core/frame.py:68-73 | the loop computes the register |
| Crc.CrcLinear | packages/blaueis-core/src/blaueis/core/frame.py:68-73 | linear over exclusive-or of strings of one length |
| Crc.CrcSingleByte | packages/blaueis-core/src/blaueis/core/frame.py:68-73 | every change of one octet changes the CRC |
| Crc.CrcOddWeight | packages/blaueis-core/src/blaueis/core/frame.py:68-73 | every change of an odd number of bits changes the CRC |
| Frame.BuildFrame | packages/blaueis-core/src/blaueis/core/frame.py:91-118 | the frame for bodies of up to 244 octets, the error beyond |
| Frame.FrameLayout | packages/blaueis-core/src/blaueis/core/frame.py:91-118 | every octet of a built frame; length, appliance and sync cancel out, and all behind the start octet adds up to a multiple of 256 |
| Frame.BuildValidate | packages/blaueis-core/src/blaueis/core/frame.py:91-168 | validating a built frame returns the inputs, except for the empty body |
| Frame.AlteredRejected | packages/blaueis-core/src/blaueis/core/frame.py:121-168 | altering any one octet but the length of an accepted frame is rejected |
| Frame.LengthOctetAccepted | packages/blaueis-core/src/blaueis/core/frame.py:133-148 | altering the length octet passes if and only if it shrinks and what leaves the checksum is a multiple of 256 |
| Frame.LengthOctetEscapes | packages/blaueis-core/src/blaueis/core/frame.py:133-148 | every body has a header for which such an alteration passes |
| UartStream.ReadOneFrame | packages/blaueis-gateway/src/blaueis/gateway/uart_protocol.py:271-298 | the scanning loop computes the first frame and the rest |
| UartStream.FrontFrame | packages/blaueis-gateway/src/blaueis/gateway/uart_protocol.py:285-290 | a built frame is read back whole if and only if its body has at most 240 octets |
| UartStream.Reframes | packages/blaueis-gateway/src/blaueis/gateway/uart_protocol.py:271-298 | frames separated by noise without start octets are read back in order, whatever the bodies hold |
| UartStream.ReadsAreTaken | packages/blaueis-gateway/src/blaueis/gateway/uart_protocol.py:271-298 | on any stream the frames returned are those the scan takes, in order |
| UartStream.ScanTiles | packages/blaueis-gateway/src/blaueis/gateway/uart_protocol.py:278-298 | the scan tiles the stream: noise, refused lengths, frames of their announced length, and at the end at most one broken-off frame |
| Tlv.RecordLoop | packages/blaueis-core/src/blaueis/core/codec.py:490-511 | the cursor loop collects the records and stops where the function says |
| Tlv.ParseB5 | packages/blaueis-core/src/blaueis/core/codec.py:474-518 | records, next-page flag and the three errors |
| Tlv.ParseB0B1 | packages/blaueis-core/src/blaueis/core/codec.py:556-597 | the same for property answers |
| Tlv.RecordsTile | packages/blaueis-core/src/blaueis/core/codec.py:490-511 | the records tile a stretch of the body from offset 2, within bounds |
| Tlv.StopsForCause | packages/blaueis-core/src/blaueis/core/codec.py:490-497 | the loop ends early only where no whole record starts |
| Tlv.B5RoundTrip | packages/blaueis-core/src/blaueis/core/codec.py:474-518 | parsing a serialised page returns its records and its flag |
| Tlv.B0B1RoundTrip | packages/blaueis-core/src/blaueis/core/codec.py:556-597 | parsing a serialised answer returns its records |
| Tlv.TruncatedIsPrefix | packages/blaueis-core/src/blaueis/core/codec.py:490-511 | a truncated body yields a prefix of the full parse |
| Tlv.UsableInBody | packages/blaueis-core/src/blaueis/core/codec.py:535-597 | the outcome of the i-th record of any parsed answer, all five of them, read off the status and length octets of the body at the offset where the records before it end |
| Capabilities.FreezeBlocksOnlyDemotions | packages/blaueis-core/src/blaueis/core/process.py:79-121 | the freeze takes away nothing but demotions; a blocked one leaves field and envelope as they were |
| Capabilities.LastRecordDecides | packages/blaueis-core/src/blaueis/core/process.py:46-148 | whatever a frame carries, the last record about a field decides: its envelope and availability read off the capability table, the first entry of the raw octet, and pinned fields and blocked demotions as they were |
| Capabilities.CapabilityRatchet | packages/blaueis-core/src/blaueis/core/process.py:151-234 | once frozen no run leaves the usable tiers; no run at all escalates a pinned field |
| Capabilities.UnratedValueReplacesEnvelope | packages/blaueis-core/src/blaueis/core/process.py:110-121 | a value without availability replaces a frozen envelope |
| Capabilities.MergedIds | packages/blaueis-core/src/blaueis/core/process.py:185-195 | the ids after the merge are the union |
| Capabilities.MergedHolds | packages/blaueis-core/src/blaueis/core/process.py:185-195 | which records the merge holds: old ones whose id the frame does not carry, and of the frame the new ids and the last record of each known one |
| Capabilities.MergedUnique | packages/blaueis-core/src/blaueis/core/process.py:185-195 | the merge keeps the ids unique if and only if every id the frame repeats was known before |
| Capabilities.RepeatedIdStays | packages/blaueis-core/src/blaueis/core/process.py:185-195 | a new id carried twice is stored twice |
| Capabilities.UnmatchedAfterScan | packages/blaueis-core/src/blaueis/core/process.py:151-234 | after any boot scan, from an empty list over any frames to the final pass, a field no accepted record is about is excluded exactly when no accepted frame carried its id under either type, and otherwise still undecided |
| Capabilities.OtherTypeLeavesUndecided | packages/blaueis-core/src/blaueis/core/process.py:57-59 | an id reported under the other type is neither applied nor excluded |
| Capabilities.StatusDocument.ApplyCaps | packages/blaueis-core/src/blaueis/core/process.py:46-148 | the nested update loops, field by field |
| Capabilities.StatusDocument.ProcessB5 | packages/blaueis-core/src/blaueis/core/process.py:151-208 | a whole frame; an untrusted or malformed one changes nothing |
| Capabilities.StatusDocument.FinalizeCapabilities | packages/blaueis-core/src/blaueis/core/process.py:211-234 | the final pass and the freeze |
| Capabilities.StatusDocument.OnB5 | packages/blaueis-client/src/blaueis/client/device.py:1017-1046 | a frame may demote only before the freeze |
| Uart.FirstInFirstOut | packages/blaueis-gateway/src/blaueis/gateway/uart_protocol.py:478-580 | in every run the accepted frames are those transmitted followed by those queued, within capacity |
| Uart.RelayedAfterHandshake | packages/blaueis-gateway/src/blaueis/gateway/uart_protocol.py:391-554 | DISCOVER broadcasts; client frames go out in RUNNING only, after an appliance was learned and announced since the last return to DISCOVER |
| Uart.LearnedFromReply | packages/blaueis-gateway/src/blaueis/gateway/uart_protocol.py:324-431 | in every run each learned appliance octet came from a received frame that parses, carries that octet and has the type of a handshake query sent before it |
| Uart.CorruptReplyLearned | packages/blaueis-gateway/src/blaueis/gateway/uart_protocol.py:324-431 | a corrupted reply that fails validation is learned from |
| Uart.SilenceReturns | packages/blaueis-gateway/src/blaueis/gateway/uart_protocol.py:478-518 | in every run, from RUNNING and listening: expired silence gives the appliance up and the next turn broadcasts; silence that has not expired keeps both |
| Uart.RestartReturns | packages/blaueis-gateway/src/blaueis/gateway/uart_protocol.py:548-554 | the same for a restart trigger |
| Uart.RehandshakeReturns | packages/blaueis-gateway/src/blaueis/gateway/uart_protocol.py:538-543 | the same for a handshake request, behind its acknowledgement and the wait |
| Uart.OtherFramesStay | packages/blaueis-gateway/src/blaueis/gateway/uart_protocol.py:519-554 | any other frame leaves state, appliance and queue |
| Uart.HandshakeCompletes | packages/blaueis-gateway/src/blaueis/gateway/uart_protocol.py:391-476 | in every run: from DISCOVER an answer to the first or the second query, any outcome of the model query and one announce lead to RUNNING with the identity of the answer, and what is logged on the way |
| Uart.DiscoveryRepeats | packages/blaueis-gateway/src/blaueis/gateway/uart_protocol.py:411-453 | without an answer both queries go out and the machine is where it was |
| Uart.KeepAliveNumbered | packages/blaueis-gateway/src/blaueis/gateway/uart_protocol.py:349-370 | in every run the status answers carry consecutive numbers from one, modulo 256 |
| Uart.QueriesAnswered | packages/blaueis-gateway/src/blaueis/gateway/uart_protocol.py:349-387 | wherever the machine waits, the version and network queries are answered with the learned identity |
| Uart.UartProtocol.QueueFrame | packages/blaueis-gateway/src/blaueis/gateway/uart_protocol.py:561-580 | accepts exactly while there is room |
| Uart.UartProtocol.Turn | packages/blaueis-gateway/src/blaueis/gateway/uart_protocol.py:398-515 | the loop body up to its first await, in each state |
| Uart.UartProtocol.HandleAcQuery | packages/blaueis-gateway/src/blaueis/gateway/uart_protocol.py:349-387 | the answer to each query the unit may send |
| Uart.UartProtocol.OnFrame | packages/blaueis-gateway/src/blaueis/gateway/uart_protocol.py:324-554 | what an arriving frame does at each waiting point |
| Uart.UartProtocol.OnSilence | packages/blaueis-gateway/src/blaueis/gateway/uart_protocol.py:411-526 | what a timeout does at each waiting point |
| DeviceLink.ReportsAlternate | packages/blaueis-client/src/blaueis/client/device.py:517-662 | every report follows the connect of its own link directly; between two reports there is a disconnect |
| DeviceLink.GenerationsUnique | packages/blaueis-client/src/blaueis/client/device.py:588-609 | generations only grow |
| DeviceLink.StartReports | packages/blaueis-client/src/blaueis/client/device.py:517-554 | a start that connects reports on its own generation; one that fails leaves everything as it was |
| DeviceLink.LossRecovers | packages/blaueis-client/src/blaueis/client/device.py:611-662 | after a loss and any number of failed attempts a reconnect reports on a later generation |
| DeviceLink.AuthEnds | packages/blaueis-client/src/blaueis/client/device.py:611-662 | an authentication failure ends the retries and stops the device |
| DeviceLink.StaleIsSilent | packages/blaueis-client/src/blaueis/client/device.py:902-917 | a handshake that finishes behind a loss or a stop reports nothing |
| DeviceLink.SafeStopExactly | packages/blaueis-client/src/blaueis/client/device.py:517-662 | from any state that keeps the invariant, no orderly continuation after beginning a stop reports on a dead link if and only if no connect is in flight |
| DeviceLink.RacingStopReports | packages/blaueis-client/src/blaueis/client/device.py:556-584 | beginning a stop with a connect in flight always leads to a report after its link was closed, from a stopped device when it was a reconnect |
| DeviceLink.RedialReached | packages/blaueis-client/src/blaueis/client/device.py:611-662 | such a state is reached by an orderly run |
| DeviceLink.HvacDevice.Connect | packages/blaueis-client/src/blaueis/client/device.py:604-609 | a connect takes the next generation |
| DeviceLink.HvacDevice.LinkLost | packages/blaueis-client/src/blaueis/client/device.py:611-621 | a loss invalidates the generation before it reports |
| DeviceLink.HvacDevice.FinishHandshake | packages/blaueis-client/src/blaueis/client/device.py:902-917 | a finished handshake reports exactly when its generation is current |
| Admission.AdmissionExact | packages/blaueis-gateway/src/blaueis/gateway/server.py:550-641 | counter exact and capped, slots distinct; slots in use are those of active handlers if and only if none was cancelled while greeting, and then so are the clients |
| Admission.GonePoolFull | packages/blaueis-gateway/src/blaueis/gateway/server.py:585-641 | the witness: as many clients cancelled while greeting as there are slots leave the pool full with no handler |
| Admission.LowestSlotOrFull | packages/blaueis-gateway/src/blaueis/gateway/server.py:585-606 | a new handler gets the lowest free slot; refusal exactly when all are held |
| Admission.SlotPool.Acquire | packages/blaueis-gateway/src/blaueis/gateway/slot_pool.py:44-51 | takes the lowest free slot, none exactly when full |
| Admission.SlotPool.Release | packages/blaueis-gateway/src/blaueis/gateway/slot_pool.py:53-56 | gives the slot back; unknown ones are ignored |
| Admission.GatewayServer.Enter | packages/blaueis-gateway/src/blaueis/gateway/server.py:550-562 | admitted to the handshake exactly below the cap |
| Admission.GatewayServer.Register | packages/blaueis-gateway/src/blaueis/gateway/server.py:582-606 | counter, slot and client set change in one stretch |
| SecureChannel.NonceInjective | packages/blaueis-core/src/blaueis/core/crypto.py:93-97 | different counters below 2^64 have different nonces |
| SecureChannel.AcceptedIsSubsequence | packages/blaueis-core/src/blaueis/core/crypto.py:93-164 | under any schedule each side accepts a subsequence of what the other encrypted |
| SecureChannel.GenuineAccepted | packages/blaueis-core/src/blaueis/core/crypto.py:108-117 | a genuine envelope is accepted exactly when its counter exceeds all looked at before |
| SecureChannel.SentIsReadable | packages/blaueis-core/src/blaueis/core/crypto.py:93-164 | in every run what either role encrypts below 2^64 is accepted by the other with its plaintext when it arrives first, and not again |
| SecureChannel.NotNewerRefused | packages/blaueis-core/src/blaueis/core/crypto.py:108-117 | an envelope no newer than one looked at is not accepted, even if that one failed to open |
| SecureChannel.OwnDirection | packages/blaueis-core/src/blaueis/core/crypto.py:131-164 | in every run each role encrypts under the key derived for its own direction, over the salt of both random values |
| SecureChannel.NonceOnce | packages/blaueis-core/src/blaueis/core/crypto.py:71-106 | in every run from a fresh session pair the (key, nonce) pairs of all successful encryptions of both sides are distinct |
| SecureChannel.Session.Encrypt | packages/blaueis-core/src/blaueis/core/crypto.py:93-106 | the counter advances even when packing it fails |
| SecureChannel.Session.Decrypt | packages/blaueis-core/src/blaueis/core/crypto.py:108-117 | the counter is taken over before the envelope is opened |
| SecureChannel.DeriveSession | packages/blaueis-core/src/blaueis/core/crypto.py:148-164 | the two roles map the derived halves crosswise; any other role is an error |
| Override.MergeInPlace | packages/blaueis-core/src/blaueis/core/glossary_override.py:287-337 | the recursive loop computes merge and report in any key order |
| Override.EmptyReportExactly | packages/blaueis-core/src/blaueis/core/glossary_override.py:105-128 | the report is empty if and only if the merge changed nothing |
| Override.SameExactly | packages/blaueis-core/src/blaueis/core/glossary_override.py:318-324 | the comparison: two trees are the same exactly when at every path both have dicts with the same keys, lists of one length, or leaves equal as Python compares |
| Override.OverrideTakesEffect | packages/blaueis-core/src/blaueis/core/glossary_override.py:287-324 | at every path the override has with no removal above or at it the result holds what the override holds there; a dict stays a dict |
| Override.RemovalTakesEffect | packages/blaueis-core/src/blaueis/core/glossary_override.py:287-324 | at a removal the result holds nothing if and only if the base has dicts all the way down to it; otherwise the removal itself was copied |
| Override.EffectReported | packages/blaueis-core/src/blaueis/core/glossary_override.py:287-337 | a leaf or list of the override is reported, at or above or below its path, if and only if the base holds something different there |
| Override.ReportedDiffers | packages/blaueis-core/src/blaueis/core/glossary_override.py:287-337 | every reported path is a real difference |
| Override.UnreportedUnchanged | packages/blaueis-core/src/blaueis/core/glossary_override.py:287-337 | a path with no reported path above, at or below it is unchanged |
| Override.UnreachedUnchanged | packages/blaueis-core/src/blaueis/core/glossary_override.py:287-324 | what the override does not reach is unchanged |
| Override.RemergeIdle | packages/blaueis-core/src/blaueis/core/glossary_override.py:287-324 | merging again changes nothing if and only if no removal is buried in a part copied whole |
| Override.BuriedRemovalActs | packages/blaueis-core/src/blaueis/core/glossary_override.py:287-324 | the witness: a removal under a new key is copied first and acts in the second merge |
| Override.ApplyOverride | packages/blaueis-core/src/blaueis/core/glossary_override.py:164-187 | sanitise, gate and merge |
| Override.AppliedTakesEffect | packages/blaueis-core/src/blaueis/core/glossary_override.py:164-284 | a leaf or list of the override outside the meta block and the locked fields is what the result holds at its path |
| Override.LockedExactly | packages/blaueis-core/src/blaueis/core/glossary_override.py:193-284 | a field is locked exactly when it is excluded and one of the three reject reasons is among its reasons, listed or keyed |
| Override.MetaKept | packages/blaueis-core/src/blaueis/core/glossary_override.py:131-161 | the meta block is always the base's |
| Override.LockedFieldKept | packages/blaueis-core/src/blaueis/core/glossary_override.py:203-284 | a field excluded for a reject reason survives if and only if its category and the field block stay dicts and are not removed |
| Override.LockedFieldLost | packages/blaueis-core/src/blaueis/core/glossary_override.py:203-284 | the witness: an override that removes or replaces the category loses the field |
| DebugRing.LongestFittingSuffix | packages/blaueis-core/src/blaueis/core/debug_ring.py:107-121 | what is kept is the longest suffix of the history that fits, or the last record alone |
| DebugRing.DebugRing.Emit | packages/blaueis-core/src/blaueis/core/debug_ring.py:107-121 | appending and evicting keeps the buffer equal to that suffix and the byte count to its sum |
| DebugRing.DebugRing.Clear | packages/blaueis-core/src/blaueis/core/debug_ring.py:180-183 | the history starts over |

## Left out

- Floating point: numbers are exact reals; linear encodings have an integer inverse scale.
- BCD and multi-byte encodings, the tenths nibble, composite fields, formulas, capability-resolved encodings, cross-byte condition predicates.
- Codec.Decode: the sentinel and range gates, which suppress readings of response frames, and negative offsets.
- Glossary slots are assumed to satisfy `0 <= low <= high <= 7`; the source raises on others.
- Collisions.BuildCatalogue: one scope at a time; the walk over sections, property identifiers and capability frames is not modelled, nor is the sort order of the report.
- Observers.Report: decoding a data frame into readings is a parameter of the ingest, and so are suppression marks and frame counters.
- Observers.MirrorRun: readers call with clocks that have moved past every stored timestamp of the field and with fields whose priority list looks at optimistic writes first, which the default list does.
- Timestamps are integers; malformed ones and comparisons of mixed types are not modelled.
- Envelope comparisons that Python cannot make leave the value as it is; comparisons between strings inside an envelope are not modelled.
- The cached field map of the status store and the `results` dict of a command.
- StatusDb.StatusDB.BuildPart: which parts are sent is decided here, the octets are in Sending.Body and Sending.RecordBody; a final value the encoder cannot take raises in the source, and no send is then reached.
- Sending.CommandOnTheWire: values the encoder cannot take, and unchanged fields that are hidden or share no position with a changed one, which Sending.UnchangedOnTheWire covers.
- GlossaryLint.LintExact: a glossary that puts a mode list on `operating_mode` itself.
- Packing.LosslessExactly: an inverted, conditional or combining first step, and a one-bit bool with an added constant, a flag or an encoding, are encoded but not asked to decode back.
- Observers.Op: a command of a run keeps only whether a send raises, since its frames do not touch the status.
- Command.Preflight: field names are unique in the field map; the label strings of positions are not built.
- Command.SiblingKept: visible siblings only; what hidden ones are sent as is in Sending.UnchangedOnTheWire.
- Command.CmdField.Position: property identifiers are pairs of octets, so two spellings of one identifier are one property.
- Command.ProtectedExactly: for a field that stays visible whatever its own sources hold, with the other fields of its positions passing.
- PropertyWrite.BuildBody: the order in which property identifiers sort is a parameter.
- UartStream.ReadOneFrame: a read cancelled by a timeout in the middle of a frame.
- Capabilities.ApplyField: decode_data_cap is a table from data octets to envelopes; frame counters and warnings are not kept.
- Capabilities.StatusDocument.FinalizeCapabilities: every status entry has an availability key.
- Uart.UartProtocol.OnFrame: bodies of the frames the dongle makes, forwarding to clients, and the advisory correlation of replies; the silence clock is a parameter.
- DeviceLink.ReportsAlternate: starting twice at once or while stopping is not modelled; cancelled handshakes may still finish, so only the generation test is relied on.
- Admission.GatewayServer: handlers are numbered; the broadcast and message loop are not modelled.
- SecureChannel.AcceptedIsSubsequence: AES-GCM is an ideal AEAD, HKDF an arbitrary function with different keys per direction; counters are integers.
- Override.ApplyOverride: the message list; dict order; dotted paths are key lists, so keys that contain dots stay apart; reasons given as a string or a number.
- DebugRing.DebugRing.Emit: serialising a log record, its lock and level filter.
- WebSocket, serial and asyncio plumbing, configuration, remote update, query planning, inventory and compare reports, command-line tools.
