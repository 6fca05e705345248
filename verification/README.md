# A verified model of the keyboard firmware's core

The firmware turns matrix readings into key events, decides which keys were tapped and which held,
schedules callbacks, and keeps key maps and macros in EEPROM. This project models the state
machines, stores and codecs in which that is hard to get right, and proves what they guarantee over
every input and every run.

`dafny verify dfyconfig.toml` checks all of it.

## How it is laid out

Code that changes state step by step is a class or a method with the firmware's own variables,
arrays, rings, pointers and loops (`Tapping.Engine`, `DeferredExec.Executor`, `Via.Store`,
`DynamicMacro.MacroBuffer`, `LayerCache.Layers`, `EepromI2c.Eeprom`, `PageDevices.FlashSpi`,
`Encoder.EventQueue`, `Encoder.Quadrature`, `Matrix.Scanner`, and the loops of `MacroSend`,
`Uf2Convert`, `Crc` and `CrcTable`). Each such method is proved equal to a function on plain values,
and the guarantees are proved about runs of that function.

- **Tap/hold engine** (`Keyboard`, `TappingSpec`, `Tapping`, `TappingRun`, `TappingOrder`,
  `TappingEvidence`, `TappingJumps`, `TappingLiveness`, `TappingCounts`). One tapping slot and an 8-cell
  ring, 16-bit wrapping time.
  The tap test, permissive hold, hold-on-other-key and both terms are arbitrary functions of the
  record asked about and of everything handed on so far, so they may depend on the layer state.
- **Deferred executor** (`DeferredSpec`, `DeferredIdeal`, `DeferredRun`, `DeferredGuarantees`,
  `DeferredPromises`, `DeferredTiming`, `DeferredLimits`, `DeferredAnswers`, `DeferredExec`). 8-bit
  tokens, 32-bit deadlines, callbacks that defer, extend and cancel in the same table. The wrapping
  executor refines an ideal scheduler with unbounded deadlines; both keep a log of notes, in true time,
  on which the guarantees are stated.
- **VIA store and dynamic keymap** (`ViaStore`, `ViaCrash`, `Via`, `KeymapViews`, `EncoderViews`, `MacroSend`,
  `MacroText`, `Bytes`, `Arithmetic`). Every byte write is a point at which power may go.
- **Page devices** (`PageDevices`, `EepromI2c`). Block writes over an SPI flash and an I2C EEPROM that
  wrap inside a page; the EEPROM may keep the bank in its I2C address.
- **Dynamic macros** (`DynamicMacro`), **layer masks and source layer cache** (`LayerMasks`,
  `LayerCache`).
- **UF2** (`Uf2`, `Uf2Producers`, `HexFiles`, `Uf2Exact`, `Uf2Convert`). Both producers and the decoder.
- **Encoders** (`EncoderPulses`, `Encoder`), **matrix** (`MatrixSpec`, `Matrix`), **CRC** (`Crc`,
  `CrcTable`).

## Where the code does less than one would expect

The code is modelled as it is. For each of these there is a lemma with a concrete input and, but for
the last, the exact condition under which the code does what is wanted.

- A key's events can change order: a release that arrives while its press waits and no tapping key is
  undecided is handed on first (`TappingOrder.ReleaseCanOvertakeItsPress`; exactly when:
  `TappingOrder.StepKeepsOrderIff`).
- A tapping key can be taken as a hold in the very call that presses it: if it enters the slot while
  earlier records wait, these are compared with it, and the wrapped time difference looks like a timeout
  (`TappingJumps.PressHeldAtOnce`; exactly when it is held at once: `TappingJumps.HeldAtOnceIff`; exactly
  when every decision of a step has its evidence: `TappingJumps.EvidenceIff`).
- Permissive hold can pair a release that was waiting with a press that came after it
  (`TappingJumps.ReleaseThenPressHolds`; exactly when: `TappingJumps.WaitingReleaseHoldsIff`).
- Delays and pass gaps below 2^31 ms do not suffice for the deferred executor: the lag of a repeating
  callback adds up and a firing is lost (`DeferredLimits.LaggingRepeatIsLost`; exactly when one turn
  deviates: `DeferredRun.VisitRefinesIff`; a discipline that suffices, as long as no callback meets its
  own token: `DeferredTiming.TimelyExecutorIsIdeal`).
- A callback that cancels itself and queues again may get its own 8-bit token back and is then
  rescheduled as if it were the old registration (`DeferredLimits.TokenComesBack`; exactly when:
  `DeferredLimits.RequeueReusesIff`; for any callback, how often it may queue safely:
  `DeferredLimits.FewDefersAreReuseFree`).
- Sending a macro whose number equals the number of NULs reads past the region
  (`MacroSend.SecondOfOneOverruns`; exactly when: `MacroSend.Send`), and a macro code that is not known
  is sent with leftovers of an earlier one (`MacroSend.UnknownCodePicksUpLeftovers`; exactly when:
  `MacroSend.SentExactlyIff`).
- On EEPROM chips with the bank in the I2C address, a block write across two banks goes on at the start
  of the first (`EepromI2c.WriteAcrossBanks`; exactly when it is flat: `EepromI2c.FlatIffOneBank`).
- The copy loop of an EEPROM block write counts in eight bits and never ends on a bite of 256 bytes or
  more (`EepromI2c.WholeLargePage`; exactly when it ends: `EepromI2c.CopyEndsIff`).
- An encoder resolution of 128 or more overflows the 8-bit pulse counter
  (`EncoderPulses.WrapLosesSteps`; exactly when: `EncoderPulses.AccountedIff`).
- `convert_from_uf2` means to skip a block with a bad magic, but the message adds a string and a
  number, which raises (`Uf2.ZeroBlockRaises`; exactly when it does as meant: `Uf2.SkipsIff`).
- The two builds of the CRC are different codes (`CrcTable.BuildsDiffer`).

## Model

| member | source | states |
|---|---|---|
| `Tapping.Engine.ProcessTapping` | quantum/action_tapping.c:223-621 | one `process_tapping` call, on a record that may itself lie in the ring, leaves exactly the state, return value and record that the branch-by-branch specification over a plain queue gives |
| `Tapping.Engine.ActionTappingProcess` | quantum/action_tapping.c:131-170 | processing an event, enqueueing or clearing on overflow, and draining the ring is one step of the specification |
| `Tapping.Engine.DrainBuffer` | quantum/action_tapping.c:147-160 | the drain loop hands records on until one is retained and keeps the rest in order |
| `Tapping.Engine.WaitingBufferScanTap` | quantum/action_tapping.c:682-709 | the first queued release of the tapping key inside its term, and only that, settles the slot as a tap |
| `Tapping.Engine.WaitingBufferEnq` | quantum/action_tapping.c:627-643 | appends at the tail; refuses exactly when seven records wait |
| `Tapping.Engine.WaitingBufferTyped` | quantum/action_tapping.c:658-665 | finds whether the queue holds the opposite event of the same key |
| `Tapping.Engine.WaitingBufferClear` | quantum/action_tapping.c:649-652 | leaves nothing waiting |
| `TappingRun.ProcessConserves` | quantum/action_tapping.c:223-621 | every branch keeps an event waiting, puts it in the slot or hands it on, once, and never past an undecided press of its key; the slot is never released with count 0 |
| `TappingRun.NothingLostNothingDuplicated` | quantum/action_tapping.c:131-170 | in every run the events since the last overflow are, as a multiset, those handed on, the undecided tapping key and the ring; the slot invariant holds throughout |
| `TappingOrder.StepKeepsOrderIff` | quantum/action_tapping.c:131-170 | an arrival keeps every key's order if and only if it does not overtake a waiting event of its key, a condition on the state and event before the call |
| `TappingOrder.EachKeyKeepsItsOrder` | quantum/action_tapping.c:131-170 | in every alternating run with no overtaking, a key's handed, undecided and queued events are its inputs in order |
| `TappingOrder.PromptNeverOvertakes` | quantum/action_tapping.c:131-160 | arrivals with nothing waiting or the tapping key undecided never overtake |
| `TappingOrder.ReleaseCanOvertakeItsPress` | quantum/action_tapping.c:131-160 | a run of four events in which a key's release is handed on before its press |
| `TappingOrder.OverflowForgets` | quantum/action_tapping.c:139-145 | an overflow empties slot, ring and account |
| `TappingEvidence.EveryDecisionHasEvidence` | quantum/action_tapping.c:281-527 | in every run whatever, what step n hands on from the slot is the press of some input p that an input q <= n decided under step n's settings: a tap by a release of its key less than a term after it; a hold by an input at or past the term, by the release of a nested tap under permissive hold, or by a press under hold-on-other-key; q came after p unless that very press entered the slot while records waited; the nested press came before q if q is the arriving input, and after q otherwise |
| `TappingJumps.EvidenceIff` | quantum/action_tapping.c:131-160 | in every run whose inputs are stamped after what waits, and at every step of it whatever went before: each decision of the step was made by an input later than the press if and only if the arriving event is not a press that enters the slot while records wait |
| `TappingEvidence.SlotAfter` | quantum/action_tapping.c:223-621 | whatever undecided key is in the slot after a call was there before, or is the record that the entry condition lets in |
| `TappingJumps.HeldAtOnceIff` | quantum/action_tapping.c:131-160 | of an event stamped after everything waiting, a step hands the press on from the slot at once if and only if the press enters the slot while records wait |
| `TappingJumps.JumpIsHeldAtOnce` | quantum/action_tapping.c:516-523 | the whole state after such a step: the press is a hold, everything still waits |
| `TappingJumps.PressHeldAtOnce` | quantum/action_tapping.c:147-160 | a run of four presses whose last is handed on as a hold in its own call |
| `TappingJumps.WaitingReleaseHoldsIff` | quantum/action_tapping.c:339-371 | a waiting release inside the term settles the slot if and only if permissive hold is on and a press of its key waits behind it |
| `TappingJumps.ReleaseThenPressHolds` | quantum/action_tapping.c:339-371 | a run in which releasing and pressing a modifier again counts as a nested tap |
| `TappingLiveness.TickProgress` | quantum/action_tapping.c:274-280 | a tick with records waiting brings a bound on the remaining ticks down |
| `TappingLiveness.EveryRunSettles` | quantum/action_tapping.c:131-160 | after any run, 8 * (longest term + 2) ticks with consecutive stamps empty the ring, also across timer wrap |
| `TappingLiveness.BufferFits` | quantum/action_tapping.c:627-643 | at most seven records wait in any reachable state |
| `TappingCounts.QuickTapsCount` | quantum/action_tapping.c:242-584 | n quick taps of a key on an idle engine, for every n, are handed on as n presses and n releases, in order, with counts 1 and 1, 2 and 2, up to 15, and leave the last release in the slot |
| `TappingCounts.CountedOnIff` | quantum/action_tapping.c:564-584 | a further press of a tapped key counts one more if and only if it comes inside both terms and no other key interrupted; otherwise it enters the slot undecided |
| `TappingCounts.LatePressEnters` | quantum/action_tapping.c:611-619 | a tap key pressed after the term of the last tap enters the slot undecided |
| `TappingCounts.OtherPressInterrupts` | quantum/action_tapping.c:599-605 | a plain key pressed inside the term is handed on and interrupts the sequence of taps |
| `TappingCounts.ReleaseCarriesCount` | quantum/action_tapping.c:475-560 | through any traffic that does not enter the slot, a key counted as a tap keeps its count, and its release is handed on with it; inside the term it stays in the slot |
| `TappingCounts.TapsWereHanded` | quantum/action_tapping.c:223-621 | in every run, a counted key that is down in the slot was handed on exactly as it stands there, so the count its release carries is that of its press |
| `TappingCounts.HoldReleasedAsHold` | quantum/action_tapping.c:242-267 | through the same traffic, the release of a key that left the slot as a hold is handed on with count 0 |
| `TappingCounts.SettledExactly` | quantum/action_tapping.c:275-523 | exactly what settles an undecided key: its own release inside the term makes a tap of count 1, whose release waits with that count; a record past the term, a nested tap or another press makes a hold; all else leaves it undecided |
| `TappingCounts.HandedAs` | quantum/action_tapping.c:223-621 | a call hands records on as they are, but for the release of a tapped key, which takes its tap state, and a further tap, which counts one more; releases are made up only for keys tapped twice or more |
| `TappingCounts.ScanTapExactly` | quantum/action_tapping.c:682-709 | of the waiting records the first release of the tapping key inside its term settles it and is marked with count 1 |
| `DeferredExec.Executor.TokenCanBeUsed` | quantum/deferred_exec.c:18-28 | a token is usable if and only if it is not zero and no entry has it |
| `DeferredExec.Executor.AllocateToken` | quantum/deferred_exec.c:30-40 | finds the first usable token after the counter, around the 8-bit range, or none after one round |
| `DeferredExec.Executor.DeferExecAdvanced` | quantum/deferred_exec.c:46-73 | the table and token after a defer, or the refusal |
| `DeferredExec.Executor.ExtendDeferredExecAdvanced` | quantum/deferred_exec.c:75-93 | the deadline of exactly the entry with the token moves |
| `DeferredExec.Executor.CancelDeferredExecAdvanced` | quantum/deferred_exec.c:95-116 | exactly the entry with the token is cleared |
| `DeferredAnswers.DeferAnswers` | quantum/deferred_exec.c:46-73 | a defer answers INVALID if and only if the entries are unchanged, and exactly if it asks for no delay, no callback, or finds no free slot or no token; otherwise the answer is a token no entry had and one entry now has, with the given callback, argument and deadline, and cancelling it restores the entries |
| `DeferredAnswers.ExtendAnswers` | quantum/deferred_exec.c:75-93 | extending answers true if and only if the delay is not 0 and some entry has the token; then just that entry is due the delay from now |
| `DeferredAnswers.CancelAnswers` | quantum/deferred_exec.c:95-116 | cancelling answers true if and only if some entry has the token; then just that entry is free |
| `DeferredAnswers.FreeStaysClean` | quantum/deferred_exec.c:46-157 | in every run free entries are all zero, so that cancelling what was deferred always restores them |
| `DeferredExec.Executor.DeferredExecAdvancedTask` | quantum/deferred_exec.c:118-157 | a pass with re-entrant callbacks is the fold of one turn per slot over the changing table |
| `DeferredSpec.AllocateSucceeds` | quantum/deferred_exec.c:30-40 | allocation succeeds if and only if a token is usable, and always if a slot is free in a table of at most 255 |
| `DeferredRun.TokensStayDistinct` | quantum/deferred_exec.c:18-157 | in every run, with any re-entrant callbacks and any timing, live tokens are pairwise distinct |
| `DeferredIdeal.ApplyRefines` | quantum/deferred_exec.c:46-116 | defer, extend and cancel on the stored table are those of the ideal scheduler |
| `DeferredRun.WindowExact` | quantum/deferred_exec.c:118-135 | the wrapped comparison agrees with the true times if and only if they lie in the 2^31 window |
| `DeferredSpec.SearchGives` | quantum/deferred_exec.c:30-40 | the search gives a usable token if and only if every token from the counter up to it is in use |
| `DeferredRun.VisitRefines` | quantum/deferred_exec.c:127-157 | one turn of the pass loop is the ideal one, log included, if the deadline is in the window and the callback does not meet its own token |
| `DeferredRun.VisitRefinesIff` | quantum/deferred_exec.c:127-157 | and only if, for deadlines less than 2^32 ms away |
| `DeferredRun.RunRefines` | quantum/deferred_exec.c:46-157 | so is every run whose passes are safe |
| `DeferredGuarantees.NeverEarly` | quantum/deferred_exec.c:118-157 | in every run of the ideal scheduler every callback is called at or after its true deadline, and live jobs have the deadlines the log tells |
| `DeferredGuarantees.DueIsStartPlusDelays` | quantum/deferred_exec.c:137-157 | a deadline in a log is the one last set plus the sum of the delays returned since |
| `DeferredGuarantees.NoneMissed` | quantum/deferred_exec.c:118-157 | a due job is called in the pass unless a callback extends or cancels it first |
| `DeferredGuarantees.EveryPass` | quantum/deferred_exec.c:118-157 | in every pass of every ideal run, due jobs are called; only entries the table held at its start are called, in slot order, each at most once |
| `DeferredPromises.SafeExecutorIsOnTime` | quantum/deferred_exec.c:118-157 | in every run whose passes see their deadlines in the window and whose callbacks do not meet their own tokens, the wrapping executor itself never calls a callback before its true deadline, its repeats do not drift, and each entry holds its true deadline modulo 2^32 |
| `DeferredPromises.SafePassIsPrompt` | quantum/deferred_exec.c:118-157 | and each of its passes that is not throttled calls whatever is truly due (unless extended or cancelled in the pass), only what the table held at its start, each slot once, and nothing registered in the pass |
| `DeferredTiming.TimelyExecutorIsIdeal` | quantum/deferred_exec.c:118-157 | with passes that begin at most `gap` apart and take at most `gap`, repeat delays of at least `gap`, gap + 2 * longest delay < 2^31, and no callback that meets its own token, the wrapping executor is the ideal one in every run |
| `DeferredTiming.TimelyExecutorIsOnTime` | quantum/deferred_exec.c:118-157 | under the same premises its callbacks are on time and do not drift |
| `DeferredTiming.TimelyPassIsPrompt` | quantum/deferred_exec.c:118-157 | under the same premises its passes are prompt |
| `DeferredLimits.LaggingRepeatIsLost` | quantum/deferred_exec.c:118-157 | a run with every delay and gap below 2^31 that loses a firing |
| `DeferredLimits.RequeueReusesIff` | quantum/deferred_exec.c:46-116 | a callback that cancels itself and queues again meets its own token if and only if, before it is called, no earlier slot is free and every token from the counter to its own is in use |
| `DeferredLimits.FewDefersAreReuseFree` | quantum/deferred_exec.c:30-116 | whatever a callback cancels, extends and queues in its table, it does not meet its own token if it queues no more often than there are usable tokens from the counter to its own |
| `DeferredLimits.TokenComesBack` | quantum/deferred_exec.c:137-157 | a run from boot in which that happens and the executor leaves the ideal one |
| `DeferredLimits.KeepingOneselfIsReuseFree` | quantum/deferred_exec.c:137-157 | a callback that does not cancel its own token cannot meet it |
| `Via.Store.ViaEepromIsValid` | quantum/via.c:62-71 | reads valid if and only if all three magic bytes are there |
| `Via.Store.ViaEepromSetValid` | quantum/via.c:73-82 | the magic writes, as far as power lasts |
| `Via.Store.ViaSetLayoutOptions` | quantum/via.c:135-144 | the option bytes from the least significant one down, as far as power lasts |
| `Via.Store.EeconfigInitVia` | quantum/via.c:106-117 | the memory after initialisation is the prefix of its writes that power allowed |
| `Via.Store.ViaInit` | quantum/via.c:93-104 | a boot initialises an invalid store and leaves a valid one alone |
| `Via.Store.SetKeycode` | quantum/dynamic_keymap.c:122-128 | two big-endian writes at the key's address, none out of range |
| `Via.Store.SetEncoder` | quantum/dynamic_keymap.c:144-151 | two big-endian writes at the encoder's address, none out of range |
| `Via.Store.KeymapReset` | quantum/dynamic_keymap.c:153-168 | the nested loops write the flash code of every key and encoder turn, layer by layer |
| `Via.Store.MacroReset` | quantum/dynamic_keymap.c:248-255 | zeros from the first to the last macro byte |
| `Via.KeyIndexDecodes` | quantum/dynamic_keymap.c:108-111 | a key's index is in range and decodes to its layer, row and column |
| `ViaStore.DataPainted` | quantum/via.c:106-117 | initialisation's data writes fill options, key maps and macros with the factory image and touch nothing else |
| `ViaCrash.HalfDoneIsInvalid` | quantum/via.c:106-117 | cut anywhere between the first and the last write, the store reads invalid |
| `ViaCrash.CompletedIsFactory` | quantum/via.c:106-117 | run to its end, the store is valid and holds the factory contents |
| `ViaCrash.CrashConsistent` | quantum/via.c:62-117 | through any boots, resets and edits with any power losses, the store is valid if and only if the store with atomic initialisation holds contents, and they hold the same |
| `ViaCrash.CompletedBootIsValid` | quantum/via.c:93-104 | one boot that completes leaves a valid store, untouched or factory |
| `ViaCrash.OtherBuildStartsAnew` | quantum/via.c:62-104 | a store valid for one build is valid for another if and only if all three magic bytes agree; otherwise its boot initialises |
| `KeymapViews.KeyInStore` | quantum/dynamic_keymap.c:108-111 | every key lies in the key table, clear of encoders and macros |
| `KeymapViews.KeysApart` | quantum/dynamic_keymap.c:108-111 | no two keys share a byte |
| `KeymapViews.SetThenGet` | quantum/dynamic_keymap.c:113-128 | setting a key changes what that key reads and no other; out of range nothing |
| `KeymapViews.ResetReadsBack` | quantum/dynamic_keymap.c:153-168 | in a factory store every key reads its flash code |
| `KeymapViews.OptionsRoundTrip` | quantum/via.c:121-144 | options read back modulo 256^size |
| `KeymapViews.BulkWriteIsKeyWrites` | quantum/dynamic_keymap.c:185-196 | a bulk write of any window equals the big-endian per-key writes, clamped at the last key |
| `KeymapViews.BufferRoundTrip` | quantum/dynamic_keymap.c:170-196 | a window reads back what was written, zeros past the end |
| `KeymapViews.GetKeycode` | quantum/dynamic_keymap.c:113-120 | the two bytes of the key, or 0 out of range |
| `KeymapViews.ViaGetLayoutOptions` | quantum/via.c:121-131 | the number the option bytes spell, in 32 bits |
| `KeymapViews.SetBuffer` | quantum/dynamic_keymap.c:185-196 | the clamped writes of the window, as far as power lasts |
| `KeymapViews.GetBuffer` | quantum/dynamic_keymap.c:170-183 | the window, with zeros past the key table |
| `EncoderViews.SetTurnThenGet` | quantum/dynamic_keymap.c:131-151 | setting an encoder turn changes what that turn reads and no other; out of range nothing |
| `EncoderViews.TurnsApart` | quantum/dynamic_keymap.c:131-133 | no two turns have the same place in the encoder table |
| `EncoderViews.TurnLeavesKeys` | quantum/dynamic_keymap.c:144-151 | setting a turn changes what no key reads |
| `EncoderViews.KeyLeavesTurns` | quantum/dynamic_keymap.c:122-128 | setting a key changes what no turn reads |
| `EncoderViews.ResetTurnsReadBack` | quantum/dynamic_keymap.c:153-168 | in a factory store every turn reads its flash code |
| `EncoderViews.ResetRestReadsBack` | quantum/via.c:106-117 | in a factory store the options read their default modulo 256^size and the macros are all zero |
| `EncoderViews.GetEncoder` | quantum/dynamic_keymap.c:135-142 | the two bytes of the turn, or 0 out of range |
| `MacroSend.Send` | quantum/dynamic_keymap.c:257-340 | refuses, overruns or sends according to the NULs in the region; if it sends, it sends the parse of exactly macro `id` |
| `MacroSend.SecondOfOneOverruns` | quantum/dynamic_keymap.c:271-285 | a two-byte region in which macro 1 makes the skip loop leave with the pointer at the end |
| `MacroSend.SendFrom` | quantum/dynamic_keymap.c:282-340 | the parse loop stays at or before the terminator and sends the pieces of the specification |
| `MacroSend.ReadDelay` | quantum/dynamic_keymap.c:310-328 | the delay loop finds the bar and stays inside the temporary buffer |
| `MacroSend.SentExactlyIff` | quantum/dynamic_keymap.c:282-340 | a macro sent to its end is sent byte for byte if and only if none of its unknown codes comes after a tap, down, up or delay code |
| `MacroSend.UnknownCodePicksUpLeftovers` | quantum/dynamic_keymap.c:282-340 | a five-byte macro of which six bytes are sent |
| `MacroText.ItemsSent` | quantum/dynamic_keymap.c:282-340 | a macro written as characters, taps, downs and ups of key codes and delays of one to four characters is sent as just these strings, in order |
| `MacroText.WellFormedSentExactly` | quantum/dynamic_keymap.c:282-340 | any bytes that are such a text are sent to their end, byte for byte |
| `MacroText.MacrosLieInOrder` | quantum/dynamic_keymap.c:271-285 | of NUL-free macros laid out one behind the other, each ended by a NUL, with anything after them, number i is the i-th |
| `MacroText.WrittenIsSent` | quantum/dynamic_keymap.c:257-340 | from written macros to strings: number i of the region sends the items of macro i |
| `DynamicMacro.MacroBuffer.ProcessRecord` | quantum/dynamic_macro.h:154-260 | every event in every mode is one step of two abstract macros; the macros never overlap |
| `DynamicMacro.MacroBuffer.RecordKey` | quantum/dynamic_macro.h:104-121 | drops leading releases, stops at the other macro, and never moves past it |
| `DynamicMacro.MacroBuffer.RecordEnd` | quantum/dynamic_macro.h:128-142 | trims trailing presses, never before the start |
| `DynamicMacro.MacroBuffer.Play` | quantum/dynamic_macro.h:77-93 | plays the stored records in recording order, in either direction |
| `DynamicMacro.RecordThenPlay` | quantum/dynamic_macro.h:60-260 | for any events between start and the press of stop, play keys and releases of stop among them: the macro then plays the other events without leading releases, as many as fit, without trailing presses, and goes on doing so until its own recording starts again |
| `DynamicMacro.RunKeeps` | quantum/dynamic_macro.h:154-260 | traffic that does not start recording a macro anew, by releasing its start key while idle, does not change it |
| `DynamicMacro.PassesOnExactly` | quantum/dynamic_macro.h:154-260 | over every run the records passed on are the inputs in order, minus stop and play keys while recording and minus releases of start and play keys otherwise |
| `DynamicMacro.OrdinaryKeysPass` | quantum/dynamic_macro.h:221-260 | a key that is none of the five codes is always passed on and starts and stops nothing |
| `DynamicMacro.PlaysExactly` | quantum/dynamic_macro.h:154-260 | a macro is played exactly when its play key is released while nothing is recorded, and a step that neither starts nor stops a recording changes no macro |
| `LayerCache.StoreBitStores` | quantum/action_layer.c:232-242 | the XOR trick stores one bit and keeps the other seven |
| `LayerCache.ColumnsStored` | quantum/action_layer.c:232-242 | storing a layer in one column keeps the other seven keys of the row |
| `LayerCache.Layers.UpdateCache` | quantum/action_layer.c:232-242 | one entry gets the layer, every other entry keeps its own |
| `LayerCache.Layers.ReadCache` | quantum/action_layer.c:244-254 | reads the layer the bits spell |
| `LayerCache.Layers.StoreOrGetLayer` | quantum/action_layer.c:299-315 | a press resolves and remembers, a release gets what is remembered |
| `LayerCache.Layers.LayerSwitchGetLayer` | quantum/action_layer.c:323-343 | the search from the top layer down |
| `LayerCache.TopLayerResolves` | quantum/action_layer.c:323-343 | its result is the highest active layer that is not transparent at the key, or 0 |
| `LayerMasks.MasksAreSets` | quantum/action_layer.c:133-208 | the bit operators on masks are union, intersection, symmetric difference and difference of the layers they stand for |
| `LayerCache.Layers.ChangeLayers` | quantum/action_layer.c:61-208 | each operation, computed on the masks with the source's operators, turns on exactly the layers its name says: one more, one less, one turned over, only one, none, or the combination with a given mask; likewise for the default layers |
| `LayerCache.Layers.EntriesDiffer` | quantum/action_layer.c:260-289 | different keys have different cache entries |
| `LayerCache.RunInputs` | quantum/action_layer.c:260-315 | any run on the bit-sliced cache is the run on a plain map from key to layer |
| `LayerCache.ReleaseMatchesPress` | quantum/action_layer.c:299-315 | a release resolves to the layer of the latest press, whatever came between |
| `PageDevices.WrapIsFlat` | drivers/eeprom/eeprom_i2c.c:97-140 | a write that ends in its page does not wrap |
| `PageDevices.FlatConcat` | drivers/eeprom/eeprom_i2c.c:97-140 | consecutive writes are one flat write |
| `EepromI2c.Eeprom.FillTargetAddress` | drivers/eeprom/eeprom_i2c.c:48-54 | the packed bytes decode to the location modulo the bank, the rest of the packet is untouched |
| `EepromI2c.Eeprom.WriteBlock` | drivers/eeprom/eeprom_i2c.c:97-140 | for every location and every length whose bites are below 256: no page wraps, and each byte goes to the low part of its own location in the bank of the block's first byte |
| `EepromI2c.FlatIffOneBank` | drivers/eeprom/eeprom_i2c.c:97-140 | that is one flat overwrite, for all memories and data, if and only if the block stays in one bank |
| `EepromI2c.WriteAcrossBanks` | drivers/eeprom/eeprom_i2c.c:127-128 | two bytes at the end of a 64 KiB bank, the second of which overwrites the start of that bank |
| `EepromI2c.CopyEndsIff` | drivers/eeprom/eeprom_i2c.c:114-116 | the 8-bit counter ends the copy loop if and only if the bite is below 256 |
| `EepromI2c.WholeLargePage` | drivers/eeprom/eeprom_i2c.c:107-116 | a page of 256 bytes written whole is one bite that no number of rounds reaches |
| `EepromI2c.SmallBitesEnd` | drivers/eeprom/eeprom_i2c.c:107-112 | so it does on pages below 256, and for blocks below 256 on any page |
| `EepromI2c.Eeprom.Erase` | drivers/eeprom/eeprom_i2c.c:65-79 | for any configured byte count, on pages the copy loop can write: exactly the whole pages that cover it are zero, across banks |
| `EepromI2c.Eeprom.UpdateBlock` | drivers/eeprom/eeprom_driver.c:52-58 | writes nothing or what writing would; in one bank the same memory as a flat write |
| `EepromI2c.Eeprom.UpdateValue` | drivers/eeprom/eeprom_driver.c:60-79 | writes nothing if the value is stored already, else what writing it would; in one bank the same memory as a flat write of the little-endian value |
| `PageDevices.FlashSpi.PackAddress` | drivers/flash/flash_spi.c:128-163 | the packed address decodes back |
| `PageDevices.FlashSpi.WriteBlock` | drivers/flash/flash_spi.c:316-376 | success, which a bus without failures always gives, means every byte is the AND of old and new at its own address; failure leaves a prefix done |
| `PageDevices.ProgramOnlyClears` | drivers/flash/flash_spi.c:316-376 | programming clears bits and sets none, and clears no more than it must |
| `PageDevices.ErasedTakesData` | drivers/flash/flash_spi.c:316-376 | on an erased stretch the data itself is stored |
| `Uf2.EncodedFields` | util/uf2conv.py:144-166 | every header field and the data of an encoded block read back |
| `Uf2.EncodedTrailer` | util/uf2conv.py:160-166 | the device type and the final magic read back from behind the data |
| `Uf2.SkipsIff` | util/uf2conv.py:49-54 | where the decoder that passes over bad magics succeeds, the code does the same if and only if no block has a bad magic; otherwise it raises |
| `Uf2.ZeroBlockRaises` | util/uf2conv.py:52-54 | 512 zero bytes raise |
| `Uf2.DecodeUndoesEncode` | util/uf2conv.py:37-109 | decoding the blocks of pages in order gives them laid out flat, and their start address |
| `Uf2Producers.BinaryRoundTrip` | util/uf2conv.py:121-142 | decoding an encoded binary gives it back padded to whole pages, with its start address |
| `Uf2Producers.LineReadsBack` | util/uf2conv.py:168-184 | a record written as a HEX line, ended in either style, is what the loop sees |
| `Uf2Producers.RisingIsPaged` | util/uf2conv.py:185-199 | rising data bytes are gathered into ascending pages that lay out as the zero-filled image |
| `Uf2Producers.HexRoundTrip` | util/uf2conv.py:168-205 | rising data with gaps up to 10 MiB comes back as the flat zero-filled image from its first page |
| `HexFiles.WholeFileGathered` | util/uf2conv.py:168-199 | bytes at any 32-bit addresses, written as standard HEX lines with linear bases, segment bases or the base in force, then an end record and anything after it, are gathered as exactly those bytes at those addresses |
| `HexFiles.HexFileRoundTrip` | util/uf2conv.py:168-205 | such a file of rising addresses, converted to UF2 and decoded, gives each byte at its own address in the flat zero-filled image from the first page |
| `HexFiles.ValueIsData` | util/uf2conv.py:185-199 | that image holds each byte of the data at its address |
| `HexFiles.BaseGathered` | util/uf2conv.py:182-186 | a linear address record sets the base to its half times 2^16, a segment record to its segment times 16 |
| `HexFiles.DataGathered` | util/uf2conv.py:189-199 | a data record puts its bytes at base plus offset onwards |
| `HexFiles.OtherLines` | util/uf2conv.py:174-190 | other record types and lines without a colon are passed over; empty lines and records too short for their type raise |
| `Uf2Exact.DecodesIff` | util/uf2conv.py:37-109 | a file of pages decodes if and only if its pages ascend by whole words with at most 10 MiB between them |
| `Uf2Exact.OtherFamilyLeftOut` | util/uf2conv.py:63-80 | decoding for another family leaves out the data, keeps the padding and does not move the start |
| `Uf2Exact.ChangeOfFamily` | util/uf2conv.py:60-109 | a block of a further family starts at its own address without padding; a file that ends with several families gives nothing when none is asked for |
| `Uf2Exact.UntaggedBlock` | util/uf2conv.py:60-80 | a block that names no family goes on where the last ended, and is data only if no family is asked for |
| `Uf2Exact.OtherBlocks` | util/uf2conv.py:54-59 | a block not meant for flash changes nothing; one with more than 476 bytes raises |
| `Uf2Exact.MarkingWords` | util/uf2conv.py:14-16 | the three magic words are the bytes they should be in a file |
| `Uf2Convert.ConvertFromUf2` | util/uf2conv.py:37-109 | the block loop computes the decoder's function, failures included |
| `Uf2Convert.ConvertBlock` | util/uf2conv.py:49-108 | one turn of it, padding loop included |
| `Uf2Convert.ConvertToUf2` | util/uf2conv.py:121-142 | the chunk loop computes the binary producer's function |
| `Uf2Convert.ConvertFromHexToUf2` | util/uf2conv.py:168-205 | the line loop, its byte loop and its early stop compute the HEX producer's function |
| `Uf2Convert.AddRecord` | util/uf2conv.py:185-199 | the byte loop fills pages in place |
| `Uf2Convert.ReadRecord` | util/uf2conv.py:177-181 | the pair loop parses a record, or raises |
| `EncoderPulses.EveryStepAccounted` | drivers/encoder/encoder_quadrature.c:161-207 | over every trace the table steps add up to resolution times net requests plus a residue below the resolution |
| `EncoderPulses.AccountedIff` | drivers/encoder/encoder_quadrature.c:161-207 | that law holds of every trace if and only if the resolution is below 128 |
| `EncoderPulses.WrapLosesSteps` | drivers/encoder/encoder_quadrature.c:161-207 | from 128 on, 128 steps forward break it |
| `EncoderPulses.SumFollowsPosition` | drivers/encoder/encoder_quadrature.c:72-75 | over every trace the steps are congruent mod 4 to the Gray position change plus two per skipped level; without skips, to the position change |
| `EncoderPulses.DetentsDoNotDrift` | drivers/encoder/encoder_quadrature.c:161-207 | at the default resolution a glitch-free trace back to its start leaves no residue |
| `Encoder.Quadrature.HandleRead` | drivers/encoder/encoder_quadrature.c:200-207 | one encoder takes the read, the others keep their state, and what it requests is offered to the queue |
| `Encoder.Quadrature.HandleStateChange` | drivers/encoder/encoder_quadrature.c:161-198 | the count, the requests and the remainder |
| `Encoder.SpinsAsTurned` | drivers/encoder/encoder_quadrature.c:181-194 | a clockwise turn is queued as clockwise unless the direction is flipped |
| `Encoder.ClicksRequested` | drivers/encoder/encoder_quadrature.c:161-207 | at the default resolution any sequence of detents in either direction, pad A leading clockwise, is requested exactly, in order |
| `Encoder.EventQueue.Full` | quantum/encoder.c:85-87 | full if and only if one cell is left |
| `Encoder.EventQueue.Empty` | quantum/encoder.c:93-95 | empty if and only if nothing waits |
| `Encoder.EventQueue.Queue` | quantum/encoder.c:101-116 | appends the event or drops it when full; the wrapping counters stay as far apart as the queue is long |
| `Encoder.EventQueue.Dequeue` | quantum/encoder.c:118-133 | takes the oldest event out; the counters likewise |
| `Encoder.EventQueue.Drain` | quantum/encoder.c:25-28 | nothing waits, and the counters agree |
| `Matrix.DecrementSubtracts` | quantum/keyboard.c:239-242 | the borrow on bits is subtraction of one, wrapping at zero |
| `Matrix.PopcountMoreThanOne` | quantum/keyboard.c:239-242 | nonzero if and only if two bits are set |
| `Matrix.GetRealKeys` | quantum/keyboard.c:226-237 | exactly the set bits that layer 0 maps |
| `Matrix.HasGhostInRow` | quantum/keyboard.c:244-268 | true if and only if another row has two mapped keys down in the same two columns |
| `Matrix.Scanner.MatrixTask` | quantum/keyboard.c:536-589 | one pass emits the edges of the changed rows that are not ghosted and remembers those rows; the others stay as they were |
| `MatrixSpec.EdgesAlternate` | quantum/keyboard.c:536-589 | over every run of snapshots each key's edges alternate from a press, and the remembered matrix is the state they describe |
| `MatrixSpec.RowsUpToDate` | quantum/keyboard.c:565-586 | after a pass every row that is not ghosted is up to date, a ghosted one as before |
| `MatrixSpec.CleanReadSettles` | quantum/keyboard.c:565-586 | once a row reads without ghosts, each of its keys' last edge is what is read |
| `MatrixSpec.PassInOrder` | quantum/keyboard.c:562-586 | a pass reports each key at most once, by rows and by columns in a row |
| `Crc.Crc8` | quantum/crc.c:59-74 | the bit loop computes the checksum of the specification |
| `Crc.Crc8Wide` | quantum/crc.c:59-74 | so it does with a 32-bit register, whose upper bits never matter |
| `Crc.OneByteNoticed` | quantum/crc.c:59-74 | for any length, replacing one byte keeps the checksum if and only if it keeps the byte |
| `Crc.BurstNoticed` | quantum/crc.c:59-74 | any change within eight consecutive bits changes the checksum, across a byte boundary too |
| `CrcTable.TableIsSteps` | quantum/crc.c:27-44 | each of the 256 entries is eight bit steps with polynomial 0x07 |
| `CrcTable.Crc8` | quantum/crc.c:46-57 | the table loop computes the checksum with that polynomial, so the two laws above hold of it |
| `CrcTable.BuildsDiffer` | quantum/crc.c:46-74 | a byte on which the two builds differ |
| `CrcTable.CheckValues` | quantum/crc.c:46-74 | the checksums of the digits 1 to 9: 0xF7 from the bit loop, 0xFB from the table |

## Left out

- Variants of the tap/hold engine with CHORDAL_HOLD, FLOW_TAP_TERM, RETRO_SHIFT or COMBO_ENABLE, and `process_record_tap_hint`.
- What `process_record` does with a record (actions, reports, host); it is an append to the trace and does not edit the record.
- A global order across keys for tapping: the code hands some releases on early by design.
- Deferred callbacks are scripts of calls and a return value for each invocation; what they do outside the table is not modelled.
- The keyboard-level VIA hooks, the HID commands that call the store, and the bulk access to the macro region, which would only repeat the key table's.
- The magic that `eeconfig_init_quantum` writes first; only the VIA sequence is modelled.
- An update that finds its value already stored takes a power step all the same, so a run with fewer real writes is one with more power.
- The waits between played or sent strings, and the LED feedback of macro recording.
- Macro playback into a recorder that is recording; the played records go to a list.
- The encoder part of the source layer cache; it is the same two loops on another array.
- Layer masks are those of the default 16-bit build; the user hooks that may alter a new layer state are the default ones, which do not.
- EepromI2c.Eeprom.Erase: configured byte counts whose last page the chip does not have.
- EEPROM reads across a bank are taken to go on into the next bank, as the chip's sequential read does.
- PageDevices.FlashSpi.WriteBlock: the bus answers are arbitrary, and the busy wait's timer is one of them.
- Splitting HEX text into lines, and characters that `is_hex` has kept out before; records are parsed from lines.
- Console output, family names, files and drives of `uf2conv.py`, the start address it reports for HEX input, and the C array output.
- ENCODER_DEFAULT_POS, reading the encoder pins, and what happens to dequeued events.
- Ticks of the matrix task and its debug output; `action_exec` is assumed not to rescan the matrix.
- Hardware drivers, LED and RGB code, keycode tables, and heuristics such as WPM or OS detection, which carry no law over runs.
