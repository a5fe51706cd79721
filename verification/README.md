# Verified models of the UFS test framework

Dafny models of five parts of the repository, each proved against the property it is there for. `dafny verify dfyconfig.toml`
checks everything.

## The command-package engine (main part)

`enqueue` queues commands and admits them by running totals only. `send` composes each queued command into a 72-byte entry
and lays the package out in one 62 MiB buffer: entries 113 to an 8 KiB group, payloads rounded to 512 bytes after a
data-begin offset, extra header segments (EHS) rounded to 96 bytes in a second buffer. The tester returns the buffer with
responses in any order, and `read_response` finds a command's response through a counter per task tag or tester function.

| file | what it holds |
|---|---|
| Layout | slot arithmetic, data-begin offset, the totals test and its exact capacity |
| CycleTracker | occurrence numbers of keys, cycle indicators, the tracker class |
| Protocols | commands, parameter bytes, the entry and its two patched address words |
| PackageLayout | the image of a package, byte for byte, and how one push extends it |
| ResponseIndex | parsing response slots, the index, matching under reordering |
| BufferManager | the allocator and response index as a class that works in place |
| Package, PackageProperties | enqueue, send and clear as a state machine on values; its invariant; theorems over whole runs |
| TuningProperties | what enqueue does to each field, when each check fails, mark tags and modes over many enqueues |
| SendProperties | when send returns and what it raises, asks for and leaves |
| Executor | the module globals as a class; every method takes the corresponding step of the state machine |
| Responses | own-response, payload round trip, arbitrary call sequences on the class |

The class methods are tied to functions of the old state; what the code is for is then proved about those functions for
every input and every run. The device is arbitrary: whatever buffers it returns, or whatever exception the monitor raises,
are parameters of `send`.

## The other parts

* BitFields: bit-field views on a shared byte buffer, fields of any width, both byte orders.
* Cosine, Ranking, Search, Tokenizer: the retriever's similarity score, reciprocal rank fusion, search and tokenizer.
* LbaSampler: the swap-remove LBA sampler and the LBA table of RPMB performance runs.
* XorParity: XOR parity over pages.

Common, Bytes and Sequences hold shared vocabulary.

## What turned out not to hold

* `enqueue` does not count the EHS of tester commands, `send` pushes it. Admission therefore does not imply room:
  `TesterEhsCanOverflow` is a package that is admitted and then raises BUF_IS_FULL, `SubmitFullExact` says exactly when.
  The whole-run theorem is for tester commands without EHS.
* A tag outside 0..255, a tester function code without a name, or the function code 0 on a tester command is refused
  only after the command is in the list, where it stays with the default indicator: `RefusedNumberingWitness`, and exactly
  when in `RefusedNumberingExact`. The invariants hold of such packages too.
* If an aborted command is followed by an answered one with its tag, it is handed that one's response instead of
  NOT_FOUND: `AbortedGetsLaterResponse`, and exactly when in `AbortedMatchingIsExact`. NOT_FOUND is what
  docx/Script/api/ufs_api/task_management.py:84-94 takes for an abort.
* A tester command with EHS has bytes 54..57 of its own entry overwritten by the EHS address: `EntryReadsBack`.
* A response slot the device left blank (0xFF) does not end the parse: `BlankSlotRaises`.
* Big-endian bit fields round-trip only for start_bit < 8 <= end_bit: `BigRoundTripExact`.
* `search` can fail with KeyError when a chunk id is shared across source types: `SharedIdFails`, `LookupFailsExact`.
* `bytearray_xor` without a length depends on the order of pages of different lengths, and on how they are split over
  calls: `PageOrderExact`, `AccumulatesExact`.
* The unaligned LBA pool leaves out the last start in range: `UnalignedPoolExact`.
* `bytearray_xor` cannot recover the only page of a list without a given length: `RecoveryExact`.
* The strings raised by the LBA code are themselves a TypeError in Python, and are modelled as that.

## Model

| member | source | states |
|---|---|---|
| Layout.AlignUpIsLeastMultiple | docx/Script/api/cmd_seq/_buffer_manager.py:51-52 | `align_up` is the least multiple not below the value, at 512, 96 and 8192 |
| Layout.PointerRefinesFormula | docx/Script/api/cmd_seq/_buffer_manager.py:150-159 | k steps of the incremental entry pointer from 0 give `k / 113 * 8192 + k % 113 * 72` for every k |
| Layout.EntryStaysInItsGroup | docx/Script/api/cmd_seq/_buffer_manager.py:150-159 | no entry straddles an 8 KiB boundary; the last 56 bytes of a group are never part of an entry |
| Layout.EntrySlotsDisjoint | docx/Script/api/cmd_seq/_buffer_manager.py:150-159 | entry slots are in order and disjoint |
| Layout.DataBeginIsGroups | docx/Script/api/cmd_seq/_buffer_manager.py:92-98 | the data-begin offset is a whole number of 8 KiB groups, at least four, that hold all entries |
| Layout.DataBeginIsLeast | docx/Script/api/cmd_seq/_buffer_manager.py:92-98 | data begins at the least 8 KiB boundary, 32 KiB or later, below which that many entries fit |
| Layout.EntryRoomExact | docx/Script/api/cmd_seq/_buffer_manager.py:126-129 | the entry part of the room check passes for slot k exactly if slots 0..k+1 fit below the data |
| Layout.HasRoomExact | docx/Script/api/cmd_seq/_buffer_manager.py:124-137 | there is room if and only if slots k and k + 1 lie below the data and payload and EHS, in whole blocks, end inside their buffers |
| Layout.EveryEntryHasRoom | docx/Script/api/cmd_seq/_buffer_manager.py:124-129 | with the data begun after n + 1 entries every one of n entries passes the room check |
| Layout.SlotsBelowData | docx/Script/api/cmd_seq/_buffer_manager.py:92-98 | every slot including the terminator slot n ends at or below the data-begin offset |
| Layout.CapacityIsExact | docx/Script/api/cmd_seq/_buffer_manager.py:74-90 | n commands pass the test one by one if and only if 16 * max(4, ceil((n+1)/113)) + data blocks <= 126976 and EHS blocks <= 5461 |
| Layout.TotalsArePermutationFree | docx/Script/api/cmd_seq/executor.py:101-103 | the running totals do not depend on the order of enqueueing |
| Layout.AdmissionIsOrderFree | docx/Script/api/cmd_seq/_buffer_manager.py:74-90 | whether a list of commands is admitted does not depend on its order |
| Layout.DatalessCapacity | docx/Script/api/cmd_seq/_buffer_manager.py:74-90 | exactly 896767 commands without data or EHS fit |
| Occurrences.OccurrenceIsUnique | docx/Script/api/cmd_seq/_cycle_tracker.py:22-26 | an element is identified by its key and its occurrence number |
| Occurrences.OccurrenceCountsEarlierEqual | docx/Script/api/cmd_seq/_cycle_tracker.py:51-68 | the occurrence number is the number of earlier equal keys |
| CycleTracker.IndicatorIsInjective | docx/Script/api/cmd_seq/_cycle_tracker.py:22-26 | indicators of different (key, occurrence) pairs differ, the default indicator of an unnumbered command included |
| CycleTracker.KeyOfCallExact | docx/Script/api/cmd_seq/_cycle_tracker.py:51-59 | which arguments raise which exception, and under what the others count |
| CycleTracker.IndicatorsAreDistinct | docx/Script/api/cmd_seq/_cycle_tracker.py:51-68 | indicators within a package are pairwise distinct |
| CycleTracker.CycleTracker.constructor | docx/Script/api/cmd_seq/_cycle_tracker.py:29-32 | a new tracker has counted nothing |
| CycleTracker.CycleTracker.Reset | docx/Script/api/cmd_seq/_cycle_tracker.py:70-72 | after a reset nothing has been counted |
| CycleTracker.CycleTracker.GetCycle | docx/Script/api/cmd_seq/_cycle_tracker.py:34-49 | the cycle returned is the number of uses of the key counted so far minus one; the three argument exceptions, exactly |
| CycleTracker.CycleTracker.IncrementCycle | docx/Script/api/cmd_seq/_cycle_tracker.py:51-68 | one more use is counted and the indicator of that very occurrence is returned; on an exception nothing is counted |
| Protocols.ParamToBytes | docx/Script/api/cmd_seq/protocols.py:38-50 | the slices written make up the 40 parameter bytes |
| Protocols.ParamLayout | docx/Script/api/cmd_seq/protocols.py:38-50 | which byte and bit of the 40 holds what, and that the rest is zero |
| Protocols.HeaderFields | docx/Script/api/cmd_seq/executor.py:456-477 | the bytes of the UPIU that commands are sized by, most significant first |
| Protocols.ParamRoundTrip | docx/Script/api/cmd_seq/protocols.py:38-50 | every parameter field reads back from its bytes, so no two fields overlap |
| Protocols.ComposeEntryBuf | docx/Script/api/cmd_seq/protocols.py:73-77 | the 72-byte entry, or the exception of the field that cannot be packed |
| Protocols.ComposeErrorExact | docx/Script/api/cmd_seq/protocols.py:73-77 | a UPIU composes if and only if its tag is in 0..255, its mode has a code and its words fit 32 bits; which exception otherwise |
| Protocols.EntryReadsBack | docx/Script/api/cmd_seq/_buffer_manager.py:114-121 | every byte of a pushed entry: header, tag, parameters with the offsets where there is data or EHS; or 0xFF, code and body, with an EHS offset over bytes 54..57 if there is EHS |
| Protocols.EntryCarriesDataLength | docx/Script/api/cmd_seq/_buffer_manager.py:105-107 | the data length `push_cmd` reads from the entry is the one in the command |
| Protocols.PatchAgreesWithStoreBack | docx/Script/api/cmd_seq/_buffer_manager.py:114-119 | patching the two address words equals recomposing the entry from the parameters stored back |
| Protocols.PatchedWordsAreStoredBack | docx/Script/api/cmd_seq/executor.py:142-146 | entry bytes 42..45 and 54..57, when written, hold the offsets stored back into the command |
| BufferManager.BufferManager.constructor | docx/Script/api/cmd_seq/_buffer_manager.py:57-71 | fresh buffers and pointers at import time |
| BufferManager.BufferManager.ResetModule | docx/Script/api/cmd_seq/_buffer_manager.py:57-71 | new 0xFF and zero buffers, pointers at 0, no data-begin offset, empty index |
| BufferManager.BufferManager.SetDataBeginOffset | docx/Script/api/cmd_seq/_buffer_manager.py:92-98 | both data fields take the offset computed for the entry count |
| BufferManager.BufferManager.PushCmd | docx/Script/api/cmd_seq/_buffer_manager.py:100-122 | the whole new state of both buffers and three pointers, an exception with nothing written, or the entry-size exception with payload and EHS written |
| BufferManager.BufferManager.PushPayload | docx/Script/api/cmd_seq/_buffer_manager.py:139-148 | the payload lands at the data pointer, which moves by the rounded data length |
| BufferManager.BufferManager.PushEntry | docx/Script/api/cmd_seq/_buffer_manager.py:150-159 | a 72-byte entry lands at the entry pointer, which moves to the next slot; any other length is refused with nothing written |
| BufferManager.BufferManager.PushEhs | docx/Script/api/cmd_seq/_buffer_manager.py:161-168 | the EHS lands at the EHS pointer, which moves by the rounded EHS length |
| BufferManager.BufferManager.NumberSlot | docx/Script/api/cmd_seq/_buffer_manager.py:178-188 | one response slot is classified and counted exactly as the slot function says |
| BufferManager.BufferManager.GenRspCycleIndicator | docx/Script/api/cmd_seq/_buffer_manager.py:170-190 | the index built equals the dictionary of (key, occurrence) to slot of the leading keyed slots; the exception is that of the first unreadable slot |
| BufferManager.BufferManager.SlotOffset | docx/Script/api/cmd_seq/_buffer_manager.py:174-176 | the divmod offset of the parser is the slot the allocator wrote |
| BufferManager.BufferManager.GetEntry | docx/Script/api/cmd_seq/_buffer_manager.py:192-198 | the 72 bytes of the indexed slot, or NOT_FOUND |
| PackageLayout.ExtentsDisjoint | docx/Script/api/cmd_seq/_buffer_manager.py:139-168 | entries, rounded payload extents and EHS extents of a package are pairwise disjoint, entries below the data-begin offset and payloads at or above it |
| PackageLayout.PointersAligned | docx/Script/api/cmd_seq/executor.py:403-404 | the data pointer is a multiple of 512 and the EHS pointer of 96 after any number of pushes |
| PackageLayout.PushExtendsImage | docx/Script/api/cmd_seq/_buffer_manager.py:111-121 | pushing the next command turns the image of m commands into the image of m + 1 |
| PackageLayout.TerminatorSlotIsBlank | docx/Script/api/cmd_seq/executor.py:137 | the slot after the last entry is still all 0xFF |
| PackageLayout.ImageIsUnique | docx/Script/api/cmd_seq/_buffer_manager.py:57-168 | entries, payloads, 0xFF fill and untouched rest determine every byte of both buffers |
| PackageLayout.PayloadSurvives | docx/Script/api/cmd_seq/_buffer_manager.py:200-202 | if a command's extent was left alone, its data reads back with 0xFF fill up to its data length |
| PackageLayout.EhsSurvives | docx/Script/api/cmd_seq/_buffer_manager.py:204-206 | if a command's EHS extent was left alone, its EHS reads back |
| PackageLayout.SlotReadsBack | docx/Script/api/cmd_seq/executor.py:137-146 | the same of slot j in the laid-out buffer, from the fields of command j and its addresses |
| PackageLayout.EhsReadsBack | docx/Script/api/cmd_seq/_buffer_manager.py:161-168 | the EHS buffer at a command's address holds its EHS body if the length field is not 0 |
| ResponseIndex.ParseIsUnique | docx/Script/api/cmd_seq/_buffer_manager.py:173-188 | the parse of the response slots is determined: the leading keyed slots |
| ResponseIndex.SlotExact | docx/Script/api/cmd_seq/_buffer_manager.py:178-188 | for every buffer and slot: with bit 5 of the type set it is the response under the tag in byte 3, with type 0xFF and a function code that tester response, otherwise the end or the named exception |
| ResponseIndex.SlotPastEnd | docx/Script/api/cmd_seq/_buffer_manager.py:178 | a slot past the buffer raises IndexError |
| ResponseIndex.BlankSlotRaises | docx/Script/api/cmd_seq/_buffer_manager.py:179-181 | a slot left at 0xFF does not end the parse but raises ValueError |
| ResponseIndex.IndexLookup | docx/Script/api/cmd_seq/_buffer_manager.py:190-198 | occurrence c of a key is found exactly if there are more than c responses with the key, at the slot of that response |
| ResponseIndex.StableImpliesFinds | docx/Script/api/cmd_seq/_buffer_manager.py:170-198 | if the slots of a key answer its commands in queue order, dummies and unsolicited responses anywhere else, a command finds exactly its own response |
| ResponseIndex.MatchingIsExact | docx/Script/api/cmd_seq/_buffer_manager.py:170-198 | every command finds its own response, or none if it has none, if and only if per key the answers are a queue-order prefix, slots that answer no command coming last |
| ResponseIndex.AbortedMatchingIsExact | docx/Script/api/cmd_seq/_buffer_manager.py:170-198 | with dummy responses in the slots of aborted commands, those get NOT_FOUND and all others their own response if and only if no aborted command is followed by an answered one with its key |
| ResponseIndex.AbortedGetsLaterResponse | docx/Script/api/cmd_seq/_buffer_manager.py:170-198 | two commands with one tag, the first aborted: it is handed the response of the second, which gets NOT_FOUND |
| Package.EnqueueKeepsPackageOk | docx/Script/api/cmd_seq/executor.py:74-112 | the package invariant survives every enqueue, also one that raises |
| Package.SendKeepsPackageOk | docx/Script/api/cmd_seq/executor.py:114-177 | the package invariant survives every send, whatever the device returns |
| PackageProperties.RunKeepsPackageOk | docx/Script/api/cmd_seq/executor.py:74-177 | in every state reachable by enqueue, send and clear: totals equal the sums over the list, indicators are in order, reads and writes are uniform, flags are exact |
| PackageProperties.AdmissionIsSound | docx/Script/api/cmd_seq/executor.py:89-92 | a list admitted by totals passes the entry and data room checks at every push |
| PackageProperties.AdmittedNeverFull | docx/Script/api/cmd_seq/executor.py:137-142 | no push of an admitted package without tester EHS finds a buffer full |
| PackageProperties.SendNeverFull | docx/Script/api/cmd_seq/executor.py:137-142 | over whole runs without tester EHS, send never raises BUF_IS_FULL |
| PackageProperties.EhsRoomExact | docx/Script/api/cmd_seq/_buffer_manager.py:134-135 | the EHS room check passes at every push if and only if all EHS together is at most 5461 blocks |
| PackageProperties.SubmitFullExact | docx/Script/api/cmd_seq/executor.py:137-146 | when every command composes and holds its payload, send raises BUF_IS_FULL if and only if all EHS, tester commands included, exceeds 5461 blocks |
| PackageProperties.TesterEhsCanOverflow | docx/Script/api/cmd_seq/executor.py:82-92 | a concrete tester command with EHS is admitted and makes send raise BUF_IS_FULL |
| PackageProperties.RefusedNumberingExact | docx/Script/api/cmd_seq/executor.py:74-112 | an enqueue that raises has lengthened the list if and only if it reached the list with a command that cannot be numbered, which is then last with the default indicator |
| PackageProperties.RefusedNumberingWitness | docx/Script/api/cmd_seq/executor.py:101-109 | a tag of 256, an unnamed function code and the function code 0 each raise with the command in the list |
| PackageProperties.ListFullExact | docx/Script/api/cmd_seq/executor.py:89-92 | enqueue raises CMD_LIST_IS_FULL exactly if the new totals pass capacity |
| PackageProperties.BlockCountsCover | docx/Script/api/cmd_seq/executor.py:399-402 | the command block count covers the last entry and stops at the data; the data block count ends where the data ends |
| PackageProperties.EhsBlockCountFits | docx/Script/api/cmd_seq/executor.py:150-153 | the EHS block count covers the accounted EHS and fits the EHS buffer |
| PackageProperties.HwCompareIsSafe | docx/Script/api/cmd_seq/executor.py:126-133 | a send past the hardware-compare checks holds no manual read or write, no HpbRead and no ReadBuffer |
| SendProperties.SendCheckExact | docx/Script/api/cmd_seq/executor.py:126-133 | each check of send fails on its own condition and none before it, and none otherwise |
| SendProperties.CompareAllowedExact | docx/Script/api/cmd_seq/executor.py:126-133 | a comparing send outside manual mode is let through if and only if nothing queued rules comparing out |
| SendProperties.SubmitSucceedsExact | docx/Script/api/cmd_seq/executor.py:137-147 | the package can be submitted if and only if every command composes and holds its payload, all EHS fits and a limit is set |
| SendProperties.SubmitLeaves | docx/Script/api/cmd_seq/executor.py:134-146 | past the checks the package is marked sent and only stored offsets change |
| SendProperties.ClearedExact | docx/Script/api/cmd_seq/executor.py:355-369 | a cleared package is empty, unsent, without modes and flags, with the tag counters as they were |
| SendProperties.SendReturnsExact | docx/Script/api/cmd_seq/executor.py:114-177 | send returns if and only if checks and layout pass, the tester succeeds and the reply is cleared or can be parsed; and what it leaves |
| SendProperties.SendRaisesExact | docx/Script/api/cmd_seq/executor.py:114-177 | what a failing send raises: the first of check, layout, parse error and tester error |
| SendProperties.ParsesExact | docx/Script/api/cmd_seq/executor.py:155-177 | when the returned buffers are indexed |
| PackageProperties.ReadWritesAgree | docx/Script/api/cmd_seq/executor.py:483-497 | in every reachable state all queued reads and writes share one data direction mode and one pattern mode |
| PackageProperties.OptionBitsExclusive | docx/Script/api/cmd_seq/executor.py:384-398 | option bits 2 and 4 are never both set and each is set exactly when requested |
| SendProperties.OptionBitsExact | docx/Script/api/cmd_seq/executor.py:384-398 | every option bit for any initial value: set, cleared or kept exactly as requested |
| SendProperties.RequestExact | docx/Script/api/cmd_seq/executor.py:383-402 | queue depth or limit, option, the least block count that covers the entries, the block count that ends with the data |
| PackageProperties.TunedLengths | docx/Script/api/cmd_seq/executor.py:456-481 | the data length a tuned command reserves: none in automatic mode, the exact length in manual mode, else the length rounded up to 512 |
| TuningProperties.TunedFields | docx/Script/api/cmd_seq/executor.py:455-481 | every field of a tuned command: tag, mark tag, CRC compare and add-tag flags as set, all others as given |
| TuningProperties.TuneErrorExact | docx/Script/api/cmd_seq/executor.py:464-506 | each check of tuning fails on its own condition and none before it, and none otherwise |
| TuningProperties.EnqueueAppends | docx/Script/api/cmd_seq/executor.py:101-112 | a returning enqueue appends the tuned command, changes no other, and returns its index |
| TuningProperties.EnqueueCounts | docx/Script/api/cmd_seq/executor.py:455-459 | the tag counters move for an automatic tag and for an untagged automatic write, also when the enqueue raises |
| TuningProperties.IndicatorMeaning | docx/Script/api/cmd_seq/executor.py:105-109 | an indicator holds the number of earlier commands with the tag or function, the function code, and the tag or -1 |
| TuningProperties.MarkTagOfWrite | docx/Script/api/cmd_seq/executor.py:456-459 | a queued automatic write carries its own tag, or the next of the mark counter, over any sequence of enqueues, refused ones included |
| TuningProperties.AutoMarkTags | docx/Script/api/cmd_seq/executor.py:456-459 | in a package whose enqueues returned the i-th untagged automatic write is marked (m + 1 + i) mod 2 to the 32 |
| TuningProperties.ModesAreTheFirst | docx/Script/api/cmd_seq/executor.py:483-497 | the modes of a package are those of its first read or write, queued or refused later |
| TuningProperties.ModeErrorsExact | docx/Script/api/cmd_seq/executor.py:483-497 | a read or write is refused for its modes if and only if they differ from the first one's |
| PackageProperties.CycleCountsEarlier | docx/Script/api/cmd_seq/executor.py:105-109 | the cycle of a queued command is the number of earlier queued commands with its tag or function |
| PackageProperties.AutoTags | docx/Script/api/cmd_seq/executor.py:433-436 | in an auto-tagged package the i-th UPIU gets tag (t + 1 + i) mod 256 whatever tester commands stand between |
| PackageProperties.AutoCycles | docx/Script/api/cmd_seq/executor.py:105-109 | ... and cycle i / 256 |
| Executor.Executor.constructor | docx/Script/api/cmd_seq/executor.py:45-57 | the initial globals form a sound empty package |
| Executor.Executor.SetQdLimit | docx/Script/api/cmd_seq/executor.py:59-61 | records the queue-depth limit |
| Executor.Executor.GetTaskTag | docx/Script/api/cmd_seq/executor.py:433-436 | the next task tag, modulo 256, from a counter that runs on |
| Executor.Executor.GetMarkTag | docx/Script/api/cmd_seq/executor.py:428-431 | the next mark tag, modulo 2 to the 32 |
| Executor.Executor.TuneByKind | docx/Script/api/cmd_seq/executor.py:456-481 | parameters by kind of command, and the mark tag counter |
| Executor.Executor.CheckModes | docx/Script/api/cmd_seq/executor.py:483-497 | the mode checks, and what they record even when they fail |
| Executor.Executor.AutoTuneParam | docx/Script/api/cmd_seq/executor.py:438-506 | takes the tuning step of the state machine, the first failing check included |
| Executor.Executor.Append | docx/Script/api/cmd_seq/executor.py:94-112 | takes the admission step; a refused numbering leaves the command in the list |
| Executor.Executor.NumberLast | docx/Script/api/cmd_seq/executor.py:105-112 | the appended command gets the indicator of its own occurrence, or the numbering exception and the default one |
| Executor.Executor.Enqueue | docx/Script/api/cmd_seq/executor.py:74-112 | takes the enqueue step of the state machine and keeps the object valid |
| Executor.Executor.PushNext | docx/Script/api/cmd_seq/executor.py:138-146 | one round of the push loop: image, pointers and list each one command further, or the named exception |
| Executor.Executor.PushAll | docx/Script/api/cmd_seq/executor.py:137-146 | the buffers hold the image of the pushed commands and the pointers stand at its ends |
| Executor.Executor.BuildCmdSeqBuf | docx/Script/api/cmd_seq/executor.py:371-417 | the request object, given aligned pointers |
| Executor.Executor.GetBuffersAndSetToBufMngr | docx/Script/api/cmd_seq/executor.py:419-426 | returned buffers taken over and indexed; the EHS buffer only if EHS was accounted |
| Executor.Executor.CheckSend | docx/Script/api/cmd_seq/executor.py:126-133 | the first sanity check that fails, in order |
| Executor.Executor.LayOutPackage | docx/Script/api/cmd_seq/executor.py:134-146 | the package is marked sent and laid out; an exception leaves it marked sent with the offsets stored so far |
| Executor.Executor.SubmitPackage | docx/Script/api/cmd_seq/executor.py:134-154 | what is handed to the tester is the image of the list and the request for the list |
| Executor.Executor.HandleReply | docx/Script/api/cmd_seq/executor.py:155-177 | clear on success, take over the returned buffers, or raise |
| Executor.Executor.ResetGlobals | docx/Script/api/cmd_seq/executor.py:356-366 | the package globals as in a cleared package, tag counters kept |
| Executor.Executor.Clear | docx/Script/api/cmd_seq/executor.py:355-369 | a cleared package in fresh buffers; tag counters run on |
| Executor.Executor.Send | docx/Script/api/cmd_seq/executor.py:114-177 | takes the send step; the package handed over is the image of the list and the request is the one for the list |
| Executor.Executor.ReadResponse | docx/Script/api/cmd_seq/executor.py:180-185 | the response found for a list index, negative ones from the end |
| Executor.Executor.IdentifyResponse | docx/Script/api/cmd_seq/executor.py:187-221 | classification of an entry and the data and EHS read for the command |
| Responses.OwnResponse | docx/Script/api/cmd_seq/executor.py:180-185 | under a per-key stable reordering, dummies included, command i gets its own slot's response, or NOT_FOUND if it has none |
| Responses.AbortedIsNotFound | docx/Script/api/cmd_seq/executor.py:180-185 | with dummies in place an aborted command reads NOT_FOUND and every other its own slot, unless an aborted key is answered later |
| Responses.ResponseKindMatches | docx/Script/api/cmd_seq/executor.py:216-218 | a response found for a command is of its kind, so the parameter lookup cannot raise |
| Responses.IdentifyExact | docx/Script/api/cmd_seq/executor.py:187-353 | which entries become UPIU responses, tester responses or which exception, and that the response carries the entry's bytes |
| Responses.TesterAnswered | docx/Script/api/cmd_seq/executor.py:180-185 | a tester command answered in slot j gets a tester response with the bytes of that slot |
| Responses.PyIndexExact | docx/Script/api/cmd_seq/executor.py:183 | an index counts from the front, or from the end if negative |
| Responses.PayloadRoundTrip | docx/Script/api/cmd_seq/executor.py:216-221 | data and EHS of a response are exactly what was queued, if the device left that command's extents alone |
| Responses.RunCalls | docx/Script/api/cmd_seq/executor.py:74-185 | any interleaving of calls follows the state machine, the outcome of every send is that of its step, and none is BUF_IS_FULL or PUSH_CMD_BEFORE_SET_DATA_BEGIN_OFFSET |
| Responses.SendOutcome | docx/Script/api/cmd_seq/executor.py:114-177 | the same for one send from any sound state |
| Responses.SendAndReadBack | docx/Script/api/cmd_seq/executor.py:114-221 | send with any options, succeeding or failing with a parsed reply, then read: the caller gets back the data and EHS that were queued, and the bytes of its slot |
| Responses.EchoAnswers | docx/Script/api/cmd_seq/executor.py:155-177 | a tester that answers every command in place, with any known response type each, gives such a reply, for every laid-out package |
| BitFields.GetterRefinesNumber | docx/Script/api/struct_helper.py:64-82 | reading only the covered bytes gives bits start..end of the number the payload forms from the offset, for any width |
| BitFields.SetLittleSucceeds | docx/Script/api/struct_helper.py:90-119 | a little-endian write returns exactly for values that fit and fields inside the payload |
| BitFields.SetLittleBits | docx/Script/api/struct_helper.py:97-119 | a write sets the field's bits to the value's and changes no other bit and not the length |
| BitFields.SetThenGetLittle | docx/Script/api/struct_helper.py:64-119 | set then get returns the value |
| BitFields.DisjointFieldKeepsValue | docx/Script/api/struct_helper.py:64-119 | fields without a common bit keep their values |
| BitFields.BigRoundTripExact | docx/Script/api/struct_helper.py:72-119 | big-endian fields round-trip for all payloads and values if and only if start_bit < 8 <= end_bit |
| BitFields.GetBigBits | docx/Script/api/struct_helper.py:72-82 | a big-endian field reads its bits in front-to-back order, its last bit lowest |
| BitFields.SetBigSucceeds | docx/Script/api/struct_helper.py:90-119 | a big-endian write from the first byte returns exactly for values that fit and fields inside the payload |
| BitFields.SetBigBits | docx/Script/api/struct_helper.py:97-119 | a big-endian write sets the field's bits to the value's and changes no other bit |
| BitFields.GetShiftExact | docx/Script/api/struct_helper.py:72-77 | the getter's shift in every shape of field |
| BitFields.ReadFieldBits | docx/Script/api/struct_helper.py:64-82 | the value of a view of either byte order, bit by bit |
| BitFields.WriteFieldBits | docx/Script/api/struct_helper.py:89-119 | the payload after a write through a view of either byte order, bit by bit |
| BitFields.OneByteBigFails | docx/Script/api/struct_helper.py:73-74 | every big-endian field within one byte is misread when written full into an empty byte |
| BitFields.LateStartBigRaises | docx/Script/api/struct_helper.py:103 | a big-endian field starting after the first byte cannot be written: ValueError |
| BitFields.BaseFieldBit.constructor | docx/Script/api/struct_helper.py:45-51 | a view starts with the value its bits have |
| BitFields.BaseFieldBit.UpdateValue | docx/Script/api/struct_helper.py:64-82 | the cached value is that of the bits |
| BitFields.BaseFieldBit.GetValue | docx/Script/api/struct_helper.py:84-87 | the value is read afresh from the shared payload |
| BitFields.BaseFieldBit.SetValue | docx/Script/api/struct_helper.py:89-119 | the payload after the write, or an exception and the payload unchanged |
| BitFields.WriteBeside | docx/Script/api/struct_helper.py:84-119 | of two views of one payload without a common bit, writing one leaves the other's value |
| Cosine.CauchySchwarz | auto_pattern_gen/llm_wiki/retriever.py:182-188 | the squared dot product is at most the product of the sums of squares, for vectors of any two lengths |
| Cosine.CosineInRange | auto_pattern_gen/llm_wiki/retriever.py:182-188 | the score lies in [-1, 1] for all vectors |
| Cosine.CosineOfNonnegative | auto_pattern_gen/llm_wiki/retriever.py:182-188 | ... and in [0, 1] for nonnegative ones |
| Cosine.CosineOfSelf | auto_pattern_gen/llm_wiki/retriever.py:182-188 | a nonzero vector scores 1 with itself |
| Cosine.CosineSymmetric | auto_pattern_gen/llm_wiki/retriever.py:182-188 | the score is symmetric |
| Cosine.CosineExact | auto_pattern_gen/llm_wiki/retriever.py:183-188 | the score times both norms is the dot product; 0 for a zero norm |
| Cosine.DotAppend | auto_pattern_gen/llm_wiki/retriever.py:183 | each pair adds its product and an element without a partner nothing |
| Fusion.AheadIsStrictTotal | auto_pattern_gen/llm_wiki/retriever.py:37 | the sort key (-score, id) orders distinct items strictly |
| Fusion.LexLessExact | auto_pattern_gen/llm_wiki/retriever.py:37 | ids are ordered by their first difference |
| Fusion.FusionOrderExact | auto_pattern_gen/llm_wiki/retriever.py:37 | an item comes before another if and only if it has the higher score, or the same and the smaller id |
| Fusion.ReciprocalRankFusion | auto_pattern_gen/llm_wiki/retriever.py:32-37 | for every k: each item once, with its total score, in strict (score descending, id ascending) order, or ZeroDivisionError exactly if some rank makes k + rank zero |
| Fusion.FusionIsUnique | auto_pattern_gen/llm_wiki/retriever.py:32-37 | that description has one solution |
| Fusion.FusionDominance | auto_pattern_gen/llm_wiki/retriever.py:32-37 | for every k without a zero division an item ahead of another in every input list is ahead in the result |
| Fusion.ScoreIsConserved | auto_pattern_gen/llm_wiki/retriever.py:32-37 | the scores sum to 1/(k + rank) over all lists and ranks |
| Fusion.ScoreAtRank | auto_pattern_gen/llm_wiki/retriever.py:34-36 | in a list without repetition an item scores the weight of its own rank |
| Fusion.WeightExact | auto_pattern_gen/llm_wiki/retriever.py:36 | the weight of a rank is the reciprocal of k + rank |
| Fusion.ScoreInTwoLists | auto_pattern_gen/llm_wiki/retriever.py:34-36 | in two lists an item scores the weights of its two ranks |
| Search.BuildIndex | auto_pattern_gen/llm_wiki/retriever.py:557 | the dictionary maps an id to the last chunk that has it |
| Search.Search | auto_pattern_gen/llm_wiki/retriever.py:536-579 | results for the first top_k fused items from the last chunk with each id, or KeyError exactly if such a chunk is not a candidate |
| Search.FusedIdsAreCandidates | auto_pattern_gen/llm_wiki/retriever.py:540-561 | every fused id belongs to a candidate, so the id lookup cannot fail |
| Search.LookupFailsExact | auto_pattern_gen/llm_wiki/retriever.py:572-573 | for every top_k the score lookup fails only if some id has its last chunk outside the source type and an earlier one inside; always then if top_k is at least the number of candidates |
| Search.NoStrayNeverFails | auto_pattern_gen/llm_wiki/retriever.py:557-573 | without such an id no top_k, negative ones included, makes a lookup fail |
| Search.ShownStrayExact | auto_pattern_gen/llm_wiki/retriever.py:557-573 | for every top_k the search fails if and only if such an id is among those shown |
| Search.SharedIdFails | auto_pattern_gen/llm_wiki/retriever.py:557-573 | one id in two source types: the default call fails |
| Search.FusedAreTheCandidates | auto_pattern_gen/llm_wiki/retriever.py:548-556 | with unique ids every candidate is fused exactly once |
| Search.SearchShowsTopCandidates | auto_pattern_gen/llm_wiki/retriever.py:536-579 | with unique ids and top_k >= 0: min(top_k, candidates) results, ranked from 1, each of the requested source type with its own chunk's scores, and no lookup fails |
| Search.FusedScoreExact | auto_pattern_gen/llm_wiki/retriever.py:548-556 | with unique ids the fused score of a candidate is 1 / (60 + rank) by each score, its rank being one more than the number of better candidates |
| Search.TakeFirstExact | auto_pattern_gen/llm_wiki/retriever.py:560 | how many fused items are shown, for every top_k |
| Search.CandidatesExact | auto_pattern_gen/llm_wiki/retriever.py:538-541 | the candidates are all chunks, or all of the source type |
| Search.Candidates | auto_pattern_gen/llm_wiki/retriever.py:538-541 | the indices of the chunks of the requested source type, each once, in order |
| Search.BetterOnBothIsFusedFirst | auto_pattern_gen/llm_wiki/retriever.py:548-556 | a candidate ahead of another on both scores is fused before it |
| Search.BetterOnBothIsShownFirst | auto_pattern_gen/llm_wiki/retriever.py:548-559 | a candidate ahead of another on both scores is shown before it, and shown whenever the other is |
| Tokenizer.ConcatExact | auto_pattern_gen/llm_wiki/retriever.py:15-29 | tokenize(a + b) == tokenize(a) + tokenize(b) if and only if no token straddles the joint; otherwise exactly two tokens merge |
| Tokenizer.JointExact | auto_pattern_gen/llm_wiki/retriever.py:15-29 | in character ranges: two texts are tokenized apart if and only if a character other than a letter or digit, or a small letter or digit and a capital, meet at the joint |
| Tokenizer.LowerExact | auto_pattern_gen/llm_wiki/retriever.py:29 | lower case moves capitals only, each to its small letter |
| Tokenizer.DocumentedExamples | auto_pattern_gen/llm_wiki/retriever.py:23-25 | the three documented examples |
| Tokenizer.SeparatorSplits | auto_pattern_gen/llm_wiki/retriever.py:24-29 | any character outside [A-Za-z0-9] separates: space, underscore, hyphen, punctuation |
| Tokenizer.TokensAreTokens | auto_pattern_gen/llm_wiki/retriever.py:29 | tokens are not empty and hold only lower-case letters and digits |
| Tokenizer.WordIsOneToken | auto_pattern_gen/llm_wiki/retriever.py:15-29 | an alphanumeric word without an inner camel boundary is one token |
| Tokenizer.TokenizeJoinTokenize | auto_pattern_gen/llm_wiki/retriever.py:24-29 | tokenizing the space-joined tokens gives the same tokens |
| Tokenizer.TokensConserveText | auto_pattern_gen/llm_wiki/retriever.py:24-29 | the tokens end to end are the alphanumerics of the text, in order and in lower case |
| Sampling.PoolIsConserved | docx/Script/api/perf_api/rpmb_perf.py:179-199 | for every sequence of draws without overlap, live pool plus picks is the original pool as a multiset |
| Sampling.PicksAreDistinct | docx/Script/api/perf_api/rpmb_perf.py:197-199 | picks without overlap are distinct and from the pool |
| Sampling.ReplacedPicksAreFromPool | docx/Script/api/perf_api/rpmb_perf.py:181-183 | with overlap allowed every pick is from the whole pool |
| RpmbPerf.SectorCountIsLeast | docx/Script/api/perf_api/rpmb_perf.py:251-259 | the sector count is the least multiple of 8 KiB that holds every 64-byte row |
| RpmbPerf.PoolIsInRange | docx/Script/api/perf_api/rpmb_perf.py:168-177 | every chunk of the pool lies in [start_lba, end_lba]; aligned chunks are pairwise disjoint |
| RpmbPerf.AlignedPoolExact | docx/Script/api/perf_api/rpmb_perf.py:168-172 | the aligned pool is every in-range start at a whole number of chunks |
| RpmbPerf.UnalignedPoolExact | docx/Script/api/perf_api/rpmb_perf.py:173-177 | the unaligned pool is every in-range start except the last one |
| RpmbPerf.TableReadsBack | docx/Script/api/perf_api/rpmb_perf.py:186-195 | the LBA and the MAC of every entry read back from its row, and the rest of the row is 0xFF |
| RpmbPerf.EncodeErrorExact | docx/Script/api/perf_api/rpmb_perf.py:195 | which LBA, counter and chunk cannot be encoded, by direction |
| RpmbPerf.SequentialLbasExact | docx/Script/api/perf_api/rpmb_perf.py:149-164 | a sequential run starts at the start and goes on by one chunk |
| RpmbPerf.RandomErrorExact | docx/Script/api/perf_api/rpmb_perf.py:179-202 | how and whether entry i of a run without overlap fails |
| RpmbPerf.RandomRunExact | docx/Script/api/perf_api/rpmb_perf.py:179-202 | a run without overlap is accepted if and only if it needs no more entries than the pool holds and every pick can be encoded |
| RpmbPerf.PoolSizeDecides | docx/Script/api/perf_api/rpmb_perf.py:197-202 | with 16-bit LBAs and 32-bit counters the raise is unreachable if and only if task_entry <= lba_cnt |
| RpmbPerf.OversizeRunRaises | docx/Script/api/perf_api/rpmb_perf.py:197-202 | a larger run fails at the pool's last entry, or at once on an empty pool |
| RpmbPerf.OverlapRunExact | docx/Script/api/perf_api/rpmb_perf.py:179-195 | with overlap a run is accepted if and only if the pool is not empty and every pick can be encoded |
| RpmbPerf.TaskEntryExact | docx/Script/api/perf_api/rpmb_perf.py:243 | the entries use the test size up to less than one chunk |
| RpmbPerf.RequestErrorExact | docx/Script/api/perf_api/rpmb_perf.py:206-249 | which requests are let through and what the others raise |
| RpmbPerf.FullRangeIsAccepted | docx/Script/api/perf_api/rpmb_perf.py:206-209 | a sequential run over the whole range is let through |
| RpmbPerf.SequentialRunSucceeds | docx/Script/api/perf_api/rpmb_perf.py:148-164 | a sequential run that is let through is carried out, with 16-bit LBAs and 32-bit counters |
| RpmbPerf.SequentialRunIsDisjoint | docx/Script/api/perf_api/rpmb_perf.py:206-209 | a sequential run past the size check works on pairwise disjoint chunks in range |
| RpmbPerf.AlignedRunIsDisjoint | docx/Script/api/perf_api/rpmb_perf.py:168-199 | an aligned random run without overlap works on pairwise disjoint chunks in range, whatever is drawn |
| RpmbPerf.BuildPool | docx/Script/api/perf_api/rpmb_perf.py:168-177 | the pool array holds the pool |
| RpmbPerf.TakeOut | docx/Script/api/perf_api/rpmb_perf.py:198-199 | overwriting the pick with the last live element removes it from the live part |
| RpmbPerf.RpmbPerformance.WriteRow | docx/Script/api/perf_api/rpmb_perf.py:185-195 | one row written into blank bytes, or the encoding exception |
| RpmbPerf.RpmbPerformance.FillSequential | docx/Script/api/perf_api/rpmb_perf.py:148-164 | the table of a sequential run, or the first entry that fails |
| RpmbPerf.RpmbPerformance.RandomEntry | docx/Script/api/perf_api/rpmb_perf.py:179-202 | one random entry extends pool, picks and table by one draw, or raises what the entry raises |
| RpmbPerf.RpmbPerformance.FillRandom | docx/Script/api/perf_api/rpmb_perf.py:166-202 | the table of a random run, or the first entry that fails |
| RpmbPerf.RpmbPerformance.PrepareLbaBuffer | docx/Script/api/perf_api/rpmb_perf.py:133-204 | the stored buffer is the full table or, on an exception, the old one |
| RpmbPerf.RpmbPerformance.Executer | docx/Script/api/perf_api/rpmb_perf.py:229-292 | checks in order, sizing, table, and a write counter that grows by the entries written |
| XorParity.BytearrayXor | docx/Script/pattern/apl_system_rebuild/mutual_fun.py:115-125 | every column XORed on top of the initial value, or IndexError for an empty list without a length or a page shorter than the output |
| XorParity.XorInto | docx/Script/pattern/apl_system_rebuild/mutual_fun.py:122-124 | one page XORed in place |
| XorParity.XorErrorExact | docx/Script/pattern/apl_system_rebuild/mutual_fun.py:115-124 | when the call fails, and how long the result is otherwise |
| XorParity.XorBytes | docx/Script/pattern/apl_system_rebuild/mutual_fun.py:118-124 | each byte is that of the initial value, or zero, XORed with that of every page |
| XorParity.ColumnExact | docx/Script/pattern/apl_system_rebuild/mutual_fun.py:122-124 | no pages XOR to zero and one more page changes a column by its byte |
| XorParity.PageOrderIsFree | docx/Script/pattern/apl_system_rebuild/mutual_fun.py:115-125 | with a length given, permuting the pages changes neither result nor error |
| XorParity.PageOrderExact | docx/Script/pattern/apl_system_rebuild/mutual_fun.py:116-117 | with no length given it changes nothing if and only if the first pages ask for equally long results or some page is too short for either |
| XorParity.AccumulatesAcrossCalls | docx/Script/pattern/apl_system_rebuild/mutual_fun.py:120-125 | with a length given, XORing a + b is XORing b on top of the result for a |
| XorParity.AccumulatesExact | docx/Script/pattern/apl_system_rebuild/mutual_fun.py:116-121 | with no length given that holds if and only if the second call finds a first page no shorter than the accumulator, or both fail |
| XorParity.ParityRecovers | docx/Script/pattern/apl_system_rebuild/mutual_fun.py:122-124 | all pages but one on top of the parity give the missing page |
| XorParity.RecoveryExact | docx/Script/pattern/apl_system_rebuild/mutual_fun.py:115-125 | the same through the calls, which work except for the only page of a list with the length left to the call |

## Left out

- PackageProperties.SendNeverFull: for tester commands without EHS, because enqueue does not count theirs; PackageProperties.SubmitFullExact gives the exact condition with them.
- Cosine.CosineInRange: over real numbers with an exact square root given as a parameter; floating-point rounding is not modelled.
- Fusion.ReciprocalRankFusion: over real numbers; floating-point rounding, which can create ties, is not modelled.
- Search.Search: BM25 and dense scores are arbitrary functions of the chunk; page, title, authority, priority and preview fields are copied and not modelled.
- BitFields.BaseFieldBit.constructor: for start_bit <= end_bit; a reversed field, which has no width, is not modelled, here or in the field lemmas.
- RpmbPerf.RpmbPerformance.Executer: stops after the write counter; the device call, the performance figure and the request fields copied to the device are not modelled. The MAC is an arbitrary function of counter and address.
- XorParity.BytearrayXor: a negative length is not modelled.
- Executor.Executor.IdentifyResponse: the fields decoded from a response (tags, timestamps, sense data, tester response fields, EHS fields) are not modelled, only its kind, entry, data and EHS bytes.
- Executor.Executor.BuildCmdSeqBuf: timeout and ext_option are not modelled; the initial option value is a parameter, as the class of the request object is not part of this model.
- The 32-byte UPIU is opaque apart from its type, task tag, expected data length, EHS length and descriptor length; the exceptions its other fields can raise when packed are not modelled.
- Commands are values: the copy enqueue makes of the caller's object is implicit, and aliasing between a caller's data buffer and a queued command is not modelled.
- BufferManager.BufferManager.PushCmd: the entry buffer itself is not followed past the call; one too short for the address words would grow before it is refused.
- Tester commands compose to 72 bytes. The two size checks of reset_module, which the constants never fail.
- SDK calls, log and dump files, the error report of a failed send, and clear_done_queue: foreign I/O. The timeout argument of send, which the code overwrites with a constant.
- The allocator variant that pushes payloads from the end of the buffer, which the executor does not import.
- BaseField and the packet parser classes of struct_helper.py: whole-byte slices, easy next to the bit fields.
- adv_rpmb_perf.py: the same pool, draws, table and sizing for 4 KiB blocks; it writes the row and shrinks the pool before it computes the MAC, and keeps one write counter instead of two.
- BM25 scoring, embeddings, hashing and index files of the retriever.
- The test patterns and device conversations: their outcomes depend on firmware that is not part of the repository.
