# Verified model of the loader's decompressor, monitor, scheduler and arithmetic cores

A Dafny model of the parts of this repository in which a small slip does the most
damage, with proofs of what they promise for all inputs, all runs and all reachable
states. The modules follow the program:

- **LZMA1 decoder** (`Lzma*.dfy`; `Sources/LZMA/LzmaDec.c`). `LzmaSymbol`, `LzmaRangeCoder`
  and `LzmaParse` are one symbol as a walk through a decision machine driven by the range
  coder, following Igor Pavlov's LZMA specification. `LzmaStream` and `LzmaCalls` are the
  reference: a decoder over an unbounded history, and calls that cut its input and output.
  The class `LzmaDec` in `LzmaDecoder` is the decoder with the fields, the circular
  dictionary, the probability array and the 20-byte carry-over buffer of the original,
  changed in place; `DecodeToDic`, `DecodeToBuf` and the one-call `Decode` are proved to be
  exactly the reference's call, failing calls with the bytes they produced included. On the
  reference: a stream may be cut anywhere, the dry run agrees with the real one, 20 bytes hold
  every symbol, no distance leaves the history. `LzmaHistory` says what symbols mean without a
  decoder: their text, the state and distances they lead to, the bits that spell them and the
  names of their probabilities. `LzmaEncoder` is a range encoder on unbounded numbers, and
  `LzmaRoundTrip` proves that what it writes decodes to the text of the symbols; on the way
  `LzmaWalk` ties the decision machine to the format, `LzmaStates` the registers to the history
  and `LzmaLearning` the probabilities to the bits read. `LzmaStatus` says what a status means.
- **Synchronisation monitor** (`Sync*.dfy`; `Sources/Win32/wg_sync.c`). A transition system
  in which every stretch of code that holds the lock is one step and a thread inside a wait
  is parked, notified or not; `SyncMonitor` is the object table changed in place, method by
  method equal to those steps. Proved over all runs: no wakeup is lost, mutual exclusion
  with recursion, conservation of semaphore units, what condition variables promise, and
  which step a timed wait misses. `SyncHistory` tells from the calls of a run alone what every
  later call and wait answers.
- **Cooperative scheduler** (`Sched*.dfy`; `Sources/Win32/wg_threading.c`). Starvation
  freedom, context integrity, disjoint stacks, and the classes that do each step in place.
  `SchedHistory` tells from a run what has become of each thread and who comes next.
- **PE base relocation** (`Pe*.dfy`; `Sources/PE/wg_pe_loader.c`), after the Microsoft PE
  Format document, "The .reloc Section (Image Only)": rebases compose, undo each other and
  touch nothing else; the block walk that rewrites the file it reads from does exactly that.
  `PePacking` writes a directory as a linker does and proves that it is read as written.
  `PeSample` is an image that these laws are about; `PeWrap` is the walk on every other
  directory, in the source's 32-bit offsets.
- **Line rasteriser** (`GdiLine.dfy`, `GdiInt.dfy`; `Sources/Win32/wg_win32_gdi.c`): it ends
  exactly at its target and draws the nearest pixel at every step; exactly which lines stay within C's
  `int`.
- **Compare and condition** (`X86Flags.dfy`, `X86Cpu.dfy`, `X86Decode.dfy`, `X86Operands.dfy`; `Sources/CPU`),
  after Intel SDM Volume 1, Appendix B, EFLAGS condition codes: CMP followed by Jcc, SETcc or
  CMOVcc acts on the integer comparison, for operands of 2, 4 and 8 bytes.
- `Words` holds what the parts share: bytes, machine words, products, residues, divisors.

`dafny verify dfyconfig.toml` checks the whole project.

Large statements are kept under a key: a predicate such as `Leads`, `Ahead` or `Shift` holds
its body behind a quantifier that only an explicit lemma (`LeadsTo`, `IsAhead`, `IsShift`)
opens, so that each proof sees only what it names.

## What does not hold

Where a property fails in the code, the code is modelled as it is, an input that fails is
given and the exact condition is proved.

- A thread asleep on a condition variable can miss a wakeup when the variable is closed, its
  slot is handed out again as a semaphore and a wait takes from that semaphore, because
  `acquire_locked` changes the count that the sleeper takes for a generation without a
  broadcast. `SyncRuns.AWakeupCanBeLost` is such a run; `SyncRuns.LostInRunsExactlyWhen` says
  that a run loses a wakeup if and only if one of its steps does this.
- A wait for all tests a repeated handle once and takes from it every time:
  `SyncWaits.OverdrawnTwice` ends below zero, and `SyncWaits.RepeatedHandles` says when a
  semaphore stays at or above zero.
- When its deadline passes, a wait for several objects does not look at them once more, as a
  wait for one does. `SyncDeadlines.ADeadlineIsMissed` is a run that returns WAIT_TIMEOUT with
  the awaited event set. `SyncDeadlines.MissedInRuns` says that a wait leaves behind what it
  waited for if and only if, since it was last told to look, a step has offered one of its
  objects and no later step has taken it away.
- `wg_sync_pulse_event` announces that it wakes everyone who waits; the event is reset before
  the lock is released, so no thread that waits for it finds it set:
  `SyncWaits.PulseReleasesNobody` and `SyncWaits.PulseReleasesNoneOfMany` hold for every state
  and every waiting thread.
- Byte comparisons set their flags in the size of the instruction.
  `X86Flags.SignedBytesFail` and `X86Flags.SignOfBytesFails` are comparisons whose signed,
  overflow and sign conditions come out wrong; `X86Flags.ByteConditions` says for each of the
  sixteen conditions when it is right, and `X86Decode.DecodedConditions` that nothing else can
  go wrong with a comparison that the decoder gives.

- The rasteriser's error term leaves C's `int` on steep lines that are too long, although both
  differences fit: `GdiInt.LongDiagonal`. `GdiInt.FitsExactly` gives the exact condition on the
  two differences and their greatest common divisor.
- A relocation block whose size wraps the 32-bit sum with its offset passes the size test of
  `wg_pe_rebase`: the walk reads entries from outside the directory and goes back.
  `PeWrap.AWalkNeverEnds` is a directory of 16 bytes on which it runs in a circle;
  `PeWrap.OrderlyExactly` says that the walk reads only the directory and only goes forward if
  and only if no such sum wraps, and `PeWrap.EndsExactly` when it ends at all.

## Model

| member | source | states |
|---|---|---|
| `LzmaLayout.LiteralContextFormulasAgree` | Sources/LZMA/LzmaDec.c:252-253 | For every lc, lp, position and previous byte the masked formula of the real decoder, the shift-and-add formula of the dry run and the defined sub-coder offset are equal, also after the 32-bit position has wrapped |
| `LzmaLayout.PosStateBound` | Sources/LZMA/LzmaDec.c:161 | The masked position counter gives the position state of the true position, a multiple of 16 up to 240 |
| `LzmaLayout.LiteralBaseBound` | Sources/LZMA/LzmaDec.c:156-158 | Every literal sub-coder lies inside the allocated probability array |
| `LzmaRangeCoder.BoundSplits` | Sources/LZMA/LzmaDec.c:22-24 | With probabilities in 31..2017 both parts of a normalised range are at least 2^16, and a bit costs at most a factor 67: one shift always restores the range |
| `LzmaRangeCoder.Normalize` | Sources/LZMA/LzmaDec.c:20 | A shift gives a normalised coder and takes at most one input byte |
| `LzmaRangeCoder.ModelledBit` | Sources/LZMA/LzmaDec.c:22-24 | A modelled bit keeps the coder's fields in range, reads no input and keeps at least 1/67 of the range |
| `LzmaRangeCoder.DirectBit` | Sources/LZMA/LzmaDec.c:475-484 | A direct bit, decided by the sign of the 32-bit difference, keeps the coder's fields in range and at least 1026/2054 of the range |
| `LzmaLearning.BitMoves` | Sources/LZMA/LzmaDec.c:22-24 | One bit moves the probability it was read with a thirty-second of the way toward that bit, to 0 for a one and to 2048 for a zero, and changes no other |
| `LzmaLearning.SymbolLearns` | Sources/LZMA/LzmaDec.c:239-526 | After a whole symbol exactly the probabilities it was asked under have moved, each by that amount toward the bit read there |
| `LzmaSymbol.Slot` | Sources/LZMA/LzmaDec.c:133-145 | Every slot that any stage of a symbol asks for is an index of the probability array |
| `LzmaSymbol.AdvanceOk` | Sources/LZMA/LzmaDec.c:239-526 | Every stage leads to a well-formed stage of higher rank, so a symbol ends after finitely many bits |
| `LzmaParse.SlotDeterminesRank` | Sources/LZMA/LzmaDec.c:93-98 | A slot belongs to stages of one rank only; in particular the two choice slots of a length coder are no nodes of its trees |
| `LzmaParse.DryRunAgrees` | Sources/LZMA/LzmaDec.c:660-850 | Decoding a symbol without adapting probabilities succeeds exactly when adapting decoding does, with the same symbol and the same range coder, because no symbol visits a slot twice |
| `LzmaParse.RunExtend` | Sources/LZMA/LzmaDec.c:67 | More input does not change a symbol that parses, and a symbol that did not fit ends inside the added bytes |
| `LzmaParse.LossDrops` | Sources/LZMA/LzmaDec.c:20-36 | Along every path of a symbol the bound on the remaining loss of range drops by the factor that a modelled or a direct bit can cost |
| `LzmaParse.RunWithin` | Sources/LZMA/LzmaDec.c:568-570 | A symbol whose remaining losses are covered by k shifts parses from k bytes and uses no more, the final normalisation included |
| `LzmaParse.SymbolFitsLookahead` | Sources/LZMA/LzmaDec.h:48-51 | From a normalised coder every symbol needs at most 20 bytes, final normalisation included; with one normalisation pending, at most 21 |
| `LzmaParse.FirstSymbolIsNotRep` | Sources/LZMA/LzmaDec.c:617-622 | On a fresh decoder the first symbol repeats a match if and only if the code is at least kBadRepCode |
| `LzmaParse.SymbolClass` | Sources/LZMA/LzmaDec.c:713-730 | Once the IsMatch and IsRep bits are read the kind of the symbol is settled |
| `LzmaStream.CopyRepeats` | Sources/LZMA/LzmaDec.c:540-564 | A copy produces out[n] = out[n - rep0] for every byte, overlapping copies included |
| `LzmaStream.CopyInTwo` | Sources/LZMA/LzmaDec.c:588-614 | Copying a part of a match and the remainder later is copying it at once |
| `LzmaStream.ContextOfValid` | Sources/LZMA/LzmaDec.c:244-275 | Between symbols the state is below 12 and the context selects slots inside the array |
| `LzmaStates.AppliedFollows` | Sources/LZMA/LzmaDec.c:514-524 | A symbol is applied if and only if it is the end mark or its distance lies in the history and the dictionary; state, distances and output then are those of the history with it |
| `LzmaStates.RegistersTellTheHistory` | Sources/LZMA/LzmaDec.c:277 | However many symbols of a stream are decoded: the state is the one that the LZMA specification tabulates for the kinds of the last symbols, the four distances are those used last, the latest first, the output is the text of the symbols, and each could follow the ones before it |
| `LzmaWalk.PlaceIsOwn` | Sources/LZMA/LzmaDec.c:93-145 | The named probabilities of the format each have a place of their own in the array |
| `LzmaWalk.SymbolWalk` | Sources/LZMA/LzmaDec.c:239-526 | For every symbol: reading the bits that the format spells it with leads through the decision machine to that symbol, each bit under the probability that the format names |
| `LzmaEncoder.ModelledRead` | Sources/LZMA/LzmaDec.c:22-24 | A bit that an unbounded range encoder puts in under a probability is the bit read back, and the decoder keeps up with the encoder's interval |
| `LzmaEncoder.PlainRead` | Sources/LZMA/LzmaDec.c:475-484 | So is a bit put in without one |
| `LzmaEncoder.BothLearn` | Sources/LZMA/LzmaDec.c:23-24 | Encoder and decoder learn the same from it |
| `LzmaEncoder.RunReads` | Sources/LZMA/LzmaDec.c:239-526 | The encoded bits of a symbol parse as that symbol, with the final normalisation |
| `LzmaRoundTrip.SymbolReads` | Sources/LZMA/LzmaDec.c:239-526 | A decoder in step with the encoder decodes the next symbol and stays in step |
| `LzmaRoundTrip.DecodeOfEncode` | Sources/LZMA/LzmaDec.c:918-1013 | For all properties and all sequences of symbols that can follow one another: decoding what the reference encoder writes gives their text, uses the whole stream and ends as MAYBE_FINISHED_WITHOUT_MARK |
| `LzmaRoundTrip.DecodeOfEncodeWithMark` | Sources/LZMA/LzmaDec.c:918-1018 | With an end mark, a call with room for more gets the text, uses the whole stream and ends as FINISHED_WITH_MARK |
| `LzmaRoundTrip.DecodeToTheEnd` | Sources/LZMA/LzmaDec.c:922-1018 | A call told that the stream ends at the limit, for every symbol that follows the text: the end mark ends it as FINISHED_WITH_MARK, another match is a data error, any other symbol a data error as not finished, unless the code happens to be used up before it; the text is there in every case |
| `LzmaCalls.DistancesStayInHistory` | Sources/LZMA/LzmaDec.c:514-524 | Every distance that a symbol uses is at least 1 and at most the bytes produced and the dictionary size; the first symbol never repeats a match |
| `LzmaCalls.ResumeCompose` | Sources/LZMA/LzmaDec.c:918-1013 | Stopping at a lower limit on a shorter input and resuming is the same as going on; an error is reported either way |
| `LzmaCalls.CarryIsUsedUp` | Sources/LZMA/LzmaDec.c:999-1007 | Either nothing is decoded, or the first symbol uses up all carried bytes |
| `LzmaCalls.ResumeStarves` | Sources/LZMA/LzmaDec.c:946-956 | A call that asks for more input keeps fewer bytes than the next symbol needs |
| `LzmaStatus.StatusMeans` | Sources/LZMA/LzmaDec.c:918-1013 | The status of every call says how it ended: finished with mark if and only if the mark has been read, with the code used up; maybe finished if and only if the limit is reached between symbols with the code used up; not finished if and only if it is reached otherwise and may be; a call fails for want of the end only at the limit and only if told that the stream ends there |
| `LzmaStatus.HeaderMeans` | Sources/LZMA/LzmaDec.c:883-893 | A stream is refused for its header if and only if its first byte is not zero; fewer than 5 bytes are kept |
| `LzmaCalls.CallBodyKeeps` | Sources/LZMA/LzmaDec.c:942-1012 | After a call every input byte is used, carried or left with the caller, and the state is valid |
| `LzmaCalls.HeaderInTwo` | Sources/LZMA/LzmaDec.c:883-893 | The 5-byte header does not depend on where the input is cut |
| `LzmaCalls.BodyCallsCompose` | Sources/LZMA/LzmaDec.c:916-1018 | One cut does not matter once the header is complete: two calls give the result of one |
| `LzmaCalls.HeaderCallsCompose` | Sources/LZMA/LzmaDec.c:883-914 | One cut does not matter while the header is incomplete, wherever it falls |
| `LzmaCalls.StreamingInvariance` | Sources/LZMA/LzmaDec.c:875-1060 | For every cutting of the input into chunks and of the output into limits, the run of calls fails exactly when one call on everything fails, and otherwise ends in the same decoder state with the same output, carried and unread bytes and status |
| `LzmaCalls.FeedValid` | Sources/LZMA/LzmaDec.c:875-1060 | Every state a run of calls reaches is valid: distances inside the history and the dictionary, state below 12, carried bytes too few for a symbol |
| `LzmaBits.Shift` | Sources/LZMA/LzmaDec.c:20 | The macro does the reference normalisation and reads inside the buffer |
| `LzmaBits.ShiftCheck` | Sources/LZMA/LzmaDec.c:67 | The checking macro gives up exactly when the byte is missing |
| `LzmaBits.GetBit` | Sources/LZMA/LzmaDec.c:22-27 | One adapting bit moves the decoder to the next stage of the same parse, whose bits and probabilities LzmaLearning and LzmaEncoder are about |
| `LzmaBits.GetBitCheck` | Sources/LZMA/LzmaDec.c:69-75 | One checking bit does the same without adapting, or the parse lacks input |
| `LzmaBits.GetDirectBit` | Sources/LZMA/LzmaDec.c:475-484 | The mask arithmetic of the real decoder's direct bit, in 32 bits, is the reference direct bit |
| `LzmaBits.GetDirectBitCheck` | Sources/LZMA/LzmaDec.c:826-829 | So is the dry run's, which uses the complementary mask |
| `LzmaBits.DecodeTree` | Sources/LZMA/LzmaDec.c:38-39 | The bit-tree loop walks to the leaf of the parse |
| `LzmaBits.DecodeTreeCheck` | Sources/LZMA/LzmaDec.c:76-77 | So does the checking one, or the parse lacks input |
| `LzmaReal.ReadLiteral` | Sources/LZMA/LzmaDec.c:258-270 | Eight tree bits give the literal of the parse |
| `LzmaReal.ReadMatchedLiteral` | Sources/LZMA/LzmaDec.c:275-299 | The offs/matchByte arithmetic gives the literal of the parse under the match byte |
| `LzmaReal.ReadRep` | Sources/LZMA/LzmaDec.c:324-371 | The rep flags select one of the four distances and move it to the front |
| `LzmaReal.ReadLength` | Sources/LZMA/LzmaDec.c:409-441 | Low, middle and high trees give the length of the parse |
| `LzmaReal.ReadDistance` | Sources/LZMA/LzmaDec.c:446-512 | Slot, reverse trees and direct bits give the distance of the parse, below 2^32 |
| `LzmaReal.ReadSpec` | Sources/LZMA/LzmaDec.c:455-468 | The distance that runs through its own tree slots is the distance of the parse |
| `LzmaReal.ReadDirect` | Sources/LZMA/LzmaDec.c:472-494 | The direct bits arrive most significant first and never overflow 32 bits |
| `LzmaDry.CheckMatchedLiteral` | Sources/LZMA/LzmaDec.c:695-709 | The dry run reads a matched literal along the same stages |
| `LzmaDry.CheckRep` | Sources/LZMA/LzmaDec.c:730-767 | The dry run reads the rep flags along the same stages |
| `LzmaDry.CheckLength` | Sources/LZMA/LzmaDec.c:772-802 | The dry run reads a length along the same stages |
| `LzmaDry.CheckDistance` | Sources/LZMA/LzmaDec.c:806-844 | The dry run reads a distance along the same stages, although it never computes it |
| `LzmaTryDummy.DryVerdict` | Sources/LZMA/LzmaDec.c:946-949 | A parse that adapts nothing gives the verdict (too short, literal, match, rep) of the adapting parse of the same symbol |
| `LzmaTryDummy.DryRun` | Sources/LZMA/LzmaDec.c:660-850 | The dry run reports an error exactly when the next symbol with its final normalisation does not fit into the bytes offered, and otherwise the kind of symbol the adapting decoder decodes |
| `LzmaDictionary.CopyMatch` | Sources/LZMA/LzmaDec.c:540-564 | The match copy, straight or around the end of the buffer, keeps the buffer a mirror of the unbounded history extended by the LZ77 copy |
| `LzmaDictionary.CopyStraight` | Sources/LZMA/LzmaDec.c:545-553 | The contiguous loop does so |
| `LzmaDictionary.CopyAround` | Sources/LZMA/LzmaDec.c:557-563 | The wrapping loop does so |
| `LzmaDictionary.CopyRemainder` | Sources/LZMA/LzmaDec.c:606-611 | The remainder loop of a later call does so |
| `LzmaDictionary.WrapMirrors` | Sources/LZMA/LzmaDec.c:1032-1033 | A full buffer still mirrors the history when writing restarts at its beginning |
| `LzmaDictionary.ProducedBytes` | Sources/LZMA/LzmaDec.c:1050-1051 | What the buffer holds between two write positions is what was produced between them |
| `LzmaDictionary.DicBufSize` | Sources/LZMA/LzmaDec.c:1138-1145 | The buffer is at least the dictionary, and rounded up to its granule unless that overflows the size type |
| `LzmaOneSymbol.DecodeOne` | Sources/LZMA/LzmaDec.c:244-524 | One symbol of the real decoder has the effect of the reference on registers and history, and fails exactly when the reference refuses the symbol |
| `LzmaOneSymbol.LiteralBranch` | Sources/LZMA/LzmaDec.c:249-304 | The literal branch appends the parsed byte and moves the state on, to the one that AppliedFollows ties to the history |
| `LzmaOneSymbol.NewMatchBranch` | Sources/LZMA/LzmaDec.c:444-524 | A new match sets the distances, recognises the end mark, and is refused exactly when its distance leaves the history or the dictionary |
| `LzmaOneSymbol.RepBranch` | Sources/LZMA/LzmaDec.c:324-371 | A repeated match reorders the distances; a short one copies its byte |
| `LzmaProgress.CopyPart` | Sources/LZMA/LzmaDec.c:528-565 | As much of a match as fits is copied and the rest stays pending, without changing where the call leads |
| `LzmaProgress.CopyRest` | Sources/LZMA/LzmaDec.c:590-612 | The pending rest is copied up to the limit, and checkDicSize is raised exactly when the history fills the dictionary |
| `LzmaProgress.Round` | Sources/LZMA/LzmaDec.c:239-566 | A round of the main loop, from between two symbols to between two symbols, keeps the result the call leads to |
| `LzmaDecoder.MainLoop` | Sources/LZMA/LzmaDec.c:239-570 | The loop never reads past the buffer although it only tests buf < bufLimit with a normalisation pending, and ends where the reference leads |
| `LzmaDecoder.NextSymbolParses` | Sources/LZMA/LzmaDec.c:965 | With 20 bytes left the next symbol needs no check |
| `LzmaDecoder.FirstSymbol` | Sources/LZMA/LzmaDec.c:635-637 | The kBadRepCode test fails exactly the streams whose first symbol would repeat a match |
| `LzmaDecoder.CarryUsed` | Sources/LZMA/LzmaDec.c:999-1007 | A symbol longer than the carried bytes ends in the bytes just added, so unused bytes came from this call |
| `LzmaDecoder.LzmaDec.DecodeReal` | Sources/LZMA/LzmaDec.c:217-585 | From a checked first symbol the loop decodes toward the reference's result, or fails as it does |
| `LzmaDecoder.LzmaDec.WriteRem` | Sources/LZMA/LzmaDec.c:588-614 | The pending match is continued up to the limit, toward the same result |
| `LzmaDecoder.LzmaDec.LimitToDictionary` | Sources/LZMA/LzmaDec.c:628-638 | The inner limit stops where the history fills the dictionary; an impossible first symbol fails |
| `LzmaDecoder.LzmaDec.DecodeReal2` | Sources/LZMA/LzmaDec.c:624-650 | All rounds of a call lead to the reference's result |
| `LzmaDecoder.LzmaDec.TryDummy` | Sources/LZMA/LzmaDec.c:660-850 | On the decoder's own fields: an error exactly when the bytes do not hold the next symbol, otherwise its kind |
| `LzmaDecoder.LzmaDec.AtDicLimit` | Sources/LZMA/LzmaDec.c:922-940 | The four outcomes at the output limit are the reference's |
| `LzmaDecoder.LzmaDec.TurnFromInput` | Sources/LZMA/LzmaDec.c:942-973 | A turn on the caller's input ends as the reference's call or goes on with progress |
| `LzmaDecoder.LzmaDec.TurnFromCarry` | Sources/LZMA/LzmaDec.c:974-1012 | So does a turn on the 20-byte carry buffer; both internal-error returns are unreachable |
| `LzmaDecoder.LzmaDec.DecodeHeader` | Sources/LZMA/LzmaDec.c:883-914 | The header part of a call takes the bytes, fails or waits as the reference does |
| `LzmaDecoder.LzmaDec.StartBody` | Sources/LZMA/LzmaDec.c:894-913 | A complete header gives exactly the initial core |
| `LzmaDecoder.LzmaDec.DecodeToDic` | Sources/LZMA/LzmaDec.c:875-1019 | A call does exactly what the reference machine's call does: the same state, input use, output and status; or the same failure, with the dictionary holding exactly the bytes that the reference produced up to the refused symbol; never SZ_ERROR_FAIL |
| `LzmaDecoder.LzmaDec.Init` | Sources/LZMA/LzmaDec.c:868-872 | The decoder abstracts to one that waits for its header and has produced nothing |
| `LzmaDecoder.LzmaDec.Allocate` | Sources/LZMA/LzmaDec.c:1130-1160 | The dictionary buffer has the computed size and holds the whole dictionary |
| `LzmaToBuf.CallAgain` | Sources/LZMA/LzmaDec.c:1057-1058 | A call that stopped before its limit has nothing more to do: repeating it changes nothing |
| `LzmaToBuf.ResumeAppends` | Sources/LZMA/LzmaDec.c:1050-1054 | What has been produced stays produced, also by a call that fails later |
| `LzmaToBuf.PartOfWhole` | Sources/LZMA/LzmaDec.c:1035-1044 | A call up to the end of the buffer is either the whole call already or its first part |
| `LzmaToBuf.DecodeToBuf` | Sources/LZMA/LzmaDec.c:1022-1060 | The calls per wrap of the dictionary add up to the reference's one call for everything, and dest receives exactly the bytes produced, up to the refused symbol if the data is in error |
| `LzmaOneCall.Decode` | Sources/LZMA/LzmaDec.c:1162-1185 | The one-call interface, into a buffer of any size that never wraps: error codes, output bytes, input use and status are those of the reference's one call; after a data error, too, the output is what the reference produced up to the refused symbol |
| `LzmaProps.PropsRoundTrip` | Sources/LZMA/LzmaDec.c:1094-1101 | Bytes decode to given valid properties if and only if the first is the packing of lc, lp and pb and the others hold the dictionary size, or a size that is raised to the minimum |
| `LzmaProps.WrittenPropsDecode` | Sources/LZMA/LzmaDec.c:1080-1105 | The five bytes written for any properties decode to them, the dictionary size lowest byte first |
| `LzmaProps.WhenUnsupported` | Sources/LZMA/LzmaDec.c:1085-1096 | Properties are refused exactly when fewer than five bytes are given or the first is 225 or more |
| `SyncRuns.NoWakeupIsLost` | Sources/Win32/wg_sync.c:300-433 | In every state of every run a parked thread that is not notified has live handles and a false predicate, or sleeps on a handle that has been reused for a semaphore |
| `SyncRuns.QuietFromTheStart` | Sources/Win32/wg_sync.c:300-433 | So in every state that a run from the empty table reaches |
| `SyncRuns.NoWakeupIsLostAtAll` | Sources/Win32/wg_sync.c:300-433 | Without the exception for every run in which no semaphore gets the handle of a closed condition variable that a thread still sleeps on |
| `SyncRuns.AWakeupCanBeLost` | Sources/Win32/wg_sync.c:406-418 | The exception is real: a concrete run after which a sleeper is parked, not notified, and its count has moved |
| `SyncRuns.LostExactlyWhen` | Sources/Win32/wg_sync.c:283-291 | From a quiet state a step loses a wakeup if and only if it takes from a semaphore whose handle an unnotified thread sleeps on |
| `SyncRuns.LostInRunsExactlyWhen` | Sources/Win32/wg_sync.c:283-291 | Over whole runs: from a quiet state, every state of a run is quiet if and only if no step of it takes from a semaphore whose handle an unnotified thread sleeps on |
| `SyncWakeups.StepKeeps` | Sources/Win32/wg_sync.c:82-459 | Every lock-held segment keeps the wakeup invariant |
| `SyncWakeups.SignalKeeps` | Sources/Win32/wg_sync.c:204-267 | Creating, signalling, releasing, waking, closing and kicking keep it |
| `SyncWakeups.WakeKeeps` | Sources/Win32/wg_sync.c:311-327 | Resuming and expiring in every kind of wait keep it |
| `SyncWakeups.CalmStep` | Sources/Win32/wg_sync.c:283-291 | Acquiring without a broadcast is safe: it satisfies no other thread's wait |
| `SyncSleep.LawsHold` | Sources/Win32/wg_sync.c:233-291 | Over all runs of callers that keep their side: recursion is the owner's outstanding acquisitions, count + taken = added - dropped within 0..max, an auto-reset event lets no more waits pass than it got signals |
| `SyncSleep.LawsFromTheStart` | Sources/Win32/wg_sync.c:233-291 | So in every such run from the empty table, with empty books |
| `SyncSleep.MutualExclusion` | Sources/Win32/wg_sync.c:272-291 | Two threads never hold one mutex, and the holder's count is the recursion depth |
| `SyncSleep.OneHolder` | Sources/Win32/wg_sync.c:272-291 | So at no point of a run from the empty table do two threads hold one mutex |
| `SyncAccounts.StepBooks` | Sources/Win32/wg_sync.c:204-433 | Every segment keeps all accounts balanced |
| `SyncAccounts.ReleaseSemaphoreBooks` | Sources/Win32/wg_sync.c:245-258 | A clamped release keeps the semaphore's account |
| `SyncAccounts.GrantAllBalanced` | Sources/Win32/wg_sync.c:353-357 | Acquiring distinct satisfied objects together keeps every account |
| `SyncSleep.SleepGivesUp` | Sources/Win32/wg_sync.c:396-398 | A sleeper at any depth gives the mutex up entirely, with that depth to come back to |
| `SyncSleep.SleepRestores` | Sources/Win32/wg_sync.c:421-430 | Whatever happens meanwhile, it comes back owning the mutex at exactly that depth |
| `SyncSleep.GenerationCounts` | Sources/Win32/wg_sync.c:377-383 | The generation counts the wakes, and each wake notifies every parked thread |
| `SyncSleep.EveryWakeIsSeen` | Sources/Win32/wg_sync.c:404-419 | With the condition variable left open, the loop ends as woken if and only if a wake came before it ended |
| `SyncSleep.FallsAsleepDozing` | Sources/Win32/wg_sync.c:404-412 | No wake falls between giving the mutex up and sleeping |
| `SyncSleep.ResultIsKept` | Sources/Win32/wg_sync.c:421-432 | What the loop decided is what cv_sleep returns once it has the mutex |
| `SyncSleep.SleepAnswers` | Sources/Win32/wg_sync.c:404-432 | While a thread sleeps, and after it: it comes back with WAIT_OBJECT_0 if and only if a wake came before its loop ended, and with WAIT_TIMEOUT otherwise |
| `SyncSleep.SleepTellsTheTruth` | Sources/Win32/wg_sync.c:385-433 | So for every call of cv_sleep with a timeout, over every run in which its condition variable stays open, from the call to its return |
| `SyncWaits.WaitAllIsAtomic` | Sources/Win32/wg_sync.c:353-357 | A wait for all distinct objects succeeds exactly when all are live and satisfied, then takes each once and nothing else, and otherwise takes nothing |
| `SyncWaits.WaitAnyTakesLowest` | Sources/Win32/wg_sync.c:357-361 | A wait for any returns k exactly when k is the lowest satisfied index, and takes only that object |
| `SyncWaits.RepeatedHandles` | Sources/Win32/wg_sync.c:355-356 | With repeated handles a successful wait for all leaves a semaphore at or above zero if and only if it is listed no more often than its count |
| `SyncWaits.OverdrawnTwice` | Sources/Win32/wg_sync.c:355-356 | For instance a semaphore of count 1, listed twice, goes to -1 |
| `SyncWaits.DeadlinePassed` | Sources/Win32/wg_sync.c:317-322 | At the deadline a single wait on a table slot returns WAIT_OBJECT_0 exactly if its object is satisfied; a multiple wait times out whatever its objects are |
| `SyncHistory.RunFits` | Sources/Win32/wg_sync.c:153-266 | Over every run each object agrees with the story of its handle, which is told from the calls and what they returned: how it was created, whether an event was set or kicked after it was last reset, pulsed or passed, the first exit code of a thread |
| `SyncHistory.ThreadWaits` | Sources/Win32/wg_sync.c:277 | A wait on a thread object returns WAIT_OBJECT_0 if and only if a thread_exit on its handle has come since its creation |
| `SyncHistory.ManualWaits` | Sources/Win32/wg_sync.c:274 | A wait on a manual-reset event returns WAIT_OBJECT_0 if and only if it was created set or its last set or kick came after its last reset or pulse |
| `SyncHistory.WaitSingleAnswers` | Sources/Win32/wg_sync.c:300-331 | Everything wait_single answers after any run, at the call, on waking and at the deadline, for all five kinds: a dead handle fails; an event that is on, a mutex nobody else holds by the books, a semaphore with units left by the books and a thread that has exited succeed; otherwise a timeout of zero returns and any other parks |
| `SyncHistory.WaitMultipleAnswers` | Sources/Win32/wg_sync.c:333-373 | Everything wait_multiple answers after any run: a bad count or a dead handle fails, a wait for all needs all, a wait for any returns the lowest ready index, otherwise it times out or parks |
| `SyncHistory.CallsAnswer` | Sources/Win32/wg_sync.c:204-258 | What the other calls return after any run, by the stories and the books: set, reset and pulse succeed on events, release on a mutex the caller holds and on semaphores, close on live handles |
| `SyncHistory.KickAnswers` | Sources/Win32/wg_sync.c:115-129 | A directed kick counts if and only if its thread waits for one auto-reset event that is not set |
| `SyncHistory.WorkersAnswer` | Sources/Win32/wg_sync.c:82-107 | The kick of the workers returns the number of objects that it has changed |
| `SyncHistory.CreateAnswers` | Sources/Win32/wg_sync.c:132-143 | A creation hands out the lowest handle not in use, or 0 if all are |
| `SyncHistory.InsideTells` | Sources/Win32/wg_sync.c:300-373 | A thread is inside a wait exactly from a call that does not return to the step that does, and waits for what it called for |
| `SyncDeadlines.MissedAtDeadline` | Sources/Win32/wg_sync.c:363-369 | In a state that has lost no wakeup, a multiple wait that times out although it could pass has been notified, and resuming instead would have returned the object |
| `SyncDeadlines.OnlyOffersHelp` | Sources/Win32/wg_sync.c:345-361 | A parked multiple wait only becomes passable by a step that sets, releases, gives up, creates or kicks one of its objects; no wait of another thread makes it so |
| `SyncDeadlines.MissedInRuns` | Sources/Win32/wg_sync.c:363-369 | From any reached state in which the thread has not been told of anything since it looked, over any run in which it does not look again: its deadline then leaves behind what it waited for if and only if a step of the run offered it and no later step took it away |
| `SyncDeadlines.ADeadlineIsMissed` | Sources/Win32/wg_sync.c:363-369 | It happens: an event is created, waited for with a deadline by a multiple wait, and set; the wait then returns WAIT_TIMEOUT with the event set |
| `SyncWaits.PulseReleasesNobody` | Sources/Win32/wg_sync.c:222-231 | For every state and every thread that waits for an event alone: after a pulse it is notified, the event is not set, and resuming parks it again, whereas setting the event would have released it |
| `SyncWaits.PulseReleasesNoneOfMany` | Sources/Win32/wg_sync.c:222-231 | A thread that waits for several objects passes after a pulse only if it would have passed without it, and by another object |
| `SyncMonitor.Monitor.Create` | Sources/Win32/wg_sync.c:132-143 | The first free slot, in place, is the model's creation step |
| `SyncMonitor.Monitor.SetEvent` | Sources/Win32/wg_sync.c:204-211 | In place it is the model's step |
| `SyncMonitor.Monitor.PulseEvent` | Sources/Win32/wg_sync.c:222-231 | Set, broadcast and reset in one lock hold: in place it is the model's step, after which the event is not set and every waiting thread is notified |
| `SyncMonitor.Monitor.ReleaseMutex` | Sources/Win32/wg_sync.c:233-243 | In place it is the model's step |
| `SyncMonitor.Monitor.ReleaseSemaphore` | Sources/Win32/wg_sync.c:245-258 | In place it is the model's step, and reports the previous count |
| `SyncMonitor.Monitor.ThreadExit` | Sources/Win32/wg_sync.c:260-267 | In place it is the model's step |
| `SyncMonitor.Monitor.Close` | Sources/Win32/wg_sync.c:452-459 | In place it is the model's step |
| `SyncMonitor.Monitor.WaitSingle` | Sources/Win32/wg_sync.c:300-331 | The first pass of the loop is the model's step, whose answer SyncHistory.WaitSingleAnswers tells from the run |
| `SyncMonitor.Monitor.WaitMultiple` | Sources/Win32/wg_sync.c:333-373 | The first pass of the loop, all its inner loops included, is the model's step |
| `SyncMonitor.Monitor.CvSleep` | Sources/Win32/wg_sync.c:385-433 | From giving the mutex up to the first park or return it is the model's step |
| `SyncMonitor.Monitor.CvWake` | Sources/Win32/wg_sync.c:377-383 | In place it is the model's step |
| `SyncMonitor.Monitor.Resume` | Sources/Win32/wg_sync.c:406-429 | A pass after pthread_cond_wait, in any of the four loops, is the model's step |
| `SyncMonitor.Monitor.Expire` | Sources/Win32/wg_sync.c:317-322 | A pass after ETIMEDOUT is the model's step |
| `SyncMonitor.Monitor.KickTid` | Sources/Win32/wg_sync.c:115-129 | In place it is the model's step |
| `SyncMonitor.Monitor.KickWorkers` | Sources/Win32/wg_sync.c:82-107 | The scan over the table of waits, in any order, and over the condition variables is the model's one step, and counts the changed objects |
| `SchedFairness.NoStarvation` | Sources/Win32/wg_threading.c:149-180 | A run with more switches than a ready thread's rank contains one that picks it; ranks are below 1056 |
| `SchedContexts.NobodyStarves` | Sources/Win32/wg_threading.c:149-180 | So wherever a run from the loading of the program has come to |
| `SchedHistory.RecordsTell` | Sources/Win32/wg_threading.c:50-232 | In every run from the loading of the program each record says what its thread has done: ids, handles and stacks by order of creation, waiting exactly if it has yielded to wait and the handle it sought has not been woken since, the exit code it exited with |
| `SchedHistory.WakeReleases` | Sources/Win32/wg_threading.c:208-218 | A wake makes exactly the threads ready that wait for its handle, and changes no other slot and nothing else |
| `SchedHistory.SleepsOn` | Sources/Win32/wg_threading.c:208-218 | In every run without a wake of the handle it seeks, a waiting thread goes on waiting and is not picked |
| `SchedHistory.WokenInTime` | Sources/Win32/wg_threading.c:149-218 | A waiting thread becomes ready exactly at the first wake of the handle it announced, and is picked within its rank of switches after that |
| `SchedHistory.SwitchGoesRound` | Sources/Win32/wg_threading.c:149-206 | A switch goes round the table from the slot after the one that yields, or from the beginning, to the first thread that could run; without one a yield returns and an exit leaves nobody running |
| `SchedHistory.EntryRegisters` | Sources/Win32/wg_threading.c:80-119 | A new thread starts at its entry with its parameter in RCX, the stack registers 0xFFEF8 above its stack's base, its creator's segment base, and zero elsewhere |
| `SchedFairness.ScanFinds` | Sources/Win32/wg_threading.c:150-155 | A scan picks the ready thread, or one before it, and then starts strictly closer to it |
| `SchedFairness.ExitStep` | Sources/Win32/wg_threading.c:220-232 | An exit restarts the scan at slot 0 but uses up a slot, so the rank still drops |
| `SchedFairness.YieldStep` | Sources/Win32/wg_threading.c:193-206 | A yield picks the ready thread or lowers its rank |
| `SchedFairness.OneRunsStep` | Sources/Win32/wg_threading.c:141-232 | At most one thread is in state RUNNING and it is the current one |
| `SchedContexts.ContextIntegrity` | Sources/Win32/wg_threading.c:141-206 | In every run each thread resumes with all 16 registers, rip, flags and both segment bases of its last yield or of its creation |
| `SchedContexts.ContextsFromLoad` | Sources/Win32/wg_threading.c:141-206 | So in every run from the loading of the program, in which never more than one thread is running |
| `SchedContexts.StepRestores` | Sources/Win32/wg_threading.c:193-206 | Every step keeps the saved contexts; a yield that finds nobody restores its own |
| `SchedContexts.EntryIsAligned` | Sources/Win32/wg_threading.c:86-94 | The entry stack pointer is 8 modulo 16 inside the thread's stack |
| `SchedContexts.CreateKeepsStacks` | Sources/Win32/wg_threading.c:74-122 | A new thread gets a stack apart from all others, its parameter in RCX and its start address in rip |
| `SchedContexts.StacksStayDisjoint` | Sources/Win32/wg_threading.c:74-77 | In every run the stacks stay disjoint, a guard gap apart, below the 32-bit limit |
| `SchedContexts.StacksFromLoad` | Sources/Win32/wg_threading.c:74-77 | So in every run from the loading of the program |
| `Scheduler.ThreadScheduler.CreateThread` | Sources/Win32/wg_threading.c:50-139 | In place it is the model's creation, with the handle and id handed out |
| `Scheduler.ThreadScheduler.SaveCurrent` | Sources/Win32/wg_threading.c:141-147 | In place it is the model's save |
| `Scheduler.ThreadScheduler.SwitchNext` | Sources/Win32/wg_threading.c:149-180 | In place it is the model's switch |
| `Scheduler.ThreadScheduler.Yield` | Sources/Win32/wg_threading.c:193-206 | In place it is the model's yield |
| `Scheduler.ThreadScheduler.Wake` | Sources/Win32/wg_threading.c:208-218 | In place it is the model's wake; WakeReleases says whom it wakes |
| `Scheduler.ThreadScheduler.ExitThread` | Sources/Win32/wg_threading.c:220-232 | In place it is the model's exit |
| `Scheduler.ThreadScheduler.OtherReady` | Sources/Win32/wg_threading.c:185-191 | True exactly when another thread is ready |
| `Scheduler.Vm.Save` | Sources/Win32/wg_threading.c:32-39 | The saved record is the machine's whole context |
| `Scheduler.Vm.Restore` | Sources/Win32/wg_threading.c:41-48 | The machine's whole context becomes the record |
| `PeRebase.RebaseShifts` | Sources/PE/wg_pe_loader.c:431-497 | A rebase adds the difference of the bases to every listed word and the header field, and changes no other byte |
| `PeRebase.RebaseComposes` | Sources/PE/wg_pe_loader.c:431-497 | Rebasing to B and then to C gives the bytes of rebasing to C |
| `PeRebase.RebaseUndoes` | Sources/PE/wg_pe_loader.c:431-497 | Rebasing back restores the original bytes |
| `PePacking.PackedLists` | Sources/PE/wg_pe_loader.c:443-474 | For every list of fixups, packed into pages and blocks as the format says: the directory lists exactly these, in order, eight bytes for kind 10, four for kind 3, where the first section that has them keeps them, and nothing for other kinds or addresses without bytes |
| `PePacking.RebaseMovesFixups` | Sources/PE/wg_pe_loader.c:431-497 | For a well-formed image with a packed directory: a rebase moves the word at every fixup's address by the difference of the bases in the width of its kind, and the header's base, 0x30 or 0x34 after the PE signature, becomes the new one |
| `PePacking.MutFinds` | Sources/PE/wg_pe_loader.c:420-429 | A lookup for n bytes gives their position in the first section that has all of them, and none only if no section has |
| `PePacking.PosFinds` | Sources/PE/wg_pe_loader.c:154-165 | So does the lookup of one address |
| `PeRebase.RebaseKeepsShape` | Sources/PE/wg_pe_loader.c:478-490 | A rebased image is well formed again, with the same targets and a header that names the new base |
| `PeRebase.MoveAllAt` | Sources/PE/wg_pe_loader.c:451-474 | Moving disjoint words moves each by the displacement, modulo its width, and nothing else |
| `PeRebase.WrapIsMod` | Sources/PE/wg_pe_loader.c:461 | The byte-wise two's complement residue is the residue of the machine word |
| `PeSample.SampleIsWellFormed` | Sources/PE/wg_pe_loader.c:431-497 | An image with one DIR64 fixup satisfies what the laws of rebasing assume, and the word and the header field are what moves |
| `PeWalk.NextBlock` | Sources/PE/wg_pe_loader.c:443-450 | A block head gives the next fixups of the directory, or ends the list for the reason the loop stops |
| `PeWalk.DirectoryStays` | Sources/PE/wg_pe_loader.c:443-476 | The fixups already applied have not changed the directory being walked |
| `PeModel.WriteRead` | Sources/PE/wg_pe_loader.c:460-462 | A word written little-endian reads back |
| `PeModel.MutInside` | Sources/PE/wg_pe_loader.c:420-429 | A lookup for n bytes gives a position with n bytes inside the file, or none |
| `PeWrap.OrderlyExactly` | Sources/PE/wg_pe_loader.c:443-450 | For every directory: the walk, with its 32-bit offsets, reads only inside the directory and only goes forward if and only if no sum of an offset it comes to and a block size wraps |
| `PeWrap.WrapsBack` | Sources/PE/wg_pe_loader.c:448 | A block whose sum wraps passes the size test, has entries outside the directory, and is followed by a smaller offset |
| `PeWrap.OrderlyEnds` | Sources/PE/wg_pe_loader.c:443-476 | If no sum wraps the walk ends after at most one pass for every eight bytes and one more |
| `PeWrap.PagesFitSums` | Sources/PE/wg_pe_loader.c:443-450 | On the images of the rebasing laws no sum wraps |
| `PeWrap.EndsExactly` | Sources/PE/wg_pe_loader.c:443-476 | For every directory whose bytes stay as they are, the walk ends at all if and only if it ends within as many passes as there are offsets and one more |
| `PeWrap.AWalkNeverEnds` | Sources/PE/wg_pe_loader.c:443-450 | It can go on forever: two blocks, of sizes 8 and 2^32 - 8 |
| `PeImage.Image.RvaToPtr` | Sources/PE/wg_pe_loader.c:154-165 | The search loop finds the first section that holds the address |
| `PeImage.Image.RvaToMutPtr` | Sources/PE/wg_pe_loader.c:420-429 | The search loop finds the first section that holds all the bytes |
| `PeImage.Image.Move` | Sources/PE/wg_pe_loader.c:460-462 | One word in place moves modulo its width |
| `PeImage.Image.Fix` | Sources/PE/wg_pe_loader.c:452-473 | One entry: DIR64 and HIGHLOW words that fit move, everything else is skipped; PackedLists says which words these are |
| `PeImage.Image.FixBlock` | Sources/PE/wg_pe_loader.c:450-474 | The entries of a block, read from the file while it changes, are the listed fixups |
| `PeImage.Image.Walk` | Sources/PE/wg_pe_loader.c:441-476 | The block walk terminates and applies exactly the fixups the directory lists |
| `PeImage.Image.PutBase` | Sources/PE/wg_pe_loader.c:480-490 | The ImageBase field, where the file has room for one, gets the new base |
| `PeImage.Image.Rebase` | Sources/PE/wg_pe_loader.c:431-497 | The in-place rebase gives the specified bytes, base and result for every base, also when the 64-bit difference wraps |
| `GdiLine.ReachesEnd` | Sources/Win32/wg_win32_gdi.c:325-331 | The loop stands on (x1, y1) after exactly max(adx, ady) steps and not before |
| `GdiLine.WithinHalfAPixel` | Sources/Win32/wg_win32_gdi.c:328-330 | After k steps the longer coordinate has moved by k, and the pixel is within half a pixel of the ideal line on the other |
| `GdiLine.PixelAt` | Sources/Win32/wg_win32_gdi.c:324-331 | Each pixel outright: k steps along the longer side, on the other the nearest whole number, of two equally near ones the smaller |
| `GdiInt.FitsExactly` | Sources/Win32/wg_win32_gdi.c:320-330 | For end points in C's int: no difference, position or error term leaves int, also between the two changes of the error, if and only if both differences fit and, on a steep line that is not vertical, |dx| + |dy| exceeds INT_MAX + 1 by no more than g - (|dy| / 2) % g, where g is their greatest common divisor |
| `GdiInt.LongDiagonal` | Sources/Win32/wg_win32_gdi.c:320-330 | On the diagonal of length INT_MAX the error term leaves int in the first pass, although both differences fit |
| `GdiLine.Connected` | Sources/Win32/wg_win32_gdi.c:329-330 | Consecutive pixels touch |
| `GdiLine.OnlyTheLine` | Sources/Win32/wg_win32_gdi.c:90-93 | Exactly the visited pixels inside the window get the colour |
| `GdiLine.DeviceContext.MoveTo` | Sources/Win32/wg_win32_gdi.c:309-311 | The current position, where the next line starts, is the one given |
| `GdiLine.DeviceContext.LineTo` | Sources/Win32/wg_win32_gdi.c:313-332 | The loop ends, has drawn exactly the line, and moves the current position to its end |
| `X86Flags.ConditionsCompare` | Sources/CPU/wg_x86_interp.c:101-127 | After a comparison of operands of 2, 4 or 8 bytes every condition code is the integer comparison it is for: unsigned, signed, equality, sign, overflow, parity |
| `X86Flags.FlagsOfDifference` | Sources/CPU/wg_x86_state.c:82-93 | The flags of a subtraction mean unsigned less, zero, negative, signed overflow and even parity of the difference |
| `X86Flags.ParityCountsOnes` | Sources/CPU/wg_x86_state.c:53-58 | Folding a byte gives the parity of its ones |
| `X86Flags.ByteConditions` | Sources/CPU/wg_x86_interp.c:236 | Byte comparisons set flags in the instruction's size. For every one of the sixteen codes, right if and only if: B, AE, E, NE, BE, A, P, NP always; O, NO when the byte subtraction does not overflow; S, NS when the byte difference is negative exactly if the first operand is below the second; L, GE, LE, G when the two sign bits agree |
| `X86Flags.SignedBytesFail` | Sources/CPU/wg_x86_interp.c:236 | Comparing the bytes 0x80 and 1: O and L should hold and do not |
| `X86Flags.SignOfBytesFails` | Sources/CPU/wg_x86_interp.c:236 | Comparing the bytes 0 and 0x90: S holds and should not |
| `X86Flags.NarrowConditions` | Sources/CPU/wg_x86_interp.c:232-236 | The branch for a narrower second operand, which no decoded comparison takes: every condition is right for the sign-extended operand, except that B and AE are wrong exactly when it is negative, the first operand has fewer than 8 bytes and is not below it, and BE and A exactly when it is moreover above it |
| `X86Decode.Decode` | Sources/CPU/wg_x86_decode.c:278-327 | Every comparison that the decoder gives has two operands of one size, the instruction's or one byte |
| `X86Decode.DecodedConditions` | Sources/CPU/wg_x86_decode.c:278-327 | For every encoding of a comparison and every condition code: the condition is the comparison of the operands in their own size if and only if they have the instruction's size or are bytes for which ByteConditions holds |
| `X86Cpu.CompareThenAct` | Sources/CPU/wg_x86_interp.c:386-437 | Jcc, SETcc and CMOVcc after CMP act exactly on the integer comparison |
| `X86Cpu.ReadsBack` | Sources/CPU/wg_x86_interp.c:52-65 | A register write reads back in its size, and stays a 64-bit value |
| `X86Operands.RegisterOperand` | Sources/CPU/wg_x86_interp.c:52-65 | A register write of one or two bytes keeps what is above them, one of four clears the upper half, and no other register changes |
| `X86Operands.StorePuts` | Sources/CPU/wg_x86_interp.c:75-80 | A store puts the k-th lowest byte of its value k addresses on and changes no other byte |
| `X86Operands.StoreLoads` | Sources/CPU/wg_x86_interp.c:39-45 | A stored value loads back |
| `X86Operands.MemoryOperand` | Sources/CPU/wg_x86_interp.c:66-81 | Writing a memory operand puts the value's bytes at base plus index times scale plus displacement, in 64 bits, and changes nothing else |
| `X86Operands.MemoryReadsBack` | Sources/CPU/wg_x86_interp.c:30-45 | Reading it finds them |
| `X86Operands.SimpleAddresses` | Sources/CPU/wg_x86_interp.c:88-98 | Without a base or an index that part is missing; an address relative to the next instruction is its displacement alone |
| `X86Operands.AssembledDecodes` | Sources/CPU/wg_x86_decode.c:278-327 | For every form of CMP in every size, encoded with the opcodes and prefixes of the processor's manual: decoding gives its operands, in order, with registers, memory operand and signed number |
| `X86Operands.OnlyComparisons` | Sources/CPU/wg_x86_decode.c:278-327 | Nothing else decodes to a comparison |
| `X86Cpu.Interpreter.UpdateFlagsSub` | Sources/CPU/wg_x86_state.c:82-93 | In place it sets the specified flags and leaves the others |
| `X86Cpu.Interpreter.ExecOne` | Sources/CPU/wg_x86_interp.c:229-437 | In place each of the four instructions is the specified step on registers, memory, flags and rip |

## Left out

- The custom allocator, freeing and reallocation of the LZMA buffers, and SZ_ERROR_MEM: an allocation always succeeds.
- The `_LZMA_SIZE_OPT` and assembler variants of the LZMA main loop, and the NSIS wrapper around the decoder.
- LzmaDec_InitDicAndState with only one of its two flags: only LzmaDec_Init, which sets both, is modelled.
- DecodeToDic: after a data error the number of input bytes used is left open; output, position, status and error are not.
- DecodeToBuf: after a data error the number of input bytes used is left open.
- LzmaOneCall.Decode: after a data error the number of input bytes used is left open.
- The entries that a relocation block with a wrapping size makes the source read outside the directory, and what it does to them.
- The input of an LZMA call is a sequence: a caller's buffer that overlaps the decoder's own buffers is not modelled.
- Real clocks, deadlines and pthread calls: a timed wait may expire at any time, and a parked thread may wake at any time.
- The 128-entry limit of the monitor's diagnostic table of waits: the model's table holds every single wait.
- Semaphore counts, wake generations and recursion depths are unbounded integers: overflow of the machine's `long` and `int` is not modelled.
- LawsHold: the callers' side is assumed: nonzero thread ids, positive release counts, semaphores created within their bounds, a sleeper that owns its mutex (`Sources/Win32/wg_sync.h`), distinct handles in a wait for all, and no close of a mutex that a sleeper comes back to.
- SleepRestores: under the same assumptions as LawsHold.
- WaitSingleAnswers: likewise, because mutexes and semaphores are told by the books; RunFits, ThreadWaits and ManualWaits hold over all runs.
- WaitMultipleAnswers: likewise.
- CallsAnswer: likewise.
- NoStarvation: the statement starts where a thread is READY; WokenInTime starts where it waits. Whether a waiting thread is woken at all is up to its waker.
- The scheduler's writes of the thread argument and return sentinel to guest memory, the mapping of stacks, the logging, and ResumeThread, which is in another file.
- Thread start addresses, ids and handles wrap at 32 bits as in the source; segment bases are unbounded.
- RebaseShifts: well-formed images only, that is fixups that overlap neither each other nor the directory nor the header field, pages below the end of the 32-bit address space, and block sizes whose sum with their offset does not wrap (PeWrap is about the others); the directory is contiguous in the file.
- OrderlyExactly: directories that start in the file and end more than eight bytes below 4 GB, as all do that lie in a section; the pages and fixups of a block do not matter here.
- RebaseComposes: for the same images as RebaseShifts.
- RebaseUndoes: for the same images as RebaseShifts.
- RebaseMovesFixups: for the same images as RebaseShifts.
- OnlyComparisons: opcode 82 repeats opcode 80 and is not among the forms that AssembledDecodes encodes.
- PE parsing of headers, sections and imports, and the counts of applied and skipped fixups.
- ReachesEnd: integers are unbounded, so on the lines that `GdiInt.FitsInt` excludes, where C's result is undefined, it says nothing of the source.
- WithinHalfAPixel: likewise.
- LineTo: likewise. Colour conversion, pens and the window's dirty flag are not part of this model.
- Memory faults of the x86 interpreter: memory that was never written reads as zero, and every address can be written.
- The rest of the x86 interpreter, its decoder and the other flag helpers: they are approximate there, or would only add easy members.
- Direct3D, sockets, HTTP, TLS, file mapping, text drawing, bitmaps and windows: input and output or foreign libraries.
