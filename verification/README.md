# Verified models of anyfs

A Dafny 4.11 model of the parts of anyfs where a mistake is hardest to see: the
two-thread socket proxy, the object-file rewriters, the file-name codec and its
trip through JSON and JavaScript, the session state machines, and a few small
cores (a semaphore, an LRU chunk cache, a console stream splitter).
`dafny verify dfyconfig.toml` checks the whole project.

What each group of files models:

- **Host proxy** (`Ring`, `IoLoop`, `HostProxy`, `HostProxyRuns`). One connection, two threads, two
  single-producer/single-consumer rings. Every atomic load and store is its own
  step, every socket call may return any allowed short count, EAGAIN, end of file or
  error, and a run is any interleaving of the two threads' steps. Histories of the
  bytes taken from and accepted by each socket are carried along. The invariant is
  split per end (what an end keeps, and what it may assume of the other end).
- **Semaphore** (`Semaphore`). Any number of threads, a 32-bit count that wraps,
  spurious wake-ups, and a waker that may pick any sleeper.
- **Names** (`Utf8`, `NameCodec`, `JsonWriter`, `NameBridge`, `StringOut`, `ApiQueue`,
  `ApiThread`). The byte-level escape against an independent definition of UTF-8
  (section 4 of RFC 3629), the JSON writer against a parser of JSON strings (section 7
  of RFC 8259) on UTF-16 code units, the code-point decoder against the byte decoder,
  the grow-and-retry buffer protocol, and the request queue with its thread.
- **Object files** (`Leb128`, `WasmObject`, `WasmSymbols`, `WasmRewrite`, `WasmPrefix`,
  `WasmBinding`, `WasmSegments`, `WasmBrackets`, `WasmFiles`, `WasmFix`; `Elf2Dylib`,
  `Elf2DylibLoops`, `Elf2DylibAgrees`). Readers and writers of the formats, the splice
  of one subsection of one section, the rebinding of absolute symbols, the renaming
  of clashing ones; and for the ELF converter its generator, an ideal assembler and
  linker for what it emits, and its checker.
- **Sessions** (`MountNames`, `MountProtocol`, `MountSession`, `OpQueue`). Concurrent
  enters as a step machine with mutex and condition variables; serialised enters and
  leaves as a class beside a kernel object; the JavaScript op queue with watchdogs,
  fatal errors and dispose.
- **Small cores** (`Lru`, `UrlFs`, `Console`). The URL-backed file with its chunk
  cache, and the held tail of a console stream.

Results that say no:

- `fs_sem_up` on a count of 2^31 - 1 wraps (`Semaphore.OneUpTooMany`). The count is
  exact over a run if and only if no up meets a full count (`Semaphore.CountIsExact`);
  no wake-up is lost even then (`Semaphore.NoLostWakeUp`).
- `elf2dylib.py` accepts a third PT_LOAD with more file data than memory, writes
  assembly for it, and then refuses its own output (`Elf2DylibAgrees.RefusedIff`).
  Generator and checker agree if and only if that segment's file size is at most its
  memory size (`Elf2DylibAgrees.GeneratorAndCheckerAgree`). In such an image the labels
  of the first three segments still resolve to their addresses and the others do not
  (`Elf2DylibAgrees.LabelResolves`, `Elf2DylibAgrees.LabelResolvesWrong`).
- The prefix tool is idempotent for its default prefix but not for every prefix: a file
  with `snprintf` in it is changed twice by "v" (`WasmPrefix.FileNotIdempotentForV`).
  The exact condition is in `WasmPrefix.FileIdempotentIff`.
- `jw_kv_name` drops a name whose escape needs more than its fixed buffer; it keeps a
  name if and only if the escape fits (`NameBridge.KvNameKeepsName`); 257 bytes 0xFF
  do not (`NameBridge.LongNameIsDropped`).
- `onFatal` does not promise one call per function: a function registered before the
  fatal error and again after it runs twice (`OpQueue.SameFunctionRunsTwice`). The exact
  count is in `OpQueue.TimesFired`, and `OpQueue.RunsAtMostOnceIff` says when it is at
  most one.
- The bracket tool writes no file if one of the first five segments is passive
  (`WasmFix.PassiveIsNotWritten`) or `jiffies` is to be set to a segment that does not
  exist (`WasmFix.MissingTargetIsNotWritten`): its printed lines need a start and a
  segment name. A file is written if and only if neither is the case
  (`WasmFix.FixWrittenIff`).
- With two symbol tables the bracket tool reads the last and replaces the first, so the
  symbols a linker reads stay absolute (`WasmFix.SecondTableKeepsItsSymbols`). They are
  the fixed ones if and only if there is one table or nothing to fix
  (`WasmFix.FixReparses`).

## Model

| member | source | states |
|---|---|---|
| `Ring.ReserveKeeps` | src/host_proxy/host_proxy.c:201-210 | the room reported to the producer is contiguous, free, and stays free while the consumer moves on |
| `Ring.ReceiveKeeps` | src/host_proxy/host_proxy.c:201-210 | receiving into reserved room overwrites no byte still to be delivered, through wrap-around |
| `Ring.CommitHeadKeeps` | src/host_proxy/host_proxy.c:221-225 | publishing received bytes keeps head - tail within capacity and every undelivered byte in its slot |
| `Ring.PeekKeeps` | src/host_proxy/host_proxy.c:211-220 | the data reported to the consumer is contiguous and is the next part of the stream |
| `Ring.DeliverKeeps` | src/host_proxy/host_proxy.c:211-220 | a short send of w bytes hands the sink exactly the next w bytes of the stream |
| `Ring.CommitTailKeeps` | src/host_proxy/host_proxy.c:226-230 | releasing sent bytes keeps the ring invariant |
| `Ring.DrainKeeps` | src/host_proxy/host_proxy.c:236-240 | dropping everything up to head keeps what was delivered a prefix of what was taken and empties the ring |
| `Ring.Conservation` | src/host_proxy/host_proxy.c:199-240 | bytes taken = bytes released ++ ring contents from tail to head ++ received but uncommitted bytes |
| `IoLoop.IoPipesKept` | src/host_proxy/host_proxy.c:350-400 | every step of one thread's I/O procedure keeps both rings well formed |
| `IoLoop.IoKeepsEnd` | src/host_proxy/host_proxy.c:471-537 | every such step keeps that end's invariant, in particular that SHUT_WR goes out only with nothing undelivered |
| `IoLoop.IoGuarantee` | src/host_proxy/host_proxy.c:471-537 | such a step moves only its own counters: it produces into one ring, consumes from the other, and stops for good once its flag is up |
| `IoLoop.Interference` | src/host_proxy/host_proxy.c:350-400 | a step of the other thread that keeps that promise preserves this end's invariant |
| `HostProxy.HostStepKeeps` | src/host_proxy/host_proxy.c:579-667 | each step of the host thread keeps the connection invariant |
| `HostProxy.LklStepKeeps` | src/host_proxy/host_proxy.c:402-467 | each step of the LKL thread, with connect, forced close and I/O, keeps the connection invariant |
| `HostProxy.Reachable` | src/host_proxy/host_proxy.c:402-667 | the invariant holds after every interleaving of the two threads with any socket results |
| `HostProxy.BytesConserved` | src/host_proxy/host_proxy.c:201-240 | in every reachable state both rings are within capacity, delivered bytes are a prefix of taken bytes, and before a forced close taken = released ++ ring ++ uncommitted |
| `HostProxy.CloseRequestHandsOver` | src/host_proxy/host_proxy.c:324-348 | once lkl_close_req is set the host thread never again changes either ring, over every continuation |
| `HostProxy.ForcedCloseIsFinal` | src/host_proxy/host_proxy.c:324-348 | after a forced close conn_done holds at once and for ever and the connection is never connected again |
| `HostProxy.HalfCloseIsLossless` | src/host_proxy/host_proxy.c:394-399 | a SHUT_WR issued to either side means every byte ever taken from the other side has been delivered, and none is taken later |
| `HostProxy.FreedOnlyWhenFinished` | src/host_proxy/host_proxy.c:657-659 | a freed connection satisfied conn_done, and if it was never force-closed both directions were delivered in full |
| `HostProxyRuns.Fresh` | src/host_proxy/host_proxy.c:539-577 | an accepted connection exists for any contents of its two buffers |
| `HostProxyRuns.FailureEndsConnection` | src/host_proxy/host_proxy.c:631-659 | from every accepted connection there are runs to a close request, through the forced close, and to the free |
| `HostProxyRuns.Transfers` | src/host_proxy/host_proxy.c:350-400 | for any bytes each way in any order there is a run that takes exactly them from the two sockets and empties both rings again, however often they wrap |
| `HostProxyRuns.TransferEndsConnection` | src/host_proxy/host_proxy.c:471-537 | for any bytes each way in any order there is a run that takes exactly them, delivers them all, sends SHUT_WR both ways and frees the connection without a forced close |
| `Semaphore.StepKeeps` | src/ksmbd/fastsync_win.c:68-93 | every step of an up, a down or a spurious wake-up keeps the wake-up balance, and keeps the count exact unless it is an up on a full count |
| `Semaphore.Reachable` | src/ksmbd/fastsync_win.c:68-93 | the balance holds after every interleaving, and the count is exact after every one in which no up meets a full count |
| `Semaphore.CountIsExact` | src/ksmbd/fastsync_win.c:68-93 | count >= 0 and downs + count = initial + ups at every moment of a run, if and only if no up of it meets a full count |
| `Semaphore.NoLostWakeUp` | src/ksmbd/fastsync_win.c:77-93 | in every interleaving, wrapped count or not: if a thread sleeps, the awake downers and the ups about to wake number at least the count; with everyone idle or asleep the count is at most 0, and 0 if no up met a full count |
| `Semaphore.OneUpTooMany` | src/ksmbd/fastsync_win.c:73-74 | with count 2^31 - 1 one up makes the count negative |
| `Utf8.SeqLenOfEncode` | src/core/anyfs_name.c:11-34 | the recogniser accepts the UTF-8 form of every scalar value with its exact length, whatever follows |
| `Utf8.EncodeOfDecode` | src/core/anyfs_name.c:11-34 | whatever it accepts is the UTF-8 form of a scalar value, so no overlong form and no surrogate |
| `Utf8.ValidIsUtf8` | src/core/anyfs_name.c:11-34 | the recogniser splits a string completely if and only if the string encodes some sequence of scalar values |
| `Utf8.ValidUtf8` | src/core/anyfs_legacy.c:113-140 | the second recogniser, with its own table and loops, accepts exactly the strings the first one splits completely |
| `NameCodec.RoundTrip` | src/core/anyfs_name.c:43-101 | unescape(escape(s)) = s for every byte string |
| `NameCodec.EscapeValid` | src/core/anyfs_name.c:43-77 | escape(s) is valid UTF-8 and at most 3 times as long as s, for every s |
| `NameCodec.EscapeNulFree` | src/core/anyfs_name.c:43-77 | escaping introduces no NUL |
| `NameCodec.EscapeInjective` | src/core/anyfs_name.c:43-77 | different names have different escapes |
| `NameCodec.EscapeTurn` | src/core/anyfs_name.c:50-74 | one turn of the loop writes exactly the escaped form of the sequence at the cursor, or reports that it does not fit |
| `NameCodec.NameEscape` | src/core/anyfs_name.c:43-77 | the text and its terminator are written if they fit cap, and -1 with an empty string is returned exactly if not |
| `NameCodec.NameUnescape` | src/core/anyfs_name.c:79-101 | the same for the inverse |
| `JsonWriter.JsonW.Putc` | src/core/jsonw.h:43-50 | the recorded text grows by the byte whether or not it fits; the buffer agrees with the text as far as it reaches |
| `JsonWriter.JsonW.EscapeStr` | src/core/jsonw.h:58-84 | appends the JSON string literal of its argument |
| `JsonWriter.JsonW.KvStr` | src/core/jsonw.h:100-108 | appends key, colon, value and the optional comma |
| `JsonWriter.JsonW.KvName` | ts/native/anyfs_ts.c:56-63 | appends the literal of the escaped name, or of "" if the escape exceeds the fixed buffer |
| `JsonWriter.JsonW.Finish` | src/core/jsonw.h:131-140 | succeeds with the complete NUL-terminated text in the buffer exactly if cap >= length + 1, otherwise returns minus that need; the length does not depend on cap |
| `JsonWriter.NameValueIsEscape` | ts/native/anyfs_ts.c:50-63 | the fixed buffer is large enough for every name of up to 256 bytes |
| `JsonWriter.JsonTextNulFree` | src/core/jsonw.h:58-84 | a written string literal contains no NUL byte, whatever the string |
| `NameBridge.NameToBytes` | ts/packages/core/src/names.ts:36-44 | the code-point loop computes the specified bytes |
| `NameBridge.DecodersAgree` | ts/packages/core/src/names.ts:36-44 | on the UTF-16 form of any text the code-point decoder gives what the byte decoder gives on its UTF-8 form |
| `NameBridge.NameToBytesAgrees` | ts/packages/core/src/names.ts:25-44 | the same, for every valid UTF-8 string |
| `NameBridge.JsonRoundTrip` | src/core/jsonw.h:58-84 | parsing the literal written for valid UTF-8 text gives that text and consumes the literal exactly |
| `NameBridge.NameSurvives` | ts/native/anyfs_ts.c:56-69 | for every byte string: escaped, written as JSON, parsed in JavaScript, shown or sent back and unescaped, it is the original |
| `NameBridge.KvNameKeepsName` | ts/native/anyfs_ts.c:56-63 | a name written by jw_kv_name survives if and only if its escape fits the fixed buffer |
| `NameBridge.LongNameIsDropped` | ts/native/anyfs_ts.c:50-63 | a name of 257 bytes 0xFF is written as "" |
| `NameBridge.PathIn` | ts/native/anyfs_ts.c:66-69 | yields the unescaped path, and NULL exactly if it does not fit 16384 bytes |
| `NameBridge.EscapeOut` | ts/native/anyfs_ts.c:73-91 | the buffer holds the escaped path if it fits cap, otherwise the exact need is returned |
| `StringOut.CallStringOut` | ts/packages/core/src/wasm-api.ts:166-188 | stops at the first of at most six calls that does not ask for more and returns the bytes that call left in its buffer up to a NUL, or its error; fails as insatiable exactly if all six ask |
| `StringOut.CallStable` | ts/packages/core/src/wasm-api.ts:166-188 | for an op whose replies are those of the JSON writer for one text: returns that text, complete if and only if it has no NUL byte, after one call if the first buffer had length + 1 bytes, else after two |
| `StringOut.NameOp` | ts/native/anyfs_ts.c:224-231 | an object written with the calls such an op makes gives exactly those replies, for every buffer size |
| `StringOut.NameObjectNulFree` | ts/native/anyfs_ts.c:224-231 | its text has no NUL byte, so it arrives complete |
| `StringOut.CapsGrow` | ts/packages/core/src/wasm-api.ts:180-182 | each buffer is larger than the last and covers what the last call asked for |
| `ApiQueue.Queue.Submit` | ts/native/anyfs_ts.c:580-601 | appends the request to the linked list; tail is null exactly if head is |
| `ApiQueue.Queue.Take` | ts/native/anyfs_ts.c:557-568 | removes and returns the oldest request; tail is null exactly if head is |
| `ApiThread.Reachable` | ts/packages/core/src/wasm-api.ts:84-161 | the invariant tying requests in memory, queue, thread and promises holds after every interleaving |
| `ApiThread.RunsInOrder` | ts/native/anyfs_ts.c:557-601 | accepted requests run in submission order, each at most once, and the ones run, running and queued are all of them |
| `ApiThread.SettlesWithOwnResult` | ts/packages/core/src/wasm-api.ts:128-161 | a resolved call carries the result of the run of its own request; a call rejects with the failure only after the module failed, and then none keeps waiting |
| `ApiThread.SettlesOnce` | ts/packages/core/src/wasm-api.ts:100-113 | a settled call never changes again, over every continuation |
| `Leb128.ReadUlebAt` | scripts/lkl-wasm-tools/wasm_fix_absolute_brackets.py:45-53 | the loop reads the value and length the recursive definition gives at that offset, failing past the end |
| `Leb128.ReadSlebAt` | scripts/lkl-wasm-tools/wasm_fix_absolute_brackets.py:56-66 | the same with sign extension |
| `Leb128.WriteUlebLoop` | scripts/lkl-wasm-tools/wasm_fix_absolute_brackets.py:69-78 | the loop writes the specified encoding |
| `Leb128.UlebRoundTrip` | scripts/lkl-wasm-tools/wasm_fix_absolute_brackets.py:45-78 | reading what was written gives the value and consumes exactly those bytes, whatever follows |
| `Leb128.UlebShortest` | scripts/lkl-wasm-tools/wasm_fix_absolute_brackets.py:69-78 | no encoding of a value is shorter than the written one |
| `Leb128.SlebRoundTrip` | scripts/lkl-wasm-tools/wasm_fix_absolute_brackets.py:56-66 | every integer in signed LEB128 is read back, whatever follows |
| `WasmObject.ParseHeaders` | scripts/lkl-wasm-tools/wasm_fix_absolute_brackets.py:87-99 | on bytes tiled by sections it lists id, offsets and size of each of them |
| `WasmObject.ParseFlatten` | scripts/lkl-wasm-tools/wasm_fix_absolute_brackets.py:87-99 | sections with correct size fields are found again from their concatenation |
| `WasmObject.FlattenParse` | scripts/lkl-wasm-tools/wasm_fix_absolute_brackets.py:87-99 | what parsing finds concatenates to the input, with correct size fields |
| `WasmObject.ParseBody` | scripts/lkl-wasm-tools/wasm_fix_absolute_brackets.py:149-164 | a linking section is found again, preamble and subsections, from its bytes |
| `WasmObject.BodyParse` | scripts/lkl-wasm-tools/wasm_fix_absolute_brackets.py:149-164 | and its bytes from what was found |
| `WasmObject.Splice` | scripts/lkl-wasm-tools/wasm_fix_absolute_brackets.py:494-535 | cutting by offsets yields the file whose section list differs in the one subsection of the one section, with new size fields |
| `WasmObject.SpliceReparses` | scripts/lkl-wasm-tools/wasm_fix_absolute_brackets.py:502-535 | re-parsing that file finds the same sections and subsections but for the replaced one |
| `WasmSymbols.ClearBitClears` | scripts/lkl-wasm-tools/wasm_fix_absolute_brackets.py:448-448 | clearing a flag bit leaves every other bit |
| `WasmSymbols.ReadTableLoop` | scripts/lkl-wasm-tools/wasm_fix_absolute_brackets.py:174-205 | the loop with a moving offset reads the specified symbol list or fails as specified |
| `WasmSymbols.EncodeTableLoop` | scripts/lkl-wasm-tools/wasm_fix_absolute_brackets.py:477-480 | the loop writes the specified table |
| `WasmSymbols.SymRoundTrip` | scripts/lkl-wasm-tools/wasm_fix_absolute_brackets.py:178-239 | every valid symbol of every type is read back exactly, whatever follows |
| `WasmSymbols.TableRoundTrip` | scripts/lkl-wasm-tools/wasm_fix_absolute_brackets.py:174-239 | every list of valid symbols is read back exactly, whatever follows |
| `WasmSymbols.ReadSymsValid` | scripts/lkl-wasm-tools/wasm_fix_absolute_brackets.py:178-205 | whatever is read is valid, so the round trip covers it |
| `WasmRewrite.Locate` | scripts/lkl-wasm-tools/wasm_fix_absolute_brackets.py:338-360 | the section and subsection loops find the offsets of the linking section and of its first and last symbol table, and the symbols of the last |
| `WasmRewrite.Reopens` | scripts/lkl-wasm-tools/wasm_fix_absolute_brackets.py:476-535 | a saved file opens to the same object with exactly the one table replaced by the edited symbol list, and the same first eight bytes |
| `WasmRewrite.EditedSame` | scripts/lkl-wasm-tools/wasm_fix_absolute_brackets.py:494-535 | in that object every section but linking and every subsection but the replaced table is byte-identical |
| `WasmRewrite.Rewrite` | scripts/lkl-wasm-tools/wasm_fix_absolute_brackets.py:476-535 | re-encoding and splicing produce that saved file |
| `WasmPrefix.RenameKeeps` | scripts/lkl-wasm-tools/wasm_prefix_kernel_symbols.py:236-254 | only the name of a matching defined symbol changes, to prefix + name; type, flags, index and place stay |
| `WasmPrefix.RenameLoop` | scripts/lkl-wasm-tools/wasm_prefix_kernel_symbols.py:301-311 | the loop renames in place, keeping order and positions, and counts none exactly if none matches |
| `WasmPrefix.IdempotentIff` | scripts/lkl-wasm-tools/wasm_prefix_kernel_symbols.py:236-254 | with any prefix, renaming twice equals renaming once if and only if the prefix is empty or no new name matches again |
| `WasmPrefix.NotIdempotentForV` | scripts/lkl-wasm-tools/wasm_prefix_kernel_symbols.py:186-217 | prefix "v" turns snprintf into vsnprintf, which matches again |
| `WasmPrefix.PrefixSymbols` | scripts/lkl-wasm-tools/wasm_prefix_kernel_symbols.py:276-357 | the whole tool produces the specified file on every file that opens; sections after the linking section need no readable name |
| `WasmPrefix.PrefixReparses` | scripts/lkl-wasm-tools/wasm_prefix_kernel_symbols.py:328-353 | that file re-parses to the old one with the renamed list, in order |
| `WasmPrefix.PrefixTwice` | scripts/lkl-wasm-tools/wasm_prefix_kernel_symbols.py:318-326 | a second run with the default prefix returns the file byte for byte |
| `WasmPrefix.FileIdempotentIff` | scripts/lkl-wasm-tools/wasm_prefix_kernel_symbols.py:301-353 | with any prefix, a second run returns the file byte for byte if and only if the prefix is empty or no new name matches again |
| `WasmPrefix.FileChangesTwice` | scripts/lkl-wasm-tools/wasm_prefix_kernel_symbols.py:301-353 | any valid symbols that fail this stand in a file that the second run changes |
| `WasmPrefix.FileNotIdempotentForV` | scripts/lkl-wasm-tools/wasm_prefix_kernel_symbols.py:186-217 | such as snprintf with prefix "v" |
| `WasmSegments.ReadDataLoop` | scripts/lkl-wasm-tools/wasm_fix_absolute_brackets.py:102-139 | the loop reads the specified segment list or fails as specified |
| `WasmSegments.DataRoundTrip` | scripts/lkl-wasm-tools/wasm_fix_absolute_brackets.py:102-139 | for every list of active, passive and explicit segments in the standard encoding it finds each start and length |
| `WasmBinding.FindCandidates` | scripts/lkl-wasm-tools/wasm_fix_absolute_brackets.py:242-254 | returns every segment that holds the value, ends included, in order, with the matching offset |
| `WasmBinding.FindSegmentLoop` | scripts/lkl-wasm-tools/wasm_fix_absolute_brackets.py:283-297 | takes the first segment that has the value before its end, else the first that ends at it |
| `WasmBinding.FindSegmentComplete` | scripts/lkl-wasm-tools/wasm_fix_absolute_brackets.py:283-297 | finds a binding if and only if some segment holds the value |
| `WasmBinding.ChoosePairLoop` | scripts/lkl-wasm-tools/wasm_fix_absolute_brackets.py:400-424 | the nested loops choose the first common segment, else the first start and the first or last end |
| `WasmBinding.PairComplete` | scripts/lkl-wasm-tools/wasm_fix_absolute_brackets.py:404-424 | a pair is bound if and only if each end has a segment, and to one segment whenever any holds both |
| `WasmBrackets.AddressPreserved` | scripts/lkl-wasm-tools/wasm_fix_absolute_brackets.py:398-451 | a converted symbol has segment start + new offset = old absolute value with 0 <= offset <= size; every other symbol is untouched |
| `WasmBrackets.OnlyAbsoluteCleared` | scripts/lkl-wasm-tools/wasm_fix_absolute_brackets.py:447-450 | no flag of a converted symbol changes but ABSOLUTE |
| `WasmBrackets.PartnersAgree` | scripts/lkl-wasm-tools/wasm_fix_absolute_brackets.py:377-392 | pairing is mutual |
| `WasmBrackets.PairSharesSegment` | scripts/lkl-wasm-tools/wasm_fix_absolute_brackets.py:398-427 | the two halves of a pair get one common segment whenever any segment contains both ends |
| `WasmBrackets.ConvertedIff` | scripts/lkl-wasm-tools/wasm_fix_absolute_brackets.py:377-436 | exactly which symbols are converted, with overwritten and unbindable ones left out |
| `WasmBrackets.Bucket` | scripts/lkl-wasm-tools/wasm_fix_absolute_brackets.py:377-385 | under each key and role stands the last absolute symbol with them, and every other unnamed absolute symbol is unpaired |
| `WasmBrackets.TakeOrphans` | scripts/lkl-wasm-tools/wasm_fix_absolute_brackets.py:387-392 | keys with both halves stay, and exactly the symbols resolved alone are unpaired |
| `WasmBrackets.RebindLoop` | scripts/lkl-wasm-tools/wasm_fix_absolute_brackets.py:366-451 | bucketing, orphans, both resolution loops and the edits together give the specified list |
| `WasmBrackets.AliasMovesJiffiesOnly` | scripts/lkl-wasm-tools/wasm_fix_absolute_brackets.py:307-325 | the alias fix changes at most a symbol jiffies, to the place of jiffies_64 with size 4 |
| `WasmFix.FixBrackets` | scripts/lkl-wasm-tools/wasm_fix_absolute_brackets.py:335-538 | the whole tool, with the two places where printing raises, produces the specified file or none on every file it can parse |
| `WasmFix.FixWrittenIff` | scripts/lkl-wasm-tools/wasm_fix_absolute_brackets.py:363-460 | a file is written if and only if the first five segments have starts and the symbols of the input do not alias jiffies to a missing segment |
| `WasmFix.FixReparses` | scripts/lkl-wasm-tools/wasm_fix_absolute_brackets.py:476-535 | the written file is well formed and re-parses to the old one: same section list, byte-identical bodies but for linking, same segments, same subsections but for the first symbol table; the symbols read are the fixed ones if and only if there is one table or nothing to fix |
| `WasmFix.FixKeepsAddresses` | scripts/lkl-wasm-tools/wasm_fix_absolute_brackets.py:398-464 | in the re-parsed file every symbol is unchanged, or has its old address, name, size and flags but ABSOLUTE, or is jiffies at the place of jiffies_64 with size 4 and its name and other flags |
| `WasmFix.FixKeepsPairs` | scripts/lkl-wasm-tools/wasm_fix_absolute_brackets.py:395-464 | in the re-parsed file both ends of a start/stop pair lie in one segment at their old addresses whenever some segment holds both |
| `WasmFix.EveryListHasAFile` | scripts/lkl-wasm-tools/wasm_fix_absolute_brackets.py:335-360 | for every list of valid symbols, any tables before it, and every list of segments there is a well-formed file with exactly them |
| `WasmFix.PassiveIsNotWritten` | scripts/lkl-wasm-tools/wasm_fix_absolute_brackets.py:363-364 | for any symbols and any segments with a passive one among the first five there is a well-formed file for which nothing is written |
| `WasmFix.MissingTargetIsNotWritten` | scripts/lkl-wasm-tools/wasm_fix_absolute_brackets.py:454-460 | so there is for any segments with starts and jiffies_64 in a segment past the last |
| `WasmFix.SecondTableKeepsItsSymbols` | scripts/lkl-wasm-tools/wasm_fix_absolute_brackets.py:483-488 | with any tables before it, an absolute symbol that should be converted is unchanged in what the written file reads as |
| `Elf2Dylib.EmitPatches` | scripts/macho/elf2dylib.py:285-295 | the emitted pieces of a segment resolve to its bytes with every slot replaced by its target |
| `Elf2DylibLoops.EmitLoop` | scripts/macho/elf2dylib.py:285-295 | the loop with a running position emits those pieces and rejects a slot that starts before the position |
| `Elf2DylibLoops.WriteAsmLoop` | scripts/macho/elf2dylib.py:277-309 | the loop over the segments writes the specified assembly |
| `Elf2DylibLoops.PatchLoop` | scripts/macho/elf2dylib.py:366-369 | the checker's loop packs the slots into its copy one by one |
| `Elf2DylibAgrees.SectionStart` | scripts/macho/elf2dylib.py:296-309 | after linking, a segment lies at its ELF address + DELTA if and only if it is one of the first three or the third has no extra file data; otherwise it lies higher |
| `Elf2DylibAgrees.SectionTotal` | scripts/macho/elf2dylib.py:296-309 | each section has the size the checker expects if there is no extra file data, the first two in any case, and the third is too large exactly if it has extra file data |
| `Elf2DylibAgrees.LabelResolves` | scripts/macho/elf2dylib.py:257-265 | for every accepted and written image, label(a) resolves to a + DELTA if and only if the third segment has no extra file data or the label is in one of the first three; otherwise it resolves higher |
| `Elf2DylibAgrees.LabelResolvesWrong` | scripts/macho/elf2dylib.py:257-265 | there is an accepted and written image whose exported address in the fourth segment resolves too high |
| `Elf2DylibAgrees.SectionBytes` | scripts/macho/elf2dylib.py:362-373 | each of the first three sections holds the bytes the checker wants if and only if there is no extra file data or it is one of the first two; the fourth, for files of less than 2^63 bytes, if and only if there is none or its slots are whole and point into the first three |
| `Elf2DylibAgrees.RebasesAreSlots` | scripts/macho/elf2dylib.py:382-392 | the rebases are exactly the slots + DELTA if and only if there is no extra file data or the fourth segment has no slot |
| `Elf2DylibAgrees.GeneratorAndCheckerAgree` | scripts/macho/elf2dylib.py:355-392 | for every accepted image that is written, the output passes the check if and only if the third segment has no file data past its memory size |
| `Elf2DylibAgrees.WrittenIff` | scripts/macho/elf2dylib.py:286-293 | an accepted image is written if and only if no two slots overlap and every export has an address in it |
| `Elf2DylibAgrees.RefusedIff` | scripts/macho/elf2dylib.py:180-199 | an accepted image is written and then refused if and only if it has extra file data, no two slots overlap and every export has an address in it |
| `Elf2DylibAgrees.ExtraFileDataIsRefused` | scripts/macho/elf2dylib.py:193-195 | there is such an image |
| `Elf2DylibAgrees.PointerConverts` | scripts/macho/elf2dylib.py:277-392 | an image with a pointer anywhere in its third segment is accepted, written and passes |
| `MountProtocol.Reachable` | src/core/anyfs_session.c:589-671 | the invariant of threads, slot states and mounts holds after every interleaving of concurrent enters |
| `MountProtocol.OneMountInFlight` | src/core/anyfs_session.c:595-613 | a slot or the whole disk is MOUNTING exactly while one thread has that mount in flight |
| `MountProtocol.MountsAtMostOnce` | src/core/anyfs_session.c:636-652 | at most one kernel mount of it ever succeeds, and MOUNTED is recorded only after one did |
| `MountProtocol.SamePathForAll` | src/core/anyfs_session.c:598-607 | every caller that succeeds gets the same path |
| `MountProtocol.AttemptsBounded` | src/core/anyfs_session.c:569-587 | over every run, no enter of any thread gets more than 51 kernel mount answers |
| `MountProtocol.OutcomesAreFinal` | src/core/anyfs_session.c:655-667 | FAILED is never left, nor MOUNTED while nobody leaves |
| `MountSession.Session.Leave` | src/core/anyfs_session.c:857-899 | what it unmounts becomes NEW and nothing else changes; a partition that is not a mounted filesystem gets -1 |
| `MountSession.Session.ReleaseConflicts` | src/core/anyfs_session.c:538-564 | afterwards a conflicting mount remains if and only if the kernel refused an unmount |
| `MountSession.Session.MountRetrying` | src/core/anyfs_session.c:569-587 | between 1 and 51 attempts, exactly 1 if a mount of the session conflicts, and EBUSY only after 51 or with a conflict |
| `MountSession.Session.EnterWhole` | src/core/anyfs_session.c:683-746 | the whole disk is MOUNTED exactly if 0 is returned; with REPLACE a partition mount remains only if an unmount was refused |
| `MountSession.Session.EnterFsSlot` | src/core/anyfs_session.c:589-671 | the slot ends MOUNTED, NEW after EBUSY or FAILED otherwise, no other slot changes, and a FAILED slot stays so |
| `MountSession.Session.EnterContainerSlot` | src/core/anyfs_container.c:140-160 | a container is refused and marked FAILED, and gets -3 from then on |
| `MountSession.Session.Enter` | src/core/anyfs_session.c:673-763 | 0 exactly if the kernel has the mount, with its path; each error code; records and kernel agree afterwards; FAILED is kept |
| `MountSession.Run` | src/core/anyfs_session.c:673-763 | after every serialised run MOUNTED records are exactly the kernel's mounts, whole disk and partition are never both MOUNTED, and there were at most 51 mount attempts per op |
| `OpQueue.Reachable` | ts/packages/core/src/session-base.ts:178-290 | the queue invariant holds after every order of submissions, settlements, watchdog expiries, host fatals, close and listener changes |
| `OpQueue.StartsAlone` | ts/packages/core/src/native-session.ts:92-94 | an engine call starts only when no earlier one is outstanding and the session is not fatal |
| `OpQueue.StartsInOrder` | ts/packages/core/src/session-base.ts:280-290 | ops reach the engine in submission order, and the calls of dispose after all of them |
| `OpQueue.FatalIsFinal` | ts/packages/core/src/session-base.ts:210-223 | after a fatal error every pending guarded op is rejected and nothing ever starts again |
| `OpQueue.ListenersFireOnce` | ts/packages/core/src/session-base.ts:199-223 | a listener runs at most once per registration, and only after a fatal error |
| `OpQueue.TimesFired` | ts/packages/core/src/session-base.ts:199-223 | over every run a function has run once for each registration after the fatal error, and once more if it was registered when the error was passed on to it |
| `OpQueue.RunsAtMostOnceIff` | ts/packages/core/src/session-base.ts:199-223 | so it has run at most once if and only if those add up to at most one |
| `OpQueue.SameFunctionRunsTwice` | ts/packages/core/src/session-base.ts:199-223 | registered before and again after the fatal error, a function runs twice |
| `Lru.RecencyMeaning` | ts/packages/core/src/url-fs.ts:136-152 | the order lists exactly the used chunks, once each, by their last use |
| `Lru.HeldIffRecent` | ts/packages/core/src/url-fs.ts:146-150 | a chunk is among the last n if and only if fewer than n others were used after its last use |
| `Lru.TouchHit` | ts/packages/core/src/url-fs.ts:138-144 | deleting and re-inserting a held entry is one use of it |
| `Lru.TouchMiss` | ts/packages/core/src/url-fs.ts:145-150 | inserting and dropping the oldest when full is one use of an entry not held |
| `UrlFs.Backend.FetchChunk` | ts/packages/core/src/url-fs.ts:117-134 | a ranged answer and a whole-body answer both yield exactly the chunk of the file |
| `UrlFs.Backend.GetChunk` | ts/packages/core/src/url-fs.ts:136-152 | returns the chunk of the file and keeps the cache equal to the last 32 distinct chunks in order of use; fails if and only if the chunk is not cached and the server refuses its request |
| `UrlFs.Backend.Read` | ts/packages/core/src/url-fs.ts:251-275 | terminates; the buffer gets exactly the slice of the file clipped at its size and nothing else; fails if and only if the server refused one of its requests, which is then its last; the chunks of the bytes copied, in order, and no others were used, whether it fails or not |
| `UrlFs.ReadAll` | ts/packages/core/src/url-fs.ts:251-275 | with a server that never refuses, every read of every sequence of reads succeeds with its clipped slice, and the chunks used are those of the reads one after the other |
| `UrlFs.TouchedAre` | ts/packages/core/src/url-fs.ts:262-273 | the chunks of a range run from that of its first byte to that of its last without a gap |
| `UrlFs.TouchedPrefix` | ts/packages/core/src/url-fs.ts:262-273 | a read that stops early used a prefix of them |
| `UrlFs.CachedIffRecent` | ts/packages/core/src/url-fs.ts:136-152 | a chunk is cached if and only if fewer than 32 others were used after it; at most 32 entries, in order of last use |
| `Console.CompletePrefix` | src/win32/anyfs_u8.c:13-32 | the backward loop finds the specified cut |
| `Console.Stream.Write` | src/win32/anyfs_u8.c:293-306 | emitted piece and new held tail are the old tail and the written bytes; at most 3 bytes are held |
| `Console.WriteAll` | src/win32/anyfs_u8.c:293-306 | any sequence of writes emits the specified pieces and ends with the specified held tail |
| `Console.StreamConserved` | src/win32/anyfs_u8.c:293-306 | for any bytes cut in any way, the emitted pieces and the held tail are the stream |
| `Console.CutIsWhole` | src/win32/anyfs_u8.c:13-32 | on a prefix of well-formed UTF-8 the cut is exactly after the last whole sequence |
| `Console.PiecesWellFormed` | src/win32/anyfs_u8.c:293-306 | if the stream is well-formed UTF-8 every piece is, however it is cut, and nothing is held at the end |

## Left out

- LKL and kernel calls, QEMU, libblkid, sockets, XHR and Win32 calls: their results are
  events or parameters; the kernel of `MountSession` refuses whole disk and partition
  together, and the server of `UrlFs` answers with the exact range, the whole body or
  an error status.
- Proxy: one connection at a time, so the connection table and its lock appear only as
  attach and free; the lifetime of a freed object, weak memory orders and 64-bit counter
  overflow are not modelled, and nothing is claimed about eventual freeing.
- `Semaphore`: that WaitOnAddress returns when the address changed is its documented
  behaviour, taken as given.
- Allocation failures, and C int results beyond 2^31.
- The proxy threads, the semaphore, concurrent enters, the API promises and the op queue
  are step functions on values instead of classes: what is stated of them is about every
  interleaving, and each step is one atomic access or one turn of the event loop.
- `Elf2Dylib`: reading ELF headers, dynamic tags and symbol tables from bytes; an
  `Image` holds what the parser keeps, with the slot dictionary listed by address and
  repeated slots already merged.
- `Elf2Dylib`: clang, ld64.lld and objdump are an ideal assembler and linker; the
  x18 scan, local symbol names, the LLD version test and the install name are not modelled.
- Object files that are not well formed where the scripts are lenient: a last section
  or a name that runs past the end, and a symbol table or segment info that runs past
  its subsection.
- Printing in all scripts, but for the two printed lines of the bracket tool that can
  raise; segment names are read only for printing.
- `StringOut`: an op that writes outside its buffer, and the decoding of the returned
  bytes to a JavaScript string.
- Containers, device mapper and nested slots of a session: entering one always fails.
- Leaves that run beside enters: agreement with the kernel is stated for serialised
  calls, as the native addon makes them.
- Mount options, file-system detection, probing and path parsing.
- `UrlFs.Backend.Read`: a server that answers 206 with fewer bytes than asked is not
  modelled.
- `ApiThread`: what an op does and the strings in its arguments.
- `OpQueue`: descriptors closed by the base class before dispose, and the URL proxy.
- User interface, FUSE, NFS and SMB front ends, settings and downloads.
