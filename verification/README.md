# Verified models of the hard parts of wrk2

wrk2 is an HTTP benchmarking tool that sends requests at a constant rate and records latencies. Its
repository holds an incremental HTTP parser, a histogram with a compressed index, an event loop, and the
whole of LuaJIT with its allocator, its pattern matcher, its assembler backend and the DynASM encoding
engines. This project models the parts of that code that are hard to get right, and proves what they are for.

Each component is one group of modules. A file that the source writes as in-place updates is a class or a
method with loops here, tied to functions on values; what those functions mean is proved as lemmas.

| component | modules | source |
|---|---|---|
| memory allocator | `LjTree`, `LjHeap`, `LjBins`, `LjState`, `LjAlloc` | `deps/luajit/src/lj_alloc.c` |
| pattern matching | `LuaPattern`, `LuaMatch`, `LuaString`, `LuaFind` | `deps/luajit/src/lib_string.c` |
| table sort | `AuxSort` | `deps/luajit/src/lib_table.c` |
| register shuffle | `Shuffle` | `deps/luajit/src/lj_asm.c` |
| DynASM for ARM | `DynasmLabels`, `DynasmArm`, `DynasmArmPasses`, `DynasmArmState`, `DynasmArmRuns` | `deps/luajit/dynasm/dasm_arm.h` |
| DynASM for x86 | `DynasmLabels`, `DynasmX86`, `DynasmX86Passes`, `DynasmX86Encode`, `DynasmX86State`, `DynasmX86Runs` | `deps/luajit/dynasm/dasm_x86.h` |
| HTTP parser | `HttpChars`, `HttpSteps`, `HttpRuns`, `HttpParser`, `HttpBodies`, `HttpHeaders`, `HttpMessages` | `src/http_parser.c` |
| URL parser | `HttpChars`, `HttpUrl` | `src/http_parser.c` |
| histogram | `HdrIndex`, `HdrLists`, `HdrHistogram` | `src/hdr_histogram.c` |
| constant throughput | `WrkPacing` | `src/wrk.c` |
| event ports | `Evport` | `src/ae_evport.c`, `src/ae.c` |

`Numbers` holds powers of two and quotients, which several of these share.

How the components are modelled:

- **Allocator.** `Arena` has the fields of `malloc_state` and the header and foot words of one arena. Its
  abstract value is a `Heap`, and `Heap.Inv` says that chunks tile the arena, that no two free chunks are
  neighbours, that header bits and feet agree with the chunk before, and that every free chunk but the top is
  the designated victim or in exactly the bin for its size. `starts` and `prev` are known to the proof only.
  What programs store in their blocks is a `Memory` beside it.
- **Pattern matching.** `Parse` gives the pattern's items. `Derive` says, without any search, which choices of
  repetitions lead to a match, and `Before` which of two choices has priority. `First` is the search as
  recursion, and `MatchState.Match` the code with its mutable captures and its depth limit.
- **DynASM.** What is put is a log of references and definitions; `Binds` says which definition a reference
  asks for. The label arrays and the chains that are threaded through the section buffers refine that log.
  `Assemble` runs all passes, for ARM and for x86.
- **HTTP.** `Step` is one turn of the switch on one byte, `Run` the machine without buffers, marks or bulk
  loops. `HttpParser.Execute` is the function with those. Callbacks are observers that return 0. `Feed` joins
  adjacent data callbacks of one kind; two outputs that join to the same differ only in how data was cut. The
  source's assertions about the read count and the marks are assertions in the bodies of `Execute` and `Flush`.
- **Histogram.** A histogram refines the sorted list of the values that were recorded.
- **Pacing.** One connection, with its events in any order that can happen, and a clock that does not go back.
- **Event ports.** The kernel's port is a map from associated descriptors to events.

## Model

| member | source | states |
|---|---|---|
| LjAlloc.Arena.constructor | deps/luajit/src/lj_alloc.c:1138-1160 | A new arena meets the heap invariant and has no chunk in use but the allocator's own. |
| LjAlloc.Arena.Malloc | deps/luajit/src/lj_alloc.c:1174-1255 | A request puts exactly one chunk that was free into use, large enough and with less than a chunk over, chosen as a best fit with the designated victim preferred as the source does; it fails exactly if it is too big or nothing free has room. |
| LjAlloc.Arena.Free | deps/luajit/src/lj_alloc.c:1257-1326 | The heap invariant is kept and exactly the freed chunk goes out of use, with its free neighbours merged into it. |
| LjAlloc.Arena.Realloc | deps/luajit/src/lj_alloc.c:1328-1376 | A block stays with room for the new size, or a new one takes its place and holds the old contents up to the smaller of the two sizes; all other blocks and all other memory are untouched; it fails exactly if the block can neither stay, grow into the top nor move. |
| LjAlloc.Arena.Run | deps/luajit/src/lj_alloc.c:1174-1376 | After any requests of a program that frees and writes only what it has, every live block has room for what was asked and still holds what was written into it, wherever it was moved, and live blocks lie in the arena and do not overlap. |
| LjAlloc.WordsApart | deps/luajit/src/lj_alloc.c:306-415 | Header words, the feet of free chunks, and the bodies of free chunks, which are all that the allocator writes, lie outside of the blocks in use. |
| LjAlloc.Arena.ChooseLarge | deps/luajit/src/lj_alloc.c:1042-1086 | The search of the tries finds a smallest large chunk that fits, or none exactly if there is none or the designated victim fits as well, although sizes are subtracted with wrap-around. |
| LjAlloc.Arena.TmallocSmall | deps/luajit/src/lj_alloc.c:1106-1136 | For a small request the smallest large chunk is taken and what remains of it becomes the designated victim. |
| LjState.Heap.FreedFrees | deps/luajit/src/lj_alloc.c:1257-1326 | Loosening the free neighbours of a chunk in use, merging, and binning the result keeps the invariant and frees that chunk only. |
| LjState.Heap.FromBinAllocates | deps/luajit/src/lj_alloc.c:1087-1101 | Taking a binned chunk whole or split, with the rest as designated victim or in its bin, keeps the invariant and puts that chunk only into use. |
| LjTree.InsertIs | deps/luajit/src/lj_alloc.c:641-677 | Insertion into a trie adds exactly one chunk and keeps the order along the bits of sizes. |
| LjTree.RemoveIs | deps/luajit/src/lj_alloc.c:680-724 | Removal from a trie takes out exactly one chunk and keeps that order. |
| LjTree.SearchOwnBin | deps/luajit/src/lj_alloc.c:1045-1066 | The walk along the bits of the request ends with a fit and a subtree among which the best fit of the whole trie is. |
| LuaPattern.Subject.FirstIsBest | deps/luajit/src/lib_string.c:281-450 | The search returns the match of the derivation with the highest priority, and nothing exactly if there is no derivation. |
| LuaPattern.Subject.BestIsUnique | deps/luajit/src/lib_string.c:302-330 | Priority determines one result. |
| LuaPattern.Subject.ClosingIsFirstBalance | deps/luajit/src/lib_string.c:281-300 | `%b` ends at the first position at which every bracket that was opened is closed. |
| LuaMatch.MatchState.Match | deps/luajit/src/lib_string.c:365-450 | The matcher with its mutable captures returns what the search finds if the pattern is well formed and within the depth limit, and a failed match restores the level, all captures and the depth; each call works on a shorter pattern. |
| LuaString.Find | deps/luajit/src/lib_string.c:540-558 | The matcher, tried at one place after the other, returns the leftmost match with priority and its captures, and nothing exactly if there is no match at any position that the anchor allows. |
| LuaString.PushCaptures | deps/luajit/src/lib_string.c:477-503 | All captures are pushed in order, or the whole match if there is none and it is asked for; an unfinished capture is an error. |
| LuaString.Gsub | deps/luajit/src/lib_string.c:605-697 | The source is consumed as matches and gaps in order, with at most one substitution more than it has bytes; each piece is the match with priority at its place or a byte at which nothing matches; the replacement "%0" gives the source back for any pattern, anchor and limit. |
| LuaString.LMemFind | deps/luajit/src/lib_string.c:453-476 | Plain search returns the leftmost occurrence, or none exactly if there is none. |
| LuaFind.InitIs | deps/luajit/src/lib_string.c:504-526 | A start position counts from 1, or from the end if it is negative; one outside of the source means its nearest end. |
| LuaFind.StrFind | deps/luajit/src/lib_string.c:511-564 | string.find returns the leftmost occurrence at or after the start position if it is plain or the pattern has no special character, and the leftmost match otherwise; for a pattern that only stands for itself both are the same. |
| LuaFind.StrMatch | deps/luajit/src/lib_string.c:511-569 | string.match returns the leftmost match at or after the start position. |
| LuaFind.PlainLegal | deps/luajit/src/lib_string.c:527-528 | Among patterns without special characters the matcher rejects exactly those with a closing bracket in front of a NUL. |
| LuaFind.PlainAgrees | deps/luajit/src/lib_string.c:527-558 | For a pattern without special characters the plain search and the matcher agree on every source, exactly if the pattern has neither a closing bracket nor a NUL. |
| AuxSort.Table.Sort | deps/luajit/src/lib_table.c:195-256 | Whatever the comparison answers, sorting ends, rearranges only the elements between its bounds, and nests only as deep as their number has bits; for a strict weak order they are sorted and no error is raised. |
| AuxSort.Table.TableSort | deps/luajit/src/lib_table.c:258-268 | table.sort leaves a permutation, also when it raises an error, and a sorted one for a strict weak order. |
| AuxSort.Table.Partition | deps/luajit/src/lib_table.c:222-247 | For a strict weak order the pivot ends with nothing before it that is larger and nothing behind it that is smaller; the scans stay within the bounds. |
| Shuffle.AsmState.ShuffleRegs | deps/luajit/src/lj_asm.c:1472-1506 | The emitted moves, run in program order, put the value of every parent register into the register of its reference, cycles included; only allowed registers are written, and it gives up only if no temporary is left. |
| Shuffle.RegState.RenameKeeps | deps/luajit/src/lj_asm.c:616-637 | Renaming a target to a temporary keeps the promise of the moves emitted so far. |
| DynasmLabels.Links.DefinedOk | deps/luajit/dynasm/dasm_arm.h:231-243 | Defining a label binds exactly the references in its chain, and a later reference finds the label's position. |
| DynasmArmState.ArmState.Put | deps/luajit/dynasm/dasm_arm.h:177-274 | Pass 1 records the references and definitions of a list, leaves what later passes need in the buffer, and switches to the section that the list names; its status is that of the first action that fails: a label out of range, a backward reference to an undefined local label, an immediate without encoding, or a section that does not exist. |
| DynasmArmState.ArmState.Link | deps/luajit/dynasm/dasm_arm.h:278-334 | Pass 2 fails exactly if a PC label is used but undefined; otherwise every label's cell holds its offset in the finished program, the size is that of the program, and pass 3 can follow every reference, even one to a label that is not defined. |
| DynasmArmState.ArmState.Encode | deps/luajit/dynasm/dasm_arm.h:344-423 | Pass 3 writes exactly the program's words into a buffer of the promised size and never reports a phase error; it fails exactly if a reference is marked undefined or out of range. |
| DynasmArmState.ArmState.GetPcLabel | deps/luajit/dynasm/dasm_arm.h:427-436 | The offset that is returned is that of the PC label's latest definition. |
| DynasmArmPasses.RefAfterLink | deps/luajit/dynasm/dasm_arm.h:294-301 | After pass 2 a reference holds the position of the next definition if it is forward and of the latest otherwise, and is negative exactly if it is a marked undefined global. |
| DynasmArmState.ReferenceReaches | deps/luajit/dynasm/dasm_arm.h:372-412 | The displacement that the processor reads from a patched instruction leads to the definition that the reference asks for, exactly if it is not one that the range check should have refused. |
| DynasmArmRuns.Assemble | deps/luajit/dynasm/dasm_arm.h:86-423 | In a whole run from the first list to the finished program every reference to a label that is defined reaches its definition, and there is no phase error. |
| DynasmArm.FieldReads | deps/luajit/dynasm/dasm_arm.h:378-391 | An encoded displacement that passes the range check is read back, exactly if it is not ±256 for the 8 bit form or ±4096 for the 12 bit form. |
| DynasmArm.Imm12Is | deps/luajit/dynasm/dasm_arm.h:168-174 | The encoded rotation gives the immediate back, and there is none only if no rotation leaves eight bits. |
| DynasmArm.ImmReads | deps/luajit/dynasm/dasm_arm.h:242-251 | An unsigned immediate that passes the checks is read back from the instruction. |
| DynasmArm.SignedImmReads | deps/luajit/dynasm/dasm_arm.h:242-251 | A signed immediate that passes the checks is read back with its sign. |
| DynasmArm.Imm16Reads | deps/luajit/dynasm/dasm_arm.h:403-405 | The two parts of a 16 bit immediate join to it. |
| DynasmArm.Load8ImmReads | deps/luajit/dynasm/dasm_arm.h:406-409 | An 8 bit load offset that passes the check is read back with its sign. |
| DynasmArm.Load12ImmReads | deps/luajit/dynasm/dasm_arm.h:410-412 | A 12 bit load offset that passes the check is read back with its sign. |
| DynasmArm.Load32ImmReads | deps/luajit/dynasm/dasm_arm.h:252-259 | A VFP load offset, stored in words, is read back in bytes. |
| DynasmArmState.UndefinedGlobalMarked | deps/luajit/dynasm/dasm_arm.h:294-301 | An undefined global is marked exactly if its label index is at least 20. |
| DynasmArmRuns.LostBranchRun | deps/luajit/dynasm/dasm_arm.h:177-423 | A list with a branch to the undefined global of index 10 is put, linked and encoded without an error, and the branch leads to the start of the program. |
| DynasmArmRuns.FarLoadRun | deps/luajit/dynasm/dasm_arm.h:177-423 | A list with a load 264 bytes before its label is put, linked and encoded without an error, and the load does not read from the label. |
| DynasmArmRuns.FarLoadIs | deps/luajit/dynasm/dasm_arm.h:177-230 | What that list puts: a load with a forward reference that asks for the label behind it. |
| DynasmArmRuns.JustTooFar | deps/luajit/dynasm/dasm_arm.h:381-386 | The displacements ±256 and ±4096 pass the range checks of loads and are not read back. |
| DynasmX86State.X86State.Put | deps/luajit/dynasm/dasm_x86.h:167-262 | Pass 1 records the references and definitions of a list and appends its items to the active section; its status is that of the first action that fails: an immediate or a label out of range, a backward reference to an undefined local label, or a section that does not exist. |
| DynasmX86State.X86State.Link | deps/luajit/dynasm/dasm_x86.h:266-345 | Pass 2 fails exactly if a PC label is used but undefined; otherwise, with or without undefined local labels, branches are short or long, labels hold their final offsets, and the size is that of the shrunk program. |
| DynasmX86State.X86State.Encode | deps/luajit/dynasm/dasm_x86.h:360-439 | Pass 3 writes each item at its final offset, exactly as many bytes as promised, never reports a phase error, and exports the address of each global's last definition. |
| DynasmX86Passes.ShortBranch | deps/luajit/dynasm/dasm_x86.h:304-331 | Every branch to a label that pass 2 makes short has a displacement from -128 to 127 in the finished program, although later branches and alignments shrink after the decision. |
| DynasmX86Encode.BranchWorks | deps/luajit/dynasm/dasm_x86.h:395-413 | The bytes after a branch's opcode, read as a signed number of one byte or four, lead to its label, and a short branch has the short opcode. |
| DynasmX86Encode.ReferenceReaches | deps/luajit/dynasm/dasm_x86.h:266-439 | In a program of less than 2^31 bytes every branch leads to the definition that its reference asks for. |
| DynasmX86Runs.Assemble | deps/luajit/dynasm/dasm_x86.h:167-439 | In a whole run from the first list to the finished program each item stands at its final offset, the addresses of global labels are exported, and every branch to a label that is defined leads there if the program has less than 2^31 bytes; there is no phase error. |
| HttpSteps.StepSound | src/http_parser.c:694-2036 | For the transition on one byte: the assertions about flags, content length and header state hold, and each callback fits the state; those about the read count and the marks belong to the buffers and are met by HttpParser.Execute. |
| HttpRuns.RunAppend | src/http_parser.c:627-700 | Without buffers and marks: running two texts one after the other is running both. With them this is HttpParser.ExecutePieces. |
| HttpParser.HttpParser.Execute | src/http_parser.c:627-2075 | The function with its marks, bulk loops, looks-again and read count consumes as much, ends in the same state or error, and makes the same callbacks up to how data is cut, as the machine that looks at one byte at a time. |
| HttpParser.HttpParser.ExecutePieces | src/http_parser.c:627-2075 | However the input is cut into calls, the final state and the joined callbacks are those of the whole input, and refused input is refused with the same error. |
| HttpParser.HttpParser.ExecuteEof | src/http_parser.c:643-667 | The end of the connection completes a body without a length, is no error between messages, and is an error inside of any other message. |
| HttpHeaders.KnowsName | src/http_parser.c:1266-1443 | Exactly the names content-length, transfer-encoding, connection, proxy-connection and upgrade, in any case, are recognised. |
| HttpMessages.LengthValue | src/http_parser.c:1460-1597 | A Content-Length is read as its decimal value or refused, exactly if it is above 2^64 - 7, so that it neither wraps around nor equals the mark for a missing length. |
| HttpBodies.SizeDigits | src/http_parser.c:1936-1971 | A chunk size is read as its hexadecimal value or refused, exactly if it is above 2^64 - 17. |
| HttpMessages.ChunkedBody | src/http_parser.c:1920-2036 | A body of any chunks with extensions and a trailer delivers exactly their data in order and then completion, once. |
| HttpMessages.LengthMessage | src/http_parser.c:1266-1918 | A header with a Content-Length, zero included, among any lines that do not decide about the body, and a body, deliver exactly that body and completion, once. |
| HttpMessages.ChunkedMessage | src/http_parser.c:1266-2036 | The same for a chunked message, with the header line that says so among any such lines. |
| HttpMessages.DeliverChunked | src/http_parser.c:627-2075 | A whole chunked response in any pieces calls on_body with exactly the data of its chunks, and reports its completion once and a beginning for each line break in front of it and one more. |
| HttpMessages.DeliverIdentity | src/http_parser.c:627-2075 | The same for a response with a Content-Length. |
| HttpMessages.RunNested | src/http_parser.c:627-2075 | Over any input data and completion are reported only inside of a message that has begun; for requests its beginning is reported exactly once, and for responses as often as HttpMessages.BeginsOften says. |
| HttpMessages.BeginsTwice | src/http_parser.c:749-770 | Two line breaks in front of a response are reported as the beginning of two messages. |
| HttpMessages.BeginsAt | src/http_parser.c:749-770 | In front of a response exactly line breaks and the letter H are accepted; each reports a beginning, and only the letter begins the response. |
| HttpMessages.BeginsOften | src/http_parser.c:749-770 | A response is reported to begin once for each line break in front of it and once more, so exactly once exactly if its text starts with none. |
| HttpBodies.SizeFirstByte | src/http_parser.c:1920-1934 | A chunk size can start with a hexadecimal digit and with exactly the bytes from 0x80 on besides, which count as 0. |
| HttpBodies.SizeNextByte | src/http_parser.c:1936-1971 | The same bytes can go on with a chunk size, and count as 0 there, too. |
| HttpMessages.HighByteEnds | src/http_parser.c:1920-2036 | A chunk size that is one byte from 0x80 on ends a chunked message as 0 does. |
| HttpUrl.Url.ParseUrl | src/http_parser.c:2290-2386 | Exactly the URLs that both automata accept are accepted, the fields are the bytes with their tags, and the port is the decimal value of its field. |
| HttpUrl.Splits | src/http_parser.c:2217-2386 | The fields of an accepted URL lie in the buffer, in order and apart, and every byte outside of them is a delimiter. |
| HttpUrl.PortIsNumber | src/http_parser.c:2152-2214 | The bytes of the port are digits. |
| HdrIndex.CellIs | src/hdr_histogram.c:41-72 | The cell of a value is the one whose lowest value is not above it while that of the next cell is. |
| HdrIndex.CellUnique | src/hdr_histogram.c:41-72 | No other cell is. |
| HdrIndex.CellMonotone | src/hdr_histogram.c:41-72 | Larger values have the same cell or a later one. |
| HdrIndex.CellOfLow | src/hdr_histogram.c:67-86 | Every cell is the cell of its lowest value, so that index and value are inverse. |
| HdrIndex.AcceptedIs | src/hdr_histogram.c:41-72 | A value is accepted, and the assertions of the index hold for it, exactly if it is at least 0 and below the limit of the buckets. |
| HdrIndex.EquivalentsAre | src/hdr_histogram.c:88-111 | The lowest and highest equivalent values of a value are the first and the last of its cell. |
| HdrIndex.Precise | src/hdr_histogram.c:127-185 | Outside of the first bucket a cell is narrower than its values by the factor that was asked for. |
| HdrIndex.FloorLog2Is | src/hdr_histogram.c:142 | The unit magnitude is the largest power of two that is not above the lowest trackable value. |
| HdrIndex.CeilLog2Is | src/hdr_histogram.c:138-140 | The power of two from which the number of sub-buckets is taken is the least that gives the figures; HdrHistogram.Histogram.Init starts from it. |
| HdrHistogram.Histogram.Init | src/hdr_histogram.c:127-185 | It fails exactly for figures outside of 1 to 5; otherwise the histogram is empty, has the unit and the sub-buckets that the least value and the figures ask for, and the least number of buckets with room for the highest value. |
| HdrHistogram.SizedOnce | src/hdr_histogram.c:127-185 | There is one such shape, so that the arguments determine the limit of the values. |
| HdrHistogram.Histogram.Reset | src/hdr_histogram.c:193-198 | Nothing is recorded any more. |
| HdrHistogram.Histogram.RecordValues | src/hdr_histogram.c:230-243 | A value is added to the recorded ones as often as asked, or refused, exactly if it is not below the limit. |
| HdrHistogram.Histogram.RecordCorrected | src/hdr_histogram.c:245-267 | The value and the values back to one interval are recorded: as many as whole intervals fit, and at least one. |
| HdrHistogram.Iter.Next | src/hdr_histogram.c:423-494 | Iteration goes from cell to cell in order, never leaves the array, and ends once all counts were seen. |
| HdrHistogram.HdrMax | src/hdr_histogram.c:299-314 | The lowest equivalent of the largest recorded value is returned. |
| HdrHistogram.HdrMin | src/hdr_histogram.c:316-333 | The lowest equivalent of the smallest recorded value is returned. |
| HdrHistogram.ValueAtRank | src/hdr_histogram.c:335-358 | For rank k the highest equivalent of the k-th smallest recorded value is returned. |
| HdrHistogram.ValueAtPercentile | src/hdr_histogram.c:335-358 | With exact numbers in place of doubles a percentile stands for a rank from 1 to the number of values. |
| HdrHistogram.RanksMonotone | src/hdr_histogram.c:335-358 | Higher ranks give higher values, and each bounds the recorded value from above. |
| HdrHistogram.CountAtValue | src/hdr_histogram.c:408-412 | The number of recorded values in the value's cell is returned. |
| HdrHistogram.HdrAdd | src/hdr_histogram.c:269-287 | Every recorded value of the other histogram is added or dropped, and the totals and the dropped count balance; an empty histogram can be added to itself. |
| HdrLists.AbsorbedSame | src/hdr_histogram.c:269-287 | Between histograms of one shape nothing is dropped and counts are added cell by cell. |
| HdrHistogram.AddToItself | src/hdr_histogram.c:269-287 | Adding a histogram to itself ends, within however many cells, exactly if nothing is recorded in it. |
| HdrHistogram.RefusedIs | src/hdr_histogram.c:215-228 | A value above the highest trackable one is refused exactly if it is not below the limit. |
| HdrHistogram.DocumentedIs | src/hdr_histogram.c:127-228 | All values above the highest trackable one are refused exactly if that is the last value below the limit. |
| HdrHistogram.SmallShape | src/hdr_histogram.c:127-185 | For values from 1 to 1000 with one figure there are 7 buckets of 32 sub-buckets, and the limit is 2048. |
| HdrHistogram.AboveHighest | src/hdr_histogram.c:52-65 | For values from 1 to 1000 with one figure the value 2047 is recorded, and for 2048 an assertion fails. |
| WrkPacing.Connection.UsecToNextSend | src/wrk.c:459-498 | A request may be sent exactly if it is due at the constant rate and, while catching up, at twice that rate; otherwise the time until then is returned. |
| WrkPacing.Connection.SocketWriteable | src/wrk.c:623-676 | A batch starts exactly if none is pending and a request is ready, and then its corrected and actual start are remembered; a partial write starts none. |
| WrkPacing.Connection.ResponseComplete | src/wrk.c:510-597 | The corrected latency counts from the time at which the batch was due; it is at least the uncorrected one, and neither is negative, exactly if a batch was started or the thread starts at 0. The connection still waits for something that can happen exactly if the response was expected. |
| WrkPacing.Serve | src/wrk.c:459-676 | Over every run of connects, writes, timers, responses and reconnects no batch starts ahead of its time; if each response is checked to be expected, every recorded latency is corrected upwards and the connection always waits for something that can happen; a stalled connection stays so. |
| WrkPacing.RateKept | src/wrk.c:459-498 | After any run the requests of all batches are fewer than the rate has room for in the time that went by, and one batch; when a batch starts, those before it are fewer than the rate has room for. |
| WrkPacing.EarlyStall | src/wrk.c:574-577 | A response that comes while its only request is partly written leaves a connection with nothing to write, no timer and no response to come. |
| Evport.EventLoop.CreateFileEvent | src/ae_evport.c:147-176 | The events of a descriptor grow by those asked for, or nothing changes. |
| Evport.EventLoop.DeleteFileEvent | src/ae_evport.c:178-236 | The events of a descriptor shrink by those named, and its one representation with them. |
| Evport.EventLoop.Restore | src/ae_evport.c:238-264 | When the port is waited for, it has exactly the descriptors with events, with their events. |
| Evport.EventLoop.Poll | src/ae_evport.c:238-310 | What is returned are descriptors with events, each once and no more than the event loop has room for, and they are pending afterwards. |
| Evport.FiredFit | src/ae_evport.c:287-307 | Pending descriptors have events and are no more than there are descriptors. |
| Evport.Serve | src/ae_evport.c:104-310 | Over every run each descriptor with events is represented exactly once, in the kernel or as pending, so that none is dissociated that is not associated. |

## Findings

Where the proofs found that the code does not do what it is for, the model follows the code; the members that are
named give an input and the exact condition.

| where | as written | input | intended | confidence |
|---|---|---|---|---|
| deps/luajit/dynasm/dasm_arm.h:381-386 | The range checks of PC-relative loads pass displacements up to and including 256 and 4096, whose encoded operand is 0; they fail exactly at ±256 for the 8 bit form and ±4096 for the 12 bit form (`DynasmArm.FieldReads`, `DynasmArmRuns.JustTooFar`). | A list with a load whose label is 264 bytes ahead (`DynasmArmRuns.FarLoadIs`, `DynasmArmRuns.FarLoadRun`). | DASM_S_RANGE_REL, since the operand has no room. | proved of the model |
| deps/luajit/dynasm/dasm_arm.h:296 | Marking undefined globals starts at index 20, so that exactly those with index 10 to 19 are not marked; pass 3 follows their chains to position 0 (`DynasmArmState.UndefinedGlobalMarked`). | A list with a branch to the global with index 10 that nothing defines (`DynasmArmRuns.LostBranchRun`). | DASM_S_UNDEF_LG, as for other globals. | proved of the model |
| src/hdr_histogram.c:215-228 | A value above the highest trackable one is recorded exactly if it is below the limit of the buckets (`HdrHistogram.RefusedIs`); all such values are refused only if the highest trackable one is the last below the limit (`HdrHistogram.DocumentedIs`). | The value 2047 for values from 1 to 1000 with one figure (`HdrHistogram.AboveHighest`). | false, as src/hdr_histogram.h documents. | proved of the model |
| src/hdr_histogram.c:52-65 | The assertions fail for exactly the values that are negative or not below that limit, before the range check of the callers, and the Makefile does not define NDEBUG (`HdrIndex.AcceptedIs`). | The value 2048 for the same histogram (`HdrHistogram.AboveHighest`). | false, as src/hdr_histogram.h documents. | proved of the model |
| src/hdr_histogram.c:269-287 | hdr_add of a histogram to itself counts what it has added as still to come; it ends exactly if nothing is recorded (`HdrHistogram.AddToItself`). | Any histogram that is not empty, added to itself. | Counts that are doubled. | proved of the model |
| src/http_parser.c:749-770 | on_message_begin is called once for each CR or LF in front of a response, and once more; exactly once exactly if there is none (`HttpMessages.BeginsOften`). Requests have no such calls (`HttpMessages.RunNested`). | "\n\n" (`HttpMessages.BeginsTwice`). | One call for each message. | proved of the model |
| src/http_parser.c:225-234 | Only half of the 256 entries of the table are given, so that exactly the bytes from 0x80 on besides hexadecimal digits are accepted in a chunk size, as the digit 0 (`HttpBodies.SizeFirstByte`, `HttpBodies.SizeNextByte`). | The byte 0x80 in place of the last chunk's size ends the message (`HttpMessages.HighByteEnds`). | HPE_INVALID_CHUNK_SIZE. | proved of the model |
| deps/luajit/src/lib_string.c:527-528 | string.find searches plainly for a pattern without special characters, among which a closing bracket is not, and which are only looked for up to a NUL; that agrees with the matcher on all sources exactly if the pattern has neither (`LuaFind.PlainAgrees`). | The pattern ")", which string.match rejects (`LuaFind.PlainLegal`). | An invalid pattern capture, as for string.match. | proved of the model; perhaps intended |
| src/wrk.c:574-577 | A response that comes while the last request of its batch is partly written ends the batch; when the rest is written, nothing is waited for, and no further request is sent (`WrkPacing.Connection.ResponseComplete`, `WrkPacing.Serve`). | Four of ten bytes are written, and the response comes (`WrkPacing.EarlyStall`). | The next request is sent when it is due. | proved of the model |

## Left out

- LjAlloc.Arena.InsertLargeChunk: the tries are tree values on which it calls `Insert`, so that the rewiring of child and parent pointers and of `fd` and `bk` in rings is not modelled; what is proved is the order, the contents and the searches.
- LjAlloc.Arena.UnlinkLargeChunk: the same, with `Remove`.
- Bit maps of bins are sets of bits, and small bins are sequences along their `fd` links.
- alloc_sys returns NULL: segments, mmap, direct chunks, trimming and fenceposts are operating-system calls; there is one arena of less than 2^40 bytes.
- HttpParser.HttpParser.PlainTurn: for states without a loop it runs the specification's own `Step`, so that the transitions of one byte agree by construction; what is proved against `Run` is the marks, the bulk loops, looking again at a byte, the read count and the cuts between calls.
- The limit on the size of the header is removed, as the source allows, because the read count is wrong at cuts and at line ends without CR.
- Callbacks that return an error, pausing, re-initialisation from inside a callback, and on_headers_complete with the flag that skips the body, which does not fit its bit field.
- Which tokens of a Connection header set their flags: only that the flags belong to the message; a comma after a token that was partly matched is swallowed.
- HttpMessages.LengthMessage: no line with the name content-length, transfer-encoding or upgrade may stand around the framing line, since these decide about the body, too.
- DynasmX86State.X86State.Put: actions are given decoded; displacements, register operands, marks, set-label and external symbols are left out, immediates keep their values in the items, a section has less than 2^24 positions, and a status names the kind of error without its position in the list.
- DynasmArmState.ArmState.Encode: external symbols and the addresses of globals that it exports are left out.
- DynasmArmState.ArmState.Put: the caller gives the arguments that a list asks for, and a section has less than 2^24 positions.
- LuaString.Find: what happens for a malformed pattern is not stated, except that a pattern that is well formed and not too deep raises no error of the matcher; a position capture is its decimal text.
- LuaFind.InitIs: without the compatibility option for Lua 5.2, with which a start position behind the source finds nothing.
- string.gmatch, string.format and gsub with a table or a function as replacement, which call into the virtual machine.
- HdrHistogram.ValueAtPercentile: percentiles are exact numbers; mean, standard deviation, and the percentile, linear and logarithmic iterators use floating point and are left out.
- HdrHistogram.Histogram.Init: unit magnitude and number of buckets stay within the 31 bits that the source shifts by, as wrk's own configuration does.
- LjAlloc.Arena.Realloc: what blocks hold is kept apart from the header words and links, which are values of the model; that they do not meet in memory is LjAlloc.WordsApart.
- WrkPacing: the rate is an exact number, the clock does not go back, and calibration, scripts and statistics of threads are left out.
- Evport.EventLoop.DeleteFileEvent: an association that the kernel refuses there, or while polling, ends the program and is left out.
- Shuffle.AsmState.ShuffleRegs: the part of asm_head_side before the loop, which only prepares its inputs; it is the precondition that parents and targets are distinct.
- Sockets, TLS, threads, command line, printing, the Lua API, the other event loops, and the MIPS and PPC copies of DynASM.
