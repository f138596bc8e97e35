# Verified core of the kernel fuzzer

This project models the path that a test program takes through the fuzzer, from the Go package `prog`
through the binary exec format into the C++ executor, and proves what each part of that path promises.
Code that updates state step by step is modelled by classes, arrays and loops and proved against
functions on values; the properties of those functions are lemmas.

`dafny verify dfyconfig.toml` checks everything.

| area | modules | main result |
|---|---|---|
| DEFLATE decoder | `Canonical`, `Rfc1951`, `Puff`, `StoredRoundTrip`, `Deflate`, `DeflateRoundTrip`, `DeflateBlocks`, `DeflateStreams`, `DeflatePrefix` | `puff` computes exactly the reference inflate of RFC 1951, error codes and partial output included, although it never stores a zero byte; every file of stored, fixed, dynamic or reserved blocks, written bit by bit from the tables of the RFC, inflates to exactly what its blocks stand for, and a file that is cut off is always reported as such |
| Nested page tables | `PageTable` | mapping a page changes the translation of that page under that root only, and only if it was unmapped; `l2_gpa_to_pa` walks to the same entry; after set-up every address of a nested VM leads to its own code or stack page, to itself, or nowhere, and code that is loaded is the code that the VM fetches |
| Exec format | `Varint`, `Framing`, `StableOrder`, `ExecFormat`, `ExecStream`, `ExecResources`, `ExecLayout`, `ExecAccept`, `ExecCode`, `ExecWriter`, `ExecScan`, `ExecRun`, `ExecValues` | serializing and decoding is the identity on calls and actions, except for exactly described programs that the decoder rejects; result indices are dense and every reference names an index of an earlier call; in every run of the executor, whenever calls complete and whether or not they fail, every argument reads what the program means: constants of the process, addresses, and for a reference the value last recorded for exactly the resource it names; every field is written at the place that its path in the pointee gives, and over zeroed memory the writes leave exactly the pointee's meaning |
| Request runner | `Runner` | every request is queued, pending at one process, or answered, exactly once; every round does with each process and with the queue exactly what the events ask for; requests are executed only by subprocesses set up for them; the handshake counter is exact; process ids are recycled first in, first out |
| Worker threads | `Threads` | under every interleaving no impossible event state occurs, the running counter is exact, and every call gets exactly one output: calls that are waited for and done in time before the next instruction, all in program order without threads |
| Allocator and filter | `MemAlloc`, `CoverFilter` | two-level and three-level bitmaps agree with plain sets; first fit, and exactly when it is inside the memory; after any insertions the filter contains exactly what was inserted, up to the exact point at which its bound check is too weak |
| Program transformations | `Async`, `Clone`, `Collide`, `CollideExec`, `Squash` | copies are isomorphic resource graphs; duplicated calls add no user and no result index, and references stay backward exactly if no duplicated call refers to itself; squashing keeps the bytes that end up in memory |
| Config actions | `ConfigUndo`, `Normalize` | after any session of actions restoring gives back what each path showed before the first restorable action; equal signatures mean equal contexts |
| Checksums | `Checksum` | updating with late folding is the ones' complement sum of RFC 1071 for all data of a length exactly if that length is at most 131072 bytes; chunks are summed as if filled up to whole words, and can be concatenated exactly if each starts at a word; storing the digest makes the sum 0xffff |

`Basics`, `Bits` and `Counting` hold shared definitions.

Conventions. A `fail`, `exitf`, `longjmp` or Go panic is an error result. Random choices, I/O outcomes,
timeouts and the steps of other threads are arbitrary, as parameters or as unconstrained choices. C
integers are natural numbers with the operator written out where width matters: `|` and `<<` on
naturals (`Bits`), 64-bit wrap-around in the exec format (`Wrap`), the 32-bit accumulator of checksums.

Properties that do not hold as one might expect are stated with their exact condition:

- The cover filter accepts 2048 rows, but the last row does not lie wholly inside its table
  (`CoverFilter.RowBound`). A run of insertions succeeds exactly if it needs at most four regions and 2048
  rows and nothing of it falls behind the table (`CoverFilter.InsertAll`); `CoverFilter.OutsideTheTable`
  is a run of 2048 insertions whose last one falls behind it.
- The decoder of the exec format rejects a well-formed program exactly if its last resource is not
  referred to by an argument that is written (`ExecAccept.ProgramRoundTrip`). For validated programs this
  means that all references to it are in memory the call only writes to, or have no bytes
  (`ExecAccept.RejectedIff`); `ExecAccept.RejectedProgram` is such a program of two calls.
- The checksum update is right for all accumulators and all data of a length exactly if the length is at
  most 131072 bytes (`Checksum.RightIff`).
- The block found by the allocator lies inside the memory exactly if it is not larger than the memory; a
  larger one is searched up to a limit that has wrapped around (`MemAlloc.InsideIff`, `MemAlloc.TooLarge`).
  Sizes within 63 bytes of 2^64 wrap around to no granule at all, and such alignments lead to a division by
  zero or a search without end (`MemAlloc.UnitsBound`, `MemAlloc.MemAlloc.Alloc`).
- The digest over chunks of given lengths is that of their concatenation, for all contents, exactly if every
  chunk with bytes starts at a whole word (`Checksum.ConcatenateIff`).
- A call that returns -1 records nothing: its resources keep their earlier value or, if nobody made them,
  references to them read their default (`ExecValues.FailureKeeps`, `ExecValues.NeverMade`). A completion
  fails exactly if a used resource has a size other than 1, 2, 4 and 8 bytes (`ExecValues.Finish`).
- Inserting asynchronous duplicates keeps references backward exactly if no chosen call refers to a
  resource of its own (`Collide.DupCall`); `Collide.ForwardReference` is a program where they do not stay.
- The regions of the guest are disjoint exactly if the unused memory ends below the interrupt controller
  (`PageTable.SyzosDisjointIff`).
- Contexts that keep the same actions can have different signatures if one of them holds only actions
  with a negative position (`Normalize.NegativeMatters`, `Normalize.SignaturesAgree`).
- The comment above `puff_construct` says that decoding cannot fail when the result is 0. The code also
  returns 0 for an empty code, and decoding with it always fails; a code with result 0 can fail exactly if
  it is empty (`StoredRoundTrip.ZeroFailsIff`, `StoredRoundTrip.EmptyAlwaysFails`).

## Model

| member | source | states |
|---|---|---|
| `Canonical.LeftIsKraft` | executor/common_zlib.h:194-201 | what the check of code lengths leaves over is the unused part of the code space (Kraft sum) |
| `Canonical.FirstCodeAbove` | executor/common_zlib.h:124-159 | canonical codes of a longer length lie above all extensions of shorter codes |
| `Canonical.NoLongerMatch` | executor/common_zlib.h:124-159 | if a code is a prefix of the stream, no longer code is |
| `Canonical.MatchUnique` | executor/common_zlib.h:124-159 | at most one code of any length vector is a prefix of a stream |
| `Canonical.CompleteResolves` | executor/common_zlib.h:161-172 | with a complete code every 15 bits begin with some code |
| `StoredRoundTrip.NextSymbolIff` | executor/common_zlib.h:124-159 | a symbol is decoded if and only if its canonical code is a prefix of the remaining bits |
| `StoredRoundTrip.CompleteNeverFails` | executor/common_zlib.h:161-172 | the "no such code" error cannot occur with a complete code |
| `StoredRoundTrip.FailsIff` | executor/common_zlib.h:161-192 | for lengths that are not over-subscribed: some stream cannot be decoded exactly if the code space is not used up |
| `StoredRoundTrip.EmptyAlwaysFails` | executor/common_zlib.h:191-192 | with an empty code no stream of at least 15 bits can be decoded |
| `StoredRoundTrip.ZeroFailsIff` | executor/common_zlib.h:161-192 | when the result is 0, some stream cannot be decoded exactly if the code is empty |
| `StoredRoundTrip.StoreRoundTrip` | executor/common_zlib.h:81-108 | data split into stored blocks inflates to itself, for every length |
| `Puff.PuffState.TakeBits` | executor/common_zlib.h:60-78 | fails exactly when the input has too few bits, else gives the next bits of the stream and keeps buffer and stream in step |
| `Puff.Huffman.CountLengths` | executor/common_zlib.h:184-190 | the counts are those of the length vector |
| `Puff.Huffman.Offsets` | executor/common_zlib.h:203-207 | each offset is the number of shorter codes |
| `Puff.Huffman.SortSymbols` | executor/common_zlib.h:209-212 | the table lists all symbols with a code by length, then by value |
| `Puff.Huffman.Construct` | executor/common_zlib.h:182-216 | negative exactly for over-subscribed lengths, zero exactly for complete and for empty codes, else the unused code space, and the tables represent the code |
| `Puff.ScanBuffer` | executor/common_zlib.h:124-159 | using up buffered bits finds exactly the matching symbol or shows that none of the lengths so far matches |
| `Puff.Decode` | executor/common_zlib.h:124-159 | returns the symbol whose canonical code is a prefix of the remaining bits and consumes that many bits; "no code" and "out of input" exactly when the reference says so |
| `Puff.StoredBlock` | executor/common_zlib.h:81-108 | agrees with section 3.2.4 of RFC 1951, error cases included, although zero bytes are not stored |
| `Puff.CopyOutput` | executor/common_zlib.h:266-273 | the copy may overlap itself and skips zeros, yet gives the byte-by-byte copy |
| `Puff.LengthCode` | executor/common_zlib.h:223-228 | the length table equals the rule of section 3.2.5 of RFC 1951 |
| `Puff.DistCode` | executor/common_zlib.h:229-236 | the distance table equals the rule of section 3.2.5 of RFC 1951 |
| `Puff.ReadDistance` | executor/common_zlib.h:258-264 | reads the distance that the reference reads, with the same errors |
| `Puff.CopyCodes` | executor/common_zlib.h:251-264 | reads the length and distance that the reference reads, with the same errors |
| `Puff.CodesBlock` | executor/common_zlib.h:219-279 | the data of a block is decoded as the reference decodes it, with the same errors and output |
| `Puff.FixedTables.Build` | executor/common_zlib.h:284-317 | the tables built once represent the fixed codes of section 3.2.6 of RFC 1951 |
| `Puff.FixedBlock` | executor/common_zlib.h:282-321 | a fixed block agrees with the reference, whether or not the tables were built before |
| `Puff.ReadHeader` | executor/common_zlib.h:324-394 | the code lengths of a dynamic block, and every way they can be rejected, agree with section 3.2.7 of RFC 1951 |
| `Puff.DynamicBlock` | executor/common_zlib.h:324-398 | a dynamic block agrees with the reference |
| `Puff.DecodeBlock` | executor/common_zlib.h:453 | each block type is decoded as the reference does, type 3 is an error; `DeflateStreams.BlockReads` ties the types to the encoder |
| `Puff.OneBlock` | executor/common_zlib.h:450-456 | goes on exactly if the block is good and not marked last |
| `Puff.Puff` | executor/common_zlib.h:427-461 | for every input and zeroed output: result code, length and bytes are those of the reference inflate, nothing behind the output is touched, and it terminates |
| `DeflateRoundTrip.SymbolReads` | executor/common_zlib.h:124-159 | a symbol written in its canonical code is read back, for every code that is not over-subscribed |
| `DeflateRoundTrip.LengthFacts` | executor/common_zlib.h:251-256 | every length from 3 to 258 has the symbol, the extra bits and the base of its row in section 3.2.5 of RFC 1951 |
| `DeflateRoundTrip.DistFacts` | executor/common_zlib.h:258-264 | every distance from 1 to 32768 has the symbol, the extra bits and the base of its row in section 3.2.5 of RFC 1951 |
| `DeflateRoundTrip.CopyRepeats` | executor/common_zlib.h:266-273 | copying byte by byte repeats the last bytes of the output, for every length and distance |
| `DeflateRoundTrip.TokensRead` | executor/common_zlib.h:219-279 | literals and length/distance pairs written in any two codes are decoded to what they stand for, or stop with the documented error at the first pair that reaches too far or does not fit |
| `DeflateBlocks.FixedCode` | executor/common_zlib.h:294-311 | the canonical codes of the fixed lengths are the bit strings listed in section 3.2.6 of RFC 1951 |
| `DeflateBlocks.FormatExample` | executor/common_zlib.h:182-216 | the lengths of the example in section 3.2.2 of RFC 1951 get the codes that stand there |
| `DeflateBlocks.FixedReads` | executor/common_zlib.h:282-321 | a fixed block written with those bit strings is decoded to its tokens |
| `DeflateBlocks.CodeLengthsRead` | executor/common_zlib.h:336-342 | code lengths sent in the order of section 3.2.7 of RFC 1951 are read back, the ones not sent as zero |
| `DeflateBlocks.RunsRead` | executor/common_zlib.h:351-379 | run-length coded code lengths are read back as the lengths they stand for, or refused exactly where a repeat comes first or a run is too long |
| `DeflateBlocks.CodesRead` | executor/common_zlib.h:324-394 | the codes of a dynamic block that are sent are the codes with which it is decoded, or are refused with the documented error |
| `DeflateStreams.PlainReads` | executor/common_zlib.h:81-108 | a stored block is read back from the next byte boundary, or refused if its length check fails |
| `DeflateStreams.DynamicReads` | executor/common_zlib.h:324-398 | a dynamic block is decoded to its tokens with the codes that it sends |
| `DeflateStreams.BlockReads` | executor/common_zlib.h:453 | types 00, 01, 10 and 11 are stored, fixed, dynamic and an error: each block is decoded to what it stands for |
| `DeflateStreams.StreamReads` | executor/common_zlib.h:447-457 | blocks from any bit position on inflate to what they stand for, whatever comes behind the last one |
| `DeflateStreams.PackedAt` | executor/common_zlib.h:60-78 | bits packed into bytes from the low end are read in the same order |
| `DeflateStreams.CompressInflates` | executor/common_zlib.h:427-461 | every file of any blocks, packed from the tables of RFC 1951, inflates to exactly what its blocks stand for: all the data with code 0, or the data in front of the first fault with its documented code |
| `DeflateStreams.FixedRoundTrip` | executor/common_zlib.h:282-321 | data that fits, written as one fixed block, inflates to itself |
| `DeflateStreams.LetterFile` | executor/common_zlib.h:282-321 | the letter a as a fixed block is the file 4b 04 00 |
| `DeflateStreams.PuffCompressed` | executor/common_zlib.h:427-461 | the decoder gives the code and the bytes that the blocks of a file stand for |
| `DeflatePrefix.SymbolCut` | executor/common_zlib.h:124-159 | on a prefix of the input the next symbol is the same, or input is missing |
| `DeflatePrefix.CodesCut` | executor/common_zlib.h:219-279 | on a prefix the data of a block gives the same result, or input is missing and less is output |
| `DeflatePrefix.HeaderCut` | executor/common_zlib.h:324-394 | the same for the codes of a dynamic block |
| `DeflatePrefix.InflateCut` | executor/common_zlib.h:427-461 | a prefix of any input gives the same result, or reports missing input with a part of the output |
| `DeflatePrefix.PrefixInflates` | executor/common_zlib.h:427-461 | a stream that inflates does so from a prefix exactly if the prefix holds all of it; any other prefix is reported as missing input |
| `Varint.ZigzagInverse` | executor/executor.cc:1846-1849 | the sign folding is a bijection on 64-bit values |
| `Varint.ZigzagIs` | executor/executor.cc:1846-1849 | 0, -1, 1, -2, 2, ... get the codes 0, 1, 2, 3, 4, ... |
| `Varint.UvarintAt` | executor/executor.cc:1826-1845 | byte k holds bits 7k to 7k + 6, and all bytes but the last have the high bit set |
| `Varint.UvarintReads` | executor/executor.cc:1826-1845 | seven-bit groups are read back from anywhere in the data |
| `Varint.RoundTrip` | executor/executor.cc:1826-1853 | every 64-bit value is read back from its code of at most ten bytes, whatever follows |
| `Varint.Append` | prog/encodingexec.go:373-375 | the loop appends exactly the code of the value |
| `Varint.GoVarint` | prog/decodeexec.go:274-286 | the Go reader and the format agree on every input, rejected ones included |
| `Varint.ReadInput` | executor/executor.cc:1826-1853 | the executor's reader and the format agree on every input: same value, same position, same failures |
| `Framing.ManyRoundTrip` | prog/decodeexec.go:124-176 | items written in a row are read back in order if each is read back whatever follows |
| `StableOrder.SortIsStable` | prog/encodingexec.go:105-113 | the result is ordered and equal keys keep their order |
| `StableOrder.StableSortUnique` | prog/encodingexec.go:105-113 | there is only one stable sort of a list |
| `ExecFormat.VarintValid` | prog/encodingexec.go:373-375 | varints can be read back and never run into what follows |
| `ExecFormat.PackSum` | prog/encodingexec.go:428-433 | fields or-ed into a word occupy different bits |
| `ExecFormat.PackUnpack` | prog/decodeexec.go:194-272 | size, format, bit field and stride come back from the packed word |
| `ExecFormat.ArgRoundTrip` | prog/decodeexec.go:194-272 | every kind of argument is read back, whatever follows |
| `ExecFormat.InstrRoundTrip` | prog/decodeexec.go:124-176 | every instruction is read back, whatever follows |
| `ExecStream.LayoutRun` | prog/decodeexec.go:124-176 | although nothing marks the end of a call, the decoder cuts the stream into exactly the calls that were written |
| `ExecStream.ActionsInOrder` | prog/encodingexec.go:96-114 | grouping by call and sorting each group is one stable sort by call, parameter and value |
| `ExecStream.ExecRoundTrip` | prog/encodingexec.go:89-130 | decoding a serialized program gives back its calls, variables and sorted actions, or a rejection on the variable count |
| `ExecResources.ChecksumsDescend` | prog/encodingexec.go:309-352 | every checksum is written once, those at higher addresses first |
| `ExecResources.CopyinHomes` | prog/encodingexec.go:276-298 | before the call the writer knows the address of every used resource in memory |
| `ExecResources.IndicesAreDense` | prog/encodingexec.go:152-161 | no panic in a well-formed program, and its resources are numbered 0, 1, 2, ... in order |
| `ExecResources.CallsAreGood` | prog/encodingexec.go:132-170 | each call shows its arguments with earlier indices, its memory writes (overlaid fields, units of bit fields and bit fields without bytes included), its checksums, and one copyout per used resource with the next index, its address and size |
| `ExecLayout.FieldInFront` | prog/analysis.go:171-187 | a field lies behind the sizes of the fields in front of it, from the overlay field on again from the beginning |
| `ExecLayout.PathVisited` | prog/analysis.go:155-207 | everything inside the argument at the end of a path is visited at its place |
| `ExecLayout.Located` | prog/analysis.go:155-207 | every visit is the place of an argument in the pointee of a pointer that is visited |
| `ExecLayout.PlaceHasCopyin` | prog/encodingexec.go:276-298 | every field of a pointee that the kernel may read is written before the call, at the address of the pointee plus the sizes in front of the field minus its unit offset, modulo 2^64 |
| `ExecLayout.CopyinHasPlace` | prog/encodingexec.go:276-298 | every copyin that is not a checksum writes such a field at that address |
| `ExecLayout.PlaceHasCopyout` | prog/encodingexec.go:354-371 | a resource in memory that is used later is read back from its place |
| `ExecLayout.ArgStored` | prog/encodingexec.go:276-298 | the copyins of an argument without bit fields, overlays and pointers are the stores that squashing is about |
| `ExecLayout.PointeeMemory` | prog/encodingexec.go:276-298 | over zeroed memory they leave exactly the meaning of the argument |
| `ExecLayout.ProgramMemory` | prog/encodingexec.go:132-170 | in a serialized program the copyins for a pointee stand together and leave exactly its meaning in zeroed memory |
| `ExecResources.ReferenceIndex` | prog/encodingexec.go:383-397 | a reference is written as the index of exactly the resource it names |
| `ExecResources.NumVarsCounts` | prog/decodeexec.go:306-318 | the decoder counts exactly the indices that the writer allocated |
| `ExecResources.MetBelow` | prog/encodingexec.go:383-397 | no argument mentions an index that no earlier call allocated |
| `ExecAccept.AcceptedIff` | prog/decodeexec.go:94-122 | a well-formed program passes the decoder's variable check exactly if it has no resource or its last one is referred to by a written argument |
| `ExecAccept.WrittenIff` | prog/encodingexec.go:276-298 | a call writes a reference exactly if the argument with it is in a register, or in memory, not output and not empty |
| `ExecAccept.AllWrittenIff` | prog/encodingexec.go:276-298 | the same for a whole program |
| `ExecAccept.SeenIff` | prog/validation.go:172-205 | in a validated program, where uses are the inverse of references, the last resource is seen exactly if some user of it is written |
| `ExecAccept.WrittenSuffices` | prog/validation.go:172-205 | a validated program that writes all its references passes the check |
| `ExecAccept.ProgramFits` | prog/encodingexec.go:132-170 | the calls of a program whose own fields fit are valid in the stream |
| `ExecAccept.ProgramRoundTrip` | prog/decodeexec.go:94-122 | serializing and decoding a well-formed program is the identity on calls and stably sorts the actions if the last resource is written, and is rejected if not |
| `ExecAccept.RejectedIff` | prog/decodeexec.go:94-122 | a validated program is rejected exactly if it has resources and nobody who uses the last one is written |
| `ExecAccept.ValidatedRoundTrip` | prog/decodeexec.go:94-122 | a validated program that writes all its references comes back, whatever the actions |
| `ExecAccept.RejectedProgram` | prog/decodeexec.go:94-122 | a validated program of two calls that is serialized and then rejected |
| `ExecCode.ExecDecoder.Word` | prog/decodeexec.go:274-286 | reads the next word or fails exactly when there is none |
| `ExecCode.ExecDecoder.Blob` | prog/decodeexec.go:288-298 | fails exactly when the data is too short |
| `ExecCode.ExecDecoder.ReadArg` | prog/decodeexec.go:194-272 | reads what the format prescribes and notes the variable of a result argument |
| `ExecCode.ExecDecoder.CallArgs` | prog/decodeexec.go:152-172 | reads all arguments of a call, and only those allowed in a call |
| `ExecCode.ExecDecoder.CommitCall` | prog/decodeexec.go:306-318 | the pending call is appended and the variable count raised |
| `ExecCode.ExecDecoder.ParseOne` | prog/decodeexec.go:124-176 | one turn of the loop is one step of the decoder on values |
| `ExecCode.DeserializeExec` | prog/decodeexec.go:94-122 | the decoder computes the decoding function on every input and terminates |
| `ExecWriter.ExecContext.Write` | prog/encodingexec.go:373-375 | appends the code of one word |
| `ExecWriter.ExecContext.WriteConstArg` | prog/encodingexec.go:428-433 | appends the format of a constant |
| `ExecWriter.ExecContext.WriteResult` | prog/encodingexec.go:383-397 | a reference is written with the index noted for its resource and stops where there is none; other result arguments are constants |
| `ExecWriter.ExecContext.WritePointer` | prog/encodingexec.go:399-408 | appends the address, and stops exactly for widths other than 4 and 8 |
| `ExecWriter.ExecContext.WriteData` | prog/encodingexec.go:409-420 | appends length, flag and bytes, and stops exactly for empty data |
| `ExecWriter.ExecContext.WriteArg` | prog/encodingexec.go:377-426 | appends the format of the lowered argument, or stops where the source panics |
| `ExecWriter.ExecContext.WriteCopyin` | prog/encodingexec.go:276-298 | the loop over the traversal writes exactly the memory writes and notes exactly the addresses |
| `ExecWriter.ExecContext.WriteChecksums` | prog/encodingexec.go:309-352 | the backward loop over the sorted fields writes the checksums in descending order of address, with the addresses noted while visiting the arguments |
| `ExecWriter.ExecContext.WriteCsum` | prog/encodingexec.go:320-351 | one checksum field with all its chunks |
| `ExecWriter.ExecContext.WriteCopyout` | prog/encodingexec.go:354-371 | the loop writes one copyout per used resource and allocates its index |
| `ExecWriter.ExecContext.WriteProps` | prog/encodingexec.go:258-274 | properties are written only if they differ from the default |
| `ExecWriter.ExecContext.WriteCall` | prog/encodingexec.go:150-166 | the call instruction with the index of its return value |
| `ExecWriter.ExecContext.SerializeCall` | prog/encodingexec.go:132-170 | appends exactly the instructions of the call and updates the bookkeeping as the function on values does |
| `ExecWriter.ExecContext.WriteActions` | prog/encodingexec.go:172-179 | appends the instructions of the actions |
| `ExecWriter.ExecContext.WriteCalls` | prog/encodingexec.go:115-122 | appends all calls with the actions in front of each, or stops at the first panic |
| `ExecWriter.Bucket` | prog/encodingexec.go:96-103 | fails exactly if some action is out of range, else groups the actions in their order |
| `ExecWriter.SortBuckets` | prog/encodingexec.go:104-113 | sorts each group, in whatever order the map is visited |
| `ExecWriter.LaidIsLayout` | prog/encodingexec.go:115-124 | what has been written is a prefix of the stream that is decoded |
| `ExecWriter.SerializeForExec` | prog/encodingexec.go:89-130 | the bytes are the serialized program; each error exactly when its condition holds |
| `ExecScan.CopyoutCallResults` | executor/executor.cc:1371-1401 | the loop records what the scan on values records and fails exactly when it fails, sizes that copyout cannot read included |
| `ExecScan.ScanRecords` | executor/executor.cc:1371-1401 | the scan records the copyouts in front of any other instruction and stops there, or fails exactly on a size other than 1, 2, 4 and 8 |
| `ExecScan.CompletionRecords` | executor/executor.cc:1083-1101 | in a serialized program the scan after call k records exactly the results of call k, whatever follows it, or fails exactly on an index or a size |
| `ExecScan.IndicesFit` | executor/executor.cc:1371-1386 | within the writer's limit no index overflows the result table |
| `ExecRun.Reader.constructor` | executor/executor.cc:951-990 | reading starts at the front with an empty result table and no call |
| `ExecRun.Reader.ReadResult` | executor/executor.cc:1809-1824 | fails exactly for an index outside the table; an empty slot gives the default; a recorded v gives v + add, or with a divisor q + add where v = q * div + r and r < div, modulo 2^64 |
| `ExecRun.YieldIsPromised` | executor/executor.cc:1816-1822 | that law determines the value |
| `ExecRun.Reader.ReadArg` | executor/executor.cc:1748-1774 | fails exactly for arguments that the executor does not take in this place; else it is behind the argument and has its value |
| `ExecRun.Reader.ConstArg` | executor/executor.cc:1795-1807 | a constant for this process: the value plus stride times process number, swapped if it is big-endian and goes to a register |
| `ExecRun.Reader.Address` | executor/executor.cc:1762-1765 | an offset is turned back into the address that was written |
| `ExecRun.Reader.ReadCall` | executor/executor.cc:1108-1123 | reads number, index and at most nine arguments with their values, and schedules the call with the position behind them |
| `ExecRun.Reader.ReadCopyin` | executor/executor.cc:994-1036 | reads the address and the value to store there |
| `ExecRun.Reader.Step` | executor/executor.cc:991-1123 | one turn of the loop reads exactly one instruction, ends exactly at the end marker and fails exactly where the executor does |
| `ExecRun.Reader.Next` | executor/executor.cc:991-1123 | after n instructions of a serialized program the loop is at instruction n, and every call before it was scheduled with its own index and the position of its own copyouts |
| `ExecRun.Reader.Complete` | executor/executor.cc:1343-1349 | completing any scheduled call, at any time, records its return value and exactly its own copyouts; a call that returned -1 changes nothing |
| `ExecRun.CallPlace` | executor/executor.cc:1111-1123 | the position behind the arguments of call k is that of its copyouts |
| `ExecRun.CopyinAt` | prog/encodingexec.go:132-170 | a copyin with k calls before it is one of call k |
| `ExecValues.RecordGives` | executor/executor.cc:1371-1401 | recording the copyouts of a call gives each of its resources in memory its own value and changes no other slot |
| `ExecValues.CallGives` | executor/executor.cc:1343-1401 | a completion gives every resource of the call its value, or none of them if the call failed, and leaves the resources of other calls alone |
| `ExecValues.FailureKeeps` | executor/executor.cc:1348-1349 | a failed completion leaves every slot and the value of every resource as it was |
| `ExecValues.NeverMade` | executor/executor.cc:1348-1349 | if all completed calls that make a resource failed, references to it read their default |
| `ExecValues.CopyoutsSized` | executor/executor.cc:1727-1746 | the copyouts of a call can be read exactly if all its used resources in memory have 1, 2, 4 or 8 bytes |
| `ExecValues.TableIsLatest` | executor/executor.cc:1343-1401 | after any completions in any order, failed ones included, slot i holds the value last left for the i-th resource of the program, or is empty |
| `ExecValues.ArgMeans` | executor/executor.cc:1748-1824 | a written argument reads what it stands for: a constant of this process, an address, or by the law of `read_result` the value last recorded for exactly the resource it names |
| `ExecValues.WritesField` | prog/encodingexec.go:276-298 | what is written is a field of a pointee of the call, at the place that its path gives |
| `ExecValues.CallMeans` | executor/executor.cc:1113-1118 | the arguments of a call read exactly the values of the resources they name |
| `ExecValues.CopyinMeans` | executor/executor.cc:995-1021 | every copyin stores, at its address, the value of exactly the resource that the argument there names |
| `ExecValues.InstrMeans` | executor/executor.cc:991-1123 | what instruction n reads from the table is what the program means there |
| `ExecValues.Next` | executor/executor.cc:991-1123 | reading the stream as the executor does, every result argument yields the value recorded for exactly the resource it names |
| `ExecValues.Finish` | executor/executor.cc:1343-1401 | a completion fails exactly if the call succeeded and left a resource of a size that cannot be read; else it adds exactly itself to the table |
| `ExecValues.LayoutEnds` | prog/encodingexec.go:115-124 | the end marker stands at the end of a program and nowhere else |
| `ExecValues.Run` | executor/executor.cc:951-1201 | for every order of reading and completing: the run goes on up to the first event that the executor does not take, every value read is that of exactly the resource named as of the completions before it, and the end is reached exactly if all instructions are read |
| `PageTable.TopIndex` | executor/common_kvm_amd64_syzos.h:733-740 | the index of the top table is the top nine bits of the page number |
| `PageTable.Shifted` | executor/common_kvm_amd64_syzos.h:733-769 | shifting and masking an address gives the table index of its page, for each level |
| `PageTable.EntryParts` | executor/common_kvm_amd64_syzos.h:741-768 | an entry keeps its frame and its flags apart |
| `PageTable.ForeignWrites` | executor/common_kvm_amd64_syzos.h:709-730 | writes outside the tables change no translation |
| `PageTable.InstallKeepsWalks` | executor/common_kvm_amd64_syzos.h:741-760 | hanging in an empty table changes no translation |
| `PageTable.LeafWrite` | executor/common_kvm_amd64_syzos.h:762-769 | writing a page's entry changes the translation of that page under that root and no other |
| `PageTable.RootsApart` | executor/kvm.h:101-131 | every pair of CPU and VM has a root of its own, outside the heap |
| `PageTable.SyzosDisjointIff` | executor/common_kvm_amd64.h:211-242 | the regions of the guest with their extents are disjoint exactly if the unused memory ends below the interrupt controller |
| `PageTable.Guest.constructor` | executor/common_kvm_amd64.h:211-242 | before the first VM there are no tables, and the invariant holds |
| `PageTable.Guest.UnusedMemory` | executor/common_kvm_amd64_syzos.h:698-706 | the search gives the size of the first region at the heap's address, else zero |
| `PageTable.Guest.AllocPage` | executor/common_kvm_amd64_syzos.h:709-730 | a page that is no table yet, zeroed, with nothing else touched; none exactly when the heap is used up |
| `PageTable.Guest.AddTable` | executor/common_kvm_amd64_syzos.h:741-744 | a new table keeps all translations |
| `PageTable.Guest.EnsureTable` | executor/common_kvm_amd64_syzos.h:741-744 | the table behind a slot, allocated if need be, with all translations kept |
| `PageTable.Guest.UpperTables` | executor/common_kvm_amd64_syzos.h:735-760 | leads to the last table of the address without changing a translation |
| `PageTable.Guest.SetLeaf` | executor/common_kvm_amd64_syzos.h:762-769 | the first mapping wins, under this root and for this page only |
| `PageTable.Guest.MapPage` | executor/common_kvm_amd64_syzos.h:733-769 | afterwards every page under every root translates as before, except this page if it was unmapped |
| `PageTable.Guest.GpaToPa` | executor/common_kvm_amd64_syzos.h:1374-1398 | the walk ends in the frame of the mapping plus the offset, or 0 if there is none |
| `PageTable.Guest.NewRoot` | executor/common_kvm_amd64_syzos.h:1261-1263 | a zeroed root maps nothing, and other roots keep their translations |
| `PageTable.Guest.MapRegion` | executor/common_kvm_amd64_syzos.h:771-823 | after the region every page translates as the plan for the regions so far says |
| `PageTable.Guest.Setup` | executor/common_kvm_amd64_syzos.h:771-823 | after all regions every page under every root translates as planned |
| `PageTable.Guest.CreateVm` | executor/common_kvm_amd64_syzos.h:1261-1265 | a new VM translates exactly as planned and leaves the other VMs alone; every entry has the flags of its vendor; over the guest's own regions 0x5_0000 leads to the VM's code page, 0x6_0000 to its stack page, every other backed address to itself and the rest nowhere |
| `PageTable.Guest.CopyWords` | executor/common_kvm_amd64_syzos.h:1415-1416 | the words lie where they were copied to, and nothing else changed |
| `PageTable.Guest.LoadCode` | executor/common_kvm_amd64_syzos.h:1400-1416 | the instructions go where the VM's address 0x5_0000 leads: the VM fetches exactly them from there on, no translation changes, and nothing outside its code page does; refused exactly if the address leads nowhere |
| `PageTable.PlanPagesAt` | executor/common_kvm_amd64_syzos.h:805-821 | the plan of one region covers its pages, each with its own backing, and no others |
| `PageTable.PlanMiss` | executor/common_kvm_amd64_syzos.h:771-823 | pages outside all regions, and pages of regions without host memory, stay unmapped |
| `PageTable.PlanHit` | executor/common_kvm_amd64_syzos.h:771-823 | over disjoint regions a page gets the backing of its own region |
| `PageTable.ReachesBacking` | executor/common_kvm_amd64_syzos.h:1374-1398 | after set-up an address reaches its region's backing plus its offset, or 0 without host memory |
| `PageTable.SyzosLeads` | executor/common_kvm_amd64_syzos.h:805-821 | set-up over the guest's regions leads every address where it belongs: code page, stack page, itself, or nowhere |
| `PageTable.OwnFrames` | executor/kvm.h:85-131 | the code page of a VM lies right before its root and its stack page right before its code page |
| `PageTable.FramesApart` | executor/kvm.h:85-131 | root, code and stack pages of different VMs are all distinct |
| `PageTable.HidesGuest` | executor/common_kvm_amd64_syzos.h:805-821 | no address of a nested VM leads to the code or stack page of the guest itself |
| `PageTable.LeadsApart` | executor/common_kvm_amd64_syzos.h:805-821 | two addresses of a VM lead to the same place exactly if both lead nowhere or one of them is the code or stack page and the other names that place |
| `PageTable.PlanFlagged` | executor/common_kvm_amd64_syzos.h:776-784 | every planned entry has the flags of the vendor |
| `PageTable.CodeWrite` | executor/common_kvm_amd64_syzos.h:1415-1416 | writing the code of a VM changes no translation of any VM |
| `Runner.AllBitsCovered` | executor/executor_runner.h:136-137 | the mask test on avoided ids holds if every held id is avoided |
| `Runner.ReissuedAfter` | executor/executor_runner.h:56-79 | over every run, an id given up with n ids in use is issued again exactly k - n reallocations later |
| `Runner.QueueLength` | executor/executor_runner.h:46-86 | the queue holds exactly the ids that are not in use |
| `Runner.ProcIDPool.constructor` | executor/executor_runner.h:46-56 | ids 0 to max(n, 10) - 1 are free, in order |
| `Runner.ProcIDPool.Alloc` | executor/executor_runner.h:56-79 | issues the front id; queue, held set and mask stay a partition |
| `Runner.ProcIDPool.Realloc` | executor/executor_runner.h:56-79 | the old id goes to the back, the front one is issued |
| `Runner.Proc.constructor` | executor/executor_runner.h:114-130 | a started process with an id of its own and no request |
| `Runner.Proc.ChangeState` | executor/executor_runner.h:262-269 | the counter of handshakes changes by exactly this process's share |
| `Runner.Proc.HandleCompletion` | executor/executor_runner.h:446-480 | the pending request is answered once and the process is idle |
| `Runner.Proc.Restart` | executor/executor_runner.h:271-313 | an executed request is answered, in exchange for a new id from the front of the queue, unless the subprocess failed and the request does not ask for errors; a handshaken one is answered exactly if it asks for errors; any other is handshaken again with the same id; failure only after 20 attempts |
| `Runner.Proc.GiveUp` | executor/executor_runner.h:294-310 | the request is answered, and the id changes exactly if the request was executed |
| `Runner.Proc.Start` | executor/executor_runner.h:324-367 | a pending request is handshaken again, the id stays |
| `Runner.Proc.Handshake` | executor/executor_runner.h:369-394 | the subprocess is set up for the request; if the write fails, the request is answered exactly if it asks for errors |
| `Runner.Proc.ExecuteMsg` | executor/executor_runner.h:396-444 | executes only a request that the subprocess was set up for; if the write fails, the process is restarted |
| `Runner.Proc.ReadResponse` | executor/executor_runner.h:482-510 | a reply while executing answers the request, a reply to the handshake lets it be executed; a reply in a wrong state or an end of file changes nothing |
| `Runner.Proc.Ready` | executor/executor_runner.h:166-201 | for every event exactly what becomes of the process, its request and its id |
| `Runner.Proc.AcceptsIff` | executor/executor_runner.h:132-139 | a free process accepts a request unless the request avoids its id and not all ids in use |
| `Runner.Proc.Refresh` | executor/executor_runner.h:144-151 | an idle subprocess is replaced exactly if it is stale; the id stays and nothing is lost |
| `Runner.Proc.Offer` | executor/executor_runner.h:132-158 | the request is taken exactly by a free process whose id is not avoided, and executed at once exactly if the subprocess is idle and not stale, else after a handshake; otherwise nothing changes |
| `Runner.BalancedStep` | executor/executor_runner.h:611-660 | a move of one process keeps the books of all: requests, counter and ids |
| `Runner.ShakingBounds` | executor/executor_runner.h:657-659 | the counter is between 0 and the number of processes |
| `Runner.RequestRunner.constructor` | executor/executor_runner.h:559-573 | the books are balanced at the start |
| `Runner.RequestRunner.OfferTo` | executor/executor_runner.h:804-806 | an offered request is taken with the books kept, or nothing changes |
| `Runner.RequestRunner.ReadyAt` | executor/executor_runner.h:645-647 | an event changes this process as specified, adds its answers at the end, and leaves the others alone |
| `Runner.RequestRunner.SomeAccepts` | executor/executor_runner.h:132-139 | whatever the avoid mask, some process accepts once all are free |
| `Runner.RequestRunner.Handle` | executor/executor_runner.h:791-811 | the first process that accepts gets the request; it is queued exactly if none does or a leak check is due |
| `Runner.RequestRunner.OfferFront` | executor/executor_runner.h:647-654 | the front request leaves the queue exactly if the process is free and the request does not avoid its id, or avoids all ids in use |
| `Runner.RequestRunner.Turn` | executor/executor_runner.h:645-655 | the process handles its event and is then offered the front request, if there is one and no leak check is due; no other process changes |
| `Runner.NextTurn` | executor/executor_runner.h:645-655 | turns one after the other: each finds the queue that the turns before it left |
| `Runner.RequestRunner.Receive` | executor/executor_runner.h:622-635 | one message adds at most one request; processes that have a request are left alone |
| `Runner.RequestRunner.Begin` | executor/executor_runner.h:622-643 | the counter of requests starts again exactly if the leak check is due and all processes are idle |
| `Runner.RequestRunner.AllTurns` | executor/executor_runner.h:645-655 | every process has its turn, in order; requests leave the queue from the front, one for each process that takes one |
| `Runner.AllDue` | executor/executor_runner.h:482-510 | every request whose process was executing and replied is answered once more than before |
| `Runner.QuietOnes` | executor/executor_runner.h:166-201 | a process that nothing happened to, and that had a request or was offered none, is as before |
| `Runner.RequestRunner.Loop` | executor/executor_runner.h:611-660 | after every round each request ever received is queued, pending at one process or answered, exactly once; replies are answered, quiet processes unchanged, and the queue shorter by exactly the requests that a process took in its turn; every request is executed by a subprocess set up for its type, environment and sandbox; the "bad restarting" failure cannot happen |
| `Threads.StepKeeps` | executor/executor.cc:1549-1564 | a worker's step keeps the protocol and never undoes an event that the main thread waits for |
| `Threads.DoneNotReady` | executor/common_linux.h:25-70 | done implies not ready |
| `Threads.DoneHasRun` | executor/executor.cc:1549-1564 | a call whose done event is set has been executed |
| `Threads.Executor.Others` | executor/executor.cc:1549-1564 | any number of worker steps keep the protocol; the "event already set" exit is unreachable for workers |
| `Threads.Executor.WriteOutput` | executor/executor.cc:1453-1467 | fails exactly if the output is full; marks the call as finished or not |
| `Threads.Executor.Retire` | executor/executor.cc:1351-1369 | the thread is free, the counter exact, and not negative |
| `Threads.Executor.HandleCompletion` | executor/executor.cc:1343-1369 | the "bad thread state" exit is unreachable and the call gets its output |
| `Threads.Executor.Create` | executor/executor.cc:1522-1539 | a new thread is idle |
| `Threads.Executor.Spare` | executor/executor.cc:1205-1218 | finds an idle thread, or all 32 are executing |
| `Threads.Executor.Disarm` | executor/executor.cc:1219-1226 | the "bad thread state" exit is unreachable |
| `Threads.Executor.Arm` | executor/executor.cc:1227-1245 | the call is entered while workers move |
| `Threads.Executor.Fire` | executor/common_linux.h:25-70 | the "event already set" exit is unreachable |
| `Threads.Executor.Launch` | executor/executor.cc:1219-1249 | the call is under way and counted |
| `Threads.Executor.Schedule` | executor/executor.cc:1203-1249 | every scheduled call is under way or has one output |
| `Threads.Executor.Sweep` | executor/executor.cc:1162-1169 | calls that were done are completed, and no output is lost |
| `Threads.Executor.FinishWorker` | executor/executor.cc:1549-1564 | a worker that is given time gets its call done, and only workers move |
| `Threads.Executor.TimedWait` | executor/executor.cc:1134-1135 | true exactly if the event is set; a call that is done in time is not missed |
| `Threads.Executor.WaitForRunning` | executor/executor.cc:935-948 | waiting completes calls and keeps the books; with time enough nothing is under way afterwards |
| `Threads.Executor.Await` | executor/executor.cc:1127-1142 | a call that is done in time has its output; one that is not stays under way |
| `Threads.Executor.Direct` | executor/executor.cc:1143-1151 | without threads the call is executed and its output is the next |
| `Threads.Executor.RunCall` | executor/executor.cc:1104-1153 | one more call is under way or has its output; a call that is waited for and done in time has it |
| `Threads.Executor.WriteUnfinished` | executor/executor.cc:1170-1180 | calls that never finished get their one output, marked as unfinished; nothing is written if nothing is under way |
| `Threads.Executor.Instruction` | executor/executor.cc:991-1153 | after a config action that was given time enough all calls before it are finished |
| `Threads.Executor.ExecuteOne` | executor/executor.cc:951-1201 | in the end every call of the program has exactly one output, finished ones first; a call that is waited for and done in time has it before the next instruction; without threads the outputs are in program order; otherwise all 32 threads are stuck or there are more than 64 calls |
| `MemAlloc.FirstFitIs` | prog/alloc.go:68-83 | the block found is free, aligned and in range, and no earlier aligned block at or after the cursor fits |
| `MemAlloc.EndIs` | prog/alloc.go:66-68 | the limit of the search as 64-bit arithmetic gives it |
| `MemAlloc.UnitsBound` | prog/alloc.go:58-65 | rounding up to granules wraps around to 0 exactly within 63 bytes of 2^64 |
| `MemAlloc.BlockExtent` | prog/alloc.go:48-54 | noting a block goes through exactly its granules, wrap-around included |
| `MemAlloc.InsideIff` | prog/alloc.go:66-83 | the block found lies inside the memory exactly if it is not larger than the memory |
| `MemAlloc.CursorBehind` | prog/alloc.go:80 | the cursor moves to the first aligned place behind the block |
| `MemAlloc.BlockBytes` | prog/alloc.go:47-53 | the granules of a block are exactly those that its bytes lie in |
| `MemAlloc.WildFit` | prog/alloc.go:66-83 | a block larger than the memory always finds a place, so it never leads to bankruptcy |
| `MemAlloc.TooLarge` | prog/alloc.go:57-86 | an empty memory of 4096 granules grants 5000 of them at 0 |
| `MemAlloc.AlignedAddress` | prog/alloc.go:57-86 | a multiple of the alignment in granules is a multiple in bytes, for every power of two |
| `MemAlloc.MemAlloc.constructor` | prog/alloc.go:33-46 | nothing is taken |
| `MemAlloc.MemAlloc.Get` | prog/alloc.go:116-122 | the bit is set exactly for taken granules |
| `MemAlloc.MemAlloc.Set` | prog/alloc.go:108-114 | takes this granule and no other, allocating the row if need be |
| `MemAlloc.MemAlloc.NoteAlloc` | prog/alloc.go:48-54 | for every address and size: takes exactly the granules that 64-bit arithmetic gives; panics exactly if they reach behind the bitmap, and then has taken those before |
| `MemAlloc.MemAlloc.Bankruptcy` | prog/alloc.go:88-98 | frees every granule below the memory size and forgets all cursors |
| `MemAlloc.MemAlloc.Free` | prog/alloc.go:70-76 | true exactly if all granules are free; a panic exactly if all of the bitmap that it asks about is free and it asks about more |
| `MemAlloc.MemAlloc.Search` | prog/alloc.go:68-83 | the loop finds the first fit, with a limit that wraps around for blocks larger than the memory; with step 0 it looks at one place for ever |
| `MemAlloc.MemAlloc.Place` | prog/alloc.go:77-81 | takes the block and moves this alignment's cursor behind it |
| `MemAlloc.MemAlloc.AllocAligned` | prog/alloc.go:66-86 | the first aligned fit at or after the cursor, or a panic if that lies behind the bitmap; without a fit, bankruptcy and the block at 0, so it recurses at most once |
| `MemAlloc.MemAlloc.AllocUnaligned` | prog/alloc.go:66-86 | with an alignment that wrapped around to 0: the block at 0 is noted before the division by zero, or the search never ends |
| `MemAlloc.MemAlloc.Alloc` | prog/alloc.go:57-86 | for every 64-bit size and alignment: which block is granted and what is then in use, when it panics and when it hangs |
| `CoverFilter.KeyUnique` | executor/cover_filter.h:86-105 | chunk, byte and bit together stand for exactly one group of eight program counters |
| `CoverFilter.RowBound` | executor/cover_filter.h:65-105 | the check accepts exactly 2048 rows, of which exactly the first 2047 lie wholly inside the table |
| `CoverFilter.FullIff` | executor/cover_filter.h:107-123 | no slot can be had exactly if four other regions are there |
| `CoverFilter.InsertAll` | executor/cover_filter.h:41-45 | inserting a list succeeds exactly if its regions and rows fit and nothing falls behind the table; then the filter holds exactly that list; otherwise the first insertion that fails is the first that does not fit |
| `CoverFilter.Lookup` | executor/cover_filter.h:41-51 | after inserting a list, a program counter is contained exactly if one of its group is in the list; up to four regions and 2047 rows always work |
| `CoverFilter.OutsideTheTable` | executor/cover_filter.h:96-101 | a run of 2048 insertions into an empty filter that ends behind the table |
| `CoverFilter.SetOne` | executor/cover_filter.h:41-45 | setting a bit adds exactly one group to the set shown |
| `CoverFilter.RegionKeeps` | executor/cover_filter.h:107-123 | taking a free region slot keeps the set shown |
| `CoverFilter.RowKeeps` | executor/cover_filter.h:91-99 | a new row keeps the set shown |
| `CoverFilter.Filter.constructor` | executor/cover_filter.h:29-33 | the filter holds the empty list |
| `CoverFilter.Filter.FindRegion` | executor/cover_filter.h:107-123 | the first slot that holds the region, if any |
| `CoverFilter.Filter.AddRegion` | executor/cover_filter.h:107-123 | fails exactly if four other regions are there; else this region and no other is added, and no chunk gets a row |
| `CoverFilter.Filter.NewRow` | executor/cover_filter.h:91-101 | fails exactly at 2048 rows, else the chunk gets a row of its own |
| `CoverFilter.Filter.AddRow` | executor/cover_filter.h:86-105 | the row of the chunk, made if need be, with its region and no other added; fails exactly if there is no room |
| `CoverFilter.Filter.SetBit` | executor/cover_filter.h:41-45 | adds the group of the program counter and nothing else |
| `CoverFilter.Filter.Insert` | executor/cover_filter.h:41-45 | overflow exactly without room; out of bounds exactly in the last part of row 2048; else regions, rows and the set grow by exactly this one |
| `CoverFilter.Filter.Contains` | executor/cover_filter.h:47-51 | true exactly if a program counter of the same group was inserted; out of bounds exactly in the last part of row 2048 |
| `ConfigUndo.StrLen` | executor/common_ext.h:55-58 | the length of the C string |
| `ConfigUndo.TrimInPlace` | executor/common_ext.h:55-67 | the buffer holds the trimmed string, for every NUL-terminated buffer |
| `ConfigUndo.TrimTwice` | executor/common_ext.h:55-67 | trimming again changes nothing |
| `ConfigUndo.TrimIs` | executor/common_ext.h:50-67 | trimming takes exactly the white space off both ends |
| `ConfigUndo.IndexOf` | executor/common_ext.h:113-120 | the first position of the value, or none if it is not listed |
| `ConfigUndo.ValueIndex` | executor/common_ext.h:113-120 | the loop finds that position |
| `ConfigUndo.Select` | executor/common_ext.h:122-176 | the value to write: the other one when flipping, else the one asked for, or none |
| `ConfigUndo.SelectedInRange` | executor/common_ext.h:122-176 | whatever value is selected is one of the entry's values |
| `ConfigUndo.FlipNext` | executor/common_ext.h:146-158 | flipping goes to the next listed value, and from the last one to the first |
| `ConfigUndo.FlipFrom` | executor/common_ext.h:146-158 | from a value that is not listed it goes to the value asked for, or else to the first |
| `ConfigUndo.FirstOnSnoc` | executor/common_ext.h:136-145 | a later save does not change which save of a path is the first |
| `ConfigUndo.UndoIs` | executor/common_ext.h:178-195 | undoing in reverse order gives each path the value saved first and leaves other paths alone, even if parameters share a path |
| `ConfigUndo.Config.constructor` | executor/common_ext.h:45-48 | nothing is saved |
| `ConfigUndo.Config.OtherWrite` | executor/common_ext.h:122-176 | writes by anyone else keep the log valid |
| `ConfigUndo.Config.Readback` | executor/common_ext.h:95-111 | what is read is the trimmed first part of the file |
| `ConfigUndo.Config.Save` | executor/common_ext.h:136-145 | the value before the action is saved once per parameter; the first per path is remembered |
| `ConfigUndo.Config.Apply` | executor/common_ext.h:122-176 | writes only a listed value to the entry's own path, selected as specified, and saves before it writes |
| `ConfigUndo.Config.Restore` | executor/common_ext.h:178-195 | every path touched by a restorable action has the value it showed before the first one, other paths are untouched, the log is empty |
| `ConfigUndo.Config.Session` | executor/common_ext.h:122-195 | after any actions and the restore: where no action was told to leave its change behind, every path that was touched shows what it showed at first, and every other path was never written |
| `Checksum.FoldLate` | executor/common.h:461-475 | folding once at the end is ones' complement addition of every word |
| `Checksum.AddWords` | executor/common.h:461-475 | the loop adds the words, wrapping at 32 bits |
| `Checksum.Fold` | executor/common.h:473-474 | the folding loop ends with the ones' complement value |
| `Checksum.Update` | executor/common.h:461-475 | the accumulator is the folded sum, wrap-around included |
| `Checksum.NoWrap` | executor/common.h:461-475 | up to 131072 bytes the update is the sum of section 1 of RFC 1071 |
| `Checksum.RightIff` | executor/common.h:461-475 | for every length: the update is right for all accumulators and all data of that length exactly if it is at most 131072 |
| `Checksum.PadIsWrong` | executor/common.h:461-475 | beyond it, ones followed by any number of zeros give a wrong sum |
| `Checksum.BoundIsExact` | executor/common.h:461-475 | the shortest of them wraps around 32 bits |
| `Checksum.Pieces` | executor/common.h:461-475 | updating over even-length pieces equals updating over their concatenation |
| `Checksum.AlignedAgrees` | executor/executor.cc:1043-1068 | chunks that start at words are summed as their concatenation |
| `Checksum.FilledAgrees` | executor/executor.cc:1043-1068 | chunks of any length are summed as if each was filled up to whole words |
| `Checksum.ConcatenateIff` | executor/executor.cc:1043-1068 | for given lengths: the sum is that of the concatenation for all contents exactly if every chunk with bytes starts at a word |
| `Checksum.Digest` | executor/executor.cc:1037-1070 | for all chunks the digest is the complement of the accumulator, wrap-around included; up to 131072 bytes each it is that of the filled chunks, and of the concatenation if they start at words |
| `Checksum.DigestChecks` | executor/common.h:477-480 | with the digest stored in a zero field at an even offset the whole sums to 0xffff |
| `Checksum.SwapOrder16` | prog/checksum.go:133-141 | a swapped word lies in memory in network byte order |
| `Checksum.SwapOrder32` | prog/checksum.go:143-151 | a swapped double word lies in memory in network byte order |
| `Checksum.PseudoHeader4` | prog/checksum.go:133-141 | the chunks are the pseudo header of section 3.1 of RFC 9293 in front of the packet, with the length cut to 16 bits |
| `Checksum.PseudoHeader6` | prog/checksum.go:143-151 | the chunks are the pseudo header of section 8.1 of RFC 8200 in front of the packet, with the length cut to 32 bits |
| `Async.Scan` | prog/collide.go:32-45 | whether the call makes something that is needed soon, and what it consumes |
| `Async.SpacedSeparates` | prog/collide.go:19-23 | if no asynchronous call makes what is needed soon, a synchronous call stands between every asynchronous producer and its consumers |
| `Async.AssignAsync` | prog/collide.go:24-60 | for every outcome of the coins exactly the allowed calls with heads are asynchronous; never the last, at most 24, and producers are separated from consumers |
| `Clone.RelabelProgLeaves` | prog/clone.go:31-51 | a copy has resource objects of its own, in the same order |
| `Clone.Cloner.CloneLeaf` | prog/clone.go:57-112 | one resource object is copied with its reference renamed and entered as a use; fails where the source would dereference nil |
| `Clone.Cloner.CloneArg` | prog/clone.go:57-112 | the tree keeps its shape and its resource objects are copied in order |
| `Clone.Cloner.CloneCall` | prog/clone.go:39-51 | the call keeps its shape and its resource objects are copied in order |
| `Clone.Cloner.CloneCalls` | prog/clone.go:31-37 | all calls are copied in order |
| `Clone.CopyIsIsomorphic` | prog/clone.go:14-29 | with backward references the copy has the same values, references and uses under the new names, and the original is untouched |
| `Clone.Duplicate` | prog/clone.go:57-112 | without a map, duplicates refer to the originals' resources and are used by nobody |
| `Collide.CloneIsOk` | prog/clone.go:14-29 | the copy is well-formed: own resources, backward references, uses exactly the inverse of references |
| `Collide.CloneSelf` | prog/clone.go:14-29 | a copied call refers to itself exactly if the original does |
| `Collide.DuplicateGraph` | prog/collide.go:83-99 | duplicates keep uses the inverse of references and bring no further resource into use |
| `Collide.DuplicatedProgram` | prog/collide.go:83-99 | a program followed by its duplicates is well-formed |
| `Collide.DuplicateBackward` | prog/collide.go:118-129 | a duplicate in front of its original keeps references backward exactly if the call does not refer to itself |
| `Collide.IndicesCount` | prog/encodingexec.go:354-371 | one index per resource in use |
| `CollideExec.ProducedAreInUse` | prog/encodingexec.go:354-371 | the resources that the serializer numbers are exactly the resources in use, in order, for the same program as a tree and as a heap |
| `CollideExec.IndicesAreProduced` | prog/encodingexec.go:354-371 | the number of indices is the same in both views |
| `CollideExec.WellFormedToo` | prog/encodingexec.go:132-170 | a program that is well-formed as a heap, with references between calls, is well-formed for the serializer |
| `CollideExec.SerializedIndices` | prog/encodingexec.go:132-170 | serializing allocates exactly that many indices, so doubling and duplicating need no more than the original |
| `Collide.CloneProg` | prog/clone.go:14-29 | the copied program mirrors the original, which stays as it is, and needs as many indices |
| `Collide.MarkAsync` | prog/collide.go:88-95 | exactly the first 24 calls become asynchronous |
| `Collide.DoubleExec` | prog/collide.go:83-99 | fails exactly if the result would be too long; else a copy followed by twins of its calls, well-formed, nobody uses a twin, same number of indices, original untouched |
| `Collide.Interleave` | prog/collide.go:118-129 | each chosen call stands behind its asynchronous twin; resources and uses stay in order, nobody uses a twin, the same indices are needed, and references stay backward exactly if no chosen call refers to itself |
| `Collide.DupCall` | prog/collide.go:103-131 | for every choice of positions: an error exactly for programs too small or full, a panic exactly for programs over the limit; else within the limit, original untouched, nobody uses a twin, same number of indices, and well-formed exactly if no chosen call refers to itself |
| `Collide.InterleavedAt` | prog/collide.go:122-130 | each call stands behind the calls before it and the duplicates up to it, its own asynchronous duplicate directly in front of it |
| `Collide.InsertedIs` | prog/collide.go:108-116 | a third of the calls is duplicated, but at least one, and never more than fit |
| `Collide.SelfIsOk` | prog/collide.go:118-129 | a well-formed call, one of whose arguments refers to a resource that the call leaves in memory |
| `Collide.ForwardReference` | prog/collide.go:103-131 | a well-formed program whose duplicate refers forward |
| `Squash.LeInverse` | prog/any.go:187-215 | bytes come back from their little-endian value |
| `Squash.FromLeInverse` | prog/any.go:187-215 | a value that fits comes back from its little-endian bytes |
| `Squash.SwapStores` | executor/executor.cc:1663-1668 | a swapped value stored in host order is the value in reverse byte order |
| `Squash.BigEndianReads` | executor/executor.cc:1663-1668 | what is stored in big-endian format reads back as the value, most significant byte first |
| `Squash.NativeBytes` | prog/any.go:196-200 | the loop gives the low bytes of the value |
| `Squash.DigitsSuffice` | prog/any.go:201-206 | every 64-bit value has at most as many digits as its text format, so the size check cannot fail |
| `Squash.DigitsRead` | prog/any.go:201-206 | a value printed in enough digits reads back, in every base |
| `Squash.Printed` | prog/any.go:201-206 | printing from the low end and padding with zeros gives exactly the digits of the value |
| `Squash.TextBytes` | prog/any.go:201-206 | the text formats print what copyin would store |
| `Squash.MeaningSize` | prog/analysis.go:155-207 | the meaning of an argument is as long as the argument |
| `Squash.WritesMean` | prog/encodingexec.go:276-298 | over zeroed memory the copyin instructions of an argument leave exactly its meaning, NUL bytes of text formats included |
| `Squash.MemoryIs` | prog/encodingexec.go:276-298 | the memory after all copyins of an argument is its meaning followed by zeros |
| `Squash.SameMemory` | prog/any.go:138-152 | arguments of the same meaning leave the same memory |
| `Squash.Squasher.AppendData` | prog/any.go:313-325 | appending to the last blob or a new one appends exactly the bytes |
| `Squash.Squasher.SquashConst` | prog/any.go:187-215 | the elements gain exactly the bytes that the constant would store |
| `Squash.Squasher.SquashResult` | prog/any.go:217-245 | the elements gain exactly the resource that would be stored |
| `Squash.Squasher.SquashArg` | prog/any.go:154-185 | the elements gain exactly the argument's meaning |
| `Squash.Squasher.SquashGroup` | prog/any.go:247-282 | the elements gain exactly the meaning of all fields |
| `Squash.SquashPtr` | prog/any.go:138-152 | the new pointee has the same size, consists of elements only, and leaves the same memory as the old one |
| `Normalize.Normalize` | prog/kconfuzz.go:54-85 | filtering and sorting in place gives the normal form |
| `Normalize.SortDecides` | prog/kconfuzz.go:72-83 | sorted lists are equal exactly if the lists are equal as multisets |
| `Normalize.NormalKeeps` | prog/kconfuzz.go:59-71 | exactly the actions in range are kept, as often as they occur |
| `Normalize.NormalTwice` | prog/kconfuzz.go:54-85 | normalizing is idempotent |
| `Normalize.SignatureData` | prog/kconfuzz.go:87-98 | the signature is that of the normal form, none for an empty context |
| `Normalize.SignaturesAgree` | prog/kconfuzz.go:87-102 | when two signatures are equal, for all contexts |
| `Normalize.SignatureMeaning` | prog/kconfuzz.go:87-102 | without negative positions: equal exactly if both are empty or all fields and the multisets of actions agree |
| `Normalize.NegativeMatters` | prog/kconfuzz.go:87-102 | contexts that keep the same actions but differ in their signatures |

## Left out

- Sandboxing, namespaces, USB, FUSE, wifi and the other set-up code of `executor/common_linux.h` and the headers for other systems: calls into the operating system.
- Inline assembly, VMCS and VMCB fields, interrupt controllers and KVM ioctls: their meaning lies in hardware or the kernel.
- Flatbuffers, shared memory, pipes and subprocesses: only their outcomes (a write fails, a reply arrives, an end of file) are modelled.
- Snapshot mode, wall-clock times and watchdogs: a timeout is an arbitrary event.
- KFuzzTest calls, conditional fields, random generation, `vmaAlloc`, fallback signals: not part of this model.
- ExecResources.CallsAreGood: the checksum fields of a call with their chunks are given, because finding them (`calcChecksumsCall`) only looks up type names.
- ExecWriter.SerializeForExec: call arguments are fewer than 2^64; the sort of checksum fields is a stable sort of a list in arbitrary order, which covers every result of the unstable sort on a map.
- ExecCode.DeserializeExec: statistics are not collected, and the system call table is only its length.
- ExecRun.Reader.Next: what copyin instructions do to memory is part of `Squash` and `ExecLayout`; the data lies within the executor's input buffer; the host is little-endian.
- ExecLayout.ProgramMemory: for pointees without bit fields, overlays, pointers, per-process values and big-endian references; the places of all fields, these included, are `ExecLayout.PlaceHasCopyin` and `ExecLayout.CopyinHasPlace`.
- ExecValues.Run: memory at a completion is arbitrary, which covers whatever calls and copyins write; reruns and fault injection are not modelled; a call may also complete more than once, which covers each real run.
- ExecValues.Next: the program is within the writer's limit of result indices; larger ones make the writer fail (`ExecWriter.SerializeForExec`).
- CollideExec.WellFormedToo: for programs with references between calls only, as the serializer numbers the resources of a call after its arguments are written.
- Puff.Puff: `int`, `long` and `short` are unbounded; all values that the code keeps in them are bounded by the proved invariants.
- DeflateStreams.CompressInflates: the encoder is written from RFC 1951, as the repository has none; a dynamic block of it sends no more code lengths than it announces, unless the decoder stops before, and has codes for the symbols that it uses.
- PageTable.Guest.LoadCode: instructions are copied in words of 8 bytes, as the memory of the model consists of words; registers of the VM are not modelled.
- PageTable.Guest.MapPage: addresses are unbounded and only bits 12 to 47 select tables, as in the code; a guest exit ends the run.
- PageTable.ReachesBacking: regions are page-aligned, disjoint and below 2^48; `SyzosDisjointIff` says when the guest's own table is.
- Runner.RequestRunner.Loop: binary requests, signal updates and state requests do not touch the queue and are not modelled; only the build with a fork server is; shifts by ids of 64 or more are taken as unbounded.
- Runner.Proc.Ready: output text and waiting times are not kept; whether later writes to the same process succeed during one event is arbitrary.
- Threads.Executor.ExecuteOne: the extra output slot for remote coverage and fault injection are not modelled; which calls are done in time is given, and a call that is not may take arbitrarily long.
- MemAlloc.MemAlloc.constructor: total sizes that make the source panic are excluded.
- CoverFilter.Filter.Insert: the unaligned or of the region mask is written arithmetically; sealing and mapping are left out.
- ConfigUndo.Config.Restore: the promise is made for I/O that succeeds; log lines are left out.
- ConfigUndo.Config.Session: for I/O that succeeds.
- Clone.CopyIsIsomorphic: objects are numbered entries of a heap, so that two programs can be compared; payloads of arguments without resources are opaque.
- Squash.SquashPtr: bit fields, overlays, checksum fields, per-process values, big-endian resources and pointers inside the pointee are excluded, as their values are deliberately not kept or need types that are not modelled.
- Normalize.SignatureData: the JSON encoding is taken as injective.
- Checksum.Digest: a little-endian host.
