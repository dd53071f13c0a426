# Verified models of dexlayout, dexdump and adbconnection

A Dafny project about three parts of the Android runtime:

- **dexlayout**, the serialiser that turns the in-memory representation of a dex file into bytes
  through a growable random-access stream and the builder that reads those bytes back. The format
  is the public Dalvik Executable format.
- **dexdump's control flow graph**: leaders, blocks, edges, and a repair pass for blocks whose
  instructions have different exception handlers.
- **adbconnection's protocol** with adbd and with the debugger agent of `dt_fd_forward`: a poll
  loop, file descriptors handed over a control socket, and an eventfd used as a write lock. The
  handshake is the one of the Java Debug Wire Protocol.

`dafny verify dfyconfig.toml` checks everything.

## How the project is laid out

| file | module | contents |
|---|---|---|
| `Bytes.dfy`, `Sequences.dfy`, `Leb128.dfy`, `VarWidth.dfy` | the same | machine integers, sequences without duplicates, LEB128, variable-width numbers |
| `EncodedValues.dfy`, `EncodedStreams.dfy` | `Numbers`, `EncodedValues`, `EncodedStreams` | encoded values as functions; the loops that write and read them |
| `Stream.dfy` | `Streams` | the section and the stream over it |
| `DexIr.dfy`, `DexBook.dfy`, `MapList.dfy`, `DexWriter.dfy` | `DexIr`, `DexBook`, `MapLists`, `DexWriting` | the representation, the invariant of a half-written file, the map list, the writer |
| `DiskItems.dfy`, `DexReading.dfy`, `WholeFile.dfy` | `DiskItems`, `DexReading`, `WholeFile` | reading items and a whole written file back |
| `CompactDedupe.dfy`, `CompactCode.dfy`, `CodeDedupe.dfy`, `CompactContainer.dfy`, `DebugTable.dfy` | the same | compact dex files: the deduper, packed code items and how they are written, whole containers, the debug-info table |
| `CatchHandlers.dfy`, `DebugInfo.dfy`, `HiddenApi.dfy` | the same | three encodings inside a dex file |
| `Layout.dfy`, `DexVerify.dfy` | `Layout`, `DexVerify` | reordering passes, comparison of two representations |
| `Cfg.dfy` | `Cfg` | the control flow graph |
| `AdbConnection.dfy`, `WriteLock.dfy` | `AdbConnection`, `WriteLock` | the two protocols, as machines over all interleavings |

Code that changes things in place is modelled in place: the stream, the writer, the deduper, the
catch-handler iterator and the connection state are classes, the loops of the source are loops with
invariants. Their contracts tie them to functions and predicates on values, about which the lemmas
speak.

**A whole file.** `DexWriting.DexWriter.Write` is the main theorem about the writer. On an empty
container, for every representation closed under references, with hidden-API flags for all classes
or for none, no checked write meets a byte that is not zero, no offset is read before it is
assigned, every item stands complete at its offset, no two items overlap, every stored offset is the
place of its target, the map list is sorted and exact, and the checksum in the header is that of the
file. Encoded values, catch handlers and hidden-API flags are written by the loops of
`EncodedStreams`, `CatchHandlers` and `HiddenApi`. `DiskItems` reads every kind of item from the
positions that the on-disk structures prescribe; `DexReading.WriteAndReadBack` puts the two
together: whatever closed representation is written, what is read back is that representation, with
offsets in the place of references. A reader starts from the file alone: the header and the map list
give the number and the first offset of every kind of identifier, identifier `i` follows by its
index, and the offsets in what has been read lead to the rest. Where everything stands is told from
the first byte to the last: items at the first aligned place behind one another in the order of the
sections, then the map list, which has exactly the sections that have items, then the link data,
with the header's words for all of this. `WholeFile` continues the reading into handler tables and
hidden-API flags. All this is for files below 4 GiB. From there on `Stream::ScopedSeek`, which keeps
the position to come back to in 32 bits, leads elsewhere, and the model of the writer ends its run
at that point.

**Assumptions on the environment.** The agent of the protocol model sends START-LISTEN, ATTACHED,
END-LISTEN, CLOSING in turn and nothing else, ATTACHED only after it received descriptors; if the
handshake it was asked for fails it may send CLOSING and go on listening, as
`FdForwardTransport::Accept` does.
Results of system calls (sends, receives, polls, peeks, loading the agent) are inputs of a step and
therefore arbitrary. `AdbConnection.StopWithoutAttach` shows that an agent that stops listening
without taking the descriptors does make a debug check fail. Profile membership, the hotness of
strings, the comparison of class bodies, the checksum of a memory range and whether instructions
need aligned payloads are parameters. In `Cfg` bytecode is abstracted to instructions with a width, a
kind, jump targets and handlers.

**Protocols.** Of the poll loop, and of the write lock, it is proved what no run does and also what every
run does: each flag of the loop is stated by the events so far (`AdbConnection.RunMatches`), each
handover by the event that calls for it (`AdbConnection.RunHands`), each descriptor by the one last given
and each packet by where it ends up (`WriteLock.SocketExact`, `WriteLock.Delivered`).

**Where the code does not do what one might expect**, the exact condition is proved:

- A value of unknown type code is written as nothing at all; a tree survives writing and reading
  exactly when it has none and no list of 2^32 elements (`EncodedValues.RoundTripsExactly`).
- After a failed send, data on the connection makes the loop hand it over again and always ask for a
  handshake; a handover is right exactly when it is not such a repetition on a connection that this
  process has handshaken (`AdbConnection.HandoversJudged`, `AdbConnection.SecondHandshake`).
- The comparison of encoded values ignores which method type or method handle is meant; it finds
  every difference from a tree exactly when the tree has no such leaf (`DexVerify.ComparisonExact`).
- The comparison of class definitions is only about the first definition of each type. With distinct
  types on both sides it is exact (`DexVerify.ClassDefsExact`). In general, that it succeeds can be
  relied on, however bodies are compared and whatever the output with distinct types, exactly when the
  original has no two different definitions of one type (`DexVerify.TrustedExactly`).
- The offset recorded for a section is the position before its padding; it is the offset of the first
  item exactly when the section begins aligned (`DexWriting.SectionPadding`). Sections of identifiers
  always do (`DexReading.IdsFound`); `DexReading.WritePadded` writes a file in which a section of
  annotation sets does not.
- The builder knows the entries of a catch-handler table by 16-bit offsets. Its walk over the table
  stays inside it exactly when no two entries have the same one, and the table is then written back
  byte for byte exactly when every entry starts below 2^16 (`CatchHandlers.AddMissing`,
  `CatchHandlers.Copy`). `CatchHandlers.FarEntry` is a table with an entry beyond.
- Exception edges leave a block as a whole for the handlers of its last instruction, and if some
  instruction lacks a handler of the one before it also each instruction for its own. Of instructions
  that lack handlers in a row only every other one suppresses the edges of the block as a whole
  (`Cfg.PictureIsRight`).
- Deduplication keys a compact code item from before its padding and preheader, but hands out the
  registered offset behind them, so that items of different shape can have the same range. In a container
  into which any number of dex files write code items, debug infos, strings and everything else, what is
  found at the offset a code item gets is the item of the same dex file it was taken for, and so the item
  itself exactly when the two are equal (`CompactContainer.WriteContainer`). Some run takes one of two
  different code items for the other exactly when their ranges agree for some two places, of which only
  the remainder modulo four matters (`CompactContainer.ConfusedExactly`); the preheader of a method with
  273 registers gives two such items (`CodeDedupe.SameRange`, `CompactContainer.TwoMethods`).

## Model

| member | source | states |
|---|---|---|
| `Leb128.EncodeUnsigned` | libartbase/base/leb128.h:246-255 | the loop emits the minimal encoding, defined by division rather than by shifts |
| `Leb128.EncodeSigned` | libartbase/base/leb128.h:284-295 | the same for signed numbers, with the loop's own count of remaining groups |
| `Leb128.UlebRoundTrip` | libartbase/base/leb128.h:33-56 | every 32-bit number is decoded again at any position, whatever follows, and exactly its bytes are consumed |
| `Leb128.SlebRoundTrip` | libartbase/base/leb128.h:116-143 | the same for signed numbers, including the fifth byte's surplus bits |
| `Leb128.UlebLength` | libartbase/base/leb128.h:246-256 | an encoding has at most k bytes if and only if the number is below 2^(7k) |
| `Leb128.UnsignedLeb128Size` | libartbase/base/leb128.h:201-208 | the size computed from the bit count by a multiplication and a shift is the length of the encoding |
| `Leb128.UlebMinimal` | libartbase/base/leb128.h:246-255 | no bytes that decode to a number are fewer than the encoder's |
| `VarWidth.EncodeIntValue` | dexlayout/dex_writer.cc:35-50 | the loop (the one for long values has the same body) fills the buffer with the two's-complement bytes of IntBytes |
| `VarWidth.EncodeUIntValue` | dexlayout/dex_writer.cc:52-59 | the loop fills the buffer with the little-endian bytes of UIntBytes |
| `VarWidth.EncodeRightFilled` | dexlayout/dex_writer.cc:83-110 | the shifting loops for float and double leave the pattern without its low zero bytes at the end of the buffer |
| `VarWidth.IntBytesFewest` | dexlayout/dex_writer.cc:35-50 | n bytes suffice if and only if the value is in [-2^(8n-1), 2^(8n-1)) |
| `VarWidth.UIntBytesFewest` | dexlayout/dex_writer.cc:52-59 | n bytes suffice if and only if the value is below 2^(8n) |
| `VarWidth.RightFilledValue` | dexlayout/dex_writer.cc:83-110 | shifting back recovers the pattern, and only zero bytes were dropped, all of them |
| `VarWidth.RightFilledUnique` | dexlayout/dex_writer.cc:83-110 | no other byte string without a leading zero byte stands for the pattern |
| `Numbers.SignedRoundTrip` | dexlayout/dex_ir_builder.cc:33-43 | sign extension undoes the signed encoding for every value |
| `Numbers.UnsignedRoundTrip` | dexlayout/dex_ir_builder.cc:33-43 | reading without extension undoes the unsigned encoding |
| `Numbers.RightFilledRoundTrip` | dexlayout/dex_ir_builder.cc:1134-1153 | filling on the right undoes the float and double encodings |
| `Numbers.NumberRoundTrip` | dexlayout/dex_ir_builder.cc:1113-1184 | a number of any of the fourteen type codes is read back from its payload |
| `Numbers.NumberMinimal` | dexlayout/dex_ir_builder.cc:1113-1184 | no payload that is read as a number is shorter than the writer's |
| `Numbers.HeaderByte` | dexlayout/dex_writer.cc:186-189 | the header byte has the type code of the format in its low bits and the length less one above |
| `EncodedValues.RoundTrip` | dexlayout/dex_writer.cc:117-206 | reading any written tree, however deep and whatever follows, gives the tree and consumes exactly its bytes |
| `EncodedValues.ArrayRoundTrip` | dexlayout/dex_writer.cc:191-196 | the same for an array without header, as encoded-array items are |
| `EncodedValues.AnnotationRoundTrip` | dexlayout/dex_writer.cc:198-206 | the same for an annotation without header, as annotation items are |
| `EncodedValues.ReadMinimal` | dexlayout/dex_ir_builder.cc:1096-1222 | no bytes that are read as a tree are fewer than the writer's, each unknown leaf costing the reader one more |
| `EncodedValues.RoundTripsExactly` | dexlayout/dex_writer.cc:179-180 | a tree is read back from its own encoding if and only if it has no unknown leaf and no oversized list |
| `EncodedStreams.FillBuffer` | dexlayout/dex_writer.cc:117-167 | for every kind of number the chosen part of the eight-byte buffer is its payload |
| `EncodedStreams.WriteEncodedValue` | dexlayout/dex_writer.cc:117-184 | the stream receives exactly the encoding of the tree, nothing else changes, and no check fires if there was room |
| `EncodedStreams.WriteEncodedArray` | dexlayout/dex_writer.cc:191-196 | the same for the loop over an array |
| `EncodedStreams.WriteEncodedAnnotation` | dexlayout/dex_writer.cc:198-206 | the same for the loop over annotation elements |
| `EncodedStreams.ReadBytes` | dexlayout/dex_ir_builder.cc:33-43 | the loop and the shift to and fro give the number, sign-extended if asked |
| `EncodedStreams.SignExtension` | dexlayout/dex_ir_builder.cc:38-41 | shifting to the top of 64 bits and arithmetically back is sign extension |
| `EncodedStreams.ReadEncodedValue` | dexlayout/dex_ir_builder.cc:1096-1222 | the recursive reader computes the tree and end position of the specification, also when the data ends too early |
| `EncodedStreams.ReadEncodedArray` | dexlayout/dex_ir_builder.cc:1185-1199 | the same for the loop over an array |
| `EncodedStreams.ReadEncodedAnnotation` | dexlayout/dex_ir_builder.cc:1200-1213 | the same for the loop over annotation elements |
| `Streams.Section.Resize` | dexlayout/dex_container.h:68-70 | growing fills with zeros and keeps the contents |
| `Streams.Stream.EnsureStorage` | dexlayout/dex_writer.h:156-162 | the growing loop ends with enough room and contents unchanged |
| `Streams.Stream.Write` | dexlayout/dex_writer.h:91-99 | the bytes stand at the old position, nothing else changes, and the check fires exactly when a byte there was not zero |
| `Streams.Stream.Clear` | dexlayout/dex_writer.h:108-112 | the range is zero afterwards and nothing else changes |
| `Streams.Stream.AlignTo` | dexlayout/dex_writer.h:130-133 | the position becomes the next multiple and contents are unchanged |
| `DexIr.ItemBytesStable` | dexlayout/dex_ir.h:305-333 | assigning further offsets does not change an item whose references are resolved |
| `DexBook.PlaceKeepsInv` | dexlayout/dex_writer.cc:571-626 | reserving room at the end keeps the invariant of a half-written file |
| `DexBook.RoomIsZero` | dexlayout/dex_writer.cc:602-626 | reserved room is still zero when it is filled, so no check can fire |
| `DexBook.FillKeepsInv` | dexlayout/dex_writer.cc:838-946 | filling reserved room keeps the invariant: items apart, everything outside them zero, filled items complete |
| `DexBook.EmitKeepsInv` | dexlayout/dex_writer.cc:984-991 | so does writing an item at the end and recording its offset |
| `DexBook.WriteOrder` | dexlayout/dex_writer.cc:847-907 | in the order of sections every kind of item comes after the kinds it refers to, or is filled after them |
| `DexWriting.DexWriter.WriteItem` | dexlayout/dex_writer.cc:281-298 | an item's fields are emitted at the position with the offsets known then, those that have a loop of their own by that loop |
| `DexWriting.DexWriter.WriteLoop` | dexlayout/dex_writer.cc:354-569 | in room that is zero the loops for arrays, annotations, handlers and hidden-API flags leave their encodings, fire no check and end right behind them |
| `DexWriting.DexWriter.EmitItem` | dexlayout/dex_writer.cc:984-991 | align, record the offset, write |
| `DexWriting.DexWriter.ReserveCodeItem` | dexlayout/dex_writer.cc:571-600 | the reserving pass takes the room the real pass will fill, and clears what it wrote |
| `DexWriting.DexWriter.FillItem` | dexlayout/dex_writer.cc:602-626 | the real pass gives an item the offset it was reserved at and ends where the reservation ended |
| `DexWriting.DexWriter.EmitSection` | dexlayout/dex_writer.cc:281-298 | a section written in one go: all items placed, complete and recorded, the section offset taken before the padding |
| `DexWriting.DexWriter.ReserveSection` | dexlayout/dex_writer.cc:232-246 | a section with reserve_only: room for all items, nothing in it |
| `DexWriting.DexWriter.WriteSections` | dexlayout/dex_writer.cc:838-907 | all nineteen sections in the order of Write, each beginning where the one before ends |
| `DexBook.ConsecutiveStep` | dexlayout/dex_writer.cc:847-889 | a section laid out at the end keeps the sections consecutive, the data part beginning at a multiple of eight |
| `DexWriting.DexWriter.WriteHeader` | dexlayout/dex_writer.cc:793-832 | the header, with the magic and version of a standard file, is written over the first 0x70 bytes and nothing else changes |
| `DexWriting.StandardMagic` | dexlayout/dex_writer.cc:795-804 | the magic written is never that of a compact file, and differs from the given one only if that is |
| `DexWriting.DexWriter.WriteHeaders` | dexlayout/dex_writer.cc:942-952 | the checksum stored by the second write is that of the bytes from 12 on as they are after it |
| `DexWriting.DexWriter.Write` | dexlayout/dex_writer.cc:838-957 | the whole run, if below 4 GiB: it is complete, no check fires, no unassigned offset is read, all items complete, apart and with exact offsets; map, link data and header where the header says, the data part from behind the identifiers to behind the map, and the checksum, if it is updated, that of the file |
| `DexWriting.StoredPointer` | dexlayout/dex_writer.cc:628-655 | every offset stored in the finished file, in four bytes or in LEB128, is the place of its target |
| `DexWriting.SectionPadding` | dexlayout/dex_writer.cc:281-298 | a section's recorded offset is its first item's if and only if the section begins aligned |
| `DexWriting.InvIsWellWritten` | dexlayout/dex_writer.cc:838-946 | at the end of a run the invariant says that the file is well written |
| `MapLists.WriteMapItems` | dexlayout/dex_writer.cc:710-724 | draining the queue writes each item once, in order of offset |
| `MapLists.MapItemsExact` | dexlayout/dex_writer.cc:726-791 | an item is pushed if and only if it is the header's, the map's or that of a section that is not empty |
| `MapLists.SectionListed` | dexlayout/dex_writer.cc:978-982 | a section has an item with its size and offset if and only if its size is not 0, and no other item of its type |
| `DexReading.WriteAndReadBack` | dexlayout/dex_writer.cc:838-957 | writing any closed representation to an empty container: below 4 GiB no check fails, identifiers are found by index from the header and the map list, every item is read back at its place, no two items that have bytes share one, items, map list and link data stand in order without needless gaps, and the header has the places and sizes of these parts, the file's size and its checksum |
| `DexReading.FileReadsBack` | dexlayout/dex_ir_builder.cc:423-550 | every item of a well-written file, of any of the nineteen kinds, is read back from its place |
| `DexReading.ItemStored` | dexlayout/dex_writer.cc:838-946 | every item of a well-written file stands at its place with its references resolved to the places of their targets |
| `DiskItems.StringIdBack` | dexlayout/dex_ir_builder.cc:423-434 | a string id leads to the place of its data |
| `DiskItems.TypeIdBack` | dexlayout/dex_ir_builder.cc:436-442 | a type id has its descriptor index |
| `DiskItems.ProtoIdBack` | dexlayout/dex_ir_builder.cc:444-455 | a proto id is read back from its twelve bytes |
| `DiskItems.FieldIdBack` | dexlayout/dex_ir_builder.cc:457-465 | a field id is read back from its eight bytes |
| `DiskItems.MethodIdBack` | dexlayout/dex_ir_builder.cc:467-475 | a method id is read back from its eight bytes |
| `DiskItems.ClassDefBack` | dexlayout/dex_ir_builder.cc:477-512 | a class definition is read back from its thirty-two bytes, absent parts as absent |
| `DiskItems.CallSiteBack` | dexlayout/dex_ir_builder.cc:514-524 | a call site leads to the place of its array |
| `DiskItems.MethodHandleBack` | dexlayout/dex_ir_builder.cc:526-550 | a method handle has its type and index |
| `DiskItems.TypeListBack` | dexlayout/dex_ir_builder.cc:578-596 | a type list has its size and its types in order |
| `DiskItems.EncodedArrayBack` | dexlayout/dex_ir_builder.cc:598-618 | an encoded array is read back at its offset |
| `DiskItems.AnnotationBack` | dexlayout/dex_ir_builder.cc:671-690 | an annotation has its visibility, type and elements, and the size the builder computes |
| `DiskItems.OffsetListBack` | dexlayout/dex_ir_builder.cc:693-717 | an annotation set, or a set-ref list, has its count and leads to the places of its items in order, absent ones as absent |
| `DiskItems.DirectoryHead` | dexlayout/dex_ir_builder.cc:719-733 | an annotations directory has its class annotations and its three counts |
| `DiskItems.DirectoryBack` | dexlayout/dex_ir_builder.cc:734-786 | and each of its pairs of an index and a place, list by list |
| `DiskItems.CodeItemBack` | dexlayout/dex_ir_builder.cc:788-848 | a code item's header, instructions and try items are read back, and its handler table starts behind them |
| `DiskItems.ClassDataBack` | dexlayout/dex_ir_builder.cc:943-991 | adding up the stored differences gives back every field and method, with flags and the places of code items |
| `DiskItems.DebugInfoBack` | dexlayout/dex_ir_builder.cc:805-819 | the scanner finds exactly the bytes that were written |
| `DiskItems.StringDataBack` | dexlayout/dex_ir_builder.cc:423-434 | string data has its UTF-16 length and its bytes up to the zero that was skipped over |
| `DexReading.OffsetsApart` | dexlayout/dex_ir_builder.cc:93-135 | different items have different offsets unless one of them is an empty debug info, so looking items up by offset confuses none |
| `DexReading.IdsFound` | dexlayout/dex_writer.cc:232-246 | the offset recorded for a section of identifiers is where its first one stands, and the others follow without gaps |
| `DexReading.AllIdsReached` | dexlayout/dex_ir_builder.cc:331-421 | the counts and offsets in the header and in the map list lead to every identifier, those in the map list also to the hidden-API section and to the annotations, which follow each other without gaps |
| `DexReading.MapChecked` | dexlayout/dex_ir_builder.cc:331-421 | no check of the builder on the map list fails: every entry has a known type, those of the header, the map and the six kinds in the header agree with it, and those of all eight kinds of identifiers give their number and the place of the first |
| `DexReading.ItemsOrdered` | dexlayout/dex_writer.cc:838-907 | every item stands at the first aligned place behind the one before it, section by section in the order of the file, the data part beginning at a multiple of eight |
| `DexReading.PartsOrdered` | dexlayout/dex_writer.cc:909-952 | read from the header: the data part begins behind the identifiers and ends, at a multiple of eight, behind the map list; link data follow and end the file |
| `DexReading.PartsHold` | dexlayout/dex_writer.cc:838-926 | identifiers stand below the data offset of the header, all other items between it and the map list |
| `DexReading.MapIsExact` | dexlayout/dex_writer.cc:726-791 | the map list has the header, itself and each section that has items, with its type code, its size and the place where it begins, and nothing else |
| `DexReading.MapIsSorted` | dexlayout/dex_writer.cc:710-724 | its entries are in the order of their offsets |
| `DexReading.WritePadded` | dexlayout/dex_writer.cc:381-399 | a closed representation whose annotation-set section is listed at 0x71 while its only set stands at 0x74 |
| `WholeFile.ReadHandlers` | dexlayout/dex_ir_builder.cc:825-900 | from a code item of a written file whose handlers came from a table in reach, the try items are read back, each with the handler of its entry, and every entry is listed again once |
| `WholeFile.ReadHiddenapi` | dexlayout/dex_ir_builder.cc:633-669 | from the hidden-API section of a written file every member's flags are read back |
| `DexReading.MapListBack` | dexlayout/dex_writer.cc:710-724 | the map list has its size and its items at twelve-byte steps |
| `DexReading.HeaderBack` | dexlayout/dex_writer.cc:793-832 | every header field stands at its offset in the header structure |
| `CompactDedupe.Deduper.Dedupe` | dexlayout/compact_dex_writer.cc:218-231 | if enabled, an equal range is found by content, otherwise the range is entered; 0 means not found, and is all a disabled deduper answers |
| `CompactDedupe.Deduper.HashEqual` | dexlayout/compact_dex_writer.h:63-71 | ranges are equal if and only if their contents are |
| `CompactDedupe.EndItem` | dexlayout/compact_dex_writer.cc:119-134 | an item of any alignment whose bytes are keyed is wiped, the position restored and the keyed item's offset used; otherwise it stays and its range is keyed |
| `CompactCode.Create` | libdexfile/dex/compact_dex_file.h:118-162 | the decrementing pointer and the flags come to the packed words, the flag word and the preheader of the format; the check fails if and only if there are fewer registers than ins |
| `CompactCode.SizesRoundTrip` | libdexfile/dex/compact_dex_file.h:184-232 | unpacking the words and the preheader that ends where they begin gives back all five sizes, whatever they are |
| `CompactCode.RangeDecodes` | dexlayout/compact_dex_writer.cc:140-200 | in everything written for a code item, padding and preheader included, the accessors find it at its registered offset |
| `CompactCode.CodeUnique` | libdexfile/dex/compact_dex_file.h:184-232 | at one offset the accessors find at most one code item |
| `CompactCode.ItemPlaced` | dexlayout/compact_dex_writer.cc:157-190 | a code item is registered right behind its preheader, which begins at the next even place, and with payloads at the next multiple of four |
| `CodeDedupe.WriteCodeItem` | dexlayout/compact_dex_writer.cc:140-200 | padding, preheader, item, instructions, try items and handlers are written as specified, the offset registered is the one behind the preheader, and no write check fires |
| `CodeDedupe.StandsExact` | dexlayout/compact_dex_writer.cc:119-134 | where a code item stands no other is found, whatever range the two have in common |
| `CodeDedupe.SameRange` | dexlayout/compact_dex_writer.cc:140-200 | a method with 273 registers and one with a single register have the same bytes and registered offsets two apart |
| `CompactContainer.Container.WriteCode` | dexlayout/compact_dex_writer.cc:140-200 | a code item goes through the deduper of code items with everything from before its padding and the offset behind its preheader |
| `CompactContainer.Container.WriteDebugInfo` | dexlayout/compact_dex_writer.cc:202-209 | a debug info goes through the deduper of data items |
| `CompactContainer.Container.WriteStringData` | dexlayout/compact_dex_writer.cc:319-329 | so does a string, with the terminator that is skipped because the section is zero |
| `CompactContainer.Container.EndDex` | dexlayout/compact_dex_writer.cc:489-527 | the section is cut to its aligned end and the deduper of code items is cleared, that of data items not |
| `CompactContainer.ItemKeepsInv` | dexlayout/compact_dex_writer.cc:119-134 | a write through either deduper, found or new, keeps what stands in the section and both dedupers in step with the run, and takes the write for what it must be taken for |
| `CompactContainer.WriteContainer` | dexlayout/compact_dex_writer.cc:378-530 | over any writes of any number of dex files into one data section: a check fails if and only if a code item has fewer registers than ins, every write is kept or taken for an earlier one and gets its offset as specified, kept writes follow each other, code items with payloads at multiples of four, and below 4 GiB at that offset stands what it was taken for, which is what was to be written unless it is a code item taken for a different one; if no two different code items of a dex file have the same range, everything is found |
| `CompactContainer.WritesFollow` | dexlayout/compact_dex_writer.cc:140-200 | by kind of write, where a kept one begins and ends behind those before it; one that is not kept takes no room |
| `CompactContainer.TakesUnique` | dexlayout/compact_dex_writer.cc:218-231 | the writes alone determine which are kept and what the others are taken for, and so every offset |
| `CompactContainer.TakenFor` | dexlayout/compact_dex_writer.cc:524-527 | a write is only taken for a kept one of its own deduper with the same bytes, and a code item only for one of its own dex file |
| `CompactContainer.WrittenAfresh` | dexlayout/compact_dex_writer.cc:524-527 | a code item written in two dex files is written twice |
| `CompactContainer.DataShared` | dexlayout/compact_dex_writer.cc:218-231 | debug infos and strings with the same bytes get one offset, also from different dex files |
| `CompactContainer.Mistaken` | dexlayout/compact_dex_writer.cc:107-134 | for every two code items whose ranges agree in some two places there are four items of a dex file that can only be written with the last taken for the second |
| `CompactContainer.ConfusedExactly` | dexlayout/compact_dex_writer.cc:107-134 | some run takes one of two different code items for the other if and only if their ranges agree in some two places |
| `CompactContainer.TwoMethods` | dexlayout/compact_dex_writer.cc:107-134 | each of the two methods of `CodeDedupe.SameRange` is taken for the other in some run |
| `DebugTable.CanGenerateCompactDex` | dexlayout/compact_dex_writer.cc:331-376 | accepts if and only if no two direct or virtual methods of any classes with one index differ in their code |
| `DebugTable.FillTable` | dexlayout/compact_dex_writer.cc:41-73 | the consistency check fails if and only if two offsets of one index disagree; otherwise each entry is the offset last recorded, or 0 |
| `DebugTable.AcceptedTable` | dexlayout/compact_dex_writer.cc:41-73 | for an accepted file the check never fails and the table has each method's one offset, or 0 when it has none |
| `DebugTable.TableFinds` | dexlayout/compact_dex_writer.cc:41-73 | in the table of an accepted file every method of every class finds the offset of its debug info, or 0 |
| `DebugTable.AllMethodsExact` | dexlayout/compact_dex_writer.cc:331-376 | the loops visit exactly the direct and virtual methods of all classes |
| `CatchHandlers.CatchHandlerIterator.constructor` | libdexfile/dex/dex_file_exception_helpers.cc:70-84 | the iterator starts at the first handler of the entry, also when that is its catch-all |
| `CatchHandlers.CatchHandlerIterator.Next` | libdexfile/dex/dex_file_exception_helpers.cc:86-103 | it moves to the next handler |
| `CatchHandlers.CollectHandler` | dexlayout/dex_ir_builder.cc:841-853 | a try item's handler has the contents of the entry at its offset |
| `CatchHandlers.CollectTries` | dexlayout/dex_ir_builder.cc:830-856 | the try items' handlers are collected once each, in the order of the try items, and each try item refers to that of the entry it points at |
| `CatchHandlers.WalkEntry` | dexlayout/dex_ir_builder.cc:870-897 | an entry is read, or skipped, to exactly its end |
| `CatchHandlers.AddMissing` | dexlayout/dex_ir_builder.cc:857-900 | the walk ends inside the table, with exactly one list element per entry, if and only if no two entries have the same 16-bit offset |
| `CatchHandlers.WriteHandler` | dexlayout/dex_writer.cc:555-563 | any handler is written as its signed count, its pairs and its catch-all |
| `CatchHandlers.WriteHandlers` | dexlayout/dex_writer.cc:550-567 | for any list, the stream has each handler at its offset, later ones over earlier ones, and ends behind the furthest |
| `CatchHandlers.ListWritten` | dexlayout/dex_writer.cc:550-567 | the list of a table, in any order, comes to the table if all entries start below 2^16, and otherwise to something shorter |
| `CatchHandlers.TableUnique` | libdexfile/dex/dex_file_exception_helpers.cc:70-103 | no two tables can be read at one place |
| `CatchHandlers.Copy` | dexlayout/dex_writer.cc:535-569 | the walk stays in the table and building and writing back reproduces it byte for byte, whatever the order of the try items, if and only if every entry starts below 2^16 |
| `CatchHandlers.FarEntry` | dexlayout/dex_ir_builder.cc:861-868 | a valid table whose second entry starts at 65540 and is listed at 4, inside the first |
| `DebugInfo.GetDebugInfoStreamSize` | dexlayout/dex_ir_builder.cc:45-91 | the scanner's loops compute the end position of the specification, or find that the data ends first |
| `DebugInfo.ProgramSkipped` | dexlayout/dex_ir_builder.cc:45-91 | every program, in any LEB128 encoding and whatever follows, is skipped to exactly its end |
| `DebugInfo.SkippedIsProgram` | dexlayout/dex_ir_builder.cc:45-91 | whatever is skipped is a program |
| `DebugInfo.OpTaken` | dexlayout/dex_ir_builder.cc:54-90 | behind the opcode of each operation of the format the scanner skips as many numbers as the operation has |
| `DebugInfo.PrefixCode` | dexlayout/dex_ir_builder.cc:45-91 | no program is a proper beginning of another |
| `HiddenApi.ItemSize` | dexlayout/dex_ir.h:1299-1309 | summing in the order of the map gives the length of the flags written in the order of the members, or 0 exactly when all are 0 |
| `HiddenApi.ComputeHeader` | dexlayout/dex_writer.cc:475-486 | the total size and each class's position, or 0 |
| `HiddenApi.WriteHiddenapiClassData` | dexlayout/dex_writer.cc:465-517 | the section is written as specified, none of its position checks fails, and the write check fires if and only if the room of its header was not zero |
| `HiddenApi.SectionConsistent` | dexlayout/dex_writer.cc:476-511 | the first word is the exact size, and a class's word is the position of its flags, or 0 exactly when they are all 0 |
| `HiddenApi.FlagsInOrder` | dexlayout/dex_writer.cc:491-509 | flags come member by member, static fields, instance fields, direct methods, virtual methods |
| `HiddenApi.ReadHiddenapiClassData` | dexlayout/dex_ir_builder.cc:633-669 | reading gives each class its flags, and none to a class whose flags are all 0 |
| `HiddenApi.FlagsSurvive` | dexlayout/dex_ir.h:1287-1289 | so every member has the flags it had |
| `Layout.SortByMapOrder` | dexlayout/dex_ir.h:262-274 | the collection ends in key order and is a permutation of itself; with a map of another size nothing happens |
| `Layout.LayoutClassData` | dexlayout/dexlayout.cc:1569-1598 | no class outside the profile comes before one in it, and otherwise the old order is kept; class data come once, in the order of their first mention; the final check succeeds if and only if all class data are mentioned, and then none is lost or duplicated |
| `Layout.LessIsTotal` | dexlayout/dexlayout.cc:1688-1705 | the comparator is a strict total order |
| `Layout.SortedUnique` | dexlayout/dexlayout.cc:1683-1705 | so any sort gives the same result |
| `Layout.LayoutStringData` | dexlayout/dexlayout.cc:1683-1723 | no hot string comes before one that is not, within each part no shorty before a string that is none, otherwise by index; none is lost or duplicated |
| `DexVerify.VerifyEncodedValue` | dexlayout/dex_verify.cc:562-712 | true if and only if the trees are equal once indices of method types and method handles are erased |
| `DexVerify.VerifyEncodedArray` | dexlayout/dex_verify.cc:714-742 | the same for arrays, which may be missing on both sides but not on one |
| `DexVerify.VerifyEncodedAnnotation` | dexlayout/dex_verify.cc:514-545 | the same for annotations |
| `DexVerify.ComparisonExact` | dexlayout/dex_verify.cc:562-712 | a tree compares equal to nothing but itself if and only if it has no such leaf |
| `DexVerify.ErasedNumber` | dexlayout/dex_verify.cc:562-712 | of a number the comparison ignores the index if it is that of a method type or method handle, and nothing else |
| `DexVerify.VerifyClassDefs` | dexlayout/dex_verify.cc:190-222 | the loops compare the first definitions of each type, in order of type, as far as the shorter set goes |
| `DexVerify.ClassDefsExact` | dexlayout/dex_verify.cc:190-222 | with distinct types the answer is whether every original definition has a counterpart |
| `DexVerify.OrderIrrelevant` | dexlayout/dex_verify.cc:188-189 | that does not depend on the order of either list |
| `DexVerify.TrustedExactly` | dexlayout/dex_verify.cc:190-222 | a success means that every original definition has a counterpart, for every comparison of bodies and every output with distinct types, if and only if no type has two different definitions |
| `Cfg.FindTargets` | dexdump/dexdump_cfg.cc:41-69 | the first pass finds exactly the jump targets |
| `Cfg.BuildNodes` | dexdump/dexdump_cfg.cc:76-139 | the second pass numbers exactly the leaders and assigns every instruction its block |
| `Cfg.BuildEdges` | dexdump/dexdump_cfg.cc:159-288 | regular edges are exactly the fall-throughs between blocks, taken edges exactly the jumps, and the exception edges of whole blocks and the blocks left to the last pass exactly those of the specification |
| `Cfg.DetailBlock` | dexdump/dexdump_cfg.cc:293-331 | walking a block adds exactly the edges of its instructions |
| `Cfg.AddDetailedEdges` | dexdump/dexdump_cfg.cc:290-331 | the last pass adds exactly the edges of the instructions of the blocks left to it |
| `Cfg.DumpMethodCfg` | dexdump/dexdump_cfg.cc:36-331 | the four passes together, also in terms of instructions alone |
| `Cfg.PictureIsRight` | dexdump/dexdump_cfg.cc:36-331 | without the notion of a leader: blocks are numbered in order and go on exactly from an instruction that only goes on to one that nothing jumps to; regular, taken and exception edges are exactly those between such blocks |
| `Cfg.BrokenLoses` | dexdump/dexdump_cfg.cc:254-265 | a block is left to the last pass if and only if one of its instructions lacks a handler of the one before it |
| `Cfg.GraphThrows` | dexdump/dexdump_cfg.cc:159-331 | all exception edges are justified, and all handlers of all instructions are reached |
| `Cfg.TakenExact` | dexdump/dexdump_cfg.cc:203-251 | an edge is taken if and only if some instruction jumps that way to an instruction |
| `Cfg.StepShown` | dexdump/dexdump_cfg.cc:159-331 | each step of an execution stays on consecutive instructions of a block or follows a drawn edge |
| `Cfg.EdgeIsStep` | dexdump/dexdump_cfg.cc:159-331 | each drawn edge is a step that an instruction of its block can make |
| `Cfg.RunIsPath` | dexdump/dexdump_cfg.cc:159-331 | every run is shown step by step, and its blocks form a path from the entry block |
| `AdbConnection.RunPollLoop` | adbconnection/adbconnection.cc:550-669 | the loop itself, run on its fields against any sequence of events of agent, adbd and system calls: no check has failed, an agent that listens, has or was sent a connection is loaded, descriptors sent or held mean a valid connection, none is handed over twice, if sends succeed each handover tells the truth about the handshake, and every field means what the events say |
| `AdbConnection.RunExecuted` | adbconnection/adbconnection.cc:565-668 | every run of the system is carried out to its end by that loop |
| `AdbConnection.ExecutedRuns` | adbconnection/adbconnection.cc:565-668 | and whatever the loop carries out is a run |
| `AdbConnection.AgentKeepsInStep` | dt_fd_forward/dt_fd_forward.cc:361-451 | every step of the agent keeps the messages under way consistent with what the loop believes |
| `AdbConnection.StepKeepsInv` | adbconnection/adbconnection.cc:565-668 | every step of anyone keeps the invariant |
| `AdbConnection.RunSafe` | adbconnection/adbconnection.cc:565-668 | in every interleaving no check fails, an agent that listens, has or was sent a connection is loaded, and descriptors sent or held mean a valid connection |
| `AdbConnection.RunMatches` | adbconnection/adbconnection.cc:550-777 | in every run each flag is true exactly if its event has happened and nothing since has ended it: a connection is held from its arrival until a hangup, a failed handshake or packet, or the agent's closing; likewise control socket, handshake, loaded agent, listening, taken and sent descriptors, and the notification of DDMS |
| `AdbConnection.RunHands` | adbconnection/adbconnection.cc:403-447 | there is one handover for each event that calls for one, of the connection there is then, with the handshake left to the agent or not |
| `AdbConnection.StepMoves` | adbconnection/adbconnection.cc:589-664 | what one event does to each field |
| `AdbConnection.HandoverStep` | adbconnection/adbconnection.cc:403-447 | descriptors are handed over only when none wait to be accepted and the agent has no connection |
| `AdbConnection.HandoversJudged` | adbconnection/adbconnection.cc:640-661 | in every run, failed sends included, a handover tells the agent the truth about the handshake if and only if it is not a repetition on data of a connection already handshaken |
| `AdbConnection.ExactlyOnce` | adbconnection/adbconnection.cc:600-617 | if sends succeed each connection is handed over once and handshaken exactly once |
| `AdbConnection.SecondHandshake` | adbconnection/adbconnection.cc:653-661 | a run in which a send fails and the agent is asked for a second handshake |
| `AdbConnection.StopWithoutAttach` | adbconnection/adbconnection.cc:403-404 | an agent that stops listening without taking the descriptors, then listens again, makes the check fail |
| `WriteLock.ExclusiveKept` | adbconnection/adbconnection.cc:108-121 | every step conserves the count in the eventfd plus the counts held, which is 1 |
| `WriteLock.SteadyKept` | adbconnection/adbconnection.cc:316-385 | a packet being written goes to the connection its owner has |
| `WriteLock.SocketStays` | adbconnection/adbconnection.cc:278-285 | no step but its writer's unlocking changes the connection a packet is being written to |
| `WriteLock.RunSafe` | adbconnection/adbconnection.cc:316-385 | for any number of threads and in every interleaving: one holder at most, connections steady during writes, and no two packets mixed on a connection |
| `WriteLock.SocketExact` | adbconnection/adbconnection.cc:278-285 | in every run a party's descriptor is the one it was last given by a holder of the lock that locked for it, or that the agent received, and none if there was none |
| `WriteLock.InsideFor` | adbconnection/adbconnection.cc:316-385 | a thread inside does what it locked for; a packet goes to the connection there was then, as far as it has been sent, and without a connection nothing does |
| `WriteLock.Delivered` | adbconnection/adbconnection.cc:316-385 | when the writer unlocks, what it sent stands on the connection its party was last given, behind all that was there before |
| `WriteLock.NothingDelivered` | adbconnection/adbconnection.cc:321-331 | without a connection nothing is written anywhere |
| `WriteLock.FreeExactly` | adbconnection/adbconnection.cc:108-121 | the lock is free exactly when no thread is inside |
| `WriteLock.WholePackets` | dt_fd_forward/dt_fd_forward.cc:260-276 | if writers finish, a connection carries whole packets whenever the lock is free |

## Left out

- Writing with `compute_offsets_` false, which replays the offsets of the input file.
- CatchHandlers.AddMissing: where the walk leaves the table the source goes on with whatever bytes follow; the model stops there.
- HiddenApi.WriteHiddenapiClassData: sections of 4 GiB and more are excluded, because all its positions have 32 bits.
- DexWriting.DexWriter.Write: from 4 GiB on, where the position kept by `ScopedSeek` is truncated, the run ends incomplete; the signature is not computed (the source keeps the old one) and the checksum function, zlib's `adler32`, is a parameter.
- CompactContainer.WriteContainer: which opcodes need aligned payloads is a parameter; catch handlers are given as the bytes of a table, which `CatchHandlers.ListWritten` says the loop writes if all entries are in reach; items that are not deduplicated are given as bytes with an alignment; of a container of 4 GiB or more nothing is said about what stands at the offsets, because they have 32 bits.
- Compact dex headers and `CompactOffsetTable`, the encoded form of the debug-info table.
- `DexLayout::LayoutCodeItems` and the marking of hot strings and shorties: the marks are parameters.
- The parts of `VerifyOutputDexFile` that compare less than they could: prototypes, class bodies, debug info.
- Layout.SortStrings: insertion stands for the library's sort; the result is the same because the order is total.
- Cfg.DumpMethodCfg: edges are sets, so their order and repetition in the output are not modelled, nor is the text of the nodes; decoding of instructions and of switch tables is abstracted.
- Bounds of the data that is read: where the source would read past the end, the readers here return none.
- AdbConnection.RunPollLoop: threads are attached, sockets created and options parsed elsewhere; a failing poll ends the loop and is a run that stops.
- WriteLock.RunSafe: a failing read or write of the eventfd itself.
- Dumping, printing, command lines, dex2oat, the disassembler and the compiler.
