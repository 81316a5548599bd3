# irext decoder: a verified model

irext turns a compressed remote-control binary and a key press into the durations of an
infrared pulse train. This project models the Android copy of the decoder
(`android-example/decodesdk/irextdecode/src`), the interrupt-driven pulse player of the
STM8 board, and the crystal trim of the CC26xx start-up code, and proves what they promise.

The model follows the form of the code: objects whose fields the C code updates in place
are classes, loops are loops with invariants, and each method is proved against a
specification function about which the properties are then proved.

- **Command-type remotes** (`Tv*.dfy`). `TvSignal` is the run-length encoder that merges
  pulses into the buffer, and its meaning as a level signal. `TvDigits` cuts key codes into
  digits of one, two or four bits in two bit orders. `TvProtocol` says what a key press and
  a run of key presses send, `TvRemote` is the decoder as it runs, `TvRecovery` reads key
  codes back out of the buffer, and `TvParse` reads the binary layout.
- **Status-type remotes** (`Ac*.dfy`, `TextFields.dfy`). `AcBits`, `AcFields`, `AcApply`
  and `AcTables` patch bit fields that may straddle bytes; `AcChecksum` is the checksum
  engine; `AcFrame` builds frames and reads them back; `AcProtocol`, `AcRemote` and
  `AcSession` are one control call and runs of them; `AcTransmission` says what a whole call
  puts on the air; `AcQueries` are the capability queries.
  `AcTags`, `AcParse`, `AcTable`, `AcFunctionTable`, `AcChecksumText`, `AcTemperature`,
  `AcFrameText` and `TextFields` are the parsers; `AcBinary` joins them from the bytes of a
  binary on, `AcSetup` says when what they give is a protocol, and `AcDegrees` follows the
  dynamic temperature from its text to the code sent.
- **Pulse player** (`DriverMachine.dfy`, `PulseDriver.dfy`). Handlers as atomic steps, the
  driver's variables as a class, and runs of any interleaving. Register writes are recorded
  as events.
- **Crystal trim** (`TrimLoops.dfy`). The stepping loops as a saturating addition.

The `*Laws.dfy` files say what the main operations answer without the functions the methods
are specified by: table positions, bits, bytes on the wire and sums appear there as the
numbers the code has for them.

## What turned out to need a condition

- A merged entry of the TV buffer wraps at 2^16. The buffer says the right signal exactly
  when every run of one level fits (`TvSignal.BufferIsFaithfulIffRunsFit`).
- The MSB-first digit order is the mirror image of the LSB-first one exactly when the digit
  width divides the field width (`TvDigits.OrdersMirrorIffWidthDivides`).
- `bits_per_byte` stops at the first entry for a later byte, so an unsorted table loses
  entries; `AcFrame.ScanIsLookupIffReached` says exactly when.
- The queries look at both tables of a parameter, a control call at the first one present.
  They differ exactly where both are present and only the second lacks the level
  (`AcQueries.Listed…IsAccepted`).
- A table's length is cut to a byte before it is halved, so a table whose data are a multiple
  of 128 bytes counts as absent (`AcTable.PrintedTableReadsBack`). For temperature and
  function tables, whose length is halved first, it is 256 bytes
  (`AcDegrees.DynamicFieldsApplied`, `AcFunctionTable.PrintedEntryIsChosen`), and
  `AcDegrees.WideTableIsSkipped` gives such a table.
- The number of swing modes is cut to a byte, too. A list of, say, 511 characters counts
  none, and only then is a swing level refused for lying outside a table
  (`AcSession.SwingRefusedOnlyWhenEmpty`).
- Inverse mode complements every digit exactly when the digits sent lie inside the byte
  (`TvProtocol.InverseComplementsIff`).
- Ordered targets are enough for all checksum equations to hold at once; two concrete block
  lists show what can go wrong without either part of the order. A byte sum over its own
  target holds exactly when everything else sums to 0 (`AcChecksum.OwnTargetHoldsIff`).
- The pulse data response of the board is complete exactly for at most 84 pulses. With no
  pulse stored a transmission ends only at the overflow that wraps the 16-bit pulse counter
  (`DriverMachine.EmptyTableStopsIffCounterWraps`). A frame that announces fewer than 3 or
  more than 20 bytes is never dispatched.
- The trim saturates, so stepping back undoes a delta only where it did not, with one
  exception at each end of the range (`TrimLoops.SteppingBackUndoesIff`).

## Model

| member | source | states |
|---|---|---|
| TvSignal.ExactEmitterRefinesConcatenation | android-example/decodesdk/irextdecode/src/ir_tv_control.c:228-308 | For every list of marks and spaces, the run-length entries written by merging expand to the plain concatenation of the level signals; only spaces before the first mark are lost. |
| TvSignal.BufferIsExactTrainModuloWord | android-example/decodesdk/irextdecode/src/ir_tv_control.c:418-453 | The 16-bit buffer is the exact merged train with every entry taken modulo 2^16: wrapping additions inside merges never do other damage. |
| TvSignal.BufferIsFaithfulIffRunsFit | android-example/decodesdk/irextdecode/src/ir_tv_control.c:418-453 | The buffer expands to the concatenated signal if and only if every run of one level fits its 16-bit entry. |
| TvSignal.SignalDeterminesTrain | android-example/decodesdk/irextdecode/src/ir_tv_control.c:228-308 | Two trains of positive entries with the same level signal are the same train: the merged form is canonical. |
| TvSignal.PushAllAppend | android-example/decodesdk/irextdecode/src/ir_tv_control.c:228-308 | Emitting one list after another into a buffer is emitting their concatenation, so items and digits can be sent one at a time. |
| TvDigits.DigitsReassemble | android-example/decodesdk/irextdecode/src/ir_tv_control.c:334-359 | The shift-and-mask digits of a code, put together again, are the code modulo 2 to the number of bits sent. |
| TvDigits.StreamsReassemble | android-example/decodesdk/irextdecode/src/ir_tv_control.c:343-358 | The LSB-first stream carries the lowest whole digits of the field; the MSB-first stream carries the field without its lowest bits % width bits. |
| TvDigits.OrdersMirrorIffWidthDivides | android-example/decodesdk/irextdecode/src/ir_tv_control.c:343-358 | The two bit orders are mirror images for every code if and only if the digit width divides the field width (or the field is narrower than one digit). |
| TvDigits.MsbDigitAt | android-example/decodesdk/irextdecode/src/ir_tv_control.c:353-357 | The i-th digit the MSB loop extracts with its shift and mask is the i-th digit of the stream. |
| TvDigits.InverseComplementsDigits | android-example/decodesdk/irextdecode/src/ir_tv_control.c:312-314 | Digits cut from a number and from its complement in k bits are complementary, as long as they lie inside the k bits. |
| TvProtocol.InverseComplementsIff | android-example/decodesdk/irextdecode/src/ir_tv_control.c:312-331 | For an item in either order and every key code, inverse mode complements every digit of the stream if and only if the digits sent lie inside the byte: whole digits up to bit 8 in LSB order, a field of at most 8 bits in MSB order. |
| TvProtocol.KeyWaveformIsConcatenation | android-example/decodesdk/irextdecode/src/ir_tv_control.c:76-95 | For every table and key, the buffer is the concatenation of the signals of the items sent if and only if no run overflows; it is always that train modulo 2^16. |
| TvProtocol.SentGroups | android-example/decodesdk/irextdecode/src/ir_tv_control.c:207-211 | Items are sent from the first on without gaps, and one is skipped only when the buffer limit has been reached. |
| TvProtocol.ToggleIsParity | android-example/decodesdk/irextdecode/src/ir_tv_control.c:88-92 | The toggle bit after n presses is the parity of n with a two-cycle flip item, and never changes without one. |
| TvProtocol.PressDependsOnKeyAndParity | android-example/decodesdk/irextdecode/src/ir_tv_control.c:76-95 | Over any sequence of keys after a parse, what the n-th press sends depends on its key and the parity of n alone. |
| TvProtocol.FlipItemAlternates | android-example/decodesdk/irextdecode/src/ir_tv_control.c:228-236 | A two-cycle flip item sends its first and its second cycle strictly in turn over any sequence of keys. |
| TvRemote.Remote.constructor | android-example/decodesdk/irextdecode/src/ir_tv_control.c:166 | After a parse the toggle bit is clear. |
| TvRemote.Remote.HoldMark | android-example/decodesdk/irextdecode/src/ir_tv_control.c:242-250 | Extends the last entry or starts a new one so that the entries are those of one more mark; entries behind the index are untouched. |
| TvRemote.Remote.HoldSpace | android-example/decodesdk/irextdecode/src/ir_tv_control.c:271-279 | The same for a space; a space before anything has been sent leaves no entry. |
| TvRemote.Remote.SendNormal | android-example/decodesdk/irextdecode/src/ir_tv_control.c:427-437 | A mark then a space, pushed on what has been written; the level is high exactly when the index is odd. |
| TvRemote.Remote.SendInverse | android-example/decodesdk/irextdecode/src/ir_tv_control.c:441-451 | A space then a mark, pushed on what has been written, under the same invariant. |
| TvRemote.Remote.ReplaceWith | android-example/decodesdk/irextdecode/src/ir_tv_control.c:418-453 | The digit copy of the emitter adds exactly the two pulses its flag asks for, and nothing for another flag. |
| TvRemote.Remote.EmitCycle | android-example/decodesdk/irextdecode/src/ir_tv_control.c:238-298 | The item copy of the emitter refines the same push of pulses, including cycles with a mark or a space only. |
| TvRemote.Remote.ConvertToIrTime | android-example/decodesdk/irextdecode/src/ir_tv_control.c:361-416 | The sixteen-way choice sends the pulses of the digit's own table position, nothing when the position is empty. |
| TvRemote.Remote.SendLsbFirst | android-example/decodesdk/irextdecode/src/ir_tv_control.c:343-350 | The loop sends the digits of the LSB-first stream in order. |
| TvRemote.Remote.SendMsbFirst | android-example/decodesdk/irextdecode/src/ir_tv_control.c:351-358 | The loop sends the digits of the MSB-first stream in order. |
| TvRemote.Remote.ProcessDecodeNumber | android-example/decodesdk/irextdecode/src/ir_tv_control.c:334-359 | The field is sent in the order its item names, nothing for an unknown order. |
| TvRemote.Remote.PrintIrTime | android-example/decodesdk/irextdecode/src/ir_tv_control.c:185-332 | One item adds exactly its pulses, complemented in inverse mode; it adds nothing once the buffer limit is reached or the logic levels are missing. |
| TvRemote.Remote.PrintCycles | android-example/decodesdk/irextdecode/src/ir_tv_control.c:221-308 | All cycles of an item in order, none when there are more than five, one of the two for a two-cycle flip item. |
| TvRemote.Remote.TvLibControl | android-example/decodesdk/irextdecode/src/ir_tv_control.c:76-95 | A key press leaves the train of its items in the buffer, whatever the buffer held; entries behind it are unchanged; the toggle bit moves as specified. |
| TvRemote.PressAll | android-example/decodesdk/irextdecode/src/ir_tv_control.c:76-95 | A sequence of presses on one remote, with new or used buffers, leaves the outputs of the session, each depending on its key and the toggle bit alone. |
| TvKeyLaws.PulseIsWritten | android-example/decodesdk/irextdecode/src/ir_tv_control.c:238-298 | In literal terms: a pulse of the level of the last entry lengthens it in sixteen bits, another starts an entry, and a space before any mark is dropped. |
| TvKeyLaws.DigitSendsItsPosition | android-example/decodesdk/irextdecode/src/ir_tv_control.c:361-416 | Digit 0 is sent as the first cycle of position 4, digit 1 as that of position 3, a digit d of 2 to 15 as that of position d + 4 if it has one; flag 0 is mark then space, flag 1 space then mark. |
| TvKeyLaws.FieldItemSends | android-example/decodesdk/irextdecode/src/ir_tv_control.c:310-359 | A field item sends, for widths 1, 2 and 4 and both orders, the cycles of the digits of its key byte (byte position behind the keys' size byte, complemented in mode 1), digit j being the code divided by two to its place, modulo two to the width. |
| TvKeyLaws.FieldItemSendsBits | android-example/decodesdk/irextdecode/src/ir_tv_control.c:343-358 | One bit a digit: group j is position 3 if bit j (order 0) or bit bits - 1 - j (order 1) of the code is set, and position 4 otherwise. |
| TvKeyLaws.CycleItemSends | android-example/decodesdk/irextdecode/src/ir_tv_control.c:213-308 | An item of one bit sends all cycles of its position, none when there are more than five, and with two at position 5 the second exactly when the toggle bit is set. |
| TvKeyLaws.NothingWithoutLogicLevels | android-example/decodesdk/irextdecode/src/ir_tv_control.c:201-205 | Without exactly one cycle at each of positions 3 and 4 no item sends anything. |
| TvKeyLaws.ItemsStopAtLimit | android-example/decodesdk/irextdecode/src/ir_tv_control.c:207-211 | Once 1636 entries are written the remaining items are skipped, and not before. |
| TvKeyLaws.TogglesIff | android-example/decodesdk/irextdecode/src/ir_tv_control.c:88-92 | A press turns the toggle bit if and only if position 5 has two cycles. |
| TvRecovery.BufferTellsTwinsApart | android-example/decodesdk/irextdecode/src/ir_tv_control.c:418-453 | Two pulse lists that differ only in the durations of mark-space digits and leave the same buffer are equal, merging and wrapping included. |
| TvRecovery.EqualBuffersEqualDigits | android-example/decodesdk/irextdecode/src/ir_tv_control.c:310-332 | When the digit symbols are mark first and told apart by duration, keys with the same buffer send the same digits in every item sent. |
| TvRecovery.KeyCodeRecoverable | android-example/decodesdk/irextdecode/src/ir_tv_control.c:310-332 | Under the same condition the low bits of each key code, in either order and mode, can be recovered from the buffer. |
| TvParse.PrintedIffRead | android-example/decodesdk/irextdecode/src/ir_tv_control.c:98-183 | Printing and reading the binary layout are inverse: a file is the printed form of tables if and only if it reads, magic word included, as those tables. |
| TvParse.ReadIsPrintable | android-example/decodesdk/irextdecode/src/ir_tv_control.c:98-169 | Whatever reads can be printed, with the counts that stand in the file. |
| TvParse.ReadIsProtocol | android-example/decodesdk/irextdecode/src/ir_tv_control.c:98-169 | The tables read are ones the emitter can play if and only if their items name existing positions and widths up to 32. |
| TvKeyLaws.WidthByPositions | android-example/decodesdk/irextdecode/src/ir_tv_control.c:122-141 | Digits have four bits with twenty positions; with eight, one bit if and only if positions 6 and 7 are empty, else two. |
| TvKeyLaws.CyclesReadAre | android-example/decodesdk/irextdecode/src/ir_tv_control.c:145-160 | Position k has as many cycles as byte 20 + k says; cycle i is the five bytes, flag, mark and space low byte first, behind all cycles before it. |
| TvKeyLaws.ItemsReadAre | android-example/decodesdk/irextdecode/src/ir_tv_control.c:162-183 | Behind the cycles stand the number of items, four bytes an item (bits, order, mode, position), the four letters of the magic word, and the keys' bytes. |
| TvParse.FlattenedCuts | android-example/decodesdk/irextdecode/src/ir_tv_control.c:147-159 | Cutting the cycles by the counts, with a running sum, undoes joining the positions' cycles. |
| TvParse.CutJoins | android-example/decodesdk/irextdecode/src/ir_tv_control.c:147-159 | Joining what was cut gives the cycles back: none lost, repeated or moved. |
| TvParse.CyclesReadBack | android-example/decodesdk/irextdecode/src/ir_tv_control.c:145-160 | The packed five-byte little-endian records at a place are given cycles if and only if the bytes there are the ones of those cycles. |
| TvParse.ItemsReadBack | android-example/decodesdk/irextdecode/src/ir_tv_control.c:162-168 | The same for the four-byte items. |
| TvParse.Reader.constructor | android-example/decodesdk/irextdecode/src/ir_tv_control.c:57-64 | The reader holds the binary it was opened with. |
| TvParse.Reader.LocateCycles | android-example/decodesdk/irextdecode/src/ir_tv_control.c:146-159 | The loop with its one-byte sum finds each position's cycles. |
| TvParse.Reader.GetIrProtocol | android-example/decodesdk/irextdecode/src/ir_tv_control.c:98-169 | Fails for an encoding other than 0 and 1; otherwise reads the tables, sets the digit width and clears the toggle bit. |
| TvParse.Reader.GetIrKeymap | android-example/decodesdk/irextdecode/src/ir_tv_control.c:171-183 | Succeeds if and only if the magic word stands at the offset, and then takes the key codes behind it. |
| TvParse.Reader.TvLibParse | android-example/decodesdk/irextdecode/src/ir_tv_control.c:66-74 | Succeeds if and only if the encoding is known and the magic word is there, and then holds the tables of the binary. |
| AcBits.BitsDetermineBuffer | android-example/decodesdk/irextdecode/src/ir_ac_apply.c:48-132 | The MSB-first bit string determines the bytes, so a patch is fixed by what it does to bits. |
| AcBits.SetFieldReadsBack | android-example/decodesdk/irextdecode/src/ir_ac_apply.c:94-130 | A field set to a value reads back as the value modulo 2 to its width. |
| AcFields.OneByteSet | android-example/decodesdk/irextdecode/src/ir_ac_apply.c:68-92 | The mask arithmetic of the one-byte branch sets exactly the bits of the field in the bit string. |
| AcFields.OneByteValue | android-example/decodesdk/irextdecode/src/ir_ac_apply.c:68-92 | The shifts of the one-byte branch read exactly the field's value. |
| AcFields.TwoByteSet | android-example/decodesdk/irextdecode/src/ir_ac_apply.c:93-130 | The two masks of the straddling branch together set exactly the bits of the field. |
| AcFields.TwoByteValue | android-example/decodesdk/irextdecode/src/ir_ac_apply.c:93-130 | The two shifted halves of the straddling branch put together are exactly the field's value. |
| AcFields.EndZeroLeavesCode | android-example/decodesdk/irextdecode/src/ir_ac_apply.c:66-67 | An end of 0 gives byte 255 for every start: the two-byte branch would leave every code, so no such triple counts as inside. |
| AcApply.PatchInByte | android-example/decodesdk/irextdecode/src/ir_ac_apply.c:68-92 | The one-byte branch sets the field, or adds to it modulo 2 to its width, and changes no other bit. |
| AcApply.PatchTwoBytes | android-example/decodesdk/irextdecode/src/ir_ac_apply.c:93-130 | The same for a field that straddles two bytes. |
| AcApply.ApplyType2 | android-example/decodesdk/irextdecode/src/ir_ac_apply.c:48-132 | A table triple patches its field in either branch; it is refused, with nothing changed, exactly for a table of the wrong length or a field that starts in a later byte than it ends. |
| AcApply.ApplyType1 | android-example/decodesdk/irextdecode/src/ir_ac_apply.c:29-46 | A table pair sets, or adds to, one byte and no other; refused for an odd table. |
| AcApply.ApplyTable1 | android-example/decodesdk/irextdecode/src/ir_ac_apply.c:138-152 | The loop over a byte table is the fold of its entries over the buffer. |
| AcApply.ApplyTable2 | android-example/decodesdk/irextdecode/src/ir_ac_apply.c:187-192 | The loop over a field table is the fold of its entries; an entry that starts in a later byte than it ends is skipped and the others are applied. |
| AcTables.LastWriterWins | android-example/decodesdk/irextdecode/src/ir_ac_apply.c:187-192 | After a set table, each bit holds what the last entry covering it wrote; uncovered bits are unchanged, refused entries cover nothing. |
| AcTables.FieldsApart | android-example/decodesdk/irextdecode/src/ir_ac_apply.c:187-192 | When the entries do not overlap, each bit holds what the one entry covering it writes, computed from the buffer before the table, and uncovered bits are unchanged. |
| AcTables.FieldsCommute | android-example/decodesdk/irextdecode/src/ir_ac_apply.c:187-192 | Tables with the same non-overlapping entries in any order have the same effect. |
| AcTables.FieldsAdded | android-example/decodesdk/irextdecode/src/ir_ac_apply.c:284-290 | A temperature table adds to each of its non-overlapping fields that is not refused, modulo 2 to the width. |
| AcTables.LastPutWins | android-example/decodesdk/irextdecode/src/ir_ac_apply.c:170-174 | After a set table of bytes, each byte holds its last entry's value. |
| AcTables.BytesAdded | android-example/decodesdk/irextdecode/src/ir_ac_apply.c:262-267 | A temperature table of bytes adds to each byte all that is listed for it, modulo 256. |
| AcChecksum.AllBlocksHold | android-example/decodesdk/irextdecode/src/ir_ac_apply.c:563-606 | After all blocks, every block's equation holds at once, if no block writes what it or an earlier block reads or an earlier block writes. |
| AcChecksum.UntargetedKept | android-example/decodesdk/irextdecode/src/ir_ac_apply.c:563-606 | A half byte no block targets is unchanged, in any order of blocks. |
| AcChecksum.StoreEffect | android-example/decodesdk/irextdecode/src/ir_ac_apply.c:437-451 | Storing writes the target byte or half byte and leaves every other half byte alone. |
| AcChecksum.CodeFrame | android-example/decodesdk/irextdecode/src/ir_ac_apply.c:405-430 | A block's checksum depends on the half bytes it lists or spans and on nothing else. |
| AcChecksum.OwnTargetBreaksBlock | android-example/decodesdk/irextdecode/src/ir_ac_apply.c:349-375 | A concrete block that sums its own target, whose equation fails afterwards: the condition is needed. |
| AcChecksum.OwnTargetHoldsIff | android-example/decodesdk/irextdecode/src/ir_ac_apply.c:349-375 | For every buffer and every byte-sum block whose range holds its target: the equation holds afterwards if and only if the other bytes and the constant sum to 0 modulo 256; for the complement, if and only if they and twice the old target sum to 255. |
| AcChecksum.LaterTargetBreaksEarlierBlock | android-example/decodesdk/irextdecode/src/ir_ac_apply.c:563-606 | Two concrete blocks where the later target spoils the earlier equation. |
| AcChecksumLaws.SumBytesIsTotal | android-example/decodesdk/irextdecode/src/ir_ac_apply.c:359-362 | The byte sum is, modulo 256, the sum of the bytes as numbers. |
| AcChecksumLaws.SumHalvesIsTotal | android-example/decodesdk/irextdecode/src/ir_ac_apply.c:387-390 | The half byte sum is, modulo 256, the sum over the range of byte / 16 + byte % 16. |
| AcChecksumLaws.SumListedIsTotal | android-example/decodesdk/irextdecode/src/ir_ac_apply.c:417-430 | The listed sum adds byte q / 2 divided by 16 for q even and its rest for q odd. |
| AcChecksumLaws.HoldsIsSatisfied | android-example/decodesdk/irextdecode/src/ir_ac_apply.c:349-496 | Each kind's equation as one of numbers: sum plus constant modulo 256, or 255 less that for the even kinds, in the whole target byte or, for kinds 5 and 6, its rest modulo 16 in the half byte. |
| AcChecksumLaws.SentChecksumsAreSatisfied | android-example/decodesdk/irextdecode/src/ir_decode.c:355-357 | In the code a call sends, with ordered blocks, all these equations hold at once. |
| AcChecksumLaws.ReadsAndWritesAre | android-example/decodesdk/irextdecode/src/ir_ac_apply.c:349-496 | Which half bytes a block reads and writes, by its kind, range, list and target. |
| AcChecksum.ApplyChecksumByte | android-example/decodesdk/irextdecode/src/ir_ac_apply.c:349-375 | Stores the byte sum plus the constant, complemented or not; ignored when too short. |
| AcChecksum.ApplyChecksumHalfbyte | android-example/decodesdk/irextdecode/src/ir_ac_apply.c:377-403 | The same for the sum of half bytes of a range. |
| AcChecksum.SumListedHalves | android-example/decodesdk/irextdecode/src/ir_ac_apply.c:417-430 | The loop sums exactly the listed half bytes, high or low by the parity of the position. |
| AcChecksum.ApplyChecksumSpecByte | android-example/decodesdk/irextdecode/src/ir_ac_apply.c:405-454 | Stores the sum of listed half bytes in one half byte and keeps the other. |
| AcChecksum.ApplyChecksumSpecByteOnebyte | android-example/decodesdk/irextdecode/src/ir_ac_apply.c:456-496 | Stores the sum of listed half bytes in the whole byte of its position. |
| AcChecksum.ApplyChecksum | android-example/decodesdk/irextdecode/src/ir_ac_apply.c:563-606 | All blocks in order, each read from the buffer the earlier ones left; unknown kinds do nothing. |
| AcChecksumText.BlocksReadBack | android-example/decodesdk/irextdecode/src/ir_ac_parse_parameter.c:577-621 | Printed checksum blocks of every kind, joined by bars, are read back, all and in order. |
| AcChecksumText.BlockReadsBack | android-example/decodesdk/irextdecode/src/ir_ac_parse_parameter.c:507-575 | One printed block is read back, with or without the optional constant. |
| AcChecksumText.ReadBlockFitsIff | android-example/decodesdk/irextdecode/src/ir_ac_parse_parameter.c:455-479 | A block read lists exactly as many half bytes as its application reads; it is ignored exactly when that is none, and otherwise fits a code exactly when its positions lie inside. |
| AcChecksumText.ParseChecksumData | android-example/decodesdk/irextdecode/src/ir_ac_parse_parameter.c:507-575 | A block is refused when its length byte or its kind is wrong, and read otherwise. |
| AcChecksumText.ParseChecksum | android-example/decodesdk/irextdecode/src/ir_ac_parse_parameter.c:577-621 | The parse succeeds if and only if every block does, and then gives all of them in order; the length kept, on which the application depends, is never 0. |
| AcChecksumText.ParseChecksumMalloc | android-example/decodesdk/irextdecode/src/ir_ac_parse_parameter.c:481-505 | Counts one block more than there are bars and keeps the length of the text without them. |
| AcChecksumText.BlocksArePresent | android-example/decodesdk/irextdecode/src/ir_ac_parse_parameter.c:491 | A text of complete blocks never keeps the length 0, so its blocks are applied. |
| AcFrame.ScanIsLookupIffReached | android-example/decodesdk/irextdecode/src/ir_ac_build_frame.c:19-40 | The scan with its early exit agrees with a lookup if and only if no entry for a later byte stands before the byte's own, or that entry says the default of 8. |
| AcFrame.SortedScanIsLookup | android-example/decodesdk/irextdecode/src/ir_ac_build_frame.c:19-40 | With a table sorted by position the scan is a plain lookup for every byte. |
| AcFrame.ByteReadsBack | android-example/decodesdk/irextdecode/src/ir_ac_build_frame.c:107-126 | The symbols of a byte decode to its low bits in either endianness and for every width the C masks are defined for (below 32), widths above 8 included. |
| AcFrame.FrameDecodes | android-example/decodesdk/irextdecode/src/ir_ac_build_frame.c:89-143 | Every byte of a frame decodes, modulo 2 to its width, at an offset that depends on the layout only. |
| AcFrame.FramesFaithfulIffSymbolsDiffer | android-example/decodesdk/irextdecode/src/ir_ac_build_frame.c:89-143 | Frames determine the bits sent if and only if the one and zero symbols differ. |
| AcFrame.EqualSymbolsHideBytes | android-example/decodesdk/irextdecode/src/ir_ac_build_frame.c:107-126 | With equal symbols all codes of a length give the same frame. |
| AcFrame.CopyAt | android-example/decodesdk/irextdecode/src/ir_ac_build_frame.c:134-140 | Every one of the repeated parts of the output is the frame. |
| AcFrame.CopiesLength | android-example/decodesdk/irextdecode/src/ir_ac_build_frame.c:134-140 | The output is as long as its copies together. |
| AcFrame.FrameBuilder.BitsOfByte | android-example/decodesdk/irextdecode/src/ir_ac_build_frame.c:19-40 | The loop returns what the scan specification says. |
| AcFrame.FrameBuilder.AddDelaycode | android-example/decodesdk/irextdecode/src/ir_ac_build_frame.c:42-87 | Appends all delays listed for the byte, then, after the last byte, the last mark unless switched off and the last tail entry. |
| AcFrame.FrameBuilder.AddByte | android-example/decodesdk/irextdecode/src/ir_ac_build_frame.c:107-126 | Appends the byte's symbols, one a bit, in the order of the endianness. |
| AcFrame.FrameBuilder.BuildFrame | android-example/decodesdk/irextdecode/src/ir_ac_build_frame.c:97-131 | Appends boot code, and symbols and delays byte by byte: one whole frame. |
| AcFrame.FrameBuilder.CreateIrFrame | android-example/decodesdk/irextdecode/src/ir_ac_build_frame.c:89-143 | The buffer starts with max(1, repeat times) copies of the frame; the code is not changed. |
| AcFrameLaws.SymbolSaysWhichBit | android-example/decodesdk/irextdecode/src/ir_ac_build_frame.c:109-127 | Symbol j of a byte sent with n bits is the one-symbol if and only if bit n - 1 - j (endianness 0) or bit j (any other) of the byte is set, bits from 8 on being clear. |
| AcFrameLaws.WidthIs | android-example/decodesdk/irextdecode/src/ir_ac_build_frame.c:19-40 | The width of a byte is that of its first entry, in a byte, if no entry for a later byte stands before it, and 8 otherwise. |
| AcFrameLaws.DelaysAre | android-example/decodesdk/irextdecode/src/ir_ac_build_frame.c:53-61 | Behind a byte stand the times of all entries for its place, in table order. |
| AcFrameLaws.TailIs | android-example/decodesdk/irextdecode/src/ir_ac_build_frame.c:62-84 | The tail is the times of the last entry at place -1, nothing without one. |
| AcFrameLaws.FrameIs | android-example/decodesdk/irextdecode/src/ir_ac_build_frame.c:97-131 | A frame is the boot code and, byte by byte, its symbols and delays, and behind the last byte the last mark, if lastbit is 0, and the tail. |
| AcFrameLaws.WaveformIs | android-example/decodesdk/irextdecode/src/ir_ac_build_frame.c:132-142 | The output is the frame once, or as often as the repeat times say when they are more. |
| AcRemote.Remote.constructor | android-example/decodesdk/irextdecode/src/ir_ac_control.c:76-94 | After a parse the wind direction is at its start. |
| AcRemote.Remote.ApplyParameter | android-example/decodesdk/irextdecode/src/ir_ac_apply.c:154-194 | The type 1 table is used when present, the type 2 table only otherwise; a level outside the table or without patches fails and changes nothing. |
| AcRemote.Remote.ApplyPower | android-example/decodesdk/irextdecode/src/ir_ac_apply.c:134-152 | Patches the power level's bytes; a missing level changes nothing and is no failure. |
| AcRemote.Remote.ApplyMode | android-example/decodesdk/irextdecode/src/ir_ac_apply.c:614-627 | Fails exactly for a mode without patches in the table in use. |
| AcRemote.Remote.ApplyWindSpeed | android-example/decodesdk/irextdecode/src/ir_ac_apply.c:629-677 | A banned or missing speed changes nothing and fails only when the key is about the speed. |
| AcRemote.Remote.ApplyTemperature | android-example/decodesdk/irextdecode/src/ir_ac_apply.c:722-774 | The same for the temperature, whose dynamic tables add instead of set. |
| AcRemote.Remote.MoveWind | android-example/decodesdk/irextdecode/src/ir_ac_apply.c:679-705 | Moves the direction index and the swing status as one step of the wind machine, with its one-byte wrap. |
| AcRemote.Remote.ApplySwing | android-example/decodesdk/irextdecode/src/ir_ac_apply.c:679-720 | Patches for the new swing status; a refused level fails only for a swing key that has no function patches. |
| AcRemote.Remote.ApplyFunction | android-example/decodesdk/irextdecode/src/ir_ac_apply.c:519-561 | The function's own patches, from the first table present. |
| AcRemote.Remote.ApplySolo | android-example/decodesdk/irextdecode/src/ir_decode.c:302-306 | A solo function applies its own stage only. |
| AcRemote.Remote.ApplyLevels | android-example/decodesdk/irextdecode/src/ir_decode.c:309-328 | Power, mode and speed in order, each unless sent solo, stopping at the first failure. |
| AcRemote.Remote.ApplyAir | android-example/decodesdk/irextdecode/src/ir_decode.c:330-346 | Swing and temperature, each unless sent solo, stopping at the first failure. |
| AcRemote.Remote.ApplyStatus | android-example/decodesdk/irextdecode/src/ir_decode.c:292-353 | The stages of a whole status and whether the call goes on. |
| AcRemote.Remote.LibControl | android-example/decodesdk/irextdecode/src/ir_decode.c:260-374 | The output of a call is a function of protocol, status, key, change flag and wind state alone, whatever the buffers held; failing calls send nothing; the wind moves as specified. |
| AcSession.DirectionIsNumberOfMoves | android-example/decodesdk/irextdecode/src/ir_ac_apply.c:679-705 | After any run of calls from a parse, with m > 1 modes, the direction index is ((n-1) mod (m-1)) + 1 for n > 0 wind-fix moves that got through (0 for none), and the swing status is it or 0 by the last swing key. |
| AcSession.SwingStaysInTable | android-example/decodesdk/irextdecode/src/ir_ac_apply.c:295-347 | Over any run in normal mode the swing status is below the number of swing levels if and only if there are any; with fewer than two modes it is 0. |
| AcSession.SwingRefusedOnlyWhenEmpty | android-example/decodesdk/irextdecode/src/ir_ac_apply.c:295-347 | On any run a swing level is refused if and only if the table in use has no patches for it, or the parse counted no modes at all (the count is cut to a byte). |
| AcSession.OutputAt | android-example/decodesdk/irextdecode/src/ir_decode.c:260-374 | In a run of calls, each output is the one of its call in the wind state the calls before it leave. |
| AcSession.ControlAll | android-example/decodesdk/irextdecode/src/ir_decode.c:260-374 | A run of calls on one remote, with new or used buffers, gives the outputs of the run and leaves its wind state, whatever the buffers held. |
| AcSession.WindKept | android-example/decodesdk/irextdecode/src/ir_decode.c:260-374 | Calls that are not about swing leave the wind state alone. |
| AcSession.SameCallSameFrame | android-example/decodesdk/irextdecode/src/ir_decode.c:281 | The same call sends the same frame again after any calls in between that do not swing: patches and dynamic temperatures never accumulate. |
| AcTransmission.UntouchedBitIsDefault | android-example/decodesdk/irextdecode/src/ir_decode.c:260-374 | Over a whole call, a bit that no stage's patches cover and no checksum writes is the default code's. |
| AcTransmission.SentChecksumsHold | android-example/decodesdk/irextdecode/src/ir_decode.c:355-357 | In the code a call sends every checksum equation of the protocol holds, for ordered blocks. |
| AcTransmission.FunctionPatchStands | android-example/decodesdk/irextdecode/src/ir_decode.c:355 | The function's own patches, applied last, are the last word on every bit no checksum writes, whatever the status patches before. |
| AcTransmission.OutputDecodes | android-example/decodesdk/irextdecode/src/ir_decode.c:281-359 | Every copy in the output of a call that sends decodes, byte by byte, to the code sent modulo 2 to the byte's width. |
| AcCallLaws.PowerOffIsSent | android-example/decodesdk/irextdecode/src/ir_ac_apply.c:134-152 | Switched off, a call sends what the last entry for a bit in power entry 1 says, where the function's patches do not cover it. |
| AcCallLaws.PowerOnIsSent | android-example/decodesdk/irextdecode/src/ir_ac_apply.c:134-152 | With the whole status, power entry 0 stands in the code sent where no later parameter covers it. |
| AcCallLaws.ModeIsSent | android-example/decodesdk/irextdecode/src/ir_ac_apply.c:154-194 | The entry of the status' mode in the mode table in use stands where speed, swing, temperature and function do not cover it. |
| AcCallLaws.SpeedIsSent | android-example/decodesdk/irextdecode/src/ir_ac_apply.c:196-236 | The entry of the status' wind speed, unless banned in the mode, stands where swing, temperature and function do not cover it. |
| AcCallLaws.SwingIsSent | android-example/decodesdk/irextdecode/src/ir_ac_apply.c:295-347 | The entry of the swing level the key leads to stands where temperature and function do not cover it. |
| AcCallLaws.TemperatureIsSent | android-example/decodesdk/irextdecode/src/ir_ac_apply.c:238-293 | The entry of the status' temperature in a static table, unless banned in the mode, stands where the function does not cover it. |
| AcCallLaws.FunctionIsSent | android-example/decodesdk/irextdecode/src/ir_ac_apply.c:519-561 | Entry function - 1 of the function table in use stands in every code sent. |
| AcCallLaws.SoloKeyIsSent | android-example/decodesdk/irextdecode/src/ir_decode.c:302-306 | On a solo key only its own parameter is sent before the function: power (1), mode (2), speed (5), swing (6, 7). |
| AcCallLaws.SoloTemperatureIsSent | android-example/decodesdk/irextdecode/src/ir_decode.c:302-306 | The same for the temperature keys (3, 4). |
| AcCallLaws.SparedBitIsDefault | android-example/decodesdk/irextdecode/src/ir_decode.c:281-359 | With the whole status, a bit that no table in use lists and no checksum writes is the default code's. |
| AcCallLaws.SoloIsBit | android-example/decodesdk/irextdecode/src/ir_ac_control.c:545-548 | Function f is solo if and only if bit f - 1 of the mark is set. |
| AcCallLaws.SendsIff | android-example/decodesdk/irextdecode/src/ir_decode.c:260-359 | When a call sends: a default code, and when on an enabled mode and a solo key, or the mode there, the speed there and allowed for key 5, the swing or function patches there for keys 6 and 7, the temperature there and allowed for keys 3 and 4, each unless sent solo. |
| AcCallLaws.WindAfterIs | android-example/decodesdk/irextdecode/src/ir_ac_apply.c:679-706 | When the swing is applied, key 7 with several modes moves the direction on, from the last back to 1, if a change is asked for, and sets the status to it; key 6 sets the status to 0; other keys, and calls that do not reach the swing, leave both. |
| AcDegreeLaws.FieldDegreesAreSent | android-example/decodesdk/irextdecode/src/ir_decode.c:281-357 | On a whole call, in numbers: the field named by bytes 3k + 1 and 3k + 2 of the text ends at the default code's number plus byte 3k + 3 times the temperature level, modulo two to its width; plus nothing for data of a multiple of 256 bytes. |
| AcDegreeLaws.ByteDegreesAreSent | android-example/decodesdk/irextdecode/src/ir_decode.c:281-357 | On a whole call, in numbers: a byte ends at the default code's plus all steps the text lists for it times the level, modulo 256. |
| AcProtocol.IsIn | android-example/decodesdk/irextdecode/src/ir_utils.c:87-98 | True if and only if the list names the value. |
| AcQueries.ListedTempIsAccepted | android-example/decodesdk/irextdecode/src/ir_decode.c:390-429 | A temperature is listed if and only if a call accepts it, except where both tables are present and the second, which calls ignore, has no patches for it. |
| AcQueries.ListedSpeedIsAccepted | android-example/decodesdk/irextdecode/src/ir_decode.c:453-485 | The same for wind speeds. |
| AcQueries.ListedModeIsAccepted | android-example/decodesdk/irextdecode/src/ir_decode.c:431-451 | The same for modes that are enabled. |
| AcQueries.GetTemperatureRange | android-example/decodesdk/irextdecode/src/ir_decode.c:390-429 | The range has listed, and so accepted, ends and contains every listed level; with at most one table every accepted level lies inside; -1 and -1 mean there is none. |
| AcQueries.GetSupportedMode | android-example/decodesdk/irextdecode/src/ir_decode.c:431-451 | Bit m is set if and only if mode m is listed; set bits are enabled and accepted, and conversely with at most one table. |
| AcQueries.GetSupportedWindSpeed | android-example/decodesdk/irextdecode/src/ir_decode.c:453-485 | Bit v is set if and only if speed v is listed; set bits are accepted, and conversely with at most one table. |
| AcQueries.SoloMark | android-example/decodesdk/irextdecode/src/ir_ac_control.c:378-390 | Bit f-1 of the mark is set if and only if function f is among the solo codes. |
| AcParse.HexReadsBack | android-example/decodesdk/irextdecode/src/ir_utils.c:14-41 | Bytes printed as two hex characters each read back, for all bytes. |
| AcParse.StringToHexCommon | android-example/decodesdk/irextdecode/src/ir_utils.c:31-41 | Fills the bytes of the character pairs and leaves the rest of the buffer alone. |
| AcParse.ParseCompData | android-example/decodesdk/irextdecode/src/ir_ac_parse_parameter.c:20-44 | One length-prefixed segment, empty ones included, and the offset behind it. |
| AcParse.ParseCommonAcParameter | android-example/decodesdk/irextdecode/src/ir_ac_parse_parameter.c:72-137 | The first slots are the segments of the text; the slots beyond the last segment keep what they had. |
| AcParse.FillSlots | android-example/decodesdk/irextdecode/src/ir_ac_parse_parameter.c:99-131 | The loop with its early exit reads segments until the data or the slots run out. |
| AcParse.SegmentsReadBack | android-example/decodesdk/irextdecode/src/ir_ac_parse_parameter.c:72-137 | Segments printed with length prefixes as hex text are parsed back, empty ones included, as many as there are slots. |
| AcTable.ParseTable | android-example/decodesdk/irextdecode/src/ir_ac_control.c:158-209 | A table has one level a slot: the segments of its text, then empty levels; its kept length is the text's length as a byte, halved. |
| AcTable.PrintedTableReadsBack | android-example/decodesdk/irextdecode/src/ir_ac_control.c:158-167 | Printed segments come back as the table's levels; the table nevertheless counts as absent if and only if its data are a multiple of 128 bytes, because the length is cut to a byte. |
| AcTable.ParseSwingInfo | android-example/decodesdk/irextdecode/src/ir_ac_parse_parameter.c:1104-1146 | Reads the kind of swing and the number of modes; fails, changing nothing, exactly for one character other than 0 and 1. |
| AcTable.ListedModesAreCounted | android-example/decodesdk/irextdecode/src/ir_ac_parse_parameter.c:1139-1145 | A list of m > 1 one-character modes is normal swing with m modes, in a byte. |
| AcTable.ParseSwing | android-example/decodesdk/irextdecode/src/ir_ac_control.c:76-143 | The swing part of the parse: present swing tables occur in normal mode only and have exactly one level a mode. |
| AcFunctionTable.LastEntryCounts | android-example/decodesdk/irextdecode/src/ir_ac_parse_parameter.c:623-688 | Of the entries for a function the last one counts, and a function without any keeps its slot, for all lists of entries. |
| AcFunctionTable.EntriesReadBack | android-example/decodesdk/irextdecode/src/ir_ac_parse_parameter.c:690-744 | Printed function entries are read back, as many as there are functions. |
| AcFunctionTable.PrintedSlotIsRead | android-example/decodesdk/irextdecode/src/ir_ac_parse_parameter.c:690-744 | A table printed with one entry a function, in any order, gives each function its own patches when parsed, and none to the others. |
| AcFunctionTable.PrintedEntryIsChosen | android-example/decodesdk/irextdecode/src/ir_ac_apply.c:519-540 | A call with the printed table first uses its function's entry if and only if the table is not a multiple of 256 bytes, because the length kept is a byte; otherwise the second table decides. |
| AcFunctionTable.ParseFunction | android-example/decodesdk/irextdecode/src/ir_ac_parse_parameter.c:623-688 | One entry: fills its function's slot, ignores unsupported functions, and moves on by its length, also when that is 0. |
| AcFunctionTable.FillFunctions | android-example/decodesdk/irextdecode/src/ir_ac_parse_parameter.c:715-737 | The loop stops when the data or the functions run out. |
| AcFunctionTable.ParseFunctionTable | android-example/decodesdk/irextdecode/src/ir_ac_parse_parameter.c:690-744 | The table of a text: the fold of its entries over cleared slots, and the text's length in bytes, cut to a byte. |
| AcTemperature.BuildLevel1 | android-example/decodesdk/irextdecode/src/ir_ac_parse_parameter.c:234-252 | A dynamic level lists the positions with the steps times the level, cut to a byte. |
| AcTemperature.BuildLevel2 | android-example/decodesdk/irextdecode/src/ir_ac_parse_parameter.c:775-800 | The same for field triples. |
| AcTemperature.ParseTemp1 | android-example/decodesdk/irextdecode/src/ir_ac_parse_parameter.c:204-277 | The length kept is the data's, cut to a byte; dynamic exactly when the first byte counts the others, and then every level is the scaled list, otherwise the segments of the text, the levels without one empty. |
| AcTemperature.ParseTemp2 | android-example/decodesdk/irextdecode/src/ir_ac_parse_parameter.c:746-824 | The same for field tables; with 256 bytes of data the length kept is 0. |
| AcTemperature.DynamicBytes | android-example/decodesdk/irextdecode/src/ir_ac_apply.c:262-267 | A level of a dynamic table applied: each byte ends at what it held + step * t modulo 256, although the product was cut to a byte before. |
| AcTemperature.DynamicFields | android-example/decodesdk/irextdecode/src/ir_ac_apply.c:284-290 | A level of a dynamic table applied: each listed non-overlapping field of width w that is not refused ends at what it held + step * t modulo 2^w. |
| AcDegrees.DynamicFieldsApplied | android-example/decodesdk/irextdecode/src/ir_ac_apply.c:238-293 | Parse and apply together, for a type 2 table in use: the level is applied if and only if the data are not a multiple of 256 bytes; each listed field moves by step * t then, and by nothing otherwise. |
| AcDegrees.DynamicBytesApplied | android-example/decodesdk/irextdecode/src/ir_ac_apply.c:238-265 | Parse and apply together, for a type 1 table of whole entries: it always counts, and each byte moves by step * t modulo 256. |
| AcDegrees.WideTableIsSkipped | android-example/decodesdk/irextdecode/src/ir_ac_apply.c:268-271 | A concrete dynamic table of 256 bytes whose 85 fields lie apart inside 32 bytes, and which adds nothing although each step is 1. |
| AcDegrees.SentFieldIsDefaultPlusSteps | android-example/decodesdk/irextdecode/src/ir_decode.c:281-357 | On a whole call: in the code sent, a field that nothing but the temperature touches is the default code's + step * t modulo 2^w, or the default code's when the kept length is 0. |
| AcDegrees.SentByteIsDefaultPlusSteps | android-example/decodesdk/irextdecode/src/ir_decode.c:281-357 | On a whole call: in the code sent, a byte that nothing but the temperature touches is the default code's + step * t modulo 256. |
| AcSetup.ParseTables | android-example/decodesdk/irextdecode/src/ir_ac_control.c:76-341 | The parse of all tables: each holds what its text says; it fails exactly for a bad checksum block. |
| AcSetup.ParsedIsProtocolIff | android-example/decodesdk/irextdecode/src/ir_ac_control.c:76-341 | Whatever the texts, a call can use the parsed tables if and only if the patches of the tables that count, and the checksums, lie inside the code; the numbers of levels are always right. |
| AcBinary.CutTag | android-example/decodesdk/irextdecode/src/ir_ac_binary_parse.c:112-121 | The text of a tag number is cut from the binary by the offset and length found for its place in the table; absent tags have none. |
| AcBinary.ParseBinary | android-example/decodesdk/irextdecode/src/ir_ac_control.c:38-345 | From the bytes of a binary to its tables: each table holds what the text of its tag says; it fails exactly for another number of tags or a bad checksum block. |
| AcBinary.PrintedTagsInside | android-example/decodesdk/irextdecode/src/ir_ac_binary_parse.c:30-95 | A binary printed from the bytes of its tags has its offsets in order and inside the body. |
| AcBinary.PrintedTagReadsBack | android-example/decodesdk/irextdecode/src/ir_ac_binary_parse.c:30-121 | A binary printed from the bytes of its tags is cut back into the same bytes, whichever tags are absent. |
| AcTextLaws.HexDigitsAre | android-example/decodesdk/irextdecode/src/ir_utils.c:14-24 | The sixteen digits, in either case, are worth their place. |
| AcTextLaws.HexByteIs | android-example/decodesdk/irextdecode/src/ir_utils.c:26-41 | Byte i of a text is sixteen times its character 2 i plus its character 2 i + 1. |
| AcTextLaws.SegmentIs | android-example/decodesdk/irextdecode/src/ir_ac_parse_parameter.c:20-44 | A segment is a length byte and its bytes. |
| AcTextLaws.FunctionEntryIs | android-example/decodesdk/irextdecode/src/ir_ac_parse_parameter.c:623-688 | A function entry, its length with the function counted, the function, the bytes, gives slot function - 1 its bytes and the other slots none. |
| AcTextLaws.EntryEndIs | android-example/decodesdk/irextdecode/src/ir_ac_parse_parameter.c:640-685 | An entry of length 0 is two bytes long, any other its length and one. |
| AcTextLaws.ListedBlockIs | android-example/decodesdk/irextdecode/src/ir_ac_parse_parameter.c:455-479 | A listed checksum block is length, kind, target, constant and the list. |
| AcTextLaws.SwingTextsAre | android-example/decodesdk/irextdecode/src/ir_ac_parse_parameter.c:1117-1137 | No text is normal swing with two modes, 0 no swing, 1 swing only. |
| AcTextLaws.DelayTextIs | android-example/decodesdk/irextdecode/src/ir_ac_parse_frame_info.c:116-170 | A delay is its position, an ampersand and its times between commas, in sixteen bits, the position signed. |
| AcTextLaws.OffsetsAre | android-example/decodesdk/irextdecode/src/ir_ac_binary_parse.c:47-57 | Offset i stands in bytes 2 i + 1 and 2 i + 2, low byte first. |
| AcTextLaws.TextsComeFrom | android-example/decodesdk/irextdecode/src/ir_ac_binary_parse.c:19-28 | Which of the 29 entries of the tag table holds which table's text. |
| AcTextLaws.TablesComeFrom | android-example/decodesdk/irextdecode/src/ir_ac_control.c:100-341 | Each table of the protocol is parsed from its own entry of the tag table, with its own number of levels. |
| AcTags.BinaryParseOffset | android-example/decodesdk/irextdecode/src/ir_ac_binary_parse.c:30-60 | Fails exactly for another number of tags; otherwise reads all little-endian offsets, absent tags getting length 0. |
| AcTags.BinaryParseLen | android-example/decodesdk/irextdecode/src/ir_ac_binary_parse.c:62-95 | Every tag's length is the distance to the next present tag, or to the end of the body, in 16 bits. |
| AcTags.ContiguousIffInOrder | android-example/decodesdk/irextdecode/src/ir_ac_binary_parse.c:62-95 | Each present tag's data ends where the next one's begins if and only if no offset exceeds the next present one or the body's end. |
| AcTags.TagsTileBody | android-example/decodesdk/irextdecode/src/ir_ac_binary_parse.c:62-95 | In order, the tags' data tile the body from the first present offset to the end: inside, without gaps, without overlap, wherever the last present tag falls. |
| AcTags.LengthsTelescope | android-example/decodesdk/irextdecode/src/ir_ac_binary_parse.c:62-95 | For all offsets the lengths add up, modulo 2^16, to the body from the first present offset on. |
| TextFields.FieldsAreSeparatorsPlusOne | android-example/decodesdk/irextdecode/src/ir_ac_parse_frame_info.c:27-49 | Splitting gives exactly one field more than there are separators. |
| TextFields.SplitFields | android-example/decodesdk/irextdecode/src/ir_ac_parse_frame_info.c:31-49 | The comma scanner returns exactly the fields; it ends because len + 1 - index shrinks. |
| TextFields.SplitPieces | android-example/decodesdk/irextdecode/src/ir_ac_parse_frame_info.c:181-197 | The bar scanner returns exactly the pieces. |
| TextFields.SplitJoin | android-example/decodesdk/irextdecode/src/ir_ac_parse_frame_info.c:116-200 | Splitting what was joined gives the fields back, empty ones included. |
| TextFields.NumberReadsBack | android-example/decodesdk/irextdecode/src/ir_ac_parse_frame_info.c:43 | A printed integer, negative ones included, is read back. |
| AcFrameText.FrameParameters.ParseBootCode | android-example/decodesdk/irextdecode/src/ir_ac_parse_frame_info.c:20-52 | The boot code is the numbers of the text's fields. |
| AcFrameText.FrameParameters.ParseDelayCodePos | android-example/decodesdk/irextdecode/src/ir_ac_parse_frame_info.c:146-170 | Adds one entry: the position before the ampersand and the times behind it. |
| AcFrameText.FrameParameters.ParseDelayCode | android-example/decodesdk/irextdecode/src/ir_ac_parse_frame_info.c:172-200 | Adds one entry a piece, in order. |
| AcFrameText.FrameParameters.ParseBitNum | android-example/decodesdk/irextdecode/src/ir_ac_parse_frame_info.c:296-329 | Reads one width a piece, and turns position -1 into the last byte's. |
| AcFrameText.NumbersReadBack | android-example/decodesdk/irextdecode/src/ir_ac_parse_frame_info.c:116-144 | A printed list of times parses back to itself. |
| AcFrameText.DelaysReadBack | android-example/decodesdk/irextdecode/src/ir_ac_parse_frame_info.c:172-200 | A printed delay table, position -1 included, parses back to the same entries in order. |
| AcFrameText.WidthsReadBack | android-example/decodesdk/irextdecode/src/ir_ac_parse_frame_info.c:296-329 | A printed width table parses back, with -1 as the last byte's position. |
| AcFrameText.PrintedDelayFitsBuffers | android-example/decodesdk/irextdecode/src/ir_ac_parse_frame_info.c:116-170 | A printed entry of up to eight times fits the parser's fixed character buffers. |
| DriverMachine.PlayerStepsKeepOk | stm8-driver/src/main.c:160-176 | With a stored pulse, every handler keeps the data pointer at base + 1 + 3 * (current + 1) while running, and the output low otherwise. |
| DriverMachine.PlaysStoredPulses | stm8-driver/src/main.c:228-254 | Whatever button presses come in between, a transmission reloads the timer with the stored pulses in order, one an overflow. |
| DriverMachine.StopsAfterLastPulse | stm8-driver/src/main.c:229-242 | The overflow after the last pulse stops the player, output low, with every stored pulse played once, in order. |
| DriverMachine.EmptyTableStopsIffCounterWraps | stm8-driver/src/main.c:229-249 | With no pulse stored a transmission goes on, whatever buttons are pressed; the overflow that stops it is the one that wraps the 16-bit counter, and no other. |
| DriverMachine.ReceiveKeepsOk | stm8-driver/src/main.c:279-315 | The write pointer stays at buffer + count and the count at most 19. |
| DriverMachine.ListenAppend | stm8-driver/src/main.c:279-315 | Hearing one stream after another is hearing their concatenation. |
| DriverMachine.FrameProgress | stm8-driver/src/main.c:290-301 | A frame is dispatched when it is complete; one whose announced length is not 3 to 20 ends in an overflow at its twentieth byte. |
| DriverMachine.FramesDispatchedOnce | stm8-driver/src/main.c:279-315 | A stream of frames with lengths 3 to 20 is dispatched exactly once a frame with its own content, start bytes in bodies included. |
| DriverMachine.LeavesFrameInTime | stm8-driver/src/main.c:289-313 | From any state inside a frame, the receiver leaves it within twenty bytes. |
| DriverMachine.ResponseRuns | stm8-driver/src/main.c:261-272 | A response sends its length and its bytes in order and then stops. |
| DriverMachine.ResponseSends | stm8-driver/src/main.c:261-272 | However many transmit interrupts follow, a response sends its length and its bytes, one an interrupt, and stops at the one after the last byte. |
| DriverMachine.SenderSeesTransmitReadyOnly | stm8-driver/src/main.c:261-272 | Until an outcome makes the driver answer anew, the sender in any interleaving is the one of the transmit interrupts alone. |
| DriverMachine.ResponseUnderInterleaving | stm8-driver/src/main.c:91-98 | In any interleaving that starts no other response, the bytes sent are the response's length and bytes in order, one a transmit interrupt, and nothing after the last. |
| DriverLaws.PulsesAreStored | stm8-driver/src/main.c:165-167 | Pulse i is stored bytes 3 i + 1 to 3 i + 3: the timer's high and low byte, and the level. |
| DriverLaws.PulseDataAreSent | stm8-driver/src/main.c:193-195 | A frame with command 5, in any interleaving and until another answer: the board sends (3 * count + 2) modulo 256 and the stored bytes in order, one a transmit interrupt, up to (3 * count + 1) modulo 256 of them. |
| DriverLaws.TransmitStarts | stm8-driver/src/main.c:198-201 | A frame with command 7 leaves the player running on pulse 0, behind its three bytes, and sends 2 and 0. |
| DriverLaws.KnownCommandsDoNothing | stm8-driver/src/main.c:185-197 | Frames with commands 1 to 4 and 6 send nothing and leave the player alone. |
| DriverLaws.UnknownCommandIsRefused | stm8-driver/src/main.c:202-204 | A frame with any other command sends 2 and 1 and leaves the player alone. |
| DriverLaws.OverflowIsRefused | stm8-driver/src/main.c:303-312 | A frame without a valid length sends 2 and 2 at its twentieth byte and leaves the player alone. |
| DriverMachine.PulseDataResponseWholeIffSmall | stm8-driver/src/main.c:194-196 | The pulse data response is the whole table if and only if it has at most 84 pulses, the length being a byte. |
| DriverMachine.NextKeepsOk | stm8-driver/src/main.c:216-315 | Every interrupt keeps player and receiver consistent. |
| DriverMachine.EveryRunKeepsOk | stm8-driver/src/main.c:216-315 | So does any interleaving of interrupts. |
| DriverMachine.ReceiverSeesBytesOnly | stm8-driver/src/main.c:279-315 | In any interleaving the receiver and its outcomes are those of the bytes received alone. |
| DriverMachine.FramesDispatchedUnderInterleaving | stm8-driver/src/main.c:279-315 | Frames arriving between any other interrupts are each dispatched once, with their content. |
| DriverMachine.PlayerSeesPlayEventsOnly | stm8-driver/src/main.c:216-254 | Until a command asks for a transmission, the player in any interleaving is the one of button and timer alone. |
| DriverMachine.PlaybackUnderInterleaving | stm8-driver/src/main.c:216-254 | A button press at rest plays the whole table and then stops with the output low, whatever serial traffic is interleaved. |
| PulseDriver.Driver.constructor | stm8-driver/src/main.c:149-155 | At power-up outputs are off, the player rests and the receiver is idle. |
| PulseDriver.Driver.TransmitPulseData | stm8-driver/src/main.c:160-176 | Starts a transmission with the first stored pulse. |
| PulseDriver.Driver.ButtonHandler | stm8-driver/src/main.c:216-222 | The handler is the machine's button step: ignored while running. |
| PulseDriver.Driver.TimerHandler | stm8-driver/src/main.c:228-254 | The handler is the machine's timer step, with the counter's 16-bit wrap. |
| PulseDriver.Driver.TransmitHandler | stm8-driver/src/main.c:261-272 | The handler is the machine's transmit step. |
| PulseDriver.Driver.SendResponse | stm8-driver/src/main.c:91-98 | Starts a response with its length, in a byte, plus one. |
| PulseDriver.Driver.ProcessUartData | stm8-driver/src/main.c:181-207 | Acts on the frame in the buffer as the machine does: data, transmission, nothing, or an error answer. |
| PulseDriver.Driver.TakeByte | stm8-driver/src/main.c:289-313 | Inside a frame a byte is stored, and the frame dispatched or refused, as in the machine's step. |
| PulseDriver.Driver.ReceiveHandler | stm8-driver/src/main.c:279-315 | The handler is the machine's step for the byte received, dispatch and overflow included. |
| TrimLoops.StepsSaturate | cc26xx-example/ti/BLE-CC264x/common_file/Setup_for_jlink.c:634-658 | For every position and signed delta, the loops compute a saturating addition on the 64 positions of the two thermometer codes. |
| TrimLoops.SteppingBackUndoesIff | cc26xx-example/ti/BLE-CC264x/common_file/Setup_for_jlink.c:634-658 | Stepping by the negated delta undoes a delta if and only if it did not saturate, or led from one end of the range beyond the other. |
| TrimLoops.TrimIsPosition | cc26xx-example/ti/BLE-CC264x/common_file/Setup_for_jlink.c:634-658 | With the lowest r bits of the row and c bits of the column set, the delta leads to position 16 (r - 1) + c - 1 + delta, between 0 and 63, in the same form. |
| TrimLoops.PositionsApart | cc26xx-example/ti/BLE-CC264x/common_file/Setup_for_jlink.c:634-658 | Different positions have different codes. |
| TrimLoops.DeltaIsSignedByte | cc26xx-example/ti/BLE-CC264x/common_file/Setup_for_jlink.c:632 | The two shifts take bits 8 to 15 of the configuration as a signed byte. |
| TrimLoops.WordHoldsFields | cc26xx-example/ti/BLE-CC264x/common_file/Setup_for_jlink.c:661-662 | The word the two shifted fields are put together to gives both fields back. |
| TrimLoops.StepAll | cc26xx-example/ti/BLE-CC264x/common_file/Setup_for_jlink.c:634-658 | The two loops are the stepping by the delta and keep both fields within their widths. |
| TrimLoops.GetTrimForAnabypassValue1 | cc26xx-example/ti/BLE-CC264x/common_file/Setup_for_jlink.c:599-667 | The trim word is the fixed value for revision 0; otherwise it holds, each at its place and intact, the factory fields without a delta, or the clamped position of thermometer-coded factory fields. |

## Left out

- Opening and reading files, JNI, the keyboard mains and the DLL loader: input and output.
- The copy of the decoder for the STM8 board (`stm8-example/src/irext`): the same code with other type names.
- Ports, timers and UART registers, prescalers and the rest of `Setup_for_jlink.c`: hardware constants. The header with the places of the two trim fields is not part of this model: the places are parameters of `TrimLoops.GetTrimForAnabypassValue1`, inside the 32-bit word and apart.
- Memory: allocation is assumed to succeed, nothing is freed; `free_ac_context` and the failure returns for null pointers have no counterpart.
- Malformed binaries: offsets, patches, segments and positions outside their buffers, fields wider than 8 bits, field ends of 0 (byte 255, see `AcFields.EndZeroLeavesCode`), function id 8, field widths above 32 bits, and counts of cycles that overflow a byte are excluded by preconditions, because the code then accesses memory out of bounds.
- Fixed C arrays (times of a delay, numbers of delays and widths, boot code, number buffers of 16, 64 and 8 characters): sequences stand for them; `AcFrameText.PrintedDelayFitsBuffers` shows that printed entries fit.
- Output buffers that are too small: `TvRemote.Remote.TvLibControl`, `AcFrame.FrameBuilder.CreateIrFrame` and `AcRemote.Remote.LibControl` require room for what they write. The TV decoder's own limit is checked between items, as in the code.
- Text holding NUL characters, on which the C string functions would stop.
- AcChecksumText.ParseChecksum: for texts below 256 characters; with longer ones the parser's one-byte counter never reaches the end.
- AcTemperature.ParseTemp1: a dynamic table whose last entry is incomplete leaves that entry as allocated; the values are stated for complete tables only.
- AcTemperature.ParseTemp2: the same.
- AcFrame.BitsPerByte: at a width of 32 and above the C masks leave the range of an integer (at 32 the sign bit, beyond it the shift count); the model's masks are zero from bit 8 on.
- The dispatch of tags in `ir_ac_lib_parse`, and the tags that hold one number or one list (default code, frame length, endianness, last bit, repeat times, zero, one, solo codes, bans): each is copied or converted once. Their results are fields of `AcProtocol.Tables`.
- `get_supported_swing` and `get_supported_wind_direction`: one expression each.
- The return value of `add_delaycode`, which no caller uses, the debug prints, and the `USE_APPLY_TABLE` variant.
- The output pin takes one bit of the level byte; the model keeps the byte. The signed 16-bit pulse counter is modelled by its bit pattern.
- `WriteDataToEEPROM`, `SetupRxBuffer` on its own, and commands above 7, which the board answers with an error: nothing further to state.
