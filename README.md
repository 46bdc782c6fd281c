# mpegdemux core in Dafny

This project models the core of mpegdemux, a tool that reads an MPEG-1/MPEG-2
Program Stream and does one of four things with it: scan it (the lowest
presentation time stamp per stream), list its packs, system headers and packets,
demultiplex its elementary streams into separate outputs, or remultiplex it into
a new Program Stream. Stream and substream ids can be selected and renumbered
along the way. The model covers these parts:

- **Bits** (`bits.dfy`): the bit-field reader `get_bits`. This includes the
  reference function `BitsAt` and its 32-bit truncation `Peek`, the general
  bit loop, the byte-aligned fast path, and the facts about fields that the
  rest of the model relies on.
- **Lookahead** (`cursor.dfy`): the input cursor as a class. It holds a
  4096-byte window (`array`) over a byte source, the stream offset, and
  `need_bits`, `buffer_fill`, `get_bits`, `skip`, `set_offset`, `read` and
  `copy`. Every operation is proved against the unread suffix `Unread()`.
- **Headers** and **Decoding** (`headers.dfy`, `decode.dfy`): the pure
  decoders for pack headers, system headers and packets (MPEG-1 and MPEG-2
  PES headers, stuffing, PTS/DTS), and the methods that read them through the
  cursor and are proved equal to the decoders.
- **Selection** (`policy.dfy`): the per-id selection tables, the
  stream-list parser `str_get_streams`, and the exclusion test.
- **Statistics** (`stats.dfy`): the per-stream counters and their 32-bit
  wrap-around.
- **Handlers** (`handlers.dfy`): the pure parts of the four mode handlers.
  These are the output slot numbering, the demux payload split, the remux
  id rewrite, the scan minimum and the list skip coalescing.
- **Subtitles** (`spu.dfy`): the DVD subtitle repacker `mpeg_demux_copy_spu`,
  as a state machine and as a class.
- **Names** (`names.dfy`): output file names built from a `#` template.
- **Staging** (`staging.dfy`): `mpeg_buffer_t`, the growable staging
  buffer.
- **CommandLine** (`options.dfy`): the `getopt`-style option scanner.
- **Engine** (`engine.dfy`): the parser (`mpegd_parse`, `mpegd_parse_pack`,
  `mpegd_parse_packet`, `mpegd_parse_system_header`, `mpegd_seek_header`)
  and the handlers of the four modes. They run over one `Demuxer` object
  whose fields are the program's globals: the tables, statistics, staging
  buffers and outputs.

`main.cpp` and `common.cpp` contain the same parsing engine twice, once as
free functions and once as class members. It is modelled once, and the
table below cites whichever copy states a fact most directly.

On private stream 1 without AC-3 framing, the demultiplexer also skips the
substream id byte, so it writes `size - offset - 1` bytes of the packet
(main.cpp:1202-1205). `Handlers.DemuxPayloadSplit` states this.

Outputs are values rather than files. The standard output is a byte
sequence `out`, and demux outputs are a map from slot to byte sequence. The
list and scan lines are a `log` of entries, and remux segments are a
sequence of byte sequences. Whether `fopen` succeeds is given as a
parameter (`openable`). `Names.GetName` takes whether `malloc` succeeds
(`allocOk`), but the engine assumes that every allocation succeeds.

## Model

| member | source | states |
|---|---|---|
| Bits.BitsBound | main.cpp:357-370 | an n-bit field read from the stream is below 2^n |
| Bits.BitsSplit | main.cpp:367 | a field of a+b bits is its first a bits shifted left by b plus its next b bits |
| Bits.BitsInByte | main.cpp:359-366 | a field inside one byte is that byte shifted right by the bits after it, masked to n bits |
| Bits.ByteField | main.cpp:348-353 | a byte-aligned 8-bit field is the byte itself |
| Bits.BitsAgree | main.cpp:337-340 | a field depends only on the bytes that hold it |
| Bits.FieldBits | main.cpp:357-372 | the bit-by-bit loop returns the field starting at bit i of the window, truncated to 32 bits |
| Bits.ByteBits | main.cpp:343-355 | the byte-aligned fast path returns the same value as the general loop |
| Bits.PeekBound | common.cpp:601-641 | get_bits is below 2^n and below 2^32, and is exactly the field when n <= 32 and the field fits in the window |
| Bits.PeekAgree | main.cpp:337-338 | get_bits depends only on the first bytes of the unread input |
| Bits.WindowPeek | common.cpp:742-753 | a window holding the first unread bytes gives get_bits's value once it covers ceil((i+n)/8) bytes |
| Lookahead.Cursor.constructor | main.cpp:270-285 | a fresh cursor has an empty window, offset 0, and the whole input unread |
| Lookahead.Cursor.Read | common.cpp:797-817 | returns the next min(n, remaining) bytes, consumes exactly those, and advances the offset by their count |
| Lookahead.Cursor.Copy | main.cpp:1046-1066 | copies the next min(n, remaining) bytes and fails exactly when fewer than n remain |
| Lookahead.Cursor.MoveWindowDown | main.cpp:298-300 | the unread window bytes move to the front of the buffer unchanged |
| Lookahead.Cursor.BufferFill | common.cpp:755-777 | after a refill the window holds min(4096, remaining) bytes, and neither the input nor the offset changes |
| Lookahead.Cursor.Fread | main.cpp:303-313 | reads min(n, what is left in the source) bytes and appends exactly them to the window |
| Lookahead.Cursor.NeedBits | common.cpp:742-753 | fails exactly when ceil(n/8) bytes cannot fit in min(4096, remaining); otherwise the window holds them, and it is left alone if it already did |
| Lookahead.Cursor.GetBits | common.cpp:601-641 | returns Peek of the unread input and does not consume anything |
| Lookahead.Cursor.Skip | common.cpp:510-540 | the offset grows by n even past the end; it fails exactly when n exceeds the remaining bytes, and then the input is exhausted |
| Lookahead.Cursor.SetOffset | common.cpp:786-795 | a target behind the offset fails and changes nothing; a target ahead skips the distance cast to 32 bits |
| Decoding.ReadStamp | main.cpp:469-471 | reads the 33-bit time stamp at bit i through the cursor, equal to Headers.Stamp, without consuming |
| Decoding.ReadPack | common.cpp:436-462 | the pack header read through the cursor equals the pure decoder DecodePack |
| Decoding.ReadSystemHeader | main.cpp:443-445 | the system header read through the cursor equals DecodeSystemHeader |
| Decoding.ReadMpeg1 | main.cpp:457-497 | the MPEG-1 packet header read through the cursor equals Mpeg1Header |
| Decoding.Mpeg1Read | main.cpp:465-495 | the MPEG-1 fields after the STD buffer equal Mpeg1Fields |
| Decoding.Mpeg1Pts | main.cpp:467-475 | the PTS-only branch (tag 0x2) equals Mpeg1Fields |
| Decoding.Mpeg1PtsDts | main.cpp:476-489 | the PTS+DTS branch (tag 0x3) equals Mpeg1Fields |
| Decoding.ReadMpeg2 | common.cpp:391-432 | the MPEG-2 PES header read through the cursor equals Mpeg2Header |
| Decoding.Mpeg2Stamps | main.cpp:506-536 | the flag-driven PTS/DTS reads equal Mpeg2Fields |
| Decoding.OptionalPts | main.cpp:508-515 | the PTS is taken only when its marker nibble matches, as WithPts says |
| Decoding.OptionalDts | main.cpp:528-535 | the DTS is taken only when its marker nibble is 1, as WithDts says |
| Decoding.ReadPacket | common.cpp:223-266 | the packet header read through the cursor equals DecodePacket, and nothing is consumed |
| Decoding.ReadPesHeader | main.cpp:559-583 | the PES part is decoded only for ids that carry one, as PesHeader says |
| Decoding.ReadPes | main.cpp:561-578 | stuffing is skipped, then the MPEG-1 or MPEG-2 branch is taken, as PesFields says |
| Decoding.Stuffing | main.cpp:561-567 | the stuffing scan stops where StuffingEnd says |
| Headers.StampBound | main.cpp:625-627 | a time stamp assembled from its 3+15+15 bits is below 2^33 |
| Headers.PackShape | common.cpp:434-465 | an MPEG-1 pack is 12 bytes; an MPEG-2 pack is 14 plus fewer than 8 stuffing bytes; an unknown pack is 4 bytes and keeps the previous stuffing |
| Headers.PackSize | main.cpp:630-647 | every pack header is 4 to 21 bytes long |
| Headers.SystemHeaderShape | main.cpp:443-445 | a system header is its 16-bit length plus 6 bytes, and its flags are single bits |
| Headers.StuffingBounded | common.cpp:238-244 | the stuffing scan stays byte-aligned, never passes its limit, and stops on a byte other than 0xff unless the limit stopped it |
| Headers.Mpeg1Layout | main.cpp:457-497 | the MPEG-1 header offset and stamps follow the tag nibble (0x2 PTS, 0x3 PTS+DTS, 0x0f none), after an optional STD buffer field |
| Headers.Mpeg2Layout | common.cpp:391-432 | the MPEG-2 payload starts after the header-data-length byte; a PTS or DTS is recorded only with a matching flag and marker |
| Headers.Mpeg1Stamps | main.cpp:469-487 | MPEG-1 decoding keeps time stamps below 2^33 and a DTS only beside a PTS |
| Headers.Mpeg1Bounds | main.cpp:462-495 | the MPEG-1 header moves the offset at most 12 bytes and keeps id, substream and size |
| Headers.Mpeg2Stamps | main.cpp:506-536 | MPEG-2 decoding keeps time stamps well formed |
| Headers.OptionalStamps | main.cpp:508-535 | the optional PTS and DTS reads keep time stamps well formed |
| Headers.Mpeg2Bounds | main.cpp:538-539 | the MPEG-2 header moves the offset by at most 255 + 3 bytes and keeps id, substream and size |
| Headers.PacketShape | main.cpp:543-589 | a packet's id is its fourth byte, its size is its length field plus 6, ids without a PES header have offset 6, and only private stream 1 has a substream |
| Headers.PesShape | main.cpp:559-583 | the PES decode bounds the payload offset and keeps the stamps well formed |
| Selection.DeselectExcludes | main.cpp:1154-1164 | clearing a stream's select bit (the substream's on private stream 1) makes the exclusion test exclude it |
| Selection.StrToUL | main.cpp:971-991 | a number parsed from a stream list consumes at least one character and fits in an unsigned long |
| Selection.SkipWhite | main.cpp:922-928 | skipping separators never moves backwards or past the end |
| Selection.ItemRange | main.cpp:956-992 | a parsed number or range always advances the position |
| Selection.NextItem | main.cpp:937-1009 | a parsed list item always advances the position |
| Selection.DecimalConverts | main.cpp:971 | a decimal number with no sign or leading zero converts to the value its digits spell, saturated at ULONG_MAX, and ends after its last digit |
| Selection.HexConverts | main.cpp:971 | after 0x or 0X and a hexadecimal digit, the digits are read in base 16 |
| Selection.NegatedConverts | main.cpp:971 | a minus sign before a decimal number gives its value negated modulo 2^64 |
| Selection.DigitsPositive | main.cpp:971 | digits that start with a non-zero one spell a positive number |
| Selection.DecimalRangeItem | main.cpp:971-992 | an item a-b of two decimal numbers names ids a through b, each reduced to 32 bits, and ends after b |
| Selection.ApplyRange | main.cpp:994-1003 | marking a range yields a 256-entry table again |
| Selection.Run | main.cpp:930-1012 | corrected (see Left out): parsing a whole list yields a 256-entry table and status 0 or 1 |
| Selection.MarkRange | main.cpp:996-1003 | the in-place marking loop marks exactly the ids lo..hi the table has, as ApplyRange says, and reports whether the range as written reaches past the table |
| Selection.StrGetStreams | main.cpp:930-1012 | corrected (see Left out): the in-place parser leaves the array and status that Run gives |
| Selection.MarkKeepsOtherBits | main.cpp:994-1003 | marking sets or clears the mask bits and keeps every other bit |
| Selection.ApplyRangeSameOutside | main.cpp:994-1003 | marking a range changes no bit outside the mask |
| Selection.RunStep | main.cpp:937-1009 | one accepted item applies its range and continues; a failed item stops with the table unchanged |
| Selection.RunKeepsOtherBits | main.cpp:930-1012 | parsing a whole list changes no bit outside the mask |
| Selection.RunAll | main.cpp:956-961 | "all" selects every id |
| Selection.RunNone | main.cpp:962-968 | "none" deselects every id |
| Selection.RunMinusAll | main.cpp:946-961 | "-all" deselects every id |
| Selection.RunMinusNone | main.cpp:946-968 | "-none" selects every id |
| Selection.RunNoNumber | main.cpp:971-974 | a word that is not a number fails and leaves the table as it was |
| Selection.RunOpenRange | main.cpp:978-984 | a range without an upper bound fails and leaves the table as it was |
| Selection.ZeroThenDash | main.cpp:971-976 | in "0-300", the number 0 ends at the dash |
| Selection.ThreeHundred | main.cpp:981-986 | in "0-300", the upper bound 300 is read to the end |
| Selection.ZeroTo300 | main.cpp:969-992 | "0-300" parses to the inclusive range 0..300 |
| Selection.RangePastTableAsWritten | main.cpp:994-1003 | as written, "0-300" is marked from 0 to 300 in a 256-entry table |
| Selection.RangePastTableRefused | main.cpp:994-1003 | corrected, "0-300" is refused with status 1 and the table is unchanged |
| Statistics.ZeroTotal | main.cpp:261-267 | a table of zeroed counters totals 0 packets |
| Statistics.CountedTotal | main.cpp:598-600 | counting one packet raises the table total by one, modulo 2^32 |
| Statistics.ResetOk | main.cpp:253-268 | reset statistics are well formed and count no packets |
| Statistics.CountOk | common.cpp:275-283 | counting a packet adds one packet (modulo 2^32) and its corrected payload (modulo 2^64) to its stream's entry and, on private stream 1, to its substream's, raises the global packet count, and changes no other counter or entry |
| Statistics.PayloadAgrees | main.cpp:600 | the byte count `size - offset` matches the corrected count unless the offset is past the size, where it wraps above the size |
| Statistics.StartCodeField | main.cpp:668 | bytes 00 00 01 read as the 24-bit packet start prefix |
| Statistics.ShortPacketLayout | main.cpp:547-562 | the stream id, length and first header byte read from the bytes e0, 00 00 and 0f |
| Statistics.ShortPacketFields | main.cpp:547-562 | a stream beginning with 00 00 01 e0 00 00 0f gives those fields whatever follows |
| Statistics.ShortPacketDecodes | main.cpp:543-578 | a stream beginning with 00 00 01 e0 00 00 0f decodes to a packet of size 6 and offset 7, whatever follows |
| Statistics.ShortPacketHeader | main.cpp:551-552 | the concrete short packet decodes with size 6 and offset 7 |
| Statistics.ShortPacketWraps | main.cpp:600-605 | as written that packet adds 2^32-1 payload bytes; the corrected count adds 0 |
| Handlers.OutputIndexRoundTrip | main.cpp:1198-1209 | the output slot of a stream or substream is below 512, never 0xbd, and gives back its ids |
| Handlers.SlotRoundTrip | main.cpp:1199-1204 | every slot other than 0xbd comes from exactly one id pair |
| Handlers.NameNumberDistinct | main.cpp:1150 | different output slots get different file-name numbers |
| Handlers.DemuxPayloadSplit | main.cpp:1198-1230 | the header skip covers the offset plus 1 byte, or 4 with AC-3 framing, on private stream 1; the packet is refused exactly when the skip exceeds the size; otherwise skip + payload = size |
| Handlers.RewriteShape | main.cpp:1497-1503 | the remux rewrite keeps the length, replaces byte 3 with the mapped id and, on private stream 1, the substream byte with its mapped id, and keeps every other byte |
| Handlers.RewriteIdentity | main.cpp:1663-1664 | with the identity maps set up at start-up, the rewrite returns the packet unchanged |
| Handlers.ScanStepSpec | main.cpp:761-794 | a packet is reported exactly when it is the first of its stream (the counter, already raised, is at most 1) or, with first-PTS scanning, when its PTS is below the lowest seen; the lowest only goes down |
| Handlers.ScanAllLowest | main.cpp:780-793 | with first-PTS scanning, the scan over a packet list ends with the smallest PTS in it |
| Handlers.Coalesce | main.cpp:1300-1307 | k consecutive skipped bytes give one run that starts at the first of them and counts k |
| Handlers.AddSkipsLast | main.cpp:1302-1305 | skipping k+1 bytes is skipping k and then one more |
| Subtitles.BigEndianRoundTrip | main.cpp:1093-1099 | writing a value as n big-endian bytes and reading it back gives it modulo 2^(8n) |
| Subtitles.StampBytes | main.cpp:1093-1099 | the time stamp written before a subtitle unit is its 8-byte big-endian form |
| Subtitles.ResumeAsWritten | main.cpp:1083-1086 | the half-length path as written keeps its counters within 32 bits |
| Subtitles.BodyBounded | main.cpp:1089-1134 | repacking keeps the remaining unit length below 2^16 |
| Subtitles.RepackBounded | main.cpp:1068-1137 | the corrected repacker keeps its state bounded from any bounded state |
| Subtitles.HalfPathWrapsAsWritten | main.cpp:1083-1086 | as written, a unit length below 2 resumed from the half path wraps its count to near 2^32 |
| Subtitles.HalfPathChecked | main.cpp:1076-1087 | corrected, a resumed unit length below 2 is refused with status 1; an empty payload leaves the state alone |
| Subtitles.BodyCopies | main.cpp:1130-1133 | bytes inside a unit are copied through unchanged |
| Subtitles.ChainHigh | main.cpp:1104-1114 | a payload split after a unit's first length byte repacks the same as the whole |
| Subtitles.ChainStart | main.cpp:1116-1127 | a split after a complete unit start repacks the same as the whole |
| Subtitles.ChainRest | main.cpp:1130-1133 | a split after the rest of a unit repacks the same as the whole |
| Subtitles.ChainInside | main.cpp:1130-1134 | a split inside a unit's body repacks the same as the whole |
| Subtitles.BodyChain | main.cpp:1089-1134 | the unit loop over two payloads in a row equals the loop over their concatenation |
| Subtitles.RepackChain | main.cpp:1068-1137 | repacking payloads one after another equals repacking their concatenation |
| Subtitles.WholeUnit | main.cpp:1091-1133 | a complete 4-byte unit is written after its 8-byte stamp |
| Subtitles.SplitLength | main.cpp:1076-1114 | a unit whose length is split across packets is resumed through the half path |
| Subtitles.UnitStartStep | main.cpp:1091-1128 | one unit start writes the stamp and the length and then continues with the body |
| Subtitles.UnitCopyStep | main.cpp:1130-1133 | one copy step writes min(remaining, unit) bytes |
| Subtitles.HighByteStep | main.cpp:1104-1114 | a payload holding only the high length byte writes the stamp and that byte and sets the half flag |
| Subtitles.ShortLengthStep | main.cpp:1116-1124 | a unit length below 2 stops the copy with status 1 |
| Subtitles.SpuPacker.constructor | main.cpp:1070-1071 | the repacker starts with no unit open and the half flag clear |
| Subtitles.SpuPacker.Copy | main.cpp:1068-1137 | corrected (see Left out): the in-place repacker writes and keeps exactly what Repack says |
| Subtitles.SpuPacker.CopyUnits | main.cpp:1089-1134 | the unit loop writes and keeps exactly what Body says |
| Names.HexDigit | main.cpp:1037-1039 | a digit below 16 becomes a lower-case hex character that reads back as itself |
| Names.Name | main.cpp:1014-1044 | the file name has the template's length |
| Names.NameAt | main.cpp:1030-1041 | each `#` becomes the hex digit of the id at its place from the right, and every other character is kept |
| Names.NameShape | main.cpp:1030-1041 | a generated name keeps every other character of the template and has a hex digit at each `#` |
| Names.NameRoundTrip | main.cpp:1030-1041 | reading the hex digits back gives the id modulo 16 to the number of `#` |
| Names.GetName | main.cpp:1014-1044 | the name is the template with the id filled in, "stream_##.dat" when there is no template, and none when allocation fails |
| Staging.Resized | buffer.cpp:37 | a reallocated block has the requested size and keeps the old contents up to it; the new bytes, indeterminate in C, are zero here |
| Staging.Buffer.constructor | main.cpp:177-179 | a static staging buffer starts with no storage and sizes 0 |
| Staging.Buffer.Init | buffer.cpp:4-9 | init leaves no storage and sizes 0 |
| Staging.Buffer.Free | buffer.cpp:11-17 | free releases the storage and zeroes both sizes |
| Staging.Buffer.Clear | buffer.cpp:19-22 | clear empties the buffer and keeps its storage and capacity |
| Staging.Buffer.SetMax | buffer.cpp:24-52 | the same capacity changes nothing; capacity 0 frees; a failed reallocation drops everything; otherwise the capacity is set and the count clipped to it |
| Staging.Buffer.SetCnt | buffer.cpp:54-62 | growing past the capacity reallocates and fails only when that fails; the staged prefix survives |
| Staging.Buffer.Load | main.cpp:225-236 | after loading, the staged bytes are exactly the data |
| Staging.Buffer.Poke | main.cpp:1499-1502 | one staged byte is replaced and the rest are kept |
| Staging.Buffer.WriteClear | buffer.cpp:64-77 | writes as many staged bytes as fit, fails if not all of them fit, and empties the buffer |
| CommandLine.TableClosed | options.cpp:92-118 | the option table ends with its terminator entry |
| CommandLine.Find1 | options.cpp:65-76 | a found short option has the letter asked for and comes before the terminator |
| CommandLine.Find2 | options.cpp:78-90 | a found long option has the name asked for and comes before the terminator |
| CommandLine.Find1First | options.cpp:65-76 | no earlier entry has the letter; a miss means no entry has it |
| CommandLine.Find2First | options.cpp:78-90 | no earlier entry has the name; a miss means no entry has it |
| CommandLine.FindName1 | options.cpp:65-76 | the search loop for a letter returns what Find1 says |
| CommandLine.FindName2 | options.cpp:78-90 | the search loop for a name returns what Find2 says |
| CommandLine.StepInside | options.cpp:120-221 | one call keeps the scanner state within the argument list and never moves backwards |
| CommandLine.FirstCall | options.cpp:124-130 | the first call starts from argument 1 |
| CommandLine.DoneAtEnd | options.cpp:143-146 | past the last argument the scanner reports that it is done |
| CommandLine.PlainWord | options.cpp:152-157 | a word that is not an option, or a lone "-", is returned as a positional argument |
| CommandLine.AfterDoubleDash | options.cpp:132-172 | after "--" every remaining word is positional |
| CommandLine.LongOption | options.cpp:174-194 | "--name" returns the option's letter and its arguments, unknown when no option has that name, missing when too few arguments follow |
| CommandLine.Bundle | options.cpp:197-220 | "-xy" returns x and then y from the same word |
| CommandLine.Options.constructor | options.h:22-31 | drop is on, the other flags are off, and the scanner has not started |
| CommandLine.Options.Getopt | options.cpp:120-221 | the stateful scanner returns and keeps what Step says |
| CommandLine.Options.TakeWord | options.cpp:143-198 | starting a new word returns and keeps what NewWord says |
| CommandLine.Options.TakeShort | options.cpp:200-220 | one bundled letter returns and keeps what Short says |
| Engine.SyncFirst | main.cpp:422 | no start code begins before the sync offset |
| Engine.SyncFound | main.cpp:422-436 | the sync offset is the first start code, or the end of the input when there is none |
| Engine.Unset | main.cpp:884-888 | every stream starts with no PTS seen |
| Engine.Append | main.cpp:1144-1168 | without a name template bytes go to standard output; with one they are appended to their slot's file and every other file is kept |
| Engine.ScanTablesBelow | main.cpp:761-794 | a scanned packet can only lower the lowest PTS of its own stream or substream |
| Engine.DemuxHangAsWritten | main.cpp:543-614 | on any stream that begins with the packet 00 00 01 e0 00 00 0f, of a valid and selected stream: the packet loop goes on, the packet is accepted, the demuxer refuses it, and the start-code search moves nothing |
| Engine.Demuxer.constructor | main.cpp:270-285 | the parser starts at offset 0 with reset statistics, no PTS, empty outputs and empty staging buffers |
| Engine.Demuxer.ResetStats | main.cpp:253-268 | the statistics are reset and well formed |
| Engine.Demuxer.GetBits | main.cpp:331-373 | returns Peek of the unread input and consumes nothing |
| Engine.Demuxer.Read | main.cpp:202-222 | returns the next min(n, remaining) bytes and advances past them |
| Engine.Demuxer.Skip | main.cpp:375-405 | the offset grows by n, and it fails exactly when fewer than n bytes remain |
| Engine.Demuxer.SetOffset | main.cpp:407-416 | moving backwards fails; moving forward within 2^32 reaches the target and fails if it is past the end |
| Engine.Demuxer.CopyOut | main.cpp:1046-1066 | copies the next min(n, remaining) bytes to standard output and fails exactly when fewer than n remain |
| Engine.Demuxer.BufRead | main.cpp:225-236 | stages the next min(n, remaining) bytes and fails exactly when fewer than n remain |
| Engine.Demuxer.WriteOut | main.cpp:238-251 | writes the staged bytes to standard output and empties the buffer |
| Engine.Demuxer.Emit | main.cpp:1251 | bytes go to their slot's output as Append says |
| Engine.Demuxer.Deselect | main.cpp:1158-1161 | a stream that cannot be opened is deselected, and only its own entry changes |
| Engine.Demuxer.Create | main.cpp:1150-1152 | a new output file is empty and named from the template and the slot number |
| Engine.Demuxer.Open | main.cpp:1140-1180 | an output that cannot be opened is deselected; otherwise its slot is taken and, for private stream 1 with subtitle framing, the tag "SPU " is written first |
| Engine.Demuxer.Reserve | main.cpp:1144-1168 | a slot is taken exactly when the output can be opened, and the stream is deselected otherwise |
| Engine.Demuxer.ScanPacket | main.cpp:744-826 | an excluded packet is ignored; otherwise it is skipped whole, its line is logged, and the lowest PTS tables are updated |
| Engine.Demuxer.ScanSelected | main.cpp:752-794 | a selected packet updates the lowest PTS tables and the log as ScanTables and ScanLines say |
| Engine.Demuxer.ScanEnd | main.cpp:833-841 | the end code is logged unless end codes are suppressed |
| Engine.Demuxer.ListSkip | main.cpp:1300-1307 | a skipped byte joins the current run of skipped bytes |
| Engine.Demuxer.ListLine | main.cpp:1289-1298 | a pending skip run is logged before the line and then closed |
| Engine.Demuxer.ListPack | main.cpp:1370-1387 | the pack line is logged after any pending skip run, unless packs are suppressed |
| Engine.Demuxer.ListSystemHeader | main.cpp:1309-1324 | the system header line is logged after any pending skip run, unless system headers are suppressed |
| Engine.Demuxer.ListPacket | main.cpp:1326-1368 | a selected packet's line is logged after any pending skip run, unless packets are suppressed |
| Engine.Demuxer.ListEnd | main.cpp:1389-1398 | the end line is logged after any pending skip run, unless end codes are suppressed |
| Engine.Demuxer.RemuxSkip | main.cpp:1445-1454 | with remux-skipped, a skipped byte is copied to the output; otherwise nothing happens |
| Engine.Demuxer.RemuxPack | main.cpp:1514-1524 | the pack header is staged, or written at once with empty packs, and it fails only on a short read |
| Engine.Demuxer.RemuxSystemHeader | main.cpp:1456-1471 | repeated system headers are dropped when asked; otherwise the staged pack and the header are written |
| Engine.Demuxer.RemuxPacket | main.cpp:1473-1512 | a selected packet is written after the staged pack with its ids renumbered; a short packet is dropped when drop is on |
| Engine.Demuxer.WritePacket | main.cpp:1497-1509 | the staged pack and the renumbered packet are written, and both buffers are emptied |
| Engine.Demuxer.Renumber | main.cpp:1497-1503 | the staged packet is rewritten through the id maps in place |
| Engine.Demuxer.RemuxEnd | main.cpp:1526-1539 | the end code is copied unless suppressed; with split, it closes the segment and opens the next |
| Engine.Demuxer.NextSegment | main.cpp:1419-1443 | the current output becomes a finished segment and the sequence number counts on modulo 2^32 |
| Engine.Demuxer.DemuxPacket | main.cpp:1187-1255 | an excluded packet is ignored; a packet smaller than its header skip is refused without moving; otherwise its payload is delivered to its slot's output, opening it first |
| Engine.Demuxer.DemuxSelected | main.cpp:1219-1254 | a selected packet either fails to open its output and is deselected, or has its payload delivered as Delivered says |
| Engine.Demuxer.Attach | main.cpp:1219-1225 | the packet's output is opened on first use, writing its tag, or the stream is deselected |
| Engine.Demuxer.DemuxWrite | main.cpp:1227-1254 | the header bytes are skipped and the payload is delivered as Delivered says |
| Engine.Demuxer.SkipHeader | main.cpp:1227-1228 | the header bytes before the payload are skipped |
| Engine.Demuxer.DemuxPayloadBytes | main.cpp:1230-1254 | the payload goes through the subtitle repacker or is copied plainly, as Delivered says |
| Engine.Demuxer.DemuxSubtitle | main.cpp:1232-1233 | weaker (see Left out): the payload bytes the input holds are read and written as Repack says |
| Engine.Demuxer.DemuxPlain | main.cpp:1235-1254 | a plain payload is written whole, and a short one is written or dropped as the drop flag says |
| Engine.Demuxer.Settle | main.cpp:1242-1252 | the staged payload is delivered or dropped, and the buffer emptied |
| Engine.Demuxer.Discard | main.cpp:1244 | the staged bytes are dropped and the storage kept |
| Engine.Demuxer.Deliver | main.cpp:1251 | the staged payload is delivered to its slot and the buffer emptied |
| Engine.Demuxer.OnSkip | main.cpp:426-430 | the mode's skip handler adds to the list's skip run or copies the byte when remuxing skipped bytes |
| Engine.Demuxer.SkipOne | main.cpp:424-435 | one byte is skipped and counted modulo 2^32, or the input is exhausted and nothing is counted |
| Engine.Demuxer.SeekHeader | main.cpp:418-439 | the cursor moves to the first start code, every byte passed over is counted and handed to the mode, or the input is exhausted |
| Engine.Demuxer.SeekLoop | main.cpp:422-436 | the seek loop stops at the sync offset |
| Engine.Demuxer.SeekIter | main.cpp:422-436 | one loop step passes one byte and looks at the next 24 bits |
| Engine.Demuxer.SeekAdvance | main.cpp:424-435 | one more byte is passed over, or the input ends |
| Engine.Demuxer.OnSystemHeader | main.cpp:449-451 | the mode's system header handler logs or copies it; only the remuxer can fail, on a short read |
| Engine.Demuxer.ParseSystemHeader | main.cpp:441-455 | the header is decoded and counted, then the cursor moves past it |
| Engine.Demuxer.ReadSystemHeader | main.cpp:443-446 | the header is decoded and counted without moving |
| Engine.Demuxer.HandleSystemHeader | main.cpp:447-454 | after the handler, the cursor sits right after the header |
| Engine.Demuxer.AfterBound | main.cpp:1230 | the payload bytes taken are never more than asked for |
| Engine.Demuxer.OnPacket | main.cpp:610-612 | the mode's packet handler never moves beyond the packet; only the demuxer touches its outputs |
| Engine.Demuxer.ReportPacket | main.cpp:744-826 | the scan and list handlers stay within the packet, and the lister does not move |
| Engine.Demuxer.WritePacketOut | main.cpp:1473-1512 | the remux and demux handlers stay within the packet |
| Engine.Demuxer.DemuxOnPacket | main.cpp:1187-1255 | the demux handler stays within the packet and refuses a too-small one without moving |
| Engine.Demuxer.ParsePacket | main.cpp:543-618 | corrected (see Left out): an invalid packet moves one byte and counts nothing; any other packet is counted and skipped whole |
| Engine.Demuxer.ParsePacketAsWritten | main.cpp:543-618 | as written: an invalid packet moves one byte and counts nothing; any other is counted and, unless its handler fails, skipped whole; a packet the demuxer refuses for its size leaves the unread bytes as they were |
| Engine.Demuxer.Accept | main.cpp:598-614 | corrected, an accepted packet is counted and the cursor always ends at its end |
| Engine.Demuxer.CountPacket | main.cpp:598-606 | corrected (see Left out): the packet is counted as Count says |
| Engine.Demuxer.HandlePacket | main.cpp:608-614 | corrected (see Left out): after the handler, the cursor sits at the packet's end |
| Engine.Demuxer.AcceptAsWritten | main.cpp:598-614 | as written: an accepted packet is counted, and the cursor ends at the packet's end unless the handler fails; the demuxer refusing a packet for its size fails without moving |
| Engine.Demuxer.HandlePacketAsWritten | main.cpp:608-614 | as written: the cursor reaches the packet's end only when the handler succeeds; the demuxer refusing a packet for its size fails without moving |
| Engine.Demuxer.MoveTo | main.cpp:407-416 | a forward target within 2^32 is reached exactly |
| Engine.Demuxer.OnPack | main.cpp:653-655 | the mode's pack handler logs, stages or copies the pack; only the remuxer can fail |
| Engine.Demuxer.ReadPackHeader | main.cpp:622-651 | the pack header is decoded and counted without moving |
| Engine.Demuxer.HandlePack | main.cpp:650-657 | after the handler, the cursor sits right after the pack header |
| Engine.Demuxer.ParsePack | main.cpp:620-680 | a pack is decoded and counted, and its header and the packets after it are consumed |
| Engine.Demuxer.PackBody | main.cpp:657-677 | the optional system header and the packets of a pack never move backwards, and only the remuxer fails |
| Engine.Demuxer.OptionalSystemHeader | main.cpp:660-666 | a system header right after the pack is parsed |
| Engine.Demuxer.SystemHeaderThenSeek | main.cpp:662-665 | after the system header, the parser seeks the next start code |
| Engine.Demuxer.PacketRun | main.cpp:668-677 | the packet loop of a pack ends, never moving backwards |
| Engine.Demuxer.PacketStep | main.cpp:670-676 | corrected: each packet step consumes input |
| Engine.Demuxer.OnEnd | main.cpp:702-704 | the mode's end handler logs or copies the end code |
| Engine.Demuxer.PrintEnd | main.cpp:1389-1398 | the scanner and the lister log the end code unless it is suppressed |
| Engine.Demuxer.ParseEnd | main.cpp:698-709 | the end code is counted and the cursor moves past its 4 bytes |
| Engine.Demuxer.HandleEnd | main.cpp:700-707 | after the handler, the cursor sits right after the end code |
| Engine.Demuxer.ParseSkip | main.cpp:710-720 | an unknown start code is skipped by one byte; at the end of the input the parse stops |
| Engine.Demuxer.ParseItem | main.cpp:691-721 | one top-level item consumes input, or the parse stops at the end or on a remux failure |
| Engine.Demuxer.PackItem | main.cpp:693-697 | a pack item consumes input or stops the remuxer |
| Engine.Demuxer.EndItem | main.cpp:698-709 | an end item consumes input or stops the remuxer |
| Engine.Demuxer.SkipItem | main.cpp:710-720 | a skipped item consumes input or ends the parse |
| Engine.Demuxer.Parse | main.cpp:682-725 | the parse returns 0 after consuming the whole input, or 1 only from the remuxer |
| Engine.Demuxer.FlushRun | main.cpp:1413 | a pending skip run is logged and closed |
| Engine.Demuxer.CloseRemux | main.cpp:1569-1585 | the remux output is finished with the end code unless it was suppressed, and closes the last segment when splitting |
| Engine.Demuxer.Run | main.cpp:1541-1592 | scan, list and demux runs read the whole input and return 0; a splitting remuxer that cannot open file 0 returns 1 before reading anything, with no output; otherwise a remux output, or its last segment, ends with the end code when it is added |
| Engine.Demuxer.FirstSegment | main.cpp:1545-1552 | the splitting remuxer restarts its file counter and opens file 0, failing exactly when that file cannot be opened; the counter is 1 either way |

## Left out

- Real `fopen`, `fread`, `fwrite` and `fclose` and the `FILE*` table. Outputs are byte sequences. An open failure is the `openable` set and `OpenFails`.
- Allocation failures in the engine: it calls `Names.GetName` with `allocOk` true, so the engine assumes that every `malloc` succeeds.
- Short writes to the outputs in the parsing engine: every sink takes every byte. `Staging.Buffer.WriteClear` does take a `room` parameter for the buffer's own write.
- The text formatting of every `fprintf` line: list and scan lines are entries of a log. The statistics printout `mpeg_print_stats` and its floating-point averages are left out for the same reason.
- `main`, `Main::run`, `str_clone`, `print_version` and `prt_msg`: they are process start-up and messages.
- The `MpegAction`, `MpegRemux` and `MpegDemux` wrappers and the class wrappers in common.cpp. They repeat the engine of main.cpp and are modelled once.
- The file handling of `mpeg_remux_next_fp` beyond the sequence counter and the segment boundary: the sequence number wraps modulo 2^32 and file names are not rebuilt.
- `malloc` and `realloc` pointers: `setMax(0)` leaves a dangling pointer, which is modelled as the state `Freed`.
- The getters and setters of the options class: the options are public fields.
- The return value of `mpegd_parse_packet`: every caller ignores it, so the method returns nothing.
- Engine.Demuxer.Accept: it always moves the cursor to the packet end, which the code does not do when a handler refuses the packet. This is the correction in the findings below. `Engine.Demuxer.ParsePacketAsWritten` models the code as written.
- Engine.Demuxer.HandlePacket: it moves to the packet end even when the handler fails, the corrected behaviour of the findings below. The code returns at once instead (`Engine.Demuxer.HandlePacketAsWritten`).
- Engine.Demuxer.ParsePacket: it uses the corrected `HandlePacket` and the corrected payload count, so it states less than the code does on a refused packet or a header past the packet end. `Engine.Demuxer.ParsePacketAsWritten` keeps the early return.
- Engine.Demuxer.CountPacket: it adds the corrected payload, nothing when the header is past the packet end, where the code adds the 32-bit wrapped `size - offset` (see the findings).
- Statistics.Count: it adds the corrected payload, as for `Engine.Demuxer.CountPacket`. `Statistics.PayloadAsWritten` is the wrapped value and `Statistics.PayloadAgrees` relates the two.
- Statistics.CountOk: it states the counters of the corrected `Count`, not the wrapped byte count of the code.
- Selection.Run: it refuses an item whose range ends past 0xff with status 1. The code marks the range and writes past the 256-entry table (see the findings). `Selection.RangesAsWritten` lists the ranges the code marks.
- Selection.StrGetStreams: it stops with status 1 on a range past 0xff, as `Selection.Run` does, instead of writing past the table.
- Selection.MarkRange: the writes the code makes past the 256-entry table are not made. The `past` result only reports them.
- Subtitles.SpuPacker.Copy: it follows the corrected `Repack`, which refuses a unit length below 2 on the half path (see the findings). It works on the payload as one sequence, so a short read in the middle of a packet is not modelled.
- Engine.Demuxer.DemuxSubtitle: it reads `Min(n, |unread|)` bytes and repacks only those. The code keeps the full count, writes stale bytes of its small buffer after a short `mpegd_read`, and ignores a failure of `mpeg_copy` (main.cpp:1116-1133).
- The mode handlers: they are a `Mode` datatype instead of function pointers.
- A negative return from `fread`: it cannot happen because the count is a `size_t`.

## Findings

| source | as written | input that shows it | evidently intended | confidence | as-written member | corrected member |
|---|---|---|---|---|---|---|
| main.cpp:994-1003 | a range's upper bound is not checked against the 256-entry selection table, so the loop writes past its end | the stream list "0-300" | refuse an upper bound above 255 | not executed | Selection.RangePastTableAsWritten | Selection.RangePastTableRefused |
| main.cpp:1083-1086 | the half path in `mpeg_demux_copy_spu` rebuilds the unit length without the check for a length below 2 that the full path has, and then subtracts 2 from it, wrapping the 32-bit count | a packet ending after a unit's first length byte 0x00, then a packet starting with 0x01 | refuse a length below 2 as the full path does | not executed | Subtitles.HalfPathWrapsAsWritten | Subtitles.HalfPathChecked |
| main.cpp:600 | the payload byte count adds `size - offset` in 32 bits, which wraps when the decoded offset is past the size | the packet 00 00 01 e0 00 00 0f (size 6, offset 7) adds 2^32-1 bytes | add nothing when the offset is past the size | not executed | Statistics.ShortPacketWraps | Statistics.PayloadAgrees |
| main.cpp:608-614 | when the demux handler refuses a packet as too small, `mpegd_parse_packet` returns before moving to the packet end, and the pack loop (main.cpp:668-677) finds the same start code again forever | the packet 00 00 01 e0 00 00 0f in demux mode | move to the packet end in every case | not executed | Engine.DemuxHangAsWritten | Engine.Demuxer.PacketStep |
