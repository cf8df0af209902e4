# A verified model of cashpack

cashpack is an HPACK codec (RFC 7541). This project models its codec core and proves what the library promises about it:
the dynamic table kept in one block of memory, the Huffman codec and the generator of its tables, the decoder that may be
suspended at any octet, the encoder with its output in chunks, the table search, and the encoder and its peer as a protocol.

The model has two layers. Functions give the meaning: `TableSpec` is the table as a sequence of entries, `IntSpec` and
`HuffmanCode` read integers and codes, `DecoderSpec.Feed` is a decoder that consumes one octet at a time, and `EncoderSpec`
is what an encoder writes. Classes and methods take the form of the C code (`HpackTbl.Hpack`, `HpackDecoder.Decoder`,
`HpackEncoder.Encoder`, `HpackFields.FieldReader`, `HuffmanGenerator.Generator`): they work on arrays, move memory, advance
pointers and suspend, and are proved to do what the functions say, for every input. Lemmas then prove the properties of whole
blocks and whole runs, and `Session` drives the encoder and the decoder against each other. What the functions of the
first layer say is stated a second time without them, for every input: the grammar of names and values (`Validate.TokenExact`,
`Validate.ValueExact`), the updates and fields a decoder takes (`DecoderVerdicts`), the fields an encoder takes and how it
writes them (`FieldMeaning`), and the tables and examples of RFC 7541 (`Appendices`, `AppendixC`).

| file | what it holds |
|---|---|
| `Common`, `Bits` | fixed-width values, memory blocks, bit strings |
| `IntSpec`, `Validate` | integers of section 5.1 of RFC 7541; the grammar of names and values |
| `HuffmanCode`, `HuffmanTables`, `HuffmanEncode` | the reference reader of codes; the 8-bit-stride tables and the 16-bit window; the 64-bit accumulator |
| `Canonical`, `HuffmanGenerator`, `RfcList`, `RfcCode` | canonical code lists; the generator of the tables; the list of RFC 7541 |
| `TableSpec`, `TableBytes`, `Aliasing`, `HpackTbl`, `TableSearch`, `StaticTable` | the table as a FIFO; its bytes; insertion of a name that is in the table; `struct hpack`; the search; the static table |
| `DecoderSpec`, `DecoderScan`, `DecoderBlock`, `HpackDecoder` | the octet machine and its invariant; whole integers and strings; calls; the decoder class |
| `DecoderEvents`, `HpackFields`, `Split`, `SkipMode`, `DecoderRuns` | what a block reports; iteration without a callback; cuts; small buffers; runs of calls |
| `EncoderSpec`, `EncoderFields`, `HpackEncoder` | octets of a representation; choice and checks of fields; the encoder class |
| `WireScan`, `Lockstep`, `DecoderVerdicts`, `Protocol`, `Monitor` | encoder against decoder: strings, fields; every update and every field, accepted or not; blocks and runs with resizes; late monitors |
| `FieldMeaning`, `Session` | what the fields given to the encoder mean, how they are written and what is told of them; both classes at work together |
| `Appendices`, `HuffmanWords`, `HuffmanExamples` | the tables of appendices A and B of RFC 7541, index by index and octet by octet; its Huffman-coded strings |
| `BlockExamples`, `BlockPatterns`, `AppendixC` | the blocks of appendix C of RFC 7541, from octets to names and values |

Where the code departs from its documentation the model follows the code. Five departures are results of this project:

- an integer of more than 16 bits is not always rejected: below 2^21 only a carry of its third group is noticed, anything else is
  accepted modulo 65536, and after 37 redundant octets the 8-bit shift starts again (`IntSpec.DecodeExact`,
  `IntSpec.OverflowMissed`, `IntSpec.ShiftWraps`);
- a block cut inside the length of a string is decoded differently when the octet after the last of these cuts disagrees with
  the H bit (`Split.CutInLength`, `Split.CutCounterexample`);
- after a resize a block may start without an update when its first octet has bit 0x20 set, as an indexed field can: the
  resize then stays unannounced (`DecoderVerdicts.MissingUpdate`, `DecoderVerdicts.UnannouncedField`);
- two updates after a resize down and up are refused when the lower one is above the old maximum (`Protocol.AnnounceWire`,
  `Protocol.ResizeCounterexample`);
- a name taken from the table is inserted correctly only when it is short (`Aliasing.AliasedInsertExact`,
  `Aliasing.SurvivorCounterexample`, `Aliasing.EvictedCounterexample`).

## Model

| member | source | states |
|---|---|---|
| IntSpec.DecodeExact | lib/hpack_int.c:58-71 | for any prefix and any representation, redundant zero groups included: a number that fits in 16 bits is exact, whatever the length of its run; any other below 2^21 past the prefix is refused if and only if its third group is 3 modulo 4 and the rest adds up to 2^14 or more, and is read modulo 65536 if not; anything above is refused as long as there are at most 37 continuation octets |
| IntSpec.OverflowMissed | lib/hpack_int.c:61-66 | a concrete number above 65535 that is accepted, as 127 |
| IntSpec.ShiftWraps | inc/hpack_priv.h:150-154 | the bound of 37 is tight: after 37 idle octets a 38th group is added at shift 3, although the number is far above 2^21 |
| IntSpec.RoundTrip | lib/hpack_int.c:78-100 | for every prefix and 16-bit value, reading what was encoded gives the value back, and reads all of it |
| IntSpec.ContsAppend | lib/hpack_int.c:57-71 | the octets of an integer may come in any number of pieces |
| HpackDecoder.Decoder.HpiDecode | lib/hpack_int.c:23-75 | from a fresh or a suspended state, the loop gives the value, suspends for lack of input with everything consumed, or rejects, exactly as reading octet by octet does |
| Validate.HpvToken | lib/hpack_val.c:43-77 | OK if and only if the name is one of the six pseudo-headers, or does not start with a colon and holds only lower-case token characters; otherwise HDR after a colon and CHR without one |
| Validate.TokenExact | lib/hpack_val.c:43-77 | the same of the verdict that all other results use: the tchar of RFC 7230 without capitals, written out, and the six pseudo-headers, letter by letter |
| Validate.ValueExact | lib/hpack_val.c:24-40 | a value is accepted if and only if every octet is a tab, 0x20 to 0x7e, or 0x80 to 0xff |
| Validate.HpvValue | lib/hpack_val.c:24-40 | accepted if and only if every octet is a tab, a space, a visible character or above ASCII |
| Validate.NoNul | lib/hpack_val.c:30-37 | nothing that passes validation holds a NUL |
| TableSpec.EvictMinimal | lib/hpack_tbl.c:255-286 | eviction keeps the longest newest-first part that brings the asked length under the limit: any longer part would exceed it |
| TableSpec.InsertBounded | lib/hpack_tbl.c:299-316 | after an insertion the table fits its limit, and an entry larger than the limit leaves it empty |
| HpackTbl.Hpack.constructor | lib/hpack.c:66-92 | an empty table under the given maximum, in the memory asked for |
| DecoderRuns.RunInBounds | lib/hpack.c:137-157 | over any sequence of resizes and decoded chunks, from any decoder that works, entries fit in the effective limit, that in the maximum, and that in the memory |
| DecoderRuns.Operate | lib/hpack.c:794-864 | the decoder class makes the steps of that run, is ready after each one it survives, and its bytes stay within its memory |
| HpackTbl.Hpack.Resize | lib/hpack.c:160-223 | a resize within 16 bits records the last and the least maximum, gets memory for it and keeps the table |
| HpackTbl.Hpack.Dynamic | lib/hpack_tbl.c:58-79 | walking back-links reaches the byte offset of the entry asked for |
| HpackTbl.Hpack.Field | lib/hpack_tbl.c:82-110 | the entry of an index of either table, and the place of its NUL-terminated name in memory; an unknown one for monitors |
| HpackTbl.Hpack.Adjust | lib/hpack_tbl.c:255-292 | the bytes after eviction are those of the entries that eviction keeps, and the event carries their number |
| HpackTbl.Hpack.MoveEvicted | lib/hpack_tbl.c:339-377 | the memory after the passes through the 64-octet temporary, source inside the moved table |
| HpackTbl.Hpack.Index | lib/hpack_tbl.c:380-427 | the new entry goes in front of what eviction keeps, with its events; the bytes are that table, headers, back-links and terminators included, if and only if the name is not in the table, does not fit, or is safe |
| Aliasing.AliasedInsertExact | lib/hpack_tbl.c:339-377 | the aliased path writes the right table if and only if nothing survives and the name has at most 63 octets, or it has at most 9, or up to 13 that happen to equal the overwritten sizes |
| Aliasing.SurvivorCounterexample | lib/hpack_tbl.c:361-373 | any name of ten octets taken from an entry that stays breaks the table |
| Aliasing.EvictedCounterexample | lib/hpack_tbl.c:361-373 | any name of 64 octets taken from an entry that was evicted with all others breaks the table |
| TableSearch.OneSide | lib/hpack_tbl.c:151-164 | in the sorted list an entry that differs from the key rules out all entries on one side, and all entries of the key's name with it unless it has that name |
| TableSearch.Bsearch | lib/hpack_tbl.c:167-193 | finds the entry if it is in the static table, and otherwise has probed some entry of the key's name if there is one |
| TableSearch.Search | lib/hpack_tbl.c:196-248 | answers an index of an entry with both strings if and only if there is one, otherwise one with the name if and only if there is one |
| TableSearch.HpackSearch | lib/hpack.c:379-398 | the same without a value, where an entry with an empty value counts as one of that name |
| HuffmanCode.ParseAppend | lib/hpack_huf.c:26-57 | reading codes may stop at any bit and go on from the bits left over |
| HuffmanCode.DecodedExactly | lib/hpack_huf.c:60-105 | a string is decoded to `s` if and only if it is the codes of `s` padded with fewer than 8 one bits |
| HuffmanTables.Look1Parse | lib/hpack_huf.c:35-54 | one lookup in the 16-bit window agrees with reading the pending bits one by one: symbol, link, wait or premature EOS |
| HpackDecoder.Decoder.DecodeLookup | lib/hpack_huf.c:26-57 | all symbols held by the window are written and fewer than 8 bits stay pending, or the buffer or EOS stops it |
| HpackDecoder.Decoder.HphDecode | lib/hpack_huf.c:60-105 | a Huffman string, begun or resumed, goes as the octet machine goes: suspended, terminated, or rejected for its padding |
| WireScan.HuffmanString | lib/hpack_huf.c:60-105 | given room, any octets are decoded to exactly what the code and the padding rule say, and rejected with HUF otherwise |
| HuffmanEncode.Push | lib/hpack_huf.c:119-121 | appending a code to the accumulator keeps its low bits equal to the pending bits, whatever stale bits are above |
| HuffmanEncode.Pop | lib/hpack_huf.c:123-126 | the octet written is the eight oldest pending bits |
| HuffmanEncode.Flush | lib/hpack_huf.c:130-136 | the last octet is the pending bits padded with ones |
| EncoderSpec.HuffmanRoundTrip | lib/hpack_huf.c:108-154 | the encoding of any string decodes to it, and its length is the one HPH_size computes |
| HpackEncoder.Encoder.HphEncode | lib/hpack_huf.c:108-137 | the octets written are the codes of the string and their padding |
| HpackEncoder.Encoder.HphSize | lib/hpack_huf.c:140-154 | the number of octets that HPH_encode writes |
| Canonical.CanonicalIsPrefixFree | inc/tbl/hpack_huffman.h:9-264 | in a list whose codes follow each other no code starts another one, and none starts EOS |
| RfcList.RfcIsCanonical | inc/tbl/hpack_huffman.h:9-264 | the list of the library is such a list, and has the shape that the generator asserts |
| RfcCode.Rfc7541IsCode | gen/hpack_huf_enc.c:28-49 | the code of RFC 7541 is a prefix code, and the encoding table inverts its character column |
| StaticTable.LibraryIsWf | inc/tbl/hpack_static.h:9-69 | all 61 static entries are valid fields, so the library's own tables meet what the other results assume |
| Appendices.AppendixA1To16 | inc/tbl/hpack_static.h:9-24 | what indices 1 to 16 resolve to, letter by letter |
| Appendices.AppendixA17To32 | inc/tbl/hpack_static.h:25-40 | the same of indices 17 to 32 |
| Appendices.AppendixA33To48 | inc/tbl/hpack_static.h:41-56 | the same of indices 33 to 48 |
| Appendices.AppendixA49To61 | inc/tbl/hpack_static.h:57-69 | the same of indices 49 to 61 |
| Appendices.OnlyStatic | lib/hpack_tbl.c:82-110 | with an empty dynamic table, 1 to 61 are all the indices there are |
| Appendices.AppendixB00To1f | inc/tbl/hpack_huffman.h:9-264 | the code of each octet from 0x00 to 0x1f, bits and length |
| Appendices.AppendixB20To3f | inc/tbl/hpack_huffman.h:9-264 | the same from 0x20 to 0x3f |
| Appendices.AppendixB40To5f | inc/tbl/hpack_huffman.h:9-264 | the same from 0x40 to 0x5f |
| Appendices.AppendixB60To7f | inc/tbl/hpack_huffman.h:9-264 | the same from 0x60 to 0x7f |
| Appendices.AppendixB80To9f | inc/tbl/hpack_huffman.h:9-264 | the same from 0x80 to 0x9f |
| Appendices.AppendixBa0Tobf | inc/tbl/hpack_huffman.h:9-264 | the same from 0xa0 to 0xbf |
| Appendices.AppendixBc0Todf | inc/tbl/hpack_huffman.h:9-264 | the same from 0xc0 to 0xdf |
| Appendices.AppendixBe0Toff | inc/tbl/hpack_huffman.h:9-264 | the same from 0xe0 to 0xff |
| AppendixC.C21 | tst/rfc7541_c_2_1:8-24 | the octets of a literal with indexing are what is written and, read by a decoder of the library, give this name and value, these events and this table |
| AppendixC.C22 | tst/rfc7541_c_2_2:8-20 | the same of a literal without indexing: no table entry |
| AppendixC.C23 | tst/rfc7541_c_2_3:8-21 | the same of a literal never indexed: the NEVER event, no table entry |
| AppendixC.C24 | tst/rfc7541_c_2_4:8-20 | the same of an indexed field |
| AppendixC.C31 | tst/rfc7541_c_3_1:8-30 | a first request without Huffman coding, from the empty table on |
| AppendixC.C32 | tst/rfc7541_c_3_2:13-52 | the second one, from the table that the first one leaves |
| AppendixC.C33 | tst/rfc7541_c_3_3:16-72 | the third one, from the table that the second one leaves |
| AppendixC.C41 | tst/rfc7541_c_4_1:8-30 | the first request with Huffman coding |
| AppendixC.C42 | tst/rfc7541_c_4_2:13-52 | the second one |
| AppendixC.C43 | tst/rfc7541_c_4_3:16-72 | the third one |
| AppendixC.C51 | tst/rfc7541_c_5_1:8-36 | a first response without Huffman coding, with a table of at most 256 octets |
| AppendixC.C52 | tst/rfc7541_c_5_2:16-55 | the second one, which evicts one entry |
| AppendixC.C53 | tst/rfc7541_c_5_3:19-80 | the third one, which evicts one entry, one more, and two at once |
| AppendixC.C61 | tst/rfc7541_c_6_1:8-35 | the first response with Huffman coding |
| AppendixC.C62 | tst/rfc7541_c_6_2:15-54 | the second one |
| AppendixC.C63 | tst/rfc7541_c_6_3:18-77 | the third one |
| StaticTable.LibraryHdrs | gen/hpack_static_hdr.c:32-73 | exactly one list is the static table sorted by the order of the generator: the one written out here, which the search uses |
| HuffmanGenerator.Generator.MakeHit | gen/hpack_huf_dec.c:74-87 | the shift test is true if and only if the code starts the path and the index of the entry, even one past the end of a table |
| HuffmanGenerator.Generator.MakeHits | gen/hpack_huf_dec.c:161-179 | the entries before the first one that misses are each the one of a code, in order |
| HuffmanGenerator.Generator.FindGroup | gen/hpack_huf_dec.c:133-146 | the codes that share a path fill all the space after it, in less than one more octet |
| HuffmanGenerator.Generator.MakeMisses | gen/hpack_huf_dec.c:90-158 | every other entry, two to ten of them before the fourth octet, links to a complete table of its path, or is the one of EOS |
| HuffmanGenerator.NamesDistinct | gen/hpack_huf_dec.c:48-71 | the names printed for the tables that one table links to differ if and only if their number is not 3, 5, 6 or 7 |
| RfcList.RfcNames | gen/hpack_huf_dec.c:98-104 | for the list of RFC 7541 the numbers are 2, 2 and 10, so the names differ |
| HuffmanGenerator.Generator.Generate | gen/hpack_huf_dec.c:161-201 | the table and all the tables under it are sound: hit if and only if the index extends the rest of a code |
| HuffmanGenerator.Generator.Build | gen/hpack_huf_dec.c:204-224 | the tables form the trie that the decoder needs |
| RfcCode.DecodingTables | gen/hpack_huf_dec.c:25-33 | the modelled generator applied to the list of RFC 7541 gives such tables |
| DecoderVerdicts.UpdateExact | lib/hpack.c:752-783 | every update between two fields, whatever its number: UPD after the first field or when it is not the one due; LEN above the maximum; otherwise the evictions down to it, the new limits, and EVICT? TABLE with this number; with no resize pending, with a lower one and a last one due, and with one due |
| DecoderVerdicts.UpdateBlock | lib/hpack.c:752-783 | a call of hpack_decode on an update alone, no resize pending: accepted with these events and limits if and only if it is not above the maximum, LEN otherwise |
| DecoderVerdicts.MissingUpdate | lib/hpack.c:828-838 | after a resize any block whose first octet has bit 0x20 clear is refused with RSZ |
| DecoderVerdicts.UnannouncedField | lib/hpack.c:828-838 | after a resize an indexed field whose octet has bit 0x20 set is reported nonetheless |
| DecoderVerdicts.LookupExact | lib/hpack_tbl.c:82-110 | the index address space: the static entries from 1 on, then the dynamic ones, and nothing else |
| DecoderVerdicts.FieldExact | lib/hpack.c:656-749 | a representation of a field, valid or not: reported, with its change of the table, if it has no fault; otherwise refused with its first fault, name before value, and the table as it was |
| DecoderSpec.FeedInv | lib/hpack.c:794-864 | every octet keeps the invariant of the decoder: entries valid, length within the limit, buffer never overrun, state coherent with the step |
| HpackDecoder.Decoder.Skip | lib/hpack_dec.c:19-49 | room is made by moving the current field to the front, and refused if and only if it does not fit alone |
| HpackDecoder.Decoder.Cat | lib/hpack_dec.c:84-92 | the octets join the string under way, previous fields kept or given up as a whole |
| HpackDecoder.Decoder.DecodeString | lib/hpack.c:576-653 | a string, raw or Huffman, begun or resumed at any octet, goes as the octet machine goes |
| HpackDecoder.Decoder.DecodeField | lib/hpack.c:656-690 | name and value are validated and reported as the octet machine does, from any step |
| HpackDecoder.Decoder.DecodeIndexed | lib/hpack.c:706-713 | the entry of the index is copied and reported, as the octet machine does |
| HpackDecoder.Decoder.DecodeDynamic | lib/hpack.c:716-726 | the field is reported and then inserted with its evictions |
| HpackDecoder.Decoder.DecodeUpdate | lib/hpack.c:752-783 | limits, evictions and events after an update, and its three refusals, are those of the octet machine, which `DecoderVerdicts.UpdateExact` spells out |
| HpackDecoder.Decoder.DecodeLoop | lib/hpack.c:828-863 | the loop ends, its input shrinking at every turn; it consumes all of it whenever it returns OK, SKP or BLK, and agrees with the octet machine on every chunk |
| HpackDecoder.Decoder.Decode | lib/hpack.c:794-864 | an empty block, an empty buffer or a defunct decoder is refused without effect; a resumed call with another buffer, or a new block after an unforgiven skip, gives ARG and leaves that result in the state, which the next call of the C code asserts against; otherwise the result, events, table and buffer of the octet machine, for a chunk started or resumed |
| HpackDecoder.Decoder.Resize | lib/hpack.c:160-223 | refused in the middle of a block, fatal above 16 bits, and otherwise only the pending limits change |
| HpackDecoder.Decoder.HpackSkip | lib/hpack.c:971-980 | only a decoder in skip mode leaves it, and nothing else changes |
| DecoderBlock.FeedAllFailure | lib/hpack.c:847-855 | decoding can only fail with one of nine errors, never with a success or suspension code |
| DecoderEvents.BlockStory | lib/hpack.c:828-863 | a block reports whole items in order, FIELD NEVER? NAME VALUE then EVICT? INDEX? for dynamic fields only, EVICT? TABLE for at most two updates; the buffer holds the same names and values packed |
| HpackFields.FieldReader.DecodeFields | lib/hpack.c:907-968 | walking the buffer with strlen shows field after field exactly the NAME and VALUE pairs of the block, and then OK |
| HpackFields.FieldReader.Shown | lib/hpack.c:940-957 | the pointers show the strings of the field, and reach the end if and only if it was the last one |
| Split.SplitInvariant | lib/hpack.c:808-828 | any chunks give what the whole gives, result, events, table and buffer, if the last resumption inside of each string length reads its H bit again |
| Split.SplitBlock | lib/hpack.c:794-864 | the same from the start of a block to the code that the last call returns |
| Split.CutInLength | lib/hpack.c:609-620 | a string length in any number of pieces gives what the whole length gives if and only if the last piece starts with the H bit of the first octet |
| Split.CutCounterexample | lib/hpack.c:612 | a raw string of 127 octets that is taken for a Huffman string when its length is cut |
| SkipMode.SkipExact | lib/hpack_dec.c:19-49 | with a smaller buffer a block gives BIG if and only if some field alone does not fit, SKP if and only if they do not fit together, and otherwise the same table, limits and first events |
| SkipMode.FeedLike | lib/hpack_dec.c:19-92 | octet by octet, both decoders stay in step until the field under way does not fit |
| HpackEncoder.Encoder.PutB | lib/hpack_enc.c:19-30 | one octet more is written, and there is room for the next one |
| HpackEncoder.Encoder.BCat | lib/hpack_enc.c:33-53 | all the octets are written, through as many full buffers as it takes |
| HpackEncoder.Encoder.HpiEncode | lib/hpack_int.c:78-100 | the octets written are the representation of the integer |
| HpackEncoder.Encoder.EncodeField | lib/hpack.c:1024-1043 | either the whole representation is written, or the first check that fails is the result; `FieldMeaning.RulingExact` says which fields pass |
| HpackEncoder.Encoder.EncodeDynamic | lib/hpack.c:1057-1077 | the representation is written and the entry inserted, its name possibly taken from the table that moves; the codec stays sound if and only if that name is safe |
| HpackEncoder.Encoder.EncodeUpdate | lib/hpack.c:1112-1154 | one announcement: octets, evictions, events, new limits, and whether another one is due |
| HpackEncoder.Encoder.Announce | lib/hpack.c:1220-1230 | the announcements are none, the last maximum, or the least and the last, with the evictions they mean |
| HpackEncoder.Encoder.AutoIndex | lib/hpack.c:1157-1187 | the field it leaves can only be encoded in ways that the search allows for the field it was given |
| HpackEncoder.Encoder.Encode | lib/hpack.c:1190-1284 | for any buffer size the DATA payloads are the same octets, none empty or larger than the buffer; the table follows; the other events are FIELD EVICT? INDEX? for each field and EVICT? TABLE with its size for each update; and if a field is refused the result is the error of the first one |
| HpackEncoder.Encoder.Resize | lib/hpack.c:160-223 | as for the decoder |
| EncoderFields.ChosenMeans | lib/hpack.c:1157-1187 | whatever index is used automatically, the representation stands for the given name and value |
| EncoderFields.HarmlessRun | lib/hpack_tbl.c:339-377 | if every inserted name is given by a static index, written out, or looked up automatically and at most nine octets long, no choice of the encoder breaks the table |
| EncoderFields.ShortRun | lib/hpack_tbl.c:339-377 | the same with any explicit index, if the names of the table and of all that enters it have at most nine octets |
| WireScan.RepresentationBits | inc/tbl/hpack_tbl.h:221-227 | the first octet of every representation lies in the range of its kind: 0x80 and above indexed, 0x40 to 0x7f inserted, 0x20 to 0x3f an update, 0x10 to 0x1f never indexed, below a plain literal |
| WireScan.HuffmanBit | lib/hpack.c:1010-1018 | a string is written with the H bit if and only if it is Huffman-coded |
| WireScan.StringWire | lib/hpack.c:987-1021 | a string that was encoded is decoded to itself, name or value, raw or Huffman |
| Lockstep.FieldWire | lib/hpack.c:1024-1091 | a field that was encoded is reported with its name and value, and changes the table of the decoder as the one of the encoder |
| Protocol.ResizesAnnounced | lib/hpack.c:208-220 | after any resizes the updates are none, the last maximum, or the true least one and the last one |
| Protocol.AnnounceWire | lib/hpack.c:752-783 | the decoder accepts the announcements, with the same evictions, the same effective limit and EVICT? TABLE of each number, if and only if the least maximum is the last one or not above the current one |
| Protocol.ResizeCounterexample | lib/hpack.c:761-778 | resizes to 5000 and 6000 from 4096: the first announcement is above the old maximum, and the decoder refuses any block with LEN |
| Protocol.BlockInStep | lib/hpack.c:1190-1284 | a block of valid fields is accepted if and only if its announcements are acceptable; then the decoder reports exactly these fields, its events are those of the announcements and of the fields, and both tables and limits are equal |
| Protocol.StayInStep | lib/hpack.c:794-864 | the same over any run of resizes and blocks |
| FieldMeaning.ChosenWritten | lib/hpack.c:1190-1284 | how a field is written: an index if it asks for one or is found as a whole, otherwise a literal of its own type, never indexed if and only if it says so, its strings Huffman-coded by its own flags, its name an index if one is given or found |
| FieldMeaning.ChosenTells | lib/hpack.c:1080-1091 | what a decoder tells of it: an indexed field, an inserted one with its evictions, or a plain one with NEVER if and only if the field is never to be indexed |
| FieldMeaning.RepresentsTells | lib/hpack.c:1254-1261 | both of them for every field of a block, in order, each against the table before it |
| FieldMeaning.FieldsInStep | lib/hpack.c:1190-1284 | from the fields given to the encoder to what the decoder tells: the same strings, with or without automatic indexing, each field written and told as above, after the announcements |
| FieldMeaning.ChoiceIs | lib/hpack.c:1157-1187 | whatever representation the encoder chooses for a field, its verdict, its meaning and the table after it depend on the field alone |
| FieldMeaning.RepresentsIs | lib/hpack.c:1190-1284 | so do they for all the fields of a block |
| FieldMeaning.RefusedIs | lib/hpack.c:1264-1277 | a block is refused with the verdict on the first field that is not accepted |
| FieldMeaning.RulingExact | lib/hpack.c:987-1043 | which fields are accepted, and the error of any other: IDX for an index of nothing, INT above 65535 octets, HDR and CHR by the grammar, ARG without a type; name before value, and a name is looked at only if it is written out |
| FieldMeaning.SameVerdict | lib/hpack.c:1024-1043 | the encoder refuses a representation if and only if the decoder would, and with the same error |
| Session.Transfer | lib/hpack.c:1190-1284 | the encoder class, and the decoder class on its payloads, for a block whose announcements are acceptable, that is safe to insert and that the buffer of the decoder has room for: the result is the verdict on the fields, and if it is OK the decoder reported their names and values, each field is written and told as it asks for (`FieldMeaning.AllWritten`, `FieldMeaning.AllTold`), the octets are those of the announcements and of these representations, the events of both ends are those of these items, and both tables are equal |
| Session.Play | lib/hpack.c:794-864 | the same over any run of resizes and of such blocks, automatic indexing included, up to the first field that is refused: equal lists of names and values, and equal tables under equal limits |
| Session.Connect | lib/hpack.c:95-123 | a new encoder and a new decoder of the library, with its own code and tables, are in step |
| Monitor.MonitorConverges | lib/hpack_tbl.c:82-110 | the table of a monitor started late is always the newest part of the watched one, resolves the indices it knows identically, and is equal as soon as the entries from before its start are gone |
| Monitor.MonitorBeside | lib/hpack_tbl.c:82-110 | the same beside a decoder that reads the octets of any run of resizes and blocks |

## Left out

- HuffmanGenerator.Generator.MakeMisses: a slot number stands for the printed name of a table; that the names differ is `HuffmanGenerator.NamesDistinct`.
- HpackDecoder.Decoder.Decode: the pointer of the FIELD event and the octet count kept for it are not modelled, nor is a resumed call whose buffer starts elsewhere but ends at the same address.
- HpackDecoder.Decoder.DecodeDynamic: names or values above 65535 octets, which a Huffman string can decode to in a large enough buffer, meet an assertion of HPT_index; the model goes on as a build without assertions does.
- HpackFields.FieldReader.DecodeFields: a call of hpack_skip in the middle of a block is not covered, and the checks of hpack_assert_cb are not repeated, as the order and form of events is proved.
- SkipMode.SkipExact: blocks that fail for another reason than the buffer are not compared; the decoder is defunct after them.
- Protocol.StayInStep: blocks are passed whole; cuts and small buffers are the subject of `Split` and `SkipMode`. Runs are lists of representations; `Session.Play` has the fields.
- FieldMeaning.FieldsInStep: Huffman-coded strings above 65535 octets are excluded, since the cast of their length cuts it.
- HpackEncoder.Encoder.Encode: assumes that no insertion it may choose takes from the table a name that `Aliasing.AliasedInsertExact` shows to break it, as nothing can be said of a codec whose memory is no table; `EncoderFields.HarmlessRun` and `EncoderFields.ShortRun` give conditions that a caller can check.
- HpackEncoder.Encoder.AutoIndex: the field is returned instead of being changed in the caller's array.
- Monitor.MonitorConverges: the monitor is a table that follows representations, not a decoder class: the placeholder strings of unknown fields are outside the output buffer, and monitors in skip mode are not modelled.
- Soft limits (hpack_limit and `cap`) and hpack_trim: their assertions do not hold over every order of calls.
- Table probing (hpack_static, hpack_dynamic, hpack_tables, hpack_entry): single lookups, and probing clears the state of a partial block.
- Allocators that fail or cannot reallocate, NULL arguments, magic numbers as tampering checks, hpack_dump, hpack_strerror, hpack_event_id, hpack_clean_field: plumbing.
- The byte order of table headers is the little-endian one; alignment and the unused octets of `struct hpt_entry` carry no meaning.
- The programs of tst/, the manual pages and lib/hpiencode.c: drivers and documentation.
