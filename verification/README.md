# Proofs about the areaDetector Eiger driver

A Dafny model of the parts of this driver with the most state and the most branching, with proofs of what they
promise. `dafny verify dfyconfig.toml` checks all of it.

**The CBOR codec** (`Cbor*.dfy`). `CborFormat` has the heads of data items, `CborGrammar` the well-formed items of
Appendix C of RFC 8949 as a function from bytes to trees, which serves as the independent definition;
`CborJumpTable` checks it against the table of appendix B, byte by byte.
`CborParser` is the iterator: a class with the fields of `CborValue`, and one method for each function that changes
them. Its contracts are stated about snapshots of those fields (`CborIterator`), and the main theorem is that
walking the iterator over any buffer accepts exactly the grammar, within the limits of the implementation.
`CborStrings` and `CborAccess` cover chunked strings, the measure-then-copy pass and the getters, `CborMaps` the
search in a map. `CborEncoder` is the encoder: a class with its pointer, end and counter; ghost fields log what has
been appended and count the items, so that `Valid` states the conservation law of the overflow counter.
`CborEncoding` relates what is appended to the grammar, and `CborRoundTrip` writes trees through nested encoders,
retries after an overflow, and reads them back.

**UTF-8** (`Utf8.dfy`, `Utf8Dump.dfy`). The strict decoder and the dump as escaped UTF-16, against the definition of
an encoding and an independent reader of the escapes.

**The JSON tokenizer** (`Json*.dfy`). `JsonText` says which tree a text has, and how a tree is laid out as tokens.
`JsonTokenizer` is the recursive parser, a class with the cursor and the token array, proved to produce that layout.
`JsonLayout` proves that ranges and spans nest, `JsonLookup` that navigating the array by skipping agrees with plain
lookup in the tree. `JsonGrammar` defines a relaxed concrete syntax, with RFC 8259 inside it, and proves that all of it
is read as it is meant; `JsonSyntax` proves that nothing else is accepted, and that every text has one reading.
`JsonPrefix` is about texts that are cut short, and `JsonPath` defines paths and steps apart from how they are read.
`JsonEmit` proves that an emitted string is read back.

**The file pipeline** (`Pipeline*.dfy`). The five tasks as one state machine in which any task may make the next
step, with the blocking queues as bounded sequences. Whether a file appears, and whether a download or a write
succeeds, is left open. `PipelineSafety` has the inductive invariant, `PipelineRuns` whole runs and the freeing of
the file array, `PipelineProgress` the work that is left and what keeps an acquisition from ending,
`PipelineFiles` what becomes of the files, and `PipelineHistory` the order of events and when the polling ends.

**The stream decoder** (`Stream2.dfy`). Slices of the message without copying, and the shape of image data.

## What does not hold

Some properties one would expect fail, and the proofs say exactly when:

- The encoder writes the simple value 24 (`cborencoder.c:370`), in a form that the parser refuses
  (`cborparser.c:275`). All other values it lets through are read back: `SimpleReadsBackIff`.
- The download task looks at `file->save` after it has sent the file to the parser (`eigerDetector.cpp:1216-1220`).
  If files are parsed but not saved, the file can have been reaped and the whole array freed by then.
  `FreedInTimeIff` shows that this is the only way in which the array is freed too early.
- A failed download sends one message to the reaper (`eigerDetector.cpp:1212`). A file that is both saved and parsed
  then stays pending for ever, and with it the poll task: `StuckForever`. So the end of an acquisition stays within
  reach in all its runs exactly if it does not both save and parse data files: `AlwaysFinishesIff`.
- A file that is to be saved can be removed from the detector without having been saved, since only a failed save
  clears the flag and a failed download does not. This happens to a file exactly if removal was asked for and its
  download failed (`FilesInRuns`), and can happen in exactly the acquisitions that save and remove files
  (`CanRemoveUnsavedIff`).
- The product of the dimensions of an image is compared modulo 2^64 (`stream2.c:350`): `ShapeExactIff`,
  `WrappedImageAccepted`.
- The tokenizer accepts more than RFC 8259: commas may be left out or follow the last entry, numbers may have
  leading zeros, names may be bare, and strings need not be UTF-8, so that a lead byte can swallow the closing quote.
  `AcceptedIff` shows that this list is complete, `RfcIff` when an accepted text is one of RFC 8259, and
  `AcceptedBeyondRfc8259` has two that are not.
- A text refused as incomplete can be completed, as the name says, unless it ends within an escape of four digits and
  already has a character that is no digit: `frozen.c:100` looks at the length first. `CompletableIff`, `DeadText`.
- `json_emit_quoted_str` leaves control characters as they are unless they have an escape of their own, and the
  tokenizer refuses them: `ReadsBackIff`.

## Model

| member | source | states |
|---|---|---|
| CborParser.SkipOneItem | eigerApp/tinyCBORSrc/cborparser.c:392-402 | initialising on any buffer, skipping leading tags and advancing once meets no error if and only if the buffer starts with a well-formed item (Appendix C of RFC 8949) with at most 1024 nested containers and counts that fit 32 bits; the iterator is then exactly at the end of the item |
| CborParser.CborValue.AdvanceRecursive | eigerApp/tinyCBORSrc/cborparser.c:498-524 | one step of iteration: a tag alone, any other item as a whole; no landing without a well-formed item within the nesting allowed, and the landing is exactly at its end |
| CborParser.CborValue.Advance | eigerApp/tinyCBORSrc/cborparser.c:541-547 | the public step: past the end is an error that changes nothing, otherwise a step with 1024 levels of nesting |
| CborParser.CborValue.ParserInit | eigerApp/tinyCBORSrc/cborparser.c:392-402 | the error is the one the first head deserves; without an error the iterator stands on an item with a good cache |
| CborParser.CborValue.PreparseValue | eigerApp/tinyCBORSrc/cborparser.c:215-303 | for every head: which error, and without one a cache (type, flags, 16-bit argument) that agrees with the slow decoding of the same bytes |
| CborParser.ExtractNumber | eigerApp/tinyCBORSrc/cborparser.c:166-192 | the slow decoding of an argument, with the two ways it fails |
| CborParser.CountItems | eigerApp/tinyCBORSrc/cborparser.c:620-633 | a definite count is refused exactly if it does not fit the 32-bit counter below its sentinel, so no definite length can be taken for an indefinite one |
| CborParser.CborValue.PreparseNextValueNoDecrement | eigerApp/tinyCBORSrc/cborparser.c:305-321 | a break ends an indefinite container, but not after a map key and not after a tag; anything else must start an item |
| CborParser.CborValue.PreparseNextValue | eigerApp/tinyCBORSrc/cborparser.c:323-340 | a tag does not count as an item; the last item of a definite container leaves the iterator at its end |
| CborParser.CborValue.AdvanceInternal | eigerApp/tinyCBORSrc/cborparser.c:342-355 | moves past a head and the content of a string; that the number can be read again is proved, so the assertion on it cannot fire |
| CborParser.CborValue.AdvanceFixed | eigerApp/tinyCBORSrc/cborparser.c:489-496 | the same for items without content, with the error past the end |
| CborParser.CborValue.SkipTag | eigerApp/tinyCBORSrc/cborparser.c:577-585 | ends at the first head that is no tag, at the same place of the container, if an item can start there, and fails otherwise |
| CborParser.CborValue.EnterContainer | eigerApp/tinyCBORSrc/cborparser.c:604-641 | where the iterator over the content starts, or that the count is too large |
| CborParser.CborValue.LeaveContainer | eigerApp/tinyCBORSrc/cborparser.c:655-661 | lands behind the container |
| CborParser.ReadChunk | eigerApp/tinyCBORSrc/cborparser.c:1046-1058 | a chunk must be a definite-length string of the type of the whole, within the buffer |
| CborParser.CborValue.GetStringChunk | eigerApp/tinyCBORSrc/cborparser.c:1015-1062 | yields the next chunk, or moves past the string at its break or at its end |
| CborParser.IterateStringChunks | eigerApp/tinyCBORSrc/cborparser.c:1099-1140 | over all chunks: the total is the length of the concatenation, the verdict is on the concatenation, no byte past the given room is written, and the error is that of the first chunk that is none |
| CborStrings.Apply | eigerApp/tinyCBORSrc/cborparser.c:1081-1097 | what the three chunk functions do at an offset |
| CborStrings.FeedChunk | eigerApp/tinyCBORSrc/cborparser.c:1114-1130 | one chunk more: a negative verdict is final, and the bytes copied are the content so far |
| CborStrings.FeedNul | eigerApp/tinyCBORSrc/cborparser.c:1132-1137 | a NUL is added exactly if there is room; a longer C string compares unequal |
| CborStrings.ContentFits | eigerApp/tinyCBORSrc/cborparser.c:1099-1140 | the content of a string is no longer than its encoding, so the totals cannot overflow |
| CborParser.CopyString | eigerApp/tinyCBORSrc/cborparser.c:1210-1218 | if the string can be left behind: copied and terminated when it fits, and otherwise out of memory with its true length and the iterator past it; out of memory for no other reason, and a string that is cut short gives the error of its first bad chunk; nothing is written past the length given |
| CborAccess.CalculateStringLength | eigerApp/tinyCBORSrc/cborparser.c:988-992 | measuring fails exactly if the string cannot be read and left behind |
| CborAccess.DupString | eigerApp/tinyCBORSrc/cborparser_dup_string.c:97-119 | the second pass never fails after the first: an error is always one of the first pass, and the copy is the content with a NUL |
| CborAccess.TextStringEquals | eigerApp/tinyCBORSrc/cborparser.c:1238-1252 | succeeds if and only if the tags can be skipped and what is under them is no text string or one that can be read and left behind; then equal if and only if the entry, tags aside, is a text string whose concatenated content is the C string |
| CborParser.ValidateBasic | eigerApp/tinyCBORSrc/cborparser.c:468-472 | valid if and only if a well-formed item within the limits stands here (for a tag, its head) and what follows it in its container can be stood on |
| CborIterator.HeadErrorMeaning | eigerApp/tinyCBORSrc/cborparser.c:215-303 | there is no error exactly for the heads that may start an item |
| CborIterator.TypeIsPublic | eigerApp/tinyCBORSrc/cborparser.c:238-303 | the type a caller is told is that of the item which stands here, for all items |
| CborIterator.HeadErrorRows | eigerApp/tinyCBORSrc/cborparser.c:215-303 | which initial bytes give which error, in plain numbers |
| CborIterator.HeadErrorMore | eigerApp/tinyCBORSrc/cborparser.c:224-240 | an unexpected end of the buffer is the one error that more bytes can mend, and every other one is final |
| CborIterator.LandingError | eigerApp/tinyCBORSrc/cborparser.c:305-340 | a landing fails exactly if neither an item nor an allowed break follows |
| CborIterator.PendingPastTag | eigerApp/tinyCBORSrc/cborparser.c:498-513 | stepping over a tag does not change where the container ends |
| CborIterator.PendingPastItem | eigerApp/tinyCBORSrc/cborparser.c:323-340 | stepping over an item does not change where the container ends, for counted and for open containers |
| CborIterator.PendingPastTags | eigerApp/tinyCBORSrc/cborparser.c:577-585 | nor does skipping all tags |
| CborIterator.ContainerEnd | eigerApp/tinyCBORSrc/cborparser.c:604-641 | a container ends where the iterator over its content will, one level down; it has no end if it cannot be entered |
| CborIterator.StepKeepsPending | eigerApp/tinyCBORSrc/cborparser.c:517-523 | the invariant of iteration: each step keeps the end of the container in view, so that exactly its items are visited |
| CborIterator.RestStep | eigerApp/tinyCBORSrc/cborparser.c:1015-1062 | the next chunk comes before the rest of the content |
| CborIterator.StringEnds | eigerApp/tinyCBORSrc/cborparser.c:1099-1140 | when the chunks are over, what has been read is the content of the string |
| CborGrammar.PastTags | eigerApp/tinyCBORSrc/cborparser.c:577-585 | tags do not move the end of an item |
| CborAccess.DecodeInt64Internal | eigerApp/tinyCBORSrc/cborparser.c:367-380 | four- and eight-byte arguments read from the buffer |
| CborAccess.ExtractInt64 | eigerApp/tinyCBORSrc/cbor.h:311-315 | the cached or re-read argument is the argument of the head |
| CborAccess.GetBoolean | eigerApp/tinyCBORSrc/cbor.h:331-336 | the boolean that stands here |
| CborAccess.GetSimpleType | eigerApp/tinyCBORSrc/cbor.h:341-346 | the simple value that stands here |
| CborAccess.GetRawInteger | eigerApp/tinyCBORSrc/cbor.h:356-361 | sign and argument of the integer that stands here |
| CborAccess.GetTag | eigerApp/tinyCBORSrc/cbor.h:397-402 | the tag that stands here |
| CborAccess.GetLength | eigerApp/tinyCBORSrc/cbor.h:411-424 | the announced length, or that there is none |
| CborAccess.GetInt64Checked | eigerApp/tinyCBORSrc/cborparser.c:837-860 | succeeds if and only if the CBOR integer is in [-2^63, 2^63), and returns it |
| CborAccess.GetIntChecked | eigerApp/tinyCBORSrc/cborparser.c:877-907 | succeeds if and only if it is in [-2^31, 2^31), and returns it |
| CborMaps.MapFindValue | eigerApp/tinyCBORSrc/cborparser.c:1326-1372 | on any well-formed map: stops at the value of the first key that, tags and chunks aside, is the text searched for, with the iterator standing at an entry value of the map, or reports an invalid element if there is none; only a map that is not well-formed makes it fail |
| CborMaps.FindStep | eigerApp/tinyCBORSrc/cborparser.c:1335-1362 | one entry of the search: found, or the search goes on behind the entry with the same result |
| CborMaps.SkipEntryValue | eigerApp/tinyCBORSrc/cborparser.c:1357-1362 | skipping the value of another key keeps the result of the search |
| CborMaps.MapLookup | eigerApp/tinyCBORSrc/cborparser.c:1326-1372 | the offset that is found is the one of the value that plain lookup in the items of the tree gives |
| CborEncoder.LayOutHead | eigerApp/tinyCBORSrc/cborencoder.c:279-306 | the bytes laid out are the head in shortest form |
| CborFormat.HeadReadsBack | eigerApp/tinyCBORSrc/cborencoder.c:279-306 | reading such a head back gives the same major type and argument, for all 64-bit arguments |
| CborFormat.HeadIsShortest | eigerApp/tinyCBORSrc/cborencoder.c:279-306 | no head with the same argument is shorter (section 4.2.1 of RFC 8949) |
| CborJumpTable.IntegerRows | eigerApp/tinyCBORSrc/cborparser.c:166-192 | the rows of the jump table of appendix B of RFC 8949 for integers: initial byte, argument and value in plain numbers |
| CborJumpTable.StringRows | eigerApp/tinyCBORSrc/cborparser.c:1024-1062 | the same for strings, whole and in chunks |
| CborJumpTable.ContainerRows | eigerApp/tinyCBORSrc/cborparser.c:604-661 | the same for arrays and maps, counted and up to a break |
| CborJumpTable.TagRows | eigerApp/tinyCBORSrc/cborparser.c:489-496 | the same for tags |
| CborJumpTable.SimpleRows | eigerApp/tinyCBORSrc/cborparser.c:244-283 | the same for simple values and floating point |
| CborJumpTable.BreakRow | eigerApp/tinyCBORSrc/cborparser.c:305-321 | the same for the break, and for what is no chunk |
| CborFormat.BigEndianInverts | eigerApp/tinyCBORSrc/cborencoder.c:211-238 | storing and reading big-endian numbers are inverse |
| CborEncoder.CborEncoder.AppendToBuffer | eigerApp/tinyCBORSrc/cborencoder.c:240-272 | conservation: what has been written stays and nothing behind it is touched; without overflow the buffer holds everything appended, an overflow writes nothing, and from then on the counter is exactly what is lacking; an error exactly if it does not all fit |
| CborEncoder.CborEncoder.GetExtraBytesNeeded | eigerApp/tinyCBORSrc/cbor.h:260-263 | full length minus buffer size once overflow has happened, else 0 |
| CborEncoder.CborEncoder.GetBufferSize | eigerApp/tinyCBORSrc/cbor.h:255-258 | the length of the encoding when it fits |
| CborEncoder.CborEncoder.SaturatedDecrement | eigerApp/tinyCBORSrc/cborencoder.c:308-312 | counts an item; the counter stays at 0 once there are too many |
| CborEncoder.CborEncoder.EncodeNumber | eigerApp/tinyCBORSrc/cborencoder.c:314-318 | appends a head and counts an item |
| CborEncoder.CborEncoder.EncodeNegativeInt | eigerApp/tinyCBORSrc/cborencoder.c:339-342 | appends the negative integer of this absolute value, down to -2^64 for 0 |
| CborEncoder.CborEncoder.EncodeInt | eigerApp/tinyCBORSrc/cborencoder.c:350-357 | the branch-free choice of sign and complement appends the integer |
| CborEncoder.CborEncoder.EncodeSimpleValue | eigerApp/tinyCBORSrc/cborencoder.c:366-374 | refuses 25 to 31, appends every other value, 24 included |
| CborEncoding.SimpleReadsBackIff | eigerApp/tinyCBORSrc/cborparser.c:272-279 | a simple value that the encoder lets through is read back if and only if it is not 24 |
| CborEncoder.CborEncoder.EncodeFloatingPoint | eigerApp/tinyCBORSrc/cborencoder.c:387-403 | appends the bits of a float and counts an item |
| CborEncoder.CborEncoder.EncodeTag | eigerApp/tinyCBORSrc/cborencoder.c:410-414 | appends a tag, which counts as no item |
| CborEncoder.CborEncoder.EncodeString | eigerApp/tinyCBORSrc/cborencoder.c:416-422 | appends a string; also when its head overflows its content is counted |
| CborEncoder.CborEncoder.CreateContainer | eigerApp/tinyCBORSrc/cborencoder.c:461-482 | the new encoder goes on where its parent is, behind the opening head, with a counter for its own items; what the parent has written stays |
| CborEncoder.CborEncoder.CreateMap | eigerApp/tinyCBORSrc/cborencoder.c:522-527 | refuses a pair count that cannot be doubled and changes nothing then |
| CborEncoder.CborEncoder.CloseContainer | eigerApp/tinyCBORSrc/cborencoder.c:541-557 | no error if and only if everything fits and exactly the announced number of items has been appended; too many, too few and overflow are told apart exactly; what has been written stays |
| CborRoundTrip.WriteItem | eigerApp/tinyCBORSrc/cborencoder.c:326-557 | any tree, through nested encoders and any buffer, appends exactly its encoding; what has been written stays, and all of it is written if it fits |
| CborRoundTrip.EncodeToFit | eigerApp/tinyCBORSrc/cborencoder.c:240-272 | after an overflow, one retry with the buffer grown by the extra bytes succeeds and fills it exactly |
| CborRoundTrip.MeasureItem | eigerApp/tinyCBORSrc/cborencoder.c:240-272 | encoding over no buffer measures the encoding |
| CborEncoding.DecodeEncoded | eigerApp/tinyCBORSrc/cborencoder.c:326-557 | wherever the encoding of a tree stands, the grammar reads that tree, up to the end of the encoding |
| CborEncoding.EncodeIsShortest | eigerApp/tinyCBORSrc/cborencoder.c:279-306 | an encoding is no longer than any other well-formed bytes for the same tree |
| CborRoundTrip.ReadItem | eigerApp/tinyCBORSrc/cborparser.c:604-661 | walking by enter, advance and leave yields the tree that the bytes denote, and no error exactly if there is one |
| CborRoundTrip.ReadItems | eigerApp/tinyCBORSrc/cborparser.c:604-661 | the items of a container, up to its own end |
| CborRoundTrip.Rewritten | eigerApp/tinyCBORSrc/cborencoder.c:270-557 | every well-formed item of any buffer, its strings made whole, is one that the encoder can write, and what it writes is read as the same tree |
| CborRoundTrip.TreesRead | eigerApp/tinyCBORSrc/cborparser.c:498-524 | reading one item and then the others is reading all of them |
| CborRoundTrip.WriteThenRead | eigerApp/tinyCBORSrc/cborparser.c:604-661 | round trip: every tree that is written and then read is the same tree, if and only if its counts fit the reader |
| Utf8.GetUtf8 | eigerApp/tinyCBORSrc/utf8_p.h:32-102 | accepts exactly the encodings of scalar values (section 4 of RFC 3629: no overlong forms, surrogates or values out of range), decodes them and moves behind them |
| Utf8.CharIsEncoding | eigerApp/tinyCBORSrc/utf8_p.h:32-102 | what the syntax admits is the encoding of the scalar value that is decoded |
| Utf8.EncodingIsChar | eigerApp/tinyCBORSrc/utf8_p.h:32-102 | and every encoding of a scalar value is admitted and decoded to it |
| Utf8.IsUtf8Iff | eigerApp/tinyCBORSrc/cborpretty.c:197-207 | a byte string is the encoding of some scalar values if and only if decoding character by character reaches its end |
| Utf8Dump.Utf8EscapedDump | eigerApp/tinyCBORSrc/cborpretty.c:197-256 | no error if and only if the bytes are UTF-8; undoing the escapes and surrogate pairs of the output gives the characters up to the first error |
| Utf8Dump.EscapeCharacter | eigerApp/tinyCBORSrc/cborpretty.c:204-253 | what is printed for one character |
| Utf8Dump.EscapeReadsBack | eigerApp/tinyCBORSrc/cborpretty.c:204-253 | the escape of a character, surrogate pairs included, is read back as that character (section 2.1 of RFC 2781) |
| Utf8Dump.EscapeForm | eigerApp/tinyCBORSrc/cborpretty.c:208-253 | printable ASCII but the quotation mark and the backslash stands for itself; the short escapes; one unit of four upper-case digits, or two outside the basic plane, for all others |
| Utf8Dump.DumpIsPrintable | eigerApp/tinyCBORSrc/cborpretty.c:197-256 | the output is printable ASCII throughout |
| Utf8Dump.DumpReadsBack | eigerApp/tinyCBORSrc/cborpretty.c:197-256 | for whole strings |
| JsonTokenizer.Frozen.CapturePtr | eigerApp/frozenSrc/frozen.c:111-125 | begins a token; only a fixed array that is full refuses, a growing one keeps the tokens it has |
| JsonTokenizer.Frozen.CaptureLen | eigerApp/frozenSrc/frozen.c:127-133 | completes one token and changes no other; one past the last token, it changes none |
| JsonTokenizer.Frozen.TestAndSkip | eigerApp/frozenSrc/frozen.c:73-77 | white space and the expected character are skipped, or the text is refused as wrong or as incomplete |
| JsonTokenizer.Frozen.ParseIdentifier | eigerApp/frozenSrc/frozen.c:136-145 | a bare key becomes one token over the identifier |
| JsonTokenizer.Frozen.ParseString | eigerApp/frozenSrc/frozen.c:157-176 | a string becomes one token over its body, or is refused with the code the text deserves |
| JsonTokenizer.Frozen.ParseNumber | eigerApp/frozenSrc/frozen.c:179-202 | a number becomes one token |
| JsonTokenizer.Frozen.Expect | eigerApp/frozenSrc/frozen.c:225-237 | a word becomes one token, or is refused at the first character that is missing or differs |
| JsonTokenizer.Frozen.ParseArray | eigerApp/frozenSrc/frozen.c:205-217 | an array appends the preorder layout of its tree, with the count of all descendants; it fails only as the text does or if a fixed array has too little room |
| JsonTokenizer.Frozen.ParseObject | eigerApp/frozenSrc/frozen.c:286-298 | the same for an object |
| JsonTokenizer.Frozen.ParsePair | eigerApp/frozenSrc/frozen.c:278-283 | a key and its value |
| JsonTokenizer.Frozen.ParseValue | eigerApp/frozenSrc/frozen.c:240-259 | the same for any value; the cursor never passes the end and the recursion is on the remaining text |
| JsonTokenizer.Frozen.ParseKey | eigerApp/frozenSrc/frozen.c:262-275 | a key |
| JsonTokenizer.Frozen.DoIt | eigerApp/frozenSrc/frozen.c:300-317 | the root must be an object or an array; behind its tokens an end marker |
| JsonTokenizer.ParseJson | eigerApp/frozenSrc/frozen.c:320-332 | accepts if and only if the text has a tree and the array has room for it and the marker; then returns the end of the text and the array begins with the layout of the tree |
| JsonTokenizer.ParseJson2 | eigerApp/frozenSrc/frozen.c:334-347 | accepts if and only if the text has a tree; the array has grown to hold its layout |
| JsonLayout.TokensAreLaminar | eigerApp/frozenSrc/frozen.c:205-217 | of two tokens of a text the later one is a descendant, with its range of indices and its text inside; or it lies behind the whole range and text of the earlier one |
| JsonLayout.Laminar | eigerApp/frozenSrc/frozen.c:127-133 | the same for any forest that is placed in order |
| JsonLayout.RootFine | eigerApp/frozenSrc/frozen.c:300-317 | the tree of a text: spans nest, only containers have kids, keys are strings |
| JsonLookup.Scan | eigerApp/frozenSrc/frozen.c:369-382 | skipping by descendant counts finds the first member with that key, or the element with that index, and ends exactly at the descendant count if there is none |
| JsonLookup.FindJsonToken | eigerApp/frozenSrc/frozen.c:355-389 | returns the preorder index of the value that plain lookup of the path in the tree gives, and NULL if and only if that lookup is undefined |
| JsonPath.PathIff | eigerApp/frozenSrc/frozen.c:355-388 | a path leads by these steps if and only if it is written as names and bracketed decimal numbers with dots between them, up to its NUL; any other path leads nowhere |
| JsonPath.ChildIs | eigerApp/frozenSrc/frozen.c:368-382 | a step by name leads to the value of the first key that reads so, by index to that element, and nowhere in any other case |
| JsonLookup.PathPartLen | eigerApp/frozenSrc/frozen.c:349-353 | the end of a name in a path |
| JsonLookup.ParseIndex | eigerApp/frozenSrc/frozen.c:358-365 | the index in brackets, or that it is malformed |
| JsonLookup.LookupStep | eigerApp/frozenSrc/frozen.c:355-388 | looking up a path is looking up its first step and then the rest from there |
| JsonLookup.TokensLocated | eigerApp/frozenSrc/frozen.c:320-332 | the tokens of any accepted text meet what a lookup needs |
| JsonSyntax.AcceptedIff | eigerApp/frozenSrc/frozen.c:157-317 | a text is accepted if and only if its root is an object or array in the relaxed concrete syntax, whatever follows: that syntax is exactly what the tokenizer accepts |
| JsonSyntax.SyntaxUnique | eigerApp/frozenSrc/frozen.c:157-317 | the relaxed syntax is unambiguous: white space, syntax tree and rest are determined by the text |
| JsonSyntax.RfcIff | eigerApp/frozenSrc/frozen.c:157-317 | what has been accepted is a text of RFC 8259 if and only if that one syntax tree has commas exactly between entries, no leading zeros, quoted names and strings in UTF-8 |
| JsonSyntax.SingleAccepted | eigerApp/frozenSrc/frozen.c:205-217 | any array of one relaxed value is accepted, and it is no RFC 8259 text if a comma follows the value or the value is none of RFC 8259 |
| JsonSyntax.AcceptedBeyondRfc8259 | eigerApp/frozenSrc/frozen.c:134-176 | two such texts: a trailing comma, and a string whose lead byte swallows a quote |
| JsonSyntax.ValueSyntax | eigerApp/frozenSrc/frozen.c:240-259 | every accepted value has a relaxed syntax tree written exactly where it was read |
| JsonSyntax.EntriesSyntax | eigerApp/frozenSrc/frozen.c:205-217 | the same for the entries of an array or object, with which commas were left out |
| JsonSyntax.ElementSyntax | eigerApp/frozenSrc/frozen.c:278-283 | the same for an element, or a member with its name, colon and white space |
| JsonSyntax.SameValue | eigerApp/frozenSrc/frozen.c:240-259 | no text has two readings as a value |
| JsonPrefix.OutcomeIsFinal | eigerApp/frozenSrc/frozen.c:157-317 | reading on never changes the outcome of a text, unless it has been refused as incomplete |
| JsonPrefix.CompletableIff | eigerApp/frozenSrc/frozen.c:97-109 | a text refused as incomplete can be completed to one that is accepted if and only if it does not end within an escape of four digits one of which is none |
| JsonPrefix.DeadText | eigerApp/frozenSrc/frozen.c:99-102 | such a text, refused as incomplete although nothing can complete it |
| JsonGrammar.RelaxedAccepted | eigerApp/frozenSrc/frozen.c:157-317 | every text in the relaxed syntax is accepted, and its tree, with every position, is the one that is meant |
| JsonGrammar.TextAccepted | eigerApp/frozenSrc/frozen.c:157-317 | every text of RFC 8259 with an object or array root is accepted with its tree |
| JsonGrammar.ValueRead | eigerApp/frozenSrc/frozen.c:240-259 | every value in the relaxed syntax is read as its tree wherever it stands, if what follows is not read as part of it |
| JsonGrammar.EntriesRead | eigerApp/frozenSrc/frozen.c:205-217 | the same for entries, with or without commas |
| JsonGrammar.ElementRead | eigerApp/frozenSrc/frozen.c:278-283 | for an element or member with the white space around it |
| JsonGrammar.NumberRead | eigerApp/frozenSrc/frozen.c:179-202 | for numbers with fraction and exponent |
| JsonGrammar.StringRead | eigerApp/frozenSrc/frozen.c:157-176 | for strings with all escapes and any bytes |
| JsonEmit.JsonEmitQuotedStr | eigerApp/frozenSrc/frozen.c:405-431 | the length returned is that of the full output; what is written is its prefix, with a NUL if there is room, and nothing else is touched |
| JsonEmit.EmittedForm | eigerApp/frozenSrc/frozen.c:410-425 | seven characters are escaped, each by its letter, and no others |
| JsonEmit.EmittedReadsBack | eigerApp/frozenSrc/frozen.c:411-425 | undoing the escapes of the emitted body gives back the input, for every byte string |
| JsonEmit.ReadsBackIff | eigerApp/frozenSrc/frozen.c:405-431 | emitted into an array and parsed back, a UTF-8 string gives one string token over exactly the emitted body if and only if its only control characters are those with an escape of their own |
| JsonEmit.UnwritableRefused | eigerApp/frozenSrc/frozen.c:164 | any other control character makes the parser refuse the text as invalid |
| PipelineSafety.StepKeeps | eigerApp/src/eigerDetector.cpp:1102-1363 | the inductive invariant: every step of every task keeps reference counts equal to outstanding stages and messages, the pending counter equal to the number of counted files, data in memory for every stage that needs it, and all indices within the file array |
| PipelineSafety.QueuesHold | eigerApp/src/eigerDetector.cpp:199-203 | the queues hold at most 2, 2, 2 and 4 files |
| PipelineSafety.WaitsForQueues | eigerApp/src/eigerDetector.cpp:1102-1363 | each task waits only to receive from an empty queue or to send to a full one, whatever the others are at |
| PipelineSafety.ChoicesAreFree | eigerApp/src/eigerDetector.cpp:1147-1326 | files may appear or not, and every download and every write may fail |
| PipelineSafety.AcceptKeeps | eigerApp/src/eigerDetector.cpp:1113-1143 | a new acquisition starts from where everything holds |
| PipelineSafety.DownloadMoveKeeps | eigerApp/src/eigerDetector.cpp:1197-1223 | a file keeps its invariant through the download and the two dispatches, which look at the flags one after the other |
| PipelineSafety.SaveMoveKeeps | eigerApp/src/eigerDetector.cpp:1245-1329 | a file keeps its invariant through saving, with the removal flag cleared on failure |
| PipelineSafety.ReapMoveKeeps | eigerApp/src/eigerDetector.cpp:1331-1363 | a file keeps its invariant, which says when its data is in memory and when it has been freed, through counting down, deleting, freeing and uncounting |
| PipelineRuns.DisciplinedRuns | eigerApp/src/eigerDetector.cpp:1102-1363 | in every run in which parsed data files are also saved, the invariant holds, and when the poll task frees the file array no queue and no task holds a file |
| PipelineRuns.FreedInTimeIff | eigerApp/src/eigerDetector.cpp:1213-1222 | every run of an acquisition frees the file array in time if and only if files are saved, or none is parsed, or there are none; otherwise the download task can still look at a flag of a freed file |
| PipelineProgress.NextIsEnabled | eigerApp/src/eigerDetector.cpp:199-203 | with blocking queues of capacity 2, 2, 2 and 4 the tasks never block each other for good: the step chosen for them is possible |
| PipelineProgress.Progress | eigerApp/src/eigerDetector.cpp:1197-1363 | as long as a file is pending, and none has lost a message, there is such a step |
| PipelineProgress.MeasureDrops | eigerApp/src/eigerDetector.cpp:1145-1363 | every step that moves a file on decreases the weighted work that is left |
| PipelineProgress.WorkDrops | eigerApp/src/eigerDetector.cpp:1102-1363 | every step within an acquisition that changes anything, polling included, lowers the work that is left in all tasks together |
| PipelineProgress.WorkBoundsRuns | eigerApp/src/eigerDetector.cpp:1102-1363 | in every run within an acquisition no more steps change anything than there was work at the start |
| PipelineProgress.NextStepIsPossible | eigerApp/src/eigerDetector.cpp:1145-1363 | until the file array is about to be freed, and as long as no message is lost, there is a step that changes something |
| PipelineProgress.EverySchedule | eigerApp/src/eigerDetector.cpp:1102-1363 | in every run from the start of an acquisition, whatever the interleaving, at most 20 steps a file and 5 more change anything; once nothing can change any more, and no download of a file that is both saved and parsed has failed, no file is pending and the poll task is about to free the array |
| PipelineProgress.FreeingReached | eigerApp/src/eigerDetector.cpp:1178-1188 | if no message has been lost, the acquisition can be brought to its end |
| PipelineProgress.StuckForever | eigerApp/src/eigerDetector.cpp:1209-1213 | after a failed download of a file that is both saved and parsed, the file stays pending in every run and the poll task never ends its wait |
| PipelineProgress.DrainsIff | eigerApp/src/eigerDetector.cpp:1209-1213 | from any state where the invariant holds, the pending counter can reach zero if and only if no such message has been lost |
| PipelineProgress.FinishesIff | eigerApp/src/eigerDetector.cpp:1178-1213 | within an acquisition its end can be reached if and only if no such message has been lost |
| PipelineProgress.AlwaysFinishesIff | eigerApp/src/eigerDetector.cpp:1178-1213 | the end can be reached from wherever the acquisition may have got to if and only if it does not both save and parse data files |
| PipelineFiles.FilesInRuns | eigerApp/src/eigerDetector.cpp:1284-1363 | in every run of an acquisition: data is in memory while a stage works on it, a freed file stays freed, a file whose local open or write failed is never deleted, a file that is done has been deleted if and only if removal was asked for and saving did not fail, and a file to be saved is deleted without having been saved if and only if removal was asked for and its download failed |
| PipelineFiles.DataInRuns | eigerApp/src/eigerDetector.cpp:1197-1363 | in every run of an acquisition a finalised file has been freed, unless its download failed or no stage wanted it; before that it holds its data exactly from its download on; when the array is freed no file holds data |
| PipelineFiles.CanRemoveUnsavedIff | eigerApp/src/eigerDetector.cpp:1197-1363 | that happens in some run of an acquisition if and only if it saves and removes files |
| PipelineHistory.PollingEnds | eigerApp/src/eigerDetector.cpp:1145-1176 | in every run, once the poll task no longer looks for files it has found all of them or has been told to stop in three looks in vain, and not both; until then it can go on looking and cannot give up |
| PipelineHistory.CanEndWithoutIff | eigerApp/src/eigerDetector.cpp:1145-1176 | an acquisition can end without all of its files with exactly three such looks |
| PipelineHistory.FilesInOrder | eigerApp/src/eigerDetector.cpp:1197-1256 | in every run the files are downloaded, parsed and saved in the order of the file array, each once at most |
| PipelineHistory.FirstInFirstOut | eigerApp/src/eigerDetector.cpp:1197-1363 | in every run, what has been taken from a queue and what is in it is what was in it and what has been sent, in the same order |
| PipelineHistory.RecordsInRuns | eigerApp/src/eigerDetector.cpp:1204-1326 | a file is recorded as saved exactly if it has been written, and as failed exactly if its download or its saving has failed |
| PipelineHistory.BackToStart | eigerApp/src/eigerDetector.cpp:1113-1194 | when a disciplined acquisition has ended the pipeline is as it was before the first one |
| Stream2.ConsumeByteStringNoCopy | eigerApp/src/stream2.c:45-80 | with a next iterator: succeeds if and only if the string is whole and can be left behind, and the slice lies in the message and is the content that copying gives; without one, the slice is not checked against the message |
| Stream2.ParseTag | eigerApp/src/stream2.c:97-107 | succeeds if and only if a tag stands here and something can start behind it |
| Stream2.ParseUint64 | eigerApp/src/stream2.c:154-164 | succeeds if and only if an unsigned integer stands here that can be left behind, and returns it |
| Stream2.ParseTextString | eigerApp/src/stream2.c:166-172 | the same for a text string, chunked or not, with its whole content |
| Stream2.ParseArray2Uint64 | eigerApp/src/stream2.c:174-198 | the same for an array of known length of exactly two unsigned integers |
| Stream2.ParseCompressedData | eigerApp/src/stream2.c:234-249 | the data is accepted if and only if it is a whole byte string of at least 12 bytes and the algorithm is known; the original size is the big-endian number it starts with |
| Stream2.ParseDectrisCompression | eigerApp/src/stream2.c:200-252 | succeeds if and only if the compression tag over an array of name, element size and such data stands here, and returns what they say |
| Stream2.ParseBytes | eigerApp/src/stream2.c:254-279 | succeeds if and only if plain or compressed data stands here; what is returned is a slice of the message |
| Stream2.TypedArrayElemSize | eigerApp/src/stream2.c:944-955 | the element size of tags 64 to 87, as table 1 of RFC 8746 lists it |
| Stream2.ParseTypedArray | eigerApp/src/stream2.c:285-311 | succeeds if and only if data with a whole number of elements stands here under the tag of a typed array |
| Stream2.ParseMultidimArray | eigerApp/src/stream2.c:317-354 | succeeds if and only if the tree of section 3.1.1 of RFC 8746 stands here with two dimensions whose product, modulo 2^64, is the number of elements |
| Stream2.TagBits | eigerApp/src/stream2.c:944-951 | the two fields of the tag give the width that table 1 of RFC 8746 lists for it |
| Stream2.PlainImageIff | eigerApp/src/stream2.c:285-354 | which uncompressed images are accepted, in the numbers of RFC 8746 |
| Stream2.CompressedDataIff | eigerApp/src/stream2.c:222-246 | which compressed data is accepted, in its bytes, and the original size it states |
| Stream2.ImageMessage | eigerApp/src/stream2.c:317-354 | the message of any such image, and nothing else in it, is accepted |
| Stream2.ShapeExactIff | eigerApp/src/stream2.c:350-351 | an accepted array has the data its dimensions call for if and only if their product is below 2^64 |
| Stream2.WrappedImageAccepted | eigerApp/src/stream2.c:350-351 | the message of an image of 2^32 by 2^32 pixels with no data is accepted |

## Left out

- Sockets, HTTP, ZMQ, asyn parameters, EPICS records and detector commands: plumbing around remote services.
- HDF5 and TIFF parsing, decompression, file system identities: calls into other libraries.
- The key dispatch of `parse_start_msg` and `parse_image_msg`, `parse_key`, goniometer and user data: many easy cases.
  `parse_key` treats any failed copy as an unknown key, so nothing is claimed about malformed messages as a whole.
- `extractTimeStampFromMessage`, `rfc3339.h`, half-float conversion and number formatting: regular expressions,
  calendar and floating-point formats.
- The getters that truncate without a check (`cbor_value_get_int`, `cbor_value_get_int64`): a cast of the value that
  the checked getters are about.
- Overflow of pointers and sizes: buffers have at most 2^63 - 1 bytes and `size_t` is 64 bits wide. Under that bound
  the overflow checks on string totals and lengths never fire.
- Allocation failure, in `DupString`, in the growing token array and for the file array.
- Failure of the output function in `Utf8EscapedDump`: the output is a sequence that takes everything.
- The options of the parser and encoder that are fixed at compile time, and custom readers.
- A NULL token path, a NULL text and negative lengths in the tokenizer; overflow of the `int` index of a path and of
  the token count; the depth of its recursion.
- The content of token slots behind the end marker, one of which the tokenizer writes a length into.
- `JsonTokenizer.Frozen.CaptureLen`: when it is called one past the last token it only promises that no token changes.
- `Pipeline`: the tasks are modelled on values, one step for each access to shared memory that another task can see;
  the lock around the pending counter makes its update one step. The writes to `file->len` and to parameters, and
  what parsing a file does, are not modelled, nor is the flag that says whether all files were found, which is
  `PipelineHistory.AllFound` at the end.
- `PipelineProgress.EverySchedule`: steps in which the poll task finds no new file, or reads the counter and goes on
  waiting, change nothing and are not bounded.
- `CborRoundTrip.ReadItem`: readers that copy strings do not see where chunks begin, so the tree has them whole; the iterator
  itself is proved chunk by chunk.
- `CborMaps.MapFindValue`: what it does on a map that is not well-formed is only bounded: it fails, or finds what the part
  before the defect determines.
- `Stream2.ParseMultidimArray`: which error is reported, and what is left in the output structures when there is one.
