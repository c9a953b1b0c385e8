# Codecs and state machines of the decept agent, verified

A Dafny model of the parts of the agent where being wrong is easy and matters: the codecs, parsers and
protocol state machines that it ships with, and its own wire protocol. `dafny verify dfyconfig.toml` checks
everything.

**Snappy** (`Snappy*.dfy`). `SnappyFormat` gives the chunk format as a recursive function over bytes. The
in-place decoder refines it on all inputs (`DecodeChunks`), every emit function appends bytes of known meaning,
and the compressor's loop keeps "decoding `dst[..d]` gives `src[..nextEmit]`" whatever matches its lossy hash
table and skip heuristic pick. With the size budget that gives the block round trip and `MaxEncodedLen`. Writer and
reader of the framed stream are classes; their round trip holds for any calls and any read sizes.

**YAML** (`Yaml*.dfy`), from bytes to decoded documents.
- *Reader.* `YamlTranscode` and `YamlReader`: the chunked UTF-8/UTF-16 reader. What the scanner sees is a function of
  the stream alone.
- *Scanner.* `YamlLexemes` says what each lexeme does to the tokens, the simple keys and the indentation, as a function;
  `YamlTokenStream` and `YamlScanner` are the queue with its retroactive KEY and BLOCK-MAPPING-START tokens, which
  realises that function however tokens are fetched. No token but implied ones comes from anything but a lexeme, in
  order. `YamlLayout` describes texts as they are laid out on lines and columns; `YamlInline`, `YamlIndented` and
  `YamlPages` prove that every such text is scanned as exactly the tokens of its syntax, and `YamlRendering` that all
  documents have such a text.
- *Parser.* `YamlGrammar` is the grammar as recursive functions; `YamlSyntax`, `YamlWritten` and `YamlSources` describe
  how token streams can be written and prove that the grammar reads exactly those, as what they mean. `YamlParser` is
  the 24-state pushdown parser: it accepts exactly these streams and emits exactly their events.
- *Builder and decoder.* `YamlBuilder` turns events into nodes and never meets one it cannot handle; `YamlGraph` is the
  node graph with its aliases resolved. `YamlDecoder` follows aliases under a work budget: it ends on cyclic graphs
  and its work is linear. `YamlPipeline` puts scanner, parser, builder and decoder together.
- *Double-quoted scalars.* `YamlQuoted`, `YamlEmitter` and `YamlScalarScanner` print them and scan them back;
  `YamlPrinting` says what is printed, and `YamlFolding` what any quoted text means, line folding included.

**WebSocket** (`WebSocket*.dfy`). Masking word by word equals masking byte by byte. `WebSocketFrame` and
`WebSocketMessage` say which bytes carry which messages; the receiving state machine accepts exactly those, and the
sender, with header and mask built in place in one buffer, produces them. `WebSocketTrunc` is the writer that holds
back four bytes.

**The zero protocol** (`Zero*.dfy`). Length-prefixed frames with an Adler-32 checksum, and the loop that reads them.

Each component that updates its fields in place is a class whose methods are proved against functions on sequences;
the functions carry the theorems. Integer widths are explicit where they matter: 32- and 64-bit `int` in the Snappy
codec, signed 64-bit lengths in the WebSocket receiver, 32-bit sizes in the zero protocol.

## Where the code does not do what one would expect

- **WebSocket read limit.** `NextReader` resets the message size before it passes over the frames that are left of an
  abandoned message, so those count against the next message (the unread rest of the current frame does not).
  `LimitAfterAbandoned` is the exact condition, `RefusedWithinLimit` a message of one byte refused under a limit of one.
- **WebSocket control messages.** `WriteMessage` documents no limit below 125 bytes for control payloads, but a client
  whose write buffer is smaller fails on those that do not fit it: `Sendable` is the exact condition, `RefusedPing` a
  case.
- **Snappy.** `encodeBlock` documents `len(dst) >= MaxEncodedLen(len(src))`; `Encode` passes it less, because the
  header has been written. What it does pass always suffices: `n + n/64 + 3` bytes are enough for a block.
- **Zero protocol.** The size field wraps: data of 2^31 - 8 bytes or more cannot be read back (`NextRoundTrip` is an
  equivalence), and a body of 4 to 7 bytes or a negative size makes the reader panic.
- **YAML grammar.** The grammar in the header of parserc.go lets a KEY in a flow sequence stand without a node. The code
  passes over the token behind such a KEY, so that `[?]` and `[? : v]` are refused (`IsPassed` in `YamlSyntax`); and in
  a block mapping it wants a KEY before every VALUE, where the grammar does not.
  `Written` is what the code accepts.
- **YAML, `is_bom`** ignores the index it is given. It is modelled that way; in the emitter it only causes extra
  escapes.

## Model

| member | source | states |
|---|---|---|
| `SnappyFormat.ReadChunkPrefix` | src/github.com/golang/snappy/snappy.go:26-50 | A chunk is decided by its own bytes: what follows it never changes how it reads |
| `SnappyFormat.ExpandConcat` | src/github.com/golang/snappy/snappy.go:26-50 | The meaning of concatenated chunk sequences is the composition of their meanings |
| `SnappyFormat.ForwardCopySplit` | src/github.com/golang/snappy/decode_other.go:96-109 | A forward copy of `m + n` bytes is one of `m` followed by one of `n`, overlapping or not |
| `SnappyFormat.ForwardCopyDisjoint` | src/github.com/golang/snappy/decode_other.go:88-94 | A copy no longer than its offset is a plain block copy |
| `SnappyFormat.ForwardCopyMatch` | src/github.com/golang/snappy/snappy.go:40-50 | Copying over a true match of the text extends any decoded prefix by exactly the matched text, self-overlapping matches included |
| `SnappyFormat.LongLiteral` | src/github.com/golang/snappy/decode_other.go:20-47 | The four literal forms with a length of their own, little-endian, also where a shorter form would do |
| `SnappyFormat.Copy4` | src/github.com/golang/snappy/decode_other.go:76-83 | The copy with a four-byte offset, which the encoder never writes |
| `SnappyDecode.CopyForwards` | src/github.com/golang/snappy/decode_other.go:96-109 | The byte-by-byte loop over the array realises the forward copy and leaves everything after it alone |
| `SnappyDecode.CopyBack` | src/github.com/golang/snappy/decode_other.go:88-109 | Both branches of the copy (block move and loop) realise the same forward copy |
| `SnappyDecode.LiteralHeader` | src/github.com/golang/snappy/decode_other.go:18-48 | The literal length, in all five tag forms, agrees with the format; it fails exactly when the header is cut short |
| `SnappyDecode.DecodeLiteral` | src/github.com/golang/snappy/decode_other.go:18-58 | One literal chunk, including the length wrap on 32-bit words: on success the rest of the input means the same as before; on failure no completion exists |
| `SnappyDecode.CopyHeader` | src/github.com/golang/snappy/decode_other.go:60-83 | Tag bytes of the three copy forms give the offset and length of the format |
| `SnappyDecode.DecodeCopy` | src/github.com/golang/snappy/decode_other.go:60-109 | One copy chunk: same meaning afterwards, or no completion exists |
| `SnappyDecode.DecodeChunks` | src/github.com/golang/snappy/decode_other.go:14-115 | The in-place decoder returns 0 exactly when the input is a valid chunk sequence for exactly `n` bytes; the buffer then holds its meaning, and nothing past `n` is touched |
| `SnappyDecode.UvarintRoundTrip` | src/github.com/golang/snappy/decode.go:32-43 | Reading a varint undoes writing it, whatever follows |
| `SnappyDecode.UvarintExact` | src/github.com/golang/snappy/decode.go:32-35 | What any varint of up to ten bytes reads as: the low seven bits of each byte in base 128, the first byte counting least, and nothing beyond 64 bits |
| `SnappyDecode.UvarintUnfinished` | src/github.com/golang/snappy/decode.go:32-35 | Bytes that all announce another one are no varint |
| `SnappyDecode.PutUvarintSize` | src/github.com/golang/snappy/encode.go:27-28 | A 32-bit length takes at most five header bytes |
| `SnappyDecode.DecodedLen` | src/github.com/golang/snappy/decode.go:25-43 | A length that is returned fits 32 bits and the platform's int, and its header lies inside the input |
| `SnappyDecode.AnnouncedLength` | src/github.com/golang/snappy/decode.go:32-43 | Exactly which announced lengths are taken on each platform, and which error the others give |
| `SnappyDecode.Decode` | src/github.com/golang/snappy/decode.go:57-74 | Succeeds with the encoded text, in the given buffer exactly when it is long enough, and fails exactly when the input encodes no text |
| `SnappyEmit.LiteralChunkMeaning` | src/github.com/golang/snappy/encode_other.go:20-42 | The bytes of a literal append exactly the literal |
| `SnappyEmit.EmitLiteral` | src/github.com/golang/snappy/encode_other.go:25-42 | Writes exactly those bytes at `d` and nothing else |
| `SnappyEmit.Copy1Meaning` | src/github.com/golang/snappy/encode_other.go:50-88 | The two-byte form is a forward copy of its offset and length |
| `SnappyEmit.Copy2Meaning` | src/github.com/golang/snappy/encode_other.go:50-88 | The three-byte form is a forward copy of its offset and length |
| `SnappyEmit.CopyChunksMeaning` | src/github.com/golang/snappy/encode_other.go:44-88 | The 64/60/remainder pieces together mean one forward copy of the whole length, for every offset below 65536 and every length from 4 |
| `SnappyEmit.CopyChunksShrink` | src/github.com/golang/snappy/encode_other.go:50-88 | A copy is always encoded in fewer bytes than it stands for |
| `SnappyEmit.EmitCopy` | src/github.com/golang/snappy/encode_other.go:50-88 | Writes exactly those pieces at `d` and nothing else |
| `SnappyEncode.Load64Shifted` | src/github.com/golang/snappy/encode_other.go:9-18 | The three 4-byte windows read out of one 8-byte load are the loads at the next positions |
| `SnappyEncode.Load32Match` | src/github.com/golang/snappy/encode_other.go:9-12 | Equal 4-byte loads are a match of four bytes |
| `SnappyEncode.ExtendMatch` | src/github.com/golang/snappy/encode_other.go:90-99 | Extends a match as far as it goes: the result is a match and is maximal |
| `SnappyEncode.FindMatch` | src/github.com/golang/snappy/encode_other.go:145-179 | Whatever the hash table and the skip heuristic pick, a candidate that is returned starts earlier and agrees on four bytes; the table only ever holds earlier positions |
| `SnappyEncode.Rehash` | src/github.com/golang/snappy/encode_other.go:213-229 | Looking up the position after a match keeps the table below the position and repeats exactly on a 4-byte match |
| `SnappyEncode.AppendCopy` | src/github.com/golang/snappy/encode_other.go:197-208 | Emitting a match keeps `decode(dst[..d]) == src[..s]` and the size budget |
| `SnappyEncode.AppendLiteral` | src/github.com/golang/snappy/encode_other.go:181-184 | Emitting pending input as a literal keeps the same invariant and budget |
| `SnappyEncode.EmitCopies` | src/github.com/golang/snappy/encode_other.go:186-230 | The inner loop of matches keeps the invariant, the table bound and the budget |
| `SnappyEncode.EncodeBlock` | src/github.com/golang/snappy/encode_other.go:112-238 | For every block from 17 to 65536 bytes the chunks written decode to the block, fit in n + n/64 + 3 bytes, and stay inside `dst` |
| `SnappyEncode.EncodePiece` | src/github.com/golang/snappy/encode.go:36-40 | A short piece becomes a literal, a longer one a block; either way it decodes to the piece |
| `SnappyEncode.AppendPiece` | src/github.com/golang/snappy/encode.go:30-41 | One turn of the block loop extends the decoded text by the next 64 KiB |
| `SnappyEncode.MaxEncodedLenValue` | src/github.com/golang/snappy/encode.go:78-108 | Non-negative exactly up to those lengths, and then 32 + n + n/6 |
| `SnappyEncode.Encode` | src/github.com/golang/snappy/encode.go:20-43 | Panics exactly for inputs longer than 3681400511 bytes on 64-bit platforms and 1840700242 on 32-bit ones; otherwise the result encodes `src` in at most 32 + n + n/6 bytes, in the given buffer exactly when that is long enough |
| `SnappyEncode.RoundTrip` | src/github.com/golang/snappy/encode.go:20-43 | Decode(Encode(src)) is src for every byte string up to those lengths, and only for those is there an encoding |
| `SnappyStream.NextFramePrefix` | src/github.com/golang/snappy/decode.go:122-241 | A complete chunk reads the same whatever follows it |
| `SnappyStream.ReadStreamConcat` | src/github.com/golang/snappy/decode.go:122-241 | A stream cut at a chunk boundary means its two parts one after the other |
| `SnappyStream.DataChunkMeaning` | src/github.com/golang/snappy/encode.go:211-266 | A data chunk, compressed or stored, with the right checksum means its text |
| `SnappyStream.DataChunks` | src/github.com/golang/snappy/decode.go:152-210 | What any compressed or stored chunk means, byte by byte: little-endian length and checksum, and its text exactly when that has at most 65536 bytes and the checksum agrees |
| `SnappyStream.IdentifierChunks` | src/github.com/golang/snappy/decode.go:212-227 | The stream identifier spells sNaPpY and is passed over; any other body is refused |
| `SnappyStream.ReservedChunks` | src/github.com/golang/snappy/decode.go:229-240 | Chunk types 0x02 to 0x7f end the stream as unsupported, 0x80 to 0xfe are passed over |
| `SnappyStream.TooLongChunks` | src/github.com/golang/snappy/decode.go:143-147 | More than 76494 bytes announced: unsupported, whatever the type |
| `SnappyStream.MagicChunkMeaning` | src/github.com/golang/snappy/decode.go:212-227 | The stream header is accepted and carries no text |
| `SnappyWriter.SentChunk` | src/github.com/golang/snappy/encode.go:211-266 | Sending one more chunk extends the meaning of the sink by its text, the header being written first |
| `SnappyWriter.Writer.Compress` | src/github.com/golang/snappy/encode.go:229-241 | A chunk is compressed only if that saves an eighth; either form stands for the text and fits the output buffer |
| `SnappyWriter.Writer.WriteDirect` | src/github.com/golang/snappy/encode.go:211-266 | Unbuffered writes reach the sink as their own text; errors are permanent |
| `SnappyWriter.Writer.Write` | src/github.com/golang/snappy/encode.go:176-209 | Buffered and unbuffered writes add exactly their bytes to what is accepted; nothing happens after an error |
| `SnappyWriter.Writer.Flush` | src/github.com/golang/snappy/encode.go:269-279 | Flushing moves the buffer to the sink and changes nothing that was accepted |
| `SnappyWriter.Writer.Close` | src/github.com/golang/snappy/encode.go:282-289 | Closing sends everything accepted; the writer is unusable afterwards |
| `SnappyReader.Reader.ReadFull` | src/github.com/golang/snappy/decode.go:111-119 | Exactly `n` bytes, or end of stream only at a boundary where that is allowed |
| `SnappyReader.Reader.ReadCompressed` | src/github.com/golang/snappy/decode.go:152-183 | A compressed chunk is taken exactly when it decodes and its checksum agrees |
| `SnappyReader.Reader.ReadStored` | src/github.com/golang/snappy/decode.go:185-210 | A stored chunk is taken exactly when its checksum agrees |
| `SnappyReader.Reader.ReadBody` | src/github.com/golang/snappy/decode.go:149-240 | Every chunk type, reserved and skippable ones included, is handled as the stream format says |
| `SnappyReader.Reader.Read` | src/github.com/golang/snappy/decode.go:122-241 | Bytes returned plus what is still pending is what was pending; an error is returned only when nothing is left before it |
| `SnappyReader.Drain` | src/github.com/golang/snappy/decode.go:122-241 | Repeated reads of any sizes return the whole meaning of the stream and then its error |
| `SnappyReader.StreamRoundTrip` | src/github.com/golang/snappy/encode.go:176-289 | Any sequence of writes and flushes, closed, is read back as the concatenation of the writes |
| `YamlEvents.NestedStreamIsDocuments` | src/gopkg.in/yaml.v2/parserc.go:11-43 | An event string that nests is the event string of some documents of exactly one node each, with as many values as keys in every mapping |
| `YamlEvents.DocumentsNestAsStream` | src/gopkg.in/yaml.v2/parserc.go:11-43 | Conversely the events of any such documents nest |
| `YamlEvents.NestedIsSorted` | src/gopkg.in/yaml.v2/parserc.go:93-169 | A prefix that nests is finished documents followed by the open collections its stack tells of |
| `YamlEvents.TreeNests` | src/gopkg.in/yaml.v2/parserc.go:359-573 | The events of one node fit wherever a node is wanted and complete it |
| `YamlEvents.StreamUnique` | src/gopkg.in/yaml.v2/parserc.go:11-43 | Different documents have different events, so events determine the documents |
| `YamlGrammar.DeclaredTags` | src/gopkg.in/yaml.v2/parserc.go:1007-1010 | What the default handles, a declared handle and no handle at all make of a suffix |
| `YamlSyntax.NodeReads` | src/gopkg.in/yaml.v2/parserc.go:359-573 | However a node is written (properties in either order, block, indentless and flow collections, single pairs, missing keys and values, trailing commas), its tokens are read as the events of its tree, whatever follows |
| `YamlSyntax.TailReads` | src/gopkg.in/yaml.v2/parserc.go:579-992 | The same for the rest of a collection from any entry on |
| `YamlWritten.NodeWritten` | src/gopkg.in/yaml.v2/parserc.go:359-573 | Conversely tokens that are read as a node are those of some node as it can be written, and the events those of its tree |
| `YamlWritten.TailWritten` | src/gopkg.in/yaml.v2/parserc.go:579-992 | The same for the rest of a collection |
| `YamlSources.SourceReads` | src/gopkg.in/yaml.v2/parserc.go:174-331 | The tokens of any stream that can be written (implicit and explicit documents, directives, extra document ends) are read as the events of its documents |
| `YamlSources.SourceWritten` | src/gopkg.in/yaml.v2/parserc.go:174-331 | And only those token streams are read without an error |
| `YamlSources.SourceDocuments` | src/gopkg.in/yaml.v2/parserc.go:174-331 | The documents of such a stream are well-formed |
| `YamlParser.Parser.Skip` | src/gopkg.in/yaml.v2/parserc.go:54-59 | What a consumed token says is owed until an event says it |
| `YamlParser.Parser.Peek` | src/gopkg.in/yaml.v2/parserc.go:46-51 | The next token, or an error that the scanner set |
| `YamlParser.Parser.ParseStreamStart` | src/gopkg.in/yaml.v2/parserc.go:174-191 | Emits the event that the grammar foretells for the tokens ahead, or fails where it has none; the invariant is kept: events nest, the states stack mirrors the open collections, the marks stack matches it, nothing is owed |
| `YamlParser.Parser.ParseDocumentStart` | src/gopkg.in/yaml.v2/parserc.go:198-276 | The same, over implicit and explicit documents and the end of the stream |
| `YamlParser.Parser.ParseDocumentContent` | src/gopkg.in/yaml.v2/parserc.go:282-298 | The same; a document without content gets an empty scalar |
| `YamlParser.Parser.ParseDocumentEnd` | src/gopkg.in/yaml.v2/parserc.go:305-331 | The same; a document ends only after its one node |
| `YamlParser.Parser.Node` | src/gopkg.in/yaml.v2/parserc.go:359-573 | One node or the start of one, its anchor and value exactly those of the tokens |
| `YamlParser.Parser.Properties` | src/gopkg.in/yaml.v2/parserc.go:386-450 | Anchor and tag in either order, each exactly that of the consumed tokens, the tag resolved by the directives in force |
| `YamlParser.Parser.ResolveTag` | src/gopkg.in/yaml.v2/parserc.go:430-450 | The first declaration of the handle decides; an undeclared handle is an error |
| `YamlParser.Parser.Content` | src/gopkg.in/yaml.v2/parserc.go:452-573 | The content that follows the properties; the event carries that anchor and that tag |
| `YamlParser.Parser.ParseBlockSequenceEntry` | src/gopkg.in/yaml.v2/parserc.go:579-626 | Keeps the invariant; no stack underflows |
| `YamlParser.Parser.ParseIndentlessSequenceEntry` | src/gopkg.in/yaml.v2/parserc.go:631-663 | The same, for the sequence that has no mark of its own |
| `YamlParser.Parser.ParseBlockMappingKey` | src/gopkg.in/yaml.v2/parserc.go:675-721 | The same; a missing key becomes an empty scalar |
| `YamlParser.Parser.ParseBlockMappingValue` | src/gopkg.in/yaml.v2/parserc.go:733-756 | The same; a missing value becomes an empty scalar |
| `YamlParser.Parser.ParseFlowSequenceEntry` | src/gopkg.in/yaml.v2/parserc.go:770-826 | The same; an entry is a node, or a pair exactly where its KEY is |
| `YamlParser.Parser.ParseFlowSequenceEntryMappingKey` | src/gopkg.in/yaml.v2/parserc.go:833-848 | The same, including the token skipped with an empty key |
| `YamlParser.Parser.ParseFlowSequenceEntryMappingValue` | src/gopkg.in/yaml.v2/parserc.go:854-872 | The same |
| `YamlParser.Parser.ParseFlowSequenceEntryMappingEnd` | src/gopkg.in/yaml.v2/parserc.go:878-890 | The same; the pair is complete when it ends |
| `YamlParser.Parser.ParseFlowMappingKey` | src/gopkg.in/yaml.v2/parserc.go:904-964 | The same |
| `YamlParser.Parser.ParseFlowMappingValue` | src/gopkg.in/yaml.v2/parserc.go:970-992 | The same |
| `YamlParser.Parser.ProcessDirectives` | src/gopkg.in/yaml.v2/parserc.go:1013-1072 | Fails exactly at the first directive that repeats a handle or a version or asks for a version other than 1.1; otherwise exactly the directives are consumed and in force, with the default tags |
| `YamlParser.Parser.StateMachine` | src/gopkg.in/yaml.v2/parserc.go:93-169 | In every reachable state one call emits one event that nests or sets an error, and either consumes a token or lowers a bound on events without one; the three states without a production are not reached |
| `YamlParser.Parser.Parse` | src/gopkg.in/yaml.v2/parserc.go:62-73 | Errors are permanent; without one, no event means the end of the stream |
| `YamlParser.ParseStream` | src/gopkg.in/yaml.v2/parserc.go:62-169 | For every token stream the run ends; it ends without an error exactly when the tokens begin with a stream that can be written, and the events are then exactly those of its documents, with anchors, resolved tags, values and implicit flags; events nest in any case, and say what the consumed tokens say |
| `YamlBuilder.Builder.BuildNode` | src/gopkg.in/yaml.v2/decode.go:141-160 | From a nesting event string the builder consumes exactly the events of one tree and returns that tree, never reaching its panic; it succeeds whenever the tree is there and its aliases resolve |
| `YamlBuilder.Builder.BuildSequence` | src/gopkg.in/yaml.v2/decode.go:201-210 | The same for a sequence |
| `YamlBuilder.Builder.BuildMapping` | src/gopkg.in/yaml.v2/decode.go:212-221 | The same for a mapping, key and value at a time |
| `YamlBuilder.Builder.BuildLeaf` | src/gopkg.in/yaml.v2/decode.go:180-199 | The same for scalars and aliases; an alias fails exactly when no node before it has its anchor |
| `YamlBuilder.Builder.BuildDocument` | src/gopkg.in/yaml.v2/decode.go:170-178 | The same for a document |
| `YamlBuilder.BuildDocuments` | src/gopkg.in/yaml.v2/decode.go:141-221 | From any tokens at all the builder does not panic. It is complete exactly when the tokens begin with a stream that can be written and all its aliases resolve, and it builds exactly the documents that were written |
| `YamlGraph.TreeLinked` | src/gopkg.in/yaml.v2/decode.go:135-221 | In the graph of a built document every alias leads to one of its nodes, its own ancestors included |
| `YamlGraph.DecodeDocument` | src/gopkg.in/yaml.v2/decode.go:346-397 | Every document that was built is decoded within the bound, with nothing assumed of its graph |
| `YamlScanner.Scanner.InsertToken` | src/gopkg.in/yaml.v2/apic.go:7-24 | Appending or inserting is that and only that for the stream of tokens; moving the queue to the front of its storage does not show |
| `YamlScanner.Scanner.StaleSimpleKeys` | src/gopkg.in/yaml.v2/scannerc.go:842-863 | Drops exactly the keys on an earlier line or more than 1024 characters back, and fails exactly when one of them is required; the others stay in order |
| `YamlScanner.Scanner.SaveSimpleKey` | src/gopkg.in/yaml.v2/scannerc.go:867-891 | When allowed, the innermost slot holds the token about to be appended, after every other key; fails exactly when a required key would be lost |
| `YamlScanner.Scanner.RemoveSimpleKey` | src/gopkg.in/yaml.v2/scannerc.go:894-907 | Clears the innermost slot and only that; fails exactly when its key is required |
| `YamlScanner.Scanner.IncreaseFlowLevel` | src/gopkg.in/yaml.v2/scannerc.go:913-925 | One more slot, empty, the others as they were; fails exactly beyond 10000 levels |
| `YamlScanner.Scanner.DecreaseFlowLevel` | src/gopkg.in/yaml.v2/scannerc.go:928-934 | The innermost slot goes, the others stay as they were; never below zero |
| `YamlScanner.Scanner.RollIndent` | src/gopkg.in/yaml.v2/scannerc.go:942-971 | Opens a block only when deeper; its start token goes to the end or to where the key began, and the count of open blocks stays the depth of the stack |
| `YamlScanner.Scanner.UnrollIndent` | src/gopkg.in/yaml.v2/scannerc.go:976-997 | Closes exactly the levels deeper than the column, with one BLOCK-END each; the stack, strictly increasing from -1, never underflows |
| `YamlScanner.Scanner.FetchStreamStart` | src/gopkg.in/yaml.v2/scannerc.go:1000-1023 | Establishes all invariants; the state is that of a fresh scan |
| `YamlScanner.Scanner.FetchStreamEnd` | src/gopkg.in/yaml.v2/scannerc.go:1026-1054 | The whole state after it (tokens, simple keys, indentation levels, whether a key may begin) is that of `MarkerRead`: every open block closed by one BLOCK-END, then STREAM-END, and it fails exactly where that fails; the invariants are kept |
| `YamlScanner.Scanner.FetchMarker` | src/gopkg.in/yaml.v2/scannerc.go:1057-1112 | The same for directives and document indicators |
| `YamlScanner.Scanner.FetchFlowCollectionStart` | src/gopkg.in/yaml.v2/scannerc.go:1115-1143 | The whole state after it (tokens, simple keys, indentation levels, whether a key may begin) is that of `FlowStarted`: the token may begin a key, and a level deeper one is allowed, and it fails exactly where that fails; the invariants are kept |
| `YamlScanner.Scanner.FetchFlowCollectionEnd` | src/gopkg.in/yaml.v2/scannerc.go:1146-1175 | The whole state after it (tokens, simple keys, indentation levels, whether a key may begin) is that of `FlowEnded`, and it fails exactly where that fails; the invariants are kept |
| `YamlScanner.Scanner.FetchFlowEntry` | src/gopkg.in/yaml.v2/scannerc.go:1178-1200 | The whole state after it (tokens, simple keys, indentation levels, whether a key may begin) is that of `Separated`, and it fails exactly where that fails; the invariants are kept |
| `YamlScanner.Scanner.FetchBlockEntry` | src/gopkg.in/yaml.v2/scannerc.go:1203-1242 | The whole state after it (tokens, simple keys, indentation levels, whether a key may begin) is that of `Begun`: BLOCK-SEQUENCE-START exactly if the column is deeper outside flow context, then BLOCK-ENTRY, and it fails exactly where that fails; the invariants are kept |
| `YamlScanner.Scanner.FetchKey` | src/gopkg.in/yaml.v2/scannerc.go:1245-1281 | The same with BLOCK-MAPPING-START and KEY |
| `YamlScanner.Scanner.FetchValue` | src/gopkg.in/yaml.v2/scannerc.go:1284-1346 | The whole state after it (tokens, simple keys, indentation levels, whether a key may begin) is that of `ColonRead`: KEY right before the token that began the simple key, BLOCK-MAPPING-START right before KEY, both behind everything delivered, and it fails exactly where that fails; the invariants are kept |
| `YamlScanner.Scanner.FetchNodeStart` | src/gopkg.in/yaml.v2/scannerc.go:1349-1441 | The whole state after it (tokens, simple keys, indentation levels, whether a key may begin) is that of `NodeStarted`, for anchors, aliases, tags and flow or plain scalars, and it fails exactly where that fails; the invariants are kept |
| `YamlScanner.Scanner.FetchBlockScalar` | src/gopkg.in/yaml.v2/scannerc.go:1387-1403 | The whole state after it (tokens, simple keys, indentation levels, whether a key may begin) is that of `BlockScalarRead`, and it fails exactly where that fails; the invariants are kept |
| `YamlScanner.Scanner.FetchNextToken` | src/gopkg.in/yaml.v2/scannerc.go:665-838 | Keeps, for any text: the tokens of the stream, implied ones aside, are those that the lexemes scanned so far stand for, in order; and scanning is on the way to the tokens of the whole text, if there are such. It fails only where the text cannot be scanned |
| `YamlScanner.Scanner.Dispatch` | src/gopkg.in/yaml.v2/scannerc.go:701-838 | Which lexeme gets which fetcher: the state afterwards is that of `Dispatched`, and it fails exactly where that fails |
| `YamlScanner.Scanner.FetchLexeme` | src/gopkg.in/yaml.v2/scannerc.go:665-838 | Old keys dropped, deeper blocks closed, then the lexeme: exactly `Fetched` |
| `YamlLexemes.FetchedKeeps` | src/gopkg.in/yaml.v2/scannerc.go:665-838 | A lexeme adds its own token behind those before it and otherwise only KEY, block starts and block ends, wherever those go |
| `YamlLexemes.FetchedAged` | src/gopkg.in/yaml.v2/scannerc.go:626-662 | Whether old keys are dropped early, when the head of the queue is looked at, makes no difference to any later token |
| `YamlLexemes.KeptSays` | src/gopkg.in/yaml.v2/scannerc.go:942-971 | The implied tokens say nothing |
| `YamlLexemes.AllKept` | src/gopkg.in/yaml.v2/scannerc.go:1026-1054 | Tokens that reach the end of the stream are those of all lexemes |
| `YamlScanner.Scanner.FetchMoreTokens` | src/gopkg.in/yaml.v2/scannerc.go:626-662 | Returns only when no possible key begins at the head of the queue |
| `YamlScanner.Scanner.PeekToken` | src/gopkg.in/yaml.v2/parserc.go:46-51 | Gives the next token of the stream and delivers nothing |
| `YamlScanner.Scanner.SkipToken` | src/gopkg.in/yaml.v2/parserc.go:54-59 | Delivers that token; every possible key still lies in the queue |
| `YamlScanner.ScanAll` | src/gopkg.in/yaml.v2/scannerc.go:571-662 | In a whole run, insertions included, no block ends before it began, and the tokens, implied ones aside, are those that the lexemes stand for, in order: entries, values, commas, brackets of either kind, scalars, aliases, anchors, tags, directives, document indicators. A text that can be scanned gives exactly its tokens, implied ones included |
| `YamlTokenStream.KeysInsert` | src/gopkg.in/yaml.v2/scannerc.go:1284-1346 | An insertion at the innermost key leaves every outer key on its own token |
| `YamlTokenStream.KeysSave` | src/gopkg.in/yaml.v2/scannerc.go:867-891 | A key saved at the end of the stream is the last of all keys |
| `YamlTokenStream.KeysLater` | src/gopkg.in/yaml.v2/parserc.go:54-59 | Delivering the head is safe when no key begins there |
| `YamlTokenStream.DepthInsert` | src/gopkg.in/yaml.v2/scannerc.go:942-971 | An inserted token counts as much as an appended one |
| `YamlTokenStream.NeverNegativeInsert` | src/gopkg.in/yaml.v2/scannerc.go:942-971 | Inserting a block start anywhere keeps every prefix balanced |
| `YamlInline.InlineScans` | src/gopkg.in/yaml.v2/scannerc.go:1115-1441 | A node on one line or between brackets, nested to any depth up to 10000, is scanned as exactly its tokens, KEY before every simple key included; the keys around it are as old as its last lexeme makes them |
| `YamlInline.KeyLeads` | src/gopkg.in/yaml.v2/scannerc.go:1284-1346 | A simple key between brackets: KEY in front of all its tokens, however long it is, and VALUE behind them |
| `YamlIndented.SimpleKeyStep` | src/gopkg.in/yaml.v2/scannerc.go:1284-1346 | A simple key on a line: KEY in front of all its tokens, and BLOCK-MAPPING-START in front of that exactly when no mapping is open at its column |
| `YamlIndented.KeyTooFar` | src/gopkg.in/yaml.v2/scannerc.go:842-863 | A colon on a later line, or more than 1024 characters behind, finds no key and is refused |
| `YamlIndented.TooDeep` | src/gopkg.in/yaml.v2/scannerc.go:909-957 | The ten thousand and first bracket or block is refused |
| `YamlIndented.NodeLays` | src/gopkg.in/yaml.v2/scannerc.go:942-1346 | A node laid out by indentation (sequences, indentless ones, mappings with simple keys and question marks, properties on lines of their own, brackets and scalars) is scanned as exactly its tokens once its blocks are closed |
| `YamlPages.LayoutScans` | src/gopkg.in/yaml.v2/scannerc.go:665-838 | Every text whose documents are laid out by indentation can be scanned, and its tokens are those of the stream it is a layout of |
| `YamlRendering.RenderingStands` | src/gopkg.in/yaml.v2/scannerc.go:11-480 | Every list of well-formed documents that any text can stand for, with at most 10000 blocks inside one another, has such a layout |
| `YamlRendering.TreeMeans` | src/gopkg.in/yaml.v2/parserc.go:359-573 | The layout of a tree stands for that tree: anchors, tags, values, styles and implicit flags |
| `YamlRendering.DocumentsSpellable` | src/gopkg.in/yaml.v2/parserc.go:452-480 | And no stream stands for any other documents: the implicit flag of a scalar is always the one its tag and style give |
| `YamlPipeline.Load` | src/gopkg.in/yaml.v2/decode.go:82-221 | Scanner, parser and builder together, on any text: no panic, well-formed documents. A run to the end gives the documents of some stream whose tokens, implied ones aside, are exactly those the lexemes stand for. Every text laid out by indentation is loaded completely exactly when its aliases resolve, and gives exactly the documents it is a layout of |
| `YamlPipeline.LoadRendering` | src/gopkg.in/yaml.v2/decode.go:82-221 | Documents rendered as a text are loaded back as themselves, exactly when their aliases resolve |
| `YamlPipeline.LoadAndDecode` | src/gopkg.in/yaml.v2/decode.go:346-397 | Loading and decoding any text ends, and the work on each document is linear in its nodes |
| `Utf8.EncodeDecode` | src/gopkg.in/yaml.v2/scannerc.go:2458-2472 | A well-formed UTF-8 character is the encoding of its value |
| `YamlChars.HexRoundTrip` | src/gopkg.in/yaml.v2/emitterc.go:1497-1514 | Hexadecimal digits read back as the value they print |
| `YamlQuoted.EscapeMeaning` | src/gopkg.in/yaml.v2/scannerc.go:2374-2478 | Every escape the emitter prints is read back as the character it stands for |
| `YamlQuoted.ReadFold` | src/gopkg.in/yaml.v2/scannerc.go:2503-2549 | A folded line (break, indentation, next text) reads as a single space |
| `YamlQuoted.ScanBody` | src/gopkg.in/yaml.v2/emitterc.go:1429-1548 | From any point on, the scanner reads what the emitter's printing function prints there as the rest of the value, unless a fold to column 0 is directly followed by a document indicator |
| `YamlQuoted.QuotedRoundTrip` | src/gopkg.in/yaml.v2/emitterc.go:1429-1548 | With the indentation that the emitter always gives it, a printed scalar is scanned back as the same bytes, whatever comes before and after it |
| `YamlQuoted.IndentedIsSafe` | src/gopkg.in/yaml.v2/emitterc.go:1201-1219 | With a positive indentation, or without line breaks, no fold can be taken for a document indicator |
| `YamlFolding.QuotedMeaning` | src/gopkg.in/yaml.v2/scannerc.go:2315-2568 | What a quoted scalar means, without the scanner: text, blanks kept inside a line and dropped at its ends, line breaks of all five kinds folded, backslashes before a break joining lines, in any number |
| `YamlFolding.FoldingLaw` | src/gopkg.in/yaml.v2/scannerc.go:2530-2549 | Section 7.3.1 of YAML 1.2: one break is a space, n breaks are n - 1 line feeds, blanks around them are dropped |
| `YamlFolding.JoiningLaw` | src/gopkg.in/yaml.v2/scannerc.go:2364-2372 | With a backslash before it the first break counts as nothing: n breaks are n - 1 line feeds |
| `YamlFolding.EscapeLetters` | src/gopkg.in/yaml.v2/scannerc.go:2374-2440 | The table of escape letters and what each stands for; every other letter without digits is refused |
| `YamlPrinting.EscapesExactly` | src/gopkg.in/yaml.v2/emitterc.go:1435-1438 | The byte tests in terms of code points: which characters are printed as they are, with and without the unicode setting |
| `YamlPrinting.PrintsItself` | src/gopkg.in/yaml.v2/emitterc.go:1429-1548 | A text of such characters that fits its line is printed between quotes as it is |
| `YamlPrinting.HexDigits` | src/gopkg.in/yaml.v2/emitterc.go:1497-1514 | Capital digits, the most significant first |
| `YamlPrinting.PrintedIsRead` | src/gopkg.in/yaml.v2/readerc.go:341-359 | Whatever the value and the settings, the reader accepts every byte the emitter prints and passes it on unchanged |
| `YamlEmitter.Emitter.Append` | src/gopkg.in/yaml.v2/emitterc.go:9-87 | Output goes through the buffer in order, flushed when it runs short, never past its end |
| `YamlEmitter.Emitter.PutBreak` | src/gopkg.in/yaml.v2/emitterc.go:28-49 | The three line-break styles |
| `YamlEmitter.Emitter.WriteChar` | src/gopkg.in/yaml.v2/emitterc.go:52-77 | Copies one character and counts one column |
| `YamlEmitter.Emitter.WriteIndent` | src/gopkg.in/yaml.v2/emitterc.go:1201-1219 | A break only when needed, then spaces up to the indentation |
| `YamlEmitter.Emitter.IncreaseIndent` | src/gopkg.in/yaml.v2/emitterc.go:197-209 | No level is ever below -1, and a level entered in flow context, as scalars are, is at least 2 |
| `YamlEmitter.Emitter.DecreaseIndent` | src/gopkg.in/yaml.v2/emitterc.go:697-702 | Back to exactly the level before |
| `YamlEmitter.Emitter.constructor` | src/gopkg.in/yaml.v2/emitterc.go:273-300 | The settings as the stream starts with them: indentation between 2 and 9, a usable width, a line break |
| `YamlEmitter.Emitter.EmitScalar` | src/gopkg.in/yaml.v2/emitterc.go:683-704 | Prints the scalar one level deeper than what it belongs to, and leaves the levels as they were |
| `YamlEmitter.Emitter.PutHex` | src/gopkg.in/yaml.v2/emitterc.go:1507-1514 | The digits of the value, most significant first |
| `YamlEmitter.Emitter.PutEscape` | src/gopkg.in/yaml.v2/emitterc.go:1460-1515 | The escape of the value, short or in 2, 4 or 8 digits |
| `YamlEmitter.Emitter.CharValue` | src/gopkg.in/yaml.v2/emitterc.go:1440-1458 | The value of the character at a position |
| `YamlEmitter.Emitter.WriteDoubleQuoted` | src/gopkg.in/yaml.v2/emitterc.go:1429-1548 | The loop prints exactly what the printing function says, for every width, unicode setting and break style |
| `YamlScalarScanner.ScanEscape` | src/gopkg.in/yaml.v2/scannerc.go:2374-2478 | The scanner's escapes, hexadecimal ones digit by digit |
| `YamlScalarScanner.ScanText` | src/gopkg.in/yaml.v2/scannerc.go:2348-2486 | The loop over non-blank characters follows the reading function |
| `YamlScalarScanner.ScanBlanks` | src/gopkg.in/yaml.v2/scannerc.go:2503-2529 | The loop over blanks and breaks follows it too |
| `YamlScalarScanner.ScanDoubleQuoted` | src/gopkg.in/yaml.v2/scannerc.go:2315-2568 | The whole scanner loop computes the reading function, whose meaning on every spelling `QuotedMeaning` states |
| `YamlScalarScanner.EmitAndScan` | src/gopkg.in/yaml.v2/emitterc.go:683-704 | From every state of the emitter after the start of the stream: the scalar it emits is scanned back as the same bytes, for every valid UTF-8 value, width, unicode setting and break style |
| `YamlScalarScanner.EmitAll` | src/gopkg.in/yaml.v2/emitterc.go:683-704 | In a whole run, with any settings, any nesting of levels and anything emitted in between, every double-quoted scalar comes back |
| `YamlDecoder.AllowedAliasRatio` | src/gopkg.in/yaml.v2/decode.go:330-344 | The allowed share is always between 10% and 99% |
| `YamlDecoder.AliasRatioFalls` | src/gopkg.in/yaml.v2/decode.go:330-344 | The share never grows with the count: 99% up to 400000, 10% from 4000000 on, falling evenly in between |
| `YamlDecoder.ExcessiveExactly` | src/gopkg.in/yaml.v2/decode.go:346-354 | Exactly which counts stop a run, in whole numbers |
| `YamlDecoder.WithinBound` | src/gopkg.in/yaml.v2/decode.go:346-354 | A count that passes the check is at most max(1000, 100 S) when the decodes outside aliases are at most S |
| `YamlDecoder.Decoder.Count` | src/gopkg.in/yaml.v2/decode.go:346-354 | Counts one operation and passes exactly when the share is not excessive |
| `YamlDecoder.Decoder.Unmarshal` | src/gopkg.in/yaml.v2/decode.go:346-375 | Ends on every node graph; each node of the document is decoded at most once outside aliases; every step that passes is within the bound |
| `YamlDecoder.Decoder.DecodeDocument` | src/gopkg.in/yaml.v2/decode.go:377-384 | The same for documents |
| `YamlDecoder.Decoder.FollowAlias` | src/gopkg.in/yaml.v2/decode.go:386-397 | An alias met again while being followed always fails; otherwise one fewer alias is left to follow, and the set is restored |
| `YamlDecoder.Decoder.DecodeSequence` | src/gopkg.in/yaml.v2/decode.go:581-617 | The same for sequences |
| `YamlDecoder.Decoder.DecodeMapping` | src/gopkg.in/yaml.v2/decode.go:619-776 | The same for the three ways of decoding a mapping |
| `YamlDecoder.Decoder.Merge` | src/gopkg.in/yaml.v2/decode.go:782-809 | Merge values are mappings, aliases to mappings or sequences of these; anything else fails, an element of a sequence too |
| `YamlDecoder.DecodeAll` | src/gopkg.in/yaml.v2/decode.go:346-397 | The work done on a document, aliases expanded, is at most a hundred operations per node, or a thousand, plus the one that is refused |
| `YamlTranscode.NextCharPrefix` | src/gopkg.in/yaml.v2/readerc.go:151-359 | Whether a character is valid is decided by its own bytes |
| `YamlTranscode.Utf8Unchanged` | src/gopkg.in/yaml.v2/readerc.go:159-252 | Accepted UTF-8 is well-formed and is passed on unchanged |
| `YamlTranscode.Utf8Accepted` | src/gopkg.in/yaml.v2/readerc.go:159-252 | UTF-8 is accepted exactly when it is well-formed and has only allowed characters |
| `YamlTranscode.Utf16Accepted` | src/gopkg.in/yaml.v2/readerc.go:254-336 | Any allowed characters written in UTF-16 of either order are read as their UTF-8 |
| `YamlTranscode.Utf16Only` | src/gopkg.in/yaml.v2/readerc.go:254-336 | And nothing else is accepted as UTF-16 |
| `YamlTranscode.MarkedUtf16` | src/gopkg.in/yaml.v2/readerc.go:25-53 | A byte order mark announces its own byte order: characters behind it in that order are read as their UTF-8 |
| `YamlTranscode.MarkedUtf8` | src/gopkg.in/yaml.v2/readerc.go:25-53 | The mark of UTF-8 is dropped, and without any mark a stream is UTF-8 |
| `YamlReader.DecodeUtf8` | src/gopkg.in/yaml.v2/readerc.go:159-252 | The octet loop accepts exactly the well-formed characters and computes their value |
| `YamlReader.DecodeUtf16` | src/gopkg.in/yaml.v2/readerc.go:254-336 | Units and surrogate pairs, with every error case |
| `YamlReader.EncodedSize` | src/gopkg.in/yaml.v2/readerc.go:365-390 | Transcoding grows the text by at most half, so the buffer is never overrun |
| `YamlReader.Reader.DetermineEncoding` | src/gopkg.in/yaml.v2/readerc.go:25-53 | The encoding depends on the stream alone, not on the chunks |
| `YamlReader.Reader.UpdateRawBuffer` | src/gopkg.in/yaml.v2/readerc.go:56-85 | Shifting and refilling loses no byte, whatever the handler returns: chunks of any size, nothing at all for a while, the end with the last bytes or after them |
| `YamlReader.Reader.DecodeRaw` | src/gopkg.in/yaml.v2/readerc.go:149-391 | The decoding loop keeps: characters so far and characters to come are the meaning of the stream; it fails only if there is no such meaning |
| `YamlReader.Reader.UpdateBuffer` | src/gopkg.in/yaml.v2/readerc.go:91-412 | Makes the requested length available, NULs standing in past the end; what was buffered stays at the front; fails only on ill-formed input |
| `YamlReader.ReadStream` | src/gopkg.in/yaml.v2/readerc.go:91-412 | However the input is cut into chunks, reading it to the first NUL gives exactly its meaning, and an error exactly when it has none |
| `WebSocketMask.XorTwice` | src/github.com/gorilla/websocket/mask_safe.go:9-15 | Applying the same bits twice changes nothing |
| `WebSocketMask.XorWord` | src/github.com/gorilla/websocket/mask.go:31-44 | Combining two little-endian words combines their bytes one by one |
| `WebSocketMask.MaskTwice` | src/github.com/gorilla/websocket/mask_safe.go:9-15 | Masking is its own inverse |
| `WebSocketMask.MaskConcat` | src/github.com/gorilla/websocket/mask_safe.go:9-15 | Masking in pieces with the returned position is masking the whole |
| `WebSocketMask.MaskZeros` | src/github.com/gorilla/websocket/mask_safe.go:9-15 | Masking zeros lays down the key, from byte `pos` mod 4 on and in its order |
| `WebSocketMask.ZeroKey` | src/github.com/gorilla/websocket/mask_safe.go:9-15 | The key of zeros changes nothing |
| `WebSocketMask.MaskBytesSimple` | src/github.com/gorilla/websocket/mask_safe.go:9-15 | Byte by byte: the byte at offset i of the range is combined with key byte (pos + i) mod 4, the rest untouched, the position returned |
| `WebSocketMask.MaskBytes` | src/github.com/gorilla/websocket/mask.go:13-54 | Word by word, for either word size and any alignment: the same bytes combined with the same key bytes, the rest untouched |
| `WebSocketMask.MaskedRangeIs` | src/github.com/gorilla/websocket/mask.go:13-54 | A masked range holds the masked bytes and everything else is as before |
| `WebSocketTrunc.TruncWriter.Write` | src/github.com/gorilla/websocket/compression.go:64-90 | After any write the sink has all but the last min(4, total) bytes, in order, and the buffer exactly those |
| `WebSocketTrunc.HeldBack` | src/github.com/gorilla/websocket/compression.go:56-62 | What that invariant means in terms of the whole stream |
| `WebSocketTrunc.WriteAll` | src/github.com/gorilla/websocket/compression.go:64-90 | The same after any sequence of writes |
| `WebSocketFrame.HeaderRoundTrip` | src/github.com/gorilla/websocket/conn.go:796-886 | Every header is read back from its bytes, whatever follows |
| `WebSocketFrame.HeaderUnique` | src/github.com/gorilla/websocket/conn.go:796-886 | And no other bytes read as that header |
| `WebSocketMessage.ReceiveOfFrames` | src/github.com/gorilla/websocket/conn.go:969-1054 | Frames that make up an acceptable message, control frames in between, are received as its type, its payload and the control payloads, and nothing of what follows |
| `WebSocketMessage.FramesOfReceive` | src/github.com/gorilla/websocket/conn.go:969-1054 | Conversely a message is received only when the wire carried such frames: control frames final and at most 125 bytes, one opening frame, continuations only while open, within the limit |
| `WebSocketMessage.OnwardOfFrames` | src/github.com/gorilla/websocket/conn.go:1009-1054 | The same for the rest of a message already begun |
| `WebSocketMessage.FramesOfOnward` | src/github.com/gorilla/websocket/conn.go:1009-1054 | And its converse |
| `WebSocketMessage.RestSplit` | src/github.com/gorilla/websocket/conn.go:1017-1032 | A frame's payload may be read in pieces of any size |
| `WebSocketLimit.LimitAfterAbandoned` | src/github.com/gorilla/websocket/conn.go:969-1005 | After a message was abandoned with any number of unread bytes in its current frame, the next is received exactly when the frames still to come of the one and all of the other together are within the limit |
| `WebSocketLimit.LimitAfterLastFrame` | src/github.com/gorilla/websocket/conn.go:969-1005 | When the abandoned frame was the last of its message, the next message is received exactly when it is within the limit itself |
| `WebSocketLimit.RefusedWithinLimit` | src/github.com/gorilla/websocket/conn.go:1080-1085 | A message within the limit that is refused for that reason |
| `WebSocketReceiver.Receiver.SetReadRemaining` | src/github.com/gorilla/websocket/conn.go:327-334 | A length that is negative as a signed integer is an error and leaves the count alone |
| `WebSocketReceiver.Receiver.TakeStart` | src/github.com/gorilla/websocket/conn.go:796-838 | The first two bytes are accepted exactly when the frame may come now |
| `WebSocketReceiver.Receiver.TakeLengthAndKey` | src/github.com/gorilla/websocket/conn.go:840-886 | Extended length and key, with the 64-bit overflow and the mask flag |
| `WebSocketReceiver.Receiver.TakeControl` | src/github.com/gorilla/websocket/conn.go:907-951 | A control payload is unmasked and handed over once; a close frame always ends the connection |
| `WebSocketReceiver.Receiver.CloseReason` | src/github.com/gorilla/websocket/conn.go:931-949 | Exactly which error a close frame gives: a bad code or text, the handler's refusal, or the code and text |
| `WebSocketReceiver.ReceivedCloseCodes` | src/github.com/gorilla/websocket/conn.go:203-224 | Exactly which close codes are accepted |
| `WebSocketReceiver.Receiver.AdvanceFrame` | src/github.com/gorilla/websocket/conn.go:787-952 | A frame is accepted exactly when the bytes after the rest of the previous one are an acceptable frame; the new state is that frame's; which error a refused one gives |
| `WebSocketReceiver.Receiver.NextReader` | src/github.com/gorilla/websocket/conn.go:969-1005 | Succeeds exactly when a message opens next, and errors are permanent; the size counted and the bytes delivered stay within the limit despite 64-bit wrap-around |
| `WebSocketReceiver.Receiver.Read` | src/github.com/gorilla/websocket/conn.go:1009-1054 | Bytes returned plus what is pending is what was pending; end of message exactly at its end; errors are permanent; the internal error never occurs |
| `WebSocketReceiver.Receiver.ReadMessage` | src/github.com/gorilla/websocket/conn.go:1062-1070 | Returns a message exactly when the bytes to come carry one, whole and unchanged |
| `WebSocketFragments.WholeCompletes` | src/github.com/gorilla/websocket/conn.go:549-634 | What a sender puts on the wire as a message, a receiver of the other role accepts as one |
| `WebSocketFragments.HeaderLayout` | src/github.com/gorilla/websocket/conn.go:559-594 | The header bit by bit: final bit, opcode, mask bit, the three length forms big-endian, the key (section 5.2 of RFC 6455) |
| `WebSocketSender.Sender.PlaceHeader` | src/github.com/gorilla/websocket/conn.go:559-594 | The header ends right before the key or the payload, in all three length forms, and leaves the payload alone |
| `WebSocketSender.Sender.BuildFrame` | src/github.com/gorilla/websocket/conn.go:559-603 | Header, key and masked payload are contiguous in the buffer and are the frame's bytes; payload byte i on the wire is combined with key byte i mod 4 |
| `WebSocketSender.Sender.FlushFrame` | src/github.com/gorilla/websocket/conn.go:549-634 | Goes out exactly when it can; the message so far is continued or completed with exactly the buffered data and the extra |
| `WebSocketSender.Sender.Ncopy` | src/github.com/gorilla/websocket/conn.go:636-648 | Room in the buffer, after a flush only if it is full |
| `WebSocketSender.Sender.Write` | src/github.com/gorilla/websocket/conn.go:650-675 | Adds exactly its bytes to the message, buffered or sent directly; fails exactly when a frame is needed and none can go out |
| `WebSocketSender.Sender.Close` | src/github.com/gorilla/websocket/conn.go:720-725 | Completes the message with everything written to it |
| `WebSocketSender.Sender.NextWriter` | src/github.com/gorilla/websocket/conn.go:468-523 | Completes a message left open, then begins a new one |
| `WebSocketSender.Sender.WriteControl` | src/github.com/gorilla/websocket/conn.go:406-465 | A control frame at any time, also inside a message, whose contents it does not touch; nothing is sent after a close |
| `WebSocketSender.Sender.WriteMessage` | src/github.com/gorilla/websocket/conn.go:751-774 | Sends exactly the data as one message, after completing one left open; which calls succeed is stated exactly (a client's control payload must fit its buffer), and what the call leaves of the permanent error |
| `WebSocketExchange.RefusedPing` | src/github.com/gorilla/websocket/conn.go:751-774 | A client with a write buffer of 10 bytes refuses a ping of 11 |
| `WebSocketExchange.ReadBack` | src/github.com/gorilla/websocket/conn.go:969-1070 | After any run of the sender, a peer of the other role reads exactly the completed messages, in order |
| `WebSocketExchange.RoundTrip` | src/github.com/gorilla/websocket/conn.go:549-774 | For every role, buffer size and masking keys, any calls on one side (writers and their writes, single-call messages, controls in between) and any sizes of reads on the other, the peer reads the messages completed, and its handlers get the controls sent before the last of them |
| `WebSocketExchange.Perform` | src/github.com/gorilla/websocket/conn.go:406-774 | Each call does to the sender exactly what it should do to the session: what is complete, what is under way, which controls went out |
| `ZeroMessage.AdlerSum` | src/util/zero/message.go:45-63 | The low half of the checksum is the sum of the bytes |
| `ZeroMessage.AdlerWeighted` | src/util/zero/message.go:45-63 | The high half is the sum of all low halves on the way: every byte counts once for itself and once for each byte after it |
| `ZeroMessage.AdlerValue` | src/util/zero/message.go:45-63 | The checksum in closed form, section 2.2 of RFC 1950 |
| `ZeroMessage.AdlerDetects` | src/util/zero/message.go:45-63 | One changed byte always changes the checksum |
| `ZeroMessage.BodyRoundTrip` | src/util/zero/codec.go:34-71 | A body is read back as the message it was made of |
| `ZeroMessage.Corruption` | src/util/zero/codec.go:34-71 | Every body that differs from a genuine one in exactly one byte is rejected |
| `ZeroConn.Encode` | src/util/zero/codec.go:10-31 | Size, identifier, data and checksum, in that order |
| `ZeroConn.WireLayout` | src/util/zero/codec.go:10-31 | Where each field is on the wire, four bytes each, least significant first |
| `ZeroConn.Decode` | src/util/zero/codec.go:34-71 | Accepts exactly the bodies that verify; under 4 bytes is an error, 4 to 7 a panic |
| `ZeroConn.Conn.ReadCoroutine` | src/util/zero/conn.go:96-156 | The loop hands on every message but heartbeats and ends as the first bad input says; a negative size is a panic |
| `ZeroConn.NextRoundTrip` | src/util/zero/message.go:19-28 | One message comes back as itself exactly when its size fits 31 bits |
| `ZeroConn.OnlyHeartbeats` | src/util/zero/conn.go:149-151 | Only messages with identifier 0 are dropped, wherever they stand |
| `ZeroConn.RunRoundTrip` | src/util/zero/conn.go:96-156 | Any list of such messages is handed on in order without the heartbeats |

## Left out

- The agent, bait and proxy programs, `src/util/comm`, logging, identifiers: processes, files, shell commands, Redis
  and HTTP, with little logic between them.
- go-redis, fsnotify, debugcharts, and WebSocket dialling, upgrading and proxying.
- Snappy: the assembly variants; `crc` is an arbitrary function of the bytes; the stream classes assume a 64-bit
  platform; `Reset`; a sink that fails part of the way through a write.
- YAML scanner: which characters make which token. A lexeme with its position stands for what the characters spell;
  positions are arbitrary except that they never go back, so the results hold for more inputs than can occur. Token
  marks are not modelled, and the queue's storage is a sequence with a capacity rather than a shared array.
- YamlRendering.RenderingStands: one layout for each list of documents, of at most 10000 blocks inside one another; that
  mixing blocks and brackets allows deeper ones is not stated.
- YAML parser: event marks and styles, and the version and tag directives carried by document events.
- YamlPipeline.Load: the scanner is run to its end before the parser rather than on demand, which neither can notice.
- YAML emitter: which events lead to which level. Levels are entered and left in any nesting, and everything but
  double-quoted scalars is arbitrary output, so the results hold for more runs than can occur.
- YAML emitter and scanner: plain, single-quoted, literal and folded styles, and writing in UTF-16.
- Snappy encoder: which matches are found, and so how small the result is; only the bound on its size is stated.
- YAML reader: an encoding set by the caller, errors of the read handler other than end of input, a handler that
  returns nothing for ever, and error offsets.
  The two buffers are sequences with proved bounds on their lengths; the shifts inside them are not modelled in place.
- YAML decoder: types. Whether a value suits what it is decoded into is an arbitrary choice at each node, so the
  results hold for all of them; custom unmarshalers are excluded. Ratios are real numbers rather than floating point.
- WebSocket: compression and the reserved bit it negotiates, deadlines, the write-buffer pool, detection of concurrent
  writers, prepared messages, `WriteString` and `ReadFrom`, a connection that fails while writing, the close message
  sent in answer to a protocol error, the panic after a thousand reads of a failed connection, and writers kept after
  their message ended.
- WebSocketTrunc.TruncWriter.Write: the returned count is not modelled; it leaves out the bytes held back.
- Zero protocol: heartbeat timers, deadlines, channels and sessions; the connection is the bytes it delivers.
