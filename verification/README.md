# TOON decoder model

A Dafny model of a decoder for TOON (Token-Oriented Object Notation) written in Rust. The decoder works in two
stages. Stage 1 (`src/lib.rs`, `src/comments_stripper.rs`, `src/impls/avx2/stage1.rs`) blanks comments and finds the
structural positions of the input, 64 bytes at a time, with bit masks and carries. Stage 2 (`src/stage2.rs`) turns
these positions into a flat tape of nodes with an explicit stack. Scalars are decoded by `src/numberparse`,
`src/stringparse.rs` and `src/impls/avx2/deser.rs`, and `src/value` reads the tape back.

Every layer is a fast form of something simple, and the model states it that way: a simple definition, an imperative
model of the code with its own mutable state, and a proof that the second computes the first.

| files | simple definition | code proved against it |
|---|---|---|
| `Bits`, `Blocks`, `Classify`, `Scanner`, `Comments`, `Cuts`, `Stage1` | `Scanner.ScanTo`, one byte at a time; `Comments.Stripped`, line by line | block loop over carried words, in-place comment stripper |
| `Layout`, `Grammar`, `Cursor`, `Spine`, `Worklist`, `Nesting`, `States`, `Moments`, `Builder` | `Grammar.Parse`, recursive descent without any stack | `Stage2.TapeBuilder`: frames, indentation stack, pending counts, back-patched slots, worklist |
| `Tape`, `WellFormed`, `Counts`, `Examples` | `Tape.IsValue`, what one well-formed value is | what successful runs leave on the tape, and when it is not a value |
| `Dom`, `Deserializer`, `Views` | `Dom.Encode`, the pre-order encoding of a tree; `Dom.ValueOf` | DOM builder, lazy values, lookups and iterators that skip by node count |
| `Decimals`, `Swar`, `Numbers`, `NumberParser` | `Numbers.Literal`, the literals of section 6 of RFC 8259 | wrapping accumulation, eight digits at once, digit-count gate |
| `Escapes`, `Strings` | `Escapes.Unescape`, section 7 of RFC 8259 from left to right | two-phase in-place unescaping in windows of 32 bytes |
| `Tokens`, `Pipeline` | the tape of the grammar with each string as text | both stages joined as `fill_tape` joins them, the strings decoded in place while the tape refers to them |

## How the parts fit

* A document (`Layout.Document`) is the padded copy of the input, the structural positions, and two decoders for
  tokens, one for text and one for numbers. Stage 2 is proved for any two such decoders; `Pipeline.DocumentOf` gives
  it those of `Escapes` and `NumberParser`.
* A String node carries its text and the token it came from. `Tokens.TapeTokens` says that the tokens of a tape are
  pairwise equal or apart, so decoding one in place cannot disturb the slice of another, quoted or bare.
  `Pipeline.FillTape` decodes them on the input that stage 1 left and shows every node readable off it at the end.
* The builder keeps a ghost spine of open containers. Its invariant says that the tape, the frames, the indentation
  stack, the pending counts, `depth`, `cnt` and `last_start` are images of that spine, that indentations never
  decrease, and that the indentation stack is as long as `depth`, or one longer under a root container without a key.
  Each state is proved to leave the document that the spine and the remaining input complete unchanged
  (`Spines.Finish`), which is what makes the machine equal to the grammar.
* `Stage2.TapeBuilder.Run` records the concrete state at each turn of the loop (`Moments.Moment`), and
  `Stage2.TapeBuilder.BuildTape` says of all of them, in runs that fail too, what `Moments.Sound` lists: stack
  heights, the indentation of the line at the cursor, frame tags, pending counts, declared lengths, depth. Depth grows
  in rows between two turns as well; `OpenScope` demands there that a structural has been read for each container.
* `clean` in `Grammar.Parsed` is false exactly if the arm at src/stage2.rs:1271-1273 was taken or a header without a
  key was read inside an object. The comment at src/stage2.rs:879-881 takes the second for impossible; it is not.
* The proofs of stage 1 hold for blocks of any even width; 64 enters in `Stage1` only. The positions are those of the
  bytes as they stand after stripping. Which newlines are stripped does depend on where the cuts fall; `Cuts` says
  exactly when.
* Where the source's documentation and its code differ the model follows the code. `try_parse_number` says that only
  tokens outside the grammar become strings; literals whose integer does not fit 64 bits, or whose exponent goes on
  past 2^32, become strings as well (`NumberParser.NotANumberIffRejected`). `get_unicode_codepoint` says that
  surrogates are checked; a high surrogate that nothing fitting follows decodes to NUL, and one followed by a unit
  from U+E000 on is accepted (`Escapes.DecodesIffPasses`).

## Model

| member | source | states |
|---|---|---|
| `Bits.AddIsAddition` | src/lib.rs:274-279 | the ripple of carries used for both backslash sums and both comment sums is addition modulo the word size, for any width; the carry out of the top bit is exactly the overflow |
| `Bits.MinusOneIsPredecessor` | src/impls/avx2/stage1.rs:230-246 | `bits - 1` as a borrow through the low zeros is the predecessor, wrapping from zero |
| `Bits.PositionsFirst` | src/comments_stripper.rs:143-155 | the positions of the set bits are the lowest one followed by those of the word with it cleared |
| `Classify.ClassesAreBytes` | src/impls/avx2/stage1.rs:123-195 | the two nibble tables put a byte in the structural, space, newline and hash class exactly if it is such a byte, whatever byte the 32-bit shift drags in from behind it |
| `Blocks.CarriesRun` | src/lib.rs:268-285 | of the two sums, the carry that runs through a run of backslashes tells by the parity of its start whether an odd run ends at each bit, the carried-in flag included |
| `Blocks.Carries.FindOddBackslashSequences` | src/lib.rs:263-292 | bit i is set iff byte i is no backslash and an odd run of backslashes, counted across the block cut, ends in front of it; the flag handed on is that fact at the end of the block |
| `Blocks.WindowDoubles` | src/impls/avx2/stage1.rs:82-88 | one shift-xor rung turns parities of windows of w bits into parities of windows of 2w bits |
| `Blocks.ComputeQuoteMask` | src/impls/avx2/stage1.rs:81-89 | the doubling ladder computes the parity of all bits up to and including each bit, for any width |
| `Blocks.InsideIsParity` | src/lib.rs:236-237 | prefix parity xored with the carried-in state is whether a quote is open |
| `Blocks.Carries.FindQuoteMaskAndBits` | src/lib.rs:225-251 | unescaped quotes, the mask of bytes inside quotes, the state handed on, and the error flag set iff a control character lies inside quotes |
| `Blocks.Carries.FinalizeStructurals` | src/lib.rs:301-334 | the emitted bits: separators outside quotes, opening quotes, and first bytes of tokens; closing quotes are not emitted |
| `Comments.IndentCarries` | src/comments_stripper.rs:55-59 | the first sum carries each line start through exactly the spaces that follow it, across blocks |
| `Comments.BodyCarries` | src/comments_stripper.rs:68-72 | the second sum carries each comment from its start to the next newline and no further |
| `Comments.CommentStripper.FindOpeners` | src/comments_stripper.rs:55-62 | the openers are exactly the `#` that are the first non-space byte of their line, for indentation spanning any number of blocks |
| `Comments.CommentStripper.FindBody` | src/comments_stripper.rs:63-72 | the mask is exactly the bytes from an opener up to the next newline, for comments spanning any number of blocks |
| `Comments.CommentStripper.SwallowPrecedingNewline` | src/comments_stripper.rs:86-115 | the bit of the last newline before the opener in its block; without one, the index emitted last is taken back and blanked exactly if it is the byte before |
| `Comments.CommentStripper.BlankBytes` | src/comments_stripper.rs:120-137 | run by run, exactly the bytes of the set bits that lie inside the input become spaces |
| `Comments.CommentStripper.StripBlock` | src/comments_stripper.rs:47-82 | the mask of one block is comment bytes and swallowed newlines; the bytes are blanked, the carried flags are the line state behind the block, and the emitted indexes lose at most the one newline |
| `Cuts.CutsMatterBetweenNewlineAndComment` | src/comments_stripper.rs:93-114 | stripping by blocks equals stripping the input as one block iff no cut comes between a newline and an indented comment that it precedes |
| `Cuts.CutKeepsNewline` | src/comments_stripper.rs:102-114 | an input of any block width for which the newline before an indented comment survives |
| `Stage1.FlattenBits` | src/impls/avx2/stage1.rs:206-256 | eight at a time, with what is written too much cut off again, the positions of the set bits are appended in order |
| `Stage1.BlockScans` | src/lib.rs:743-810 | bit by bit the words of a block follow the byte-at-a-time scan, for its errors and for the positions it emits |
| `Stage1.PopScans` | src/comments_stripper.rs:102-114 | taking back a newline leaves the indexes and the carried state those of a scan of the bytes as they then stand |
| `Stage1.FindStructuralBits` | src/lib.rs:698-902 | the whole of stage 1: the answer, each error included, is that of a scan of the final bytes one at a time, and on success these are the input with its comments stripped |
| `Scanner.EmittedIncreasing` | src/lib.rs:743-888 | the emitted positions are strictly increasing and inside the input |
| `Scanner.EmittedIff` | src/lib.rs:301-334 | a position is emitted iff the scan emits the byte there |
| `Scanner.OddIsRunParity` | src/lib.rs:253-261 | a byte is escaped iff a maximal run of backslashes of odd length ends in front of it |
| `Scanner.IndentationIsSpaces` | src/lib.rs:309-334 | between an emitted newline and the position emitted next there are only spaces |
| `Stage2.TapeBuilder.BuildTape` | src/stage2.rs:285-2194 | for every document the state machine with its explicit stacks and back-patched headers returns the error kind or the tape of the recursive grammar, and on success every structural has been consumed; every moment of the run is sound (`Moments.Sound`); a tape is one well-formed value iff the run never stood behind a bare key whose next line is further out, nor at a line of an object that starts with the `[` of a header |
| `Stage2.TapeBuilder.Run` | src/stage2.rs:1155-2194 | the loop ends by the measure (structurals left, depth, rank of the state), and every step keeps the grammar’s result for the rest of the document; the moments it goes through are recorded and all of them sound |
| `Stage2.TapeBuilder.StateIsSound` | src/stage2.rs:883-961 | in every state of a run, cascades included: indentation stack as long as `depth` or one longer and never decreasing; where a line is read, its top is the distance from the newline in front of that very line, in a document that ends on a newline as `fill_tape` sees to; a frame tagged with keys points at an object, and in a run that comes out clean one tagged with items at an array; a count is pending for a depth iff the container open there is an array on the tape; a container about to be entered has its declared length on the finished tape; `depth` at most the structurals read |
| `States.EolMeasures` | src/stage2.rs:579-632 | a line break that is read leaves the cursor on a token behind a newline with the distance between them measured, or on the newline that ends the document |
| `Spines.CleanIsUnspoilt` | src/stage2.rs:883-961 | a run that comes out clean has left no open container with an unsound member at any point |
| `Spines.FinishKeeps` | src/stage2.rs:2091-2108 | what is read for the innermost container stands on the finished tape right behind what was on it before |
| `Moments.ShownFramed` | src/stage2.rs:902-961 | at every depth the container’s header stands where its frame says, unfilled; tags and kinds agree as long as nothing unsound was read |
| `Moments.ShownAwaited` | src/stage2.rs:1392-1406 | pending counts lie at increasing depths, and there is one for a depth iff the container open there is an array on the tape; the innermost container only while it reads members |
| `Moments.EnteredLengthy` | src/stage2.rs:1304-1394 | wherever a declared container is opened, with or without a key or at the root, the finished tape has a container of the declared length at that index; block arrays in strict mode, the lenient table not at all |
| `Nesting.HeaderNests` | src/stage2.rs:743-842 | a header takes three structurals more than its field groups nest deep |
| `Nesting.ReachGroup` | src/stage2.rs:1980-1994 | opening a group lowers by one how much deeper the worklist will still go |
| `Stage2.TapeBuilder.InsertEntry` | src/stage2.rs:1955-2002 | one field of a row with everything below it is appended as the recursion reads it, and the depth comes back; it is enough that the field’s nesting and the depth together are at most the structurals read |
| `Stage2.TapeBuilder.DoParseHeader` | src/stage2.rs:1157-1250 | from the state in front of a key to the next state, the result for the whole document unchanged; the cursor moves |
| `Stage2.TapeBuilder.DoParseSimpleObjectValue` | src/stage2.rs:1252-1302 | the same for the value of a key; where nothing is read the scope ends |
| `Stage2.TapeBuilder.ValueBelow` | src/stage2.rs:1253-1275 | a key that ends its line: an object below, an empty object before a sibling, and no value at all when the scope closes |
| `Stage2.TapeBuilder.ValueInline` | src/stage2.rs:1277-1301 | a value on the line of its key, `[]` being the empty array |
| `Stage2.TapeBuilder.DoExpectBlockArrayItem` | src/stage2.rs:1396-1550 | the same for one `- ` item in each of its forms; in strict mode no item beyond the declared count |
| `Stage2.TapeBuilder.DoObjectItem` | src/stage2.rs:1439-1449 | an object item indents its fields by 2 whatever the indentation size |
| `Stage2.TapeBuilder.DoParseDeclared` | src/stage2.rs:1304-1394 | a declared container in each of its formats, with or without a key, at the root or inside |
| `Stage2.TapeBuilder.DoEmptyArray` | src/stage2.rs:1304-1325 | an empty array: nothing inside, and an error if the next line is nested |
| `Stage2.TapeBuilder.DoInlineArray` | src/stage2.rs:1326-1370 | an inline array holds the declared number of items, the last one up to the newline |
| `Stage2.TapeBuilder.DoBlockArray` | src/stage2.rs:1372-1394 | a block array needs a nested line and leaves its declared count pending for its depth |
| `Stage2.TapeBuilder.DoTable` | src/stage2.rs:1552-2072 | tabular objects, tabular arrays and nested groups: header line, nested rows, end of scope, the wrapped row count of nested groups included |
| `Stage2.TapeBuilder.InsertRows` | src/stage2.rs:1586-1692 | a counted table appends exactly the rows of the grammar and restores depth, count and start of the container around each row |
| `Stage2.TapeBuilder.InsertAnyRows` | src/stage2.rs:1726-1783 | the lenient table appends rows until the indentation closes |
| `Stage2.TapeBuilder.InsertGroupedRow` | src/stage2.rs:1935-2072 | the worklist for a row of nested groups appends what recursion over the field tree appends, restores depth, count and start, and ends by the total size of the queued entries |
| `Stage2.TapeBuilder.DoScopeEnd` | src/stage2.rs:2074-2189 | closing a scope back-patches its header with length and node count, resumes the container around it from its frame, and at the root accepts only trailing newlines |
| `Stage2.TapeBuilder.Backfill` | src/stage2.rs:2091-2108 | the header slot gets the member count and the number of nodes behind it, and no other slot changes |
| `Stage2.TapeBuilder.OpenScope` | src/stage2.rs:902-915 | the frame of the container around is pushed and every stack stays the image of one spine of open containers; each caller, inside rows and worklists too, shows that more structurals have been read than containers are open, so `depth` never exceeds them |
| `Stage2.TapeBuilder.Pop` | src/stage2.rs:2088-2119 | after popping, every stack is the image of the spine with its innermost container closed |
| `Stage2.TapeBuilder.ResumeOuter` | src/stage2.rs:2113-2178 | an object frame goes on with keys and an array frame with items, by a fresh line break or the one already measured |
| `Stage2.TapeBuilder.GetEolState` | src/stage2.rs:579-632 | the line break as the grammar classifies it: measured indentation, blank lines, and the first pending count as the strict-mode floor |
| `Stage2.TapeBuilder.EolStateFromWs` | src/stage2.rs:559-576 | sibling, close, nested or error, by comparing with the top of the indentation stack |
| `Pipeline.TokenBecomes` | src/stage2.rs:491-522 | a token that is a literal of RFC 8259 becomes its number if there is room for it, every other token a word or a string: that only a digit or a hyphen in front is sent to the number parser loses no literal |
| `Spines.Uncover` | src/stage2.rs:920-961 | what tape, frames, indentations and pending counts hold once the innermost container is closed |
| `Spines.FloorIsFirstPending` | src/stage2.rs:617-619 | the first pending count leads to the indentation of the outermost open block array, and there is none iff nothing is pending |
| `Spines.PendingDepths` | src/stage2.rs:1392-1394 | pending counts lie at strictly increasing depths of open block arrays |
| `Stage2.TapeBuilder.ExpectCount` | src/stage2.rs:1392-1394 | opening a block array, which nothing else does this for, marks the container with the declared count, pushes it for its depth, and makes its indentation the floor for blank lines if no other is pending |
| `Spines.FinishClose` | src/stage2.rs:2113-2178 | closing the innermost container leaves the document that the open ones will complete unchanged |
| `Worklist.WorkQueue` | src/stage2.rs:1955-2002 | a queue of fields does to the spine what reading them as one branch does |
| `Worklist.WorkGroup` | src/stage2.rs:1980-1994 | a group that is opened, with its fields queued in front of its end, is read as the recursion reads it |
| `Worklist.GroupMeasures` | src/stage2.rs:1958-2002 | replacing a group by its fields makes the total size of the queue smaller |
| `States.DeclaredStep` | src/stage2.rs:1304-1394 | a declared container followed by the rest of the container around it |
| `Cursors.Cursor.ReadHeader` | src/stage2.rs:669-876 | the header of a line as the grammar reads it, cursor and every error included |
| `Cursors.Cursor.ReadBracket` | src/stage2.rs:694-717 | `[N]` or `[N:]` with its delimiter |
| `Cursors.Cursor.ParseStringNumber` | src/stage2.rs:635-651 | a row count of digits that fits 32 bits, and an error for anything else |
| `Cursors.Cursor.GetValueEnd` | src/stage2.rs:533-556 | the token up to one of its ends, trailing spaces and carriage returns trimmed |
| `Cursors.Cursor.ReadNestedFields` | src/stage2.rs:751-832 | the level stack and the pending names, one shorter, build the tree of the recursive field list; leaf and group counts are those of the tree; the inner failure arms cannot be reached |
| `Cursors.Cursor.ReadFieldList` | src/stage2.rs:743-842 | flat lists on the fast path and nested ones on the stack give one field tree |
| `WellFormed.ParsedIsValue` | src/stage2.rs:883-961 | the tape of a successful run is exactly one well-formed value iff no key was left without a value (1271-1273) and no header without a key was read inside an object (1171-1243) |
| `WellFormed.BranchIsFields` | src/stage2.rs:1899-2072 | a branch of a row is one field for each of its entries and takes two nodes for each leaf and each group |
| `WellFormed.RowsAreBody` | src/stage2.rs:1586-1692 | counted rows are the body of a container with that many members |
| `Examples.BareKeyIsLost` | src/stage2.rs:1271-1273 | the document that `fill_tape` builds for an input of three lines with a bare key before a dedent: the tape is not well formed |
| `Examples.UnkeyedHeaderIsKept` | src/stage2.rs:1171-1243 | the document built for an input of two lines with a header without a key inside an object: the tape is not well formed |
| `Counts.DeclaredLength` | src/stage2.rs:1392-1406 | a container declared with N members is written with length N; block arrays in strict mode only |
| `Counts.LineLength` | src/stage2.rs:1171-1243 | read off the input: the container that a header line starts in an object is written with the length in its brackets, in strict mode |
| `Counts.NoRowsOfGroups` | src/stage2.rs:1949 | nested groups declared with no rows: the loop counter wraps to 2^64 - 1, and every document of that kind ends in an error |
| `Counts.RootLength` | src/stage2.rs:1372-1394 | the same for a container at the root in strict mode |
| `Counts.ContentsCount` | src/stage2.rs:2079-2086 | the contents of each format count as many members as were declared |
| `Counts.RowsHaveSize` | src/stage2.rs:1911-1923 | rows × (1 + 2·leaves + 2·groups) nodes for nested groups, and the like for the flat tables |
| `Counts.OnlyLastLeafEndsLine` | src/stage2.rs:1961-1978 | only the last leaf of a row in pre-order leaves the cursor on a newline, every other one behind a delimiter |
| `Dom.EncodeIsValue` | src/value/tape.rs:77-101 | the pre-order encoding of a tree is a well-formed value |
| `Dom.Decode` | src/value/borrowed.rs:407-447 | every well-formed value is the encoding of the tree it is decoded to |
| `Dom.EncodeInjective` | src/value/borrowed.rs:407-447 | an encoding stands for one tree only |
| `Deserializers.BorrowDeserializer.Parse` | src/value/borrowed.rs:407-414 | on the encoding of a tree the builder consumes exactly its nodes and returns its value |
| `Deserializers.BorrowDeserializer.ParseArray` | src/value/borrowed.rs:417-430 | all items in order |
| `Deserializers.BorrowDeserializer.ParseMap` | src/value/borrowed.rs:433-446 | all members, the last of several with one key winning |
| `Deserializers.LazyValue.Upgrade` | src/value/lazy.rs:104-115 | replacing the tape by its value keeps what is meant |
| `Deserializers.LazyValue.IntoValue` | src/value/lazy.rs:61-68 | the value that is meant, whichever way it is kept |
| `Deserializers.LazyValue.AsMut` | src/value/lazy.rs:117-127 | the value to be changed is the one that was meant |
| `Views.ViewIsEncoding` | src/value/tape/trait_impls.rs:179-199 | the slice taken by node count, header included, is exactly the encoding of the array or object, whatever follows it on the tape |
| `Views.ArrayGet` | src/value/tape/array.rs:29-37 | the encoding of item idx, and nothing beyond the last one, for every index |
| `Views.ArrayIter.Next` | src/value/tape/array.rs:13-17 | one item is yielded and skipped |
| `Views.CollectItems` | src/value/tape/array.rs:10-43 | the iterator yields all items in order |
| `Views.ObjectGet` | src/value/tape/object.rs:19-41 | the value of the first member with the key, and nothing if there is none |
| `Views.ObjectIter.Next` | src/value/tape/object.rs:87-94 | key and value are yielded and skipped |
| `Views.KeyIter.Next` | src/value/tape/object.rs:99-106 | the key is yielded, its value skipped |
| `Views.ValueIter.Next` | src/value/tape/object.rs:111-117 | the value is yielded, its key skipped |
| `Views.CollectMembers` | src/value/tape/object.rs:84-95 | the iterator yields all members in order |
| `Views.GetAgreesWithMap` | src/value/tape/object.rs:19-41 | tape lookup and DOM map hold the same keys, and agree on one iff its first and last values mean the same; distinct keys suffice |
| `Views.GetDiffersOnDuplicates` | src/value/tape/object.rs:19-41 | an object with a repeated key on which they differ |
| `Swar.EightDigitsAreFound` | src/numberparse.rs:45-51 | the masked sums accept eight bytes iff all of them are digits, carries between lanes included |
| `Swar.EightDigitsAreParsed` | src/numberparse.rs:94-103 | on eight digits the three wrapping multiplications give the number they stand for |
| `Numbers.SpelledIsRecognized` | src/numberparse/correct.rs:71-191 | every literal of section 6 of RFC 8259 is recognized with its own parts |
| `Numbers.RecognizedIsSpelled` | src/numberparse/correct.rs:71-191 | whatever is recognized is spelled exactly as the token |
| `NumberParser.AppendDigits` | src/numberparse/correct.rs:97-102 | the wrapped word is the digits’ number modulo 2^64, and the loop stops at the first other byte |
| `NumberParser.ReadFraction` | src/numberparse/correct.rs:106-138 | one digit, a block of eight, and the rest give the same as digit by digit |
| `NumberParser.ReadExponent` | src/numberparse/correct.rs:165-181 | the exponent is exact, and given up iff digits follow once it is above 2^32 |
| `NumberParser.ExceedsWord` | src/numberparse/correct.rs:143-205 | the gate, with leading zeros taken off and its wrapping subtraction, holds exactly the literals with too many digits |
| `NumberParser.NarrowIsExact` | src/numberparse/correct.rs:192-206 | a mantissa that passes the gate is below 10^19, so the wrapped word is exact |
| `NumberParser.ParseLargeInteger` | src/numberparse/correct.rs:229-269 | integers of 19 digits and more: the exact value, or no number iff it does not fit |
| `NumberParser.TryParseNumber` | src/numberparse/correct.rs:65-223 | the outcome is that of the literal that the token spells, and no number if it spells none |
| `NumberParser.OnlyLiteralsAreNumbers` | src/numberparse/correct.rs:53-57 | numbers are literals of the grammar, and each literal means what it says |
| `NumberParser.IntegersAreExact` | src/numberparse/correct.rs:189-222 | a token without point and exponent is U64(n) iff canonical and n < 2^64, I64(-n) iff canonical and n <= 2^63, no number otherwise |
| `NumberParser.NotANumberIffRejected` | src/numberparse/correct.rs:53-57 | a token is no number iff it is no literal of RFC 8259, or an integer beyond 64 bits, or has an exponent that goes on past 2^32 |
| `NumberParser.LongIntegerIsNoNumber` | src/numberparse/correct.rs:229-269 | a 2 with nineteen zeros behind it is a literal and yet no number |
| `NumberParser.LongExponentIsNoNumber` | src/numberparse/correct.rs:175-181 | `1e99999999999` is a literal and yet no number |
| `NumberParser.PartsDenote` | src/numberparse/correct.rs:192-212 | the pair handed to the rounding denotes exactly the number of the token, before the cast of the exponent |
| `Escapes.HexIsCodeUnit` | src/charutils.rs:22-38 | four hexadecimal digits give their code unit, and one wrong byte sets the high 16 bits |
| `Escapes.Utf8RoundTrip` | src/charutils.rs:54-84 | the bytes written are the shortest UTF-8 form: decoding them by section 3 of RFC 3629 gives the code point back |
| `Escapes.PairIsRead` | src/stringparse.rs:57-81 | a pair of surrogates joins to its code point |
| `Escapes.EscapeStep` | src/lib.rs:263-292 | an escape that decodes leaves stage 1 in front of an unescaped byte of the same string |
| `Escapes.DecodeStopsAtClosingQuote` | src/impls/avx2/deser.rs:125-213 | a string that decodes ends at exactly the quote that stage 1 pairs with its opening one, and the decoder never reads past it |
| `Escapes.DecodeUnescapes` | src/impls/avx2/deser.rs:168-206 | with paired surrogates the decoder answers what section 7 of RFC 8259 says, errors included |
| `Escapes.DecodesIffPasses` | src/impls/avx2/deser.rs:168-206 | a string decodes iff a walk over its escapes finds each complete, no low surrogate where an escape is read, and behind a high surrogate no escaped unit below U+DC00 |
| `Escapes.DecodeAgreesIfPaired` | src/stringparse.rs:57-85 | decoder and RFC 8259 agree on a string iff its high surrogates are paired or that walk fails |
| `Escapes.LoneSurrogateBecomesNul` | src/stringparse.rs:58-62 | a string on which they differ, whatever padding follows it |
| `Strings.BelowFirst` | src/impls/avx2/deser.rs:87-108 | `(a - 1) & b` is not zero iff the first bit of b lies below the first of a |
| `Strings.Search` | src/impls/avx2/deser.rs:74-120 | what the masks of a window say: the first quote or backslash and which of them it is |
| `Strings.CodepointToUtf8` | src/charutils.rs:54-84 | the UTF-8 bytes are written at the start of the buffer given and nothing else changes |
| `Strings.StringDecoder.HandleUnicodeCodepoint` | src/stringparse.rs:32-39 | the bytes written and the bytes read for a Unicode escape |
| `Strings.StringDecoder.UnescapeRest` | src/impls/avx2/deser.rs:125-213 | window by window, stores that run ahead included, the buffer holds the decoded text |
| `Strings.StringDecoder.ParseStrQuotes` | src/impls/avx2/deser.rs:53-215 | the view shows the decoded text; only bytes between the string’s own quotes are written, and the text never outgrows its source |
| `Strings.StringDecoder.ParseStr` | src/impls/avx2/deser.rs:27-44 | a quoted token is decoded and a bare one sliced off the mutable input; either way the slice shows the text that the read-only copy has for the token |
| `Strings.StringDecoder.ParseNext` | src/stage2.rs:364-372 | decoding a token leaves every other one as it is, those decoded before and those still to come, and its own text when it is read again |
| `Strings.StringDecoder.ParseAll` | src/stage2.rs:464-472 | over any run of tokens, quoted or bare, repeated header names included, every slice still shows its text at the end |
| `Strings.StringsApart` | src/lib.rs:225-251 | the strings of two opening quotes do not overlap |
| `Pipeline.FillTape` | src/lib.rs:585-645 | size limit, stage 1, padding, the newline sentinel and stage 2 in turn: the error of the first that fails, or the grammar’s tape of the stripped input; at the end every String node, bare ones included, can be read off the mutable input, in which only the inside of decoded strings has changed since stage 1 |
| `Pipeline.DecodeStrings` | src/stage2.rs:464-472 | the strings of a tape decoded in its order on the stripped input: each of its String nodes reads as its text at the end |
| `Pipeline.TapeDecodes` | src/stage2.rs:364-372 | the strings of a tape are tokens the decoder can be given, two by two equal or apart, and each decodes |
| `Tokens.TapeTokens` | src/stage2.rs:464-472 | in every document each String node holds what its own token decodes to, and the tokens of any two are the same or lie one behind the other |
| `Tokens.HeaderFits` | src/stage2.rs:669-876 | key and field names of a header are tokens of its line, apart from one another, read before any row |
| `Pipeline.ClosesInToken` | src/stage2.rs:533-556 | a string that decodes closes before the structural that ends its token, and trimming does not reach it |
| `Pipeline.TokensDecode` | src/impls/avx2/deser.rs:27-44 | every token stage 2 reads is bare or opens a string that stage 1 found closed, and lies inside the input |
| `Pipeline.DocumentIsValid` | src/lib.rs:617-634 | what stage 2 is given: increasing positions inside the padded copy, the last one a newline |
| `Pipeline.MeasuredIndentationIsSpaces` | src/stage2.rs:609 | the distance measured behind a structural newline is the true number of spaces in front of the token that follows |
| `Pipeline.LinesAreIndented` | src/stage2.rs:2074-2178 | at every moment at which a key or a block array item is about to be read, after a cascade of closed scopes too, the last measured indentation is the number of spaces in front of the line at the cursor, and the top of the indentation stack |
| `Pipeline.MetQuotesOpen` | src/stage2.rs:464-472 | every quote stage 2 meets opens a string that stage 1 found closed |
| `Pipeline.ReadTokensEnd` | src/stage2.rs:533-556 | behind every token stands a byte at which the number parser stops |
| `Pipeline.CleanTapesAreTrees` | src/stage2.rs:1155-2194 | a tape is the encoding of a tree iff every key got its value and every value in an object its key |

## Left out

- Stage2.TapeBuilder.BuildTape: errors are their kinds only, without the byte offset and character that the source reports; no string is written in place, which `Pipeline.FillTape` adds. Counters wrap as in a build without overflow checks, which is how the release profile builds; a build with them would stop instead.
- Stage2.TapeBuilder.DoExpectBlockArrayItem: the `debug_assert_eq!` at src/stage2.rs:1402 is not modelled; the release build goes on, and so does the model.
- Pipeline.FillTape: the builder takes the text of a token as a function of the read-only copy, and the writes that decoding makes to the input are replayed afterwards in the order of the tape; when stage 2 fails, the strings decoded before the failure are not written.
- NumberParser.TryParseNumber: stops at the pair of significand and exponent, before `exponent as i32` and the rounding to a double; whether that overflows is a parameter of `Pipeline.Options`.
- NumberParser.ExceedsWord: positions are unbounded; the source's are 64-bit words, which the token length is required to fit.
- Blocks.ComputeQuoteMask: the carry-less multiplication used on x86-64 is not modelled; the ladder that stands for it on x86 is.
- Stage1.FindStructuralBits: the UTF-8 validator is one boolean, the SIMD loads and compares are their meaning for each byte, and the emitted positions are unbounded numbers.
- Deserializers.BorrowDeserializer.Parse: stands for the owned and the slice builder too, whose bodies are the same.
- Views.ObjectGet: `get_array`, `get_object` and their `try_` forms on tapes, which slice one node less, are not modelled.
- Eisel-Lemire rounding, its tables and the fallback to the standard library's parser: floating point rounding is too far from the rest.
- `parse_eight_digits_ssse3` and src/numberparse/approx.rs: other builds of what `Swar` and `NumberParser` model.
- Buffer capacity (`grow_res!`, `AlignedBuf`), reuse of buffers, lifetimes and runtime CPU dispatch: memory management.
- Serializers, serde glue, conversions, comparisons, macros and the command-line and fuzzing code: easy or plumbing.
