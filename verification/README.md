# Algorithms of the Bun JavaScript tooling, verified

A Dafny model of the self-contained algorithms in Bun's JavaScript, TypeScript and Python helpers,
with proofs of what they promise. The parts, one group of modules each:

- **Source maps** (`Vlq`, `Records`, `Mappings`, `Decoder`, `MappingsOrder`, `RoundTrip`, `FarFields`,
  `Segments`, `Reencoding`, `Remap`, `EncodedLookup`): the Base64-VLQ `mappings` decoder with its 32-bit
  accumulation, its doubling buffer and its in-place sort; the encoder of the "Base64 VLQ" and
  "Mappings structure" sections of ECMA-426; the binary search that maps a generated position back.
  `Mappings` states the decoder as a state machine, `Decoder` runs it on an array, and the other
  modules prove what the machine does. The *breaks* of a run *fit* when every `;` it reaches with no
  sort owed stands at a column below 2^31. Lines are *near* when each field is less than 2^30 away
  from the one it is written relative to. An entry is *meant* by a query when of the entries on its
  line not past it that one has the greatest column and is the last written among equal ones.
- **Unicode tables** (`UnicodeGenerator`, `UnicodeTable`): compression of a function over all code
  points into shared blocks, packing into 64-bit words, and the emitted lookup.
- **Runtime helpers** (`LazyModules`, `ReExports`, `Disposal`, `Decorators`): run-once module bodies,
  `export *` getters, `using` disposal, ES decorators.
- **Build scripts and debugger support** (`ZipSize`, `CiTimings`, `CiWorkers`, `CiLogs`, `Completions`,
  `SegmentedList`): the ZIP central directory (PKWARE APPNOTE 4.3.12 and 4.3.16), the shared job
  queue, the completions list and its index, segmented-list indexing.

`Bits` gives the bitwise operators on unbounded numbers, `LittleEndian` numbers in bytes, `Sets` a
fact about sizes, and `Wrappers` holds `Option` and `Result`. A JavaScript `throw` is an `Err`.
`dafny verify dfyconfig.toml` checks everything.

Where the code does not do what it is for, the model follows the code and states exactly when it does:

- A position lookup that finds no mapping returns the first record's position: the search reports a
  miss with `null`, the caller compares with `-1`, and `null + 3` is 3 (`Remap.AnswerIntended`).
- A generator used twice returns tables with an empty second stage
  (`UnicodeGenerator.GenerateTwice`), and a predicate that holds at 0 comes out inverted
  (`UnicodeTable.GenerateTable`).
- A module whose body threw, or met a throw below it, looks loaded when it is called again
  (`LazyModules.ThrowLooksLoaded`). A repeated call hands over a module whose body has ended exactly
  when no body that throws can be reached from it (`LazyModules.SecondCallExactly`).
- A package name that does not start with a letter and sorts before the letters shifts the index
  (`Completions.IndexExact`, `Completions.ScopedNameShiftsSlices`).
- Columns past 2^31 wrap when they are stored, so a line can end up out of order with no sort owed
  (`Reencoding.OverflowBreaksOrder`). The decoded records are in order exactly when every line that
  owed no sort ended below 2^31 and the last one owes none (`MappingsOrder.DecodedInOrder`). A VLQ
  value is exact exactly below 2^30 (`Vlq.DecodeEncoded`), so lines of 32-bit fields come back from
  their encoding exactly when they are near (`FarFields.RoundTripsExactly`, with
  `FarFields.FarColumnRefused` as an input that does not).
- A last line whose columns descend is never sorted, so a lookup on it can answer with the wrong mapping
  (`EncodedLookup.DescendingAnswersLast`). Where the search can rely on it, the answer is the meant
  entry exactly when no earlier entry has a greater column (`EncodedLookup.StopIsMeant`).
- A completion list with a name outside ASCII does not read back: the length written counts code
  units and the reader counts bytes (`Completions.ListComesBack`, `Completions.AccentedNameIsCut`).

Three assumptions stand for code that is not part of this model: SHA-256 is collision free on blocks
of 16-bit entries (`CollisionFree`), an element function and an equivalence are pure, and a parsed
log line is either a header or nothing (the pattern itself is not modelled).

## Model

| member | source | states |
|---|---|---|
| `Vlq.VlqCharsAreDigits` | packages/bun-error/sourcemap.ts:3 | the 64 digit characters, in the order of their values |
| `Vlq.OnlyVlqChars` | packages/bun-error/sourcemap.ts:2-5 | a character is no digit if and only if it is none of the 64 |
| `Vlq.BuildVlqTable` | packages/bun-error/sourcemap.ts:2-5 | the lookup table holds each ASCII code's digit, and 0xff for every other code |
| `Vlq.WordIsPositional` | packages/bun-error/sourcemap.ts:68-70 | or-ing in each digit at a shift taken modulo 32 adds its base-32 positional value, for any number of digits, as long as the total is below 2^32 |
| `Vlq.AccumulationExact` | packages/bun-error/sourcemap.ts:69-77 | read as a signed word, the accumulated word is the positional value if and only if that value is below 2^31 |
| `Vlq.WordBits` | packages/bun-error/sourcemap.ts:68-70 | for any number of digits, a bit of the word is set if and only if some digit sets it, each digit's five bits standing five places above the one's before, modulo 32, and cut off at bit 31 |
| `Vlq.SignedWord` | packages/bun-error/sourcemap.ts:76-77 | for every 32-bit word, bit 0 is the sign of the value above it, which counts as negative from 2^30 on |
| `Vlq.DecodeDigits` | packages/bun-error/sourcemap.ts:54-78 | any digits of which exactly the last does not ask for more, whether an encoder wrote them or not, are consumed whole and read as the signed word they build |
| `Vlq.DecodeEncoded` | packages/bun-error/sourcemap.ts:54-78 | after any text and before any text, decoding an encoded value stops just past the encoding, and returns the value if and only if its magnitude is below 2^30 |
| `Vlq.DecodeFar` | packages/bun-error/sourcemap.ts:69-77 | a value of magnitude from 2^30 up to 2^31 comes back exactly 2^31 off towards the other sign |
| `Records.UnflattenInjective` | packages/bun-error/sourcemap.ts:191-202 | two flat buffers with the same six-integer records are the same buffer |
| `Records.InsertRecord` | packages/bun-error/sourcemap.ts:88-110 | one pass of the in-place sort inserts the record at `j` among those before it, as a unit, and touches nothing outside |
| `Records.SortLine` | packages/bun-error/sourcemap.ts:87-111 | the in-place loop turns the line's records into their insertion sort and leaves every cell before and after the line unchanged |
| `Records.InsertionSortIsStable` | packages/bun-error/sourcemap.ts:85-111 | the sorted line is ordered by column and keeps, column by column, the records in their order |
| `Records.StableSortIsInsertionSort` | packages/bun-error/sourcemap.ts:85-111 | a list is the stable sort of a line if and only if it is what the insertion sort gives |
| `Records.InsertionSortPermutes` | packages/bun-error/sourcemap.ts:85-111 | the sorted line is a permutation of the line |
| `Records.InsertionSortOfOrdered` | packages/bun-error/sourcemap.ts:85-87 | a line in order needs no sort: sorting would leave it as it is |
| `Decoder.MappingsDecoder.DecodeVLQ` | packages/bun-error/sourcemap.ts:54-78 | the digit loop consumes and returns, or fails at the index with the reason, exactly as the VLQ specification says |
| `Decoder.MappingsDecoder.EnsureCapacity` | packages/bun-error/sourcemap.ts:186-190 | after it there is room for six more integers, the capacity is 1024 doubled some times, and the records are unchanged |
| `Decoder.MappingsDecoder.LineBreak` | packages/bun-error/sourcemap.ts:84-119 | a `;` sorts the current line if a sort is owed, starts the next line at the buffer's end and resets the column |
| `Decoder.MappingsDecoder.Append` | packages/bun-error/sourcemap.ts:185-203 | appends one record, each number stored modulo 2^32, with -1 for missing fields, across a doubling of the buffer |
| `Decoder.MappingsDecoder.ReadSegment` | packages/bun-error/sourcemap.ts:127-183 | one mapping of 1, 4 or 5 fields is read, with the same accumulators, flags, position and errors as the state machine's parse |
| `Decoder.MappingsDecoder.Decode` | packages/bun-error/sourcemap.ts:80-206 | the loop over the growing buffer yields the records, or the error with its index, of the state machine's run; in either case the buffer then holds whole records within a capacity that only doubled, and the result is its used part |
| `Decoder.DecodeMappings` | packages/bun-error/sourcemap.ts:35-207 | decoding a text from the start yields a flat buffer of the run's records, or the run's error |
| `Segments.SegmentReads` | packages/bun-error/sourcemap.ts:127-202 | read in the text up to its separator, a segment gives the mapping its own 1, 4 or 5 values give, or is refused with them |
| `Segments.RunIsReading` | packages/bun-error/sourcemap.ts:35-207 | for every text, the decoder accepts it if and only if splitting it at `;` and then at `,`, empty segments left out, gives segments of 1, 4 or 5 values in range; its records, accumulators, line and debt of a sort are then those of that reading |
| `Segments.StrayCommasIgnored` | packages/bun-error/sourcemap.ts:121-125 | with any number of commas put in where a mapping, a break or the end stands, a text is accepted if and only if it was, with the same records, accumulators, line and debt of a sort |
| `Segments.PaddedRoundTrips` | packages/bun-error/sourcemap.ts:121-125 | an encoding of near lines with stray commas put in decodes like the encoding |
| `Segments.BrokenValue` | packages/bun-error/sourcemap.ts:54-67 | a value that cannot be read breaks off at the first character that is no digit, or at the end, after digits that all ask for more, with the reason for the one or the other |
| `Segments.ErrorsExplained` | packages/bun-error/sourcemap.ts:127-183 | every error of a mapping is there: the value it names is out of range and ends at the index it gives, or one of the first five values breaks off there, or a fifth one is not the last |
| `MappingsOrder.StepOrder` | packages/bun-error/sourcemap.ts:80-204 | at every loop head the current line's records come last, and either its column is below 2^31 and a sort is owed if and only if it is out of order, or it went past 2^31, is out of order, and owes a sort or is still past 2^31; a `;` leaves the finished lines in order if and only if they were and the line owed a sort or its column is below 2^31 |
| `MappingsOrder.RunOrder` | packages/bun-error/sourcemap.ts:80-206 | over every run of fewer than 2^31 lines the loop-head invariant is kept, and the finished lines end in order if and only if every `;` reached with no sort owed had a column below 2^31 |
| `MappingsOrder.OrderedExactly` | packages/bun-error/sourcemap.ts:80-206 | from the start, with fewer than 2^31 lines: the finished lines are in order if and only if the breaks fit, and all the records if and only if besides the last line owes no sort and fits |
| `MappingsOrder.DecodedInOrder` | packages/bun-error/sourcemap.ts:84-116 | for every accepted text shorter than 2^31, overflowing columns included: the records are in order if and only if the last line owes no sort and no line that owed none ended at a column of 2^31 or more |
| `MappingsOrder.TerminatedOwesNoSort` | packages/bun-error/sourcemap.ts:84-119 | a text that ends in `;` owes no sort |
| `RoundTrip.FieldDecodes` | packages/bun-error/sourcemap.ts:127-131 | a 32-bit field less than 2^30 from the previous one, written relative to it, is read back, within its limit |
| `RoundTrip.EntryDecodes` | packages/bun-error/sourcemap.ts:127-183 | an encoded mapping of 1, 4 or 5 fields is parsed into its fields, and its comma swallowed |
| `RoundTrip.LineDecodes` | packages/bun-error/sourcemap.ts:80-204 | running over an encoded line appends exactly its records in order and owes a sort if its columns descend |
| `RoundTrip.LineAndBreak` | packages/bun-error/sourcemap.ts:84-119 | an encoded line and its `;` leave the stable sort of its records |
| `RoundTrip.RoundTrips` | packages/bun-error/sourcemap.ts:35-207 | for every list of near lines with fields from 0 to 2^31 - 1 and sources in range, decoding the encoding gives each terminated line stably sorted and the last as written, every break fits, and a sort stays owed if and only if the last line descends |
| `FarFields.FarField` | packages/bun-error/sourcemap.ts:127-131 | a field that rises by 2^30 or more is refused, and one that falls by that much is refused or overflows its accumulator past 2^31 |
| `FarFields.FarEntryFails` | packages/bun-error/sourcemap.ts:127-202 | a mapping with a far field anywhere ends the run in an error, or in a result with a record stored below -1 that no later step removes |
| `FarFields.RoundTripsExactly` | packages/bun-error/sourcemap.ts:35-207 | for every list of lines with fields from 0 to 2^31 - 1 and sources in range, decoding the encoding gives the lines' records back if and only if the lines are near |
| `FarFields.FarColumnRefused` | packages/bun-error/sourcemap.ts:127-131 | one mapping at column 2^30 is refused by the decoder |
| `RoundTrip.AscendingLinesDecodeFlat` | packages/bun-error/sourcemap.ts:35-207 | lines whose columns ascend decode to exactly the flattened records |
| `Reencoding.RecordsReencode` | packages/bun-error/sourcemap.ts:35-207 | every list of records none of whose fields wrapped, ordered by line and on every line but the last by column, is what its canonical encoding decodes to if and only if its lines are near |
| `Reencoding.RunKeepsShape` | packages/bun-error/sourcemap.ts:127-202 | over every run whose accumulators stay below 2^31, no field wraps and each record has either no original position or a source below the count |
| `Reencoding.UnfitBreakFails` | packages/bun-error/sourcemap.ts:84-119 | a run with a break that does not fit ends in an error or leaves a record with a column below -1 |
| `Reencoding.AcceptedTextReencodes` | packages/bun-error/sourcemap.ts:35-207 | for every accepted text none of whose decoded fields wrapped, a sort still owed or not, the canonical encoding decodes to the same records if and only if its lines are near |
| `Reencoding.OverflowBreaksOrder` | packages/bun-error/sourcemap.ts:191-202 | three ascending mappings far apart are accepted and stored out of order with no sort owed |
| `Remap.IndexOfMapping` | packages/bun-error/sourcemap.ts:304-331 | on any records the search stops where a record the query has reached is followed by one it has not, and a hit covers the query; on any records whose reached part comes first and stays covering once it covers, it finds exactly what a scan of all records finds, hit or miss |
| `Remap.BoundaryIsScan` | packages/bun-error/sourcemap.ts:304-331 | on such records there is one place to stop, and it is where the scan ends |
| `Remap.SearchableFindable` | packages/bun-error/sourcemap.ts:304-331 | for a decoded text whose breaks fit, every query can be searched for, except on a last line that owes a sort or does not fit |
| `Remap.LinearScan` | packages/bun-error/sourcemap.ts:304-331 | the last record on the queried line at or before the queried column, or none |
| `Remap.RemapPosition` | packages/bun-error/sourcemap.ts:209-228 | non-finite numbers are refused, and there is no answer exactly for no mappings or a negative query; on any records the answer is that of the record where the search can stop, or on a miss of the first; where the search can rely on the records it is that of the last covering record, or on a miss of the first |
| `Remap.AnswerIntended` | packages/bun-error/sourcemap.ts:222-227 | the answer is the intended one if and only if there are no mappings, the query is negative, or some record covers it |
| `Remap.MissAnswersFirstRecord` | packages/bun-error/sourcemap.ts:225-227 | a query before the first mapping of its line gets an unrelated original position instead of null |
| `Remap.RemapThroughText` | packages/bun-error/sourcemap.ts:209-228 | decoding then remapping passes on a decoding error, refuses non-finite numbers, and on any accepted text answers from a place where the search of the run's records can stop; that is the last covering record for every text whose breaks fit and every query not on a last line that owes a sort or does not fit |
| `EncodedLookup.ScanFindsMeant` | packages/bun-error/sourcemap.ts:304-331 | among the records an encoding decodes to, the last one covering a query is that of the entry with the greatest column not past the query, the last written among equal ones |
| `EncodedLookup.ScanFindsNone` | packages/bun-error/sourcemap.ts:304-331 | when every entry of the queried line stands past the query, or there is no such line, none of the decoded records covers it |
| `EncodedLookup.SomeMeant` | packages/bun-error/sourcemap.ts:304-331 | on a line either one entry is meant by a query or all stand past it |
| `EncodedLookup.AnswersMeant` | packages/bun-error/sourcemap.ts:209-228 | where an entry is meant, the answer is the intended one and is that entry's original position |
| `EncodedLookup.StopIsMeant` | packages/bun-error/sourcemap.ts:304-331 | where the entries not past the query come first, the search stops at the last written of them, and that is the meant one if and only if no earlier entry has a greater column |
| `EncodedLookup.DescendingAnswersLast` | packages/bun-error/sourcemap.ts:84-87 | on a last line written with columns 5 and 3, a query at 5 means the first mapping and gets the second |
| `EncodedLookup.LookUpEncoded` | packages/bun-error/sourcemap.ts:209-228 | encoding near lines, decoding the text and remapping any query: off a descending last line it gives the meant entry's original line and column; without an entry not past the query it gives the first record's; on the last line, descending or not, it gives those of an entry followed by one past the query, or the first record's if the line begins past it |
| `UnicodeGenerator.CodeFinds` | misctools/unicode-generator.ts:43-48 | a code point's stage-3 index finds an equivalent element in the final list, and no earlier one is equivalent |
| `UnicodeGenerator.ElementsInequivalent` | misctools/unicode-generator.ts:43-48 | no stage-3 element is equivalent to an earlier one |
| `UnicodeGenerator.FileNew` | misctools/unicode-generator.ts:72-83 | storing an unseen block keeps every block stored once, at its digest's index |
| `UnicodeGenerator.FileKnown` | misctools/unicode-generator.ts:68-83 | reusing a known block's index adds nothing to stage 2 and points at the same contents |
| `UnicodeGenerator.FiledCodes` | misctools/unicode-generator.ts:68-83 | stages 1 and 2 give every code point its own stage-3 index, in blocks aligned to 256 with indices that fit 16 bits |
| `UnicodeGenerator.ChunksDiffer` | misctools/unicode-generator.ts:69-76 | any two stored stage-2 blocks are different |
| `UnicodeGenerator.NewBlocksExact` | misctools/unicode-generator.ts:68-83 | the blocks the throw condition counts are exactly those of the function that were not known before |
| `UnicodeGenerator.TablesAreExact` | misctools/unicode-generator.ts:30-91 | for any element function and equivalence, the three-stage lookup of every code point is equivalent to its element |
| `UnicodeGenerator.Generator.FileBlock` | misctools/unicode-generator.ts:68-83 | files one finished block; fails only for a digest that is new or was left at an index past 16 bits, then leaves one there, and from an empty digest map only when there are more than 256 blocks |
| `UnicodeGenerator.Generator.Generate` | misctools/unicode-generator.ts:30-91 | the loop yields the distinct elements and filed tables; from an empty digest map it throws if and only if there are more than 65536 distinct elements or 256 distinct blocks, with the error of the limit that is passed first; from any map it throws only for too many elements or with a digest left past 16 bits, and not when every block's digest is known and the elements are few enough |
| `UnicodeGenerator.OneLimitFirst` | misctools/unicode-generator.ts:50-80 | of the two limits only one is passed first |
| `UnicodeGenerator.SecondRunStoresNothing` | misctools/unicode-generator.ts:18-76 | the tables of a second run on the same digest map have an empty stage 2, so every lookup in them fails |
| `UnicodeGenerator.GenerateTwice` | misctools/unicode-generator.ts:18-91 | running one generator twice: the first run throws if and only if there are too many elements or blocks, and the second if and only if the first did; when they return, the first run's lookups are exact and the second run has the same stage 3, an empty stage 2 and no lookup that succeeds |
| `UnicodeTable.PackWord` | misctools/gen-unicode-table.ts:29-33 | a packed word has exactly the bits of its 64 entries and fits 64 bits |
| `UnicodeTable.BitsToU64Array` | misctools/gen-unicode-table.ts:26-38 | bit p%64 of word p/64 is set exactly when entry p is non-zero, padding is clear, and the words are as many as needed |
| `UnicodeTable.EmittedReadsStage2` | misctools/gen-unicode-table.ts:50-59 | the emitted shifts and masks read back the stage-2 entry of a code point |
| `UnicodeTable.PredicateCode` | misctools/gen-unicode-table.ts:41-44 | a predicate's stage-3 index is 0 where it equals its value at 0, and 1 elsewhere |
| `UnicodeTable.GenerateTable` | misctools/gen-unicode-table.ts:40-68 | the emitted lookup of every 21-bit code point tells where the predicate differs from its value at 0, so it is the predicate if and only if that value is false; generation throws if and only if there are over 256 distinct blocks |
| `LazyModules.Runtime.Invoke` | src/runtime.js:105 | the `__esm` and `__commonJS` closures run the body only while it is pending, clear that before running it, and return what the state machine returns, a replaced `module.exports` included; every run ends |
| `LazyModules.CallOnce` | src/runtime.js:105 | any call, on any graph, throwing or not, starts no body twice and only bodies reachable from the one called |
| `LazyModules.RunsAtMostOnce` | src/runtime.js:316 | from the start, one call of the root runs no body twice and only reachable ones, cycles and throws included |
| `LazyModules.SecondCallDoesNothing` | src/runtime.js:316 | calling a wrapper again runs nothing and does not throw, even when the first call threw |
| `LazyModules.ThrowsExactly` | src/runtime.js:316 | on every graph, a call from the start throws if and only if a body that throws can be reached, and the root's body ends if and only if none can |
| `LazyModules.SecondCallExactly` | src/runtime.js:316 | on every graph, the second call of a root returns; it hands over the final value of a body that has ended if no throw can be reached, and otherwise, for an ES module, `undefined`, the body not having ended |
| `LazyModules.InvokeTwice` | src/runtime.js:105 | two calls on a fresh runtime: the first throws if and only if a throw can be reached and else gives the final value; the second gives the same, or after a throw `undefined` for an ES module |
| `LazyModules.ThrowLooksLoaded` | src/runtime.js:316 | a module importing one that throws: the first call throws, later calls of either return `undefined` |
| `LazyModules.CallOrderly` | src/runtime.js:316 | on every graph, from any state whose unfinished modules are those on the call stack, a call runs code only after the imports above it are ready, throwing or not; one that returns leaves its module called, the stack as it was and no finished body with a throw |
| `LazyModules.RunsEveryReachable` | src/runtime.js:105 | on every graph, each piece of code runs after the imports above it finished, unless they wait on it around a cycle; if no throw can be reached, exactly the reachable bodies are started and finished, and the root's value is its final one |
| `LazyModules.FinishedIsFinal` | src/runtime.js:105 | once a body has ended its wrapper keeps returning its result, or for CommonJS what the body's last assignment of `module.exports` left |
| `LazyModules.AcyclicRunsInOrder` | src/runtime.js:316 | when no import cycle can be reached, throws or not, an import hands over a finished module's final value, and no code runs before the modules it imported above have finished |
| `LazyModules.HandsOverLastAssigned` | src/runtime.js:105 | on every graph, at every moment of a call from the start, throws and cycles included, each body has run its steps in turn and once, and a CommonJS module hands over what the last assignment among them left; each import gets just that |
| `ReExports.Exports.ReExport` | src/runtime.js:27-46 | the loops, in any order of the names, define exactly the missing non-default names on each target |
| `ReExports.ApplyAt` | src/runtime.js:27-46 | a call binds exactly the names it offers that were missing, and rebinds no getter |
| `ReExports.RunKeepsWellFounded` | src/runtime.js:18-46 | over any calls, each getter reads a property of lower rank |
| `ReExports.ReadsEnd` | src/runtime.js:18-20 | a read through a chain of getters ends at an original export, within as many calls as there are properties |
| `ReExports.EveryNameReadable` | src/runtime.js:18-46 | from modules with only their own exports, after any calls among any modules, cycles of `export *` included, exactly the own names can be read |
| `ReExports.ReadFollows` | src/runtime.js:18-20 | a name reads as its own value, or as whatever the object its getter is bound to has under that name |
| `ReExports.StarReads` | src/runtime.js:27-46 | after a call, a missing name it offers reads as the source's on both targets, every name that was there reads as before, and no other reads as anything |
| `ReExports.ReadsAreLive` | src/runtime.js:18-20 | a new value for an export changes exactly the reads whose chain ends at it |
| `ReExports.PresentIffOffered` | src/runtime.js:28-34 | a name is there at the end if and only if it was at the start or some call offered or defined it |
| `ReExports.FirstOfferBinds` | src/runtime.js:29-34 | a name binds to the first module that offered it |
| `ReExports.BindingStays` | src/runtime.js:30 | a bound name keeps its binding through all later calls |
| `ReExports.DefaultStaysOwn` | src/runtime.js:30 | `default` is never forwarded |
| `Disposal.Scope.Use` | src/runtime.bun.js:4-17 | by the value's two properties: `await using` pushes the async method if it can be called, throws if it is something else, and without one takes the sync method like `using`; a primitive is no object, and a nullish value leaves an entry only in `await using` |
| `Disposal.UsingPicks` | src/runtime.bun.js:4-17 | the specification pushes the method the properties pick, and refuses a value if and only if it is primitive or they pick none |
| `Disposal.Disposer.Next` | src/runtime.bun.js:24-34 | one run of `next` pops entries until one must be awaited or none is left, and the calls, awaits and errors still to come stay those of the whole stack |
| `Disposal.CallDispose` | src/runtime.bun.js:19-36 | every pattern of throws and rejections: each entry is called once, last first, exactly the async ones that did not throw are awaited, errors fold up from the body's, and a promise is returned if and only if something is awaited |
| `Disposal.DeclaredAreDisposed` | src/runtime.bun.js:4-34 | for every block's declarations, the dispose calls are the declared resources in reverse, the values awaited are those of an `await using` that is nullish or whose picked method returns, and the failures are those of the picked methods |
| `Disposal.RunBlock` | src/runtime.bun.js:4-36 | a block runs its declarations up to the first refused one and its body if there is none; leaving it disposes of exactly the resources declared, in reverse, suspends if and only if a declaration must be awaited, and throws an error that holds the refusal's or the body's and then every picked method's, or none if there is none |
| `Disposal.ChainHoldsAll` | src/runtime.bun.js:20-23 | the final error holds the body's error and every failure, oldest first, none lost |
| `Disposal.ChainLast` | src/runtime.bun.js:20-23 | each failure suppresses all that went before it |
| `Decorators.DecoratorArray.Allocate` | src/runtime.js:255-258 | a field or accessor gets two new slots at the end, any other element its shared slot with what it held |
| `Decorators.DecoratorArray.RunDecorator` | src/runtime.js:279-307 | one decorator pushes what it added while running, then its result replaces the element or is rejected, and its initializer goes to the front |
| `Decorators.DecoratorArray.DecorateElement` | src/runtime.js:246-314 | the loop from the last decorator to the first leaves the array of the whole-element specification; by the decorators' outcomes alone, an accessor's getter and setter and anything else's value are those of the first decorator in source order that gave one, a field stays, each decorator received the element its later ones left, and the call throws at the last decorator whose outcome is not allowed |
| `Decorators.DecorateMeans` | src/runtime.js:292-314 | the same of the specification, for every list of decorators |
| `Decorators.RejectedExactly` | src/runtime.js:299-306 | for each kind, which outcomes are allowed, and which error the others give |
| `Decorators.Context.AddInitializer` | src/runtime.js:238 | nothing is added once the decorator has returned, nor for what is not a function |
| `Decorators.RunInitializers` | src/runtime.js:241-245 | the slot's functions run in order, threading the value unless the low flag bit is set |
| `Decorators.FoldedInTurn` | src/runtime.js:241-245 | each function is given what the one before it returned |
| `Decorators.ApplyAllOrder` | src/runtime.js:279-307 | decorators are called last to first while their initializers end in source order and extras in call order |
| `Decorators.StoppedOrder` | src/runtime.js:279-307 | a call that throws keeps what was added up to the decorator it stopped at, that one included, and the initializers of those after it |
| `Decorators.SlotAllocation` | src/runtime.js:231-258 | over any sequence of elements, the nth field or accessor keeps slots 4+2n and 5+2n, class, static and instance extras gather in 0, 1 and 2, and slot 3 stays the metadata |
| `Decorators.DecorateClass` | src/runtime.js:246-314 | decorating a class's elements one after the other on one array leaves the array, or the throw, of the whole-class specification |
| `Decorators.InitializeField` | src/runtime.js:241-245 | on a decorated class, running initializers with the flags of the nth field or accessor threads the value through its decorators' initializers in source order, then calls its extra ones, the last decorator's first |
| `ZipSize.FindEocd` | scripts/binary-size.ts:327-334 | the backward scan stops at the last signature no further from the end than a comment can be, or finds that there is none |
| `ZipSize.ZipBinarySize` | scripts/binary-size.ts:317-350 | for any bytes and any total, every read is in bounds, the walk ends, and the answer or error is the one at the last signature |
| `ZipSize.HeaderFields` | scripts/binary-size.ts:340-348 | the offsets read are those of the APPNOTE 4.3.12 fields |
| `ZipSize.WalkEncoded` | scripts/binary-size.ts:339-349 | walking an encoded directory, followed by nothing or by bytes that are no entry, stops behind it and finds the largest size among its entries that are not directories |
| `ZipSize.LargestFile` | scripts/binary-size.ts:345-347 | an upper bound of the files' sizes that some file has, or 0 |
| `ZipSize.TailGivesLargestFile` | scripts/binary-size.ts:317-350 | a tail holding a whole encoded directory, perhaps other records, and the end record yields the largest file's size, or the no-file error, when no later signature hides in the comment |
| `ZipSize.ArchiveGivesLargestFile` | scripts/binary-size.ts:317-350 | for a whole archive and its last 64 KB: the error that the directory is not in the tail if it begins before it, and otherwise the largest file's size or the no-file error |
| `CiTimings.ParseLog` | scripts/ci-slowest-tests.ts:77-98 | each name is charged exactly the time from its headers to the next ones, and only such names appear; when the names are all different, each file has the time from its own header to the next and the last file none |
| `CiTimings.HeadersOfLines` | scripts/ci-slowest-tests.ts:82-85 | the headers of lines that all match are those lines', in their order |
| `CiTimings.OtherLinesIgnored` | scripts/ci-slowest-tests.ts:83-84 | a line that is no header changes nothing |
| `CiTimings.HeaderCharges` | scripts/ci-slowest-tests.ts:86-95 | a header more changes only the entry of the previous header's name, by the time between the two, and nothing when that name is empty |
| `CiTimings.ChargedFromOwnHeader` | scripts/ci-slowest-tests.ts:86-95 | with different names, file k is charged its next header's time less its own, and the last file nothing |
| `CiTimings.LogSpansHeaders` | scripts/ci-slowest-tests.ts:82-96 | with no empty name, the charges add up to the last header's time less the first's |
| `CiTimings.ChargesNotNegative` | scripts/ci-slowest-tests.ts:92 | timestamps that never go back charge no negative time |
| `CiTimings.ParsedSpans` | scripts/ci-slowest-tests.ts:77-98 | the entries of a parsed log with no empty name add up to its last header's time less the first's |
| `CiTimings.ParsedNotNegative` | scripts/ci-slowest-tests.ts:77-98 | a log whose timestamps never go back parses to entries that are not negative |
| `CiWorkers.MergeLog` | scripts/ci-slowest-tests.ts:124-133 | the loop over a log's entries, in any order, bumps each file's entry once |
| `CiWorkers.Board.TakeJob` | scripts/ci-slowest-tests.ts:119-120 | a worker takes the first job of the queue, or stops when there is none |
| `CiWorkers.Board.FinishJob` | scripts/ci-slowest-tests.ts:121-137 | a fetched log is merged once and a failed one skipped |
| `CiWorkers.RunKeepsRight` | scripts/ci-slowest-tests.ts:117-141 | over every interleaving, no job is lost or taken twice, totals are the finished jobs' and maxima the largest totals |
| `CiWorkers.TakenInOrder` | scripts/ci-slowest-tests.ts:116-120 | over every interleaving, what is queued is the end of the job list, so jobs are taken in its order |
| `CiWorkers.SixteenAtOnce` | scripts/ci-slowest-tests.ts:141 | never more than sixteen jobs are under way, and with fewer a queued one can be taken |
| `CiWorkers.MaxOnlyGrows` | scripts/ci-slowest-tests.ts:127-132 | merging a log never lowers a file's maximum, and names another platform only when a total of it exceeds the maximum, namely that one |
| `CiWorkers.NeverStuck` | scripts/ci-slowest-tests.ts:118-141 | while work is left some worker can step |
| `CiWorkers.CompleteRun` | scripts/ci-slowest-tests.ts:117-141 | a complete schedule takes two steps a job, finishes each job once, and its totals are the jobs' own |
| `CiWorkers.SchedulesAgree` | scripts/ci-slowest-tests.ts:117-141 | any two complete schedules agree on every total, and on the maxima when no duration is negative |
| `CiLogs.ParseJob` | scripts/ci-slowest-tests.ts:121-124 | a fetched log becomes a job with the parsed charges of its headers, a failed one a job without |
| `CiLogs.CompleteRunSpans` | scripts/ci-slowest-tests.ts:77-141 | on every complete schedule, a platform's totals over all files of the table add up to the time its logs span from first to last header |
| `CiLogs.CompleteRunMaxima` | scripts/ci-slowest-tests.ts:92-133 | with logs whose timestamps never go back, on every two complete schedules each file's maximum is the largest of its totals and the same |
| `Completions.Serialise` | misctools/generate-add-completions.ts:46-67 | for every list of names: the bytes are the count and each name's UTF-8 behind its length in code units, the announced size adds up the code units, and it throws at the first name longer than 65535 if there is one |
| `Completions.SizeExact` | misctools/generate-add-completions.ts:61-66 | the announced size is never more than the bytes, and is their number if and only if every name is ASCII |
| `Completions.Init` | misctools/generate-add-completions.ts:169-192 | on any bytes the emitted `init` reads what the format says, or traps when they run out |
| `Completions.ParseExactly` | misctools/generate-add-completions.ts:169-192 | exactly the bytes that begin with the count of a list and then hold its strings behind their lengths are read, as that list; on all others `init` traps |
| `Completions.Utf8RoundTrips` | misctools/generate-add-completions.ts:61 | a UTF-8 decoder of its own, which refuses stray, overlong and surrogate forms, reads a name's bytes as the name with each unpaired surrogate replaced by U+FFFD |
| `Completions.AsciiBytes` | misctools/generate-add-completions.ts:61 | the bytes of an ASCII name are its code units |
| `Completions.ListComesBack` | misctools/generate-add-completions.ts:55-66 | the list `init` reads from the generator's bytes decodes to the names if and only if every name is ASCII, and then holds the names' own code units |
| `Completions.GroupByLetter` | misctools/generate-add-completions.ts:24-38 | each lower-cased first character's group is its names in order, and only such groups exist |
| `Completions.SameGroup` | misctools/generate-add-completions.ts:26 | two names share a group if and only if they start with the same character up to the case of an ASCII letter, the Kelvin sign counting as a k |
| `Completions.BuildIndex` | misctools/generate-add-completions.ts:141-151 | each letter's entry has its count, at the number of names under earlier letters |
| `Completions.IndexExact` | misctools/generate-add-completions.ts:206-211 | `getPackages` gives every letter its own names if and only if the list stands by letter with letterless names last |
| `Completions.LetterNames` | misctools/generate-add-completions.ts:26 | a letter's names are those that start with it in either case, and for k also those that start with the Kelvin sign |
| `Completions.SortedIsGrouped` | misctools/generate-add-completions.ts:13-17 | a sorted list of names starting with a to z stands by letter, and its slices are the whole list |
| `Completions.ScopedNameShiftsSlices` | misctools/generate-add-completions.ts:141-151 | a scoped name sorts first and shifts a slice onto the wrong name |
| `Completions.AccentedNameIsCut` | misctools/generate-add-completions.ts:55-66 | a list of one accented letter has eight bytes, is announced with seven, and reads back as half the letter |
| `SegmentedList.LocateThenIndex` | misctools/lldb/lldb_pretty_printers.py:198-206 | exactly the indices of the list have a place: the preallocated ones their own slot, every other a box inside its shelf, from which it can be computed back |
| `SegmentedList.IndexThenLocate` | misctools/lldb/lldb_pretty_printers.py:198-206 | every box of every shelf is some index's if and only if the preallocated count is 0 or a power of two |
| `SegmentedList.LocateKeepsOrder` | misctools/lldb/lldb_pretty_printers.py:198-206 | later indices are further along the shelves |

## Left out

- Remap.IndexOfMapping: where the records a query has reached are scattered it is stated that the search stops behind one of them that is followed by one it has not reached, not which; an Int32Array whose length is not a multiple of six, which no decoder run yields, is not modelled.
- Remap.RemapPosition: the `instanceof` check is the type of the parameter.
- MappingsOrder.RunOrder: the rounding of JavaScript numbers beyond 2^53, and runs of 2^31 lines or more, longer than a string can be, are not modelled.
- EncodedLookup.LookUpEncoded: on a last line whose columns descend and whose entries not past the query are scattered, it is only stated that the search stops at one of them followed by one past the query.
- Reencoding.AcceptedTextReencodes: a text with an accumulator of 2^31 or more in a record is left out, as a wrapped field stands for no mapping.
- Decoder.MappingsDecoder.EnsureCapacity: does not model running out of memory, or the doubling overflowing at 2^30 elements.
- Completions.Init: running out of memory is not modelled, nor is the decompressor, which must fit the bytes into the announced size.
- Completions.GroupByLetter: characters outside ASCII, but for the Kelvin sign, keep their case; their groups are outside the alphabet and only count towards the size of the largest.
- LazyModules.Runtime.Invoke: top-level await, which the wrappers leave to the code around them, is not modelled.
- CiTimings.ParseLog: starts from lines already matched against the header pattern, with the name clean-up as a parameter.
- Decorators.DecoratorArray.DecorateElement: does not model property descriptors, private brands and the `access` object, which need JavaScript objects; an element is the value or pair of functions being replaced, and kind and placement come decoded from the flag bits.
- Disposal.CallDispose: resources whose `Symbol.dispose` is a throwing getter, and code that pushes onto the stack during disposal, are not modelled.
- `parseSourceMap`, `fetchMappings` and `fetchAllMappings`: shape checks, network and promises around the decoder.
- `__toESM`, `__toCommonJS`, `__export` and the legacy decorator helpers: easy members, or details of JavaScript objects.
- Compression: zstd and the temporary files around the completions list are the identity here.
- CiWorkers.SchedulesAgree: which platform is named when two tie for the maximum depends on the schedule; on each it is the first to reach it.
- Report printing of the CI script; GitHub, BuildKite and Sentry scripts; the other debugger printers.
