# Verified models of the `anti` build tool

A Dafny model of the algorithms of `anti`, the build tool of the Anti language,
that work on data structures of their own, with proofs of what each of them is
for. `dafny verify dfyconfig.toml` checks all of it.

Code that changes things step by step is modelled as methods of classes and
loops with invariants. Each method is proved against a specification function,
and the theorems are lemmas about that function:

- `Huffman`, `Deflate`, `Inflate`, `DeflateTheorems`: RFC 1951. `Deflate` writes
  down the format twice over bit strings: as the encodings of blocks, and as a
  reader. `Inflate` is the decoder of `src/anti/zip.c`, which is proved equal to
  the reader, and `DeflateTheorems` proves that the reader accepts exactly the
  encodings and gives what they stand for. `DeflateFormat` states the tables by
  the rules of RFC 1951 they follow, and gives known streams.
- `Crc`, `CrcResidue`, `Zip`, `ZipFormat`, `ZipTheorems`: the checksum and its known
  values, the writer of stored entries, the reader of the directory with its span
  check, the bytes of each record, and their round trip.
- `BuildCache`: the protocol of drop, compile and store over the modules of a
  project, with edits between builds and a process that may die between any two
  writes. A state of the machine is the project and the build directory.
- `Version`, `Deps`, `DepsSources`, `DepsTheorems`, `DepsRooted`, `DepsTangle`, `Lock`:
  the versions, the walk in rounds with picks taken back, where each pick comes
  from, and the reachability of a lock file.
- `Units`: the order of modules by their imports, and the report of a cycle.
- `BindSettle`, `BindProbe`, `BindType`, `BindTypeTheorems`, `CInt`, `BindExpr`,
  `BindExprTheorems`, `BindExprLevels`: the records a binding can hold, the search for a value the
  probe can set, the parser of C type spellings, and the evaluator of integer
  constant expressions.
- `Cursor`, `Symbols`, `SymMap`, `SymMapSpans`: the readers of numbers, the names of
  symbols, and the symbols map, written and looked up.
- `Wrap`, `DocComment`, `DocWords`: the fill of a paragraph of the formatter, and the
  doc comments it wraps, with their lists and fences, whose words it keeps.
- `Sysv`, `SysvRules`: which aggregates the System V calling convention passes in
  registers.
- `Options`, `Bits`, `Numerals`, `Marks`, `BindModel` hold what these share.

Where the code departs from what one might expect, the model follows the code:

- The unary operators of `src/anti/bindexpr.c` keep the type of their operand and
  a shift takes the common type of both, where section 6.5 of ISO C11 promotes.
- `src/anti/zip.c:186-203` looks for the end record one byte further from the end
  of the file than the longest comment puts it.
- The comment above `src/anti/deps.c:287` says that the walk picks again what is
  still required. A name of the round that only its own dependants required is
  picked again too, because its source is found before its pick goes back.
  So a settled pick need not be reachable from the manifest, and the lock file of
  such a walk is one `lock_reached` refuses. `DepsTangle` holds an index where that
  happens. `DepsRooted` says which picks break reachability, and proves that none
  does where no package depends on itself by way of others.
- The lookup of `src/anti/syms.c:930` reads the escapes of a name back that
  `src/anti/symmap.c:62` has read back already. A function whose name is an escaped
  symbol itself is answered by another name: `SymMap.DisjointReadBack` says exactly
  when, and `SymMap.NameReadTwice` shows one.
- An import of a module that was deleted is still answered by the library file it
  left behind (`src/anti/build.c:240-258`), and a library file left behind hides one
  of the same name from outside. `BuildCache.DeletedModuleStillFound` and
  `BuildCache.ShadowingFileFound` show what that does to an incremental build, and
  `BuildCache.IncrementalEqualsClean` asks that neither is so. An import that is
  nowhere to be found makes every clean build fail: `BuildCache.CleanNeedsImports`.
- The formatter is to leave its own output as it stands
  (`docs/decisions.md:1919`), but a paragraph can be filled so that a dash comes to open
  a line, and `src/anti/fmt.c:1278-1292` then takes it for an item.
  `DocComment.DocReadsBack` says exactly when a wrapped text is read as what it was, and
  `DocComment.WrappedTwiceChanges` shows one that changes when it is wrapped again.

Numbers are unbounded in the model; the widths of the code are written out where
they matter: 64 bits in `CInt`, `Cursor` and `SymMap`, the fields of 16 and 32 bits
in `Zip`, the parts that saturate in `Version`.

## Model

| member | source | states |
|---|---|---|
| Huffman.Table.Construct | src/anti/zip.c:419-445 | `construct` accepts a table of lengths exactly when Kraft's inequality holds for it, and then the table it leaves answers every canonical code |
| Huffman.LeftIsKraft | src/anti/zip.c:429-434 | the counter `left`, doubled and reduced per length, ends as 2^15 less the Kraft sum: testing it for a negative value is testing Kraft's inequality |
| Huffman.PrefixFree | src/anti/zip.c:419-445 | the canonical codes of an accepted table (section 3.2.2 of RFC 1951) are prefix-free |
| Huffman.UniqueSymbol | src/anti/zip.c:392-415 | a bit string starts with the code of at most one symbol |
| Huffman.SymbolOfRank | src/anti/zip.c:392-415 | every code number below the count of its length belongs to a symbol of that length |
| Huffman.SlotIsFree | src/anti/zip.c:435-443 | the slot `construct` files a symbol in lies in the array, and no earlier symbol has it: no slot is written twice |
| Inflate.WalkHit | src/anti/zip.c:400-411 | where the running `code`, `first` and `index` say a code ends, the index lies in `symbol`, was written, and holds the one symbol whose code the bits are |
| Inflate.DecodeMiss | src/anti/zip.c:400-414 | where fifteen lengths pass without a hit, or the input ends, no symbol's code starts the bits |
| Inflate.Inflater.Decode | src/anti/zip.c:392-415 | `decode` gives symbol s and uses k bits exactly when k is the length of s and those bits are its canonical code, and fails exactly when there is none |
| Inflate.Inflater.Need | src/anti/zip.c:377-390 | takes the next n bits, least significant first, or fails where fewer are left; fewer than 8 bits stay held, so the place read next is the byte after the one in use |
| Inflate.Inflater.Emit | src/anti/zip.c:363-370 | appends exactly when the output stays within `limit`, and never touches what was written before |
| Inflate.Inflater.CopyBack | src/anti/zip.c:491-500 | a copy that overlaps its own output repeats with the period of its distance |
| Inflate.Inflater.CopyToken | src/anti/zip.c:482-500 | a length symbol with its extra bits, distance code and bytes; a distance past the start of the entry and a copy past the limit fail |
| Inflate.Inflater.Codes | src/anti/zip.c:447-502 | a block's symbols decoded to the bytes their tokens stand for, up to the end symbol; every turn uses a bit, so it ends |
| Inflate.Inflater.Fixed | src/anti/zip.c:504-529 | a block under the code of section 3.2.6 |
| Inflate.Inflater.DynamicCodes | src/anti/zip.c:548-603 | the two tables a dynamic header announces, runs of lengths included, refused where a run has nothing to repeat or passes the total, or a table is over-subscribed |
| Inflate.Inflater.Dynamic | src/anti/zip.c:531-604 | a block under codes of its own, section 3.2.7 |
| Inflate.Inflater.Stored | src/anti/zip.c:606-625 | dropping the held bits resumes on the right byte; the complement of the length is checked and the bytes are moved |
| Inflate.Inflater.Run | src/anti/zip.c:627-653 | the block loop; its result, output and place in the input are those of the stream reader over the remaining bits |
| Inflate.InflateOnto | src/anti/zip.c:627-653 | succeeds exactly for the streams RFC 1951 gives a meaning of at most `limit` bytes, and appends exactly those bytes |
| DeflateTheorems.SymbolRead | src/anti/zip.c:392-415 | the canonical code of a symbol, read, gives the symbol and leaves what follows |
| DeflateTheorems.TokensRead | src/anti/zip.c:447-502 | the encoding of any list of literals and copies is read back as their expansion, or refused once it passes the limit |
| DeflateTheorems.TokensWritten | src/anti/zip.c:447-502 | bits a block reader accepts are the encoding of some valid list of tokens that expands to its output |
| DeflateTheorems.HeaderRead | src/anti/zip.c:531-604 | every valid dynamic header is read back as the two tables it announces |
| DeflateTheorems.HeaderWritten | src/anti/zip.c:531-604 | bits a header reader accepts are the encoding of a valid header that announces the tables it gives |
| DeflateTheorems.StreamRead | src/anti/zip.c:627-653 | every valid encoding of every list of stored, fixed and dynamic blocks is read as the expansion of the blocks, or refused once that passes the limit |
| DeflateTheorems.StreamWritten | src/anti/zip.c:627-653 | bits the reader accepts are a valid encoding of blocks that expand to its output |
| DeflateTheorems.FixedCodes | src/anti/zip.c:504-529 | the fixed code takes the whole code space and the fixed distances fit in it, so neither call of `construct` fails |
| DeflateTheorems.ReaderIsExact | src/anti/zip.c:627-653 | a byte string is a deflate stream for some bytes within the limit if and only if the reader accepts it and gives those bytes |
| DeflateTheorems.DeflateIsUnambiguous | src/anti/zip.c:627-653 | no input is a deflate stream for two outputs |
| DeflateFormat.LengthSymbols | src/anti/zip.c:450-455 | the length symbols by the rule of section 3.2.5 and not by the table: from 3 on they lie side by side, no extra bits for the first eight and then one more every four, and the last one is 258 alone |
| DeflateFormat.DistanceSymbols | src/anti/zip.c:456-462 | the distance symbols by the same rule: side by side from 1 to 32768, no extra bits for the first two and then one more every two |
| DeflateFormat.LengthsNamed | src/anti/zip.c:450-488 | a copy names exactly the lengths 3 to 258, each in one way but 258, which has two |
| DeflateFormat.DistancesNamed | src/anti/zip.c:456-494 | a copy names exactly the distances 1 to 32768, each in one way |
| DeflateFormat.CopyAppends | src/anti/zip.c:482-500 | a copy that names length n and distance d has a meaning exactly where d bytes stand, and then appends n bytes, each the one d before it |
| DeflateFormat.OrderOfLengthCodes | src/anti/zip.c:533-534 | the order of the length codes: the three runs, zero, then upwards from 8 and downwards from 7 in turn |
| DeflateFormat.LengthsSent | src/anti/zip.c:553-559 | each length sent goes to the code at its place in that order, and codes past the last one sent have none |
| DeflateFormat.CountsRead | src/anti/zip.c:543-552 | a header is refused where fewer than 14 bits stand or its counts pass 286 and 30, and else read from what stands behind them |
| DeflateFormat.HeaderLayout | src/anti/zip.c:543-559 | a dynamic header is 5, 5 and 4 bits of counts above 257, 1 and 4, three bits for each length code, and then the items |
| DeflateFormat.ItemLayout | src/anti/zip.c:563-594 | a length stands for itself; 16, 17 and 18 repeat the last length 3 to 6 times and zero 3 to 10 and 11 to 138 times, by 2, 3 and 7 bits |
| DeflateFormat.FixedCode | src/anti/zip.c:511-523 | the fixed code of every symbol is the one the table of section 3.2.6 prints: from 00110000, 110010000, 0000000 and 11000000 on |
| DeflateFormat.FixedDistance | src/anti/zip.c:524-527 | the fixed code of a distance symbol is its number in five bits |
| DeflateFormat.KnownStored | src/anti/zip.c:606-625 | the bytes 01 03 00 fc ff and any three more are a deflate stream for those three |
| DeflateFormat.KnownFixed | src/anti/zip.c:447-529 | the bytes 4b 04 02 00 are a deflate stream for `aaaa` |
| Crc.ComputeCrc32 | src/anti/zip.c:59-72 | the loop over bytes and bits computes the CRC-32 register of the reflected polynomial |
| Crc.PolynomialIsThatOfTheFormat | src/anti/zip.c:68-68 | the polynomial of the model has the value of the constant, 0xedb88320 |
| Crc.StepIsLinear | src/anti/zip.c:66-68 | a bit step of a difference is the difference of the steps |
| Crc.StepHasNoKernel | src/anti/zip.c:66-68 | only the zero register steps to zero |
| Crc.StepIsBijection | src/anti/zip.c:66-68 | every 32-bit register is the step of exactly one register |
| Crc.BurstDetected | src/anti/zip.c:59-72 | two inputs of one length that differ only within a run of at most four bytes have different checksums |
| Crc.OneWrongByteDetected | src/anti/zip.c:59-72 | changing exactly one byte of an input changes its checksum |
| CrcResidue.CrcOfNothing | src/anti/zip.c:59-72 | the checksum of no bytes is 0 |
| CrcResidue.CrcOfCrc | src/anti/zip.c:59-72 | the checksum of any bytes with their own checksum behind them, least significant byte first, is 0x2144df1c |
| CrcResidue.CrcOfZero | src/anti/zip.c:59-72 | the checksum of the one byte 0 is 0xd202ef8d |
| Zip.WriteEntries | src/anti/zip.c:87-150 | local records and directory grow side by side, each directory entry naming the offset its record stands at; refused exactly where a field cannot hold a name, a size or an offset |
| Zip.Write | src/anti/zip.c:80-171 | accepts exactly the entry lists the fields of the format hold, and writes the stored archive of them |
| Zip.FindEnd | src/anti/zip.c:186-203 | the end record nearest the end of the file, within the longest comment and the one byte more the scan takes; none exactly where there is none |
| Zip.SortSpans | src/anti/zip.c:212-218 | what `qsort` with `span_order` leaves: a permutation of the spans, sorted by start |
| Zip.CheckSpans | src/anti/zip.c:227-241 | comparing sorted neighbours succeeds exactly when all spans are pairwise disjoint |
| Zip.DisjointPermuted | src/anti/zip.c:227-241 | sorting the spans changes nothing about their disjointness |
| Zip.ReadOne | src/anti/zip.c:264-304 | one directory entry read or refused; what was read stays inside the file and the total stays the sum of the declared sizes |
| Zip.ReadEntries | src/anti/zip.c:244-306 | all entries, in order, each inside the file |
| Zip.Read | src/anti/zip.c:318-326 | succeeds exactly for a whole directory no byte of which two entries claim |
| Zip.ReadableIsSafe | src/anti/zip.c:244-306 | in every archive the reader takes, entry spans are pairwise disjoint and inside the file, and the declared sizes sum to at most 2^32 - 1 |
| Zip.Unpack | src/anti/zip.c:655-688 | unpacking succeeds exactly where stored or deflated data of the declared size and checksum stands there, and appends that data |
| Zip.WrongByteRefused | src/anti/zip.c:677-687 | an entry never unpacks to data with one wrong byte, whatever archive it comes from |
| ZipFormat.LocalLayout | src/anti/zip.c:111-123 | the record of an entry byte by byte: signature, version 20, stored, the date, the checksum, the size twice, the length of the name, lowest byte first; then the name and the data |
| ZipFormat.CentralLayout | src/anti/zip.c:124-146 | the entry of the directory byte by byte, the mode in the upper half of its attributes and the offset of the record |
| ZipFormat.EndLayout | src/anti/zip.c:157-164 | the end record byte by byte: the count twice, the length and the start of the directory |
| ZipFormat.RecordFields | src/anti/zip.c:109-147 | a record holds the name, the data, their checksum and the mode 0755 of a program or 0644 of a file |
| ZipFormat.AcceptedIs | src/anti/zip.c:86-153 | the writer takes exactly at most 65535 entries with names of at most 65535 bytes whose records and directory, 30 and 46 bytes an entry beside name and data, are less than 4 GiB each |
| ZipFormat.EndIs | src/anti/zip.c:186-203 | an end record is the bytes 50 4b 05 06 with the 22 bytes of the record inside the file and at most 65536 behind them |
| ZipFormat.ItemIs | src/anti/zip.c:264-304 | an entry is read exactly where its signature, its record and its data lie as the code asks, each field from its own offset, and its span is from the record to the end of the data |
| ZipFormat.DirectoryIs | src/anti/zip.c:255-264 | the entries are as many as the last end record counts, from where it says they start |
| ZipTheorems.WrittenIsReadable | src/anti/zip.c:80-171 | every archive the writer makes is one the reader takes, with the entries it was made of |
| ZipTheorems.RoundTrip | src/anti/zip.c:80-171 | for every entry list the writer accepts, reading gives the same names in order, and entry i unpacks to its own bytes and nothing else |
| BuildCache.BuildDir.ImportsKey | src/anti/build.c:240-258 | the key lines name the digest of exactly the library files a chain of imports leads to from the module, itself apart, and fail exactly where such a chain leads to a missing file |
| BuildCache.ClosureIs | src/anti/build.c:228-258 | those files are exactly the ones a chain of imports past the module leads to, each once; and there are none exactly where such a chain leads to a file that is missing |
| BuildCache.CompileIsWalked | src/anti/build.c:312-328 | the compiler of the theorems is given the reached files by those chains alone; the search a build makes for them finds the same |
| BuildCache.BuildDir.CacheHolds | src/anti/cache.c:49-62 | an output is held exactly when it stands and its stored key equals the new one |
| BuildCache.BuildDir.CacheDrop | src/anti/cache.c:64-71 | one write: the key is gone, and the output stays |
| BuildCache.BuildDir.CacheStore | src/anti/cache.c:73-82 | two writes: the file of the key stands torn, and then with the whole key; the process may die before either |
| BuildCache.BuildDir.WriteKey | src/anti/build.c:329-332 | the key of the output that stands, from the imports it names, and no write where one of them is missing |
| BuildCache.BuildDir.DriverRun | src/anti/build.c:326-328 | a compile that writes part of its output and then all of it, or fails with any part left; the process may die between |
| BuildCache.BuildDir.Rebuild | src/anti/build.c:325-332 | drop, compile and store happen in that order, cut short after any of them |
| BuildCache.BuildDir.ModuleLibrary | src/anti/build.c:280-337 | a held module is left alone; another is rebuilt, its key computed after the compile, from the file it wrote |
| BuildCache.BuildDir.BuildTarget | src/anti/build.c:1414-1426 | the modules in the order of their imports, stopping at the first failure or where the process dies |
| BuildCache.CompiledIsJustified | src/anti/build.c:280-337 | the key stored after a compile names exactly the source, options and imports the output was compiled from |
| BuildCache.HoldingIsCompile | src/anti/build.c:280-337 | where the key holds, the output that stands is what the compiler would write now |
| BuildCache.PlanKeepsTruth | src/anti/build.c:280-337 | a build of one module that dies after any of its writes leaves no key that lies |
| BuildCache.BuildKeepsTruth | src/anti/build.c:1414-1426 | so does a whole build that dies after any number of writes |
| BuildCache.KeysAreTruthful | src/anti/build.c:1414-1426 | after any history of edits, builds and builds cut short, a stored key implies that the output is the compile of the inputs it names |
| BuildCache.PlanBuilds | src/anti/build.c:280-337 | from any truthful directory one module builds exactly when it compiles, and only its own output changes |
| BuildCache.BuildIsClean | src/anti/build.c:1414-1426 | from any truthful directory, a build not cut short succeeds exactly when a clean one does and leaves its library files |
| BuildCache.IncrementalEqualsClean | src/anti/build.c:1414-1426 | after any history, a build that runs to its end and a build from an empty directory end alike, and where they succeed every library file of the project has the same bytes; what the compiler reads is stated by chains of imports, apart from how a key is made |
| BuildCache.IncrementalAfterClean | src/anti/build.c:1414-1426 | where a build from an empty directory succeeds, a build after any history that runs to its end succeeds with the same bytes, whatever the modules import, themselves included |
| BuildCache.CleanNeedsImports | src/anti/build.c:240-258 | a build from an empty directory never succeeds where a module imports what is neither an earlier module nor a library file from outside |
| BuildCache.DeletedModuleStillFound | src/anti/build.c:240-258 | a counterexample that shows why every import must exist: a library file left by a deleted module lets an incremental build succeed where a clean one fails |
| BuildCache.ShadowingFileFound | src/anti/build.c:240-258 | a counterexample that shows why none may be hidden: a library file left by a module that now comes from outside lets an incremental build fail where a clean one succeeds |
| Version.VersionPart | src/anti/deps.c:44-61 | one part of a version is the number of its digits, cut off above the largest part, and the cursor stands behind it and its dot |
| Version.Compare | src/anti/deps.c:63-75 | the sign is that of the lexicographic order of the three numbers, parts left out being zero |
| Version.VersionValid | src/anti/manifest.c:107-130 | the loop accepts exactly the strings of the grammar reader |
| Version.ValidExactly | src/anti/manifest.c:107-130 | which are exactly one to three groups of one to nine digits joined by dots |
| Version.PartsAreNumbers | src/anti/deps.c:44-61 | no part of a valid version saturates |
| Version.NextMajorIs | src/anti/deps.c:79-85 | the upper bound of a bare constraint is the next major version exactly, the ten digits of the largest one included |
| Version.DepsSatisfies | src/anti/deps.c:97-122 | no constraint takes every valid version, an invalid version or constraint takes none |
| Version.ConstraintMeans | src/anti/deps.c:97-122 | `=` takes the versions with the same numbers, `>=` those not below, a bare version those of its major version not below it |
| Deps.Resolver.Require | src/anti/deps.c:235-262 | a requirement with the same name, constraint and origin is not added twice; anything else is appended |
| Deps.Resolver.GraphRemove | src/anti/deps.c:265-278 | exactly the pick of that name is removed, the order of the rest kept |
| Deps.Resolver.DropRequirements | src/anti/deps.c:300-315 | the compacting loop removes exactly the requirements of one package and queues the picks they were on |
| Deps.Resolver.Unpick | src/anti/deps.c:287-319 | removes exactly the picks the name reaches along requirements of picked packages, and every requirement they made |
| Deps.UnpickedIs | src/anti/deps.c:287-319 | the worklist ends for every requirement graph, cycles included, with that result |
| Deps.StayingKeepsRequirements | src/anti/deps.c:287-319 | a pick that stays keeps every requirement on it |
| Deps.Resolver.AllSatisfied | src/anti/deps.c:322-335 | true exactly when the version satisfies every requirement on the name |
| Deps.Resolver.FindSource | src/anti/deps.c:796-814 | the first requirement with a path or a repository, else the first one |
| DepsSources.SourceIs | src/anti/deps.c:796-814 | no requirement on the name, no source; where one names a path or a repository, the first such, however late it came, and else the first of all |
| DepsSources.FromIndexIs | src/anti/deps.c:658-720 | one repository answers exactly where its index can be read as the code asks, and gives a version exactly where it holds one that every constraint takes |
| DepsSources.UnnamedPick | src/anti/deps.c:742-788 | a package that names no source is picked exactly where every repository of the manifest answers and one alone holds it, and then from there |
| DepsSources.NamedPick | src/anti/deps.c:733-741 | one that names a repository is picked exactly where that one answers and holds it |
| DepsSources.PathPick | src/anti/deps.c:429-516 | one that names a path is picked exactly where the project there is in order and its version satisfies every constraint, a repository beside it ignored |
| DepsSources.UnclearManifest | src/anti/deps.c:748-767 | where two repositories hold what a manifest asks for without a source, or one gives no answer, the walk fails |
| Deps.Resolver.BestVersion | src/anti/deps.c:536-572 | fails exactly where the index names a string that is no version; else the first of the highest versions that are not yanked and satisfy every requirement |
| Deps.BestIsHighest | src/anti/deps.c:536-572 | that version answers, none that answers is above it, and none that equals it comes first |
| Deps.Resolver.ResolveFromIndex | src/anti/deps.c:658-720 | the pick of one repository, with the requirements of its version added |
| Deps.Resolver.ResolveFromRepo | src/anti/deps.c:724-792 | the named repository, or the one of the manifest that holds the package; two that hold it are an error, and one that gives no answer is |
| Deps.Resolver.ResolveFromPath | src/anti/deps.c:429-516 | the package at a path, with the requirements of its manifest added |
| Deps.Resolver.PickAnew | src/anti/deps.c:851-870 | a new pick of a name, from its source, its old one and what hung on it taken back first |
| Deps.Resolver.WalkRound | src/anti/deps.c:821-877 | one round over the names required when it starts, with what it changed |
| Deps.Resolver.RecordNeeds | src/anti/deps.c:896-910 | every pick is given the packages its requirements are on, each once |
| Deps.Resolver.Resolve | src/anti/deps.c:1315-1345 | rounds until one changes nothing, a failure where one fails or 64 of them all change something; then the needs are recorded |
| DepsTheorems.RoundsSound | src/anti/deps.c:821-877 | after any number of rounds that do not fail, settled or not, every requirement comes from the manifest or a picked package, and every pick has required all that its version depends on |
| DepsTheorems.QuietIffSettled | src/anti/deps.c:821-877 | a round reports no change exactly when every required package has a pick that satisfies every constraint on it |
| DepsTheorems.ResolutionIsClosed | src/anti/deps.c:1326-1340 | in a settled walk everything the version of a pick depends on stands in the graph with a version the constraint takes |
| DepsTheorems.ManifestIsAnswered | src/anti/deps.c:1315-1345 | every dependency of the manifest stands in it, with a version its constraint takes |
| DepsTheorems.NeedsStand | src/anti/deps.c:896-910 | the needs recorded for a pick are exactly the packages its requirements are on, and all stand in the graph |
| DepsTheorems.RootedIffRequiredElsewhere | src/anti/deps.c:851-870 | where a pick goes back and another is made, every pick stays reachable from the manifest exactly when something the package does not itself reach requires it |
| DepsTheorems.RepickRemakes | src/anti/deps.c:863-868 | making the pick of a name anew, where one stands, is such a step |
| DepsRooted.VisitRootedIff | src/anti/deps.c:843-871 | one name of a round, the first pick of it included: the picks stay reachable from the manifest exactly when something the package does not itself reach requires it |
| DepsRooted.AcyclicIsRooted | src/anti/deps.c:1315-1345 | for every index in which no package depends on itself by way of others, every pick of a settled walk is reachable from the manifest |
| DepsRooted.RootedIffLockReached | src/anti/deps.c:1128-1164 | after every settled walk, the picks are all reachable exactly when `lock_reached` finds every package of the recorded graph reached |
| DepsRooted.AcyclicLockIsReached | src/anti/deps.c:1128-1164 | so for an index without such cycles the check of the lock file takes the graph the walk records |
| DepsTangle.SettledButUnreached | src/anti/deps.c:821-877 | an index and a manifest for which the walk settles in the sixth round with a pick the manifest does not reach |
| DepsTangle.TangleLockUnreached | src/anti/deps.c:1128-1164 | and the graph recorded for them is one `lock_reached` refuses |
| Lock.MarkNeeds | src/anti/deps.c:1144-1157 | a pass that marks nothing leaves the marking closed under needs, and every mark is earned |
| Lock.Saturate | src/anti/deps.c:1137-1158 | the saturation loop ends, for cycles too, with the closed marking of what is reached |
| Lock.LockReached | src/anti/deps.c:1128-1164 | true exactly when every package of the lock is reachable from the dependencies of the manifest along `needs`, dangling names included |
| Units.UnitWaiting | src/anti/units.c:195-207 | the unit of that path not yet placed, the importer itself apart, or the count where there is none |
| Units.PlaceReady | src/anti/units.c:257-274 | a pass places units only behind all they import; where it places none, every unit left waits for another unit left |
| Units.ReportCycle | src/anti/units.c:212-246 | the reported walk ends within the count of units and prints a genuine cycle of units that were not placed |
| Units.UnitOrder | src/anti/units.c:248-289 | the order is always a permutation; the result is true exactly when the import graph without self-edges is acyclic, and then every imported unit precedes its importer |
| Units.OrderedIsAcyclic | src/anti/units.c:248-289 | an order that puts imports first leaves room for no cycle |
| BindSettle.SpellGrows | src/anti/bindwrite.c:92-144 | a type that spells where some records are bound spells where more are, as a field, a parameter or a result |
| BindSettle.StableJoin | src/anti/bindwrite.c:177-187 | two sets of records that each may be held together may be held together at once |
| BindSettle.GreatestIsUnique | src/anti/bindwrite.c:177-187 | there is one greatest set, whatever the order of the declarations |
| BindSettle.SpellsWhereKept | src/anti/bindwrite.c:92-144 | a field has a form exactly where, through arrays of positive length, it is a number, an enumeration, `bool`, a pointer or a bound record |
| BindSettle.GreatestKeeps | src/anti/bindwrite.c:171-187 | a record is in the greatest set exactly where it is complete, has fields and each of them is one of those |
| BindSettle.LeftOutHasReason | src/anti/bindwrite.c:188-200 | a complete record with fields that is left out has a field without a form |
| BindSettle.Module.RecordFieldsSpell | src/anti/bindwrite.c:146-162 | true exactly when every field is of those kinds, else the first that is not |
| BindSettle.Module.LeaveOut | src/anti/bindwrite.c:177-187 | a pass lowers only flags no stable set could keep, and one that lowers none leaves a stable set |
| BindSettle.Module.Settle | src/anti/bindwrite.c:171-200 | the flags end as the greatest set; a record is bound exactly where it is complete and has fields that hold, by value and through arrays of positive length, only numbers, enumerations, `bool`, pointers and bound records; each other complete record is warned about with its first field that does not |
| BindProbe.Setting.SettableRecord | src/anti/bindwrite.c:625-654 | on success the texts name a settable leaf of the record; on failure both path texts stand as they were; no record is entered twice |
| BindProbe.Setting.SettableField | src/anti/bindwrite.c:634-650 | one field tried, its name cut off again where it leads to nothing |
| BindProbe.Setting.Settable | src/anti/bindwrite.c:657-702 | the first settable value of a type, arrays by their first element, with the path to it |
| BindProbe.DeadIsUnreachable | src/anti/bindwrite.c:608-619 | records marked empty while their ancestors were on the path hide nothing: nothing leads out of a closed set of dead records to a value |
| BindProbe.TooDeep | src/anti/bindwrite.c:630-633 | where no chain of distinct records is deeper than the walk goes, the depth bound stops it only at records on the path |
| BindProbe.LeafIs | src/anti/bindwrite.c:663-690 | what has a value of its own: a number but no signed bitfield of one bit, `bool`, and an enumeration with a value that is not zero, by the first of them; nothing else |
| BindProbe.FirstValue | src/anti/bindwrite.c:749-760 | where no chain of records, each holding the next by value, is longer than RECORD_DEPTH, a value is found exactly when one is reachable by value through named fields; and without that bound, what is found is such a value, and the texts name it; of records none of which holds itself it is the first in the order of the fields |
| BindType.TypeParser.Deeper | src/anti/bindtype.c:90-97 | one level more, or a refusal at TYPE_DEPTH that changes nothing |
| BindType.TypeParser.FindGroupEnd | src/anti/bindtype.c:462-481 | the loop finds what the recursive count of parentheses gives |
| BindType.TypeParser.Declarator | src/anti/bindtype.c:483-531 | pointers and qualifiers, then a group or suffixes, the count of levels restored on success |
| BindType.TypeParser.GroupedDeclarator | src/anti/bindtype.c:499-527 | the suffixes behind a group are read first, and the inside of the group then from their type |
| BindType.TypeParser.Suffixes | src/anti/bindtype.c:415-457 | array and function suffixes, built from the last one inwards |
| BindType.TypeParser.FunctionOf | src/anti/bindtype.c:360-411 | a parameter list of at most 64, `...` at its end only, the lone `void` taking none; one level while it is read |
| BindType.TypeParser.Parameters | src/anti/bindtype.c:377-401 | the parameters of a list and whether it is open |
| BindType.TypeParser.BindParseType | src/anti/bindtype.c:545-567 | the type of a whole spelling or none; the count of levels stands where it stood after success and failure alike |
| BindTypeTheorems.PassDecl | src/anti/bindtype.c:462-481 | the search for the end of a group passes over any well-formed declarator, so it stops at the matching parenthesis |
| BindTypeTheorems.ReadSpelling | src/anti/bindtype.c:545-567 | every type name C declarator syntax builds (section 6.7.7 of ISO C11) parses to its type exactly where it nests within the bound and no list is too long |
| BindTypeTheorems.WordsExist | src/anti/bindtype.c:200-348 | base types the header names have words the specifiers read back, all at once |
| BindTypeTheorems.NamedIs | src/anti/bindtype.c:483-531 | every type C has, of base types the header names, has such a type name |
| BindTypeTheorems.RoundTrip | src/anti/bindtype.c:545-567 | so the spelling of every such type parses back to that type, exactly within those bounds |
| BindTypeTheorems.QualifiersHere | src/anti/bindtype.c:489-497 | any qualifiers behind a star are passed over |
| BindTypeTheorems.EmptyList | src/anti/bindtype.c:372-376 | an empty list takes no parameters, closed |
| CInt.NarrowMeans | src/anti/bindexpr.c:114-134 | narrowing leaves the number reduced to two's complement at the width of the type |
| CInt.ReducedIsUnique | src/anti/bindexpr.c:95-134 | the reduction is the one number of the type equal to the number modulo 2^width |
| CInt.ArithmeticWraps | src/anti/bindexpr.c:524-568 | + - and * are the mathematical results reduced to the width of the type |
| CInt.DivisionTruncates | src/anti/bindexpr.c:530-541 | / and % fail exactly for a zero divisor and the one quotient 64 bits do not hold; else they truncate toward zero, reduced to the width |
| CInt.QuotientIs | src/anti/bindexpr.c:536-540 | truncating quotient and remainder rebuild the dividend, the remainder smaller than the divisor and with the dividend's sign |
| CInt.LeftShiftMultiplies | src/anti/bindexpr.c:544-550 | << has a value exactly for a count from 0 to 63, the product with a power of two reduced to the width |
| CInt.RightShiftFloors | src/anti/bindexpr.c:551-560 | >> has a value for the same counts, division by a power of two rounded down, of negative values too |
| CInt.BitwiseByBit | src/anti/bindexpr.c:561-567 | & ^ and the inclusive or work on every bit by itself, and stay within the type |
| BindExpr.LiteralMeansItself | src/anti/bindexpr.c:149-226 | an integer literal below 2^64 stands for its own number, in a type that holds it |
| BindExpr.ConvertedMeans | src/anti/bindexpr.c:313-334 | a cast keeps the number, reduced to the width of its type |
| BindExpr.ApplyMeans | src/anti/bindexpr.c:495-568 | + - and * of two values are the results of mathematics on the numbers they stand for, reduced to the width of the common type |
| BindExpr.ApplyDivides | src/anti/bindexpr.c:505-541 | / and % of two values, taken to the common type, fail exactly for a zero divisor and the one quotient 64 bits do not hold, and else truncate toward zero, reduced to the width |
| BindExpr.ApplyShifts | src/anti/bindexpr.c:505-560 | shifts of two values fail exactly for a count in the common type below 0 or above 63; else the product with a power of two reduced to the width, and the quotient rounded down |
| BindExpr.ApplyBitwise | src/anti/bindexpr.c:505-567 | & ^ and the inclusive or work bit by bit on the numbers in the common type, and the result is a number of that type |
| BindExpr.PrefixedMeans | src/anti/bindexpr.c:432-465 | a prefix operator keeps the type of its operand, negation and complement being reduced to it |
| BindExpr.Evaluator.Primary | src/anti/bindexpr.c:338-415 | a literal, a name or a parenthesised expression at the cursor, or a failure; levels balanced |
| BindExpr.Evaluator.Unary | src/anti/bindexpr.c:432-465 | prefix operators and casts, one level each; levels balanced |
| BindExpr.Evaluator.Binary | src/anti/bindexpr.c:573-600 | one precedence level, operators grouped from the left; levels balanced |
| BindExpr.Evaluator.BindEval | src/anti/bindexpr.c:607-625 | the value of the whole text, or none where it fails or something is left over; levels balanced |
| BindExprTheorems.RoundTrip | src/anti/bindexpr.c:338-625 | the minimally parenthesised text of every tree over six levels, prefix operators, casts, names and literals evaluates to the value of the tree, exactly where it nests within EVAL_DEPTH |
| BindExprLevels.LevelsOfC | src/anti/bindexpr.c:575-578 | one operator binds tighter than another exactly where sections 6.5.5 to 6.5.12 of ISO C11 list it before |
| BindExprLevels.Grouped | src/anti/bindexpr.c:573-600 | for any operands x, y and z and operators f and g, `x f y g z` has the value of `x f (y g z)` where C has g bind tighter than f, and else of `(x f y) g z` |
| BindExprLevels.PrefixedOperand | src/anti/bindexpr.c:432-465 | a sign or a complement before any operand is minus its number, its number or -1 less it, reduced to the type of the operand |
| BindExprLevels.CastOperand | src/anti/bindexpr.c:360-376 | a cast before any operand is its number reduced to the type of the cast |
| BindExprLevels.CommonIs | src/anti/bindexpr.c:469-493 | of two types the one further on in int, unsigned, long, unsigned long, long long, unsigned long long is the common one, all others counting as int |
| BindExprLevels.LiteralType | src/anti/bindexpr.c:183-223 | the type of every literal by its number, its base and its suffix |
| BindExprLevels.TypeRanges | src/anti/bindexpr.c:95-134 | the numbers each type holds |
| Cursor.OverflowCheck | src/anti/cursor.c:40-43 | the check before each digit is true exactly where the next value would pass 2^64 - 1 |
| Cursor.Reader.Blank | src/anti/cursor.c:10-18 | passes over the blanks and says whether there was one |
| Cursor.Reader.Number | src/anti/cursor.c:34-49 | the exact number of the digits at the cursor, or a refusal exactly where there is none or it is above 2^64 - 1 |
| Cursor.Reader.Hex | src/anti/cursor.c:51-58 | the same in base 16, past a `0x` that stands before more |
| Cursor.Reader.Char | src/anti/cursor.c:60-67 | moves on exactly where the wanted character stands |
| SymMap.SymmapWrite | src/anti/symmap.c:201-227 | the comments of the format, then a line for each function: its range, its name and, where it has one, its file and line |
| SymMap.IsLocationText | src/anti/syms.c:866-874 | a location is a word that ends in a colon and digits, with something before |
| SymMap.LookupOne | src/anti/syms.c:892-935 | one line: comments and lines without a range are passed over, a range of one address included |
| SymMap.MapLookup | src/anti/syms.c:885-939 | the first line whose range holds the address, its name apart from its location and with the escapes of a symbol read back |
| SymMap.LineReadBack | src/anti/symmap.c:215-227 | a written line gives its name and location for the addresses of its range, and nothing for any other |
| SymMap.HeaderComments | src/anti/symmap.c:201-214 | the lines before the functions are comments for every format |
| SymMap.MapReadBack | src/anti/symmap.c:201-227 | in a written map, the line found for an address is that of the first function whose range holds it |
| SymMap.NoneHolds | src/anti/syms.c:885-939 | it has no answer exactly where no range holds it |
| SymMap.DisjointReadBack | src/anti/syms.c:885-939 | with sorted, disjoint ranges the answer is the one function that holds the address, with its file and line, and with the name that was written exactly where that name is no escaped symbol itself |
| SymMap.NameReadTwice | src/anti/syms.c:930-930 | a function named `a.b$3c` is answered as `a.b<`, because the map holds its name already read back |
| SymMapSpans.AnswerOf | src/anti/syms.c:885-939 | a written map whose functions lie apart answers an address with the function whose size, or else whose way to the next function, holds it, and with its file and line; and not at all exactly where there is none |
| SymMapSpans.LineForm | src/anti/symmap.c:215-226 | a line is sixteen small digits, a dash, sixteen more, a blank, the name, and a blank with the file and line where there is one |
| SymMapSpans.DigitsSpelled | src/anti/cursor.c:20-32 | a character is a digit of a base exactly where it stands among the digits of that base, and is worth its place there |
| Symbols.SymbolUnescape | src/rt/symbols.c:62-101 | the loop takes exactly the symbols made of plain bytes and escapes, with an escape and a dot in them |
| Symbols.ReadableName | src/anti/symmap.c:38-46 | the name such a symbol spells, and any other text as it is |
| Symbols.ReadsAsItself | src/anti/symmap.c:38-46 | a text reads as itself exactly where it is no escaped symbol |
| Symbols.EscapedReadsBack | src/antic/target.c:92-105 | the symbol of every name with a dot reads back as the name |
| Symbols.EscapedIsInjective | src/antic/target.c:92-105 | two names never have one symbol |
| Symbols.UnescapedIs | src/rt/symbols.c:62-101 | a symbol is read exactly as the one name it is the symbol of, and only where it holds an escape and a dot |
| Symbols.ByteEscaped | src/antic/target.c:92-105 | letters, digits, `_` and `.` stand for themselves, and every other byte is a `$` and its two small digits in base 16 |
| Symbols.ReadTwice | src/anti/symmap.c:38-46 | reading a symbol twice is not reading it once |
| Wrap.ColumnsOf | src/anti/fmt.c:1159-1172 | the columns of a text count the first byte of each character |
| Wrap.WrapParagraph | src/anti/fmt.c:1176-1218 | the loop writes the greedy fill of the words of the body, and those words in order |
| Wrap.LineEndIsFurthest | src/anti/fmt.c:1198-1212 | every line fits the columns or holds one word, and no line that fits goes further |
| Wrap.GreedyBreaks | src/anti/fmt.c:1176-1218 | the lines are a legal breaking of the words, none lost |
| Wrap.GreedyIsShortest | src/anti/fmt.c:1176-1218 | no other legal breaking of the same words uses fewer lines |
| Wrap.FilledIsRendered | src/anti/fmt.c:1176-1218 | what the word-by-word loop writes is the lines of that breaking, each behind its prefix |
| Wrap.WordsReadBack | src/anti/fmt.c:1176-1218 | the text of a wrapped paragraph, its lines joined without their prefixes, holds the words it was made of |
| Wrap.WrapIsFixpoint | src/anti/fmt.c:1176-1218 | reading the text of a wrapped paragraph back and wrapping it again gives the same text |
| DocWords.CharacterColumns | src/anti/fmt.c:1159-1172 | a character takes one column however many bytes it has, a tab four |
| DocWords.JoinedColumns | src/anti/fmt.c:1198-1212 | the columns the fill counts are those of the line it writes |
| DocWords.LinesWithin | src/anti/fmt.c:1176-1218 | no line of a paragraph passes the columns unless it holds one word |
| DocComment.Gather | src/anti/fmt.c:1293-1317 | the lines that carry a paragraph on, put behind its first with a blank each, up to the first that does not |
| DocComment.WrapDoc | src/anti/fmt.c:1242-1323 | the loop over the text writes the blocks of its lines, fenced, blank and too far indented lines as they stand and every paragraph filled |
| DocComment.ParagraphIsText | src/anti/fmt.c:1318-1319 | the lines of a filled paragraph, joined, are the text the fill writes |
| DocComment.BlockReadBack | src/anti/fmt.c:1266-1317 | a written paragraph reads back as itself exactly where none of its lines opens a fence or an item of its own, whatever stands behind it that does not carry it on |
| DocComment.TextReadsBack | src/anti/fmt.c:1242-1323 | the lines written for a text read back as the same blocks exactly where no wrapped line opens a fence or an item of its own |
| DocComment.DocReadsBack | src/anti/fmt.c:1242-1323 | the same of the text: its lines, blocks and words come back exactly under that condition |
| DocComment.WrapDocIsFixpoint | src/anti/fmt.c:1242-1323 | under that condition wrapping a wrapped text changes nothing |
| DocComment.WrappedTwiceChanges | src/anti/fmt.c:1242-1323 | a concrete text, a dash on a line of its own before a word, that a second wrapping changes at every width of five columns or more |
| DocWords.WordsKept | src/anti/fmt.c:1242-1323 | wrapping keeps every word of every text, in order, at every width |
| DocWords.DocWordsKept | src/anti/fmt.c:1242-1323 | the same of the text that is written |
| DocWords.FencedStands | src/anti/fmt.c:1266-1276 | the lines from the one behind a fence to the next fence stand as they are |
| DocWords.CarriesOn | src/anti/fmt.c:1293-1317 | a line carries the paragraph above it on exactly where it stands at the indent of its text and is not blank, a fence or an item |
| Sysv.ClassOf | src/antic/abi.c:110-131 | an eightbyte is INTEGER where an integer lies in it, else SSE, by the floats it holds |
| Sysv.SysvWords | src/antic/abi.c:97-136 | the eightbytes of an aggregate of 1 to 16 bytes and how many registers of each class they need, none for class MEMORY |
| SysvRules.WordOfEightbyte | src/antic/abi.c:110-132 | the word of an eightbyte by the members that lie in it: an integer where one does, else a double, else two floats or one, else none |
| Sysv.TakeAllCounts | src/antic/abi.c:97-136 | taking registers one eightbyte at a time succeeds exactly where each class has as many left as the aggregate needs |
| Sysv.CheckIsSearch | src/antic/abi.c:178-182 | the comparison of counters that may have run past the registers decides the same, a class that needs none included |
| Sysv.ClassifyOne | src/antic/abi.c:165-187 | one parameter passed as the register file passes it; an aggregate sent to the stack takes no register |
| Sysv.Classify | src/antic/abi.c:146-188 | every parameter list is passed as the file of six integer and eight vector registers passes it from the left, a pointer to a returned aggregate first (section 3.2.3 of the System V AMD64 psABI) |
| SysvRules.PassedAll | src/antic/abi.c:146-188 | in every list an aggregate goes in registers exactly where it has 1 to 16 bytes, each field on its alignment, and each class it needs has enough of the 6 or 8 registers left by all before it |
| SysvRules.InRegisters | src/antic/abi.c:106-136 | so none above 16 bytes does, and one that does takes at most two words, which cover every member |

## Left out

- Files, processes, messages and memory: the names, bytes and texts these algorithms work on are parameters, a map from names to bytes stands for the build directory, and an allocation never fails.
- The compiler, the digests, the reader of library headers, the TOML reader, the lexers and the readers of ELF and Mach-O programs are functions given to the model, not models of that code.
- BuildCache.IncrementalEqualsClean: assumes what the protocol rests on. The compiler is a function of the source, the options and the library files the module reaches. The digest is injective. Removing a key succeeds, and a key cut short is the key of nothing. No library file left behind hides one from outside. Every import names a module of the project that stands earlier, the module itself or a library file from outside; `BuildCache.IncrementalAfterClean` does without that where a clean build succeeds.
- BuildCache.BuildDir.CacheStore: keeps a key as a record of its lines rather than their text, and takes a text cut short to be no key. A text cut exactly at the end of a line could be the key of a project with fewer options or library files; that is not modelled.
- BuildCache.BuildDir.BuildTarget: ends where the library files are written. The keys of objects and programs (`object_compile`, `program_reuse`, `program_store`) and the memo of archive digests repeat the same protocol.
- Deps.Resolver.Resolve: begins where the lock file does not answer. Reading and writing the lock file, fetching, and the text of what fails are not part of the model, nor is the graph a failed walk leaves.
- Deps.Resolver.ResolveFromIndex: takes an index as a list of versions with their dependencies; whether the module paths and digests of a version are in order is one flag of it.
- Deps.Resolver.ResolveFromPath: takes the manifest at a path as a function of the path, folding into it the headers read there, modules found twice and the joining of paths.
- Zip.SortSpans: sorts by insertion in place of `qsort`, of which the code uses only that the result is sorted and a permutation.
- Units.UnitOrder: models a unit as its path and imports.
- BindSettle.Module.Settle: settles the records. The flags of functions and constants, one look each at what has settled, are left out, and texts are values rather than buffers.
- BindType.TypeParser.BindParseType: starts from tokens. Which runs of words name a base type is a function of the words, in place of the tables of `builtin` and of the names of the binding.
- BindExpr.Evaluator.BindEval: is the integer fragment, from tokens on: no floats, no strings, no enum types. A cast is one token, and the look-up of a name is a function.
- BindProbe.FirstValue: is the search itself, not the program that the probe writes around it.
- SymMap.SymmapWrite: takes the functions of a program already sorted; reading and sorting them is not part of the model.
- The symbols of COFF, which write the path of a module with lengths in it, are left out.
- DocComment.WrapDocIsFixpoint: holds one way. A wrapped line that opens an item in the middle of a paragraph may still be wrapped to the same text, although it is read as another block; which texts those are depends on what stands behind them.
- DocComment.WrapDoc: is the text between the markers of a comment. The gutters and markers that `emit_doc` takes off and puts back are left out.
- Sysv.Classify: gives the class of each parameter. The LLVM type strings of scalars and vectors, and the conventions of AAPCS64 and Windows, are left out.
- The rest of the formatter, the commands and the JSON of headers (`src/anti/bindclang.c`, `src/anti/bindapi.c`) are layout tables and plumbing.
