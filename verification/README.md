# Verified models of the hard cores of `util`

A Dafny 4.11 project that models parts of the `util` library and proves what they are for;
`dafny verify dfyconfig.toml` covers the whole project.

| files | what they model |
|---|---|
| `SafePtrWords`, `SafePtr`, `SafePtrSteps`, `SafePtrRuns`, `SafePtrReclaim`, `SafePtrStore` | counted pointers (TObj, TMObj, TPtr) that share two packed words per object, as a machine of small steps with a stack of destructions under way, and as a class that runs it |
| `FtsTour`, `FtsShape`, `FtsStep`, `FtsSkip`, `FtsLimit`, `FtsMemory`, `FtsRoots`, `FtsStream` | the `fts` tree walk: the recursive walk, what it delivers, one read on values, skipped nodes, the level limit of `TDirIterator`, the linked nodes, and the class that allocates and frees them |
| `Utf8`, `Utf8Text`, `Utf8Scan`, `Utf8Case`, `Utf16`, `Utf16Recode`, `Utf16Case` | UTF-8 and UTF-16: readers, writers, validators, conversion both ways, case conversion in a growing buffer and in place |
| `City`, `CityKnown`, `CityStream` | CityHash64, its known answers, and its streaming form |
| `Calendar`, `CivilTime`, `CivilKnown` | `GmTimeR` and `TimeGM` against a calendar that counts days |
| `SaveLoad`, `SaveFormat`, `SaveLoadStream` | binary serialization of nested types, and its bytes written out |
| `PathAlgebra`, `PathText`, `PathSplit`, `ResolvePath` | path normalization, joining, and the component loop of `resolvepath` |
| `IntHash`, `AsciiScan` | integer hashes and hashes of ranges; word-at-a-time ASCII detection |

How the main results fit together:

- **Counted pointers.** A program may create, assign and drop pointers anywhere, also among the contents
  of an object being destroyed. `SafePtr.StepKeeps` shows that a step keeps the invariant exactly if it
  does not point at an object whose deletion is under way, and `SafePtrRuns.RunKeepsInv` lifts this to
  runs; the other `SafePtrRuns` lemmas read off what holds in every state of such a run, including in the
  middle of a destruction. That no state is unsafe to act on is proved, not assumed.
  `SafePtrSteps.LettingGoStarts` tells what a release starts by the pointers that are left, for all three
  kinds.
  `SafePtrReclaim.ReclaimedUnlessCyclic` is an equivalence: what is left when the program has let go is
  empty exactly if no cycle of TObj pointers is left.
- **Tree walk.** `FtsTour.Tour` is the walk one would write recursively. `FtsStep.StepDelivers` shows that
  one read delivers the next event of it, and `FtsStream.Stream.Read` that the linked nodes do what the
  step on values does. `FtsShape.WalkShows`, `WalkTells` and `WalkHasNoDots` say what the events are, by
  the answers of the file system alone. Closing after any prefix of reads and skips frees every node once.
- **Text.** `Utf8.CharLen` is the grammar of section 4 of RFC 3629, written without reference to the code.
  Readers, validators, writers and converters are all measured against it.
- **Time.** `Calendar.Denotes` is the calendar counted year by year and month by month; both paths of
  `GmTimeR` and `TimeGM` are proved against it, and it determines the fields uniquely.

Integers of the source that may wrap around are modelled with explicit wrap-around or as machine words;
where the source would overflow a signed type, the bound is a precondition. Bit masks that are written
as quotients and remainders are shown equal to the masks on bit vectors (`SafePtrWords.CountMasks`,
`Utf8.LeadMasks`, `Utf8.BitPacking`).

Findings about the code, each stated with the exact condition:

- A destructor that makes a counted pointer to its own object has the object deleted twice
  (`SafePtr.SelfPointerDeletesTwice`, and a whole run in `SafePtrRuns.DestructorRun`). A run keeps its
  counters and deletions right exactly as long as no step points at an object under deletion
  (`SafePtrRuns.RunKeepsInv`).
- A directory given with a trailing slash is delivered twice with different paths exactly when it is
  empty, readable and entered (`FtsLimit.ClosingPath`).
- `IsValidUTF16` also rejects well-formed text that contains U+FFFD itself (`Utf16.ValidMeans`,
  `Utf16.ReplacementIsRejected`).
- In-place rewriting of UTF-16 differs from rewriting into another buffer exactly when a stray surrogate
  is left alone (`Utf16Case.InPlaceIsCopy`).
- `JoinPaths(a, b)` is not the parse of `a/b` exactly when `a` is empty or a lone dot
  (`PathAlgebra.JoinIsConcat`), and `JoinPaths` fails to associate exactly in the cases of
  `PathAlgebra.Associates`.
- The signed arithmetic of `GmTimeR` overflows exactly below `CivilTime.MIN_TIME` (`CivilTime.ShiftFits`).

## Model

| member | source | states |
|---|---|---|
| `SafePtrWords.Unpack` | util/ysafeptr.h:160-181 | the packed word gives back both counts and both flags, and setting or clearing the flags leaves the counts alone |
| `SafePtrWords.AddOwnerFitsExactly` | util/ysafeptr.h:160-163 | counting one more TObj leaves the other fields alone exactly while the count stays below 2^20 |
| `SafePtrWords.CountMasks` | util/ysafeptr.h:167-181 | the masks of the source read the same fields as the quotients and remainders, on every 32-bit word |
| `SafePtrWords.FlagMasks` | util/ysafeptr.cpp:11-15 | the flag bits the source looks at are the modelled flags |
| `SafePtrWords.FlagUpdates` | util/ysafeptr.cpp:20-24 | setting both flags and clearing the busy one, on every 32-bit word |
| `SafePtrWords.FieldLayout` | util/ysafeptr.h:160-181 | the fields of the model are those same quotients and remainders, as numbers |
| `SafePtr.ObjWords` | util/ysafeptr.cpp:10-21 | releasing an owner, on the words alone: which of deletion, invalidation or nothing follows, and that the words stay exact |
| `SafePtr.RefWords` | util/ysafeptr.cpp:34-40 | releasing a TPtr or the guard, on the words alone |
| `SafePtr.StepKeeps` | util/ysafeptr.h:53-83 | a step of a program or of a destruction keeps the invariant that ties the words to the pointers and frames, if and only if it does not point a pointer at an object under deletion |
| `SafePtr.SelfPointerDeletesTwice` | util/ysafeptr.cpp:34-40 | a TPtr made to an object under deletion and let go starts a second deletion, from every state |
| `SafePtr.DeletingMeansUnreferenced` | util/ysafeptr.cpp:11-13 | nothing points to an object being deleted, and its contents are not being destroyed |
| `SafePtrSteps.PointersAfter` | util/ysafeptr.h:289-313 | a step changes no pointer but its own: an assigned one has the new target and keeps kind and home, a destroyed one is gone |
| `SafePtrSteps.LettingGoStarts` | util/ysafeptr.cpp:10-40 | when a pointer of any kind lets an object go, by destruction or assignment: its deletion starts exactly if nothing points to it any more, the destruction of its contents exactly if the last TObj (or last TMObj) left while something else points to it, and neither while its contents are being destroyed; the invalid bit is set exactly by the second |
| `SafePtrSteps.ContentsDestroyed` | util/ysafeptr.cpp:22-26 | after its contents are destroyed an object stays, invalid, and its deletion starts exactly if nothing points to it |
| `SafePtrRuns.RunKeepsInv` | util/ysafeptr.h:289-313 | every state up to any point of a run satisfies the invariant if and only if no step before it points at an object under deletion; that the states before were safe is not assumed |
| `SafePtrRuns.DestructorRun` | util/ysafeptr.cpp:34-40 | a run from the empty heap that deletes an object and is left with a second deletion of it |
| `SafePtrRuns.CountersAreExact` | util/ysafeptr.h:53-83 | as long as no step points at an object under deletion: in every state, mid-cascade too, the fields are the numbers of TObj, TMObj and TPtr pointers, plus the guard exactly while the object is being invalidated |
| `SafePtrRuns.RunRemembers` | util/ysafeptr.h:53-61 | the history kept beside the heap knows every kind of pointer that pointed to an object in any earlier state |
| `SafePtrRuns.ValidMeansOwned` | util/ysafeptr.cpp:14-25 | in the same runs, an object that some TObj pointed to in an earlier state is invalid or under deletion unless a TObj points to it now; and the same for TMObj |
| `SafePtrRuns.NothingForgotten` | util/ysafeptr.cpp:10-40 | in the same runs, an object that any pointer pointed to in an earlier state has been deleted, or is pointed to, or is being destroyed |
| `SafePtrRuns.DeletionIsSafe` | util/ysafeptr.cpp:34-40 | in the same runs: no dangling pointer or frame, no second deletion, and at a deletion no pointer to the object, none inside it and no guard |
| `SafePtrRuns.CascadeStepShrinks` | util/ysafeptr.cpp:10-27 | every step of a destruction lowers a measure of the work left |
| `SafePtrRuns.CascadeNeverStuck` | util/ysafeptr.cpp:10-27 | while a destruction is under way there is a next step |
| `SafePtrRuns.CascadesTerminate` | util/ysafeptr.cpp:10-27 | every cascade ends within that measure, in whatever order members are released |
| `SafePtrReclaim.StepKeepsEmpty` | util/ysafeptr.h:209-217 | a step that neither fills an invalid object outside its own destruction nor points at a dying one leaves no pointers in invalid objects outside their own destruction |
| `SafePtrReclaim.RunKeepsEmpty` | util/ysafeptr.h:209-217 | every state of a disciplined run from the empty heap satisfies the invariant and has no refilled invalid object |
| `SafePtrReclaim.OwnersFormCycle` | util/ysafeptr.cpp:14-25 | a valid object left over when the program has let go lies on a chain of owners that closes to a cycle |
| `SafePtrReclaim.ReclaimedUnlessCyclic` | util/ysafeptr.cpp:10-40 | with no outside pointers and no destruction under way, every object is gone if and only if the TObj graph has no cycle, whatever the TPtr cycles |
| `SafePtrReclaim.RunReclaims` | util/ysafeptr.cpp:10-40 | at the end of a disciplined run after which nothing is held, everything is gone if and only if no TObj cycle is left |
| `SafePtrStore.Store.NewObject` | util/ysafeptr.h:103-110 | a new object starts with both words zero and keeps the invariant |
| `SafePtrStore.Store.MakePointer` | util/ysafeptr.h:297-310 | the constructors take the machine's step in place; the invariant survives if and only if the target is not under deletion |
| `SafePtrStore.Store.SetObject` | util/ysafeptr.h:289-294 | assignment counts the new target before releasing the old one; it is the machine's step, and the invariant survives if and only if the new target is not under deletion |
| `SafePtrStore.Store.DestroyPointer` | util/ysafeptr.h:311-313 | the destructor releases the target and keeps the invariant |
| `SafePtrStore.Store.ReleaseOwner` | util/ysafeptr.h:77-83 | the in-place release of an owner is the release on values, of which `SafePtrSteps.LettingGoStarts` tells what it starts |
| `SafePtrStore.Store.ReleaseGuardOrRef` | util/ysafeptr.h:70-76 | the in-place release of a TPtr or guard is the release on values |
| `SafePtrStore.Store.FinishTop` | util/ysafeptr.cpp:22-26 | the end of a destruction: busy bit cleared and guard released, or the object gone |
| `SafePtrStore.Store.Settle` | util/ysafeptr.cpp:10-27 | running the destructions to their end terminates, only removes, and keeps every outside pointer |
| `SafePtrStore.Store.DropAll` | util/ysafeptr.cpp:10-40 | dropping every outside pointer leaves no object, if every object was TObj-owned and the TObj graph was acyclic |
| `FtsTour.VisitIsTour` | util/folder/fts.cpp:461-657 | when no path is too long, the walk followed by more is the recursive walk and then the rest |
| `FtsTour.Classify` | util/folder/fts.cpp:1098-1186 | a node classified as a directory to enter is not among its own ancestors |
| `FtsShape.WalkShows` | util/folder/fts.cpp:910-1040 | every directory met is closed again on its level; in between, one level down, the walk meets exactly the names it lists, in order and as often, without "." and ".." unless asked for, each under the directory's path; nothing where the level limit or the device of the root keep it out or where it cannot be read, and only in the last case it closes with DNR |
| `FtsShape.WalkHasNoDots` | util/folder/fts.cpp:205-205 | unless asked for, no event below the roots has the name "." or ".." |
| `FtsShape.WalkTells` | util/folder/fts.cpp:1098-1186 | every event says what the file system says of its file; a directory is reported as a cycle if and only if the walk is inside that same directory |
| `FtsShape.WalkMeetsRoots` | util/folder/fts.cpp:303-325 | on level 0 the walk meets the roots in order, with their base names |
| `FtsShape.BaseNameIs` | util/folder/fts.cpp:381-403 | the name of a root is what stands behind its last slash; "/" keeps its name |
| `FtsShape.TooLongIs` | util/folder/fts.cpp:957-970 | a directory stops the walk if and only if the path of some entry has 65535 characters or more |
| `FtsStep.AdvanceDelivers` | util/folder/fts.cpp:565-657 | leaving a node, past skipped siblings, delivers the next event of the walk |
| `FtsStep.DirectoryDelivers` | util/folder/fts.cpp:554-562 | opening a directory puts its entries in front, in list order, and leaves the walk unchanged |
| `FtsStep.StepDelivers` | util/folder/fts.cpp:461-657 | a read delivers exactly the first event that remains, or the end |
| `FtsSkip.SkippedCurrent` | util/folder/fts.cpp:510-524 | a current directory told to be skipped is left at once: its second event is next and nothing inside comes |
| `FtsSkip.SkippedIsAbsent` | util/folder/fts.cpp:565-592 | a sibling below the roots told to be skipped before its turn is passed over as if it were not in the list |
| `FtsLimit.LimitSelectsLevels` | util/folder/iterator.h:80-96 | the limited walk delivers exactly the nodes of level at most MaxLevel, in the same order, as often and with the same paths; only leaving a directory may show another path or kind |
| `FtsLimit.ClosingPath` | util/folder/fts.cpp:1056-1065 | a directory's two events show the same path if and only if it is not an empty one with a trailing slash that is read |
| `FtsMemory.ParentJump` | util/folder/fts.cpp:1158-1177 | the parent of a node lies further down its own chain, and the directories above the node are the parent and those above it |
| `FtsMemory.ListAppend` | util/folder/fts.cpp:1031-1039 | a new entry behind the last one keeps the list of entries and adds one item at its end |
| `FtsMemory.ListGood` | util/folder/fts.cpp:554-562 | a finished list in front of its directory is a sound chain again |
| `FtsRoots.StartIsTour` | util/folder/fts.cpp:242-379 | what an opened stream has to deliver is the walks of the roots in order, each on its own device |
| `FtsRoots.SkipAny` | util/folder/fts.cpp:666-676 | a skip instruction on any live node keeps the chain sound and the directories above each node |
| `FtsRoots.AtTheLimit` | util/folder/iterator.h:83-86 | telling a node at the limit to be skipped is what the limited walk does there |
| `FtsStream.Stream.FreeList` | util/folder/fts.cpp:1268-1278 | frees exactly the nodes of the list, each once |
| `FtsStream.Stream.StatNode` | util/folder/fts.cpp:1098-1186 | comparing ancestors one by one finds a cycle exactly when the directory is one of them |
| `FtsStream.Stream.BuildList` | util/folder/fts.cpp:910-1040 | the list holds one node per kept entry in order, or the walk stops with everything freed because a path is too long |
| `FtsStream.Stream.Build` | util/folder/fts.cpp:779-1096 | the three outcomes of reading a directory and the state each leaves |
| `FtsStream.Stream.LoadRoot` | util/folder/fts.cpp:381-403 | a root becomes current with its text in the buffer, its base name and its device |
| `FtsStream.Stream.MoveOn` | util/folder/fts.cpp:565-612 | frees the nodes passed over and delivers what leaving the current node delivers on values |
| `FtsStream.Stream.MoveUp` | util/folder/fts.cpp:614-657 | the last sibling is freed and the parent delivered a second time, or the walk ends with nothing left |
| `FtsStream.Stream.Read` | util/folder/fts.cpp:461-657 | a read on the linked nodes is the step on values; the live nodes stay exactly the link-then-parent chain from the current one |
| `FtsStream.Stream.Open` | util/folder/fts.cpp:242-379 | fails exactly on no root or an empty one, freeing everything; otherwise stands in front of the roots |
| `FtsStream.Stream.Skip` | util/folder/fts.cpp:666-676 | sets the instruction on any live node and keeps the stream sound |
| `FtsStream.Stream.Close` | util/folder/fts.cpp:405-450 | from any sound state every node ever allocated has been freed, each exactly once |
| `FtsStream.Stream.Session` | util/folder/fts.cpp:405-450 | opening, any sequence of reads and skips, and closing frees every allocated node exactly once, and frees everything when opening fails |
| `FtsStream.Stream.Next` | util/folder/iterator.h:80-96 | delivers the next event of the limited walk |
| `FtsStream.Stream.Walk` | util/folder/iterator.h:80-96 | repeated reading terminates with exactly the events that remain |
| `FtsStream.Stream.WalkRoots` | util/folder/iterator.h:60-96 | opening, reading to the end and closing delivers the recursive walk of the roots, which the `FtsShape` rows describe, and leaves no node |
| `Utf8.EncodeDecode` | util/charset/utf8.h:376-402 | writing the rune of an accepted sequence reproduces its bytes, and the rune is a scalar exactly if the grammar accepts them |
| `Utf8.DecodeEncode` | util/charset/utf8.h:376-402 | every scalar is written as a character of the grammar and read back, whatever follows |
| `Utf8.SurrogateEncode` | util/charset/utf8.h:376-402 | a written surrogate is what the lax reader takes for one |
| `Utf8.KnownCharacters` | util/charset/utf8.h:376-402 | characters of one to four bytes, from section 7 of RFC 3629, written and read |
| `Utf8.LeadMasks` | util/charset/utf8.h:18-37 | the masks of the lead and continuation bytes are the modelled quotients and remainders |
| `Utf8.BitPacking` | util/charset/utf8.h:248-316 | shifting and masking in 32-bit words is the modelled arithmetic |
| `Utf8.LongPacking` | util/charset/utf8.h:388-401 | so are the bytes written for three- and four-byte characters |
| `Utf8Text.SafeRead` | util/charset/utf8.h:190-241 | accepts exactly what the grammar accepts (with surrogates unless strict), with its rune and length, and reports end of input exactly when the announced length does not fit |
| `Utf8Text.ReadAndAdvance` | util/charset/utf8.h:247-316 | agrees with the other reader on result code, rune and length; the cursor moves only over an accepted character |
| `Utf8Text.TextIsEncoded` | util/charset/utf8.h:190-241 | text is the encoding of its runes, strictly valid if and only if they are all scalars |
| `Utf8Text.EncodedIsText` | util/charset/utf8.h:376-402 | the encoding of any scalars is strictly valid and decodes to them |
| `Utf8Scan.Detect` | util/charset/utf8.cpp:132-154 | tells non-text, ASCII and other text apart |
| `Utf8Scan.IsValidUtf8` | tools/pyres_pack/main.cpp:160-193 | accepts exactly strictly valid text |
| `Utf8Scan.DetectorAndValidator` | util/charset/utf8.cpp:132-154 | the detector accepts more than the validator only by letting surrogates through |
| `Utf8Case.SafeWrite` | util/charset/utf8.h:324-364 | writes the encoding in place if it fits the space, otherwise nothing |
| `Utf8Case.FirstChange` | util/charset/utf8.cpp:23-46 | finds the first rune that changes or cannot be decoded |
| `Utf8Case.DecodableText` | util/charset/utf8.cpp:30-42 | decoding reaches the end exactly on text |
| `Utf8Case.Rewrite` | util/charset/utf8.cpp:48-82 | written and free space always make up the buffer, through every doubling; the result is the encoded mapped runes |
| `Utf8Case.Convert` | util/charset/utf8.cpp:21-83 | terminates; reports no change exactly when the mapping changes no rune, otherwise returns the encodings of the mapped runes; fails exactly on undecodable text, at the place where decoding stops |
| `Utf16.ReadIsScalar` | util/charset/wide.h:81-94 | reading never yields anything but a scalar, and only a stray surrogate is not written back as it was |
| `Utf16.WriteRead` | util/charset/wide.h:191-203 | a written scalar is read back, whatever follows |
| `Utf16.PairValue` | util/charset/wide.h:50-59 | the wrapped 32-bit offset computes the code point of a pair |
| `Utf16.ReadWriteAll` | util/charset/wide.h:144-159 | a text is what would be written for its symbols if and only if it is well formed |
| `Utf16.WriteReadAll` | util/charset/wide.h:191-203 | what is written for scalars is well formed and decodes to them |
| `Utf16.IsValid` | util/charset/wide.h:935-944 | true exactly when no symbol reads as the broken rune |
| `Utf16.ValidMeans` | util/charset/wide.h:935-944 | that is well-formed text without U+FFFD |
| `Utf16.ReplacementIsRejected` | util/charset/wide.h:935-944 | an input that is well formed and rejected |
| `Utf16.WideFits` | util/charset/wide.h:300-318 | decoding never writes more units than there are bytes |
| `Utf16.RobustConsumesAll` | util/charset/wide.h:300-318 | robust decoding consumes every byte |
| `Utf16.Utf8ToWide` | util/charset/wide.h:300-318 | stays inside a buffer of as many units as bytes; robust decoding consumes everything, the other stops at the first bad byte |
| `Utf16.WriteSymbol` | util/charset/wide.h:191-203 | writes the units of the symbol and nothing else |
| `Utf16.WriteChar` | util/charset/utf8.h:376-402 | writes the encoding behind what is there |
| `Utf16.WideToUtf8` | util/charset/wide.h:436-447 | stays inside four bytes per unit and writes the encoded symbols |
| `Utf16.RecodeIsText` | util/charset/wide.h:300-318 | for every byte string the round trip yields strictly valid text |
| `Utf16.RecodeKeeps` | util/charset/wide.h:436-447 | it equals the input if and only if the input was strictly valid |
| `Utf16.RecodeIdempotent` | util/charset/wide.h:436-447 | doing it twice is doing it once |
| `Utf16.RoundTrip` | util/charset/wide.h:300-318 | the two converters run one after the other do this |
| `Utf16Recode.RecodeCharacter` | util/charset/wide.h:300-318 | in the round trip a character of the grammar stays as it is and what follows is recoded on its own |
| `Utf16Recode.RecodeBroken` | util/charset/wide.h:300-318 | a byte that starts no character becomes the bytes EF BF BD |
| `Utf16Recode.RecodeSurrogate` | util/charset/wide.h:81-94 | a surrogate written as a character becomes EF BF BD, unless a lead and a trail surrogate stand together: they become the one character they stand for |
| `Utf16Recode.WrittenBroken` | util/charset/wide.h:191-203 | U+FFFD is written exactly for itself and for what is above 0x10FFFF |
| `Utf16Case.RewriteOne` | util/charset/wide.cpp:150-168 | a rewritten symbol takes exactly the place of the old one and reads as its image |
| `Utf16Case.RewrittenIsMap` | util/charset/wide.cpp:150-168 | in place, length and symbol boundaries are kept and the result decodes to the mapped symbols, well formed or not |
| `Utf16Case.AnyChangeMeans` | util/charset/wide.cpp:150-168 | the search finds a change exactly when mapping the symbols changes them |
| `Utf16Case.FindChange` | util/charset/wide.cpp:150-168 | stops at the first symbol that changes, which then is the one at the position returned, or at the end if none does |
| `Utf16Case.ModifyRest` | util/charset/wide.cpp:150-168 | rewrites the range where it stands and touches nothing else |
| `Utf16Case.ModifySymbolwise` | util/charset/wide.cpp:198-217 | the clamped range is rewritten, nothing else changes, and the answer says whether any symbol changed |
| `Utf16Case.ModifyInto` | util/charset/wide.cpp:170-188 | the other buffer receives the units of the mapped symbols |
| `Utf16Case.ModifyOnto` | util/charset/wide.cpp:331-343 | with the same buffer for input and output the result is the same, since each symbol is written over itself |
| `Utf16Case.InPlaceIsCopy` | util/charset/wide.cpp:150-188 | the two forms agree if and only if the text is well formed or stray surrogates are rewritten too |
| `City.MixLocal` | util/digest/city.cpp:183-190 | a block's effect depends on its 64 bytes only, not on the buffer they are in |
| `City.StartLocal` | util/digest/city.cpp:312-324 | the streaming constructor starts from the same state as the one-shot hash |
| `City.BlocksOfPrefix` | util/digest/city.cpp:180-193 | the state after whole blocks does not depend on what follows |
| `City.CityHash64` | util/digest/city.cpp:158-196 | every load is inside the buffer for every length; the length picks the form, of each of which `CityKnown` gives an answer as a number; long inputs are folded block by block up to the last 1 to 64 bytes |
| `CityKnown.RotateBits` | util/digest/city.cpp:58-61 | bit i of a word rotated by s is bit (i + s) mod 64 of the word |
| `CityKnown.LoadBytes` | util/digest/city.cpp:45-46 | byte i of a loaded word is byte i of the buffer |
| `CityKnown.Load32Bytes` | util/digest/city.cpp:45-46 | the same for four bytes |
| `CityKnown.KnownEmpty` | util/digest/city.cpp:78-97 | the hash of no bytes is 0x9ae16a3b2f90404f |
| `CityKnown.KnownUpTo3` | util/digest/city.cpp:88-95 | the hash of the bytes 0, 1, 2, as a number |
| `CityKnown.KnownUpTo8` | util/digest/city.cpp:84-87 | the hash of the bytes 0 to 4 |
| `CityKnown.KnownUpTo16` | util/digest/city.cpp:79-83 | the hash of the bytes 0 to 11 |
| `CityKnown.KnownUpTo32` | util/digest/city.cpp:101-110 | the hash of the bytes 0 to 19 |
| `CityKnown.KnownUpTo64` | util/digest/city.cpp:135-156 | the hash of the bytes 0 to 39 |
| `CityKnown.KnownLong` | util/digest/city.cpp:158-196 | the hash of the bytes 0 to 127 |
| `CityKnown.KnownLonger` | util/digest/city.cpp:158-196 | the hash of the bytes 0 to 191, with two blocks mixed in |
| `CityStream.Hasher.constructor` | util/digest/city.cpp:312-324 | starts with an empty carry buffer and the number of blocks to come |
| `CityStream.Hasher.Carry` | util/digest/city.cpp:328-334 | the copy stays inside the 64-byte buffer |
| `CityStream.Hasher.TopUp` | util/digest/city.cpp:333-347 | a filled carry buffer counts as the next block |
| `CityStream.Hasher.Whole` | util/digest/city.cpp:349-361 | whole blocks of a chunk are mixed straight from it |
| `CityStream.Hasher.Process` | util/digest/city.cpp:326-366 | for every chunk, empty ones included, the state is that of all whole blocks fed so far and fewer than 64 bytes are carried |
| `CityStream.Hasher.Result` | util/digest/city.cpp:368-371 | once all blocks are fed the result is final, whatever was fed beyond them |
| `CityStream.HashInPieces` | util/digest/city_streaming.h:4-21 | for every buffer over 64 bytes and every way of cutting it, the streaming hash is the one-shot hash |
| `Calendar.Unique` | util/datetime/systime.cpp:209-277 | a timestamp denotes exactly one set of fields |
| `Calendar.YearStartIs` | util/datetime/systime.cpp:99-103 | the closed form of leap years counts the same days as going year by year, in both directions |
| `Calendar.FourCenturies` | util/datetime/systime.cpp:97-103 | 400 years always have the same days and the same leap years |
| `CivilTime.DayOfYearToMonth` | util/datetime/systime.cpp:127-134 | the multiply-and-shift finds the month and the day in it, for every day of both kinds of year |
| `CivilTime.BuildTable` | util/datetime/systime.cpp:146-153 | every entry is the day on which its year ends, and the sums fit 16 bits |
| `CivilTime.FindYear` | util/datetime/systime.cpp:157-172 | the estimate misses by at most one year and the right year is returned |
| `CivilTime.FindYearWithin4Centuries` | util/datetime/systime.cpp:105-119 | the same for the estimate within a cycle |
| `CivilTime.ByTable` | util/datetime/systime.cpp:216-224 | the table path gives the date, weekday and time of every timestamp in its range |
| `CivilTime.ShiftFits` | util/datetime/systime.cpp:228-232 | a time before 1970 is moved into one cycle; the shift fits a signed 64-bit number if and only if the time is not below MIN_TIME |
| `CivilTime.ByCycles` | util/datetime/systime.cpp:225-256 | the cycle path does so for every timestamp, negative ones included |
| `CivilTime.GmTime` | util/datetime/systime.cpp:209-277 | the fields are those of the timestamp; null exactly when the year does not fit an int |
| `CivilTime.BothPaths` | util/datetime/systime.cpp:216-256 | the two paths agree wherever both apply |
| `CivilTime.TimeGM` | util/datetime/systime.cpp:184-207 | minus one exactly for a year before 1970 or a bad month; otherwise the seconds to the given day and time, when no int of the computation overflows |
| `CivilTime.ThereAndBack` | util/datetime/systime.cpp:184-277 | TimeGM undoes GmTimeR on every non-negative timestamp whose day count fits an int |
| `CivilTime.BackAndThere` | util/datetime/systime.cpp:184-277 | GmTimeR undoes TimeGM on every valid set of fields from 1970 on and fills in weekday and day of the year |
| `CivilKnown.Epoch` | util/datetime/systime.cpp:209-277 | timestamp 0 is Thursday, 1 January 1970 |
| `CivilKnown.SecondBefore` | util/datetime/systime.cpp:225-256 | -1 is Wednesday, 31 December 1969, 23:59:59 |
| `CivilKnown.LeapDay` | util/datetime/systime.cpp:209-277 | 951782400 is Tuesday, 29 February 2000 |
| `CivilKnown.LeapDayNoon` | util/datetime/systime.cpp:209-277 | 1709210096 is Thursday, 29 February 2024, 12:34:56 |
| `CivilKnown.NoLeapDay` | util/datetime/systime.cpp:209-277 | 4107542400 is Monday, 1 March 2100, day 59 of the year |
| `CivilKnown.YearOne` | util/datetime/systime.cpp:225-256 | -62135596800 is Monday, 1 January of year 1 |
| `CivilKnown.Limits` | util/datetime/systime.cpp:228-262 | the widths of int and time_t and the earliest timestamp converted, as numbers |
| `SaveLoad.SizeRoundTrip` | util/ysaveload.h:277-296 | a size below 2^64 is loaded back, through the marker when it does not fit 32 bits; `SaveFormat` gives the bytes |
| `SaveLoad.RoundTrip` | util/ysaveload.h:247-260 | for every value of every nested type, loading its bytes followed by any others gives it back and leaves those |
| `SaveLoad.PrefixFails` | util/ysaveload.h:67-74 | loading any strict prefix fails with end of input |
| `SaveLoad.RoundTripFields` | util/ysaveload.h:428-448 | tuples, packed last field first, come back in order |
| `SaveLoad.InsertAllDistinct` | util/ysaveload.h:545-562 | inserting the elements of a set or map one by one gives it back |
| `SaveLoad.SelfDelimiting` | util/ysaveload.h:247-260 | no value's bytes begin another value's |
| `SaveLoad.BulkIsElementwise` | util/ysaveload.h:81-89 | reading an array of fixed-size elements in one call is reading them one by one, down to the error |
| `SaveFormat.SizeWritten` | util/ysaveload.h:277-284 | a size takes four bytes, lowest first, exactly below 0xffffffff; otherwise four bytes FF and eight bytes whose value it is |
| `SaveFormat.SizeRead` | util/ysaveload.h:286-296 | of any bytes: four that are not all FF are the size, lowest first, and the rest is left; after FF FF FF FF the next eight are; too few is end of input |
| `SaveFormat.Compounds` | util/ysaveload.h:407-448 | a pair is written first part first, a tuple last field first |
| `SaveFormat.Tags` | util/ysaveload.h:654-696 | an optional is the byte 0, or the byte 1 and the value; a variant is the index of its alternative and the value |
| `SaveFormat.Containers` | util/ysaveload.h:333-336 | vectors, sets and maps are the number of elements in four bytes and the elements in order, the key of an entry in front of its value |
| `SaveLoadStream.SaveTo` | util/ysaveload.h:247-250 | the stream receives the bytes of the value |
| `SaveLoadStream.SaveRange` | util/ysaveload.h:91-96 | the elements of a range in order |
| `SaveLoadStream.SaveReversed` | util/ysaveload.h:428-442 | the fields of a tuple last to first |
| `SaveLoadStream.LoadPodFrom` | util/ysaveload.h:67-74 | all bytes or end of input |
| `SaveLoadStream.LoadSizeFrom` | util/ysaveload.h:286-296 | a size read from the stream in both encodings, which `SaveFormat.SizeRead` writes out |
| `SaveLoadStream.LoadFrom` | util/ysaveload.h:257-260 | reads from the stream exactly what loading the bytes reads, with the same value or error |
| `SaveLoadStream.LoadVector` | util/ysaveload.h:338-343 | the size and as many elements |
| `SaveLoadStream.LoadInserting` | util/ysaveload.h:553-562 | elements inserted as they are read; one whose key is there is dropped |
| `SaveLoadStream.LoadReversed` | util/ysaveload.h:444-447 | fields last to first |
| `SaveLoadStream.LoadOptional` | util/ysaveload.h:662-671 | the flag decides whether a value follows |
| `SaveLoadStream.LoadVariant` | util/ysaveload.h:674-712 | a tag out of range is an error, otherwise the alternative it names |
| `SaveLoadStream.Copy` | util/ysaveload.h:247-260 | saved and loaded from a stream that goes on, a value comes back and the rest is untouched |
| `PathAlgebra.ParseNormal` | util/folder/pathsplit.cpp:107-116 | parsed components are a run of `..` and then plain names, if and only if the path is not a lone dot |
| `PathAlgebra.Reparse` | util/folder/pathsplit.cpp:86-105 | parsing the reconstructed text gives the same components and absolute flag, for every path |
| `PathText.ShortestText` | util/folder/pathsplit.cpp:86-105 | for normal components the reconstructed text parses to them, and any other text that does is longer: no slash is doubled and none ends the text but that of the root |
| `PathAlgebra.FoldThrough` | util/folder/pathsplit.h:95-104 | appending normalized components is appending the original ones |
| `PathAlgebra.JoinIsConcat` | util/folder/pathsplit.cpp:127-133 | joining is parsing both texts with a slash between if and only if the first is neither empty nor a lone dot |
| `PathAlgebra.JoinAssociative` | util/folder/pathsplit.cpp:127-133 | joining is associative if and only if no lone dot meets a name from the left or `..` from the right; in particular whenever the first two are not lone dots |
| `PathSplit.Store.AppendComponent` | util/folder/pathsplit.cpp:107-116 | one component pushed, dropped or popped |
| `PathSplit.Store.ParsePart` | util/folder/pathsplit.cpp:31-42 | cutting at each slash appends all pieces of the text |
| `PathSplit.Store.ParseFirstPart` | util/folder/pathsplit.cpp:17-29 | a lone dot is kept, otherwise the absolute flag is set and the text parsed |
| `PathSplit.Store.AppendMany` | util/folder/pathsplit.h:95-104 | the components in order |
| `PathSplit.Store.Reconstruct` | util/folder/pathsplit.cpp:86-105 | the text of the components, which `PathText.ShortestText` shows to be the shortest that parses to them |
| `PathSplit.JoinPaths` | util/folder/pathsplit.cpp:127-133 | refuses an absolute second path, otherwise the text of the joined components, the shortest one by `PathText.ShortestText` |
| `PathSplit.JoinTexts` | util/folder/pathsplit.cpp:127-133 | on texts: the parse of `a/b` for every non-empty `a` that is not a lone dot |
| `ResolvePath.MoveDown` | util/folder/dirut.cpp:96-113 | the overlapping move closes the gap |
| `ResolvePath.Squeeze` | util/folder/dirut.cpp:89-121 | the array-shifting loop terminates with the result of a simple stack, a final non-name leaving a trailing slash |
| `ResolvePath.Cut` | util/folder/dirut.cpp:80-87 | the path cut at its slashes |
| `ResolvePath.Paste` | util/folder/dirut.cpp:123-128 | the components joined by slashes |
| `ResolvePath.Resolve` | util/folder/dirut.cpp:35-130 | refuses exactly the empty path; otherwise the rooted path resolved |
| `ResolvePath.Base` | util/folder/dirut.cpp:70-73 | a relative path starts from the longest prefix of the home directory that ends in a slash |
| `ResolvePath.ResolvedIsParsed` | util/folder/dirut.cpp:89-130 | the resolved text of an absolute path is the reconstructed text of the names it parses to, without the `..` that lead above the root, and with a slash at the end exactly if the last component is empty, `.` or `..` and a name is left |
| `ResolvePath.ResolvedTwice` | util/folder/dirut.cpp:89-121 | resolved components stay as they are |
| `ResolvePath.CorrectIdempotent` | util/folder/dirut.cpp:31-33 | correctpath is idempotent |
| `IntHash.Hash32Bijective` | util/digest/numeric.h:39-48 | the 32-bit hash has an inverse on both sides |
| `IntHash.Hash64Bijective` | util/digest/numeric.h:50-61 | so has the 64-bit hash |
| `IntHash.CombineInjective` | util/digest/numeric.h:90-93 | each argument of a combined hash can be recovered from the result and the other |
| `IntHash.Combine32Injective` | util/digest/numeric.h:90-93 | so can each argument of the 32-bit form |
| `IntHash.KnownHashes` | util/digest/numeric.h:39-61 | the hashes of some numbers in both widths, and two combined hashes, as numbers |
| `IntHash.RangeHash` | util/digest/sequence.h:17-24 | the loop accumulates the element hashes in order |
| `IntHash.KnownRange` | util/digest/sequence.h:17-24 | the hashes of two ranges of two elements, one the other reversed, as numbers |
| `IntHash.AccumulatedInjective` | util/digest/sequence.h:17-24 | different accumulators stay different whatever follows |
| `IntHash.OneChangeShows` | util/digest/sequence.h:17-24 | changing exactly one element hash changes the hash of the range, for ranges of any length |
| `AsciiScan.IsAsciiSlow` | util/charset/wide.h:562-572 | true exactly when every character is ASCII |
| `AsciiScan.WordInside` | util/charset/wide.h:588-593 | every word loaded lies inside the string |
| `AsciiScan.IsAscii` | util/charset/wide.h:574-608 | the same answer, for every length and every start address |
| `AsciiScan.CharsLawful` | util/charset/wide.h:553-560 | the 8-bit mask tells ASCII from the rest on sign-extended characters and on words |
| `AsciiScan.WidesLawful` | util/charset/wide.h:545-552 | the 16-bit mask does so too |
| `AsciiScan.CharScansAgree` | util/charset/wide.h:562-608 | both scans of 8-bit text agree |
| `AsciiScan.WideScansAgree` | util/charset/wide.h:562-608 | both scans of 16-bit text agree |

## Left out

Counted pointers:

- `Extract`, `Clear`, `CopyValidFlag`, the thread checks and the casts: they bypass the counting or are for debugging.
- What a default constructor may do when contents are destroyed: it is taken to leave only null pointers, so the check that it adds no owner of itself has nothing to say.
- What a destructor body does is not tied to its object: its steps are steps of the program.
- Counts at or above 2^20 (TObj), 2^10 (TMObj) or 2^32 - 2 (TPtr): a step that would reach them is not enabled.

Tree walk:

- Calls of the operating system: the file system is a function of the path text that does not change during a walk; directory names have no slash at the end and are not empty.
- Sorting of entries, `yfts_children`, the instructions to revisit or follow a link, FTS_NOSTAT, changing directories, growing the path buffer, failing allocation, the width of the level field. A path too long to record, which stops the walk, is modelled.
- FtsStream.Stream.Open: a root of 65535 or more characters is not told apart; the source keeps the lengths of names and paths in 16 bits and they would wrap around.
- FtsStream.Stream.LoadRoot: the 16-bit lengths of a root's name and path, as for Open.
- FtsStream.Stream.Next: the exception of `TDirIterator::Next` when a read fails with an error code; the stream is then stopped, which is modelled.
- FtsStream.Stream.WalkRoots: the exception of the `TDirIterator` constructor when the first root cannot be examined is not modelled. The events are compared with the recursive walk when no path is too long to record; otherwise the walk ends early, which `Stream.Walk` states exactly.

Text:

- The vector-instruction converters, the UTF-32 variants (one unit per symbol), title case, `GetUTF8CharLen`, `SubstrUTF8` and other prefix functions: they would add only easier members.
- The case tables are an arbitrary mapping, and the limit of code points is the constant 0x110000.

Hashes:

- 32-bit machine words in the ASCII scan, CityHash128 and seeded forms, Murmur, FNV, the 8-bit and 16-bit integer hashes.
- City.Load64: loads are little-endian, as on the machines the library is built for.

Time:

- `gmtime_r` substitutes, `CTimeR` and date parsing.
- CivilTime.GmTime: timestamps below MIN_TIME, where the source overflows, are outside its precondition.
- CivilTime.TimeGM: field values whose products overflow an int are outside its precondition.

Serialization:

- SaveLoad.InsertAllDistinct: a set or map is the sequence in which it iterates; a hashed container may list the loaded elements in another order than they were inserted, so for it the result says which elements there are, not their order.
- Multimaps, queues, memory pools, fixed arrays, and types with their own `SaveLoad`. The stream class reads arrays of fixed-size types element by element; `SaveLoad.BulkIsElementwise` shows that one call for all of them does the same.
- A loaded flag byte other than 0 and 1 counts as true.

Paths:

- Windows paths, home directories after a tilde, symbolic links, and strings with embedded zero bytes.
