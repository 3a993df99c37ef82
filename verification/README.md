# psychicstd: verified model of the runtime library

psychicstd is a C++20 standard library whose compiled runtime holds a number of self-contained
algorithms and protocols. This project states them in Dafny and proves what they are for:

- **Paths** (`PathText`, `PathNormal`, `PathLaws`, `PathRelative`, `PathRelativeLaws`,
  `PathRoundTrip`, `PathIterator`, `PathOrder`, `PathQuoting`, `Utf8`). A path means what it
  resolves to: starting from a stack of directory names, `.` does nothing, `..` pops and stays at
  the root, a name pushes. `lexically_normal` keeps that meaning and is a canonical form of it,
  `lexically_relative` leads from the base to the path under an exact condition, the component
  iterator runs both ways over one component list, comparison orders those lists, and the UTF-8 and
  quoted forms are read back as they were written.
- **Random engines** (`MersenneTwister`, `MersenneWords`). The generator that overwrites its block
  in place is an infinite recurrence, for any block length and offset; `mt19937` and `mt19937_64`
  are instances, whose word functions are described bit by bit.
- **Stop callbacks** (`StopProtocol`, `StopSafety`, `StopRuns`, `StopProgress`, `StopDestruction`,
  `StopLifetimes`, `StopStaleFrame`, `StopList`, `StopHandles`). The protocol of `request_stop`,
  callback registration and callback destruction is a step system for any number of threads, states
  and callbacks; its list and its frame stack are also modelled as linked objects, and the handles
  over a state as counted references.
- **Futures** (`FutureProtocol`, `FutureRuns`, `FutureProgress`, `FutureHandles`). The shared state
  of a promise and its future, once as steps of threads around a mutex and a condition variable,
  once as objects whose handles are moved, assigned and destroyed.
- **Locales** (`LocaleFacets`). Reference-counted representations over immutable facet lists with
  shared tails; the counts, the reachable nodes and the deleted facets agree after every operation.
- **Regular expressions** (`RegexTranslate`, `RegexReading`, `RegexRanges`, `RegexRefusal`,
  `RegexNumbering`, `RegexTokens`, `RegexLoops`, `RegexMatches`, `RegexGroups`). The
  translation of ECMAScript patterns to POSIX extended ones, a reading of the result by sections
  9.3.5 and 9.4 of POSIX.1-2017, exactly when the two agree, searching, matching, and the two loops
  over matches.
- **Digit grouping** (`DigitGrouping`) and **the repetition planner** (`BudgetPlan`).

Objects are classes. Where several objects share a count, a `World` holds the live ones, so that
deleting one takes it out of the world, and `Valid` says that every count is the number of
references and that nothing unreferenced is kept. Concurrent code is a function from a world, a
thread and a step to the next world; a run is any sequence of enabled steps.

## What turned out not to hold

Each of these has a lemma with a concrete input or an exact condition.

- A destructor of a stop callback can return while another thread is still to finish the invocation
  of its callback, and that thread then writes to a dead one. Frames are found by the address of
  their callback, and a thread can have the frame of an older callback that was there. In every
  run, a destructor leaves another thread behind if and only if its callback runs and its thread has a
  frame at that address that is not the callback's own (`StopLifetimes.LeavesEarlyExactly`); no
  thread is ever inside a dead callback if and only if no destructor does so
  (`StopLifetimes.OrphansExactly`). `StopStaleFrame.StaleFrameRun` is such a run of 24 steps. None
  happens if no callback is built where one is still being invoked
  (`StopLifetimes.TidyRunsAreSafe`).
- A translated class is not always read by the native library with the extent it was written with.
  It is read so if and only if it is `Readable`: it keeps a member besides an escaped caret at its
  start, and no plain `[` stands before `.`, `=` or `:` (`RegexReading.ClassRead`,
  `RegexNumbering.TranslationReadExactly`). Otherwise groups can be misnumbered: `[[:alpha:](]`, and
  the same with any of the twelve class names, has a submatch entry 1 where the library has no group
  (`RegexNumbering.NamedClassMisread`), and replacing or tokenizing by that group reads outside the
  array of matches (`RegexLoops.MisreadClassReadsBeyond`).
- A class that starts with an escaped caret is read as a negated one
  (`RegexNumbering.NegationReadExactly`); `RegexReading.ClassReadBack` says exactly which classes
  are read back member by member.
- An escaped hyphen put last, or an escaped bracket put first, can come next to a plain hyphen and
  make a range of it: `[\-!-]` becomes `[!--]`, and `[-\]a]` becomes `[]-a]`
  (`RegexRanges.HyphenMakesRange`). The ranges are those that were written if and only if the class
  is `Plainly` one: no range ends in an escaped bracket or hyphen, its ends are in order, and each
  hyphen that stands for itself comes first or last in what is emitted
  (`RegexRanges.RangesReadBack`).
- The translator throws for a class escape at an end of a range, but not only then: `[\-\d]` has no
  range (`RegexRefusal.RefusedWithoutRange`). It throws for a class if and only if a range of it ends
  in a class escape, or a class escape comes right behind a hyphen that is escaped or not the first
  member (`RegexRefusal.RefusedExactly`).
- Outside a class an escaped character need not stand for itself. By POSIX.1-2017 an escape that is
  no class escape stands there for the character that it puts into a class if and only if it is one of
  `\f`, `\n`, `\r`, `\t` and `\v`, or one of the special characters ``. [ \ ( ) * + ? { | ^ $``
  (`RegexNumbering.EscapeMeansTheSame`). Every other one is undefined there; the GNU library
  takes `\<`, `\>`, `\'` and an escaped backquote for anchors.
- A class escape means the same in a class as outside if and only if it is `\d`, `\s` or `\w`: the
  complements leave only their letter in a class (`RegexNumbering.ShorthandInClassExactly`).
- A back-reference to a group names the group's native number if and only if the group was opened
  before it and the number has one digit, or it was not and the number is its own
  (`RegexNumbering.BackReferenceExactly`). Behind nine non-capturing groups, `(a)\1` refers to a colon
  (`RegexNumbering.TenthGroupMisnamed`); in `(?:x)\1(a)` the reference names the group that does not
  capture (`RegexNumbering.EarlyReferenceMisnamed`).
- Walking from a base to a path with `lexically_relative` can miss it when the unshared part of the
  base climbs (`PathRelative.ClimbingBaseIsNotUndone`). The round trip works from every directory if
  and only if what is left of the path climbs as far as the base's detour needs
  (`PathRoundTrip.RoundTripExactly`): the levels that the unshared base climbs, less the names that
  it comes down again where the shared prefix ended.
- Decoding undoes encoding if and only if every code point is below 0x200000
  (`Utf8.RoundTripExactly`).
- Deleting separators gives the digits back if and only if the separator is not one of them
  (`DigitGrouping.DeletingRestoresExactly`); the output is complete if and only if the grouped
  integer part has at most 40 characters and the whole fits (`DigitGrouping.CompleteExactly`).
- A facet installed twice is deleted as often as it was installed (`LocaleFacets.FreedExactly`), and
  once already while a live locale still has it (`LocaleFacets.InstallTwice`). A facet is deleted
  while it is held if and only if it has been deleted, but less often than it was installed
  (`LocaleFacets.DeletedWhileHeld`); once no live locale has it, it was deleted once if and only if
  it was installed once (`LocaleFacets.DeletedOnceExactly`).
- A null `exception_ptr` passed to `promise<void>::set_exception` reads as a value
  (`FutureRuns.NullExceptionIsValue`).

## Model

| member | source | states |
|---|---|---|
| PathText.JoinSplit | src/filesystem.cpp:129-152 | joining the slash-separated segments of any text gives the text back |
| PathText.SplitJoin | src/filesystem.cpp:129-152 | splitting a joined list of slash-free segments gives the list back |
| PathText.SplitFrom | src/filesystem.cpp:343-346 | cutting at the first slash found from an offset is taking the first segment of what is left |
| PathNormal.LexicallyNormal | src/filesystem.cpp:333-372 | the string loop computes the rendering of the reduced segment list, for every path |
| PathNormal.CollectParts | src/filesystem.cpp:337-359 | the offset loop leaves in `parts` the reduction of all segments, and finds the trailing separator |
| PathNormal.TakePart | src/filesystem.cpp:346-357 | one part is dropped, cancelled, refused at the root or kept as the reduction of segments says |
| PathNormal.BuildBody | src/filesystem.cpp:361-366 | the parts are joined with single slashes behind the root |
| PathNormal.NormalPreservesMeaning | src/filesystem.cpp:333-372 | the normal form resolves to the same directory as the path, from every start, and stays as absolute |
| PathNormal.NormalPartsCanonical | src/filesystem.cpp:339-359 | the parts are dot-dots and then plain names, with no dot-dot when absolute |
| PathNormal.PartsCharacteriseMeaning | src/filesystem.cpp:339-359 | two paths of the same absoluteness resolve alike from every start if and only if they have the same parts |
| PathNormal.NormalIsIdempotent | src/filesystem.cpp:333-372 | normalizing twice is normalizing once, as text |
| PathNormal.ReduceMeaning | src/filesystem.cpp:347-357 | taking one more segment into the parts keeps what they resolve to |
| PathNormal.FollowCanonical | src/filesystem.cpp:339-359 | canonical parts climb as often as they have dot-dots and then descend by their names |
| PathNormal.RenderSegments | src/filesystem.cpp:361-371 | the rendered text has exactly the parts as its non-empty segments |
| PathLaws.FinalDot | src/filesystem.cpp:355-370 | a dot behind a separator does nothing: p/. normalizes like p/ |
| PathLaws.FinalDotDot | src/filesystem.cpp:347-370 | a name and a dot-dot behind it cancel and leave the separator: p/x/.. normalizes like p/ |
| PathLaws.FinalUp | src/filesystem.cpp:347-354 | a dot-dot that finds no name stays behind a relative path, without a separator, and is dropped at the root |
| PathLaws.FinalName | src/filesystem.cpp:352-371 | p/x normalizes to what p/ normalizes to with the name behind it, and ends in no separator |
| PathLaws.SeparatorStays | src/filesystem.cpp:338-370 | p/ normalizes to a text that ends in a separator, or to a dot |
| PathLaws.SeparatorAdded | src/filesystem.cpp:338-370 | a separator more adds one to the normal form, if there is none and it is not a dot |
| PathLaws.SeparatorTwice | src/filesystem.cpp:341-343 | a second separator does nothing |
| PathLaws.OneSegment | src/filesystem.cpp:333-372 | a name and a dot-dot are normal |
| PathLaws.OneComponent | src/filesystem.cpp:129-152 | the components of the empty path, the root and a name |
| PathLaws.NameAdded | src/filesystem.cpp:129-152 | p/x has the root and names of p and then x |
| PathLaws.SeparatorAfter | src/filesystem.cpp:129-152 | a separator at the end leaves an empty component if and only if there is a name |
| PathLaws.TwoNames | tests/test_filesystem.cpp:157-158 | /x//y/ has the root, the two names and the empty component |
| PathRelative.LexicallyRelative | src/filesystem.cpp:374-413 | the loops compute the dot-dots for the rest of the base followed by the rest of the path, and nothing in the refused cases |
| PathRelative.CollectDestination | src/filesystem.cpp:380-385 | the components kept from the path: no root, no dots, but an empty final one |
| PathRelative.CollectOrigin | src/filesystem.cpp:386-389 | the components kept from the base |
| PathRelative.CountCommon | src/filesystem.cpp:391-394 | the length of the longest common prefix |
| PathRoundTrip.RelativeRoundTrip | src/filesystem.cpp:374-413 | resolving the base and then the relative path gives the path's directory from every start, when the unshared base never climbs above where it began |
| PathRoundTrip.RelativeRoundTripWithoutDotDot | src/filesystem.cpp:374-413 | in particular when the unshared base has no dot-dot |
| PathRoundTrip.RoundTripFrom | src/filesystem.cpp:374-413 | from one directory the round trip works if and only if the rest of the path climbs as far as the unshared base climbs, less the names it comes down again where the shared prefix led |
| PathRoundTrip.RoundTripExactly | src/filesystem.cpp:374-413 | for every pair with a result, it works from all directories if and only if the rest of the path climbs so far, measured at the names that the shared prefix ends in |
| PathRoundTrip.DetourExactly | src/filesystem.cpp:391-411 | going along the rest of the base, back by counted dot-dots and onward is going onward at once, exactly under that condition |
| PathRelative.ClimbingBaseIsNotUndone | src/filesystem.cpp:396-411 | from ../x to y the result is y, which leads elsewhere |
| PathRelative.KeptMeaning | src/filesystem.cpp:380-389 | what is kept of a path resolves like the path |
| PathRoundTrip.ClimbedBack | src/filesystem.cpp:396-409 | as many dot-dots as counted lead back to where the list began, with the levels it climbed replaced by the names it came down first |
| PathRelative.AppendMeaning | include/filesystem:130-139 | resolving left / right is resolving left and then right |
| PathRelativeLaws.FromItself | tests/test_filesystem.cpp:66-66 | a path leads to itself by a dot |
| PathRelativeLaws.FromParent | tests/test_filesystem.cpp:65-65 | from p to p/x by x |
| PathRelativeLaws.FromParentSeparated | tests/test_filesystem.cpp:67-67 | from p to p/x/ by x/ |
| PathRelativeLaws.FromChild | src/filesystem.cpp:396-412 | from p/x to p by a dot-dot |
| PathRelativeLaws.FromSibling | src/filesystem.cpp:396-412 | from p/x to p/y by a dot-dot and y |
| PathIterator.ComponentIterator.SetComponent | src/filesystem.cpp:257-273 | the iterator moves to the offset with the component that lies there |
| PathIterator.ComponentIterator.Increment | src/filesystem.cpp:275-300 | the offset becomes the start of the next component, of the empty one after a final slash, or the end |
| PathIterator.ComponentIterator.Decrement | src/filesystem.cpp:302-331 | the offset becomes that of the previous component |
| PathIterator.ComponentIterator.Equals | include/filesystem:201-203 | iterators are equal if and only if they are over the same path object and have the same components still to come |
| PathIterator.NextPathComponent | src/filesystem.cpp:129-152 | the component at an offset and the offset of the next, as the iterator has them |
| PathIterator.CollectComponents | src/filesystem.cpp:275-300 | walking from begin to end ends and yields the component list |
| PathIterator.NextIsOffset | src/filesystem.cpp:275-300 | every step forward leads to an offset the iterator can stand at, and nearer to the end |
| PathIterator.DecrementUndoesIncrement | src/filesystem.cpp:275-331 | stepping back undoes stepping forward at every position of every path |
| PathIterator.IncrementUndoesDecrement | src/filesystem.cpp:275-331 | stepping forward undoes stepping back at every position but the first |
| PathIterator.WalkIsComponents | src/filesystem.cpp:129-152 | the walk yields the root, the non-empty segments, and an empty component after a final slash |
| PathIterator.WalkBackMeetsWalk | src/filesystem.cpp:302-331 | what the walk back from any position passes and what the walk on from it yields make up the component list |
| PathOrder.Compare | src/filesystem.cpp:460-471 | the sign of the result is that of the lexicographic order on component lists |
| PathOrder.CompareViews | src/filesystem.cpp:466-468 | the sign of the result is that of the order on texts |
| PathOrder.ComparePathsIsPreorder | src/filesystem.cpp:460-471 | the comparison is zero if and only if the component lists are equal, antisymmetric, transitive and total |
| PathOrder.TextOrder | src/filesystem.cpp:466-468 | the comparison of texts is a total order |
| PathOrder.TextsExactly | src/filesystem.cpp:466-468 | a text is smaller if and only if it is a proper prefix or has the smaller byte where they first differ |
| PathOrder.PathsExactly | src/filesystem.cpp:460-471 | a path is smaller if and only if its component list is, in the same sense |
| PathOrder.Equals | include/filesystem:165-167 | paths are equal if and only if their component lists are |
| PathOrder.HashValue | src/filesystem.cpp:486-498 | the hash is a function of the component list alone |
| PathOrder.FnvVector | src/filesystem.cpp:486-498 | each byte goes in as the published test vector of FNV-1a for foobar has it |
| PathOrder.HashOfComponents | src/filesystem.cpp:486-498 | every byte of every component goes in, in order, each component closed by 0xff |
| PathOrder.EmptyHash | src/filesystem.cpp:486-498 | the hash of the empty path |
| PathOrder.EqualPathsAgree | src/filesystem.cpp:486-498 | paths that compare equal have the same hash and resolve alike |
| PathOrder.ParentPath | src/filesystem.cpp:429-447 | the components of the parent are those of the path but the last, and the root is its own parent |
| PathQuoting.InsertPath | src/filesystem.cpp:154-167 | the loop writes the quoted and escaped text |
| PathQuoting.ExtractPathString | src/filesystem.cpp:169-195 | the loop over the stream reads what the reading of quoted text or of a word says, leaves the stream after it, and fails exactly when the quote is not closed or there is no word |
| PathQuoting.UnquoteEscaped | src/filesystem.cpp:181-192 | reading escaped text anywhere in a stream gives the text and stops after its quote |
| PathQuoting.EscapedLength | src/filesystem.cpp:157-166 | there is one backslash for each quote and backslash, and nothing else is added |
| PathQuoting.QuotedExample | tests/test_filesystem.cpp:38-40 | how a path with a backslash is quoted |
| PathQuoting.ExtractUndoesInsert | src/filesystem.cpp:154-195 | every value is read back from its quoted form behind white space, and what follows is unread |
| PathQuoting.WordReadBack | src/filesystem.cpp:173-178 | a path written as one word is read back from behind white space, and what follows is unread |
| PathQuoting.InputStream.SkipWhitespace | include/istream:434-452 | skips blanks of a good stream and marks its end; a bad one fails and stays |
| PathQuoting.InputStream.Peek | include/istream:131-141 | the next character without moving, and the end mark where there is none |
| PathQuoting.InputStream.Get | include/istream:50-72 | the next character and one step on, or failure at the end |
| PathQuoting.InputStream.GetWord | include/string:1150-1173 | the word from the first character that is not passed over to the next white space; failure without one, or on a stream that is not good |
| PathQuoting.OneSpace | include/istream:434-452 | which four characters are passed over, and end a word |
| Utf8.AppendUtf8 | src/filesystem.cpp:88-104 | appends the encoding of a code point |
| Utf8.EncodedBytes | src/filesystem.cpp:88-104 | how many bytes a code point has, by its range, and the ranges of its first byte and of the others |
| Utf8.EncodedExamples | src/filesystem.cpp:88-104 | the encodings that RFC 3629 gives as examples |
| Utf8.FromU32String | src/filesystem.cpp:206-211 | encodes every code point in turn |
| Utf8.DecodeUtf8 | src/filesystem.cpp:106-127 | the byte loop computes the decoding, of malformed and truncated input as well |
| Utf8.StrayByte | src/filesystem.cpp:106-127 | a byte that starts no sequence is decoded as itself |
| Utf8.CutShort | src/filesystem.cpp:118-125 | a sequence that the input cuts short is decoded from the bits that are there |
| Utf8.DecodeEncoded | src/filesystem.cpp:88-127 | a code point below 0x200000 is decoded from its encoding, whatever follows |
| Utf8.DecodeOverrun | src/filesystem.cpp:98-103 | a code point from 0x200000 on is decoded as another one |
| Utf8.RoundTripExactly | src/filesystem.cpp:88-127 | decoding undoes encoding of a sequence if and only if all its code points are below 0x200000 |
| MersenneTwister.Engine.constructor | src/random.cpp:49-49 | a new engine holds the seeded block |
| MersenneTwister.Engine.Seed | src/random.cpp:51-56 | the block is the seed's recurrence, and the next call regenerates |
| MersenneTwister.Engine.SeedFrom | include/random:180-189 | each word is put together from its share of the sequence's numbers, one or two of them, and the next call regenerates |
| MersenneTwister.SeedSequences64 | include/random:180-189 | two seed sequences give an mt19937_64, which makes a word of two numbers, the same block if and only if their numbers are the same |
| MersenneTwister.Gather64KeepsLow | include/random:184-186 | the first number is the low half of the word |
| MersenneTwister.Gather64KeepsHigh | include/random:184-186 | the second number is the high half |
| MersenneTwister.Engine.Generate | src/random.cpp:58-71 | after the three in-place loops every position i holds x[n + i] of the recurrence over the old block |
| MersenneTwister.OverwriteOne | src/random.cpp:60-69 | one assignment in any of the three loops, wherever it reads old and new words, advances the recurrence by one |
| MersenneTwister.Engine.Next | src/random.cpp:73-82 | a call returns the tempered next word and leaves the engine continuing the same sequence one word on |
| MersenneTwister.Engine.Discard | src/random.cpp:84-87 | the engine continues the same sequence `count` words on |
| MersenneTwister.Engine.Equals | src/random.cpp:89-96 | engines are equal if and only if index and block are |
| MersenneTwister.Draw | src/random.cpp:73-82 | the k-th of any number of calls returns temper(x[index + k]) of the block at the start, across regenerations |
| MersenneTwister.DrawAfterSeed | src/random.cpp:51-87 | after any seed and any discard(skip), the k-th call returns temper(x[n + skip + k]) |
| MersenneTwister.DrawFromEquals | src/random.cpp:73-96 | engines that compare equal return equal outputs for any number of calls |
| MersenneTwister.Restart | src/random.cpp:58-71 | a block of n consecutive words of a sequence generates the rest of that sequence |
| MersenneTwister.ContinuesFurther | src/random.cpp:73-87 | continuing a sequence and skipping in it compose |
| MersenneTwister.Temper32IsInjective | src/random.cpp:77-80 | the tempering of mt19937 loses nothing |
| MersenneTwister.Temper64IsInjective | src/random.cpp:126-129 | the tempering of mt19937_64 loses nothing |
| MersenneTwister.OutputsFixTheFuture | src/random.cpp:58-82 | with such a tempering, engines that agree on n outputs in a row agree forever |
| MersenneTwister.TwistersAreObservable | src/random.cpp:58-131 | so 624 outputs fix the future of an mt19937, and 312 that of an mt19937_64 |
| MersenneWords.TwistSums32 | src/random.cpp:58-70 | the twist of mt19937 is the far word, a part of the near word and a part of the next one, added without carry |
| MersenneWords.TwistNearIsLinear32 | src/random.cpp:58-70 | the part of the near word is linear |
| MersenneWords.TwistNextIsLinear32 | src/random.cpp:58-70 | the part of the next word is linear |
| MersenneWords.TwistBits32 | src/random.cpp:58-70 | which bits of either count, where they go, and that bit 0 turns into the matrix constant |
| MersenneWords.MixIsLinear32 | src/random.cpp:51-55 | what is done to the last seed word before it is multiplied is linear |
| MersenneWords.MixBits32 | src/random.cpp:51-55 | and adds the two highest bits to the two lowest |
| MersenneWords.ScaleIsTimes32 | src/random.cpp:51-55 | the multiplication is n times the multiplier, modulo 2^32 |
| MersenneWords.GrowSums32 | src/random.cpp:51-55 | a seed word is made of the last one so, and of the counter |
| MersenneWords.TemperIsLinear32 | src/random.cpp:77-80 | the tempering is linear |
| MersenneWords.TemperBits32From0 | src/random.cpp:77-80 | what it makes of bits 0 to 15 |
| MersenneWords.TemperBits32From16 | src/random.cpp:77-80 | what it makes of bits 16 to 31 |
| MersenneWords.FirstOutput32 | src/random.cpp:49-82 | the first number of mt19937 with the default seed |
| MersenneWords.TwistSums64 | src/random.cpp:107-119 | the twist of mt19937_64 is the far word, a part of the near word and a part of the next one, added without carry |
| MersenneWords.TwistNearIsLinear64 | src/random.cpp:107-119 | the part of the near word is linear |
| MersenneWords.TwistNextIsLinear64 | src/random.cpp:107-119 | the part of the next word is linear |
| MersenneWords.TwistBits64 | src/random.cpp:107-119 | which bits of either count, where they go, and that bit 0 turns into the matrix constant |
| MersenneWords.MixIsLinear64 | src/random.cpp:100-104 | what is done to the last seed word before it is multiplied is linear |
| MersenneWords.MixBits64 | src/random.cpp:100-104 | and adds the two highest bits to the two lowest |
| MersenneWords.ScaleIsTimes64 | src/random.cpp:100-104 | the multiplication is n times the multiplier, modulo 2^64 |
| MersenneWords.GrowSums64 | src/random.cpp:100-104 | a seed word is made of the last one so, and of the counter |
| MersenneWords.TemperIsLinear64 | src/random.cpp:126-129 | the tempering is linear |
| MersenneWords.TemperBits64From0 | src/random.cpp:126-129 | what it makes of bits 0 to 15 |
| MersenneWords.TemperBits64From16 | src/random.cpp:126-129 | what it makes of bits 16 to 31 |
| MersenneWords.TemperBits64From32 | src/random.cpp:126-129 | what it makes of bits 32 to 47 |
| MersenneWords.TemperBits64From48 | src/random.cpp:126-129 | what it makes of bits 48 to 63 |
| MersenneWords.FirstOutput64 | src/random.cpp:98-131 | the first number of mt19937_64 with the default seed |
| StopSafety.InitialInv | include/stop_token:14-26 | the invariant holds before anything is registered or requested |
| StopSafety.StepKeeps | src/stop_token.cpp:60-106 | every step of every thread, also with callbacks built where others were, keeps the invariant of states, callbacks, lists, frames, locks and addresses |
| StopSafety.ApartKeeps | src/stop_token.cpp:68-76 | callbacks that are not dead never share an address, and above a frame of one of them there is no frame of another at its address |
| StopRuns.RunKeepsInv | src/stop_token.cpp:60-106 | the invariant holds throughout every run |
| StopRuns.OneSuccess | src/stop_token.cpp:78-106 | in every run at most one request_stop of a state returns true |
| StopRuns.InvokedOnce | src/stop_token.cpp:86-103 | in every run a callback is started at most once, by request_stop or by its own constructor |
| StopRuns.WinnerServesAll | src/stop_token.cpp:85-105 | when the winning call returns the list is empty, and every callback registered at the flip was invoked once or removed first |
| StopRuns.SameWinner | src/stop_token.cpp:85-105 | the thread that flipped the flag is the one that drains the list until it returns |
| StopRuns.WaitersWillBeWoken | include/stop_token:143-147 | a destructor waits only while another thread is still to finish the invocation and broadcast |
| StopProgress.LoserReturns | src/stop_token.cpp:78-83 | in every run a thread that asks for a stop requested before, with the mutex free or its own, is at most two of its steps from returning, and nothing else has changed then |
| StopProgress.SecondRequest | src/stop_token.cpp:78-83 | the whole call leaves everything as it was |
| StopProgress.WinnerReturns | src/stop_token.cpp:85-106 | in every run the winning thread, with callables that return at once, is four steps a callback and one from returning; each listed callback was invoked, and nothing else has changed |
| StopProgress.FirstRequest | src/stop_token.cpp:78-106 | the whole call |
| StopProgress.Registers | include/stop_token:93-122 | a registration before the stop: three steps, and the callback is the first of the list |
| StopProgress.RegistersLate | include/stop_token:93-116 | a registration after it: the callable has run once, and the callback is left unregistered |
| StopDestruction.DestructorReturns | include/stop_token:126-147 | in every run a destructor that need not wait returns in four or five steps: the callback is dead and off the list, and a frame at its address is marked |
| StopDestruction.InertReturns | include/stop_token:126-130 | the destructor of an unregistered callback returns at once |
| StopDestruction.InvocationEnds | src/stop_token.cpp:96-103 | when a callable returns, its callback no longer runs, and whoever waits for that is awake |
| StopDestruction.WaiterReturns | include/stop_token:140-146 | in every run a destructor that waits returns, in a number of steps that the list bounds, once the callables return |
| StopLifetimes.LeavesEarlyExactly | include/stop_token:135-151 | in every run, another thread is in the callback when a destructor returns if and only if it runs and the frame found at its address was an older one |
| StopLifetimes.DestructorIsLast | include/stop_token:135-151 | otherwise, when a destructor returns, only the thread itself can still be inside the callback, and its frame is marked |
| StopLifetimes.DeadStaysQuiet | include/stop_token:135-151 | a thread that is inside a dead callback was left there by a destructor that returned early |
| StopLifetimes.OrphansExactly | src/stop_token.cpp:68-103 | in every run some thread is inside a dead callback at some time if and only if some destructor returned early |
| StopLifetimes.NothingDeadIsTouched | src/stop_token.cpp:86-103 | in every run, what a step touches is dead only if its destructor returned early |
| StopLifetimes.TidyRunsAreSafe | src/stop_token.cpp:68-103 | without a callback built where one is still being invoked, no destructor returns early, nobody is inside a dead callback and no step touches one |
| StopLifetimes.HolderCanGoOn | src/stop_token.cpp:54-58 | the holder of a mutex is blocked if and only if what it touches next is dead, and then the source says nothing |
| StopStaleFrame.StaleFrameRun | src/stop_token.cpp:68-103 | a run of two threads and two callbacks at one address in which a destructor returns early and the other thread comes back to a dead callback |
| StopList.CallbackList.LinkIn | include/stop_token:118-122 | registration puts the callback at the head of the list |
| StopList.CallbackList.TakeFirst | src/stop_token.cpp:86-89 | draining takes the head and leaves the rest |
| StopList.CallbackList.RemoveCallback | src/stop_token.cpp:60-66 | relinking takes out the target and nothing else, or changes nothing when it is not there |
| StopList.MarkDestroyedIfCurrent | src/stop_token.cpp:68-76 | exactly the innermost frame with the callback's address is marked, if there is one |
| StopHandles.World.MakeSource | src/stop_token.cpp:148-152 | a source with a new state, or without one when there is no memory; the counts stay right |
| StopHandles.World.Copy | src/stop_token.cpp:110-159 | a copied token or source shares the state, and the counts stay right |
| StopHandles.World.Move | src/stop_token.cpp:115-162 | a moved handle takes the state over and empties its source |
| StopHandles.World.CopyAssign | src/stop_token.cpp:122-182 | the old state is given up before the new one is shared, also when they are the same |
| StopHandles.World.MoveAssign | src/stop_token.cpp:132-193 | the old state is given up and the new one taken over |
| StopHandles.World.Destroy | src/stop_token.cpp:118-168 | a state is deleted exactly when its last handle goes |
| StopHandles.World.GetToken | src/stop_token.cpp:201-203 | the token shares the source's state |
| StopHandles.World.Register | include/stop_token:93-123 | a callback takes a reference; the constructor is late if and only if the stop was requested before |
| StopHandles.World.FinishLate | include/stop_token:93-123 | a late constructor gives its reference up when the callable has returned, and the state goes exactly with the last one |
| StopHandles.World.RequestStop | src/stop_token.cpp:198-200 | true exactly for the first request on a state; the stop stays requested |
| StopHandles.World.StopPossible | src/stop_token.cpp:36-39 | true if and only if a stop was requested or some live source has the state |
| StopHandles.CountsAreHandles | src/stop_token.cpp:31-46 | refs is the number of tokens, sources and callbacks of a state, sources that of its sources |
| StopHandles.FreedExactly | src/stop_token.cpp:40-46 | a state is deleted once, and exactly when no handle has it |
| FutureProtocol.InitialInv | include/future:43-50 | the invariant holds for a new state with its promise |
| FutureProtocol.StepKeepsInv | src/future.cpp:10-67 | every step of every thread keeps the invariant of lock, outcome, waiters, handles and references |
| FutureRuns.RunKeepsInv | src/future.cpp:10-166 | the invariant holds throughout every run |
| FutureRuns.NoLostWakeUp | src/future.cpp:16-52 | a thread is blocked on a ready state only while some setter is yet to notify, between unlock and notify_all once the mutex is free |
| FutureRuns.WaiterGetsThrough | src/future.cpp:16-52 | in every run a thread that waits on a ready state is at most four steps from getting through |
| FutureProgress.OperationReturns | src/future.cpp:10-166 | in every run a thread inside any operation, but a wait for an outcome that is not there, is at most twelve steps from its return; an outcome is unchanged, a set has made one, and a handle that was being ended is gone |
| FutureProgress.DestructionEnds | src/future.cpp:27-57 | in every run a promise that is being destroyed is gone within twelve steps, and the state with it if the future is gone or was never asked for |
| FutureProgress.FirstSet | src/future.cpp:59-67 | a set on a pending state makes it ready with that outcome, and wakes whoever waits |
| FutureProgress.SecondSet | src/future.cpp:19-20 | a set on a ready state changes nothing |
| FutureProgress.FirstFuture | src/future.cpp:37-42 | the first get_future hands out a future with a reference |
| FutureProgress.SecondFuture | src/future.cpp:37-42 | a second one changes nothing |
| FutureProgress.ReadyWait | src/future.cpp:44-52 | a wait on a ready state changes nothing |
| FutureProgress.PendingWait | src/future.cpp:44-52 | a wait on a pending state blocks, with the mutex free |
| FutureProgress.ReadyGet | src/future.cpp:100-115 | a get on a ready state delivers its outcome, and the future is gone with its reference |
| FutureRuns.HolderCanGoOn | src/future.cpp:16-52 | the holder of the mutex is never blocked |
| FutureRuns.OutcomeIsFrozen | src/future.cpp:16-35 | once the state is ready its outcome never changes |
| FutureRuns.GetReadsUndisturbed | src/future.cpp:100-115 | while get reads the outcome without the mutex no thread is about to write it |
| FutureRuns.SatisfiedOnce | src/future.cpp:16-67 | in every run exactly one set or abandon makes the state ready |
| FutureRuns.RefusedOnlyAfterSatisfied | src/future.cpp:19-20 | a set is refused only after another was granted |
| FutureRuns.GetDeliversWhatWasSet | src/future.cpp:100-115 | get leaves with the meaning of the one request that was granted |
| FutureRuns.NullExceptionIsValue | src/future.cpp:16-115 | if the granted request set a null exception, get delivers a value |
| FutureRuns.FreedIsUntouched | src/future.cpp:54-57 | no thread inside an operation finds the state deleted |
| FutureRuns.FreedOnce | src/future.cpp:10-14 | references stay between 0 and 2, and the state is deleted once, exactly when both handles are gone |
| FutureRuns.AbandonedIsReady | src/future.cpp:27-35 | a state whose promise is gone is ready |
| FutureRuns.RetrievedOnce | src/future.cpp:37-42 | in every run at most one get_future succeeds |
| FutureHandles.SharedState.SetValue | src/future.cpp:59-67 | sets the value, or refuses and changes nothing when ready |
| FutureHandles.SharedState.SetException | src/future.cpp:16-25 | sets the exception, or refuses and changes nothing when ready |
| FutureHandles.SharedState.Abandon | src/future.cpp:27-35 | a state that was not ready is broken, and any other keeps its outcome |
| FutureHandles.World.MakePromise | src/future.cpp:117-117 | a promise with a new pending state |
| FutureHandles.World.GetFuture | src/future.cpp:148-154 | one future per state, with its own reference; both errors |
| FutureHandles.World.SetValue | src/future.cpp:156-160 | the state's outcome becomes a value, or which error, with the world in order |
| FutureHandles.World.SetException | src/future.cpp:162-166 | the state's outcome becomes the exception, or which error |
| FutureHandles.World.IsReady | src/future.cpp:142-146 | whether there is an outcome |
| FutureHandles.World.DestroyPromise | src/future.cpp:135-140 | a pending state becomes broken, and is deleted exactly when no future has it |
| FutureHandles.World.MovePromise | src/future.cpp:119-121 | the state goes over, with its outcome and count |
| FutureHandles.World.AssignPromise | src/future.cpp:123-133 | the old state is abandoned and released, the new one taken over |
| FutureHandles.World.DestroyFuture | src/future.cpp:89-92 | the state keeps its outcome, and is deleted exactly when no promise has it |
| FutureHandles.World.MakeFuture | include/future:195-195 | a future without a state; all counts stay right |
| FutureHandles.World.MoveFuture | src/future.cpp:75-77 | the state goes over |
| FutureHandles.World.AssignFuture | src/future.cpp:79-87 | the old state is released, the new one taken over |
| FutureHandles.World.Wait | src/future.cpp:94-98 | waits exactly on a pending state |
| FutureHandles.World.Get | src/future.cpp:100-115 | delivers the outcome, empties the future, and deletes the state exactly when no promise has it |
| FutureHandles.ReferencesAreHandles | src/future.cpp:10-14 | references is the number of live handles of a state: one or two, at most one of each kind |
| FutureHandles.FreedExactly | src/future.cpp:54-57 | a state is deleted once, and exactly when no live handle refers to it |
| FutureHandles.AbandonedIsReady | src/future.cpp:27-35 | a state without a promise has an outcome |
| FutureHandles.OnlyWaitsForPromise | src/future.cpp:94-98 | a future has to wait only while its promise lives |
| LocaleFacets.World.ReleaseNode | src/locale.cpp:35-42 | one reference to a node is given up, and every node that loses its last one goes with its facet |
| LocaleFacets.World.ReleaseRep | src/locale.cpp:138-141 | one reference to a representation is given up, and the last one gives up its list |
| LocaleFacets.World.CopyConstruct | src/locale.cpp:61-64 | the copy shares the representation; all counts stay right |
| LocaleFacets.World.Assign | src/locale.cpp:66-74 | the target gets the other's representation, and its old one is given up, also for itself |
| LocaleFacets.World.Destroy | src/locale.cpp:76-76 | the locale is gone, with everything only it held |
| LocaleFacets.World.DefaultConstruct | src/locale.cpp:57-57 | a locale without representation |
| LocaleFacets.World.MakeNamed | src/locale.cpp:112-122 | which names are refused, which are classic, and which get a representation |
| LocaleFacets.World.WithFacet | src/locale.cpp:124-126 | the new locale has the new facet in front of the other's, which stay shared |
| LocaleFacets.World.Swap | src/locale.cpp:148-152 | the representations are exchanged; all counts stay right |
| LocaleFacets.World.SetGlobal | src/locale.cpp:83-88 | the old global locale is returned, and the new one is in place |
| LocaleFacets.NothingDangles | src/locale.cpp:11-43 | all nodes of a live locale's list are live, up to the list's end |
| LocaleFacets.NothingLeaks | src/locale.cpp:11-43 | every node kept is in the list of some live locale |
| LocaleFacets.LiveExactly | src/locale.cpp:11-43 | a node is kept if and only if some live locale reaches it |
| LocaleFacets.FreedExactly | src/locale.cpp:35-42 | a facet is deleted as often as it was installed exactly when no live locale has it, and never more often |
| LocaleFacets.InstalledOnceFreedOnce | src/locale.cpp:35-42 | a facet installed once is deleted at most once, and exactly when no live locale has it |
| LocaleFacets.DeletedOnceExactly | src/locale.cpp:35-42 | once no live locale has a facet, it was deleted once if and only if it was installed once |
| LocaleFacets.DeletedWhileHeld | src/locale.cpp:35-42 | a deleted facet is still in a live locale if and only if it was deleted less often than installed |
| LocaleFacets.InstallTwice | src/locale.cpp:35-126 | two locales install one facet and the first goes: the facet is deleted, and the second still has it |
| LocaleFacets.NothingRemains | src/locale.cpp:11-43 | without live locales there are no nodes and no representations, and every facet was deleted |
| RegexTranslate.TranslateClass | src/regex.cpp:107-140 | the loop over a class finds its end, its contents and its displaced bracket and hyphen, or the range error |
| RegexTranslate.Translate | src/regex.cpp:76-173 | the character loop emits the text of the parsed pieces and numbers their groups, or throws at the first class that is refused |
| RegexRefusal.RefusedExactly | src/regex.cpp:133-138 | a class is refused if and only if a range of it ends in a class escape, or one comes right behind a hyphen that is escaped or not the first member |
| RegexRefusal.EscapeRangeIsRefused | src/regex.cpp:133-138 | so a class escape at an end of a range always throws |
| RegexRefusal.RefusedWithoutRange | src/regex.cpp:133-138 | a pattern without a range that throws |
| RegexRefusal.InRangeExactly | src/regex.cpp:133-138 | the test at a class escape is about the members next to it, whatever they are written as |
| RegexReading.MembersRead | src/regex.cpp:142-153 | the native library reads the members of a class up to the class's own bracket if and only if no plain [ among them stands before . = or : |
| RegexReading.ClassRead | src/regex.cpp:142-153 | the text of a closed class is read with exactly its extent if and only if it is readable, whatever follows |
| RegexReading.MembersReadBack | src/regex.cpp:126-140 | the members are read back as they were written if and only if no plain [ stands before . = or : |
| RegexReading.ClassReadBack | src/regex.cpp:142-153 | a closed class is read back with its own negation and members, an escaped bracket first and an escaped hyphen last, if and only if moreover it is not empty and does not start with an escaped caret |
| RegexRanges.RangesReadBack | src/regex.cpp:107-153 | the emitted members are read item by item as they were written, the displaced bracket first and hyphen last, if and only if no range ends in a displaced member or out of order and each hyphen that stands for itself comes first or last |
| RegexRanges.ClassRangesReadBack | src/regex.cpp:107-153 | so for every class of every pattern that is translated and read back; its ranges and single members are then exactly those written |
| RegexRanges.HyphenMakesRange | src/regex.cpp:108-140 | two classes without a range whose translations are read as one |
| RegexRanges.ScanIsWritten | src/regex.cpp:126-140 | what the loop keeps and displaces of a class is what is written in it |
| RegexNumbering.ShorthandReadBack | src/regex.cpp:25-51 | a class escape outside a class is read as its named class or the complement, with the underscore for the word escapes |
| RegexNumbering.ShorthandInClassExactly | src/regex.cpp:25-68 | a class escape puts into a class what it means outside if and only if it is not a complement |
| RegexNumbering.EscapeMeansTheSame | src/regex.cpp:10-69 | an escape that is no class escape is one token outside a class, and stands for the character that it puts into a class if and only if it is a control escape or one of a special character |
| RegexNumbering.ParsedOk | src/regex.cpp:84-171 | what parsing guarantees about every piece, and that no class has a bare bracket among its members |
| RegexNumbering.PieceRead | src/regex.cpp:84-171 | every other piece is read as one token, and opens a group exactly when it is one |
| RegexTokens.DotReadBack | src/regex.cpp:85-88 | the text for a dot is read, whatever follows, as the negated class of exactly the line feed and the carriage return |
| RegexTokens.DotMatches | tests/test_regex.cpp:24-24 | so a dot matches a character if and only if it is no line end |
| RegexTokens.PieceFirst | src/regex.cpp:84-171 | the text of every piece that can be kept is one token, with the meaning that the piece has in ECMAScript |
| RegexTokens.TranslationMeans | src/regex.cpp:76-173 | for patterns with closed and faithful classes and references of one digit, the whole translation is read as the meanings of the pieces, in order |
| RegexTokens.PieceIsWritten | src/regex.cpp:84-171 | a piece is what the pattern has at its place |
| RegexTokens.PlainClass | src/regex.cpp:107-153 | a class without escapes ends at its first bracket and has the characters in front of it |
| RegexTokens.BracketClass | src/regex.cpp:128-130 | an escaped bracket does not end a class, and is kept |
| RegexTokens.EmptyPattern | src/regex.cpp:77-79 | the empty pattern becomes an x that is repeated no times |
| RegexNumbering.TranslationReadExactly | src/regex.cpp:76-173 | for patterns with closed classes the whole translation is read piece by piece if and only if every class is readable |
| RegexNumbering.NumbersIncrease | src/regex.cpp:90-104 | the submatch numbers strictly increase and are numbers of groups that were opened, for every pattern |
| RegexNumbering.GroupsNumberedNatively | src/regex.cpp:90-104 | then the k-th capturing group's own parenthesis opens the native group it is mapped to |
| RegexNumbering.SubmatchesAreNative | src/regex.cpp:305-310 | then native_submatch is strictly increasing and within the native count, which is the number of groups opened |
| RegexNumbering.BackReferenceExactly | src/regex.cpp:161-169 | a back-reference to any of the groups names its final native number if and only if it was opened before and that is at most 9, or it was not and that is the digit itself |
| RegexNumbering.EarlyReferenceMisnamed | src/regex.cpp:161-169 | a reference in front of its group that names another one |
| RegexNumbering.TenthGroupMisnamed | src/regex.cpp:161-169 | with nine groups before it, the reference to a capturing group is emitted as an escaped colon |
| RegexNumbering.NegationReadExactly | src/regex.cpp:142-144 | a class is read as negated if and only if it is, or starts with an escaped caret |
| RegexNumbering.NamedClassMisread | src/regex.cpp:126-153 | for each class name, the pattern [[:name:](] is accepted with a submatch entry of one and a native count of zero |
| RegexLoops.Expand | src/regex.cpp:440-462 | the loop over a replacement text expands its markers, or reads outside the array exactly when a marker names a group beyond the native ones |
| RegexLoops.Replace | src/regex.cpp:425-472 | the search loop ends, with empty matches too, and returns the subject with each match replaced and all else kept, or reads outside the array |
| RegexLoops.FindsOrdered | src/regex.cpp:433-469 | the matches found lie in the subject one after the other, for every oracle with spans in range |
| RegexMatches.NothingMissed | src/regex.cpp:425-472 | with leftmost answers that do not depend on where the search begins, every match of the pattern starts inside a match that the loop finds, or with it |
| RegexMatches.FoundsMatch | src/regex.cpp:425-472 | and each one found is a match |
| RegexLoops.WholeMatch | src/regex.cpp:445-457 | $& and $0 stand for the match, $$ for a dollar sign |
| RegexGroups.MarkerIsGroup | src/regex.cpp:445-460 | the marker and the token of the k-th capturing group are what the native group matched that its own parenthesis opens |
| RegexGroups.OtherMarkers | src/regex.cpp:445-460 | a marker of no group is nothing, and any other character behind a dollar sign stays |
| RegexGroups.ExpansionSplits | src/regex.cpp:440-462 | markers and text are expanded one after the other |
| RegexGroups.SwappedGroups | tests/test_regex.cpp:34-34 | $2$1 is the second group and then the first |
| RegexGroups.TokenAt | src/regex.cpp:492-503 | the i-th token of a group is what it matched in the i-th match |
| RegexGroups.NoGroupToken | src/regex.cpp:502-504 | a token of no group is empty |
| RegexLoops.PlainReplacement | src/regex.cpp:440-444 | a text without dollar signs stands for itself |
| RegexLoops.ReplaceByItself | src/regex.cpp:425-472 | replacing by $& or $0 changes nothing |
| RegexLoops.ReplaceByNothing | src/regex.cpp:425-472 | the empty replacement shortens the subject by exactly what was matched |
| RegexLoops.ReplaceAll | src/regex.cpp:425-472 | both for all the matches that the loop finds |
| RegexLoops.TranslationStaysWithin | src/regex.cpp:305-472 | for readable closed patterns no replacement and no token reads outside the array |
| RegexLoops.MisreadClassReadsBeyond | src/regex.cpp:425-514 | for [[:name:](] the marker $1 and the token 1 do |
| RegexLoops.RegexSearch | src/regex.cpp:369-384 | the text of every logical group, or that it took no part, through its native number |
| RegexLoops.RegexMatch | src/regex.cpp:401-408 | with leftmost-longest answers, true if and only if the pattern matches the whole subject |
| RegexLoops.Tokenize | src/regex.cpp:474-514 | the constructor's loop ends, and its tokens are the gaps between the matches, or one group of each match, or it reads outside the array |
| RegexLoops.SplittingLosesNothing | src/regex.cpp:492-513 | gaps and matches in turn are the subject; one empty last gap is left out exactly when the last match ends the subject |
| DigitGrouping.LocalizeNumber | src/ostream.cpp:99-143 | the output buffer holds as much as it can of sign, last 40 characters of the grouped digits, and fraction |
| DigitGrouping.FillReversed | src/ostream.cpp:120-136 | the loop from the right fills the inner buffer with the reversed grouping |
| DigitGrouping.EmitReversed | src/ostream.cpp:137-138 | emitting it backwards emits the grouping's last 40 characters |
| DigitGrouping.RemainingIsGrouped | src/ostream.cpp:125-136 | separators placed by counting from the right are those of the groups |
| DigitGrouping.GroupSizes | src/ostream.cpp:123-132 | from the right, group i has the size grouping[min(i, last)]; only the leftmost may be shorter, and after a zero it is unlimited |
| DigitGrouping.GroupSizesExactly | src/ostream.cpp:123-132 | the same in the terms of the facet's own string |
| DigitGrouping.WhenGrouped | src/ostream.cpp:116-136 | nothing is grouped without sizes or a separator; 41 characters are cut by one |
| DigitGrouping.PartsOfNumber | src/ostream.cpp:107-143 | a number is a sign, digits and the rest, whose points become decimal points |
| DigitGrouping.LocalizedExample | tests/test_locale.cpp:107-110 | two numbers as they come out |
| DigitGrouping.GroupsConcat | src/ostream.cpp:125-136 | the groups are the digits |
| DigitGrouping.DeletingRestoresExactly | src/ostream.cpp:125-136 | deleting the separators gives the digits back if and only if the separator is not among them |
| DigitGrouping.TwentyDigitsFit | src/ostream.cpp:120-136 | at most 20 digits fit the inner buffer, however they are grouped |
| DigitGrouping.TwentyOneDigitsDoNot | src/ostream.cpp:120-136 | 21 digits in groups of one do not |
| DigitGrouping.CompleteExactly | src/ostream.cpp:99-143 | the output is the whole localized number if and only if the grouping fits the inner buffer and the whole the outer one |
| DigitGrouping.ShortNumbersComplete | src/ostream.cpp:99-143 | so numbers of up to 20 digits are complete whenever they fit the output |
| BudgetPlan.RepetitionCost | scripts/generate_realworld_benchmark_reports.py:67-75 | twice the estimates of all modes, or the first mode without one |
| BudgetPlan.ModeAdded | scripts/generate_realworld_benchmark_reports.py:67-75 | a mode more costs its estimate twice more |
| BudgetPlan.Costs | scripts/generate_realworld_benchmark_reports.py:84-84 | a cost for exactly the given projects, or an error |
| BudgetPlan.Cheapest | scripts/generate_realworld_benchmark_reports.py:102-103 | the first of the candidates with the least time so far |
| BudgetPlan.TotalStep | scripts/generate_realworld_benchmark_reports.py:104-105 | one more repetition costs what one costs, however often a project is listed |
| BudgetPlan.FairStep | scripts/generate_realworld_benchmark_reports.py:94-104 | repeating the candidate with the least time keeps every pair of projects fair |
| BudgetPlan.Fill | scripts/generate_realworld_benchmark_reports.py:91-106 | the loop ends within the budget, between one repetition and the cap, maximal and fair |
| BudgetPlan.MakePlan | scripts/generate_realworld_benchmark_reports.py:78-106 | a plan with all these properties exactly when all estimates exist and one repetition of everything is affordable |

## Left out

- System calls, directory iterators, clocks, entropy and thread creation: they belong to the kernel.
- Matching itself (regcomp, regexec): `RegexReading` models only how the native library finds tokens in a pattern, and `RegexLoops` takes its answers as a parameter with spans in range.
- Unterminated classes: `RegexTranslate.Translate` follows the code on them, but the theorems about reading are about closed ones.
- The constructors of regex, and the prefix and suffix of a match: they only pass on what the parts above give.
- RegexReading.ClassRead: what stands in [. .] and [= =] is not checked; only a class name in [: :] is.
- RegexRanges.RangesReadBack: an escaped D, S or W in a class counts as its letter, as the code has it.
- RegexRanges.ClassRangesReadBack: a class that is refused has no translation; RegexRefusal.RefusedExactly says which these are.
- RegexTokens.TranslationMeans: what operators and tokens match in sequence is the native library's; only what each token is.
- RegexMatches.NothingMissed: anchors and word boundaries, whose matches depend on where a search begins, are outside its assumption.
- StopDestruction.WaiterReturns: the invocation that is waited for is the innermost one of its thread.
- RegexTranslate.Translate: characters are unsigned here; a negative char of a signed type is the one 256 above it.
- PathQuoting.InputStream.GetWord: what the stream's sentry passes over is a parameter.
- PathOrder.Compare: characters are compared as unsigned bytes, as char_traits does; only the sign of the result is specified.
- Utf8.DecodeUtf8: 16-bit wchar_t is not modelled.
- MersenneTwister.Engine.SeedFrom: the numbers that a seed sequence generates are a parameter.
- StopProtocol: no run goes on past a step that touches a dead callback, which the source does not define; what a callable itself does with storage that is gone is the caller's; a run that needs a stop state to outlive its handles is StopHandles' subject.
- StopHandles: what happens under the mutex is not modelled there, and an operation is one step, because the counts are atomic.
- StopHandles.World.RequestStop: running the callbacks is StopProtocol's subject; here it is only what the call leaves of the handles.
- FutureProtocol: wait_for, is_ready and moves of the handles are not steps; a handle is ended or consumed by one thread while no other uses it, as the standard demands of callers.
- FutureHandles.World.Wait: a wait that would block is reported as such instead of blocking.
- future of a value type, packaged_task and async: templates over the same state, whose storage is not modelled.
- LocaleFacets: the addresses of facets are numbers, the destructor of a facet only counts, and locale::operator== is not modelled.
- DigitGrouping: width, fill and padding of the stream, and the formatting of the number before it is grouped.
- BudgetPlan: durations are real numbers, so rounding is not modelled; estimates are not negative and the cap is at least one, as the script checks.
- Benchmark drivers, build recipes, report scripts and CMake files: subprocesses and text.
