# The libpov library and its tools, modelled in Dafny

Four parts of the repository are modelled and proved: the PCRE 8.36 compiler in
`lib/include/libpov`, the heap beside it, the two generators of pseudo-random bytes, and the
buffered reader of `cb-replay.py`. `dafny verify dfyconfig.toml` checks everything.

## What is modelled

**Compiled code.** `Bytecode` gives compiled code as a tree and a relation `At` between a tree
and the bytes that encode it, every link resolved, two bytes to a link, most significant
first. `Matching` says which spans of a subject a tree accepts; `Machine` runs the bytes
themselves, one opcode at a time, and proves that the runs are exactly those spans.
`Ordered` is a backtracking matcher that also says which match comes first and what it
captures, atomic and possessive groups included; `Matcher` does the same from the bytes,
opcode by opcode, and `Pairing` proves that on compiled code the two agree.

**The compiler.** A pattern is an abstract syntax tree (`Pattern`): literals caseful and
caseless, negated literals, dot (which in code is one of the character types), `\d \D \s \S
\w \W`, classes, `^ $ \A \z`, concatenation, alternation, capturing and non-capturing groups,
and greedy, lazy and possessive quantifiers. `Measure` is the first pass, which only adds up
lengths. `EmitChars`, `EmitGroups`, `EmitAlternatives` and `Compiler` are the second pass: it
writes into one byte array in place, moves groups up with the library's own `memmove`, copies
them, threads open brackets through their link fields and reverses the chains when groups
close. `Program` puts both passes together. `Translation` is the tree the second pass is
proved to write. Patterns have two meanings of their own: the spans that they match
(`Pattern`), and all their ways to match in order of preference (`Reference`). `Meaning` and
`Preference` prove that the tree has the same ones. `Characters` says what literals, dots and
anchors mean without the tables, and `Caseless` that case does not matter where it should not.

**Analyses and the optimiser.** Each analysis is a function on trees, proved sound, and a
method that reads the bytes and is proved to return the same: `Emptiness` and
`EmptinessScan`, `FixedLength`, `Anchoring`, `FirstChar` (computed by the compiler as it
goes). `Recorded`, `FixedPattern` and parts of `Anchoring` and `Shape` say of patterns, without
code, when each answer is given. `AutoPossess`, `CharSets`, `CompareScan` and `AutoScan` are
auto-possessification: the test, its character sets, the test on bytes, and the pass that
overwrites opcodes; `Followed` says when it acts.
`AnchoredFirst` and `Preferred` join this to what a search finds, `Compile` stores the results
in the header, and `Exec` is the search loop over the bytes with its shortcuts, proved to
return what the pattern means. `Misjudged` has the patterns for which it does not. `Links`,
`Walk` and `Recurse` are about links, stepping through code, and calls in a group that moves.
`NameTable` and `NameLookup` are the table of group names.

**The rest.** `Heap` is one block of the allocator as an array of 8-byte cells with 32-bit
words, `Stray` what a stale backward size does to payloads, and `Allocator` the heap. `Prng`
has both generators. `Replay` is the reader with its second thread. `Newline` has the two
newline tests.

The configuration is the shipped one: 8-bit, no UTF, no UCP, two-byte links, LF newlines,
default character tables, no multiline mode.

## Findings

- Auto-possessification can lose a match. `cgc_compare_opcodes` forgets that it has entered an
  atomic group when it calls itself for a zero-repeat or an alternative, and then takes the end
  of that group for the end of a group round the repeat. In `a+(?:b)?+a` the `a+` becomes
  possessive, and nothing is found in `aa` (`Misjudged.EnteredGroup`, for any two disjoint
  items). Nothing changes wherever the test would also pass if it went on behind such a group,
  or the rest of the program can be skipped (`AutoPossess.AutoPossessionIsInvisible`). For an
  item, an atomic group and a further item nothing changes only then
  (`Misjudged.ProbeIsExact`).
- `cgc_is_anchored` and `cgc_is_startline` count a `.*` inside a possessively repeated group,
  though the passes already made decide where the next begins. With dot matching everything,
  `(?:.*?aa)++c` is taken for anchored, and its match at 1 in `aaac` is missed
  (`Misjudged.LateStart`). Where no `.*` is counted inside such a group the search loses nothing
  (`Preferred.TiedSearch`).
- `cgc_adjust_recurse` is not right in general. It is right exactly when no resolved call in
  the group has its link field `adjust` bytes behind a pending one's, whose entry, once moved,
  is taken for an entry of the resolved call (`Recurse.AdjustmentIsRight`). `Recurse.ClashExample` is the
  group of `(a)(?:(?2)(?1))?+(b)` when its quantifier wraps it in OP_ONCE, with an adjustment
  of 3. With an adjustment of 1 it is always right (`Recurse.OneByteIsSafe`).
- `cgc_free` never corrects the backward size of the chunk behind a joined one. A later free of
  that chunk follows it into the middle of the chunk before, and adds to a word of its owner's
  payload if that word is even: exactly when the chunk before is in use, the backward size
  leads inside it, and the word there has its low bit clear (`Heap.FreeKeeps`;
  `Stray.StrayRun` is a run on a new block that gets there).
- `cgc_realloc` can lose part of what it has just copied in the same way: exactly when the
  first free chunk that fits ends where the old one begins and the backward size of that one
  leads to an even word of the copy (`Allocator.Clobbered`, which can be checked before the
  call). Four allocations and two frees lead to such a heap (`Stray.LostRun`,
  `Allocator.LostContents`).
- `cgc_realloc` to the present size, when the chunk cannot stay, copies one byte too many, into
  the header behind (`Allocator.CopyEqual`). With chunks of 256 bytes and more the block can
  come to be malformed by that (`Allocator.EqualBreaks`).
- The carry in the C generator's date/time vector runs on past its first byte when all of the
  vector is 255: the index is an unsigned byte, which wraps (`Prng.Generator.GenBlock`
  returns whether it stayed inside; `Prng.Generator.GetBytes` when that happens in a request).
- `cgc_find_firstassertedchar` never finds anything in a pattern without assertions
  (`Compile.FindFirstAsserted`), so what the compiler has recorded is final.
- The name table is ordered by unsigned bytes and searched by a comparison of signed ones. The
  two agree on two strings exactly when these part in two ASCII characters or two others
  (`NameLookup.OrdersAgree`), so on all names that the default tables allow; the name looked up
  may be any string.

## Model

| member | source | states |
|---|---|---|
| Opcodes.Put | lib/include/libpov/cgc_pcre_internal.h:430-435 | a stored link or count is read back unchanged if it fits 16 bits, otherwise modulo 65536; no other byte changes |
| Opcodes.MemMove | lib/include/libpov/cgc_pcre_internal.h:388-406 | the emulated memmove copies exactly the old source bytes, whichever way the two areas overlap, and changes nothing else |
| Bytecode.AtShift | lib/include/libpov/pcre_compile.c:5931-5936 | links are relative: moving the bytes of compiled code anywhere leaves them the encoding of the same tree |
| Machine.DecodeMany | lib/include/libpov/cgc_pcre_internal.h:1879-2000 | every repeat opcode, with its count or class behind it, decodes to the item, mode and bounds it was emitted for, across all five blocks of repeats |
| Characters.FlipsCase | lib/include/libpov/pcre_chartables.c:31-66 | flipping the case twice changes nothing, and two characters are the same lower-cased exactly when they are the same up to a flip |
| Characters.LiteralAccepts | lib/include/libpov/pcre_exec.c:3251-3310 | a caseless literal accepts what is the same as its character lower-cased, a caseful one that character alone, and a negated one all others |
| Characters.DotStaysInLine | lib/include/libpov/pcre_exec.c:2298-2330 | what a run of dots takes is all in one line; with DOTALL it may be anything |
| Characters.AnchorsHold | lib/include/libpov/pcre_exec.c:2071-2175 | the four anchors hold exactly at the start, at the end, and for the dollar also in front of a newline that ends the subject |
| Machine.AltsSkip | lib/include/libpov/pcre_exec.c:1859-1880 | following links from a bracket or any ALT arrives at the group's closing bracket |
| Machine.Enter | lib/include/libpov/pcre_exec.c:956-1122 | every run of the byte machine that starts at a branch passes its end, having consumed a span that the branch accepts |
| Machine.Leave | lib/include/libpov/pcre_exec.c:1859-2070 | every span a branch accepts, with a run from its end, gives a run from its start |
| Machine.RunsAreSpans | lib/include/libpov/pcre_exec.c:956-2070 | the machine running the bytes of a program accepts exactly the spans that the tree accepts, in both directions |
| Emptiness.EmptinessIsConservative | lib/include/libpov/pcre_compile.c:2342-2692 | a branch judged not to match the empty string consumes at least one character in every match |
| Emptiness.EmptyExactly | lib/include/libpov/pcre_compile.c:2342-2692 | a branch is judged able to be empty if and only if it matches the empty string |
| EmptinessScan.CouldBeEmptyBranch | lib/include/libpov/pcre_compile.c:2342-2692 | the scan over the bytes answers yes exactly when the branch that they encode matches the empty string, through nested groups, zero repeats and classes |
| EmptinessScan.GroupCouldBeEmpty | lib/include/libpov/pcre_compile.c:6186-6201 | the loop that decides about the S form of a bracket answers yes exactly when the group matches the empty string |
| Shape.PatternShape | lib/include/libpov/pcre_compile.c:6186-6201 | in the code of every pattern a looping group is marked by its bracket exactly when it matches the empty string, at every depth, and no class repeat has a zero range |
| Shape.EmptyExactlyIn | lib/include/libpov/pcre_compile.c:2342-2692 | a pattern matches the empty string exactly when in some branch every item may be absent or is a group that does |
| Shape.LoopMark | lib/include/libpov/pcre_compile.c:6186-6201 | a group of a pattern that is repeated without limit is marked if and only if the pattern inside it matches the empty string |
| Shape.OnlyMarkedGroupsLoop | lib/include/libpov/pcre_compile.c:6186-6201 | a group that loops and has a branch that matches the empty string has an S bracket, so only those can loop without progress |
| Meaning.CharsCorrect | lib/include/libpov/pcre_compile.c:5632-5864 | the one or two items for a quantified character, type or class (EXACT with UPTO, EXACT with STAR and the rest) accept only the repeats allowed, and all of them unless the quantifier is possessive |
| Meaning.RepeatedIn | lib/include/libpov/pcre_compile.c:5865-6245 | whatever the copies of a group, nested optional copies and loops that stand for a quantifier accept is some allowed number of passes through the group |
| Meaning.RepeatedOut | lib/include/libpov/pcre_compile.c:5865-6245 | and every allowed number of passes is accepted by them |
| Meaning.PatternCorrect | lib/include/libpov/pcre_compile.c:8060-8350 | the tree compiled for any pattern accepts only spans that the pattern denotes, and all of them when nothing is possessive |
| Meaning.CompilationPreservesMeaning | lib/include/libpov/pcre_compile.c:8730-9515 | so do the runs of the compiled bytes, for every subject, start and end |
| Preference.CharsAre | lib/include/libpov/pcre_compile.c:5632-5864 | a quantified character, type or class in code is tried with the counts that the quantifier prefers, in its order: EXACT with UPTO or STAR, class ranges, possessive forms and the atomic wrapping of types |
| Preference.OptionalIs | lib/include/libpov/pcre_compile.c:6055-6137 | optional copies nested in each other are taken most first or fewest first, with the captures of each |
| Preference.LoopExit | lib/include/libpov/pcre_exec.c:1905-2070 | a greedy or lazy loop tries another pass and the way out in the right order, and leaves after a pass that consumed nothing |
| Preference.KeepIs | lib/include/libpov/pcre_exec.c:1113-1280 | a possessive loop ends where the greedy one would first, with the same captures |
| Preference.QuantIs | lib/include/libpov/pcre_compile.c:5865-6395 | an item with any quantifier, followed by anything: its ways are tried by the code in the order of preference |
| Preference.PatternIs | lib/include/libpov/pcre_compile.c:8060-8350 | all the ways of any pattern, with their captures, are tried by its code in the order of preference |
| Preference.CodePrefers | lib/include/libpov/pcre_compile.c:8730-9242 | the compiled code of any pattern, possessive quantifiers included, finds first what the pattern prefers, with its captures |
| TwoPass.PatternFits | lib/include/libpov/pcre_compile.c:4521-4572 | the code for a pattern is never longer than what the first pass counts for it, and just as long unless something is repeated zero times and dropped |
| TwoPass.RepeatedSize | lib/include/libpov/pcre_compile.c:5989-6001 | the increments that the first pass adds for replicated groups are exactly the bytes the second pass adds, for every minimum and maximum |
| TwoPass.GroupSize | lib/include/libpov/pcre_compile.c:6063-6076 | the same for a quantified group as a whole, possessive ones included |
| TwoPass.ProgramFits | lib/include/libpov/pcre_compile.c:9240-9242 | the program with its outer bracket and OP_END fits the measured length |
| Measure.MeasureGroup | lib/include/libpov/pcre_compile.c:5989-6001 | adds what the formula for replicated groups says, or fails with ERR20 exactly when that overflows |
| Measure.MeasureBranch | lib/include/libpov/pcre_compile.c:4521-4572 | the length counted item by item, never going back where code is dropped, is the branch's length in the formula; errors are reported exactly where they are due |
| Measure.MeasureRegex | lib/include/libpov/pcre_compile.c:8328-8332 | the same for all branches of a group with its brackets and ALTs |
| Measure.MeasureProgram | lib/include/libpov/pcre_compile.c:9080-9125 | the first pass succeeds exactly when the program's length is at most 65536 and brackets nest at most 250 deep, and then returns that length |
| FirstChar.BranchSound | lib/include/libpov/pcre_compile.c:7613-7664 | what is recorded along a branch stays true of every match, through literals, nested groups, repeats and backing off for a zero minimum |
| FirstChar.OthersSound | lib/include/libpov/pcre_compile.c:8151-8205 | merging a further alternative keeps only what is true of all of them |
| FirstChar.PatternSound | lib/include/libpov/pcre_compile.c:7946-7989 | if a first character is recorded every match starts with it, and if a required one is recorded every match contains it, behind the first one, up to case when flagged |
| Recorded.RecordedExactly | lib/include/libpov/pcre_compile.c:7946-8205 | a first character is recorded if and only if the pattern starts with it, in every branch behind anchors and into groups; a required one if and only if it is what the pattern needs, read from the back; and the flag for variable length is set exactly behind a quantifier with different bounds |
| Recorded.RecordedMatches | lib/include/libpov/pcre_exec.c:6762-6776 | comparing with a recorded character accepts what the literal does |
| EmitChars.RepeatChars | lib/include/libpov/pcre_compile.c:5626-5832 | rewriting the character or type just emitted in place leaves the items for the quantifier, of the stated length, and nothing before it changes |
| EmitChars.RepeatClass | lib/include/libpov/pcre_compile.c:5834-5864 | the same for a class |
| EmitChars.MakePossessive | lib/include/libpov/pcre_compile.c:6263-6395 | a possessive quantifier turns the item into its possessive form by the opcode table, past an EXACT part, or wraps it in an atomic group, which moves it up |
| EmitChars.CompileChars | lib/include/libpov/pcre_compile.c:7900-7990 | a character, type or class with its quantifier is compiled in place to its code |
| EmitGroups.MakeLoop | lib/include/libpov/pcre_compile.c:6165-6245 | finds the bracket from the KET's link and rewrites both for an unlimited repeat, with the S form exactly when the group matches the empty string |
| EmitGroups.CopyTimes | lib/include/libpov/pcre_compile.c:5989-6045 | appends the required copies of a group; what results encodes that many copies |
| EmitGroups.NestCopies | lib/include/libpov/pcre_compile.c:6055-6137 | appends optional copies, chaining the open brackets through their link fields, then closes them: what results encodes the copies nested in each other, with all links final |
| EmitGroups.RepeatGroup | lib/include/libpov/pcre_compile.c:5865-6245 | every quantifier on a group: the bytes left encode the tree for it, have the stated length, and nothing before the group changes |
| EmitAlternatives.ReverseChain | lib/include/libpov/pcre_compile.c:8249-8268 | the backward chain of links between branches, however long, is reversed in place into the forward chain from the bracket to the end of the last branch |
| Compiler.CompileData.CompileBranch | lib/include/libpov/pcre_compile.c:4380-8030 | the branch's code is written exactly, its groups are numbered from left to right, and its first and required character are those of the summary that `Recorded` describes |
| Compiler.CompileData.CompileGroup | lib/include/libpov/pcre_compile.c:7480-7664 | the same for a group with its quantifier |
| Compiler.CompileData.CompileRegex | lib/include/libpov/pcre_compile.c:8060-8350 | the same for all branches of a group, whose links are final when it returns; the KET leads back to the bracket |
| Program.FillIn | lib/include/libpov/pcre_compile.c:9185-9242 | the second pass into a buffer of the measured length never overruns it (ERR23 cannot happen) and leaves the program; the length is exact unless something was dropped |
| Program.CompileProgram | lib/include/libpov/pcre_compile.c:8730-9242 | compiling fails exactly when a limit is exceeded; otherwise the bytes match only what the pattern denotes and what has the recorded characters, on every subject, and all of it when nothing is possessive |
| Program.CompiledMeaning | lib/include/libpov/pcre_compile.c:9185-9240 | every run of the bytes is a match of the pattern and has the recorded first and required characters, for every pattern; the converse without possessive quantifiers |
| Links.FollowsHeaders | lib/include/libpov/pcre_compile.c:8249-8268 | following links from a bracket visits the header of every branch in order and ends at the closing bracket |
| Links.LinksLead | lib/include/libpov/pcre_compile.c:8110-8111 | so for every group of compiled code at every nesting depth, and the KET's link leads back to the bracket |
| Links.ProgramLinked | lib/include/libpov/pcre_compile.c:8333-8338 | so for a whole program |
| FixedLength.FixedLengthIsExact | lib/include/libpov/pcre_compile.c:1715-2027 | every match of a branch with a fixed length has exactly that length |
| FixedLength.BranchesAreExact | lib/include/libpov/pcre_compile.c:1715-2027 | the same for all alternatives, which must agree |
| FixedLength.FindFixedLength | lib/include/libpov/pcre_compile.c:1715-2027 | the scan over the bytes returns that length, or -1 exactly when there is none, through nested groups |
| FixedPattern.PatternFixed | lib/include/libpov/pcre_compile.c:1715-2027 | the answer for the code of a pattern is the length that its quantifiers fix, and none exactly when they fix none: different bounds, branches of different length, or a group repeated zero times |
| FixedPattern.SpanFixed | lib/include/libpov/pcre_compile.c:1715-2027 | and every match of the pattern has that length, possessive quantifiers included |
| Anchoring.ExplicitlyAnchored | lib/include/libpov/pcre_compile.c:8390-8576 | a group that passes either test inside an atomic group matches only at the start |
| Anchoring.TiedFromBase | lib/include/libpov/pcre_compile.c:8390-8576 | a span of code that passes the test can be had, with the same end, from wherever the leading dot-star could have begun: the start of the subject, or of the line |
| Anchoring.TiedSpan | lib/include/libpov/pcre_compile.c:8390-8576 | a span of any pattern whose code passes the test, possessive quantifiers included, can be had from there with the same end; inside an atomic group it begins at the start |
| Anchoring.TiedExactly | lib/include/libpov/pcre_compile.c:8390-8576 | the code of a pattern passes a test if and only if every branch of the pattern begins with an anchor that counts, with dot-star outside possessive groups, or with a group that must be there and does so |
| Anchoring.IsAnchored | lib/include/libpov/pcre_compile.c:8390-8452 | the test on the bytes, following links from branch to branch and descending into groups, returns what it should for the tree |
| Anchoring.IsStartline | lib/include/libpov/pcre_compile.c:8478-8576 | so does the test for patterns that begin at the start of a line |
| Compile.FindFirstAsserted | lib/include/libpov/pcre_compile.c:8601-8669 | the scan for an asserted first character finds none in the code of a pattern |
| Compile.Finish | lib/include/libpov/pcre_compile.c:9295-9452 | the finished program is the optimised one, and the header holds the outcome of the tests and the recorded characters as far as a search can use them |
| Compile.CompileAll | lib/include/libpov/pcre_compile.c:8730-9453 | compiling from pattern to optimised program and header fails exactly when a limit is exceeded; the header, described by the pattern alone, is anchored or startline exactly for patterns whose branches all begin so, and has just the first and required characters that the pattern starts with and needs |
| Compile.HeaderFirst | lib/include/libpov/pcre_compile.c:9368-9403 | a pattern that is not anchored has a first character in the header if and only if it starts with it, and the search compares with it as the literal would |
| Compile.StoredIs | lib/include/libpov/pcre_compile.c:9405-9452 | a stored character keeps its caseless flag exactly when it is a letter, and stands for the same characters |
| Exec.Search | lib/include/libpov/pcre_exec.c:6729-7018 | the loop over starting positions, matching on the bytes, skipping to the first character or the next line, giving up without the required character and stopping when anchored, returns the leftmost match that trying every position would return, if the header keeps its promises; whatever it returns is a match |
| Exec.HeaderPromises | lib/include/libpov/pcre_compile.c:9368-9452 | the header of every pattern whose tests can be believed does keep them for the bytes compiled from it |
| Exec.BacktracksJudged | lib/include/libpov/pcre_compile.c:9295-9452 | they can be believed for every pattern without possessive quantifiers |
| Exec.CompileAndSearch | lib/include/libpov/pcre_exec.c:6729-7018 | compiling a pattern, optimising it and searching any subject from any position with the bytes returns the leftmost position where the pattern has a way to match, with the end and captures of its most preferred way, whenever the tests can be believed; and only matches of the pattern otherwise |
| Caseless.SearchFolds | lib/include/libpov/pcre_exec.c:3251-3310 | for a pattern whose literals are caseless and whose classes do not tell cases apart, a search finds the same, captures included, in any two subjects that are the same text up to case |
| Caseless.FlippedText | lib/include/libpov/pcre_chartables.c:31-66 | in particular in a subject with the case of every letter flipped |
| CharSets.TypeBit | lib/include/libpov/pcre_compile.c:3254-3296 | the table bitmaps for digits, spaces and word characters, complemented for negated types, hold exactly the characters of the type |
| CharSets.DisjointSound | lib/include/libpov/pcre_compile.c:3193-3572 | when two items are found disjoint, by the table of types, bitmaps or lists of characters, no character is accepted by both |
| CharSets.DisjointExactly | lib/include/libpov/pcre_compile.c:3193-3572 | two items are found disjoint if and only if no character is accepted by both and they are comparable: not a class against a dot or a negated literal, nor a newline against the dot |
| AutoPossess.CompareOpens | lib/include/libpov/pcre_compile.c:3066-3582 | when what follows can be skipped to the end of the program, the test passes only for a greedy repeat |
| AutoPossess.ThroughTry | lib/include/libpov/pcre_compile.c:3066-3582 | code that passes the test, going on behind the atomic groups it enters, consumes nothing in front of any character that the repeated item accepts: it is skipped to the end, or cannot match there, through groups, atomic ones too, alternatives, loops and the ends of the groups outside |
| AutoPossess.CountsIsLongest | lib/include/libpov/pcre_compile.c:3066-3582 | so trying every count in order finds the same match, with the same captures, as trying the longest alone |
| AutoPossess.AutoPossessionIsInvisible | lib/include/libpov/pcre_compile.c:3601-3703 | making every repeat possessive that passes the test leaves the first match and its captures unchanged, for every subject and position, if wherever a repeat is changed the test that goes on behind entered atomic groups passes too, or the rest can be skipped |
| Followed.AnchorExactly | lib/include/libpov/pcre_compile.c:3500-3545 | the test passes in front of an anchor if and only if that can hold in front of no character of the repeat, on any subject, and the repeat is one that is looked into |
| Followed.NewlinesAre | lib/include/libpov/pcre_compile.c:3519-3534 | the characters that count in front of the dollar are those with which a newline of any kind starts |
| Followed.BecomesExactly | lib/include/libpov/pcre_compile.c:3066-3582 | in front of a pattern whose groups are not repeated a repeat becomes possessive if and only if everything that may come next shares no character with it, cannot hold there, or is the end behind a greedy one |
| Followed.StarThenItem | lib/include/libpov/pcre_compile.c:3601-3703 | a star followed by a character that must be there is possessive in the optimised code if and only if the two share no character and are comparable |
| Followed.StarThenAnchor | lib/include/libpov/pcre_compile.c:3601-3703 | the same in front of an anchor |
| Followed.StarAtEnd | lib/include/libpov/pcre_compile.c:3601-3703 | a star that ends a pattern becomes possessive exactly when it is greedy |
| Misjudged.ProbeIsExact | lib/include/libpov/pcre_compile.c:3127-3186 | for a repeated item, an atomic group with any plain code in it and a further item, disjoint from the first or sharing a character with it, it is unchanged on every subject if and only if that condition holds |
| Misjudged.EnteredGroup | lib/include/libpov/pcre_compile.c:3148-3186 | a family of patterns whose code is of that kind: they match two characters, and after auto-possessification nothing is found there |
| OrderedSpan.FirstMatchIsMatch | lib/include/libpov/pcre_exec.c:745-2070 | what the ordered matcher finds is a match in the sense of spans, atomic and possessive groups included |
| OrderedSpan.FirstMatchExists | lib/include/libpov/pcre_exec.c:745-2070 | in code without those it finds one wherever there is one, though it breaks off loops that make no progress |
| Matcher.CodeIs | lib/include/libpov/pcre_exec.c:745-2070 | matching from any opcode, with any stack of groups entered, finds what the tree there finds, and in the same order: repeats, alternatives, loops, zero repeats, atomic and possessive groups |
| Matcher.BytesFind | lib/include/libpov/pcre_exec.c:745-2070 | the bytes of a program find what its tree finds first, with the same captures, at every position of every subject |
| Pairing.CompiledFinds | lib/include/libpov/pcre_exec.c:745-2070 | so do the bytes that compilation and optimisation leave for any pattern |
| Pairing.BytesPrefer | lib/include/libpov/pcre_compile.c:8730-9242 | the bytes that the second pass leaves for any pattern find its most preferred way, with its captures |
| Pairing.FoundIsRun | lib/include/libpov/pcre_exec.c:745-2070 | what the matcher on bytes finds is a run of the byte machine; without atomic and possessive parts it finds one wherever there is one |
| CompareScan.GetChrPropertyList | lib/include/libpov/pcre_compile.c:2860-3050 | the list read from the bytes describes the item that stands there: its characters, type or bitmap, whether it may be absent, and where the next one starts |
| CompareScan.ItemsDisjoint | lib/include/libpov/pcre_compile.c:3193-3572 | the comparison of two lists returns whether the items exclude each other |
| CompareScan.CompareOpcodes | lib/include/libpov/pcre_compile.c:3066-3582 | the walk over the bytes, always forward, returns the answer of the test for what follows there, out of groups and into them |
| AutoScan.BytesEncode | lib/include/libpov/pcre_compile.c:3601-3703 | overwriting the repeat opcodes leaves the encoding of the optimised tree |
| AutoScan.AutoPossessify | lib/include/libpov/pcre_compile.c:3601-3703 | the pass over a finished program, in place, leaves the optimised program |
| Preferred.OptimisedMatch | lib/include/libpov/pcre_compile.c:9290-9297 | the optimised program finds only matches of the pattern; it finds what the program found before under the same condition; without possessive quantifiers that always holds, and a match is found wherever there is one |
| Preferred.MeaningsAgree | lib/include/libpov/pcre_compile.c:8060-8350 | the two meanings of a pattern agree: its preferred way is one of its spans, and it has a way wherever it has a span when nothing is possessive |
| AnchoredFirst.FirstBegins | lib/include/libpov/pcre_compile.c:8390-8576 | if every branch begins with an explicit anchor or a .* outside atomic and possessive groups, whatever is found anywhere could be found from where the .* could have begun |
| Preferred.TiedSearch | lib/include/libpov/pcre_compile.c:9368-9403 | the same for the optimised code of a pattern; the tests on the code decide just that unless a group is repeated possessively |
| Misjudged.LateStart | lib/include/libpov/pcre_compile.c:8402-8420 | where one is, a match can be missed: a family of patterns that pass the test for anchored ones, match at 1 and find nothing at 0 |
| Preferred.RecordedSearch | lib/include/libpov/pcre_exec.c:6679-6720 | where the optimised code of any pattern finds something, the recorded characters are there: a search may skip every other position |
| Walk.WalkIsInStep | lib/include/libpov/cgc_pcre_internal.h:2188-2267 | stepping by the table of lengths over a program comes by the opcodes of its tree, all of them and nothing else, and then OP_END |
| Walk.CapturesVisited | lib/include/libpov/pcre_compile.c:2049-2166 | the capturing brackets met on the walk with a number are those of the tree |
| Walk.FindBracket | lib/include/libpov/pcre_compile.c:2049-2166 | returns the leftmost capturing bracket with the number, or none exactly when there is none |
| Recurse.FindRecurse | lib/include/libpov/pcre_compile.c:2184-2240 | returns the next call on the walk, skipping none |
| Recurse.EntriesMove | lib/include/libpov/pcre_compile.c:3964-3978 | without a clash the list afterwards holds exactly the pending link fields, each moved once |
| Recurse.LinksMove | lib/include/libpov/pcre_compile.c:3979-3986 | without a clash exactly the resolved links into the group are adjusted, and no other byte |
| Recurse.AdjustmentIsRight | lib/include/libpov/pcre_compile.c:3955-3990 | the adjustment is right for links and list together if and only if there is no clash |
| Recurse.OneByteIsSafe | lib/include/libpov/pcre_compile.c:5931-5933 | there is none when the group moves by one byte |
| Recurse.ClashExample | lib/include/libpov/pcre_compile.c:3955-3990 | code the compiler comes to, with a pending and a resolved call in the group, for which an adjustment by 3 goes wrong |
| Recurse.AdjustRecurse | lib/include/libpov/pcre_compile.c:3955-3990 | the loop over the group does to code and list what the calls, one after the other, require |
| Recurse.MoveGroup | lib/include/libpov/pcre_compile.c:5931-5933 | adjusting and then moving up leaves every resolved call at the same, possibly moved, bracket and every list entry at its call if and only if there is no clash; all other bytes of the group arrive unchanged |
| NameTable.TableIsStable | lib/include/libpov/pcre_compile.c:8691-8725 | after any series of additions the names are in order and the entries with one name are in the order of their addition, none lost |
| NameTable.CompareName | lib/include/libpov/pcre_compile.c:8700-8712 | comparing the bytes of a slot, with the longer name behind its prefix, is comparing the names |
| NameTable.Names.FindPlace | lib/include/libpov/pcre_compile.c:8697-8718 | the slot where the loop stops is the place behind all names that are not greater |
| NameTable.Names.AddName | lib/include/libpov/pcre_compile.c:8691-8725 | the bytes of the table afterwards hold the old entries with the new one inserted there |
| NameLookup.StrCompareMono | lib/include/libpov/pcre_get.c:115-126 | the comparison on signed characters, for any string looked up, agrees with the order in which ASCII names are stored |
| NameLookup.OrdersAgree | lib/include/libpov/pcre_get.c:115-126 | for any two strings the two comparisons agree if and only if the characters where they part are both ASCII or both not |
| NameLookup.Search | lib/include/libpov/pcre_get.c:115-126 | the binary search finds an entry with the name exactly when there is one |
| NameLookup.GetStringNumber | lib/include/libpov/pcre_get.c:115-126 | returns the number of a group with the name, or an error exactly when the name was never added |
| NameLookup.RunIsNamed | lib/include/libpov/pcre_get.c:198-237 | a run of equal names that cannot be extended is all of the entries with that name |
| NameLookup.GetStringTableEntries | lib/include/libpov/pcre_get.c:198-237 | returns the first and last slot of exactly the entries with the name |
| Heap.BlockTotal | lib/include/libpov/malloc.c:59-73 | the sizes met on the walk over a block add up to BLOCK_SIZE - 16 |
| Heap.RoundedFits | lib/include/libpov/malloc.c:92 | a request is rounded to the fewest words that hold its bytes and a header |
| Heap.ChunksApart | lib/include/libpov/malloc.c:150-184 | of two chunks on the walk one ends before the other starts |
| Heap.CutBlock | lib/include/libpov/malloc.c:162-176 | splitting a chunk keeps the block tiled, adds no live chunk but the one taken, keeps every other and each byte of its payload |
| Heap.FitBlock | lib/include/libpov/malloc.c:150-180 | takes the first free chunk of a block that fits, or changes nothing when none does |
| Heap.JoinForward | lib/include/libpov/malloc.c:202-206 | joining with a free successor changes one size field, and keeps the block tiled and every live chunk, though no backward size is corrected |
| Heap.JoinBackward | lib/include/libpov/malloc.c:207-213 | joining with what the backward size leads to changes one size field there, and keeps the block tiled and every live chunk, also when the backward size is stale and leads inside the chunk before |
| Heap.FreeChunk | lib/include/libpov/malloc.c:194-216 | freeing removes exactly the one live chunk, keeps the block tiled, and leaves the bytes of every other live payload as they were if and only if the backward size does not stray |
| Heap.FreeKeeps | lib/include/libpov/malloc.c:202-213 | freeing leaves every other live payload byte for byte as it was exactly when it is not so that the chunk before is in use and the backward size leads to an even word inside it |
| Stray.StrayRun | lib/include/libpov/malloc.c:148-216 | a run of allocations and frees on a new block after which freeing one chunk overwrites a word in the payload of another |
| Stray.MoveKeeps | lib/include/libpov/malloc.c:218-229 | after a move the other payloads are as they were before it exactly when the backward size of the old chunk did not stray at its beginning |
| Stray.MoveCarries | lib/include/libpov/malloc.c:218-229 | the new payload keeps what was copied to it exactly when the new chunk does not end where the old one begins with a backward size that leads to an even word of the copy |
| Stray.LostRun | lib/include/libpov/malloc.c:218-229 | a block that a run of allocations and frees leaves, in which a chunk cannot grow and the move to the first chunk that fits copies its contents and then overwrites a word of the copy |
| Stray.ExactCarries | lib/include/libpov/malloc.c:218-229 | neither happens while the backward size leads to a header |
| Heap.UserWrite | lib/include/libpov/malloc.c:59-73 | no write inside a live payload changes which chunks there are or breaks the tiling |
| Heap.RegrownTaken | lib/include/libpov/malloc.c:112-127 | growing into the free successor and splitting off the rest keeps the tiling, the old payload and every other live one |
| Heap.ResizeAt | lib/include/libpov/malloc.c:96-129 | succeeds in place exactly when the chunk is cut, its free successor has room, or it is a page that stays one; and then keeps the tiling, its payload and every other live one |
| Allocator.BlockInit | lib/include/libpov/malloc.c:59-73 | a new block is tiled, with one free chunk and no live one |
| Allocator.LiveApart | lib/include/libpov/malloc.c:88-184 | two live payloads do not overlap |
| Allocator.Pool.FirstFit | lib/include/libpov/malloc.c:148-184 | a small request takes the first fitting free chunk in block order, or a new block only if nothing fits anywhere; no live payload is disturbed |
| Allocator.Pool.AllocMain | lib/include/libpov/malloc.c:88-184 | the payload is new and has room for the bytes asked for, in a block less than eight more; it comes from the page allocator exactly when with its header it is larger than a page, and no byte of another live payload changes |
| Allocator.Pool.ChunkSize | lib/include/libpov/malloc.c:194-201 | the stored size of a live chunk exceeds a page exactly for page allocations, which is how free tells them apart |
| Allocator.Pool.Free | lib/include/libpov/malloc.c:194-216 | returns a chunk to where it came from; afterwards exactly the other chunks are live, every block is still tiled, and the other payloads, pages too, have their bytes if and only if the backward size does not stray |
| Allocator.Pool.Reuse | lib/include/libpov/malloc.c:96-129 | the hint branch: the chunk is resized or left alone as stated, and no other payload is disturbed |
| Allocator.Pool.Realloc | lib/include/libpov/malloc.c:218-229 | the result has room for the bytes asked for: the chunk is resized in place, exactly when there is room, without disturbing anything, or moves to the first chunk that fits, after which exactly it and the others are live, it begins with the old contents and the others have theirs, each under its exact condition on the heap before the call |
| Allocator.ChosenClobbers | lib/include/libpov/malloc.c:148-229 | with the chunk that the allocation chooses, the contents are overwritten exactly when the condition read off the old heap holds |
| Allocator.LostContents | lib/include/libpov/malloc.c:218-229 | that condition holds of a heap that a few calls lead to |
| Allocator.CopyEqual | lib/include/libpov/malloc.c:218-229 | copying to a chunk of equal size sends one byte to the header behind; the block survives exactly when the backward size that leaves there is acceptable |
| Allocator.LowByteIs | lib/include/libpov/malloc.c:225 | the byte too many is the lowest of the backward size, and replaces that alone |
| Stray.TwinRun | lib/include/libpov/malloc.c:88-229 | a run of calls on a new block after which a chunk of 264 bytes cannot be resized to its own size where it is, and has its new place elsewhere |
| Allocator.EqualBreaks | lib/include/libpov/malloc.c:218-229 | there the byte too many leaves a block that is no longer well formed |
| Prng.SuccIsNext | lib/include/ansi_x931_aes128.c:79-85 | the carry over the date/time vector adds one to it as a big-endian number, wrapping at 2^128 |
| Prng.XorByteBit | lib/include/ansi_x931_aes128.c:52-56 | each bit of the combined byte is set exactly when it is set in one of the two and not in the other |
| Prng.XorBack | lib/include/ansi_x931_aes128.c:52-56 | combining with the same block twice gives the first block back |
| Prng.DateGrows | lib/include/ansi_x931_aes128.c:79-85 | after n blocks the vector has grown by exactly n while it does not wrap |
| Prng.DateAfter | lib/include/ansi_x931_aes128.c:30-43 | and by one for each block begun after any number of bytes |
| Prng.ServeSlices | tools/ansi_x931_aes128.py:108-133 | a request gets the next slice of the one stream of blocks, whatever was asked for before |
| Prng.ChunkingIsInvisible | tools/ansi_x931_aes128.py:108-133 | the answers to any series of requests, joined, are one stretch of the stream |
| Prng.Generator.GenBlock | lib/include/ansi_x931_aes128.c:62-85 | one step of the generator of Appendix A.2.4 of ANSI X9.31, in place, for every vector; the carry stays inside the vector exactly when it is not all 255 |
| Prng.Generator.GetBytes | lib/include/ansi_x931_aes128.c:30-43 | the C generator answers as the stream says and is left at the right place in it, for every request; it writes only inside its vector exactly when the vector does not wrap on the way |
| Prng.StringGenerator.GetBlock | tools/ansi_x931_aes128.py:74-106 | the same step over strings |
| Prng.StringGenerator.Get | tools/ansi_x931_aes128.py:108-133 | the Python generator answers the same as the C one from the same place |
| Replay.TakesPrefix | tools/cb-replay.py:417-432 | what a read takes depends only on the bytes it takes: the same of a part that holds them and of anything longer |
| Replay.ExpectedGrows | tools/cb-replay.py:390-432 | what a series of reads returns is fixed read by read, whatever is still to come behind it |
| Replay.TurnedMore | tools/cb-replay.py:540-547 | taking one byte more, with the buffer's last two bytes replaced when they are CR LF, leaves out just the carriage returns in front of line feeds |
| Replay.OutputDetermines | tools/cb-replay.py:390-432 | in output without carriage returns nothing is left out, and the results are those of the output itself |
| Replay.Throw.ReadFromProc | tools/cb-replay.py:527-551 | what it returns is a stretch from the front of the pipe in which each carriage return in front of a line feed is left out, and the rest stays in the pipe |
| Replay.Throw.ReadLen | tools/cb-replay.py:390-412 | a completed read returns the next bytes of those handed out, and keeps the rest; it hangs only if what was written is too short |
| Replay.Throw.ReadDelim | tools/cb-replay.py:417-432 | a completed read ends with the first delimiter, even one that arrives in pieces, and keeps the rest; it hangs only if what was written has none |
| Replay.Throw.ReadAll | tools/cb-replay.py:390-432 | under every interleaving a series of reads returns what the bytes handed out determine, and what the output alone determines if it has no carriage returns; it stops early only when all that was written has been handed out and is not enough |
| Newline.MeetInTheMiddle | lib/include/libpov/pcre_newline.c:75-208 | at any position not inside a CR LF, the newlines found backward and those found forward from there are the newlines of the whole string |
| Newline.ScansAgree | lib/include/libpov/pcre_newline.c:75-208 | scanning backward from the end finds the same newlines, with the same lengths, as scanning forward |
| Newline.ScansAreExact | lib/include/libpov/pcre_newline.c:75-208 | either scan finds exactly the CR LF pairs and the single newline characters outside them, for ANYCRLF and for ANY |

## Left out

- Lexing: patterns are syntax trees, so escapes, comments, option settings, class parsing and
  merging of adjacent quantifiers are not modelled; a class is its 256-bit map.
- UTF, Unicode properties, EBCDIC and the 16- and 32-bit libraries: switched off by the
  configuration. Multiline mode, auto-callouts and user-supplied character tables.
- Conditionals, lookaround, atomic groups written by the user, backtracking verbs, back
  references and `(?|`: not in the patterns modelled. Without back references the bracket maps
  of the anchoring test play no part, and `first_significant_code` skips nothing.
- Calls: only in `Recurse`, as opcodes in code that is walked, adjusted and moved.
- Workspace overflow (ERR52) in the first pass: the model's first pass needs no workspace.
- `\R`, `\h`, `\v` and `\X` and their rows in the table of disjoint types.
- Studying, partial matching, match limits and the options of a single call: the search is the
  plain one, with start-of-match optimisations on.
- Machine.RunsAreSpans: this byte machine follows the opcodes' meaning without an order of
  preference; `Matcher` has the order.
- Machine.Enter: so here, and an atomic group is bounded from above only.
- Machine.Leave: so here.
- Matcher.BytesFind: a stack of the groups entered stands for the frames of `match`, whose
  allocation and limits are left out.
- Meaning.CompilationPreservesMeaning: the converse is for patterns without possessive
  quantifiers, because a relation on spans can only bound an atomic group from above;
  `Preference.CodePrefers` is for all patterns.
- AutoPossess.AutoPossessionIsInvisible: is one way. Whether a program that the test misjudges
  does lose a match depends on all of what follows; `Misjudged.ProbeIsExact` goes both ways for
  code of three items.
- Preferred.TiedSearch: is one way for the same reason, with `Misjudged.LateStart`.
- Ordered matcher: it leaves every loop that has made no progress, marked or not; by
  `Shape.OnlyMarkedGroupsLoop` the unmarked ones never meet that case.
- Replay.Throw.ReadAll: where one stretch taken from the pipe ends and the next begins depends on
  timing; a CR LF pair split between two is kept.
- Replay: time is not modelled. A read that would wait for ever is one that returns with ok false.
- NameTable.Names.AddName: names are ASCII words; whether a duplicate is permitted is decided
  before the call, and an entry fits its slot as the first pass has measured.
- `pcre_get_substring_list` and `get_first_set`: copying strings into one block adds no property
  beyond a sum of lengths.
- Heap: page allocation succeeds and rounding does not overflow; the list of blocks is a
  sequence, not links.
- Allocator.Pool.Realloc: excludes moves that do not enlarge the chunk. To the same size
  `Allocator.CopyEqual` says what happens; to a smaller one the copy runs over what lies behind.
- Prng.Generator.GenBlock: what lies in front of the vector, where the carry goes on when it
  wraps, is not modelled.
- AES is any function from key and block to block; seeds come from the caller.
- Process handling, debugger output, test drivers, metadata and plots.
