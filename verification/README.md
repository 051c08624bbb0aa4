# iamroot, modelled and proved in Dafny

iamroot is a library that is preloaded into a program so that the program appears to run in another
root directory. This project models its hardest code in Dafny and proves what that code is for. Four
cores carry most of the weight:

1. **The regular expression compiler and backtracking matcher.** A pattern is compiled into an array of
   integers whose nodes are linked by relative offsets, with operands moved up in place when a repeat
   header goes in front of them; the matcher runs over that array and keeps its loop counters in it.
   Expressions are trees (`RegexSyntax`) with a set-valued language (`RegexLanguage`) and an ordered list
   of ends (`RegexSemantics`), which also says which end is best. Compilation emits exactly the generated
   code of the tree; the matcher, proved against a description of what the program at a node still has
   to match (`RegexKont`), returns exactly the first end of the list, and on programs whose loops do not
   follow the plain meaning it still ends, inside the subject, with its counters put back (`RegexPlaces`,
   `RegexFrames`); every emit step, insertions included, keeps the program a row of nodes whose links lead to
   nodes (`RegexWellLinked`); the search hints never change an answer; and an expression written out as a
   pattern, in either of two ways, is parsed back as itself, so that compiling and searching can be stated
   without the parser (`RegexSearch.SearchShown`). What the grammar's pieces mean is also said of the
   characters of patterns and subjects alone: plain texts (`RegexText`), escapes (`RegexEscapes`), ranges
   and classes (`RegexSets`), repeats (`RegexRepeats`), the form of the default pattern (`RegexPrefix`), and
   which patterns are refused with which error (`RegexErrors`).
2. **The symlink resolver.** A machine over two byte buffers, a stack of pending text and an output
   (`PathBuffers`), computes what a machine over texts computes (`PathMachine`), and that computes what a
   recursive resolver over lists of components computes (`PathWalk`), for any oracle of links. From this
   follow the shape of results, that no prefix of a result is a link, that resolving twice changes
   nothing, and that a chroot contains what is resolved in it. What comes out is also said of the answers
   of `readlink` and of names alone: where nothing is a link, at an error, past what is missing, through one
   link or a chain of them (`PathPlain`, `PathChain`), and for a path given with a directory descriptor
   (`PathAt`).
3. **The tree walkers.** The pull-style walk over linked nodes and one path buffer (`FtsNodes`) follows a
   walk over rows of nodes (`FtsWalk`), whose reads visit exactly the recursive depth-first tour
   (`FtsTree`), and that tour is what the file system holds, node by node (`FtsShape`). The recursive walk
   with call-backs (`NftwWalk`) visits exactly the planned tree (`NftwTree`).
4. **The preload closure and the command line.** A graph search whose visited set is a colon-separated
   list in a bounded buffer, and the in-place rewriting of an argument vector, down from a `#!` line.

Smaller models cover the environment with its record of owned strings, the search for a character a
word at a time, and the records of group and passwd files.

Each in-place algorithm is a class or a method over arrays, proved equal to a specification on values;
the properties are then lemmas about that specification. The file system, `readlink`, `getcwd`, ELF
files and the caller's functions are parameters: fixed functions (a call-back's answer may depend on all
calls before it) about which nothing else is assumed than what the contracts say.

Six properties that one might expect turned out to hold only under a condition, and the condition is
proved to be exact:

- A repeat the compiler flags as wide (HASWIDTH) never matches the empty string iff its minimum, converted
  to 32 bits, is positive (`RegexWidth.FlagRight`). The flag is given for any minimum but 0, and negative
  ones are not rejected: `a{-1}` is flagged and matches the empty string (`RegexSized.MinusWide`), so that
  `(a{-1})*` compiles (`RegexSized.MinusLoops`), and `{4294967295}` is read as the same count
  (`RegexSized.WideCount`). In all other patterns the flag is right (`RegexSized.CompiledWidth`).
- After `fts_read` the path buffer spells the path of the node returned, unless an empty root directory
  was named with a slash at its end: then the slash is gone (`FtsNodes.Fts.FtsRead` says iff, and
  `FtsRuns.LoseSlash` is such a walk).
- A search of libraries leaves its list free of duplicates and closed if the list is no longer than
  PATH_MAX, in a buffer of any size (`PreloadClosure.SearchCloses`). Looking through the list works on a
  copy that is cut there, so that longer lists, for which the buffers in use have room, may go wrong
  (`PreloadScan.ClosesIff`, with a list that does).
- An emitted operand is one node, and the links stay sound, if it holds no zero word
  (`RegexSolid.LeafWhole` says iff). Sets that name `[:cntrl:]`, or hold a range from a character to the
  one before it, put one there, and nothing else does (`RegexSolid.SetSolid`); the first breaks the links
  of every program (`RegexSolid.CntrlBreaks`).
- The resolver equals the resolver over components unless the loop meets a state without room for what it
  has to copy, and then it reports that (`PathProps.ResolveWalks`); room for the name, the current directory
  and forty links is enough to rule that out (`PathRoom.ResolveRoomy`).
- A relative path below a descriptor of the root directory does not come out above the root, unless what
  it resolves to starts with the text of the root and goes on without a slash (`PathAt.RootDirContains` says
  iff). The test for the root compares texts only: with the root `/a` the path `../ab` comes out as `/ab`
  (`PathAt.SiblingReached`).

One more such condition cannot fail: the options written number exactly `shift` iff the loader is run as a
program or has none (`LoaderArgs.FrontFits`), and every loader that has options is run as a program
(dso.c:3152-3184).

`dafny verify dfyconfig.toml` checks the whole project.

## Model

| member | source | states |
|---|---|---|
| `RegexLanguage.AltsLanguage` | jimregexp.c:1491-1660 | of every expression, whatever it repeats: the ordered list of ends a matcher may try (greedy before lazy, first alternative first) holds exactly the ends of its set-valued language |
| `RegexLanguage.PowersStep` | jimregexp.c:1434-1478 | between min and max repetitions are: none if that is allowed, or one match and then one repetition fewer |
| `RegexWidth.AltsWidth` | jimregexp.c:403-404 | HASWIDTH computed bottom-up is sound wherever no repeat has a negative minimum, nested and lazy loops included: an expression so flagged has no end where it began, and no match runs past the subject |
| `RegexWidth.LimitUnfelt` | jimregexp.c:535-551 | the limit of 1000000 on `*` and `+` is as good as none over an atom soundly flagged: any two limits the subject cannot reach list the same ends |
| `RegexWidth.FlagRight` | jimregexp.c:511-552 | the flag a repeat is given, wide when its minimum is not 0, is right over a sound atom iff that minimum is positive (or the repeat, of a group with a negative maximum, never matches at all): with a negative one the place it began is always an end |
| `RegexSized.CompiledWidth` | jimregexp.c:487-580 | in every pattern that compiles only `?` follows what is not flagged wide; and if no count converts to a negative minimum, what is flagged wide never matches the empty string |
| `RegexSized.MinusWide` | jimregexp.c:511-552 | `a{-1}` compiles, is flagged wide and matches the empty string |
| `RegexSized.MinusLoops` | jimregexp.c:487-580 | `(a{-1})*` compiles: a group that matches the empty string is repeated without limit, each further round listing one more end at the same place |
| `RegexSized.WideCount` | jimregexp.c:511-552 | a minus sign is not what it takes: `{4294967295}` is read as the same bounds, the count being converted to 32 bits |
| `RegexSafe.CompiledSafe` | jimregexp.c:277-580 | a pattern that compiles is one the matcher is safe on (literals hold a character and no NUL, sets whole pairs, group numbers fit their opcodes, bounds are in order) exactly if no count is negative |
| `RegexPrintBack.ParseShown` | jimregexp.c:371-580 | round trip: every expression of the grammar, written out in either of two ways, printable characters as they are with a backslash in front of those that have a meaning, or all characters as hexadecimal escapes, is read back as that very expression, groups numbered in the order of their parentheses |
| `RegexPrintBack.LitBack` | jimregexp.c:983-1051 | a run of literal characters, plain, escaped or in hexadecimal, is read back whole, up to what ends it |
| `RegexPrintBack.SetBack` | jimregexp.c:750-910 | a written bracket set, negated or not, its members as they are or escaped, is read back with its ranges in order |
| `RegexPrintBack.BoundsBack` | jimregexp.c:511-552 | each of `?`, `*`, `+`, `{m,}` and `{m,n}` is read back as its bounds |
| `RegexText.TextRead` | jimregexp.c:983-1041 | a text without meta characters, backslashes and NULs is read as the one literal whose code at each place is that of the character there |
| `RegexText.TextEnds` | jimregexp.c:1296-1313 | that literal matches exactly where the text stands, and ends behind it |
| `RegexText.SearchText` | jimregexp.c:277-1265 | compiled and run, such a text is found iff it is a substring of the subject, at the leftmost place |
| `RegexEscapes.EscapedRead` | jimregexp.c:669-720 | a backslash in front of b, e, f, n, r, t or v stands for the control character, in front of any other character without a meaning there for that character |
| `RegexEscapes.NumberDecoded` | jimregexp.c:644-711 | `x`, `u` and `U` and up to two, four or eight hexadecimal digits of either case stand for the number they write, cut to 32 bits |
| `RegexEscapes.BracesDecoded` | jimregexp.c:684-695 | `u` and up to six digits in braces stand for the number, unless the brace is missing or the number is past the last character; then for `u` |
| `RegexEscapes.PlacesAre` | jimregexp.c:1515-1560 | where the zero-width tests hold, said of the subject: at its start, at its end, in front of the first character of a word, behind the last |
| `RegexEscapes.PlaceRead` | jimregexp.c:928-947 | the escapes for those places |
| `RegexEscapes.BoundRead` | jimregexp.c:740-745 | `^` and `$` alone |
| `RegexSets.RangeHolds` | jimregexp.c:582-605 | the words of a range hold exactly the characters from the one to the other, whichever comes first |
| `RegexSets.ClassHolds` | jimregexp.c:848-896 | each of the twelve named classes holds exactly the characters in it, said by character |
| `RegexSets.RangeRead` | jimregexp.c:750-828 | a set of one range, negated or not, is read as that range |
| `RegexSets.FirstRead` | jimregexp.c:759-763 | a closing bracket or a minus sign that comes first in a set, negated or not, is a member like any other |
| `RegexSets.NamedRead` | jimregexp.c:829-897 | a set of one named class, negated or not, is read as that class |
| `RegexSets.EscapeRead` | jimregexp.c:948-974 | `d`, `w`, `s` and their negations behind a backslash are read as the digits, the characters of words and white space, said by character |
| `RegexSets.InsideHolds` | jimregexp.c:784-799 | so are the first three inside a set |
| `RegexSets.SearchRange` | jimregexp.c:277-1330 | end to end: `[lo-hi]` finds a character iff it lies from lo to hi, `[^lo-hi]` iff it does not |
| `RegexSets.SearchFirst` | jimregexp.c:277-1330 | a set of one closing bracket or minus sign finds that character only, its negation all others |
| `RegexSets.SearchNamed` | jimregexp.c:277-1330 | a set of one named class, `[:cntrl:]` set aside, finds exactly the characters in it, its negation all others |
| `RegexSets.SearchEscape` | jimregexp.c:277-1330 | the six escapes for sets find exactly the characters they name |
| `RegexErrors.ExactRead` | jimregexp.c:511-552 | `{n}` is read as n and n, for every n below 100 and however long its digits; other n below half of 32 bits are the error of a bad count |
| `RegexErrors.FromRead` | jimregexp.c:533-541 | `{n,}` is read as n and no limit, likewise |
| `RegexErrors.BetweenRead` | jimregexp.c:511-552 | `{m,n}` is read as m and n exactly if m is not above n and n is below 100 |
| `RegexErrors.NothingRepeated` | jimregexp.c:922-927 | a pattern that starts with a repeat operator is the error of a count that follows nothing |
| `RegexErrors.EmptyRepeated` | jimregexp.c:505-509 | so is one whose first atom, whatever it is, is not flagged wide and is repeated by more than `?`: the error of an operand that could be empty |
| `RegexErrors.RepeatRepeated` | jimregexp.c:573-576 | and one whose first repeat is followed by another: the error of a nested count |
| `RegexErrors.NothingEscaped` | jimregexp.c:928-933 | a backslash alone is the error of an invalid escape |
| `RegexErrors.SetOpen` | jimregexp.c:777-780 | a set that is not closed is the error of an unmatched bracket |
| `RegexErrors.ClosesNothing` | jimregexp.c:429-433 | any expression with a closing parenthesis behind it is the error of an unmatched one |
| `RegexErrors.NeverClosed` | jimregexp.c:426-428 | so is any expression behind an opening one |
| `RegexErrors.TooManyGroups` | jimregexp.c:307-313 | an expression with a hundred groups or more is the error of one too big |
| `RegexRepeats.SearchRepeat` | jimregexp.c:277-1432 | end to end: `x*`, `x+` and `x?`, x a plain character or the dot, greedy or lazy, find the leftmost place where as many as must stand in a row, and take as many as there are from there on, up to the limit, or as few as must |
| `RegexRepeats.SearchCounted` | jimregexp.c:277-1432 | so does `x{m,n}`, for every m up to n below 100 |
| `RegexPrefix.GroupRead` | jimregexp.c:371-440 | a text in parentheses is a group with a number, one with `?:` in front a group without |
| `RegexPrefix.PrefixRead` | jimregexp.c:371-476 | a pattern of the form `^(aorborc)` over any plain texts is read as that anchor, group and alternatives |
| `RegexPrefix.SearchPrefixes` | jimregexp.c:277-1265 | end to end: it finds exactly the subjects that start with one of the texts, and of those the first in the pattern |
| `RegexPrefix.DefaultIgnore` | path_resolution.c:276-278 | the pattern used where none is given is of this form, over five directories |
| `RegexPrefix.IgnoredByDefault` | path_resolution.c:276-300 | so a path is ignored by default exactly if it starts with one of those |
| `RegexEngine.Regex.RegNode` | jimregexp.c:1069-1079 | a node with an open link is emitted at the end; if every link was sound before, nodes filling the program and links leading to nodes or to the end, it is sound afterwards, and no node has moved |
| `RegexEngine.Regex.RegInsert` | jimregexp.c:1096-1110 | the words from the operand on move up five places, the last first, and a header stands in their old place; if the links were sound and none crossed the place, all are sound afterwards, and what was a node there is one five words on |
| `RegexEngine.Regex.RegTail` | jimregexp.c:1115-1136 | only the link at the end of the chain from p changes: forward to val, or back from a BACK node; sound links stay sound when p and val are nodes and val lies on that side, and no node moves |
| `RegexEngine.Regex.RegOpTail` | jimregexp.c:1142-1148 | the same on the operand of a BRANCH; no other node is touched |
| `RegexEngine.Regex.RegAddAlpha` | jimregexp.c:850-858 | the ranges of letters, digits before them when asked for |
| `RegexEngine.Regex.RegAddDigits` | jimregexp.c:871-877 | the range of digits, hexadecimal letters before it when asked for |
| `RegexEngine.Regex.RegAddClass` | jimregexp.c:848-896 | the ranges of the named class, for each of the twelve names |
| `RegexEngine.Regex.RegSetItem` | jimregexp.c:782-899 | one member of a set: emits what the grammar says it stands for, or reports its error |
| `RegexEngine.Regex.RegSet` | jimregexp.c:750-910 | a whole set is emitted as one node whose words are those of the grammar, or its error is reported |
| `RegexEngine.Regex.RegLiteral` | jimregexp.c:983-1051 | a run of literals becomes one EXACTLY node; a character that a repeat follows is left for its own |
| `RegexEngine.Regex.RegLeaf` | jimregexp.c:928-1051 | a special escape or literal is emitted as the grammar reads it |
| `RegexEngine.Regex.RegCount` | jimregexp.c:511-552 | the bounds of a repeat operator, or the error of one that is malformed |
| `RegexEngine.Regex.EmitRepeat` | jimregexp.c:554-571 | in front of an emitted atom a header is inserted, and the loop of a complex atom closed: the words are those of the repeat, and the links stay sound if none crossed the start of the atom |
| `RegexEngine.Regex.RegAtom` | jimregexp.c:726-1055 | emits exactly the code of the atom the grammar reads, its end open, with its flags, or reports its error; the links stay sound, and none crosses the start of the atom, if its operands hold no zero word |
| `RegexEngine.Regex.RegGroup` | jimregexp.c:371-440 | emits exactly the code of the group the grammar reads, or reports its error; the links stay sound through every step |
| `RegexEngine.Regex.RegAlternatives` | jimregexp.c:395-419 | alternatives are emitted one behind the other, each BRANCH linked to the next, the ends open, the links sound after every one |
| `RegexEngine.Regex.RegHook` | jimregexp.c:410-424 | after the closing node the last BRANCH and the end of every alternative lead to it: the words are those of the linked alternation, the links sound all along |
| `RegexEngine.Regex.RegPiece` | jimregexp.c:487-580 | emits exactly the code of the atom and its repeat, or reports the error of a repeat that is not allowed; the links stay sound |
| `RegexEngine.Regex.RegBranch` | jimregexp.c:447-476 | pieces are emitted one behind the other, each linked to the next, the links sound after every one |
| `RegexEngine.Regex.RegTop` | jimregexp.c:389-440 | the main body: the whole compiled program, its links sound, or the error of an unmatched parenthesis or junk at the end |
| `RegexEngine.Regex.LongestLiteral` | jimregexp.c:337-350 | what becomes regmust is a literal on the top level of the only alternative: the longest of them, and the last of those as long |
| `RegexEngine.Regex.JimRegcomp` | jimregexp.c:277-360 | compilation: the error of the grammar, or the program that is exactly the generated code of the expression, its links sound, with hints that are sound |
| `RegexNodes.AltsTiled` | jimregexp.c:1743-1763 | code whose operands hold no zero word splits into nodes of regopsize words end to end, the counters being exactly the fifth words of complex repeats |
| `RegexNodes.RegOpSize` | jimregexp.c:1743-1763 | the size of a node, found by scanning its operand to the ending zero |
| `RegexLinks.ProgramLinks` | jimregexp.c:1115-1148 | in the program of any expression whose operands hold no zero word, nested and lazy loops included, every link that is set leads from the start of a node to the start of a node or to END, forward but for BACK |
| `RegexWellLinked.WellInsert` | jimregexp.c:1096-1110 | an insertion at a node, or at the end, where no link crosses keeps every link on the start of a node and in its direction |
| `RegexWellLinked.WellTail` | jimregexp.c:1115-1136 | so does setting the link of any node to a node on the side that it may lead to |
| `RegexWellLinked.WellAppend` | jimregexp.c:1069-1088 | so does emitting nodes behind that link into the whole |
| `RegexLinks.AtomStays` | jimregexp.c:554-571 | no link crosses the start of the atom emitted last, whatever it holds: this is why a header may go there |
| `RegexSolid.SetSolid` | jimregexp.c:750-910 | a set is emitted without a zero word in its operand exactly when no member of it is `[:cntrl:]` or a range from a character to the one before it |
| `RegexSolid.PatternSolid` | jimregexp.c:750-1051 | a pattern in which no such member can be read puts no zero word into any operand, literals included |
| `RegexSolid.LeafWhole` | jimregexp.c:1743-1763 | what is emitted for a leaf is one node, as regopsize reads it, exactly when its operand holds no zero word |
| `RegexSolid.CntrlBreaks` | jimregexp.c:850-900 | a set that names `[:cntrl:]` breaks the links of every program it is emitted behind: its operand is read as a node with a link past the end |
| `RegexKont.RepeatSplit` | jimregexp.c:1434-1478 | at a loop entered c times the ends are those of one more round if there may be one, then those of going on if enough rounds are done |
| `RegexKont.AltsEnter` | jimregexp.c:1596-1611 | the ends at a BRANCH are those of its operand, then those of the next alternative |
| `RegexKont.AfterEnds` | jimregexp.c:1491-1660 | matching what a node still has to match is matching its first piece, then the rest from each of its ends in order |
| `RegexPlaces.NextStands` | jimregexp.c:1491-1660 | every node but END leads along its link to a place of the program that is nearer to its end, whatever the counters |
| `RegexPlaces.BodyStands` | jimregexp.c:1434-1478 | behind the header of a loop, nested or not, stands its body, whose end leads back to the header |
| `RegexPlaces.RoundsLess` | jimregexp.c:1446-1478 | counting a round leaves fewer rounds to be made over all loops of a program: this is why the matcher terminates |
| `RegexFrames.LoopGood` | jimregexp.c:1434-1478 | at the header of a loop, with whatever its counter holds: going on leads nearer to the end, and what remains to be matched is one more round, then going on, each only if the counter allows it |
| `RegexFrames.AltsGood` | jimregexp.c:1596-1611 | at a BRANCH: its operand and the next alternative are places nearer to the end, and what remains is the one, then the other |
| `RegexFrames.LookGood` | jimregexp.c:1389-1412 | where a literal comes next, a position that does not hold its first character leads to no match |
| `RegexOperands.PrefixCmp` | jimregexp.c:1296-1313 | the length of the operand if it stands in the subject at that place, else -1 |
| `RegexOperands.RegRangeFind` | jimregexp.c:1320-1330 | whether the character lies in one of the ranges of the operand: for some pair of words, from the second up to as many as the first says |
| `RegexOperands.StrIntLen` | jimregexp.c:253-260 | the length of a zero-ended operand |
| `RegexRuns.GreedyRun` | jimregexp.c:1374-1432 | a greedy repeat of a one-character atom ends at the longest run first, then one shorter at a time down to min |
| `RegexRuns.LazyRun` | jimregexp.c:1374-1432 | a lazy one ends at min first, then one longer at a time up to the longest run |
| `RegexRuns.LazyIsBackwards` | jimregexp.c:1374-1478 | over an atom, a group included, that can end in one way only, a lazy repeat tries the same ends as a greedy one the other way round, none first where that is allowed |
| `RegexRuns.LookaheadSound` | jimregexp.c:1389-1412 | the next-character lookahead rejects only positions from which the rest cannot match |
| `RegexEngine.Regex.RegRepeat` | jimregexp.c:1665-1720 | the number of characters in a row the operand accepts, at most max; the input moves past them |
| `RegexEngine.Regex.RegMatchSimpleRepeat` | jimregexp.c:1374-1432 | succeeds iff some count between min and max lets the rest match, at the first such count in greedy or lazy order |
| `RegexEngine.Regex.RegMatchRound` | jimregexp.c:1446-1478 | one more round is counted, and uncounted when the body and the rest fail |
| `RegexEngine.Regex.RegMatchRepeat` | jimregexp.c:1434-1478 | a loop of any kind: at least min rounds, then as many more, or as few, as lead to a match; a failure leaves the counters as they were, and a plain repeated group succeeds iff one of its ends lets the rest match, at the best of them |
| `RegexEngine.Regex.MatchLeaf` | jimregexp.c:1503-1595 | a node without recursion matches exactly where its atom does, and moves the input exactly past it |
| `RegexEngine.Regex.RegMatchNode` | jimregexp.c:1503-1653 | such a node leads to what remains behind it, or there is no match |
| `RegexEngine.Regex.RegMatchBranches` | jimregexp.c:1596-1611 | alternatives are tried in order from the same input position |
| `RegexEngine.Regex.RegMatchParen` | jimregexp.c:1623-1648 | a capturing parenthesis puts the input position back when what follows fails |
| `RegexEngine.Regex.RegMatch` | jimregexp.c:1491-1660 | on the program of any expression without negative counts, loops of whatever kind and nesting included, the matcher terminates, stays inside the subject, returns 1 or 0, never falling off a chain, and after 0 the program, counters included, is as it was; where the program means what the expression says, it returns 1 exactly when the list of ends is not empty, at its first element |
| `RegexEngine.Regex.ClearCounters` | jimregexp.c:1189-1196 | stepping through the program by node sizes sets every counter to zero and nothing else |
| `RegexEngine.Regex.StrFind` | jimregexp.c:1341-1356 | the first position from i on with the character, or -1 if there is none |
| `RegexEngine.Regex.MustAppear` | jimregexp.c:1198-1209 | whether the literal regmust occurs in the subject at all |
| `RegexEngine.Regex.RegTry` | jimregexp.c:1271-1287 | a try at one position of such a program comes to an end, reports that position and a place not before it, and a failure leaves the program as it was; where the program means what the expression says it succeeds iff there is a match there, at the best end |
| `RegexEngine.Regex.LacksMust` | jimregexp.c:1198-1209 | a subject without the literal regmust has no match at any position |
| `RegexEngine.Regex.SearchAnchored` | jimregexp.c:1214-1237 | with a leading `^` trying position 0 alone decides the search |
| `RegexEngine.Regex.SearchStart` | jimregexp.c:1240-1248 | trying only positions that hold the starting character decides the search |
| `RegexEngine.Regex.SearchAll` | jimregexp.c:1249-1261 | trying every position, the terminator included, decides the search |
| `RegexEngine.Regex.JimRegexec` | jimregexp.c:1164-1265 | any search ends, with a match inside the subject or with REG_NOMATCH, and the object stays fit for the next; where the program means what the expression says, whatever hints are set, it reports the leftmost start of any match and the best end from there, or that no position matches |
| `RegexShortcuts.StartSound` | jimregexp.c:319-322 | where the starting character does not stand nothing matches |
| `RegexShortcuts.AnchorSound` | jimregexp.c:323-324 | an expression that starts with `^` matches at position 0 only |
| `RegexShortcuts.LiteralOnPath` | jimregexp.c:326-350 | every match runs through each literal on the top level |
| `RegexSearch.FoundMatches` | jimregexp.c:1239-1265 | what a search reports is a match of the language, and no match starts before it |
| `RegexSearch.NoneMatches` | jimregexp.c:1263-1264 | when a search reports nothing, no substring is in the language, anchors read where they stand |
| `RegexSearch.CompileAndSearchTwice` | jimregexp.c:277-1265 | compile, then search two subjects with the one object: both searches end with a match inside the subject or none; and for plain expressions each finds the leftmost match and the end its priorities choose, iff there is one, the counters left by the first search notwithstanding |
| `RegexSearch.SearchShown` | jimregexp.c:277-1265 | end to end, without reference to the parser: an expression written out in either way, compiled and run finds the leftmost match of its language and the end its priorities choose, iff there is a match |
| `RegexSearch.SearchPlain` | jimregexp.c:277-1265 | compile and search with a pattern that is read as a plain expression: the leftmost match and its best end, or that there is none |
| `PathText.CompsJoin` | path_resolution.c:101-127 | text pushed in front of the rest of the stack gives its components, then those of the rest |
| `PathPlain.CompsAre` | path_resolution.c:101-127 | the components of pieces with slashes between them are the pieces that are not empty and not `.` |
| `PathMachine.StepSmaller` | path_resolution.c:101-222 | every iteration keeps the bounds of both buffers, and follows one more link, or leaves less text, or drops the directory check |
| `PathWalk.StepWalks` | path_resolution.c:101-222 | one iteration of the two-text machine does not change what the walk over component lists comes to |
| `PathWalk.RunWalks` | path_resolution.c:101-222 | the whole loop gives up for lack of room exactly when it meets a state without room for a name or a link's contents; else it ends where the walk over component lists ends, with the same error |
| `PathFinal.FinishPlaces` | path_resolution.c:224-246 | the current directory, less one name for each leading `..`, goes in front of a relative result, exactly when the two fit together |
| `PathProps.ResolveWalks` | realpath.c:50-195 | for any oracle of links: the resolver computes what a recursive resolver over component lists computes, unless it meets the limit of its buffers, which is said exactly, or the result is too long |
| `PathRoom.ResolveRoomy` | path_resolution.c:75-251 | the limit is not met, and so it computes exactly that, whenever the name, the current directory and forty links fit in PATH_MAX together |
| `PathRoom.RoomyRun` | path_resolution.c:101-222 | with such room no state that the loop meets is without room |
| `PathTheorems.ResolvedShape` | path_resolution.c:75-251 | success yields an absolute path below the length limit with no empty, `.` or `..` component, spelled canonically (a leading `//` aside) |
| `PathProps.WalkClear` | path_resolution.c:176-217 | where a walk that follows links ends, no component of the place is a link |
| `PathTheorems.ResolvedClear` | path_resolution.c:75-251 | no prefix of a resolved path, proper or full, is a link, from the root or from a current directory free of links |
| `PathProps.StraightResolve` | path_resolution.c:101-246 | an absolute path of names that are no links resolves to itself |
| `PathPlain.ExistingPath` | path_resolution.c:174-197 | if readlink answers EINVAL for every prefix of a canonical absolute path, that path resolves to itself |
| `PathPlain.ErrorPath` | path_resolution.c:174-186 | at the first prefix for which it answers another errno, ENOENT set aside where that is tolerated, that errno is the error |
| `PathPlain.MissingPath` | path_resolution.c:174-186 | where some prefix is missing and the others are no links, the path resolves to itself iff missing components are tolerated, else to ENOENT |
| `PathPlain.BareResolve` | path_resolution.c:75-251 | where nothing looked up on the way is a link any name resolves to the names it reaches, `..` undoing the name before it, from the root or from the current directory, given room for it as `PathRoom.ResolveRoomy` says |
| `PathPlain.ExistingResolve` | path_resolution.c:75-251 | so does every name in a file system without links, given that room |
| `PathPlain.UnfollowedResolve` | path_resolution.c:157-162 | so does every name, whatever is a link, where links are not followed, given that room |
| `PathPlain.OneLinkPath` | path_resolution.c:198-221 | a path with one link on the way resolves to what its contents name, from the link's directory or, where they start with a slash, from the root directory, and then to the names behind the link, none of these being the link itself, given that room |
| `PathPlain.SelfLinkPath` | path_resolution.c:198-201 | a link to itself is ELOOP, whatever stands before and behind it, given that room |
| `PathChain.ChainPath` | path_resolution.c:198-201 | a chain of links, each to the next, is followed to its end exactly if there are fewer than forty; else the error is ELOOP, given that room |
| `PathTheorems.ResolveTwice` | path_resolution.c:75-251 | resolving a result again, from any current directory, gives the result |
| `PathTheorems.LinklessCoherent` | path_resolution.c:182-186 | a file system without links answers coherently, as resolving twice from a relative name asks |
| `PathChroot.ResolveUnder` | path_resolution.c:203-211 | a path that starts with the root, over links that do not climb, resolves to the root or to something below it |
| `PathResolution.SanitizeKeeps` | path_resolution.c:366-399 | sanitizing keeps the components of a path, keeps it absolute or relative, and does not lengthen it |
| `PathResolution.SanitizeShaves` | path_resolution.c:366-399 | what sanitizing takes off, and all of it: pairs `./` at the front, slashes and then pairs `/.` at the back; no slash is left at the end, and a `/.` only where slashes stood behind it |
| `PathResolution.SanitizeFront` | path_resolution.c:366-399 | sanitizing leaves the root in front of a path in place |
| `PathResolution.SecondCallIdle` | path_resolution.c:597-624 | the second resolution changes nothing, unless the root was stripped or put in meanwhile |
| `PathResolution.ChrootContains` | path_resolution.c:519-626 | in a chroot an absolute path free of `..`, over links free of `..`, comes out below the root, whether the last link is followed or not, unless it is ignored or too long, whatever the current directory |
| `PathResolution.ChrootAgain` | iamroot.c:1086-1108 | a resolved path shown without its root resolves to the same path again, unless it starts with the root once more |
| `PathAt.TooLongPath` | path_resolution.c:436-442 | a path of PATH_MAX characters or more is ENAMETOOLONG |
| `PathAt.HandedOn` | path_resolution.c:462-517 | an ignored path, or one that magic links make special, comes back as it is, but `/proc/1/root` as `/` |
| `PathAt.BadDir` | path_resolution.c:551-584 | a relative path below a descriptor: the error of asking for its path, the path as it is where that is not absolute, ENAMETOOLONG where the two do not fit |
| `PathAt.BelowDir` | path_resolution.c:551-621 | a relative path below the absolute path of a descriptor other than the root has the components of the directory, then its own; it comes back so, or where following links leads it, without its root if it is ignored there |
| `PathAt.BelowDirReached` | path_resolution.c:551-599 | following links it is what the recursive resolver reaches from the directory, whose names are no links, given that room |
| `PathAt.BelowDirPlain` | path_resolution.c:551-599 | in a file system without links: the names it reaches from the directory, given that room |
| `PathAt.FromCwd` | path_resolution.c:590-621 | with AT_FDCWD a relative path keeps its components, and is resolved from the current directory or left as it is |
| `PathAt.FromCwdPlain` | path_resolution.c:590-599 | in a file system without links: the names it reaches from the current directory, given that room |
| `PathAt.FromRoot` | path_resolution.c:519-545 | an absolute path has the components of the root directory, then its own, the root not put in twice; with root `/` it is resolved as it stands |
| `PathAt.FromRootPlain` | path_resolution.c:519-545 | in a file system without links: the names that a path, not starting with a root other than `/`, reaches from the root directory, given that room |
| `PathAt.AlongAfter` | path_resolution.c:619-624 | walking along resolves once more what comes out without it |
| `PathAt.BelowRootDir` | path_resolution.c:576-608 | a relative path below a descriptor of the root comes out as what it resolves to where that starts with the text of the root, else as the root |
| `PathAt.RootDirContains` | path_resolution.c:602-612 | so it comes out at the root or below it exactly unless what it resolves to starts with the text of the root and goes on without a slash |
| `PathAt.SiblingReached` | path_resolution.c:602-612 | and that happens: below a descriptor of the root `/a` the path `../ab` comes out as `/ab` |
| `PathSanitize.SanitizeInPlace` | path_resolution.c:366-399 | the buffer holds the sanitized text afterwards |
| `PathSanitize.DropTwo` | path_resolution.c:375-381 | the text is moved two characters down in place |
| `PathBuffers.Resolver.SlashLen` | path_resolution.c:60-65 | the number of slashes from a position of the stack on |
| `PathBuffers.Resolver.Advance` | path_resolution.c:102 | the slashes on top of the stack are dropped |
| `PathBuffers.Resolver.TakeRoot` | path_resolution.c:103-115 | a slash on top resets the output to `/`, or to `//` for exactly two |
| `PathBuffers.Resolver.SkipDot` | path_resolution.c:122-126 | a `.` is dropped and the directory check kept |
| `PathBuffers.Resolver.CopyComponent` | path_resolution.c:128-139 | the component is copied behind the output, a slash in between where one is needed, without advancing the output; or the buffers lack room |
| `PathBuffers.Resolver.PopOutput` | path_resolution.c:189-192 | `..` cuts the last component off the output and leaves `/` and `//` alone |
| `PathBuffers.Resolver.TakeOver` | path_resolution.c:187-197 | a component that is no link is taken over, or `..` cut, and the directory check set from what follows |
| `PathBuffers.Resolver.Reroot` | path_resolution.c:203-211 | contents that start at the root are moved below the root directory, when they fit in the gap |
| `PathBuffers.Resolver.StackContents` | path_resolution.c:213-217 | link contents go in front of the rest of the stack, slashes not doubled |
| `PathBuffers.Resolver.PushLink` | path_resolution.c:198-221 | a followed link is counted, and its contents pushed; the fortieth is an error |
| `PathBuffers.Resolver.AskLink` | path_resolution.c:157-221 | readlink decides between taking the component over, following it, and the error of each errno: EINVAL is no link, ENOENT none where that is tolerated |
| `PathBuffers.Resolver.TakeComponent` | path_resolution.c:117-221 | one component in the two buffers is one component of the machine |
| `PathBuffers.Resolver.Iterate` | path_resolution.c:102-222 | one iteration in the two buffers is one step of the machine over texts |
| `PathBuffers.Resolver.Loop` | path_resolution.c:101-224 | the loop terminates and ends as the machine does, never leaving the buffers |
| `PathBuffers.Resolver.CancelUps` | path_resolution.c:229-236 | one directory is cut off the current one for each leading `..` |
| `PathBuffers.Resolver.PrependCwd` | path_resolution.c:226-242 | the current directory is put in front of a relative result, in place, or it does not fit |
| `PathBuffers.Resolver.Realpath` | realpath.c:50-195 | the whole resolver with its two byte buffers computes what the machine over texts computes, for every name, oracle and current directory |
| `FtsWalk.OnwardTodo` | fts.c:597-695 | moving on from a node takes exactly what comes later in the tour |
| `FtsWalk.IntoTodo` | fts.c:545-595 | going into a directory takes exactly what is inside it, then what comes later; skipping it leaves out what it holds |
| `FtsWalk.ReadTodo` | fts.c:499-695 | a read without an instruction returns the first of the visits still to come and leaves the others, and returns none exactly when there are none |
| `FtsWalk.InstrTodo` | fts.c:515-558 | FTS_SKIP, FTS_AGAIN and FTS_FOLLOW change only what is done with the current node, and elsewhere do as no instruction does |
| `FtsWalk.WalkIsTour` | fts.c:499-695 | reads to the end visit exactly the depth-first tour of the roots, defined by recursion over the file system |
| `FtsWalk.TourBalanced` | fts.c:545-695 | a tour opens and closes directories like parentheses: each once before and once after what is inside it |
| `FtsWalk.WalkBalanced` | fts.c:499-695 | so does every whole walk |
| `FtsWalk.EnteredDistinct` | fts.c:1147-1159 | the directories entered on the way down have distinct device and inode numbers, whatever cycles the file system has |
| `FtsWalk.DepthBounded` | fts.c:1147-1159 | so no walk is deeper than there are directories, and every walk ends |
| `FtsShape.StatedTold` | fts.c:1086-1166 | what is said of a node, by what stat (when logical or followed) or lstat answers for its path: FTS_F iff a regular file, FTS_SL iff a link, FTS_DEFAULT iff anything else, FTS_SLNONE iff only lstat answers, FTS_NS with the errno iff neither, FTS_DC iff its identity is among the directories above, FTS_DOT iff a directory so named |
| `FtsShape.InsideShape` | fts.c:545-695 | what a tour holds of a node, by recursion over the file system: a directory before and after what is inside it, and in between each of its entries that is asked for, in some order, looked at as said; only itself if it is crossed, unreadable or empty |
| `FtsShape.TourShown` | fts.c:283-695 | the whole tour is that of the arguments, in some order, each under its last name |
| `FtsPaths.ReadSpelled` | fts.c:646-667 | every read keeps the path of each node on the way down spelled from its directory's path and its name |
| `FtsNodes.Fts.OnTheWay` | fts.c:1153-1158 | going up the parent links finds whether the directory is one of its own ancestors |
| `FtsNodes.Fts.Look` | fts.c:1086-1166 | what stat and lstat answer decides the kind of a node, kind by kind, cycles and dangling links included |
| `FtsNodes.Fts.MakeRoom` | fts.c:1307-1327 | the path buffer has room afterwards and keeps what it held |
| `FtsNodes.Fts.PutName` | fts.c:1012-1016 | a name behind its directory's path in the buffer |
| `FtsNodes.Fts.NewChild` | fts.c:938-1028 | the node of an entry: its path length, level and parent, and what looking at its file says |
| `FtsNodes.Fts.ReadNames` | fts.c:928-1036 | the entries of a directory become a linked list of nodes in the order they are read, `.` and `..` only when asked for |
| `FtsNodes.Fts.Sort` | fts.c:1169-1198 | the nodes are linked anew in the order of the caller's comparison, none lost and none twice |
| `FtsNodes.Collect` | fts.c:1190-1191 | the pointers of a list in its order |
| `FtsNodes.Relink` | fts.c:1194-1196 | linking the nodes of an array makes the list of that order |
| `FtsNodes.Fts.Build` | fts.c:806-1083 | the list of a directory's entries, looked at and sorted; or the directory is unreadable, or empty, and the path buffer is cut back |
| `FtsNodes.Fts.GoInto` | fts.c:545-595 | a directory in pre-order: to its first node, or on to its second visit when it is skipped, crossed, unreadable or empty |
| `FtsNodes.Fts.NextRoot` | fts.c:610-624 | the next root, its path in the buffer |
| `FtsNodes.Fts.NextBeside` | fts.c:610-650 | the next node of the same directory, its path in the buffer |
| `FtsNodes.Fts.GoUp` | fts.c:652-694 | up to the directory for its second visit, the path buffer cut back to it |
| `FtsNodes.Fts.GoOnward` | fts.c:597-695 | past the current node, as the rows of the walk say |
| `FtsNodes.Fts.Load` | fts.c:399-423 | a root's path goes into the buffer and its last component becomes its name |
| `FtsNodes.Fts.FtsRead` | fts.c:499-695 | each call returns the node the walk over rows returns, the linked nodes standing for those rows; the path buffer spells that node's path, except exactly when an empty root directory was named with a slash at its end |
| `FtsNodes.Fts.FtsSet` | fts.c:705-719 | an instruction for the current node, and nothing else |
| `FtsNodes.Fts.FtsOpen` | fts.c:283-396 | a walk starts before the first of the roots, looked at and sorted; a root without a name is an error |
| `FtsRuns.ReadAll` | fts.c:283-695 | opened and read to its end, the walk over linked nodes hands out the nodes of the depth-first tour of the roots, in its order: the arguments in some order, and below each what the file system holds, of the kinds it answers |
| `FtsRuns.LoseSlash` | fts.c:499-695 | a walk from `a/`, an empty directory: after the second read the path buffer does not hold the path of the node returned |
| `NftwTree.PlanShaped` | nftw.c:105-119 | the plan is exactly the tree that is there: every node at its right level and base, of the kind stat or lstat gives, every entry of an entered directory in its order with its name behind the directory's path; one is blocked iff it cannot be looked at, left out iff it is on another device and FTW_MOUNT asks for that, met again iff its identity is among its ancestors, and nothing stands below the limit or below one met again |
| `NftwTree.LookIs` | nftw.c:85-126 | when each type is reported, said of stat and lstat: and when a node cannot be looked at, and which identity it has |
| `NftwTree.RealIs` | nftw.c:143-147 | of the entries of a directory each but `.` and `..` is taken, in its place |
| `NftwTree.OrderEnds` | nftw.c:128-169 | a directory is called back before all that is in it, with FTW_DEPTH behind it |
| `NftwTree.RootBaseIs` | nftw.c:115-118 | the base of a root is where its last name starts, slashes behind it or not |
| `NftwTree.PostIsPre` | nftw.c:128-169 | FTW_DEPTH calls back the same nodes as often, but for those met again on their own way down |
| `NftwWalk.InHistory` | nftw.c:131-133 | going up the chain finds whether a directory is one of its own ancestors |
| `NftwWalk.FindBase` | nftw.c:115-118 | the start of the last component of the root |
| `NftwWalk.Walker.PutName` | nftw.c:148-154 | a name behind the directory's path in the shared buffer, within its PATH_MAX+1 bytes |
| `NftwWalk.Walker.CutBack` | nftw.c:167 | the path is cut back to the directory's |
| `NftwWalk.Walker.EachName` | nftw.c:143-159 | the entries of a directory in turn, `.` and `..` left out, up to the first call that does not return 0 or the first that cannot be looked at |
| `NftwWalk.Walker.DoNftw` | nftw.c:74-172 | the nodes of the planned tree are called back in pre-order or post-order up to the first call that does not return 0, whose result is returned, or the first node that cannot be looked at, which is -1; the calls made are exactly those, whatever the function called makes of the calls before; after 0 the path buffer holds the directory's path again |
| `NftwWalk.Nftw` | nftw.c:174-193 | the whole walk from a path, with its limit on depth and length |
| `NftwWalk.ZeroIsAll` | nftw.c:74-172 | the calls made are always the first nodes of the order; 0 is returned exactly when everything could be looked at and every call returned 0, and then they are all; else the last call returned the result, or -1 is, at a node that cannot be looked at, and every call before returned 0 |
| `PreloadList.JoinedTokens` | dso.c:253-270 | appending a path to the list appends one token, and it fits exactly if the list with a colon and the path behind it does |
| `PreloadList.TokensAre` | iamroot.c:770-798 | the tokens of texts with colons between them are those that are not empty |
| `PreloadClosure.SearchCloses` | dso.c:377-455 | in a buffer of any size: a search that goes through and leaves a list of at most PATH_MAX characters leaves it without duplicates, holding all the program needs and all that any library put into it needs, cycles or not |
| `PreloadClosure.SearchNeeds` | dso.c:377-455 | whatever a search puts into the list is needed by the program or by something put there before it |
| `PreloadScan.ClosesIff` | dso.c:279-282 | lists of at most n characters come out so for every program exactly when n is at most PATH_MAX or the buffer has no room for more: beyond that a list goes wrong |
| `PreloadBuffer.NextToken` | iamroot.c:770-798 | one step of splitting a list at its colons |
| `PreloadBuffer.PreloadBuf.PathStrncat` | dso.c:253-270 | the path is appended in the buffer behind a colon, if there is room; else the list is as it was |
| `PreloadBuffer.PreloadBuf.IsInPath` | dso.c:272-282 | whether a path is one of the tokens of the part of the list that is looked through |
| `PreloadBuffer.PreloadBuf.NeededCallback` | dso.c:377-411 | one needed name in the buffer is one needed name of the search |
| `PreloadBuffer.PreloadBuf.PreloadNeeded` | dso.c:413-437 | a library goes into the buffer before what it needs; the recursion ends because each call leaves less room |
| `PreloadBuffer.PreloadBuf.PathIterate` | iamroot.c:770-805 | the names of a list in turn, up to the first that fails |
| `PreloadBuffer.PreloadBuf.PreloadExecutable` | dso.c:439-455 | the search in the buffer is the search over lists |
| `LoaderArgs.FrontFits` | dso.c:3333-3343 | the loader and its options number exactly `shift`, iff the loader is run as a program or has no options |
| `LoaderArgs.ShiftArgs` | dso.c:3344-3349 | the arguments behind the first, and the end, move up by `shift`, none overwritten before it is read |
| `LoaderArgs.PutFront` | dso.c:3351-3402 | the loader and its options fill the room at the front, in their order |
| `LoaderArgs.RewrittenParts` | dso.c:3315-3331 | in the rewritten vector the loader comes first, its options with their values next, then the program, then the old arguments but the first, in order |
| `LoaderArgs.LdsoArgs` | dso.c:3333-3419 | the vector of fifteen slots is rewritten in place to that, for every combination of options, and what the loader has no option for is set as a variable |
| `LoaderArgs.OptionWords` | dso.c:3351-3402 | the words at the front of the vector are those of the options given, each with its value |
| `LoaderArgs.GivenOnce` | dso.c:3333-3419 | no option and no variable is given twice; what there is to tell the loader is told exactly once, as an option if it has one, else as a variable |
| `LoaderArgs.ExecArgs` | execve.c:235-261 | the vector handed to the kernel is the rewritten one, then the caller's arguments but the first; too many is an error |
| `Hashbang.CopyWord` | interpreter-script.c:130-133 | a word is copied down in the buffer it is read from, and what is still to be read is as it was |
| `Hashbang.CutLine` | interpreter-script.c:124-160 | the `#!` line is cut in place into the interpreter and its one argument |
| `Hashbang.LineOf` | interpreter-script.c:124-160 | of a line of blanks, a word, blanks and a word, tabs among them, with the end of the line or a further blank behind: the interpreter and the argument are the two words |
| `Hashbang.ScriptOf` | interpreter-script.c:124-194 | so a file that starts with `#!` and such a line is run as the first word, the second if there is one, and the path |
| `Hashbang.NoScript` | interpreter-script.c:168-194 | an empty file is run by `/bin/sh`; any other is no script exactly if what is read of it does not start with `#!`, or only blanks follow on that line |
| `Hashbang.InterpreterScript` | interpreter-script.c:168-194 | the interpreter, its argument if there is one, and the script; the shell for an empty file; nothing for what is no script |
| `Hashbang.RunProgram` | execve.c:102-118 | from file to kernel: the script is read, the loader chosen for what it names and the vector rewritten and joined in turn; the result is loader, options, interpreter, its argument, script, and the caller's arguments but the first, or the error of too many |
| `EnvSpec.GetPut` | env.c:129-177 | what is put is what is got, and no other name is touched |
| `EnvSpec.GetDrop` | env.c:239-258 | dropping a name leaves nothing of it, and every other name as it was |
| `EnvSpec.GetIs` | env.c:129-137 | what is got is what stands behind the first string that starts with the name and an equals sign; nothing iff there is none |
| `EnvSpec.DropKeeps` | env.c:239-258 | dropping a name keeps every string that does not set it, as often as it was there |
| `EnvArray.Environment.Getenv` | env.c:129-137 | the value of the first string that sets the name |
| `EnvArray.Environment.EnvRmAdd` | env.c:193-210 | a string that leaves is forgotten, and freed iff it was recorded; one that comes is recorded, in the first empty place |
| `EnvArray.Environment.PutEnv` | env.c:146-177 | the first string that sets the name is replaced, or one is added at the end; a string that setenv made is added to those made, and what was freed stays freed |
| `EnvArray.Environment.Putenv` | env.c:179-184 | the caller's own string goes into the list unowned, what setenv made is as before and what was freed stays freed; one without a value takes the name out |
| `EnvArray.Environment.Setenv` | env.c:212-230 | a new string, put into the list and added to those made, unless the name is set and must not be overwritten; what was freed stays freed, and no text changes |
| `EnvArray.Environment.Unsetenv` | env.c:239-258 | every string that sets the name leaves, and the others keep their order; what was made stays so, and what was freed stays freed |
| `EnvArray.Environment.Clearenv` | env.c:114-120 | every string leaves, nothing is owned any more, and what was freed stays freed |
| `EnvArray.Environment.MadeSettled` | env.c:193-230 | each string that setenv has made is recorded, once, exactly while it is in the list, and freed, once, exactly when it no longer is |
| `EnvRuns.Run` | env.c:114-258 | over any sequence of calls: the strings are those that putting, dropping and clearing by name give in turn, and before, between and after the calls the books are settled, what was freed staying freed and each call making at most one string, which goes into the list |
| `EnvRuns.LeavesOnce` | env.c:193-230 | over any such run: a string setenv has made is in the list, recorded once, up to some time, and from then on out of it for good, freed once |
| `StringWords.HasZeroIff` | iamroot.c:65 | HASZERO is nonzero exactly when some byte of the word is zero |
| `StringWords.JoinSame` | iamroot.c:83-84 | a word agrees in some byte with a byte repeated eight times exactly when it holds that byte |
| `StringWords.WordTests` | iamroot.c:84 | the two tests of the loop say exactly whether the word holds the end of the string, or the character, in either byte order |
| `StringSearch.PassWords` | iamroot.c:82-85 | whole words are passed over without passing the position searched for |
| `StringSearch.StrChrNul` | iamroot.c:72-88 | for every string, alignment and character the position is that of the search byte by byte, and only whole words of memory are read |
| `Decimals.DecWeight` | group.c:312-317 | a number printed in decimal stands, by the places of its digits, for itself, without a zero in front |
| `RecordFields.NumberRead` | group.c:77-82 | digits followed by a colon are read as the number they stand for by their places, as far as 32 bits hold it |
| `RecordFields.OtherRead` | group.c:77-82 | what is above `9` as a signed char ends a number; what is below `0` counts as a negative digit |
| `RecordFields.ReadNumber` | group.c:77-82 | the loop over digits, with its signed characters and its wrap-around at 32 bits |
| `RecordFields.StrChr` | group.c:104-107 | the next colon, or none before the end of the line |
| `RecordFields.GetLine` | group.c:93-100 | a line is read up to its end, which is taken off |
| `RecordFiles.FileBack` | group.c:84-324 | if the line printed for each record is one line and is read as that record, a file of printed records is read back whole |
| `RecordFiles.NextPrinted` | group.c:84-141 | a printed line in front of any text is the next record read, and the text is what remains |
| `GroupRecords.PutGroup` | group.c:312-324 | the line of a record: name, password, number and members with colons between them, commas between members only |
| `GroupRecords.JoinMore` | group.c:318-321 | a member more stands behind a comma, unless it is the only one |
| `GroupRecords.ParseFields` | group.c:104-135 | a line of four fields, the third of digits, the last of members with commas between them, is read field by field |
| `GroupRecords.ParseLine` | group.c:84-141 | round trip: the line printed for a record is read as that record |
| `GroupRecords.CutMembers` | group.c:116-134 | the member list is cut in place at its commas, each member found where it starts |
| `GroupRecords.CutLine` | group.c:100-135 | the line cut in place gives the record the text stands for, or is passed over |
| `GroupRecords.GetGroup` | group.c:84-141 | lines are read until one is a record |
| `GroupRecords.ReadBack` | group.c:84-324 | round trip: a file of printed records is read back as those records |
| `PasswdRecords.ParseFields` | passwd.c:100-116 | a line of seven fields, the third and the fourth of digits, is read field by field |
| `PasswdRecords.PutPasswd` | passwd.c:282-287 | the seven fields with colons between them; what is written for a record that may be written, whatever follows it in the file, is read back as that record, and reading goes on behind it |
| `PasswdRecords.ParseLine` | passwd.c:77-120 | round trip: the line printed for a record is read as that record |
| `PasswdRecords.CutLine` | passwd.c:100-116 | the line cut in place gives the record the text stands for, or is passed over |
| `PasswdRecords.GetPasswd` | passwd.c:77-120 | lines are read until one is a record |
| `PasswdRecords.ReadBack` | passwd.c:77-287 | round trip: a file of printed records is read back as those records |

## Left out

Regular expressions:
- RegexEngine.Regex.RegMatch: says which end is found only of expressions in which no repeated group stands inside another, repeated groups capture and are greedy, nothing but a group or a one-character atom is repeated, and sets hold no zero word; outside of that the program does not follow the plain meaning, because counters are cleared once per search only and a zero word ends an operand early. Compilation is proved for all patterns, and that the matcher ends, and puts the counters back, for all without negative counts.
- RegexEngine.Regex.RegMatchSimpleRepeat: negative counts are left out of the matcher throughout: after the longest run a greedy repeat with a negative minimum goes on to step back to before where it began (jimregexp.c:1414).
- RegexEngine.Regex.ClearCounters: searches with a zero word in a set are left out, since the steps from node to node go astray there.
- RegexEngine.Regex.JimRegexec: pmatch slots, REG_ICASE, REG_NEWLINE and REG_NOTBOL are not modelled: every caller compiles and searches with flags 0 and looks at the outcome only.
- RegexPrintBack.ParseShown: covers characters 1 to 255 and bounds of at most two digits; bounds of any length are read back by themselves (`RegexErrors.BetweenRead`).
- RegexSets.SearchNamed: leaves out `[:cntrl:]`, whose zero word the matcher takes for the end of the set.
- RegexEngine.Regex.RegNode: the program is a growing vector, a field of type `seq` that each step reassigns; its doubling in `reg_grow`, running out of memory and the error texts are left out. While the words of a literal or a set are being appended the last node is unfinished, and nothing is said of the links until its closing zero.
- RegexSolid.SetSolid: the length of a range is not cut to 32 bits; only a range over all of them would come to a zero word by wrapping around.
- Patterns and subjects hold no NUL.

The resolver:
- PathBuffers.Resolver.Realpath: answers Overrun where a re-rooted link does not fit in the gap below the stack; the original moves the bytes there without a test.
- PathResolution.ChrootContains: takes `path_resolution2` on values, with buffers of PATH_MAX characters, its ignore patterns as a predicate, and its warnings left out.
- The extended attribute that redirects a path, and a NULL file name; `__fpath` and the directory descriptor's path are given.

The walkers:
- FtsNodes.Fts.FtsRead: assumes FTS_NOCHDIR without FTS_NOSTAT, an FTS_AGAIN only while the buffer shows the node's path, and instructions for the node returned last only.
- fts_children, fts_close and the freeing of nodes, whiteouts, running out of memory, the rounding of the buffer size to a power of two, and the fixing of pointers after it moves.
- FtsNodes.Fts.FtsOpen: an empty list of roots is left out.
- fts64.c and nftw64.c are copies of what is modelled.

Preload and command line:
- PreloadBuffer.PreloadBuf.PreloadExecutable: reading ELF files and searching library paths are given functions; the buffer for needed names is taken to hold what it is given, cut where a copy of it is cut.
- LoaderArgs.LdsoArgs: which options a loader has, and their values, are parameters; so are the variables set instead of them.
- Hashbang.InterpreterScript: opening the file and its errors are left out. A `#!` line that names no interpreter is taken like a file that is no script; the original returns -1 there with whatever errno holds.

The others:
- EnvArray.Environment.PutEnv: allocation never fails; a string given to putenv is not one that setenv allocated. `_resetenv`, which releases strings without taking them out of the list, is left out.
- StringSearch.StrChrNul: words have eight bytes.
- GroupRecords.CutLine: lines that make the digit loop run past their end, or that end in a comma behind the last member, are left out: the original reads past the line there.
- PasswdRecords.CutLine: the same for its two numbers.
- GroupRecords.GetGroup: the file is a text without NUL, and reading it does not fail.
- shadow.c, whose last number is ended by a newline that its digit loop does not stop at.
- The several hundred intercepted calls that resolve a path and pass it on, ownership and mode emulation, messages, shell scripts.
