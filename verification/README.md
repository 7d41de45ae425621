# CWEB in Dafny

A model of the CWEB tools under `ns2.34/cweb`: the scrap parser, the cross references, the index
sort, the break and line handling and the comment copier of CWEAVE; the replacement texts, the macro
expander and the output of CTANGLE; and the section-name table and change-file merger that both
share. Dafny proves the stated properties for all inputs, all runs and all reachable states.
Check it with `dafny verify dfyconfig.toml`.

The original works on global arrays with index-like pointers. So does the model: what the source
does in place is a method on arrays or on fields, proved against a function of the old contents, and
what the source promises is proved about that function. Capacities (`max_toks`, `max_names`, ...) are
array lengths, and the source's `overflow` is a result `ok == false`.

## Modules

| file | what it models |
|---|---|
| `Grammar.dfy` | the 110 productions of CWEAVE as data, and what each of them guarantees |
| `Rewriting.dfy` | one step of the scrap parser on values: texts under construction, math modes |
| `ParserTheorems.dfy` | termination, math-mode soundness and yield over whole runs |
| `Survivors.dfy` | which original texts a run loses |
| `Productions.dfy` | the documented table of productions, and the switch that carries it out |
| `Language.dfy`, `Sentences.dfy` | what the productions are for: every expression becomes one exp scrap and every list of statements one stmt scrap, comments included |
| `Strategy.dfy` | the promise that productions are applied from left to right |
| `Balance.dfy` | the indentation in the texts that the parser builds |
| `TextMemory.dfy` | `tok_mem` and `tok_start`, and the texts they expand to |
| `Parser.dfy` | `reduce`, `squash`, `make_reserved` and `translate` on the scrap array |
| `CodeParts.dfy` | `app_scrap` and `C_translate`: one piece of C text after the other |
| `NameOrder.dfy`, `SearchTree.dfy`, `NameChunks.dfy` | comparing names, the tree, names in chunks |
| `SectionTable.dfy`, `SectionLookup.dfy`, `SectionHistory.dfy` | `section_lookup`, and runs of it |
| `Chains.dfy`, `Expander.dfy`, `ExpanderTheorems.dfy` | replacement chains and macro expansion |
| `TokenCodec.dfy`, `OutChar.dfy` | the bytes of replacement texts; the output state machine |
| `ReadBack.dfy` | what get_next reads from the output |
| `Tangling.dfy` | CTANGLE from the bytes of the texts to the characters of a file |
| `Links.dfy`, `IndexOrder.dfy`, `IndexSort.dfy` | linked lists; the bucket sort of the index |
| `XrefOrder.dfy`, `Xrefs.dfy` | cross-reference lists and their in-place editing |
| `ChangeFile.dfy` | merging a change file into the web file |
| `Breaks.dfy`, `LineBreaker.dfy`, `Comments.dfy` | breaks and cancels; output lines; comments |
| `Sequences.dfy`, `ByteCodes.dfy` | shared helpers |

## Where the code does not do what one would expect

Each of these is the code's behaviour, kept as it is, with the exact condition proved.

- Productions 84 and 85 replace the text of a `prelangle` or `prerangle` scrap by a single `<` or `>`.
  A run loses exactly the texts of the scraps that were replaced so (`RunLoses`). Usually that is the
  `<` or `>` itself, but if a comment was merged into the scrap before, the comment is lost as well
  (`CommentAfterLessIsLost`). All texts of other scraps come through if and only if each replaced
  scrap is one that came in as it was (`OthersSurvive`). That is always so when no comment or other
  insert stands directly behind a `<` or `>`, nor at the front with one behind it (`ClearSurvive`,
  `LeadingCommentIsLost`); in expressions and statements the
  first of these is exact (`SentenceParsed`).
- The table of productions in `prod.w` and the program differ in eight places; the model follows the
  program. In 26 the `raw_int` stays one; 45 and 108 leave the semicolon, or the `lpar`, where it is;
  the text of 43 includes the semicolon, that of 61 ends with a new line in place of a possible one,
  and those of 79 and 80 begin with `inserted` and hold all the scraps (`Productions.Text`); and 99
  is not applied when two operators follow (`SwitchDocumented`, `TwoOperatorsStay`).
- `cweave.w` promises that productions are applied from left to right: the first scrap at which one
  applies comes first. The program goes back by fixed amounts, which is far enough if and only if the
  production at hand is none of those listed in `Missed` with what stands in front of it
  (`RescanExactly`). In `typedef struct s;` the steps back are not far enough (`TypedefStruct`).
- A text indents as often as it outdents, but a function declarator indents twice more; when one is
  taken into `@[...@]`, and only then, the two steps are never taken back (`StepBalanced`).
- CTANGLE keeps words apart, and `/` from `*`, but writes two `+` as `++`. Reading the output gives
  the tokens back if and only if no token is extended by what is written behind it (`ReadsBack`,
  `TwoPlusSigns`).
- `make_reserved` looks at the token where a text starts without checking that the text is not empty.
  It changes exactly the scraps that it should if and only if no expression with an empty text stands
  in front of the identifier (`SweepMeets`). The second scrap of a section name has an empty text; in
  `x @<...@> x` it is taken for the second x (`EmptyTextTaken`).
- Underlining an identifier can leave its cross references out of order. The order survives if and
  only if the first entry of an earlier section, unless the section itself comes first, is a
  definition (`UnderlinedFalls`; the list of sections 5, 3 and a definition in 2, underlined for 4).
- `get_line` turns the letter behind a leading `@` of a new line of a change into lower case, so the
  lines come out verbatim if and only if no applied change has such a line (`VerbatimExactly`;
  `UpperCodeLowered`).
- `check_complete` stays silent about an unfinished change when the web file ends at a blank old line
  (`CompleteExactly`, `BlankEndsSilently`).
- An output file whose section was never defined gets the unnamed program; without an unnamed
  program the driver of CTANGLE loops for ever (`UndefinedFileGetsProgram`, `UndefinedFileLoops`).
- A replacement text is read back exactly if and only if no string or constant in it contains one of
  the bytes 02 and 03 (`RoundTrip`, `QuoteByteMisread`).
- An empty verbatim string between a `/` and a `*` lets the two come together in the output
  (`EmptyStringOpensComment`). A comment opens if and only if a `*` follows a `/` behind which there
  are tokens with empty texts only, and no two words next to each other (`NoCommentOut`).
- Right after `\Y\B` the indentation of a run of breaks is dropped (`IndentationConserved`,
  `StartLosesIndentation`).
- A break right behind a `%` at the start of a line frees no position, because the `%` is carried over
  to the rest; the output buffer stays within its 80 positions if and only if there is no such break
  (`BreakFrees`, `BufferFitsExactly`, `StuckLine`). What is read back has a `%` too many if and only
  if a line with a comment is broken (`OutputReadsBack`).

## Model

| member | source | states |
|---|---|---|
| `Grammar.TableOK` | ns2.34/cweb/cweave.c:2294-2942 | every production that can fire, on any four categories: its scraps are live, it shortens the window or lowers an acyclic rank, its appends list the consumed scraps once and in order, it never sends a stray dollar sign, and it makes a `<` or `>` scrap only by merging an insert into one |
| `Grammar.SwitchOK` | ns2.34/cweb/cweave.c:2296-2942 | the same for all productions of the main switch together, except those that replace text |
| `Rewriting.RuleFits` | ns2.34/cweb/cweave.c:2273-2278 | the production found at a position fits into the live window: what it consumes is there and is not zero padding |
| `Rewriting.ApplyWf` | ns2.34/cweb/cweave.c:2143-2239 | after any production the window is live again and the position lies within it |
| `ParserTheorems.StepLowersPotential` | ns2.34/cweb/cweave.c:2143-2239 | one round of the parser strictly lowers a measure made of the number of scraps, the sum of their ranks and the distance to the end, even when an expression becomes a reserved word |
| `ParserTheorems.ParserTerminates` | ns2.34/cweb/cweave.c:2269-2947 | every run of rounds, whatever make_reserved chooses, has at most as many rounds as a bound that depends on the number of scraps only |
| `ParserTheorems.EmitSound` | ns2.34/cweb/cweave.c:2003-2038 | appending scraps and tokens through big_app1 and big_app keeps the text under construction going from its start mode to its current mode when `$` is a toggle, where exactly the blank and the codes from 0210 to 0220 belong outside math, and a dollar sign within a text stands next to `{}` |
| `ParserTheorems.CodeModes` | ns2.34/cweb/cweave.c:2003-2014 | big_app wants no_math exactly for the blank and the codes from big_cancel to big_force, by their numbers |
| `ParserTheorems.StepSound` | ns2.34/cweb/cweave.c:2143-2239 | if every scrap goes from its start mode to its end mode in this sense, with maybe at both ends or at neither, the same holds after any round |
| `ParserTheorems.RunSound` | ns2.34/cweb/cweave.c:2269-2947 | the same after any run of rounds |
| `ParserTheorems.FinalSound` | ns2.34/cweb/cweave.c:2970-2977 | gluing sound scraps with blanks and dollar signs gives a text that starts and ends outside math |
| `ParserTheorems.TranslationSound` | ns2.34/cweb/cweave.c:2953-2978 | from scraps as they come in, the final text of every run starts and ends outside math |
| `ParserTheorems.ApplyYield` | ns2.34/cweb/cweave.c:2143-2239 | a production that does not replace text keeps the sequence of original texts that the window flattens to |
| `ParserTheorems.DiscardYield` | ns2.34/cweb/cweave.c:2270-2942 | the two productions that replace text drop the original texts of that scrap and nothing else |
| `ParserTheorems.StepYield` | ns2.34/cweb/cweave.c:2269-2947 | a round keeps the flattened sequence of original texts if and only if production 84 or 85 does not fire; those drop exactly the texts of the scrap they replace |
| `ParserTheorems.RunYield` | ns2.34/cweb/cweave.c:2269-2947 | over a whole run the sequence is kept if and only if productions 84 and 85 stay out of it, as they do when there is no `<` or `>` scrap of that kind |
| `Survivors.RunConserves` | ns2.34/cweb/cweave.c:2269-2947 | over any run the original texts, copies counted, are those of the last window together with those of the scraps that 84 and 85 replaced |
| `Survivors.RunLoses` | ns2.34/cweb/cweave.c:2269-2947 | distinct original texts come through a run in their order, except exactly those of the scraps that 84 and 85 replaced |
| `Survivors.OthersSurvive` | ns2.34/cweb/cweave.c:2269-2947 | the texts that no `<` or `>` scrap holds come through, each as often as it was there and in order, if and only if every scrap that 84 and 85 replace is one that came in |
| `Survivors.ClearSurvive` | ns2.34/cweb/cweave.c:2269-2947 | they always do when no insert stands directly behind a `<` or `>`, nor at the front with one behind it, where an lproc at the front counts until its rproc |
| `Survivors.StepClear` | ns2.34/cweb/cweave.c:2269-2942 | every round keeps inserts away from `<` and `>` scraps, and these as they came in |
| `Survivors.TableMarks` | ns2.34/cweb/cweave.c:2294-2942 | for every production: where inserts, lprocs, rprocs, `<` and `>` come from, and that the position passes none of them by |
| `Survivors.LeadingCommentIsLost` | ns2.34/cweb/cweave.c:2778-2796 | a comment at the front is lost with a `<` behind it |
| `Survivors.StepTraced` | ns2.34/cweb/cweave.c:2269-2942 | after any round each `<` or `>` scrap is one that came in or holds a text of another scrap |
| `ParserTheorems.FinalYield` | ns2.34/cweb/cweave.c:2970-2977 | the text that is returned contains the original texts of the last window, each once and in order |
| `ParserTheorems.CommentAfterLessIsLost` | ns2.34/cweb/cweave.c:2295-2942 | two scraps, the second a comment behind `<`, from which the parser makes a text without the comment |
| `Sentences.SentenceParsed` | ns2.34/cweb/cweave.c:2269-2942 | every expression, and every list of expression and empty statements, blocks, if/else chains, for, while, switch, do-while, case, default and labels, return, break and section names, as C_parse sends it, of any length and nesting and with comments anywhere: every long enough run ends with one scrap, of category exp or stmt; all texts but those of `<` and `>` are in it, in order, if and only if no comment stands directly behind a `<` or `>` |
| `Sentences.ParsingRun` | ns2.34/cweb/cweave.c:2269-2942 | over any run the window of such a parse stays one, no production applies before the position, and the comments up to it are merged |
| `Sentences.MergeHere` | ns2.34/cweb/cweave.c:2295-2303 | a comment in view is merged first: with the scrap on its left, or, at the front, on its right |
| `Sentences.StepFolds` | ns2.34/cweb/cweave.c:2269-2942 | without a comment in view a round replaces the scraps that the language says, by the category it says, and moves the position to the place it says |
| `Sentences.RunDoomed` | ns2.34/cweb/cweave.c:2269-2942 | a comment directly behind a `<` or `>` is merged into it sooner or later and lost |
| `Language.RuleFolds` | ns2.34/cweb/cweave.c:2296-2942 | on any four categories that can stand side by side in the language: which production fires, what it makes and where the position goes |
| `Language.FoldKeeps` | ns2.34/cweb/cweave.c:2296-2942 | each production that fires on a sentence leaves a sentence, read by an automaton of its own |
| `Language.QuietIsPhrase` | ns2.34/cweb/cweave.c:2296-2942 | a sentence on which no production fires is a single exp or stmt |
| `Language.OperandPlace` | ns2.34/cweb/cweave.c:2318-2324 | an operand at the position begins something: the sentence, a statement, a block, a parenthesis, a case or the middle of a conditional, so that a colon behind it is that of a label |
| `Language.StatementPlace` | ns2.34/cweb/cweave.c:2575-2720 | a statement at the position stands at the front, in its block or behind a do, never behind an if or a loop that still needs it |
| `Language.CloserPlace` | ns2.34/cweb/cweave.c:2296-2942 | of what ends things only a semicolon can be at the position, as an empty statement or within `for(...)` |
| `Productions.SwitchDocumented` | ns2.34/cweb/prod.w:49-270 | on any four categories the switch carries out the longest documented production that applies, with the documented category and text apart from the places listed above, and none exactly when none applies or when `operator_like` stands before two operators |
| `Productions.MatchDocumented` | ns2.34/cweb/cweave.c:2294-2942 | the same with the merging of inserts and end_args that goes before the switch |
| `Productions.TwoOperatorsStay` | ns2.34/cweb/cweave.c:2857-2870 | production 99 is documented for two operators in a row and not carried out for them; nor is another |
| `Strategy.RescanExactly` | ns2.34/cweb/cweave.w:1594-1620 | after any production at the position, for any categories around it: no production applies before the new position if and only if this is not one of the listed cases |
| `Strategy.StepLeftToRight` | ns2.34/cweb/cweave.w:1594-1620 | a round keeps the order, inserts and end_args included, if and only if it is not one of these cases |
| `Strategy.RunLeftToRight` | ns2.34/cweb/cweave.w:1594-1620 | a run in which none of these cases comes up applies every production at the first scrap where one applies |
| `Strategy.TypedefStruct` | ns2.34/cweb/cweave.w:1594-1620 | the case comes up in `typedef struct s;`, where production 39 applies to the left of the position |
| `Balance.TableEven` | ns2.34/cweb/cweave.c:2294-2942 | every production indents as often as it outdents, a function declarator counted as two, unless one is followed by end_arg |
| `Balance.StepBalanced` | ns2.34/cweb/cweave.c:2294-2942 | a round keeps the indentation of all scraps balanced if and only if it does not take a function declarator into an end_arg |
| `Balance.RunBalanced` | ns2.34/cweb/cweave.c:2294-2942 | so does every run without end_args |
| `TextMemory.Texts.App` | ns2.34/cweb/cweave.c:255 | a token goes to the end of the open text and no finished text changes; it fails only when the memory is full |
| `TextMemory.Texts.SwitchTo` | ns2.34/cweb/cweave.c:2007-2016 | the math switch of big_app and big_app1: the open text and both modes are as the value model says |
| `TextMemory.Texts.BigApp` | ns2.34/cweb/cweave.c:2003-2018 | appends a token in the mode it needs, as the value model gives it, which `ParserTheorems.EmitSound` ties to the numbers of the codes |
| `TextMemory.Texts.BigApp1` | ns2.34/cweb/cweave.c:2020-2038 | appends a scrap's text, switching modes as its start and end modes need |
| `TextMemory.Texts.FindFirstIdent` | ns2.34/cweb/cweave.c:2043-2063 | the search through nested texts that `FirstIdent` describes |
| `TextMemory.FirstIdentIsFirst` | ns2.34/cweb/cweave.c:2043-2063 | that search finds the first identifier or reserved word of the flattened text, where each text is cut off at its first `inserted`, and nothing if and only if there is none |
| `TextMemory.Texts.Freeze` | ns2.34/cweb/cweave.c:2152 | the open text becomes a new text with the same expansion, and an empty one is open |
| `TextMemory.Texts.AppOriginal` | ns2.34/cweb/cweave.c:267-277 | the tokens of an original text with the freeze_text behind them, if and only if there is room |
| `TextMemory.Texts.Settle` | ns2.34/cweb/cweave.c:3220-3235 | after a translation all texts can be taken as original ones, so that the next translation can start |
| `TextMemory.AppendToken` | ns2.34/cweb/cweave.c:2017 | one more token extends the expansion of the open text by its own and leaves every finished expansion |
| `TextMemory.PatchOriginals` | ns2.34/cweb/cweave.c:2081 | turning identifiers of original texts into reserved words leaves the expansion of every text built from them in shape |
| `Parser.Weaver.ShiftDown` | ns2.34/cweb/cweave.c:2154-2157 | the loop of reduce moves the scraps behind the consumed ones, in place, and no other |
| `Parser.Weaver.CloseGap` | ns2.34/cweb/cweave.c:2153-2159 | after reduce the live and unread scraps are the old ones without the consumed ones |
| `Parser.Weaver.ReduceScraps` | ns2.34/cweb/cweave.c:2143-2191 | reduce on the array is the replacement of k scraps by one with the text just built and its two modes, and the new position |
| `Parser.Weaver.SquashScraps` | ns2.34/cweb/cweave.c:2196-2239 | squash on the array is the merge of k scraps, or a change of category when k is 1 |
| `Parser.Weaver.LoadScraps` | ns2.34/cweb/cweave.c:2273-2278 | reading scraps until four are in view, or padding with category 0, leaves the scraps as they are |
| `Parser.Weaver.SweepFrom` | ns2.34/cweb/cweave.c:2077-2084 | the loop of make_reserved over live and unread scraps is the sweep over the list of them |
| `Parser.Weaver.MakeReserved` | ns2.34/cweb/cweave.c:2068-2087 | with an identifier in the text, exactly the struck scraps become raw_int, and exactly the token found and its copies at the start of an exp become reserved words; these are the scraps that should if and only if no empty text is among them; without an identifier nothing changes; yields and modes never do |
| `Parser.SweepExactly` | ns2.34/cweb/cweave.c:2077-2084 | the sweep changes scrap a if and only if it is not before the argument, is an exp, its text starts where the token stands, and no earlier scrap has used up that place; and it changes a token if and only if such a text starts there |
| `Parser.SweepMeets` | ns2.34/cweb/cweave.c:2077-2084 | on scraps whose texts start in rising order that is what is wanted, the exp scraps whose own text starts with the token, if and only if none of them has an empty text; `Parser.Weaver.MakeReserved` has this for every window that can come up |
| `Parser.OrderMatches` | ns2.34/cweb/cweave.c:2077-2084 | in every window the scraps that start with an identifier stand in the order of their texts |
| `Parser.EmptyTextTaken` | ns2.34/cweb/cweave.c:2077-2084 | in `x @<...@> x` the empty second scrap of the section name is changed in place of the second x |
| `Parser.Weaver.RunProg` | ns2.34/cweb/cweave.c:2296-2942 | the appends of a production build the text that the table says |
| `Parser.Weaver.FindRule` | ns2.34/cweb/cweave.c:2296-2938 | the pattern match at pp finds the production that the table gives for the scraps in view; `Productions.MatchDocumented` ties that to the documented one |
| `Parser.Weaver.Rewrite` | ns2.34/cweb/cweave.c:2294-2942 | one round on the arrays is one step of the rewriting system |
| `Parser.Weaver.Round` | ns2.34/cweb/cweave.c:2269-2947 | the same with loading scraps and the checks for room; it fails only when fewer than 20 tokens or 10 texts are left |
| `Parser.Weaver.Conclude` | ns2.34/cweb/cweave.c:2970-2977 | the text returned expands to the final text of the scraps that are left |
| `Parser.Weaver.ParseAll` | ns2.34/cweb/cweave.c:2269-2947 | the main loop terminates, and unless the memories are nearly full it makes a complete run of the rewriting system |
| `Parser.Weaver.Translate` | ns2.34/cweb/cweave.c:2244-2983 | translate terminates, and unless the memories are nearly full the text it returns is the final text of a complete run of the rewriting system and keeps what is promised of it; the scraps below scrap_base stay |
| `Parser.RunKeepsPromise` | ns2.34/cweb/cweave.c:2244-2983 | the final text of any complete run is sound, holds all original texts but those of the replaced scraps, and holds all of other scraps if and only if those came in as they were |
| `CodeParts.NewWeaver` | ns2.34/cweb/cweave.c:759-873 | the memories and scrap_info at the start are ready for the first scrap |
| `CodeParts.AppScrap` | ns2.34/cweb/cweave.c:273-277 | one more scrap with a text of its own, if and only if there is room |
| `CodeParts.CTranslate` | ns2.34/cweb/cweave.c:3220-3235 | for whatever C_parse appends: the translation reads from outside math to outside math, holds all texts but those of the replaced scraps, and loses one of another scrap exactly if one of those had been merged; the scraps below are as before and the next piece can follow |
| `CodeParts.SentenceRendered` | ns2.34/cweb/cweave.c:3220-3235 | for an expression or a list of statements the translation is the text of a single exp or stmt scrap, with all texts but those of `<` and `>` in order if and only if no comment stands directly behind one of these |
| `CodeParts.PromiseRendered` | ns2.34/cweb/cweave.c:3220-3235 | with one text of its own per scrap, what the parser promises holds without conditions |
| `NameOrder.WebStrcmp` | ns2.34/cweb/common.c:798-809 | the comparison is the five-way comparison of the two strings |
| `NameOrder.CmpMeaning` | ns2.34/cweb/common.c:798-809 | each of the five results holds exactly when the strings are related that way |
| `NameOrder.BeforeTransitive` | ns2.34/cweb/common.c:798-809 | the less-than outcome is transitive |
| `NameOrder.BeforePrefix` | ns2.34/cweb/common.c:798-809 | a prefix that is still apart from another name stands on the same side of it |
| `SearchTree.PairwiseIncomparable` | ns2.34/cweb/common.c:884-906 | in an ordered tree no key is a prefix of another, and the tree order is the name order |
| `SearchTree.MatchesAtRoot` | ns2.34/cweb/common.c:884-906 | the names that match a query at a node are the node and the matches in both subtrees |
| `SearchTree.InsertOrdered` | ns2.34/cweb/common.c:814-840 | inserting a name that matches nothing keeps the tree ordered |
| `SearchTree.ShortenOrdered` | ns2.34/cweb/common.c:932-933 | shortening the key of the only match to the query keeps the tree ordered |
| `SearchTree.InsertRepr` | ns2.34/cweb/common.c:837-839 | hanging the new node below the parent of the search is the insertion into the tree |
| `NameChunks.SectionNameCmp` | ns2.34/cweb/common.c:962-991 | comparing a query chunk by chunk is comparing it with the concatenation of all chunks |
| `NameChunks.SprintSectionName` | ns2.34/cweb/common.c:762-780 | printing a name chunk by chunk gives the concatenation |
| `NameChunks.NameCmpConcat` | ns2.34/cweb/common.c:962-991 | a comparison that goes past one chunk is the comparison of what is left with the rest of the name |
| `NameChunks.ChainGrows` | ns2.34/cweb/common.c:844-864 | a new chunk at the end of the chain extends the full name by it |
| `SectionTable.LookupPromise` | ns2.34/cweb/common.c:920-952 | for the section a lookup meets: the name becomes the longer of itself and the query, the prefix the shorter; it is complete afterwards if and only if it was before or a full name was looked up without error; it fails exactly when the query contradicts the name, extends a complete one or is a full name that is too short, and then nothing changes |
| `SectionTable.AddOK` | ns2.34/cweb/common.c:814-840 | adding a name that matches nothing keeps tree, chunks and prefixes in order and adds that section only |
| `SectionTable.ExtendOK` | ns2.34/cweb/common.c:844-864 | extending a name keeps the whole table in order and changes that name only |
| `SectionTable.ShortenOK` | ns2.34/cweb/common.c:932-933 | shortening a stored prefix keeps the whole table in order and changes that prefix only |
| `SectionLookup.NameDir.constructor` | ns2.34/cweb/common.c:320-331 | the empty table is in order |
| `SectionLookup.NameDir.Search` | ns2.34/cweb/common.c:884-906 | the two-phase search reports no match with the place for a new name, the only match, or two different matches, as a scan of all names would |
| `SectionLookup.NameDir.AddSectionName` | ns2.34/cweb/common.c:814-840 | adds a section with the query as prefix and name; fails only when fewer than two entries, or too few bytes, are left |
| `SectionLookup.NameDir.ExtendSectionName` | ns2.34/cweb/common.c:844-864 | appends a chunk to one name; fails only when the entries or the bytes are used up |
| `SectionLookup.NameDir.FindHolder` | ns2.34/cweb/common.c:856 | the walk along the chunks ends at the entry to which the new chunk belongs |
| `SectionLookup.NameDir.SectionLookup` | ns2.34/cweb/common.c:869-957 | section_lookup does what the scan of all names demands: a new section, the only match updated, or an error that changes nothing |
| `SectionLookup.NameDir.Update` | ns2.34/cweb/common.c:923-950 | the outcome for the only match is the function of section and query, which keeps `SectionTable.LookupPromise` |
| `SectionLookup.TreeHits` | ns2.34/cweb/common.c:884-906 | the matches in the tree are the sections whose prefix is a prefix of the query or the other way round |
| `SectionHistory.LookupKeepsTable` | ns2.34/cweb/common.c:869-957 | any lookup keeps all prefixes pairwise incomparable and lets names only grow |
| `SectionHistory.HistoryGood` | ns2.34/cweb/common.c:869-957 | the same between any two points of any sequence of lookups |
| `SectionHistory.NameIsStable` | ns2.34/cweb/common.c:869-957 | a name that was once looked up without error, abbreviated or not, denotes the same section ever after without error or change, however many lookups come in between; a full name does so as an abbreviation as well |
| `SectionHistory.RecordIsHistory` | ns2.34/cweb/common.c:869-957 | from the empty table on, a section is there if and only if a lookup returned it without error; its name is the longest of those queries, its prefix the shortest, and it is complete if and only if one of them was a full name |
| `SectionHistory.FullNameAccepted` | ns2.34/cweb/common.c:920-952 | a full name that meets one section is accepted if and only if all earlier queries for it were abbreviations that it extends, or it was looked up as a full name before; then it is the name of the section |
| `SectionHistory.FullNameCompletes` | ns2.34/cweb/common.c:933-936 | a full name that extends all abbreviations looked up for a section returns that section and completes it |
| `SectionHistory.TableGood` | ns2.34/cweb/common.c:869-957 | the tables of the model in place are tables of that kind |
| `Chains.TextTable.DefineSection` | ns2.34/cweb/ctangle.c:1445-1460 | a new section text goes to the end of its section's chain, and all other chains and macros stay |
| `Chains.TextTable.DefineMacro` | ns2.34/cweb/ctangle.c:1394-1405 | a macro text joins no chain |
| `Chains.TextTable.FindLast` | ns2.34/cweb/ctangle.c:1455-1457 | following text_link ends at the last text of the section |
| `Chains.SectionOK` | ns2.34/cweb/ctangle.c:1449-1460 | the table with the text hung in is in order again |
| `Chains.FollowChain` | ns2.34/cweb/ctangle.c:531-542 | following the links from any text of a chain visits the rest of the chain |
| `Chains.ChainVisitsDefinitions` | ns2.34/cweb/ctangle.c:1449-1460 | the chain of a section visits exactly the texts that define it, in source order |
| `Chains.ChainsDisjoint` | ns2.34/cweb/ctangle.c:1449-1460 | no text is visited from the heads of two sections, and no macro from any |
| `Expander.ScannedIsCode` | ns2.34/cweb/ctangle.c:1449-1460 | the tables that the scanner leaves have forward links, so expansion is well defined |
| `Expander.StepRemaining` | ns2.34/cweb/ctangle.c:547-589 | a step of the stack machine puts out the front of what its state still stands for, or overflows when that does |
| `Expander.Tangler.PushLevel` | ns2.34/cweb/ctangle.c:514-527 | saves the state and starts on a text, unless the stack is full |
| `Expander.Tangler.PopLevel` | ns2.34/cweb/ctangle.c:531-542 | goes on to the next text of the chain, or back to the caller |
| `Expander.Tangler.Pass` | ns2.34/cweb/ctangle.c:547-589 | one pass of get_output is one step of the machine |
| `Expander.Tangler.PassOn` | ns2.34/cweb/ctangle.c:547-589 | a pass keeps output so far plus what is left, and less is left to do |
| `Expander.Tangler.Run` | ns2.34/cweb/ctangle.c:649 | the driver loop terminates on every name graph and puts out the recursive in-order substitution, cut off where the stack overflows |
| `Expander.Tangler.PhaseTwo` | ns2.34/cweb/ctangle.c:609-676 | each output file holds the substitution of the text it starts with, and the first overflow ends it all |
| `ExpanderTheorems.CycleOverflows` | ns2.34/cweb/ctangle.c:518 | sections that refer to each other in a circle overflow the stack, however large it is |
| `ExpanderTheorems.OverflowExactly` | ns2.34/cweb/ctangle.c:514-525 | a text overflows the stack if and only if a chain of calls that is too long for the room starts in it: one call more than there is room, or as many and then the macro definitions |
| `ExpanderTheorems.ReachedCycleOverflows` | ns2.34/cweb/ctangle.c:514-525 | so does every text from which a section on a circle can be reached |
| `ExpanderTheorems.WrittenExactly` | ns2.34/cweb/ctangle.c:609-676 | phase_two gets through all files if and only if no such chain starts in the unnamed program or in a file |
| `ExpanderTheorems.ReachedCycleEnds` | ns2.34/cweb/ctangle.c:609-676 | a circle that can be reached from one of them ends it early |
| `ExpanderTheorems.OutputExactly` | ns2.34/cweb/ctangle.c:547-589 | without overflow something is put out if and only if a chain of calls, each ahead in its text, leads to a token that gives it, the complaint about a section without text included |
| `ExpanderTheorems.RankedFits` | ns2.34/cweb/ctangle.c:518 | if the nesting of sections is bounded by a rank below the stack size, nothing overflows |
| `ExpanderTheorems.ExpandNests` | ns2.34/cweb/ctangle.c:552-586 | the marks at the beginning and the end of section texts are properly nested in the output |
| `ExpanderTheorems.UndefinedFileGetsProgram` | ns2.34/cweb/ctangle.c:663-667 | a file whose section was never defined gets the unnamed program |
| `ExpanderTheorems.UndefinedFileStays` | ns2.34/cweb/ctangle.c:663-668 | without an unnamed program the driver is, after any number of steps on such a file, where it was, with one end mark put out for each step |
| `ExpanderTheorems.UndefinedFileLoops` | ns2.34/cweb/ctangle.c:663-668 | the driver ends on such a file if and only if there is an unnamed program |
| `ExpanderTheorems.MachineEnds` | ns2.34/cweb/ctangle.c:514-542 | on defined texts the machine ends within the number of steps that the substitution counts |
| `TokenCodec.RoundTrip` | ns2.34/cweb/ctangle.c:547-589 | reading back what scan_repl appended does what the items mean, if and only if no string or constant holds a byte 02 or 03 |
| `TokenCodec.QuoteByteMisread` | ns2.34/cweb/ctangle.c:559-561 | a string of just the byte 02 is read back as three quote bytes |
| `TokenCodec.ItemsRecovered` | ns2.34/cweb/ctangle.c:1185-1359 | the appended items can be read off what get_output does |
| `TokenCodec.DecodeQuoted` | ns2.34/cweb/ctangle.c:559-561 | a string is written byte by byte unless it holds a quote byte, and then it is not |
| `TokenCodec.FirstOne` | ns2.34/cweb/ctangle.c:561-587 | the first bytes of an encoded item decode to that item, for names below 10240, section numbers up to 12287 and 16-bit line numbers |
| `TokenCodec.TokMem.StoreTwoBytes` | ns2.34/cweb/ctangle.c:501-509 | two bytes, high one first, if there is room for both |
| `TokenCodec.TokMem.AppQuoted` | ns2.34/cweb/ctangle.c:1268-1281 | a string between its quote bytes |
| `TokenCodec.TokMem.ScanRepl` | ns2.34/cweb/ctangle.c:1205-1359 | appends the encoding of all items, if and only if there is room for them |
| `TokenCodec.Reader.GetToken` | ns2.34/cweb/ctangle.c:547-589 | one call of get_output takes the bytes of one token |
| `TokenCodec.Reader.GetText` | ns2.34/cweb/ctangle.c:547-589 | reading a whole text does what its bytes decode to |
| `OutChar.Writer.PutCode` | ns2.34/cweb/ctangle.c:722-814 | out_char for codes other than identifiers: output and new state; that the operators are written as they are read is `ReadBack.OperatorsReadBack` |
| `OutChar.Writer.PutName` | ns2.34/cweb/ctangle.c:735-745 | an identifier with its eight-bit characters transliterated, and a space before it if one is needed |
| `OutChar.Writer.WriteTokens` | ns2.34/cweb/ctangle.c:722-814 | the output is the layout of the tokens |
| `OutChar.TokensOut` | ns2.34/cweb/ctangle.c:722-814 | for every token sequence the machine writes the token texts with a space exactly between two words and between `/` and `*` |
| `OutChar.WordsApart` | ns2.34/cweb/ctangle.c:735-745 | two identifiers or constants in a row always have a space between them |
| `OutChar.NoCommentOut` | ns2.34/cweb/ctangle.c:722-814 | without joins and section numbers, and with texts that are empty or make no comment with their neighbours, a `/` is directly followed by a `*` if and only if a `*` token follows a `/` token behind which only empty texts, and no space, were put out |
| `OutChar.FullTextsNoComment` | ns2.34/cweb/ctangle.c:809-812 | with texts that are not empty this never happens |
| `OutChar.EmptyStringOpensComment` | ns2.34/cweb/ctangle.c:807-812 | an empty string between `/` and `*` is the way around that |
| `ReadBack.OperatorsReadBack` | ns2.34/cweb/ctangle.c:1155-1172 | out_char has a text of its own for exactly the 15 compressed operators, and get_next reads that text, whole, as the code it was |
| `ReadBack.ReadsBack` | ns2.34/cweb/ctangle.c:871-1176 | for any sequence of identifiers, numbers, operators and punctuation, get_next reads the tokens back from the output if and only if no token is extended by the two bytes behind it |
| `ReadBack.TwoPlusSigns` | ns2.34/cweb/ctangle.c:1155-1172 | two `+` in a row are written without a space and read as `++` |
| `Tangling.TangledOutput` | ns2.34/cweb/ctangle.c:501-814 | from the bytes to the characters: decoding the stored bytes, expanding them and writing the result with out_char gives the layout of the tokens of the recursive substitution of the scanned texts, and overflows exactly when that does |
| `Tangling.TangleFile` | ns2.34/cweb/ctangle.c:547-814 | the same for one file, with the stack machine and the writer |
| `Tangling.ExpandSplit` | ns2.34/cweb/ctangle.c:547-589 | splitting the tokens of the texts into smaller ones splits the output and changes nothing else |
| `Tangling.StoredRefines` | ns2.34/cweb/ctangle.c:1185-1359 | what is read back from tok_mem is what was scanned, in smaller pieces |
| `Tangling.StoredMarked` | ns2.34/cweb/ctangle.c:1433-1444 | each stored section text starts with its number and has no other |
| `Tangling.StoredNests` | ns2.34/cweb/ctangle.c:552-586 | so the marks in the output are properly nested |
| `IndexOrder.LeqIsDictionary` | ns2.34/cweb/cweave.c:888-911 | for names of at most 255 characters the order of the index is the dictionary order of the case-folded collating sequence |
| `IndexOrder.RankCollate` | ns2.34/cweb/cweave.c:888-911 | the collating table holds every folded character except DEL, at its rank |
| `IndexOrder.CollateCopied` | ns2.34/cweb/cweave.c:888-911 | the table has at every rank what the source copies there: NUL, blank, the control characters, the punctuation in its order, `_`, letters, digits, the codes from 0200 |
| `IndexOrder.OutputKeepsNames` | ns2.34/cweb/cweave.c:4002-4104 | the sort puts out every name as often as it was put in |
| `IndexOrder.OutputIsSorted` | ns2.34/cweb/cweave.c:4002-4104 | the sort puts out the names in order |
| `IndexOrder.IndexIsSorted` | ns2.34/cweb/cweave.c:3980-4104 | the whole sort: a permutation, sorted by the first 255 characters, and in dictionary order if no name is longer |
| `IndexOrder.SplitLowers` | ns2.34/cweb/cweave.c:4085-4098 | splitting the top list lowers the number of characters that were not examined |
| `IndexSort.IndexSorter.Gather` | ns2.34/cweb/cweave.c:3980-3994 | the names with cross references go into the buckets of their first characters |
| `IndexSort.IndexSorter.Distribute` | ns2.34/cweb/cweave.c:4085-4098 | the linked list is spread over the buckets in place, and no other list changes |
| `IndexSort.IndexSorter.Unbucket` | ns2.34/cweb/cweave.c:4139-4154 | the buckets go on the stack in collating order and are empty afterwards; it fails only when the stack is full |
| `IndexSort.IndexSorter.SortTop` | ns2.34/cweb/cweave.c:4003-4104 | one turn of the loop keeps output so far plus what the stack still stands for |
| `IndexSort.IndexSorter.SortIndex` | ns2.34/cweb/cweave.c:3980-4104 | every name with cross references comes out exactly once, in order |
| `XrefOrder.NewXrefKeeps` | ns2.34/cweb/cweave.c:1009-1026 | noting the current section keeps an identifier's list strictly decreasing, with one entry for it, flagged if any note said so |
| `XrefOrder.PrunedKeeps` | ns2.34/cweb/cweave.c:1554-1561 | what `@f` leaves is exactly the definitions, in order |
| `XrefOrder.UnderlinedKeeps` | ns2.34/cweb/cweave.c:2107-2138 | underlining leaves exactly one entry for the section, flagged, and all others unchanged |
| `XrefOrder.UnderlinedFalls` | ns2.34/cweb/cweave.c:2107-2138 | the list stays strictly decreasing if and only if its first earlier entry is a definition or the section is there already |
| `XrefOrder.UnderlineOutOfOrder` | ns2.34/cweb/cweave.c:2107-2138 | a list that comes out of order |
| `XrefOrder.UnderlineRunKeeps` | ns2.34/cweb/cweave.c:2092-2138 | over all of phase two every underlined section ends up with exactly one flagged entry |
| `XrefOrder.NewSectionXrefKeeps` | ns2.34/cweb/cweave.c:1031-1045 | a new reference of the current section keeps the groups of a section's list and adds just itself |
| `XrefOrder.SetFileFlagKeeps` | ns2.34/cweb/cweave.c:1050-1060 | the file flag goes first, once |
| `XrefOrder.NotesGrouped` | ns2.34/cweb/cweave.c:1031-1060 | after any run of references and file flags the list is file flag, definitions, citations, uses, each increasing, with exactly the entries that were noted |
| `Xrefs.XrefMemory.NoteXref` | ns2.34/cweb/cweave.c:1009-1026 | new_xref on xmem: one list changes as the function says, the others do not |
| `Xrefs.XrefMemory.UnderlineXref` | ns2.34/cweb/cweave.c:2107-2138 | underline_xref on xmem, its shifting loop included, is the insertion into the list of one name |
| `Xrefs.XrefMemory.ShiftDown` | ns2.34/cweb/cweave.c:2129-2133 | the loop that moves numbers one node towards the front |
| `Xrefs.XrefMemory.PruneUses` | ns2.34/cweb/cweave.c:1554-1561 | unlinking the uses in place leaves the definitions of that name and all other lists |
| `Xrefs.XrefMemory.NoteSection` | ns2.34/cweb/cweave.c:1031-1045 | new_section_xref on xmem; an entry that is there already leaves the switch set |
| `Xrefs.XrefMemory.FlagFile` | ns2.34/cweb/cweave.c:1050-1060 | set_file_flag on xmem |
| `Xrefs.XrefMemory.PrintXrefs` | ns2.34/cweb/cweave.c:4054-4069 | turning the list round in place prints its numbers in reverse order |
| `Xrefs.FallingPrintsRising` | ns2.34/cweb/cweave.c:4054-4069 | the index prints sections in increasing order if and only if the list is strictly decreasing |
| `ChangeFile.MergeCorrect` | ns2.34/cweb/common.c:542-605 | for a well-formed change file the lines delivered are the web file with each change applied at the first later match, with exactly the reports that this causes, and check_complete complains exactly if a change is left over |
| `ChangeFile.CompleteExactly` | ns2.34/cweb/common.c:673-682 | a line is left in the change buffer if and only if a change was not applied completely, except when the web file ended at a blank old line |
| `ChangeFile.BlankEndsSilently` | ns2.34/cweb/common.c:673-682 | an unfinished change that is not complained about |
| `ChangeFile.VerbatimExactly` | ns2.34/cweb/common.c:562-566 | new lines come out as they are if and only if no applied change has an upper-case control code at the start of one |
| `ChangeFile.UpperCodeLowered` | ns2.34/cweb/common.c:562-566 | a new line `@D x` comes out as `@d x` |
| `ChangeFile.MergeFirst` | ns2.34/cweb/common.c:443-507 | lines before the first match come through, and the change replaces as many lines as it has old ones |
| `ChangeFile.MergeUnchanged` | ns2.34/cweb/common.c:594-597 | without a match the web file comes through as it is |
| `ChangeFile.CheckOn` | ns2.34/cweb/common.c:455-506 | check_change takes one web line per old line and counts those that do not match |
| `ChangeFile.PrimeOn` | ns2.34/cweb/common.c:388-438 | priming finds the next change and its first old line that is not blank |
| `ChangeFile.Reader.constructor` | ns2.34/cweb/common.c:512-538 | reset_input |
| `ChangeFile.InputLn` | ns2.34/cweb/common.c:366-384 | a line without the blanks at its end |
| `ChangeFile.Reader.PrimeTheChangeBuffer` | ns2.34/cweb/common.c:388-438 | prime_the_change_buffer, its complaints included |
| `ChangeFile.Reader.CheckChange` | ns2.34/cweb/common.c:443-507 | check_change, its complaints included |
| `ChangeFile.Reader.NextLine` | ns2.34/cweb/common.c:542-605 | get_line as a function of the two streams, for any change file, well-formed or not |
| `ChangeFile.Reader.ReadAll` | ns2.34/cweb/common.c:542-605 | all lines up to the end of the input; this ends for all inputs |
| `ChangeFile.MergeFiles` | ns2.34/cweb/common.c:512-682 | from reset_input over get_line to check_complete on any two files; for a well-formed change file the lines are the merge, the reports those of the merge, and there is a complaint if and only if a change was not applied completely, except at a blank old line |
| `Breaks.RunCollapses` | ns2.34/cweb/cweave.c:3577-3625 | a run after a break becomes its net indentation and one break, or its net indentation only if it meets a cancel |
| `Breaks.StrongestOfRun` | ns2.34/cweb/cweave.c:3623 | that break is the strongest of the run |
| `Breaks.IndentationConserved` | ns2.34/cweb/cweave.c:3536-3625 | the indentation put out is that of the tokens, less what is dropped right after `\Y\B` |
| `Breaks.NothingLost` | ns2.34/cweb/cweave.c:3536-3625 | away from there nothing is dropped |
| `Breaks.TextsComeThrough` | ns2.34/cweb/cweave.c:3536-3635 | texts, blanks, backups, preprocessor marks, optional breaks and the gaps of inner mode come through in order, without exactly those that stand in a run behind a break or a cancel, which a scan from the left finds |
| `Breaks.StartLosesIndentation` | ns2.34/cweb/cweave.c:3597-3599 | a run that loses its indentation |
| `Breaks.Maker.SkipCancelled` | ns2.34/cweb/cweave.c:3536-3555 | the loop behind a cancel |
| `Breaks.Maker.CollapseRun` | ns2.34/cweb/cweave.c:3577-3625 | the loop behind a break |
| `Breaks.Maker.MakeOutput` | ns2.34/cweb/cweave.c:3363-3632 | make_output is the function of the tokens that the theorems above are about |
| `LineBreaker.OutputReadsBack` | ns2.34/cweb/cweave.c:1701-1775 | reading the lines and the buffer back gives the text, up to the length of runs of blanks, if and only if no line with a comment is broken; then no line exceeds 80 characters |
| `LineBreaker.PlainTextReadsBack` | ns2.34/cweb/cweave.c:1701-1775 | it does so for every text without `%` |
| `LineBreaker.BufferFitsExactly` | ns2.34/cweb/cweave.c:183 | the buffer stays within 80 characters if and only if no break is right behind a `%` at its start |
| `LineBreaker.BreakFrees` | ns2.34/cweb/cweave.c:1712-1718 | a break frees at least one position if and only if it is not such a break |
| `LineBreaker.StuckLine` | ns2.34/cweb/cweave.c:1749-1775 | a line of 80 characters with such a break |
| `LineBreaker.BreakKeepsText` | ns2.34/cweb/cweave.c:1749-1775 | one break keeps what is read back |
| `LineBreaker.LineWriter.FindBreak` | ns2.34/cweb/cweave.c:1752-1774 | the place of the break: behind the last blank or in front of the last control sequence |
| `LineBreaker.LineWriter.BreakOut` | ns2.34/cweb/cweave.c:1749-1775 | break_out writes that line, carries a comment over, and frees at least one position if and only if it is not stuck |
| `LineBreaker.LineWriter.FlushBuffer` | ns2.34/cweb/cweave.c:1701-1719 | writes the front of the buffer, keeps a `%` if what was written has a comment, and moves the rest down |
| `LineBreaker.LineWriter.CarryOver` | ns2.34/cweb/cweave.c:1712-1716 | a `%` takes the last place of the written line if and only if that line has a `%` that is not behind a backslash |
| `LineBreaker.LineWriter.OutStr` | ns2.34/cweb/cweave.c:1739-1744 | out_str is `out` for each character |
| `Comments.CommentBalanced` | ns2.34/cweb/cweave.c:3263-3281 | the braces of a comment's tokens never go negative, and they balance if and only if every embedded piece that is reached is closed |
| `Comments.CopyBalanced` | ns2.34/cweb/cweave.c:1858-1931 | copy_comment knows how many braces are open and closes them all when the comment ends, however it ends |
| `Comments.TextKept` | ns2.34/cweb/cweave.c:1858-1931 | without complaints the tokens, written out again, are exactly the characters of the comment up to its delimiter, over all its lines |
| `Comments.Commenter.CopyComment` | ns2.34/cweb/cweave.c:1858-1931 | copy_comment as a function of the input, its complaints included |
| `Comments.Commenter.ParseComment` | ns2.34/cweb/cweave.c:3263-3281 | outer_parse for one comment |

## Left out

- Files, command line, messages, statistics and progress reports. Input is sequences of lines, output
  is sequences of characters or tokens. Error texts are reduced to which complaint is raised.
- `@i` includes, and the section-changed flags that `get_line` and `check_change` maintain.
- The scanners (`get_next`, `skip_ahead`, `skip_comment`) of both tools and `id_lookup`: their tokens
  and names are inputs here, apart from what `ReadBack` needs of CTANGLE's `get_next`. So are the scraps that `C_parse` makes and what `C_translate` makes of
  embedded text.
- Grammar.TableOK: does not cover the cross references that productions make through
  `make_underlined`, which change no scrap and no text; `underline_xref` itself is modelled.
- Parser.Weaver.Translate: does not model tracing. Each raw `app` is checked for room, where the
  source relies on the 20 tokens and 10 texts that it has checked for before the production.
- Sentences.SentenceParsed: does not cover declarations, function definitions, preprocessor scraps,
  casts and C++; what the parser does with those is covered by the theorems about all scraps only.
- Strategy.RunLeftToRight: says nothing about what a run does after a case that goes wrong.
- Balance.RunBalanced: is about runs without end_arg; with it `Balance.StepBalanced` is exact.
- Parser.Weaver.MakeReserved: does not model that the category of the identifier itself changes in
  `name_dir`, which matters to later sections only.
- TextMemory.Texts.App: does not model the packing of tokens and of the two math modes into 16-bit
  and 8-bit words. The flag that tells a token sent through `big_app` is an annotation of the model.
- NameOrder.WebStrcmp: does not model that plain `char` may be signed; characters are ordered by code.
- SectionLookup.NameDir.SectionLookup: does not model the storing of the prefix length in two bytes,
  nor identifiers between the sections, which share `name_dir` and `byte_mem`.
- Expander.Tangler.PhaseTwo: does not model the text of macro definitions that `output_defs` writes,
  only the place inside a text where it is called, nor the call ahead of everything; output files are
  given in the order of processing.
- TokenCodec.TokMem.AppQuoted: does not model the turning of `@@` into `@` before.
- OutChar.Writer.WriteTokens: does not model counting lines.
- OutChar.Writer.PutCode: does not model how the comment of a section number is formatted; it is a
  ready-made text.
- ReadBack.ReadsBack: its tokens do not include strings, verbatim texts, joins, comments of section
  numbers, constants other than decimal integers and identifiers with eight-bit characters; the
  scanner has no control codes and no preprocessor lines.
- Tangling.TangleFile: reads a text before it expands it, where the source does both a token at a time;
  how names, section marks, line directives and macro definitions are written is given.
- IndexSort.IndexSorter.SortIndex: does not cover names with the characters NUL and DEL; a DEL has no
  place in the collating table.
- Xrefs.XrefMemory.NoteSection: does not say that the right group is chosen, because an early return
  leaves the switch set.
- Breaks.Maker.MakeOutput: does not model how the other tokens are written in TeX, nor the nesting of texts that
  `get_output` unfolds; each token comes with the mode that is in force.
- LineBreaker.LineWriter.OutStr: asks that no break on the way is stuck behind a `%`, where the source
  goes past the end of `out_buf`. `finish_line` is not modelled.
- Comments.Commenter.CopyComment: does not model the capacity of `tok_mem`, nor phase one.
- ChangeFile.InputLn: does not model the limit on the length of a line, nor a last line without an
  end.
- The Tcl/Tk and regex headers and the nam files.
