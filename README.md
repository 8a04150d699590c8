# SLR(1) parser generator: a Dafny model

This project models the core of a small SLR(1) parser generator written in C++.
It has two programs:

- `SLRParser.cpp` builds the tables and then parses a string.
- `lrzerocannonical.cpp` builds the same states and tables but only prints the tables.

Grammar symbols are single characters:

- an upper-case letter is a non-terminal for FIRST and FOLLOW, which test `isupper`; the closure instead tests membership in the `nonTerminals` list, and the table builder treats every symbol not in the `terminals` list as a non-terminal;
- `'~'` marks the empty string;
- `'$'` is the end of input;
- `'D'` is the augmented start symbol;
- `'.'` is the dot inside an LR(0) item.

The model covers these parts of the programs:

- **LR(0) items** and their `std::set` order. Where the order of a `std::set` iteration matters (the symbols that number new states, the items whose table writes can overwrite each other), it is modelled as repeatedly taking the least remaining element. The other set loops (advancing the kernel, collecting the symbols, writing one Reduce action under every FOLLOW symbol) pick any remaining element, since they only insert into a set or write distinct cells.
- **Item closure.** A worklist that pushes an item only when it is new. It is proved equal to the least closed set holding the seed.
- **Goto.** The kernel of items advanced past a symbol, plus the closure of the least kernel item only.
- **FIRST and FOLLOW.** The recursive computations, memoised in `map<char, set<char>>` tables that are passed in and handed back. Each is proved equal to a cache-free ghost definition, and that definition is characterised in both directions.
- **The canonical collection.** The growing sequence of states is both the result and the work queue. `Collection.Expansion` and `Collection.CanonicalStates` state, without the loops, which state gets which number.
- **The action and goto tables.** Each item of each state is visited in ascending order, and a later write replaces an earlier one.
- **`parseString`.** The shift/reduce loop over a state stack and a symbol stack.

Table and parser properties are stated against specification predicates, and these are proved:

- `TablesOf`: every action cell holds what the greatest item writing it wrote.
- `Run`: the parser's outcome after a number of turns.

Further lemmas connect the generated tables to the collection:

- Shift and goto cells name the goto state.
- Reduce cells lie under FOLLOW of a completed item's left-hand side and name an existing production.
- Accept lies only under `'$'`.
- Over generated tables, the parser only ever stacks states of the collection.
- An accepting run has read the whole input that `main` passes it.

The termination of FIRST and FOLLOW is not guaranteed by the code, since it has no in-progress guard. The FIRST operations (`FirstSets.ComputeFirstSet`, `FirstSets.AddFirstOfString`, `Generator.FirstOfEveryRule`) therefore take a ghost rank function `rank` and require that each recursive FIRST call goes to a lower rank. The FOLLOW operations and the two drivers take `rank` and a second ghost rank function `frank`, and require the same of each recursive FOLLOW call. `Textbook.TextbookWellDefined` shows that the grammar `main` builds has such ranks.

Where the code departs from the textbook SLR(1) algorithm, the model follows the code:

- **Conflicts.** A textbook SLR(1) generator reports shift/reduce and reduce/reduce conflicts. This code silently overwrites the cell, so the greatest writing item wins (`Tables.LastWriterWins`). `Tables.AgreeingWriters` states the conflict-free case: where every writer agrees, the cell holds their common action.
- **FIRST and FOLLOW.** They are computed by single-pass memoised recursion rather than a fixpoint iteration, and that is what is modelled. The FOLLOW loop that repeats the same right-hand-side scan once per character is kept as written.
- **A terminal after a vanishing run adds nothing.** When the scan in FIRST or FOLLOW moves past a symbol whose FIRST set holds '~', it next asks for FIRST of whatever character comes next. For a terminal that set is empty, so the terminal is not added (SLRParser.cpp:113-125 and 171-190). With `A -> Bc` and `B -> ~`, the textbook FIRST(A) is {c}; here it is empty (`Departures.TerminalAfterNullableRunIgnored`).
- **'~' enters FIRST only from a leading '~'.** The '~' of every set the scan continues past is dropped. A right-hand side whose symbols all vanish therefore does not put '~' into FIRST of its left-hand side (`FirstSets.Vanishes`, `Departures.EpsilonOnlyFromLeadingTilde`).
- **Goto closes only the least kernel item.** The textbook goto closes every item of the kernel. This code closes only the kernel's `*begin()` and adds the other kernel items unclosed (SLRParser.cpp:85-88, `ClosureGoto.Goto`).

Two encoding helpers carry no row of their own. `Grammar.CharAt` is `std::string::operator[]`, which yields `'\0'` at index `size()`. `Grammar.LhsSymbols` is the set of the productions' left-hand sides, the vocabulary in which the FIRST and FOLLOW loops are stated.

Modules, one per file: `Grammar`, `Items`, `ClosureGoto`, `Universe`, `Collection`, `FirstSets`, `FollowSets`, `Tables`, `Generator`, `Provenance`, `Parser`, `Textbook`, `Departures`.

## Model

| member | source | states |
|---|---|---|
| Grammar.IndexOf | SLRParser.cpp:285-286 | `std::find` over a vector: the first index holding the value, and the size exactly when the value is absent |
| Items.FindDot | SLRParser.cpp:43 | `find('.')`: the first dot, or -1 (npos) exactly when there is no dot |
| Items.Advance | SLRParser.cpp:78-80 | swapping the dot with the next symbol keeps lhs and length, puts the symbol before the dot and moves the dot one place right |
| Items.ItemLessIsStrictTotalOrder | SLRParser.cpp:22-27 | `operator<` (lhs, then rhs lexicographically) is irreflexive, transitive and total, as `std::set` needs |
| Items.FindLeast | SLRParser.cpp:86 | `*begin()` of a non-empty item set: the item below every other item |
| Items.LeastSymbol | SLRParser.cpp:279 | the first symbol of a non-empty `std::set<char>` is in it and below every other |
| Items.FindLeastSymbol | SLRParser.cpp:279 | the linear scan finds that smallest symbol, `LeastSymbol` |
| ClosureGoto.PushPredictions | SLRParser.cpp:50-60 | adds B -> .γ for every production of B; it pushes exactly the items that were new |
| ClosureGoto.ExpandItem | SLRParser.cpp:43-61 | a popped item whose next symbol is a listed non-terminal adds that symbol's predictions and pushes only new items |
| ClosureGoto.WorklistStep | SLRParser.cpp:39-63 | one turn of the worklist loop keeps the worklist invariant, and the remaining work or the stack shrinks |
| ClosureGoto.ComputeClosure | SLRParser.cpp:31-66 | the result holds the seed, is closed, adds only B -> .γ items of listed non-terminals, and equals `Closure` |
| ClosureGoto.ClosureProperties | SLRParser.cpp:31-66 | `Closure` holds its seed, is closed, and lies within the seed plus the predictions |
| ClosureGoto.ClosureIsLeast | SLRParser.cpp:31-66 | `Closure` is contained in every closed set holding the seed |
| ClosureGoto.ClosureOfMember | SLRParser.cpp:50-58 | re-closing a member of a closure adds nothing new |
| ClosureGoto.KernelNonEmpty | SLRParser.cpp:86 | when some item has the dot before the symbol, the kernel whose `begin()` is dereferenced is not empty |
| ClosureGoto.KernelShape | SLRParser.cpp:74-83 | each kernel item is a source item with the dot moved past the symbol, with lhs and rhs length unchanged |
| ClosureGoto.GotoBounds | SLRParser.cpp:85-88 | goto holds the kernel, and beyond it only the closure of the least kernel item |
| ClosureGoto.AdvanceAll | SLRParser.cpp:72-83 | the first loop of computeGoto computes exactly the kernel |
| ClosureGoto.ComputeGoto | SLRParser.cpp:69-91 | the result contains the kernel and equals `Goto` (kernel plus closure of the least kernel item) |
| Universe.DistinctStatesBounded | SLRParser.cpp:265-291 | pairwise different states built from the grammar's characters are bounded in number, so the state loop ends |
| Collection.CollectSymbols | SLRParser.cpp:269-276 | the first loop of a state's expansion collects exactly the symbols after a dot |
| Collection.ExpansionKeeps | SLRParser.cpp:279-290 | an expansion keeps the states it starts from in place, keeps them distinct and in the space, and appends only goto sets of the expanded items on its symbols |
| Collection.ExpansionContains | SLRParser.cpp:279-290 | after an expansion every earlier state and goto on every one of its symbols is a state |
| Collection.ExpansionReached | SLRParser.cpp:279-290 | expanding state i keeps every later state the goto of an earlier one |
| Collection.ExpandState | SLRParser.cpp:266-290 | the result is `Expansion` (goto on each symbol in ascending order, appended when new); earlier states stay in place, distinct and reached; goto of state i on each of its symbols is a state, and every appended state is goto of state i on one of them |
| Collection.ExtendGotoClosed | SLRParser.cpp:265-291 | once state i is expanded, the states up to i are closed under goto |
| Collection.BuildCollection | SLRParser.cpp:257-291 | the result is `CanonicalStates`, numbered by expanding states in order; state 0 is the closure of nonTerminals[0] -> ."productions[0]"; states are pairwise different, closed under goto, and each later state is goto of an earlier one |
| FirstSets.First | SLRParser.cpp:94-145 | FIRST(nt) holds '~' exactly when some production of nt starts with '~' |
| FirstSets.FirstChain | SLRParser.cpp:116-128 | the scan over leading symbols never adds '~' |
| FirstSets.ComputeFirstSet | SLRParser.cpp:94-145 | returns FIRST(nt); a cached key returns the cached set and leaves the map unchanged; otherwise the result is stored under nt; no key is lost and every entry stays a true FIRST set |
| FirstSets.AddFirstOfString | SLRParser.cpp:109-137 | scanning one string of a rule adds exactly that string's FIRST contribution |
| FirstSets.FirstChainCharacterised | SLRParser.cpp:116-128 | the scan from position k adds c exactly when c is not '~' and lies in FIRST of a position the scan reaches at or after k |
| FirstSets.FirstOfRuleCharacterised | SLRParser.cpp:104-139 | what one rule contributes, both directions: a non-upper-case lead, or non-'~' FIRST of a reached position |
| FirstSets.FirstCharacterised | SLRParser.cpp:94-145 | c is in FIRST(nt) exactly when some production of nt yields c |
| FirstSets.FirstTerminalLead | SLRParser.cpp:132-136 | a right-hand side starting with a non-upper-case character puts that character into FIRST of its lhs |
| FirstSets.FirstSelfLeading | SLRParser.cpp:113-114 | a rule whose right-hand side starts with its own lhs contributes nothing |
| FirstSets.FirstNullableLead | SLRParser.cpp:116-128 | FIRST of every position the scan reaches, minus '~', lies in FIRST of the lhs |
| FirstSets.FirstWithoutProductions | SLRParser.cpp:104-105 | a symbol with no production has an empty FIRST set |
| FollowSets.ComputeFollowSet | SLRParser.cpp:148-208 | returns FOLLOW(nt); a cached key returns the cached set and leaves both maps unchanged; otherwise the result is stored; every entry stays a true FIRST/FOLLOW set; the only new FOLLOW keys are nt and rule left-hand sides |
| FollowSets.ScanRule | SLRParser.cpp:166-202 | the loop repeated once per right-hand-side character adds exactly the occurrences' contribution; new FOLLOW keys are rule left-hand sides |
| FollowSets.ScanRhs | SLRParser.cpp:169-201 | one scan of a right-hand side adds what every occurrence of nt yields; new FOLLOW keys are rule left-hand sides |
| FollowSets.AddFollowAt | SLRParser.cpp:170-199 | one occurrence adds its contribution (next terminal, FIRST sets of a vanishing run, or FOLLOW of the lhs at '\0'); the only FOLLOW key it can add is a rule's lhs |
| FollowSets.FollowTailCharacterised | SLRParser.cpp:172-192 | the while(flag) scan adds c exactly when c is non-'~' FIRST of a reached position or in FOLLOW(lhs) at a reached '\0' |
| FollowSets.FollowAtCharacterised | SLRParser.cpp:170-199 | an occurrence's contribution, both directions |
| FollowSets.FollowCharacterised | SLRParser.cpp:148-208 | c is in FOLLOW(nt) exactly when nt is 'D' and c is '$', or some occurrence of nt yields c |
| FollowSets.FollowOfStart | SLRParser.cpp:160-162 | FOLLOW('D') holds '$' |
| FollowSets.FollowTerminalAfter | SLRParser.cpp:197-199 | an occurrence followed by a non-upper-case, non-'\0' character puts it into FOLLOW |
| FollowSets.FollowFirstOfTail | SLRParser.cpp:174-191 | FIRST minus '~' of each position the scan after an occurrence reaches lies in FOLLOW |
| FollowSets.FollowHandOver | SLRParser.cpp:182-196 | an occurrence that reaches '\0' gets all of FOLLOW of the rule's lhs |
| FollowSets.FollowAtEnd | SLRParser.cpp:193-196 | the last symbol of a right-hand side gets FOLLOW of the lhs |
| Tables.DropLast | SLRParser.cpp:321 | `substr(0, length() - 1)`: the string without its last character |
| Tables.WriteAll | SLRParser.cpp:327-332 | the same Reduce action is written under every symbol of a FOLLOW set, and nothing else changes |
| Tables.WriteItem | SLRParser.cpp:297-338 | one item writes exactly its Shift, goto, Reduce or Accept cells into row i |
| Tables.ActionRowStep | SLRParser.cpp:296-339 | writing the next greater item keeps "a cell is present iff some item writes it, and holds its last writer's action" |
| Tables.GotoRowStep | SLRParser.cpp:296-339 | writing the next item keeps "a goto cell is present iff some item writes it, and names goto of the state" |
| Tables.FillingStep | SLRParser.cpp:296-339 | writing the least remaining item moves it to the written items and leaves other rows alone |
| Tables.FillRow | SLRParser.cpp:294-339 | the item loop of state i leaves row i described by `ActionRow`/`GotoRow` and every other row unchanged |
| Tables.RowsKept | SLRParser.cpp:293-340 | filling row i keeps every other row's description |
| Tables.BuildTables | SLRParser.cpp:293-340 | from empty tables, the result is `TablesOf` the collection, grammar and FOLLOW table |
| Tables.GotoEntries | SLRParser.cpp:308-315 | goto cells exist exactly for non-terminal symbols after a dot, and name the state equal to goto |
| Tables.CellWriter | SLRParser.cpp:296-339 | every action cell holds what some item of its state wrote there |
| Tables.ItemActionCases | SLRParser.cpp:297-338 | an item writes Shift only on a terminal after its dot, Reduce only as a completed non-'D' item under its FOLLOW, Accept only as the completed augmented item under '$' |
| Tables.ShiftEntries | SLRParser.cpp:300-307 | a Shift cell is on a terminal after a dot and names the state equal to goto on it, below the collection size |
| Tables.ReduceEntries | SLRParser.cpp:316-332 | a Reduce cell lies under FOLLOW of a completed item's lhs and names the index of (lhs, rhs without '.') |
| Tables.AcceptEntries | SLRParser.cpp:335-338 | Accept is only under '$', in a state holding D -> productions[0]. |
| Tables.ActionCells | SLRParser.cpp:296-338 | the action cells of a row are exactly terminals after a dot, FOLLOW symbols of completed items, and '$' beside the completed augmented item |
| Tables.LastWriterWins | SLRParser.cpp:296-339 | a cell holds what the greatest item writing it wrote: writes overwrite without conflict checks |
| Tables.AgreeingWriters | SLRParser.cpp:296-339 | where all writers of a cell agree (no conflict), the cell holds that action whatever the order |
| Tables.EntriesNameStates | SLRParser.cpp:303-314 | over a goto-closed collection, every Shift and goto cell names a state of the collection |
| Generator.FirstOfEveryRule | SLRParser.cpp:222-226 | the FIRST loop leaves a memo table of true FIRST sets holding every lhs |
| Generator.FollowOfEveryRule | SLRParser.cpp:239-244 | the FOLLOW loop leaves a memo table of true FOLLOW sets whose keys are exactly the rules' left-hand sides |
| Generator.ComputeCanonicalCollection | SLRParser.cpp:211-342 | the collection is `CanonicalStates` with the `BuildCollection` properties; the FOLLOW table's keys are exactly the rules' left-hand sides; the tables are `TablesOf` the collection and that FOLLOW table |
| Generator.CanonicalCollectionOnly | lrzerocannonical.cpp:195-332 | the LR(0) program's driver returns the same `CanonicalStates`, with the same properties |
| Generator.ReduceUnderFollow | SLRParser.cpp:316-332 | a Reduce cell lies under FOLLOW of a completed item's lhs, and each such FOLLOW symbol gets a cell |
| Generator.GeneratedReduceCells | SLRParser.cpp:316-332 | over generated tables, a Reduce cell names an existing production whose completed item is in the state, under FOLLOW of its lhs |
| Provenance.DotOfItem | SLRParser.cpp:43 | in a dot-free grammar the dot found is the one inserted |
| Provenance.CompletedItem | SLRParser.cpp:320-321 | a completed grammar item minus its final '.' is its production |
| Provenance.AdvancedItem | SLRParser.cpp:78-80 | advancing a grammar item gives the same production with the dot one further |
| Provenance.ClosureOfGrammarItem | SLRParser.cpp:50-58 | closing a grammar item adds only grammar items |
| Provenance.GotoOfGrammarItems | SLRParser.cpp:69-91 | goto of grammar items holds only grammar items |
| Provenance.StateOfGrammarItems | SLRParser.cpp:257-291 | every state built from production 0 holds only productions with a dot inserted |
| Provenance.ReduceNamesProduction | SLRParser.cpp:318-330 | over such states, the production `std::find` looks up for a Reduce cell exists |
| Parser.Step | SLRParser.cpp:445-501 | a turn that continues keeps the input position within the string and its '\0' |
| Parser.Run | SLRParser.cpp:445-501 | a run still going after its turns is at a position within the string and its '\0' |
| Parser.PopBoth | SLRParser.cpp:469-472 | the pop loop drops the top n entries of both stacks |
| Parser.ParseString | SLRParser.cpp:433-502 | returns true exactly when the run from [0], ['$'] reaches Accept |
| Parser.StepMoves | SLRParser.cpp:453-489 | a continuing turn shifts (pushes the Shift state and the input character, position + 1) or reduces (position unchanged; pops one entry per rhs character off both stacks, then pushes goto of the uncovered top state on the lhs, and the lhs) |
| Parser.StepAnswers | SLRParser.cpp:449-500 | a turn answers true exactly on Accept, and false exactly on a missing action cell or a missing goto after a reduce |
| Parser.StepKeepsStacksInStep | SLRParser.cpp:436-489 | a turn keeps the two stacks of equal height with 0 and '$' at the bottom |
| Parser.RunKeepsStacksInStep | SLRParser.cpp:436-501 | every configuration of a run keeps the stacks in step, and the position never moves back |
| Parser.StepStaysInCollection | SLRParser.cpp:455-485 | over tables naming states below n, a turn only pushes states below n |
| Parser.RunInCollection | SLRParser.cpp:445-501 | over such tables, a whole run only stacks states below n |
| Parser.RunStaysInCollection | SLRParser.cpp:445-501 | over generated tables, a run only stacks states of the collection |
| Parser.AcceptedAtEndMarker | SLRParser.cpp:490-492 | over generated tables, an accepting run accepts while reading '$' |
| Parser.AcceptedInputConsumed | SLRParser.cpp:588-589 | for the user's string with "$" appended and no other '$', acceptance happens after reading the whole string |
| Textbook.NothingVanishes | SLRParser.cpp:542-569 | no symbol of the textbook grammar has '~' in FIRST |
| Textbook.TextbookWellDefined | SLRParser.cpp:542-569 | the textbook grammar has ranks under which FIRST and FOLLOW end, so the generator's preconditions hold for it |
| Departures.SmallGrammarsWellDefined | SLRParser.cpp:113-128 | the two small grammars have ranks under which FIRST ends |
| Departures.TerminalAfterNullableRunIgnored | SLRParser.cpp:113-128 | with A -> Bc and B -> ~, FIRST(B) is {~} but 'c' is not in FIRST(A) |
| Departures.EpsilonOnlyFromLeadingTilde | SLRParser.cpp:113-128 | with A -> B and B -> ~, '~' is in FIRST(B) but not in FIRST(A) |

## Left out

- Console output is not modelled:
  - printing the FIRST and FOLLOW sets, the collection and the tables (`printParsingTable`, `displayCanonicalCollection`);
  - the table dumps of the LR(0) program;
  - `cin`/`cout` in `main`.
  The string main reads is a parameter of `Parser.AcceptedInputConsumed`.
- The action strings `"Shift n"`, `"Reduce k"` and `"Accept"` and their `to_string`/`substr`/`stoi` decoding are replaced by the `Action` datatype. The "invalid action" branch of `parseString` therefore cannot arise and is not modelled.
- The tables are returned rather than written through reference parameters. Both call sites start from empty maps.
- The productions are pairs of a character and a string. The source's left-hand side is a one-character string read as `rule[0][0]`.
- Termination of FIRST and FOLLOW is not guaranteed by the code: `A -> xA` makes computeFollowSet call itself forever, and indirect left recursion loops in computeFirstSet. The model requires ghost rank functions under which every recursive call descends (`FirstWellDefined`, `FollowWellDefined`). Grammars without such ranks are outside the model.
- FirstSets.ComputeFirstSet: requires that no production has '\0' as its left-hand side (`NulSafe`). The scans read the terminating '\0', and FIRST('\0') must be empty for them to stop there.
- Parser.ParseString: takes a ghost fuel bound and requires that the run answers within it without undefined behaviour (`Answers`). Inputs on which the source's loop would not end, or would pop an empty stack, read past the input or index past the productions, are outside its contract. That they cannot happen over generated tables is proved only in part:
  - states stay in the collection (`Parser.RunStaysInCollection`);
  - Reduce indexes exist (`Generator.GeneratedReduceCells`), provided no right-hand side contains '.' (`DotFree(productions)`) and `nonTerminals[0] == productions[0].0`;
  - stack underflow is not ruled out.
- Characters are compared by code point. A platform where `char` is signed orders characters above 127 differently, and `isupper` is taken in the C locale (ASCII 'A' to 'Z').
