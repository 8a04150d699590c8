/**
 * computeCanonicalCollection, the driver of the generator: FIRST of every
 * rule's left-hand side, FOLLOW of every rule's left-hand side, the
 * canonical collection, and the tables built from it.
 */
module Generator {
  import opened Grammar
  import opened Items
  import opened ClosureGoto
  import opened Universe
  import opened Collection
  import opened FirstSets
  import opened FollowSets
  import opened Tables
  import opened Provenance

  /** The memo table of the FIRST loop: FIRST of every rule's left-hand side. */
  method FirstOfEveryRule(productions: seq<Production>, ghost rank: char -> nat)
    returns (firstSets: map<char, set<char>>)
    requires FirstWellDefined(productions, rank)
    ensures FirstMemo(firstSets, productions, rank)
    ensures LhsSymbols(productions) <= firstSets.Keys
  {
    firstSets := map[];
    for r := 0 to |productions|
      invariant FirstMemo(firstSets, productions, rank)
      invariant forall q :: 0 <= q < r ==> productions[q].0 in firstSets
    {
      var nonTerminal := productions[r].0;
      var first, firstSets' := ComputeFirstSet(nonTerminal, productions, firstSets, rank);
      firstSets := firstSets';
    }
  }

  /** The memo table of the FOLLOW loop: FOLLOW of every rule's left-hand side. */
  method FollowOfEveryRule(productions: seq<Production>, firstSets: map<char, set<char>>,
                           ghost rank: char -> nat, ghost frank: char -> nat)
    returns (followSets: map<char, set<char>>)
    requires FollowWellDefined(productions, rank, frank) && FirstMemo(firstSets, productions, rank)
    ensures FollowMemo(followSets, productions, rank, frank)
    ensures followSets.Keys == LhsSymbols(productions)
  {
    var firstTable := firstSets;
    followSets := map[];
    for r := 0 to |productions|
      invariant FirstMemo(firstTable, productions, rank) && FollowMemo(followSets, productions, rank, frank)
      invariant forall q :: 0 <= q < r ==> productions[q].0 in followSets
      invariant followSets.Keys <= LhsSymbols(productions)
    {
      var nonTerminal := productions[r].0;
      var follow, firstTable', followSets' := ComputeFollowSet(nonTerminal, productions, firstTable, followSets, rank, frank);
      firstTable, followSets := firstTable', followSets';
    }
  }

  /**
   * computeCanonicalCollection of the SLR(1) generator. The tables are
   * built over the FOLLOW memo table, whose every entry is the FOLLOW set
   * of its key and whose keys are exactly the rules' left-hand sides.
   */
  method ComputeCanonicalCollection(nonTerminals: seq<char>, terminals: seq<char>, productions: seq<Production>,
                                    ghost rank: char -> nat, ghost frank: char -> nat)
    returns (canonicalCollection: seq<set<Item>>, parsingTable: ActionTable, gotoTable: GotoTable,
             ghost followSets: map<char, set<char>>)
    requires |nonTerminals| > 0 && |productions| > 0
    requires FollowWellDefined(productions, rank, frank)
    ensures |canonicalCollection| >= 1
    ensures canonicalCollection[0] == Closure(StartItem(nonTerminals, productions), nonTerminals, productions)
    ensures Distinct(canonicalCollection) && Reached(canonicalCollection, nonTerminals, productions)
    ensures GotoClosed(canonicalCollection, |canonicalCollection|, nonTerminals, productions)
    ensures canonicalCollection == CanonicalStates(nonTerminals, productions)
    ensures FollowMemo(followSets, productions, rank, frank) && followSets.Keys == LhsSymbols(productions)
    ensures TablesOf(Inputs(canonicalCollection, terminals, nonTerminals, productions, followSets), parsingTable, gotoTable)
  {
    var firstSets := FirstOfEveryRule(productions, rank);
    var follows := FollowOfEveryRule(productions, firstSets, rank, frank);
    canonicalCollection := BuildCollection(nonTerminals, productions);
    parsingTable, gotoTable := BuildTables(canonicalCollection, terminals, nonTerminals, productions, follows);
    followSets := follows;
  }

  /**
   * computeCanonicalCollection of the LR(0) program: the same FIRST and
   * FOLLOW loops and the same states; its tables are only displayed, so
   * only the collection is returned.
   */
  method CanonicalCollectionOnly(nonTerminals: seq<char>, terminals: seq<char>, productions: seq<Production>,
                                 ghost rank: char -> nat, ghost frank: char -> nat)
    returns (canonicalCollection: seq<set<Item>>)
    requires |nonTerminals| > 0 && |productions| > 0
    requires FollowWellDefined(productions, rank, frank)
    ensures |canonicalCollection| >= 1
    ensures canonicalCollection[0] == Closure(StartItem(nonTerminals, productions), nonTerminals, productions)
    ensures Distinct(canonicalCollection) && Reached(canonicalCollection, nonTerminals, productions)
    ensures GotoClosed(canonicalCollection, |canonicalCollection|, nonTerminals, productions)
    ensures canonicalCollection == CanonicalStates(nonTerminals, productions)
  {
    var parsingTable, gotoTable;
    ghost var followSets;
    canonicalCollection, parsingTable, gotoTable, followSets :=
      ComputeCanonicalCollection(nonTerminals, terminals, productions, rank, frank);
  }

  /**
   * With the FOLLOW memo table the driver builds, a Reduce cell lies under a
   * FOLLOW symbol of a completed item's left-hand side, and every FOLLOW
   * symbol of a completed rule item gets a cell.
   */
  lemma ReduceUnderFollow(states: seq<set<Item>>, terminals: seq<char>, nonTerminals: seq<char>,
                          productions: seq<Production>, followSets: map<char, set<char>>,
                          rank: char -> nat, frank: char -> nat,
                          parsingTable: ActionTable, gotoTable: GotoTable, i: int, symbol: char)
    requires |productions| > 0 && FollowWellDefined(productions, rank, frank)
    requires FollowMemo(followSets, productions, rank, frank) && LhsSymbols(productions) <= followSets.Keys
    requires TablesOf(Inputs(states, terminals, nonTerminals, productions, followSets), parsingTable, gotoTable)
    ensures (i, symbol) in parsingTable && parsingTable[(i, symbol)].Reduce? ==>
              exists x :: x in states[i] && NextSymbol(x).None? && x.lhs != AugmentedStart &&
                symbol in Follow(x.lhs, productions, rank, frank)
    ensures (0 <= i < |states| &&
             exists x :: x in states[i] && NextSymbol(x).None? && x.lhs != AugmentedStart &&
               x.lhs in LhsSymbols(productions) && symbol in Follow(x.lhs, productions, rank, frank)) ==>
              (i, symbol) in parsingTable
  {
    var g := Inputs(states, terminals, nonTerminals, productions, followSets);
    if (i, symbol) in parsingTable && parsingTable[(i, symbol)].Reduce? {
      ReduceEntries(g, parsingTable, gotoTable, i, symbol);
    }
    ActionCells(g, parsingTable, gotoTable, i, symbol);
  }

  /**
   * Over the collection and tables the driver builds for a grammar without
   * '.' in its right-hand sides, whose augmented item comes from production
   * 0, every Reduce cell names an existing production whose completed item
   * is in the state, and lies under a FOLLOW symbol of its left-hand side.
   */
  lemma GeneratedReduceCells(states: seq<set<Item>>, terminals: seq<char>, nonTerminals: seq<char>,
                             productions: seq<Production>, followSets: map<char, set<char>>,
                             rank: char -> nat, frank: char -> nat,
                             parsingTable: ActionTable, gotoTable: GotoTable, i: int, symbol: char)
    requires |nonTerminals| > 0 && |productions| > 0 && nonTerminals[0] == productions[0].0
    requires DotFree(productions) && FollowWellDefined(productions, rank, frank)
    requires |states| >= 1 && states[0] == Closure(StartItem(nonTerminals, productions), nonTerminals, productions)
    requires Reached(states, nonTerminals, productions)
    requires FollowMemo(followSets, productions, rank, frank)
    requires TablesOf(Inputs(states, terminals, nonTerminals, productions, followSets), parsingTable, gotoTable)
    requires (i, symbol) in parsingTable && parsingTable[(i, symbol)].Reduce?
    ensures 0 <= i < |states|
    ensures var k := parsingTable[(i, symbol)].production;
            0 <= k < |productions| && Item(productions[k].0, productions[k].1 + [Dot]) in states[i] &&
            symbol in Follow(productions[k].0, productions, rank, frank)
  {
    forall b | 0 <= b < |states|
      ensures GrammarItems(states[b], productions)
    {
      StateOfGrammarItems(states, nonTerminals, productions, b);
    }
    ReduceNamesProduction(Inputs(states, terminals, nonTerminals, productions, followSets),
                          parsingTable, gotoTable, i, symbol);
  }
}
