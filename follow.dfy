/**
 * FOLLOW sets as computeFollowSet computes them.
 *
 * FOLLOW('D') holds '$'. Every occurrence of the symbol in a right-hand side
 * is inspected by the character after it: a character that is neither
 * upper-case nor '\0' is added; a '\0' (the end of the string) hands over
 * FOLLOW of the rule's left-hand side; an upper-case symbol starts a scan
 * that adds each visited FIRST set without '~', moves on while the set held
 * '~', and hands over FOLLOW of the left-hand side when it reaches the '\0'.
 *
 * As for FIRST, there is no in-progress guard: a hand-over must go to a
 * symbol of lower rank (FollowRanked), a ghost parameter that never
 * influences a result.
 */
module FollowSets {
  import opened Grammar
  import opened FirstSets

  /**
   * The scan that starts after occurrence j of rule i visits position
   * j + count: the occurrence is followed by an upper-case symbol and every
   * position between them vanishes.
   */
  ghost predicate TailReaches(productions: seq<Production>, i: nat, j: nat, count: nat)
    requires i < |productions|
  {
    var rhs := productions[i].1;
    1 <= count && j + count <= |rhs| && IsUpper(CharAt(rhs, j + 1)) &&
    forall m :: j < m < j + count ==> Vanishes(rhs[m], productions)
  }

  /**
   * Occurrence j of rule i hands over FOLLOW of the left-hand side at the '\0'
   * in position e: directly after it, or at the end of a vanishing scan.
   */
  ghost predicate ReachesEnd(productions: seq<Production>, i: nat, j: nat, e: nat)
    requires i < |productions|
  {
    var rhs := productions[i].1;
    j < e <= |rhs| && CharAt(rhs, e) == Nul &&
    (e == j + 1 || TailReaches(productions, i, j, e - j))
  }

  /** Every hand-over goes to a left-hand side of strictly lower rank. */
  ghost predicate FollowRanked(productions: seq<Production>, frank: char -> nat) {
    forall i: nat, j: nat, e: nat :: i < |productions| && ReachesEnd(productions, i, j, e) ==>
      frank(productions[i].0) < frank(productions[i].1[j])
  }

  ghost predicate FollowWellDefined(productions: seq<Production>, rank: char -> nat, frank: char -> nat) {
    FirstWellDefined(productions, rank) && FollowRanked(productions, frank)
  }

  /** FOLLOW(nt): '$' for 'D', plus what every occurrence of nt yields. */
  ghost function Follow(nt: char, productions: seq<Production>, rank: char -> nat, frank: char -> nat): set<char>
    requires FollowWellDefined(productions, rank, frank)
    decreases frank(nt), 3, 0
  {
    (if nt == AugmentedStart then {EndMarker} else {}) + FollowOfRules(nt, productions, rank, frank, |productions|)
  }

  /** What the occurrences of nt in the first n right-hand sides yield. */
  ghost function FollowOfRules(nt: char, productions: seq<Production>, rank: char -> nat, frank: char -> nat, n: nat): set<char>
    requires FollowWellDefined(productions, rank, frank) && n <= |productions|
    decreases frank(nt), 2, n
  {
    if n == 0 then {}
    else
      FollowOfRules(nt, productions, rank, frank, n - 1) +
      FollowInRhs(nt, productions, rank, frank, n - 1, |productions[n - 1].1|)
  }

  /** What the occurrences of nt among the first n characters of rule i's right-hand side yield. */
  ghost function FollowInRhs(nt: char, productions: seq<Production>, rank: char -> nat, frank: char -> nat, i: nat, n: nat): set<char>
    requires FollowWellDefined(productions, rank, frank) && i < |productions| && n <= |productions[i].1|
    decreases frank(nt), 1, n
  {
    if n == 0 then {}
    else
      FollowInRhs(nt, productions, rank, frank, i, n - 1) +
      (if productions[i].1[n - 1] == nt then FollowAt(productions, rank, frank, i, n - 1) else {})
  }

  /** What occurrence j of rule i yields, by the character after it. */
  ghost function FollowAt(productions: seq<Production>, rank: char -> nat, frank: char -> nat, i: nat, j: nat): set<char>
    requires FollowWellDefined(productions, rank, frank) && i < |productions| && j < |productions[i].1|
    decreases frank(productions[i].1[j]), 0, |productions[i].1| - j + 1
  {
    var rhs := productions[i].1;
    var next := CharAt(rhs, j + 1);
    if IsUpper(next) then FollowTail(productions, rank, frank, i, j, 1)
    else if next == Nul then
      assert ReachesEnd(productions, i, j, j + 1);
      Follow(productions[i].0, productions, rank, frank)
    else {next}
  }

  /** The scan after occurrence j of rule i, from position j + count on. */
  ghost function FollowTail(productions: seq<Production>, rank: char -> nat, frank: char -> nat, i: nat, j: nat, count: nat): set<char>
    requires FollowWellDefined(productions, rank, frank) && i < |productions| && j < |productions[i].1|
    requires TailReaches(productions, i, j, count)
    decreases frank(productions[i].1[j]), 0, |productions[i].1| - j - count
  {
    var rhs := productions[i].1;
    var c := CharAt(rhs, j + count);
    var f := First(c, productions, rank);
    if Epsilon in f then
      (f - {Epsilon}) + FollowTail(productions, rank, frank, i, j, count + 1)
    else if c == Nul then
      assert ReachesEnd(productions, i, j, j + count);
      Follow(productions[i].0, productions, rank, frank)
    else f
  }

  /** The memo table is consistent: every cached set is the FOLLOW set of its key. */
  ghost predicate FollowMemo(followSets: map<char, set<char>>, productions: seq<Production>,
                             rank: char -> nat, frank: char -> nat)
    requires FollowWellDefined(productions, rank, frank)
  {
    forall c :: c in followSets ==> followSets[c] == Follow(c, productions, rank, frank)
  }

  /**
   * computeFollowSet: answers from the memo table when it can; otherwise
   * inspects every occurrence of nonTerminal and stores the result. The
   * FIRST memo table is threaded through and grows as well.
   */
  method ComputeFollowSet(nonTerminal: char, productions: seq<Production>,
                          firstSets: map<char, set<char>>, followSets: map<char, set<char>>,
                          ghost rank: char -> nat, ghost frank: char -> nat)
    returns (follow: set<char>, firstSets': map<char, set<char>>, followSets': map<char, set<char>>)
    requires FollowWellDefined(productions, rank, frank)
    requires FirstMemo(firstSets, productions, rank) && FollowMemo(followSets, productions, rank, frank)
    ensures follow == Follow(nonTerminal, productions, rank, frank)
    ensures nonTerminal in followSets ==>
              follow == followSets[nonTerminal] && followSets' == followSets && firstSets' == firstSets
    ensures nonTerminal in followSets' && followSets'[nonTerminal] == follow
    ensures Grows(firstSets, firstSets') && FirstMemo(firstSets', productions, rank)
    ensures Grows(followSets, followSets') && FollowMemo(followSets', productions, rank, frank)
    ensures followSets'.Keys <= followSets.Keys + LhsSymbols(productions) + {nonTerminal}
    decreases frank(nonTerminal), 1, 0
  {
    if nonTerminal in followSets {
      return followSets[nonTerminal], firstSets, followSets;
    }
    follow := {};
    firstSets', followSets' := firstSets, followSets;
    if nonTerminal == AugmentedStart {
      follow := follow + {EndMarker};
    }
    ghost var start := follow;
    for r := 0 to |productions|
      invariant follow == start + FollowOfRules(nonTerminal, productions, rank, frank, r)
      invariant Grows(firstSets, firstSets') && FirstMemo(firstSets', productions, rank)
      invariant Grows(followSets, followSets') && FollowMemo(followSets', productions, rank, frank)
      invariant followSets'.Keys <= followSets.Keys + LhsSymbols(productions)
    {
      follow, firstSets', followSets' := ScanRule(nonTerminal, productions, r, follow, firstSets', followSets', rank, frank);
    }
    followSets' := followSets'[nonTerminal := follow];
  }

  /**
   * The middle loop of computeFollowSet for rule r: the scan of the
   * right-hand side, repeated once per character of it.
   */
  method ScanRule(nonTerminal: char, productions: seq<Production>, r: nat, follow: set<char>,
                  firstSets: map<char, set<char>>, followSets: map<char, set<char>>,
                  ghost rank: char -> nat, ghost frank: char -> nat)
    returns (follow': set<char>, firstSets': map<char, set<char>>, followSets': map<char, set<char>>)
    requires FollowWellDefined(productions, rank, frank) && r < |productions|
    requires FirstMemo(firstSets, productions, rank) && FollowMemo(followSets, productions, rank, frank)
    ensures follow' == follow + FollowInRhs(nonTerminal, productions, rank, frank, r, |productions[r].1|)
    ensures Grows(firstSets, firstSets') && FirstMemo(firstSets', productions, rank)
    ensures Grows(followSets, followSets') && FollowMemo(followSets', productions, rank, frank)
    ensures followSets'.Keys <= followSets.Keys + LhsSymbols(productions)
    decreases frank(nonTerminal), 0, 2
  {
    follow', firstSets', followSets' := follow, firstSets, followSets;
    for i := 0 to |productions[r].1|
      invariant follow' == follow + (if i == 0 then {} else FollowInRhs(nonTerminal, productions, rank, frank, r, |productions[r].1|))
      invariant Grows(firstSets, firstSets') && FirstMemo(firstSets', productions, rank)
      invariant Grows(followSets, followSets') && FollowMemo(followSets', productions, rank, frank)
      invariant followSets'.Keys <= followSets.Keys + LhsSymbols(productions)
    {
      follow', firstSets', followSets' := ScanRhs(nonTerminal, productions, r, follow', firstSets', followSets', rank, frank);
    }
  }

  /** The innermost loop of computeFollowSet: every occurrence of nonTerminal in rule r's right-hand side. */
  method ScanRhs(nonTerminal: char, productions: seq<Production>, r: nat, follow: set<char>,
                 firstSets: map<char, set<char>>, followSets: map<char, set<char>>,
                 ghost rank: char -> nat, ghost frank: char -> nat)
    returns (follow': set<char>, firstSets': map<char, set<char>>, followSets': map<char, set<char>>)
    requires FollowWellDefined(productions, rank, frank) && r < |productions|
    requires FirstMemo(firstSets, productions, rank) && FollowMemo(followSets, productions, rank, frank)
    ensures follow' == follow + FollowInRhs(nonTerminal, productions, rank, frank, r, |productions[r].1|)
    ensures Grows(firstSets, firstSets') && FirstMemo(firstSets', productions, rank)
    ensures Grows(followSets, followSets') && FollowMemo(followSets', productions, rank, frank)
    ensures followSets'.Keys <= followSets.Keys + LhsSymbols(productions)
    decreases frank(nonTerminal), 0, 1
  {
    follow', firstSets', followSets' := follow, firstSets, followSets;
    var rhsSymbol := productions[r].1;
    for j := 0 to |rhsSymbol|
      invariant follow' == follow + FollowInRhs(nonTerminal, productions, rank, frank, r, j)
      invariant Grows(firstSets, firstSets') && FirstMemo(firstSets', productions, rank)
      invariant Grows(followSets, followSets') && FollowMemo(followSets', productions, rank, frank)
      invariant followSets'.Keys <= followSets.Keys + LhsSymbols(productions)
    {
      if rhsSymbol[j] == nonTerminal {
        follow', firstSets', followSets' :=
          AddFollowAt(productions, r, j, follow', firstSets', followSets', rank, frank);
      }
    }
  }

  /** The body of computeFollowSet's innermost loop for occurrence j of rule i. */
  method AddFollowAt(productions: seq<Production>, i: nat, j: nat, follow: set<char>,
                     firstSets: map<char, set<char>>, followSets: map<char, set<char>>,
                     ghost rank: char -> nat, ghost frank: char -> nat)
    returns (follow': set<char>, firstSets': map<char, set<char>>, followSets': map<char, set<char>>)
    requires FollowWellDefined(productions, rank, frank) && i < |productions| && j < |productions[i].1|
    requires FirstMemo(firstSets, productions, rank) && FollowMemo(followSets, productions, rank, frank)
    ensures follow' == follow + FollowAt(productions, rank, frank, i, j)
    ensures Grows(firstSets, firstSets') && FirstMemo(firstSets', productions, rank)
    ensures Grows(followSets, followSets') && FollowMemo(followSets', productions, rank, frank)
    ensures followSets'.Keys <= followSets.Keys + LhsSymbols(productions)
    decreases frank(productions[i].1[j]), 0, 0
  {
    follow', firstSets', followSets' := follow, firstSets, followSets;
    var rhsSymbol := productions[i].1;
    if IsUpper(CharAt(rhsSymbol, j + 1)) {
      var count := 1;
      var flag := true;
      while flag
        invariant TailReaches(productions, i, j, count)
        invariant flag ==> follow' + FollowTail(productions, rank, frank, i, j, count) ==
                             follow + FollowTail(productions, rank, frank, i, j, 1)
        invariant !flag ==> follow' == follow + FollowTail(productions, rank, frank, i, j, 1)
        invariant Grows(firstSets, firstSets') && FirstMemo(firstSets', productions, rank)
        invariant Grows(followSets, followSets') && FollowMemo(followSets', productions, rank, frank)
        invariant followSets'.Keys <= followSets.Keys + LhsSymbols(productions)
        decreases |rhsSymbol| - j - count, flag
      {
        var firstSymbolFirstSet;
        firstSymbolFirstSet, firstSets' :=
          ComputeFirstSet(CharAt(rhsSymbol, j + count), productions, firstSets', rank);
        if Epsilon in firstSymbolFirstSet {
          firstSymbolFirstSet := firstSymbolFirstSet - {Epsilon};
          count := count + 1;
          follow' := follow' + firstSymbolFirstSet;
        } else if CharAt(rhsSymbol, j + count) == Nul {
          assert ReachesEnd(productions, i, j, j + count);
          var lhsFollowSet;
          lhsFollowSet, firstSets', followSets' :=
            ComputeFollowSet(productions[i].0, productions, firstSets', followSets', rank, frank);
          follow' := follow' + lhsFollowSet;
          flag := false;
        } else {
          follow' := follow' + firstSymbolFirstSet;
          flag := false;
        }
      }
    } else if CharAt(rhsSymbol, j + 1) == Nul {
      assert ReachesEnd(productions, i, j, j + 1);
      var lhsFollowSet;
      lhsFollowSet, firstSets', followSets' :=
        ComputeFollowSet(productions[i].0, productions, firstSets', followSets', rank, frank);
      follow' := follow' + lhsFollowSet;
    } else {
      follow' := follow' + {CharAt(rhsSymbol, j + 1)};
    }
  }

  /**
   * What occurrence j of rule i can put into FOLLOW of the symbol there,
   * stated without the scan: the next character when it is neither
   * upper-case nor '\0'; anything but '~' from the FIRST set of a position
   * the scan reaches; or FOLLOW of the left-hand side when the occurrence
   * reaches a '\0'.
   */
  ghost predicate OccurrenceYields(productions: seq<Production>, rank: char -> nat, frank: char -> nat,
                                   i: nat, j: nat, c: char)
    requires FollowWellDefined(productions, rank, frank) && i < |productions|
  {
    var (lhs, rhs) := productions[i];
    (j < |rhs| && c == CharAt(rhs, j + 1) && !IsUpper(c) && c != Nul) ||
    (c != Epsilon &&
     exists count: nat :: TailReaches(productions, i, j, count) &&
       c in First(CharAt(rhs, j + count), productions, rank)) ||
    (exists e: nat :: ReachesEnd(productions, i, j, e) && c in Follow(lhs, productions, rank, frank))
  }

  lemma {:induction false} FollowTailCharacterised(productions: seq<Production>, rank: char -> nat, frank: char -> nat,
                                                  i: nat, j: nat, count: nat, c: char)
    requires FollowWellDefined(productions, rank, frank) && i < |productions| && j < |productions[i].1|
    requires TailReaches(productions, i, j, count)
    ensures c in FollowTail(productions, rank, frank, i, j, count) <==>
              (c != Epsilon &&
               exists count': nat :: count <= count' && TailReaches(productions, i, j, count') &&
                 c in First(CharAt(productions[i].1, j + count'), productions, rank)) ||
              (exists e: nat :: j + count <= e && ReachesEnd(productions, i, j, e) &&
                 c in Follow(productions[i].0, productions, rank, frank))
    decreases |productions[i].1| - j - count
  {
    var (lhs, rhs) := productions[i];
    var here := CharAt(rhs, j + count);
    var f := First(here, productions, rank);
    forall count': nat | count < count' && TailReaches(productions, i, j, count')
      ensures Vanishes(here, productions)
    {
      assert rhs[j + count] == here;
    }
    forall e: nat | j + count < e && ReachesEnd(productions, i, j, e)
      ensures Vanishes(here, productions)
    {
      assert rhs[j + count] == here;
    }
    if Epsilon in f {
      assert j + count < |rhs| && here != Nul;
      FollowTailCharacterised(productions, rank, frank, i, j, count + 1, c);
      forall count': nat | count <= count' && TailReaches(productions, i, j, count') && count' != count
        ensures count + 1 <= count'
      {
      }
      forall e: nat | j + count <= e && ReachesEnd(productions, i, j, e)
        ensures j + count + 1 <= e
      {
      }
    } else {
      if here == Nul {
        FirstWithoutProductions(Nul, productions, rank);
        assert ReachesEnd(productions, i, j, j + count);
      }
    }
  }

  lemma FollowAtCharacterised(productions: seq<Production>, rank: char -> nat, frank: char -> nat,
                              i: nat, j: nat, c: char)
    requires FollowWellDefined(productions, rank, frank) && i < |productions| && j < |productions[i].1|
    ensures c in FollowAt(productions, rank, frank, i, j) <==> OccurrenceYields(productions, rank, frank, i, j, c)
  {
    var (lhs, rhs) := productions[i];
    var next := CharAt(rhs, j + 1);
    forall count: nat | TailReaches(productions, i, j, count)
      ensures IsUpper(next)
    {
    }
    if IsUpper(next) {
      FollowTailCharacterised(productions, rank, frank, i, j, 1, c);
      forall e: nat | ReachesEnd(productions, i, j, e)
        ensures j + 1 <= e
      {
      }
    } else {
      if next == Nul {
        assert ReachesEnd(productions, i, j, j + 1);
        forall e: nat | ReachesEnd(productions, i, j, e)
          ensures e == j + 1
        {
        }
      } else {
        forall e: nat | ReachesEnd(productions, i, j, e)
          ensures e != j + 1
        {
        }
      }
    }
  }

  lemma {:induction false} FollowInRhsCharacterised(nt: char, productions: seq<Production>, rank: char -> nat,
                                                   frank: char -> nat, i: nat, n: nat, c: char)
    requires FollowWellDefined(productions, rank, frank) && i < |productions| && n <= |productions[i].1|
    ensures c in FollowInRhs(nt, productions, rank, frank, i, n) <==>
              exists j: nat :: j < n && productions[i].1[j] == nt && OccurrenceYields(productions, rank, frank, i, j, c)
  {
    if n > 0 {
      FollowInRhsCharacterised(nt, productions, rank, frank, i, n - 1, c);
      if productions[i].1[n - 1] == nt {
        FollowAtCharacterised(productions, rank, frank, i, n - 1, c);
      }
    }
  }

  lemma {:induction false} FollowOfRulesCharacterised(nt: char, productions: seq<Production>, rank: char -> nat,
                                                     frank: char -> nat, n: nat, c: char)
    requires FollowWellDefined(productions, rank, frank) && n <= |productions|
    ensures c in FollowOfRules(nt, productions, rank, frank, n) <==>
              exists i: nat, j: nat :: i < n && j < |productions[i].1| && productions[i].1[j] == nt &&
                OccurrenceYields(productions, rank, frank, i, j, c)
  {
    if n > 0 {
      FollowOfRulesCharacterised(nt, productions, rank, frank, n - 1, c);
      FollowInRhsCharacterised(nt, productions, rank, frank, n - 1, |productions[n - 1].1|, c);
    }
  }

  /**
   * FOLLOW(nt) is exactly '$' for 'D' plus what the occurrences of nt yield:
   * both directions of the scan's meaning.
   */
  lemma FollowCharacterised(nt: char, productions: seq<Production>, rank: char -> nat, frank: char -> nat, c: char)
    requires FollowWellDefined(productions, rank, frank)
    ensures c in Follow(nt, productions, rank, frank) <==>
              (nt == AugmentedStart && c == EndMarker) ||
              exists i: nat, j: nat :: i < |productions| && j < |productions[i].1| && productions[i].1[j] == nt &&
                OccurrenceYields(productions, rank, frank, i, j, c)
  {
    FollowOfRulesCharacterised(nt, productions, rank, frank, |productions|, c);
  }

  /** FOLLOW('D') holds '$'. */
  lemma FollowOfStart(productions: seq<Production>, rank: char -> nat, frank: char -> nat)
    requires FollowWellDefined(productions, rank, frank)
    ensures EndMarker in Follow(AugmentedStart, productions, rank, frank)
  {
  }

  /** An occurrence followed by a character that is neither upper-case nor '\0' adds that character. */
  lemma FollowTerminalAfter(productions: seq<Production>, rank: char -> nat, frank: char -> nat, i: nat, j: nat)
    requires FollowWellDefined(productions, rank, frank) && i < |productions| && j < |productions[i].1|
    requires !IsUpper(CharAt(productions[i].1, j + 1)) && CharAt(productions[i].1, j + 1) != Nul
    ensures CharAt(productions[i].1, j + 1) in Follow(productions[i].1[j], productions, rank, frank)
  {
    var c := CharAt(productions[i].1, j + 1);
    assert OccurrenceYields(productions, rank, frank, i, j, c);
    FollowCharacterised(productions[i].1[j], productions, rank, frank, c);
  }

  /** Each position the scan after an occurrence reaches adds its FIRST set without '~'. */
  lemma FollowFirstOfTail(productions: seq<Production>, rank: char -> nat, frank: char -> nat,
                          i: nat, j: nat, count: nat)
    requires FollowWellDefined(productions, rank, frank) && i < |productions| && j < |productions[i].1|
    requires TailReaches(productions, i, j, count)
    ensures First(CharAt(productions[i].1, j + count), productions, rank) - {Epsilon} <=
              Follow(productions[i].1[j], productions, rank, frank)
  {
    forall c | c in First(CharAt(productions[i].1, j + count), productions, rank) - {Epsilon}
      ensures c in Follow(productions[i].1[j], productions, rank, frank)
    {
      assert OccurrenceYields(productions, rank, frank, i, j, c);
      FollowCharacterised(productions[i].1[j], productions, rank, frank, c);
    }
  }

  /**
   * An occurrence that reaches a '\0' (the end of the right-hand side, at once
   * or after vanishing symbols) gets all of FOLLOW of the left-hand side.
   */
  lemma FollowHandOver(productions: seq<Production>, rank: char -> nat, frank: char -> nat, i: nat, j: nat, e: nat)
    requires FollowWellDefined(productions, rank, frank) && i < |productions| && j < |productions[i].1|
    requires ReachesEnd(productions, i, j, e)
    ensures Follow(productions[i].0, productions, rank, frank) <= Follow(productions[i].1[j], productions, rank, frank)
  {
    forall c | c in Follow(productions[i].0, productions, rank, frank)
      ensures c in Follow(productions[i].1[j], productions, rank, frank)
    {
      assert OccurrenceYields(productions, rank, frank, i, j, c);
      FollowCharacterised(productions[i].1[j], productions, rank, frank, c);
    }
  }

  /** The last symbol of a right-hand side gets FOLLOW of the left-hand side. */
  lemma FollowAtEnd(productions: seq<Production>, rank: char -> nat, frank: char -> nat, i: nat)
    requires FollowWellDefined(productions, rank, frank) && i < |productions| && |productions[i].1| > 0
    ensures Follow(productions[i].0, productions, rank, frank) <=
              Follow(productions[i].1[|productions[i].1| - 1], productions, rank, frank)
  {
    var rhs := productions[i].1;
    assert ReachesEnd(productions, i, |rhs| - 1, |rhs|);
    FollowHandOver(productions, rank, frank, i, |rhs| - 1, |rhs|);
  }
}
