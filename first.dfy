/**
 * FIRST sets as computeFirstSet computes them.
 *
 * For every production of the symbol both strings of the rule are scanned:
 * the one-character left-hand side string and the right-hand side. A string
 * whose first character is not upper-case contributes that character. A
 * string that starts with its own left-hand side contributes nothing. A
 * string that starts with another upper-case symbol contributes that
 * symbol's FIRST set; while the set just added held '~', the scan moves on
 * to the next character, whatever it is (a terminal or the string's end
 * has an empty FIRST set, so the scan then stops having added nothing).
 * The '~' of a continuing set is dropped, so '~' enters a FIRST set only
 * when a right-hand side starts with '~'.
 *
 * The recursion has no in-progress guard, so it only ends when the symbols
 * it visits have a well-founded rank (FirstRanked); the rank is a ghost
 * parameter and never influences a result.
 */
module FirstSets {
  import opened Grammar

  /** No production has '\0' on its left: the end of a string has an empty FIRST set. */
  predicate NulSafe(productions: seq<Production>) {
    forall i :: 0 <= i < |productions| ==> productions[i].0 != Nul
  }

  /** FIRST(c) holds '~': some production of c puts '~' first (or c is '~' itself). */
  predicate Vanishes(c: char, productions: seq<Production>) {
    exists i :: 0 <= i < |productions| && productions[i].0 == c &&
      (c == Epsilon || CharAt(productions[i].1, 0) == Epsilon)
  }

  /**
   * The scan of rule i's right-hand side visits position k: it starts with an
   * upper-case symbol other than the rule's own left-hand side, and every
   * symbol before position k vanishes.
   */
  ghost predicate ChainReaches(productions: seq<Production>, i: nat, k: nat)
    requires i < |productions|
  {
    var rhs := productions[i].1;
    k <= |rhs| && IsUpper(CharAt(rhs, 0)) && CharAt(rhs, 0) != productions[i].0 &&
    forall m :: 0 <= m < k ==> Vanishes(rhs[m], productions)
  }

  /** Every symbol a scan visits ranks strictly below the rule's left-hand side. */
  ghost predicate FirstRanked(productions: seq<Production>, rank: char -> nat) {
    forall i: nat, k: nat :: i < |productions| && ChainReaches(productions, i, k) ==>
      rank(CharAt(productions[i].1, k)) < rank(productions[i].0)
  }

  ghost predicate FirstWellDefined(productions: seq<Production>, rank: char -> nat) {
    NulSafe(productions) && FirstRanked(productions, rank)
  }

  /** FIRST(nt): the union of what every production of nt contributes. */
  ghost function First(nt: char, productions: seq<Production>, rank: char -> nat): (r: set<char>)
    requires FirstWellDefined(productions, rank)
    ensures Epsilon in r <==> Vanishes(nt, productions)
    decreases rank(nt), 3, 0
  {
    FirstOfRules(nt, productions, rank, |productions|)
  }

  /** What the productions of nt among the first n contribute. */
  ghost function FirstOfRules(nt: char, productions: seq<Production>, rank: char -> nat, n: nat): (r: set<char>)
    requires FirstWellDefined(productions, rank) && n <= |productions|
    ensures Epsilon in r <==>
              (exists i :: 0 <= i < n && productions[i].0 == nt &&
                 (nt == Epsilon || CharAt(productions[i].1, 0) == Epsilon))
    decreases rank(nt), 2, n
  {
    if n == 0 then {}
    else
      FirstOfRules(nt, productions, rank, n - 1) +
      (if productions[n - 1].0 == nt then FirstOfRule(productions, rank, n - 1) else {})
  }

  /** What rule i contributes: its left-hand side string, then its right-hand side. */
  ghost function FirstOfRule(productions: seq<Production>, rank: char -> nat, i: nat): (r: set<char>)
    requires FirstWellDefined(productions, rank) && i < |productions|
    ensures Epsilon in r <==> productions[i].0 == Epsilon || CharAt(productions[i].1, 0) == Epsilon
    decreases rank(productions[i].0), 1, 0
  {
    FirstOfString(productions, rank, i, [productions[i].0]) +
    FirstOfString(productions, rank, i, productions[i].1)
  }

  /** What one string s of rule i contributes. */
  ghost function FirstOfString(productions: seq<Production>, rank: char -> nat, i: nat, s: string): (r: set<char>)
    requires FirstWellDefined(productions, rank) && i < |productions|
    requires s == [productions[i].0] || s == productions[i].1
    ensures Epsilon in r <==> CharAt(s, 0) == Epsilon
    decreases rank(productions[i].0), 0, |s| + 1
  {
    var f := CharAt(s, 0);
    if IsUpper(f) then
      if f != productions[i].0 then FirstChain(productions, rank, i, 0) else {}
    else {f}
  }

  /** The scan of rule i's right-hand side from position k on. */
  ghost function FirstChain(productions: seq<Production>, rank: char -> nat, i: nat, k: nat): (r: set<char>)
    requires FirstWellDefined(productions, rank) && i < |productions|
    requires ChainReaches(productions, i, k)
    ensures Epsilon !in r
    decreases rank(productions[i].0), 0, |productions[i].1| - k
  {
    var rhs := productions[i].1;
    var f := First(CharAt(rhs, k), productions, rank);
    if Epsilon in f then
      (f - {Epsilon}) + FirstChain(productions, rank, i, k + 1)
    else f
  }

  /** The memo table is consistent: every cached set is the FIRST set of its key. */
  ghost predicate FirstMemo(firstSets: map<char, set<char>>, productions: seq<Production>, rank: char -> nat)
    requires FirstWellDefined(productions, rank)
  {
    forall c :: c in firstSets ==> firstSets[c] == First(c, productions, rank)
  }

  /** The memo table only grows and keeps every entry it had. */
  predicate Grows(before: map<char, set<char>>, after: map<char, set<char>>) {
    before.Keys <= after.Keys && forall c :: c in before ==> after[c] == before[c]
  }

  /**
   * computeFirstSet: answers from the memo table when it can; otherwise
   * scans every production of nonTerminal and stores the result.
   */
  method ComputeFirstSet(nonTerminal: char, productions: seq<Production>,
                         firstSets: map<char, set<char>>, ghost rank: char -> nat)
    returns (first: set<char>, firstSets': map<char, set<char>>)
    requires FirstWellDefined(productions, rank) && FirstMemo(firstSets, productions, rank)
    ensures first == First(nonTerminal, productions, rank)
    ensures nonTerminal in firstSets ==> first == firstSets[nonTerminal] && firstSets' == firstSets
    ensures nonTerminal in firstSets' && firstSets'[nonTerminal] == first
    ensures Grows(firstSets, firstSets') && FirstMemo(firstSets', productions, rank)
    decreases rank(nonTerminal), 1, 0
  {
    if nonTerminal in firstSets {
      return firstSets[nonTerminal], firstSets;
    }
    first := {};
    firstSets' := firstSets;
    for i := 0 to |productions|
      invariant first == FirstOfRules(nonTerminal, productions, rank, i)
      invariant Grows(firstSets, firstSets') && FirstMemo(firstSets', productions, rank)
    {
      if productions[i].0 == nonTerminal {
        // The rule's two strings, in order.
        first, firstSets' := AddFirstOfString(productions, i, [productions[i].0], first, firstSets', rank);
        first, firstSets' := AddFirstOfString(productions, i, productions[i].1, first, firstSets', rank);
      }
    }
    firstSets' := firstSets'[nonTerminal := first];
  }

  /** The body of computeFirstSet's loop for one string s of rule i. */
  method AddFirstOfString(productions: seq<Production>, i: nat, s: string, first: set<char>,
                          firstSets: map<char, set<char>>, ghost rank: char -> nat)
    returns (first': set<char>, firstSets': map<char, set<char>>)
    requires FirstWellDefined(productions, rank) && FirstMemo(firstSets, productions, rank)
    requires i < |productions| && (s == [productions[i].0] || s == productions[i].1)
    ensures first' == first + FirstOfString(productions, rank, i, s)
    ensures Grows(firstSets, firstSets') && FirstMemo(firstSets', productions, rank)
    decreases rank(productions[i].0), 0, 0
  {
    first', firstSets' := first, firstSets;
    var count := 0;
    var firstSymbol := CharAt(s, count);
    if IsUpper(firstSymbol) {
      if firstSymbol != productions[i].0 {
        var flag := true;
        while flag
          invariant s == productions[i].1 && ChainReaches(productions, i, count)
          invariant firstSymbol == CharAt(s, count)
          invariant flag ==> first' + FirstChain(productions, rank, i, count) ==
                               first + FirstChain(productions, rank, i, 0)
          invariant !flag ==> first' == first + FirstChain(productions, rank, i, 0)
          invariant Grows(firstSets, firstSets') && FirstMemo(firstSets', productions, rank)
          decreases |s| - count, flag
        {
          var firstSymbolFirstSet;
          firstSymbolFirstSet, firstSets' := ComputeFirstSet(firstSymbol, productions, firstSets', rank);
          if Epsilon in firstSymbolFirstSet {
            firstSymbolFirstSet := firstSymbolFirstSet - {Epsilon};
            count := count + 1;
            firstSymbol := CharAt(s, count);
          } else {
            flag := false;
          }
          first' := first' + firstSymbolFirstSet;
        }
      }
    } else {
      first' := first' + {firstSymbol};
    }
  }

  /**
   * What rule i can put into the FIRST set of its left-hand side, stated
   * without the scan: a non-upper-case left-hand side itself, a non-upper-case
   * first character of the right-hand side, or anything but '~' from the FIRST
   * set of a position the scan reaches.
   */
  ghost predicate RuleYields(productions: seq<Production>, rank: char -> nat, i: nat, c: char)
    requires FirstWellDefined(productions, rank) && i < |productions|
  {
    var (lhs, rhs) := productions[i];
    (c == lhs && !IsUpper(c)) ||
    (c == CharAt(rhs, 0) && !IsUpper(c)) ||
    (c != Epsilon && exists k: nat :: ChainReaches(productions, i, k) && c in First(CharAt(rhs, k), productions, rank))
  }

  lemma {:induction false} FirstChainCharacterised(productions: seq<Production>, rank: char -> nat, i: nat, k: nat, c: char)
    requires FirstWellDefined(productions, rank) && i < |productions| && ChainReaches(productions, i, k)
    ensures c in FirstChain(productions, rank, i, k) <==>
              c != Epsilon &&
              exists k': nat :: k <= k' && ChainReaches(productions, i, k') &&
                c in First(CharAt(productions[i].1, k'), productions, rank)
    decreases |productions[i].1| - k
  {
    var rhs := productions[i].1;
    var f := First(CharAt(rhs, k), productions, rank);
    if Epsilon in f {
      assert k < |rhs|;
      FirstChainCharacterised(productions, rank, i, k + 1, c);
      if c != Epsilon && c !in f {
        forall k': nat | k <= k' && ChainReaches(productions, i, k') &&
                         c in First(CharAt(rhs, k'), productions, rank)
          ensures k + 1 <= k'
        {
        }
      }
    }
  }

  lemma FirstOfRuleCharacterised(productions: seq<Production>, rank: char -> nat, i: nat, c: char)
    requires FirstWellDefined(productions, rank) && i < |productions|
    ensures c in FirstOfRule(productions, rank, i) <==> RuleYields(productions, rank, i, c)
  {
    var (lhs, rhs) := productions[i];
    if IsUpper(CharAt(rhs, 0)) && CharAt(rhs, 0) != lhs {
      FirstChainCharacterised(productions, rank, i, 0, c);
    } else {
      forall k: nat | ChainReaches(productions, i, k)
        ensures false
      {
      }
    }
  }

  lemma {:induction false} FirstOfRulesCharacterised(nt: char, productions: seq<Production>, rank: char -> nat, n: nat, c: char)
    requires FirstWellDefined(productions, rank) && n <= |productions|
    ensures c in FirstOfRules(nt, productions, rank, n) <==>
              exists i: nat :: i < n && productions[i].0 == nt && RuleYields(productions, rank, i, c)
  {
    if n > 0 {
      FirstOfRulesCharacterised(nt, productions, rank, n - 1, c);
      FirstOfRuleCharacterised(productions, rank, n - 1, c);
    }
  }

  /**
   * FIRST(nt) is exactly what the productions of nt yield: both directions of
   * the scan's meaning.
   */
  lemma FirstCharacterised(nt: char, productions: seq<Production>, rank: char -> nat, c: char)
    requires FirstWellDefined(productions, rank)
    ensures c in First(nt, productions, rank) <==>
              exists i: nat :: i < |productions| && productions[i].0 == nt && RuleYields(productions, rank, i, c)
  {
    FirstOfRulesCharacterised(nt, productions, rank, |productions|, c);
  }

  /** A rule whose right-hand side starts with a non-upper-case character adds exactly that character. */
  lemma FirstTerminalLead(productions: seq<Production>, rank: char -> nat, i: nat)
    requires FirstWellDefined(productions, rank) && i < |productions|
    requires !IsUpper(CharAt(productions[i].1, 0))
    ensures CharAt(productions[i].1, 0) in First(productions[i].0, productions, rank)
  {
    FirstCharacterised(productions[i].0, productions, rank, CharAt(productions[i].1, 0));
  }

  /** A rule whose right-hand side starts with its own upper-case left-hand side adds nothing. */
  lemma FirstSelfLeading(productions: seq<Production>, rank: char -> nat, i: nat)
    requires FirstWellDefined(productions, rank) && i < |productions|
    requires IsUpper(productions[i].0) && CharAt(productions[i].1, 0) == productions[i].0
    ensures FirstOfRule(productions, rank, i) == {}
  {
  }

  /**
   * Every position the scan reaches adds its FIRST set without '~': the
   * leading upper-case symbol, then each successor of a vanishing symbol.
   */
  lemma FirstNullableLead(productions: seq<Production>, rank: char -> nat, i: nat, k: nat)
    requires FirstWellDefined(productions, rank) && i < |productions| && ChainReaches(productions, i, k)
    ensures First(CharAt(productions[i].1, k), productions, rank) - {Epsilon} <=
              First(productions[i].0, productions, rank)
  {
    forall c | c in First(CharAt(productions[i].1, k), productions, rank) - {Epsilon}
      ensures c in First(productions[i].0, productions, rank)
    {
      assert RuleYields(productions, rank, i, c);
      FirstCharacterised(productions[i].0, productions, rank, c);
    }
  }

  /**
   * A symbol without productions (a terminal, or the '\0' past the end of a
   * string) has an empty FIRST set; this is what a scan adds when it runs
   * into one, and then it stops.
   */
  lemma FirstWithoutProductions(c: char, productions: seq<Production>, rank: char -> nat)
    requires FirstWellDefined(productions, rank) && c !in LhsSymbols(productions)
    ensures First(c, productions, rank) == {}
  {
    forall d | d in First(c, productions, rank)
      ensures false
    {
      FirstCharacterised(c, productions, rank, d);
    }
  }
}
