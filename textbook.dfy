/**
 * The expression grammar both programs' main builds. Its FIRST and FOLLOW
 * recursions end: it has ranks meeting FirstRanked and FollowRanked, so the
 * generator's preconditions hold for it.
 */
module Textbook {
  import opened Grammar
  import opened FirstSets
  import opened FollowSets

  /** D above E above T above F: each scan of FIRST goes to a lower symbol. */
  function FirstRank(c: char): nat {
    if c == 'D' then 3 else if c == 'E' then 2 else if c == 'T' then 1 else 0
  }

  /** D below E below T below F below the rest: each FOLLOW hand-over goes to a lower symbol. */
  function FollowRank(c: char): nat {
    if c == 'D' then 0 else if c == 'E' then 1 else if c == 'T' then 2 else if c == 'F' then 3 else 4
  }

  /** No production of the grammar puts '~' first, so no symbol vanishes. */
  lemma NothingVanishes(c: char)
    ensures !Vanishes(c, TextbookProductions)
  {
    var p := TextbookProductions;
    forall i | 0 <= i < |p| && p[i].0 == c
      ensures c != Epsilon && CharAt(p[i].1, 0) != Epsilon
    {
      assert p[i].0 in {'D', 'E', 'T', 'F'};
      assert p[i].1[0] in {'E', 'T', 'F', '(', 'i'};
    }
  }

  /** The scan of a FIRST set only ever looks at the first character of a right-hand side. */
  lemma ChainStopsAtStart(i: nat, k: nat)
    requires i < |TextbookProductions| && ChainReaches(TextbookProductions, i, k)
    ensures k == 0
  {
    if k > 0 {
      NothingVanishes(TextbookProductions[i].1[0]);
    }
  }

  /** Every occurrence hands over FOLLOW only from the last position of its right-hand side. */
  lemma EndIsLast(i: nat, j: nat, e: nat)
    requires i < |TextbookProductions| && ReachesEnd(TextbookProductions, i, j, e)
    ensures e == |TextbookProductions[i].1| && j + 1 == e
  {
    var rhs := TextbookProductions[i].1;
    assert forall m :: 0 <= m < |rhs| ==> rhs[m] != Nul;
    if e != j + 1 {
      NothingVanishes(rhs[j + 1]);
    }
  }

  /** The grammar of main meets the preconditions of FIRST, FOLLOW and the generator. */
  lemma TextbookWellDefined()
    ensures FollowWellDefined(TextbookProductions, FirstRank, FollowRank)
    ensures |TextbookNonTerminals| > 0 && |TextbookProductions| > 0
  {
    var p := TextbookProductions;
    forall i: nat, k: nat | i < |p| && ChainReaches(p, i, k)
      ensures FirstRank(CharAt(p[i].1, k)) < FirstRank(p[i].0)
    {
      ChainStopsAtStart(i, k);
    }
    forall i: nat, j: nat, e: nat | i < |p| && ReachesEnd(p, i, j, e)
      ensures FollowRank(p[i].0) < FollowRank(p[i].1[j])
    {
      EndIsLast(i, j, e);
    }
  }
}
