/**
 * Two small grammars on which the FIRST computation departs from the
 * textbook definition.
 *
 * In `A -> Bc`, `B -> ~` the textbook FIRST(A) is {c}: B derives the empty
 * string, so c can start A. The scan asks for FIRST of 'c' once B's FIRST
 * set held '~', and a terminal has no production, so nothing is added.
 *
 * In `A -> B`, `B -> ~` the textbook FIRST(A) holds '~'. The scan drops the
 * '~' of every set it continues past, so '~' enters FIRST only from a
 * right-hand side that starts with '~'.
 */
module Departures {
  import opened Grammar
  import opened FirstSets

  const NullableRun: seq<Production> := [('A', "Bc"), ('B', "~")]
  const NullableOnly: seq<Production> := [('A', "B"), ('B', "~")]

  /** A above everything else: each scan of FIRST from A goes to a lower symbol. */
  function RunRank(c: char): nat {
    if c == 'A' then 1 else 0
  }

  /** Both grammars meet the preconditions of FIRST under RunRank. */
  lemma SmallGrammarsWellDefined()
    ensures FirstWellDefined(NullableRun, RunRank)
    ensures FirstWellDefined(NullableOnly, RunRank)
  {
    forall i: nat, k: nat | i < |NullableRun| && ChainReaches(NullableRun, i, k)
      ensures RunRank(CharAt(NullableRun[i].1, k)) < RunRank(NullableRun[i].0)
    {
      assert i == 0;
      if k >= 2 {
        assert Vanishes(NullableRun[0].1[1], NullableRun);
      }
    }
    forall i: nat, k: nat | i < |NullableOnly| && ChainReaches(NullableOnly, i, k)
      ensures RunRank(CharAt(NullableOnly[i].1, k)) < RunRank(NullableOnly[i].0)
    {
      assert i == 0;
    }
  }

  /** 'c' follows a vanishing B, yet it is not in FIRST(A); nothing is. */
  lemma TerminalAfterNullableRunIgnored()
    ensures FirstWellDefined(NullableRun, RunRank)
    ensures First('B', NullableRun, RunRank) == {Epsilon}
    ensures 'c' !in First('A', NullableRun, RunRank)
  {
    SmallGrammarsWellDefined();
    var p := NullableRun;
    assert FirstOfRules('c', p, RunRank, 1) == {};
    assert First('c', p, RunRank) == FirstOfRules('c', p, RunRank, 2) == {};
    assert FirstOfString(p, RunRank, 1, ['B']) == {};
    assert FirstOfString(p, RunRank, 1, "~") == {Epsilon};
    assert FirstOfRules('B', p, RunRank, 1) == {};
    assert First('B', p, RunRank) == FirstOfRules('B', p, RunRank, 2) == FirstOfRule(p, RunRank, 1) == {Epsilon};
    assert FirstChain(p, RunRank, 0, 1) == {};
    assert FirstChain(p, RunRank, 0, 0) == {};
    assert FirstOfString(p, RunRank, 0, ['A']) == {};
    assert FirstOfString(p, RunRank, 0, "Bc") == {};
    assert First('A', p, RunRank) == FirstOfRules('A', p, RunRank, 2) == FirstOfRules('A', p, RunRank, 1) == {};
  }

  /** A derives the empty string through B, yet '~' is not in FIRST(A). */
  lemma EpsilonOnlyFromLeadingTilde()
    ensures FirstWellDefined(NullableOnly, RunRank)
    ensures Epsilon in First('B', NullableOnly, RunRank)
    ensures Epsilon !in First('A', NullableOnly, RunRank)
  {
    SmallGrammarsWellDefined();
  }
}
