/**
 * Where the items of the canonical collection come from. When no
 * right-hand side contains '.', and the augmented item is built from the
 * left-hand side of production 0, every item of every state is a
 * production with the dot inserted somewhere. A completed item is then a
 * production with the dot at its end, so the index a Reduce cell names is
 * that of an existing production: the std::find of the table builder
 * always finds it, and parseString never indexes past the productions.
 */
module Provenance {
  import opened Grammar
  import opened Items
  import opened ClosureGoto
  import opened Collection
  import opened Tables

  /** No right-hand side contains the dot character. */
  predicate DotFree(productions: seq<Production>) {
    forall p :: 0 <= p < |productions| ==> Dot !in productions[p].1
  }

  /** x is production p with the dot after its first d characters. */
  ghost predicate ItemOf(x: Item, productions: seq<Production>, p: nat, d: nat) {
    p < |productions| && d <= |productions[p].1| && x.lhs == productions[p].0 &&
    x.rhs == productions[p].1[..d] + [Dot] + productions[p].1[d..]
  }

  ghost predicate GrammarItem(x: Item, productions: seq<Production>) {
    exists p: nat, d: nat :: ItemOf(x, productions, p, d)
  }

  ghost predicate GrammarItems(s: set<Item>, productions: seq<Production>) {
    forall x :: x in s ==> GrammarItem(x, productions)
  }

  /** In a dot-free grammar the dot of a grammar item is the one inserted. */
  lemma DotOfItem(x: Item, productions: seq<Production>, p: nat, d: nat)
    requires DotFree(productions) && ItemOf(x, productions, p, d)
    ensures FindDot(x.rhs) == d
  {
    assert x.rhs[d] == Dot;
  }

  /** A completed grammar item is its production with the dot at the end. */
  lemma CompletedItem(x: Item, productions: seq<Production>, p: nat, d: nat)
    requires DotFree(productions) && ItemOf(x, productions, p, d) && NextSymbol(x).None?
    ensures x.rhs == productions[p].1 + [Dot]
    ensures (x.lhs, DropLast(x.rhs)) == productions[p]
  {
    DotOfItem(x, productions, p, d);
    var rhs := productions[p].1;
    assert d == |rhs|;
    assert rhs[..d] == rhs && rhs[d..] == [];
    assert DropLast(x.rhs) == rhs;
  }

  /** Moving the dot of a grammar item past its next symbol gives the same production, one further on. */
  lemma AdvancedItem(x: Item, productions: seq<Production>, p: nat, d: nat)
    requires DotFree(productions) && ItemOf(x, productions, p, d) && NextSymbol(x).Some?
    ensures d < |productions[p].1| && ItemOf(Advance(x), productions, p, d + 1)
  {
    DotOfItem(x, productions, p, d);
    var rhs := productions[p].1;
    var y := Advance(x);
    var want := rhs[..d + 1] + [Dot] + rhs[d + 1..];
    assert |y.rhs| == |want|;
    forall k | 0 <= k < |want|
      ensures y.rhs[k] == want[k]
    {
      if k < d {
        assert y.rhs[k] == x.rhs[k] == rhs[k];
      } else if k > d + 1 {
        assert y.rhs[k] == x.rhs[k] == rhs[k - 1];
      }
    }
  }

  /** The closure of a grammar item holds grammar items only. */
  lemma ClosureOfGrammarItem(seed: Item, nonTerminals: seq<char>, productions: seq<Production>)
    requires GrammarItem(seed, productions)
    ensures GrammarItems(Closure(seed, nonTerminals, productions), productions)
  {
    ClosureProperties(seed, nonTerminals, productions);
    forall x | x in Predictions(nonTerminals, productions)
      ensures GrammarItem(x, productions)
    {
      var k :| 0 <= k < |productions| && productions[k].0 in nonTerminals && x == Prediction(productions[k]);
      assert productions[k].1[..0] == [] && productions[k].1[0..] == productions[k].1;
      assert ItemOf(x, productions, k, 0);
    }
  }

  /** Goto of a set of grammar items holds grammar items only. */
  lemma GotoOfGrammarItems(items: set<Item>, symbol: char, nonTerminals: seq<char>, productions: seq<Production>)
    requires DotFree(productions) && GrammarItems(items, productions) && symbol in Symbols(items)
    ensures GrammarItems(Goto(items, symbol, nonTerminals, productions), productions)
  {
    var kernel := Kernel(items, symbol);
    forall y | y in kernel
      ensures GrammarItem(y, productions)
    {
      var x :| x in items && NextSymbol(x) == Some(symbol) && y == Advance(x);
      var p: nat, d: nat :| ItemOf(x, productions, p, d);
      AdvancedItem(x, productions, p, d);
    }
    KernelNonEmpty(items, symbol);
    ClosureOfGrammarItem(Least(kernel), nonTerminals, productions);
  }

  /**
   * Every state of a collection built as the generator builds it holds
   * grammar items only, when the augmented item is built from production 0.
   */
  lemma {:induction false} StateOfGrammarItems(states: seq<set<Item>>, nonTerminals: seq<char>,
                                               productions: seq<Production>, b: nat)
    requires |nonTerminals| > 0 && |productions| > 0 && nonTerminals[0] == productions[0].0
    requires DotFree(productions) && b < |states|
    requires states[0] == Closure(StartItem(nonTerminals, productions), nonTerminals, productions)
    requires Reached(states, nonTerminals, productions)
    ensures GrammarItems(states[b], productions)
    decreases b
  {
    if b == 0 {
      var seed := StartItem(nonTerminals, productions);
      assert productions[0].1[..0] == [] && productions[0].1[0..] == productions[0].1;
      assert ItemOf(seed, productions, 0, 0);
      ClosureOfGrammarItem(seed, nonTerminals, productions);
    } else {
      assert ReachedAt(states, b, nonTerminals, productions);
      var a, symbol :| 0 <= a < b && symbol in Symbols(states[a]) &&
        states[b] == Goto(states[a], symbol, nonTerminals, productions);
      StateOfGrammarItems(states, nonTerminals, productions, a);
      GotoOfGrammarItems(states[a], symbol, nonTerminals, productions);
    }
  }

  /**
   * Over such a collection, a Reduce cell names an existing production,
   * whose completed item is in the state and under whose left-hand side's
   * FOLLOW entry the cell's symbol is.
   */
  lemma ReduceNamesProduction(g: Inputs, parsingTable: ActionTable, gotoTable: GotoTable, i: int, symbol: char)
    requires |g.productions| > 0 && TablesOf(g, parsingTable, gotoTable) && DotFree(g.productions)
    requires forall b :: 0 <= b < |g.states| ==> GrammarItems(g.states[b], g.productions)
    requires (i, symbol) in parsingTable && parsingTable[(i, symbol)].Reduce?
    ensures 0 <= i < |g.states|
    ensures var k := parsingTable[(i, symbol)].production;
            0 <= k < |g.productions| && g.productions[k].0 != AugmentedStart &&
            Item(g.productions[k].0, g.productions[k].1 + [Dot]) in g.states[i] &&
            g.productions[k].0 in g.followSets && symbol in g.followSets[g.productions[k].0]
  {
    ReduceEntries(g, parsingTable, gotoTable, i, symbol);
    var x :| x in g.states[i] && NextSymbol(x).None? && x.lhs != AugmentedStart &&
      x.lhs in g.followSets && symbol in g.followSets[x.lhs] &&
      parsingTable[(i, symbol)].production == IndexOf(g.productions, (x.lhs, DropLast(x.rhs)));
    assert GrammarItem(x, g.productions);
    var p: nat, d: nat :| ItemOf(x, g.productions, p, d);
    CompletedItem(x, g.productions, p, d);
    assert g.productions[p] in g.productions;
  }
}
