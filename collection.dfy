/**
 * The canonical collection of LR(0) states. The growing sequence is both
 * the result and the work queue: state i is expanded by computing goto for
 * every symbol after a dot in it, in ascending character order, and every
 * goto set not yet in the sequence is appended. State numbers are indexes
 * into the sequence.
 */
module Collection {
  import opened Grammar
  import opened Items
  import opened ClosureGoto
  import opened Universe

  /** The augmented item nonTerminals[0] -> ."productions[0]" that state 0 closes. */
  function StartItem(nonTerminals: seq<char>, productions: seq<Production>): Item
    requires |nonTerminals| > 0 && |productions| > 0
  {
    Item(nonTerminals[0], [Dot] + productions[0].1)
  }

  /** Goto of every state below n, on every symbol after a dot in it, is a state. */
  ghost predicate GotoClosed(states: seq<set<Item>>, n: nat, nonTerminals: seq<char>, productions: seq<Production>)
    requires n <= |states|
  {
    forall a, symbol :: 0 <= a < n && symbol in Symbols(states[a]) ==>
      Goto(states[a], symbol, nonTerminals, productions) in states
  }

  /** Every state after the first is goto of an earlier state. */
  ghost predicate Reached(states: seq<set<Item>>, nonTerminals: seq<char>, productions: seq<Production>) {
    forall b :: 0 < b < |states| ==> ReachedAt(states, b, nonTerminals, productions)
  }

  /** State b is goto of an earlier state. */
  ghost predicate ReachedAt(states: seq<set<Item>>, b: nat, nonTerminals: seq<char>, productions: seq<Production>)
    requires b < |states|
  {
    exists a, symbol :: 0 <= a < b && symbol in Symbols(states[a]) &&
      states[b] == Goto(states[a], symbol, nonTerminals, productions)
  }

  ghost predicate AllInSpace(states: seq<set<Item>>, start: char, productions: seq<Production>) {
    forall a :: 0 <= a < |states| ==> SetInSpace(states[a], start, productions)
  }

  /** The first loop of an expansion step: the symbols right after a dot. */
  method CollectSymbols(items: set<Item>) returns (symbols: set<char>)
    ensures symbols == Symbols(items)
  {
    symbols := {};
    var rest := items;
    while rest != {}
      invariant rest <= items
      invariant symbols == Symbols(items - rest)
      decreases rest
    {
      var item :| item in rest;
      var dotPosition := FindDot(item.rhs);
      if dotPosition != -1 && dotPosition < |item.rhs| - 1 {
        symbols := symbols + {item.rhs[dotPosition + 1]};
      }
      assert items - (rest - {item}) == (items - rest) + {item};
      rest := rest - {item};
    }
    assert items - rest == items;
  }

  /** Appending a state that is not yet present keeps the states pairwise different. */
  lemma AppendDistinct(states: seq<set<Item>>, g: set<Item>)
    requires Distinct(states) && g !in states
    ensures Distinct(states + [g])
  {
  }

  /** Appending a state of the space keeps every state in the space. */
  lemma AppendInSpace(states: seq<set<Item>>, g: set<Item>, start: char, productions: seq<Production>)
    requires AllInSpace(states, start, productions) && SetInSpace(g, start, productions)
    ensures AllInSpace(states + [g], start, productions)
  {
  }

  /**
   * One expansion step stated without the loop: for each symbol of rest,
   * least first, goto of the items on it is appended unless an equal state
   * is already present.
   */
  ghost function Expansion(states: seq<set<Item>>, items: set<Item>, rest: set<char>,
                           nonTerminals: seq<char>, productions: seq<Production>): seq<set<Item>>
    requires rest <= Symbols(items)
    decreases rest
  {
    if rest == {} then states
    else
      var symbol := LeastSymbol(rest);
      var g := Goto(items, symbol, nonTerminals, productions);
      Expansion(if g in states then states else states + [g], items, rest - {symbol}, nonTerminals, productions)
  }

  /**
   * An expansion step keeps the states it starts from, in place, keeps them
   * pairwise different and inside the space, and every state it appends is
   * goto of the expanded items on one of the symbols.
   */
  lemma {:induction false} ExpansionKeeps(states: seq<set<Item>>, items: set<Item>, rest: set<char>,
                                          nonTerminals: seq<char>, productions: seq<Production>, start: char)
    requires rest <= Symbols(items) && |productions| > 0 && SetInSpace(items, start, productions)
    requires Distinct(states) && AllInSpace(states, start, productions)
    ensures var e := Expansion(states, items, rest, nonTerminals, productions);
      |states| <= |e| && e[..|states|] == states && Distinct(e) && AllInSpace(e, start, productions) &&
      forall b :: |states| <= b < |e| ==>
        exists symbol :: symbol in rest && e[b] == Goto(items, symbol, nonTerminals, productions)
    decreases rest
  {
    if rest != {} {
      var symbol := LeastSymbol(rest);
      var g := Goto(items, symbol, nonTerminals, productions);
      var next := if g in states then states else states + [g];
      if g !in states {
        GotoInSpace(items, symbol, start, nonTerminals, productions);
        AppendDistinct(states, g);
        AppendInSpace(states, g, start, productions);
      }
      ExpansionKeeps(next, items, rest - {symbol}, nonTerminals, productions, start);
      var e := Expansion(next, items, rest - {symbol}, nonTerminals, productions);
      assert e == Expansion(states, items, rest, nonTerminals, productions);
      assert e[..|states|] == e[..|next|][..|states|] == next[..|states|] == states;
      forall b | |states| <= b < |e|
        ensures exists x :: x in rest && e[b] == Goto(items, x, nonTerminals, productions)
      {
        if b < |next| {
          assert e[b] == next[b] == g;
        }
      }
    }
  }

  /** Every state present, and goto of the items on every symbol of rest, is in the expansion. */
  lemma {:induction false} ExpansionContains(states: seq<set<Item>>, items: set<Item>, rest: set<char>,
                                             nonTerminals: seq<char>, productions: seq<Production>)
    requires rest <= Symbols(items)
    ensures var e := Expansion(states, items, rest, nonTerminals, productions);
      (forall g :: g in states ==> g in e) &&
      forall symbol :: symbol in rest ==> Goto(items, symbol, nonTerminals, productions) in e
    decreases rest
  {
    if rest != {} {
      var symbol := LeastSymbol(rest);
      var g := Goto(items, symbol, nonTerminals, productions);
      var next := if g in states then states else states + [g];
      ExpansionContains(next, items, rest - {symbol}, nonTerminals, productions);
      assert g in next;
    }
  }

  /** Expanding state i keeps every state after the first goto of an earlier state. */
  lemma ExpansionReached(states: seq<set<Item>>, i: nat, nonTerminals: seq<char>, productions: seq<Production>,
                         start: char)
    requires i < |states| && |productions| > 0
    requires Distinct(states) && AllInSpace(states, start, productions) && Reached(states, nonTerminals, productions)
    ensures Reached(Expansion(states, states[i], Symbols(states[i]), nonTerminals, productions), nonTerminals, productions)
  {
    var e := Expansion(states, states[i], Symbols(states[i]), nonTerminals, productions);
    ExpansionKeeps(states, states[i], Symbols(states[i]), nonTerminals, productions, start);
    forall b | 0 < b < |e|
      ensures ReachedAt(e, b, nonTerminals, productions)
    {
      assert e[i] == states[i];
      if b < |states| {
        assert ReachedAt(states, b, nonTerminals, productions);
        var a, x :| 0 <= a < b && x in Symbols(states[a]) && states[b] == Goto(states[a], x, nonTerminals, productions);
        assert e[a] == states[a] && e[b] == states[b];
      }
    }
  }

  /**
   * Expands state i: appends goto of state i on each of its symbols, in
   * ascending order, unless an equal state is already present.
   */
  method ExpandState(states: seq<set<Item>>, i: nat, nonTerminals: seq<char>, productions: seq<Production>,
                     ghost start: char)
    returns (states': seq<set<Item>>)
    requires i < |states| && |productions| > 0
    requires Distinct(states) && AllInSpace(states, start, productions) && Reached(states, nonTerminals, productions)
    ensures states' == Expansion(states, states[i], Symbols(states[i]), nonTerminals, productions)
    ensures |states| <= |states'| && states'[..|states|] == states
    ensures Distinct(states') && AllInSpace(states', start, productions) && Reached(states', nonTerminals, productions)
    ensures forall symbol :: symbol in Symbols(states[i]) ==>
              Goto(states[i], symbol, nonTerminals, productions) in states'
    ensures forall b :: |states| <= b < |states'| ==>
              exists symbol :: symbol in Symbols(states[i]) && states'[b] == Goto(states[i], symbol, nonTerminals, productions)
  {
    var currentItemSet := states[i];
    var symbols := CollectSymbols(currentItemSet);
    states' := states;
    var rest := symbols;
    while rest != {}
      invariant rest <= symbols
      invariant Expansion(states', currentItemSet, rest, nonTerminals, productions) ==
                Expansion(states, currentItemSet, symbols, nonTerminals, productions)
      decreases rest
    {
      var symbol := FindLeastSymbol(rest);
      var goToSet := ComputeGoto(currentItemSet, symbol, nonTerminals, productions);
      if IndexOf(states', goToSet) == |states'| {
        states' := states' + [goToSet];
      }
      rest := rest - {symbol};
    }
    ExpansionKeeps(states, currentItemSet, symbols, nonTerminals, productions, start);
    ExpansionContains(states, currentItemSet, symbols, nonTerminals, productions);
    ExpansionReached(states, i, nonTerminals, productions, start);
  }

  /** Once state i is expanded, goto is closed up to state i + 1. */
  lemma ExtendGotoClosed(before: seq<set<Item>>, states: seq<set<Item>>, i: nat,
                         nonTerminals: seq<char>, productions: seq<Production>)
    requires i < |before| <= |states| && states[..|before|] == before
    requires GotoClosed(before, i, nonTerminals, productions)
    requires forall symbol :: symbol in Symbols(before[i]) ==> Goto(before[i], symbol, nonTerminals, productions) in states
    ensures GotoClosed(states, i + 1, nonTerminals, productions)
  {
    forall a, symbol | 0 <= a < i + 1 && symbol in Symbols(states[a])
      ensures Goto(states[a], symbol, nonTerminals, productions) in states
    {
      assert states[a] == before[a];
      if a < i {
        var g := Goto(before[a], symbol, nonTerminals, productions);
        assert g in before;
        var b :| 0 <= b < |before| && before[b] == g;
        assert states[b] == g;
      }
    }
  }

  /**
   * The state loop stated without the loop: expand state i, then every
   * state after it, until no state is left to expand.
   */
  ghost function CollectionFrom(states: seq<set<Item>>, i: nat, nonTerminals: seq<char>, productions: seq<Production>)
    : seq<set<Item>>
    requires |nonTerminals| > 0 && |productions| > 0 && i <= |states|
    requires Distinct(states) && AllInSpace(states, nonTerminals[0], productions)
    decreases StateBound(nonTerminals[0], productions) - |states|, |states| - i
  {
    if i == |states| then states
    else
      ExpansionKeeps(states, states[i], Symbols(states[i]), nonTerminals, productions, nonTerminals[0]);
      var next := Expansion(states, states[i], Symbols(states[i]), nonTerminals, productions);
      DistinctStatesBounded(next, nonTerminals[0], productions);
      CollectionFrom(next, i + 1, nonTerminals, productions)
  }

  /** The canonical collection, numbered as the state loop numbers it. */
  ghost function CanonicalStates(nonTerminals: seq<char>, productions: seq<Production>): seq<set<Item>>
    requires |nonTerminals| > 0 && |productions| > 0
  {
    var start := nonTerminals[0];
    PredictionsInSpace(start, nonTerminals, productions);
    ClosureInSpace(StartItem(nonTerminals, productions), start, nonTerminals, productions);
    CollectionFrom([Closure(StartItem(nonTerminals, productions), nonTerminals, productions)], 0, nonTerminals, productions)
  }

  /**
   * The state loop of computeCanonicalCollection: state 0 is the closure of
   * the augmented item, no two states are equal, goto of every state on
   * every symbol after a dot is a state, and every later state is goto of
   * an earlier one.
   */
  method BuildCollection(nonTerminals: seq<char>, productions: seq<Production>)
    returns (states: seq<set<Item>>)
    requires |nonTerminals| > 0 && |productions| > 0
    ensures |states| >= 1 && states[0] == Closure(StartItem(nonTerminals, productions), nonTerminals, productions)
    ensures Distinct(states) && Reached(states, nonTerminals, productions)
    ensures GotoClosed(states, |states|, nonTerminals, productions)
    ensures states == CanonicalStates(nonTerminals, productions)
  {
    ghost var start := nonTerminals[0];
    var item := StartItem(nonTerminals, productions);
    PredictionsInSpace(start, nonTerminals, productions);
    ClosureInSpace(item, start, nonTerminals, productions);
    var initialItem := ComputeClosure(item, nonTerminals, productions);
    states := [initialItem];
    DistinctStatesBounded(states, start, productions);
    var i := 0;
    while i < |states|
      invariant i <= |states| && states[0] == initialItem
      invariant Distinct(states) && AllInSpace(states, start, productions) && Reached(states, nonTerminals, productions)
      invariant GotoClosed(states, i, nonTerminals, productions)
      invariant |states| <= StateBound(start, productions)
      invariant CollectionFrom(states, i, nonTerminals, productions) == CanonicalStates(nonTerminals, productions)
      decreases StateBound(start, productions) - |states|, |states| - i
    {
      ghost var before := states;
      states := ExpandState(states, i, nonTerminals, productions, start);
      ExtendGotoClosed(before, states, i, nonTerminals, productions);
      DistinctStatesBounded(states, start, productions);
      i := i + 1;
    }
  }
}
