/**
 * LR(0) closure and goto over item sets.
 *
 * Closure(seed) is specified as the least set that contains the seed and is
 * closed under "an item A -> α.Bβ whose B is a listed non-terminal brings in
 * B -> .γ for every production B -> γ"; it is computed by saturating {seed}.
 * ComputeClosure is the worklist algorithm, proved equal to it.
 */
module ClosureGoto {
  import opened Grammar
  import opened Items

  /** The item B -> .γ of production p = (B, γ). */
  function Prediction(p: Production): Item {
    Item(p.0, [Dot] + p.1)
  }

  /** B -> .γ for every production of B. */
  ghost function PredictionsOf(b: char, productions: seq<Production>): set<Item> {
    set k | 0 <= k < |productions| && productions[k].0 == b :: Prediction(productions[k])
  }

  /** The items the closure must add because of x. */
  ghost function Expansions(x: Item, nonTerminals: seq<char>, productions: seq<Production>): set<Item> {
    match NextSymbol(x)
    case Some(b) => if b in nonTerminals then PredictionsOf(b, productions) else {}
    case None => {}
  }

  ghost predicate Closed(s: set<Item>, nonTerminals: seq<char>, productions: seq<Production>) {
    forall x :: x in s ==> Expansions(x, nonTerminals, productions) <= s
  }

  /** Every item a closure can add: B -> .γ for each production of a listed non-terminal. */
  ghost function Predictions(nonTerminals: seq<char>, productions: seq<Production>): set<Item> {
    set k | 0 <= k < |productions| && productions[k].0 in nonTerminals :: Prediction(productions[k])
  }

  /** One round of expansion of every member of s. */
  ghost function Expand(s: set<Item>, nonTerminals: seq<char>, productions: seq<Production>): set<Item> {
    s + (set x, k | x in s && 0 <= k < |productions| && NextSymbol(x) == Some(productions[k].0) &&
                    productions[k].0 in nonTerminals :: Prediction(productions[k]))
  }

  lemma ExpandBounds(s: set<Item>, nonTerminals: seq<char>, productions: seq<Production>)
    ensures s <= Expand(s, nonTerminals, productions) <= s + Predictions(nonTerminals, productions)
  {
    forall y | y in Expand(s, nonTerminals, productions) && y !in s
      ensures y in Predictions(nonTerminals, productions)
    {
      var x, k :| x in s && 0 <= k < |productions| && NextSymbol(x) == Some(productions[k].0) &&
                  productions[k].0 in nonTerminals && y == Prediction(productions[k]);
    }
  }

  lemma ExpandFixpointIsClosed(s: set<Item>, nonTerminals: seq<char>, productions: seq<Production>)
    requires Expand(s, nonTerminals, productions) == s
    ensures Closed(s, nonTerminals, productions)
  {
    forall x, y | x in s && y in Expansions(x, nonTerminals, productions)
      ensures y in s
    {
      var k :| 0 <= k < |productions| && NextSymbol(x) == Some(productions[k].0) &&
               productions[k].0 in nonTerminals && y == Prediction(productions[k]);
      assert y in Expand(s, nonTerminals, productions);
    }
  }

  lemma ExpandWithin(s: set<Item>, t: set<Item>, nonTerminals: seq<char>, productions: seq<Production>)
    requires s <= t && Closed(t, nonTerminals, productions)
    ensures Expand(s, nonTerminals, productions) <= t
  {
    forall y | y in Expand(s, nonTerminals, productions) && y !in s
      ensures y in t
    {
      var x, k :| x in s && 0 <= k < |productions| && NextSymbol(x) == Some(productions[k].0) &&
                  productions[k].0 in nonTerminals && y == Prediction(productions[k]);
      assert y in Expansions(x, nonTerminals, productions);
    }
  }

  lemma ProperSubsetShrinksRemainder<T>(t: set<T>, a: set<T>, b: set<T>)
    requires a <= b && b - a <= t && a != b
    ensures |t - b| < |t - a|
  {
    var y :| y in b && y !in a;
    SubsetCardinality(t - b, (t - a) - {y});
  }

  lemma {:induction false} SubsetCardinality<T>(a: set<T>, b: set<T>)
    requires a <= b
    ensures |a| <= |b|
    decreases |a|
  {
    if a != {} {
      var x :| x in a;
      SubsetCardinality(a - {x}, b - {x});
    }
  }

  /** Expands s until nothing changes. */
  ghost function Saturate(s: set<Item>, nonTerminals: seq<char>, productions: seq<Production>): set<Item>
    decreases |Predictions(nonTerminals, productions) - s|
  {
    var t := Expand(s, nonTerminals, productions);
    if t == s then s
    else
      ExpandBounds(s, nonTerminals, productions);
      ProperSubsetShrinksRemainder(Predictions(nonTerminals, productions), s, t);
      Saturate(t, nonTerminals, productions)
  }

  /** The closure of a single item, as computeClosure promises it. */
  ghost function Closure(seed: Item, nonTerminals: seq<char>, productions: seq<Production>): set<Item> {
    Saturate({seed}, nonTerminals, productions)
  }

  lemma {:induction false} SaturateProperties(s: set<Item>, nonTerminals: seq<char>, productions: seq<Production>)
    ensures s <= Saturate(s, nonTerminals, productions)
    ensures Closed(Saturate(s, nonTerminals, productions), nonTerminals, productions)
    ensures Saturate(s, nonTerminals, productions) <= s + Predictions(nonTerminals, productions)
    decreases |Predictions(nonTerminals, productions) - s|
  {
    var t := Expand(s, nonTerminals, productions);
    ExpandBounds(s, nonTerminals, productions);
    if t == s {
      ExpandFixpointIsClosed(s, nonTerminals, productions);
    } else {
      ProperSubsetShrinksRemainder(Predictions(nonTerminals, productions), s, t);
      SaturateProperties(t, nonTerminals, productions);
    }
  }

  lemma {:induction false} SaturateLeast(s: set<Item>, t: set<Item>, nonTerminals: seq<char>, productions: seq<Production>)
    requires s <= t && Closed(t, nonTerminals, productions)
    ensures Saturate(s, nonTerminals, productions) <= t
    decreases |Predictions(nonTerminals, productions) - s|
  {
    var u := Expand(s, nonTerminals, productions);
    if u != s {
      ExpandBounds(s, nonTerminals, productions);
      ExpandWithin(s, t, nonTerminals, productions);
      ProperSubsetShrinksRemainder(Predictions(nonTerminals, productions), s, u);
      SaturateLeast(u, t, nonTerminals, productions);
    }
  }

  /**
   * The closure contains its seed, is closed, and adds nothing but
   * dot-at-start items B -> .γ of productions of listed non-terminals.
   */
  lemma ClosureProperties(seed: Item, nonTerminals: seq<char>, productions: seq<Production>)
    ensures seed in Closure(seed, nonTerminals, productions)
    ensures Closed(Closure(seed, nonTerminals, productions), nonTerminals, productions)
    ensures Closure(seed, nonTerminals, productions) <= {seed} + Predictions(nonTerminals, productions)
  {
    SaturateProperties({seed}, nonTerminals, productions);
  }

  /** The closure is the least closed set containing the seed. */
  lemma ClosureIsLeast(seed: Item, t: set<Item>, nonTerminals: seq<char>, productions: seq<Production>)
    requires seed in t && Closed(t, nonTerminals, productions)
    ensures Closure(seed, nonTerminals, productions) <= t
  {
    SaturateLeast({seed}, t, nonTerminals, productions);
  }

  /** Re-closing any member of a closure adds nothing new. */
  lemma ClosureOfMember(seed: Item, x: Item, nonTerminals: seq<char>, productions: seq<Production>)
    requires x in Closure(seed, nonTerminals, productions)
    ensures Closure(x, nonTerminals, productions) <= Closure(seed, nonTerminals, productions)
  {
    ClosureProperties(seed, nonTerminals, productions);
    ClosureIsLeast(x, Closure(seed, nonTerminals, productions), nonTerminals, productions);
  }

  /**
   * The inner loop of computeClosure: adds B -> .γ for every production of
   * b that is not yet in the closure, pushing each new item on the stack.
   */
  method PushPredictions(b: char, productions: seq<Production>, closure: set<Item>, stack: seq<Item>)
    returns (closure': set<Item>, stack': seq<Item>)
    ensures closure' == closure + PredictionsOf(b, productions)
    ensures forall x :: x in stack' ==> x in stack || x in closure' - closure
    ensures forall x :: x in stack || x in closure' - closure ==> x in stack'
    ensures closure' == closure ==> stack' == stack
  {
    closure', stack' := closure, stack;
    for k := 0 to |productions|
      invariant closure' == closure + set j | 0 <= j < k && productions[j].0 == b :: Prediction(productions[j])
      invariant forall x :: x in stack' ==> x in stack || x in closure' - closure
      invariant forall x :: x in stack || x in closure' - closure ==> x in stack'
      invariant closure' == closure ==> stack' == stack
    {
      if productions[k].0 == b {
        var newItem := Item(b, [Dot] + productions[k].1);
        if newItem !in closure' {
          closure' := closure' + {newItem};
          stack' := stack' + [newItem];
        }
      }
    }
  }

  /** x's expansions are already in s. */
  ghost predicate ExpandedIn(x: Item, s: set<Item>, nonTerminals: seq<char>, productions: seq<Production>) {
    Expansions(x, nonTerminals, productions) <= s
  }

  /**
   * The body of computeClosure's loop for the popped item: when the symbol
   * after its dot is a listed non-terminal, push that symbol's predictions.
   */
  method ExpandItem(currentItem: Item, nonTerminals: seq<char>, productions: seq<Production>,
                    closure: set<Item>, stack: seq<Item>)
    returns (closure': set<Item>, stack': seq<Item>)
    ensures closure' == closure + Expansions(currentItem, nonTerminals, productions)
    ensures forall x :: x in stack' ==> x in stack || x in closure' - closure
    ensures forall x :: x in stack || x in closure' - closure ==> x in stack'
    ensures closure' == closure ==> stack' == stack
  {
    closure', stack' := closure, stack;
    var dotPosition := FindDot(currentItem.rhs);
    if dotPosition != -1 && dotPosition < |currentItem.rhs| - 1 {
      var nextSymbol := currentItem.rhs[dotPosition + 1];
      if nextSymbol in nonTerminals {
        closure', stack' := PushPredictions(nextSymbol, productions, closure, stack);
      }
    }
  }

  /**
   * The worklist invariant of computeClosure: the set stays inside the
   * closure, holds the seed and the stack, and every item already popped
   * has its expansions in the set.
   */
  ghost predicate Worklist(target: set<Item>, item: Item, closure: set<Item>, stack: seq<Item>,
                           nonTerminals: seq<char>, productions: seq<Production>)
  {
    item in closure && closure <= target &&
    (forall x :: x in stack ==> x in closure) &&
    (forall x :: x in closure && x !in stack ==> ExpandedIn(x, closure, nonTerminals, productions))
  }

  /** Popping the top item and pushing its new expansions keeps the invariant and shrinks the work left. */
  lemma WorklistStep(target: set<Item>, item: Item, before: set<Item>, oldStack: seq<Item>,
                     closure: set<Item>, stack: seq<Item>, nonTerminals: seq<char>, productions: seq<Production>)
    requires Closed(target, nonTerminals, productions)
    requires |oldStack| > 0 && Worklist(target, item, before, oldStack, nonTerminals, productions)
    requires closure == before + Expansions(oldStack[|oldStack| - 1], nonTerminals, productions)
    requires forall x :: x in stack ==> x in oldStack[..|oldStack| - 1] || x in closure - before
    requires forall x :: x in oldStack[..|oldStack| - 1] || x in closure - before ==> x in stack
    requires closure == before ==> stack == oldStack[..|oldStack| - 1]
    ensures Worklist(target, item, closure, stack, nonTerminals, productions)
    ensures |target - closure| < |target - before| || (closure == before && |stack| < |oldStack|)
  {
    var top := oldStack[|oldStack| - 1];
    assert top in before;
    forall x | x in closure && x !in stack
      ensures ExpandedIn(x, closure, nonTerminals, productions)
    {
      if x != top {
        assert oldStack == oldStack[..|oldStack| - 1] + [top];
        assert x in before && x !in oldStack;
      }
    }
    if closure != before {
      ProperSubsetShrinksRemainder(target, before, closure);
    }
  }

  /** computeClosure: a worklist that pushes an item only when it is new to the set. */
  method ComputeClosure(item: Item, nonTerminals: seq<char>, productions: seq<Production>)
    returns (closure: set<Item>)
    ensures item in closure && Closed(closure, nonTerminals, productions)
    ensures closure <= {item} + Predictions(nonTerminals, productions)
    ensures closure == Closure(item, nonTerminals, productions)
  {
    ghost var target := Closure(item, nonTerminals, productions);
    ClosureProperties(item, nonTerminals, productions);
    closure := {item};
    var stack := [item];
    while stack != []
      invariant Worklist(target, item, closure, stack, nonTerminals, productions)
      decreases |target - closure|, |stack|
    {
      var currentItem := stack[|stack| - 1];
      ghost var before, oldStack := closure, stack;
      stack := stack[..|stack| - 1];
      closure, stack := ExpandItem(currentItem, nonTerminals, productions, closure, stack);
      WorklistStep(target, item, before, oldStack, closure, stack, nonTerminals, productions);
    }
    ClosureIsLeast(item, closure, nonTerminals, productions);
  }

  /** The symbols that stand right after a dot somewhere in the set. */
  ghost function Symbols(items: set<Item>): set<char> {
    set x | x in items && NextSymbol(x).Some? :: NextSymbol(x).value
  }

  /** The items of the set with the dot moved past X. */
  ghost function Kernel(items: set<Item>, symbol: char): set<Item> {
    set x | x in items && NextSymbol(x) == Some(symbol) :: Advance(x)
  }

  lemma KernelNonEmpty(items: set<Item>, symbol: char)
    requires symbol in Symbols(items)
    ensures Kernel(items, symbol) != {}
  {
    var x :| x in items && NextSymbol(x).Some? && NextSymbol(x).value == symbol;
    assert Advance(x) in Kernel(items, symbol);
  }

  /**
   * computeGoto: the kernel plus the closure of its least item only.
   * Defined only when some item has the dot right before the symbol.
   */
  ghost function Goto(items: set<Item>, symbol: char, nonTerminals: seq<char>, productions: seq<Production>): set<Item>
    requires symbol in Symbols(items)
  {
    KernelNonEmpty(items, symbol);
    var kernel := Kernel(items, symbol);
    kernel + Closure(Least(kernel), nonTerminals, productions)
  }

  /**
   * Each kernel item comes from an item of the set whose dot stood before
   * the symbol: same lhs, same rhs length, the symbol now before the dot.
   */
  lemma KernelShape(items: set<Item>, symbol: char, y: Item)
    requires y in Kernel(items, symbol)
    ensures exists x :: x in items && NextSymbol(x) == Some(symbol) && y == Advance(x)
    ensures exists x :: x in items && y.lhs == x.lhs && |y.rhs| == |x.rhs| &&
              0 <= FindDot(x.rhs) < |x.rhs| - 1 && y.rhs[FindDot(x.rhs)] == symbol &&
              y.rhs[FindDot(x.rhs) + 1] == Dot
  {
    var x :| x in items && NextSymbol(x) == Some(symbol) && y == Advance(x);
  }

  /** The goto set holds the kernel and otherwise only dot-at-start items. */
  lemma GotoBounds(items: set<Item>, symbol: char, nonTerminals: seq<char>, productions: seq<Production>)
    requires symbol in Symbols(items)
    ensures Kernel(items, symbol) <= Goto(items, symbol, nonTerminals, productions)
    ensures Goto(items, symbol, nonTerminals, productions) <=
              Kernel(items, symbol) + Predictions(nonTerminals, productions)
  {
    KernelNonEmpty(items, symbol);
    var kernel := Kernel(items, symbol);
    ClosureProperties(Least(kernel), nonTerminals, productions);
  }

  lemma KernelUnion(s: set<Item>, x: Item, symbol: char)
    ensures Kernel(s + {x}, symbol) == Kernel(s, symbol) + Kernel({x}, symbol)
  {
  }

  /** The first loop of computeGoto: advance every item whose dot stands before the symbol. */
  method AdvanceAll(items: set<Item>, symbol: char) returns (kernel: set<Item>)
    ensures kernel == Kernel(items, symbol)
  {
    kernel := {};
    var rest := items;
    while rest != {}
      invariant rest <= items
      invariant kernel == Kernel(items - rest, symbol)
      decreases rest
    {
      var item :| item in rest;
      var dotPosition := FindDot(item.rhs);
      if dotPosition != -1 && dotPosition < |item.rhs| - 1 && item.rhs[dotPosition + 1] == symbol {
        var newItem := Item(item.lhs, item.rhs[dotPosition := symbol][dotPosition + 1 := Dot]);
        assert newItem == Advance(item);
        kernel := kernel + {newItem};
      }
      KernelUnion(items - rest, item, symbol);
      assert items - (rest - {item}) == (items - rest) + {item};
      rest := rest - {item};
    }
    assert items - rest == items;
  }

  /** computeGoto: move the dot past the symbol, then close the least kernel item. */
  method ComputeGoto(items: set<Item>, symbol: char, nonTerminals: seq<char>, productions: seq<Production>)
    returns (goToSet: set<Item>)
    requires symbol in Symbols(items)
    ensures Kernel(items, symbol) <= goToSet
    ensures goToSet == Goto(items, symbol, nonTerminals, productions)
  {
    goToSet := AdvanceAll(items, symbol);
    KernelNonEmpty(items, symbol);
    var least := FindLeast(goToSet);
    var closure := ComputeClosure(least, nonTerminals, productions);
    ghost var kernel := goToSet;
    var pending := closure;
    while pending != {}
      invariant pending <= closure
      invariant goToSet == kernel + (closure - pending)
      decreases pending
    {
      var item :| item in pending;
      goToSet := goToSet + {item};
      pending := pending - {item};
    }
  }
}
