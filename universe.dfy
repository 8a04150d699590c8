/**
 * The finite space every LR(0) state of a grammar lives in. Closure only
 * adds B -> .γ items of existing productions and goto only swaps the dot
 * with its neighbour, so every item of every state has a known left-hand
 * side, a bounded length and characters from a known alphabet. The states
 * are therefore subsets of one finite set of items, and a collection of
 * pairwise different states can hold no more of them than that set has
 * subsets. This bounds the growth of the canonical collection.
 */
module Universe {
  import opened Grammar
  import opened Items
  import opened ClosureGoto

  /** The characters of the right-hand sides, and the dot. */
  ghost function Alphabet(productions: seq<Production>): set<char> {
    {Dot} + set i, k | 0 <= i < |productions| && 0 <= k < |productions[i].1| :: productions[i].1[k]
  }

  /** One more than the longest right-hand side: room for the dot. */
  function MaxLength(productions: seq<Production>): (n: nat)
    ensures n >= 1
    ensures forall i :: 0 <= i < |productions| ==> |productions[i].1| + 1 <= n
  {
    if |productions| == 0 then 1
    else
      var n := MaxLength(productions[..|productions| - 1]);
      var m := |productions[|productions| - 1].1| + 1;
      if m > n then m else n
  }

  /** An item whose left-hand side, length and characters fit the grammar. */
  ghost predicate InSpace(x: Item, start: char, productions: seq<Production>) {
    (x.lhs == start || x.lhs in LhsSymbols(productions)) &&
    |x.rhs| <= MaxLength(productions) &&
    forall k :: 0 <= k < |x.rhs| ==> x.rhs[k] in Alphabet(productions)
  }

  ghost predicate SetInSpace(s: set<Item>, start: char, productions: seq<Production>) {
    forall x :: x in s ==> InSpace(x, start, productions)
  }

  /** Every string of length at most n over the alphabet. */
  ghost function Strings(alphabet: set<char>, n: nat): (r: set<string>)
    ensures forall s :: |s| <= n && (forall k :: 0 <= k < |s| ==> s[k] in alphabet) ==> s in r
  {
    if n == 0 then {[]}
    else
      var shorter := Strings(alphabet, n - 1);
      var r := {[]} + set c, s | c in alphabet && s in shorter :: [c] + s;
      assert forall s :: |s| <= n && (forall k :: 0 <= k < |s| ==> s[k] in alphabet) ==> s in r by {
        forall s | |s| <= n && (forall k :: 0 <= k < |s| ==> s[k] in alphabet)
          ensures s in r
        {
          if s != [] {
            assert s[1..] in shorter by {
              forall k | 0 <= k < |s[1..]|
                ensures s[1..][k] in alphabet
              {
                assert s[1..][k] == s[k + 1];
              }
            }
            assert s == [s[0]] + s[1..];
          }
        }
      }
      r
  }

  /** The items of the space, as a finite set. */
  ghost function Space(start: char, productions: seq<Production>): (r: set<Item>)
    ensures forall x :: InSpace(x, start, productions) ==> x in r
  {
    var strings := Strings(Alphabet(productions), MaxLength(productions));
    set l, s | l in {start} + LhsSymbols(productions) && s in strings :: Item(l, s)
  }

  /** Every subset of u. */
  ghost function Subsets(u: set<Item>): (r: set<set<Item>>)
    ensures forall s :: s <= u ==> s in r
    decreases u
  {
    if u == {} then
      assert forall s: set<Item> :: s <= u ==> s == {};
      {{}}
    else
      var x :| x in u;
      var smaller := Subsets(u - {x});
      var r := smaller + set s | s in smaller :: s + {x};
      assert forall s :: s <= u ==> s in r by {
        forall s | s <= u
          ensures s in r
        {
          if x in s {
            assert s - {x} in smaller;
            assert s == (s - {x}) + {x};
          }
        }
      }
      r
  }

  /** The number of subsets of the space: an upper bound on the number of different states. */
  ghost function StateBound(start: char, productions: seq<Production>): nat {
    |Subsets(Space(start, productions))|
  }

  ghost predicate Distinct(states: seq<set<Item>>) {
    forall a, b :: 0 <= a < b < |states| ==> states[a] != states[b]
  }

  lemma {:induction false} DistinctCardinality(states: seq<set<Item>>)
    requires Distinct(states)
    ensures |set a | 0 <= a < |states| :: states[a]| == |states|
  {
    if |states| > 0 {
      var front := states[..|states| - 1];
      DistinctCardinality(front);
      var last := states[|states| - 1];
      assert (set a | 0 <= a < |states| :: states[a]) == (set a | 0 <= a < |front| :: front[a]) + {last};
      assert last !in (set a | 0 <= a < |front| :: front[a]);
    }
  }

  /** Pairwise different states of the space are no more than the space has subsets. */
  lemma DistinctStatesBounded(states: seq<set<Item>>, start: char, productions: seq<Production>)
    requires Distinct(states)
    requires forall a :: 0 <= a < |states| ==> SetInSpace(states[a], start, productions)
    ensures |states| <= StateBound(start, productions)
  {
    var u := Space(start, productions);
    var elements := set a | 0 <= a < |states| :: states[a];
    DistinctCardinality(states);
    forall s | s in elements
      ensures s in Subsets(u)
    {
      var a :| 0 <= a < |states| && states[a] == s;
      assert s <= u;
    }
    SubsetCardinality(elements, Subsets(u));
  }

  /** The seed item and every prediction lie in the space. */
  lemma PredictionsInSpace(start: char, nonTerminals: seq<char>, productions: seq<Production>)
    requires |productions| > 0
    ensures InSpace(Item(start, [Dot] + productions[0].1), start, productions)
    ensures SetInSpace(Predictions(nonTerminals, productions), start, productions)
  {
    forall x | x in Predictions(nonTerminals, productions)
      ensures InSpace(x, start, productions)
    {
      var i :| 0 <= i < |productions| && productions[i].0 in nonTerminals && x == Prediction(productions[i]);
      forall k | 0 <= k < |x.rhs|
        ensures x.rhs[k] in Alphabet(productions)
      {
        if k > 0 {
          assert x.rhs[k] == productions[i].1[k - 1];
        }
      }
    }
    var seed := Item(start, [Dot] + productions[0].1);
    forall k | 0 <= k < |seed.rhs|
      ensures seed.rhs[k] in Alphabet(productions)
    {
      if k > 0 {
        assert seed.rhs[k] == productions[0].1[k - 1];
      }
    }
  }

  /** The closure of an item of the space stays in the space. */
  lemma ClosureInSpace(seed: Item, start: char, nonTerminals: seq<char>, productions: seq<Production>)
    requires |productions| > 0 && InSpace(seed, start, productions)
    ensures SetInSpace(Closure(seed, nonTerminals, productions), start, productions)
  {
    ClosureProperties(seed, nonTerminals, productions);
    PredictionsInSpace(start, nonTerminals, productions);
  }

  /** Goto from a state of the space stays in the space. */
  lemma GotoInSpace(items: set<Item>, symbol: char, start: char, nonTerminals: seq<char>, productions: seq<Production>)
    requires |productions| > 0 && symbol in Symbols(items) && SetInSpace(items, start, productions)
    ensures SetInSpace(Goto(items, symbol, nonTerminals, productions), start, productions)
  {
    var kernel := Kernel(items, symbol);
    forall y | y in kernel
      ensures InSpace(y, start, productions)
    {
      var x :| x in items && NextSymbol(x) == Some(symbol) && y == Advance(x);
      forall k | 0 <= k < |y.rhs|
        ensures y.rhs[k] in Alphabet(productions)
      {
        AdvanceKeepsCharacters(x, k);
      }
    }
    KernelNonEmpty(items, symbol);
    ClosureInSpace(Least(kernel), start, nonTerminals, productions);
  }
}
