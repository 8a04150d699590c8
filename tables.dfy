/**
 * The SLR(1) action and goto tables. Each item of each state writes into
 * one of the two tables: an item with a symbol after its dot writes Shift
 * (terminal) or a goto entry (anything else), a completed item writes
 * Reduce under every symbol of its left-hand side's FOLLOW set, and the
 * completed augmented item writes Accept under '$'. The items of a state
 * are visited in ascending item order and a later write to a cell replaces
 * an earlier one, so where items disagree the greatest of them decides;
 * conflicts are not reported.
 */
module Tables {
  import opened Grammar
  import opened Items
  import opened ClosureGoto
  import opened Collection

  /** A cell of the action table: the strings "Shift n", "Reduce k" and "Accept". */
  datatype Action = Shift(state: int) | Reduce(production: int) | Accept

  type ActionTable = map<(int, char), Action>
  type GotoTable = map<(int, char), int>

  /** What table construction reads: the states, the grammar and the FOLLOW sets. */
  datatype Inputs = Inputs(states: seq<set<Item>>, terminals: seq<char>, nonTerminals: seq<char>,
                           productions: seq<Production>, followSets: map<char, set<char>>)

  /** substr(0, length() - 1): the string without its last character; the empty string stays empty. */
  function DropLast(s: string): (r: string)
    ensures |s| > 0 ==> r + [s[|s| - 1]] == s
    ensures |s| == 0 ==> r == s
  {
    if |s| == 0 then s else s[..|s| - 1]
  }

  /** t' is t with the entries of m written into row i. */
  ghost predicate Written<T>(t: map<(int, char), T>, t': map<(int, char), T>, i: int, m: map<char, T>) {
    (forall k: (int, char) :: k in t' <==> k in t || (k.0 == i && k.1 in m)) &&
    (forall c :: c in m ==> (i, c) in t' && t'[(i, c)] == m[c]) &&
    (forall k: (int, char) :: k in t && !(k.0 == i && k.1 in m) ==> t'[k] == t[k])
  }

  /** What item x of state i writes into row i of the action table. */
  ghost function ItemActions(g: Inputs, i: nat, x: Item): map<char, Action>
    requires i < |g.states| && x in g.states[i] && |g.productions| > 0
  {
    match NextSymbol(x)
    case Some(symbol) =>
      if symbol in g.terminals then
        assert symbol in Symbols(g.states[i]);
        map[symbol := Shift(IndexOf(g.states, Goto(g.states[i], symbol, g.nonTerminals, g.productions)))]
      else
        map[]
    case None =>
      if x.lhs != AugmentedStart then
        if x.lhs in g.followSets then
          var k := IndexOf(g.productions, (x.lhs, DropLast(x.rhs)));
          map f | f in g.followSets[x.lhs] :: Reduce(k)
        else
          map[]
      else if x.rhs == g.productions[0].1 + [Dot] then
        map[EndMarker := Accept]
      else
        map[]
  }

  /** What item x of state i writes into row i of the goto table. */
  ghost function ItemGotos(g: Inputs, i: nat, x: Item): map<char, int>
    requires i < |g.states| && x in g.states[i] && |g.productions| > 0
  {
    match NextSymbol(x)
    case Some(symbol) =>
      if symbol !in g.terminals then
        assert symbol in Symbols(g.states[i]);
        map[symbol := IndexOf(g.states, Goto(g.states[i], symbol, g.nonTerminals, g.productions))]
      else
        map[]
    case None => map[]
  }

  /** x is the greatest item of done that writes cell c of row i. */
  ghost predicate LastWriter(g: Inputs, i: nat, done: set<Item>, x: Item, c: char)
    requires i < |g.states| && done <= g.states[i] && |g.productions| > 0
  {
    x in done && c in ItemActions(g, i, x) &&
    forall y :: y in done && ItemLess(x, y) ==> c !in ItemActions(g, i, y)
  }

  /**
   * Row i of the action table once the items of done have written: a cell
   * is present exactly when some item writes it, and holds what the
   * greatest such item wrote.
   */
  ghost predicate ActionRow(g: Inputs, table: ActionTable, i: nat, done: set<Item>)
    requires i < |g.states| && done <= g.states[i] && |g.productions| > 0
  {
    (forall c :: (i, c) in table <==> exists x :: x in done && c in ItemActions(g, i, x)) &&
    (forall c :: (i, c) in table ==>
       exists x :: LastWriter(g, i, done, x, c) && table[(i, c)] == ItemActions(g, i, x)[c])
  }

  /**
   * Row i of the goto table once the items of done have written: a cell is
   * present exactly when some item writes it, and holds the number of goto
   * of the state on that symbol.
   */
  ghost predicate GotoRow(g: Inputs, table: GotoTable, i: nat, done: set<Item>)
    requires i < |g.states| && done <= g.states[i] && |g.productions| > 0
  {
    (forall c :: (i, c) in table <==> exists x :: x in done && c in ItemGotos(g, i, x)) &&
    (forall c :: (i, c) in table ==>
       c in Symbols(g.states[i]) && table[(i, c)] == IndexOf(g.states, Goto(g.states[i], c, g.nonTerminals, g.productions)))
  }

  /** The finished tables: every row written by all items of its state, and no other rows. */
  ghost predicate TablesOf(g: Inputs, parsingTable: ActionTable, gotoTable: GotoTable)
    requires |g.productions| > 0
  {
    (forall k :: k in parsingTable ==> 0 <= k.0 < |g.states|) &&
    (forall k :: k in gotoTable ==> 0 <= k.0 < |g.states|) &&
    (forall i :: 0 <= i < |g.states| ==>
       ActionRow(g, parsingTable, i, g.states[i]) && GotoRow(g, gotoTable, i, g.states[i]))
  }

  /** The range-for over one FOLLOW set: the same action written under every symbol of it. */
  method WriteAll(table: ActionTable, i: int, cells: set<char>, action: Action) returns (table': ActionTable)
    ensures Written(table, table', i, map c | c in cells :: action)
  {
    table' := table;
    var rest := cells;
    while rest != {}
      invariant rest <= cells
      invariant Written(table, table', i, map c | c in cells - rest :: action)
      decreases rest
    {
      var c :| c in rest;
      table' := table'[(i, c) := action];
      rest := rest - {c};
    }
    assert cells - rest == cells;
  }

  /** Writing one cell. */
  lemma WrittenOne<T>(t: map<(int, char), T>, i: int, c: char, v: T)
    ensures Written(t, t[(i, c) := v], i, map[c := v])
  {
  }

  /** Writing nothing. */
  lemma WrittenNone<T>(t: map<(int, char), T>, i: int)
    ensures Written(t, t, i, map[])
  {
  }

  /** The body of the item loop: the writes of one item of state i. */
  method WriteItem(g: Inputs, i: nat, item: Item, parsingTable: ActionTable, gotoTable: GotoTable)
    returns (parsingTable': ActionTable, gotoTable': GotoTable)
    requires i < |g.states| && item in g.states[i] && |g.productions| > 0
    ensures Written(parsingTable, parsingTable', i, ItemActions(g, i, item))
    ensures Written(gotoTable, gotoTable', i, ItemGotos(g, i, item))
  {
    parsingTable', gotoTable' := parsingTable, gotoTable;
    var itemSet := g.states[i];
    var dotPosition := FindDot(item.rhs);
    if dotPosition != -1 && dotPosition < |item.rhs| - 1 {
      var symbol := item.rhs[dotPosition + 1];
      assert NextSymbol(item) == Some(symbol);
      assert symbol in Symbols(itemSet);
      var goToSet := ComputeGoto(itemSet, symbol, g.nonTerminals, g.productions);
      var nextState := IndexOf(g.states, goToSet);
      if symbol in g.terminals {
        parsingTable' := parsingTable[(i, symbol) := Shift(nextState)];
        assert ItemActions(g, i, item) == map[symbol := Shift(nextState)] && ItemGotos(g, i, item) == map[];
        WrittenOne(parsingTable, i, symbol, Shift(nextState));
        WrittenNone(gotoTable, i);
      } else {
        gotoTable' := gotoTable[(i, symbol) := nextState];
        assert ItemActions(g, i, item) == map[] && ItemGotos(g, i, item) == map[symbol := nextState];
        WrittenNone(parsingTable, i);
        WrittenOne(gotoTable, i, symbol, nextState);
      }
    } else {
      assert NextSymbol(item).None? && ItemGotos(g, i, item) == map[];
      WrittenNone(gotoTable, i);
      if item.lhs != AugmentedStart {
        var productionIndex := IndexOf(g.productions, (item.lhs, DropLast(item.rhs)));
        if item.lhs in g.followSets {
          parsingTable' := WriteAll(parsingTable, i, g.followSets[item.lhs], Reduce(productionIndex));
        } else {
          WrittenNone(parsingTable, i);
        }
      } else if item.rhs == g.productions[0].1 + [Dot] {
        parsingTable' := parsingTable[(i, EndMarker) := Accept];
        WrittenOne(parsingTable, i, EndMarker, Accept);
      } else {
        WrittenNone(parsingTable, i);
      }
    }
  }

  /** Writing one more item keeps "a cell is present exactly when some item writes it". */
  lemma ActionKeysStep(g: Inputs, table: ActionTable, table': ActionTable, i: nat, done: set<Item>, item: Item)
    requires i < |g.states| && done <= g.states[i] && item in g.states[i] && |g.productions| > 0
    requires forall c :: (i, c) in table <==> exists x :: x in done && c in ItemActions(g, i, x)
    requires Written(table, table', i, ItemActions(g, i, item))
    ensures forall c :: (i, c) in table' <==> exists x :: x in done + {item} && c in ItemActions(g, i, x)
  {
    forall c
      ensures (i, c) in table' <==> exists x :: x in done + {item} && c in ItemActions(g, i, x)
    {
      if c in ItemActions(g, i, item) {
        assert item in done + {item};
      } else if exists x :: x in done + {item} && c in ItemActions(g, i, x) {
        var x :| x in done + {item} && c in ItemActions(g, i, x);
        assert x in done;
      }
    }
  }

  /** Writing one more item, greater than all written ones, keeps "a cell holds its last writer's action". */
  lemma ActionValuesStep(g: Inputs, table: ActionTable, table': ActionTable, i: nat, done: set<Item>, item: Item)
    requires i < |g.states| && done <= g.states[i] && item in g.states[i] && |g.productions| > 0
    requires forall y :: y in done ==> ItemLess(y, item)
    requires forall c :: (i, c) in table ==>
               exists x :: LastWriter(g, i, done, x, c) && table[(i, c)] == ItemActions(g, i, x)[c]
    requires Written(table, table', i, ItemActions(g, i, item))
    ensures forall c :: (i, c) in table' ==>
              exists x :: LastWriter(g, i, done + {item}, x, c) && table'[(i, c)] == ItemActions(g, i, x)[c]
  {
    var done' := done + {item};
    forall y | y in done'
      ensures !ItemLess(item, y)
    {
      ItemLessIsStrictTotalOrder(item, y, y);
      ItemLessAsymmetric(y, item);
    }
    forall c | (i, c) in table'
      ensures exists x :: LastWriter(g, i, done', x, c) && table'[(i, c)] == ItemActions(g, i, x)[c]
    {
      if c in ItemActions(g, i, item) {
        assert LastWriter(g, i, done', item, c);
      } else {
        assert (i, c) in table;
        var x :| LastWriter(g, i, done, x, c) && table[(i, c)] == ItemActions(g, i, x)[c];
        assert LastWriter(g, i, done', x, c);
      }
    }
  }

  /** Writing one more item, greater than all written ones, keeps the action row's description. */
  lemma ActionRowStep(g: Inputs, table: ActionTable, table': ActionTable, i: nat, done: set<Item>, item: Item)
    requires i < |g.states| && done <= g.states[i] && item in g.states[i] && |g.productions| > 0
    requires forall y :: y in done ==> ItemLess(y, item)
    requires ActionRow(g, table, i, done)
    requires Written(table, table', i, ItemActions(g, i, item))
    ensures ActionRow(g, table', i, done + {item})
  {
    ActionKeysStep(g, table, table', i, done, item);
    ActionValuesStep(g, table, table', i, done, item);
  }

  /** Writing one more item keeps "a goto cell is present exactly when some item writes it". */
  lemma GotoKeysStep(g: Inputs, table: GotoTable, table': GotoTable, i: nat, done: set<Item>, item: Item)
    requires i < |g.states| && done <= g.states[i] && item in g.states[i] && |g.productions| > 0
    requires forall c :: (i, c) in table <==> exists x :: x in done && c in ItemGotos(g, i, x)
    requires Written(table, table', i, ItemGotos(g, i, item))
    ensures forall c :: (i, c) in table' <==> exists x :: x in done + {item} && c in ItemGotos(g, i, x)
  {
    forall c
      ensures (i, c) in table' <==> exists x :: x in done + {item} && c in ItemGotos(g, i, x)
    {
      if c in ItemGotos(g, i, item) {
        assert item in done + {item};
      } else if exists x :: x in done + {item} && c in ItemGotos(g, i, x) {
        var x :| x in done + {item} && c in ItemGotos(g, i, x);
        assert x in done;
      }
    }
  }

  /** Writing one more item keeps the goto row's description. */
  lemma GotoRowStep(g: Inputs, table: GotoTable, table': GotoTable, i: nat, done: set<Item>, item: Item)
    requires i < |g.states| && done <= g.states[i] && item in g.states[i] && |g.productions| > 0
    requires GotoRow(g, table, i, done)
    requires Written(table, table', i, ItemGotos(g, i, item))
    ensures GotoRow(g, table', i, done + {item})
  {
    GotoKeysStep(g, table, table', i, done, item);
    var w := ItemGotos(g, i, item);
    forall c | (i, c) in table'
      ensures c in Symbols(g.states[i]) &&
              table'[(i, c)] == IndexOf(g.states, Goto(g.states[i], c, g.nonTerminals, g.productions))
    {
      if c !in w {
        assert (i, c) in table;
      }
    }
  }

  /** t and t' hold the same cells in every row but row i. */
  ghost predicate AgreeOutside<T>(t: map<(int, char), T>, t': map<(int, char), T>, i: int) {
    (forall k: (int, char) :: k.0 != i ==> (k in t' <==> k in t)) &&
    (forall k: (int, char) :: k in t && k.0 != i ==> t'[k] == t[k])
  }

  /**
   * The state of the item loop over row i: the items not in rest are
   * written, each of them less than every item of rest, and the other rows
   * are as they were.
   */
  ghost predicate Filling(g: Inputs, i: nat, rest: set<Item>, parsingTable: ActionTable, gotoTable: GotoTable,
                          parsingTable': ActionTable, gotoTable': GotoTable)
    requires i < |g.states| && |g.productions| > 0
  {
    rest <= g.states[i] &&
    (forall x, y :: x in g.states[i] - rest && y in rest ==> ItemLess(x, y)) &&
    ActionRow(g, parsingTable', i, g.states[i] - rest) && GotoRow(g, gotoTable', i, g.states[i] - rest) &&
    AgreeOutside(parsingTable, parsingTable', i) && AgreeOutside(gotoTable, gotoTable', i)
  }

  /** A write into row i followed by others outside it leaves the other rows as they were. */
  lemma WrittenAgrees<T>(t0: map<(int, char), T>, t: map<(int, char), T>, t': map<(int, char), T>, i: int, m: map<char, T>)
    requires AgreeOutside(t0, t, i) && Written(t, t', i, m)
    ensures AgreeOutside(t0, t', i)
  {
  }

  /** Writing the least item of rest moves it from rest to the written items. */
  lemma FillingStep(g: Inputs, i: nat, rest: set<Item>, item: Item,
                    parsingTable: ActionTable, gotoTable: GotoTable,
                    before: ActionTable, gotoBefore: GotoTable, after: ActionTable, gotoAfter: GotoTable)
    requires i < |g.states| && |g.productions| > 0
    requires Filling(g, i, rest, parsingTable, gotoTable, before, gotoBefore)
    requires item in rest && forall y :: y in rest && y != item ==> ItemLess(item, y)
    requires Written(before, after, i, ItemActions(g, i, item))
    requires Written(gotoBefore, gotoAfter, i, ItemGotos(g, i, item))
    ensures Filling(g, i, rest - {item}, parsingTable, gotoTable, after, gotoAfter)
  {
    var done := g.states[i] - rest;
    ActionRowStep(g, before, after, i, done, item);
    GotoRowStep(g, gotoBefore, gotoAfter, i, done, item);
    assert g.states[i] - (rest - {item}) == done + {item};
    WrittenAgrees(parsingTable, before, after, i, ItemActions(g, i, item));
    WrittenAgrees(gotoTable, gotoBefore, gotoAfter, i, ItemGotos(g, i, item));
  }

  /** Row i of the tables, written item by item in ascending order; the other rows are left alone. */
  method FillRow(g: Inputs, i: nat, parsingTable: ActionTable, gotoTable: GotoTable)
    returns (parsingTable': ActionTable, gotoTable': GotoTable)
    requires i < |g.states| && |g.productions| > 0
    requires forall k :: k in parsingTable ==> k.0 != i
    requires forall k :: k in gotoTable ==> k.0 != i
    ensures ActionRow(g, parsingTable', i, g.states[i]) && GotoRow(g, gotoTable', i, g.states[i])
    ensures AgreeOutside(parsingTable, parsingTable', i)
    ensures AgreeOutside(gotoTable, gotoTable', i)
  {
    parsingTable', gotoTable' := parsingTable, gotoTable;
    var itemSet := g.states[i];
    var rest := itemSet;
    assert itemSet - rest == {};
    while rest != {}
      invariant Filling(g, i, rest, parsingTable, gotoTable, parsingTable', gotoTable')
      decreases rest
    {
      var item := FindLeast(rest);
      ghost var before, gotoBefore := parsingTable', gotoTable';
      parsingTable', gotoTable' := WriteItem(g, i, item, parsingTable', gotoTable');
      FillingStep(g, i, rest, item, parsingTable, gotoTable, before, gotoBefore, parsingTable', gotoTable');
      rest := rest - {item};
    }
    assert itemSet - rest == itemSet;
  }

  /** A row description depends on that row's cells only. */
  lemma RowsKept(g: Inputs, parsingTable: ActionTable, gotoTable: GotoTable,
                 parsingTable': ActionTable, gotoTable': GotoTable, i: nat, j: nat)
    requires i < |g.states| && j < |g.states| && j != i && |g.productions| > 0
    requires ActionRow(g, parsingTable, j, g.states[j]) && GotoRow(g, gotoTable, j, g.states[j])
    requires AgreeOutside(parsingTable, parsingTable', i)
    requires AgreeOutside(gotoTable, gotoTable', i)
    ensures ActionRow(g, parsingTable', j, g.states[j]) && GotoRow(g, gotoTable', j, g.states[j])
  {
    forall c | (j, c) in parsingTable'
      ensures exists x :: LastWriter(g, j, g.states[j], x, c) && parsingTable'[(j, c)] == ItemActions(g, j, x)[c]
    {
      assert (j, c) in parsingTable;
    }
  }

  /**
   * The table loop of computeCanonicalCollection: starting from empty
   * tables, each state's row is written by its items in ascending order.
   */
  method BuildTables(states: seq<set<Item>>, terminals: seq<char>, nonTerminals: seq<char>,
                     productions: seq<Production>, followSets: map<char, set<char>>)
    returns (parsingTable: ActionTable, gotoTable: GotoTable)
    requires |productions| > 0
    ensures TablesOf(Inputs(states, terminals, nonTerminals, productions, followSets), parsingTable, gotoTable)
  {
    var g := Inputs(states, terminals, nonTerminals, productions, followSets);
    parsingTable, gotoTable := map[], map[];
    for i := 0 to |states|
      invariant forall k :: k in parsingTable ==> 0 <= k.0 < i
      invariant forall k :: k in gotoTable ==> 0 <= k.0 < i
      invariant forall j :: 0 <= j < i ==> ActionRow(g, parsingTable, j, states[j]) && GotoRow(g, gotoTable, j, states[j])
    {
      var parsingTable', gotoTable' := FillRow(g, i, parsingTable, gotoTable);
      forall j | 0 <= j < i
        ensures ActionRow(g, parsingTable', j, states[j]) && GotoRow(g, gotoTable', j, states[j])
      {
        RowsKept(g, parsingTable, gotoTable, parsingTable', gotoTable', i, j);
      }
      parsingTable, gotoTable := parsingTable', gotoTable';
    }
  }

  /** Goto cells exist exactly for the symbols after a dot that are not terminals, and name the goto state. */
  lemma GotoEntries(g: Inputs, parsingTable: ActionTable, gotoTable: GotoTable, i: int, symbol: char)
    requires |g.productions| > 0 && TablesOf(g, parsingTable, gotoTable)
    requires GotoClosed(g.states, |g.states|, g.nonTerminals, g.productions)
    ensures (i, symbol) in gotoTable <==>
              0 <= i < |g.states| && symbol in Symbols(g.states[i]) && symbol !in g.terminals
    ensures (i, symbol) in gotoTable ==>
              0 <= gotoTable[(i, symbol)] < |g.states| &&
              g.states[gotoTable[(i, symbol)]] == Goto(g.states[i], symbol, g.nonTerminals, g.productions)
  {
    if 0 <= i < |g.states| {
      assert GotoRow(g, gotoTable, i, g.states[i]);
      if symbol in Symbols(g.states[i]) && symbol !in g.terminals {
        var x :| x in g.states[i] && NextSymbol(x).Some? && NextSymbol(x).value == symbol;
        assert symbol in ItemGotos(g, i, x);
      }
      if (i, symbol) in gotoTable {
        var x :| x in g.states[i] && symbol in ItemGotos(g, i, x);
        assert symbol !in g.terminals;
      }
    }
  }

  /** A cell of the action table lies in a row of a state, and that row is described by ActionRow. */
  lemma RowOfCell(g: Inputs, parsingTable: ActionTable, gotoTable: GotoTable, i: int, symbol: char)
    requires |g.productions| > 0 && TablesOf(g, parsingTable, gotoTable)
    requires (i, symbol) in parsingTable
    ensures 0 <= i < |g.states| && ActionRow(g, parsingTable, i, g.states[i])
  {
  }

  /** A cell of the action table holds what some item of its state wrote there. */
  lemma CellWriter(g: Inputs, parsingTable: ActionTable, gotoTable: GotoTable, i: int, symbol: char)
    returns (x: Item)
    requires |g.productions| > 0 && TablesOf(g, parsingTable, gotoTable)
    requires (i, symbol) in parsingTable
    ensures 0 <= i < |g.states| && x in g.states[i] && symbol in ItemActions(g, i, x)
    ensures parsingTable[(i, symbol)] == ItemActions(g, i, x)[symbol]
  {
    RowOfCell(g, parsingTable, gotoTable, i, symbol);
    x := WriterInRow(g, parsingTable, i, symbol);
  }

  /** Within a described row, a cell holds what its last writer wrote. */
  lemma WriterInRow(g: Inputs, parsingTable: ActionTable, i: nat, symbol: char) returns (x: Item)
    requires |g.productions| > 0 && i < |g.states| && ActionRow(g, parsingTable, i, g.states[i])
    requires (i, symbol) in parsingTable
    ensures x in g.states[i] && symbol in ItemActions(g, i, x)
    ensures parsingTable[(i, symbol)] == ItemActions(g, i, x)[symbol]
  {
    x :| LastWriter(g, i, g.states[i], x, symbol) && parsingTable[(i, symbol)] == ItemActions(g, i, x)[symbol];
  }

  /** The three kinds of write an item makes, and when it makes each. */
  lemma ItemActionCases(g: Inputs, i: nat, x: Item, symbol: char)
    requires i < |g.states| && x in g.states[i] && |g.productions| > 0
    requires symbol in ItemActions(g, i, x)
    ensures ItemActions(g, i, x)[symbol].Shift? ==>
              NextSymbol(x) == Some(symbol) && symbol in g.terminals && symbol in Symbols(g.states[i]) &&
              ItemActions(g, i, x)[symbol].state == IndexOf(g.states, Goto(g.states[i], symbol, g.nonTerminals, g.productions))
    ensures ItemActions(g, i, x)[symbol].Reduce? ==>
              NextSymbol(x).None? && x.lhs != AugmentedStart && x.lhs in g.followSets && symbol in g.followSets[x.lhs] &&
              ItemActions(g, i, x)[symbol].production == IndexOf(g.productions, (x.lhs, DropLast(x.rhs)))
    ensures ItemActions(g, i, x)[symbol].Accept? ==>
              NextSymbol(x).None? && x == Item(AugmentedStart, g.productions[0].1 + [Dot]) && symbol == EndMarker
  {
  }

  /** A Shift cell is on a terminal after a dot, and names the goto state of that terminal. */
  lemma ShiftEntries(g: Inputs, parsingTable: ActionTable, gotoTable: GotoTable, i: int, symbol: char)
    requires |g.productions| > 0 && TablesOf(g, parsingTable, gotoTable)
    requires GotoClosed(g.states, |g.states|, g.nonTerminals, g.productions)
    requires (i, symbol) in parsingTable && parsingTable[(i, symbol)].Shift?
    ensures 0 <= i < |g.states| && symbol in g.terminals && symbol in Symbols(g.states[i])
    ensures 0 <= parsingTable[(i, symbol)].state < |g.states|
    ensures g.states[parsingTable[(i, symbol)].state] == Goto(g.states[i], symbol, g.nonTerminals, g.productions)
  {
    var x := CellWriter(g, parsingTable, gotoTable, i, symbol);
    ItemActionCases(g, i, x, symbol);
  }

  /** A Reduce cell is under a FOLLOW symbol of a completed item and names that item's production. */
  lemma ReduceEntries(g: Inputs, parsingTable: ActionTable, gotoTable: GotoTable, i: int, symbol: char)
    requires |g.productions| > 0 && TablesOf(g, parsingTable, gotoTable)
    requires (i, symbol) in parsingTable && parsingTable[(i, symbol)].Reduce?
    ensures 0 <= i < |g.states|
    ensures exists x :: x in g.states[i] && NextSymbol(x).None? && x.lhs != AugmentedStart &&
              x.lhs in g.followSets && symbol in g.followSets[x.lhs] &&
              parsingTable[(i, symbol)].production == IndexOf(g.productions, (x.lhs, DropLast(x.rhs)))
  {
    var x := CellWriter(g, parsingTable, gotoTable, i, symbol);
    ItemActionCases(g, i, x, symbol);
  }

  /** Accept is only ever written under '$', in a state holding the completed augmented item. */
  lemma AcceptEntries(g: Inputs, parsingTable: ActionTable, gotoTable: GotoTable, i: int, symbol: char)
    requires |g.productions| > 0 && TablesOf(g, parsingTable, gotoTable)
    requires (i, symbol) in parsingTable && parsingTable[(i, symbol)] == Accept
    ensures 0 <= i < |g.states| && symbol == EndMarker
    ensures Item(AugmentedStart, g.productions[0].1 + [Dot]) in g.states[i]
  {
    var x := CellWriter(g, parsingTable, gotoTable, i, symbol);
    ItemActionCases(g, i, x, symbol);
  }

  /**
   * The cells of the action table: a terminal after a dot, a FOLLOW symbol
   * of a completed item, or '$' beside the completed augmented item.
   */
  lemma ActionCells(g: Inputs, parsingTable: ActionTable, gotoTable: GotoTable, i: int, symbol: char)
    requires |g.productions| > 0 && TablesOf(g, parsingTable, gotoTable)
    ensures (i, symbol) in parsingTable <==>
              0 <= i < |g.states| &&
              ((symbol in g.terminals && symbol in Symbols(g.states[i])) ||
               (exists x :: x in g.states[i] && NextSymbol(x).None? && x.lhs != AugmentedStart &&
                  x.lhs in g.followSets && symbol in g.followSets[x.lhs]) ||
               (exists x :: x in g.states[i] && NextSymbol(x).None? && x.lhs == AugmentedStart &&
                  x.rhs == g.productions[0].1 + [Dot] && symbol == EndMarker))
  {
    if 0 <= i < |g.states| {
      assert ActionRow(g, parsingTable, i, g.states[i]);
      if (i, symbol) in parsingTable {
        var x :| x in g.states[i] && symbol in ItemActions(g, i, x);
      }
      if symbol in g.terminals && symbol in Symbols(g.states[i]) {
        var x :| x in g.states[i] && NextSymbol(x).Some? && NextSymbol(x).value == symbol;
        assert symbol in ItemActions(g, i, x);
      }
      if exists x :: x in g.states[i] && NextSymbol(x).None? && x.lhs != AugmentedStart &&
                       x.lhs in g.followSets && symbol in g.followSets[x.lhs] {
        var x :| x in g.states[i] && NextSymbol(x).None? && x.lhs != AugmentedStart &&
                 x.lhs in g.followSets && symbol in g.followSets[x.lhs];
        assert symbol in ItemActions(g, i, x);
      }
      if exists x :: x in g.states[i] && NextSymbol(x).None? && x.lhs == AugmentedStart &&
                       x.rhs == g.productions[0].1 + [Dot] && symbol == EndMarker {
        var x :| x in g.states[i] && NextSymbol(x).None? && x.lhs == AugmentedStart &&
                 x.rhs == g.productions[0].1 + [Dot] && symbol == EndMarker;
        assert symbol in ItemActions(g, i, x);
      }
    }
  }

  /** Last write wins: a cell holds what the greatest item of the state writing it wrote. */
  lemma LastWriterWins(g: Inputs, parsingTable: ActionTable, gotoTable: GotoTable, i: nat, x: Item, symbol: char)
    requires |g.productions| > 0 && TablesOf(g, parsingTable, gotoTable)
    requires i < |g.states| && x in g.states[i] && symbol in ItemActions(g, i, x)
    requires forall y :: y in g.states[i] && ItemLess(x, y) ==> symbol !in ItemActions(g, i, y)
    ensures (i, symbol) in parsingTable && parsingTable[(i, symbol)] == ItemActions(g, i, x)[symbol]
  {
    assert ActionRow(g, parsingTable, i, g.states[i]);
    var w :| LastWriter(g, i, g.states[i], w, symbol) && parsingTable[(i, symbol)] == ItemActions(g, i, w)[symbol];
    ItemLessIsStrictTotalOrder(x, w, w);
  }

  /** Where every item writing a cell writes the same action, the cell holds that action, whatever the order. */
  lemma AgreeingWriters(g: Inputs, parsingTable: ActionTable, gotoTable: GotoTable, i: nat, x: Item, symbol: char)
    requires |g.productions| > 0 && TablesOf(g, parsingTable, gotoTable)
    requires i < |g.states| && x in g.states[i] && symbol in ItemActions(g, i, x)
    requires forall y :: y in g.states[i] && symbol in ItemActions(g, i, y) ==>
               ItemActions(g, i, y)[symbol] == ItemActions(g, i, x)[symbol]
    ensures (i, symbol) in parsingTable && parsingTable[(i, symbol)] == ItemActions(g, i, x)[symbol]
  {
    assert ActionRow(g, parsingTable, i, g.states[i]);
  }

  /** Every Shift cell and every goto cell names a state below count. */
  predicate TargetsIn(parsingTable: ActionTable, gotoTable: GotoTable, count: nat) {
    (forall k :: k in parsingTable && parsingTable[k].Shift? ==> 0 <= parsingTable[k].state < count) &&
    (forall k :: k in gotoTable ==> 0 <= gotoTable[k] < count)
  }

  /** Over a goto-closed collection, every Shift and goto cell names a state of the collection. */
  lemma EntriesNameStates(g: Inputs, parsingTable: ActionTable, gotoTable: GotoTable)
    requires |g.productions| > 0 && TablesOf(g, parsingTable, gotoTable)
    requires GotoClosed(g.states, |g.states|, g.nonTerminals, g.productions)
    ensures TargetsIn(parsingTable, gotoTable, |g.states|)
  {
    forall k | k in parsingTable && parsingTable[k].Shift?
      ensures 0 <= parsingTable[k].state < |g.states|
    {
      ShiftEntries(g, parsingTable, gotoTable, k.0, k.1);
    }
    forall k | k in gotoTable
      ensures 0 <= gotoTable[k] < |g.states|
    {
      GotoEntries(g, parsingTable, gotoTable, k.0, k.1);
    }
  }
}
