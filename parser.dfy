/**
 * parseString: the table-driven shift/reduce loop. The state stack and the
 * symbol stack are sequences with their top at the end. Each turn of the
 * loop looks up (top state, current input character) in the action table:
 * Shift pushes and advances the input, Reduce pops one entry per character
 * of the production's right-hand side and pushes the goto state of its
 * left-hand side, Accept answers true, and a missing cell or a missing goto
 * answers false. Reading the input at its length yields '\0', as
 * std::string does; reading beyond it, popping an empty stack and naming a
 * production that does not exist are undefined in the source and are
 * modelled as the outcome Undefined, which callers must rule out.
 */
module Parser {
  import opened Grammar
  import opened Items
  import opened ClosureGoto
  import opened Collection
  import opened Tables

  datatype Config = Config(states: seq<int>, symbols: seq<char>, position: nat)

  datatype Outcome = Running(next: Config) | Accepted | Rejected | Undefined

  /** The parser before its first step: stacks [0] and ['$'], at the start of the input. */
  function Initial(): Config {
    Config([0], [EndMarker], 0)
  }

  /** The input position is one the source may read. */
  predicate InInput(input: string, c: Config) {
    c.position <= |input|
  }

  /** The two stacks have the same height, and hold 0 and '$' at the bottom. */
  predicate InStep(c: Config) {
    |c.states| == |c.symbols| >= 1 && c.states[0] == 0 && c.symbols[0] == EndMarker
  }

  /** One turn of the while(true) loop. */
  function Step(input: string, parsingTable: ActionTable, productions: seq<Production>, gotoTable: GotoTable,
                c: Config): (o: Outcome)
    requires InInput(input, c)
    ensures o.Running? ==> InInput(input, o.next)
  {
    if |c.states| == 0 then Undefined
    else
      var currentState := c.states[|c.states| - 1];
      var currentSymbol := CharAt(input, c.position);
      if (currentState, currentSymbol) !in parsingTable then Rejected
      else
        match parsingTable[(currentState, currentSymbol)]
        case Shift(nextState) =>
          if c.position == |input| then Undefined
          else Running(Config(c.states + [nextState], c.symbols + [currentSymbol], c.position + 1))
        case Reduce(productionIndex) =>
          if !(0 <= productionIndex < |productions|) then Undefined
          else
            var (nonTerminal, rhs) := productions[productionIndex];
            if |rhs| >= |c.states| || |rhs| > |c.symbols| then Undefined
            else
              var states := c.states[..|c.states| - |rhs|];
              var symbols := c.symbols[..|c.symbols| - |rhs|];
              var top := states[|states| - 1];
              if (top, nonTerminal) in gotoTable then
                Running(Config(states + [gotoTable[(top, nonTerminal)]], symbols + [nonTerminal], c.position))
              else Rejected
        case Accept => Accepted
  }

  /** The outcome after at most fuel turns; a run still going when the fuel is spent is Running. */
  function Run(input: string, parsingTable: ActionTable, productions: seq<Production>, gotoTable: GotoTable,
               c: Config, fuel: nat): (o: Outcome)
    requires InInput(input, c)
    ensures o.Running? ==> InInput(input, o.next)
    decreases fuel
  {
    if fuel == 0 then Running(c)
    else
      match Step(input, parsingTable, productions, gotoTable, c)
      case Running(c') => Run(input, parsingTable, productions, gotoTable, c', fuel - 1)
      case o => o
  }

  /** The run from the initial configuration answers within fuel turns and never does anything undefined. */
  predicate Answers(input: string, parsingTable: ActionTable, productions: seq<Production>, gotoTable: GotoTable,
                    fuel: nat) {
    var o := Run(input, parsingTable, productions, gotoTable, Initial(), fuel);
    o.Accepted? || o.Rejected?
  }

  /** The pop loop of a reduce: drops the top n entries of both stacks. */
  method PopBoth(stateStack: seq<int>, symbolStack: seq<char>, n: nat)
    returns (stateStack': seq<int>, symbolStack': seq<char>)
    requires n <= |stateStack| && n <= |symbolStack|
    ensures stateStack' == stateStack[..|stateStack| - n]
    ensures symbolStack' == symbolStack[..|symbolStack| - n]
  {
    stateStack', symbolStack' := stateStack, symbolStack;
    for i := 0 to n
      invariant stateStack' == stateStack[..|stateStack| - i]
      invariant symbolStack' == symbolStack[..|symbolStack| - i]
    {
      stateStack' := stateStack'[..|stateStack'| - 1];
      symbolStack' := symbolStack'[..|symbolStack'| - 1];
    }
  }

  /**
   * parseString: true exactly when the run from [0], ['$'] reaches an
   * Accept cell. The ghost fuel bounds the number of turns the source's
   * while(true) loop takes on this input.
   */
  method ParseString(input: string, parsingTable: ActionTable, productions: seq<Production>, gotoTable: GotoTable,
                     ghost fuel: nat)
    returns (result: bool)
    requires Answers(input, parsingTable, productions, gotoTable, fuel)
    ensures result <==> Run(input, parsingTable, productions, gotoTable, Initial(), fuel).Accepted?
  {
    var stateStack: seq<int> := [0];
    var symbolStack: seq<char> := [EndMarker];
    var currentPosition: nat := 0;
    var currentSymbol := CharAt(input, currentPosition);
    ghost var steps := fuel;
    while true
      invariant currentPosition <= |input| && currentSymbol == CharAt(input, currentPosition)
      invariant Run(input, parsingTable, productions, gotoTable, Config(stateStack, symbolStack, currentPosition), steps)
             == Run(input, parsingTable, productions, gotoTable, Initial(), fuel)
      decreases steps
    {
      ghost var c := Config(stateStack, symbolStack, currentPosition);
      assert steps > 0;
      assert Step(input, parsingTable, productions, gotoTable, c) != Undefined;
      var currentState := stateStack[|stateStack| - 1];
      if (currentState, currentSymbol) in parsingTable {
        var action := parsingTable[(currentState, currentSymbol)];
        match action {
          case Shift(nextState) =>
            stateStack := stateStack + [nextState];
            symbolStack := symbolStack + [currentSymbol];
            currentPosition := currentPosition + 1;
            currentSymbol := CharAt(input, currentPosition);
          case Reduce(productionIndex) =>
            var production := productions[productionIndex];
            stateStack, symbolStack := PopBoth(stateStack, symbolStack, |production.1|);
            var nonTerminal := production.0;
            if (stateStack[|stateStack| - 1], nonTerminal) in gotoTable {
              var nextState := gotoTable[(stateStack[|stateStack| - 1], nonTerminal)];
              stateStack := stateStack + [nextState];
              symbolStack := symbolStack + [nonTerminal];
            } else {
              return false;
            }
          case Accept =>
            return true;
        }
      } else {
        return false;
      }
      steps := steps - 1;
    }
  }

  /** The cell the next turn looks up, when the state stack is not empty. */
  function Cell(input: string, parsingTable: ActionTable, c: Config): Option<Action>
    requires InInput(input, c)
  {
    if |c.states| == 0 then None
    else
      var key := (c.states[|c.states| - 1], CharAt(input, c.position));
      if key in parsingTable then Some(parsingTable[key]) else None
  }

  /**
   * A turn that continues either shifts, pushing onto both stacks and
   * moving one character on, or reduces: it pops one entry per right-hand
   * side character off both stacks, pushes the goto state of the uncovered
   * top on the left-hand side and the left-hand side itself, and leaves the
   * input position where it is.
   */
  lemma StepMoves(input: string, parsingTable: ActionTable, productions: seq<Production>, gotoTable: GotoTable,
                  c: Config)
    requires InInput(input, c)
    requires Step(input, parsingTable, productions, gotoTable, c).Running?
    ensures var c' := Step(input, parsingTable, productions, gotoTable, c).next;
            var cell := Cell(input, parsingTable, c);
            cell.Some? && !cell.value.Accept? &&
            (cell.value.Shift? ==>
               c'.position == c.position + 1 &&
               c'.states == c.states + [cell.value.state] && c'.symbols == c.symbols + [CharAt(input, c.position)]) &&
            (cell.value.Reduce? ==>
               var k := cell.value.production;
               0 <= k < |productions| &&
               var n := |productions[k].1|;
               n < |c.states| && n <= |c.symbols| && c'.position == c.position &&
               c'.states == c.states[..|c.states| - n] + [gotoTable[(c.states[|c.states| - 1 - n], productions[k].0)]] &&
               c'.symbols == c.symbols[..|c.symbols| - n] + [productions[k].0])
  {
  }

  /** A turn answers true exactly on an Accept cell, and false exactly on a missing cell or a missing goto. */
  lemma StepAnswers(input: string, parsingTable: ActionTable, productions: seq<Production>, gotoTable: GotoTable,
                    c: Config)
    requires InInput(input, c) && |c.states| > 0
    ensures var o := Step(input, parsingTable, productions, gotoTable, c);
            var cell := Cell(input, parsingTable, c);
            (o.Accepted? <==> cell == Some(Accept)) &&
            (o.Rejected? <==>
               cell.None? ||
               (cell.value.Reduce? && 0 <= cell.value.production < |productions| &&
                |productions[cell.value.production].1| < |c.states| &&
                |productions[cell.value.production].1| <= |c.symbols| &&
                (c.states[|c.states| - 1 - |productions[cell.value.production].1|], productions[cell.value.production].0)
                  !in gotoTable))
  {
  }

  /** A turn keeps the stacks in step, with 0 and '$' at the bottom. */
  lemma StepKeepsStacksInStep(input: string, parsingTable: ActionTable, productions: seq<Production>,
                              gotoTable: GotoTable, c: Config)
    requires InInput(input, c) && InStep(c)
    requires Step(input, parsingTable, productions, gotoTable, c).Running?
    ensures InStep(Step(input, parsingTable, productions, gotoTable, c).next)
  {
  }

  /**
   * Every configuration a run passes through has its stacks in step, and
   * the input position never moves back.
   */
  lemma {:induction false} RunKeepsStacksInStep(input: string, parsingTable: ActionTable, productions: seq<Production>,
                                                gotoTable: GotoTable, c: Config, fuel: nat)
    requires InInput(input, c) && InStep(c)
    requires Run(input, parsingTable, productions, gotoTable, c, fuel).Running?
    ensures InStep(Run(input, parsingTable, productions, gotoTable, c, fuel).next)
    ensures c.position <= Run(input, parsingTable, productions, gotoTable, c, fuel).next.position
    decreases fuel
  {
    if fuel > 0 {
      var c' := Step(input, parsingTable, productions, gotoTable, c).next;
      StepKeepsStacksInStep(input, parsingTable, productions, gotoTable, c);
      StepMoves(input, parsingTable, productions, gotoTable, c);
      RunKeepsStacksInStep(input, parsingTable, productions, gotoTable, c', fuel - 1);
    }
  }

  /** Every state on the stack is a state of the collection. */
  predicate StatesIn(c: Config, count: nat) {
    forall k :: 0 <= k < |c.states| ==> 0 <= c.states[k] < count
  }

  /** Over tables whose Shift and goto cells name states below count, a turn only pushes such states. */
  lemma StepStaysInCollection(parsingTable: ActionTable, gotoTable: GotoTable, productions: seq<Production>,
                              count: nat, input: string, c: Config)
    requires TargetsIn(parsingTable, gotoTable, count)
    requires InInput(input, c) && StatesIn(c, count)
    requires Step(input, parsingTable, productions, gotoTable, c).Running?
    ensures StatesIn(Step(input, parsingTable, productions, gotoTable, c).next, count)
  {
    var next := Step(input, parsingTable, productions, gotoTable, c).next;
    var action := parsingTable[(c.states[|c.states| - 1], CharAt(input, c.position))];
    if action.Reduce? {
      var (nonTerminal, rhs) := productions[action.production];
      var kept := |c.states| - |rhs|;
      assert next.states == c.states[..kept] + [gotoTable[(c.states[kept - 1], nonTerminal)]];
    }
  }

  /**
   * Over tables built from a goto-closed collection, a run from a
   * configuration holding states of the collection only ever holds states
   * of the collection.
   */
  lemma RunStaysInCollection(g: Inputs, parsingTable: ActionTable, gotoTable: GotoTable,
                             input: string, c: Config, fuel: nat)
    requires |g.productions| > 0 && TablesOf(g, parsingTable, gotoTable)
    requires GotoClosed(g.states, |g.states|, g.nonTerminals, g.productions)
    requires InInput(input, c) && StatesIn(c, |g.states|)
    requires Run(input, parsingTable, g.productions, gotoTable, c, fuel).Running?
    ensures StatesIn(Run(input, parsingTable, g.productions, gotoTable, c, fuel).next, |g.states|)
  {
    EntriesNameStates(g, parsingTable, gotoTable);
    RunInCollection(parsingTable, gotoTable, g.productions, |g.states|, input, c, fuel);
  }

  /** A run over tables whose cells name states below count keeps every stacked state below count. */
  lemma {:induction false} RunInCollection(parsingTable: ActionTable, gotoTable: GotoTable, productions: seq<Production>,
                                           count: nat, input: string, c: Config, fuel: nat)
    requires TargetsIn(parsingTable, gotoTable, count)
    requires InInput(input, c) && StatesIn(c, count)
    requires Run(input, parsingTable, productions, gotoTable, c, fuel).Running?
    ensures StatesIn(Run(input, parsingTable, productions, gotoTable, c, fuel).next, count)
    decreases fuel
  {
    if fuel > 0 {
      StepStaysInCollection(parsingTable, gotoTable, productions, count, input, c);
      var c' := Step(input, parsingTable, productions, gotoTable, c).next;
      RunInCollection(parsingTable, gotoTable, productions, count, input, c', fuel - 1);
    }
  }

  /**
   * Over tables built by the generator, a run that accepts does so in a
   * configuration reading '$', no earlier in the input than it started.
   */
  lemma {:induction false} AcceptedAtEndMarker(g: Inputs, parsingTable: ActionTable, gotoTable: GotoTable,
                                               input: string, c: Config, fuel: nat)
    returns (last: Config)
    requires |g.productions| > 0 && TablesOf(g, parsingTable, gotoTable)
    requires InInput(input, c)
    requires Run(input, parsingTable, g.productions, gotoTable, c, fuel).Accepted?
    ensures InInput(input, last) && c.position <= last.position
    ensures Step(input, parsingTable, g.productions, gotoTable, last).Accepted?
    ensures CharAt(input, last.position) == EndMarker
    decreases fuel
  {
    var o := Step(input, parsingTable, g.productions, gotoTable, c);
    if o.Running? {
      StepMoves(input, parsingTable, g.productions, gotoTable, c);
      last := AcceptedAtEndMarker(g, parsingTable, gotoTable, input, o.next, fuel - 1);
    } else {
      last := c;
      var currentState := c.states[|c.states| - 1];
      AcceptEntries(g, parsingTable, gotoTable, currentState, CharAt(input, c.position));
    }
  }

  /**
   * main parses the user's string with "$" appended. Over generated tables,
   * when the string holds no '$', an accepting run has read all of it.
   */
  lemma AcceptedInputConsumed(g: Inputs, parsingTable: ActionTable, gotoTable: GotoTable,
                              word: string, fuel: nat)
    requires |g.productions| > 0 && TablesOf(g, parsingTable, gotoTable)
    requires EndMarker !in word
    requires Run(word + [EndMarker], parsingTable, g.productions, gotoTable, Initial(), fuel).Accepted?
    ensures exists last :: InInput(word + [EndMarker], last) && last.position == |word| &&
              Step(word + [EndMarker], parsingTable, g.productions, gotoTable, last).Accepted?
  {
    var input := word + [EndMarker];
    var last := AcceptedAtEndMarker(g, parsingTable, gotoTable, input, Initial(), fuel);
  }
}
