/** The symbols that the depth guard knows, and what its limit means for nested and chained expressions. */
module ScriptLimits {
  import opened Options
  import opened ScriptDepth

  // ----- The symbols

  /** Which symbols open, close, separate and operate. */
  lemma SymbolsExactly(s: Symbol)
    ensures Opens(s) <==> s in {LeftBrace, LeftBracket, LeftParen, DoWord, ThenWord, FunctionWord, RepeatWord}
    ensures Closes(s) <==> s in {RightBrace, RightBracket, RightParen, EndWord, ElseIfWord, UntilWord}
    ensures Separates(s) <==>
              s in {Equal, Comma, Semicolon, LocalWord, ReturnWord, BreakWord, IfWord, WhileWord, ForWord, ElseWord}
    ensures Operates(s) <==> s in {Hash, NotWord, BinaryOperator}
    ensures CanEnd(Sym(s)) <==>
              s in {RightBrace, RightBracket, RightParen, EndWord, TrueWord, FalseWord, NilWord, Ellipsis}
  {}

  /** Which symbols belong together. */
  lemma PairsExactly(opening: Symbol, closing: Symbol)
    ensures Matches(opening, closing) <==>
              || (opening == LeftBrace && closing == RightBrace) || (opening == LeftBracket && closing == RightBracket)
              || (opening == LeftParen && closing == RightParen) || (opening == DoWord && closing == EndWord)
              || (opening == FunctionWord && closing == EndWord) || (opening == ThenWord && closing == EndWord)
              || (opening == ThenWord && closing == ElseIfWord) || (opening == RepeatWord && closing == UntilWord)
  {}

  // ----- Nested scopes

  /** The reading of a tree is accepted exactly if it is short enough and the tree is within the limits. */
  lemma TreeAccepted(items: seq<Item>, tokens: seq<Token>)
    requires tokens == Flatten(items)
    requires forall i | 0 <= i < |items| :: WellFormed(items[i])
    ensures Accepts(tokens) <==> |tokens| <= 65_536 && Acceptable(items)
  {
    AcceptableExactly(items);
  }

  /** Scopes inside each other, with nothing else. */
  function Nest(opening: Symbol, closing: Symbol, n: nat): seq<Item> {
    if n == 0 then [] else [Group(opening, Nest(opening, closing, n - 1), closing)]
  }

  /** What scopes inside each other cost: four each for blocks and functions, one each for brackets. */
  function CostOf(opening: Symbol, n: nat): nat {
    if opening in {DoWord, ThenWord, FunctionWord, RepeatWord} then 4 * n else n
  }

  lemma {:induction false} LastCost(current: seq<Cell>, canEnd: bool)
    ensures MaxCost(Expressions(current, canEnd, [])) == Cost(current)
  {
    assert [current][1..] == [];
  }

  lemma {:induction false} CellCost(x: Item, depth: nat)
    requires x.Group? && Opens(x.opening)
    ensures Cost([Cell(x, depth)]) == depth + CostOf(x.opening, 1)
  {
    var e := [Cell(x, depth)];
    assert e[..0] == [];
    assert Operators(e) == 0;
    assert Heaviest(e) == depth + Nesting(x.opening, false);
  }

  lemma {:induction false} OneGroup(x: Item, depth: nat, none: seq<Cell>, cells: seq<Cell>)
    requires x.Group? && Opens(x.opening) && none == [] && cells == [Cell(x, depth)]
    ensures MaxCost(Expressions(none, false, cells)) == depth + CostOf(x.opening, 1)
  {
    var ends := CanEnd(LastToken(x));
    assert cells[1..] == none && Begun(none, false, cells[0]) == cells && Cost(none) == 0;
    SplitCost(none, false, cells);
    LastCost(none, ends);
    LastCost(cells, ends);
    CellCost(x, depth);
    assert Expressions(none, ends, cells[1..]) == Expressions(none, ends, none);
    assert Expressions(cells, ends, cells[1..]) == Expressions(cells, ends, none);
  }

  lemma {:induction false} NestDepth(opening: Symbol, closing: Symbol, n: nat)
    requires Opens(opening)
    ensures DepthOf(Nest(opening, closing, n)) == CostOf(opening, n)
    decreases n
  {
    if n == 0 {
      assert Cells([]) == [];
    } else {
      var x := Group(opening, Nest(opening, closing, n - 1), closing);
      NestDepth(opening, closing, n - 1);
      OneGroup(x, Depth(x), [], Cells([x]));
      assert Depth(x) == DepthOf(x.body);
    }
  }

  lemma {:induction false} NestShape(opening: Symbol, closing: Symbol, n: nat)
    requires Opens(opening) && Matches(opening, closing)
    ensures var items := Nest(opening, closing, n);
            && (forall i | 0 <= i < |items| :: WellFormed(items[i]) && Height(items[i]) == n)
            && |Flatten(items)| == 2 * n
    decreases n
  {
    if n > 0 {
      var x := Group(opening, Nest(opening, closing, n - 1), closing);
      NestShape(opening, closing, n - 1);
      NestHeight(x, n);
      assert [x][1..] == [];
      assert Flatten([x]) == FlattenItem(x) + Flatten([]);
    }
  }

  lemma {:induction false} NestBounded(opening: Symbol, closing: Symbol, n: nat)
    requires Opens(opening) && CostOf(opening, n) <= 64
    ensures forall i | 0 <= i < |Nest(opening, closing, n)| :: Bounded(Nest(opening, closing, n)[i])
    decreases n
  {
    if n > 0 {
      NestBounded(opening, closing, n - 1);
      NestDepth(opening, closing, n - 1);
    }
  }

  lemma {:induction false} NestHeight(x: Item, n: nat)
    requires n > 0 && x.Group? && |x.body| <= 1 && (x.body == [] <==> n == 1)
    requires forall i | 0 <= i < |x.body| :: Height(x.body[i]) == n - 1
    ensures Height(x) == n
  {
    var heights := seq(|x.body|, i requires 0 <= i < |x.body| => Height(x.body[i]));
    assert Height(x) == 1 + MaxOf(heights);
    if n > 1 {
      assert heights[1..] == [] && heights[0] == n - 1;
    }
  }

  /** Blocks and functions may be nested 16 deep and brackets of every kind 64 deep, and no deeper. */
  lemma NestedExactly(opening: Symbol, closing: Symbol, n: nat, tokens: seq<Token>)
    requires Matches(opening, closing) && tokens == Flatten(Nest(opening, closing, n))
    ensures Accepts(tokens) <==>
              n <= if opening in {DoWord, ThenWord, FunctionWord, RepeatWord} then 16 else 64
  {
    PairsExactly(opening, closing);
    NestShape(opening, closing, n);
    NestDepth(opening, closing, n);
    if CostOf(opening, n) <= 64 {
      NestBounded(opening, closing, n);
    }
    TreeAccepted(Nest(opening, closing, n), tokens);
  }

  // ----- Calls

  /** A call inside a call: each argument list follows a name. */
  function Calls(n: nat): seq<Item> {
    if n == 0 then [] else [Leaf(Identifier), Group(LeftParen, Calls(n - 1), RightParen)]
  }

  lemma {:induction false} OneCall(x: Item, depth: nat, none: seq<Cell>, cells: seq<Cell>)
    requires x.Group? && x.opening.LeftParen? && x.closing.RightParen? && none == []
    requires cells == [Cell(Leaf(Identifier), 0), Cell(x, depth)]
    ensures MaxCost(Expressions(none, false, cells)) == depth + 2
  {
    var name, call := Cell(Leaf(Identifier), 0), Cell(x, depth);
    assert cells[1..] == [call] && [call][1..] == none;
    assert Begun(none, false, name) == [name] && Begun([name], true, call) == cells;
    SplitCost(none, false, cells);
    SplitCost([name], true, [call]);
    LastCost(cells, true);
    assert cells[..1] == [name] && [name][..0] == none;
    assert Operators([name]) == 0 && Heaviest([name]) == 0;
    assert Operators(cells) == 0;
    assert Expressions([name], true, cells[1..]) == Expressions([name], true, [call]);
    assert Expressions(cells, true, [call][1..]) == Expressions(cells, true, none);
  }

  lemma {:induction false} CallsDepth(n: nat)
    ensures DepthOf(Calls(n)) == 2 * n
    decreases n
  {
    if n == 0 {
      assert Cells([]) == [];
    } else {
      var x := Group(LeftParen, Calls(n - 1), RightParen);
      CallsDepth(n - 1);
      OneCall(x, Depth(x), [], Cells(Calls(n)));
      assert Depth(x) == DepthOf(x.body);
    }
  }

  lemma {:induction false} CallsShape(n: nat)
    ensures var items := Calls(n);
            && (forall i | 0 <= i < |items| :: WellFormed(items[i]) && Height(items[i]) <= n)
            && (n <= 32 ==> forall i | 0 <= i < |items| :: Bounded(items[i]))
            && |Flatten(items)| == 3 * n
    decreases n
  {
    if n > 0 {
      var x := Group(LeftParen, Calls(n - 1), RightParen);
      CallsShape(n - 1);
      CallsDepth(n - 1);
      CallHeight(x, n);
      assert Calls(n)[1..] == [x] && [x][1..] == [];
      assert Flatten([x]) == FlattenItem(x) + Flatten([]);
    }
  }

  lemma {:induction false} CallHeight(x: Item, n: nat)
    requires n > 0 && x.Group? && |x.body| <= 2 && forall i | 0 <= i < |x.body| :: Height(x.body[i]) <= n - 1
    ensures Height(x) <= n
  {
    var heights := seq(|x.body|, i requires 0 <= i < |x.body| => Height(x.body[i]));
    assert Height(x) == 1 + MaxOf(heights);
    if |heights| == 1 {
      assert heights[1..] == [];
    } else if |heights| == 2 {
      assert heights[1..][1..] == [] && heights[1..][0] == heights[1];
      assert MaxOf(heights[1..]) == heights[1];
    }
  }

  /** Calls may be nested 32 deep and no deeper. */
  lemma CallsExactly(n: nat, tokens: seq<Token>)
    requires tokens == Flatten(Calls(n))
    ensures Accepts(tokens) <==> n <= 32
  {
    CallsShape(n);
    CallsDepth(n);
    TreeAccepted(Calls(n), tokens);
  }

  // ----- Operators

  function Chain(operator: Symbol, n: nat): seq<Item> {
    seq(n, _ => Leaf(Sym(operator)))
  }

  /** Operators do not begin or end an expression. */
  lemma {:induction false} ChainIsOne(current: seq<Cell>, canEnd: bool, cells: seq<Cell>)
    requires forall i | 0 <= i < |cells| :: IsOperator(cells[i].item)
    ensures Expressions(current, canEnd, cells) == [current + cells]
    decreases |cells|
  {
    if cells == [] {
      assert current + cells == current;
    } else {
      assert Begun(current, canEnd, cells[0]) == current + [cells[0]];
      ChainIsOne(current + [cells[0]], CanEnd(LastToken(cells[0].item)), cells[1..]);
      assert current + [cells[0]] + cells[1..] == current + cells;
    }
  }

  lemma {:induction false} ChainCost(cells: seq<Cell>)
    requires forall i | 0 <= i < |cells| :: IsOperator(cells[i].item)
    ensures Operators(cells) == |cells| && Heaviest(cells) == 0
    decreases |cells|
  {
    if cells != [] {
      ChainCost(cells[..|cells| - 1]);
    }
  }

  lemma {:induction false} ChainDepth(operator: Symbol, n: nat)
    requires Operates(operator)
    ensures DepthOf(Chain(operator, n)) == n
  {
    var cells := Cells(Chain(operator, n));
    var none: seq<Cell> := [];
    ChainIsOne(none, false, cells);
    ChainCost(cells);
    assert none + cells == cells;
    MaxFirst(cells, []);
    assert [cells] + [] == [cells];
  }

  lemma {:induction false} ChainLength(items: seq<Item>)
    requires forall i | 0 <= i < |items| :: items[i].Leaf?
    ensures |Flatten(items)| == |items|
    decreases |items|
  {
    if items != [] {
      ChainLength(items[1..]);
    }
  }

  /** An expression may hold 64 operators and no more. */
  lemma OperatorsExactly(operator: Symbol, n: nat, tokens: seq<Token>)
    requires Operates(operator) && tokens == Flatten(Chain(operator, n))
    ensures Accepts(tokens) <==> n <= 64
  {
    SymbolsExactly(operator);
    ChainDepth(operator, n);
    ChainLength(Chain(operator, n));
    TreeAccepted(Chain(operator, n), tokens);
  }

  /** More tokens than 65536 are refused whatever they are. */
  lemma TokensLimited(tokens: seq<Token>)
    requires |tokens| > 65_536
    ensures !Accepts(tokens)
  {}
}
