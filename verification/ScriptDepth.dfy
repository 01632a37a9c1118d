/** The one-pass depth guard of the Lua reader, against a recursive measure on the token tree. */
module ScriptDepth {
  import opened Options
  import opened Sequences

  const MAX_NESTING := 64
  const MAX_TOKENS := 65_536

  datatype Symbol =
    | LeftBrace | RightBrace | LeftBracket | RightBracket | LeftParen | RightParen
    | DoWord | ThenWord | FunctionWord | RepeatWord | EndWord | ElseIfWord | UntilWord | ElseWord
    | Equal | Comma | Semicolon | LocalWord | ReturnWord | BreakWord | IfWord | WhileWord | ForWord
    | Hash | NotWord | BinaryOperator
    | TrueWord | FalseWord | NilWord | Ellipsis | OtherSymbol

  /** `Bad` is a lexical error; `Other` is the end of the file or trivia. */
  datatype Token = Identifier | Number | StringLiteral | Sym(symbol: Symbol) | Other | Bad

  predicate Opens(s: Symbol) {
    || s.LeftBrace? || s.LeftBracket? || s.LeftParen?
    || s.DoWord? || s.ThenWord? || s.FunctionWord? || s.RepeatWord?
  }

  predicate Closes(s: Symbol) {
    || s.RightBrace? || s.RightBracket? || s.RightParen? || s.EndWord? || s.ElseIfWord? || s.UntilWord?
  }

  predicate Matches(opening: Symbol, closing: Symbol) {
    match opening
    case LeftBrace => closing.RightBrace?
    case LeftBracket => closing.RightBracket?
    case LeftParen => closing.RightParen?
    case DoWord => closing.EndWord?
    case FunctionWord => closing.EndWord?
    case ThenWord => closing.EndWord? || closing.ElseIfWord?
    case RepeatWord => closing.UntilWord?
    case _ => false
  }

  predicate Separates(s: Symbol) {
    || s.Equal? || s.Comma? || s.Semicolon? || s.LocalWord? || s.ReturnWord? || s.BreakWord?
    || s.IfWord? || s.WhileWord? || s.ForWord? || s.ElseWord?
  }

  predicate Operates(s: Symbol) {
    s.Hash? || s.NotWord? || s.BinaryOperator?
  }

  /** A token that can be the last one of an expression. */
  predicate CanEnd(t: Token) {
    || t.Identifier? || t.Number? || t.StringLiteral?
    || (t.Sym? && (|| t.symbol.RightBrace? || t.symbol.RightBracket? || t.symbol.RightParen? || t.symbol.EndWord?
                   || t.symbol.TrueWord? || t.symbol.FalseWord? || t.symbol.NilWord? || t.symbol.Ellipsis?))
  }

  /** What a scope adds to the depth of the expression it is in: most for a block, more for a call than for a group. */
  function Nesting(opening: Symbol, canEnd: bool): nat {
    if opening.DoWord? || opening.ThenWord? || opening.FunctionWord? || opening.RepeatWord? then 4
    else if (opening.LeftParen? || opening.LeftBrace?) && canEnd then 2
    else 1
  }

  // ----- The guard: one pass with a stack of scopes

  datatype Scope = Scope(opening: Option<Symbol>, nesting: nat, operators: nat, nested: nat, deepest: nat)

  function NewScope(opening: Symbol, canEnd: bool): Scope {
    Scope(Some(opening), Nesting(opening, canEnd), 0, 0, 0)
  }

  const Outermost := Scope(None, 1, 0, 0, 0)

  function Max(a: nat, b: nat): nat {
    if a < b then b else a
  }

  function Finish(s: Scope): Scope {
    s.(deepest := Max(s.deepest, s.operators + s.nested), operators := 0, nested := 0)
  }

  datatype Guard = Guard(scopes: seq<Scope>, canEnd: bool)

  const Start := Guard([Outermost], false)

  function Top(g: Guard): Scope
    requires g.scopes != []
  {
    g.scopes[|g.scopes| - 1]
  }

  function WithTop(g: Guard, s: Scope): Guard
    requires g.scopes != []
  {
    g.(scopes := g.scopes[..|g.scopes| - 1] + [s])
  }

  function OpenScope(g: Guard, s: Symbol): Option<Guard>
    requires g.scopes != []
  {
    var parent := if s.DoWord? || s.ThenWord? || s.RepeatWord? then Finish(Top(g)) else Top(g);
    if |g.scopes| > MAX_NESTING then None
    else Some(g.(scopes := WithTop(g, parent).scopes + [NewScope(s, g.canEnd)]))
  }

  function CloseScope(g: Guard, s: Symbol): Option<Guard>
    requires g.scopes != []
  {
    if |g.scopes| <= 1 || Top(g).opening.None? || !Matches(Top(g).opening.value, s) then None
    else
      var child := Finish(Top(g));
      var parent := g.scopes[|g.scopes| - 2];
      var grown := parent.(nested := Max(parent.nested, child.deepest + child.nesting));
      if grown.operators + grown.nested > MAX_NESTING then None
      else
        var left := if s.ElseIfWord? || s.UntilWord? then Finish(grown) else grown;
        Some(g.(scopes := g.scopes[..|g.scopes| - 2] + [left]))
  }

  /** A new statement begins at an identifier or a function after a complete expression. */
  function BeginStatement(g: Guard, t: Token): Guard
    requires g.scopes != []
  {
    if g.canEnd && (t.Identifier? || t == Sym(FunctionWord)) then WithTop(g, Finish(Top(g))) else g
  }

  function Handle(g: Guard, t: Token): Option<Guard>
    requires g.scopes != []
  {
    if t.Bad? then None
    else if !t.Sym? then Some(g)
    else if Opens(t.symbol) then OpenScope(g, t.symbol)
    else if Closes(t.symbol) then CloseScope(g, t.symbol)
    else if Separates(t.symbol) then Some(WithTop(g, Finish(Top(g))))
    else if Operates(t.symbol) then
      var counted := Top(g).(operators := Top(g).operators + 1);
      if counted.operators + counted.nested > MAX_NESTING then None else Some(WithTop(g, counted))
    else Some(g)
  }

  function Step(g: Guard, t: Token): (r: Option<Guard>)
    requires g.scopes != []
    ensures r.Some? ==> r.value.scopes != []
  {
    var handled := Handle(BeginStatement(g, t), t);
    if handled.None? then None else Some(handled.value.(canEnd := CanEnd(t)))
  }

  function RunFrom(g: Guard, tokens: seq<Token>): (r: Option<Guard>)
    requires g.scopes != []
    ensures r.Some? ==> r.value.scopes != []
    decreases |tokens|
  {
    if tokens == [] then Some(g)
    else
      var next := Step(g, tokens[0]);
      if next.None? then None else RunFrom(next.value, tokens[1..])
  }

  predicate Accepts(tokens: seq<Token>) {
    && |tokens| <= MAX_TOKENS
    && RunFrom(Start, tokens).Some? && |RunFrom(Start, tokens).value.scopes| == 1
  }

  method CheckScriptDepth(tokens: seq<Token>) returns (ok: bool)
    ensures ok == Accepts(tokens)
  {
    var g := Start;
    var count := 0;
    while count < |tokens|
      invariant count <= |tokens| && count <= MAX_TOKENS && g.scopes != []
      invariant RunFrom(Start, tokens) == RunFrom(g, tokens[count..])
    {
      var token := tokens[count];
      if token.Bad? {
        return false;
      }
      count := count + 1;
      if count > MAX_TOKENS {
        return false;
      }
      var next := Step(g, token);
      assert tokens[count - 1..][1..] == tokens[count..];
      if next.None? {
        return false;
      }
      g := next.value;
    }
    return |g.scopes| == 1;
  }

  // ----- The token tree and its measure

  datatype Item = Leaf(token: Token) | Group(opening: Symbol, body: seq<Item>, closing: Symbol)

  predicate WellFormed(x: Item) {
    match x
    case Leaf(t) => !t.Bad? && (t.Sym? ==> !Opens(t.symbol) && !Closes(t.symbol))
    case Group(opening, body, closing) =>
      Opens(opening) && Matches(opening, closing) && forall i | 0 <= i < |body| :: WellFormed(body[i])
  }

  function FlattenItem(x: Item): seq<Token>
    decreases x, 1
  {
    match x
    case Leaf(t) => [t]
    case Group(opening, body, closing) => [Sym(opening)] + Flatten(body) + [Sym(closing)]
  }

  function Flatten(items: seq<Item>): seq<Token>
    decreases items, 0
  {
    if items == [] then [] else FlattenItem(items[0]) + Flatten(items[1..])
  }

  function LastToken(x: Item): Token {
    if x.Leaf? then x.token else Sym(x.closing)
  }

  predicate IsSeparator(x: Item) {
    x.Leaf? && x.token.Sym? && Separates(x.token.symbol)
  }

  predicate IsOperator(x: Item) {
    x.Leaf? && x.token.Sym? && Operates(x.token.symbol)
  }

  /** An item that starts a new expression, given whether the one before it could end. */
  predicate BreaksBefore(x: Item, canEnd: bool) {
    match x
    case Leaf(t) => canEnd && t.Identifier?
    case Group(opening, _, _) =>
      opening.DoWord? || opening.ThenWord? || opening.RepeatWord? || (canEnd && opening.FunctionWord?)
  }

  predicate BreaksAfter(x: Item) {
    IsSeparator(x) || (x.Group? && (x.closing.ElseIfWord? || x.closing.UntilWord?))
  }

  /** An item with the depth of its body already measured. */
  datatype Cell = Cell(item: Item, depth: nat)

  /** The expressions of one scope: `current` is the beginning of the first one. */
  function Expressions(current: seq<Cell>, canEnd: bool, cells: seq<Cell>): (r: seq<seq<Cell>>)
    ensures r != []
    decreases |cells|
  {
    if cells == [] then [current]
    else
      var x := cells[0].item;
      var begun := (if BreaksBefore(x, canEnd) then [] else current) + (if IsSeparator(x) then [] else [cells[0]]);
      var later := if BreaksAfter(x) then [begun] + Expressions([], CanEnd(LastToken(x)), cells[1..])
                   else Expressions(begun, CanEnd(LastToken(x)), cells[1..]);
      if BreaksBefore(x, canEnd) then [current] + later else later
  }

  function Operators(expression: seq<Cell>): nat {
    if expression == [] then 0
    else Operators(expression[..|expression| - 1]) + (if IsOperator(expression[|expression| - 1].item) then 1 else 0)
  }

  /** The heaviest child scope of an expression. */
  function Heaviest(expression: seq<Cell>): nat {
    if expression == [] then 0
    else
      var k := |expression| - 1;
      var after := k > 0 && CanEnd(LastToken(expression[k - 1].item));
      var x := expression[k].item;
      Max(Heaviest(expression[..k]), if x.Group? then expression[k].depth + Nesting(x.opening, after) else 0)
  }

  function Cost(expression: seq<Cell>): nat {
    Operators(expression) + Heaviest(expression)
  }

  function MaxCost(expressions: seq<seq<Cell>>): nat {
    if expressions == [] then 0 else Max(Cost(expressions[0]), MaxCost(expressions[1..]))
  }

  /** The depth of a scope is the cost of its costliest expression; a leaf has none. */
  function Depth(x: Item): nat {
    match x
    case Leaf(_) => 0
    case Group(_, body, _) =>
      var cells := seq(|body|, i requires 0 <= i < |body| => Cell(body[i], Depth(body[i])));
      MaxCost(Expressions([], false, cells))
  }

  function Cells(items: seq<Item>): seq<Cell> {
    seq(|items|, i requires 0 <= i < |items| => Cell(items[i], Depth(items[i])))
  }

  function DepthOf(items: seq<Item>): nat {
    MaxCost(Expressions([], false, Cells(items)))
  }

  function Height(x: Item): nat {
    match x
    case Leaf(_) => 0
    case Group(_, body, _) => 1 + MaxOf(seq(|body|, i requires 0 <= i < |body| => Height(body[i])))
  }

  function MaxOf(s: seq<nat>): nat {
    if s == [] then 0 else Max(s[0], MaxOf(s[1..]))
  }

  /** In this item and everything inside it, no scope is deeper than the limit. */
  predicate Bounded(x: Item) {
    match x
    case Leaf(_) => true
    case Group(_, body, _) => DepthOf(body) <= MAX_NESTING && forall i | 0 <= i < |body| :: Bounded(body[i])
  }

  /** The declarative meaning of acceptance. */
  ghost predicate Acceptable(items: seq<Item>) {
    && (forall i | 0 <= i < |items| :: WellFormed(items[i]) && Bounded(items[i]) && Height(items[i]) <= MAX_NESTING)
    && DepthOf(items) <= MAX_NESTING
  }

  // ----- What one item does to the scope around it

  function Absorb(p: Scope, canEnd: bool, cell: Cell): Scope {
    var x := cell.item;
    var begun := if BreaksBefore(x, canEnd) then Finish(p) else p;
    var grown := match x
      case Leaf(_) => if IsOperator(x) then begun.(operators := begun.operators + 1) else begun
      case Group(opening, _, _) => begun.(nested := Max(begun.nested, cell.depth + Nesting(opening, canEnd)));
    if BreaksAfter(x) then Finish(grown) else grown
  }

  /** The check that the guard makes while it takes in the item. */
  predicate Affordable(p: Scope, canEnd: bool, cell: Cell) {
    var x := cell.item;
    var begun := if BreaksBefore(x, canEnd) then Finish(p) else p;
    match x
    case Leaf(_) => IsOperator(x) ==> begun.operators + 1 + begun.nested <= MAX_NESTING
    case Group(opening, _, _) =>
      begun.operators + Max(begun.nested, cell.depth + Nesting(opening, canEnd)) <= MAX_NESTING
  }

  function Fold(p: Scope, canEnd: bool, cells: seq<Cell>): Scope
    decreases |cells|
  {
    if cells == [] then p else Fold(Absorb(p, canEnd, cells[0]), CanEnd(LastToken(cells[0].item)), cells[1..])
  }

  predicate AffordableAll(p: Scope, canEnd: bool, cells: seq<Cell>)
    decreases |cells|
  {
    cells == []
    || (Affordable(p, canEnd, cells[0])
        && AffordableAll(Absorb(p, canEnd, cells[0]), CanEnd(LastToken(cells[0].item)), cells[1..]))
  }

  function EndAfter(canEnd: bool, items: seq<Item>): bool {
    if items == [] then canEnd else CanEnd(LastToken(items[|items| - 1]))
  }

  /** The scope's counters are those of the expression under way. */
  ghost predicate Counts(p: Scope, current: seq<Cell>, canEnd: bool) {
    && p.operators == Operators(current) && p.nested == Heaviest(current) && Cost(current) <= MAX_NESTING
    && canEnd == (current != [] && CanEnd(LastToken(current[|current| - 1].item)))
  }

  lemma AppendCell(current: seq<Cell>, cell: Cell)
    ensures Operators(current + [cell]) == Operators(current) + (if IsOperator(cell.item) then 1 else 0)
    ensures var after := current != [] && CanEnd(LastToken(current[|current| - 1].item));
            Heaviest(current + [cell])
            == Max(Heaviest(current), if cell.item.Group? then cell.depth + Nesting(cell.item.opening, after) else 0)
  {
    assert (current + [cell])[..|current|] == current;
  }

  /** The expression under way after one more item. */
  function Begun(current: seq<Cell>, canEnd: bool, cell: Cell): seq<Cell> {
    (if BreaksBefore(cell.item, canEnd) then [] else current) + (if IsSeparator(cell.item) then [] else [cell])
  }

  /** The scope's counters after an item are those of the expression then under way. */
  ghost predicate Absorbed(p: Scope, current: seq<Cell>, canEnd: bool, cell: Cell) {
    var begun, q := Begun(current, canEnd, cell), Absorb(p, canEnd, cell);
    var finished := if BreaksBefore(cell.item, canEnd) then Cost(current) else 0;
    && (Affordable(p, canEnd, cell) <==> Cost(begun) <= MAX_NESTING)
    && (Affordable(p, canEnd, cell) ==>
          && Counts(q, if BreaksAfter(cell.item) then [] else begun, CanEnd(LastToken(cell.item)))
          && q.deepest == Max(Max(p.deepest, finished), if BreaksAfter(cell.item) then Cost(begun) else 0))
  }

  lemma SeparatorAbsorbed(p: Scope, current: seq<Cell>, canEnd: bool, cell: Cell)
    requires Counts(p, current, canEnd) && IsSeparator(cell.item)
    ensures Absorbed(p, current, canEnd, cell)
  {
    assert Begun(current, canEnd, cell) == current;
  }

  lemma LeafContinues(p: Scope, current: seq<Cell>, canEnd: bool, cell: Cell)
    requires Counts(p, current, canEnd) && cell.item.Leaf? && !IsSeparator(cell.item)
    requires !BreaksBefore(cell.item, canEnd)
    ensures Absorbed(p, current, canEnd, cell)
  {
    AppendCell(current, cell);
    assert Begun(current, canEnd, cell) == current + [cell];
  }

  lemma LeafBegins(p: Scope, current: seq<Cell>, canEnd: bool, cell: Cell)
    requires Counts(p, current, canEnd) && cell.item.Leaf? && BreaksBefore(cell.item, canEnd)
    ensures Absorbed(p, current, canEnd, cell)
  {
    AppendCell([], cell);
    assert Begun(current, canEnd, cell) == [] + [cell];
    assert Operators([]) == 0 && Heaviest([]) == 0;
  }

  lemma GroupContinues(p: Scope, current: seq<Cell>, canEnd: bool, cell: Cell)
    requires Counts(p, current, canEnd) && cell.item.Group? && !BreaksBefore(cell.item, canEnd)
    ensures Absorbed(p, current, canEnd, cell)
  {
    AppendCell(current, cell);
    assert Begun(current, canEnd, cell) == current + [cell];
  }

  /** The guard's check for a group that begins an expression. */
  lemma GroupAffordable(p: Scope, canEnd: bool, cell: Cell)
    requires cell.item.Group? && BreaksBefore(cell.item, canEnd)
    ensures Affordable(p, canEnd, cell) <==> cell.depth + 4 <= MAX_NESTING
  {}

  /** What such a group leaves in the scope around it. */
  lemma GroupAbsorbed(p: Scope, canEnd: bool, cell: Cell)
    requires cell.item.Group? && BreaksBefore(cell.item, canEnd)
    ensures var q, finished := Absorb(p, canEnd, cell), Max(p.deepest, p.operators + p.nested);
            && q.operators == 0
            && (if BreaksAfter(cell.item) then q.nested == 0 && q.deepest == Max(finished, cell.depth + 4)
                else q.nested == cell.depth + 4 && q.deepest == finished)
  {}

  lemma NothingCounts(q: Scope)
    requires q.operators == 0 && q.nested == 0
    ensures Counts(q, [], false)
  {}

  lemma GroupCounts(q: Scope, cell: Cell)
    requires cell.item.Group? && q.operators == Operators([cell]) && q.nested == Heaviest([cell])
    requires Cost([cell]) <= MAX_NESTING
    ensures Counts(q, [cell], CanEnd(LastToken(cell.item)))
  {}

  lemma BegunAlone(current: seq<Cell>, canEnd: bool, cell: Cell)
    requires cell.item.Group? && BreaksBefore(cell.item, canEnd)
    ensures Begun(current, canEnd, cell) == [cell]
  {}

  /** A group that begins an expression, from what it leaves and what it costs. */
  lemma GroupParts(p: Scope, current: seq<Cell>, canEnd: bool, cell: Cell, q: Scope, cost: nat)
    requires cell.item.Group? && BreaksBefore(cell.item, canEnd) && q == Absorb(p, canEnd, cell)
    requires Begun(current, canEnd, cell) == [cell] && Cost([cell]) == cost
    requires Affordable(p, canEnd, cell) <==> cost <= MAX_NESTING
    requires cost <= MAX_NESTING ==>
               Counts(q, if BreaksAfter(cell.item) then [] else [cell], CanEnd(LastToken(cell.item)))
    requires q.deepest == Max(Max(p.deepest, Cost(current)), if BreaksAfter(cell.item) then cost else 0)
    ensures Absorbed(p, current, canEnd, cell)
  {}

  lemma GroupBegins(p: Scope, current: seq<Cell>, canEnd: bool, cell: Cell)
    requires Counts(p, current, canEnd) && cell.item.Group? && BreaksBefore(cell.item, canEnd)
    ensures Absorbed(p, current, canEnd, cell)
  {
    var q := Absorb(p, canEnd, cell);
    OneGroup(cell);
    GroupAffordable(p, canEnd, cell);
    GroupAbsorbed(p, canEnd, cell);
    BegunAlone(current, canEnd, cell);
    if BreaksAfter(cell.item) {
      NothingCounts(q);
    } else if cell.depth + 4 <= MAX_NESTING {
      GroupCounts(q, cell);
    }
    GroupParts(p, current, canEnd, cell, q, cell.depth + 4);
  }

  lemma OneGroup(cell: Cell)
    requires cell.item.Group?
    ensures Operators([cell]) == 0 && Heaviest([cell]) == cell.depth + Nesting(cell.item.opening, false)
  {
    assert [cell][..0] == [];
  }

  lemma AbsorbMeaning(p: Scope, current: seq<Cell>, canEnd: bool, cell: Cell)
    requires Counts(p, current, canEnd)
    ensures Absorbed(p, current, canEnd, cell)
  {
    if cell.item.Group? && BreaksBefore(cell.item, canEnd) {
      GroupBegins(p, current, canEnd, cell);
    } else if cell.item.Group? {
      GroupContinues(p, current, canEnd, cell);
    } else if IsSeparator(cell.item) {
      SeparatorAbsorbed(p, current, canEnd, cell);
    } else if BreaksBefore(cell.item, canEnd) {
      LeafBegins(p, current, canEnd, cell);
    } else {
      LeafContinues(p, current, canEnd, cell);
    }
  }

  /** Folding a scope's items finds the cost of its costliest expression, and the guard's checks pass
      exactly when that stays within the limit. */
  ghost predicate Folded(p: Scope, canEnd: bool, cells: seq<Cell>, cost: nat) {
    && (AffordableAll(p, canEnd, cells) <==> cost <= MAX_NESTING)
    && (AffordableAll(p, canEnd, cells) ==> Finish(Fold(p, canEnd, cells)).deepest == Max(p.deepest, cost))
  }

  lemma {:induction false} FoldMeaning(p: Scope, current: seq<Cell>, canEnd: bool, cells: seq<Cell>)
    requires Counts(p, current, canEnd)
    ensures Folded(p, canEnd, cells, MaxCost(Expressions(current, canEnd, cells)))
    decreases |cells|
  {
    if cells == [] {
      OneExpression(current);
    } else {
      var next := if BreaksAfter(cells[0].item) then [] else Begun(current, canEnd, cells[0]);
      AbsorbMeaning(p, current, canEnd, cells[0]);
      if Affordable(p, canEnd, cells[0]) {
        FoldMeaning(Absorb(p, canEnd, cells[0]), next, CanEnd(LastToken(cells[0].item)), cells[1..]);
      }
      FoldNext(p, current, canEnd, cells, next);
    }
  }

  lemma FoldNext(p: Scope, current: seq<Cell>, canEnd: bool, cells: seq<Cell>, next: seq<Cell>)
    requires cells != [] && Absorbed(p, current, canEnd, cells[0]) && Cost(current) <= MAX_NESTING
    requires next == if BreaksAfter(cells[0].item) then [] else Begun(current, canEnd, cells[0])
    requires var ends := CanEnd(LastToken(cells[0].item));
             Affordable(p, canEnd, cells[0]) ==>
               Folded(Absorb(p, canEnd, cells[0]), ends, cells[1..], MaxCost(Expressions(next, ends, cells[1..])))
    ensures Folded(p, canEnd, cells, MaxCost(Expressions(current, canEnd, cells)))
  {
    var finished := if BreaksBefore(cells[0].item, canEnd) then Cost(current) else 0;
    var begun := Cost(Begun(current, canEnd, cells[0]));
    var rest := MaxCost(Expressions(next, CanEnd(LastToken(cells[0].item)), cells[1..]));
    CostOf(current, canEnd, cells, next);
    FoldOne(p, canEnd, cells, finished, begun, rest);
  }

  lemma CostOf(current: seq<Cell>, canEnd: bool, cells: seq<Cell>, next: seq<Cell>)
    requires cells != [] && next == if BreaksAfter(cells[0].item) then [] else Begun(current, canEnd, cells[0])
    ensures var finished := if BreaksBefore(cells[0].item, canEnd) then Cost(current) else 0;
            var begun := Cost(Begun(current, canEnd, cells[0]));
            var rest := MaxCost(Expressions(next, CanEnd(LastToken(cells[0].item)), cells[1..]));
            && MaxCost(Expressions(current, canEnd, cells)) == Max(finished, Max(begun, rest))
            && (BreaksAfter(cells[0].item) || begun <= rest)
  {
    SplitCost(current, canEnd, cells);
    FirstCost(next, CanEnd(LastToken(cells[0].item)), cells[1..]);
  }

  /** One item more: `finished` is what it finished before it, `begun` the expression it is in, `rest` the others. */
  lemma FoldOne(p: Scope, canEnd: bool, cells: seq<Cell>, finished: nat, begun: nat, rest: nat)
    requires cells != [] && finished <= MAX_NESTING
    requires Affordable(p, canEnd, cells[0]) <==> begun <= MAX_NESTING
    requires BreaksAfter(cells[0].item) || begun <= rest
    requires Affordable(p, canEnd, cells[0]) ==>
               && Folded(Absorb(p, canEnd, cells[0]), CanEnd(LastToken(cells[0].item)), cells[1..], rest)
               && Absorb(p, canEnd, cells[0]).deepest
                  == Max(Max(p.deepest, finished), if BreaksAfter(cells[0].item) then begun else 0)
    ensures Folded(p, canEnd, cells, Max(finished, Max(begun, rest)))
  {}

  lemma OneExpression(e: seq<Cell>)
    ensures MaxCost([e]) == Cost(e)
  {
    assert [e][1..] == [];
  }

  /** The cost of an expression under way is only the beginning of its final cost. */
  lemma {:induction false} FirstCost(current: seq<Cell>, canEnd: bool, cells: seq<Cell>)
    ensures MaxCost(Expressions(current, canEnd, cells)) >= Cost(current)
    decreases |cells|
  {
    if cells == [] {
      OneExpression(current);
    } else {
      var x := cells[0].item;
      SplitCost(current, canEnd, cells);
      if !BreaksBefore(x, canEnd) {
        var begun := Begun(current, canEnd, cells[0]);
        assert current + [] == current;
        AppendCell(current, cells[0]);
        FirstCost(begun, CanEnd(LastToken(x)), cells[1..]);
      }
    }
  }

  /** The maximum over the expressions, taken apart at the first item. */
  lemma {:induction false} SplitCost(current: seq<Cell>, canEnd: bool, cells: seq<Cell>)
    requires cells != []
    ensures var x, begun := cells[0].item, Begun(current, canEnd, cells[0]);
            var finished := if BreaksBefore(x, canEnd) then Cost(current) else 0;
            var later := if BreaksAfter(x)
                         then Max(Cost(begun), MaxCost(Expressions([], CanEnd(LastToken(x)), cells[1..])))
                         else MaxCost(Expressions(begun, CanEnd(LastToken(x)), cells[1..]));
            MaxCost(Expressions(current, canEnd, cells)) == Max(finished, later)
  {
    var x, begun := cells[0].item, Begun(current, canEnd, cells[0]);
    var rest := Expressions(if BreaksAfter(x) then [] else begun, CanEnd(LastToken(x)), cells[1..]);
    MaxFirst(begun, rest);
    MaxFirst(current, if BreaksAfter(x) then [begun] + rest else rest);
  }

  lemma {:induction false} MaxFirst(expression: seq<Cell>, rest: seq<seq<Cell>>)
    ensures MaxCost([expression] + rest) == Max(Cost(expression), MaxCost(rest))
  {
    assert ([expression] + rest)[1..] == rest;
  }

  // ----- Running the guard over a tree

  lemma {:induction false} RunSplit(g: Guard, a: seq<Token>, b: seq<Token>)
    requires g.scopes != []
    ensures RunFrom(g, a + b) == if RunFrom(g, a).None? then None else RunFrom(RunFrom(g, a).value, b)
    decreases |a|
  {
    if a == [] {
      assert a + b == b;
    } else {
      assert (a + b)[1..] == a[1..] + b;
      if Step(g, a[0]).Some? {
        RunSplit(Step(g, a[0]).value, a[1..], b);
      }
    }
  }

  function AfterItem(g: Guard, x: Item): Guard
    requires g.scopes != []
  {
    WithTop(g, Absorb(Top(g), g.canEnd, Cell(x, Depth(x)))).(canEnd := CanEnd(LastToken(x)))
  }

  predicate Fits(g: Guard, x: Item)
    requires g.scopes != []
  {
    Bounded(x) && |g.scopes| + Height(x) <= MAX_NESTING + 1 && Affordable(Top(g), g.canEnd, Cell(x, Depth(x)))
  }

  lemma {:induction false} LeafRuns(g: Guard, t: Token)
    requires g.scopes != [] && |g.scopes| <= MAX_NESTING + 1 && WellFormed(Leaf(t))
    ensures Step(g, t) == if Fits(g, Leaf(t)) then Some(AfterItem(g, Leaf(t))) else None
    ensures RunFrom(g, [t]) == Step(g, t)
  {
    assert [t][1..] == [];
    StatementBegins(g, t);
    LeafHandled(g, t, if BreaksBefore(Leaf(t), g.canEnd) then Finish(Top(g)) else Top(g));
  }

  lemma StatementBegins(g: Guard, t: Token)
    requires g.scopes != [] && WellFormed(Leaf(t))
    ensures BeginStatement(g, t)
            == WithTop(g, if BreaksBefore(Leaf(t), g.canEnd) then Finish(Top(g)) else Top(g))
  {
    TopFacts(g, Top(g), Top(g));
  }

  lemma LeafHandled(g: Guard, t: Token, begun: Scope)
    requires g.scopes != [] && WellFormed(Leaf(t))
    ensures var x := Leaf(t);
            var grown := if IsOperator(x) then begun.(operators := begun.operators + 1) else begun;
            Handle(WithTop(g, begun), t)
            == if IsOperator(x) && grown.operators + grown.nested > MAX_NESTING then None
               else Some(WithTop(g, if IsSeparator(x) then Finish(grown) else grown))
  {
    TopFacts(g, begun, Finish(begun));
    TopFacts(g, begun, begun.(operators := begun.operators + 1));
  }

  lemma TopFacts(g: Guard, a: Scope, b: Scope)
    requires g.scopes != []
    ensures WithTop(g, Top(g)) == g && Top(WithTop(g, a)) == a && |WithTop(g, a).scopes| == |g.scopes|
    ensures WithTop(WithTop(g, a), b) == WithTop(g, b)
  {}

  function AfterItems(g: Guard, items: seq<Item>): Guard
    requires g.scopes != []
  {
    WithTop(g, Fold(Top(g), g.canEnd, Cells(items))).(canEnd := EndAfter(g.canEnd, items))
  }

  ghost predicate FitsAll(g: Guard, items: seq<Item>)
    requires g.scopes != []
  {
    && Low(items, MAX_NESTING + 1 - |g.scopes|)
    && AffordableAll(Top(g), g.canEnd, Cells(items))
  }

  lemma {:induction false} ItemsRun(g: Guard, items: seq<Item>)
    requires g.scopes != [] && |g.scopes| <= MAX_NESTING + 1
    requires forall i | 0 <= i < |items| :: WellFormed(items[i])
    ensures RunFrom(g, Flatten(items)) == if FitsAll(g, items) then Some(AfterItems(g, items)) else None
    decreases items, 0
  {
    if items == [] {
      TopFacts(g, Top(g), Top(g));
    } else {
      var x, rest := items[0], items[1..];
      ItemRuns(g, x);
      RunSplit(g, FlattenItem(x), Flatten(rest));
      FitsFirst(g, items);
      if Fits(g, x) {
        ItemsRun(AfterItem(g, x), rest);
      }
    }
  }

  lemma FitsFirst(g: Guard, items: seq<Item>)
    requires g.scopes != [] && items != []
    ensures FitsAll(g, items) == (Fits(g, items[0]) && FitsAll(AfterItem(g, items[0]), items[1..]))
    ensures AfterItems(g, items) == AfterItems(AfterItem(g, items[0]), items[1..])
  {
    var x, rest := items[0], items[1..];
    var p := Absorb(Top(g), g.canEnd, Cell(x, Depth(x)));
    CellsFirst(items);
    TopFacts(g, p, Fold(p, CanEnd(LastToken(x)), Cells(rest)));
    LowFirst(items, MAX_NESTING + 1 - |g.scopes|);
    var after := AfterItem(g, x);
    assert Top(after) == p && |after.scopes| == |g.scopes|;
  }

  ghost predicate Low(items: seq<Item>, height: int) {
    forall i | 0 <= i < |items| :: Bounded(items[i]) && Height(items[i]) <= height
  }

  lemma {:induction false} LowFirst(items: seq<Item>, height: int)
    requires items != []
    ensures Low(items, height) <==> Bounded(items[0]) && Height(items[0]) <= height && Low(items[1..], height)
  {
    var rest := items[1..];
    if Low(rest, height) && Bounded(items[0]) && Height(items[0]) <= height {
      assert forall i | 0 < i < |items| :: items[i] == rest[i - 1];
    }
  }

  lemma CellsFirst(items: seq<Item>)
    requires items != []
    ensures Cells(items) != [] && Cells(items)[0] == Cell(items[0], Depth(items[0]))
    ensures Cells(items)[1..] == Cells(items[1..])
  {}

  lemma {:induction false} ItemRuns(g: Guard, x: Item)
    requires g.scopes != [] && |g.scopes| <= MAX_NESTING + 1 && WellFormed(x)
    ensures RunFrom(g, FlattenItem(x)) == if Fits(g, x) then Some(AfterItem(g, x)) else None
    decreases x, 1
  {
    match x
    case Leaf(t) => LeafRuns(g, t);
    case Group(opening, body, closing) =>
      var inside := Flatten(body) + [Sym(closing)];
      assert FlattenItem(x) == [Sym(opening)] + inside;
      assert ([Sym(opening)] + inside)[1..] == inside;
      TallestChild(body);
      if |g.scopes| <= MAX_NESTING {
        var entered := Entered(g, opening);
        EnterRuns(g, opening);
        RunSplit(entered, Flatten(body), [Sym(closing)]);
        ItemsRun(entered, body);
        BodyFits(g, x);
        if FitsAll(entered, body) {
          LeaveRuns(g, x);
        }
      }
  }

  function Entered(g: Guard, opening: Symbol): Guard
    requires g.scopes != []
  {
    var parent := if BreaksBefore(Group(opening, [], opening), g.canEnd) then Finish(Top(g)) else Top(g);
    Guard(g.scopes[..|g.scopes| - 1] + [parent] + [NewScope(opening, g.canEnd)], false)
  }

  lemma EnterRuns(g: Guard, opening: Symbol)
    requires g.scopes != [] && |g.scopes| <= MAX_NESTING && Opens(opening)
    ensures Step(g, Sym(opening)) == Some(Entered(g, opening))
  {}

  /** Inside a scope the guard's checks are the bound on its depth. */
  lemma BodyFits(g: Guard, x: Item)
    requires g.scopes != [] && |g.scopes| <= MAX_NESTING && x.Group? && WellFormed(x)
    ensures FitsAll(Entered(g, x.opening), x.body) <==> Bounded(x) && |g.scopes| + Height(x) <= MAX_NESTING + 1
    ensures FitsAll(Entered(g, x.opening), x.body) ==>
              Finish(Top(AfterItems(Entered(g, x.opening), x.body))).deepest == Depth(x)
  {
    var p := NewScope(x.opening, g.canEnd);
    FoldMeaning(p, [], false, Cells(x.body));
    assert Top(Entered(g, x.opening)) == p;
    TallestChild(x.body);
    var heights := seq(|x.body|, i requires 0 <= i < |x.body| => Height(x.body[i]));
    assert forall i | 0 <= i < |x.body| :: heights[i] == Height(x.body[i]);
    MaxBounds(heights, MAX_NESTING - |g.scopes|);
  }

  lemma TallestChild(body: seq<Item>)
    ensures forall opening, closing :: Height(Group(opening, body, closing)) >= 1
  {}

  lemma {:induction false} MaxBounds(s: seq<nat>, bound: nat)
    ensures MaxOf(s) <= bound <==> forall i | 0 <= i < |s| :: s[i] <= bound
    decreases |s|
  {
    if s != [] {
      MaxBounds(s[1..], bound);
      assert forall i | 0 < i < |s| :: s[i] == s[1..][i - 1];
    }
  }

  lemma LeaveRuns(g: Guard, x: Item)
    requires g.scopes != [] && |g.scopes| <= MAX_NESTING && x.Group? && WellFormed(x)
    requires FitsAll(Entered(g, x.opening), x.body)
    requires Finish(Top(AfterItems(Entered(g, x.opening), x.body))).deepest == Depth(x)
    ensures RunFrom(AfterItems(Entered(g, x.opening), x.body), [Sym(x.closing)])
            == if Affordable(Top(g), g.canEnd, Cell(x, Depth(x))) then Some(AfterItem(g, x)) else None
  {
    var inner := AfterItems(Entered(g, x.opening), x.body);
    assert [Sym(x.closing)][1..] == [];
    FoldKeeps(NewScope(x.opening, g.canEnd), false, Cells(x.body));
    assert inner.scopes[|inner.scopes| - 2] == Entered(g, x.opening).scopes[|g.scopes| - 1];
    assert inner.scopes[..|inner.scopes| - 2] == g.scopes[..|g.scopes| - 1];
    CloseRuns(g, x, inner);
  }

  lemma {:induction false} CloseRuns(g: Guard, x: Item, inner: Guard)
    requires g.scopes != [] && x.Group? && Opens(x.opening) && Matches(x.opening, x.closing)
    requires |inner.scopes| == |g.scopes| + 1
    requires inner.scopes[..|g.scopes| - 1] == g.scopes[..|g.scopes| - 1]
    requires inner.scopes[|g.scopes| - 1] == if BreaksBefore(x, g.canEnd) then Finish(Top(g)) else Top(g)
    requires Top(inner).opening == Some(x.opening) && Top(inner).nesting == Nesting(x.opening, g.canEnd)
    requires Finish(Top(inner)).deepest == Depth(x)
    ensures Step(inner, Sym(x.closing))
            == if Affordable(Top(g), g.canEnd, Cell(x, Depth(x))) then Some(AfterItem(g, x)) else None
  {
    assert Closes(x.closing);
    ClosingStep(inner, x.closing);
  }

  lemma ClosingStep(g: Guard, s: Symbol)
    requires g.scopes != [] && Closes(s)
    ensures var closed := CloseScope(g, s);
            Step(g, Sym(s)) == if closed.None? then None else Some(closed.value.(canEnd := CanEnd(Sym(s))))
  {
    assert !Opens(s) && BeginStatement(g, Sym(s)) == g;
  }

  lemma {:induction false} FoldKeeps(p: Scope, canEnd: bool, cells: seq<Cell>)
    ensures Fold(p, canEnd, cells).opening == p.opening && Fold(p, canEnd, cells).nesting == p.nesting
    decreases |cells|
  {
    if cells != [] {
      FoldKeeps(Absorb(p, canEnd, cells[0]), CanEnd(LastToken(cells[0].item)), cells[1..]);
    }
  }

  // ----- The tree of an accepted stream

  /** A scope still open while the stream is being read: its opening symbol and the items in it so far. */
  datatype Frame = Frame(opening: Option<Symbol>, items: seq<Item>)

  function FlattenFrame(f: Frame): seq<Token> {
    (if f.opening.Some? then [Sym(f.opening.value)] else []) + Flatten(f.items)
  }

  function FlattenFrames(frames: seq<Frame>): seq<Token> {
    if frames == [] then [] else FlattenFrames(frames[..|frames| - 1]) + FlattenFrame(frames[|frames| - 1])
  }

  ghost predicate WellFramed(f: Frame) {
    && (f.opening.Some? ==> Opens(f.opening.value))
    && forall i | 0 <= i < |f.items| :: WellFormed(f.items[i])
  }

  /** The frames are those of the guard's open scopes. */
  ghost predicate Framed(frames: seq<Frame>, g: Guard) {
    && |frames| == |g.scopes|
    && forall i | 0 <= i < |frames| :: frames[i].opening == g.scopes[i].opening && WellFramed(frames[i])
  }

  lemma {:induction false} FlattenAppend(items: seq<Item>, x: Item)
    ensures Flatten(items + [x]) == Flatten(items) + FlattenItem(x)
    decreases |items|
  {
    if items == [] {
      assert [x][1..] == [] && [] + [x] == [x];
    } else {
      assert (items + [x])[1..] == items[1..] + [x];
      FlattenAppend(items[1..], x);
    }
  }

  lemma FramesAppend(frames: seq<Frame>, f: Frame)
    ensures FlattenFrames(frames + [f]) == FlattenFrames(frames) + FlattenFrame(f)
  {
    assert (frames + [f])[..|frames|] == frames;
  }

  /** One more item in the innermost frame. */
  lemma Add(frames: seq<Frame>, f: Frame, x: Item) returns (grown: Frame)
    requires WellFramed(f) && WellFormed(x)
    ensures grown.opening == f.opening && WellFramed(grown)
    ensures FlattenFrames(frames + [grown]) == FlattenFrames(frames + [f]) + FlattenItem(x)
  {
    grown := Frame(f.opening, f.items + [x]);
    FrameAppend(f, x);
    FramesAppend(frames, f);
    FramesAppend(frames, grown);
    Associates(FlattenFrames(frames), FlattenFrame(f), FlattenItem(x));
  }

  lemma FrameAppend(f: Frame, x: Item)
    ensures FlattenFrame(Frame(f.opening, f.items + [x])) == FlattenFrame(f) + FlattenItem(x)
  {
    FlattenAppend(f.items, x);
    var opening := if f.opening.Some? then [Sym(f.opening.value)] else [];
    Associates(opening, Flatten(f.items), FlattenItem(x));
  }

  ghost predicate SameOpenings(a: Guard, b: Guard, n: nat) {
    n <= |a.scopes| && n <= |b.scopes| && forall i | 0 <= i < n :: a.scopes[i].opening == b.scopes[i].opening
  }

  /** What a token does to the stack of openings. */
  lemma {:induction false} OpeningsAfter(g: Guard, t: Token)
    requires g.scopes != [] && Step(g, t).Some?
    ensures !t.Bad?
    ensures var next := Step(g, t).value;
            if t.Sym? && Opens(t.symbol) then
              && |next.scopes| == |g.scopes| + 1 && next.scopes[|g.scopes|].opening == Some(t.symbol)
              && SameOpenings(next, g, |g.scopes|)
            else if t.Sym? && Closes(t.symbol) then
              && |next.scopes| == |g.scopes| - 1 && Top(g).opening.Some? && Matches(Top(g).opening.value, t.symbol)
              && SameOpenings(next, g, |next.scopes|)
            else
              |next.scopes| == |g.scopes| && SameOpenings(next, g, |g.scopes|)
  {
    var begun := BeginStatement(g, t);
    assert |begun.scopes| == |g.scopes| && SameOpenings(begun, g, |g.scopes|);
    if t.Sym? && Opens(t.symbol) {
      OpenedBy(begun, t.symbol);
    } else if t.Sym? && Closes(t.symbol) {
      ClosedBy(begun, t.symbol);
    } else {
      KeptBy(begun, t);
    }
  }

  lemma KeptBy(g: Guard, t: Token)
    requires g.scopes != [] && Handle(g, t).Some? && !(t.Sym? && (Opens(t.symbol) || Closes(t.symbol)))
    ensures !t.Bad? && |Handle(g, t).value.scopes| == |g.scopes| && SameOpenings(Handle(g, t).value, g, |g.scopes|)
  {}

  lemma OpenedBy(g: Guard, s: Symbol)
    requires g.scopes != [] && OpenScope(g, s).Some?
    ensures var next := OpenScope(g, s).value;
            && |next.scopes| == |g.scopes| + 1 && next.scopes[|g.scopes|].opening == Some(s)
            && SameOpenings(next, g, |g.scopes|)
  {}

  lemma ClosedBy(g: Guard, s: Symbol)
    requires g.scopes != [] && CloseScope(g, s).Some?
    ensures var next := CloseScope(g, s).value;
            && |next.scopes| == |g.scopes| - 1 && Top(g).opening.Some? && Matches(Top(g).opening.value, s)
            && SameOpenings(next, g, |next.scopes|)
  {}

  lemma {:induction false} NextFrames(g: Guard, frames: seq<Frame>, t: Token) returns (next: seq<Frame>)
    requires g.scopes != [] && Step(g, t).Some? && Framed(frames, g)
    ensures Framed(next, Step(g, t).value) && FlattenFrames(next) == FlattenFrames(frames) + [t]
  {
    OpeningsAfter(g, t);
    if t.Sym? && Opens(t.symbol) {
      next := frames + [Frame(Some(t.symbol), [])];
      FramesAppend(frames, Frame(Some(t.symbol), []));
    } else if t.Sym? && Closes(t.symbol) {
      next := CloseFrame(frames, t.symbol);
    } else {
      next := LeafFrame(frames, t);
    }
  }

  /** The token becomes an item of the innermost frame. */
  lemma LeafFrame(frames: seq<Frame>, t: Token) returns (next: seq<Frame>)
    requires frames != [] && WellFormed(Leaf(t))
    requires forall i | 0 <= i < |frames| :: WellFramed(frames[i])
    ensures |next| == |frames|
    ensures forall i | 0 <= i < |next| :: next[i].opening == frames[i].opening && WellFramed(next[i])
    ensures FlattenFrames(next) == FlattenFrames(frames) + [t]
  {
    var k := |frames| - 1;
    var outer, top := frames[..k], frames[k];
    assert frames == outer + [top];
    var grown := Add(outer, top, Leaf(t));
    next := outer + [grown];
  }

  /** The innermost frame becomes an item of the one around it. */
  lemma {:induction false} CloseFrame(frames: seq<Frame>, closing: Symbol) returns (next: seq<Frame>)
    requires |frames| > 1 && frames[|frames| - 1].opening.Some?
    requires Matches(frames[|frames| - 1].opening.value, closing)
    requires forall i | 0 <= i < |frames| :: WellFramed(frames[i])
    ensures |next| == |frames| - 1
    ensures forall i | 0 <= i < |next| :: next[i].opening == frames[i].opening && WellFramed(next[i])
    ensures FlattenFrames(next) == FlattenFrames(frames) + [Sym(closing)]
  {
    var k := |frames| - 1;
    var outer, parent, top := frames[..k - 1], frames[k - 1], frames[k];
    assert frames[..k] == outer + [parent] && frames == frames[..k] + [top];
    var x := Group(top.opening.value, top.items, closing);
    var grown := Add(outer, parent, x);
    next := outer + [grown];
    FramesAppend(frames[..k], top);
    assert FlattenItem(x) == FlattenFrame(top) + [Sym(closing)];
  }

  lemma {:induction false} FramesOf(tokens: seq<Token>) returns (frames: seq<Frame>)
    requires RunFrom(Start, tokens).Some?
    ensures Framed(frames, RunFrom(Start, tokens).value) && FlattenFrames(frames) == tokens
    ensures RunFrom(Start, tokens).value.scopes[0].opening == None
    decreases |tokens|
  {
    if tokens == [] {
      frames := [Frame(None, [])];
      assert frames[..0] == [];
    } else {
      var k := |tokens| - 1;
      var before, t := tokens[..k], tokens[k];
      assert tokens == before + [t] && [t][1..] == [];
      RunSplit(Start, before, [t]);
      var earlier := FramesOf(before);
      var g := RunFrom(Start, before).value;
      frames := NextFrames(g, earlier, t);
      OpeningsAfter(g, t);
    }
  }

  /** The guard accepts a stream exactly when it is the reading of a tree of balanced scopes, nested at most
      64 deep, in which every expression's operators plus its heaviest child scope are at most 64. */
  lemma AcceptedExactly(tokens: seq<Token>)
    ensures Accepts(tokens)
            <==> |tokens| <= MAX_TOKENS && exists items :: Flatten(items) == tokens && Acceptable(items)
  {
    if Accepts(tokens) {
      var items := TreeOf(tokens);
      AcceptableExactly(items);
    }
    forall items | Flatten(items) == tokens && Acceptable(items) ensures |tokens| <= MAX_TOKENS ==> Accepts(tokens) {
      AcceptableExactly(items);
    }
  }

  lemma TreeOf(tokens: seq<Token>) returns (items: seq<Item>)
    requires RunFrom(Start, tokens).Some? && |RunFrom(Start, tokens).value.scopes| == 1
    ensures Flatten(items) == tokens && forall i | 0 <= i < |items| :: WellFormed(items[i])
  {
    var frames := FramesOf(tokens);
    items := frames[0].items;
    assert frames[..0] == [];
    assert frames == [Frame(None, items)];
  }

  /** On a tree the guard decides the measure, and it always ends in the outermost scope. */
  lemma AcceptableExactly(items: seq<Item>)
    requires forall i | 0 <= i < |items| :: WellFormed(items[i])
    ensures RunFrom(Start, Flatten(items)).Some? <==> Acceptable(items)
    ensures Acceptable(items) ==> |RunFrom(Start, Flatten(items)).value.scopes| == 1
  {
    ItemsRun(Start, items);
    FoldMeaning(Outermost, [], false, Cells(items));
  }
}
