/**
  A language of C on the categories of scraps: expressions and lists of statements, read from the
  left; and what the productions do to it.
 */
module Language {
  import opened Grammar
  import opened ParserTheorems

  // ----- Reading

  /**
    What may come next: an operand; an operand or what closes the parenthesis; what follows an
    operand; a statement; a statement or `}`; a statement in braces; a condition; what follows
    `case`, `return` and the like; the semicolon behind `do`...`while(...)`; the one behind a
    section name; or, behind a statement, whatever may follow it.
   */
  datatype Mode =
    | Operand | Fresh | Operator | Start | Opened | Braced | Cond | Case | Tail | Named | Done

  /**
    What is open: a parenthesis; a `?` without its `:`; the list of statements; a block; an `if`
    whose statement can have an `else`; a `do` without its `while`; or the condition that an `if`,
    a loop or the end of a `do` is waiting for.
   */
  datatype Bracket = Paren | Choice | Listing | Block | If | Do | IfCond | LoopCond | DoCond

  datatype Stack = Bottom | On(top: Bracket, below: Stack)

  datatype Reading = Dead | At(mode: Mode, open: Stack)

  predicate Has(open: Stack, b: Bracket) {
    open.On? && open.top == b
  }

  /** Statements can stand here. */
  predicate InStatement(open: Stack) {
    Has(open, Listing) || Has(open, Block) || Has(open, If) || Has(open, Do)
  }

  predicate Waiting(open: Stack) {
    Has(open, IfCond) || Has(open, LoopCond) || Has(open, DoCond)
  }

  /** Without the `if`s that will not have an `else`. */
  function DropIfs(open: Stack): (rest: Stack)
    ensures !Has(rest, If)
  {
    if Has(open, If) then DropIfs(open.below) else open
  }

  /** A binary operator that nothing else can be, a comparison with `<` or `>`, or a comma. */
  predicate Infix(c: Cat) {
    c == BINOP || c == COMMA || IsAngle(c)
  }

  /** An operator that is prefix or binary, as it comes in or after production 106. */
  predicate Either(c: Cat) {
    c == UNORBINOP || c == RAW_UNORBIN
  }

  /** A closing parenthesis or bracket, as it comes in or after production 104. */
  predicate Closing(c: Cat) {
    c == RPAR || c == RAW_RPAR
  }

  /** An operand is complete; it may be the condition of an `if` or a loop. */
  function After(open: Stack): Reading {
    if Has(open, IfCond) then At(Start, On(If, open.below))
    else if Has(open, LoopCond) then At(Start, open.below)
    else if Has(open, DoCond) then At(Tail, open.below)
    else At(Operator, open)
  }

  function NextOperand(open: Stack, c: Cat): Reading {
    if c == EXP then After(open)
    else if c == UNOP || Either(c) || c == SIZEOF_LIKE then At(Operand, open)
    else if c == LPAR then At(Fresh, On(Paren, open))
    else Dead
  }

  /** In parentheses there can be semicolons, as behind `for`. */
  function NextFresh(open: Stack, c: Cat): Reading {
    if Closing(c) && Has(open, Paren) then After(open.below)
    else if c == SEMI || c == STMT then At(Fresh, open)
    else NextOperand(open, c)
  }

  function NextOperator(open: Stack, c: Cat): Reading {
    if c == EXP then After(open)
    else if c == UNOP then At(Operator, open)
    else if Either(c) || Infix(c) then At(Operand, open)
    else if c == LPAR then At(Fresh, On(Paren, open))
    else if Closing(c) && Has(open, Paren) then After(open.below)
    else if c == QUESTION then At(Operand, On(Choice, open))
    else if c == COLON && Has(open, Choice) then At(Operand, open.below)
    else if c == COLON && InStatement(open) then At(Start, open)
    else if c == SEMI && Has(open, Paren) then At(Fresh, open)
    else if c == SEMI && InStatement(open) then At(Done, open)
    else Dead
  }

  function NextStart(open: Stack, c: Cat): Reading {
    if c == STMT || c == SEMI then At(Done, open)
    else if c == LBRACE then At(Opened, On(Block, open))
    else if c == IF_LIKE then At(Cond, On(IfCond, open))
    else if c == IF_CLAUSE then At(Start, On(If, open))
    else if c == IF_HEAD then At(Braced, On(If, open))
    else if c == FOR_LIKE then At(Cond, On(LoopCond, open))
    else if c == ELSE_LIKE || c == TAG then At(Start, open)
    else if c == ELSE_HEAD then At(Braced, open)
    else if c == DO_LIKE then At(Start, On(Do, open))
    else if c == CASE_LIKE then At(Case, open)
    else if c == SECTION_SCRAP then At(Named, open)
    else NextOperand(open, c)
  }

  function NextOpened(open: Stack, c: Cat): Reading {
    if c == RBRACE && Has(open, Block) then At(Done, open.below) else NextStart(open, c)
  }

  function NextBraced(open: Stack, c: Cat): Reading {
    if c == STMT then At(Done, open)
    else if c == LBRACE then At(Opened, On(Block, open))
    else Dead
  }

  function NextCond(open: Stack, c: Cat): Reading {
    if c == EXP || c == LPAR then NextOperand(open, c) else Dead
  }

  function NextCase(open: Stack, c: Cat): Reading {
    if c == SEMI then At(Done, open)
    else if c == COLON then At(Start, open)
    else NextOperand(open, c)
  }

  function NextTail(open: Stack, c: Cat): Reading {
    if c == SEMI then At(Done, open) else Dead
  }

  /** Behind a statement: its `else`, its `while`, the end of its block, or another statement. */
  function NextDone(open: Stack, c: Cat): Reading {
    if c == ELSE_LIKE && Has(open, If) then At(Start, open.below)
    else NextFrom(DropIfs(open), c)
  }

  function NextFrom(open: Stack, c: Cat): Reading {
    if Has(open, Do) then
      if c == FOR_LIKE then At(Cond, On(DoCond, open.below))
      else if c == ELSE_LIKE then At(Tail, open.below)
      else Dead
    else NextOpened(open, c)
  }

  function Next(r: Reading, c: Cat): Reading {
    if r.Dead? then Dead
    else
      match r.mode
      case Operand => NextOperand(r.open, c)
      case Fresh => NextFresh(r.open, c)
      case Operator => NextOperator(r.open, c)
      case Start => NextStart(r.open, c)
      case Opened => NextOpened(r.open, c)
      case Braced => NextBraced(r.open, c)
      case Cond => NextCond(r.open, c)
      case Case => NextCase(r.open, c)
      case Tail => NextTail(r.open, c)
      case Named => NextTail(r.open, c)
      case Done => NextDone(r.open, c)
  }

  function ReadOn(r: Reading, cs: seq<Cat>): Reading
    decreases |cs|
  {
    if cs == [] then r else ReadOn(Next(r, cs[0]), cs[1..])
  }

  /** What is read: one expression, or a list of statements. */
  datatype Goal = Expression | Statements

  function First(g: Goal): Reading {
    if g.Expression? then At(Operand, Bottom) else At(Start, On(Listing, Bottom))
  }

  predicate Last(g: Goal, r: Reading) {
    if g.Expression? then r == At(Operator, Bottom)
    else r.At? && r.mode.Done? && DropIfs(r.open) == On(Listing, Bottom)
  }

  predicate Sentence(g: Goal, cs: seq<Cat>) {
    Last(g, ReadOn(First(g), cs))
  }

  /** What a sentence should become. */
  function Phrase(g: Goal): Cat {
    if g.Expression? then EXP else STMT
  }

  lemma {:induction false} ReadConcat(r: Reading, a: seq<Cat>, b: seq<Cat>)
    ensures ReadOn(r, a + b) == ReadOn(ReadOn(r, a), b)
    decreases |a|
  {
    hide Next;
    if a == [] {
      assert a + b == b;
    } else {
      assert (a + b)[1..] == a[1..] + b;
      ReadConcat(Next(r, a[0]), a[1..], b);
    }
  }

  lemma {:induction false} DeadStays(cs: seq<Cat>)
    ensures ReadOn(Dead, cs) == Dead
    decreases |cs|
  {
    if cs != [] {
      DeadStays(cs[1..]);
    }
  }

  /** The reading before place i of a sentence. */
  function Before(g: Goal, cs: seq<Cat>, i: nat): Reading
    requires i <= |cs|
  {
    ReadOn(First(g), cs[..i])
  }

  lemma Alive(g: Goal, cs: seq<Cat>, i: nat)
    requires Sentence(g, cs) && i <= |cs|
    ensures !Before(g, cs, i).Dead?
    ensures i == 0 ==> Before(g, cs, i) == First(g)
    ensures i == |cs| ==> Last(g, Before(g, cs, i))
    ensures i < |cs| ==> Before(g, cs, i + 1) == Next(Before(g, cs, i), cs[i])
  {
    hide Next;
    assert cs == cs[..i] + cs[i..];
    ReadConcat(First(g), cs[..i], cs[i..]);
    DeadStays(cs[i..]);
    assert cs[..|cs|] == cs;
    if i < |cs| {
      assert cs[..i + 1] == cs[..i] + [cs[i]];
      ReadConcat(First(g), cs[..i], [cs[i]]);
      assert [cs[i]][1..] == [];
    }
  }

  // ----- What can be open

  /** Only a parenthesis can be open within a condition that is waited for. */
  predicate StackOK(open: Stack) {
    open.On? ==>
      && StackOK(open.below)
      && (open.top.Paren? || !Waiting(open.below))
      && (open.top.Block? || open.top.If? || open.top.Do? || Waiting(open) ==> InStatement(open.below))
  }

  predicate AroundStatement(m: Mode) {
    m.Start? || m.Opened? || m.Braced? || m.Case? || m.Tail? || m.Named? || m.Done?
  }

  /** The mode fits what is open. */
  predicate Proper(r: Reading) {
    r.At? ==>
      && StackOK(r.open)
      && (Waiting(r.open) <==> r.mode.Cond?)
      && (r.mode.Fresh? ==> Has(r.open, Paren))
      && (r.mode.Opened? ==> Has(r.open, Block))
      && (AroundStatement(r.mode) ==> InStatement(r.open))
  }

  lemma {:induction false} DropIfsOK(open: Stack)
    requires StackOK(open) && InStatement(open)
    ensures StackOK(DropIfs(open)) && InStatement(DropIfs(open))
  {
    if Has(open, If) {
      DropIfsOK(open.below);
    }
  }

  lemma AfterProper(open: Stack)
    requires StackOK(open)
    ensures Proper(After(open))
  {
  }

  lemma StartProper(open: Stack, c: Cat)
    requires StackOK(open) && InStatement(open)
    ensures Proper(NextStart(open, c)) && Proper(NextBraced(open, c)) && Proper(NextOpened(open, c))
    ensures Proper(NextCase(open, c)) && Proper(NextTail(open, c))
  {
    AfterProper(open);
    hide After;
  }

  lemma OperandProper(open: Stack, c: Cat)
    requires StackOK(open)
    ensures !Waiting(open) || c == EXP || c == LPAR ==> Proper(NextOperand(open, c))
    ensures Has(open, Paren) ==> Proper(NextFresh(open, c))
  {
    AfterProper(open);
    if open.On? {
      AfterProper(open.below);
    }
    hide After;
  }

  lemma OperatorProper(open: Stack, c: Cat)
    requires StackOK(open) && !Waiting(open)
    ensures Proper(NextOperator(open, c))
  {
    AfterProper(open);
    if open.On? {
      AfterProper(open.below);
    }
    hide After;
  }

  lemma DoneProper(open: Stack, c: Cat)
    requires StackOK(open) && InStatement(open)
    ensures Proper(NextDone(open, c))
  {
    DropIfsOK(open);
    StartProper(DropIfs(open), c);
    hide NextOpened;
  }

  lemma NextProper(r: Reading, c: Cat)
    requires Proper(r)
    ensures Proper(Next(r, c))
  {
    hide NextOperand, NextFresh, NextOperator, NextStart, NextOpened, NextBraced, NextCase,
         NextTail, NextDone, StackOK;
    if r.At? {
      OperandProper(r.open, c);
      if !Waiting(r.open) {
        OperatorProper(r.open, c);
      }
      if InStatement(r.open) {
        StartProper(r.open, c);
        DoneProper(r.open, c);
      }
    }
  }

  lemma {:induction false} BeforeProper(g: Goal, cs: seq<Cat>, i: nat)
    requires Sentence(g, cs) && i <= |cs|
    ensures Proper(Before(g, cs, i))
  {
    hide Next, Sentence;
    Alive(g, cs, i);
    if i > 0 {
      BeforeProper(g, cs, i - 1);
      Alive(g, cs, i - 1);
      NextProper(Before(g, cs, i - 1), cs[i - 1]);
    }
  }

  // ----- The productions that matter

  function Get(cs: seq<Cat>, i: nat): Cat {
    if i < |cs| then cs[i] else ZERO
  }

  /** How many scraps are consumed, what they become, and how far the position goes back. */
  datatype Fold = Fold(k: nat, cat: Cat, back: nat)

  const NO_FOLD := Fold(0, ZERO, 0)

  function FoldExp(c1: Cat, c2: Cat): Fold {
    if c1 == UNOP || c1 == EXP then Fold(2, EXP, 2)
    else if (c1 == BINOP || c1 == UNORBINOP || c1 == COMMA) && c2 == EXP then Fold(3, EXP, 2)
    else if c1 == SEMI then Fold(2, STMT, 1)
    else if c1 == COLON then Fold(2, TAG, 0)
    else NO_FOLD
  }

  function FoldLpar(c1: Cat, c2: Cat): Fold {
    if c1 == EXP && c2 == RPAR then Fold(3, EXP, 2)
    else if c1 == RPAR then Fold(2, EXP, 2)
    else if c1 == EXP && c2 == COMMA then Fold(3, LPAR, 0)
    else if c1 == STMT then Fold(2, LPAR, 0)
    else NO_FOLD
  }

  /** An `if` with its condition; `rest` is what it becomes when there is no `else`. */
  function FoldIf(c1: Cat, c2: Cat, c3: Cat, rest: Cat): Fold {
    if c1 != STMT then NO_FOLD
    else if c2 != ELSE_LIKE then Fold(1, rest, 0)
    else if c3 == IF_LIKE then Fold(4, IF_LIKE, 0)
    else Fold(3, ELSE_LIKE, 0)
  }

  function FoldCase(c1: Cat, c2: Cat): Fold {
    if c1 == SEMI then Fold(2, STMT, 1)
    else if c1 == COLON then Fold(2, TAG, 1)
    else if c1 == EXP && c2 == SEMI then Fold(3, STMT, 1)
    else if c1 == EXP && c2 == COLON then Fold(3, TAG, 1)
    else NO_FOLD
  }

  function FoldOne(c0: Cat): Fold {
    if c0 == RAW_RPAR then Fold(1, RPAR, 3)
    else if c0 == RAW_UNORBIN then Fold(1, UNORBINOP, 2)
    else if IsAngle(c0) then Fold(1, BINOP, 2)
    else if c0 == SEMI then Fold(1, STMT, 1)
    else NO_FOLD
  }

  function FoldTwo(c0: Cat, c1: Cat): Fold {
    if (c0 == UNOP || c0 == UNORBINOP || c0 == SIZEOF_LIKE) && c1 == EXP then Fold(2, EXP, 2)
    else if c0 == IF_LIKE && c1 == EXP then Fold(2, IF_CLAUSE, 0)
    else if c0 == FOR_LIKE && c1 == EXP then Fold(2, ELSE_LIKE, 2)
    else if c0 == ELSE_LIKE && c1 == LBRACE then Fold(1, ELSE_HEAD, 0)
    else if (c0 == ELSE_LIKE || c0 == ELSE_HEAD || c0 == TAG || c0 == STMT) && c1 == STMT then
      Fold(2, STMT, 1)
    else if c0 == TAG && c1 == TAG then Fold(2, TAG, 1)
    else if c0 == SECTION_SCRAP && c1 == SEMI then Fold(2, STMT, 2)
    else NO_FOLD
  }

  function FoldAll(c0: Cat, c1: Cat, c2: Cat, c3: Cat): Fold {
    if c0 == EXP then FoldExp(c1, c2)
    else if c0 == LPAR then FoldLpar(c1, c2)
    else if c0 == QUESTION then if c1 == EXP && c2 == COLON then Fold(3, BINOP, 2) else NO_FOLD
    else if c0 == LBRACE then
      if c1 == RBRACE then Fold(2, STMT, 1)
      else if c1 == STMT && c2 == RBRACE then Fold(3, STMT, 1)
      else NO_FOLD
    else if c0 == IF_CLAUSE then
      if c1 == LBRACE then Fold(1, IF_HEAD, 0) else FoldIf(c1, c2, c3, ELSE_LIKE)
    else if c0 == IF_HEAD then FoldIf(c1, c2, c3, ELSE_HEAD)
    else if c0 == DO_LIKE then
      if c1 == STMT && c2 == ELSE_LIKE && c3 == SEMI then Fold(4, STMT, 1) else NO_FOLD
    else if c0 == CASE_LIKE then FoldCase(c1, c2)
    else if FoldOne(c0) != NO_FOLD then FoldOne(c0)
    else FoldTwo(c0, c1)
  }

  function FoldAt(cs: seq<Cat>, p: nat): Fold
    requires p < |cs|
  {
    FoldAll(cs[p], Get(cs, p + 1), Get(cs, p + 2), Get(cs, p + 3))
  }

  predicate InExpression(c: Cat) {
    c == EXP || c == UNOP || c == SIZEOF_LIKE || c == LPAR || Either(c) || Closing(c) || Infix(c) ||
    c == QUESTION || c == COLON
  }

  predicate InLanguage(c: Cat) {
    InExpression(c) || c == STMT || c == SEMI || c == LBRACE || c == RBRACE || c == IF_LIKE ||
    c == IF_CLAUSE || c == IF_HEAD || c == FOR_LIKE || c == ELSE_LIKE || c == ELSE_HEAD ||
    c == DO_LIKE || c == CASE_LIKE || c == TAG || c == SECTION_SCRAP
  }

  /** Neighbours that occur in sentences. */
  predicate Neighbours(c0: Cat, c1: Cat, c2: Cat, c3: Cat) {
    && (c0 == BINOP || c0 == UNORBINOP ==> c1 != BINOP)
    && (c0 == LPAR && c1 == UNORBINOP ==> c2 != RPAR)
    && (c0 == EXP ==> c1 != LBRACE && c1 != RBRACE)
    && (c0 == LBRACE && c1 == EXP ==> c2 != RBRACE && !(c2 == COMMA && c3 == RBRACE))
    && (c0 == IF_HEAD || c0 == ELSE_HEAD ==> c1 != EXP)
    && (c0 == SECTION_SCRAP ==> c1 == SEMI)
  }

  lemma PlainMatch(c0: Cat, c1: Cat, c2: Cat, c3: Cat, forceLines: bool)
    requires forall c :: c in [c1, c2, c3] ==> InLanguage(c) || c == ZERO
    ensures Match(c0, c1, c2, c3, forceLines) == MatchOn(c0, c1, c2, c3, forceLines)
  {
    hide MatchOn;
    assert c1 in [c1, c2, c3] && c2 in [c1, c2, c3] && c3 in [c1, c2, c3];
  }

  /** The rule consumes the scraps from the position on as the fold says. */
  predicate Does(r: Rule, f: Fold) {
    && (r.NoRule? <==> f.k == 0)
    && (f.k != 0 ==> r.j == 0 && r.k == f.k && r.cat == f.cat && r.d + f.back == 0)
    && (r.Reduce? ==> !r.prog.Reserve?)
  }

  lemma ExpressionFolds(c0: Cat, c1: Cat, c2: Cat, c3: Cat, forceLines: bool)
    requires InExpression(c0) && Neighbours(c0, c1, c2, c3)
    requires forall c :: c in [c1, c2, c3] ==> InLanguage(c) || c == ZERO
    ensures Does(MatchOn(c0, c1, c2, c3, forceLines), FoldAll(c0, c1, c2, c3))
  {
    assert c1 in [c1, c2, c3] && c2 in [c1, c2, c3] && c3 in [c1, c2, c3];
  }

  lemma IfFolds(c0: Cat, c1: Cat, c2: Cat, c3: Cat, forceLines: bool)
    requires c0 == IF_CLAUSE || c0 == IF_HEAD
    requires Neighbours(c0, c1, c2, c3)
    ensures Does(MatchOn(c0, c1, c2, c3, forceLines), FoldAll(c0, c1, c2, c3))
  {
  }

  lemma BlockFolds(c0: Cat, c1: Cat, c2: Cat, c3: Cat, forceLines: bool)
    requires c0 == LBRACE || c0 == DO_LIKE || c0 == CASE_LIKE || c0 == RBRACE
    requires Neighbours(c0, c1, c2, c3)
    requires forall c :: c in [c1, c2, c3] ==> InLanguage(c) || c == ZERO
    ensures Does(MatchOn(c0, c1, c2, c3, forceLines), FoldAll(c0, c1, c2, c3))
  {
    assert c1 in [c1, c2, c3] && c2 in [c1, c2, c3] && c3 in [c1, c2, c3];
  }

  lemma OtherFolds(c0: Cat, c1: Cat, c2: Cat, c3: Cat, forceLines: bool)
    requires InLanguage(c0) && !InExpression(c0) && c0 != IF_CLAUSE && c0 != IF_HEAD
    requires c0 != LBRACE && c0 != DO_LIKE && c0 != CASE_LIKE && c0 != RBRACE
    requires Neighbours(c0, c1, c2, c3)
    requires forall c :: c in [c1, c2, c3] ==> InLanguage(c) || c == ZERO
    ensures Does(MatchOn(c0, c1, c2, c3, forceLines), FoldAll(c0, c1, c2, c3))
  {
    assert c1 in [c1, c2, c3] && c2 in [c1, c2, c3] && c3 in [c1, c2, c3];
  }

  /** On the neighbours of sentences the productions do what the fold says. */
  lemma RuleFolds(c0: Cat, c1: Cat, c2: Cat, c3: Cat, forceLines: bool)
    requires InLanguage(c0) && Neighbours(c0, c1, c2, c3)
    requires forall c :: c in [c1, c2, c3] ==> InLanguage(c) || c == ZERO
    ensures Does(Match(c0, c1, c2, c3, forceLines), FoldAll(c0, c1, c2, c3))
  {
    hide Match, MatchOn, FoldAll, Does, Neighbours, InLanguage, InExpression;
    PlainMatch(c0, c1, c2, c3, forceLines);
    if InExpression(c0) {
      ExpressionFolds(c0, c1, c2, c3, forceLines);
    } else if c0 == IF_CLAUSE || c0 == IF_HEAD {
      IfFolds(c0, c1, c2, c3, forceLines);
    } else if c0 == LBRACE || c0 == DO_LIKE || c0 == CASE_LIKE || c0 == RBRACE {
      BlockFolds(c0, c1, c2, c3, forceLines);
    } else {
      OtherFolds(c0, c1, c2, c3, forceLines);
    }
  }

  // ----- Places where nothing is left to do

  /** A production applies, other than the one that joins tags, which can come too late. */
  predicate Fires(cs: seq<Cat>, i: nat)
    requires i < |cs|
  {
    FoldAt(cs, i).k != 0 && !(cs[i] == TAG && Get(cs, i + 1) == TAG)
  }

  /** No production applies before place p. */
  ghost predicate Quiet(cs: seq<Cat>, p: nat) {
    forall i :: 0 <= i < p && i < |cs| ==> !Fires(cs, i)
  }

  /** Something ends here. */
  predicate Closer(c: Cat) {
    c == RPAR || c == COLON || c == SEMI || c == RBRACE
  }

  /** Nothing ends before place p, and no production applies. */
  ghost predicate Settled(g: Goal, cs: seq<Cat>, p: nat) {
    && Sentence(g, cs) && p <= |cs| && Quiet(cs, p)
    && forall i :: 0 <= i < p ==> !Closer(cs[i])
  }

  /** What always applies. */
  predicate Raw(c: Cat) {
    c == RAW_RPAR || c == RAW_UNORBIN || IsAngle(c)
  }

  /** What the category before a place can be. */
  lemma CameFrom(r: Reading, c: Cat)
    requires Proper(r) && !Closer(c) && !Raw(c) && Next(r, c).At?
    ensures var m, open := Next(r, c).mode, Next(r, c).open;
            match m
            case Operator =>
              (c == EXP && (open == r.open || InStatement(open))) || (c == UNOP && r.mode.Operator?)
            case Operand =>
              c == UNOP || c == UNORBINOP || c == SIZEOF_LIKE || (c == QUESTION && Has(open, Choice)) ||
              ((c == BINOP || c == COMMA) && r.mode.Operator?)
            case Fresh => c == LPAR || (c == STMT && r.mode.Fresh?)
            case Start =>
              c == ELSE_LIKE || c == IF_CLAUSE || c == TAG || (c == DO_LIKE && Has(open, Do)) ||
              (c == EXP && r.mode.Cond?)
            case Opened => c == LBRACE && Has(open, Block)
            case Braced => c == ELSE_HEAD || c == IF_HEAD
            case Cond => c == IF_LIKE || c == FOR_LIKE
            case Case => c == CASE_LIKE
            case Tail =>
              (c == ELSE_LIKE && r.mode.Done? && Has(DropIfs(r.open), Do)) || (c == EXP && r.mode.Cond?)
            case Named => c == SECTION_SCRAP
            case Done => c == STMT && (open == r.open || r.mode.Done?)
  {
    if r.At? && r.mode.Done? {
      DropIfsOK(r.open);
    }
  }

  /** The same within a sentence. */
  lemma Behind(g: Goal, cs: seq<Cat>, p: nat, i: nat)
    requires Settled(g, cs, p) && 0 < i <= p
    ensures Proper(Before(g, cs, i - 1)) && Proper(Before(g, cs, i))
    ensures Before(g, cs, i - 1).At? && Before(g, cs, i).At?
    ensures Before(g, cs, i) == Next(Before(g, cs, i - 1), cs[i - 1])
    ensures !Closer(cs[i - 1]) && !Raw(cs[i - 1])
    ensures Settled(g, cs, i - 1)
  {
    hide Next, Sentence, Before, FoldAt;
    Alive(g, cs, i - 1);
    Alive(g, cs, i);
    BeforeProper(g, cs, i - 1);
    BeforeProper(g, cs, i);
    assert !Fires(cs, i - 1);
    RawFires(cs, i - 1);
  }

  lemma RawFires(cs: seq<Cat>, i: nat)
    requires i < |cs|
    ensures Raw(cs[i]) || cs[i] == SEMI ==> Fires(cs, i)
  {
  }

  /** A postfix operator is consumed with the operand before it. */
  lemma {:induction false} NoPostfix(g: Goal, cs: seq<Cat>, p: nat, i: nat)
    requires Settled(g, cs, p) && i < p && cs[i] == UNOP && Before(g, cs, i).At?
    ensures !Before(g, cs, i).mode.Operator?
    decreases i
  {
    hide Next, Sentence, Before, Proper, FoldAll;
    if Before(g, cs, i).mode.Operator? {
      if i == 0 {
        Alive(g, cs, 0);
      } else {
        Behind(g, cs, p, i);
        CameFrom(Before(g, cs, i - 1), cs[i - 1]);
        if cs[i - 1] == UNOP {
          NoPostfix(g, cs, p, i - 1);
        }
        ExpFires(cs, i - 1);
      }
    }
  }

  lemma ExpFires(cs: seq<Cat>, i: nat)
    requires i < |cs| && cs[i] == EXP
    ensures FoldAt(cs, i) == FoldExp(Get(cs, i + 1), Get(cs, i + 2))
    ensures FoldAt(cs, i).k != 0 <==> Fires(cs, i)
  {
  }

  /** An operand is consumed with what stands before it. */
  lemma OperandFires(cs: seq<Cat>, i: nat)
    requires i + 1 < |cs| && cs[i + 1] == EXP
    ensures (cs[i] == EXP || cs[i] == UNOP || cs[i] == UNORBINOP || cs[i] == SIZEOF_LIKE ||
             cs[i] == IF_LIKE || cs[i] == FOR_LIKE) ==> Fires(cs, i)
    ensures i > 0 && cs[i - 1] == EXP && (cs[i] == BINOP || cs[i] == COMMA) ==> Fires(cs, i - 1)
  {
  }

  /** So is a statement. */
  lemma StatementFires(cs: seq<Cat>, i: nat)
    requires i + 1 < |cs| && cs[i + 1] == STMT
    ensures (cs[i] == LPAR || cs[i] == STMT || cs[i] == ELSE_LIKE || cs[i] == ELSE_HEAD ||
             cs[i] == IF_CLAUSE || cs[i] == IF_HEAD || cs[i] == TAG) ==> Fires(cs, i)
  {
  }

  lemma NotHere(r: Reading)
    requires r.At?
    ensures r.mode.Braced? || r.mode.Tail? || r.mode.Named? ==> Next(r, EXP).Dead?
    ensures (r.mode.Operand? || r.mode.Operator? || r.mode.Cond? || r.mode.Case? || r.mode.Tail? ||
             r.mode.Named?) ==> Next(r, STMT).Dead?
  {
  }

  lemma ProperStatement(r: Reading)
    requires Proper(r) && r.At?
    ensures AroundStatement(r.mode) ==> InStatement(r.open)
    ensures r.mode.Fresh? ==> Has(r.open, Paren)
  {
  }

  /** A settled place and the two before it. */
  lemma Around(g: Goal, cs: seq<Cat>, p: nat)
    requires Settled(g, cs, p) && p < |cs|
    ensures Proper(Before(g, cs, p)) && Before(g, cs, p).At?
    ensures AroundStatement(Before(g, cs, p).mode) ==> InStatement(Before(g, cs, p).open)
    ensures Before(g, cs, p).mode.Fresh? ==> Has(Before(g, cs, p).open, Paren)
    ensures Next(Before(g, cs, p), cs[p]).At?
    ensures Before(g, cs, 0) == First(g)
    ensures p > 0 ==> !Fires(cs, p - 1) && Before(g, cs, p - 1).At? && Settled(g, cs, p - 1)
    ensures p > 1 ==> !Fires(cs, p - 2) && Before(g, cs, p - 2).At?
  {
    hide Next, Sentence, Before, Proper, FoldAt;
    Alive(g, cs, 0);
    Alive(g, cs, p);
    BeforeProper(g, cs, p);
    Alive(g, cs, p + 1);
    ProperStatement(Before(g, cs, p));
    if p > 0 {
      Behind(g, cs, p, p);
      if p > 1 {
        Behind(g, cs, p, p - 1);
      }
    }
  }

  /** Where a statement can stand with nothing to do before it. */
  lemma StatementPlace(g: Goal, cs: seq<Cat>, p: nat)
    requires Settled(g, cs, p) && p < |cs| && cs[p] == STMT
    ensures Proper(Before(g, cs, p)) && Before(g, cs, p).At?
    ensures var r := Before(g, cs, p);
            match r.mode
            case Start => p == 0 || (cs[p - 1] == DO_LIKE && Has(r.open, Do))
            case Opened => p > 0 && cs[p - 1] == LBRACE && Has(r.open, Block)
            case _ => false
  {
    hide Next, Sentence, Before, Proper, FoldAt, Fires, Settled;
    Around(g, cs, p);
    NotHere(Before(g, cs, p));
    if p > 0 {
      Behind(g, cs, p, p);
      CameFrom(Before(g, cs, p - 1), cs[p - 1]);
      StatementFires(cs, p - 1);
      if p > 1 {
        Behind(g, cs, p, p - 1);
        CameFrom(Before(g, cs, p - 2), cs[p - 2]);
        if cs[p - 1] == EXP {
          OperandFires(cs, p - 2);
        }
      }
    }
  }

  /** Where an operand can stand with nothing to do before it. */
  lemma OperandPlace(g: Goal, cs: seq<Cat>, p: nat)
    requires Settled(g, cs, p) && p < |cs| && cs[p] == EXP
    ensures Proper(Before(g, cs, p)) && Before(g, cs, p).At?
    ensures AroundStatement(Before(g, cs, p).mode) ==> InStatement(Before(g, cs, p).open)
    ensures p == 0 ==> Before(g, cs, p) == First(g)
    ensures var r := Before(g, cs, p);
            match r.mode
            case Start | Opened | Done | Case => true
            case Fresh => p > 0 && cs[p - 1] == LPAR && Has(r.open, Paren)
            case Operand => p == 0 || (cs[p - 1] == QUESTION && Has(r.open, Choice))
            case _ => false
  {
    hide Next, Sentence, Before, Proper, FoldAt, Fires, Settled;
    Around(g, cs, p);
    NotHere(Before(g, cs, p));
    if p > 0 {
      Behind(g, cs, p, p);
      CameFrom(Before(g, cs, p - 1), cs[p - 1]);
      OperandFires(cs, p - 1);
      if cs[p - 1] == STMT {
        StatementPlace(g, cs, p - 1);
      } else if p > 1 {
        Behind(g, cs, p, p - 1);
        CameFrom(Before(g, cs, p - 2), cs[p - 2]);
        if cs[p - 2] == UNOP {
          NoPostfix(g, cs, p, p - 2);
        }
      }
    }
  }

  /** Where something can end. */
  lemma CloserNext(r: Reading, c: Cat)
    requires Proper(r) && Closer(c) && Next(r, c).At?
    ensures match r.mode
            case Operator => c == COLON || c == SEMI || (c == RPAR && Has(r.open, Paren))
            case Fresh => c == RPAR || c == SEMI
            case Start => c == SEMI
            case Opened => c == SEMI || c == RBRACE
            case Done => c == SEMI || (c == RBRACE && Has(DropIfs(r.open), Block))
            case Case => c == SEMI || c == COLON
            case Tail | Named => c == SEMI
            case _ => false
  {
  }

  lemma CloserFires(cs: seq<Cat>, i: nat)
    requires i + 1 < |cs|
    ensures cs[i] == EXP && (cs[i + 1] == SEMI || cs[i + 1] == COLON) ==> Fires(cs, i)
    ensures cs[i] == LPAR && cs[i + 1] == RPAR ==> Fires(cs, i)
    ensures cs[i] == LBRACE && cs[i + 1] == RBRACE ==> Fires(cs, i)
    ensures cs[i] == CASE_LIKE && (cs[i + 1] == SEMI || cs[i + 1] == COLON) ==> Fires(cs, i)
    ensures cs[i] == SECTION_SCRAP && cs[i + 1] == SEMI ==> Fires(cs, i)
  {
  }

  lemma TwoBackFires(cs: seq<Cat>, i: nat)
    requires i + 2 < |cs|
    ensures cs[i] == LPAR && cs[i + 1] == EXP && cs[i + 2] == RPAR ==> Fires(cs, i)
    ensures cs[i] == LBRACE && cs[i + 1] == STMT && cs[i + 2] == RBRACE ==> Fires(cs, i)
    ensures cs[i] == QUESTION && cs[i + 1] == EXP && cs[i + 2] == COLON ==> Fires(cs, i)
    ensures cs[i] == CASE_LIKE && cs[i + 1] == EXP && (cs[i + 2] == SEMI || cs[i + 2] == COLON) ==>
              Fires(cs, i)
    ensures (i + 3 < |cs| && cs[i] == DO_LIKE && cs[i + 1] == STMT && cs[i + 2] == ELSE_LIKE &&
             cs[i + 3] == SEMI) ==> Fires(cs, i)
  {
  }

  /** The end of a `do` is consumed with its beginning. */
  lemma TailFires(g: Goal, cs: seq<Cat>, j: nat)
    requires Settled(g, cs, j) && j < |cs| && cs[j] == SEMI && Before(g, cs, j).At?
    ensures !Before(g, cs, j).mode.Tail?
  {
    hide Next, Sentence, Before, Proper, FoldAt, Fires, Settled;
    Around(g, cs, j);
    if j == 0 || !Before(g, cs, j).mode.Tail? {
      return;
    }
    Behind(g, cs, j, j);
    CameFrom(Before(g, cs, j - 1), cs[j - 1]);
    Behind(g, cs, j, j - 1);
    CameFrom(Before(g, cs, j - 2), cs[j - 2]);
    if cs[j - 1] == EXP {
      OperandFires(cs, j - 2);
    } else {
      StatementPlace(g, cs, j - 2);
      if j > 2 {
        Around(g, cs, j - 1);
        TwoBackFires(cs, j - 3);
      }
    }
  }

  /** At a settled place nothing ends but an empty statement. */
  lemma CloserPlace(g: Goal, cs: seq<Cat>, j: nat)
    requires Settled(g, cs, j) && j < |cs| && Closer(cs[j])
    ensures Before(g, cs, j).At? && cs[j] == SEMI
    ensures var m := Before(g, cs, j).mode; m.Start? || m.Opened? || m.Done? || m.Fresh?
  {
    hide Next, Sentence, Before, Proper, FoldAt, Fires, Settled;
    Around(g, cs, j);
    CloserNext(Before(g, cs, j), cs[j]);
    if cs[j] == SEMI {
      TailFires(g, cs, j);
    }
    if j > 0 {
      Behind(g, cs, j, j);
      CameFrom(Before(g, cs, j - 1), cs[j - 1]);
      CloserFires(cs, j - 1);
      if cs[j - 1] == UNOP {
        NoPostfix(g, cs, j, j - 1);
      } else if cs[j - 1] == EXP {
        OperandPlace(g, cs, j - 1);
      } else if cs[j - 1] == STMT {
        StatementPlace(g, cs, j - 1);
      }
      if j > 1 {
        TwoBackFires(cs, j - 2);
      }
    }
  }

  /** Before a place where nothing is left to do nothing has ended. */
  lemma {:induction false} QuietSettled(g: Goal, cs: seq<Cat>, p: nat)
    requires Sentence(g, cs) && Quiet(cs, p) && p <= |cs|
    ensures Settled(g, cs, p)
  {
    hide Sentence, Closer, Fires;
    if p > 0 {
      QuietSettled(g, cs, p - 1);
      if Closer(cs[p - 1]) {
        CloserPlace(g, cs, p - 1);
        RawFires(cs, p - 1);
      }
    }
  }

  /** A sentence that no production changes is one phrase. */
  lemma QuietIsPhrase(g: Goal, cs: seq<Cat>)
    requires Sentence(g, cs) && Quiet(cs, |cs|)
    ensures cs == [Phrase(g)]
  {
    hide Next, Before, Proper, FoldAt, Fires;
    var n := |cs|;
    QuietSettled(g, cs, n);
    Alive(g, cs, n);
    Alive(g, cs, 0);
    hide Settled, Sentence;
    if n > 0 {
      Behind(g, cs, n, n);
      CameFrom(Before(g, cs, n - 1), cs[n - 1]);
      if cs[n - 1] == UNOP {
        NoPostfix(g, cs, n, n - 1);
      } else if cs[n - 1] == EXP {
        OperandPlace(g, cs, n - 1);
      } else {
        StatementPlace(g, cs, n - 1);
      }
    }
  }

  // ----- A production keeps a sentence a sentence

  /** What is known about a settled place with c0 and c1 at it. */
  predicate Placed(r: Reading, c0: Cat, c1: Cat) {
    && Proper(r) && r.At? && (r.mode.Done? ==> !Has(r.open, If))
    && (c0 == EXP ==> !r.mode.Cond? && !r.mode.Operator?)
    && (c0 == EXP && r.mode.Operand? ==> !InStatement(r.open) && !Has(r.open, Paren))
    && (c0 == ELSE_LIKE && c1 == LBRACE ==> Next(Next(r, c0), c1).At?)
    && (c0 == EXP && c1 == SEMI ==> !r.mode.Case?)
    && (c0 == EXP && c1 == COLON ==> !r.mode.Case? && !Has(r.open, Choice))
    && (c0 == STMT ==> !Has(r.open, If))
    && (c0 == SEMI ==> r.mode.Start? || r.mode.Opened? || r.mode.Done? || r.mode.Fresh?)
  }

  lemma PlaceOK(g: Goal, cs: seq<Cat>, p: nat)
    requires Settled(g, cs, p) && p < |cs| && Sentence(g, cs)
    ensures Placed(Before(g, cs, p), cs[p], Get(cs, p + 1))
  {
    hide Next, Sentence, Before, Proper, FoldAt, Fires, Settled;
    var r := Before(g, cs, p);
    Around(g, cs, p);
    if p + 1 < |cs| {
      Alive(g, cs, p);
      Alive(g, cs, p + 1);
      Alive(g, cs, p + 2);
    }
    if p > 0 {
      Behind(g, cs, p, p);
      CameFrom(Before(g, cs, p - 1), cs[p - 1]);
      if cs[p - 1] == STMT {
        StatementPlace(g, cs, p - 1);
      }
      if p + 1 < |cs| {
        TwoBackFires(cs, p - 1);
      }
    }
    if cs[p] == EXP {
      OperandPlace(g, cs, p);
      if Has(r.open, Choice) && r.mode.Operand? && p > 0 {
        assert cs[p - 1] == QUESTION;
      }
    } else if cs[p] == STMT {
      StatementPlace(g, cs, p);
    } else if cs[p] == SEMI {
      CloserPlace(g, cs, p);
    }
  }

  /** The reading behind the first k categories. */
  function Past(r: Reading, c0: Cat, c1: Cat, c2: Cat, c3: Cat, k: nat): Reading {
    if k == 0 then r
    else
      var one := Next(r, c0);
      if k == 1 then one
      else
        var two := Next(one, c1);
        if k == 2 then two
        else
          var three := Next(two, c2);
          if k == 3 then three else Next(three, c3)
  }

  /**
    From s on, everything with `next` and `later` in front is read that is read from t on: they are
    the same, or s allows more behind a parenthesis, or a brace comes next, or an `if` that will not
    have an `else` is not counted as open.
   */
  predicate Allows(t: Reading, s: Reading, next: Cat, later: Cat) {
    || s == t
    || (t.At? && t.mode.Operand? && s == At(Fresh, t.open))
    || (t.At? && t.mode.Start? && s == At(Braced, t.open) && next == LBRACE)
    || (t.At? && (t.mode.Start? || t.mode.Braced?) && Has(t.open, If) && next == STMT &&
        later != ELSE_LIKE && s == At(t.mode, t.open.below))
  }

  predicate FoldReads(r: Reading, c0: Cat, c1: Cat, c2: Cat, c3: Cat) {
    var f := FoldAll(c0, c1, c2, c3);
    var t := Past(r, c0, c1, c2, c3, f.k);
    f.k > 0 && t.At? ==> Allows(t, Next(r, f.cat), if f.k == 1 then c1 else ZERO, c2)
  }

  lemma ExpReads(r: Reading, c1: Cat, c2: Cat, c3: Cat)
    requires Placed(r, EXP, c1)
    ensures FoldReads(r, EXP, c1, c2, c3)
  {
    if r.mode.Done? {
      DropIfsOK(r.open);
    }
  }

  lemma ParenReads(r: Reading, c1: Cat, c2: Cat, c3: Cat)
    requires Placed(r, LPAR, c1)
    ensures FoldReads(r, LPAR, c1, c2, c3)
  {
  }

  lemma OperandReads(r: Reading, c0: Cat, c1: Cat, c2: Cat, c3: Cat)
    requires Placed(r, c0, c1)
    requires c0 == QUESTION || c0 == UNOP || c0 == UNORBINOP || c0 == SIZEOF_LIKE || Raw(c0)
    ensures FoldReads(r, c0, c1, c2, c3)
  {
  }

  lemma IfReads(r: Reading, c0: Cat, c1: Cat, c2: Cat, c3: Cat)
    requires Placed(r, c0, c1) && (c0 == IF_CLAUSE || c0 == IF_HEAD)
    ensures FoldReads(r, c0, c1, c2, c3)
  {
  }

  lemma LoopReads(r: Reading, c0: Cat, c1: Cat, c2: Cat, c3: Cat)
    requires Placed(r, c0, c1)
    requires c0 == IF_LIKE || c0 == FOR_LIKE || c0 == ELSE_LIKE || c0 == ELSE_HEAD || c0 == DO_LIKE
    ensures FoldReads(r, c0, c1, c2, c3)
  {
  }

  lemma StatementReads(r: Reading, c0: Cat, c1: Cat, c2: Cat, c3: Cat)
    requires Placed(r, c0, c1)
    requires c0 == LBRACE || c0 == CASE_LIKE || c0 == TAG || c0 == STMT || c0 == SEMI ||
             c0 == SECTION_SCRAP
    ensures FoldReads(r, c0, c1, c2, c3)
  {
  }

  lemma NothingElseFolds(c0: Cat, c1: Cat, c2: Cat, c3: Cat)
    ensures FoldAll(c0, c1, c2, c3).k > 0 ==>
              || c0 == EXP || c0 == LPAR || c0 == QUESTION || c0 == UNOP || c0 == UNORBINOP
              || c0 == SIZEOF_LIKE || Raw(c0) || c0 == IF_CLAUSE || c0 == IF_HEAD || c0 == IF_LIKE
              || c0 == FOR_LIKE || c0 == ELSE_LIKE || c0 == ELSE_HEAD || c0 == DO_LIKE || c0 == LBRACE
              || c0 == CASE_LIKE || c0 == TAG || c0 == STMT || c0 == SEMI || c0 == SECTION_SCRAP
  {
  }

  /** What a production leaves is read like what it consumes. */
  lemma AllReads(r: Reading, c0: Cat, c1: Cat, c2: Cat, c3: Cat)
    requires Placed(r, c0, c1)
    ensures FoldReads(r, c0, c1, c2, c3)
  {
    hide FoldAll, Past, Next, Placed, Allows;
    NothingElseFolds(c0, c1, c2, c3);
    if c0 == EXP {
      ExpReads(r, c1, c2, c3);
    } else if c0 == LPAR {
      ParenReads(r, c1, c2, c3);
    } else if c0 == IF_CLAUSE || c0 == IF_HEAD {
      IfReads(r, c0, c1, c2, c3);
    } else if c0 == IF_LIKE || c0 == FOR_LIKE || c0 == ELSE_LIKE || c0 == ELSE_HEAD || c0 == DO_LIKE {
      LoopReads(r, c0, c1, c2, c3);
    } else if c0 == LBRACE || c0 == CASE_LIKE || c0 == TAG || c0 == STMT || c0 == SEMI ||
       c0 == SECTION_SCRAP {
      StatementReads(r, c0, c1, c2, c3);
    } else if FoldAll(c0, c1, c2, c3).k > 0 {
      OperandReads(r, c0, c1, c2, c3);
    }
  }

  lemma PastBefore(g: Goal, cs: seq<Cat>, p: nat, k: nat)
    requires Sentence(g, cs) && 1 <= k <= 4 && p + k <= |cs|
    ensures Past(Before(g, cs, p), cs[p], Get(cs, p + 1), Get(cs, p + 2), Get(cs, p + 3), k) ==
            Before(g, cs, p + k)
  {
    hide Next, Sentence, Before;
    Alive(g, cs, p);
    if k > 1 { Alive(g, cs, p + 1); }
    if k > 2 { Alive(g, cs, p + 2); }
    if k > 3 { Alive(g, cs, p + 3); }
  }

  lemma AllowsNext(t: Reading, s: Reading, next: Cat, later: Cat)
    requires Allows(t, s, next, later) && t.At? && t != s && Next(t, next).At?
    ensures Next(s, next) == Next(t, next) ||
            (&& Next(t, next).mode.Done? && Has(Next(t, next).open, If) && later != ELSE_LIKE
             && Next(s, next) == At(Done, Next(t, next).open.below))
  {
  }

  /** An `if` without an `else` need not be counted. */
  lemma DoneNext(open: Stack, c: Cat)
    requires Has(open, If) && c != ELSE_LIKE
    ensures NextDone(open, c) == NextDone(open.below, c)
  {
  }

  /** What is read to the end from t on is so from s on. */
  lemma AllowsRest(g: Goal, t: Reading, s: Reading, rest: seq<Cat>)
    requires t.At? && Allows(t, s, Get(rest, 0), Get(rest, 1)) && Last(g, ReadOn(t, rest))
    ensures Last(g, ReadOn(s, rest))
  {
    hide NextOperand, NextFresh, NextStart, NextBraced, NextDone;
    if t != s {
      assert rest != [];
      DeadStays(rest[1..]);
      AllowsNext(t, s, rest[0], Get(rest, 1));
      hide Next;
      var u, v := Next(t, rest[0]), Next(s, rest[0]);
      if u != v && |rest| > 1 {
        assert rest[1..][0] == Get(rest, 1);
        DoneAllows(u.open, rest[1]);
      }
    }
  }

  lemma DoneAllows(open: Stack, c: Cat)
    requires Has(open, If) && c != ELSE_LIKE
    ensures Next(At(Done, open), c) == Next(At(Done, open.below), c)
  {
    DoneNext(open, c);
  }

  function Folded(cs: seq<Cat>, i: nat, k: nat, cat: Cat): seq<Cat>
    requires i + k <= |cs|
  {
    cs[..i] + [cat] + cs[i + k..]
  }

  /** What a production consumes is there. */
  lemma GetInside(cs: seq<Cat>, p: nat)
    requires p < |cs|
    ensures var f := FoldAt(cs, p);
            && p + f.k <= |cs| && f.k <= 4
            && (f.k > 0 ==> f.cat != INSERT && f.cat != ZERO && f.cat != SEMI && !IsAngle(f.cat))
  {
  }

  lemma FoldKeeps(g: Goal, cs: seq<Cat>, p: nat)
    requires Sentence(g, cs) && p < |cs| && Quiet(cs, p)
    ensures var f := FoldAt(cs, p);
            f.k > 0 ==> p + f.k <= |cs| && Sentence(g, Folded(cs, p, f.k, f.cat))
  {
    hide FoldAll, Next, ReadOn, Last, First, Fires, Past, Placed, Allows;
    var f := FoldAt(cs, p);
    GetInside(cs, p);
    if f.k > 0 {
      QuietSettled(g, cs, p);
      PlaceOK(g, cs, p);
      Alive(g, cs, p + f.k);
      PastBefore(g, cs, p, f.k);
      var r, rest := Before(g, cs, p), cs[p + f.k..];
      AllReads(r, cs[p], Get(cs, p + 1), Get(cs, p + 2), Get(cs, p + 3));
      var t, s := Before(g, cs, p + f.k), Next(r, f.cat);
      ReadSplit(g, cs, p + f.k);
      assert f.k == 1 ==> Get(rest, 0) == Get(cs, p + 1) && Get(rest, 1) == Get(cs, p + 2);
      AllowsAny(t, s, Get(rest, 0), Get(rest, 1), Get(cs, p + 2));
      AllowsRest(g, t, s, rest);
      ReadFolded(g, cs, p, f.k, f.cat);
    }
  }

  lemma AllowsAny(t: Reading, s: Reading, next: Cat, later: Cat, other: Cat)
    ensures Allows(t, s, ZERO, other) ==> Allows(t, s, next, later)
  {
  }

  lemma ReadSplit(g: Goal, cs: seq<Cat>, i: nat)
    requires i <= |cs|
    ensures ReadOn(First(g), cs) == ReadOn(Before(g, cs, i), cs[i..])
  {
    hide ReadOn;
    assert cs == cs[..i] + cs[i..];
    ReadConcat(First(g), cs[..i], cs[i..]);
  }

  lemma ReadFolded(g: Goal, cs: seq<Cat>, i: nat, k: nat, cat: Cat)
    requires i + k <= |cs|
    ensures ReadOn(First(g), Folded(cs, i, k, cat)) == ReadOn(Next(Before(g, cs, i), cat), cs[i + k..])
  {
    hide Next;
    var r := Before(g, cs, i);
    ReadConcat(First(g), cs[..i] + [cat], cs[i + k..]);
    ReadConcat(First(g), cs[..i], [cat]);
    assert [cat][1..] == [];
  }

  // ----- What stands next to what

  lemma {:induction false} OnlyLanguage(r: Reading, cs: seq<Cat>)
    requires !ReadOn(r, cs).Dead?
    ensures forall c :: c in cs ==> InLanguage(c)
    decreases |cs|
  {
    if cs != [] {
      DeadStays(cs[1..]);
      OnlyLanguage(Next(r, cs[0]), cs[1..]);
      NextLanguage(r, cs[0]);
      assert cs == [cs[0]] + cs[1..];
    }
  }

  lemma NextLanguage(r: Reading, c: Cat)
    requires Next(r, c).At?
    ensures InLanguage(c)
  {
  }

  lemma SentenceLanguage(g: Goal, cs: seq<Cat>)
    requires Sentence(g, cs)
    ensures forall c :: c in cs ==> InLanguage(c)
    ensures forall k :: InLanguage(Get(cs, k)) || Get(cs, k) == ZERO
  {
    OnlyLanguage(First(g), cs);
  }

  lemma NextNeighbours(r: Reading, c0: Cat, c1: Cat, c2: Cat, c3: Cat)
    requires Placed(r, c0, c1) && Next(r, c0).At?
    requires c1 != ZERO ==> Past(r, c0, c1, c2, c3, 2).At?
    requires c2 != ZERO ==> Past(r, c0, c1, c2, c3, 3).At?
    requires c3 != ZERO ==> Past(r, c0, c1, c2, c3, 4).At?
    requires c0 == SECTION_SCRAP ==> c1 != ZERO
    ensures Neighbours(c0, c1, c2, c3)
  {
  }

  lemma PastAlive(g: Goal, cs: seq<Cat>, p: nat, k: nat)
    requires Sentence(g, cs) && p < |cs| && 1 <= k <= 4
    ensures k == 1 || Get(cs, p + k - 1) != ZERO ==>
              Past(Before(g, cs, p), cs[p], Get(cs, p + 1), Get(cs, p + 2), Get(cs, p + 3), k).At?
  {
    hide Past, Sentence, Before;
    if p + k <= |cs| {
      PastBefore(g, cs, p, k);
      Alive(g, cs, p + k);
    }
  }

  lemma NeighboursAt(g: Goal, cs: seq<Cat>, p: nat)
    requires Sentence(g, cs) && Quiet(cs, p) && p < |cs|
    ensures InLanguage(cs[p]) && Neighbours(cs[p], Get(cs, p + 1), Get(cs, p + 2), Get(cs, p + 3))
    ensures forall k :: InLanguage(Get(cs, k)) || Get(cs, k) == ZERO
  {
    hide *;
    SentenceLanguage(g, cs);
    QuietSettled(g, cs, p);
    PlaceOK(g, cs, p);
    PastAlive(g, cs, p, 1);
    PastAlive(g, cs, p, 2);
    PastAlive(g, cs, p, 3);
    PastAlive(g, cs, p, 4);
    PastOne(Before(g, cs, p), cs[p], Get(cs, p + 1), Get(cs, p + 2), Get(cs, p + 3));
    NotNamedLast(g, cs, p);
    NextNeighbours(Before(g, cs, p), cs[p], Get(cs, p + 1), Get(cs, p + 2), Get(cs, p + 3));
    FirstMember(cs, p);
  }

  lemma PastOne(r: Reading, c0: Cat, c1: Cat, c2: Cat, c3: Cat)
    ensures Past(r, c0, c1, c2, c3, 1) == Next(r, c0)
  {
  }

  lemma FirstMember(cs: seq<Cat>, p: nat)
    requires p < |cs|
    ensures cs[p] in cs
  {
  }

  /** A section name is not the last category of a sentence. */
  lemma NotNamedLast(g: Goal, cs: seq<Cat>, p: nat)
    requires Sentence(g, cs) && p < |cs|
    ensures cs[p] == SECTION_SCRAP ==> Get(cs, p + 1) != ZERO
  {
    hide Before, Sentence;
    Alive(g, cs, p);
    Alive(g, cs, p + 1);
    SentenceLanguage(g, cs);
    if p + 1 < |cs| {
      FirstMember(cs, p + 1);
    }
  }

  // ----- Far enough before a production nothing changes

  lemma LaterChanges(c0: Cat, c1: Cat, c2: Cat, c3: Cat, d2: Cat, d3: Cat)
    requires FoldAll(c0, c1, c2, c3).k == 0
    ensures d3 != SEMI ==> FoldAll(c0, c1, c2, d3).k == 0
    ensures (d2 == STMT || d2 == TAG || d2 == LPAR || d2 == IF_CLAUSE || d2 == IF_HEAD ||
             d2 == ELSE_HEAD || d2 == IF_LIKE || (d2 == ELSE_LIKE && c0 != DO_LIKE)) ==>
              FoldAll(c0, c1, d2, d3).k == 0
  {
  }

  lemma NewNeighbour(c0: Cat, d1: Cat, c2: Cat, c3: Cat)
    ensures (d1 == LPAR || d1 == IF_CLAUSE || d1 == IF_HEAD || d1 == ELSE_HEAD || d1 == IF_LIKE ||
             d1 == ELSE_LIKE || (d1 == TAG && c0 != TAG)) ==>
              FoldAll(c0, d1, c2, c3).k == 0 || c0 == SEMI || Raw(c0)
  {
  }

  lemma BackOf(cs: seq<Cat>, p: nat)
    requires p < |cs| && FoldAt(cs, p).k > 0
    ensures var f := FoldAt(cs, p);
            && f.cat != SEMI && (f.back == 1 ==> f.cat == STMT || f.cat == TAG)
            && (f.back == 0 ==>
                  f.cat == LPAR || f.cat == IF_CLAUSE || f.cat == IF_HEAD || f.cat == ELSE_HEAD ||
                  f.cat == IF_LIKE || f.cat == TAG ||
                  (f.cat == ELSE_LIKE && (cs[p] == IF_CLAUSE || cs[p] == IF_HEAD)))
  {
  }

  /** An `if` does not stand where the end of a `do` must come. */
  predicate NoIfInTail(cs: seq<Cat>, p: nat) {
    Get(cs, p) == IF_CLAUSE || Get(cs, p) == IF_HEAD ==>
      !(p >= 2 && Get(cs, p - 2) == DO_LIKE && Get(cs, p - 1) == STMT)
  }

  lemma NoIfHere(g: Goal, cs: seq<Cat>, p: nat)
    requires Sentence(g, cs) && p < |cs|
    ensures NoIfInTail(cs, p)
  {
    if p >= 2 {
      Alive(g, cs, p - 2);
      Alive(g, cs, p - 1);
      Alive(g, cs, p);
      Alive(g, cs, p + 1);
      hide Sentence, Before, NextOperand, NextFresh, NextOperator, NextBraced, NextCond, NextCase,
           NextTail;
    }
  }

  /** The place i before a production at p is as quiet as it was. */
  lemma StillQuiet(cs: seq<Cat>, p: nat, i: nat)
    requires p < |cs| && Quiet(cs, p) && NoIfInTail(cs, p)
    requires FoldAt(cs, p).k > 0 && p + FoldAt(cs, p).k <= |cs| && i + FoldAt(cs, p).back < p
    ensures var f := FoldAt(cs, p); !Fires(Folded(cs, p, f.k, f.cat), i)
  {
    var f := FoldAt(cs, p);
    var ds := Folded(cs, p, f.k, f.cat);
    BackOf(cs, p);
    hide FoldAll;
    assert !Fires(cs, i);
    assert forall j: nat :: j < p ==> Get(ds, j) == Get(cs, j);
    assert ds[p] == f.cat && Get(ds, p) == f.cat;
    if i + 1 == p {
      NewNeighbour(cs[i], f.cat, Get(ds, i + 2), Get(ds, i + 3));
      RawFires(cs, i);
    } else if i + 3 <= p {
      if FoldAt(cs, i).k == 0 && i + 3 == p {
        LaterChanges(cs[i], cs[i + 1], cs[i + 2], cs[p], cs[i + 2], f.cat);
      }
    } else if FoldAt(cs, i).k == 0 {
      LaterChanges(cs[i], cs[i + 1], cs[p], Get(cs, i + 3), f.cat, Get(ds, i + 3));
      DoNeeds(cs[i + 1], f.cat, Get(ds, i + 3));
    }
  }

  lemma DoNeeds(c1: Cat, c2: Cat, c3: Cat)
    ensures c1 != STMT ==> FoldAll(DO_LIKE, c1, c2, c3).k == 0
  {
  }
}
