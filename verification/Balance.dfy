/**
  The indentation in the texts that the parser builds: every text indents as often as it outdents,
  apart from that of a function declarator, which is two steps in.
 */
module Balance {
  import opened Grammar
  import opened Rewriting
  import opened ParserTheorems
  import opened Survivors
  import opened Language
  import opened Sentences

  function CodeShift(c: Code): int {
    if c.Indent? then 1 else if c.Outdent? then -1 else 0
  }

  /** The indents of a text less its outdents, those within original texts left aside. */
  function Net(body: seq<Piece>): int {
    if body == [] then 0
    else (if body[0].Tok? then CodeShift(body[0].c) else 0) + Net(body[1..])
  }

  function NetAll(ss: seq<Scrap>): int {
    if ss == [] then 0 else Net(ss[0].body) + NetAll(ss[1..])
  }

  /** What a scrap of this category should have. */
  function Due(c: Cat): int {
    if c == FN_DECL then 2 else 0
  }

  predicate Balanced(ss: seq<Scrap>) {
    forall i :: 0 <= i < |ss| ==> Net(ss[i].body) == Due(ss[i].cat)
  }

  // ----- What appending does

  lemma {:induction false} NetConcat(a: seq<Piece>, b: seq<Piece>)
    ensures Net(a + b) == Net(a) + Net(b)
  {
    if a == [] {
      assert a + b == b;
    } else {
      assert (a + b)[0] == a[0] && (a + b)[1..] == a[1..] + b;
      NetConcat(a[1..], b);
    }
  }

  lemma NetOne(c: Code, big: bool)
    ensures Net([Tok(c, big)]) == CodeShift(c) && Net([]) == 0
  {
  }

  lemma SwitchNet(e: Draft, m: Math)
    requires !m.Maybe?
    ensures Net(Switch(e, m).out) == Net(e.out)
  {
    NetConcat(e.out, LEAVE_MATH);
    NetConcat(e.out, ENTER_MATH);
  }

  lemma BigAppNet(e: Draft, c: Code)
    ensures Net(BigApp(e, c).out) == Net(e.out) + CodeShift(c)
  {
    hide Net;
    SwitchNet(e, ModeOf(c));
    NetConcat(Switch(e, ModeOf(c)).out, [Tok(c, true)]);
    NetOne(c, true);
  }

  lemma BigApp1Net(e: Draft, s: Scrap)
    ensures Net(BigApp1(e, s).out) == Net(e.out) + Net(s.body)
  {
    hide Net;
    if s.init.Maybe? {
      NetConcat(e.out, s.body);
    } else {
      SwitchNet(e, s.init);
      NetConcat(Switch(e, s.init).out, s.body);
    }
  }

  /** The codes of a production's text alone. */
  function ProgNet(p: Prog): int
    decreases p
  {
    match p
    case End => 0
    case Sc(_, rest) => ProgNet(rest)
    case Big(c, rest) => CodeShift(c) + ProgNet(rest)
    case Raw(c, rest) => CodeShift(c) + ProgNet(rest)
    case MathOn(rest) => ProgNet(rest)
    case Reserve(_, rest) => ProgNet(rest)
  }

  lemma {:induction false} EmitNet(p: Prog, e: Draft, ss: seq<Scrap>, at: nat, lo: nat, hi: nat)
    requires NextScrap(p, lo) == hi && at + hi <= |ss|
    ensures lo <= hi
    ensures Net(Emit(p, e, ss, at).out) == Net(e.out) + ProgNet(p) + NetAll(ss[at + lo..at + hi])
    decreases p
  {
    hide BigApp, BigApp1, Net;
    match p
    case End =>
    case Sc(i, rest) =>
      NextScrapMonotone(rest, lo + 1);
      EmitNet(rest, BigApp1(e, ss[at + i]), ss, at, lo + 1, hi);
      BigApp1Net(e, ss[at + i]);
      assert ss[at + lo..at + hi][1..] == ss[at + lo + 1..at + hi];
    case Big(c, rest) =>
      EmitNet(rest, BigApp(e, c), ss, at, lo, hi);
      BigAppNet(e, c);
    case Raw(c, rest) =>
      EmitNet(rest, e.(out := e.out + [Tok(c, false)]), ss, at, lo, hi);
      NetConcat(e.out, [Tok(c, false)]);
      NetOne(c, false);
    case Reserve(_, rest) => EmitNet(rest, e, ss, at, lo, hi);
  }

  lemma {:induction false} SpreadNet(e: Draft, ss: seq<Scrap>, lo: nat, hi: nat)
    requires lo <= hi <= |ss|
    ensures Net(Spread(e, ss, lo, hi).out) == Net(e.out) + NetAll(ss[lo..hi])
    decreases hi - lo
  {
    hide BigApp1, Net;
    if lo < hi {
      SpreadNet(BigApp1(e, ss[lo]), ss, lo + 1, hi);
      BigApp1Net(e, ss[lo]);
      assert ss[lo..hi][1..] == ss[lo + 1..hi];
    }
  }

  // ----- What the productions do

  /** What the scraps that a rule consumes should have together. */
  function DueOf(r: Rule, c0: Cat, c1: Cat, c2: Cat, c3: Cat): int
    requires !r.NoRule?
  {
    (if r.k >= 1 then Due(Nth(c0, c1, c2, c3, r.j)) else 0)
    + (if r.k >= 2 then Due(Nth(c0, c1, c2, c3, r.j + 1)) else 0)
    + (if r.k >= 3 then Due(Nth(c0, c1, c2, c3, r.j + 2)) else 0)
    + (if r.k >= 4 then Due(Nth(c0, c1, c2, c3, r.j + 3)) else 0)
  }

  /** The new scrap gets what it should have. */
  predicate Even(r: Rule, c0: Cat, c1: Cat, c2: Cat, c3: Cat) {
    r.NoRule? ||
    Due(r.cat) == DueOf(r, c0, c1, c2, c3) + if r.Reduce? then ProgNet(r.prog) else 0
  }

  /**
    A production of the switch consumes a function declarator only as its first scrap, and its text
    makes up the difference.
   */
  predicate Codes(r: Rule, c0: Cat, c1: Cat, c2: Cat, c3: Cat) {
    r.NoRule? ||
    (&& (r.j <= 1 < r.j + r.k ==> c1 != FN_DECL) && (r.j <= 2 < r.j + r.k ==> c2 != FN_DECL)
     && (r.j <= 3 < r.j + r.k ==> c3 != FN_DECL) && r.j + r.k <= 4 && r.cat != END_ARG
     && Due(r.cat) == (if r.j == 0 && r.k >= 1 then Due(c0) else 0) +
                      if r.Reduce? then ProgNet(r.prog) else 0)
  }

  lemma ExpCodes(c0: Cat, c1: Cat, c2: Cat, c3: Cat, forceLines: bool)
    requires c0 == EXP || c0 == LPAR
    ensures Codes(MatchOn(c0, c1, c2, c3, forceLines), c0, c1, c2, c3)
  {
  }

  lemma OperatorCodes(c0: Cat, c1: Cat, c2: Cat, c3: Cat, forceLines: bool)
    requires c0 == QUESTION || c0 == UNOP || c0 == UNORBINOP || c0 == BINOP || c0 == CAST || c0 ==
             SIZEOF_LIKE
    ensures Codes(MatchOn(c0, c1, c2, c3, forceLines), c0, c1, c2, c3)
  {
  }

  lemma IntLikeCodes(c0: Cat, c1: Cat, c2: Cat, c3: Cat, forceLines: bool)
    requires c0 == INT_LIKE || c0 == DECL
    ensures Codes(MatchOn(c0, c1, c2, c3, forceLines), c0, c1, c2, c3)
  {
  }

  lemma DeclHeadCodes(c0: Cat, c1: Cat, c2: Cat, c3: Cat, forceLines: bool)
    requires c0 == DECL_HEAD || c0 == TYPEDEF_LIKE
    ensures Codes(MatchOn(c0, c1, c2, c3, forceLines), c0, c1, c2, c3)
  {
  }

  lemma StructCodes(c0: Cat, c1: Cat, c2: Cat, c3: Cat, forceLines: bool)
    requires c0 == STRUCT_LIKE || c0 == STRUCT_HEAD
    ensures Codes(MatchOn(c0, c1, c2, c3, forceLines), c0, c1, c2, c3)
  {
  }

  lemma BlockCodes(c0: Cat, c1: Cat, c2: Cat, c3: Cat, forceLines: bool)
    requires c0 == FN_DECL || c0 == FUNCTION || c0 == LBRACE
    ensures Codes(MatchOn(c0, c1, c2, c3, forceLines), c0, c1, c2, c3)
  {
  }

  lemma LoopCodes(c0: Cat, c1: Cat, c2: Cat, c3: Cat, forceLines: bool)
    requires c0 == IF_LIKE || c0 == FOR_LIKE || c0 == ELSE_LIKE || c0 == ELSE_HEAD
    ensures Codes(MatchOn(c0, c1, c2, c3, forceLines), c0, c1, c2, c3)
  {
  }

  lemma CaseCodes(c0: Cat, c1: Cat, c2: Cat, c3: Cat, forceLines: bool)
    requires c0 == DO_LIKE || c0 == CASE_LIKE
    ensures Codes(MatchOn(c0, c1, c2, c3, forceLines), c0, c1, c2, c3)
  {
  }

  lemma IfClauseCodes(c0: Cat, c1: Cat, c2: Cat, c3: Cat, forceLines: bool)
    requires c0 == IF_CLAUSE
    ensures Codes(MatchOn(c0, c1, c2, c3, forceLines), c0, c1, c2, c3)
  {
  }

  lemma IfHeadCodes(c0: Cat, c1: Cat, c2: Cat, c3: Cat, forceLines: bool)
    requires c0 == IF_HEAD
    ensures Codes(MatchOn(c0, c1, c2, c3, forceLines), c0, c1, c2, c3)
  {
  }

  lemma StatementCodes(c0: Cat, c1: Cat, c2: Cat, c3: Cat, forceLines: bool)
    requires c0 == TAG || c0 == STMT || c0 == SEMI
    ensures Codes(MatchOn(c0, c1, c2, c3, forceLines), c0, c1, c2, c3)
  {
  }

  lemma LprocCodes(c0: Cat, c1: Cat, c2: Cat, c3: Cat, forceLines: bool)
    requires c0 == LPROC || c0 == SECTION_SCRAP || IsAngle(c0)
    ensures Codes(MatchOn(c0, c1, c2, c3, forceLines), c0, c1, c2, c3)
  {
  }

  lemma CplusplusCodes(c0: Cat, c1: Cat, c2: Cat, c3: Cat, forceLines: bool)
    requires c0 == LANGLE || c0 == PUBLIC_LIKE || c0 == COLCOL || c0 == NEW_LIKE || c0 ==
             OPERATOR_LIKE || c0 == CATCH_LIKE
    ensures Codes(MatchOn(c0, c1, c2, c3, forceLines), c0, c1, c2, c3)
  {
  }

  lemma RawCodes(c0: Cat, c1: Cat, c2: Cat, c3: Cat, forceLines: bool)
    requires c0 == BASE || c0 == RAW_RPAR || c0 == RAW_UNORBIN || c0 == CONST_LIKE || c0 == RAW_INT
    ensures Codes(MatchOn(c0, c1, c2, c3, forceLines), c0, c1, c2, c3)
  {
  }

  lemma CodesEven(r: Rule, c0: Cat, c1: Cat, c2: Cat, c3: Cat)
    requires Codes(r, c0, c1, c2, c3)
    ensures Even(r, c0, c1, c2, c3)
  {
    hide ProgNet;
  }

  lemma InsertEven(c1: Cat, c2: Cat, c3: Cat, forceLines: bool)
    ensures Even(MatchOn(INSERT, c1, c2, c3, forceLines), INSERT, c1, c2, c3)
  {
  }

  lemma NothingEven(c0: Cat, c1: Cat, c2: Cat, c3: Cat, forceLines: bool)
    requires MatchOn(c0, c1, c2, c3, forceLines) == NoRule
    ensures Even(MatchOn(c0, c1, c2, c3, forceLines), c0, c1, c2, c3)
  {
  }

  lemma SwitchCodes(c0: Cat, c1: Cat, c2: Cat, c3: Cat, forceLines: bool)
    requires c0 != INSERT && MatchOn(c0, c1, c2, c3, forceLines) != NoRule
    ensures Codes(MatchOn(c0, c1, c2, c3, forceLines), c0, c1, c2, c3)
  {
    hide Codes;
    if c0 == EXP || c0 == LPAR {
      ExpCodes(c0, c1, c2, c3, forceLines);
    } else if c0 == QUESTION || c0 == UNOP || c0 == UNORBINOP || c0 == BINOP || c0 == CAST || c0 ==
       SIZEOF_LIKE {
      OperatorCodes(c0, c1, c2, c3, forceLines);
    } else if c0 == INT_LIKE || c0 == DECL {
      IntLikeCodes(c0, c1, c2, c3, forceLines);
    } else if c0 == DECL_HEAD || c0 == TYPEDEF_LIKE {
      DeclHeadCodes(c0, c1, c2, c3, forceLines);
    } else if c0 == STRUCT_LIKE || c0 == STRUCT_HEAD {
      StructCodes(c0, c1, c2, c3, forceLines);
    } else if c0 == FN_DECL || c0 == FUNCTION || c0 == LBRACE {
      BlockCodes(c0, c1, c2, c3, forceLines);
    } else if c0 == IF_LIKE || c0 == FOR_LIKE || c0 == ELSE_LIKE || c0 == ELSE_HEAD {
      LoopCodes(c0, c1, c2, c3, forceLines);
    } else if c0 == DO_LIKE || c0 == CASE_LIKE {
      CaseCodes(c0, c1, c2, c3, forceLines);
    } else if c0 == IF_CLAUSE {
      IfClauseCodes(c0, c1, c2, c3, forceLines);
    } else if c0 == IF_HEAD {
      IfHeadCodes(c0, c1, c2, c3, forceLines);
    } else if c0 == TAG || c0 == STMT || c0 == SEMI {
      StatementCodes(c0, c1, c2, c3, forceLines);
    } else if c0 == LPROC || c0 == SECTION_SCRAP || IsAngle(c0) {
      LprocCodes(c0, c1, c2, c3, forceLines);
    } else if c0 == LANGLE || c0 == PUBLIC_LIKE || c0 == COLCOL || c0 == NEW_LIKE || c0 ==
       OPERATOR_LIKE || c0 == CATCH_LIKE {
      CplusplusCodes(c0, c1, c2, c3, forceLines);
    } else if c0 == BASE || c0 == RAW_RPAR || c0 == RAW_UNORBIN || c0 == CONST_LIKE || c0 == RAW_INT {
      RawCodes(c0, c1, c2, c3, forceLines);
    }
  }

  lemma SwitchEven(c0: Cat, c1: Cat, c2: Cat, c3: Cat, forceLines: bool)
    ensures Even(MatchOn(c0, c1, c2, c3, forceLines), c0, c1, c2, c3)
  {
    hide Even, Codes;
    var r := MatchOn(c0, c1, c2, c3, forceLines);
    if c0 == INSERT {
      InsertEven(c1, c2, c3, forceLines);
    } else if r.NoRule? {
      NothingEven(c0, c1, c2, c3, forceLines);
    } else {
      SwitchCodes(c0, c1, c2, c3, forceLines);
      CodesEven(r, c0, c1, c2, c3);
    }
  }

  /** All productions but 111 on a function declarator. */
  lemma TableEven(c0: Cat, c1: Cat, c2: Cat, c3: Cat, forceLines: bool)
    requires c0 != FN_DECL || c1 != END_ARG
    ensures Even(Match(c0, c1, c2, c3, forceLines), c0, c1, c2, c3)
  {
    hide MatchOn;
    SwitchEven(c0, c1, c2, c3, forceLines);
  }

  // ----- Runs

  /** A function declarator is about to be taken into the argument of a macro. */
  predicate TakesDeclarator(c: Config) {
    CatAt(c.ss, c.pos) == FN_DECL && CatAt(c.ss, c.pos + 1) == END_ARG
  }

  /** No argument of a macro ends anywhere. */
  predicate NoArgs(ss: seq<Scrap>) {
    forall i :: 0 <= i < |ss| ==> ss[i].cat != END_ARG
  }

  lemma {:induction false} NetAllDue(ss: seq<Scrap>)
    requires Balanced(ss) && |ss| <= 4
    ensures NetAll(ss) ==
            (if |ss| >= 1 then Due(ss[0].cat) else 0) + (if |ss| >= 2 then Due(ss[1].cat) else 0)
            + (if |ss| >= 3 then Due(ss[2].cat) else 0) + (if |ss| >= 4 then Due(ss[3].cat) else 0)
    decreases |ss|
  {
    if ss != [] {
      NetAllDue(ss[1..]);
    }
  }

  /** The scraps that a rule consumes. */
  lemma ConsumedNet(c: Config, r: Rule, forceLines: bool)
    requires Fits(r, c) && !r.NoRule? && r.k <= 4 && r.j + r.k <= 4 && Balanced(c.ss)
    ensures NetAll(c.ss[c.pos + r.j..c.pos + r.j + r.k]) ==
            DueOf(r, CatAt(c.ss, c.pos), CatAt(c.ss, c.pos + 1), CatAt(c.ss, c.pos + 2),
                  CatAt(c.ss, c.pos + 3))
  {
    hide Net;
    NetAllDue(c.ss[c.pos + r.j..c.pos + r.j + r.k]);
  }

  /** Striking identifiers changes no text. */
  lemma StayingBalanced(c: Config, r: Rule, chosen: set<nat>)
    requires Balanced(c.ss)
    ensures var ss := Staying(c, r, chosen);
            Balanced(ss) && |ss| == |c.ss| && forall i :: 0 <= i < |ss| ==> ss[i].body == c.ss[i].body
    ensures NoArgs(c.ss) ==> NoArgs(Staying(c, r, chosen))
  {
    hide Net;
  }

  lemma {:induction false} SameNetAll(a: seq<Scrap>, b: seq<Scrap>)
    requires |a| == |b| && forall i :: 0 <= i < |a| ==> a[i].body == b[i].body
    ensures NetAll(a) == NetAll(b)
  {
    if a != [] {
      SameNetAll(a[1..], b[1..]);
    }
  }

  lemma NetNothing()
    ensures Net([]) == 0
  {
  }

  /** The new scrap has the indentation that its category should have. */
  lemma MadeBalanced(c: Config, r: Rule, chosen: set<nat>, forceLines: bool)
    requires Wf(c) && c.pos < |c.ss| && Balanced(c.ss) && !TakesDeclarator(c)
    requires r == RuleAt(c, forceLines) && Fits(r, c) && !r.NoRule?
    ensures Net(Made(c, r, chosen).body) == Due(Made(c, r, chosen).cat)
  {
    hide Match, Net, NetAll, Spread, Emit, Due, NoDollar, NoReserve, NextScrap, ProgNet, DueOf, Made,
         Balanced, Fits;
    var c0, c1, c2, c3 := CatAt(c.ss, c.pos), CatAt(c.ss, c.pos + 1), CatAt(c.ss, c.pos + 2),
      CatAt(c.ss, c.pos + 3);
    RuleFits(c, forceLines);
    TableEven(c0, c1, c2, c3, forceLines);
    ConsumedNet(c, r, forceLines);
    ApplyIs(c, r, chosen);
    if r.Squash? {
      SquashNet(c, r, chosen);
    } else if Discards(r) {
      AngleNet(c, r, chosen);
      AngleDue(r, c0, c1, c2, c3);
    } else {
      ReduceNet(c, r, chosen);
    }
  }

  lemma AngleDue(r: Rule, c0: Cat, c1: Cat, c2: Cat, c3: Cat)
    requires Discards(r) && DiscardOK(r, c0) && Even(r, c0, c1, c2, c3)
    ensures Due(r.cat) == 0
  {
  }

  lemma SquashNet(c: Config, r: Rule, chosen: set<nat>)
    requires Fits(r, c) && r.Squash?
    ensures Net(Made(c, r, chosen).body) == NetAll(c.ss[c.pos + r.j..c.pos + r.j + r.k])
  {
    hide Net, Spread;
    var lo, hi := c.pos + r.j, c.pos + r.j + r.k;
    if r.k == 1 {
      OneNet(c.ss[lo]);
      assert c.ss[lo..hi] == [c.ss[lo]];
    } else {
      NetNothing();
      SpreadNet(EMPTY_DRAFT, c.ss, lo, hi);
    }
  }

  lemma ReduceNet(c: Config, r: Rule, chosen: set<nat>)
    requires Fits(r, c) && r.Reduce? && NextScrap(r.prog, r.j) == r.j + r.k
    ensures Net(Made(c, r, chosen).body) ==
            ProgNet(r.prog) + NetAll(c.ss[c.pos + r.j..c.pos + r.j + r.k])
  {
    hide Net, Emit, AfterReserve;
    var ss, lo, hi := AfterReserve(c, r.prog, chosen), c.pos + r.j, c.pos + r.j + r.k;
    NetNothing();
    ReservedBodies(c, r, chosen);
    SameNetAll(ss[lo..hi], c.ss[lo..hi]);
    EmitNet(r.prog, EMPTY_DRAFT, ss, c.pos, r.j, r.j + r.k);
  }

  lemma ReservedBodies(c: Config, r: Rule, chosen: set<nat>)
    requires r.Reduce?
    ensures var ss := AfterReserve(c, r.prog, chosen);
            |ss| == |c.ss| && forall i :: 0 <= i < |ss| ==> ss[i].body == c.ss[i].body
  {
  }

  lemma OneNet(s: Scrap)
    ensures NetAll([s]) == Net(s.body)
  {
  }

  lemma AngleNet(c: Config, r: Rule, chosen: set<nat>)
    requires Fits(r, c) && Discards(r) && DropsText(r)
    ensures Net(Made(c, r, chosen).body) == 0
  {
    var p := r.prog.rest.c;
    assert Made(c, r, chosen).body == [Tok(p, false)];
    NetOne(p, false);
  }

  lemma ReplaceBalanced(ss: seq<Scrap>, lo: nat, hi: nat, s: Scrap)
    requires lo <= hi <= |ss| && Balanced(ss) && Net(s.body) == Due(s.cat)
    ensures Balanced(Replace(ss, lo, hi, s))
  {
    hide Net, Due;
  }

  lemma NoArgMade(c: Config, forceLines: bool)
    requires Wf(c) && c.pos < |c.ss| && NoArgs(c.ss)
    ensures var r := RuleAt(c, forceLines); !r.NoRule? ==> r.cat != END_ARG
  {
    NoArgRule(CatAt(c.ss, c.pos), CatAt(c.ss, c.pos + 1), CatAt(c.ss, c.pos + 2),
              CatAt(c.ss, c.pos + 3), forceLines);
    hide Match;
  }

  lemma NoArgRule(c0: Cat, c1: Cat, c2: Cat, c3: Cat, forceLines: bool)
    requires END_ARG !in [c0, c1, c2, c3]
    ensures var r := Match(c0, c1, c2, c3, forceLines); !r.NoRule? ==> r.cat != END_ARG
  {
    hide MatchOn;
    assert c0 in [c0, c1, c2, c3] && c1 in [c0, c1, c2, c3] && c2 in [c0, c1, c2, c3];
    if c0 == INSERT {
      InsertSwitch(c1, c2, c3, forceLines);
    } else if MatchOn(c0, c1, c2, c3, forceLines) != NoRule {
      SwitchCodes(c0, c1, c2, c3, forceLines);
    }
  }

  /** One round keeps this, except where a function declarator is taken into an argument. */
  lemma StepBalanced(c: Config, chosen: set<nat>, forceLines: bool)
    requires Wf(c) && c.pos < |c.ss| && Balanced(c.ss)
    ensures Balanced(Step(c, chosen, forceLines).ss) <==> !TakesDeclarator(c)
    ensures NoArgs(c.ss) ==> NoArgs(Step(c, chosen, forceLines).ss)
  {
    hide RuleAt, Apply, Replace, Made, Balanced, NoArgs, Staying;
    var r := RuleAt(c, forceLines);
    RuleFits(c, forceLines);
    if r.NoRule? {
      NoRuleStays(c, chosen);
      TakenIsRule(c, forceLines);
    } else {
      if NoArgs(c.ss) {
        NoArgMade(c, forceLines);
      }
      ApplyIs(c, r, chosen);
      StayingBalanced(c, r, chosen);
      var lo, hi := c.pos + r.j, c.pos + r.j + r.k;
      ReplaceNoArgs(Staying(c, r, chosen), lo, hi, Made(c, r, chosen));
      if TakesDeclarator(c) {
        TakenUneven(c, r, chosen, forceLines);
        ReplaceUneven(Staying(c, r, chosen), lo, hi, Made(c, r, chosen));
      } else {
        MadeBalanced(c, r, chosen, forceLines);
        ReplaceBalanced(Staying(c, r, chosen), lo, hi, Made(c, r, chosen));
      }
    }
  }

  lemma TakenIsRule(c: Config, forceLines: bool)
    ensures TakesDeclarator(c) ==>
              var r := RuleAt(c, forceLines); r.Squash? && r.j == 0 && r.k == 2 && r.cat == END_ARG
  {
  }

  lemma TakenUneven(c: Config, r: Rule, chosen: set<nat>, forceLines: bool)
    requires TakesDeclarator(c) && r == RuleAt(c, forceLines) && Fits(r, c) && Balanced(c.ss)
    ensures !r.NoRule? && Net(Made(c, r, chosen).body) != Due(Made(c, r, chosen).cat)
  {
    hide Net, RuleAt, Made;
    TakenIsRule(c, forceLines);
    SquashNet(c, r, chosen);
    ApplyIs(c, r, chosen);
    NetAllDue(c.ss[c.pos..c.pos + 2]);
  }

  lemma ReplaceNoArgs(ss: seq<Scrap>, lo: nat, hi: nat, s: Scrap)
    requires lo <= hi <= |ss|
    ensures NoArgs(ss) && s.cat != END_ARG ==> NoArgs(Replace(ss, lo, hi, s))
  {
  }

  lemma ReplaceUneven(ss: seq<Scrap>, lo: nat, hi: nat, s: Scrap)
    requires lo <= hi <= |ss| && Net(s.body) != Due(s.cat)
    ensures !Balanced(Replace(ss, lo, hi, s))
  {
    hide Net, Due;
    assert Replace(ss, lo, hi, s)[lo] == s;
  }

  /**
    Over every run without arguments in `@[`...`@]` the text of every scrap indents as often as it
    outdents, but that of a function declarator, which is two steps in.
   */
  lemma {:induction false} RunBalanced(c: Config, choices: seq<set<nat>>, forceLines: bool)
    requires Wf(c) && Balanced(c.ss) && NoArgs(c.ss)
    ensures var ss := Run(c, choices, forceLines).ss; Balanced(ss) && NoArgs(ss)
    decreases |choices|
  {
    hide Step, Balanced, NoArgs;
    if choices != [] {
      var last := |choices| - 1;
      RunBalanced(c, choices[..last], forceLines);
      var m := Run(c, choices[..last], forceLines);
      if m.pos < |m.ss| {
        NoArgNext(m);
        StepBalanced(m, choices[last], forceLines);
      }
    }
  }

  lemma NoArgNext(c: Config)
    requires NoArgs(c.ss)
    ensures !TakesDeclarator(c)
  {
  }
}
