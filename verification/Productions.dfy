/**
  The table of productions as it is documented in prod.w, and the switch that carries them out:
  wherever the switch applies a production it is the longest one in the table that applies there,
  with the category and the text that the table gives.
 */
module Productions {
  import opened Grammar

  /** One piece of a translation: the text of scrap i of the left side, or a code. */
  datatype Part = S(i: nat) | C(c: Code)

  /** The category on the right side: a given one, or that of scrap i of the left side. */
  datatype Makes = As(cat: Cat) | Like(i: nat)

  /**
    Production n: the categories on its left side, what must not come next, the k scraps from
    place `at` on that are replaced, the category of the new scrap, and its text; no text means that
    the texts are just put together.
   */
  datatype Production = Production(n: nat, lhs: seq<set<Cat>>, unless: set<Cat>, at: nat, k: nat,
                                   makes: Makes, text: seq<Part>)

  const BLANK := C(Char(' '))
  const THIN_1 := C(Char('\\'))
  const THIN_2 := C(Char(','))
  const OPEN := C(Char('{'))
  const CLOSE := C(Char('}'))
  const IN := C(Indent)
  const OUT := C(Outdent)
  const NEW_LINE := C(Force)
  const BIG_LINE := C(BigForce)
  const BREAK := C(BreakSpace)
  const STOP := C(Cancel)
  const NO_OP := C(Noop)
  const BACK := C(Backup)
  const OPT := C(Opt)
  const NINE := C(Char('9'))
  const REL := C(MathRel)

  /** A production that replaces its whole left side. */
  function Whole(n: nat, lhs: seq<set<Cat>>, makes: Makes, text: seq<Part>): Production {
    Production(n, lhs, {}, 0, |lhs|, makes, text)
  }

  /** A production that replaces k scraps at the front and keeps what follows. */
  function Front(n: nat, lhs: seq<set<Cat>>, k: nat, makes: Makes, text: seq<Part>): Production {
    Production(n, lhs, {}, 0, k, makes, text)
  }

  // ----- The table

  function ExpRows(): seq<Production> {
    [
      Front(1, [{EXP}, {LBRACE, INT_LIKE, DECL}], 1, As(FN_DECL), [S(0), IN, IN]),
      Whole(2, [{EXP}, {UNOP}], As(EXP), []),
      Whole(3, [{EXP}, {BINOP, UNORBINOP}, {EXP}], As(EXP), []),
      Whole(4, [{EXP}, {COMMA}, {EXP}], As(EXP), [S(0), S(1), OPT, NINE, S(2)]),
      Whole(5, [{EXP}, {EXP, CAST}], As(EXP), []),
      Whole(6, [{EXP}, {SEMI}], As(STMT), []),
      Whole(7, [{EXP}, {COLON}], As(TAG), []),
      Production(8, [{EXP}, {BASE}, {INT_LIKE}, {COMMA}], {}, 1, 3, As(BASE),
                 [S(1), BLANK, S(2), S(3), OPT, NINE]),
      Front(9, [{EXP}, {BASE}, {INT_LIKE}, {LBRACE}], 3, As(EXP), [S(0), BLANK, S(1), BLANK, S(2)]),
      Front(10, [{EXP}, {RBRACE}], 1, As(STMT), [])
    ]
  }

  function LparRows(): seq<Production> {
    [
      Whole(11, [{LPAR}, {EXP, UNORBINOP}, {RPAR}], As(EXP), []),
      Whole(12, [{LPAR}, {RPAR}], As(EXP), [S(0), THIN_1, THIN_2, S(1)]),
      Whole(13, [{LPAR}, {DECL_HEAD, INT_LIKE}, {RPAR}], As(CAST), []),
      Whole(14, [{LPAR}, {DECL_HEAD, INT_LIKE, EXP}, {COMMA}], As(LPAR),
            [S(0), S(1), S(2), OPT, NINE]),
      Whole(15, [{LPAR}, {STMT, DECL}], As(LPAR), [S(0), S(1), BLANK])
    ]
  }

  function OperatorRows(): seq<Production> {
    [
      Whole(16, [{QUESTION}, {EXP}, {COLON}], As(BINOP), []),
      Whole(17, [{UNOP}, {EXP, INT_LIKE}], Like(1), []),
      Whole(18, [{UNORBINOP}, {EXP, INT_LIKE}], Like(1), [OPEN, S(0), CLOSE, S(1)]),
      Whole(19, [{UNORBINOP}, {BINOP}], As(BINOP), [REL, S(0), OPEN, S(1), CLOSE, CLOSE])
    ]
  }

  function BinopRows(): seq<Production> {
    [
      Whole(20, [{BINOP}, {BINOP}], As(BINOP), [REL, OPEN, S(0), CLOSE, OPEN, S(1), CLOSE, CLOSE]),
      Whole(21, [{CAST}, {EXP}], As(EXP), [S(0), BLANK, S(1)]),
      Front(22, [{CAST}, {SEMI}], 1, As(EXP), []),
      Whole(23, [{SIZEOF_LIKE}, {CAST}], As(EXP), []),
      Whole(24, [{SIZEOF_LIKE}, {EXP}], As(EXP), [S(0), BLANK, S(1)])
    ]
  }

  function IntLikeRows(): seq<Production> {
    [
      Whole(25, [{INT_LIKE}, {INT_LIKE, STRUCT_LIKE}], Like(1), [S(0), BLANK, S(1)]),
      Front(26, [{INT_LIKE}, {EXP}, {RAW_INT, STRUCT_LIKE}], 2, As(INT_LIKE), []),
      Front(27, [{INT_LIKE}, {EXP, UNORBINOP}], 1, As(DECL_HEAD), [S(0), BLANK]),
      Front(27, [{INT_LIKE}, {SEMI}], 1, As(DECL_HEAD), [S(0)]),
      Front(28, [{INT_LIKE}, {COLON}], 1, As(DECL_HEAD), [S(0), BLANK]),
      Production(29, [{INT_LIKE}, {PRELANGLE}], {}, 1, 1, As(LANGLE), []),
      Whole(30, [{INT_LIKE}, {COLCOL}, {EXP, INT_LIKE}], Like(2), []),
      Front(31, [{INT_LIKE}, {CAST}, {LBRACE}], 2, As(FN_DECL), [S(0), S(1), IN, IN]),
      Whole(32, [{INT_LIKE}, {CAST}], As(INT_LIKE), [])
    ]
  }

  function DeclHeadRows(): seq<Production> {
    [
      Whole(33, [{DECL_HEAD}, {COMMA}], As(DECL_HEAD), [S(0), S(1), BLANK]),
      Whole(34, [{DECL_HEAD}, {UNORBINOP}], As(DECL_HEAD), [S(0), OPEN, S(1), CLOSE]),
      Whole(35, [{DECL_HEAD}, {EXP}], As(DECL_HEAD), []).(unless := {LPAR, EXP}),
      Front(36, [{DECL_HEAD}, {BINOP, COLON}, {EXP}, {COMMA, SEMI, RPAR}], 3, As(DECL_HEAD), []),
      Whole(37, [{DECL_HEAD}, {CAST}], As(DECL_HEAD), []),
      Front(38, [{DECL_HEAD}, {INT_LIKE}], 1, As(FN_DECL), [S(0), IN, IN]).(unless := {COLCOL}),
      Front(38, [{DECL_HEAD}, {LBRACE, DECL}], 1, As(FN_DECL), [S(0), IN, IN]),
      Whole(39, [{DECL_HEAD}, {SEMI}], As(DECL), [])
    ]
  }

  function DefinitionRows(): seq<Production> {
    [
      Whole(40, [{DECL}, {DECL}], As(DECL), [S(0), NEW_LINE, S(1)]),
      Whole(41, [{DECL}, {STMT, FUNCTION}], Like(1), [S(0), BIG_LINE, S(1)]),
      Whole(49, [{STRUCT_HEAD}, {DECL, STMT, FUNCTION}, {RBRACE}], As(INT_LIKE),
            [S(0), IN, NEW_LINE, S(1), OUT, NEW_LINE, S(2)]),
      Whole(50, [{STRUCT_HEAD}, {RBRACE}], As(INT_LIKE), [S(0), THIN_1, THIN_2, S(1)]),
      Whole(51, [{FN_DECL}, {DECL}], As(FN_DECL), [S(0), NEW_LINE, S(1)]),
      Whole(52, [{FN_DECL}, {STMT}], As(FUNCTION), [S(0), OUT, OUT, NEW_LINE, S(1)]),
      Whole(53, [{FUNCTION}, {STMT, DECL, FUNCTION}], Like(1), [S(0), BIG_LINE, S(1)])
    ]
  }

  function TypedefLikeRows(): seq<Production> {
    [
      Production(42, [{TYPEDEF_LIKE}, {DECL_HEAD}, {EXP}], {LPAR, EXP}, 1, 2, As(DECL_HEAD), []),
      Production(42, [{TYPEDEF_LIKE}, {DECL_HEAD}, {INT_LIKE}], {}, 1, 2, As(DECL_HEAD), []),
      Whole(43, [{TYPEDEF_LIKE}, {DECL_HEAD}, {SEMI}], As(DECL), [S(0), BLANK, S(1)])
    ]
  }

  function StructLikeRows(): seq<Production> {
    [
      Whole(44, [{STRUCT_LIKE}, {LBRACE}], As(STRUCT_HEAD), [S(0), BLANK, S(1)]),
      Front(45, [{STRUCT_LIKE}, {EXP, INT_LIKE}, {SEMI}], 2, As(DECL_HEAD), [S(0), BLANK, S(1)]),
      Whole(46, [{STRUCT_LIKE}, {EXP, INT_LIKE}, {LBRACE}], As(STRUCT_HEAD),
            [S(0), BLANK, S(1), BLANK, S(2)]),
      Production(47, [{STRUCT_LIKE}, {EXP, INT_LIKE}, {COLON}], {}, 2, 1, As(BASE), []),
      Whole(48, [{STRUCT_LIKE}, {EXP, INT_LIKE}], As(INT_LIKE), [S(0), BLANK, S(1)])
        .(unless := {BASE})
    ]
  }

  function LbraceRows(): seq<Production> {
    [
      Whole(54, [{LBRACE}, {RBRACE}], As(STMT), [S(0), THIN_1, THIN_2, S(1)]),
      Whole(55, [{LBRACE}, {STMT, DECL, FUNCTION}, {RBRACE}], As(STMT),
            [NEW_LINE, S(0), IN, NEW_LINE, S(1), NEW_LINE, BACK, S(2), OUT, NEW_LINE]),
      Whole(56, [{LBRACE}, {EXP}, {RBRACE}], As(EXP), []),
      Whole(56, [{LBRACE}, {EXP}, {COMMA}, {RBRACE}], As(EXP), [])
    ]
  }

  function LoopRows(): seq<Production> {
    [
      Whole(57, [{IF_LIKE}, {EXP}], As(IF_CLAUSE), [S(0), BLANK, S(1)]),
      Whole(58, [{FOR_LIKE}, {EXP}], As(ELSE_LIKE), [S(0), BLANK, S(1)]),
      Front(59, [{ELSE_LIKE}, {LBRACE}], 1, As(ELSE_HEAD), []),
      Whole(60, [{ELSE_LIKE}, {STMT}], As(STMT), [NEW_LINE, S(0), IN, BREAK, S(1), OUT, NEW_LINE])
    ]
  }

  function DoRows(): seq<Production> {
    [
      Whole(61, [{ELSE_HEAD}, {STMT, EXP}], As(STMT),
            [NEW_LINE, S(0), BREAK, NO_OP, STOP, S(1), BREAK]),
      Whole(69, [{DO_LIKE}, {STMT}, {ELSE_LIKE}, {SEMI}], As(STMT),
            [S(0), BREAK, NO_OP, STOP, S(1), STOP, NO_OP, BREAK, S(2), S(3)])
    ]
  }

  function IfClauseRows(): seq<Production> {
    [
      Front(62, [{IF_CLAUSE}, {LBRACE}], 1, As(IF_HEAD), []),
      Whole(63, [{IF_CLAUSE}, {STMT}, {ELSE_LIKE}, {IF_LIKE}], As(IF_LIKE),
            [NEW_LINE, S(0), IN, BREAK, S(1), OUT, NEW_LINE, S(2), BLANK, S(3)]),
      Whole(64, [{IF_CLAUSE}, {STMT}, {ELSE_LIKE}], As(ELSE_LIKE),
            [NEW_LINE, S(0), IN, BREAK, S(1), OUT, NEW_LINE, S(2)]),
      Front(65, [{IF_CLAUSE}, {STMT}], 1, As(ELSE_LIKE), [])
    ]
  }

  function IfHeadRows(): seq<Production> {
    [
      Whole(66, [{IF_HEAD}, {STMT, EXP}, {ELSE_LIKE}, {IF_LIKE}], As(IF_LIKE),
            [NEW_LINE, S(0), BREAK, NO_OP, STOP, S(1), NEW_LINE, S(2), BLANK, S(3)]),
      Whole(67, [{IF_HEAD}, {STMT, EXP}, {ELSE_LIKE}], As(ELSE_LIKE),
            [NEW_LINE, S(0), BREAK, NO_OP, STOP, S(1), NEW_LINE, S(2)]),
      Front(68, [{IF_HEAD}, {STMT, EXP}], 1, As(ELSE_HEAD), [])
    ]
  }

  function CaseLikeRows(): seq<Production> {
    [
      Whole(70, [{CASE_LIKE}, {SEMI}], As(STMT), []),
      Whole(71, [{CASE_LIKE}, {COLON}], As(TAG), []),
      Whole(72, [{CASE_LIKE}, {EXP}, {SEMI}], As(STMT), [S(0), BLANK, S(1), S(2)]),
      Whole(73, [{CASE_LIKE}, {EXP}, {COLON}], As(TAG), [S(0), BLANK, S(1), S(2)])
    ]
  }

  function LabelRows(forceLines: bool): seq<Production> {
    [
      Whole(74, [{TAG}, {TAG}], As(TAG), [S(0), BREAK, S(1)]),
      Whole(75, [{TAG}, {STMT, DECL, FUNCTION}], Like(1), [NEW_LINE, BACK, S(0), BREAK, S(1)]),
      Whole(76, [{STMT}, {STMT}], As(STMT), [S(0), if forceLines then NEW_LINE else BREAK, S(1)]),
      Whole(76, [{STMT}, {DECL, FUNCTION}], Like(1), [S(0), BIG_LINE, S(1)]),
      Whole(77, [{SEMI}], As(STMT), [BLANK, S(0)]),
      Whole(81, [{SECTION_SCRAP}, {SEMI}], As(STMT), [S(0), S(1), NEW_LINE]),
      Whole(82, [{SECTION_SCRAP}], As(EXP), [])
    ]
  }

  function LprocRows(): seq<Production> {
    [
      Whole(78, [{LPROC}, {IF_LIKE, ELSE_LIKE, DEFINE_LIKE}], As(LPROC), []),
      Whole(79, [{LPROC}, {RPROC}], As(INSERT), []),
      Whole(80, [{LPROC}, {EXP, FUNCTION}, {RPROC}], As(INSERT), [S(0), BLANK, S(1)]),
      Whole(80, [{LPROC}, {EXP}, {EXP}, {RPROC}], As(INSERT),
            [S(0), BLANK, S(1), BLANK, C(Char('\\')), C(Char('5')), S(2)])
    ]
  }

  function AngleRows(): seq<Production> {
    [
      Whole(84, [{PRELANGLE}], As(BINOP), [C(Char('<'))]),
      Whole(85, [{PRERANGLE}], As(BINOP), [C(Char('>'))]),
      Whole(90, [{PUBLIC_LIKE}, {COLON}], As(TAG), []),
      Whole(91, [{PUBLIC_LIKE}], As(INT_LIKE), []),
      Whole(92, [{COLCOL}, {EXP, INT_LIKE}], Like(1), []),
      Whole(100, [{CATCH_LIKE}, {CAST, EXP}], As(FN_DECL), [S(0), S(1), IN, IN])
    ]
  }

  function LangleRows(): seq<Production> {
    [
      Whole(86, [{LANGLE}, {EXP}, {PRERANGLE}], As(CAST), []),
      Whole(87, [{LANGLE}, {PRERANGLE}], As(CAST), [S(0), THIN_1, THIN_2, S(1)]),
      Whole(88, [{LANGLE}, {DECL_HEAD, INT_LIKE}, {PRERANGLE}], As(CAST), []),
      Whole(89, [{LANGLE}, {DECL_HEAD, INT_LIKE}, {COMMA}], As(LANGLE),
            [S(0), S(1), S(2), OPT, NINE])
    ]
  }

  function NewLikeRows(): seq<Production> {
    [
      Whole(93, [{NEW_LIKE}, {EXP}], As(NEW_LIKE), [S(0), BLANK, S(1)]),
      Whole(93, [{NEW_LIKE}, {RAW_INT}], As(NEW_LIKE), [S(0), BLANK, S(1)])
        .(unless := {PRELANGLE, LANGLE}),
      Whole(94, [{NEW_LIKE}, {RAW_UNORBIN, COLCOL}], As(NEW_LIKE), []),
      Whole(95, [{NEW_LIKE}, {CAST}], As(EXP), []),
      Whole(96, [{NEW_LIKE}], As(EXP), []).(unless := {LPAR, RAW_INT, STRUCT_LIKE})
    ]
  }

  function OperatorLikeRows(): seq<Production> {
    [
      Whole(97, [{OPERATOR_LIKE}, {BINOP, UNOP, UNORBINOP}], As(EXP), [S(0), OPEN, S(1), CLOSE])
        .(unless := {BINOP}),
      Whole(98, [{OPERATOR_LIKE}, {NEW_LIKE, SIZEOF_LIKE}], As(EXP), [S(0), BLANK, S(1)]),
      Whole(99, [{OPERATOR_LIKE}], As(NEW_LIKE), [])
    ]
  }

  function BaseRows(): seq<Production> {
    [
      Whole(101, [{BASE}, {PUBLIC_LIKE}, {EXP}, {COMMA}], As(BASE),
            [S(0), S(1), BLANK, S(2), S(3)]),
      Production(102, [{BASE}, {PUBLIC_LIKE}, {EXP}], {}, 1, 2, As(INT_LIKE), [S(1), BLANK, S(2)]),
      Front(103, [{RAW_RPAR}, {CONST_LIKE}, {SEMI, LBRACE, COMMA, BINOP, CONST_LIKE}], 2,
            As(RAW_RPAR), [S(0), BLANK, S(1)]),
      Whole(104, [{RAW_RPAR}], As(RPAR), [])
    ]
  }

  function RawRows(): seq<Production> {
    [
      Whole(105, [{RAW_UNORBIN}, {CONST_LIKE}], As(RAW_UNORBIN),
            [S(0), S(1), C(Char('\\')), BLANK]),
      Whole(106, [{RAW_UNORBIN}], As(UNORBINOP), []),
      Whole(107, [{CONST_LIKE}], As(INT_LIKE), []),
      Front(108, [{RAW_INT}, {LPAR}], 1, As(EXP), []),
      Whole(109, [{RAW_INT}], As(INT_LIKE), [])
    ]
  }

  /** The productions whose left side can start with c, and some others of their kind. */
  function Rows(c: Cat, forceLines: bool): seq<Production> {
    if c == EXP then ExpRows()
    else if c == LPAR then LparRows()
    else if c == INT_LIKE then IntLikeRows()
    else if c == DECL_HEAD then DeclHeadRows()
    else if c == TYPEDEF_LIKE then TypedefLikeRows()
    else if c == STRUCT_LIKE then StructLikeRows()
    else if c == LBRACE then LbraceRows()
    else if c == IF_CLAUSE then IfClauseRows()
    else if c == IF_HEAD then IfHeadRows()
    else if c == CASE_LIKE then CaseLikeRows()
    else if c == LPROC then LprocRows()
    else if c == LANGLE then LangleRows()
    else if c == NEW_LIKE then NewLikeRows()
    else if c == OPERATOR_LIKE then OperatorLikeRows()
    else if c == QUESTION || c == UNOP || c == UNORBINOP then OperatorRows()
    else if c == BINOP || c == CAST || c == SIZEOF_LIKE then BinopRows()
    else if c == DECL || c == STRUCT_HEAD || c == FN_DECL || c == FUNCTION then DefinitionRows()
    else if c == IF_LIKE || c == FOR_LIKE || c == ELSE_LIKE then LoopRows()
    else if c == ELSE_HEAD || c == DO_LIKE then DoRows()
    else if c == TAG || c == STMT || c == SEMI || c == SECTION_SCRAP then LabelRows(forceLines)
    else if c == PRELANGLE || c == PRERANGLE || c == PUBLIC_LIKE || c == COLCOL || c == CATCH_LIKE then
      AngleRows()
    else if c == BASE || c == RAW_RPAR then BaseRows()
    else if c == RAW_UNORBIN || c == CONST_LIKE || c == RAW_INT then RawRows()
    else []
  }

  /** The text that is made; in four places the table has another one, or none. */
  function Text(p: Production): seq<Part> {
    if p.n == 43 then [S(0), BLANK, S(1), S(2)]
    else if p.n == 61 then [NEW_LINE, S(0), BREAK, NO_OP, STOP, S(1), NEW_LINE]
    else if p.n == 79 then [C(Inserted), S(0), S(1)]
    else if p.n == 80 && p.k == 3 then [C(Inserted), S(0), BLANK, S(1), S(2)]
    else if p.n == 80 then
      [C(Inserted), S(0), BLANK, S(1), BLANK, C(Char('\\')), C(Char('5')), S(2), S(3)]
    else if p.text == [] then seq(p.k, i requires 0 <= i => S(p.at + i))
    else p.text
  }

  predicate Applies(p: Production, c0: Cat, c1: Cat, c2: Cat, c3: Cat) {
    && 0 < |p.lhs| <= 4
    && c0 in p.lhs[0]
    && (if |p.lhs| == 1 then c1 !in p.unless
        else
          && c1 in p.lhs[1]
          && (if |p.lhs| == 2 then c2 !in p.unless
              else
                && c2 in p.lhs[2]
                && (if |p.lhs| == 3 then c3 !in p.unless else c3 in p.lhs[3])))
  }

  /** The program appends these pieces. */
  predicate Spells(prog: Prog, text: seq<Part>, from: nat)
    decreases prog
  {
    match prog
    case End => from == |text|
    case Sc(i, rest) => from < |text| && text[from] == S(i) && Spells(rest, text, from + 1)
    case Big(c, rest) => from < |text| && text[from] == C(c) && Spells(rest, text, from + 1)
    case Raw(c, rest) => from < |text| && text[from] == C(c) && Spells(rest, text, from + 1)
    case MathOn(rest) => Spells(rest, text, from)
    case Reserve(_, rest) => Spells(rest, text, from)
  }

  /** The rule carries out the production. */
  predicate Carries(r: Rule, p: Production, c0: Cat, c1: Cat, c2: Cat, c3: Cat) {
    && !r.NoRule? && r.n == p.n && r.j == p.at && r.k == p.k
    && r.cat == (match p.makes case As(c) => c case Like(i) => Nth(c0, c1, c2, c3, i))
    && (if r.Reduce? then Spells(r.prog, Text(p), 0)
        else Text(p) == seq(r.k, i requires 0 <= i => S(r.j + i)))
  }

  /** Production i of the rows applies, and no other one of them that applies is as long. */
  ghost predicate Longest(rows: seq<Production>, i: nat, c0: Cat, c1: Cat, c2: Cat, c3: Cat) {
    && i < |rows| && Applies(rows[i], c0, c1, c2, c3)
    && forall j :: 0 <= j < |rows| && j != i && Applies(rows[j], c0, c1, c2, c3) ==>
         |rows[j].lhs| < |rows[i].lhs|
  }

  /** Behind `operator`, in front of two operators of which the second one is binary. */
  predicate TwoOperators(c0: Cat, c1: Cat, c2: Cat) {
    c0 == OPERATOR_LIKE && (c1 == BINOP || c1 == UNOP || c1 == UNORBINOP) && c2 == BINOP
  }

  /**
    The rule carries out the longest production of the rows that applies, and without a rule there
    is no production; but production 99 is not carried out in front of two operators.
   */
  ghost predicate Documented(r: Rule, rows: seq<Production>, c0: Cat, c1: Cat, c2: Cat, c3: Cat) {
    if r.NoRule? then
      (exists i :: 0 <= i < |rows| && Applies(rows[i], c0, c1, c2, c3)) <==> TwoOperators(c0, c1, c2)
    else
      exists i: nat :: Longest(rows, i, c0, c1, c2, c3) && Carries(r, rows[i], c0, c1, c2, c3)
  }

  // ----- The switch against the table

  function Number(r: Rule): int {
    if r.NoRule? then 0 else r.n
  }

  /** If production j applies, the rule has production i, which is longer or the same. */
  predicate Rival(r: Rule, rows: seq<Production>, i: int, c0: Cat, c1: Cat, c2: Cat, c3: Cat, j: nat) {
    j < |rows| && Applies(rows[j], c0, c1, c2, c3) ==>
      !r.NoRule? && 0 <= i < |rows| && (j != i ==> |rows[j].lhs| < |rows[i].lhs|)
  }

  /** The rule carries out production i. */
  predicate Carried(r: Rule, rows: seq<Production>, i: int, c0: Cat, c1: Cat, c2: Cat, c3: Cat) {
    !r.NoRule? ==>
      0 <= i < |rows| && Applies(rows[i], c0, c1, c2, c3) && Carries(r, rows[i], c0, c1, c2, c3)
  }

  lemma FromParts(r: Rule, rows: seq<Production>, i: int, c0: Cat, c1: Cat, c2: Cat, c3: Cat)
    requires forall j: nat :: Rival(r, rows, i, c0, c1, c2, c3, j)
    requires Carried(r, rows, i, c0, c1, c2, c3) && !TwoOperators(c0, c1, c2)
    ensures Documented(r, rows, c0, c1, c2, c3)
  {
    hide Applies, Carries;
    forall j | 0 <= j < |rows| && Applies(rows[j], c0, c1, c2, c3)
      ensures !r.NoRule? && 0 <= i < |rows| && (j != i ==> |rows[j].lhs| < |rows[i].lhs|)
    {
      assert Rival(r, rows, i, c0, c1, c2, c3, j);
    }
    if !r.NoRule? {
      assert Longest(rows, i, c0, c1, c2, c3);
    }
  }

  lemma ExpCarried(c1: Cat, c2: Cat, c3: Cat)
    ensures var r := MatchExp(c1, c2, c3);
            Carried(r, ExpRows(), Number(r) - 1, EXP, c1, c2, c3)
  {
  }

  lemma ExpDocumented(c1: Cat, c2: Cat, c3: Cat)
    ensures Documented(MatchExp(c1, c2, c3), ExpRows(), EXP, c1, c2, c3)
  {
    var r, rows := MatchExp(c1, c2, c3), ExpRows();
    var i := Number(r) - 1;
    ExpCarried(c1, c2, c3);
    hide Carried;
    forall j: nat
      ensures Rival(r, rows, i, EXP, c1, c2, c3, j)
    {
    }
    hide Rival, MatchExp, ExpRows;
    FromParts(r, rows, i, EXP, c1, c2, c3);
  }

  lemma LparDocumented(c1: Cat, c2: Cat, c3: Cat)
    ensures Documented(MatchLpar(c1, c2), LparRows(), LPAR, c1, c2, c3)
  {
    var r, rows := MatchLpar(c1, c2), LparRows();
    var i := Number(r) - 11;
    forall j: nat
      ensures Rival(r, rows, i, LPAR, c1, c2, c3, j)
    {
    }
    assert Carried(r, rows, i, LPAR, c1, c2, c3);
    hide Rival, Carried, MatchLpar, LparRows;
    FromParts(r, rows, i, LPAR, c1, c2, c3);
  }

  lemma IntLikeDocumented(c1: Cat, c2: Cat, c3: Cat)
    ensures Documented(MatchIntLike(c1, c2), IntLikeRows(), INT_LIKE, c1, c2, c3)
  {
    var r, rows := MatchIntLike(c1, c2), IntLikeRows();
    var n := Number(r);
    var i := if n < 27 then n - 25 else if n > 27 then n - 24 else if c1 == SEMI then 3 else 2;
    forall j: nat
      ensures Rival(r, rows, i, INT_LIKE, c1, c2, c3, j)
    {
    }
    assert Carried(r, rows, i, INT_LIKE, c1, c2, c3);
    hide Rival, Carried, MatchIntLike, IntLikeRows;
    FromParts(r, rows, i, INT_LIKE, c1, c2, c3);
  }

  lemma DeclHeadDocumented(c1: Cat, c2: Cat, c3: Cat)
    ensures Documented(MatchDeclHead(c1, c2, c3), DeclHeadRows(), DECL_HEAD, c1, c2, c3)
  {
    var r, rows := MatchDeclHead(c1, c2, c3), DeclHeadRows();
    var n := Number(r);
    var i := if n < 38 then n - 33 else if n > 38 then 7 else if c1 == INT_LIKE then 5 else 6;
    forall j: nat
      ensures Rival(r, rows, i, DECL_HEAD, c1, c2, c3, j)
    {
    }
    assert Carried(r, rows, i, DECL_HEAD, c1, c2, c3);
    hide Rival, Carried, MatchDeclHead, DeclHeadRows;
    FromParts(r, rows, i, DECL_HEAD, c1, c2, c3);
  }

  lemma TypedefLikeDocumented(c1: Cat, c2: Cat, c3: Cat)
    ensures Documented(MatchTypedefLike(c1, c2, c3), TypedefLikeRows(), TYPEDEF_LIKE, c1, c2, c3)
  {
    var r, rows := MatchTypedefLike(c1, c2, c3), TypedefLikeRows();
    var i := if Number(r) > 42 then 2 else if c2 == EXP then 0 else 1;
    forall j: nat
      ensures Rival(r, rows, i, TYPEDEF_LIKE, c1, c2, c3, j)
    {
    }
    assert Carried(r, rows, i, TYPEDEF_LIKE, c1, c2, c3);
    hide Rival, Carried, MatchTypedefLike, TypedefLikeRows;
    FromParts(r, rows, i, TYPEDEF_LIKE, c1, c2, c3);
  }

  lemma StructLikeDocumented(c1: Cat, c2: Cat, c3: Cat)
    ensures Documented(MatchStructLike(c1, c2), StructLikeRows(), STRUCT_LIKE, c1, c2, c3)
  {
    var r, rows := MatchStructLike(c1, c2), StructLikeRows();
    var i := Number(r) - 44;
    forall j: nat
      ensures Rival(r, rows, i, STRUCT_LIKE, c1, c2, c3, j)
    {
    }
    assert Carried(r, rows, i, STRUCT_LIKE, c1, c2, c3);
    hide Rival, Carried, MatchStructLike, StructLikeRows;
    FromParts(r, rows, i, STRUCT_LIKE, c1, c2, c3);
  }

  lemma LbraceDocumented(c1: Cat, c2: Cat, c3: Cat)
    ensures Documented(MatchLbrace(c1, c2, c3), LbraceRows(), LBRACE, c1, c2, c3)
  {
    var r, rows := MatchLbrace(c1, c2, c3), LbraceRows();
    var i := if Number(r) < 56 then Number(r) - 54 else if c2 == RBRACE then 2 else 3;
    forall j: nat
      ensures Rival(r, rows, i, LBRACE, c1, c2, c3, j)
    {
    }
    assert Carried(r, rows, i, LBRACE, c1, c2, c3);
    hide Rival, Carried, MatchLbrace, LbraceRows;
    FromParts(r, rows, i, LBRACE, c1, c2, c3);
  }

  lemma IfClauseDocumented(c1: Cat, c2: Cat, c3: Cat)
    ensures Documented(MatchIfClause(c1, c2, c3), IfClauseRows(), IF_CLAUSE, c1, c2, c3)
  {
    var r, rows := MatchIfClause(c1, c2, c3), IfClauseRows();
    var i := Number(r) - 62;
    forall j: nat
      ensures Rival(r, rows, i, IF_CLAUSE, c1, c2, c3, j)
    {
    }
    assert Carried(r, rows, i, IF_CLAUSE, c1, c2, c3);
    hide Rival, Carried, MatchIfClause, IfClauseRows;
    FromParts(r, rows, i, IF_CLAUSE, c1, c2, c3);
  }

  lemma IfHeadDocumented(c1: Cat, c2: Cat, c3: Cat)
    ensures Documented(MatchIfHead(c1, c2, c3), IfHeadRows(), IF_HEAD, c1, c2, c3)
  {
    var r, rows := MatchIfHead(c1, c2, c3), IfHeadRows();
    var i := Number(r) - 66;
    forall j: nat
      ensures Rival(r, rows, i, IF_HEAD, c1, c2, c3, j)
    {
    }
    assert Carried(r, rows, i, IF_HEAD, c1, c2, c3);
    hide Rival, Carried, MatchIfHead, IfHeadRows;
    FromParts(r, rows, i, IF_HEAD, c1, c2, c3);
  }

  lemma CaseLikeDocumented(c1: Cat, c2: Cat, c3: Cat)
    ensures Documented(MatchCaseLike(c1, c2), CaseLikeRows(), CASE_LIKE, c1, c2, c3)
  {
    var r, rows := MatchCaseLike(c1, c2), CaseLikeRows();
    var i := Number(r) - 70;
    forall j: nat
      ensures Rival(r, rows, i, CASE_LIKE, c1, c2, c3, j)
    {
    }
    assert Carried(r, rows, i, CASE_LIKE, c1, c2, c3);
    hide Rival, Carried, MatchCaseLike, CaseLikeRows;
    FromParts(r, rows, i, CASE_LIKE, c1, c2, c3);
  }

  lemma LprocDocumented(c1: Cat, c2: Cat, c3: Cat)
    ensures Documented(MatchLproc(c1, c2, c3), LprocRows(), LPROC, c1, c2, c3)
  {
    var r, rows := MatchLproc(c1, c2, c3), LprocRows();
    var i := if Number(r) < 80 then Number(r) - 78 else if c2 == RPROC then 2 else 3;
    forall j: nat
      ensures Rival(r, rows, i, LPROC, c1, c2, c3, j)
    {
    }
    assert Carried(r, rows, i, LPROC, c1, c2, c3);
    hide Rival, Carried, MatchLproc, LprocRows;
    FromParts(r, rows, i, LPROC, c1, c2, c3);
  }

  lemma LangleDocumented(c1: Cat, c2: Cat, c3: Cat)
    ensures Documented(MatchLangle(c1, c2), LangleRows(), LANGLE, c1, c2, c3)
  {
    var r, rows := MatchLangle(c1, c2), LangleRows();
    var i := Number(r) - 86;
    forall j: nat
      ensures Rival(r, rows, i, LANGLE, c1, c2, c3, j)
    {
    }
    assert Carried(r, rows, i, LANGLE, c1, c2, c3);
    hide Rival, Carried, MatchLangle, LangleRows;
    FromParts(r, rows, i, LANGLE, c1, c2, c3);
  }

  lemma NewLikeDocumented(c1: Cat, c2: Cat, c3: Cat)
    ensures Documented(MatchNewLike(c1, c2), NewLikeRows(), NEW_LIKE, c1, c2, c3)
  {
    var r, rows := MatchNewLike(c1, c2), NewLikeRows();
    var i := if Number(r) > 93 then Number(r) - 92 else if c1 == EXP then 0 else 1;
    forall j: nat
      ensures Rival(r, rows, i, NEW_LIKE, c1, c2, c3, j)
    {
    }
    assert Carried(r, rows, i, NEW_LIKE, c1, c2, c3);
    hide Rival, Carried, MatchNewLike, NewLikeRows;
    FromParts(r, rows, i, NEW_LIKE, c1, c2, c3);
  }

  lemma OperatorLikeDocumented(c1: Cat, c2: Cat, c3: Cat)
    requires !TwoOperators(OPERATOR_LIKE, c1, c2)
    ensures Documented(MatchOperatorLike(c1, c2), OperatorLikeRows(), OPERATOR_LIKE, c1, c2, c3)
  {
    var r, rows := MatchOperatorLike(c1, c2), OperatorLikeRows();
    var i := Number(r) - 97;
    forall j: nat
      ensures Rival(r, rows, i, OPERATOR_LIKE, c1, c2, c3, j)
    {
    }
    assert Carried(r, rows, i, OPERATOR_LIKE, c1, c2, c3);
    hide Rival, Carried, MatchOperatorLike, OperatorLikeRows;
    FromParts(r, rows, i, OPERATOR_LIKE, c1, c2, c3);
  }

  lemma OperatorDocumented(c0: Cat, c1: Cat, c2: Cat, c3: Cat, forceLines: bool)
    requires c0 == QUESTION || c0 == UNOP || c0 == UNORBINOP
    ensures Documented(MatchOn(c0, c1, c2, c3, forceLines), OperatorRows(), c0, c1, c2, c3)
  {
    var r, rows := MatchOn(c0, c1, c2, c3, forceLines), OperatorRows();
    var i := Number(r) - 16;
    forall j: nat
      ensures Rival(r, rows, i, c0, c1, c2, c3, j)
    {
    }
    assert Carried(r, rows, i, c0, c1, c2, c3);
    hide Rival, Carried, MatchOn, OperatorRows;
    FromParts(r, rows, i, c0, c1, c2, c3);
  }

  lemma BinopDocumented(c0: Cat, c1: Cat, c2: Cat, c3: Cat, forceLines: bool)
    requires c0 == BINOP || c0 == CAST || c0 == SIZEOF_LIKE
    ensures Documented(MatchOn(c0, c1, c2, c3, forceLines), BinopRows(), c0, c1, c2, c3)
  {
    var r, rows := MatchOn(c0, c1, c2, c3, forceLines), BinopRows();
    var i := Number(r) - 20;
    forall j: nat
      ensures Rival(r, rows, i, c0, c1, c2, c3, j)
    {
    }
    assert Carried(r, rows, i, c0, c1, c2, c3);
    hide Rival, Carried, MatchOn, BinopRows;
    FromParts(r, rows, i, c0, c1, c2, c3);
  }

  lemma DefinitionDocumented(c0: Cat, c1: Cat, c2: Cat, c3: Cat, forceLines: bool)
    requires c0 == DECL || c0 == STRUCT_HEAD || c0 == FN_DECL || c0 == FUNCTION
    ensures Documented(MatchOn(c0, c1, c2, c3, forceLines), DefinitionRows(), c0, c1, c2, c3)
  {
    var r, rows := MatchOn(c0, c1, c2, c3, forceLines), DefinitionRows();
    var i := if Number(r) < 49 then Number(r) - 40 else Number(r) - 47;
    forall j: nat
      ensures Rival(r, rows, i, c0, c1, c2, c3, j)
    {
    }
    assert Carried(r, rows, i, c0, c1, c2, c3);
    hide Rival, Carried, MatchOn, DefinitionRows;
    FromParts(r, rows, i, c0, c1, c2, c3);
  }

  lemma LoopDocumented(c0: Cat, c1: Cat, c2: Cat, c3: Cat, forceLines: bool)
    requires c0 == IF_LIKE || c0 == FOR_LIKE || c0 == ELSE_LIKE
    ensures Documented(MatchOn(c0, c1, c2, c3, forceLines), LoopRows(), c0, c1, c2, c3)
  {
    var r, rows := MatchOn(c0, c1, c2, c3, forceLines), LoopRows();
    var i := Number(r) - 57;
    forall j: nat
      ensures Rival(r, rows, i, c0, c1, c2, c3, j)
    {
    }
    assert Carried(r, rows, i, c0, c1, c2, c3);
    hide Rival, Carried, MatchOn, LoopRows;
    FromParts(r, rows, i, c0, c1, c2, c3);
  }

  lemma DoDocumented(c0: Cat, c1: Cat, c2: Cat, c3: Cat, forceLines: bool)
    requires c0 == ELSE_HEAD || c0 == DO_LIKE
    ensures Documented(MatchOn(c0, c1, c2, c3, forceLines), DoRows(), c0, c1, c2, c3)
  {
    var r, rows := MatchOn(c0, c1, c2, c3, forceLines), DoRows();
    var i := if Number(r) == 61 then 0 else 1;
    forall j: nat
      ensures Rival(r, rows, i, c0, c1, c2, c3, j)
    {
    }
    assert Carried(r, rows, i, c0, c1, c2, c3);
    hide Rival, Carried, MatchOn, DoRows;
    FromParts(r, rows, i, c0, c1, c2, c3);
  }

  lemma LabelDocumented(c0: Cat, c1: Cat, c2: Cat, c3: Cat, forceLines: bool)
    requires c0 == TAG || c0 == STMT || c0 == SEMI || c0 == SECTION_SCRAP
    ensures Documented(MatchOn(c0, c1, c2, c3, forceLines), LabelRows(forceLines), c0, c1, c2, c3)
  {
    var r, rows := MatchOn(c0, c1, c2, c3, forceLines), LabelRows(forceLines);
    var n := Number(r);
    var i := if n < 76 then n - 74 else if n > 77 then n - 76 else if n == 77 then 4
             else if c1 == STMT then 2 else 3;
    forall j: nat
      ensures Rival(r, rows, i, c0, c1, c2, c3, j)
    {
    }
    assert Carried(r, rows, i, c0, c1, c2, c3);
    hide Rival, Carried, MatchOn, LabelRows;
    FromParts(r, rows, i, c0, c1, c2, c3);
  }

  lemma AngleDocumented(c0: Cat, c1: Cat, c2: Cat, c3: Cat, forceLines: bool)
    requires c0 == PRELANGLE || c0 == PRERANGLE || c0 == PUBLIC_LIKE || c0 == COLCOL || c0 == CATCH_LIKE
    ensures Documented(MatchOn(c0, c1, c2, c3, forceLines), AngleRows(), c0, c1, c2, c3)
  {
    var r, rows := MatchOn(c0, c1, c2, c3, forceLines), AngleRows();
    var i := if Number(r) < 90 then Number(r) - 84 else if Number(r) == 100 then 5 else Number(r) - 88;
    forall j: nat
      ensures Rival(r, rows, i, c0, c1, c2, c3, j)
    {
    }
    assert Carried(r, rows, i, c0, c1, c2, c3);
    hide Rival, Carried, MatchOn, AngleRows;
    FromParts(r, rows, i, c0, c1, c2, c3);
  }

  lemma BaseDocumented(c0: Cat, c1: Cat, c2: Cat, c3: Cat, forceLines: bool)
    requires c0 == BASE || c0 == RAW_RPAR
    ensures Documented(MatchOn(c0, c1, c2, c3, forceLines), BaseRows(), c0, c1, c2, c3)
  {
    var r, rows := MatchOn(c0, c1, c2, c3, forceLines), BaseRows();
    var i := Number(r) - 101;
    forall j: nat
      ensures Rival(r, rows, i, c0, c1, c2, c3, j)
    {
    }
    assert Carried(r, rows, i, c0, c1, c2, c3);
    hide Rival, Carried, MatchOn, BaseRows;
    FromParts(r, rows, i, c0, c1, c2, c3);
  }

  lemma RawDocumented(c0: Cat, c1: Cat, c2: Cat, c3: Cat, forceLines: bool)
    requires c0 == RAW_UNORBIN || c0 == CONST_LIKE || c0 == RAW_INT
    ensures Documented(MatchOn(c0, c1, c2, c3, forceLines), RawRows(), c0, c1, c2, c3)
  {
    var r, rows := MatchOn(c0, c1, c2, c3, forceLines), RawRows();
    var i := Number(r) - 105;
    forall j: nat
      ensures Rival(r, rows, i, c0, c1, c2, c3, j)
    {
    }
    assert Carried(r, rows, i, c0, c1, c2, c3);
    hide Rival, Carried, MatchOn, RawRows;
    FromParts(r, rows, i, c0, c1, c2, c3);
  }

  /** Two operators behind `operator`: production 99 applies, but the switch does nothing. */
  lemma TwoOperatorsStay(c1: Cat, c2: Cat, c3: Cat)
    requires TwoOperators(OPERATOR_LIKE, c1, c2)
    ensures Documented(MatchOperatorLike(c1, c2), OperatorLikeRows(), OPERATOR_LIKE, c1, c2, c3)
  {
    assert OperatorLikeRows()[2].n == 99;
    assert Applies(OperatorLikeRows()[2], OPERATOR_LIKE, c1, c2, c3);
  }

  lemma SwitchParts(c0: Cat, c1: Cat, c2: Cat, c3: Cat, forceLines: bool)
    ensures MatchOn(c0, c1, c2, c3, forceLines) == (
              if c0 == EXP then MatchExp(c1, c2, c3)
              else if c0 == LPAR then MatchLpar(c1, c2)
              else if c0 == INT_LIKE then MatchIntLike(c1, c2)
              else if c0 == DECL_HEAD then MatchDeclHead(c1, c2, c3)
              else if c0 == TYPEDEF_LIKE then MatchTypedefLike(c1, c2, c3)
              else if c0 == STRUCT_LIKE then MatchStructLike(c1, c2)
              else if c0 == LBRACE then MatchLbrace(c1, c2, c3)
              else if c0 == IF_CLAUSE then MatchIfClause(c1, c2, c3)
              else if c0 == IF_HEAD then MatchIfHead(c1, c2, c3)
              else if c0 == CASE_LIKE then MatchCaseLike(c1, c2)
              else if c0 == LPROC then MatchLproc(c1, c2, c3)
              else if c0 == LANGLE then MatchLangle(c1, c2)
              else if c0 == NEW_LIKE then MatchNewLike(c1, c2)
              else if c0 == OPERATOR_LIKE then MatchOperatorLike(c1, c2)
              else MatchOn(c0, c1, c2, c3, forceLines))
  {
    hide MatchBase, MatchBinop, MatchCaseLike, MatchCast, MatchCatchLike, MatchColcol,
         MatchConstLike, MatchDecl, MatchDeclHead, MatchDoLike, MatchElseHead, MatchElseLike,
         MatchExp, MatchFnDecl, MatchForLike, MatchFunction, MatchIfClause, MatchIfHead,
         MatchIfLike, MatchInsert, MatchIntLike, MatchLangle, MatchLbrace, MatchLpar, MatchLproc,
         MatchNewLike, MatchOperatorLike, MatchPrelangle, MatchPrerangle, MatchPublicLike,
         MatchQuestion, MatchRawInt, MatchRawRpar, MatchRawUnorbin, MatchSectionScrap, MatchSemi,
         MatchSizeofLike, MatchStmt, MatchStructHead, MatchStructLike, MatchTag,
         MatchTypedefLike, MatchUnop, MatchUnorbinop;
  }

  lemma NothingToDo(c0: Cat, c1: Cat, c2: Cat, c3: Cat, forceLines: bool)
    requires Rows(c0, forceLines) == [] && c0 != INSERT
    ensures Documented(MatchOn(c0, c1, c2, c3, forceLines), Rows(c0, forceLines), c0, c1, c2, c3)
  {
  }

  /**
    The switch carries out the longest production in the table that applies, and does nothing if
    none does; the one exception is production 99 in front of two operators.
   */
  lemma SwitchDocumented(c0: Cat, c1: Cat, c2: Cat, c3: Cat, forceLines: bool)
    requires c0 != INSERT
    ensures Documented(MatchOn(c0, c1, c2, c3, forceLines), Rows(c0, forceLines), c0, c1, c2, c3)
  {
    hide Documented, MatchOn, TwoOperators,
         MatchBase, MatchBinop, MatchCaseLike, MatchCast, MatchCatchLike, MatchColcol,
         MatchConstLike, MatchDecl, MatchDeclHead, MatchDoLike, MatchElseHead, MatchElseLike,
         MatchExp, MatchFnDecl, MatchForLike, MatchFunction, MatchIfClause, MatchIfHead,
         MatchIfLike, MatchInsert, MatchIntLike, MatchLangle, MatchLbrace, MatchLpar, MatchLproc,
         MatchNewLike, MatchOperatorLike, MatchPrelangle, MatchPrerangle, MatchPublicLike,
         MatchQuestion, MatchRawInt, MatchRawRpar, MatchRawUnorbin, MatchSectionScrap, MatchSemi,
         MatchSizeofLike, MatchStmt, MatchStructHead, MatchStructLike, MatchTag,
         MatchTypedefLike, MatchUnop, MatchUnorbinop, ExpRows, LparRows, IntLikeRows,
         DeclHeadRows, TypedefLikeRows, StructLikeRows, LbraceRows, IfClauseRows, IfHeadRows,
         CaseLikeRows, LprocRows, LangleRows, NewLikeRows, OperatorLikeRows, OperatorRows,
         BinopRows, DefinitionRows, LoopRows, DoRows, LabelRows, AngleRows, BaseRows, RawRows;
    SwitchParts(c0, c1, c2, c3, forceLines);
    if c0 == EXP {
      ExpDocumented(c1, c2, c3);
    } else if c0 == LPAR {
      LparDocumented(c1, c2, c3);
    } else if c0 == INT_LIKE {
      IntLikeDocumented(c1, c2, c3);
    } else if c0 == DECL_HEAD {
      DeclHeadDocumented(c1, c2, c3);
    } else if c0 == TYPEDEF_LIKE {
      TypedefLikeDocumented(c1, c2, c3);
    } else if c0 == STRUCT_LIKE {
      StructLikeDocumented(c1, c2, c3);
    } else if c0 == LBRACE {
      LbraceDocumented(c1, c2, c3);
    } else if c0 == IF_CLAUSE {
      IfClauseDocumented(c1, c2, c3);
    } else if c0 == IF_HEAD {
      IfHeadDocumented(c1, c2, c3);
    } else if c0 == CASE_LIKE {
      CaseLikeDocumented(c1, c2, c3);
    } else if c0 == LPROC {
      LprocDocumented(c1, c2, c3);
    } else if c0 == LANGLE {
      LangleDocumented(c1, c2, c3);
    } else if c0 == NEW_LIKE {
      NewLikeDocumented(c1, c2, c3);
    } else if c0 == OPERATOR_LIKE {
      if TwoOperators(c0, c1, c2) {
        TwoOperatorsStay(c1, c2, c3);
      } else {
        OperatorLikeDocumented(c1, c2, c3);
      }
    } else if c0 == QUESTION || c0 == UNOP || c0 == UNORBINOP {
      OperatorDocumented(c0, c1, c2, c3, forceLines);
    } else if c0 == BINOP || c0 == CAST || c0 == SIZEOF_LIKE {
      BinopDocumented(c0, c1, c2, c3, forceLines);
    } else if c0 == DECL || c0 == STRUCT_HEAD || c0 == FN_DECL || c0 == FUNCTION {
      DefinitionDocumented(c0, c1, c2, c3, forceLines);
    } else if c0 == IF_LIKE || c0 == FOR_LIKE || c0 == ELSE_LIKE {
      LoopDocumented(c0, c1, c2, c3, forceLines);
    } else if c0 == ELSE_HEAD || c0 == DO_LIKE {
      DoDocumented(c0, c1, c2, c3, forceLines);
    } else if c0 == TAG || c0 == STMT || c0 == SEMI || c0 == SECTION_SCRAP {
      LabelDocumented(c0, c1, c2, c3, forceLines);
    } else if c0 == PRELANGLE || c0 == PRERANGLE || c0 == PUBLIC_LIKE || c0 == COLCOL ||
       c0 == CATCH_LIKE {
      AngleDocumented(c0, c1, c2, c3, forceLines);
    } else if c0 == BASE || c0 == RAW_RPAR {
      BaseDocumented(c0, c1, c2, c3, forceLines);
    } else if c0 == RAW_UNORBIN || c0 == CONST_LIKE || c0 == RAW_INT {
      RawDocumented(c0, c1, c2, c3, forceLines);
    } else {
      NothingToDo(c0, c1, c2, c3, forceLines);
    }
  }

  /** What production 111 leaves alone: these have productions of their own that are tried first. */
  predicate Simple(c: Cat) {
    c == SEMI || c == RAW_INT || c == RAW_UNORBIN || c == RAW_RPAR || c == CONST_LIKE
  }

  /** A rule that puts k scraps together as they are. */
  predicate Joins(r: Rule, j: nat, cat: Cat) {
    r.Squash? && r.j == j && r.k == 2 && r.cat == cat
  }

  /**
    All productions: an end_arg takes in the scrap before it, which makes an exp if that is a
    begin_arg (productions 110 and 111); otherwise the first insert behind the position goes into the
    scrap before it (0); an insert at the position goes into the scrap behind it (83); and otherwise
    the longest production in the table is carried out.
   */
  lemma MatchDocumented(c0: Cat, c1: Cat, c2: Cat, c3: Cat, forceLines: bool)
    ensures var r := Match(c0, c1, c2, c3, forceLines);
            if c1 == END_ARG && !Simple(c0) then Joins(r, 0, if c0 == BEGIN_ARG then EXP else END_ARG)
            else if c1 == INSERT then Joins(r, 0, c0)
            else if c2 == INSERT then Joins(r, 1, c1)
            else if c3 == INSERT then Joins(r, 2, c2)
            else if c0 == INSERT then if c1 == ZERO then r == NoRule else Joins(r, 0, c1)
            else Documented(r, Rows(c0, forceLines), c0, c1, c2, c3)
  {
    hide Rows, Documented, MatchOn;
    if c0 != INSERT {
      SwitchDocumented(c0, c1, c2, c3, forceLines);
    } else {
      InsertSwitch(c1, c2, c3, forceLines);
    }
  }

  lemma InsertSwitch(c1: Cat, c2: Cat, c3: Cat, forceLines: bool)
    ensures MatchOn(INSERT, c1, c2, c3, forceLines) == MatchInsert(c1)
  {
  }
}
