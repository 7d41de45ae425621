/**
  The prettyprinting grammar of CWEAVE: scrap categories, the productions written as small
  programs of append operations, and the properties of the whole production table that the
  parser relies on.
 */
module Grammar {

  /** A scrap category; 0 is the padding category of positions past the last scrap. */
  type Cat = nat

  const ZERO: Cat := 0
  const EXP: Cat := 1
  const UNOP: Cat := 2
  const BINOP: Cat := 3
  const UNORBINOP: Cat := 4
  const CAST: Cat := 5
  const QUESTION: Cat := 6
  const LBRACE: Cat := 7
  const RBRACE: Cat := 8
  const DECL_HEAD: Cat := 9
  const COMMA: Cat := 10
  const LPAR: Cat := 11
  const RPAR: Cat := 12
  const PRELANGLE: Cat := 13
  const PRERANGLE: Cat := 14
  const LANGLE: Cat := 15
  const COLCOL: Cat := 18
  const BASE: Cat := 19
  const DECL: Cat := 20
  const STRUCT_HEAD: Cat := 21
  const STMT: Cat := 23
  const FUNCTION: Cat := 24
  const FN_DECL: Cat := 25
  const ELSE_LIKE: Cat := 26
  const SEMI: Cat := 27
  const COLON: Cat := 28
  const TAG: Cat := 29
  const IF_HEAD: Cat := 30
  const ELSE_HEAD: Cat := 31
  const IF_CLAUSE: Cat := 32
  const LPROC: Cat := 35
  const RPROC: Cat := 36
  const INSERT: Cat := 37
  const SECTION_SCRAP: Cat := 38
  const PUBLIC_LIKE: Cat := 40
  const OPERATOR_LIKE: Cat := 41
  const NEW_LIKE: Cat := 42
  const CATCH_LIKE: Cat := 43
  const FOR_LIKE: Cat := 45
  const DO_LIKE: Cat := 46
  const IF_LIKE: Cat := 47
  const RAW_RPAR: Cat := 48
  const RAW_UNORBIN: Cat := 49
  const CONST_LIKE: Cat := 50
  const RAW_INT: Cat := 51
  const INT_LIKE: Cat := 52
  const CASE_LIKE: Cat := 53
  const SIZEOF_LIKE: Cat := 54
  const STRUCT_LIKE: Cat := 55
  const TYPEDEF_LIKE: Cat := 56
  const DEFINE_LIKE: Cat := 57
  const BEGIN_ARG: Cat := 58
  const END_ARG: Cat := 59

  /** The characters and formatting codes that can stand in a text. */
  datatype Code =
    | Char(c: char)
    | MathRel | BigCancel | Cancel | Indent | Outdent | Opt | Backup | BreakSpace | Force
    | BigForce | PreprocLine | Inserted | Noop

  /** What the program calls them; the octal numbers of the definitions are in the comments. */
  function Number(c: Code): nat {
    match c
    case Char(ch) => ch as nat
    case Noop => 127 // 0177
    case MathRel => 134 // 0206
    case BigCancel => 136 // 0210
    case Cancel => 137 // 0211
    case Indent => 138 // 0212
    case Outdent => 139 // 0213
    case Opt => 140 // 0214
    case Backup => 141 // 0215
    case BreakSpace => 142 // 0216
    case Force => 143 // 0217
    case BigForce => 144 // 0220
    case PreprocLine => 145 // 0221
    case Inserted => 148 // 0224
  }

  /**
    The body of a production, run left to right with offsets relative to `pp`:
    `Sc(i)` is big_app1(pp+i), `Big(c)` is big_app(c), `Raw(c)` is app(c) or one character of
    app_str, `MathOn` sets init_mathness and cur_mathness to yes_math, and `Reserve(i)` is
    make_reserved(pp+i).
   */
  datatype Prog =
    | End
    | Sc(i: nat, rest: Prog)
    | Big(c: Code, rest: Prog)
    | Raw(c: Code, rest: Prog)
    | MathOn(rest: Prog)
    | Reserve(i: nat, rest: Prog)

  /**
    What the pattern match at `pp` decides: nothing, squash(pp+j,k,cat,d,n), or the program
    followed by reduce(pp+j,k,cat,d,n).
   */
  datatype Rule =
    | NoRule
    | Squash(j: nat, k: nat, cat: Cat, d: int, n: nat)
    | Reduce(prog: Prog, j: nat, k: nat, cat: Cat, d: int, n: nat)

  predicate LhsNotSimple(c: Cat) {
    c != SEMI && c != RAW_INT && c != RAW_UNORBIN && c != RAW_RPAR && c != CONST_LIKE
  }

  function Match(c0: Cat, c1: Cat, c2: Cat, c3: Cat, forceLines: bool): Rule {
    if c1 == END_ARG && LhsNotSimple(c0) then
      if c0 == BEGIN_ARG then Squash(0, 2, EXP, -2, 110) else Squash(0, 2, END_ARG, -1, 111)
    else if c1 == INSERT then Squash(0, 2, c0, -2, 0)
    else if c2 == INSERT then Squash(1, 2, c1, -1, 0)
    else if c3 == INSERT then Squash(2, 2, c2, 0, 0)
    else MatchOn(c0, c1, c2, c3, forceLines)
  }

  /** The switch on the category of the scrap at `pp`. */
  function MatchOn(c0: Cat, c1: Cat, c2: Cat, c3: Cat, forceLines: bool): Rule {
    if c0 == EXP then MatchExp(c1, c2, c3)
    else if c0 == LPAR then MatchLpar(c1, c2)
    else if c0 == QUESTION then MatchQuestion(c1, c2)
    else if c0 == UNOP then MatchUnop(c1)
    else if c0 == UNORBINOP then MatchUnorbinop(c1)
    else if c0 == BINOP then MatchBinop(c1)
    else if c0 == CAST then MatchCast(c1)
    else if c0 == SIZEOF_LIKE then MatchSizeofLike(c1)
    else if c0 == INT_LIKE then MatchIntLike(c1, c2)
    else if c0 == DECL_HEAD then MatchDeclHead(c1, c2, c3)
    else if c0 == DECL then MatchDecl(c1)
    else if c0 == TYPEDEF_LIKE then MatchTypedefLike(c1, c2, c3)
    else if c0 == STRUCT_LIKE then MatchStructLike(c1, c2)
    else if c0 == STRUCT_HEAD then MatchStructHead(c1, c2)
    else if c0 == FN_DECL then MatchFnDecl(c1)
    else if c0 == FUNCTION then MatchFunction(c1)
    else if c0 == LBRACE then MatchLbrace(c1, c2, c3)
    else if c0 == DO_LIKE then MatchDoLike(c1, c2, c3)
    else if c0 == IF_LIKE then MatchIfLike(c1)
    else if c0 == FOR_LIKE then MatchForLike(c1)
    else if c0 == ELSE_LIKE then MatchElseLike(c1)
    else if c0 == IF_CLAUSE then MatchIfClause(c1, c2, c3)
    else if c0 == IF_HEAD then MatchIfHead(c1, c2, c3)
    else if c0 == ELSE_HEAD then MatchElseHead(c1)
    else if c0 == CASE_LIKE then MatchCaseLike(c1, c2)
    else if c0 == STMT then MatchStmt(c1, forceLines)
    else if c0 == TAG then MatchTag(c1)
    else if c0 == SEMI then MatchSemi()
    else if c0 == LPROC then MatchLproc(c1, c2, c3)
    else if c0 == SECTION_SCRAP then MatchSectionScrap(c1)
    else if c0 == INSERT then MatchInsert(c1)
    else if c0 == PRELANGLE then MatchPrelangle()
    else if c0 == PRERANGLE then MatchPrerangle()
    else if c0 == LANGLE then MatchLangle(c1, c2)
    else if c0 == PUBLIC_LIKE then MatchPublicLike(c1)
    else if c0 == COLCOL then MatchColcol(c1)
    else if c0 == NEW_LIKE then MatchNewLike(c1, c2)
    else if c0 == OPERATOR_LIKE then MatchOperatorLike(c1, c2)
    else if c0 == CATCH_LIKE then MatchCatchLike(c1)
    else if c0 == BASE then MatchBase(c1, c2, c3)
    else if c0 == RAW_RPAR then MatchRawRpar(c1, c2)
    else if c0 == RAW_UNORBIN then MatchRawUnorbin(c1)
    else if c0 == CONST_LIKE then MatchConstLike()
    else if c0 == RAW_INT then MatchRawInt(c1)
    else NoRule
  }

  function MatchQuestion(c1: Cat, c2: Cat): Rule {
    if c1 == EXP && c2 == COLON then Squash(0, 3, BINOP, -2, 16) else NoRule
  }

  function MatchUnop(c1: Cat): Rule {
    if c1 == EXP || c1 == INT_LIKE then Squash(0, 2, c1, -2, 17) else NoRule
  }

  function MatchBinop(c1: Cat): Rule {
    if c1 == BINOP then
      Reduce(Big(MathRel, Big(Char('{'), Sc(0, Big(Char('}'), Big(Char('{'), Sc(1, Big(Char('}'),
             Big(Char('}'), End)))))))), 0, 2, BINOP, -1, 20)
    else NoRule
  }

  function MatchCast(c1: Cat): Rule {
    if c1 == EXP then Reduce(Sc(0, Big(Char(' '), Sc(1, End))), 0, 2, EXP, -2, 21)
    else if c1 == SEMI then Squash(0, 1, EXP, -2, 22)
    else NoRule
  }

  function MatchSizeofLike(c1: Cat): Rule {
    if c1 == CAST then Squash(0, 2, EXP, -2, 23)
    else if c1 == EXP then Reduce(Sc(0, Big(Char(' '), Sc(1, End))), 0, 2, EXP, -2, 24)
    else NoRule
  }

  function MatchDecl(c1: Cat): Rule {
    if c1 == DECL then Reduce(Sc(0, Big(Force, Sc(1, End))), 0, 2, DECL, -1, 40)
    else if c1 == STMT || c1 == FUNCTION then
      Reduce(Sc(0, Big(BigForce, Sc(1, End))), 0, 2, c1, -1, 41)
    else NoRule
  }

  function MatchStructHead(c1: Cat, c2: Cat): Rule {
    if (c1 == DECL || c1 == STMT || c1 == FUNCTION) && c2 == RBRACE then
      Reduce(Sc(0, Big(Indent, Big(Force, Sc(1, Big(Outdent, Big(Force, Sc(2, End))))))),
             0, 3, INT_LIKE, -2, 49)
    else if c1 == RBRACE then
      Reduce(Sc(0, Raw(Char('\\'), Raw(Char(','), Sc(1, End)))), 0, 2, INT_LIKE, -2, 50)
    else NoRule
  }

  function MatchFnDecl(c1: Cat): Rule {
    if c1 == DECL then Reduce(Sc(0, Big(Force, Sc(1, End))), 0, 2, FN_DECL, 0, 51)
    else if c1 == STMT then
      Reduce(Sc(0, Raw(Outdent, Raw(Outdent, Big(Force, Sc(1, End))))), 0, 2, FUNCTION, -1, 52)
    else NoRule
  }

  function MatchFunction(c1: Cat): Rule {
    if c1 == FUNCTION || c1 == DECL || c1 == STMT then
      Reduce(Sc(0, Big(BigForce, Sc(1, End))), 0, 2, c1, -1, 53)
    else NoRule
  }

  function MatchDoLike(c1: Cat, c2: Cat, c3: Cat): Rule {
    if c1 == STMT && c2 == ELSE_LIKE && c3 == SEMI then
      Reduce(Sc(0, Big(BreakSpace, Raw(Noop, Big(Cancel, Sc(1, Big(Cancel, Raw(Noop,
             Big(BreakSpace, Sc(2, Sc(3, End)))))))))), 0, 4, STMT, -1, 69)
    else NoRule
  }

  function MatchIfLike(c1: Cat): Rule {
    if c1 == EXP then Reduce(Sc(0, Big(Char(' '), Sc(1, End))), 0, 2, IF_CLAUSE, 0, 57) else NoRule
  }

  function MatchForLike(c1: Cat): Rule {
    if c1 == EXP then Reduce(Sc(0, Big(Char(' '), Sc(1, End))), 0, 2, ELSE_LIKE, -2, 58) else NoRule
  }

  function MatchElseLike(c1: Cat): Rule {
    if c1 == LBRACE then Squash(0, 1, ELSE_HEAD, 0, 59)
    else if c1 == STMT then
      Reduce(Big(Force, Sc(0, Big(Indent, Big(BreakSpace, Sc(1, Big(Outdent,
             Big(Force, End))))))), 0, 2, STMT, -1, 60)
    else NoRule
  }

  function MatchElseHead(c1: Cat): Rule {
    if c1 == STMT || c1 == EXP then
      Reduce(Big(Force, Sc(0, Big(BreakSpace, Raw(Noop, Big(Cancel, Sc(1,
             Big(Force, End))))))), 0, 2, STMT, -1, 61)
    else NoRule
  }

  function MatchTag(c1: Cat): Rule {
    if c1 == TAG then Reduce(Sc(0, Big(BreakSpace, Sc(1, End))), 0, 2, TAG, -1, 74)
    else if c1 == STMT || c1 == DECL || c1 == FUNCTION then
      Reduce(Big(Force, Big(Backup, Sc(0, Big(BreakSpace, Sc(1, End))))), 0, 2, c1, -1, 75)
    else NoRule
  }

  function MatchSemi(): Rule {
    Reduce(Big(Char(' '), Sc(0, End)), 0, 1, STMT, -1, 77)
  }

  function MatchSectionScrap(c1: Cat): Rule {
    if c1 == SEMI then Reduce(Sc(0, Sc(1, Big(Force, End))), 0, 2, STMT, -2, 81)
    else Squash(0, 1, EXP, -2, 82)
  }

  function MatchInsert(c1: Cat): Rule {
    if c1 != ZERO then Squash(0, 2, c1, 0, 83) else NoRule
  }

  function MatchPrelangle(): Rule {
    Reduce(MathOn(Raw(Char('<'), End)), 0, 1, BINOP, -2, 84)
  }

  function MatchPrerangle(): Rule {
    Reduce(MathOn(Raw(Char('>'), End)), 0, 1, BINOP, -2, 85)
  }

  function MatchPublicLike(c1: Cat): Rule {
    if c1 == COLON then Squash(0, 2, TAG, -1, 90) else Squash(0, 1, INT_LIKE, -2, 91)
  }

  function MatchColcol(c1: Cat): Rule {
    if c1 == EXP || c1 == INT_LIKE then Squash(0, 2, c1, -2, 92) else NoRule
  }

  function MatchCatchLike(c1: Cat): Rule {
    if c1 == CAST || c1 == EXP then
      Reduce(Sc(0, Sc(1, Big(Indent, Big(Indent, End)))), 0, 2, FN_DECL, 0, 100)
    else NoRule
  }

  function MatchBase(c1: Cat, c2: Cat, c3: Cat): Rule {
    if c1 == PUBLIC_LIKE && c2 == EXP then
      if c3 == COMMA then
        Reduce(Sc(0, Sc(1, Big(Char(' '), Sc(2, Sc(3, End))))), 0, 4, BASE, 0, 101)
      else Reduce(Sc(1, Big(Char(' '), Sc(2, End))), 1, 2, INT_LIKE, -1, 102)
    else NoRule
  }

  function MatchRawRpar(c1: Cat, c2: Cat): Rule {
    if c1 == CONST_LIKE &&
       (c2 == SEMI || c2 == LBRACE || c2 == COMMA || c2 == BINOP || c2 == CONST_LIKE)
    then Reduce(Sc(0, Big(Char(' '), Sc(1, End))), 0, 2, RAW_RPAR, 0, 103)
    else Squash(0, 1, RPAR, -3, 104)
  }

  function MatchRawUnorbin(c1: Cat): Rule {
    if c1 == CONST_LIKE then
      Reduce(Sc(0, Sc(1, Raw(Char('\\'), Raw(Char(' '), End)))), 0, 2, RAW_UNORBIN, 0, 105)
    else Squash(0, 1, UNORBINOP, -2, 106)
  }

  function MatchConstLike(): Rule {
    Squash(0, 1, INT_LIKE, -2, 107)
  }

  function MatchRawInt(c1: Cat): Rule {
    if c1 == LPAR then Squash(0, 1, EXP, -2, 108) else Squash(0, 1, INT_LIKE, -3, 109)
  }

  function MatchExp(c1: Cat, c2: Cat, c3: Cat): Rule {
    if c1 == LBRACE || c1 == INT_LIKE || c1 == DECL then
      Reduce(Sc(0, Big(Indent, Raw(Indent, End))), 0, 1, FN_DECL, 0, 1)
    else if c1 == UNOP then Squash(0, 2, EXP, -2, 2)
    else if (c1 == BINOP || c1 == UNORBINOP) && c2 == EXP then Squash(0, 3, EXP, -2, 3)
    else if c1 == COMMA && c2 == EXP then
      Reduce(Sc(0, Sc(1, Raw(Opt, Raw(Char('9'), Sc(2, End))))), 0, 3, EXP, -2, 4)
    else if c1 == EXP || c1 == CAST then Squash(0, 2, EXP, -2, 5)
    else if c1 == SEMI then Squash(0, 2, STMT, -1, 6)
    else if c1 == COLON then Squash(0, 2, TAG, 0, 7)
    else if c1 == BASE then
      if c2 == INT_LIKE && c3 == COMMA then
        Reduce(Sc(1, Big(Char(' '), Sc(2, Sc(3, Raw(Opt, Raw(Char('9'), End)))))), 1, 3, BASE, 0, 8)
      else if c2 == INT_LIKE && c3 == LBRACE then
        Reduce(Sc(0, Big(Char(' '), Sc(1, Big(Char(' '), Sc(2, End))))), 0, 3, EXP, -1, 9)
      else NoRule
    else if c1 == RBRACE then Squash(0, 1, STMT, -1, 10)
    else NoRule
  }

  function MatchLpar(c1: Cat, c2: Cat): Rule {
    if (c1 == EXP || c1 == UNORBINOP) && c2 == RPAR then Squash(0, 3, EXP, -2, 11)
    else if c1 == RPAR then
      Reduce(Sc(0, Raw(Char('\\'), Raw(Char(','), Sc(1, End)))), 0, 2, EXP, -2, 12)
    else if c1 == DECL_HEAD || c1 == INT_LIKE || c1 == EXP then
      if c2 == RPAR then Squash(0, 3, CAST, -2, 13)
      else if c2 == COMMA then
        Reduce(Sc(0, Sc(1, Sc(2, Raw(Opt, Raw(Char('9'), End))))), 0, 3, LPAR, 0, 14)
      else NoRule
    else if c1 == STMT || c1 == DECL then
      Reduce(Sc(0, Sc(1, Big(Char(' '), End))), 0, 2, LPAR, 0, 15)
    else NoRule
  }

  function MatchUnorbinop(c1: Cat): Rule {
    if c1 == EXP || c1 == INT_LIKE then
      Reduce(Big(Char('{'), Sc(0, Big(Char('}'), Sc(1, End)))), 0, 2, c1, -2, 18)
    else if c1 == BINOP then
      Reduce(Big(MathRel, Sc(0, Big(Char('{'), Sc(1, Big(Char('}'), Big(Char('}'), End)))))),
             0, 2, BINOP, -1, 19)
    else NoRule
  }

  function MatchIntLike(c1: Cat, c2: Cat): Rule {
    if c1 == INT_LIKE || c1 == STRUCT_LIKE then
      Reduce(Sc(0, Big(Char(' '), Sc(1, End))), 0, 2, c1, -2, 25)
    else if c1 == EXP && (c2 == RAW_INT || c2 == STRUCT_LIKE) then Squash(0, 2, INT_LIKE, -2, 26)
    else if c1 == EXP || c1 == UNORBINOP || c1 == SEMI then
      Reduce(if c1 == SEMI then Sc(0, End) else Sc(0, Big(Char(' '), End)), 0, 1, DECL_HEAD, -1, 27)
    else if c1 == COLON then Reduce(Sc(0, Big(Char(' '), End)), 0, 1, DECL_HEAD, 0, 28)
    else if c1 == PRELANGLE then Squash(1, 1, LANGLE, 1, 29)
    else if c1 == COLCOL && (c2 == EXP || c2 == INT_LIKE) then Squash(0, 3, c2, -2, 30)
    else if c1 == CAST then
      if c2 == LBRACE then
        Reduce(Sc(0, Sc(1, Big(Indent, Big(Indent, End)))), 0, 2, FN_DECL, 1, 31)
      else Squash(0, 2, INT_LIKE, -2, 32)
    else NoRule
  }

  function MatchDeclHead(c1: Cat, c2: Cat, c3: Cat): Rule {
    if c1 == COMMA then Reduce(Sc(0, Sc(1, Big(Char(' '), End))), 0, 2, DECL_HEAD, -1, 33)
    else if c1 == UNORBINOP then
      Reduce(Sc(0, Big(Char('{'), Sc(1, Big(Char('}'), End)))), 0, 2, DECL_HEAD, -1, 34)
    else if c1 == EXP && c2 != LPAR && c2 != EXP then Squash(0, 2, DECL_HEAD, -1, 35)
    else if (c1 == BINOP || c1 == COLON) && c2 == EXP &&
            (c3 == COMMA || c3 == SEMI || c3 == RPAR) then
      Squash(0, 3, DECL_HEAD, -1, 36)
    else if c1 == CAST then Squash(0, 2, DECL_HEAD, -1, 37)
    else if c1 == LBRACE || (c1 == INT_LIKE && c2 != COLCOL) || c1 == DECL then
      Reduce(Sc(0, Big(Indent, Raw(Indent, End))), 0, 1, FN_DECL, 0, 38)
    else if c1 == SEMI then Squash(0, 2, DECL, -1, 39)
    else NoRule
  }

  function MatchTypedefLike(c1: Cat, c2: Cat, c3: Cat): Rule {
    if c1 == DECL_HEAD then
      if (c2 == EXP && c3 != LPAR && c3 != EXP) || c2 == INT_LIKE then
        Reduce(Reserve(2, Sc(1, Sc(2, End))), 1, 2, DECL_HEAD, 0, 42)
      else if c2 == SEMI then
        Reduce(Sc(0, Big(Char(' '), Sc(1, Sc(2, End)))), 0, 3, DECL, -1, 43)
      else NoRule
    else NoRule
  }

  function MatchStructLike(c1: Cat, c2: Cat): Rule {
    if c1 == LBRACE then Reduce(Sc(0, Big(Char(' '), Sc(1, End))), 0, 2, STRUCT_HEAD, 0, 44)
    else if c1 == EXP || c1 == INT_LIKE then
      if c2 == SEMI then
        Reduce(Reserve(1, Sc(0, Big(Char(' '), Sc(1, End)))), 0, 2, DECL_HEAD, 0, 45)
      else if c2 == LBRACE then
        Reduce(Reserve(1, Sc(0, Big(Char(' '), Sc(1, Big(Char(' '), Sc(2, End)))))),
               0, 3, STRUCT_HEAD, 0, 46)
      else if c2 == COLON then Squash(2, 1, BASE, -1, 47)
      else if c2 != BASE then Reduce(Sc(0, Big(Char(' '), Sc(1, End))), 0, 2, INT_LIKE, -2, 48)
      else NoRule
    else NoRule
  }

  function MatchLbrace(c1: Cat, c2: Cat, c3: Cat): Rule {
    if c1 == RBRACE then
      Reduce(Sc(0, Raw(Char('\\'), Raw(Char(','), Sc(1, End)))), 0, 2, STMT, -1, 54)
    else if (c1 == STMT || c1 == DECL || c1 == FUNCTION) && c2 == RBRACE then
      Reduce(Big(Force, Sc(0, Big(Indent, Big(Force, Sc(1, Big(Force, Big(Backup, Sc(2,
             Big(Outdent, Big(Force, End)))))))))), 0, 3, STMT, -1, 55)
    else if c1 == EXP then
      if c2 == RBRACE then Squash(0, 3, EXP, -2, 56)
      else if c2 == COMMA && c3 == RBRACE then Squash(0, 4, EXP, -2, 56)
      else NoRule
    else NoRule
  }

  function MatchIfClause(c1: Cat, c2: Cat, c3: Cat): Rule {
    if c1 == LBRACE then Squash(0, 1, IF_HEAD, 0, 62)
    else if c1 == STMT then
      if c2 == ELSE_LIKE then
        if c3 == IF_LIKE then
          Reduce(Big(Force, Sc(0, Big(Indent, Big(BreakSpace, Sc(1, Big(Outdent, Big(Force,
                 Sc(2, Big(Char(' '), Sc(3, End)))))))))), 0, 4, IF_LIKE, 0, 63)
        else
          Reduce(Big(Force, Sc(0, Big(Indent, Big(BreakSpace, Sc(1, Big(Outdent, Big(Force,
                 Sc(2, End)))))))), 0, 3, ELSE_LIKE, 0, 64)
      else Squash(0, 1, ELSE_LIKE, 0, 65)
    else NoRule
  }

  function MatchIfHead(c1: Cat, c2: Cat, c3: Cat): Rule {
    if c1 == STMT || c1 == EXP then
      if c2 == ELSE_LIKE then
        if c3 == IF_LIKE then
          Reduce(Big(Force, Sc(0, Big(BreakSpace, Raw(Noop, Big(Cancel, Sc(1, Big(Force,
                 Sc(2, Big(Char(' '), Sc(3, End)))))))))), 0, 4, IF_LIKE, 0, 66)
        else
          Reduce(Big(Force, Sc(0, Big(BreakSpace, Raw(Noop, Big(Cancel, Sc(1, Big(Force,
                 Sc(2, End)))))))), 0, 3, ELSE_LIKE, 0, 67)
      else Squash(0, 1, ELSE_HEAD, 0, 68)
    else NoRule
  }

  function MatchCaseLike(c1: Cat, c2: Cat): Rule {
    if c1 == SEMI then Squash(0, 2, STMT, -1, 70)
    else if c1 == COLON then Squash(0, 2, TAG, -1, 71)
    else if c1 == EXP then
      if c2 == SEMI then Reduce(Sc(0, Big(Char(' '), Sc(1, Sc(2, End)))), 0, 3, STMT, -1, 72)
      else if c2 == COLON then Reduce(Sc(0, Big(Char(' '), Sc(1, Sc(2, End)))), 0, 3, TAG, -1, 73)
      else NoRule
    else NoRule
  }

  function MatchStmt(c1: Cat, forceLines: bool): Rule {
    if c1 == STMT || c1 == DECL || c1 == FUNCTION then
      Reduce(Sc(0, Big(if c1 == FUNCTION || c1 == DECL then BigForce
                       else if forceLines then Force else BreakSpace, Sc(1, End))),
             0, 2, c1, -1, 76)
    else NoRule
  }

  function MatchLproc(c1: Cat, c2: Cat, c3: Cat): Rule {
    if c1 == ELSE_LIKE || c1 == IF_LIKE || c1 == DEFINE_LIKE then Squash(0, 2, LPROC, 0, 78)
    else if c1 == RPROC then Reduce(Raw(Inserted, Sc(0, Sc(1, End))), 0, 2, INSERT, -1, 79)
    else if c1 == EXP || c1 == FUNCTION then
      if c2 == RPROC then
        Reduce(Raw(Inserted, Sc(0, Big(Char(' '), Sc(1, Sc(2, End))))), 0, 3, INSERT, -1, 80)
      else if c2 == EXP && c3 == RPROC && c1 == EXP then
        Reduce(Raw(Inserted, Sc(0, Big(Char(' '), Sc(1, Raw(Char(' '), Raw(Char('\\'),
               Raw(Char('5'),
               Sc(2, Sc(3, End))))))))), 0, 4, INSERT, -1, 80)
      else NoRule
    else NoRule
  }

  function MatchLangle(c1: Cat, c2: Cat): Rule {
    if c1 == EXP && c2 == PRERANGLE then Squash(0, 3, CAST, -1, 86)
    else if c1 == PRERANGLE then
      Reduce(Sc(0, Raw(Char('\\'), Raw(Char(','), Sc(1, End)))), 0, 2, CAST, -1, 87)
    else if c1 == DECL_HEAD || c1 == INT_LIKE then
      if c2 == PRERANGLE then Squash(0, 3, CAST, -1, 88)
      else if c2 == COMMA then
        Reduce(Sc(0, Sc(1, Sc(2, Raw(Opt, Raw(Char('9'), End))))), 0, 3, LANGLE, 0, 89)
      else NoRule
    else NoRule
  }

  function MatchNewLike(c1: Cat, c2: Cat): Rule {
    if c1 == EXP || (c1 == RAW_INT && c2 != PRELANGLE && c2 != LANGLE) then
      Reduce(Sc(0, Big(Char(' '), Sc(1, End))), 0, 2, NEW_LIKE, 0, 93)
    else if c1 == RAW_UNORBIN || c1 == COLCOL then Squash(0, 2, NEW_LIKE, 0, 94)
    else if c1 == CAST then Squash(0, 2, EXP, -2, 95)
    else if c1 != LPAR && c1 != RAW_INT && c1 != STRUCT_LIKE then Squash(0, 1, EXP, -2, 96)
    else NoRule
  }

  function MatchOperatorLike(c1: Cat, c2: Cat): Rule {
    if c1 == BINOP || c1 == UNOP || c1 == UNORBINOP then
      if c2 == BINOP then NoRule
      else Reduce(Sc(0, Big(Char('{'), Sc(1, Big(Char('}'), End)))), 0, 2, EXP, -2, 97)
    else if c1 == NEW_LIKE || c1 == SIZEOF_LIKE then
      Reduce(Sc(0, Big(Char(' '), Sc(1, End))), 0, 2, EXP, -2, 98)
    else Squash(0, 1, NEW_LIKE, 0, 99)
  }

  // ----- Properties of the table

  /**
    If the scraps a program appends are pp+lo, pp+lo+1, ... in this order, the offset after the
    last of them; otherwise -1.
   */
  function NextScrap(p: Prog, lo: int): int {
    match p
    case End => lo
    case Sc(i, rest) => if i == lo then NextScrap(rest, lo + 1) else -1
    case Big(_, rest) => NextScrap(rest, lo)
    case Raw(_, rest) => NextScrap(rest, lo)
    case MathOn(rest) => -1
    case Reserve(_, rest) => NextScrap(rest, lo)
  }

  /** What only big_app may append, as its place in or outside math matters: braces and breaks. */
  predicate Placed(c: Code) {
    c == Char('{') || c == Char('}') || c.Cancel? || c.Backup? || c.BreakSpace? || c.Force? ||
    c.BigForce?
  }

  /** No append is a dollar sign, no raw one a brace or a break, and math is not forced. */
  predicate NoDollar(p: Prog) {
    match p
    case End => true
    case Sc(_, rest) => NoDollar(rest)
    case Big(c, rest) => c != Char('$') && NoDollar(rest)
    case Raw(c, rest) => c != Char('$') && !Placed(c) && NoDollar(rest)
    case MathOn(rest) => false
    case Reserve(_, rest) => NoDollar(rest)
  }

  /** make_reserved is only ever the first thing a production does. */
  predicate NoReserve(p: Prog) {
    match p
    case End => true
    case Sc(_, rest) => NoReserve(rest)
    case Big(_, rest) => NoReserve(rest)
    case Raw(_, rest) => NoReserve(rest)
    case MathOn(rest) => NoReserve(rest)
    case Reserve(_, _) => false
  }

  /** Productions 84 and 85 discard the text of the scrap they rewrite. */
  predicate Discards(r: Rule) {
    r.Reduce? && (r.n == 84 || r.n == 85)
  }

  /** An acyclic ranking of the categories: every one-scrap rewriting lowers it. */
  function Rank(c: Cat): nat {
    if c == RAW_INT || c == PUBLIC_LIKE || c == CONST_LIKE || c == OPERATOR_LIKE then 3
    else if c == INT_LIKE || c == CAST || c == NEW_LIKE || c == SECTION_SCRAP ||
            c == IF_CLAUSE then 2
    else if c == EXP || c == DECL_HEAD || c == COLON || c == PRELANGLE || c == PRERANGLE ||
            c == IF_HEAD || c == ELSE_LIKE || c == SEMI || c == RAW_RPAR ||
            c == RAW_UNORBIN then 1
    else 0
  }

  function Nth(c0: Cat, c1: Cat, c2: Cat, c3: Cat, i: nat): Cat {
    if i == 0 then c0 else if i == 1 then c1 else if i == 2 then c2 else if i == 3 then c3 else ZERO
  }

  /** Padding categories only follow live ones: a nonzero category has nonzero ones before it. */
  predicate Padded(c0: Cat, c1: Cat, c2: Cat, c3: Cat) {
    && c0 != ZERO
    && (c1 == ZERO ==> c2 == ZERO)
    && (c2 == ZERO ==> c3 == ZERO)
  }

  /** What every rule in the table satisfies, for the window it was matched on. */
  predicate RuleOK(r: Rule, c0: Cat, c1: Cat, c2: Cat, c3: Cat) {
    r.NoRule? ||
    (&& 1 <= r.k && r.j + r.k <= 4
     && r.cat != ZERO
        // every consumed scrap is live
     && Nth(c0, c1, c2, c3, r.j + r.k - 1) != ZERO
        // the parser never moves past the scraps that remain
     && r.d <= 1 && (r.d == 1 ==> Nth(c0, c1, c2, c3, r.k) != ZERO)
     && (r.k == 1 ==> Rank(r.cat) < Rank(Nth(c0, c1, c2, c3, r.j)))
     && (r.cat == PRELANGLE || r.cat == PRERANGLE ==> Absorbs(r, c0, c1, c2, c3))
     && (r.cat == INSERT || r.cat == LPROC ==> Inherits(r, c0, c1, c2, c3))
     && (r.Reduce? ==> if Discards(r) then DiscardOK(r, c0) else ProgOK(r)))
  }

  /** The new scrap is one of that category with an insert merged into it. */
  predicate Absorbs(r: Rule, c0: Cat, c1: Cat, c2: Cat, c3: Cat)
    requires !r.NoRule?
  {
    && r.Squash? && r.k == 2
    && var (left, right) := (Nth(c0, c1, c2, c3, r.j), Nth(c0, c1, c2, c3, r.j + 1));
       (left == r.cat && right == INSERT) || (left == INSERT && right == r.cat)
  }

  /** One of the first two consumed scraps is an insert or an lproc, and its text is kept. */
  predicate Inherits(r: Rule, c0: Cat, c1: Cat, c2: Cat, c3: Cat)
    requires !r.NoRule?
  {
    && r.k >= 2 && !Discards(r)
    && var (left, right) := (Nth(c0, c1, c2, c3, r.j), Nth(c0, c1, c2, c3, r.j + 1));
       left == INSERT || left == LPROC || right == INSERT || right == LPROC
  }

  predicate DiscardOK(r: Rule, c0: Cat)
    requires r.Reduce?
  {
    && r.j == 0 && r.k == 1 && (c0 == PRELANGLE || c0 == PRERANGLE)
    && (r.prog == MathOn(Raw(Char('<'), End)) || r.prog == MathOn(Raw(Char('>'), End)))
  }

  predicate ProgOK(r: Rule)
    requires r.Reduce?
  {
    && NextScrap(r.prog, r.j) == r.j + r.k
    && NoDollar(r.prog)
    && (if r.prog.Reserve? then r.k >= 2 && r.prog.i < r.j + r.k && NoReserve(r.prog.rest)
        else NoReserve(r.prog))
  }

  lemma ExpressionRulesOK(c0: Cat, c1: Cat, c2: Cat, c3: Cat, forceLines: bool)
    requires c0 == EXP || c0 == LPAR || c0 == QUESTION || c0 == UNOP
    ensures RuleOK(MatchOn(c0, c1, c2, c3, forceLines), c0, c1, c2, c3)
  {
  }

  lemma OperatorRulesOK(c0: Cat, c1: Cat, c2: Cat, c3: Cat, forceLines: bool)
    requires c0 == UNORBINOP || c0 == BINOP || c0 == CAST || c0 == SIZEOF_LIKE ||
             c0 == RAW_UNORBIN || c0 == RAW_RPAR
    ensures RuleOK(MatchOn(c0, c1, c2, c3, forceLines), c0, c1, c2, c3)
  {
  }

  lemma CplusplusRulesOK(c0: Cat, c1: Cat, c2: Cat, c3: Cat, forceLines: bool)
    requires c0 == LANGLE || c0 == COLCOL || c0 == NEW_LIKE || c0 == OPERATOR_LIKE ||
             c0 == CATCH_LIKE || c0 == BASE || c0 == PUBLIC_LIKE
    ensures RuleOK(MatchOn(c0, c1, c2, c3, forceLines), c0, c1, c2, c3)
  {
  }

  lemma DeclarationRulesOK(c0: Cat, c1: Cat, c2: Cat, c3: Cat, forceLines: bool)
    requires c0 == INT_LIKE || c0 == DECL_HEAD || c0 == DECL || c0 == CONST_LIKE ||
             c0 == RAW_INT
    ensures RuleOK(MatchOn(c0, c1, c2, c3, forceLines), c0, c1, c2, c3)
  {
  }

  lemma StructureRulesOK(c0: Cat, c1: Cat, c2: Cat, c3: Cat, forceLines: bool)
    requires c0 == TYPEDEF_LIKE || c0 == STRUCT_LIKE || c0 == STRUCT_HEAD || c0 == FN_DECL ||
             c0 == FUNCTION
    ensures RuleOK(MatchOn(c0, c1, c2, c3, forceLines), c0, c1, c2, c3)
  {
  }

  lemma IfClauseRulesOK(c0: Cat, c1: Cat, c2: Cat, c3: Cat, forceLines: bool)
    requires c0 == IF_CLAUSE
    ensures RuleOK(MatchOn(c0, c1, c2, c3, forceLines), c0, c1, c2, c3)
  {
  }

  lemma IfHeadRulesOK(c0: Cat, c1: Cat, c2: Cat, c3: Cat, forceLines: bool)
    requires c0 == IF_HEAD || c0 == ELSE_HEAD
    ensures RuleOK(MatchOn(c0, c1, c2, c3, forceLines), c0, c1, c2, c3)
  {
  }

  lemma BlockRulesOK(c0: Cat, c1: Cat, c2: Cat, c3: Cat, forceLines: bool)
    requires c0 == LBRACE || c0 == DO_LIKE
    ensures RuleOK(MatchOn(c0, c1, c2, c3, forceLines), c0, c1, c2, c3)
  {
  }

  lemma LoopRulesOK(c0: Cat, c1: Cat, c2: Cat, c3: Cat, forceLines: bool)
    requires c0 == IF_LIKE || c0 == FOR_LIKE || c0 == ELSE_LIKE
    ensures RuleOK(MatchOn(c0, c1, c2, c3, forceLines), c0, c1, c2, c3)
  {
  }

  lemma StatementRulesOK(c0: Cat, c1: Cat, c2: Cat, c3: Cat, forceLines: bool)
    requires c0 == CASE_LIKE || c0 == STMT || c0 == TAG || c0 == SEMI
    ensures RuleOK(MatchOn(c0, c1, c2, c3, forceLines), c0, c1, c2, c3)
  {
  }

  lemma OtherRulesOK(c0: Cat, c1: Cat, c2: Cat, c3: Cat, forceLines: bool)
    requires c0 == LPROC || c0 == SECTION_SCRAP || c0 == INSERT || c0 == PRELANGLE ||
             c0 == PRERANGLE
    ensures RuleOK(MatchOn(c0, c1, c2, c3, forceLines), c0, c1, c2, c3)
  {
  }

  lemma NoSwitchOK(c0: Cat, c1: Cat, c2: Cat, c3: Cat, forceLines: bool)
    requires MatchOn(c0, c1, c2, c3, forceLines) == NoRule
    ensures RuleOK(MatchOn(c0, c1, c2, c3, forceLines), c0, c1, c2, c3)
  {
  }

  lemma SwitchOK(c0: Cat, c1: Cat, c2: Cat, c3: Cat, forceLines: bool)
    ensures RuleOK(MatchOn(c0, c1, c2, c3, forceLines), c0, c1, c2, c3)
  {
    hide RuleOK;
    if c0 == EXP || c0 == LPAR || c0 == QUESTION || c0 == UNOP {
      ExpressionRulesOK(c0, c1, c2, c3, forceLines);
    } else if c0 == UNORBINOP || c0 == BINOP || c0 == CAST || c0 == SIZEOF_LIKE ||
       c0 == RAW_UNORBIN || c0 == RAW_RPAR {
      OperatorRulesOK(c0, c1, c2, c3, forceLines);
    } else if c0 == LANGLE || c0 == COLCOL || c0 == NEW_LIKE || c0 == OPERATOR_LIKE ||
       c0 == CATCH_LIKE || c0 == BASE || c0 == PUBLIC_LIKE {
      CplusplusRulesOK(c0, c1, c2, c3, forceLines);
    } else if c0 == INT_LIKE || c0 == DECL_HEAD || c0 == DECL || c0 == CONST_LIKE || c0 == RAW_INT {
      DeclarationRulesOK(c0, c1, c2, c3, forceLines);
    } else if c0 == TYPEDEF_LIKE || c0 == STRUCT_LIKE || c0 == STRUCT_HEAD || c0 == FN_DECL ||
       c0 == FUNCTION {
      StructureRulesOK(c0, c1, c2, c3, forceLines);
    } else if c0 == IF_CLAUSE {
      IfClauseRulesOK(c0, c1, c2, c3, forceLines);
    } else if c0 == IF_HEAD || c0 == ELSE_HEAD {
      IfHeadRulesOK(c0, c1, c2, c3, forceLines);
    } else if c0 == LBRACE || c0 == DO_LIKE {
      BlockRulesOK(c0, c1, c2, c3, forceLines);
    } else if c0 == IF_LIKE || c0 == FOR_LIKE || c0 == ELSE_LIKE {
      LoopRulesOK(c0, c1, c2, c3, forceLines);
    } else if c0 == CASE_LIKE || c0 == STMT || c0 == TAG || c0 == SEMI {
      StatementRulesOK(c0, c1, c2, c3, forceLines);
    } else if c0 == LPROC || c0 == SECTION_SCRAP || c0 == INSERT || c0 == PRELANGLE || c0 == PRERANGLE {
      OtherRulesOK(c0, c1, c2, c3, forceLines);
    } else {
      NoSwitchOK(c0, c1, c2, c3, forceLines);
    }
  }

  /** Every production in the table satisfies `RuleOK`, whatever the window it matches. */
  lemma TableOK(c0: Cat, c1: Cat, c2: Cat, c3: Cat, forceLines: bool)
    requires Padded(c0, c1, c2, c3)
    ensures RuleOK(Match(c0, c1, c2, c3, forceLines), c0, c1, c2, c3)
  {
    hide MatchOn;
    SwitchOK(c0, c1, c2, c3, forceLines);
  }
}
