/**
  The order in which productions are applied. The documentation promises that the productions are
  applied from left to right: the first scrap at which one applies comes first. The program goes back
  only a few scraps after a production; here it is shown when that is far enough.
 */
module Strategy {
  import opened Grammar
  import opened Language
  import opened ParserTheorems
  import opened Rewriting
  import opened Sentences
  import opened Survivors

  /** A production of the switch applies whatever comes next. */
  predicate Always(x: Cat) {
    x == SEMI || x == SECTION_SCRAP || IsAngle(x) || x == PUBLIC_LIKE || x == RAW_RPAR ||
    x == RAW_UNORBIN || x == CONST_LIKE || x == RAW_INT
  }

  lemma AlwaysApplies(x: Cat, c1: Cat, c2: Cat, c3: Cat, forceLines: bool)
    ensures Always(x) ==> !MatchOn(x, c1, c2, c3, forceLines).NoRule?
  {
  }

  /** The categories that productions make which do not move the position back. */
  predicate MadeHere(t: Cat) {
    t == FN_DECL || t == TAG || t == LPAR || t == DECL_HEAD || t == STRUCT_HEAD || t == IF_CLAUSE ||
    t == IF_HEAD || t == IF_LIKE || t == ELSE_LIKE || t == ELSE_HEAD || t == LPROC || t == LANGLE ||
    t == NEW_LIKE || t == BASE || t == RAW_RPAR || t == RAW_UNORBIN
  }

  /** In front of such a scrap few productions apply. */
  lemma BeforeMade(x: Cat, t: Cat, c2: Cat, c3: Cat, forceLines: bool)
    requires MadeHere(t) && !MatchOn(x, t, c2, c3, forceLines).NoRule?
    ensures
      || Always(x) || x == INSERT || x == OPERATOR_LIKE
      || (x == NEW_LIKE && t != LPAR)
      || (x == TAG && t == TAG)
      || (t == DECL_HEAD &&
          ((x == LPAR && (c2 == RPAR || c2 == COMMA)) ||
           (x == LANGLE && (c2 == PRERANGLE || c2 == COMMA)) ||
           (x == TYPEDEF_LIKE && (c2 == EXP || c2 == INT_LIKE || c2 == SEMI))))
      || (x == LPROC && (t == IF_LIKE || t == ELSE_LIKE))
      || (x == EXP && t == BASE && c2 == INT_LIKE && (c3 == COMMA || c3 == LBRACE))
  {
  }

  /** What is known of a rule of the switch that does not move the position far back. */
  predicate Nearby(r: Rule, c0: Cat, c1: Cat, c2: Cat) {
    r.NoRule? || r.d < -2 ||
    (if r.j > 0 then r.d <= 1 && (r.d == 1 ==> r.n == 29) && (
       || (r.n == 8 && c0 == EXP && c1 == BASE && c2 == INT_LIKE && r.j == 1 && r.k == 3
           && r.cat == BASE)
       || (r.n == 29 && c0 == INT_LIKE && c1 == PRELANGLE && r.j == 1 && r.k == 1 && r.cat == LANGLE)
       || (r.n == 42 && c0 == TYPEDEF_LIKE && c1 == DECL_HEAD && r.j == 1 && r.k == 2
           && r.cat == DECL_HEAD)
       || (r.n == 47 && c0 == STRUCT_LIKE && r.j == 2 && r.d == -1)
       || (r.n == 102 && c0 == BASE && c1 == PUBLIC_LIKE && r.j == 1 && r.cat == INT_LIKE && r.d == -1))
     else
       && (r.cat == c0 || (r.cat != COMMA && r.cat != LBRACE && r.cat != SEMI && r.cat != RPAR &&
                           r.cat != RBRACE && r.cat != RPROC))
       && (c0 == LPAR ==> r.cat == EXP || r.cat == LPAR || r.n == 13)
       && (r.d >= -1 ==> NearerOK(r, c0, c1))
       && (r.d >= 0 ==> HereOK(r, c0, c1, c2))
       && (r.d >= 1 ==> c0 == INT_LIKE && r.k == 2 && c2 == LBRACE && r.cat == FN_DECL && r.d == 1))
  }

  predicate NearerOK(r: Rule, c0: Cat, c1: Cat)
    requires !r.NoRule?
  {
    && (r.cat == c0 || (r.cat != EXP && r.cat != INT_LIKE && r.cat != COLON && r.cat != PRERANGLE))
    && (r.cat == ELSE_LIKE ==>
          (r.n == 65 && r.k == 1 && c1 == STMT) || ((r.n == 64 || r.n == 67) && r.k == 3))
    && c0 != COLCOL && (c0 == BINOP || c0 == LPAR || c0 == BASE ==> r.cat == c0)
    && (r.cat == EXP ==> r.n == 9 && r.k == 3)
  }

  predicate HereOK(r: Rule, c0: Cat, c1: Cat, c2: Cat)
    requires !r.NoRule?
  {
    && MadeHere(r.cat) && c0 != BINOP && c0 != UNOP && c0 != UNORBINOP && c0 != RAW_INT
    && (c0 == STRUCT_LIKE ==> 44 <= r.n <= 46) && (r.cat == TAG ==> r.n == 7)
    && (r.cat == DECL_HEAD ==>
          if r.k == 1 then c1 == COLON else r.k == 2 && r.n == 45 && c2 == SEMI)
    && (r.cat == IF_LIKE || r.cat == ELSE_LIKE ==> 63 <= r.n <= 67)
    && (r.cat == BASE ==> r.n == 101 && r.k == 4)
  }

  /** What the productions that matter below make. */
  predicate Numbered(r: Rule, c2: Cat) {
    r.NoRule? ||
    (&& (r.n == 7 ==> r.j == 0 && r.d == 0 && r.cat == TAG)
     && (r.n == 13 ==> r.j == 0 && r.d == -2 && r.cat == CAST)
     && (r.n == 44 || r.n == 46 ==> r.j == 0 && r.d == 0 && r.cat == STRUCT_HEAD)
     && (r.n == 45 ==> r.j == 0 && r.k == 2 && r.d == 0 && r.cat == DECL_HEAD && c2 == SEMI)
     && (r.n == 63 || r.n == 66 ==> r.j == 0 && r.d == 0 && r.cat == IF_LIKE)
     && (r.n == 64 || r.n == 67 ==> r.j == 0 && r.k == 3 && r.d == 0 && r.cat == ELSE_LIKE)
     && (r.n == 65 ==> r.j == 0 && r.d == 0 && r.cat == ELSE_LIKE)
     && (r.n == 101 ==> r.j == 0 && r.k == 4 && r.d == 0 && r.cat == BASE)
     && (r.Reduce? && r.prog.Reserve? ==> (r.n == 42 || r.n == 45 || r.n == 46) && r.prog.i >= 1)
     && (r.n == 46 ==> r.k == 3) && (r.n == 42 ==> r.j == 1) && 1 <= r.n <= 109)
  }

  lemma ExpressionNearby(c0: Cat, c1: Cat, c2: Cat, c3: Cat, forceLines: bool)
    requires c0 == EXP || c0 == LPAR || c0 == QUESTION || c0 == UNOP || c0 == UNORBINOP || c0 ==
             BINOP || c0 == CAST || c0 == SIZEOF_LIKE
    ensures Nearby(MatchOn(c0, c1, c2, c3, forceLines), c0, c1, c2)
    ensures Numbered(MatchOn(c0, c1, c2, c3, forceLines), c2)
  {
  }

  lemma DeclarationNearby(c0: Cat, c1: Cat, c2: Cat, c3: Cat, forceLines: bool)
    requires c0 == INT_LIKE || c0 == DECL_HEAD || c0 == DECL || c0 == TYPEDEF_LIKE || c0 ==
             STRUCT_LIKE || c0 == STRUCT_HEAD
    ensures Nearby(MatchOn(c0, c1, c2, c3, forceLines), c0, c1, c2)
    ensures Numbered(MatchOn(c0, c1, c2, c3, forceLines), c2)
  {
  }

  lemma BodyNearby(c0: Cat, c1: Cat, c2: Cat, c3: Cat, forceLines: bool)
    requires c0 == FN_DECL || c0 == FUNCTION || c0 == LBRACE || c0 == IF_LIKE || c0 == FOR_LIKE ||
             c0 == ELSE_LIKE || c0 == ELSE_HEAD || c0 == DO_LIKE
    ensures Nearby(MatchOn(c0, c1, c2, c3, forceLines), c0, c1, c2)
    ensures Numbered(MatchOn(c0, c1, c2, c3, forceLines), c2)
  {
  }

  lemma IfNearby(c0: Cat, c1: Cat, c2: Cat, c3: Cat, forceLines: bool)
    requires c0 == IF_CLAUSE || c0 == IF_HEAD
    ensures Nearby(MatchOn(c0, c1, c2, c3, forceLines), c0, c1, c2)
    ensures Numbered(MatchOn(c0, c1, c2, c3, forceLines), c2)
  {
  }

  lemma StatementNearby(c0: Cat, c1: Cat, c2: Cat, c3: Cat, forceLines: bool)
    requires c0 == CASE_LIKE || c0 == TAG || c0 == STMT || c0 == SEMI || c0 == LPROC || c0 ==
             SECTION_SCRAP || IsAngle(c0)
    ensures Nearby(MatchOn(c0, c1, c2, c3, forceLines), c0, c1, c2)
    ensures Numbered(MatchOn(c0, c1, c2, c3, forceLines), c2)
  {
  }

  lemma CplusplusNearby(c0: Cat, c1: Cat, c2: Cat, c3: Cat, forceLines: bool)
    requires c0 == LANGLE || c0 == PUBLIC_LIKE || c0 == COLCOL || c0 == NEW_LIKE || c0 ==
             OPERATOR_LIKE || c0 == CATCH_LIKE
    ensures Nearby(MatchOn(c0, c1, c2, c3, forceLines), c0, c1, c2)
    ensures Numbered(MatchOn(c0, c1, c2, c3, forceLines), c2)
  {
  }

  lemma RawNearby(c0: Cat, c1: Cat, c2: Cat, c3: Cat, forceLines: bool)
    requires c0 == BASE || c0 == RAW_RPAR || c0 == RAW_UNORBIN || c0 == CONST_LIKE || c0 == RAW_INT
    ensures Nearby(MatchOn(c0, c1, c2, c3, forceLines), c0, c1, c2)
    ensures Numbered(MatchOn(c0, c1, c2, c3, forceLines), c2)
  {
  }

  lemma NothingNearby(c0: Cat, c1: Cat, c2: Cat, c3: Cat, forceLines: bool)
    requires MatchOn(c0, c1, c2, c3, forceLines) == NoRule
    ensures Nearby(MatchOn(c0, c1, c2, c3, forceLines), c0, c1, c2)
    ensures Numbered(MatchOn(c0, c1, c2, c3, forceLines), c2)
  {
  }

  lemma SwitchNearby(c0: Cat, c1: Cat, c2: Cat, c3: Cat, forceLines: bool)
    requires c0 != INSERT
    ensures Nearby(MatchOn(c0, c1, c2, c3, forceLines), c0, c1, c2)
    ensures Numbered(MatchOn(c0, c1, c2, c3, forceLines), c2)
  {
    hide Nearby, Numbered;
    if c0 == EXP || c0 == LPAR || c0 == QUESTION || c0 == UNOP || c0 == UNORBINOP || c0 ==
       BINOP || c0 == CAST || c0 == SIZEOF_LIKE {
      ExpressionNearby(c0, c1, c2, c3, forceLines);
    } else if c0 == INT_LIKE || c0 == DECL_HEAD || c0 == DECL || c0 == TYPEDEF_LIKE || c0 ==
       STRUCT_LIKE || c0 == STRUCT_HEAD {
      DeclarationNearby(c0, c1, c2, c3, forceLines);
    } else if c0 == FN_DECL || c0 == FUNCTION || c0 == LBRACE || c0 == IF_LIKE || c0 == FOR_LIKE || c0
       == ELSE_LIKE || c0 == ELSE_HEAD || c0 == DO_LIKE {
      BodyNearby(c0, c1, c2, c3, forceLines);
    } else if c0 == IF_CLAUSE || c0 == IF_HEAD {
      IfNearby(c0, c1, c2, c3, forceLines);
    } else if c0 == CASE_LIKE || c0 == TAG || c0 == STMT || c0 == SEMI || c0 == LPROC || c0 ==
       SECTION_SCRAP || IsAngle(c0) {
      StatementNearby(c0, c1, c2, c3, forceLines);
    } else if c0 == LANGLE || c0 == PUBLIC_LIKE || c0 == COLCOL || c0 == NEW_LIKE || c0 ==
       OPERATOR_LIKE || c0 == CATCH_LIKE {
      CplusplusNearby(c0, c1, c2, c3, forceLines);
    } else if c0 == BASE || c0 == RAW_RPAR || c0 == RAW_UNORBIN || c0 == CONST_LIKE || c0 == RAW_INT {
      RawNearby(c0, c1, c2, c3, forceLines);
    } else {
      NothingNearby(c0, c1, c2, c3, forceLines);
    }
  }

  /** Where the last category of a window matters. */
  lemma LastMatters(x: Cat, y: Cat, z: Cat, v: Cat, w: Cat, forceLines: bool)
    requires MatchOn(x, y, z, v, forceLines).NoRule? && !MatchOn(x, y, z, w, forceLines).NoRule?
    ensures
      || (x == TYPEDEF_LIKE && y == DECL_HEAD && z == EXP && (v == LPAR || v == EXP))
      || (z == EXP && (w == COMMA || w == SEMI || w == RPAR || w == RPROC) &&
          (y == BINOP || y == COLON || y == EXP))
      || (z == INT_LIKE && (w == COMMA || w == LBRACE))
      || (z == COMMA && w == RBRACE)
      || (x == DO_LIKE && y == STMT && z == ELSE_LIKE && w == SEMI)
  {
  }

  /** What productions need in the third place. */
  predicate Third(x: Cat, y: Cat, z: Cat, v: Cat) {
    z == EXP || z == INT_LIKE || z == RPAR || z == COMMA || z == COLON || z == SEMI || z == LBRACE ||
    z == RBRACE || z == RPROC || z == PRERANGLE ||
    (x == DO_LIKE && y == STMT && z == ELSE_LIKE && v == SEMI)
  }

  /** Where the third category of a window matters. */
  lemma ThirdMatters(x: Cat, y: Cat, z: Cat, v: Cat, z': Cat, v': Cat, forceLines: bool)
    requires MatchOn(x, y, z, v, forceLines).NoRule? && !MatchOn(x, y, z', v', forceLines).NoRule?
    ensures
      || Third(x, y, z', v')
      || (x == DECL_HEAD && y == EXP && (z == LPAR || z == EXP))
      || (x == DECL_HEAD && y == INT_LIKE && z == COLCOL)
      || (x == STRUCT_LIKE && (y == EXP || y == INT_LIKE) && z == BASE && z' != BASE)
      || (x == NEW_LIKE && y == RAW_INT && (z == PRELANGLE || z == LANGLE))
      || (x == OPERATOR_LIKE && (y == BINOP || y == UNOP || y == UNORBINOP) && z == BINOP &&
          z' != BINOP)
  {
  }

  // ----- The places before a production

  /** The third place before a production at c0. */
  lemma ThreeBack(x: Cat, y: Cat, z: Cat, c0: Cat, c1: Cat, c2: Cat, c3: Cat, forceLines: bool)
    requires MatchOn(x, y, z, c0, forceLines).NoRule? && MatchOn(z, c0, c1, c2, forceLines).NoRule?
    requires var r := MatchOn(c0, c1, c2, c3, forceLines); !r.NoRule? && r.d >= -2 && c0 != INSERT
    ensures var r := MatchOn(c0, c1, c2, c3, forceLines);
            || MatchOn(x, y, z, if r.j == 0 then r.cat else c0, forceLines).NoRule?
            || (r.n == 13 && x == TYPEDEF_LIKE && y == DECL_HEAD && z == EXP)
  {
    var r := MatchOn(c0, c1, c2, c3, forceLines);
    SwitchNearby(c0, c1, c2, c3, forceLines);
    TwoOperands(z, c0, c1, c2, forceLines);
    hide MatchOn;
    if r.j == 0 && !MatchOn(x, y, z, r.cat, forceLines).NoRule? {
      LastMatters(x, y, z, c0, r.cat, forceLines);
    }
  }

  lemma TwoOperands(x: Cat, y: Cat, c2: Cat, c3: Cat, forceLines: bool)
    ensures MatchOn(x, y, c2, c3, forceLines).NoRule? ==> !(x == EXP && y == EXP) && !Always(x)
    ensures MatchOn(x, y, c2, c3, forceLines).NoRule? && (x == BINOP || x == UNORBINOP) ==> y != BINOP
  {
  }

  /** The second place before it; t is what then stands behind the new scrap. */
  lemma TwoBack(x: Cat, y: Cat, c0: Cat, c1: Cat, c2: Cat, c3: Cat, t: Cat, forceLines: bool)
    requires MatchOn(x, y, c0, c1, forceLines).NoRule? && MatchOn(y, c0, c1, c2, forceLines).NoRule?
    requires var r := MatchOn(c0, c1, c2, c3, forceLines); !r.NoRule? && r.d >= -1 && c0 != INSERT
    requires var r := MatchOn(c0, c1, c2, c3, forceLines);
             if r.j == 0 then
               (r.k == 1 ==> t == c1) && (r.k == 2 ==> t == c2) && (r.k == 3 ==> t == c3 || r.n == 46)
             else t == if r.j == 1 then r.cat else c1
    ensures var r := MatchOn(c0, c1, c2, c3, forceLines);
            || MatchOn(x, y, if r.j == 0 then r.cat else c0, t, forceLines).NoRule?
            || ((r.n == 64 || r.n == 67) && x == DO_LIKE && y == STMT && c3 == SEMI)
  {
    var r := MatchOn(c0, c1, c2, c3, forceLines);
    var u := if r.j == 0 then r.cat else c0;
    SwitchNearby(c0, c1, c2, c3, forceLines);
    TwoOperands(y, c0, c1, c2, forceLines);
    hide MatchOn;
    if !MatchOn(x, y, u, t, forceLines).NoRule? {
      if u != c0 {
        ThirdMatters(x, y, c0, c1, u, t, forceLines);
      } else {
        LastMatters(x, y, c0, c1, t, forceLines);
      }
    }
  }

  /** What is missed at the place before production n, with t and u behind the new scrap. */
  predicate MissedOne(n: nat, x: Cat, t: Cat, u: Cat) {
    || (n == 7 && x == TAG)
    || ((n == 44 || n == 46) && x == NEW_LIKE)
    || (n == 45 && (x == NEW_LIKE || x == TYPEDEF_LIKE))
    || (63 <= n <= 67 && x == LPROC)
    || (n == 101 && x == EXP && t == INT_LIKE && (u == COMMA || u == LBRACE))
  }

  /** The place before it. */
  lemma OneBack(x: Cat, c0: Cat, c1: Cat, c2: Cat, c3: Cat, t: Cat, u: Cat, forceLines: bool)
    requires MatchOn(x, c0, c1, c2, forceLines).NoRule? && c0 != INSERT && c0 != ZERO
    requires var r := MatchOn(c0, c1, c2, c3, forceLines); !r.NoRule? && r.d >= 0
    requires var r := MatchOn(c0, c1, c2, c3, forceLines);
             if r.j == 0 then
               && (r.k == 1 ==> t == c1 && u == c2) && (r.k == 2 ==> t == c2 && (u == c3 || r.n == 45))
               && (r.k == 3 ==> t == c3 || r.n == 46)
             else t == r.cat && (r.k == 1 ==> u == c2)
    ensures var r := MatchOn(c0, c1, c2, c3, forceLines);
            MatchOn(x, if r.j == 0 then r.cat else c0, t, u, forceLines).NoRule? ||
            MissedOne(r.n, x, t, u)
  {
    var r := MatchOn(c0, c1, c2, c3, forceLines);
    SwitchNearby(c0, c1, c2, c3, forceLines);
    AlwaysApplies(x, c0, c1, c2, forceLines);
    Waits(x, c0, c1, c2, forceLines);
    hide MatchOn;
    if r.j == 0 {
      if !MatchOn(x, r.cat, t, u, forceLines).NoRule? {
        BeforeMade(x, r.cat, t, u, forceLines);
      }
    } else if r.n == 29 {
      if !MatchOn(x, c0, t, u, forceLines).NoRule? {
        ThirdMatters(x, c0, c1, c2, t, u, forceLines);
      }
    } else {
      BeforeSame(x, c0, t, c2, u, forceLines);
    }
  }

  /** When the categories that can stand alone do not. */
  lemma Waits(x: Cat, c1: Cat, c2: Cat, c3: Cat, forceLines: bool)
    requires MatchOn(x, c1, c2, c3, forceLines).NoRule? && c1 != ZERO
    ensures x != INSERT
    ensures x == OPERATOR_LIKE ==> c1 == BINOP || c1 == UNOP || c1 == UNORBINOP
    ensures x == NEW_LIKE ==> c1 == LPAR || c1 == RAW_INT || c1 == STRUCT_LIKE
  {
  }

  /** In front of productions 8 and 42 the fourth category does not matter. */
  lemma BeforeSame(x: Cat, c0: Cat, c1: Cat, v: Cat, w: Cat, forceLines: bool)
    requires MatchOn(x, c0, c1, v, forceLines).NoRule?
    requires (c0 == EXP && c1 == BASE) || (c0 == TYPEDEF_LIKE && c1 == DECL_HEAD)
    ensures MatchOn(x, c0, c1, w, forceLines).NoRule?
  {
  }

  /** What production 111 hides from the two scraps before it. */
  predicate MissedArg(x: Cat, y: Cat, c0: Cat) {
    || (x == DECL_HEAD && ((y == EXP && c0 == LPAR) || (y == INT_LIKE && c0 == COLCOL)))
    || (x == STRUCT_LIKE && (y == EXP || y == INT_LIKE) && c0 == BASE)
    || (x == OPERATOR_LIKE && y == UNOP && c0 == BINOP)
  }

  lemma ArgBack(x: Cat, y: Cat, c0: Cat, c2: Cat, t: Cat, forceLines: bool)
    requires MatchOn(x, y, c0, END_ARG, forceLines).NoRule?
    requires MatchOn(y, c0, END_ARG, c2, forceLines).NoRule?
    ensures MatchOn(x, y, END_ARG, t, forceLines).NoRule? <==> !MissedArg(x, y, c0)
  {
    TwoOperands(y, c0, END_ARG, c2, forceLines);
    if !MatchOn(x, y, END_ARG, t, forceLines).NoRule? {
      ThirdMatters(x, y, c0, END_ARG, END_ARG, t, forceLines);
    }
  }

  lemma ArgThree(x: Cat, y: Cat, z: Cat, c0: Cat, c2: Cat, made: Cat, forceLines: bool)
    requires MatchOn(x, y, z, c0, forceLines).NoRule? && MatchOn(z, c0, END_ARG, c2, forceLines).NoRule?
    requires made == if c0 == BEGIN_ARG then EXP else END_ARG
    ensures MatchOn(x, y, z, made, forceLines).NoRule? || MissedArg(y, z, c0)
  {
    TwoOperands(z, c0, END_ARG, c2, forceLines);
    if !MatchOn(x, y, z, made, forceLines).NoRule? {
      LastMatters(x, y, z, c0, made, forceLines);
    }
  }

  /** What is missed is there. */
  lemma MissedApplies(x: Cat, c0: Cat, c1: Cat, c2: Cat, c3: Cat, t: Cat, u: Cat, forceLines: bool)
    requires var r := MatchOn(c0, c1, c2, c3, forceLines);
             !r.NoRule? && c0 != INSERT && MissedOne(r.n, x, t, u)
    requires MatchOn(c0, c1, c2, c3, forceLines).n == 45 ==> t == SEMI
    ensures var r := MatchOn(c0, c1, c2, c3, forceLines);
            r.j == 0 && r.d == 0 && !MatchOn(x, r.cat, t, u, forceLines).NoRule?
  {
    var r := MatchOn(c0, c1, c2, c3, forceLines);
    SwitchNearby(c0, c1, c2, c3, forceLines);
    assert r.j == 0 && r.d == 0;
    FiresBefore(x, r.cat, t, u, forceLines);
  }

  lemma FiresBefore(x: Cat, t: Cat, c2: Cat, c3: Cat, forceLines: bool)
    ensures x == TAG && t == TAG ==> !MatchOn(x, t, c2, c3, forceLines).NoRule?
    ensures x == NEW_LIKE && (t == STRUCT_HEAD || t == DECL_HEAD) ==>
              !MatchOn(x, t, c2, c3, forceLines).NoRule?
    ensures x == TYPEDEF_LIKE && t == DECL_HEAD && c2 == SEMI ==>
              !MatchOn(x, t, c2, c3, forceLines).NoRule?
    ensures x == LPROC && (t == IF_LIKE || t == ELSE_LIKE) ==>
              !MatchOn(x, t, c2, c3, forceLines).NoRule?
    ensures x == EXP && t == BASE && c2 == INT_LIKE && (c3 == COMMA || c3 == LBRACE) ==>
              !MatchOn(x, t, c2, c3, forceLines).NoRule?
    ensures x == DO_LIKE && t == STMT && c2 == ELSE_LIKE && c3 == SEMI ==>
              !MatchOn(x, t, c2, c3, forceLines).NoRule?
    ensures x == TYPEDEF_LIKE && t == DECL_HEAD && c2 == EXP && c3 == CAST ==>
              !MatchOn(x, t, c2, c3, forceLines).NoRule?
  {
  }

  // ----- Lists of categories

  /** The production of the switch at place i. */
  function SwitchAt(cs: seq<Cat>, i: nat, forceLines: bool): Rule {
    MatchOn(Get(cs, i), Get(cs, i + 1), Get(cs, i + 2), Get(cs, i + 3), forceLines)
  }

  /** No production of the switch applies before place p. */
  ghost predicate Idle(cs: seq<Cat>, p: nat, forceLines: bool) {
    forall i: nat :: i < p && i < |cs| ==> SwitchAt(cs, i, forceLines).NoRule?
  }

  /** Comments up to place p are merged, but for one that is the first scrap. */
  predicate NoComments(cs: seq<Cat>, p: nat) {
    forall i :: 1 <= i <= p && i < |cs| ==> cs[i] != INSERT
  }

  lemma GetFolded(cs: seq<Cat>, a: nat, k: nat, cat: Cat, m: nat)
    requires 1 <= k && a + k <= |cs|
    ensures Get(Folded(cs, a, k, cat), m) ==
            if m < a then Get(cs, m) else if m == a then cat else Get(cs, m + k - 1)
  {
  }

  lemma GetFour(cs: seq<Cat>, a: nat, k: nat, cat: Cat, i: nat)
    requires 1 <= k && a + k <= |cs|
    ensures var ds := Folded(cs, a, k, cat);
            && Get(ds, i) == (if i < a then Get(cs, i) else if i == a then cat else Get(cs, i + k - 1))
            && Get(ds, i + 1) ==
               (if i + 1 < a then Get(cs, i + 1) else if i + 1 == a then cat else Get(cs, i + k))
            && Get(ds, i + 2) ==
               (if i + 2 < a then Get(cs, i + 2) else if i + 2 == a then cat else Get(cs, i + k + 1))
            && Get(ds, i + 3) ==
               (if i + 3 < a then Get(cs, i + 3) else if i + 3 == a then cat else Get(cs, i + k + 2))
  {
    hide Get, Folded;
    GetFolded(cs, a, k, cat, i);
    GetFolded(cs, a, k, cat, i + 1);
    GetFolded(cs, a, k, cat, i + 2);
    GetFolded(cs, a, k, cat, i + 3);
  }

  /** The categories when make_reserved has struck some expressions, as far as the rule does so. */
  function Struck(cs: seq<Cat>, p: nat, r: Rule, chosen: set<nat>): (es: seq<Cat>)
    ensures |es| == |cs|
  {
    seq(|cs|, i requires 0 <= i < |cs| =>
      if r.Reduce? && r.prog.Reserve? && p + r.prog.i <= i && i in chosen && cs[i] == EXP then RAW_INT
      else cs[i])
  }

  lemma StruckSame(cs: seq<Cat>, p: nat, r: Rule, chosen: set<nat>)
    ensures !(r.Reduce? && r.prog.Reserve?) ==> Struck(cs, p, r, chosen) == cs
    ensures forall m: nat :: Get(Struck(cs, p, r, chosen), m) == Get(cs, m) ||
              (Get(cs, m) == EXP && r.Reduce? && r.prog.Reserve? && m >= p + r.prog.i)
  {
  }

  /** What a production of the switch at p misses. */
  predicate MissedSwitch(cs: seq<Cat>, p: nat, r: Rule)
    requires !r.NoRule?
  {
    || (p >= 1 && MissedOne(r.n, Get(cs, p - 1), Get(cs, p + r.j + r.k), Get(cs, p + r.j + r.k + 1)))
    || (p >= 2 && (r.n == 64 || r.n == 67) && Get(cs, p - 2) == DO_LIKE && Get(cs, p - 1) == STMT &&
        Get(cs, p + 3) == SEMI)
    || (p >= 3 && r.n == 13 && Get(cs, p - 3) == TYPEDEF_LIKE && Get(cs, p - 2) == DECL_HEAD &&
        Get(cs, p - 1) == EXP)
  }

  /** A place before a production of the switch. */
  lemma SwitchPlace(cs: seq<Cat>, p: nat, i: nat, chosen: set<nat>, forceLines: bool)
    requires p < |cs| && cs[p] != INSERT && cs[p] != ZERO && Idle(cs, p, forceLines)
    requires var r := SwitchAt(cs, p, forceLines);
             !r.NoRule? && 1 <= r.k && p + r.j + r.k <= |cs| && i < p + r.d
    ensures var r := SwitchAt(cs, p, forceLines);
            var es := Struck(cs, p, r, chosen);
            SwitchAt(Folded(es, p + r.j, r.k, r.cat), i, forceLines).NoRule? || MissedSwitch(cs, p, r)
  {
    hide Folded, Get, MatchOn, Struck;
    var r := SwitchAt(cs, p, forceLines);
    var es := Struck(cs, p, r, chosen);
    var c0, c1, c2, c3 := Get(cs, p), Get(cs, p + 1), Get(cs, p + 2), Get(cs, p + 3);
    var ds := Folded(es, p + r.j, r.k, r.cat);
    GetAt(cs, p);
    SwitchNearby(c0, c1, c2, c3, forceLines);
    StruckSame(cs, p, r, chosen);
    GetFour(es, p + r.j, r.k, r.cat, i);
    GetFour(es, p + r.j, r.k, r.cat, p);
    if i < p {
      assert SwitchAt(cs, i, forceLines).NoRule?;
      assert i + 1 < p ==> SwitchAt(cs, i + 1, forceLines).NoRule?;
      assert i + 2 < p ==> SwitchAt(cs, i + 2, forceLines).NoRule?;
    }
    assert r.d >= -2 ==> r.j <= 2 && r.d <= 1;
    assert r.n == 45 ==> c2 == SEMI;
    hide Nearby;
    if i + 1 == p {
      OneBack(Get(cs, i), c0, c1, c2, c3, Get(ds, p + 1), Get(ds, p + 2), forceLines);
    } else if i + 2 == p {
      TwoBack(Get(cs, i), Get(cs, i + 1), c0, c1, c2, c3, Get(ds, p + 1), forceLines);
    } else if i + 3 == p {
      ThreeBack(Get(cs, i), Get(cs, i + 1), Get(cs, i + 2), c0, c1, c2, c3, forceLines);
    } else if i >= p {
      assert i == p;
      Onward(c0, c1, c2, c3, Get(ds, p + 1), Get(ds, p + 2), Get(ds, p + 3), forceLines);
    } else {
      assert i + 3 < p;
    }
  }

  lemma GetAt(cs: seq<Cat>, p: nat)
    requires p < |cs|
    ensures Get(cs, p) == cs[p]
  {
  }

  /** Productions 29 and 31 go on behind the place that they leave. */
  lemma Onward(c0: Cat, c1: Cat, c2: Cat, c3: Cat, t: Cat, u: Cat, v: Cat, forceLines: bool)
    requires c0 != INSERT
    requires var r := MatchOn(c0, c1, c2, c3, forceLines);
             && !r.NoRule? && r.d >= 1
             && (if r.j == 0 then r.k == 2 ==> t == c2 else r.j == 1 ==> t == r.cat)
    ensures var r := MatchOn(c0, c1, c2, c3, forceLines);
            r.d == 1 && MatchOn(if r.j == 0 then r.cat else c0, t, u, v, forceLines).NoRule?
  {
    SwitchNearby(c0, c1, c2, c3, forceLines);
    OnwardStays(u, v, forceLines);
    hide MatchOn;
  }

  lemma OnwardStays(u: Cat, v: Cat, forceLines: bool)
    ensures MatchOn(INT_LIKE, LANGLE, u, v, forceLines).NoRule?
    ensures MatchOn(FN_DECL, LBRACE, u, v, forceLines).NoRule?
  {
  }

  /** What is missed is there. */
  lemma SwitchMissed(cs: seq<Cat>, p: nat, chosen: set<nat>, forceLines: bool) returns (i: nat)
    requires p < |cs| && cs[p] != INSERT && cs[p] != ZERO
    requires var r := SwitchAt(cs, p, forceLines);
             !r.NoRule? && 1 <= r.k && p + r.j + r.k <= |cs| && MissedSwitch(cs, p, r)
    ensures var r := SwitchAt(cs, p, forceLines);
            var es := Struck(cs, p, r, chosen);
            i < p + r.d && i < p && !SwitchAt(Folded(es, p + r.j, r.k, r.cat), i, forceLines).NoRule?
  {
    hide Folded, Get, MatchOn, Struck;
    var r := SwitchAt(cs, p, forceLines);
    var es := Struck(cs, p, r, chosen);
    var c0, c1, c2, c3 := Get(cs, p), Get(cs, p + 1), Get(cs, p + 2), Get(cs, p + 3);
    GetAt(cs, p);
    SwitchNearby(c0, c1, c2, c3, forceLines);
    StruckSame(cs, p, r, chosen);
    hide Nearby;
    if p >= 1 && MissedOne(r.n, Get(cs, p - 1), Get(cs, p + r.j + r.k), Get(cs, p + r.j + r.k + 1)) {
      i := p - 1;
      GetFour(es, p + r.j, r.k, r.cat, i);
      var t, u := Get(es, p + r.j + r.k), Get(es, p + r.j + r.k + 1);
      MissedApplies(Get(cs, i), c0, c1, c2, c3, t, u, forceLines);
    } else {
      i := if r.n == 13 then p - 3 else p - 2;
      GetFour(es, p + r.j, r.k, r.cat, i);
      FiresBefore(Get(cs, i), Get(cs, i + 1), if r.n == 13 then EXP else ELSE_LIKE,
                  if r.n == 13 then CAST else SEMI, forceLines);
    }
  }

  /** A place before production 110 or 111. */
  lemma ArgPlace(cs: seq<Cat>, p: nat, i: nat, forceLines: bool)
    requires p + 1 < |cs| && cs[p + 1] == END_ARG && Idle(cs, p, forceLines)
    requires i + (if cs[p] == BEGIN_ARG then 2 else 1) < p
    ensures var ds := Folded(cs, p, 2, if cs[p] == BEGIN_ARG then EXP else END_ARG);
            SwitchAt(ds, i, forceLines).NoRule? ||
            (cs[p] != BEGIN_ARG && p >= 2 && MissedArg(Get(cs, p - 2), Get(cs, p - 1), cs[p]))
  {
    hide Folded, Get, MatchOn;
    var made := if cs[p] == BEGIN_ARG then EXP else END_ARG;
    GetAt(cs, p);
    GetAt(cs, p + 1);
    GetFour(cs, p, 2, made, i);
    assert SwitchAt(cs, i, forceLines).NoRule?;
    assert SwitchAt(cs, i + 1, forceLines).NoRule?;
    if i + 2 == p {
      ArgBack(Get(cs, i), Get(cs, i + 1), cs[p], Get(cs, p + 2), Get(cs, p + 2), forceLines);
    } else if i + 3 == p {
      assert SwitchAt(cs, i + 2, forceLines).NoRule?;
      ArgThree(Get(cs, i), Get(cs, i + 1), Get(cs, i + 2), cs[p], Get(cs, p + 2), made, forceLines);
      NotBegun(Get(cs, i + 1), Get(cs, i + 2));
    } else {
      assert i + 3 < p;
    }
  }

  lemma NotBegun(x: Cat, y: Cat)
    ensures !MissedArg(x, y, BEGIN_ARG)
  {
  }

  lemma ArgMissed(cs: seq<Cat>, p: nat, forceLines: bool)
    requires 2 <= p && p + 1 < |cs| && cs[p + 1] == END_ARG && Idle(cs, p, forceLines)
    requires MissedArg(Get(cs, p - 2), Get(cs, p - 1), cs[p])
    ensures !SwitchAt(Folded(cs, p, 2, END_ARG), p - 2, forceLines).NoRule?
  {
    hide Folded, Get, MatchOn;
    GetAt(cs, p);
    GetAt(cs, p + 1);
    GetFour(cs, p, 2, END_ARG, p - 2);
    assert SwitchAt(cs, p - 2, forceLines).NoRule? && SwitchAt(cs, p - 1, forceLines).NoRule?;
    ArgBack(Get(cs, p - 2), Get(cs, p - 1), cs[p], Get(cs, p + 2), Get(cs, p + 2), forceLines);
  }

  // ----- One round

  /** What the program does at place p. */
  function RoundAt(cs: seq<Cat>, p: nat, forceLines: bool): Rule {
    Match(Get(cs, p), Get(cs, p + 1), Get(cs, p + 2), Get(cs, p + 3), forceLines)
  }

  predicate Inside(cs: seq<Cat>, p: nat, r: Rule) {
    r.NoRule? || (1 <= r.k && p + r.j + r.k <= |cs|)
  }

  /** The categories and the position after it. */
  function RoundOn(cs: seq<Cat>, p: nat, r: Rule, chosen: set<nat>): (seq<Cat>, nat)
    requires Inside(cs, p, r)
  {
    if r.NoRule? then (cs, p + 1)
    else (Folded(Struck(cs, p, r, chosen), p + r.j, r.k, r.cat), Move(p, r.d))
  }

  /**
    The productions after which the program goes on too far to the right: 7 behind a tag; 13 behind
    `typedef` with a declarator; 44 to 46 behind `new`, and 45 behind `typedef`; 63 to 67 at the start
    of a preprocessor command, and 64 and 67 where the end of a `do` should come; 101 behind an
    expression, with a class name and a comma or a brace next; and 111 in the places of `MissedArg`.
   */
  predicate Missed(cs: seq<Cat>, p: nat, r: Rule)
    requires !r.NoRule?
  {
    MissedSwitch(cs, p, r) ||
    (r.n == 111 && p >= 2 && MissedArg(Get(cs, p - 2), Get(cs, p - 1), Get(cs, p)))
  }

  /** Productions 110 and 111. */
  predicate TakesArg(cs: seq<Cat>, p: nat, r: Rule)
    requires p < |cs|
  {
    && Get(cs, p + 1) == END_ARG && r.Squash? && r.j == 0 && r.k == 2
    && (if cs[p] == BEGIN_ARG then r.cat == EXP && r.d == -2 && r.n == 110
        else r.cat == END_ARG && r.d == -1 && r.n == 111)
  }

  /** A comment goes into the scrap before it. */
  predicate Merges(cs: seq<Cat>, p: nat, r: Rule) {
    && r.Squash? && r.k == 2 && r.j <= 2 && Get(cs, p + r.j + 1) == INSERT && r.n == 0
    && r.cat == Get(cs, p + r.j) && r.d == r.j - 2
  }

  /** Which part of the pattern match decides. */
  lemma RoundKind(cs: seq<Cat>, p: nat, forceLines: bool)
    requires p < |cs| && (p > 0 ==> cs[p] != INSERT)
    ensures var r := RoundAt(cs, p, forceLines);
            || TakesArg(cs, p, r) || Merges(cs, p, r)
            || (&& r == SwitchAt(cs, p, forceLines) && Get(cs, p + 1) != INSERT
                && (cs[p] != INSERT || (p == 0 && (r.NoRule? || (r.j == 0 && r.k == 2 && r.d == 0)))))
  {
    hide MatchOn;
    InsertOnly(Get(cs, p + 1), Get(cs, p + 2), Get(cs, p + 3), forceLines);
  }

  lemma InsertOnly(c1: Cat, c2: Cat, c3: Cat, forceLines: bool)
    ensures MatchOn(INSERT, c1, c2, c3, forceLines) == MatchInsert(c1)
  {
  }

  /** A comment that is merged changes nothing before. */
  lemma MergePlace(cs: seq<Cat>, p: nat, j: nat, i: nat, forceLines: bool)
    requires p + j + 1 < |cs| && j <= 2 && i + 2 < p + j && i < p && Idle(cs, p, forceLines)
    ensures SwitchAt(Folded(cs, p + j, 2, cs[p + j]), i, forceLines).NoRule?
  {
    hide Folded, Get, MatchOn;
    GetAt(cs, p + j);
    GetFour(cs, p + j, 2, cs[p + j], i);
    assert SwitchAt(cs, i, forceLines).NoRule?;
  }

  /** Replacing scraps brings no comment to the places up to p'. */
  lemma CommentsFolded(cs: seq<Cat>, es: seq<Cat>, p: nat, a: nat, k: nat, cat: Cat, p': nat)
    requires NoComments(cs, p) && |es| == |cs| && p <= a && 1 <= k && a + k <= |cs|
    requires forall i :: 0 <= i < |cs| && es[i] == INSERT ==> cs[i] == INSERT
    requires 1 <= a <= p' ==> cat != INSERT
    requires p' <= p || (p' == p + 1 && (a == p + 1 || (a == p && k == 2 && Get(cs, p + 2) != INSERT)))
    ensures NoComments(Folded(es, a, k, cat), p')
  {
  }

  lemma StruckInserts(cs: seq<Cat>, p: nat, r: Rule, chosen: set<nat>)
    ensures var es := Struck(cs, p, r, chosen);
            forall i :: 0 <= i < |cs| && es[i] == INSERT ==> cs[i] == INSERT
  {
  }

  lemma CommentsAfter(cs: seq<Cat>, p: nat, r: Rule, chosen: set<nat>, forceLines: bool)
    requires p < |cs| && NoComments(cs, p) && ZERO !in cs && r == RoundAt(cs, p, forceLines)
    requires Inside(cs, p, r)
    ensures var (ds, p') := RoundOn(cs, p, r, chosen); NoComments(ds, p')
  {
    hide MatchOn, Match, Struck, Folded;
    var p' := RoundOn(cs, p, r, chosen).1;
    RoundKind(cs, p, forceLines);
    if !r.NoRule? {
      StruckInserts(cs, p, r, chosen);
      if cs[p] != INSERT && r == SwitchAt(cs, p, forceLines) {
        SwitchInserts(cs[p], Get(cs, p + 1), Get(cs, p + 2), Get(cs, p + 3), forceLines);
      }
      CommentsFolded(cs, Struck(cs, p, r, chosen), p, p + r.j, r.k, r.cat, p');
    }
  }

  /** What is known of a production of the switch that goes on at its place or behind it. */
  lemma SwitchInserts(c0: Cat, c1: Cat, c2: Cat, c3: Cat, forceLines: bool)
    requires c0 != INSERT
    ensures var r := MatchOn(c0, c1, c2, c3, forceLines);
            !r.NoRule? && r.d >= 0 ==>
              && r.cat != INSERT && r.d <= 1
              && (r.d == 1 ==> r.j == 1 || (r.j == 0 && r.k == 2 && c2 == LBRACE))
  {
    SwitchNearby(c0, c1, c2, c3, forceLines);
    hide MatchOn;
  }

  /** The places before the new position, unless something is missed. */
  lemma PlaceAfter(cs: seq<Cat>, p: nat, r: Rule, i: nat, chosen: set<nat>, forceLines: bool)
    requires p < |cs| && NoComments(cs, p) && ZERO !in cs && r == RoundAt(cs, p, forceLines)
    requires !r.NoRule? && Inside(cs, p, r) && Idle(cs, p, forceLines) && !Missed(cs, p, r)
    requires i < RoundOn(cs, p, r, chosen).1
    ensures SwitchAt(RoundOn(cs, p, r, chosen).0, i, forceLines).NoRule?
  {
    hide Match, SwitchAt, Idle, Folded, MissedSwitch;
    RoundKind(cs, p, forceLines);
    assert cs[p] in cs;
    GetAt(cs, p);
    GetAt(cs, p + r.j);
    StruckSame(cs, p, r, chosen);
    hide Struck;
    if TakesArg(cs, p, r) {
      SecondInside(cs, p);
      ArgPlace(cs, p, i, forceLines);
    } else if Merges(cs, p, r) {
      MergePlace(cs, p, r.j, i, forceLines);
    } else if cs[p] != INSERT {
      SwitchPlace(cs, p, i, chosen, forceLines);
    }
  }

  lemma SecondInside(cs: seq<Cat>, p: nat)
    requires Get(cs, p + 1) != ZERO
    ensures p + 1 < |cs| && cs[p + 1] == Get(cs, p + 1)
  {
  }

  /** If something is missed, a production applies before the new position. */
  lemma PlaceMissed(cs: seq<Cat>, p: nat, r: Rule, chosen: set<nat>, forceLines: bool)
    requires p < |cs| && NoComments(cs, p) && ZERO !in cs && r == RoundAt(cs, p, forceLines)
    requires !r.NoRule? && Inside(cs, p, r) && Idle(cs, p, forceLines) && Missed(cs, p, r)
    ensures var (ds, p') := RoundOn(cs, p, r, chosen); !Idle(ds, p', forceLines)
  {
    hide Match, SwitchAt, Folded, MissedSwitch;
    RoundKind(cs, p, forceLines);
    assert cs[p] in cs;
    GetAt(cs, p);
    var (ds, p') := RoundOn(cs, p, r, chosen);
    FoldedLength(Struck(cs, p, r, chosen), p + r.j, r.k, r.cat);
    StruckSame(cs, p, r, chosen);
    hide Struck;
    if TakesArg(cs, p, r) {
      NotSwitch(cs, p, r);
      SecondInside(cs, p);
      hide Idle;
      ArgMissed(cs, p, forceLines);
      NotIdle(ds, p', p - 2, forceLines);
    } else {
      NotArg(cs, p, r, forceLines);
      hide Idle;
      var i := SwitchMissed(cs, p, chosen, forceLines);
      NotIdle(ds, p', i, forceLines);
    }
  }

  lemma FoldedLength(cs: seq<Cat>, a: nat, k: nat, cat: Cat)
    requires a + k <= |cs|
    ensures |Folded(cs, a, k, cat)| == |cs| - k + 1
  {
  }

  lemma NotIdle(cs: seq<Cat>, p: nat, i: nat, forceLines: bool)
    requires i < p && i < |cs| && !SwitchAt(cs, i, forceLines).NoRule?
    ensures !Idle(cs, p, forceLines)
  {
    hide SwitchAt;
  }

  /** These do not miss what productions of the switch do. */
  lemma NotSwitch(cs: seq<Cat>, p: nat, r: Rule)
    requires !r.NoRule? && (r.n == 0 || r.n >= 110)
    ensures !MissedSwitch(cs, p, r)
  {
  }

  lemma NotArg(cs: seq<Cat>, p: nat, r: Rule, forceLines: bool)
    requires p < |cs| && NoComments(cs, p) && ZERO !in cs && r == RoundAt(cs, p, forceLines)
    requires !r.NoRule? && !TakesArg(cs, p, r) && Missed(cs, p, r)
    ensures r == SwitchAt(cs, p, forceLines) && cs[p] != INSERT && MissedSwitch(cs, p, r)
  {
    hide Match, MatchOn;
    RoundKind(cs, p, forceLines);
    assert cs[p] in cs;
    GetAt(cs, p);
    if Merges(cs, p, r) {
      NotSwitch(cs, p, r);
    } else if cs[p] != INSERT {
      SwitchNearby(cs[p], Get(cs, p + 1), Get(cs, p + 2), Get(cs, p + 3), forceLines);
    }
  }

  /**
    One round, wherever no production applies before the position: afterwards none applies before
    the new position, if and only if nothing was missed.
   */
  lemma RescanExactly(cs: seq<Cat>, p: nat, chosen: set<nat>, forceLines: bool)
    requires p < |cs| && ZERO !in cs && NoComments(cs, p) && Idle(cs, p, forceLines)
    requires Inside(cs, p, RoundAt(cs, p, forceLines))
    ensures var r := RoundAt(cs, p, forceLines);
            var (ds, p') := RoundOn(cs, p, r, chosen);
            && NoComments(ds, p')
            && (Idle(ds, p', forceLines) <==> r.NoRule? || !Missed(cs, p, r))
  {
    hide Missed, NoComments, Folded, RoundAt, SwitchAt;
    var r := RoundAt(cs, p, forceLines);
    var (ds, p') := RoundOn(cs, p, r, chosen);
    CommentsAfter(cs, p, r, chosen, forceLines);
    if r.NoRule? {
      NothingApplies(cs, p, forceLines);
    } else if Missed(cs, p, r) {
      PlaceMissed(cs, p, r, chosen, forceLines);
    } else {
      forall i: nat | i < p' && i < |ds|
        ensures SwitchAt(ds, i, forceLines).NoRule?
      {
        PlaceAfter(cs, p, r, i, chosen, forceLines);
      }
    }
  }

  lemma NothingApplies(cs: seq<Cat>, p: nat, forceLines: bool)
    requires p < |cs| && RoundAt(cs, p, forceLines).NoRule? && NoComments(cs, p)
    ensures SwitchAt(cs, p, forceLines).NoRule?
  {
    RoundKind(cs, p, forceLines);
  }

  // ----- Runs of the parser

  /** Whether the round that the parser makes now goes on too far to the right. */
  predicate MissedNow(c: Config, forceLines: bool) {
    c.pos < |c.ss| &&
    var cs, r := Cats(c.ss), RuleAt(c, forceLines);
    !r.NoRule? && Missed(cs, c.pos, r)
  }

  /** Nothing applies before the position, and the comments up to there are merged. */
  ghost predicate LeftToRight(c: Config, forceLines: bool) {
    Idle(Cats(c.ss), c.pos, forceLines) && NoComments(Cats(c.ss), c.pos)
  }

  lemma StruckCats(c: Config, r: Rule, chosen: set<nat>)
    ensures Cats(Staying(c, r, chosen)) == Struck(Cats(c.ss), c.pos, r, chosen)
  {
  }

  lemma RoundIsStep(c: Config, chosen: set<nat>, forceLines: bool)
    requires Wf(c) && c.pos < |c.ss|
    ensures var cs, r := Cats(c.ss), RuleAt(c, forceLines);
            && r == RoundAt(cs, c.pos, forceLines) && Inside(cs, c.pos, r)
            && var c' := Step(c, chosen, forceLines);
               (Cats(c'.ss), c'.pos) == RoundOn(cs, c.pos, r, chosen)
  {
    hide Match, RuleOK, Folded, Struck, Staying, Replace, Made, Apply, Cats;
    var r := RuleAt(c, forceLines);
    RuleFits(c, forceLines);
    if r.NoRule? {
      NoRuleStays(c, chosen);
    } else {
      ApplyIs(c, r, chosen);
      StruckCats(c, r, chosen);
      var at := c.pos + r.j;
      ReplacedCats(Staying(c, r, chosen), at, at + r.k, Made(c, r, chosen));
    }
  }

  /** One round of the parser from left to right. */
  lemma StepLeftToRight(c: Config, chosen: set<nat>, forceLines: bool)
    requires Wf(c) && c.pos < |c.ss| && LeftToRight(c, forceLines)
    ensures LeftToRight(Step(c, chosen, forceLines), forceLines) <==> !MissedNow(c, forceLines)
  {
    hide Step, RuleAt, Idle, NoComments, Missed, RoundOn, Inside, Cats, RoundAt;
    LiveCats(c);
    RoundIsStep(c, chosen, forceLines);
    RescanExactly(Cats(c.ss), c.pos, chosen, forceLines);
  }

  lemma LiveCats(c: Config)
    requires Wf(c)
    ensures ZERO !in Cats(c.ss) && |Cats(c.ss)| == |c.ss|
  {
  }

  /**
    The parser works from left to right as long as it misses nothing: at every point of a run no
    production of the table applies before the position, so that the next one to be carried out is
    the one furthest to the left.
   */
  lemma {:induction false} RunLeftToRight(c: Config, choices: seq<set<nat>>, forceLines: bool)
    requires Wf(c) && c.pos == 0
    requires forall i :: 0 <= i < |choices| ==> !MissedNow(Run(c, choices[..i], forceLines), forceLines)
    ensures LeftToRight(Run(c, choices, forceLines), forceLines)
    decreases |choices|
  {
    hide Step, MissedNow;
    if choices != [] {
      var last := |choices| - 1;
      forall i | 0 <= i < last
        ensures !MissedNow(Run(c, choices[..last][..i], forceLines), forceLines)
      {
        assert choices[..last][..i] == choices[..i];
      }
      RunLeftToRight(c, choices[..last], forceLines);
      var m := Run(c, choices[..last], forceLines);
      assert !MissedNow(m, forceLines);
      if m.pos < |m.ss| {
        hide LeftToRight;
        StepLeftToRight(m, choices[last], forceLines);
      }
    }
  }

  /**
    `typedef struct s;`: after production 45 the parser stands in front of the declarator, so that it
    takes the semicolon with production 39, and production 43, which has come to apply, is missed.
   */
  lemma TypedefStruct(forceLines: bool)
    ensures var cs := [TYPEDEF_LIKE, STRUCT_LIKE, EXP, SEMI];
            && SwitchAt(cs, 0, forceLines).NoRule? && RoundAt(cs, 1, forceLines).n == 45
            && Missed(cs, 1, RoundAt(cs, 1, forceLines))
    ensures var cs := [TYPEDEF_LIKE, DECL_HEAD, SEMI];
            && RoundAt(cs, 0, forceLines).n == 43 && RoundAt(cs, 1, forceLines).n == 39
  {
  }
}
