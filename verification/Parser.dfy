/**
  The scrap parser of CWEAVE over scrap_info and its cursors. Each routine is proved against
  Rewriting.dfy, and `Translate` is proved to return a text whose full expansion is what some run
  of the rewriting system produces.
 */
module Parser {
  import opened Grammar
  import opened Rewriting
  import opened ParserTheorems
  import opened Survivors
  import opened TextMemory

  // ----- Scraps

  ghost predicate Offsets(p: Prog, limit: nat) {
    match p
    case End => true
    case Sc(i, rest) => i < limit && Offsets(rest, limit)
    case Big(_, rest) => Offsets(rest, limit)
    case Raw(_, rest) => Offsets(rest, limit)
    case MathOn(rest) => Offsets(rest, limit)
    case Reserve(i, rest) => Offsets(rest, limit)
  }

  lemma {:induction false} OrderedOffsets(p: Prog, lo: nat, hi: nat)
    requires NextScrap(p, lo) == hi
    ensures Offsets(p, hi) && lo <= hi
    decreases p
  {
    match p
    case End =>
    case Sc(i, rest) => OrderedOffsets(rest, lo + 1, hi);
    case Big(_, rest) => OrderedOffsets(rest, lo, hi);
    case Raw(_, rest) => OrderedOffsets(rest, lo, hi);
    case Reserve(_, rest) => OrderedOffsets(rest, lo, hi);
  }

  function ConvAll(cells: seq<Cell>, body: seq<seq<Piece>>): (ss: seq<Scrap>)
    ensures |ss| == |cells|
    ensures forall i :: 0 <= i < |cells| ==> ss[i] == Conv(cells[i], body)
  {
    seq(|cells|, i requires 0 <= i < |cells| => Conv(cells[i], body))
  }

  predicate CellsOK(cells: seq<Cell>, texts: nat) {
    forall i :: 0 <= i < |cells| ==> cells[i].trans < texts && cells[i].cat != ZERO
  }

  /** Replacing cells amounts to replacing scraps, with one more text. */
  lemma ConvReplace(cells: seq<Cell>, lo: nat, hi: nat, c: Cell, body: seq<seq<Piece>>,
                    x: seq<Piece>)
    requires lo <= hi <= |cells| && CellsOK(cells, |body|) && c.trans == |body|
    ensures ConvAll(cells[..lo] + [c] + cells[hi..], body + [x]) ==
            Replace(ConvAll(cells, body), lo, hi, Scrap(c.cat, c.init, c.end, x))
    ensures c.cat != ZERO ==> CellsOK(cells[..lo] + [c] + cells[hi..], |body| + 1)
  {
  }

  lemma CutCells(cells: seq<Cell>, a: nat, k: nat, c: Cell)
    requires k >= 1 && a + k <= |cells|
    ensures cells[a := c][..a + 1] + cells[a := c][a + k..] == cells[..a] + [c] + cells[a + k..]
  {
  }

  lemma ConvRecat(cells: seq<Cell>, at: nat, cat: Cat, body: seq<seq<Piece>>)
    requires at < |cells|
    ensures ConvAll(cells[at := cells[at].(cat := cat)], body) ==
            Replace(ConvAll(cells, body), at, at + 1, ConvAll(cells, body)[at].(cat := cat))
  {
  }

  /**
    The sweep of make_reserved over the scraps from `i` on: each exp scrap whose text starts with
    the token becomes raw_int, and that token becomes a reserved word at once.
   */
  function Sweep(cells: seq<Cell>, i: nat, toks: seq<Token>, starts: seq<nat>, ident: Token)
    : (r: (seq<Cell>, seq<Token>))
    requires ident.Ident? || ident.Res?
    ensures |r.0| == |cells| && |r.1| == |toks|
    decreases |cells| - i
  {
    if i >= |cells| then (cells, toks)
    else if Matches(cells[i], toks, starts, ident) then
      Sweep(cells[i := cells[i].(cat := RAW_INT)], i + 1,
            toks[starts[cells[i].trans] := Res(ident.name)], starts, ident)
    else Sweep(cells, i + 1, toks, starts, ident)
  }

  predicate Matches(c: Cell, toks: seq<Token>, starts: seq<nat>, ident: Token) {
    && c.cat == EXP && c.trans < |starts| && starts[c.trans] < |toks|
    && toks[starts[c.trans]] == ident
  }

  /**
    The sweep changes scrap a: its text starts with the token, and no earlier scrap of the sweep
    whose text starts at the same place has already changed the token there.
   */
  predicate Struck(cells: seq<Cell>, i: nat, toks: seq<Token>, starts: seq<nat>, ident: Token,
                   a: nat)
    requires a < |cells|
  {
    && i <= a && Matches(cells[a], toks, starts, ident)
    && (ident.Res? ||
        forall b :: i <= b < a && Matches(cells[b], toks, starts, ident) ==>
          starts[cells[b].trans] != starts[cells[a].trans])
  }

  /** A text that starts with the token starts at x. */
  predicate Met(cells: seq<Cell>, i: nat, toks: seq<Token>, starts: seq<nat>, ident: Token, x: nat) {
    exists a :: i <= a < |cells| && Matches(cells[a], toks, starts, ident) &&
                starts[cells[a].trans] == x
  }

  lemma MetNext(cells: seq<Cell>, i: nat, toks: seq<Token>, starts: seq<nat>, ident: Token, x: nat)
    requires i < |cells|
    ensures Met(cells, i, toks, starts, ident, x) <==>
            Met(cells, i + 1, toks, starts, ident, x) ||
            (Matches(cells[i], toks, starts, ident) && starts[cells[i].trans] == x)
  {
  }

  /** Exactly which scraps and which tokens a sweep changes. */
  lemma {:induction false} SweepExactly(cells: seq<Cell>, i: nat, toks: seq<Token>,
                                        starts: seq<nat>, ident: Token)
    requires ident.Ident? || ident.Res?
    ensures var (cells', toks') := Sweep(cells, i, toks, starts, ident);
            && |cells'| == |cells| && |toks'| == |toks|
            && (forall a :: 0 <= a < |cells| ==>
                  cells'[a] == if Struck(cells, i, toks, starts, ident, a)
                               then cells[a].(cat := RAW_INT) else cells[a])
            && (forall x :: 0 <= x < |toks| ==>
                  toks'[x] == if Met(cells, i, toks, starts, ident, x) then Res(ident.name)
                              else toks[x])
    decreases |cells| - i
  {
    if i < |cells| {
      if Matches(cells[i], toks, starts, ident) {
        SweepHit(cells, i, toks, starts, ident);
      } else {
        SweepExactly(cells, i + 1, toks, starts, ident);
        forall x | 0 <= x < |toks|
          ensures Met(cells, i, toks, starts, ident, x) ==
                  Met(cells, i + 1, toks, starts, ident, x)
        {
          MetNext(cells, i, toks, starts, ident, x);
        }
      }
    }
  }

  lemma {:induction false} SweepHit(cells: seq<Cell>, i: nat, toks: seq<Token>, starts: seq<nat>,
                                    ident: Token)
    requires ident.Ident? || ident.Res?
    requires i < |cells| && Matches(cells[i], toks, starts, ident)
    ensures var (cells', toks') := Sweep(cells, i, toks, starts, ident);
            && |cells'| == |cells| && |toks'| == |toks|
            && (forall a :: 0 <= a < |cells| ==>
                  cells'[a] == if Struck(cells, i, toks, starts, ident, a)
                               then cells[a].(cat := RAW_INT) else cells[a])
            && (forall x :: 0 <= x < |toks| ==>
                  toks'[x] == if Met(cells, i, toks, starts, ident, x) then Res(ident.name)
                              else toks[x])
    decreases |cells| - i, 0
  {
    var at := starts[cells[i].trans];
    var cells1, toks1 := cells[i := cells[i].(cat := RAW_INT)], toks[at := Res(ident.name)];
    SweepExactly(cells1, i + 1, toks1, starts, ident);
    forall a | i < a < |cells|
      ensures Struck(cells1, i + 1, toks1, starts, ident, a) ==
              Struck(cells, i, toks, starts, ident, a)
    {
      assert forall b :: i < b <= a ==> cells1[b] == cells[b];
      assert forall b :: i < b <= a ==>
          (Matches(cells[b], toks1, starts, ident) <==>
           Matches(cells[b], toks, starts, ident) &&
           (ident.Res? || starts[cells[b].trans] != at));
    }
    forall x | 0 <= x < |toks|
      ensures Met(cells, i, toks, starts, ident, x) ==
              (x == at || Met(cells1, i + 1, toks1, starts, ident, x))
    {
      MetNext(cells, i, toks, starts, ident, x);
      if x != at {
        MetElsewhere(cells, i, toks, starts, ident, x);
      }
    }
  }

  lemma MetElsewhere(cells: seq<Cell>, i: nat, toks: seq<Token>, starts: seq<nat>, ident: Token,
                     x: nat)
    requires ident.Ident? || ident.Res?
    requires i < |cells| && Matches(cells[i], toks, starts, ident) && x != starts[cells[i].trans]
    ensures var cells1 := cells[i := cells[i].(cat := RAW_INT)];
            var toks1 := toks[starts[cells[i].trans] := Res(ident.name)];
            Met(cells1, i + 1, toks1, starts, ident, x) == Met(cells, i + 1, toks, starts, ident, x)
  {
    var cells1 := cells[i := cells[i].(cat := RAW_INT)];
    var toks1 := toks[starts[cells[i].trans] := Res(ident.name)];
    if a :| i + 1 <= a < |cells| && Matches(cells[a], toks, starts, ident) &&
            starts[cells[a].trans] == x {
      assert Matches(cells1[a], toks1, starts, ident);
    }
    if a :| i + 1 <= a < |cells| && Matches(cells1[a], toks1, starts, ident) &&
            starts[cells1[a].trans] == x {
      assert Matches(cells[a], toks, starts, ident);
    }
  }

  /** What a sweep changes: categories from exp to raw_int, and copies of one token. */
  lemma SweepShape(cells: seq<Cell>, i: nat, toks: seq<Token>, starts: seq<nat>, ident: Token)
    requires ident.Ident? || ident.Res?
    ensures var (cells', toks') := Sweep(cells, i, toks, starts, ident);
            && |cells'| == |cells| && |toks'| == |toks|
            && (forall a :: 0 <= a < |cells| ==>
                  cells'[a] == cells[a] ||
                  (i <= a && cells[a].cat == EXP && cells'[a] == cells[a].(cat := RAW_INT)))
            && (forall x :: 0 <= x < |toks| ==>
                  toks'[x] == toks[x] || (toks[x] == ident && toks'[x] == Res(ident.name)))
  {
    hide Sweep;
    SweepExactly(cells, i, toks, starts, ident);
  }

  /** What make_reserved is meant to change: the exp scraps whose own text starts with the token. */
  predicate Wanted(c: Cell, toks: seq<Token>, starts: seq<nat>, ident: Token) {
    Matches(c, toks, starts, ident) && HasText(c, starts)
  }

  predicate HasText(c: Cell, starts: seq<nat>) {
    c.trans + 1 < |starts| && starts[c.trans] < starts[c.trans + 1]
  }

  predicate Rising(starts: seq<nat>) {
    forall t, u :: 0 <= t <= u < |starts| ==> starts[t] <= starts[u]
  }

  /** The scraps whose texts start with the token come in the order of their texts. */
  predicate InTextOrder(cells: seq<Cell>, i: nat, toks: seq<Token>, starts: seq<nat>, ident: Token) {
    forall a, b :: i <= a < b < |cells| &&
                   Matches(cells[a], toks, starts, ident) && Matches(cells[b], toks, starts, ident) ==>
      cells[a].trans < cells[b].trans
  }

  /**
    Exactly the scraps from i on whose own text starts with the token were changed, if and only if
    none of them is an exp with an empty text where the token follows.
   */
  predicate Meets(cells: seq<Cell>, i: nat, toks: seq<Token>, starts: seq<nat>, ident: Token,
                  cells': seq<Cell>)
    requires |cells'| == |cells|
  {
    (forall a :: 0 <= a < |cells| ==>
       cells'[a] == if i <= a && Wanted(cells[a], toks, starts, ident)
                    then cells[a].(cat := RAW_INT) else cells[a]) <==>
    forall a :: i <= a < |cells| && Matches(cells[a], toks, starts, ident) ==>
      HasText(cells[a], starts)
  }

  /** Scraps with original texts stand in the order of these. */
  predicate InOrder(cells: seq<Cell>, base: nat) {
    forall a, b :: 0 <= a < b < |cells| && cells[a].trans < base && cells[b].trans < base ==>
      cells[a].trans < cells[b].trans
  }

  lemma OrderReplace(cells: seq<Cell>, lo: nat, hi: nat, c: Cell, base: nat)
    requires lo <= hi <= |cells| && InOrder(cells, base) && c.trans >= base
    ensures InOrder(cells[..lo] + [c] + cells[hi..], base)
  {
  }

  lemma OrderRecat(cells: seq<Cell>, cells': seq<Cell>, base: nat)
    requires InOrder(cells, base) && |cells'| == |cells|
    requires forall a :: 0 <= a < |cells| ==> cells'[a].trans == cells[a].trans
    ensures InOrder(cells', base)
  {
  }

  lemma StartsRise(toks: seq<Token>, starts: seq<nat>, body: seq<seq<Piece>>, base: nat)
    requires Expansions(toks, starts, body, base)
    ensures Rising(starts)
  {
    hide Expansions;
    forall t: nat, u: nat | t <= u < |starts|
      ensures starts[t] <= starts[u]
    {
      StartsShape(toks, starts, body, base);
      StartsMonotone(toks, starts, body, base, t, u);
    }
  }

  lemma StartsShape(toks: seq<Token>, starts: seq<nat>, body: seq<seq<Piece>>, base: nat)
    requires Expansions(toks, starts, body, base)
    ensures |starts| == |body| + 1 && base <= |body| && starts[|body|] <= |toks|
  {
  }

  /** Only original texts start with an identifier, and their scraps are in order. */
  lemma OrderMatches(cells: seq<Cell>, at: nat, toks: seq<Token>, n: nat, starts: seq<nat>,
                     body: seq<seq<Piece>>, base: nat, ident: Token)
    requires n <= |toks| && Expansions(toks[..n], starts, body, base)
    requires InOrder(cells, base) && Filled(starts, base) && CellsOK(cells, |body|)
    requires ident.Ident? || ident.Res?
    ensures InTextOrder(cells, at, toks, starts, ident)
  {
    hide Expansions, Filled, Matches;
    forall a | at <= a < |cells| && cells[a].trans >= base
      ensures !Matches(cells[a], toks, starts, ident)
    {
      NewTextDiffers(cells[a], toks, n, starts, body, base, ident);
    }
  }

  lemma NewTextDiffers(c: Cell, toks: seq<Token>, n: nat, starts: seq<nat>, body: seq<seq<Piece>>,
                       base: nat, ident: Token)
    requires n <= |toks| && Expansions(toks[..n], starts, body, base)
    requires Filled(starts, base) && base <= c.trans < |body| && (ident.Ident? || ident.Res?)
    ensures !Matches(c, toks, starts, ident)
  {
    StartsShape(toks[..n], starts, body, base);
    hide Expansions;
    StartsMonotone(toks[..n], starts, body, base, base, c.trans);
    StartsMonotone(toks[..n], starts, body, base, c.trans + 1, |body|);
    NoIdentifiers(toks[..n], starts, body, base, starts[c.trans]);
    assert toks[..n][starts[c.trans]] == toks[starts[c.trans]];
  }

  lemma TransBelow(cells: seq<Cell>, texts: nat)
    requires CellsOK(cells, texts)
    ensures forall a :: 0 <= a < |cells| ==> cells[a].trans < texts
  {
  }

  lemma FilledMore(starts: seq<nat>, base: nat, next: nat)
    requires starts != [] && Filled(starts, base) && starts[|starts| - 1] < next
    ensures Filled(starts + [next], base)
  {
  }

  /**
    The sweep changes exactly the scraps whose own text starts with the token, if and only if no
    scrap from the first one on is an exp with an empty text where the token follows.
   */
  lemma SweepMeets(cells: seq<Cell>, i: nat, toks: seq<Token>, starts: seq<nat>, ident: Token)
    requires ident.Ident? || ident.Res?
    requires Rising(starts) && InTextOrder(cells, i, toks, starts, ident)
    requires forall a :: i <= a < |cells| ==> cells[a].trans + 1 < |starts|
    ensures Meets(cells, i, toks, starts, ident, Sweep(cells, i, toks, starts, ident).0)
  {
    hide Sweep;
    SweepExactly(cells, i, toks, starts, ident);
    if a :| i <= a < |cells| && Matches(cells[a], toks, starts, ident) && !HasText(cells[a], starts) {
      FirstEmpty(cells, i, toks, starts, ident, a);
    }
  }

  lemma {:induction false} FirstEmpty(cells: seq<Cell>, i: nat, toks: seq<Token>, starts: seq<nat>,
                                      ident: Token, a: nat)
    requires Rising(starts) && InTextOrder(cells, i, toks, starts, ident)
    requires forall b :: i <= b < |cells| ==> cells[b].trans + 1 < |starts|
    requires i <= a < |cells| && Matches(cells[a], toks, starts, ident) && !HasText(cells[a], starts)
    ensures exists b :: i <= b < |cells| && Struck(cells, i, toks, starts, ident, b) &&
                        !HasText(cells[b], starts)
    decreases a
  {
    if !Struck(cells, i, toks, starts, ident, a) {
      var b :| i <= b < a && Matches(cells[b], toks, starts, ident) &&
               starts[cells[b].trans] == starts[cells[a].trans];
      FirstEmpty(cells, i, toks, starts, ident, b);
    }
  }

  /**
    Where it fails: the scraps of `x @<...@> x`, with x to be reserved. The second scrap of a
    section name has an empty text, so it is taken for x, and x itself is passed over.
   */
  lemma EmptyTextTaken(x: nat, section: nat)
    ensures var cells := [Cell(EXP, 1, Yes, Yes), Cell(SECTION_SCRAP, 2, Maybe, Maybe),
                          Cell(EXP, 3, Yes, Yes), Cell(EXP, 4, Maybe, Maybe)];
            var toks := [Ident(x), Sec(section), Ident(x)];
            var (cells', toks') := Sweep(cells, 0, toks, [0, 0, 1, 2, 2, 3], Ident(x));
            && cells'[2].cat == RAW_INT && cells'[3].cat == EXP
            && toks' == [Res(x), Sec(section), Res(x)]
  {
    var cells := [Cell(EXP, 1, Yes, Yes), Cell(SECTION_SCRAP, 2, Maybe, Maybe),
                  Cell(EXP, 3, Yes, Yes), Cell(EXP, 4, Maybe, Maybe)];
    var toks := [Ident(x), Sec(section), Ident(x)];
    var starts: seq<nat> := [0, 0, 1, 2, 2, 3];
    hide Sweep;
    SweepExactly(cells, 0, toks, starts, Ident(x));
    assert Matches(cells[0], toks, starts, Ident(x)) && Matches(cells[2], toks, starts, Ident(x));
    assert !Matches(cells[1], toks, starts, Ident(x));
    assert !Struck(cells, 0, toks, starts, Ident(x), 3);
  }

  /** Copies of one identifier may have become reserved words. */
  ghost predicate Reworded(toks: seq<Token>, toks': seq<Token>, ident: Token) {
    && (ident.Ident? || ident.Res?) && |toks'| == |toks|
    && forall x :: 0 <= x < |toks| ==>
         toks'[x] == toks[x] || (toks[x] == ident && toks'[x] == Res(ident.name))
  }

  lemma RewordedMemory(toks: seq<Token>, toks': seq<Token>, n: nat, ident: Token,
                       starts: seq<nat>, body: seq<seq<Piece>>, base: nat)
    requires Reworded(toks, toks', ident) && n <= |toks|
    requires Expansions(toks[..n], starts, body, base)
    ensures Expansions(toks'[..n], starts, body, base) && Kept(toks[..n], toks'[..n])
    ensures toks'[..n][starts[|body|]..] == toks[..n][starts[|body|]..]
  {
    hide TextOK, Expand, RefersBelow;
    forall i | starts[base] <= i < n
      ensures toks'[i] == toks[i]
    {
      NoIdentifiers(toks[..n], starts, body, base, i);
    }
    PatchOriginals(toks[..n], toks'[..n], starts, body, base);
  }

  /** Scrap and token memory after make_reserved found its identifier at `loc`. */
  function AfterSweep(cells: seq<Cell>, at: nat, toks: seq<Token>, starts: seq<nat>, loc: nat)
    : (seq<Cell>, seq<Token>)
    requires loc < |toks| && (toks[loc].Ident? || toks[loc].Res?)
  {
    SweepShape(cells, at, toks, starts, toks[loc]);
    var (cells', toks') := Sweep(cells, at, toks, starts, toks[loc]);
    (cells', toks'[loc := Res(toks[loc].name)])
  }

  /**
    What make_reserved leaves behind for a scrap with text t. Without an identifier in the text
    everything stays. Otherwise exactly the scraps that are struck become raw_int, and exactly the
    token that was found and the copies of it that start an exp scrap become reserved words.
   */
  ghost predicate ReserveOutcome(cells: seq<Cell>, at: nat, toks: seq<Token>, n: nat,
                                 starts: seq<nat>, t: nat, cells': seq<Cell>, toks': seq<Token>)
    requires n <= |toks|
  {
    && AllSliced(toks[..n], starts, t + 1) && starts[t] <= starts[t + 1]
    && |cells'| == |cells| && |toks'| == |toks|
    && match FirstIdent(toks[..n], starts, t, starts[t])
       case Nowhere => cells' == cells && toks' == toks
       case At(loc) =>
         var ident := toks[loc];
         && (forall a :: 0 <= a < |cells| ==>
               cells'[a] == if Struck(cells, at, toks, starts, ident, a)
                            then cells[a].(cat := RAW_INT) else cells[a])
         && (forall x :: 0 <= x < |toks| ==>
               toks'[x] == if x == loc || Met(cells, at, toks, starts, ident, x)
                           then Res(ident.name) else toks[x])
         && Meets(cells, at, toks, starts, ident, cells')
  }

  lemma AfterSweepOutcome(cells: seq<Cell>, at: nat, toks: seq<Token>, n: nat, starts: seq<nat>,
                          t: nat, loc: nat)
    requires n <= |toks| && loc < |toks| && (toks[loc].Ident? || toks[loc].Res?)
    requires AllSliced(toks[..n], starts, t + 1) && starts[t] <= starts[t + 1]
    requires FirstIdent(toks[..n], starts, t, starts[t]) == At(loc)
    requires Rising(starts) && InTextOrder(cells, at, toks, starts, toks[loc])
    requires forall a :: 0 <= a < |cells| ==> cells[a].trans + 1 < |starts|
    ensures var (cells', toks') := AfterSweep(cells, at, toks, starts, loc);
            ReserveOutcome(cells, at, toks, n, starts, t, cells', toks')
  {
    hide Sweep, FirstIdent, Struck, Met, Meets, Rising, InTextOrder;
    SweepExactly(cells, at, toks, starts, toks[loc]);
    SweepMeets(cells, at, toks, starts, toks[loc]);
  }

  lemma ReserveShape(cells: seq<Cell>, at: nat, toks: seq<Token>, starts: seq<nat>, loc: nat,
                     body: seq<seq<Piece>>) returns (chosen: set<nat>)
    requires loc < |toks| && (toks[loc].Ident? || toks[loc].Res?)
    ensures var (cells', toks') := AfterSweep(cells, at, toks, starts, loc);
            && Reworded(toks, toks', toks[loc])
            && ConvAll(cells', body) == Reserved(ConvAll(cells, body), at, chosen)
            && |cells'| == |cells|
            && (forall n :: CellsOK(cells, n) ==> CellsOK(cells', n))
            && forall a :: 0 <= a < |cells| ==> cells'[a].trans == cells[a].trans
  {
    hide Sweep;
    SweepShape(cells, at, toks, starts, toks[loc]);
    var (cells', toks') := AfterSweep(cells, at, toks, starts, loc);
    chosen := set a: nat | a < |cells| && cells'[a] != cells[a];
    SweepReserves(cells, cells', at, body, chosen);
  }

  lemma SweepReserves(cells: seq<Cell>, cells': seq<Cell>, at: nat, body: seq<seq<Piece>>,
                      chosen: set<nat>)
    requires |cells'| == |cells|
    requires forall a :: 0 <= a < |cells| ==>
               cells'[a] == cells[a] ||
               (at <= a && cells[a].cat == EXP && cells'[a] == cells[a].(cat := RAW_INT))
    requires chosen == set a: nat | a < |cells| && cells'[a] != cells[a]
    ensures ConvAll(cells', body) == Reserved(ConvAll(cells, body), at, chosen)
  {
  }

  /** Live scraps, then unread ones. */
  function CellsOf(a: seq<Cell>, lo: int, mid: int, mid': int, hi: int): (r: seq<Cell>)
    requires 0 <= lo <= mid <= mid' <= hi <= |a|
    ensures |r| == mid - lo + hi - mid'
  {
    a[lo..mid] + a[mid'..hi]
  }

  lemma GapClosed(a: seq<Cell>, a': seq<Cell>, lo: int, mid: int, mid': int, hi: int, j: int, k: int)
    requires 0 <= lo <= j && k >= 1 && j + k <= mid <= mid' <= hi <= |a| == |a'|
    requires a'[..mid - k + 1] == a[..j + 1] + a[j + k..mid]
    requires a'[mid..] == a[mid..]
    ensures CellsOf(a', lo, mid - k + 1, mid', hi) ==
            CellsOf(a, lo, mid, mid', hi)[..j - lo + 1] + CellsOf(a, lo, mid, mid', hi)[j - lo + k..]
  {
    assert a'[lo..mid - k + 1] == a'[..mid - k + 1][lo..];
    assert a'[lo..mid - k + 1] == a[lo..j + 1] + a[j + k..mid];
    SameSlice(a, a', mid, mid', hi);
  }

  lemma SameSlice(a: seq<Cell>, a': seq<Cell>, m: int, x: int, y: int)
    requires 0 <= m <= x <= y <= |a| == |a'| && a'[m..] == a[m..]
    ensures a'[x..y] == a[x..y]
  {
    forall i | x <= i < y
      ensures a'[i] == a[i]
    {
      assert a'[i] == a'[m..][i - m] && a[i] == a[m..][i - m];
    }
  }

  lemma LiveCell(a: seq<Cell>, lo: int, mid: int, mid': int, hi: int, x: int)
    requires 0 <= lo <= x < mid <= mid' <= hi <= |a|
    ensures CellsOf(a, lo, mid, mid', hi)[x - lo] == a[x]
  {
  }

  lemma UnreadCell(a: seq<Cell>, lo: int, mid: int, mid': int, hi: int, x: int)
    requires 0 <= lo <= mid <= mid' <= x < hi <= |a|
    ensures CellsOf(a, lo, mid, mid', hi)[mid - lo + x - mid'] == a[x]
  {
  }

  lemma UnreadCellSet(a: seq<Cell>, lo: int, mid: int, mid': int, hi: int, j: int, c: Cell)
    requires 0 <= lo <= mid <= mid' <= j < hi <= |a|
    ensures CellsOf(a[j := c], lo, mid, mid', hi) ==
            CellsOf(a, lo, mid, mid', hi)[mid - lo + j - mid' := c]
  {
  }

  lemma LoadOne(a: seq<Cell>, lo: int, mid: int, mid': int, hi: int)
    requires 0 <= lo <= mid <= mid' < hi <= |a|
    ensures CellsOf(a[mid := a[mid']], lo, mid + 1, mid' + 1, hi) == CellsOf(a, lo, mid, mid', hi)
  {
  }

  lemma PadOne(a: seq<Cell>, lo: int, mid: int, hi: int, j: int, c: Cell)
    requires 0 <= lo <= mid <= hi <= |a| && mid <= j < |a|
    ensures CellsOf(a[j := c], lo, mid, hi, hi) == CellsOf(a, lo, mid, hi, hi)
  {
  }

  lemma CellSet(a: seq<Cell>, lo: int, mid: int, mid': int, hi: int, j: int, c: Cell)
    requires 0 <= lo <= j < mid <= mid' <= hi <= |a|
    ensures CellsOf(a[j := c], lo, mid, mid', hi) == CellsOf(a, lo, mid, mid', hi)[j - lo := c]
  {
  }

  lemma AllUnread(a: seq<Cell>, lo: int, hi: int)
    requires 0 <= lo <= hi <= |a|
    ensures CellsOf(a, lo, lo, lo, hi) == a[lo..hi]
  {
  }

  lemma LiveScraps(cells: seq<Cell>, texts: nat, body: seq<seq<Piece>>)
    requires CellsOK(cells, texts)
    ensures Live(ConvAll(cells, body))
  {
  }

  lemma RunNone(c: Config, forceLines: bool)
    requires Wf(c)
    ensures Run(c, [], forceLines) == c
  {
  }

  lemma RunMore(c: Config, choices: seq<set<nat>>, chosen: set<nat>, forceLines: bool)
    requires Wf(c)
    ensures Run(c, choices + [chosen], forceLines) ==
            var m := Run(c, choices, forceLines);
            if m.pos < |m.ss| then Step(m, chosen, forceLines) else m
  {
    hide Step;
    assert (choices + [chosen])[..|choices|] == choices;
  }

  lemma KeptBoth(a: seq<Token>, b: seq<Token>, c: seq<Token>, n: nat)
    requires n == |a| <= |b| == |c| && Kept(a, b[..n]) && Kept(b, c)
    ensures Kept(a, c[..n])
  {
  }

  /**
    What readers of a translation rely on. It is in math mode where its pieces need it. Of
    distinct original texts it holds all, in order, but those of the scraps that productions 84
    and 85 replaced. Texts that no `<` or `>` scrap holds are all there if and only if those
    scraps came in as they were, as they always do when no insert stands directly behind a `<` or
    `>`, nor at the front with one behind it.
   */
  ghost predicate Promised(c: Config, choices: seq<set<nat>>, forceLines: bool, text: seq<Piece>)
    requires Wf(c)
  {
    var gone := Discarded(c, choices, forceLines);
    && (forall tag: nat -> Tag :: Fresh(c, tag) ==> Walk(text, tag, No) == No)
    && multiset(Yield(c.ss)) == multiset(Leaves(text)) + multiset(Yield(gone))
    && (Distinct(Yield(c.ss)) ==> Leaves(text) == Without(Yield(c.ss), Yield(gone)))
    && (Marked(c.ss) ==> (Others(Leaves(text), c.ss) == Others(Yield(c.ss), c.ss) <==>
                          forall s :: s in gone ==> s in c.ss))
    && (c.pos == 0 && Clear(Kinds(c.ss)) ==>
          Others(Leaves(text), c.ss) == Others(Yield(c.ss), c.ss))
  }

  lemma RunKeepsPromise(c: Config, choices: seq<set<nat>>, forceLines: bool)
    requires Wf(c)
    ensures Promised(c, choices, forceLines, FinalText(Run(c, choices, forceLines).ss))
  {
    hide Run, FinalText, Walk, Leaves, Yield, Discarded, Distinct, Without, Marked, Clear, Others,
         Fresh;
    forall tag: nat -> Tag | Fresh(c, tag)
      ensures Walk(FinalText(Run(c, choices, forceLines).ss), tag, No) == No
    {
      TranslationSound(c, choices, forceLines, tag);
    }
    FinalYield(Run(c, choices, forceLines).ss);
    RunConserves(c, choices, forceLines);
    if Distinct(Yield(c.ss)) {
      RunLoses(c, choices, forceLines);
    }
    if Marked(c.ss) {
      OthersSurvive(c, choices, forceLines);
    }
    if c.pos == 0 && Clear(Kinds(c.ss)) {
      ClearSurvive(c, choices, forceLines);
    }
  }

  lemma FinalTextEmpty()
    ensures FinalText([]) == []
  {
  }

  lemma FinalPieceParts(out: seq<Piece>, s: Scrap, first: bool)
    ensures out + FinalPiece(s, first) ==
            out + (if !first then [Tok(Char(' '), false)] else []) +
            (if s.init.Yes? then [Tok(Char('$'), false)] else []) + s.body +
            (if s.end.Yes? then [Tok(Char('$'), false)] else [])
  {
  }

  lemma FinalTextMore(ss: seq<Scrap>, i: nat)
    requires i < |ss|
    ensures FinalText(ss[..i + 1]) == FinalText(ss[..i]) + FinalPiece(ss[i], i == 0)
  {
    assert ss[..i + 1][..i] == ss[..i];
  }

  /** A production's program without the make_reserved in front. */
  function Appends(p: Prog): Prog {
    if p.Reserve? then p.rest else p
  }

  /** The program appends something. */
  predicate Appending(p: Prog) {
    match p
    case End => false
    case Sc(_, _) => true
    case Big(_, _) => true
    case Raw(_, _) => true
    case MathOn(rest) => Appending(rest)
    case Reserve(_, rest) => Appending(rest)
  }

  lemma {:induction false} ScrapsAppend(p: Prog, lo: nat, hi: nat)
    requires NextScrap(p, lo) == hi && lo < hi
    ensures Appending(p)
    decreases p
  {
    if p.Reserve? {
      ScrapsAppend(p.rest, lo, hi);
    }
  }

  lemma ProductionParts(r: Rule, ss: seq<Scrap>, at: nat)
    requires r.Reduce? && r.k >= 1 && if Discards(r) then DropsText(r) else ProgOK(r)
    ensures Appending(Appends(r.prog))
    ensures Offsets(Appends(r.prog), r.j + r.k) && NoReserve(Appends(r.prog))
    ensures Emit(Appends(r.prog), EMPTY_DRAFT, ss, at) == Emit(r.prog, EMPTY_DRAFT, ss, at)
    ensures r.prog.Reserve? ==> r.prog.i < r.j + r.k
  {
    if Discards(r) {
      assert Offsets(Raw(r.prog.rest.c, End), r.j + r.k) && NoReserve(Raw(r.prog.rest.c, End));
    } else {
      OrderedOffsets(r.prog, r.j, r.j + r.k);
      ScrapsAppend(r.prog, r.j, r.j + r.k);
    }
  }

  /** What a matched rule brings along, without the pattern match itself. */
  lemma RuleParts(r: Rule, c: Config, forceLines: bool)
    requires Wf(c) && c.pos < |c.ss| && r == RuleAt(c, forceLines)
    ensures !r.NoRule? ==> r.cat != ZERO && r.d <= 1
    ensures r.Reduce? ==> if Discards(r) then DropsText(r) else ProgOK(r)
  {
    hide Match, ProgOK;
    RuleFits(c, forceLines);
  }

  lemma KeptAll(toks: seq<Token>)
    ensures Kept(toks, toks)
  {
  }

  lemma LiveTrans(cells: seq<Cell>, i: nat, texts: nat)
    requires CellsOK(cells, texts) && i < |cells|
    ensures cells[i].trans < texts
  {
  }

  lemma NoneReserved(ss: seq<Scrap>, at: nat)
    ensures Reserved(ss, at, {}) == ss
  {
  }

  /** scrap_info with its cursors; live scraps, then unread ones. */
  class Weaver {
    const mem: Texts
    const scrap: array<Cell>
    var scrapBase: nat
    var scrapPtr: nat
    var pp: int
    var loPtr: int
    var hiPtr: int

    constructor (mem: Texts, scraps: nat)
      requires scraps >= 6
      ensures this.mem == mem && fresh(scrap) && scrap.Length == scraps
      ensures Window() && Cells() == [] && scrapBase == 1 && scrapPtr == 0
    {
      this.mem := mem;
      scrap := new Cell[scraps](_ => Cell(ZERO, 0, Maybe, Maybe));
      scrapBase, scrapPtr, pp, loPtr, hiPtr := 1, 0, 1, 0, 1;
    }

    ghost predicate Window()
      reads this
    {
      scrapBase - 1 <= loPtr < hiPtr <= scrapPtr + 1 && scrapPtr + 5 <= scrap.Length
    }

    ghost function Cells(): seq<Cell>
      requires Window()
      reads this, scrap
    {
      CellsOf(scrap[..], scrapBase, loPtr + 1, hiPtr, scrapPtr + 1)
    }

    ghost predicate Valid(texts: nat)
      reads this, scrap, mem`base, mem`textPtr, mem.start
    {
      && Window() && CellsOK(Cells(), texts) && InOrder(Cells(), mem.base)
      && mem.textPtr < mem.start.Length && Filled(mem.start[..mem.textPtr + 1], mem.base)
    }

    /** Change the value of pp as a production asks, one short of its new place. */
    method MoveBy(d: int)
      requires pp >= scrapBase
      modifies `pp
      ensures pp + 1 == scrapBase + Move(old(pp) - scrapBase, d)
    {
      if pp + d >= scrapBase {
        pp := pp + d;
      } else {
        pp := scrapBase;
      }
      pp := pp - 1;
    }

    /** The copying loop of reduce: scraps j+k..loPtr move down to j+1. */
    method ShiftDown(j: nat, k: nat)
      requires k >= 1 && j + k <= loPtr + 1 <= scrap.Length
      modifies scrap
      ensures scrap[..loPtr - k + 2] == old(scrap[..j + 1] + scrap[j + k..loPtr + 1])
      ensures scrap[loPtr + 1..] == old(scrap[loPtr + 1..])
    {
      ghost var was := scrap[..];
      var i, i1 := j + k, j + 1;
      while i <= loPtr
        invariant i1 == i - k + 1 && j + k <= i <= loPtr + 1
        invariant scrap[..i1] == was[..j + 1] + was[j + k..i]
        invariant scrap[i..] == was[i..]
      {
        assert scrap[i] == scrap[i..][0] && was[j + k..i + 1] == was[j + k..i] + [was[i]];
        assert scrap[i + 1..] == scrap[i..][1..] == was[i + 1..];
        scrap[i1] := scrap[i];
        assert scrap[i + 1..] == was[i + 1..];
        assert scrap[..i1 + 1] == scrap[..i1] + [was[i]];
        i, i1 := i + 1, i1 + 1;
      }
    }

    method CloseGap(j: nat, k: nat)
      requires Window() && scrapBase <= j && k >= 1 && j + k <= loPtr + 1
      modifies scrap, `loPtr
      ensures scrap[..scrapBase] == old(scrap[..scrapBase])
      ensures Window()
      ensures Cells() == old(Cells()[..j - scrapBase + 1] + Cells()[j - scrapBase + k..])
      ensures loPtr == old(loPtr) - k + 1
    {
      hide CellsOf;
      ghost var was := scrap[..];
      ghost var lo := loPtr;
      if k > 1 {
        ShiftDown(j, k);
        loPtr := loPtr - k + 1;
      }
      assert scrap[..][..lo - k + 2] == was[..j + 1] + was[j + k..lo + 1];
      assert scrap[..][lo + 1..] == was[lo + 1..];
      GapClosed(was, scrap[..], scrapBase, lo + 1, hiPtr, scrapPtr + 1, j, k);
    }

    /** One scrap in place of k: the part of reduce that works on scrap_info. */
    method PutScrap(j: nat, k: nat, cell: Cell)
      requires Window() && scrapBase <= j && k >= 1 && j + k <= loPtr + 1
      modifies scrap, `loPtr
      ensures scrap[..scrapBase] == old(scrap[..scrapBase])
      ensures Window()
      ensures Cells() == old(Cells()[..j - scrapBase] + [cell] + Cells()[j - scrapBase + k..])
      ensures loPtr == old(loPtr) - k + 1
    {
      hide CellsOf;
      ghost var was, cells := scrap[..], Cells();
      CellSet(was, scrapBase, loPtr + 1, hiPtr, scrapPtr + 1, j, cell);
      scrap[j] := cell;
      assert scrap[..] == was[j := cell];
      assert scrap[..scrapBase] == was[..scrapBase];
      assert Cells() == cells[j - scrapBase := cell];
      CloseGap(j, k);
      CutCells(cells, j - scrapBase, k, cell);
    }

    lemma BaseBelow()
      requires mem.Valid()
      ensures mem.base <= mem.textPtr && mem.start[mem.textPtr] <= mem.tokPtr
    {
    }

    method ReduceScraps(j: nat, k: nat, c: Cat, d: int)
      requires mem.Valid() && Valid(mem.textPtr) && mem.textPtr + 1 < mem.start.Length
      requires scrapBase <= j && k >= 1 && j + k <= loPtr + 1 && c != ZERO && pp >= scrapBase
      requires mem.start[mem.textPtr] < mem.tokPtr
      modifies mem.start, scrap, mem`textPtr, `loPtr, `pp, mem`body
      ensures scrap[..scrapBase] == old(scrap[..scrapBase])
      ensures mem.Valid() && Valid(mem.textPtr)
      ensures mem.body == old(mem.body) + [old(mem.Open())] && mem.Open() == []
      ensures ConvAll(Cells(), mem.body) ==
              Replace(old(ConvAll(Cells(), mem.body)), j - scrapBase, j - scrapBase + k,
                      Scrap(c, mem.initMath, mem.curMath, old(mem.Open())))
      ensures pp + 1 == scrapBase + Move(old(pp) - scrapBase, d)
      ensures loPtr == old(loPtr) - k + 1
    {
      hide Expansions, Expand, ConvAll, CellsOK, Replace, CellsOf, InOrder, Filled;
      var cell := Cell(c, mem.textPtr, mem.initMath, mem.curMath);
      BaseBelow();
      OrderReplace(Cells(), j - scrapBase, j - scrapBase + k, cell, mem.base);
      FilledMore(mem.start[..mem.textPtr + 1], mem.base, mem.tokPtr);
      ConvReplace(Cells(), j - scrapBase, j - scrapBase + k, cell, mem.body, mem.Open());
      PutScrap(j, k, cell);
      mem.Freeze();
      MoveBy(d);
    }

    method SquashScraps(j: nat, k: nat, c: Cat, d: int) returns (ok: bool)
      requires mem.Valid() && Valid(mem.textPtr) && mem.textPtr + 1 < mem.start.Length
      requires mem.Drafted() == EMPTY_DRAFT
      requires scrapBase <= j && k >= 1 && j + k <= loPtr + 1 && c != ZERO && pp >= scrapBase
      modifies mem, mem.tok, mem.start, scrap, `loPtr, `pp
      ensures scrap[..scrapBase] == old(scrap[..scrapBase])
      ensures mem.Valid() && mem.base == old(mem.base)
      ensures mem.tokPtr >= old(mem.tokPtr)
      ensures mem.tok[..old(mem.tokPtr)] == old(mem.tok[..mem.tokPtr])
      ensures !ok ==> mem.tokPtr == mem.tok.Length
      ensures ok ==> Valid(mem.textPtr) && mem.Open() == [] && old(mem.body) <= mem.body
      ensures ok ==> ConvAll(Cells(), mem.body) ==
                     var ss := old(ConvAll(Cells(), mem.body));
                     var lo := j - scrapBase;
                     Replace(ss, lo, lo + k, if k == 1 then ss[lo].(cat := c)
                                             else Merged(ss, lo, lo + k, c))
      ensures ok ==> pp + 1 == scrapBase + Move(old(pp) - scrapBase, d)
      ensures ok ==> loPtr == old(loPtr) - k + 1
    {
      hide Expansions, Expand, ConvAll, CellsOK, Replace, CellsOf, InOrder, Filled;
      BaseBelow();
      if k == 1 {
        RecatScrap(j, c);
        MoveBy(d);
        ok := true;
      } else {
        ok := SpreadScraps(j, k);
        if ok {
          ReduceScraps(j, k, c, d);
        }
      }
    }

    method RecatScrap(j: nat, c: Cat)
      requires mem.Valid() && Valid(mem.textPtr)
      requires scrapBase <= j <= loPtr && c != ZERO
      modifies scrap
      ensures scrap[..scrapBase] == old(scrap[..scrapBase])
      ensures Valid(mem.textPtr)
      ensures ConvAll(Cells(), mem.body) ==
              var ss := old(ConvAll(Cells(), mem.body));
              Replace(ss, j - scrapBase, j - scrapBase + 1, ss[j - scrapBase].(cat := c))
    {
      hide Expansions, Expand, Replace, ConvAll, CellsOf;
      ghost var was := Cells();
      LiveCell(scrap[..], scrapBase, loPtr + 1, hiPtr, scrapPtr + 1, j);
      CellSet(scrap[..], scrapBase, loPtr + 1, hiPtr, scrapPtr + 1, j, scrap[j].(cat := c));
      ConvRecat(was, j - scrapBase, c, mem.body);
      scrap[j] := scrap[j].(cat := c);
      assert scrap[..] == old(scrap[..])[j := old(scrap[j]).(cat := c)];
    }

    /** The loop of squash. */
    method SpreadScraps(j: nat, k: nat) returns (ok: bool)
      requires mem.Valid() && Valid(mem.textPtr) && mem.Drafted() == EMPTY_DRAFT
      requires scrapBase <= j && j + k <= loPtr + 1
      modifies mem.tok, mem`tokPtr, mem`initMath, mem`curMath
      ensures mem.Valid() && mem.tokPtr >= old(mem.tokPtr)
      ensures mem.tok[..old(mem.tokPtr)] == old(mem.tok[..mem.tokPtr])
      ensures !ok ==> mem.tokPtr == mem.tok.Length
      ensures ok && k > 0 ==> mem.tokPtr > old(mem.tokPtr)
      ensures ok ==> var lo := j - scrapBase;
                     mem.Drafted() ==
                     Spread(EMPTY_DRAFT, ConvAll(Cells(), mem.body), lo, lo + k)
    {
      hide Expansions, Expand, CellsOf, ConvAll, Rewriting.BigApp1, Conv;
      ghost var ss := ConvAll(Cells(), mem.body);
      ghost var lo := j - scrapBase;
      var i := j;
      ok := true;
      while i < j + k
        invariant j <= i <= j + k && mem.Valid() && mem.tokPtr >= old(mem.tokPtr)
        invariant i > j ==> mem.tokPtr > old(mem.tokPtr)
        invariant mem.tok[..old(mem.tokPtr)] == old(mem.tok[..mem.tokPtr])
        invariant Spread(mem.Drafted(), ss, i - scrapBase, lo + k) ==
                  Spread(EMPTY_DRAFT, ss, lo, lo + k)
      {
        LiveCell(scrap[..], scrapBase, loPtr + 1, hiPtr, scrapPtr + 1, i);
        ok := mem.BigApp1(scrap[i]);
        if !ok { return; }
        i := i + 1;
      }
    }

    /** Read scraps until four are in view from pp on, or pad with category 0. */
    method LoadScraps()
      requires Window() && scrapBase <= pp <= loPtr + 1
      modifies scrap, `loPtr, `hiPtr
      ensures scrap[..scrapBase] == old(scrap[..scrapBase])
      ensures Window() && Cells() == old(Cells()) && pp + 3 < scrap.Length && pp <= loPtr + 1
      ensures pp + 3 <= loPtr || hiPtr == scrapPtr + 1
      ensures forall i :: loPtr < i <= pp + 3 ==> scrap[i].cat == ZERO
    {
      hide CellsOf;
      if loPtr < pp + 3 {
        while hiPtr <= scrapPtr && loPtr != pp + 3
          invariant Window() && Cells() == old(Cells())
          invariant scrap[..scrapBase] == old(scrap[..scrapBase])
          invariant pp - 1 <= loPtr <= pp + 3
          decreases scrapPtr + 1 - hiPtr
        {
          LoadOne(scrap[..], scrapBase, loPtr + 1, hiPtr, scrapPtr + 1);
          loPtr := loPtr + 1;
          ghost var was := scrap[..];
          scrap[loPtr] := scrap[hiPtr];
          assert scrap[..] == was[loPtr := was[hiPtr]];
          hiPtr := hiPtr + 1;
        }
        PadScraps();
      }
    }

    method PadScraps()
      requires Window() && pp - 1 <= loPtr <= pp + 3
      requires loPtr == pp + 3 || hiPtr == scrapPtr + 1
      modifies scrap
      ensures scrap[..scrapBase] == old(scrap[..scrapBase])
      ensures Cells() == old(Cells())
      ensures forall i :: loPtr < i <= pp + 3 ==> scrap[i].cat == ZERO
    {
      hide CellsOf;
      var i := loPtr + 1;
      while i <= pp + 3
        invariant loPtr + 1 <= i <= pp + 4
        invariant Cells() == old(Cells())
        invariant scrap[..scrapBase] == old(scrap[..scrapBase])
        invariant forall x :: loPtr < x < i ==> scrap[x].cat == ZERO
      {
        PadOne(scrap[..], scrapBase, loPtr + 1, hiPtr, i, scrap[i].(cat := ZERO));
        ghost var was := scrap[..];
        scrap[i] := scrap[i].(cat := ZERO);
        assert scrap[..] == was[i := was[i].(cat := ZERO)];
        i := i + 1;
      }
    }

    /** The category the pattern match sees i scraps after pp. */
    lemma SeenCat(i: nat)
      requires Window() && scrapBase <= pp <= loPtr + 1 && i <= 3 && pp + 3 < scrap.Length
      requires pp + 3 <= loPtr || hiPtr == scrapPtr + 1
      requires forall x :: loPtr < x <= pp + 3 ==> scrap[x].cat == ZERO
      ensures scrap[pp + i].cat == CatAt(ConvAll(Cells(), mem.body), pp - scrapBase + i)
    {
      if pp + i <= loPtr {
        LiveCell(scrap[..], scrapBase, loPtr + 1, hiPtr, scrapPtr + 1, pp + i);
      }
    }

    /** Scrap i of scrap_info is number a among the live and unread ones. */
    ghost predicate Numbered(i: int, a: nat)
      reads this
    {
      if a < loPtr + 1 - scrapBase then i == scrapBase + a
      else i == hiPtr + a - (loPtr + 1 - scrapBase)
    }

    lemma NumberedCell(i: nat, a: nat)
      requires Window() && Numbered(i, a) && a < |Cells()|
      ensures i < scrap.Length && scrap[i] == Cells()[a]
    {
      if i <= loPtr {
        LiveCell(scrap[..], scrapBase, loPtr + 1, hiPtr, scrapPtr + 1, i);
      } else {
        UnreadCell(scrap[..], scrapBase, loPtr + 1, hiPtr, scrapPtr + 1, i);
      }
    }

    method Recat(i: nat, ghost a: nat, cat: Cat)
      requires Window() && Numbered(i, a) && a < |Cells()| && i < scrap.Length
      modifies scrap
      ensures scrap[..scrapBase] == old(scrap[..scrapBase])
      ensures Cells() == old(Cells()[a := Cells()[a].(cat := cat)])
    {
      hide CellsOf;
      ghost var was := scrap[..];
      NumberedCell(i, a);
      if i <= loPtr {
        CellSet(was, scrapBase, loPtr + 1, hiPtr, scrapPtr + 1, i, was[i].(cat := cat));
      } else {
        UnreadCellSet(was, scrapBase, loPtr + 1, hiPtr, scrapPtr + 1, i, was[i].(cat := cat));
      }
      scrap[i] := scrap[i].(cat := cat);
      assert scrap[..] == was[i := was[i].(cat := cat)];
    }

    /** The loop of make_reserved: p runs over the live scraps, then over the unread ones. */
    method SweepFrom(p: nat, ident: Token)
      requires Window() && CellsOK(Cells(), mem.textPtr) && mem.textPtr < mem.start.Length
      requires forall t :: 0 <= t < mem.textPtr ==> mem.start[t] < mem.tok.Length
      requires scrapBase <= p <= loPtr && (ident.Ident? || ident.Res?)
      modifies mem.tok, scrap
      ensures scrap[..scrapBase] == old(scrap[..scrapBase])
      ensures (Cells(), mem.tok[..]) ==
              old(Sweep(Cells(), p - scrapBase, mem.tok[..], mem.start[..mem.textPtr + 1], ident))
    {
      hide CellsOf;
      ghost var cells, toks, starts := Cells(), mem.tok[..], mem.start[..mem.textPtr + 1];
      var i := p;
      ghost var a: nat := p - scrapBase;
      while i <= scrapPtr
        invariant Numbered(i, a) && 0 <= a <= |Cells()| && CellsOK(Cells(), mem.textPtr)
        invariant scrap[..scrapBase] == old(scrap[..scrapBase])
        invariant Sweep(Cells(), a, mem.tok[..], starts, ident) ==
                  Sweep(cells, p - scrapBase, toks, starts, ident)
        decreases |Cells()| - a
      {
        NumberedCell(i, a);
        var t := scrap[i].trans;
        assert t < mem.textPtr && starts[t] == mem.start[t];
        if scrap[i].cat == EXP && mem.tok[mem.start[t]] == ident {
          Recat(i, a, RAW_INT);
          ghost var before := mem.tok[..];
          mem.tok[mem.start[t]] := Res(ident.name);
          assert mem.tok[..] == before[starts[t] := Res(ident.name)];
        }
        i := if i == loPtr then hiPtr else i + 1;
        a := a + 1;
      }
    }

    lemma StartsInMemory()
      requires mem.Valid() && mem.tokPtr < mem.tok.Length
      ensures forall t :: 0 <= t < mem.textPtr ==> mem.start[t] < mem.tok.Length
    {
      ghost var toks, starts := mem.tok[..mem.tokPtr], mem.start[..mem.textPtr + 1];
      hide Expand, Sliced;
      forall t: nat | t < mem.textPtr
        ensures mem.start[t] < mem.tok.Length
      {
        StartsMonotone(toks, starts, mem.body, mem.base, t, mem.textPtr);
      }
    }

    lemma SeenCats()
      requires Valid(mem.textPtr) && scrapBase <= pp <= loPtr && pp + 3 < scrap.Length
      requires pp + 3 <= loPtr || hiPtr == scrapPtr + 1
      requires forall x :: loPtr < x <= pp + 3 ==> scrap[x].cat == ZERO
      ensures var ss, at := ConvAll(Cells(), mem.body), pp - scrapBase;
              && scrap[pp].cat == CatAt(ss, at) && scrap[pp + 1].cat == CatAt(ss, at + 1)
              && scrap[pp + 2].cat == CatAt(ss, at + 2) && scrap[pp + 3].cat == CatAt(ss, at + 3)
              && Live(ss)
    {
      hide CellsOf, CatAt, ConvAll;
      SeenCat(0);
      SeenCat(1);
      SeenCat(2);
      SeenCat(3);
      LiveScraps(Cells(), mem.textPtr, mem.body);
    }

    method MarkReserved(p: nat, loc: nat)
      requires Window() && CellsOK(Cells(), mem.textPtr) && mem.textPtr < mem.start.Length
      requires forall t :: 0 <= t < mem.textPtr ==> mem.start[t] < mem.tok.Length
      requires scrapBase <= p <= loPtr && loc < mem.tok.Length
      requires mem.tok[loc].Ident? || mem.tok[loc].Res?
      modifies mem.tok, scrap
      ensures scrap[..scrapBase] == old(scrap[..scrapBase])
      ensures (Cells(), mem.tok[..]) ==
              old(AfterSweep(Cells(), p - scrapBase, mem.tok[..], mem.start[..mem.textPtr + 1], loc))
    {
      hide CellsOf, Sweep, CellsOK;
      var ident := mem.tok[loc];
      SweepFrom(p, ident);
      ghost var swept := mem.tok[..];
      mem.tok[loc] := Res(ident.name);
      assert mem.tok[..] == swept[loc := Res(ident.name)];
    }

    method MakeReserved(p: nat) returns (ghost chosen: set<nat>)
      requires mem.Valid() && Valid(mem.textPtr) && mem.tokPtr < mem.tok.Length
      requires scrapBase <= p <= loPtr
      modifies mem.tok, scrap
      ensures scrap[..scrapBase] == old(scrap[..scrapBase])
      ensures mem.Valid() && Valid(mem.textPtr) && mem.Open() == old(mem.Open())
      ensures Kept(old(mem.tok[..mem.tokPtr]), mem.tok[..mem.tokPtr])
      ensures ConvAll(Cells(), mem.body) ==
              Reserved(old(ConvAll(Cells(), mem.body)), p - scrapBase, chosen)
      ensures ReserveOutcome(old(Cells()), p - scrapBase, old(mem.tok[..]), mem.tokPtr,
                             mem.start[..mem.textPtr + 1], old(scrap[p].trans),
                             Cells(), mem.tok[..])
    {
      hide CellsOf, FirstIdent, Expand, AfterSweep, CellsOK, ConvAll, Expansions, Reserved,
           AllSliced, Reworded, Kept, Struck, Met, InTextOrder, Rising, InOrder, Filled, Meets;
      ghost var cells, toks, n := Cells(), mem.tok[..], mem.tokPtr;
      ghost var starts := mem.start[..mem.textPtr + 1];
      assert toks[..n] == mem.tok[..n];
      LiveCell(scrap[..], scrapBase, loPtr + 1, hiPtr, scrapPtr + 1, p);
      LiveTrans(cells, p - scrapBase, mem.textPtr);
      var r := mem.FindFirstIdent(scrap[p].trans);
      if r.Nowhere? {
        chosen := {};
        NoneReserved(ConvAll(cells, mem.body), p - scrapBase);
        KeptAll(toks[..n]);
      } else {
        var ident := mem.tok[r.i];
        chosen := ReserveShape(cells, p - scrapBase, toks, starts, r.i, mem.body);
        StartsInMemory();
        StartsRise(toks[..n], starts, mem.body, mem.base);
        OrderMatches(cells, p - scrapBase, toks, n, starts, mem.body, mem.base, ident);
        TransBelow(cells, mem.textPtr);
        AfterSweepOutcome(cells, p - scrapBase, toks, n, starts, scrap[p].trans, r.i);
        MarkReserved(p, r.i);
        RewordedMemory(toks, mem.tok[..], n, ident, starts, mem.body, mem.base);
        assert mem.tok[..n] == mem.tok[..][..n];
        OrderRecat(cells, Cells(), mem.base);
      }
    }

    /** The part of a production that appends to the open text. */
    method RunProg(prog: Prog, limit: nat) returns (ok: bool)
      requires mem.Valid() && Valid(mem.textPtr)
      requires scrapBase <= pp && pp + limit <= loPtr + 1 && Offsets(prog, limit) && NoReserve(prog)
      modifies mem.tok, mem`tokPtr, mem`initMath, mem`curMath
      ensures mem.Valid() && mem.tokPtr >= old(mem.tokPtr)
      ensures mem.tok[..old(mem.tokPtr)] == old(mem.tok[..mem.tokPtr])
      ensures !ok ==> mem.tokPtr == mem.tok.Length
      ensures ok && Appending(prog) ==> mem.tokPtr > old(mem.tokPtr)
      ensures ok ==> mem.Drafted() == Emit(prog, old(mem.Drafted()), ConvAll(Cells(), mem.body),
                                           pp - scrapBase)
    {
      hide Expansions, Expand, CellsOf, ConvAll, Conv, Rewriting.BigApp, Rewriting.BigApp1,
           CellsOK, InOrder, Filled;
      ghost var ss := ConvAll(Cells(), mem.body);
      ghost var at := pp - scrapBase;
      var p := prog;
      while !p.End?
        invariant mem.Valid() && mem.tokPtr >= old(mem.tokPtr)
        invariant mem.tok[..old(mem.tokPtr)] == old(mem.tok[..mem.tokPtr])
        invariant Offsets(p, limit) && NoReserve(p)
        invariant Appending(prog) ==> Appending(p) || mem.tokPtr > old(mem.tokPtr)
        invariant Emit(p, mem.Drafted(), ss, at) == Emit(prog, old(mem.Drafted()), ss, at)
        decreases p
      {
        match p {
          case Sc(i, rest) =>
            LiveCell(scrap[..], scrapBase, loPtr + 1, hiPtr, scrapPtr + 1, pp + i);
            LiveTrans(Cells(), at + i, mem.textPtr);
            ok := mem.BigApp1(scrap[pp + i]);
            p := rest;
          case Big(c, rest) =>
            ok := mem.BigApp(c);
            p := rest;
          case Raw(c, rest) =>
            ok := mem.AppCode(c);
            p := rest;
          case MathOn(rest) =>
            mem.initMath, mem.curMath := Yes, Yes;
            ok := true;
            p := rest;
        }
        if !ok { return; }
      }
      ok := true;
    }

    ghost function Abs(): Config
      requires Window() && scrapBase <= pp
      reads this, scrap, mem
    {
      Config(ConvAll(Cells(), mem.body), pp - scrapBase)
    }

    /** The state a production starts from. */
    ghost predicate Ready()
      reads this, scrap, mem, mem.tok, mem.start
    {
      && mem.Valid() && Valid(mem.textPtr) && scrapBase <= pp <= loPtr
      && mem.textPtr + 1 < mem.start.Length && mem.tokPtr < mem.tok.Length
      && mem.Drafted() == EMPTY_DRAFT
    }

    /** The make_reserved in front of a production, if it has one. */
    method ReserveFirst(prog: Prog) returns (ghost chosen: set<nat>)
      requires Ready() && (prog.Reserve? ==> pp + prog.i <= loPtr)
      modifies mem.tok, scrap
      ensures mem.Valid() && Valid(mem.textPtr) && mem.Open() == old(mem.Open())
      ensures scrap[..scrapBase] == old(scrap[..scrapBase])
      ensures Kept(old(mem.tok[..mem.tokPtr]), mem.tok[..mem.tokPtr])
      ensures ConvAll(Cells(), mem.body) == AfterReserve(old(Abs()), prog, chosen)
    {
      hide Expansions, Expand, CellsOf, ConvAll, CellsOK, Kept, Reserved, ReserveOutcome, InOrder, Filled;
      chosen := {};
      KeptAll(mem.tok[..mem.tokPtr]);
      if prog.Reserve? {
        chosen := MakeReserved(pp + prog.i);
      }
    }

    /** A production that ends in reduce. */
    method Produce(r: Rule) returns (ok: bool, ghost chosen: set<nat>)
      requires Ready() && r.Reduce? && r.cat != ZERO && r.k >= 1 && pp + r.j + r.k <= loPtr + 1
      requires if Discards(r) then DropsText(r) else ProgOK(r)
      modifies mem, mem.tok, mem.start, scrap, `loPtr, `pp
      ensures scrap[..scrapBase] == old(scrap[..scrapBase])
      ensures mem.Valid() && mem.base == old(mem.base) && mem.tokPtr >= old(mem.tokPtr)
      ensures Kept(old(mem.tok[..mem.tokPtr]), mem.tok[..old(mem.tokPtr)])
      ensures !ok ==> mem.tokPtr == mem.tok.Length
      ensures ok ==> Valid(mem.textPtr) && mem.Open() == [] && pp + 1 >= scrapBase
      ensures ok ==> pp + 1 == scrapBase + Move(old(pp) - scrapBase, r.d)
      ensures ok ==> loPtr == old(loPtr) - r.k + 1
      ensures ok ==> ConvAll(Cells(), mem.body) == Apply(old(Abs()), r, chosen).ss
    {
      hide Expansions, Expand, CellsOf, ConvAll, CellsOK, Emit, Replace, Kept, Reserved, Offsets,
           NoReserve, AfterReserve, NoDollar, NextScrap, Appends, InOrder, Filled;
      ghost var n, at := mem.tokPtr, pp - scrapBase;
      ghost var c := Abs();
      ProductionParts(r, c.ss, at);
      chosen := ReserveFirst(r.prog);
      ghost var ss := ConvAll(Cells(), mem.body);
      ProductionParts(r, ss, at);
      ghost var middle := mem.tok[..n];
      BaseBelow();
      ok := RunProg(Appends(r.prog), r.j + r.k);
      assert mem.tok[..n] == middle;
      BaseBelow();
      if ok {
        assert Scrap(r.cat, mem.initMath, mem.curMath, mem.Open()) == Built(r.prog, ss, at, r.cat);
        ReduceScraps(pp + r.j, r.k, r.cat, r.d);
      }
    }

    /** What the switch on the category of pp does, with the pp++ that follows it. */
    method Fire(r: Rule) returns (ok: bool, ghost chosen: set<nat>)
      requires Ready() && Fits(r, Abs())
      requires !r.NoRule? ==> r.cat != ZERO && pp + r.j + r.k <= loPtr + 1 && r.d <= 1
      requires r.Reduce? ==> if Discards(r) then DropsText(r) else ProgOK(r)
      modifies mem, mem.tok, mem.start, scrap, `loPtr, `pp
      ensures scrap[..scrapBase] == old(scrap[..scrapBase])
      ensures mem.Valid() && mem.base == old(mem.base) && mem.tokPtr >= old(mem.tokPtr)
      ensures Kept(old(mem.tok[..mem.tokPtr]), mem.tok[..old(mem.tokPtr)])
      ensures !ok ==> mem.tokPtr == mem.tok.Length
      ensures ok ==> Valid(mem.textPtr) && mem.Open() == [] && scrapBase <= pp
      ensures ok ==> Abs() == Apply(old(Abs()), r, chosen) && pp <= loPtr + 1
    {
      hide Expansions, Expand, CellsOf, ConvAll, CellsOK, Replace, Kept, Reserved, Merged, Built,
           ProgOK, NoReserve, NoDollar, NextScrap, InOrder, Filled;
      chosen := {};
      ghost var n := mem.tokPtr;
      KeptAll(mem.tok[..n]);
      match r {
        case NoRule => ok := true;
        case Squash(j, k, c, d, _) => ok := SquashScraps(pp + j, k, c, d);
        case Reduce(_, _, _, _, _, _) => ok, chosen := Produce(r);
      }
      pp := pp + 1;
    }

    /** The pattern match at pp, which looks at four categories. */
    method FindRule(forceLines: bool) returns (r: Rule)
      requires Valid(mem.textPtr) && scrapBase <= pp <= loPtr && pp + 3 < scrap.Length
      requires pp + 3 <= loPtr || hiPtr == scrapPtr + 1
      requires forall x :: loPtr < x <= pp + 3 ==> scrap[x].cat == ZERO
      ensures r == RuleAt(Abs(), forceLines) && Wf(Abs()) && Abs().pos < |Abs().ss|
      ensures Fits(r, Abs()) && (!r.NoRule? ==> pp + r.j + r.k <= loPtr + 1)
    {
      hide Match, CellsOf, ProgOK, DiscardOK, Absorbs, Rank, ConvAll, CellsOK;
      r := Match(scrap[pp].cat, scrap[pp + 1].cat, scrap[pp + 2].cat, scrap[pp + 3].cat,
                 forceLines);
      SeenCats();
      ghost var c := Abs();
      RuleFits(c, forceLines);
    }

    /** The end of translate: all that is left goes into one text. */
    method Conclude() returns (ok: bool, p: nat)
      requires mem.Valid() && Valid(mem.textPtr) && mem.Open() == []
      requires hiPtr == scrapPtr + 1 && mem.textPtr + 1 < mem.start.Length
      modifies mem, mem.tok, mem.start
      ensures mem.Valid() && mem.base == old(mem.base) && mem.tokPtr >= old(mem.tokPtr)
      ensures mem.tok[..old(mem.tokPtr)] == old(mem.tok[..mem.tokPtr])
      ensures !ok ==> mem.tokPtr == mem.tok.Length
      ensures ok ==> mem.Closed()
      ensures ok ==> p < |mem.body| && mem.body[p] == FinalText(ConvAll(Cells(), old(mem.body)))
    {
      hide Expansions, Expand, CellsOf, ConvAll, Conv, FinalText;
      p := 0;
      ghost var ss := ConvAll(Cells(), mem.body);
      ghost var body := mem.body;
      FinalTextEmpty();
      var j := scrapBase;
      assert ss[..0] == [];
      while j <= loPtr
        invariant scrapBase <= j <= loPtr + 1 && mem.Valid() && mem.base == old(mem.base)
        invariant mem.body == body && mem.tokPtr >= old(mem.tokPtr)
        invariant mem.tok[..old(mem.tokPtr)] == old(mem.tok[..mem.tokPtr])
        invariant mem.Open() == FinalText(ss[..j - scrapBase])
        modifies mem.tok, mem`tokPtr
      {
        LiveCell(scrap[..], scrapBase, loPtr + 1, hiPtr, scrapPtr + 1, j);
        LiveTrans(Cells(), j - scrapBase, mem.textPtr);
        FinalTextMore(ss, j - scrapBase);
        ok := AppFinal(scrap[j], j == scrapBase);
        if !ok { return; }
        j := j + 1;
      }
      assert ss[..j - scrapBase] == ss;
      ghost var toks := mem.tok[..];
      mem.Freeze();
      assert mem.tok[..] == toks;
      p := mem.textPtr - 1;
      ok := true;
    }

    method AppIf(wanted: bool, c: Code) returns (ok: bool)
      requires mem.Valid()
      modifies mem.tok, mem`tokPtr
      ensures mem.Valid() && mem.tokPtr >= old(mem.tokPtr)
      ensures mem.tok[..old(mem.tokPtr)] == old(mem.tok[..mem.tokPtr])
      ensures !ok ==> mem.tokPtr == mem.tok.Length
      ensures ok ==> mem.Open() == old(mem.Open()) + if wanted then [Tok(c, false)] else []
    {
      ok := true;
      if wanted {
        ok := mem.AppCode(c);
      }
    }

    method AppFinal(a: Cell, first: bool) returns (ok: bool)
      requires mem.Valid() && a.trans < mem.textPtr
      modifies mem.tok, mem`tokPtr
      ensures mem.Valid() && mem.tokPtr >= old(mem.tokPtr)
      ensures mem.tok[..old(mem.tokPtr)] == old(mem.tok[..mem.tokPtr])
      ensures !ok ==> mem.tokPtr == mem.tok.Length
      ensures ok ==> mem.Open() == old(mem.Open()) + FinalPiece(Conv(a, mem.body), first)
    {
      hide Expansions, Expand, FinalPiece;
      ghost var out, n, kept := mem.Open(), mem.tokPtr, mem.tok[..mem.tokPtr];
      ok := AppIf(!first, Char(' '));
      assert mem.tok[..n] == kept;
      if !ok { return; }
      ghost var toks := mem.tok[..mem.tokPtr];
      ok := AppIf(a.init.Yes?, Char('$'));
      assert mem.tok[..n] == toks[..n];
      if !ok { return; }
      toks := mem.tok[..mem.tokPtr];
      ok := mem.App(Txt(a.trans));
      assert mem.tok[..n] == toks[..n];
      if !ok { return; }
      toks := mem.tok[..mem.tokPtr];
      ok := AppIf(a.end.Yes?, Char('$'));
      assert mem.tok[..n] == toks[..n];
      FinalPieceParts(out, Conv(a, mem.body), first);
    }

    /** Match and rewrite. */
    method Rewrite(forceLines: bool) returns (ok: bool, ghost chosen: set<nat>)
      requires Ready() && pp + 3 < scrap.Length
      requires pp + 3 <= loPtr || hiPtr == scrapPtr + 1
      requires forall x :: loPtr < x <= pp + 3 ==> scrap[x].cat == ZERO
      modifies mem, mem.tok, mem.start, scrap, `loPtr, `pp
      ensures scrap[..scrapBase] == old(scrap[..scrapBase])
      ensures mem.Valid() && mem.base == old(mem.base) && mem.tokPtr >= old(mem.tokPtr)
      ensures Kept(old(mem.tok[..mem.tokPtr]), mem.tok[..old(mem.tokPtr)])
      ensures !ok ==> mem.tokPtr == mem.tok.Length
      ensures ok ==> Valid(mem.textPtr) && mem.Open() == [] && scrapBase <= pp <= loPtr + 1
      ensures Wf(old(Abs())) && old(Abs()).pos < |old(Abs()).ss|
      ensures ok ==> Abs() == Step(old(Abs()), chosen, forceLines)
    {
      hide Expansions, Expand, CellsOf, CellsOK, ConvAll, Match, RuleAt, Kept, Apply, RuleOK, InOrder, Filled;
      var r := FindRule(forceLines);
      RuleParts(r, Abs(), forceLines);
      ok, chosen := Fire(r);
    }

    /** One round of the main loop: load, check the room that is left, match and rewrite. */
    method Round(forceLines: bool) returns (ok: bool, done: bool, ghost chosen: set<nat>)
      requires mem.Valid() && Valid(mem.textPtr) && mem.Open() == []
      requires scrapBase <= pp <= loPtr + 1
      modifies mem, mem.tok, mem.start, scrap, `loPtr, `hiPtr, `pp
      ensures scrap[..scrapBase] == old(scrap[..scrapBase])
      ensures mem.Valid() && mem.base == old(mem.base) && mem.tokPtr >= old(mem.tokPtr)
      ensures Kept(old(mem.tok[..mem.tokPtr]), mem.tok[..old(mem.tokPtr)])
      ensures !ok ==> mem.tokPtr + 20 >= mem.tok.Length || mem.textPtr + 10 >= mem.start.Length
      ensures ok ==> Valid(mem.textPtr) && mem.Open() == [] && scrapBase <= pp <= loPtr + 1
      ensures ok && done ==>
                && Abs() == old(Abs()) && pp == loPtr + 1 && hiPtr == scrapPtr + 1
                && mem.textPtr + 1 < mem.start.Length
      ensures ok && !done ==>
                && Wf(old(Abs())) && old(Abs()).pos < |old(Abs()).ss|
                && Abs() == Step(old(Abs()), chosen, forceLines)
    {
      hide Expansions, Expand, CellsOf, CellsOK, ConvAll, Kept, Step, Live, InOrder, Filled;
      done, chosen := false, {};
      KeptAll(mem.tok[..mem.tokPtr]);
      ghost var now := Abs();
      LoadScraps();
      assert Abs() == now;
      if mem.tokPtr + 20 > mem.tok.Length - 1 || mem.textPtr + 10 > mem.start.Length - 1 {
        ok := false;
      } else if pp > loPtr {
        ok, done := true, true;
      } else {
        mem.initMath, mem.curMath := Maybe, Maybe;
        ok, chosen := Rewrite(forceLines);
      }
    }

    /** The main loop of translate, until `pp` has passed the last scrap. */
    method ParseAll(forceLines: bool) returns (ok: bool, ghost choices: seq<set<nat>>)
      requires mem.Valid() && Valid(mem.textPtr) && mem.Open() == []
      requires pp == scrapBase == loPtr + 1 && Wf(Abs())
      modifies `pp, `loPtr, `hiPtr, scrap, mem, mem.tok, mem.start
      ensures scrap[..scrapBase] == old(scrap[..scrapBase])
      ensures !ok ==> mem.tokPtr + 20 >= mem.tok.Length || mem.textPtr + 10 >= mem.start.Length
      ensures ok ==> && mem.Valid() && Valid(mem.textPtr) && mem.Open() == []
                     && mem.base == old(mem.base) && mem.textPtr + 1 < mem.start.Length
      ensures ok ==> pp == loPtr + 1 && hiPtr == scrapPtr + 1 && scrapBase <= pp
      ensures ok ==> Abs() == Run(old(Abs()), choices, forceLines)
      ensures ok ==> old(mem.tokPtr) <= mem.tokPtr &&
                     Kept(old(mem.tok[..mem.tokPtr]), mem.tok[..old(mem.tokPtr)])
    {
      hide Expansions, Expand, CellsOf, CellsOK, ConvAll, Match, Run, RuleOK, RuleAt, Kept,
           Potential, Apply, Live, InOrder, Filled;
      choices := [];
      ghost var n := mem.tokPtr;
      ghost var before, c := mem.tok[..n], Abs();
      KeptAll(before);
      RunNone(c, forceLines);
      var done := false;
      while !done
        invariant mem.Valid() && Valid(mem.textPtr) && mem.Open() == [] && scrapBase <= pp <= loPtr + 1
        invariant mem.tokPtr >= n && Kept(before, mem.tok[..n])
        invariant mem.base == old(mem.base) && scrap[..scrapBase] == old(scrap[..scrapBase])
        invariant Wf(c) && Abs() == Run(c, choices, forceLines)
        invariant done ==> pp == loPtr + 1 && hiPtr == scrapPtr + 1 &&
                           mem.textPtr + 1 < mem.start.Length
        decreases if done then 0 else 1 + Potential(Abs())
      {
        ghost var now, kept, m := Abs(), mem.tok[..mem.tokPtr], mem.tokPtr;
        assert kept[..n] == mem.tok[..n];
        ghost var chosen;
        ok, done, chosen := Round(forceLines);
        KeptBoth(before, kept, mem.tok[..m], n);
        assert mem.tok[..m][..n] == mem.tok[..n];
        if !ok { return; }
        if !done {
          StepLowersPotential(now, chosen, forceLines);
          RunMore(c, choices, chosen, forceLines);
          choices := choices + [chosen];
        }
      }
      ok := true;
    }

    /**
      translate. When the memories do not overflow, the returned text expands to the final text of
      a run of the rewriting system on the given scraps that has passed the last scrap.
     */
    method Translate(forceLines: bool) returns (ok: bool, p: nat, ghost choices: seq<set<nat>>)
      requires mem.Valid() && mem.base == mem.textPtr && mem.Open() == []
      requires scrapBase <= scrapPtr + 1 && scrapPtr + 5 <= scrap.Length
      requires CellsOK(scrap[scrapBase..scrapPtr + 1], mem.textPtr)
      requires InOrder(scrap[scrapBase..scrapPtr + 1], mem.base)
      modifies `pp, `loPtr, `hiPtr, scrap, mem, mem.tok, mem.start
      ensures scrap[..scrapBase] == old(scrap[..scrapBase])
      ensures !ok ==> mem.tokPtr + 20 >= mem.tok.Length || mem.textPtr + 10 >= mem.start.Length
      ensures ok ==> mem.Valid() && mem.Closed() && mem.base == old(mem.base) && p < |mem.body|
      ensures ok ==> old(mem.tokPtr) <= mem.tokPtr &&
                     Kept(old(mem.tok[..mem.tokPtr]), mem.tok[..old(mem.tokPtr)])
      ensures ok ==>
                var c := Config(old(ConvAll(scrap[scrapBase..scrapPtr + 1], mem.body)), 0);
                && Wf(c) && Run(c, choices, forceLines).pos == |Run(c, choices, forceLines).ss|
                && mem.body[p] == FinalText(Run(c, choices, forceLines).ss)
                && Promised(c, choices, forceLines, mem.body[p])
    {
      hide Expansions, Expand, CellsOf, CellsOK, ConvAll, Run, Kept, FinalText, Promised, Live;
      p, choices := 0, [];
      pp := scrapBase;
      loPtr := pp - 1;
      hiPtr := pp;
      ghost var n := mem.tokPtr;
      AllUnread(scrap[..], scrapBase, scrapPtr + 1);
      ghost var c := Abs();
      LiveScraps(Cells(), mem.textPtr, mem.body);
      ok, choices := ParseAll(forceLines);
      if !ok { return; }
      ghost var k, m := mem.tokPtr, mem.tok[..n];
      ghost var all := mem.tok[..k];
      assert all[..n] == m;
      ok, p := Conclude();
      assert mem.tok[..k] == all;
      assert mem.tok[..n] == mem.tok[..k][..n] == m;
      RunKeepsPromise(c, choices, forceLines);
    }
  }
}
