/**
  What every run of the scrap parser guarantees: it stops after a number of steps bounded by a
  cubic polynomial in the number of scraps, every piece of text ends up in the mode it needs,
  and the original texts survive in order, unless production 84 or 85 fires.
 */
module ParserTheorems {
  import opened Grammar
  import opened Rewriting

  /** A run: one set of reserved scraps for every step. A finished configuration stays put. */
  function Run(c: Config, choices: seq<set<nat>>, forceLines: bool): (c': Config)
    requires Wf(c)
    ensures Wf(c')
    decreases |choices|
  {
    if choices == [] then c
    else
      var last := |choices| - 1;
      var m := Run(c, choices[..last], forceLines);
      if m.pos < |m.ss| then Step(m, choices[last], forceLines) else m
  }

  // ----- Termination

  function Weight(ss: seq<Scrap>): nat {
    if ss == [] then 0 else Rank(ss[0].cat) + Weight(ss[1..])
  }

  lemma {:induction false} WeightConcat(a: seq<Scrap>, b: seq<Scrap>)
    ensures Weight(a + b) == Weight(a) + Weight(b)
  {
    if a == [] {
      assert a + b == b;
    } else {
      assert (a + b)[0] == a[0] && (a + b)[1..] == a[1..] + b;
      WeightConcat(a[1..], b);
    }
  }

  lemma {:induction false} WeightBound(ss: seq<Scrap>)
    ensures Weight(ss) <= 3 * |ss|
  {
    if ss != [] {
      WeightBound(ss[1..]);
    }
  }

  /** Room for every weight and every position of `pp` over n scraps. */
  function Room(n: nat): nat {
    3 * n * (n + 1) + n + 1
  }

  function Bound(n: nat): nat {
    if n == 0 then 0 else Bound(n - 1) + Room(n - 1)
  }

  lemma {:induction false} BoundMonotone(m: nat, n: nat)
    requires m <= n
    ensures Bound(m) <= Bound(n)
    decreases n - m
  {
    if m < n {
      BoundMonotone(m, n - 1);
    }
  }

  /** Fewer scraps first, then lower categories, then `pp` closer to the end. */
  function Potential(c: Config): nat
    requires c.pos <= |c.ss|
  {
    Bound(|c.ss|) + Weight(c.ss) * (|c.ss| + 1) + (|c.ss| - c.pos)
  }

  lemma HeaviestFits(n: nat, w: nat)
    requires w <= 3 * n
    ensures w * (n + 1) + n < Room(n)
  {
    assert w * (n + 1) <= 3 * n * (n + 1);
  }

  lemma PotentialBound(c: Config)
    requires c.pos <= |c.ss|
    ensures Potential(c) < Bound(|c.ss| + 1)
  {
    hide Weight, Room;
    WeightBound(c.ss);
    HeaviestFits(|c.ss|, Weight(c.ss));
  }

  lemma RecategorizeLowersWeight(ss: seq<Scrap>, at: nat, s: Scrap)
    requires at < |ss| && Rank(s.cat) < Rank(ss[at].cat)
    ensures Weight(ss[..at] + [s] + ss[at + 1..]) < Weight(ss)
  {
    assert ss == ss[..at] + ([ss[at]] + ss[at + 1..]);
    assert ss[..at] + [s] + ss[at + 1..] == ss[..at] + ([s] + ss[at + 1..]);
    WeightConcat(ss[..at], [ss[at]] + ss[at + 1..]);
    WeightConcat(ss[..at], [s] + ss[at + 1..]);
    WeightConcat([ss[at]], ss[at + 1..]);
    WeightConcat([s], ss[at + 1..]);
  }

  /** How a rule changes the number and the ranks of the scraps. */
  lemma ApplyMeasure(c: Config, r: Rule, chosen: set<nat>)
    requires Live(c.ss) && c.pos < |c.ss| && Fits(r, c)
    requires !r.NoRule? && r.k == 1 ==> Rank(r.cat) < Rank(c.ss[c.pos + r.j].cat)
    requires r.Reduce? && r.prog.Reserve? ==> r.k >= 2
    ensures var c' := Apply(c, r, chosen);
            || |c'.ss| < |c.ss|
            || (|c'.ss| == |c.ss| && Weight(c'.ss) < Weight(c.ss))
            || (c'.ss == c.ss && c'.pos == c.pos + 1)
  {
    hide Weight, Rank, Emit;
    if !r.NoRule? && r.k == 1 {
      var at := c.pos + r.j;
      RecategorizeLowersWeight(c.ss, at, Apply(c, r, chosen).ss[at]);
    }
  }

  lemma LighterIsSmaller(n: nat, w: nat, w': nat, p: nat, p': nat)
    requires w' < w && p <= n && p' <= n
    ensures w' * (n + 1) + (n - p') < w * (n + 1) + (n - p)
  {
    assert w' * (n + 1) + (n + 1) == (w' + 1) * (n + 1) <= w * (n + 1);
  }

  lemma SmallerPotential(c: Config, c': Config)
    requires c.pos <= |c.ss| && c'.pos <= |c'.ss|
    requires || |c'.ss| < |c.ss|
             || (|c'.ss| == |c.ss| && Weight(c'.ss) < Weight(c.ss))
             || (c'.ss == c.ss && c'.pos == c.pos + 1)
    ensures Potential(c') < Potential(c)
  {
    hide Weight, Bound;
    if |c'.ss| < |c.ss| {
      PotentialBound(c');
      BoundMonotone(|c'.ss| + 1, |c.ss|);
    } else if Weight(c'.ss) < Weight(c.ss) {
      LighterIsSmaller(|c.ss|, Weight(c.ss), Weight(c'.ss), c.pos, c'.pos);
    }
  }

  lemma StepLowersPotential(c: Config, chosen: set<nat>, forceLines: bool)
    requires Wf(c) && c.pos < |c.ss|
    ensures Potential(Step(c, chosen, forceLines)) < Potential(c)
  {
    hide Match, Apply, Potential, Weight;
    RuleFits(c, forceLines);
    ApplyMeasure(c, RuleAt(c, forceLines), chosen);
    SmallerPotential(c, Step(c, chosen, forceLines));
  }

  lemma {:induction false} RunSpendsPotential(c: Config, choices: seq<set<nat>>, forceLines: bool)
    requires Wf(c)
    ensures var c' := Run(c, choices, forceLines);
            c'.pos >= |c'.ss| || Potential(c') + |choices| <= Potential(c)
  {
    hide Step;
    if choices != [] {
      var last := |choices| - 1;
      RunSpendsPotential(c, choices[..last], forceLines);
      var m := Run(c, choices[..last], forceLines);
      if m.pos < |m.ss| {
        StepLowersPotential(m, choices[last], forceLines);
      }
    }
  }

  /**
    Termination: whatever make_reserved picks, after Bound(n+1) steps on n scraps `pp` has passed
    the last scrap.
   */
  lemma ParserTerminates(c: Config, choices: seq<set<nat>>, forceLines: bool)
    requires Wf(c)
    requires |choices| >= Bound(|c.ss| + 1)
    ensures var c' := Run(c, choices, forceLines); c'.pos == |c'.ss|
  {
    RunSpendsPotential(c, choices, forceLines);
    PotentialBound(c);
  }

  // ----- Math mode

  /** How an original text starts and ends. */
  datatype Tag = Tag(init: Math, end: Math)

  /** A text is mode-free at both ends or at neither. */
  ghost predicate Tagged(tag: nat -> Tag) {
    forall t :: tag(t).init.Maybe? <==> tag(t).end.Maybe?
  }

  /** The codes that stand outside math: the blank, and those from big_cancel to big_force. */
  predicate OutsideMath(c: Code) {
    if c.Char? then c.c == ' ' else 136 <= Number(c) <= 144
  }

  lemma CodeModes(c: Code)
    ensures ModeOf(c) == if OutsideMath(c) then No else Yes
  {
  }

  /**
    The mode after one piece: a dollar toggles it, an original text goes from its first mode to
    its last, a brace, a break or a code from big_app stands inside or outside math as `OutsideMath`
    says. Maybe stands for a piece that was met in the wrong mode.
   */
  function WalkPiece(p: Piece, tag: nat -> Tag, m: Math): Math {
    if m.Maybe? then Maybe
    else match p
      case Leaf(t) =>
        if tag(t).init.Maybe? then m else if tag(t).init == m then tag(t).end else Maybe
      case Tok(c, big) =>
        if c == Char('$') then (if m.Yes? then No else Yes)
        else if (big || Placed(c)) && OutsideMath(c) != m.No? then Maybe else m
  }

  function Walk(body: seq<Piece>, tag: nat -> Tag, m: Math): Math {
    if body == [] then m else Walk(body[1..], tag, WalkPiece(body[0], tag, m))
  }

  lemma {:induction false} WalkConcat(a: seq<Piece>, b: seq<Piece>, tag: nat -> Tag, m: Math)
    ensures Walk(a + b, tag, m) == Walk(b, tag, Walk(a, tag, m))
  {
    if a == [] {
      assert a + b == b;
    } else {
      assert (a + b)[0] == a[0] && (a + b)[1..] == a[1..] + b;
      WalkConcat(a[1..], b, tag, WalkPiece(a[0], tag, m));
    }
  }

  /** One character that is appended as it is. */
  predicate Literal(body: seq<Piece>, i: int, c: char) {
    0 <= i < |body| && body[i] == Tok(Char(c), false)
  }

  /** Every dollar has an empty group next to it, on the side where the text is in math. */
  ghost predicate Guarded(body: seq<Piece>, tag: nat -> Tag, m: Math) {
    forall i :: 0 <= i < |body| && body[i] == Tok(Char('$'), false) ==>
      if Walk(body[..i], tag, m).Yes? then Literal(body, i - 2, '{') && Literal(body, i - 1, '}')
      else Literal(body, i + 1, '{') && Literal(body, i + 2, '}')
  }

  lemma GuardedConcat(a: seq<Piece>, b: seq<Piece>, tag: nat -> Tag, m: Math)
    requires Guarded(a, tag, m) && Guarded(b, tag, Walk(a, tag, m))
    ensures Guarded(a + b, tag, m)
  {
    hide Walk;
    var body := a + b;
    forall i | 0 <= i < |body| && body[i] == Tok(Char('$'), false)
      ensures if Walk(body[..i], tag, m).Yes?
              then Literal(body, i - 2, '{') && Literal(body, i - 1, '}')
              else Literal(body, i + 1, '{') && Literal(body, i + 2, '}')
    {
      if i < |a| {
        assert body[..i] == a[..i];
      } else {
        assert body[..i] == a + b[..i - |a|] && body[i] == b[i - |a|];
        WalkConcat(a, b[..i - |a|], tag, m);
      }
    }
  }

  /**
    The text goes from its recorded first mode to its last, or works in either mode, and all its
    dollars are guarded.
   */
  ghost predicate SoundText(init: Math, end: Math, body: seq<Piece>, tag: nat -> Tag) {
    && (init.Maybe? <==> end.Maybe?)
    && (if init.Maybe? then
          && Walk(body, tag, Yes) == Yes && Walk(body, tag, No) == No
          && Guarded(body, tag, Yes) && Guarded(body, tag, No)
        else Walk(body, tag, init) == end && Guarded(body, tag, init))
  }

  ghost predicate SoundScraps(ss: seq<Scrap>, tag: nat -> Tag) {
    forall i :: 0 <= i < |ss| ==> SoundText(ss[i].init, ss[i].end, ss[i].body, tag)
  }

  ghost predicate SoundDraft(e: Draft, tag: nat -> Tag) {
    SoundText(e.init, e.cur, e.out, tag)
  }

  lemma SwitchSound(e: Draft, m: Math, tag: nat -> Tag)
    requires SoundDraft(e, tag) && !m.Maybe?
    ensures SoundDraft(Switch(e, m), tag) && Switch(e, m).cur == m
  {
    hide Guarded;
    if e.cur != m && !e.cur.Maybe? {
      var switch := if m.No? then LEAVE_MATH else ENTER_MATH;
      WalkConcat(e.out, switch, tag, e.init);
      SwitchWalk(tag);
      GuardedConcat(e.out, switch, tag, e.init);
    }
  }

  lemma SwitchWalk(tag: nat -> Tag)
    ensures Walk(LEAVE_MATH, tag, Yes) == No && Guarded(LEAVE_MATH, tag, Yes)
    ensures Walk(ENTER_MATH, tag, No) == Yes && Guarded(ENTER_MATH, tag, No)
  {
    var front := [LEAVE_MATH[0], LEAVE_MATH[1]];
    assert LEAVE_MATH[..2] == front && front[1..] == [LEAVE_MATH[1]];
    assert Walk(front, tag, Yes) == Walk(front[1..], tag, Yes) == Yes;
    assert Walk(LEAVE_MATH, tag, Yes) == No;
    assert ENTER_MATH[..0] == [] && Walk([], tag, No) == No;
    assert Walk(ENTER_MATH, tag, No) == Yes;
  }

  lemma NoDollarGuarded(p: Piece, tag: nat -> Tag, m: Math)
    requires p != Tok(Char('$'), false)
    ensures Guarded([p], tag, m)
  {
  }

  lemma RawSound(e: Draft, c: Code, tag: nat -> Tag)
    requires SoundDraft(e, tag) && c != Char('$') && !Placed(c)
    ensures SoundDraft(e.(out := e.out + [Tok(c, false)]), tag)
  {
    hide Guarded;
    var p := Tok(c, false);
    assert forall m: Math :: Walk([p], tag, m) == m;
    forall m: Math
      ensures Walk(e.out + [p], tag, m) == Walk(e.out, tag, m)
      ensures Guarded(e.out, tag, m) ==> Guarded(e.out + [p], tag, m)
    {
      WalkConcat(e.out, [p], tag, m);
      NoDollarGuarded(p, tag, Walk(e.out, tag, m));
      if Guarded(e.out, tag, m) {
        GuardedConcat(e.out, [p], tag, m);
      }
    }
  }

  lemma BigAppSound(e: Draft, c: Code, tag: nat -> Tag)
    requires SoundDraft(e, tag) && c != Char('$')
    ensures SoundDraft(BigApp(e, c), tag)
  {
    hide Guarded, ModeOf;
    CodeModes(c);
    SwitchSound(e, ModeOf(c), tag);
    var e1 := Switch(e, ModeOf(c));
    WalkConcat(e1.out, [Tok(c, true)], tag, e1.init);
    NoDollarGuarded(Tok(c, true), tag, e1.cur);
    GuardedConcat(e1.out, [Tok(c, true)], tag, e1.init);
  }

  lemma BigApp1Sound(e: Draft, s: Scrap, tag: nat -> Tag)
    requires SoundDraft(e, tag) && SoundText(s.init, s.end, s.body, tag)
    ensures SoundDraft(BigApp1(e, s), tag)
  {
    hide Guarded, Walk;
    if s.init.Maybe? {
      forall m: Math | m != Maybe
        ensures Walk(e.out, tag, m) != Maybe ==> Walk(e.out + s.body, tag, m) == Walk(e.out, tag, m)
        ensures Guarded(e.out, tag, m) && Walk(e.out, tag, m) != Maybe ==>
                  Guarded(e.out + s.body, tag, m)
      {
        WalkConcat(e.out, s.body, tag, m);
        if Guarded(e.out, tag, m) && Walk(e.out, tag, m) != Maybe {
          GuardedConcat(e.out, s.body, tag, m);
        }
      }
    } else {
      SwitchSound(e, s.init, tag);
      var e1 := Switch(e, s.init);
      WalkConcat(e1.out, s.body, tag, e1.init);
      GuardedConcat(e1.out, s.body, tag, e1.init);
    }
  }

  lemma {:induction false} EmitSound(p: Prog, e: Draft, ss: seq<Scrap>, at: nat, tag: nat -> Tag)
    requires NoDollar(p) && SoundDraft(e, tag) && SoundScraps(ss, tag)
    ensures SoundDraft(Emit(p, e, ss, at), tag)
    decreases p
  {
    hide SoundDraft, Walk, BigApp, BigApp1;
    match p
    case End =>
    case Sc(i, rest) =>
      if at + i < |ss| {
        BigApp1Sound(e, ss[at + i], tag);
        EmitSound(rest, BigApp1(e, ss[at + i]), ss, at, tag);
      }
    case Big(c, rest) =>
      BigAppSound(e, c, tag);
      EmitSound(rest, BigApp(e, c), ss, at, tag);
    case Raw(c, rest) =>
      RawSound(e, c, tag);
      EmitSound(rest, e.(out := e.out + [Tok(c, false)]), ss, at, tag);
    case Reserve(_, rest) => EmitSound(rest, e, ss, at, tag);
  }

  lemma {:induction false} SpreadSound(e: Draft, ss: seq<Scrap>, lo: nat, hi: nat, tag: nat -> Tag)
    requires lo <= hi <= |ss| && SoundDraft(e, tag) && SoundScraps(ss, tag)
    ensures SoundDraft(Spread(e, ss, lo, hi), tag)
    decreases hi - lo
  {
    if lo < hi {
      BigApp1Sound(e, ss[lo], tag);
      SpreadSound(BigApp1(e, ss[lo]), ss, lo + 1, hi, tag);
    }
  }

  lemma ReplaceSound(ss: seq<Scrap>, lo: nat, hi: nat, s: Scrap, tag: nat -> Tag)
    requires lo <= hi <= |ss| && SoundScraps(ss, tag) && SoundText(s.init, s.end, s.body, tag)
    ensures SoundScraps(Replace(ss, lo, hi, s), tag)
  {
    hide SoundText;
  }

  lemma ApplySound(c: Config, r: Rule, chosen: set<nat>, tag: nat -> Tag)
    requires Fits(r, c) && SoundScraps(c.ss, tag)
    requires r.Reduce? ==> (if Discards(r) then DropsText(r) else NoDollar(r.prog))
    ensures SoundScraps(Apply(c, r, chosen).ss, tag)
  {
    hide Walk, Emit, Spread, Replace;
    EmptySound(tag);
    match r
    case NoRule =>
    case Squash(j, k, cat, d, _) =>
      var at := c.pos + j;
      if k == 1 {
        ReplaceSound(c.ss, at, at + 1, c.ss[at].(cat := cat), tag);
      } else {
        SpreadSound(EMPTY_DRAFT, c.ss, at, at + k, tag);
        ReplaceSound(c.ss, at, at + k, Merged(c.ss, at, at + k, cat), tag);
      }
    case Reduce(prog, j, k, cat, d, _) =>
      var ss := AfterReserve(c, prog, chosen);
      if Discards(r) {
        AngleSound(r, ss, c.pos, tag);
      } else {
        EmitSound(prog, EMPTY_DRAFT, ss, c.pos, tag);
      }
      ReplaceSound(ss, c.pos + j, c.pos + j + k, Built(prog, ss, c.pos, cat), tag);
  }

  lemma StepSound(c: Config, chosen: set<nat>, forceLines: bool, tag: nat -> Tag)
    requires Wf(c) && c.pos < |c.ss| && SoundScraps(c.ss, tag)
    ensures SoundScraps(Step(c, chosen, forceLines).ss, tag)
  {
    hide Match, Apply, SoundScraps;
    RuleFits(c, forceLines);
    ApplySound(c, RuleAt(c, forceLines), chosen, tag);
  }

  lemma EmptySound(tag: nat -> Tag)
    ensures SoundDraft(EMPTY_DRAFT, tag)
  {
  }

  lemma AngleSound(r: Rule, ss: seq<Scrap>, at: nat, tag: nat -> Tag)
    requires r.Reduce? && DropsText(r)
    ensures SoundDraft(Emit(r.prog, EMPTY_DRAFT, ss, at), tag)
  {
    var c := r.prog.rest.c;
    assert Emit(r.prog, EMPTY_DRAFT, ss, at) == Draft(Yes, Yes, [Tok(c, false)]);
  }

  /** Every scrap of every run takes its recorded first mode to its recorded last one. */
  lemma {:induction false} RunSound(c: Config, choices: seq<set<nat>>, forceLines: bool,
                                    tag: nat -> Tag)
    requires Wf(c) && SoundScraps(c.ss, tag)
    ensures SoundScraps(Run(c, choices, forceLines).ss, tag)
  {
    hide Step;
    if choices != [] {
      var last := |choices| - 1;
      RunSound(c, choices[..last], forceLines, tag);
      var m := Run(c, choices[..last], forceLines);
      if m.pos < |m.ss| {
        StepSound(m, choices[last], forceLines, tag);
      }
    }
  }

  /** One scrap of the text that translate returns. */
  function FinalPiece(s: Scrap, first: bool): seq<Piece> {
    (if first then [] else [Tok(Char(' '), false)]) +
    (if s.init.Yes? then [Tok(Char('$'), false)] else []) + s.body +
    (if s.end.Yes? then [Tok(Char('$'), false)] else [])
  }

  /** The text that translate returns for the scraps that are left. */
  function FinalText(ss: seq<Scrap>): seq<Piece> {
    if ss == [] then []
    else var last := |ss| - 1; FinalText(ss[..last]) + FinalPiece(ss[last], last == 0)
  }

  lemma FinalPieceSound(s: Scrap, first: bool, tag: nat -> Tag)
    requires SoundText(s.init, s.end, s.body, tag)
    ensures Walk(FinalPiece(s, first), tag, No) == No
  {
    var space := if first then [] else [Tok(Char(' '), false)];
    var open := if s.init.Yes? then [Tok(Char('$'), false)] else [];
    var close := if s.end.Yes? then [Tok(Char('$'), false)] else [];
    WalkConcat(space + open + s.body, close, tag, No);
    WalkConcat(space + open, s.body, tag, No);
    WalkConcat(space, open, tag, No);
    assert Walk(space, tag, No) == No;
    assert Walk(open, tag, No) == if s.init.Yes? then Yes else No;
    if s.end.Yes? {
      assert Walk(close, tag, Yes) == No;
    }
  }

  lemma {:induction false} FinalSound(ss: seq<Scrap>, tag: nat -> Tag)
    requires SoundScraps(ss, tag)
    ensures Walk(FinalText(ss), tag, No) == No
  {
    if ss != [] {
      var last := |ss| - 1;
      FinalSound(ss[..last], tag);
      FinalPieceSound(ss[last], last == 0, tag);
      WalkConcat(FinalText(ss[..last]), FinalPiece(ss[last], last == 0), tag, No);
    }
  }

  /** A configuration of original texts with pp at the start. */
  ghost predicate Fresh(c: Config, tag: nat -> Tag) {
    && Wf(c) && c.pos == 0 && Tagged(tag)
    && forall i :: 0 <= i < |c.ss| ==>
         exists t :: c.ss[i].body == [Leaf(t)] && c.ss[i].init == tag(t).init && c.ss[i].end == tag(t).end
  }

  lemma FreshSound(c: Config, tag: nat -> Tag)
    requires Fresh(c, tag)
    ensures SoundScraps(c.ss, tag)
  {
    forall i | 0 <= i < |c.ss|
      ensures SoundText(c.ss[i].init, c.ss[i].end, c.ss[i].body, tag)
    {
      var t :| c.ss[i].body == [Leaf(t)] && c.ss[i].init == tag(t).init && c.ss[i].end == tag(t).end;
      assert forall m: Math :: Walk([Leaf(t)], tag, m) == Walk([], tag, WalkPiece(Leaf(t), tag, m));
    }
  }

  /**
    Math-mode soundness of translate: reading its result from outside math, every original text
    is met in the mode it starts in, every code from big_app in its own mode, and the reading
    ends outside math again.
   */
  lemma TranslationSound(c: Config, choices: seq<set<nat>>, forceLines: bool, tag: nat -> Tag)
    requires Fresh(c, tag)
    ensures Walk(FinalText(Run(c, choices, forceLines).ss), tag, No) == No
  {
    FreshSound(c, tag);
    RunSound(c, choices, forceLines, tag);
    FinalSound(Run(c, choices, forceLines).ss, tag);
  }

  // ----- Yield

  /** The original texts in a text, in order. */
  function Leaves(body: seq<Piece>): seq<nat> {
    if body == [] then []
    else (if body[0].Leaf? then [body[0].text] else []) + Leaves(body[1..])
  }

  lemma {:induction false} LeavesConcat(a: seq<Piece>, b: seq<Piece>)
    ensures Leaves(a + b) == Leaves(a) + Leaves(b)
  {
    if a == [] {
      assert a + b == b;
    } else {
      assert (a + b)[0] == a[0] && (a + b)[1..] == a[1..] + b;
      LeavesConcat(a[1..], b);
    }
  }

  /** The original texts under a list of scraps, left to right. */
  function Yield(ss: seq<Scrap>): seq<nat> {
    if ss == [] then [] else Leaves(ss[0].body) + Yield(ss[1..])
  }

  lemma {:induction false} YieldConcat(a: seq<Scrap>, b: seq<Scrap>)
    ensures Yield(a + b) == Yield(a) + Yield(b)
  {
    if a == [] {
      assert a + b == b;
    } else {
      assert (a + b)[0] == a[0] && (a + b)[1..] == a[1..] + b;
      YieldConcat(a[1..], b);
    }
  }

  lemma SwitchLeaves(e: Draft, m: Math)
    requires !m.Maybe?
    ensures Leaves(Switch(e, m).out) == Leaves(e.out)
  {
    LeavesConcat(e.out, LEAVE_MATH);
    LeavesConcat(e.out, ENTER_MATH);
  }

  lemma BigAppLeaves(e: Draft, c: Code)
    ensures Leaves(BigApp(e, c).out) == Leaves(e.out)
  {
    SwitchLeaves(e, ModeOf(c));
    LeavesConcat(Switch(e, ModeOf(c)).out, [Tok(c, true)]);
  }

  lemma BigApp1Leaves(e: Draft, s: Scrap)
    ensures Leaves(BigApp1(e, s).out) == Leaves(e.out) + Leaves(s.body)
  {
    if s.init.Maybe? {
      LeavesConcat(e.out, s.body);
    } else {
      SwitchLeaves(e, s.init);
      LeavesConcat(Switch(e, s.init).out, s.body);
    }
  }

  /** A program that lists the scraps lo..hi-1 in order appends exactly their yield. */
  lemma {:induction false} EmitLeaves(p: Prog, e: Draft, ss: seq<Scrap>, at: nat, lo: nat, hi: nat)
    requires NextScrap(p, lo) == hi && at + hi <= |ss|
    ensures lo <= hi
    ensures Leaves(Emit(p, e, ss, at).out) == Leaves(e.out) + Yield(ss[at + lo..at + hi])
    decreases p
  {
    hide BigApp, BigApp1, Leaves;
    match p
    case End =>
    case Sc(i, rest) =>
      NextScrapMonotone(rest, lo + 1);
      EmitLeaves(rest, BigApp1(e, ss[at + i]), ss, at, lo + 1, hi);
      BigApp1Leaves(e, ss[at + i]);
      assert ss[at + lo..at + hi][1..] == ss[at + lo + 1..at + hi];
    case Big(c, rest) =>
      EmitLeaves(rest, BigApp(e, c), ss, at, lo, hi);
      BigAppLeaves(e, c);
    case Raw(c, rest) =>
      EmitLeaves(rest, e.(out := e.out + [Tok(c, false)]), ss, at, lo, hi);
      RawLeaves(e.out, c);
    case Reserve(_, rest) => EmitLeaves(rest, e, ss, at, lo, hi);
  }

  lemma RawLeaves(out: seq<Piece>, c: Code)
    ensures Leaves(out + [Tok(c, false)]) == Leaves(out)
  {
    LeavesConcat(out, [Tok(c, false)]);
  }

  lemma {:induction false} NextScrapMonotone(p: Prog, lo: nat)
    ensures NextScrap(p, lo) >= lo || NextScrap(p, lo) == -1
    decreases p
  {
    match p
    case End =>
    case Sc(i, rest) => NextScrapMonotone(rest, lo + 1);
    case Big(_, rest) => NextScrapMonotone(rest, lo);
    case Raw(_, rest) => NextScrapMonotone(rest, lo);
    case MathOn(_) =>
    case Reserve(_, rest) => NextScrapMonotone(rest, lo);
  }

  lemma {:induction false} SpreadLeaves(e: Draft, ss: seq<Scrap>, lo: nat, hi: nat)
    requires lo <= hi <= |ss|
    ensures Leaves(Spread(e, ss, lo, hi).out) == Leaves(e.out) + Yield(ss[lo..hi])
    decreases hi - lo
  {
    hide BigApp1, Leaves;
    if lo < hi {
      SpreadLeaves(BigApp1(e, ss[lo]), ss, lo + 1, hi);
      BigApp1Leaves(e, ss[lo]);
      assert ss[lo..hi][1..] == ss[lo + 1..hi];
    }
  }

  lemma {:induction false} SameBodiesSameYield(a: seq<Scrap>, b: seq<Scrap>)
    requires |a| == |b| && forall i :: 0 <= i < |a| ==> a[i].body == b[i].body
    ensures Yield(a) == Yield(b)
  {
    if a != [] {
      SameBodiesSameYield(a[1..], b[1..]);
    }
  }

  lemma YieldOne(s: Scrap)
    ensures Yield([s]) == Leaves(s.body)
  {
  }

  lemma CutYield(ss: seq<Scrap>, m: nat)
    requires m <= |ss|
    ensures Yield(ss) == Yield(ss[..m]) + Yield(ss[m..])
  {
    hide Yield;
    assert ss[..m] + ss[m..] == ss;
    YieldConcat(ss[..m], ss[m..]);
  }

  lemma SplitYield(ss: seq<Scrap>, lo: nat, hi: nat)
    requires lo <= hi <= |ss|
    ensures Yield(ss) == Yield(ss[..lo]) + Yield(ss[lo..hi]) + Yield(ss[hi..])
  {
    hide Yield;
    CutYield(ss, hi);
    CutYield(ss[..hi], lo);
    assert ss[..hi][..lo] == ss[..lo] && ss[..hi][lo..] == ss[lo..hi];
  }

  lemma ReplaceYield(ss: seq<Scrap>, lo: nat, hi: nat, s: Scrap)
    requires lo <= hi <= |ss|
    ensures Yield(Replace(ss, lo, hi, s)) == Yield(ss[..lo]) + Leaves(s.body) + Yield(ss[hi..])
  {
    hide Yield, Leaves;
    YieldConcat(ss[..lo] + [s], ss[hi..]);
    YieldConcat(ss[..lo], [s]);
    YieldOne(s);
  }

  lemma SquashYield(c: Config, r: Rule, chosen: set<nat>)
    requires Fits(r, c) && r.Squash?
    ensures Yield(Apply(c, r, chosen).ss) == Yield(c.ss)
  {
    hide Leaves, Yield, Spread, Replace;
    var at := c.pos + r.j;
    SplitYield(c.ss, at, at + r.k);
    if r.k == 1 {
      assert c.ss[at..at + 1] == [c.ss[at]];
      YieldOne(c.ss[at]);
      ReplaceYield(c.ss, at, at + 1, c.ss[at].(cat := r.cat));
    } else {
      EmptyLeaves();
      SpreadLeaves(EMPTY_DRAFT, c.ss, at, at + r.k);
      ReplaceYield(c.ss, at, at + r.k, Merged(c.ss, at, at + r.k, r.cat));
    }
  }

  lemma BuiltYield(prog: Prog, ss: seq<Scrap>, pos: nat, j: nat, k: nat, cat: Cat)
    requires pos + j + k <= |ss| && NextScrap(prog, j) == j + k
    ensures Yield(Replace(ss, pos + j, pos + j + k, Built(prog, ss, pos, cat))) == Yield(ss)
  {
    hide Leaves, Yield, Emit, NextScrap, Replace;
    EmptyLeaves();
    EmitLeaves(prog, EMPTY_DRAFT, ss, pos, j, j + k);
    SplitYield(ss, pos + j, pos + j + k);
    ReplaceYield(ss, pos + j, pos + j + k, Built(prog, ss, pos, cat));
  }

  lemma ReduceYield(c: Config, r: Rule, chosen: set<nat>)
    requires Fits(r, c) && r.Reduce? && ProgOK(r)
    ensures Yield(Apply(c, r, chosen).ss) == Yield(c.ss)
  {
    hide Leaves, Yield, Built, NoDollar, NoReserve, NextScrap, Replace;
    SameBodiesSameYield(c.ss, AfterReserve(c, r.prog, chosen));
    BuiltYield(r.prog, AfterReserve(c, r.prog, chosen), c.pos, r.j, r.k, r.cat);
  }

  /** Every rule but 84 and 85 keeps the yield. */
  lemma ApplyYield(c: Config, r: Rule, chosen: set<nat>)
    requires Fits(r, c) && !Discards(r)
    requires r.Reduce? ==> ProgOK(r)
    ensures Yield(Apply(c, r, chosen).ss) == Yield(c.ss)
  {
    match r
    case NoRule =>
    case Squash(_, _, _, _, _) => SquashYield(c, r, chosen);
    case Reduce(_, _, _, _, _, _) => ReduceYield(c, r, chosen);
  }

  /** 84 and 85 drop all original texts of one scrap. */
  lemma DiscardYield(c: Config, r: Rule, chosen: set<nat>)
    requires Fits(r, c) && Discards(r) && r.j == 0 && r.k == 1 && DropsText(r)
    ensures c.pos < |c.ss|
    ensures Yield(c.ss) == Yield(c.ss[..c.pos]) + Leaves(c.ss[c.pos].body) + Yield(c.ss[c.pos + 1..])
    ensures Yield(Apply(c, r, chosen).ss) == Yield(c.ss[..c.pos]) + Yield(c.ss[c.pos + 1..])
  {
    var s := Built(r.prog, c.ss, c.pos, r.cat);
    assert s.body == [Tok(r.prog.rest.c, false)] && Leaves(s.body) == [];
    hide Leaves, Yield, Built, Replace;
    SplitYield(c.ss, c.pos, c.pos + 1);
    YieldOne(c.ss[c.pos]);
    assert c.ss[c.pos..c.pos + 1] == [c.ss[c.pos]];
    ReplaceYield(c.ss, c.pos, c.pos + 1, s);
  }

  lemma EmptyLeaves()
    ensures Leaves([]) == []
  {
  }

  predicate DropsText(r: Rule)
    requires r.Reduce?
  {
    r.prog == MathOn(Raw(Char('<'), End)) || r.prog == MathOn(Raw(Char('>'), End))
  }

  predicate IsAngle(cat: Cat) {
    cat == PRELANGLE || cat == PRERANGLE
  }

  /** A scrap that production 84 or 85 may rewrite holds at least one original text. */
  predicate Anchored(ss: seq<Scrap>) {
    forall i :: 0 <= i < |ss| && IsAngle(ss[i].cat) ==> Leaves(ss[i].body) != []
  }

  predicate NoAngles(ss: seq<Scrap>) {
    forall i :: 0 <= i < |ss| ==> !IsAngle(ss[i].cat)
  }

  lemma TwoLeaves(ss: seq<Scrap>, at: nat)
    requires at + 2 <= |ss|
    ensures Leaves(Spread(EMPTY_DRAFT, ss, at, at + 2).out) ==
            Leaves(ss[at].body) + Leaves(ss[at + 1].body)
  {
    SpreadLeaves(EMPTY_DRAFT, ss, at, at + 2);
    assert ss[at..at + 2] == [ss[at]] + [ss[at + 1]];
    YieldConcat([ss[at]], [ss[at + 1]]);
    assert Yield([ss[at]]) == Leaves(ss[at].body) && Yield([ss[at + 1]]) == Leaves(ss[at + 1].body);
  }

  lemma ReplaceAngles(ss: seq<Scrap>, lo: nat, hi: nat, s: Scrap)
    requires lo <= hi <= |ss| && Anchored(ss)
    requires IsAngle(s.cat) ==> Leaves(s.body) != [] && exists i :: lo <= i < hi && ss[i].cat == s.cat
    ensures Anchored(Replace(ss, lo, hi, s))
    ensures NoAngles(ss) ==> NoAngles(Replace(ss, lo, hi, s))
  {
    hide Leaves;
    forall i | 0 <= i < |Replace(ss, lo, hi, s)|
      ensures Replace(ss, lo, hi, s)[i] ==
              if i < lo then ss[i] else if i == lo then s else ss[i - lo - 1 + hi]
    {
    }
  }

  lemma SquashAngles(c: Config, r: Rule, chosen: set<nat>)
    requires Fits(r, c) && Anchored(c.ss) && r.Squash?
    requires IsAngle(r.cat) ==>
               && r.k == 2
               && (c.ss[c.pos + r.j].cat == r.cat || c.ss[c.pos + r.j + 1].cat == r.cat)
    ensures Anchored(Apply(c, r, chosen).ss)
    ensures NoAngles(c.ss) ==> NoAngles(Apply(c, r, chosen).ss)
  {
    hide Leaves, Spread, Anchored, NoAngles, Replace;
    var at := c.pos + r.j;
    if r.k == 1 {
      ReplaceAngles(c.ss, at, at + 1, c.ss[at].(cat := r.cat));
    } else {
      if IsAngle(r.cat) {
        TwoLeaves(c.ss, at);
        if c.ss[at].cat == r.cat {
          AnchoredAt(c.ss, at);
        } else {
          AnchoredAt(c.ss, at + 1);
        }
      }
      ReplaceAngles(c.ss, at, at + r.k, Merged(c.ss, at, at + r.k, r.cat));
    }
  }

  lemma AnchoredAt(ss: seq<Scrap>, i: nat)
    requires Anchored(ss) && i < |ss| && IsAngle(ss[i].cat)
    ensures Leaves(ss[i].body) != []
  {
  }

  lemma ReduceAngles(c: Config, r: Rule, chosen: set<nat>)
    requires Fits(r, c) && Anchored(c.ss) && r.Reduce? && !IsAngle(r.cat)
    ensures Anchored(Apply(c, r, chosen).ss)
    ensures NoAngles(c.ss) ==> NoAngles(Apply(c, r, chosen).ss)
  {
    hide Leaves, Emit, Replace;
    var ss := AfterReserve(c, r.prog, chosen);
    ReplaceAngles(ss, c.pos + r.j, c.pos + r.j + r.k, Built(r.prog, ss, c.pos, r.cat));
  }

  lemma ApplyAngles(c: Config, r: Rule, chosen: set<nat>)
    requires Fits(r, c) && Anchored(c.ss)
    requires !r.NoRule? && IsAngle(r.cat) ==>
               && r.Squash? && r.k == 2
               && (c.ss[c.pos + r.j].cat == r.cat || c.ss[c.pos + r.j + 1].cat == r.cat)
    ensures Anchored(Apply(c, r, chosen).ss)
    ensures NoAngles(c.ss) ==> NoAngles(Apply(c, r, chosen).ss)
  {
    hide Leaves, Spread, Emit, Anchored, NoAngles;
    match r
    case NoRule =>
    case Squash(_, _, _, _, _) => SquashAngles(c, r, chosen);
    case Reduce(_, _, _, _, _, _) => ReduceAngles(c, r, chosen);
  }

  /**
    The yield after one step: it is the same if and only if production 84 or 85 did not fire,
    and those drop exactly the original texts of the scrap at pp.
   */
  lemma StepYield(c: Config, chosen: set<nat>, forceLines: bool)
    requires Wf(c) && c.pos < |c.ss| && Anchored(c.ss)
    ensures var c' := Step(c, chosen, forceLines);
            && Anchored(c'.ss)
            && (NoAngles(c.ss) ==> NoAngles(c'.ss) && Yield(c'.ss) == Yield(c.ss))
            && (Yield(c'.ss) == Yield(c.ss) <==> !Discards(RuleAt(c, forceLines)))
            && (Discards(RuleAt(c, forceLines)) ==>
                  && Yield(c'.ss) == Yield(c.ss[..c.pos]) + Yield(c.ss[c.pos + 1..])
                  && |Yield(c'.ss)| < |Yield(c.ss)|)
  {
    hide Match, Apply, Leaves, Yield, ProgOK;
    RuleFits(c, forceLines);
    var r := RuleAt(c, forceLines);
    ApplyAngles(c, r, chosen);
    if Discards(r) {
      DiscardYield(c, r, chosen);
      assert |Yield(Step(c, chosen, forceLines).ss)| < |Yield(c.ss)|;
    } else {
      ApplyYield(c, r, chosen);
    }
  }

  /** The scraps that productions 84 and 85 replace during a run, in order. */
  function Discarded(c: Config, choices: seq<set<nat>>, forceLines: bool): seq<Scrap>
    requires Wf(c)
    decreases |choices|
  {
    if choices == [] then []
    else
      var last := |choices| - 1;
      var m := Run(c, choices[..last], forceLines);
      Discarded(c, choices[..last], forceLines) +
      (if m.pos < |m.ss| && Discards(RuleAt(m, forceLines)) then [m.ss[m.pos]] else [])
  }

  /**
    Yield preservation over whole runs: every original text exactly once and in order, if and
    only if productions 84 and 85 stay out of the run. Without `<` and `>` scraps in the input
    they always do.
   */
  lemma {:induction false} RunYield(c: Config, choices: seq<set<nat>>, forceLines: bool)
    requires Wf(c) && Anchored(c.ss)
    ensures var c' := Run(c, choices, forceLines);
            && Anchored(c'.ss) && |Yield(c'.ss)| <= |Yield(c.ss)|
            && (Yield(c'.ss) == Yield(c.ss) <==> Discarded(c, choices, forceLines) == [])
            && (NoAngles(c.ss) ==> NoAngles(c'.ss) && Yield(c'.ss) == Yield(c.ss))
  {
    hide Step, RuleAt, Yield, Anchored, NoAngles;
    if choices != [] {
      var last := |choices| - 1;
      RunYield(c, choices[..last], forceLines);
      var m := Run(c, choices[..last], forceLines);
      if m.pos < |m.ss| {
        StepYield(m, choices[last], forceLines);
      }
    }
  }

  /** The text translate returns has the yield of the scraps it is made from. */
  lemma {:induction false} FinalYield(ss: seq<Scrap>)
    ensures Leaves(FinalText(ss)) == Yield(ss)
  {
    if ss != [] {
      var last := |ss| - 1;
      FinalYield(ss[..last]);
      FinalPieceLeaves(ss[last], last == 0);
      LeavesConcat(FinalText(ss[..last]), FinalPiece(ss[last], last == 0));
      assert ss == ss[..last] + [ss[last]];
      YieldConcat(ss[..last], [ss[last]]);
      assert Yield([ss[last]]) == Leaves(ss[last].body);
    }
  }

  lemma FinalPieceLeaves(s: Scrap, first: bool)
    ensures Leaves(FinalPiece(s, first)) == Leaves(s.body)
  {
    var space := if first then [] else [Tok(Char(' '), false)];
    var open := if s.init.Yes? then [Tok(Char('$'), false)] else [];
    var close := if s.end.Yes? then [Tok(Char('$'), false)] else [];
    LeavesConcat(space + open + s.body, close);
    LeavesConcat(space + open, s.body);
    LeavesConcat(space, open);
  }

  lemma MergeInsert(s0: Scrap, s1: Scrap)
    requires s0.cat == PRELANGLE && s1.cat == INSERT
    ensures var c' := Step(Config([s0, s1], 0), {}, true);
            c'.pos == 0 && |c'.ss| == 1 && c'.ss[0].cat == PRELANGLE
  {
    assert RuleAt(Config([s0, s1], 0), true) == Squash(0, 2, PRELANGLE, -2, 0);
    hide Match, Spread;
  }

  lemma RewriteLess(s: Scrap)
    requires s.cat == PRELANGLE
    ensures Step(Config([s], 0), {}, true) ==
            Config([Scrap(BINOP, Yes, Yes, [Tok(Char('<'), false)])], 0)
  {
    var r := RuleAt(Config([s], 0), true);
    assert r == MatchPrelangle();
    hide Match;
    assert Emit(r.prog, EMPTY_DRAFT, [s], 0).out == [Tok(Char('<'), false)];
  }

  lemma PassLoneBinop(s: Scrap)
    requires s.cat == BINOP
    ensures Step(Config([s], 0), {}, true) == Config([s], 1)
  {
  }

  /**
    The law that translate keeps all texts is false: a comment after `<` is merged into the
    prelangle scrap and then discarded with it by production 84.
   */
  lemma CommentAfterLessIsLost(comment: nat, less: nat)
    ensures var c := Config([Scrap(PRELANGLE, Yes, Yes, [Leaf(less)]),
                             Scrap(INSERT, No, No, [Leaf(comment)])], 0);
            && Yield(c.ss) == [less, comment]
            && Wf(c)
            && Run(c, [{}, {}, {}], true).pos == 1
            && Leaves(FinalText(Run(c, [{}, {}, {}], true).ss)) == []
  {
    var s0 := Scrap(PRELANGLE, Yes, Yes, [Leaf(less)]);
    var s1 := Scrap(INSERT, No, No, [Leaf(comment)]);
    var s2 := Scrap(BINOP, Yes, Yes, [Tok(Char('<'), false)]);
    assert Yield([s0, s1]) == [less, comment] by {
      assert [s0, s1] == [s0] + [s1] && Leaves(s0.body) == [less] && Leaves(s1.body) == [comment];
      YieldConcat([s0], [s1]);
      YieldOne(s0);
      YieldOne(s1);
    }
    hide Step;
    var c1 := Step(Config([s0, s1], 0), {}, true);
    MergeInsert(s0, s1);
    assert c1 == Config([c1.ss[0]], 0);
    RewriteLess(c1.ss[0]);
    PassLoneBinop(s2);
    RunThree(Config([s0, s1], 0));
    FinalYield([s2]);
    YieldOne(s2);
    assert Leaves(s2.body) == [];
  }

  lemma RunThree(c: Config)
    requires Wf(c) && c.pos < |c.ss|
    ensures var c1 := Step(c, {}, true);
            c1.pos < |c1.ss| ==>
            var c2 := Step(c1, {}, true);
            c2.pos < |c2.ss| ==>
            Run(c, [{}, {}, {}], true) == Step(c2, {}, true)
  {
    hide Step;
    var none: seq<set<nat>> := [{}, {}, {}];
    assert none[..2] == [{}, {}] && none[..2][..1] == [{}] && none[..2][..1][..0] == [];
    assert Run(c, none[..2][..1][..0], true) == c;
    assert Run(c, none[..2][..1], true) == Step(c, {}, true);
  }
}
