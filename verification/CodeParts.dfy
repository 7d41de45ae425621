/**
  C_translate: the scraps of one piece of C text go on top of those that are there, translate turns
  them into one text, and scrap_info is left as it was. Here the promises of the parser become
  unconditional, because every scrap that app_scrap makes has a text of its own.
 */
module CodeParts {
  import opened Grammar
  import opened Rewriting
  import opened ParserTheorems
  import opened Survivors
  import opened TextMemory
  import opened Parser
  import Language
  import Sentences

  /** What C_parse appends and turns into a scrap by app_scrap. */
  datatype Parsed = Parsed(cat: Cat, toks: seq<Token>, mode: Math)

  const CANCEL_SCRAP := Parsed(INSERT, [Fmt(Cancel, false)], Maybe)

  /** Scraps are live, and their tokens mention older texts only. */
  ghost predicate Parseable(parsed: seq<Parsed>, first: nat) {
    forall k :: 0 <= k < |parsed| ==> parsed[k].cat != ZERO && Older(parsed[k].toks, first + k)
  }

  /** The scraps that come in, with texts `first`, `first+1`, ... */
  function Incoming(parsed: seq<Parsed>, first: nat): (ss: seq<Scrap>)
    ensures |ss| == |parsed|
  {
    seq(|parsed|, k requires 0 <= k < |parsed| =>
      Scrap(parsed[k].cat, parsed[k].mode, parsed[k].mode, [Leaf(first + k)]))
  }

  function Numbers(first: nat, n: nat): (ts: seq<nat>)
    ensures |ts| == n
    ensures forall k :: 0 <= k < n ==> ts[k] == first + k
  {
    seq(n, k requires 0 <= k < n => first + k)
  }

  /** The modes that app_scrap records. */
  function Modes(parsed: seq<Parsed>, first: nat): nat -> Tag {
    t => if first <= t < first + |parsed|
         then Tag(parsed[t - first].mode, parsed[t - first].mode) else Tag(Maybe, Maybe)
  }

  /**
    The text holds all texts that came in, in order, but those of the scraps that productions 84
    and 85 replaced; it loses one of another scrap if and only if one of those had been merged,
    which takes a comment in the wrong place; and it reads from outside math to outside math.
   */
  ghost predicate Rendered(parsed: seq<Parsed>, first: nat, choices: seq<set<nat>>,
                           forceLines: bool, text: seq<Piece>)
    requires Wf(Config(Incoming(parsed, first), 0))
  {
    var c := Config(Incoming(parsed, first), 0);
    var all, gone := Numbers(first, |parsed|), Discarded(c, choices, forceLines);
    && Leaves(text) == Without(all, Yield(gone))
    && (Others(Leaves(text), c.ss) == Others(all, c.ss) <==> forall s :: s in gone ==> s in c.ss)
    && (Clear(Kinds(c.ss)) ==> Others(Leaves(text), c.ss) == Others(all, c.ss))
    && Walk(text, Modes(parsed, first), No) == No
  }

  lemma {:induction false} IncomingYield(parsed: seq<Parsed>, first: nat)
    ensures Yield(Incoming(parsed, first)) == Numbers(first, |parsed|)
  {
    if parsed != [] {
      var rest := parsed[..|parsed| - 1];
      var s := Incoming(parsed, first)[|rest|];
      assert Incoming(parsed, first) == Incoming(rest, first) + [s];
      IncomingYield(rest, first);
      YieldConcat(Incoming(rest, first), [s]);
      YieldOne(s);
      assert Leaves(s.body) == [first + |rest|];
    }
  }

  lemma {:induction false} NoAngleHolds(ss: seq<Scrap>, t: nat)
    requires forall s :: s in ss && IsAngle(s.cat) ==> t !in Leaves(s.body)
    ensures t !in Yield(Angles(ss))
  {
    if ss != [] {
      NoAngleHolds(ss[1..], t);
      if IsAngle(ss[0].cat) {
        YieldConcat([ss[0]], Angles(ss[1..]));
        YieldOne(ss[0]);
      } else {
        assert Angles(ss) == Angles(ss[1..]);
      }
    }
  }

  lemma IncomingMarked(parsed: seq<Parsed>, first: nat)
    ensures Marked(Incoming(parsed, first))
  {
    var ss := Incoming(parsed, first);
    forall k | 0 <= k < |ss|
      ensures Leaves(ss[k].body) == [first + k]
    {
    }
    hide Leaves;
    forall s | s in ss && (s.cat == INSERT || s.cat == LPROC)
      ensures Others(Leaves(s.body), ss) != []
    {
      var k :| 0 <= k < |ss| && ss[k] == s;
      NoAngleHolds(ss, first + k);
      WithoutStrangers(Leaves(s.body), Yield(Angles(ss)));
    }
  }

  lemma IncomingFresh(parsed: seq<Parsed>, first: nat)
    requires Wf(Config(Incoming(parsed, first), 0))
    ensures Fresh(Config(Incoming(parsed, first), 0), Modes(parsed, first))
  {
    var c, tag := Config(Incoming(parsed, first), 0), Modes(parsed, first);
    forall i | 0 <= i < |c.ss|
      ensures exists t :: c.ss[i].body == [Leaf(t)] && c.ss[i].init == tag(t).init &&
                          c.ss[i].end == tag(t).end
    {
      assert c.ss[i].body == [Leaf(first + i)] && tag(first + i) == Tag(parsed[i].mode, parsed[i].mode);
    }
  }

  lemma PromiseRendered(parsed: seq<Parsed>, first: nat, choices: seq<set<nat>>, forceLines: bool,
                        text: seq<Piece>)
    requires Wf(Config(Incoming(parsed, first), 0))
    requires Promised(Config(Incoming(parsed, first), 0), choices, forceLines, text)
    ensures Rendered(parsed, first, choices, forceLines, text)
  {
    hide Yield, Leaves, Discarded, Walk, Fresh, Marked, Without, Others, Incoming, Modes, Clear, Kinds;
    IncomingYield(parsed, first);
    IncomingMarked(parsed, first);
    IncomingFresh(parsed, first);
  }

  // ----- The state between pieces of C text

  /** All texts are original ones, and the scraps that are there are in order. */
  ghost predicate Idle(w: Weaver)
    reads w, w.scrap, w.mem, w.mem.tok, w.mem.start
  {
    && w.mem.Settled() && 1 <= w.scrapBase <= w.scrapPtr + 1 && w.scrapPtr + 5 <= w.scrap.Length
    && CellsOK(w.scrap[1..w.scrapPtr + 1], w.mem.textPtr)
  }

  method NewWeaver(toks: nat, texts: nat, scraps: nat) returns (w: Weaver)
    requires texts > 1 && scraps >= 6
    ensures fresh(w) && fresh(w.mem) && Idle(w) && w.scrapPtr == 0
  {
    var mem := new Texts(toks, texts);
    w := new Weaver(mem, scraps);
  }

  /** app_scrap, after the tokens of its text were appended. */
  method AppScrap(w: Weaver, x: Parsed) returns (ok: bool)
    requires Idle(w) && x.cat != ZERO && Older(x.toks, w.mem.textPtr)
    modifies w`scrapPtr, w.scrap, w.mem, w.mem.tok, w.mem.start
    ensures ok <==> && old(w.scrapPtr) + 6 <= w.scrap.Length
                    && old(w.mem.tokPtr) + |x.toks| <= w.mem.tok.Length
                    && old(w.mem.textPtr) + 1 < w.mem.start.Length
    ensures Idle(w)
    ensures !ok ==> && w.scrapPtr == old(w.scrapPtr) && w.mem.tokPtr == old(w.mem.tokPtr)
                    && w.mem.textPtr == old(w.mem.textPtr)
    ensures ok ==> && w.scrapPtr == old(w.scrapPtr) + 1 && w.mem.textPtr == old(w.mem.textPtr) + 1
                   && w.scrap[..w.scrapPtr + 1] == old(w.scrap[..w.scrapPtr + 1]) +
                                                   [Cell(x.cat, old(w.mem.textPtr), x.mode, x.mode)]
                   && w.mem.tok[..w.mem.tokPtr] == old(w.mem.tok[..w.mem.tokPtr]) + x.toks
  {
    if w.scrapPtr + 6 > w.scrap.Length {
      return false;
    }
    ghost var cells := w.scrap[..w.scrapPtr + 1];
    var trans := w.mem.textPtr;
    hide Expansions;
    ok := w.mem.AppOriginal(x.toks);
    if ok {
      w.scrapPtr := w.scrapPtr + 1;
      w.scrap[w.scrapPtr] := Cell(x.cat, trans, x.mode, x.mode);
      assert w.scrap[..w.scrapPtr + 1] == cells + [Cell(x.cat, trans, x.mode, x.mode)];
      assert w.scrap[1..w.scrapPtr + 1] == cells[1..] + [Cell(x.cat, trans, x.mode, x.mode)];
    }
  }

  function CellsFor(parsed: seq<Parsed>, first: nat): (cells: seq<Cell>)
    ensures |cells| == |parsed|
  {
    seq(|parsed|, k requires 0 <= k < |parsed| =>
      Cell(parsed[k].cat, first + k, parsed[k].mode, parsed[k].mode))
  }

  lemma CellsForConv(parsed: seq<Parsed>, first: nat)
    ensures ConvAll(CellsFor(parsed, first), Originals(first + |parsed|)) == Incoming(parsed, first)
  {
  }

  /** Room for the scraps of one piece of C text, and for what the parser makes of them. */
  ghost predicate Scarce(w: Weaver, parsed: seq<Parsed>)
    reads w`scrapPtr, w.mem
  {
    || w.scrapPtr + 6 > w.scrap.Length
    || w.mem.tokPtr + 20 >= w.mem.tok.Length || w.mem.textPtr + 10 >= w.mem.start.Length
    || exists x :: x in parsed && w.mem.tokPtr + |x.toks| > w.mem.tok.Length
  }

  method AppScraps(w: Weaver, parsed: seq<Parsed>) returns (ok: bool)
    requires Idle(w) && Parseable(parsed, w.mem.textPtr)
    modifies w`scrapPtr, w.scrap, w.mem, w.mem.tok, w.mem.start
    ensures Idle(w)
    ensures !ok ==> Scarce(w, parsed)
    ensures ok ==> && w.scrapPtr == old(w.scrapPtr) + |parsed|
                   && w.mem.textPtr == old(w.mem.textPtr) + |parsed|
                   && w.scrap[..w.scrapPtr + 1] ==
                      old(w.scrap[..w.scrapPtr + 1]) + CellsFor(parsed, old(w.mem.textPtr))
    ensures ok ==> old(w.mem.tokPtr) <= w.mem.tokPtr &&
                   w.mem.tok[..old(w.mem.tokPtr)] == old(w.mem.tok[..w.mem.tokPtr])
  {
    var k := 0;
    ghost var first, cells, toks := w.mem.textPtr, w.scrap[..w.scrapPtr + 1], w.mem.tok[..w.mem.tokPtr];
    while k < |parsed|
      invariant 0 <= k <= |parsed| && Idle(w)
      invariant w.scrapPtr == old(w.scrapPtr) + k && w.mem.textPtr == first + k
      invariant w.scrap[..w.scrapPtr + 1] == cells + CellsFor(parsed[..k], first)
      invariant toks <= w.mem.tok[..w.mem.tokPtr]
    {
      assert parsed[..k + 1] == parsed[..k] + [parsed[k]] && parsed[k] in parsed;
      ok := AppScrap(w, parsed[k]);
      if !ok { return; }
      k := k + 1;
    }
    assert parsed[..k] == parsed;
    ok := true;
  }

  /** What one translation leaves behind: a text that renders what came in, and its parts. */
  ghost predicate Outcome(w: Weaver, all: seq<Parsed>, first: nat, forceLines: bool, p: nat,
                          body: seq<seq<Piece>>, choices: seq<set<nat>>)
    reads w.mem, w.mem.tok, w.mem.start
  {
    var c := Config(Incoming(all, first), 0);
    && p < |body| == w.mem.textPtr && w.mem.Valid()
    && Expansions(w.mem.tok[..w.mem.tokPtr], w.mem.start[..w.mem.textPtr + 1], body, first + |all|)
    && Wf(c) && Run(c, choices, forceLines).pos == |Run(c, choices, forceLines).ss|
    && body[p] == FinalText(Run(c, choices, forceLines).ss)
    && Rendered(all, first, choices, forceLines, body[p])
  }

  /** translate on scraps that were appended, when nothing else is open. */
  method TranslateAppended(w: Weaver, all: seq<Parsed>, ghost first: nat, forceLines: bool)
    returns (ok: bool, p: nat, ghost body: seq<seq<Piece>>, ghost choices: seq<set<nat>>)
    requires w.mem.Settled() && w.mem.textPtr == first + |all| && Parseable(all, first)
    requires w.scrapBase <= w.scrapPtr + 1 && w.scrapPtr + 5 <= w.scrap.Length
    requires w.scrap[w.scrapBase..w.scrapPtr + 1] == CellsFor(all, first)
    modifies w`pp, w`loPtr, w`hiPtr, w.scrap, w.mem, w.mem.tok, w.mem.start
    ensures !ok ==> w.mem.tokPtr + 20 >= w.mem.tok.Length || w.mem.textPtr + 10 >= w.mem.start.Length
    ensures ok ==> && w.mem.Settled() && w.mem.textPtr >= old(w.mem.textPtr)
                   && w.scrap[..w.scrapBase] == old(w.scrap[..w.scrapBase])
    ensures ok ==> old(w.mem.tokPtr) <= w.mem.tokPtr &&
                   Kept(old(w.mem.tok[..w.mem.tokPtr]), w.mem.tok[..old(w.mem.tokPtr)])
    ensures ok ==> Outcome(w, all, first, forceLines, p, body, choices)
  {
    hide Expansions, Expand, Incoming, Run, FinalText, Rendered, Promised, Kept, ConvAll, CellsFor,
         Parseable, CellsOK, InOrder, Originals;
    NothingOpen(w.mem);
    OriginalBodies(w.mem);
    CellsForConv(all, first);
    CellsForLive(all, first, w.mem.textPtr);
    ok, p, choices := w.Translate(forceLines);
    body := w.mem.body;
    if !ok { return; }
    PromiseRendered(all, first, choices, forceLines, body[p]);
    MoreTexts(w.mem);
    w.mem.Settle();
  }

  lemma NothingOpen(mem: Texts)
    requires mem.Settled()
    ensures mem.Open() == []
  {
    assert mem.tok[..mem.tokPtr][mem.start[mem.textPtr]..] == [];
  }

  method TranslateTop(w: Weaver, all: seq<Parsed>, forceLines: bool)
    returns (ok: bool, p: nat, ghost body: seq<seq<Piece>>, ghost choices: seq<set<nat>>)
    requires Idle(w) && Parseable(all, w.mem.textPtr) && w.scrapBase == w.scrapPtr + 1
    modifies w`scrapPtr, w`pp, w`loPtr, w`hiPtr, w.scrap, w.mem, w.mem.tok, w.mem.start
    ensures !ok ==> Scarce(w, all)
    ensures ok ==> && w.mem.Settled() && w.mem.textPtr >= old(w.mem.textPtr)
                   && w.scrap[..w.scrapBase] == old(w.scrap[..w.scrapBase])
    ensures ok ==> old(w.mem.tokPtr) <= w.mem.tokPtr &&
                   Kept(old(w.mem.tok[..w.mem.tokPtr]), w.mem.tok[..old(w.mem.tokPtr)])
    ensures ok ==> Outcome(w, all, old(w.mem.textPtr), forceLines, p, body, choices)
  {
    hide Expansions, Kept, CellsFor, CellsOK, Outcome;
    p, body, choices := 0, [], [];
    ghost var first, cells, toks := w.mem.textPtr, w.scrap[..w.scrapBase], w.mem.tok[..w.mem.tokPtr];
    ok := AppScraps(w, all);
    if !ok { return; }
    assert w.scrap[w.scrapBase..w.scrapPtr + 1] == CellsFor(all, first);
    assert w.scrap[..w.scrapBase] == cells;
    ghost var before := w.mem.tok[..w.mem.tokPtr];
    ok, p, body, choices := TranslateAppended(w, all, first, forceLines);
    if !ok { return; }
    KeptPrefix(toks, before, w.mem.tok[..|before|]);
    assert w.mem.tok[..|before|][..|toks|] == w.mem.tok[..|toks|];
  }

  lemma KeptPrefix(toks: seq<Token>, before: seq<Token>, after: seq<Token>)
    requires toks <= before && |before| == |after| && Kept(before, after)
    ensures Kept(toks, after[..|toks|])
  {
  }

  lemma CellsForLive(all: seq<Parsed>, first: nat, texts: nat)
    requires Parseable(all, first) && texts == first + |all|
    ensures CellsOK(CellsFor(all, first), texts) && InOrder(CellsFor(all, first), texts)
  {
  }

  /**
    C_translate, given what C_parse makes of the C text. The translation keeps what it should, the
    scraps below are as before, and everything is ready for the next piece of C text.
   */
  method CTranslate(w: Weaver, parsed: seq<Parsed>, forceLines: bool)
    returns (ok: bool, p: nat, ghost body: seq<seq<Piece>>, ghost choices: seq<set<nat>>)
    requires Idle(w) && Parseable(parsed, w.mem.textPtr)
    modifies w, w.scrap, w.mem, w.mem.tok, w.mem.start
    ensures !ok ==> Scarce(w, parsed)
    ensures ok ==> && Idle(w) && w.scrapBase == old(w.scrapBase) && w.scrapPtr == old(w.scrapPtr)
                   && w.scrap[..w.scrapPtr + 1] == old(w.scrap[..w.scrapPtr + 1])
    ensures ok ==> old(w.mem.tokPtr) <= w.mem.tokPtr &&
                   Kept(old(w.mem.tok[..w.mem.tokPtr]), w.mem.tok[..old(w.mem.tokPtr)])
    ensures ok ==> Outcome(w, parsed + [CANCEL_SCRAP], old(w.mem.textPtr), forceLines, p, body,
                           choices)
  {
    hide Expansions, Outcome, Kept;
    var all := parsed + [CANCEL_SCRAP];
    ghost var cells := w.scrap[..w.scrapPtr + 1];
    var saveBase := w.scrapBase;
    w.scrapBase := w.scrapPtr + 1;
    ok, p, body, choices := TranslateTop(w, all, forceLines);
    if !ok { return; }
    assert w.scrap[..w.scrapBase] == cells;
    w.scrapPtr := w.scrapBase - 1;
    w.scrapBase := saveBase;
    assert w.scrap[1..w.scrapPtr + 1] == cells[1..];
  }

  /** The categories of what C_parse has appended, comments left aside. */
  function Spoken(parsed: seq<Parsed>): seq<Cat> {
    Sentences.Strip(Sentences.Cats(Incoming(parsed, 0)))
  }

  lemma SpokenCats(parsed: seq<Parsed>, first: nat)
    ensures Sentences.Cats(Incoming(parsed, first)) == Sentences.Cats(Incoming(parsed, 0))
  {
  }

  /** The final cancel is an insert like a comment. */
  lemma SpokenAll(parsed: seq<Parsed>)
    ensures Spoken(parsed + [CANCEL_SCRAP]) == Spoken(parsed)
  {
    var cs := Sentences.Cats(Incoming(parsed, 0));
    assert Sentences.Cats(Incoming(parsed + [CANCEL_SCRAP], 0)) == cs + [INSERT];
    Sentences.StripConcat(cs, [INSERT]);
    assert Sentences.Strip([INSERT]) == [];
  }

  /**
    C_translate on an expression or a list of statements: the translation is the text of a single
    scrap of category exp or stmt, and all texts but those of comparisons are in it, in order, if and
    only if no comment stands directly behind a `<` or `>`.
   */
  lemma SentenceRendered(g: Language.Goal, w: Weaver, parsed: seq<Parsed>, first: nat,
                         forceLines: bool, p: nat, body: seq<seq<Piece>>, choices: seq<set<nat>>)
    requires Outcome(w, parsed + [CANCEL_SCRAP], first, forceLines, p, body, choices)
    requires Language.Sentence(g, Spoken(parsed))
    ensures var c := Config(Incoming(parsed + [CANCEL_SCRAP], first), 0);
            var ss := Run(c, choices, forceLines).ss;
            && |ss| == 1 && ss[0].cat == Language.Phrase(g) && p < |body| && body[p] == FinalText(ss)
            && (Others(Leaves(body[p]), c.ss) == Others(Yield(c.ss), c.ss) <==>
                Sentences.Separated(c.ss))
  {
    var all := parsed + [CANCEL_SCRAP];
    var c := Config(Incoming(all, first), 0);
    SpokenAll(parsed);
    SpokenCats(all, first);
    IncomingMarked(all, first);
    hide Incoming, Run, FinalText, Rendered, Others, Leaves, Yield, Expansions, Language.Sentence,
         Sentences.Strip, Sentences.Separated, Marked;
    Sentences.SentenceParsed(g, c, choices, forceLines);
    var ss := Run(c, choices, forceLines).ss;
    FinalYield(ss);
    YieldOne(ss[0]);
    assert ss == [ss[0]];
  }

  lemma MoreTexts(mem: Texts)
    requires mem.Valid()
    ensures mem.base <= mem.textPtr
  {
  }

  lemma OriginalBodies(mem: Texts)
    requires mem.Settled()
    ensures mem.body == Originals(mem.textPtr)
  {
    forall t | 0 <= t < mem.textPtr
      ensures mem.body[t] == [Leaf(t)]
    {
      assert TextOK(mem.tok[..mem.tokPtr], mem.start[..mem.textPtr + 1], mem.body, mem.base, t);
    }
  }
}
