/**
  What the productions are for: the scrap parser turns every expression into one exp scrap and every
  list of statements into one stmt scrap, of whatever length and nesting and with comments anywhere.
 */
module Sentences {
  import opened Grammar
  import opened Rewriting
  import opened ParserTheorems
  import opened Survivors
  import opened Language

  // ----- Comments

  /** The categories without the inserts. */
  function Strip(cs: seq<Cat>): seq<Cat> {
    if cs == [] then [] else (if cs[0] == INSERT then [] else [cs[0]]) + Strip(cs[1..])
  }

  lemma {:induction false} StripConcat(a: seq<Cat>, b: seq<Cat>)
    ensures Strip(a + b) == Strip(a) + Strip(b)
  {
    if a == [] {
      assert a + b == b;
    } else {
      assert (a + b)[0] == a[0] && (a + b)[1..] == a[1..] + b;
      StripConcat(a[1..], b);
    }
  }

  lemma {:induction false} StripNothing(cs: seq<Cat>)
    requires INSERT !in cs
    ensures Strip(cs) == cs
  {
    if cs != [] {
      assert forall c :: c in cs[1..] ==> c in cs;
      StripNothing(cs[1..]);
    }
  }

  /** Without an insert among the first n categories, these stay where they are. */
  lemma StripFront(cs: seq<Cat>, n: nat)
    requires n <= |cs| && INSERT !in cs[..n]
    ensures Strip(cs) == cs[..n] + Strip(cs[n..])
  {
    hide *;
    Cut(cs, n);
    StripParts(cs[..n], cs[n..]);
  }

  lemma Cut(cs: seq<Cat>, n: nat)
    requires n <= |cs|
    ensures cs[..n] + cs[n..] == cs
  {
  }

  lemma StripParts(front: seq<Cat>, rest: seq<Cat>)
    requires INSERT !in front
    ensures Strip(front + rest) == front + Strip(rest)
  {
    hide Strip;
    StripConcat(front, rest);
    StripNothing(front);
  }

  function Removed(cs: seq<Cat>, q: nat): seq<Cat>
    requires q < |cs|
  {
    cs[..q] + cs[q + 1..]
  }

  lemma StripRemoved(cs: seq<Cat>, q: nat)
    requires q < |cs| && cs[q] == INSERT
    ensures Strip(Removed(cs, q)) == Strip(cs)
  {
    hide Strip;
    var front, rest := cs[..q], cs[q + 1..];
    assert cs == front + ([INSERT] + rest);
    StripConcat(front, [INSERT] + rest);
    StripConcat(front, rest);
    StripInsert(rest);
  }

  lemma StripInsert(cs: seq<Cat>)
    ensures Strip([INSERT] + cs) == Strip(cs)
  {
    assert ([INSERT] + cs)[1..] == cs;
  }

  // ----- Runs of the parser

  function Cats(ss: seq<Scrap>): (cs: seq<Cat>)
    ensures |cs| == |ss| && forall i :: 0 <= i < |ss| ==> cs[i] == ss[i].cat
  {
    seq(|ss|, i requires 0 <= i < |ss| => ss[i].cat)
  }

  /** The inserts up to the position have been merged, but for one that is the first scrap. */
  predicate CommentsMerged(cs: seq<Cat>, p: nat) {
    && (forall i :: 1 <= i <= p && i < |cs| ==> cs[i] != INSERT)
    && (p > 0 && cs != [] ==> cs[0] != INSERT)
  }

  /**
    The window is an expression with comments; before the position nothing is left to do and all
    comments are merged.
   */
  ghost predicate Parsing(g: Goal, c: Config) {
    var cs := Cats(c.ss);
    Sentence(g, Strip(cs)) && Quiet(cs, c.pos) && CommentsMerged(cs, c.pos)
  }

  /** Which insert, if any, is merged next: one of the three behind the position, or at it. */
  function InView(cs: seq<Cat>, p: nat): (q: int)
    ensures q == -1 || (p <= q <= p + 3 && q < |cs| && cs[q] == INSERT)
    ensures q == -1 ==> forall k :: p <= k <= p + 3 && k < |cs| ==> cs[k] != INSERT
  {
    if Get(cs, p + 1) == INSERT then p + 1
    else if Get(cs, p + 2) == INSERT then p + 2
    else if Get(cs, p + 3) == INSERT then p + 3
    else if Get(cs, p) == INSERT then p
    else -1
  }

  /** The categories and the position after one round. */
  function Stepped(cs: seq<Cat>, p: nat): (seq<Cat>, nat)
    requires p < |cs|
  {
    var q := InView(cs, p);
    var f := FoldAt(cs, p);
    if q == p then (Removed(cs, q), p)
    else if q != -1 then (Removed(cs, q), Move(p, q - p - 3))
    else if f.k == 0 || p + f.k > |cs| then (cs, p + 1)
    else (Folded(cs, p, f.k, f.cat), Move(p, 0 - f.back))
  }

  lemma {:induction false} StripMembers(cs: seq<Cat>, i: nat)
    requires i < |cs| && cs[i] != INSERT
    ensures cs[i] in Strip(cs)
  {
    if i > 0 {
      StripMembers(cs[1..], i - 1);
      assert cs[1..][i - 1] == cs[i];
    }
  }

  /** Without an insert in view the front of the window is that of the expression. */
  lemma FrontView(cs: seq<Cat>, p: nat)
    requires p < |cs| && CommentsMerged(cs, p) && InView(cs, p) == -1
    ensures var n := if p + 4 <= |cs| then p + 4 else |cs|;
            INSERT !in cs[..n] && Strip(cs) == cs[..n] + Strip(cs[n..])
    ensures p < |Strip(cs)| && forall k :: 0 <= k <= p + 3 ==> Get(Strip(cs), k) == Get(cs, k)
  {
    var n := if p + 4 <= |cs| then p + 4 else |cs|;
    forall i | 0 <= i < n
      ensures cs[..n][i] != INSERT
    {
    }
    hide Strip, Get, InView;
    StripFront(cs, n);
    assert cs[..n][p] == cs[p];
    GetFront(cs, n, p);
  }

  lemma GetFront(cs: seq<Cat>, n: nat, p: nat)
    requires n <= |cs| && (n == p + 4 || n == |cs|)
    requires Strip(cs) == cs[..n] + Strip(cs[n..])
    ensures forall k :: 0 <= k <= p + 3 ==> Get(Strip(cs), k) == Get(cs, k)
  {
    if n == |cs| {
      assert cs[n..] == [] && Strip([]) == [];
    }
  }

  /** Without the comments the front of the window is as quiet as with them. */
  lemma StripQuiet(cs: seq<Cat>, p: nat)
    requires p < |cs| && CommentsMerged(cs, p) && InView(cs, p) == -1 && Quiet(cs, p)
    ensures p < |Strip(cs)| && Quiet(Strip(cs), p)
    ensures forall k :: 0 <= k <= p + 3 ==> Get(Strip(cs), k) == Get(cs, k)
  {
    hide InView, Strip, CommentsMerged, FoldAll;
    FrontView(cs, p);
    var ds := Strip(cs);
    assert forall k :: 0 <= k <= p + 3 && k < |ds| ==> ds[k] == Get(ds, k) == Get(cs, k);
    forall i | 0 <= i < p && i < |ds|
      ensures !Fires(ds, i)
    {
      assert Get(cs, i) == cs[i] && !Fires(cs, i);
    }
  }

  /** The production at the position does what Fold says. */
  lemma RuleHere(g: Goal, c: Config, forceLines: bool)
    requires Wf(c) && c.pos < |c.ss| && Sentence(g, Strip(Cats(c.ss)))
    requires CommentsMerged(Cats(c.ss), c.pos) && InView(Cats(c.ss), c.pos) == -1
    requires Quiet(Cats(c.ss), c.pos)
    ensures Fits(RuleAt(c, forceLines), c)
    ensures Does(RuleAt(c, forceLines), FoldAt(Cats(c.ss), c.pos))
  {
    hide Match, FoldAll, RuleOK, Sentence, InView, Strip, Does, Neighbours, InLanguage, Quiet;
    var cs, p := Cats(c.ss), c.pos;
    StripQuiet(cs, p);
    NeighboursAt(g, Strip(cs), p);
    assert Get(Strip(cs), p) == Strip(cs)[p];
    RuleFolds(Get(cs, p), Get(cs, p + 1), Get(cs, p + 2), Get(cs, p + 3), forceLines);
    RuleFits(c, forceLines);
  }

  /** An insert in view is merged: into the scrap on its left, or, if it is first, on its right. */
  lemma MergeHere(g: Goal, c: Config, forceLines: bool)
    requires Wf(c) && c.pos < |c.ss| && Sentence(g, Strip(Cats(c.ss)))
    requires CommentsMerged(Cats(c.ss), c.pos) && InView(Cats(c.ss), c.pos) != -1
    ensures var cs, p, r := Cats(c.ss), c.pos, RuleAt(c, forceLines);
            var q := InView(cs, p);
            && Fits(r, c) && r.Squash? && r.k == 2
            && (if q == p then p == 0 && r.j == 0 && 1 < |cs| && r.cat == cs[1] && r.d == 0
                else p + r.j == q - 1 && r.cat == cs[q - 1] && r.d == q - p - 3)
  {
    hide MatchOn, RuleOK, Sentence, Strip;
    var cs, p := Cats(c.ss), c.pos;
    RuleFits(c, forceLines);
    SentenceLanguage(g, Strip(cs));
    forall k | p <= k < |cs| && cs[k] != INSERT
      ensures InLanguage(cs[k])
    {
      StripMembers(cs, k);
    }
    if InView(cs, p) == p {
      FirstInsert(g, cs);
      assert MatchOn(INSERT, cs[1], Get(cs, 2), Get(cs, 3), forceLines) == MatchInsert(cs[1]) by {
        InsertSwitch(cs[1], Get(cs, 2), Get(cs, 3), forceLines);
      }
    }
  }

  lemma FirstInsert(g: Goal, cs: seq<Cat>)
    requires Sentence(g, Strip(cs)) && cs != [] && cs[0] == INSERT
    ensures |cs| > 1
  {
    assert Strip([INSERT]) == [];
    assert |cs| == 1 ==> cs == [INSERT];
  }

  lemma InsertSwitch(c1: Cat, c2: Cat, c3: Cat, forceLines: bool)
    ensures MatchOn(INSERT, c1, c2, c3, forceLines) == MatchInsert(c1)
  {
  }

  lemma StepFolds(g: Goal, c: Config, chosen: set<nat>, forceLines: bool)
    requires Wf(c) && c.pos < |c.ss| && Sentence(g, Strip(Cats(c.ss)))
    requires CommentsMerged(Cats(c.ss), c.pos) && Quiet(Cats(c.ss), c.pos)
    ensures var c' := Step(c, chosen, forceLines);
            (Cats(c'.ss), c'.pos) == Stepped(Cats(c.ss), c.pos)
  {
    hide RuleAt, FoldAll, Sentence, Strip, Apply, Folded, Get, InView, CommentsMerged, Quiet;
    var r := RuleAt(c, forceLines);
    var cs, p := Cats(c.ss), c.pos;
    if InView(cs, p) != -1 {
      MergeHere(g, c, forceLines);
      RuleApplies(c, r, chosen);
      FoldedRemoves(cs, p + r.j, InView(cs, p));
    } else {
      RuleHere(g, c, forceLines);
      if r.NoRule? {
        NoRuleStays(c, chosen);
      } else {
        RuleApplies(c, r, chosen);
      }
    }
  }

  lemma FoldedRemoves(cs: seq<Cat>, at: nat, q: nat)
    requires at + 2 <= |cs| && (q == at || q == at + 1)
    ensures Folded(cs, at, 2, if q == at then cs[at + 1] else cs[at]) == Removed(cs, q)
  {
  }

  /** What a production puts in place of the scraps it consumes. */
  lemma RuleApplies(c: Config, r: Rule, chosen: set<nat>)
    requires Fits(r, c) && !r.NoRule? && (r.Reduce? ==> !r.prog.Reserve?)
    ensures var (c', at) := (Apply(c, r, chosen), c.pos + r.j);
            && at + r.k <= |c.ss|
            && c'.ss == Replace(c.ss, at, at + r.k, Made(c, r, chosen))
            && Cats(c'.ss) == Folded(Cats(c.ss), at, r.k, r.cat) && c'.pos == Move(c.pos, r.d)
  {
    hide *;
    NothingReserved(c, r, chosen);
    ApplyIs(c, r, chosen);
    ReplacedCats(c.ss, c.pos + r.j, c.pos + r.j + r.k, Made(c, r, chosen));
  }

  lemma NothingReserved(c: Config, r: Rule, chosen: set<nat>)
    requires Fits(r, c) && !r.NoRule? && (r.Reduce? ==> !r.prog.Reserve?)
    ensures Staying(c, r, chosen) == c.ss && c.pos + r.j + r.k <= |c.ss|
  {
  }

  lemma ReplacedCats(ss: seq<Scrap>, lo: nat, hi: nat, s: Scrap)
    requires lo <= hi <= |ss|
    ensures Cats(Replace(ss, lo, hi, s)) == Folded(Cats(ss), lo, hi - lo, s.cat)
  {
  }

  lemma ParsingStep(g: Goal, c: Config, chosen: set<nat>, forceLines: bool)
    requires Wf(c) && c.pos < |c.ss| && Parsing(g, c)
    ensures Parsing(g, Step(c, chosen, forceLines))
  {
    hide Step, Sentence, FoldAt, Quiet, Cats, Folded, Strip, InView, Removed, CommentsMerged,
         NoIfInTail;
    var cs, p := Cats(c.ss), c.pos;
    StepFolds(g, c, chosen, forceLines);
    if InView(cs, p) != -1 {
      StripRemoved(cs, InView(cs, p));
      NeverLater(cs, p);
      QuietRemoved(cs, p);
    } else {
      FoldStripped(g, cs, p);
      StripQuiet(cs, p);
      NoIfHere(g, Strip(cs), p);
      NoIfFront(cs, Strip(cs), p);
      QuietAfter(cs, p);
    }
  }

  lemma NoIfFront(cs: seq<Cat>, ds: seq<Cat>, p: nat)
    requires NoIfInTail(ds, p) && forall k :: 0 <= k <= p + 3 ==> Get(ds, k) == Get(cs, k)
    ensures NoIfInTail(cs, p)
  {
  }

  lemma NeverLater(cs: seq<Cat>, p: nat)
    requires CommentsMerged(cs, p) && p < |cs|
    ensures InView(cs, p) == p ==> p == 0
  {
  }

  lemma FoldStripped(g: Goal, cs: seq<Cat>, p: nat)
    requires Sentence(g, Strip(cs)) && p < |cs| && CommentsMerged(cs, p) && InView(cs, p) == -1
    requires Quiet(cs, p)
    ensures Sentence(g, Strip(Stepped(cs, p).0))
    ensures p + FoldAt(cs, p).k <= |cs|
  {
    hide Sentence, InView, CommentsMerged, Strip, FoldAll, FoldAt, Get, Folded, Quiet;
    FrontView(cs, p);
    StripQuiet(cs, p);
    SameFold(cs, p);
    GetInside(cs, p);
    FoldKeeps(g, Strip(cs), p);
    var f := FoldAt(cs, p);
    if f.k > 0 {
      StripFolded(cs, if p + 4 <= |cs| then p + 4 else |cs|, p, f.k, f.cat);
    }
  }

  /** Stripped of what is behind, the same production is seen. */
  lemma SameFold(cs: seq<Cat>, p: nat)
    requires p < |cs| && CommentsMerged(cs, p) && InView(cs, p) == -1
    ensures p < |Strip(cs)| && FoldAt(Strip(cs), p) == FoldAt(cs, p)
  {
    hide InView, CommentsMerged, Strip, FoldAll;
    FrontView(cs, p);
    assert Get(Strip(cs), p) == Get(cs, p) == cs[p];
  }

  lemma StripFolded(cs: seq<Cat>, n: nat, p: nat, k: nat, cat: Cat)
    requires p + k <= n <= |cs| && INSERT !in cs[..n] && cat != INSERT
    requires Strip(cs) == cs[..n] + Strip(cs[n..])
    ensures p + k <= |Strip(cs)| && Strip(Folded(cs, p, k, cat)) == Folded(Strip(cs), p, k, cat)
  {
    hide Strip;
    var rest, front := cs[n..], cs[..p] + [cat] + cs[p + k..n];
    assert Folded(cs, p, k, cat) == front + rest;
    StripConcat(front, rest);
    assert forall c :: c in front ==> c == cat || c in cs[..n];
    StripNothing(front);
    FoldFront(cs[..n], Strip(rest), p, k, cat);
    assert cs[..n][..p] == cs[..p] && cs[..n][p + k..] == cs[p + k..n];
  }

  lemma FoldFront(a: seq<Cat>, b: seq<Cat>, p: nat, k: nat, cat: Cat)
    requires p + k <= |a|
    ensures Folded(a + b, p, k, cat) == a[..p] + [cat] + a[p + k..] + b
  {
  }

  /** Before an insert that is merged nothing changes. */
  lemma QuietRemoved(cs: seq<Cat>, p: nat)
    requires p < |cs| && Quiet(cs, p) && CommentsMerged(cs, p) && InView(cs, p) != -1
    requires InView(cs, p) == p ==> p == 0
    ensures Quiet(Stepped(cs, p).0, Stepped(cs, p).1)
    ensures CommentsMerged(Stepped(cs, p).0, Stepped(cs, p).1)
  {
    hide FoldAll;
    var q := InView(cs, p);
    var (ds, p') := Stepped(cs, p);
    assert forall i :: 0 <= i < q && i < |ds| ==> ds[i] == cs[i];
    forall i | 0 <= i < p' && i < |ds|
      ensures !Fires(ds, i)
    {
      assert !Fires(cs, i);
      assert i + 3 < q;
    }
  }

  /** Far enough before a production nothing has changed. */
  lemma QuietAfter(cs: seq<Cat>, p: nat)
    requires p < |cs| && Quiet(cs, p) && CommentsMerged(cs, p) && NoIfInTail(cs, p)
    requires InView(cs, p) == -1
    ensures Quiet(Stepped(cs, p).0, Stepped(cs, p).1)
    ensures CommentsMerged(Stepped(cs, p).0, Stepped(cs, p).1)
  {
    var (ds, p') := Stepped(cs, p);
    var f := FoldAt(cs, p);
    GetInside(cs, p);
    hide FoldAt, InView, NoIfInTail;
    if f.k == 0 {
      assert forall i :: 0 <= i < p + 1 && i < |cs| ==> !Fires(cs, i);
    } else {
      forall i | 0 <= i < p'
        ensures !Fires(ds, i)
      {
        StillQuiet(cs, p, i);
      }
    }
  }

  lemma {:induction false} ParsingRun(g: Goal, c: Config, choices: seq<set<nat>>, forceLines: bool)
    requires Wf(c) && Parsing(g, c)
    ensures Parsing(g, Run(c, choices, forceLines))
    decreases |choices|
  {
    hide Step, Parsing;
    if choices != [] {
      var last := |choices| - 1;
      ParsingRun(g, c, choices[..last], forceLines);
      var m := Run(c, choices[..last], forceLines);
      if m.pos < |m.ss| {
        ParsingStep(g, m, choices[last], forceLines);
      }
    }
  }

  lemma ParsingEnd(g: Goal, c: Config)
    requires Parsing(g, c) && c.pos == |c.ss|
    ensures |c.ss| == 1 && c.ss[0].cat == Phrase(g)
  {
    var cs := Cats(c.ss);
    assert INSERT !in cs;
    hide Sentence, Quiet, Strip;
    StripNothing(cs);
    QuietIsPhrase(g, cs);
    assert c.ss[0].cat == cs[0];
  }

  // ----- Which texts come through

  /** No comment stands directly behind a `<` or `>`. */
  predicate Separated(ss: seq<Scrap>) {
    forall i :: 0 < i < |ss| && IsAngle(ss[i - 1].cat) ==> ss[i].cat != INSERT
  }

  lemma {:induction false} LedSentence(g: Goal, cs: seq<Cat>, ks: seq<Cat>, after: bool)
    requires Sentence(g, Strip(cs)) && |ks| == |cs|
    requires forall i :: 0 <= i < |cs| ==> ks[i] == Kind(cs[i])
    ensures Led(ks, after)
    decreases |cs|
  {
    if cs != [] {
      if cs[0] == INSERT {
        assert Strip(cs) == Strip(cs[1..]);
        LedSentence(g, cs[1..], ks[1..], true);
      } else {
        StripMembers(cs, 0);
        SentenceLanguage(g, Strip(cs));
        assert Strip(cs)[0] == cs[0];
        Alive(g, Strip(cs), 0);
        Alive(g, Strip(cs), 1);
      }
    }
  }

  lemma ClearSentence(g: Goal, ss: seq<Scrap>)
    requires Sentence(g, Strip(Cats(ss))) && Separated(ss)
    ensures Clear(Kinds(ss))
  {
    hide Sentence, Strip, Led;
    LedSentence(g, Cats(ss), Kinds(ss), false);
  }

  /** The scrap holds a text that no `<` or `>` scrap held at the start. */
  predicate Holds(s: Scrap, orig: seq<Scrap>) {
    Others(Leaves(s.body), orig) != []
  }

  /** The `<` or `>` at place i has such a text, or a comment behind it that will be merged into it. */
  predicate Doomed(ss: seq<Scrap>, i: nat, orig: seq<Scrap>) {
    && i < |ss| && IsAngle(ss[i].cat)
    && (Holds(ss[i], orig) ||
        (i + 1 < |ss| && ss[i + 1].cat == INSERT && Holds(ss[i + 1], orig)))
  }

  /** The scraps lo..hi-1 give way to one that holds their texts; a doomed place stays doomed. */
  lemma DoomedReplace(ss: seq<Scrap>, lo: nat, hi: nat, s: Scrap, i: nat, orig: seq<Scrap>)
    returns (j: nat)
    requires lo < hi <= |ss| && Doomed(ss, i, orig)
    requires lo <= i < hi ==> IsAngle(s.cat) && Holds(s, orig)
    requires lo == i + 1 && ss[lo].cat == INSERT && Holds(ss[lo], orig) ==>
               s.cat == INSERT && Holds(s, orig)
    ensures Doomed(Replace(ss, lo, hi, s), j, orig)
  {
    hide Holds, IsAngle;
    var ds := Replace(ss, lo, hi, s);
    forall x | 0 <= x < |ds|
      ensures ds[x] == if x < lo then ss[x] else if x == lo then s else ss[x + hi - lo - 1]
    {
      ReplaceAt(ss, lo, hi, s, x);
    }
    j := if i < lo then i else if i < hi then lo else i - (hi - lo) + 1;
  }

  lemma TwoHold(ss: seq<Scrap>, at: nat, s: Scrap, orig: seq<Scrap>)
    requires at + 2 <= |ss| && Leaves(s.body) == Yield(ss[at..at + 2])
    requires Holds(ss[at], orig) || Holds(ss[at + 1], orig)
    ensures Holds(s, orig)
  {
    hide Leaves, Yield, Others;
    var two := ss[at..at + 2];
    assert two[0] == ss[at] && two[1] == ss[at + 1];
    OneOthers(two, if Holds(ss[at], orig) then 0 else 1, orig);
  }

  /** An insert at q is merged with its neighbour: a doomed place stays doomed. */
  lemma InsertDoomed(ss: seq<Scrap>, at: nat, q: nat, s: Scrap, i: nat, orig: seq<Scrap>)
    returns (j: nat)
    requires at + 2 <= |ss| && (q == at || q == at + 1) && ss[q].cat == INSERT
    requires s.cat == ss[if q == at then at + 1 else at].cat
    requires Leaves(s.body) == Yield(ss[at..at + 2])
    requires q == at ==> at == 0 && (2 < |ss| ==> ss[2].cat != INSERT)
    requires Doomed(ss, i, orig)
    ensures Doomed(Replace(ss, at, at + 2, s), j, orig)
  {
    hide Replace, Holds, Leaves, Yield;
    if Holds(ss[at], orig) || Holds(ss[at + 1], orig) {
      TwoHold(ss, at, s, orig);
    }
    j := DoomedReplace(ss, at, at + 2, s, i, orig);
  }

  /** A comment is merged: a doomed place stays doomed. */
  lemma MergeDoomed(g: Goal, c: Config, chosen: set<nat>, forceLines: bool, i: nat, orig: seq<Scrap>)
    returns (j: nat)
    requires Wf(c) && c.pos < |c.ss| && Parsing(g, c) && InView(Cats(c.ss), c.pos) != -1
    requires Doomed(c.ss, i, orig)
    ensures Doomed(Step(c, chosen, forceLines).ss, j, orig)
  {
    hide Sentence, Strip, Quiet, Apply, Replace, Made, Doomed, RuleAt, Cats, Match, Leaves, Yield;
    var r, p := RuleAt(c, forceLines), c.pos;
    var q := InView(Cats(c.ss), p);
    MergeHere(g, c, forceLines);
    RuleApplies(c, r, chosen);
    MadeLeaves(c, r, chosen);
    MadeCat(c, r, chosen);
    assert Get(Cats(c.ss), 2) == INSERT && q == 0 ==> false;
    j := InsertDoomed(c.ss, p + r.j, q, Made(c, r, chosen), i, orig);
  }

  /** A production of the switch consumes an angle only as the scrap it rewrites. */
  lemma FoldNoAngle(cs: seq<Cat>, p: nat, i: nat)
    requires p < |cs| && p <= i < p + FoldAt(cs, p).k && i < |cs|
    ensures IsAngle(cs[i]) ==> i == p && FoldAt(cs, p).k == 1
  {
  }

  lemma FoldDiscards(g: Goal, c: Config, forceLines: bool)
    requires Wf(c) && c.pos < |c.ss| && Sentence(g, Strip(Cats(c.ss)))
    requires CommentsMerged(Cats(c.ss), c.pos) && InView(Cats(c.ss), c.pos) == -1
    ensures IsAngle(c.ss[c.pos].cat) ==> Discards(RuleAt(c, forceLines))
  {
    hide Sentence, Strip, InView;
    var cs, p := Cats(c.ss), c.pos;
    FrontView(cs, p);
    SentenceLanguage(g, Strip(cs));
    AngleRule(cs[p], Get(cs, p + 1), Get(cs, p + 2), Get(cs, p + 3), forceLines);
  }

  lemma AngleRule(c0: Cat, c1: Cat, c2: Cat, c3: Cat, forceLines: bool)
    requires forall c :: c in [c1, c2, c3] ==> InLanguage(c) || c == ZERO
    ensures IsAngle(c0) ==> Discards(Match(c0, c1, c2, c3, forceLines))
  {
    hide Match, MatchOn;
    PlainMatch(c0, c1, c2, c3, forceLines);
    AngleSwitch(c0, c1, c2, c3, forceLines);
  }

  lemma AngleSwitch(c0: Cat, c1: Cat, c2: Cat, c3: Cat, forceLines: bool)
    ensures IsAngle(c0) ==> Discards(MatchOn(c0, c1, c2, c3, forceLines))
  {
  }

  /** Another production: a doomed place stays doomed, or its texts are lost. */
  lemma FoldDoomed(g: Goal, c: Config, chosen: set<nat>, forceLines: bool, i: nat, orig: seq<Scrap>)
    returns (j: nat)
    requires Wf(c) && c.pos < |c.ss| && Parsing(g, c) && InView(Cats(c.ss), c.pos) == -1
    requires Doomed(c.ss, i, orig)
    ensures var ss := Step(c, chosen, forceLines).ss;
            Doomed(ss, j, orig) || |Others(Yield(ss), orig)| < |Others(Yield(c.ss), orig)|
  {
    hide Sentence, Strip, Quiet, Apply, Replace, Made, RuleAt, Cats, Match, Others, Yield,
         Leaves, FoldAt;
    var r, cs, p := RuleAt(c, forceLines), Cats(c.ss), c.pos;
    RuleHere(g, c, forceLines);
    j := i;
    if r.NoRule? {
      NoRuleStays(c, chosen);
    } else {
      RuleApplies(c, r, chosen);
      FoldDiscards(g, c, forceLines);
      assert cs[i] == c.ss[i].cat && (i + 1 < |cs| ==> cs[i + 1] == c.ss[i + 1].cat);
      if i == p {
        DiscardOthers(c, chosen, forceLines, orig);
      } else {
        if p <= i < p + r.k {
          FoldNoAngle(cs, p, i);
        }
        j := DoomedReplace(c.ss, p, p + r.k, Made(c, r, chosen), i, orig);
      }
    }
  }

  lemma StepOthers(c: Config, chosen: set<nat>, forceLines: bool, orig: seq<Scrap>)
    requires Wf(c) && c.pos < |c.ss|
    ensures |Others(Yield(Step(c, chosen, forceLines).ss), orig)| <= |Others(Yield(c.ss), orig)|
  {
    hide Step, RuleAt, Yield, Leaves, Others;
    StepLoses(c, chosen, forceLines);
    if Discards(RuleAt(c, forceLines)) {
      DiscardOthers(c, chosen, forceLines, orig);
    }
  }

  /** Over a run what is doomed stays doomed or is lost. */
  lemma {:induction false} RunDoomed(g: Goal, c: Config, choices: seq<set<nat>>, forceLines: bool,
                                     i: nat)
    returns (j: nat)
    requires Wf(c) && Parsing(g, c) && Doomed(c.ss, i, c.ss)
    ensures var ss := Run(c, choices, forceLines).ss;
            Doomed(ss, j, c.ss) || |Others(Yield(ss), c.ss)| < |Others(Yield(c.ss), c.ss)|
    ensures |Others(Yield(Run(c, choices, forceLines).ss), c.ss)| <= |Others(Yield(c.ss), c.ss)|
    decreases |choices|
  {
    hide Step, Parsing, Doomed, Others, Yield;
    j := i;
    if choices != [] {
      var last := |choices| - 1;
      j := RunDoomed(g, c, choices[..last], forceLines, i);
      ParsingRun(g, c, choices[..last], forceLines);
      var m := Run(c, choices[..last], forceLines);
      if m.pos < |m.ss| {
        StepOthers(m, choices[last], forceLines, c.ss);
        if Doomed(m.ss, j, c.ss) {
          if InView(Cats(m.ss), m.pos) != -1 {
            j := MergeDoomed(g, m, choices[last], forceLines, j, c.ss);
          } else {
            j := FoldDoomed(g, m, choices[last], forceLines, j, c.ss);
          }
        }
      }
    }
  }

  lemma ParsingStart(g: Goal, c: Config)
    requires c.pos == 0 && Sentence(g, Strip(Cats(c.ss)))
    ensures Parsing(g, c)
  {
  }

  /**
    Every expression and every list of statements is parsed completely, with whatever comments there
    are: a run that has passed the last scrap, as every run that is long enough has, leaves one scrap
    of category exp or stmt. All texts but those of comparisons are in it, in order, if and only if no
    comment stands directly behind a `<` or `>`.
   */
  lemma SentenceParsed(g: Goal, c: Config, choices: seq<set<nat>>, forceLines: bool)
    requires Wf(c) && c.pos == 0 && Sentence(g, Strip(Cats(c.ss)))
    ensures |choices| >= Bound(|c.ss| + 1) ==>
              Run(c, choices, forceLines).pos == |Run(c, choices, forceLines).ss|
    ensures var e := Run(c, choices, forceLines);
            e.pos == |e.ss| ==>
              && |e.ss| == 1 && e.ss[0].cat == Phrase(g)
              && (NoAngles(c.ss) ==> Leaves(e.ss[0].body) == Yield(c.ss))
              && (Separated(c.ss) ==>
                    Others(Leaves(e.ss[0].body), c.ss) == Others(Yield(c.ss), c.ss))
              && (Marked(c.ss) && !Separated(c.ss) ==>
                    Others(Leaves(e.ss[0].body), c.ss) != Others(Yield(c.ss), c.ss))
  {
    hide Run, Sentence, Strip, Others, Leaves, Yield, Parsing;
    ParsingStart(g, c);
    ParsingRun(g, c, choices, forceLines);
    if |choices| >= Bound(|c.ss| + 1) {
      ParserTerminates(c, choices, forceLines);
    }
    var e := Run(c, choices, forceLines);
    if e.pos == |e.ss| {
      ParsingEnd(g, e);
      assert e.ss == [e.ss[0]];
      YieldOne(e.ss[0]);
      if NoAngles(c.ss) {
        RunYield(c, choices, forceLines);
      }
      if Separated(c.ss) {
        ClearSentence(g, c.ss);
        ClearSurvive(c, choices, forceLines);
      } else if Marked(c.ss) {
        BehindAngle(g, c, choices, forceLines);
      }
    }
  }

  lemma BehindAngle(g: Goal, c: Config, choices: seq<set<nat>>, forceLines: bool)
    requires Wf(c) && c.pos == 0 && Sentence(g, Strip(Cats(c.ss)))
    requires Marked(c.ss) && !Separated(c.ss)
    requires var e := Run(c, choices, forceLines); |e.ss| == 1 && e.ss[0].cat == Phrase(g)
    ensures Others(Yield(Run(c, choices, forceLines).ss), c.ss) != Others(Yield(c.ss), c.ss)
  {
    hide Run, Sentence, Strip, Others, Leaves, Yield, Parsing;
    ParsingStart(g, c);
    var i :| 0 < i < |c.ss| && IsAngle(c.ss[i - 1].cat) && c.ss[i].cat == INSERT;
    assert c.ss[i] in c.ss;
    var j := RunDoomed(g, c, choices, forceLines, i - 1);
  }
}
