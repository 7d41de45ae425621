/**
  Which original texts survive a run of the scrap parser. Productions 84 and 85 throw away the
  text of one scrap each time they fire, which is harmless as long as that scrap is a `<` or `>`
  just as it came in.
 */
module Survivors {
  import opened Grammar
  import opened Rewriting
  import opened ParserTheorems

  // ----- Texts without some others

  function Without(ts: seq<nat>, gone: seq<nat>): seq<nat> {
    if ts == [] then []
    else (if ts[0] in gone then [] else [ts[0]]) + Without(ts[1..], gone)
  }

  predicate Distinct(ts: seq<nat>) {
    forall i, j :: 0 <= i < j < |ts| ==> ts[i] != ts[j]
  }

  lemma {:induction false} WithoutConcat(a: seq<nat>, b: seq<nat>, gone: seq<nat>)
    ensures Without(a + b, gone) == Without(a, gone) + Without(b, gone)
  {
    if a == [] {
      assert a + b == b;
    } else {
      assert (a + b)[0] == a[0] && (a + b)[1..] == a[1..] + b;
      WithoutConcat(a[1..], b, gone);
    }
  }

  lemma {:induction false} WithoutStrangers(ts: seq<nat>, gone: seq<nat>)
    requires forall t :: t in ts ==> t !in gone
    ensures Without(ts, gone) == ts
  {
    if ts != [] {
      WithoutStrangers(ts[1..], gone);
    }
  }

  lemma {:induction false} WithoutAll(ts: seq<nat>, gone: seq<nat>)
    requires forall t :: t in ts ==> t in gone
    ensures Without(ts, gone) == []
  {
    if ts != [] {
      WithoutAll(ts[1..], gone);
    }
  }

  lemma {:induction false} WithoutTwice(ts: seq<nat>, a: seq<nat>, b: seq<nat>)
    ensures Without(Without(ts, a), b) == Without(ts, a + b)
  {
    if ts != [] {
      WithoutTwice(ts[1..], a, b);
      if ts[0] in a {
        assert Without(ts, a) == Without(ts[1..], a);
      } else {
        assert Without(ts, a) == [ts[0]] + Without(ts[1..], a);
        assert Without(ts, a)[1..] == Without(ts[1..], a);
      }
    }
  }

  lemma {:induction false} WithoutDistinct(ts: seq<nat>, gone: seq<nat>)
    requires Distinct(ts)
    ensures Distinct(Without(ts, gone))
    ensures forall t :: t in Without(ts, gone) ==> t in ts
  {
    if ts != [] {
      WithoutDistinct(ts[1..], gone);
      assert ts[0] !in ts[1..];
    }
  }

  lemma DistinctParts(a: seq<nat>, b: seq<nat>)
    requires Distinct(a + b)
    ensures Distinct(a) && Distinct(b)
    ensures forall t :: t in a ==> t !in b
  {
    var all := a + b;
    assert forall i :: 0 <= i < |a| ==> all[i] == a[i];
    assert forall i :: 0 <= i < |b| ==> all[|a| + i] == b[i];
  }

  /** Of distinct texts, taking out a stretch is taking out its members. */
  lemma TakeOut(a: seq<nat>, b: seq<nat>, c: seq<nat>)
    requires Distinct(a + b + c)
    ensures Without(a + b + c, b) == a + c
  {
    hide Without, Distinct;
    DistinctParts(a + b, c);
    DistinctParts(a, b);
    assert forall t :: t in b ==> t in a + b;
    WithoutConcat(a + b, c, b);
    WithoutConcat(a, b, b);
    WithoutStrangers(a, b);
    WithoutAll(b, b);
    WithoutStrangers(c, b);
  }

  // ----- What is lost

  lemma StepLoses(c: Config, chosen: set<nat>, forceLines: bool)
    requires Wf(c) && c.pos < |c.ss|
    ensures var ss := Step(c, chosen, forceLines).ss;
            if Discards(RuleAt(c, forceLines)) then
              && IsAngle(c.ss[c.pos].cat)
              && Yield(c.ss) ==
                 Yield(c.ss[..c.pos]) + Leaves(c.ss[c.pos].body) + Yield(c.ss[c.pos + 1..])
              && Yield(ss) == Yield(c.ss[..c.pos]) + Yield(c.ss[c.pos + 1..])
            else Yield(ss) == Yield(c.ss)
  {
    hide Match, Apply, Leaves, Yield, ProgOK;
    RuleFits(c, forceLines);
    var r := RuleAt(c, forceLines);
    if Discards(r) {
      DiscardYield(c, r, chosen);
    } else {
      ApplyYield(c, r, chosen);
    }
  }

  lemma YieldMore(ss: seq<Scrap>, s: Scrap)
    ensures Yield(ss + [s]) == Yield(ss) + Leaves(s.body)
  {
    YieldConcat(ss, [s]);
    YieldOne(s);
  }

  lemma DiscardedMore(c: Config, choices: seq<set<nat>>, forceLines: bool)
    requires Wf(c) && choices != []
    ensures var last := |choices| - 1;
            var m, was := Run(c, choices[..last], forceLines), Discarded(c, choices[..last], forceLines);
            && (m.pos < |m.ss| && Discards(RuleAt(m, forceLines)) ==>
                  && Discarded(c, choices, forceLines) == was + [m.ss[m.pos]]
                  && Yield(Discarded(c, choices, forceLines)) == Yield(was) + Leaves(m.ss[m.pos].body))
            && (m.pos >= |m.ss| || !Discards(RuleAt(m, forceLines)) ==>
                  Discarded(c, choices, forceLines) == was)
  {
    hide Step, RuleAt, Yield, Leaves;
    var last := |choices| - 1;
    var m := Run(c, choices[..last], forceLines);
    if m.pos < |m.ss| {
      YieldMore(Discarded(c, choices[..last], forceLines), m.ss[m.pos]);
    }
  }

  /** Nothing appears or disappears but the texts of the discarded scraps, copies counted. */
  lemma {:induction false} RunConserves(c: Config, choices: seq<set<nat>>, forceLines: bool)
    requires Wf(c)
    ensures multiset(Yield(c.ss)) == multiset(Yield(Run(c, choices, forceLines).ss)) +
                                     multiset(Yield(Discarded(c, choices, forceLines)))
  {
    hide Step, RuleAt, Yield, Leaves;
    if choices == [] {
      assert Yield([]) == [] by { YieldEmpty(); }
    } else {
      var last := |choices| - 1;
      RunConserves(c, choices[..last], forceLines);
      DiscardedMore(c, choices, forceLines);
      var m := Run(c, choices[..last], forceLines);
      if m.pos < |m.ss| {
        StepLoses(m, choices[last], forceLines);
      }
    }
  }

  lemma YieldEmpty()
    ensures Yield([]) == []
  {
  }

  /**
    What a run leaves of distinct original texts: all of them in their order, except exactly those
    of the discarded scraps.
   */
  lemma {:induction false} RunLoses(c: Config, choices: seq<set<nat>>, forceLines: bool)
    requires Wf(c) && Distinct(Yield(c.ss))
    ensures Yield(Run(c, choices, forceLines).ss) ==
            Without(Yield(c.ss), Yield(Discarded(c, choices, forceLines)))
  {
    hide Step, RuleAt, Yield, Leaves, Distinct;
    if choices == [] {
      YieldEmpty();
      WithoutStrangers(Yield(c.ss), []);
    } else {
      var last := |choices| - 1;
      RunLoses(c, choices[..last], forceLines);
      DiscardedMore(c, choices, forceLines);
      var m, gone := Run(c, choices[..last], forceLines), Discarded(c, choices[..last], forceLines);
      WithoutDistinct(Yield(c.ss), Yield(gone));
      if m.pos < |m.ss| {
        StepLoses(m, choices[last], forceLines);
        if Discards(RuleAt(m, forceLines)) {
          var s := m.ss[m.pos];
          TakeOut(Yield(m.ss[..m.pos]), Leaves(s.body), Yield(m.ss[m.pos + 1..]));
          WithoutTwice(Yield(c.ss), Yield(gone), Leaves(s.body));
        }
      }
    }
  }

  // ----- Texts of other scraps

  function Angles(ss: seq<Scrap>): seq<Scrap> {
    if ss == [] then []
    else (if IsAngle(ss[0].cat) then [ss[0]] else []) + Angles(ss[1..])
  }

  /** The texts of `ts` that no `<` or `>` scrap of `ss` holds. */
  function Others(ts: seq<nat>, ss: seq<Scrap>): seq<nat> {
    Without(ts, Yield(Angles(ss)))
  }

  /** Inserts and lprocs hold a text that no `<` or `>` scrap holds. */
  predicate Marked(ss: seq<Scrap>) {
    forall s :: s in ss && (s.cat == INSERT || s.cat == LPROC) ==> Others(Leaves(s.body), ss) != []
  }

  lemma {:induction false} AnglesHold(ss: seq<Scrap>, s: Scrap)
    requires s in ss && IsAngle(s.cat)
    ensures forall t :: t in Leaves(s.body) ==> t in Yield(Angles(ss))
  {
    if ss[0] == s {
      assert Angles(ss) == [s] + Angles(ss[1..]);
      YieldConcat([s], Angles(ss[1..]));
      YieldOne(s);
    } else {
      AnglesHold(ss[1..], s);
      if IsAngle(ss[0].cat) {
        YieldConcat([ss[0]], Angles(ss[1..]));
      } else {
        assert Angles(ss) == Angles(ss[1..]);
      }
    }
  }

  lemma OthersConcat(a: seq<nat>, b: seq<nat>, ss: seq<Scrap>)
    ensures Others(a + b, ss) == Others(a, ss) + Others(b, ss)
  {
    WithoutConcat(a, b, Yield(Angles(ss)));
  }

  lemma DiscardOthers(c: Config, chosen: set<nat>, forceLines: bool, orig: seq<Scrap>)
    requires Wf(c) && c.pos < |c.ss| && Discards(RuleAt(c, forceLines))
    ensures IsAngle(c.ss[c.pos].cat)
    ensures var (now, was) := (Others(Yield(Step(c, chosen, forceLines).ss), orig),
                               Others(Yield(c.ss), orig));
            && |was| == |now| + |Others(Leaves(c.ss[c.pos].body), orig)|
            && (Others(Leaves(c.ss[c.pos].body), orig) == [] ==> now == was)
  {
    hide Step, RuleAt, Yield, Leaves, Others;
    StepLoses(c, chosen, forceLines);
    var a, b, d := Yield(c.ss[..c.pos]), Leaves(c.ss[c.pos].body), Yield(c.ss[c.pos + 1..]);
    OthersConcat(a + b, d, orig);
    OthersConcat(a, b, orig);
    OthersConcat(a, d, orig);
  }

  /** Discarding only scraps that came in as they are loses texts of `<` and `>` scraps only. */
  lemma {:induction false} OriginalsOnly(c: Config, choices: seq<set<nat>>, forceLines: bool)
    requires Wf(c)
    requires forall s :: s in Discarded(c, choices, forceLines) ==> s in c.ss
    ensures Others(Yield(Run(c, choices, forceLines).ss), c.ss) == Others(Yield(c.ss), c.ss)
  {
    hide Step, RuleAt, Yield, Leaves, Others;
    if choices != [] {
      var last := |choices| - 1;
      DiscardedMore(c, choices, forceLines);
      var m, was := Run(c, choices[..last], forceLines), Discarded(c, choices[..last], forceLines);
      assert was <= Discarded(c, choices, forceLines);
      OriginalsOnly(c, choices[..last], forceLines);
      if m.pos < |m.ss| {
        if Discards(RuleAt(m, forceLines)) {
          DiscardOthers(m, choices[last], forceLines, c.ss);
          AngleOthers(c.ss, m.ss[m.pos]);
        } else {
          StepLoses(m, choices[last], forceLines);
        }
      }
    }
  }

  lemma AngleOthers(ss: seq<Scrap>, s: Scrap)
    requires s in ss && IsAngle(s.cat)
    ensures Others(Leaves(s.body), ss) == []
  {
    AnglesHold(ss, s);
    WithoutAll(Leaves(s.body), Yield(Angles(ss)));
  }

  // ----- Where the scraps of a window come from

  /**
    A `<` or `>` scrap is one that came in or holds another scrap's text; inserts and lprocs hold
    such a text.
   */
  predicate Traced(s: Scrap, orig: seq<Scrap>) {
    && (IsAngle(s.cat) ==> s in orig || Others(Leaves(s.body), orig) != [])
    && (s.cat == INSERT || s.cat == LPROC ==> Others(Leaves(s.body), orig) != [])
  }

  predicate AllTraced(ss: seq<Scrap>, orig: seq<Scrap>) {
    forall i :: 0 <= i < |ss| ==> Traced(ss[i], orig)
  }

  /** The scraps that a production leaves in place, and the one it makes. */
  function Staying(c: Config, r: Rule, chosen: set<nat>): seq<Scrap> {
    if r.Reduce? then AfterReserve(c, r.prog, chosen) else c.ss
  }

  function Made(c: Config, r: Rule, chosen: set<nat>): Scrap
    requires Fits(r, c) && !r.NoRule?
  {
    var at := c.pos + r.j;
    match r
    case Squash(_, k, cat, _, _) =>
      if k == 1 then c.ss[at].(cat := cat) else Merged(c.ss, at, at + k, cat)
    case Reduce(prog, _, _, cat, _, _) => Built(prog, AfterReserve(c, prog, chosen), c.pos, cat)
  }

  lemma ApplyIs(c: Config, r: Rule, chosen: set<nat>)
    requires Fits(r, c) && !r.NoRule?
    ensures |Staying(c, r, chosen)| == |c.ss|
    ensures var at := c.pos + r.j;
            Apply(c, r, chosen) ==
            Config(Replace(Staying(c, r, chosen), at, at + r.k, Made(c, r, chosen)), Move(c.pos, r.d))
    ensures Made(c, r, chosen).cat == r.cat
  {
    hide Emit, Spread, Replace, Reserved;
  }

  lemma KeptScrap(c: Config, r: Rule, chosen: set<nat>, i: nat)
    requires i < |c.ss|
    ensures |Staying(c, r, chosen)| == |c.ss|
    ensures var s := Staying(c, r, chosen)[i];
            s.body == c.ss[i].body && (s == c.ss[i] || s.cat == RAW_INT)
  {
  }

  /** The scrap a production makes holds the texts of those it consumes. */
  lemma MadeLeaves(c: Config, r: Rule, chosen: set<nat>)
    requires Fits(r, c) && !r.NoRule? && !Discards(r)
    requires r.Reduce? ==> ProgOK(r)
    ensures Leaves(Made(c, r, chosen).body) == Yield(c.ss[c.pos + r.j..c.pos + r.j + r.k])
  {
    hide Leaves, Yield, Spread, Built, NoDollar, NoReserve, NextScrap, AfterReserve;
    var lo := c.pos + r.j;
    match r
    case Squash(_, k, _, _, _) =>
      EmptyLeaves();
      if k == 1 {
        YieldOne(c.ss[lo]);
        assert c.ss[lo..lo + 1] == [c.ss[lo]];
      } else {
        SpreadLeaves(EMPTY_DRAFT, c.ss, lo, lo + k);
      }
    case Reduce(prog, j, k, cat, _, _) =>
      var ss := AfterReserve(c, prog, chosen);
      BuiltLeaves(prog, ss, c.pos, j, k, cat);
      var was, now := c.ss[lo..lo + k], ss[lo..lo + k];
      forall i | 0 <= i < |was|
        ensures was[i].body == now[i].body
      {
        KeptScrap(c, r, chosen, lo + i);
      }
      SameBodiesSameYield(was, now);
  }

  lemma BuiltLeaves(prog: Prog, ss: seq<Scrap>, pos: nat, j: nat, k: nat, cat: Cat)
    requires NextScrap(prog, j) == j + k && pos + j + k <= |ss|
    ensures Leaves(Built(prog, ss, pos, cat).body) == Yield(ss[pos + j..pos + j + k])
  {
    hide Leaves, Yield, Emit, NextScrap;
    EmptyLeaves();
    EmitLeaves(prog, EMPTY_DRAFT, ss, pos, j, j + k);
  }

  lemma ReplaceAt(ss: seq<Scrap>, lo: nat, hi: nat, s: Scrap, i: nat)
    requires lo <= hi <= |ss| && i < |Replace(ss, lo, hi, s)|
    ensures lo < |Replace(ss, lo, hi, s)| && i != lo ==> (if i < lo then i else i + hi - lo - 1) < |ss|
    ensures Replace(ss, lo, hi, s)[i] ==
            if i < lo then ss[i] else if i == lo then s else ss[i + hi - lo - 1]
  {
  }

  /** The other scraps stay, but make_reserved may make an exp a raw_int. */
  lemma ApplyElsewhere(c: Config, r: Rule, chosen: set<nat>, i: nat)
    requires Fits(r, c) && i < |Apply(c, r, chosen).ss| && (!r.NoRule? ==> i != c.pos + r.j)
    ensures var s := Apply(c, r, chosen).ss[i]; s in c.ss || s.cat == RAW_INT
  {
    if r.NoRule? {
      NoRuleStays(c, chosen);
    } else {
      ApplyIs(c, r, chosen);
      hide Apply, Made, Staying, Replace, Reserved;
      var at := c.pos + r.j;
      ReplaceAt(Staying(c, r, chosen), at, at + r.k, Made(c, r, chosen), i);
      KeptScrap(c, r, chosen, if i < at then i else i + r.k - 1);
    }
  }

  lemma NoRuleStays(c: Config, chosen: set<nat>)
    ensures Apply(c, NoRule, chosen) == c.(pos := c.pos + 1)
  {
  }

  lemma ApplyMakes(c: Config, r: Rule, chosen: set<nat>)
    requires Fits(r, c) && !r.NoRule?
    ensures c.pos + r.j < |Apply(c, r, chosen).ss|
    ensures Apply(c, r, chosen).ss[c.pos + r.j] == Made(c, r, chosen)
    ensures Made(c, r, chosen).cat == r.cat
  {
    ApplyIs(c, r, chosen);
    hide Apply, Made, Staying;
  }

  lemma OneOthers(ss: seq<Scrap>, i: nat, orig: seq<Scrap>)
    requires i < |ss| && Others(Leaves(ss[i].body), orig) != []
    ensures Others(Yield(ss), orig) != []
  {
    hide Others, Yield, Leaves;
    SplitYield(ss, i, i + 1);
    assert ss[i..i + 1] == [ss[i]];
    YieldOne(ss[i]);
    OthersConcat(Yield(ss[..i]) + Leaves(ss[i].body), Yield(ss[i + 1..]), orig);
    OthersConcat(Yield(ss[..i]), Leaves(ss[i].body), orig);
  }

  lemma StepTraced(c: Config, chosen: set<nat>, forceLines: bool, orig: seq<Scrap>)
    requires Wf(c) && c.pos < |c.ss| && AllTraced(c.ss, orig)
    ensures AllTraced(Step(c, chosen, forceLines).ss, orig)
  {
    hide Match, Apply, Leaves, Yield, ProgOK, Others, Fits, Made;
    RuleFits(c, forceLines);
    var r := RuleAt(c, forceLines);
    var after := Apply(c, r, chosen).ss;
    forall i | 0 <= i < |after|
      ensures Traced(after[i], orig)
    {
      if r.NoRule? || i != c.pos + r.j {
        ApplyElsewhere(c, r, chosen, i);
      } else {
        ApplyMakes(c, r, chosen);
        MadeTraced(c, r, chosen, forceLines, orig);
      }
    }
  }

  /** What a `<`, `>`, insert or lproc is made of has an insert or lproc in it. */
  lemma MarkUsed(c: Config, forceLines: bool) returns (mark: nat)
    requires Wf(c) && c.pos < |c.ss|
    requires var r := RuleAt(c, forceLines);
             !r.NoRule? && (IsAngle(r.cat) || r.cat == INSERT || r.cat == LPROC)
    ensures var r := RuleAt(c, forceLines);
            && mark < r.k && c.pos + r.j + r.k <= |c.ss| && !Discards(r)
            && (c.ss[c.pos + r.j + mark].cat == INSERT || c.ss[c.pos + r.j + mark].cat == LPROC)
  {
    hide Match, ProgOK, Rank;
    RuleFits(c, forceLines);
    var lo := c.pos + RuleAt(c, forceLines).j;
    mark := if c.ss[lo].cat == INSERT || c.ss[lo].cat == LPROC then 0 else 1;
  }

  lemma MadeTraced(c: Config, r: Rule, chosen: set<nat>, forceLines: bool, orig: seq<Scrap>)
    requires Wf(c) && c.pos < |c.ss| && AllTraced(c.ss, orig)
    requires r == RuleAt(c, forceLines) && !r.NoRule? && Fits(r, c)
    ensures Traced(Made(c, r, chosen), orig)
  {
    hide *;
    MadeCat(c, r, chosen);
    if IsAngle(r.cat) || r.cat == INSERT || r.cat == LPROC {
      var mark := MarkUsed(c, forceLines);
      var lo := c.pos + r.j;
      var used := c.ss[lo..lo + r.k];
      assert used[mark] == c.ss[lo + mark];
      MarkTraced(c.ss, lo + mark, orig);
      OneOthers(used, mark, orig);
      RuleKeeps(c, forceLines);
      MadeLeaves(c, r, chosen);
      OthersTraced(Made(c, r, chosen), orig);
    } else {
      PlainTraced(Made(c, r, chosen), orig);
    }
  }

  lemma PlainTraced(s: Scrap, orig: seq<Scrap>)
    requires !IsAngle(s.cat) && s.cat != INSERT && s.cat != LPROC
    ensures Traced(s, orig)
  {
  }

  lemma MarkTraced(ss: seq<Scrap>, i: nat, orig: seq<Scrap>)
    requires AllTraced(ss, orig) && i < |ss| && (ss[i].cat == INSERT || ss[i].cat == LPROC)
    ensures Others(Leaves(ss[i].body), orig) != []
  {
    hide Others, Leaves;
    assert Traced(ss[i], orig);
  }

  lemma OthersTraced(s: Scrap, orig: seq<Scrap>)
    requires Others(Leaves(s.body), orig) != []
    ensures Traced(s, orig)
  {
    hide Others, Leaves;
  }

  lemma MadeCat(c: Config, r: Rule, chosen: set<nat>)
    requires Fits(r, c) && !r.NoRule?
    ensures Made(c, r, chosen).cat == r.cat
  {
    hide Emit, Spread;
  }

  lemma RuleKeeps(c: Config, forceLines: bool)
    requires Wf(c) && c.pos < |c.ss|
    ensures var r := RuleAt(c, forceLines); r.Reduce? && !Discards(r) ==> ProgOK(r)
  {
    hide Match, ProgOK, Rank;
    RuleFits(c, forceLines);
  }

  lemma {:induction false} RunTraced(c: Config, choices: seq<set<nat>>, forceLines: bool)
    requires Wf(c) && Marked(c.ss)
    ensures AllTraced(Run(c, choices, forceLines).ss, c.ss)
  {
    hide Step, Others;
    if choices != [] {
      var last := |choices| - 1;
      RunTraced(c, choices[..last], forceLines);
      var m := Run(c, choices[..last], forceLines);
      if m.pos < |m.ss| {
        StepTraced(m, choices[last], forceLines, c.ss);
      }
    }
  }

  lemma {:induction false} StrangerLoses(c: Config, choices: seq<set<nat>>, forceLines: bool)
    requires Wf(c) && Marked(c.ss)
    ensures var now, was := Others(Yield(Run(c, choices, forceLines).ss), c.ss),
                            Others(Yield(c.ss), c.ss);
            && |now| <= |was|
            && ((exists s :: s in Discarded(c, choices, forceLines) && s !in c.ss) ==>
                  |now| < |was|)
  {
    hide Step, RuleAt, Yield, Leaves, Others, Marked;
    if choices != [] {
      var last := |choices| - 1;
      StrangerLoses(c, choices[..last], forceLines);
      DiscardedMore(c, choices, forceLines);
      var m := Run(c, choices[..last], forceLines);
      if m.pos < |m.ss| {
        if Discards(RuleAt(m, forceLines)) {
          DiscardOthers(m, choices[last], forceLines, c.ss);
          RunTraced(c, choices[..last], forceLines);
          assert Traced(m.ss[m.pos], c.ss);
        } else {
          StepLoses(m, choices[last], forceLines);
        }
      }
    }
  }

  /**
    The texts that no `<` or `>` scrap holds come through a run, each as often as it was there and
    in order, if and only if every scrap that productions 84 and 85 replace is one that came in:
    the other ones have an insert merged into them.
   */
  lemma OthersSurvive(c: Config, choices: seq<set<nat>>, forceLines: bool)
    requires Wf(c) && Marked(c.ss)
    ensures Others(Yield(Run(c, choices, forceLines).ss), c.ss) == Others(Yield(c.ss), c.ss) <==>
            forall s :: s in Discarded(c, choices, forceLines) ==> s in c.ss
  {
    hide Step, Run, Yield, Others, Marked;
    StrangerLoses(c, choices, forceLines);
    if forall s :: s in Discarded(c, choices, forceLines) ==> s in c.ss {
      OriginalsOnly(c, choices, forceLines);
    }
  }

  // ----- Where comments can be lost

  /** Of the categories only these matter here. */
  function Kind(c: Cat): Cat {
    if IsAngle(c) || c == INSERT || c == LPROC || c == RPROC then c else ZERO
  }

  function Kinds(ss: seq<Scrap>): (ks: seq<Cat>)
    ensures |ks| == |ss| && forall i :: 0 <= i < |ss| ==> ks[i] == Kind(ss[i].cat)
  {
    seq(|ss|, i requires 0 <= i < |ss| => Kind(ss[i].cat))
  }

  /** No `<` or `>` stands directly behind an insert or an rproc. */
  predicate Apart(ks: seq<Cat>) {
    forall i :: 0 < i < |ks| && IsAngle(ks[i]) ==> ks[i - 1] != INSERT && ks[i - 1] != RPROC
  }

  /**
    Behind leading inserts there is no `<` or `>`; if an lproc comes first, which can become a leading
    insert, there is none directly behind any insert or rproc. `after` says that there was an insert.
   */
  predicate Led(ks: seq<Cat>, after: bool) {
    ks == [] ||
    if ks[0] == INSERT then Led(ks[1..], true)
    else (after ==> !IsAngle(ks[0])) && (ks[0] == LPROC ==> Apart(ks))
  }

  /** No insert stands directly behind a `<` or `>`, nor at the front with one behind it. */
  predicate Clear(ks: seq<Cat>) {
    && Led(ks, false)
    && forall i :: 0 < i < |ks| && IsAngle(ks[i - 1]) ==> ks[i] != INSERT
  }

  /** Up to the position there is no `<` or `>`, and no insert but one that is the first scrap. */
  predicate Passed(ks: seq<Cat>, p: nat) {
    && (forall i :: 0 <= i < p && i < |ks| ==> !IsAngle(ks[i]))
    && (forall i :: 1 <= i <= p && i < |ks| ==> ks[i] != INSERT)
    && (p > 0 && |ks| > 1 ==> ks[0] != INSERT)
  }

  // ----- What the table says about inserts

  predicate IsMark(c: Cat) {
    c == INSERT || c == LPROC
  }

  predicate Ends(c: Cat) {
    c == INSERT || c == RPROC
  }

  /** Where inserts, lprocs, rprocs and angles come from, and how far the position goes. */
  predicate MarksOK(r: Rule, c0: Cat, c1: Cat, c2: Cat, c3: Cat) {
    if r.NoRule? then c1 != INSERT && !IsAngle(c0) && (c0 == INSERT ==> c1 == ZERO)
    else
      && (IsMark(r.cat) ==> IsMark(Nth(c0, c1, c2, c3, r.j)))
      && (Ends(r.cat) ==> r.j + r.k >= 1 && Ends(Nth(c0, c1, c2, c3, r.j + r.k - 1)))
      && (r.cat == INSERT ==> r.j == 0 && r.d < 0)
      && (c0 == INSERT && r.j == 0 ==> (r.k == 2 && r.cat == c1) || Kind(r.cat) == ZERO)
      && (r.j > 0 && c0 == INSERT ==>
            r.k == 2 && Nth(c0, c1, c2, c3, r.j + 1) == INSERT &&
            r.cat == Nth(c0, c1, c2, c3, r.j) && c1 != INSERT)
      && (IsAngle(r.cat) ==>
            r.k == 2 && (Nth(c0, c1, c2, c3, r.j) == INSERT ==> r.j == 0))
      && (r.d == 1 ==>
            && c1 != INSERT && c2 != INSERT && r.cat != INSERT && r.j + r.k <= 2
            && c0 != INSERT && !IsAngle(c0) && !IsAngle(r.cat))
  }

  lemma ExpressionMarks(c0: Cat, c1: Cat, c2: Cat, c3: Cat, forceLines: bool)
    requires c1 != INSERT && c2 != INSERT && c3 != INSERT
    requires c0 == EXP || c0 == LPAR || c0 == QUESTION || c0 == UNOP || c0 == UNORBINOP ||
             c0 == BINOP || c0 == CAST || c0 == SIZEOF_LIKE
    ensures MarksOK(MatchOn(c0, c1, c2, c3, forceLines), c0, c1, c2, c3)
  {
  }

  lemma DeclarationMarks(c0: Cat, c1: Cat, c2: Cat, c3: Cat, forceLines: bool)
    requires c1 != INSERT && c2 != INSERT && c3 != INSERT
    requires c0 == INT_LIKE || c0 == DECL_HEAD || c0 == DECL || c0 == TYPEDEF_LIKE ||
             c0 == FN_DECL || c0 == FUNCTION
    ensures MarksOK(MatchOn(c0, c1, c2, c3, forceLines), c0, c1, c2, c3)
  {
  }

  lemma StructureMarks(c0: Cat, c1: Cat, c2: Cat, c3: Cat, forceLines: bool)
    requires c1 != INSERT && c2 != INSERT && c3 != INSERT
    requires c0 == STRUCT_LIKE || c0 == STRUCT_HEAD || c0 == LBRACE || c0 == DO_LIKE ||
             c0 == CASE_LIKE
    ensures MarksOK(MatchOn(c0, c1, c2, c3, forceLines), c0, c1, c2, c3)
  {
  }

  lemma StatementMarks(c0: Cat, c1: Cat, c2: Cat, c3: Cat, forceLines: bool)
    requires c1 != INSERT && c2 != INSERT && c3 != INSERT
    requires c0 == IF_LIKE || c0 == FOR_LIKE || c0 == ELSE_LIKE || c0 == IF_CLAUSE ||
             c0 == IF_HEAD || c0 == ELSE_HEAD || c0 == STMT || c0 == TAG || c0 == SEMI
    ensures MarksOK(MatchOn(c0, c1, c2, c3, forceLines), c0, c1, c2, c3)
  {
  }

  lemma ClassMarks(c0: Cat, c1: Cat, c2: Cat, c3: Cat, forceLines: bool)
    requires c1 != INSERT && c2 != INSERT && c3 != INSERT
    requires c0 == LANGLE || c0 == PUBLIC_LIKE || c0 == COLCOL || c0 == NEW_LIKE ||
             c0 == OPERATOR_LIKE || c0 == CATCH_LIKE || c0 == BASE
    ensures MarksOK(MatchOn(c0, c1, c2, c3, forceLines), c0, c1, c2, c3)
  {
  }

  lemma OtherMarks(c0: Cat, c1: Cat, c2: Cat, c3: Cat, forceLines: bool)
    requires c1 != INSERT && c2 != INSERT && c3 != INSERT
    requires c0 == LPROC || c0 == SECTION_SCRAP || c0 == INSERT || c0 == PRELANGLE ||
             c0 == PRERANGLE || c0 == RAW_RPAR || c0 == RAW_UNORBIN || c0 == CONST_LIKE ||
             c0 == RAW_INT
    ensures MarksOK(MatchOn(c0, c1, c2, c3, forceLines), c0, c1, c2, c3)
  {
  }

  lemma NoSwitchMarks(c0: Cat, c1: Cat, c2: Cat, c3: Cat, forceLines: bool)
    requires c1 != INSERT && c0 != INSERT && !IsAngle(c0)
    requires MatchOn(c0, c1, c2, c3, forceLines) == NoRule
    ensures MarksOK(MatchOn(c0, c1, c2, c3, forceLines), c0, c1, c2, c3)
  {
    hide MatchOn;
  }

  lemma SwitchMarks(c0: Cat, c1: Cat, c2: Cat, c3: Cat, forceLines: bool)
    requires c0 != ZERO && c1 != INSERT && c2 != INSERT && c3 != INSERT
    ensures MarksOK(MatchOn(c0, c1, c2, c3, forceLines), c0, c1, c2, c3)
  {
    hide MarksOK;
    if c0 == EXP || c0 == LPAR || c0 == QUESTION || c0 == UNOP || c0 == UNORBINOP ||
       c0 == BINOP || c0 == CAST || c0 == SIZEOF_LIKE {
      ExpressionMarks(c0, c1, c2, c3, forceLines);
    } else if c0 == INT_LIKE || c0 == DECL_HEAD || c0 == DECL || c0 == TYPEDEF_LIKE || c0 == FN_DECL ||
       c0 == FUNCTION {
      DeclarationMarks(c0, c1, c2, c3, forceLines);
    } else if c0 == STRUCT_LIKE || c0 == STRUCT_HEAD || c0 == LBRACE || c0 == DO_LIKE || c0 == CASE_LIKE {
      StructureMarks(c0, c1, c2, c3, forceLines);
    } else if c0 == IF_LIKE || c0 == FOR_LIKE || c0 == ELSE_LIKE || c0 == IF_CLAUSE || c0 == IF_HEAD ||
       c0 == ELSE_HEAD || c0 == STMT || c0 == TAG || c0 == SEMI {
      StatementMarks(c0, c1, c2, c3, forceLines);
    } else if c0 == LANGLE || c0 == PUBLIC_LIKE || c0 == COLCOL || c0 == NEW_LIKE ||
       c0 == OPERATOR_LIKE || c0 == CATCH_LIKE || c0 == BASE {
      ClassMarks(c0, c1, c2, c3, forceLines);
    } else if c0 == LPROC || c0 == SECTION_SCRAP || c0 == INSERT || c0 == PRELANGLE ||
       c0 == PRERANGLE || c0 == RAW_RPAR || c0 == RAW_UNORBIN || c0 == CONST_LIKE || c0 == RAW_INT {
      OtherMarks(c0, c1, c2, c3, forceLines);
    } else {
      NoSwitchMarks(c0, c1, c2, c3, forceLines);
    }
  }

  lemma TableMarks(c0: Cat, c1: Cat, c2: Cat, c3: Cat, forceLines: bool)
    requires Padded(c0, c1, c2, c3)
    ensures MarksOK(Match(c0, c1, c2, c3, forceLines), c0, c1, c2, c3)
  {
    hide MatchOn;
    if c1 != INSERT && c2 != INSERT && c3 != INSERT {
      SwitchMarks(c0, c1, c2, c3, forceLines);
    }
  }

  // ----- A round keeps inserts away from angles

  /** What a production makes of the scraps a..a+k-1, seen at position p. */
  predicate Makes(ks: seq<Cat>, p: nat, a: nat, k: nat, x: Cat) {
    && p <= a && 1 <= k && a + k <= |ks|
    && (IsMark(x) ==> IsMark(ks[a])) && (Ends(x) ==> Ends(ks[a + k - 1]))
    && (x == INSERT ==> a == p)
    && (ks[p] == INSERT && a == p ==> (k == 2 && x == ks[p + 1]) || x == ZERO)
    && (ks[p] == INSERT && a > p ==>
          k == 2 && ks[a + 1] == INSERT && x == ks[a] && ks[p + 1] != INSERT)
    && (IsAngle(x) ==>
          k == 2 && ((ks[a] == x && ks[a + 1] == INSERT) ||
                     (ks[a] == INSERT && ks[a + 1] == x && a == p)))
  }

  function Put(ks: seq<Cat>, a: nat, k: nat, x: Cat): seq<Cat>
    requires a + k <= |ks|
  {
    ks[..a] + [x] + ks[a + k..]
  }

  lemma NoNewAngle(ks: seq<Cat>, p: nat, a: nat, k: nat, x: Cat)
    requires Clear(ks) && Passed(ks, p) && Makes(ks, p, a, k, x)
    ensures !IsAngle(x)
  {
    if a + 1 < |ks| {
      assert IsAngle(ks[a + 1 - 1]) ==> ks[a + 1] != INSERT;
    }
    if p == 0 && |ks| > 1 && ks[0] == INSERT {
      assert Led(ks[1..], true) && ks[1..][0] == ks[1];
    }
  }

  lemma {:induction false} LedWeaker(ks: seq<Cat>)
    requires Led(ks, true)
    ensures Led(ks, false)
  {
  }

  lemma ApartDrop(ks: seq<Cat>, n: nat)
    requires Apart(ks) && n <= |ks|
    ensures Apart(ks[n..])
  {
    var ds := ks[n..];
    forall i | 0 < i < |ds| && IsAngle(ds[i])
      ensures ds[i - 1] != INSERT && ds[i - 1] != RPROC
    {
      assert ds[i] == ks[n + i] && ds[i - 1] == ks[n + i - 1];
    }
  }

  /** Behind an insert or rproc there is no angle, however many inserts follow. */
  lemma {:induction false} LedBehind(ks: seq<Cat>, n: nat)
    requires Apart(ks) && 0 < n <= |ks| && Ends(ks[n - 1])
    ensures Led(ks[n..], true)
    decreases |ks| - n
  {
    if n < |ks| {
      if ks[n] == INSERT {
        LedBehind(ks, n + 1);
        assert ks[n..][1..] == ks[n + 1..];
      } else {
        ApartDrop(ks, n);
      }
    }
  }

  lemma ApartPut(ks: seq<Cat>, a: nat, k: nat, x: Cat)
    requires Apart(ks) && k >= 1 && a + k <= |ks| && !IsAngle(x)
    requires Ends(x) ==> Ends(ks[a + k - 1])
    ensures Apart(Put(ks, a, k, x))
  {
    var ds := Put(ks, a, k, x);
    forall i | 0 < i < |ds| && IsAngle(ds[i])
      ensures ds[i - 1] != INSERT && ds[i - 1] != RPROC
    {
      if i < a {
        assert ds[i] == ks[i] && ds[i - 1] == ks[i - 1];
      } else if i == a + 1 {
        assert ds[i] == ks[a + k] && ds[i - 1] == x;
      } else {
        assert i != a && ds[i] == ks[i + k - 1] && ds[i - 1] == ks[i + k - 2];
      }
    }
  }

  lemma LedPut(ks: seq<Cat>, p: nat, a: nat, k: nat, x: Cat)
    requires Clear(ks) && Passed(ks, p) && Makes(ks, p, a, k, x)
    ensures Led(Put(ks, a, k, x), false)
  {
    NoNewAngle(ks, p, a, k, x);
    var ds := Put(ks, a, k, x);
    assert ds[1..] == if a == 0 then ks[k..] else Put(ks[1..], a - 1, k, x) by {
      if a > 0 {
        assert ks[1..][a - 1 + k..] == ks[a + k..];
      }
    }
    if a == 0 {
      if ks[0] == INSERT {
        if x != ZERO {
          assert ds == ks[1..];
          LedWeaker(ks[1..]);
        }
      } else if x == INSERT {
        LedBehind(ks, k);
      } else if x == LPROC {
        ApartPut(ks, a, k, x);
      }
    } else if ks[0] == INSERT {
      assert p == 0 && ds[1..][0] == ks[1] == ks[1..][0] && Led(ks[1..], true);
      if ks[1] == LPROC {
        ApartPut(ks[1..], a - 1, k, x);
      }
    } else if ks[0] == LPROC {
      ApartPut(ks, a, k, x);
    }
  }

  lemma ClearPut(ks: seq<Cat>, p: nat, a: nat, k: nat, x: Cat)
    requires Clear(ks) && Passed(ks, p) && Makes(ks, p, a, k, x)
    ensures Clear(Put(ks, a, k, x))
  {
    NoNewAngle(ks, p, a, k, x);
    LedPut(ks, p, a, k, x);
    var ds := Put(ks, a, k, x);
    hide Led;
    forall i | 0 < i < |ds| && IsAngle(ds[i - 1])
      ensures ds[i] != INSERT
    {
      if i < a {
        assert ds[i] == ks[i] && ds[i - 1] == ks[i - 1];
      } else if i == a {
        assert ds[i] == x && ds[i - 1] == ks[a - 1];
      } else {
        assert i != a + 1 && ds[i] == ks[i + k - 1] && ds[i - 1] == ks[i + k - 2];
      }
    }
  }

  /** How far the position may go after a production, in terms of what is then before it. */
  lemma PassedPut(ks: seq<Cat>, p: nat, a: nat, k: nat, x: Cat, d: int)
    requires Passed(ks, p) && p < |ks| && Makes(ks, p, a, k, x) && !IsAngle(x) && d <= 1
    requires x == INSERT ==> d < 0
    requires d == 1 ==>
               && a + k <= p + 2 && x != INSERT && !IsAngle(ks[p]) && ks[p] != INSERT
               && (forall i :: p < i <= p + 2 && i < |ks| ==> ks[i] != INSERT)
    ensures Passed(Put(ks, a, k, x), Move(p, d))
  {
    var ds, q := Put(ks, a, k, x), Move(p, d);
    forall i | 0 <= i < |ds|
      ensures ds[i] == if i < a then ks[i] else if i == a then x else ks[i + k - 1]
    {
    }
  }

  lemma KindsApply(c: Config, r: Rule, chosen: set<nat>)
    requires Fits(r, c) && !r.NoRule?
    ensures Kinds(Apply(c, r, chosen).ss) == Put(Kinds(c.ss), c.pos + r.j, r.k, Kind(r.cat))
  {
    ApplyIs(c, r, chosen);
    forall i | 0 <= i < |c.ss|
      ensures Kind(Staying(c, r, chosen)[i].cat) == Kind(c.ss[i].cat)
    {
    }
    hide Apply, Made, Staying, Kind, Replace, Put;
    assert Kinds(Staying(c, r, chosen)) == Kinds(c.ss);
    KindsReplace(Staying(c, r, chosen), c.pos + r.j, c.pos + r.j + r.k, Made(c, r, chosen));
  }

  lemma KindsReplace(ss: seq<Scrap>, lo: nat, hi: nat, s: Scrap)
    requires lo <= hi <= |ss|
    ensures Kinds(Replace(ss, lo, hi, s)) == Put(Kinds(ss), lo, hi - lo, Kind(s.cat))
  {
    hide Kind;
  }

  /** Where the position may go, and that nothing it passes is left behind. */
  predicate Advances(r: Rule, ks: seq<Cat>, p: nat)
    requires !r.NoRule? && p < |ks|
  {
    && r.d <= 1 && (Kind(r.cat) == INSERT ==> r.d < 0)
    && (r.d == 1 ==>
          && r.j + r.k <= 2 && Kind(r.cat) != INSERT && !IsAngle(ks[p]) && ks[p] != INSERT
          && forall i :: p < i <= p + 2 && i < |ks| ==> ks[i] != INSERT)
  }

  function KindAt(ks: seq<Cat>, i: nat): Cat {
    if i < |ks| then ks[i] else ZERO
  }

  lemma KindOf(c: Cat)
    ensures IsAngle(Kind(c)) <==> IsAngle(c)
    ensures IsMark(Kind(c)) <==> IsMark(c)
    ensures Ends(Kind(c)) <==> Ends(c)
    ensures Kind(c) == INSERT <==> c == INSERT
    ensures IsAngle(c) ==> Kind(c) == c
  {
  }

  lemma AdvancesFrom(r: Rule, c0: Cat, c1: Cat, c2: Cat, c3: Cat, ks: seq<Cat>, p: nat)
    requires MarksOK(r, c0, c1, c2, c3) && RuleOK(r, c0, c1, c2, c3) && !r.NoRule?
    requires p < |ks| && Kind(c0) == ks[p]
    requires Kind(c1) == KindAt(ks, p + 1) && Kind(c2) == KindAt(ks, p + 2)
    ensures Advances(r, ks, p)
  {
    hide Rank, ProgOK, DiscardOK, Discards, Nth, Absorbs, Inherits;
    KindOf(r.cat);
    KindOf(c0);
    KindOf(c1);
    KindOf(c2);
    hide Kind;
  }

  lemma MakesFrom(r: Rule, c0: Cat, c1: Cat, c2: Cat, c3: Cat, ks: seq<Cat>, p: nat)
    requires MarksOK(r, c0, c1, c2, c3) && RuleOK(r, c0, c1, c2, c3) && !r.NoRule?
    requires p < |ks| && p + r.j + r.k <= |ks|
    requires forall i :: 0 <= i < 4 ==> Kind(Nth(c0, c1, c2, c3, i)) == KindAt(ks, p + i)
    ensures Makes(ks, p, p + r.j, r.k, Kind(r.cat))
  {
    hide Rank, ProgOK, DiscardOK, Discards, Inherits;
    var a, k := p + r.j, r.k;
    var first, second := Nth(c0, c1, c2, c3, r.j), Nth(c0, c1, c2, c3, r.j + 1);
    var last := Nth(c0, c1, c2, c3, r.j + r.k - 1);
    assert Nth(c0, c1, c2, c3, 0) == c0 && Nth(c0, c1, c2, c3, 1) == c1;
    assert r.j == 0 ==> first == c0 && second == c1;
    assert Kind(c0) == KindAt(ks, p) == ks[p] && Kind(c1) == KindAt(ks, p + 1);
    assert Kind(first) == KindAt(ks, a) == ks[a];
    assert Kind(last) == KindAt(ks, a + k - 1) == ks[a + k - 1];
    assert k == 2 ==> Kind(second) == ks[a + 1];
    hide Nth;
    MakesOf(r, c0, c1, first, second, last, ks, p);
  }

  lemma MakesOf(r: Rule, c0: Cat, c1: Cat, first: Cat, second: Cat, last: Cat, ks: seq<Cat>, p: nat)
    requires !r.NoRule? && r.k >= 1 && p < |ks| && p + r.j + r.k <= |ks|
    requires IsMark(r.cat) ==> IsMark(first)
    requires Ends(r.cat) ==> Ends(last)
    requires r.cat == INSERT ==> r.j == 0
    requires c0 == INSERT && r.j == 0 ==> (r.k == 2 && r.cat == c1) || Kind(r.cat) == ZERO
    requires r.j > 0 && c0 == INSERT ==>
               r.k == 2 && second == INSERT && r.cat == first && c1 != INSERT
    requires IsAngle(r.cat) ==>
               && r.k == 2 && (first == INSERT ==> r.j == 0)
               && ((first == r.cat && second == INSERT) || (first == INSERT && second == r.cat))
    requires Kind(c0) == ks[p] && Kind(c1) == KindAt(ks, p + 1) && Kind(first) == ks[p + r.j]
    requires Kind(last) == ks[p + r.j + r.k - 1] && (r.k == 2 ==> Kind(second) == ks[p + r.j + 1])
    ensures Makes(ks, p, p + r.j, r.k, Kind(r.cat))
  {
    KindOf(r.cat);
    KindOf(first);
    KindOf(second);
    KindOf(last);
    KindOf(c0);
    KindOf(c1);
    hide Kind, IsAngle, IsMark, Ends;
  }

  /** What the table says, about the window at hand. */
  lemma RuleMakes(c: Config, forceLines: bool)
    requires Wf(c) && c.pos < |c.ss| && Passed(Kinds(c.ss), c.pos)
    ensures var r, ks, p := RuleAt(c, forceLines), Kinds(c.ss), c.pos;
            if r.NoRule? then
              && !IsAngle(ks[p]) && (p + 1 < |ks| ==> ks[p + 1] != INSERT)
              && (ks[p] == INSERT ==> |ks| == p + 1)
            else
              Fits(r, c) && Makes(ks, p, p + r.j, r.k, Kind(r.cat)) && Advances(r, ks, p)
  {
    hide Match, RuleOK, Makes, Advances;
    RuleFits(c, forceLines);
    var r, ks, p := RuleAt(c, forceLines), Kinds(c.ss), c.pos;
    var c0, c1, c2, c3 := CatAt(c.ss, p), CatAt(c.ss, p + 1), CatAt(c.ss, p + 2), CatAt(c.ss, p + 3);
    TableMarks(c0, c1, c2, c3, forceLines);
    if r.NoRule? {
      KindOf(c0);
      KindOf(c1);
    } else {
      hide MarksOK;
      forall i | 0 <= i < 4
        ensures Kind(Nth(c0, c1, c2, c3, i)) == KindAt(ks, p + i)
      {
      }
      MakesFrom(r, c0, c1, c2, c3, ks, p);
      assert Kind(Nth(c0, c1, c2, c3, 0)) == KindAt(ks, p);
      assert Kind(Nth(c0, c1, c2, c3, 1)) == KindAt(ks, p + 1);
      assert Kind(Nth(c0, c1, c2, c3, 2)) == KindAt(ks, p + 2);
      AdvancesFrom(r, c0, c1, c2, c3, ks, p);
    }
  }

  /** The scraps are in order for `Clear`, and the `<` and `>` ones came in as they are. */
  predicate StillClear(c: Config, orig: seq<Scrap>) {
    && Clear(Kinds(c.ss)) && Passed(Kinds(c.ss), c.pos)
    && forall i :: 0 <= i < |c.ss| && IsAngle(c.ss[i].cat) ==> c.ss[i] in orig
  }

  lemma StepClear(c: Config, chosen: set<nat>, forceLines: bool, orig: seq<Scrap>)
    requires Wf(c) && c.pos < |c.ss| && StillClear(c, orig)
    ensures StillClear(Step(c, chosen, forceLines), orig)
  {
    hide RuleAt, Apply, Clear, Makes, Put, Fits, Kind, Made, Staying;
    var r, ks := RuleAt(c, forceLines), Kinds(c.ss);
    RuleMakes(c, forceLines);
    if r.NoRule? {
      NoRuleStays(c, chosen);
    } else {
      var a := c.pos + r.j;
      KindsApply(c, r, chosen);
      NoNewAngle(ks, c.pos, a, r.k, Kind(r.cat));
      ClearPut(ks, c.pos, a, r.k, Kind(r.cat));
      PassedPut(ks, c.pos, a, r.k, Kind(r.cat), r.d);
      ApplyIs(c, r, chosen);
      KindOf(r.cat);
      AnglesStay(c, r, chosen, orig);
    }
  }

  lemma AnglesStay(c: Config, r: Rule, chosen: set<nat>, orig: seq<Scrap>)
    requires Fits(r, c) && !r.NoRule? && !IsAngle(r.cat)
    requires forall i :: 0 <= i < |c.ss| && IsAngle(c.ss[i].cat) ==> c.ss[i] in orig
    ensures var ss := Apply(c, r, chosen).ss;
            forall i :: 0 <= i < |ss| && IsAngle(ss[i].cat) ==> ss[i] in orig
  {
    hide Apply;
    var ss := Apply(c, r, chosen).ss;
    forall i | 0 <= i < |ss| && IsAngle(ss[i].cat)
      ensures ss[i] in orig
    {
      if i == c.pos + r.j {
        ApplyMakes(c, r, chosen);
      } else {
        ApplyElsewhere(c, r, chosen, i);
      }
    }
  }

  lemma {:induction false} RunClear(c: Config, choices: seq<set<nat>>, forceLines: bool)
    requires Wf(c) && StillClear(c, c.ss)
    ensures StillClear(Run(c, choices, forceLines), c.ss)
    ensures forall s :: s in Discarded(c, choices, forceLines) ==> s in c.ss
  {
    hide Step, RuleAt, Clear, Passed, Leaves, Yield;
    if choices != [] {
      var last := |choices| - 1;
      RunClear(c, choices[..last], forceLines);
      DiscardedMore(c, choices, forceLines);
      var m := Run(c, choices[..last], forceLines);
      if m.pos < |m.ss| {
        StepClear(m, choices[last], forceLines, c.ss);
        StepLoses(m, choices[last], forceLines);
      }
    }
  }

  /**
    So every text that no `<` or `>` scrap holds comes through when no insert stands directly behind
    such a scrap, nor at the front with such a scrap behind it.
   */
  lemma ClearSurvive(c: Config, choices: seq<set<nat>>, forceLines: bool)
    requires Wf(c) && c.pos == 0 && Clear(Kinds(c.ss))
    ensures Others(Yield(Run(c, choices, forceLines).ss), c.ss) == Others(Yield(c.ss), c.ss)
  {
    hide Clear;
    assert forall i :: 0 <= i < |c.ss| ==> c.ss[i] in c.ss;
    RunClear(c, choices, forceLines);
    OriginalsOnly(c, choices, forceLines);
  }

  /** A comment in front of everything is lost with a `<` behind it. */
  lemma LeadingCommentIsLost(comment: nat, less: nat)
    ensures var c := Config([Scrap(INSERT, No, No, [Leaf(comment)]),
                             Scrap(PRELANGLE, Yes, Yes, [Leaf(less)])], 0);
            && Wf(c) && Step(c, {}, true).pos == 0
            && Yield(Step(Step(c, {}, true), {}, true).ss) == []
  {
    var s0, s1 := Scrap(INSERT, No, No, [Leaf(comment)]), Scrap(PRELANGLE, Yes, Yes, [Leaf(less)]);
    var c := Config([s0, s1], 0);
    assert RuleAt(c, true) == Squash(0, 2, PRELANGLE, 0, 83);
    hide Match, Spread;
    var c1 := Step(c, {}, true);
    assert c1 == Config([c1.ss[0]], 0) && c1.ss[0].cat == PRELANGLE;
    RewriteLess(c1.ss[0]);
    YieldOne(Scrap(BINOP, Yes, Yes, [Tok(Char('<'), false)]));
    assert Leaves([Tok(Char('<'), false)]) == [];
  }
}
