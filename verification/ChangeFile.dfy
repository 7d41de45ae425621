/**
  Merging a change file into the web file: get_line, check_change, prime_the_change_buffer and
  check_complete, without includes.
 */
module ChangeFile {
  import opened Sequences

  /** A line as input_ln leaves it in `buffer`: blanks at its end are gone. */
  type Line = string

  datatype Complaint =
    | MissingX
    | EndedAfterX
    | EndedBeforeY
    | EndedWithoutZ
    | NoMatchingY
    | NoMatchingZ
    | Mismatch(n: nat)
    | WebEnded

  // ----- Lines

  function Trim(s: string): Line {
    if s == [] || s[|s| - 1] != ' ' then s else Trim(s[..|s| - 1])
  }

  lemma {:induction false} TrimMeaning(s: string, n: nat)
    requires n <= |s| && (n > 0 ==> s[n - 1] != ' ')
    requires forall i :: n <= i < |s| ==> s[i] == ' '
    ensures Trim(s) == s[..n]
  {
    if n < |s| {
      assert s[..|s| - 1][..n] == s[..n];
      TrimMeaning(s[..|s| - 1], n);
    } else {
      assert s[..n] == s;
    }
  }

  /** The loop of input_ln: `limit` stays behind the last character that is not blank. */
  method InputLn(s: string) returns (line: Line)
    ensures line == Trim(s)
  {
    var k, limit := 0, 0;
    while k < |s|
      invariant 0 <= limit <= k <= |s| && (limit > 0 ==> s[limit - 1] != ' ')
      invariant forall i :: limit <= i < k ==> s[i] == ' '
    {
      k := k + 1;
      if s[k - 1] != ' ' {
        limit := k;
      }
    }
    TrimMeaning(s, limit);
    line := s[..limit];
  }

  function TrimAll(ss: seq<string>): (ls: seq<Line>)
    ensures |ls| == |ss|
  {
    if ss == [] then [] else [Trim(ss[0])] + TrimAll(ss[1..])
  }

  predicate Upper(c: char) {
    'A' <= c <= 'Z'
  }

  function LowerChar(c: char): char {
    if Upper(c) then (c as int + 32) as char else c
  }

  /** An upper-case letter after a leading @ becomes lower case. */
  function Lower(l: Line): Line {
    if |l| > 1 && l[0] == '@' then l[1 := LowerChar(l[1])] else l
  }

  predicate Mark(l: Line, c: char) {
    |l| > 1 && l[0] == '@' && LowerChar(l[1]) == c
  }

  // ----- What the routines do to the two streams

  datatype Primed = Primed(ch: seq<Line>, buf: Line, errs: seq<Complaint>)

  /** On to the first line after the next @x that is not blank. */
  function Prime(ch: seq<Line>): (p: Primed)
    ensures |p.ch| <= |ch|
  {
    if ch == [] then Primed([], [], [])
    else if Mark(ch[0], 'x') then PrimeOld(ch[1..])
    else
      var p := Prime(ch[1..]);
      if Mark(ch[0], 'y') || Mark(ch[0], 'z') || Mark(ch[0], 'i') then
        p.(errs := [MissingX] + p.errs)
      else p
  }

  function PrimeOld(ch: seq<Line>): (p: Primed)
    ensures |p.ch| <= |ch|
  {
    if ch == [] then Primed([], [], [EndedAfterX])
    else if ch[0] == [] then PrimeOld(ch[1..])
    else Primed(ch[1..], ch[0], [])
  }

  datatype Checked =
    Checked(ch: seq<Line>, web: seq<Line>, changing: bool, buf: Line, ended: bool,
            errs: seq<Complaint>)

  function Flaws(l: Line): seq<Complaint> {
    if Mark(l, 'x') || Mark(l, 'z') then [NoMatchingY] else []
  }

  /** Reads a web line for every old line up to @y; n lines have not matched so far. */
  function Check(ch: seq<Line>, web: seq<Line>, n: nat, buf: Line): (c: Checked)
    ensures c.changing ==> |c.ch| < |ch|
    ensures |c.ch| <= |ch| && |c.web| <= |web| && !(c.changing && c.ended)
  {
    if ch == [] then Checked([], web, false, [], false, [EndedBeforeY])
    else if Mark(ch[0], 'y') then
      Checked(ch[1..], web, true, buf, false, if n > 0 then [Mismatch(n)] else [])
    else
      var line := Lower(ch[0]);
      var errs := Flaws(ch[0]);
      if web == [] then Checked(ch[1..], [], false, line, true, errs + [WebEnded])
      else
        var c := Check(ch[1..], web[1..], if web[0] == line then n else n + 1, line);
        c.(errs := errs + c.errs)
  }

  datatype State =
    State(web: seq<Line>, ch: seq<Line>, changing: bool, buf: Line, ended: bool,
          errs: seq<Complaint>)

  /** What the loop in get_line does next: deliver a line, or start again. */
  datatype Moved = Deliver(st: State, line: Line) | Again(st: State)

  function FromWeb(st: State): Moved {
    if st.web == [] then Deliver(st.(ended := true), [])
    else if st.buf != [] && st.web[0] == st.buf then
      var c := Check(st.ch, st.web[1..], 0, st.buf);
      var next := State(c.web, c.ch, c.changing, c.buf, c.ended, st.errs + c.errs);
      if c.changing then Again(next) else Deliver(next, [])
    else Deliver(st.(web := st.web[1..]), st.web[0])
  }

  function EndChange(st: State): State {
    var p := Prime(st.ch);
    st.(ch := p.ch, buf := p.buf, changing := false, errs := st.errs + p.errs)
  }

  function Move(st: State): Moved {
    if !st.changing then FromWeb(st)
    else if st.ch == [] then FromWeb(EndChange(st.(errs := st.errs + [EndedWithoutZ])))
    else
      var l := Lower(st.ch[0]);
      var next := st.(ch := st.ch[1..]);
      if Mark(l, 'z') then FromWeb(EndChange(next))
      else if Mark(l, 'x') || Mark(l, 'y') then Deliver(next.(errs := st.errs + [NoMatchingZ]), l)
      else Deliver(next, l)
  }

  /** One call of get_line. */
  function GetLine(st: State): (State, Line)
    decreases |st.ch|, st.changing
  {
    match Move(st)
    case Deliver(s, l) => (s, l)
    case Again(s) => GetLine(s)
  }

  lemma MoveFromWeb(st: State)
    requires !st.changing
    ensures Move(st) == FromWeb(st)
  {
  }

  lemma MoveProgress(st: State)
    ensures var m := Move(st);
            && (m.Again? ==> |m.st.ch| < |st.ch| && m.st.changing && !m.st.ended)
            && (m.Deliver? && !m.st.ended ==> |m.st.web| + |m.st.ch| < |st.web| + |st.ch|)
            && |m.st.web| <= |st.web| && |m.st.ch| <= |st.ch|
  {
  }

  lemma {:induction false} LineProgress(st: State)
    ensures var s := GetLine(st).0;
            && |s.web| <= |st.web| && |s.ch| <= |st.ch|
            && (!s.ended ==> |s.web| + |s.ch| < |st.web| + |st.ch|)
    decreases |st.ch|, st.changing
  {
    MoveProgress(st);
    if Move(st).Again? {
      LineProgress(Move(st).st);
    }
  }

  /** The lines that get_line delivers until the input has ended, and how things stand then. */
  ghost function Run(st: State): (State, seq<Line>)
    decreases |st.web| + |st.ch|
  {
    LineProgress(st);
    var (s, l) := GetLine(st);
    if s.ended then (s, []) else var (end, ls) := Run(s); (end, [l] + ls)
  }

  // ----- A well-formed change file

  /** @x, blank lines, the first old line, the others, @y, the new lines, @z; junk goes before. */
  datatype Change =
    Change(junk: seq<Line>, x: Line, blanks: nat, first: Line, rest: seq<Line>, y: Line,
           repl: seq<Line>, z: Line)

  predicate Unmarked(l: Line) {
    !Mark(l, 'x') && !Mark(l, 'y') && !Mark(l, 'z')
  }

  predicate Junk(ls: seq<Line>) {
    forall l :: l in ls ==> Unmarked(l) && !Mark(l, 'i')
  }

  predicate WellFormed(c: Change) {
    && Junk(c.junk) && Mark(c.x, 'x') && c.first != [] && Mark(c.y, 'y') && Mark(c.z, 'z')
    && (forall l :: l in c.rest ==> Unmarked(l))
    && (forall l :: l in c.repl ==> Unmarked(l))
  }

  function Blank(n: nat): seq<Line> {
    if n == 0 then [] else [[]] + Blank(n - 1)
  }

  /** A change from the second old line on. */
  function Rest(c: Change): seq<Line> {
    c.rest + ([c.y] + (c.repl + [c.z]))
  }

  function Render(cs: seq<Change>, tail: seq<Line>): seq<Line> {
    if cs == [] then tail
    else
      var c := cs[0];
      c.junk + ([c.x] + (Blank(c.blanks) + ([c.first] + (Rest(c) + Render(cs[1..], tail)))))
  }

  predicate AllWell(cs: seq<Change>, tail: seq<Line>) {
    (forall c :: c in cs ==> WellFormed(c)) && Junk(tail)
  }

  // ----- What merging should give

  function LowerAll(ls: seq<Line>): seq<Line> {
    if ls == [] then [] else [Lower(ls[0])] + LowerAll(ls[1..])
  }

  function Mismatches(olds: seq<Line>, web: seq<Line>): nat {
    if olds == [] || web == [] then 0
    else (if web[0] == Lower(olds[0]) then 0 else 1) + Mismatches(olds[1..], web[1..])
  }

  /**
    Each change in turn is applied at the first later line that equals its first old line: as many
    web lines as there are old lines give way to the new lines. Nothing more comes if the web file
    ends before that.
   */
  function Merge(web: seq<Line>, cs: seq<Change>): seq<Line> {
    if web == [] then []
    else if cs != [] && web[0] == cs[0].first then
      if |web| - 1 < |cs[0].rest| then []
      else LowerAll(cs[0].repl) + Merge(web[1 + |cs[0].rest|..], cs[1..])
    else [web[0]] + Merge(web[1..], cs)
  }

  /** What is reported on the way. */
  function Reports(web: seq<Line>, cs: seq<Change>): seq<Complaint> {
    if web == [] then []
    else if cs != [] && web[0] == cs[0].first then
      if |web| - 1 < |cs[0].rest| then [WebEnded]
      else
        var n := Mismatches(cs[0].rest, web[1..]);
        (if n > 0 then [Mismatch(n)] else []) + Reports(web[1 + |cs[0].rest|..], cs[1..])
    else Reports(web[1..], cs)
  }

  /** The line that stands in the change buffer at the end. */
  function LeftOver(web: seq<Line>, cs: seq<Change>): Line {
    if cs == [] then []
    else if web == [] then cs[0].first
    else if web[0] == cs[0].first then
      if |web| - 1 < |cs[0].rest| then Lower(cs[0].rest[|web| - 1])
      else LeftOver(web[1 + |cs[0].rest|..], cs[1..])
    else LeftOver(web[1..], cs)
  }

  /** How many changes are applied completely. */
  function Applied(web: seq<Line>, cs: seq<Change>): (n: nat)
    ensures n <= |cs|
  {
    if web == [] || cs == [] then 0
    else if web[0] == cs[0].first then
      if |web| - 1 < |cs[0].rest| then 0
      else 1 + Applied(web[1 + |cs[0].rest|..], cs[1..])
    else Applied(web[1..], cs)
  }

  /** The web file ends within a change, where the change has a blank old line. */
  predicate EndsAtBlank(web: seq<Line>, cs: seq<Change>) {
    if web == [] || cs == [] then false
    else if web[0] == cs[0].first then
      if |web| - 1 < |cs[0].rest| then cs[0].rest[|web| - 1] == []
      else EndsAtBlank(web[1 + |cs[0].rest|..], cs[1..])
    else EndsAtBlank(web[1..], cs)
  }

  /** check_complete complains exactly if a change is left, save when the web ended at a blank. */
  lemma {:induction false} CompleteExactly(web: seq<Line>, cs: seq<Change>)
    requires forall c :: c in cs ==> WellFormed(c)
    ensures LeftOver(web, cs) != [] <==> Applied(web, cs) < |cs| && !EndsAtBlank(web, cs)
  {
    if web != [] && cs != [] {
      if web[0] != cs[0].first {
        CompleteExactly(web[1..], cs);
      } else if |web| - 1 >= |cs[0].rest| {
        CompleteExactly(web[1 + |cs[0].rest|..], cs[1..]);
      }
    } else if cs != [] {
      assert cs[0] in cs;
    }
  }

  // ----- The routines on a well-formed file

  lemma LowerMark(l: Line, c: char)
    requires !Upper(c)
    ensures Mark(Lower(l), c) == Mark(l, c)
  {
  }

  lemma {:induction false} PrimeJunk(junk: seq<Line>, more: seq<Line>)
    requires Junk(junk)
    ensures Prime(junk + more) == Prime(more)
  {
    if junk == [] {
      assert junk + more == more;
    } else {
      assert junk[0] in junk;
      assert (junk + more)[1..] == junk[1..] + more;
      PrimeJunk(junk[1..], more);
    }
  }

  lemma {:induction false} PrimeBlanks(n: nat, first: Line, more: seq<Line>)
    requires first != []
    ensures PrimeOld(Blank(n) + ([first] + more)) == Primed(more, first, [])
  {
    var ch := Blank(n) + ([first] + more);
    if n == 0 {
      assert ch[0] == first && ch[1..] == more;
    } else {
      assert ch[0] == [] && ch[1..] == Blank(n - 1) + ([first] + more);
      PrimeBlanks(n - 1, first, more);
    }
  }

  /** Where the change file stands between two changes. */
  function Waiting(cs: seq<Change>, tail: seq<Line>): seq<Line> {
    if cs == [] then [] else Rest(cs[0]) + Render(cs[1..], tail)
  }

  function Awaited(cs: seq<Change>): Line {
    if cs == [] then [] else cs[0].first
  }

  lemma PrimeOn(cs: seq<Change>, tail: seq<Line>)
    requires (forall c :: c in cs ==> WellFormed(c)) && Junk(tail)
    ensures Prime(Render(cs, tail)) == Primed(Waiting(cs, tail), Awaited(cs), [])
  {
    if cs == [] {
      PrimeJunk(tail, []);
      assert tail + [] == tail;
    } else {
      var c := cs[0];
      assert c in cs;
      var more := Rest(c) + Render(cs[1..], tail);
      var olds := Blank(c.blanks) + ([c.first] + more);
      PrimeJunk(c.junk, [c.x] + olds);
      assert ([c.x] + olds)[1..] == olds;
      PrimeBlanks(c.blanks, c.first, more);
    }
  }

  lemma {:induction false} CheckOn(rest: seq<Line>, y: Line, more: seq<Line>, web: seq<Line>,
                                   n: nat, buf: Line)
    requires Mark(y, 'y') && forall l :: l in rest ==> Unmarked(l)
    ensures var c := Check(rest + ([y] + more), web, n, buf);
            if |web| < |rest| then
              c.ended && !c.changing && c.web == [] && c.buf == Lower(rest[|web|]) &&
              c.errs == [WebEnded]
            else
              var m := n + Mismatches(rest, web);
              !c.ended && c.changing && c.web == web[|rest|..] && c.ch == more &&
              c.errs == if m > 0 then [Mismatch(m)] else []
  {
    var ch := rest + ([y] + more);
    if rest == [] {
      assert ch[0] == y && ch[1..] == more;
    } else {
      assert rest[0] in rest && ch[0] == rest[0];
      assert ch[1..] == rest[1..] + ([y] + more);
      if web != [] {
        var n' := if web[0] == Lower(rest[0]) then n else n + 1;
        CheckOn(rest[1..], y, more, web[1..], n', Lower(rest[0]));
      }
    }
  }

  /** How things stand before `web`, with the changes cs still to come. */
  function Idle(web: seq<Line>, cs: seq<Change>, tail: seq<Line>, errs: seq<Complaint>): State {
    State(web, Waiting(cs, tail), false, Awaited(cs), false, errs)
  }

  lemma RunStep(st: State)
    ensures var (s, l) := GetLine(st);
            Run(st) == if s.ended then (s, []) else (Run(s).0, [l] + Run(s).1)
  {
    hide GetLine;
  }

  /** The new lines come out, and then it goes on as after @z. */
  lemma {:induction false} NewLinesOut(st: State, repl: seq<Line>, z: Line, more: seq<Line>)
    requires st.changing && !st.ended && st.ch == repl + ([z] + more) && Mark(z, 'z')
    requires forall l :: l in repl ==> Unmarked(l)
    ensures var idle := EndChange(st.(ch := more));
            Run(st) == (Run(idle).0, LowerAll(repl) + Run(idle).1)
    decreases |repl|
  {
    var idle := EndChange(st.(ch := more));
    if repl == [] {
      assert st.ch[0] == z && st.ch[1..] == more;
      LowerMark(z, 'z');
      assert Move(st) == FromWeb(idle) == Move(idle);
      assert GetLine(st) == GetLine(idle);
      assert LowerAll(repl) + Run(idle).1 == Run(idle).1;
    } else {
      var l := repl[0];
      assert l in repl && st.ch[0] == l && st.ch[1..] == repl[1..] + ([z] + more);
      LowerMark(l, 'x');
      LowerMark(l, 'y');
      LowerMark(l, 'z');
      var next := st.(ch := st.ch[1..]);
      assert GetLine(st) == (next, Lower(l));
      hide Move, GetLine, EndChange;
      assert next.(ch := more) == st.(ch := more);
      NewLinesOut(next, repl[1..], z, more);
      RunStep(st);
      hide Run;
      Assoc([Lower(l)], LowerAll(repl[1..]), Run(idle).1);
    }
  }

  /** Between two changes the input is as the merged lines say. */
  lemma {:induction false} MergeFrom(web: seq<Line>, cs: seq<Change>, tail: seq<Line>,
                                     errs: seq<Complaint>)
    requires (forall c :: c in cs ==> WellFormed(c)) && Junk(tail)
    ensures var (end, lines) := Run(Idle(web, cs, tail, errs));
            && lines == Merge(web, cs) && end.buf == LeftOver(web, cs)
            && end.errs == errs + Reports(web, cs)
    decreases |web|
  {
    var st := Idle(web, cs, tail, errs);
    if web == [] {
      assert GetLine(st) == (st.(ended := true), []);
      RunStep(st);
      assert errs + [] == errs;
    } else if cs != [] && web[0] == cs[0].first {
      hide Run, GetLine, Move, Idle, Render, Mismatches;
      MergeChange(web, cs, tail, errs);
      if |web| - 1 >= |cs[0].rest| {
        var n := Mismatches(cs[0].rest, web[1..]);
        var found := if n > 0 then [Mismatch(n)] else [];
        assert forall c :: c in cs[1..] ==> c in cs;
        MergeFrom(web[1 + |cs[0].rest|..], cs[1..], tail, errs + found);
        Assoc(errs, found, Reports(web[1 + |cs[0].rest|..], cs[1..]));
      }
    } else {
      var next := Idle(web[1..], cs, tail, errs);
      assert cs != [] ==> cs[0] in cs;
      assert Move(st) == Deliver(next, web[0]);
      assert GetLine(st) == (next, web[0]);
      hide GetLine, Move, Render;
      RunStep(st);
      hide Run;
      MergeFrom(web[1..], cs, tail, errs);
    }
  }

  /** The change at the front of the web lines. */
  lemma MergeChange(web: seq<Line>, cs: seq<Change>, tail: seq<Line>, errs: seq<Complaint>)
    requires (forall c :: c in cs ==> WellFormed(c)) && Junk(tail)
    requires web != [] && cs != [] && web[0] == cs[0].first
    ensures var c := cs[0];
            var run := Run(Idle(web, cs, tail, errs));
            if |web| - 1 < |c.rest| then
              run.1 == [] && run.0.buf == Lower(c.rest[|web| - 1]) && run.0.errs == errs + [WebEnded]
            else
              var n := Mismatches(c.rest, web[1..]);
              var more := errs + if n > 0 then [Mismatch(n)] else [];
              var after := Run(Idle(web[1 + |c.rest|..], cs[1..], tail, more));
              run == (after.0, LowerAll(c.repl) + after.1)
  {
    var c := cs[0];
    assert c in cs;
    var st := Idle(web, cs, tail, errs);
    var later := Render(cs[1..], tail);
    var inner := c.repl + ([c.z] + later);
    var next := ChangeMoves(web, cs, tail, errs);
    assert Mark(c.z, 'z') && forall l :: l in c.repl ==> Unmarked(l);
    hide Render, Mismatches, Rest, Move, GetLine, WellFormed, LowerAll;
    RunStep(st);
    RunStep(next);
    if |web| - 1 >= |c.rest| {
      hide Run;
      hide Unmarked, Mark;
      NewLinesOut(next, c.repl, c.z, later);
      assert forall d :: d in cs[1..] ==> d in cs;
      PrimeOn(cs[1..], tail);
      assert next.errs + [] == next.errs;
      assert EndChange(next.(ch := later)) ==
             Idle(web[1 + |c.rest|..], cs[1..], tail, next.errs);
    }
  }

  /** get_line at the first line of a change goes through check_change. */
  lemma ChangeMoves(web: seq<Line>, cs: seq<Change>, tail: seq<Line>, errs: seq<Complaint>)
    returns (next: State)
    requires web != [] && cs != [] && WellFormed(cs[0]) && web[0] == cs[0].first
    ensures var c := cs[0];
            var n := Mismatches(c.rest, web[1..]);
            var st := Idle(web, cs, tail, errs);
            if |web| - 1 < |c.rest| then
              GetLine(st) == (next, []) && next.ended && next.buf == Lower(c.rest[|web| - 1]) &&
              next.errs == errs + [WebEnded]
            else
              GetLine(st) == GetLine(next) && next.changing && !next.ended &&
              next.web == web[1 + |c.rest|..] &&
              next.ch == c.repl + ([c.z] + Render(cs[1..], tail)) &&
              next.errs == errs + if n > 0 then [Mismatch(n)] else []
  {
    var c := cs[0];
    var st := Idle(web, cs, tail, errs);
    var later := Render(cs[1..], tail);
    var inner := c.repl + ([c.z] + later);
    RestAndMore(c, later);
    CheckOn(c.rest, c.y, inner, web[1..], 0, c.first);
    var checked := Check(st.ch, web[1..], 0, c.first);
    hide Check, Render, Mismatches, Rest;
    next := State(checked.web, checked.ch, checked.changing, checked.buf, checked.ended,
                  errs + checked.errs);
    assert Move(st) == if checked.changing then Again(next) else Deliver(next, []);
    assert GetLine(st) == if checked.changing then GetLine(next) else (next, []);
    hide GetLine, Move;
    assert |web| - 1 >= |c.rest| ==> web[1..][|c.rest|..] == web[1 + |c.rest|..];
  }

  lemma RestAndMore(c: Change, more: seq<Line>)
    ensures Rest(c) + more == c.rest + ([c.y] + (c.repl + ([c.z] + more)))
  {
  }

  /** reset_input: the change buffer is primed and the web file is at its start. */
  function Reset(web: seq<Line>, ch: seq<Line>): State {
    var p := Prime(ch);
    State(web, p.ch, false, p.buf, false, p.errs)
  }

  /**
    For a well-formed change file get_line delivers the web file with each change applied, in order,
    at the first later line equal to its first old line that is not blank.
   */
  lemma MergeCorrect(web: seq<Line>, cs: seq<Change>, tail: seq<Line>)
    requires (forall c :: c in cs ==> WellFormed(c)) && Junk(tail)
    ensures var (end, lines) := Run(Reset(web, Render(cs, tail)));
            && lines == Merge(web, cs) && end.errs == Reports(web, cs)
            && (end.buf != [] <==> Applied(web, cs) < |cs| && !EndsAtBlank(web, cs))
  {
    PrimeOn(cs, tail);
    MergeFrom(web, cs, tail, []);
    CompleteExactly(web, cs);
  }

  /** With no changes, or none that ever matches, the web file comes through as it is. */
  lemma {:induction false} MergeUnchanged(web: seq<Line>, cs: seq<Change>)
    requires cs == [] || cs[0].first !in web
    ensures Merge(web, cs) == web
  {
    if web != [] {
      MergeUnchanged(web[1..], cs);
    }
  }

  /** Undisturbed lines in front of the first match come through; the change replaces its block. */
  lemma {:induction false} MergeFirst(before: seq<Line>, block: seq<Line>, after: seq<Line>,
                                      cs: seq<Change>)
    requires cs != [] && cs[0].first !in before
    requires |block| == 1 + |cs[0].rest| && block[0] == cs[0].first
    ensures Merge(before + (block + after), cs) ==
            before + (LowerAll(cs[0].repl) + Merge(after, cs[1..]))
    ensures Applied(before + (block + after), cs) == 1 + Applied(after, cs[1..])
  {
    var web := before + (block + after);
    if before == [] {
      assert web == block + after && web[|block|..] == after;
    } else {
      assert web[0] == before[0] && web[1..] == before[1..] + (block + after);
      MergeFirst(before[1..], block, after, cs);
    }
  }

  /** The merge with the new lines exactly as the change file has them. */
  function Verbatim(web: seq<Line>, cs: seq<Change>): seq<Line> {
    if web == [] then []
    else if cs != [] && web[0] == cs[0].first then
      if |web| - 1 < |cs[0].rest| then []
      else cs[0].repl + Verbatim(web[1 + |cs[0].rest|..], cs[1..])
    else [web[0]] + Verbatim(web[1..], cs)
  }

  ghost predicate Plain(ls: seq<Line>) {
    forall l :: l in ls ==> Lower(l) == l
  }

  ghost predicate AllPlain(cs: seq<Change>, n: nat)
    requires n <= |cs|
  {
    forall i :: 0 <= i < n ==> Plain(cs[i].repl)
  }

  lemma {:induction false} LowerAllPlain(ls: seq<Line>)
    ensures |LowerAll(ls)| == |ls|
    ensures LowerAll(ls) == ls <==> Plain(ls)
  {
    hide Lower;
    if ls != [] {
      LowerAllPlain(ls[1..]);
      assert ls == [ls[0]] + ls[1..];
      assert LowerAll(ls)[1..] == LowerAll(ls[1..]);
    }
  }

  lemma SameSplit(a: seq<Line>, b: seq<Line>, c: seq<Line>, d: seq<Line>)
    requires |a| == |c|
    ensures a + b == c + d <==> a == c && b == d
  {
    if a + b == c + d {
      assert a == (a + b)[..|a|] == c && b == (a + b)[|a|..] == d;
    }
  }

  /**
    A control code with an upper-case letter at the start of a new line comes out in lower case, so
    the delivered lines are the file's own if and only if no applied change has such a line.
   */
  lemma {:induction false} VerbatimExactly(web: seq<Line>, cs: seq<Change>)
    ensures Merge(web, cs) == Verbatim(web, cs) <==> AllPlain(cs, Applied(web, cs))
  {
    hide Lower, Plain;
    if web == [] {
    } else if cs != [] && web[0] == cs[0].first {
      var c := cs[0];
      if |web| - 1 >= |c.rest| {
        var later := web[1 + |c.rest|..];
        VerbatimExactly(later, cs[1..]);
        LowerAllPlain(c.repl);
        SameSplit(LowerAll(c.repl), Merge(later, cs[1..]), c.repl, Verbatim(later, cs[1..]));
        AllPlainFirst(cs, 1 + Applied(later, cs[1..]));
      }
    } else {
      VerbatimExactly(web[1..], cs);
      SameSplit([web[0]], Merge(web[1..], cs), [web[0]], Verbatim(web[1..], cs));
    }
  }

  lemma AllPlainFirst(cs: seq<Change>, n: nat)
    requires 0 < n <= |cs|
    ensures AllPlain(cs, n) <==> Plain(cs[0].repl) && AllPlain(cs[1..], n - 1)
  {
    hide Plain;
    if Plain(cs[0].repl) && AllPlain(cs[1..], n - 1) {
      forall i | 0 <= i < n
        ensures Plain(cs[i].repl)
      {
        if i > 0 {
          assert cs[i] == cs[1..][i - 1];
        }
      }
    }
    if AllPlain(cs, n) {
      forall i | 0 <= i < n - 1
        ensures Plain(cs[1..][i].repl)
      {
        assert cs[1..][i] == cs[i + 1];
      }
    }
  }

  /** Where that fails: the one new line `@D x` comes out as `@d x`. */
  lemma UpperCodeLowered()
    ensures var c := Change([], "@x", 0, "a", [], "@y", ["@D x"], "@z");
            && WellFormed(c)
            && Merge(["a"], [c]) == ["@d x"] && Verbatim(["a"], [c]) == ["@D x"]
  {
    var c := Change([], "@x", 0, "a", [], "@y", ["@D x"], "@z");
    assert Merge([], []) == [] && Verbatim([], []) == [];
    assert Lower("@D x") == "@d x";
    assert LowerAll(["@D x"]) == ["@d x"] + LowerAll([]);
    assert ["a"][1..] == [] && [c][1..] == [];
  }

  /** A web file that ends where the change has a blank old line: nothing is complained about. */
  lemma BlankEndsSilently()
    ensures var c := Change([], "@x", 0, "a", [""], "@y", [], "@z");
            && WellFormed(c)
            && Applied(["a"], [c]) == 0 && LeftOver(["a"], [c]) == []
  {
    var c := Change([], "@x", 0, "a", [""], "@y", [], "@z");
    assert Lower(c.rest[0]) == [];
  }

  // ----- The same with the source's variables

  class Reader {
    const webFile: seq<string>
    const changeFile: seq<string>
    var webPos: nat
    var changePos: nat
    var buffer: Line
    var changeBuffer: Line
    var changing: bool
    var inputHasEnded: bool
    var errs: seq<Complaint>

    ghost predicate Valid()
      reads this
    {
      webPos <= |webFile| && changePos <= |changeFile|
    }

    ghost function Web(): seq<Line>
      requires Valid()
      reads this
    {
      TrimAll(webFile[webPos..])
    }

    ghost function Ch(): seq<Line>
      requires Valid()
      reads this
    {
      TrimAll(changeFile[changePos..])
    }

    ghost function Now(): State
      requires Valid()
      reads this
    {
      State(Web(), Ch(), changing, changeBuffer, inputHasEnded, errs)
    }

    /** reset_input. */
    constructor (webFile: seq<string>, changeFile: seq<string>)
      ensures Valid() && Now() == Reset(TrimAll(webFile), TrimAll(changeFile))
    {
      this.webFile, this.changeFile := webFile, changeFile;
      webPos, changePos, buffer, changeBuffer := 0, 0, [], [];
      changing, inputHasEnded, errs := true, false, [];
      new;
      assert changeFile[0..] == changeFile && webFile[0..] == webFile;
      PrimeTheChangeBuffer();
      changing := !changing;
    }

    /** input_ln on the change file. */
    method ReadChange() returns (more: bool)
      requires Valid()
      modifies this
      ensures Valid() && more == (old(Ch()) != [])
      ensures Now() == if more then old(Now()).(ch := old(Ch())[1..]) else old(Now())
      ensures buffer == if more then old(Ch())[0] else []
    {
      more := changePos < |changeFile|;
      buffer := [];
      if more {
        assert changeFile[changePos..][1..] == changeFile[changePos + 1..];
        buffer := InputLn(changeFile[changePos]);
        changePos := changePos + 1;
      }
    }

    /** input_ln on the web file. */
    method ReadWeb() returns (more: bool)
      requires Valid()
      modifies this
      ensures Valid() && more == (old(Web()) != [])
      ensures Now() == if more then old(Now()).(web := old(Web())[1..]) else old(Now())
      ensures buffer == if more then old(Web())[0] else []
    {
      more := webPos < |webFile|;
      buffer := [];
      if more {
        assert webFile[webPos..][1..] == webFile[webPos + 1..];
        buffer := InputLn(webFile[webPos]);
        webPos := webPos + 1;
      }
    }

    method Complain(e: Complaint)
      requires Valid()
      modifies this`errs
      ensures Valid() && Now() == old(Now()).(errs := old(errs) + [e])
    {
      errs := errs + [e];
    }

    /** The second character of a line that starts with @, in lower case. */
    method LowerBuffer()
      requires Valid()
      modifies this`buffer
      ensures Valid() && buffer == Lower(old(buffer)) && Now() == old(Now())
    {
      if |buffer| > 1 && buffer[0] == '@' && 'A' <= buffer[1] <= 'Z' {
        buffer := buffer[1 := (buffer[1] as int + 32) as char];
      }
    }

    /** The first loop of prime_the_change_buffer: on to the line behind the next @x. */
    method SkipToX() returns (found: bool)
      requires Valid()
      modifies this
      ensures Valid() && Now() == old(Now()).(ch := Ch(), errs := errs)
      ensures var p, q := Prime(old(Ch())), if found then PrimeOld(Ch()) else Primed([], [], []);
              p == q.(errs := p.errs) && old(errs) + p.errs == errs + q.errs
      ensures !found ==> Ch() == []
    {
      hide TrimAll, PrimeOld;
      ghost var st, ch := Now(), Ch();
      while true
        invariant Valid() && Now() == st.(ch := Ch(), errs := errs)
        invariant var p, q := Prime(ch), Prime(Ch());
                  p == q.(errs := p.errs) && st.errs + p.errs == errs + q.errs
        decreases |Ch()|
      {
        ghost var errs0 := errs;
        var more := ReadChange();
        if !more {
          return false;
        }
        ghost var q := Prime(Ch());
        LowerBuffer();
        if |buffer| > 1 && buffer[0] == '@' {
          if buffer[1] == 'x' {
            return true;
          }
          if buffer[1] == 'y' || buffer[1] == 'z' || buffer[1] == 'i' {
            Complain(MissingX);
            assert errs0 + ([MissingX] + q.errs) == errs + q.errs;
          }
        }
      }
    }

    /** The second loop: the first line that is not blank. */
    method FindOldLine() returns (found: bool)
      requires Valid()
      modifies this
      ensures Valid() && Now() == old(Now()).(ch := Ch(), errs := errs)
      ensures PrimeOld(old(Ch())) ==
              if found then Primed(Ch(), buffer, []) else Primed([], [], [EndedAfterX])
      ensures errs == old(errs) + if found then [] else [EndedAfterX]
      ensures !found ==> Ch() == []
    {
      ghost var st, ch := Now(), Ch();
      buffer := [];
      while buffer == []
        invariant Valid() && Now() == st.(ch := Ch())
        invariant PrimeOld(ch) == if buffer == [] then PrimeOld(Ch()) else Primed(Ch(), buffer, [])
        decreases |Ch()|, buffer == []
      {
        var more := ReadChange();
        if !more {
          Complain(EndedAfterX);
          return false;
        }
      }
      found := true;
    }

    method PrimeTheChangeBuffer()
      requires Valid()
      modifies this
      ensures var p := Prime(old(Ch()));
              Valid() && Now() == old(Now()).(ch := p.ch, buf := p.buf, errs := old(errs) + p.errs)
    {
      changeBuffer := [];
      var found := SkipToX();
      if found {
        found := FindOldLine();
        if found {
          changeBuffer := buffer;
        }
      }
    }

    /** The next old line goes into the change buffer; stops at @y or at the end of the file. */
    method ReadOld(n: nat) returns (stop: bool)
      requires Valid() && !inputHasEnded
      modifies this
      ensures Valid()
      ensures var ch := old(Ch());
              if ch == [] then
                stop && buffer == [] &&
                Now() == old(Now()).(buf := [], changing := false, errs := old(errs) + [EndedBeforeY])
              else if Mark(ch[0], 'y') then
                stop && Now() == old(Now()).(ch := ch[1..], changing := true,
                                             errs := old(errs) + if n > 0 then [Mismatch(n)] else [])
              else
                !stop && Now() == old(Now()).(ch := ch[1..], buf := Lower(ch[0]), changing := false,
                                              errs := old(errs) + Flaws(ch[0]))
    {
      hide TrimAll;
      ghost var errs0 := errs;
      assert errs0 + [] == errs0;
      changing, stop := true, true;
      var more := ReadChange();
      if !more {
        Complain(EndedBeforeY);
        changeBuffer, changing := [], false;
        return;
      }
      if |buffer| > 1 && buffer[0] == '@' {
        LowerBuffer();
        if buffer[1] == 'x' || buffer[1] == 'z' {
          Complain(NoMatchingY);
        } else if buffer[1] == 'y' {
          if n > 0 {
            Complain(Mismatch(n));
          }
          return;
        }
      }
      changeBuffer := buffer;
      changing, stop := false, false;
    }

    /** One turn of the loop of check_change, when n lines have not matched; done at @y or an error. */
    method CheckOne(n: nat) returns (done: bool, n': nat)
      requires Valid() && !inputHasEnded
      modifies this
      ensures Valid()
      ensures var c := Check(old(Ch()), old(Web()), n, old(changeBuffer));
              if done then
                Now() == State(c.web, c.ch, c.changing, c.buf, c.ended, old(errs) + c.errs) &&
                (!changing ==> buffer == [])
              else
                var d := Check(Ch(), Web(), n', changeBuffer);
                && !inputHasEnded && !changing && |Ch()| < |old(Ch())|
                && c == d.(errs := c.errs) && old(errs) + c.errs == errs + d.errs
    {
      hide TrimAll, Mark;
      ghost var errs0, ch := errs, Ch();
      n' := n;
      done := ReadOld(n);
      if done {
        return;
      }
      hide Flaws;
      var more := ReadWeb();
      if !more {
        Complain(WebEnded);
        inputHasEnded := true;
        Assoc(errs0, Flaws(ch[0]), [WebEnded]);
        return true, n;
      }
      if buffer != changeBuffer {
        n' := n + 1;
      }
      Assoc(errs0, Flaws(ch[0]), Check(Ch(), Web(), n', changeBuffer).errs);
    }

    /** check_change, once the line in the buffer is the one in the change buffer. */
    method CheckChange()
      requires Valid() && !changing && !inputHasEnded
      modifies this
      ensures var c := Check(old(Ch()), old(Web()), 0, old(changeBuffer));
              Valid() && Now() == State(c.web, c.ch, c.changing, c.buf, c.ended, old(errs) + c.errs)
      ensures !changing ==> buffer == []
    {
      hide Check, TrimAll;
      ghost var goal := Check(Ch(), Web(), 0, changeBuffer);
      ghost var all := errs + goal.errs;
      var n := 0;
      var done := false;
      while !done
        invariant Valid() && (!done ==> !inputHasEnded && !changing)
        invariant if done then
                    Now() == State(goal.web, goal.ch, goal.changing, goal.buf, goal.ended, all) &&
                    (!changing ==> buffer == [])
                  else
                    var c := Check(Ch(), Web(), n, changeBuffer);
                    c == goal.(errs := c.errs) && errs + c.errs == all
        decreases !done, |Ch()|
      {
        done, n := CheckOne(n);
      }
    }

    /** The part of get_line that reads the web file. */
    method WebLine()
      requires Valid() && !changing && !inputHasEnded
      modifies this
      ensures Valid()
      ensures match FromWeb(old(Now()))
              case Deliver(st, line) => Now() == st && (st.ended || line == buffer) && !changing
              case Again(st) => Now() == st && changing && !inputHasEnded
    {
      var more := ReadWeb();
      if !more {
        inputHasEnded := true;
      } else if |buffer| == |changeBuffer| && |changeBuffer| > 0 && buffer == changeBuffer {
        CheckChange();
      }
    }

    /** The part of get_line that reads the change file. */
    method ChangeLine()
      requires Valid() && changing && !inputHasEnded
      modifies this
      ensures Valid() && !inputHasEnded
      ensures if changing then Move(old(Now())) == Deliver(Now(), buffer)
              else Move(old(Now())) == FromWeb(Now())
    {
      hide FromWeb, Prime, TrimAll;
      var more := ReadChange();
      if !more {
        Complain(EndedWithoutZ);
        buffer := "@z";
      }
      LowerBuffer();
      if |buffer| > 1 && buffer[0] == '@' {
        if buffer[1] == 'x' || buffer[1] == 'y' {
          Complain(NoMatchingZ);
        } else if buffer[1] == 'z' {
          PrimeTheChangeBuffer();
          changing := false;
        }
      }
    }

    /** get_line: false at the end of the input, otherwise the line is in the buffer. */
    method NextLine() returns (more: bool)
      requires Valid() && !inputHasEnded
      modifies this
      ensures Valid() && Now() == GetLine(old(Now())).0
      ensures more == !inputHasEnded && (more ==> buffer == GetLine(old(Now())).1)
    {
      hide FromWeb, Move, TrimAll;
      ghost var goal := GetLine(Now());
      while true
        invariant Valid() && !inputHasEnded && GetLine(Now()) == goal
        decreases |Ch()|, changing
      {
        ghost var st := Now();
        MoveProgress(st);
        if changing {
          ChangeLine();
        } else {
          MoveFromWeb(st);
        }
        if changing {
          return true;
        }
        WebLine();
        if !changing {
          return !inputHasEnded;
        }
      }
    }

    /** check_complete: true if it complains. */
    method CheckComplete() returns (complains: bool)
      requires Valid()
      ensures complains == (changeBuffer != [])
    {
      complains := |changeBuffer| != 0;
    }

    /** All lines that the rest of the program gets to see. */
    method ReadAll() returns (lines: seq<Line>)
      requires Valid() && !inputHasEnded
      modifies this
      ensures Valid() && (Now(), lines) == Run(old(Now()))
    {
      hide GetLine, Run, TrimAll;
      ghost var goal := Run(Now());
      lines := [];
      RunStep(Now());
      LineProgress(Now());
      var more := NextLine();
      assert more ==> goal.1 == lines + ([buffer] + Run(Now()).1);
      while more
        invariant Valid() && more == !inputHasEnded
        invariant goal == if more then (Run(Now()).0, lines + ([buffer] + Run(Now()).1))
                          else (Now(), lines)
        decreases more, |Web()| + |Ch()|
      {
        RunStep(Now());
        Assoc(lines, [buffer], Run(Now()).1);
        OneMoreLine(lines, buffer);
        lines := lines + [buffer];
        LineProgress(Now());
        more := NextLine();
      }
    }
  }

  lemma OneMoreLine(lines: seq<Line>, l: Line)
    ensures lines + ([l] + []) == lines + [l]
  {
  }

  /**
    The whole of it: all lines of a web file and a change file, what is reported, and whether
    check_complete complains. For a well-formed change file that is the merge.
   */
  method MergeFiles(webFile: seq<string>, changeFile: seq<string>)
    returns (lines: seq<Line>, errs: seq<Complaint>, complains: bool)
    ensures var (end, all) := Run(Reset(TrimAll(webFile), TrimAll(changeFile)));
            lines == all && errs == end.errs && (complains <==> end.buf != [])
    ensures forall cs, tail :: TrimAll(changeFile) == Render(cs, tail) && AllWell(cs, tail) ==>
              && lines == Merge(TrimAll(webFile), cs)
              && errs == Reports(TrimAll(webFile), cs)
              && (complains <==> Applied(TrimAll(webFile), cs) < |cs| &&
                                 !EndsAtBlank(TrimAll(webFile), cs))
  {
    hide Run, TrimAll, Reset, Render, Merge, Reports, Applied, EndsAtBlank;
    var r := new Reader(webFile, changeFile);
    StartsOpen(TrimAll(webFile), TrimAll(changeFile));
    lines := r.ReadAll();
    errs := r.errs;
    complains := r.CheckComplete();
    forall cs, tail | TrimAll(changeFile) == Render(cs, tail) && AllWell(cs, tail)
      ensures && lines == Merge(TrimAll(webFile), cs)
              && errs == Reports(TrimAll(webFile), cs)
              && (complains <==> Applied(TrimAll(webFile), cs) < |cs| &&
                                 !EndsAtBlank(TrimAll(webFile), cs))
    {
      MergeCorrect(TrimAll(webFile), cs, tail);
    }
  }

  lemma StartsOpen(web: seq<Line>, ch: seq<Line>)
    ensures !Reset(web, ch).ended
  {
  }
}
