/**
  How make_output of CWEAVE collapses runs of break tokens and cancels breaks.
 */
module Breaks {
  import opened Sequences

  /** Tokens as get_output delivers them, with the mode that is in force then. */
  datatype Tok =
    | Cancel(big: bool)
    | Indent
    | Outdent
    | Opt(digit: char)
    | Backup
    | Break(strength: nat)
    | Preproc
    | Blank
    | Inserted
    | Noop
    | Other(x: nat)
    | End

  datatype Item = Item(tok: Tok, outer: bool)

  /** What is put out: \1 to \8, an optional break with its digit, the end of a line, other text. */
  datatype Out = Code(n: nat) | Optional(digit: char, minus: bool) | LineEnd | Text(x: nat) | Gap

  /** The strengths of break_space, force and big_force, as the digits of their output. */
  predicate BreaksOK(s: seq<Item>) {
    forall i :: i in s && i.tok.Break? ==> 5 <= i.tok.strength <= 7
  }

  /** c times \1, or -c times \2. */
  function Indentation(c: int): (out: seq<Out>)
    ensures |out| == if c >= 0 then c else -c
    decreases if c >= 0 then c else -c
  {
    if c > 0 then [Code(1)] + Indentation(c - 1)
    else if c < 0 then [Code(2)] + Indentation(c + 1)
    else []
  }

  function Shift(t: Tok): int {
    if t.Indent? then 1 else if t.Outdent? then -1 else 0
  }

  /** A token that ends a run after a break: anything but breaks, indents, outdents, opts, blanks. */
  predicate Ends(t: Tok) {
    !(t.Break? || t.Indent? || t.Outdent? || t.Opt? || t.Blank? || t.Inserted?)
  }

  /** How many tokens belong to the run. */
  function RunLength(s: seq<Item>): (n: nat)
    ensures n <= |s| && forall i :: 0 <= i < n ==> !Ends(s[i].tok)
    ensures n < |s| ==> Ends(s[n].tok)
  {
    if s == [] || Ends(s[0].tok) then 0 else 1 + RunLength(s[1..])
  }

  /** A token that a cancel does not swallow. */
  predicate Stays(t: Tok, big: bool) {
    t.Other? || t.Noop? || t.Cancel? || t.Preproc? || t.End? || (t.Blank? && !big)
  }

  function CancelLength(s: seq<Item>, big: bool): (n: nat)
    ensures n <= |s| && forall i :: 0 <= i < n ==> !Stays(s[i].tok, big)
    ensures n < |s| ==> Stays(s[n].tok, big)
  {
    if s == [] || Stays(s[0].tok, big) then 0 else 1 + CancelLength(s[1..], big)
  }

  /** Net indentation of a stretch. */
  function Net(s: seq<Item>): int {
    if s == [] then 0 else Shift(s[0].tok) + Net(s[1..])
  }

  /** The greatest strength in a run that starts with strength b. */
  function Strongest(s: seq<Item>, b: nat): (m: nat)
    ensures m >= b
  {
    if s == [] then b
    else Strongest(s[1..], if s[0].tok.Break? && s[0].tok.strength > b then s[0].tok.strength else b)
  }

  /** What a token that is not a break puts out by itself. */
  function Single(i: Item, forceLines: bool): seq<Out> {
    match i.tok
    case Indent => if i.outer then [Code(1)] else []
    case Outdent => if i.outer then [Code(2)] else []
    case Opt(d) => if i.outer then [Optional(d, d == '0' && forceLines)] else []
    case Backup => if i.outer then [Code(4)] else []
    case Preproc => if i.outer then [Code(8)] else []
    case Blank => [Text(32)]
    case Other(x) => [Text(x)]
    case _ => []
  }

  /** What a break of strength b and the run behind it put out, when `rest` follows. */
  function AfterRun(outer: bool, run: seq<Item>, b: nat, rest: seq<Item>, start: bool): seq<Out> {
    var atEnd := rest == [] || rest[0].tok.End?;
    if rest != [] && rest[0].tok.Cancel? then Indentation(Net(run))
    else if !outer then (if !atEnd && !rest[0].outer then [Gap] else [])
    else if start then []
    else
      Indentation(Net(run)) + [Code(Strongest(run, b))] + if atEnd then [] else [LineEnd]
  }

  /** How many tokens behind the first one are dealt with together with it. */
  function Reach(s: seq<Item>): (n: nat)
    requires s != []
    ensures n < |s| && forall i :: 0 < i <= n ==> !s[i].tok.End?
  {
    if s[0].tok.Cancel? then CancelLength(s[1..], s[0].tok.big)
    else if s[0].tok.Break? then RunLength(s[1..])
    else 0
  }

  /** What they put out; `start` says that nothing has been put out since `\Y\B`. */
  function Step(s: seq<Item>, start: bool, forceLines: bool): seq<Out>
    requires s != []
  {
    var n := Reach(s);
    var t, mid, rest := s[0].tok, s[1..][..n], s[1 + n..];
    if t.Cancel? then Indentation(Net(mid))
    else if t.Break? then AfterRun(s[0].outer, mid, t.strength, rest, start)
    else Single(s[0], forceLines)
  }

  /** make_output on the tokens up to the end of the translation. */
  function Made(s: seq<Item>, start: bool, forceLines: bool): seq<Out>
    decreases |s|
  {
    if s == [] || s[0].tok.End? then []
    else
      var out := Step(s, start, forceLines);
      out + Made(s[1 + Reach(s)..], start && out == [], forceLines)
  }

  // ----- One break for a run

  lemma {:induction false} RunEnds(run: seq<Item>, rest: seq<Item>)
    requires forall i :: i in run ==> !Ends(i.tok)
    requires rest == [] || Ends(rest[0].tok)
    ensures RunLength(run + rest) == |run|
  {
    if run == [] {
      assert run + rest == rest;
    } else {
      assert run[0] in run && (run + rest)[1..] == run[1..] + rest;
      RunEnds(run[1..], rest);
    }
  }

  /**
    In outer mode, and not just after `\Y\B`, a break with the breaks, indents, outdents, opts and
    blanks behind it becomes the net indentation and one break of the greatest strength; if the run
    meets a cancel it becomes the net indentation only.
   */
  lemma RunCollapses(b: nat, run: seq<Item>, rest: seq<Item>, forceLines: bool)
    requires forall i :: i in run ==> !Ends(i.tok)
    requires rest != [] && Ends(rest[0].tok)
    ensures Made([Item(Break(b), true)] + (run + rest), false, forceLines) ==
            if rest[0].tok.Cancel? then Indentation(Net(run)) + Made(rest, false, forceLines)
            else Indentation(Net(run)) + [Code(Strongest(run, b))]
                 + (if rest[0].tok.End? then [] else [LineEnd]) + Made(rest, false, forceLines)
  {
    RunEnds(run, rest);
    var s := [Item(Break(b), true)] + (run + rest);
    assert s[1..] == run + rest && s[1..][..|run|] == run && s[1 + |run|..] == rest;
  }

  /** The break that is put out is as strong as the strongest of the run, and one of them. */
  lemma {:induction false} StrongestOfRun(run: seq<Item>, b: nat)
    ensures forall i :: i in run && i.tok.Break? ==> i.tok.strength <= Strongest(run, b)
    ensures Strongest(run, b) == b ||
            exists i :: i in run && i.tok.Break? && i.tok.strength == Strongest(run, b)
  {
    if run != [] {
      var t := run[0].tok;
      assert run[0] in run && run == [run[0]] + run[1..];
      StrongestOfRun(run[1..], if t.Break? && t.strength > b then t.strength else b);
    }
  }

  // ----- Conservation of indentation

  function NetOut(out: seq<Out>): int {
    if out == [] then 0
    else (if out[0] == Code(1) then 1 else if out[0] == Code(2) then -1 else 0) + NetOut(out[1..])
  }

  lemma {:induction false} NetOutConcat(a: seq<Out>, b: seq<Out>)
    ensures NetOut(a + b) == NetOut(a) + NetOut(b)
  {
    if a == [] {
      assert a + b == b;
    } else {
      assert (a + b)[1..] == a[1..] + b;
      NetOutConcat(a[1..], b);
    }
  }

  lemma {:induction false} NetIndentation(c: int)
    ensures NetOut(Indentation(c)) == c
    decreases if c >= 0 then c else -c
  {
    if c > 0 {
      NetIndentation(c - 1);
      assert Indentation(c)[1..] == Indentation(c - 1);
    } else if c < 0 {
      NetIndentation(c + 1);
      assert Indentation(c)[1..] == Indentation(c + 1);
    }
  }

  lemma {:induction false} NetSplit(s: seq<Item>, n: nat)
    requires n <= |s|
    ensures Net(s) == Net(s[..n]) + Net(s[n..])
  {
    if n == 0 {
      assert s[..0] == [] && s[0..] == s;
    } else {
      assert s[..n][1..] == s[1..][..n - 1] && s[1..][n - 1..] == s[n..];
      NetSplit(s[1..], n - 1);
    }
  }

  /** The tokens up to the end of the translation. */
  function Body(s: seq<Item>): seq<Item> {
    if s == [] || s[0].tok.End? then [] else [s[0]] + Body(s[1..])
  }

  lemma {:induction false} BodySplit(s: seq<Item>, n: nat)
    requires n <= |s| && forall i :: 0 <= i < n ==> !s[i].tok.End?
    ensures Net(Body(s)) == Net(s[..n]) + Net(Body(s[n..]))
  {
    if n == 0 {
      assert s[..0] == [] && s[0..] == s;
    } else {
      assert s[..n][1..] == s[1..][..n - 1] && s[1..][n - 1..] == s[n..];
      assert Body(s)[1..] == Body(s[1..]);
      BodySplit(s[1..], n - 1);
    }
  }

  /** The indentation of runs that are dropped because nothing was put out since `\Y\B`. */
  function Lost(s: seq<Item>, start: bool): int
    decreases |s|
  {
    if s == [] || s[0].tok.End? then 0
    else
      var n := Reach(s);
      var mid, rest := s[1..][..n], s[1 + n..];
      var dropped := start && s[0].tok.Break? && !(rest != [] && rest[0].tok.Cancel?);
      (if dropped then Net(mid) else 0) + Lost(rest, start && Step(s, start, false) == [])
  }

  lemma SingleNet(i: Item, forceLines: bool)
    requires i.outer && BreaksOK([i])
    ensures NetOut(Single(i, forceLines)) == Shift(i.tok)
    ensures Single(i, forceLines) == [] <==> Single(i, false) == []
  {
  }

  lemma RunNet(run: seq<Item>, b: nat, rest: seq<Item>, start: bool)
    requires 5 <= b
    ensures var out := AfterRun(true, run, b, rest, start);
            NetOut(out) ==
            if start && !(rest != [] && rest[0].tok.Cancel?) then 0 else Net(run)
  {
    hide Net, Strongest;
    NetIndentation(Net(run));
    var last := [Code(Strongest(run, b))];
    NetOutConcat(Indentation(Net(run)), last);
    NetOutConcat(Indentation(Net(run)) + last, [LineEnd]);
    assert last[1..] == [] && [LineEnd][1..] == [];
    assert Indentation(Net(run)) + last + [] == Indentation(Net(run)) + last;
  }

  /**
    In outer mode the indentation that is put out is that of the tokens, apart from what is dropped
    right after `\Y\B`.
   */
  lemma {:induction false} IndentationConserved(s: seq<Item>, start: bool, forceLines: bool)
    requires BreaksOK(s) && forall i :: i in s ==> i.outer
    ensures NetOut(Made(s, start, forceLines)) == Net(Body(s)) - Lost(s, start)
    decreases |s|
  {
    if s != [] && !s[0].tok.End? {
      hide Net, NetOut, Body, Step, Reach, BreaksOK;
      var n := Reach(s);
      var mid, rest, out := s[1..][..n], s[1 + n..], Step(s, start, forceLines);
      StepNet(s, start, forceLines);
      IndentationConserved(rest, start && out == [], forceLines);
      NetOutConcat(out, Made(rest, start && out == [], forceLines));
    }
  }

  /** The same for the tokens that are dealt with together. */
  lemma StepNet(s: seq<Item>, start: bool, forceLines: bool)
    requires s != [] && !s[0].tok.End? && BreaksOK(s) && forall i :: i in s ==> i.outer
    ensures var n := Reach(s);
            var mid, rest := s[1..][..n], s[1 + n..];
            var out := Step(s, start, forceLines);
            var dropped := start && s[0].tok.Break? && !(rest != [] && rest[0].tok.Cancel?);
            && NetOut(out) == Net(Body(s)) - Net(Body(rest)) - (if dropped then Net(mid) else 0)
            && (out == [] <==> Step(s, start, false) == [])
            && BreaksOK(rest) && forall i :: i in rest ==> i.outer
  {
    var i, n := s[0], Reach(s);
    assert i in s;
    var mid, rest := s[1..][..n], s[1 + n..];
    assert s[1..][n..] == rest;
    assert forall x :: x in rest ==> x in s;
    BodySplit(s[1..], n);
    assert Body(s)[1..] == Body(s[1..]);
    assert Net(Body(s)) == Shift(i.tok) + Net(mid) + Net(Body(rest));
    hide Body, Net, AfterRun, Indentation, Single;
    if i.tok.Cancel? {
      NetIndentation(Net(mid));
    } else if i.tok.Break? {
      RunNet(mid, i.tok.strength, rest, start);
    } else {
      assert mid == [];
      NothingNet(0);
      SingleNet(i, forceLines);
    }
  }

  lemma NothingNet(b: nat)
    ensures Net([]) == 0 && Strongest([], b) == b
  {
  }

  /** Away from the start nothing is lost. */
  lemma NothingLost(s: seq<Item>, forceLines: bool)
    requires BreaksOK(s) && forall i :: i in s ==> i.outer
    ensures NetOut(Made(s, false, forceLines)) == Net(Body(s))
  {
    hide *;
    IndentationConserved(s, false, forceLines);
    NoneLost(s);
  }

  lemma {:induction false} NoneLost(s: seq<Item>)
    ensures Lost(s, false) == 0
    decreases |s|
  {
    if s != [] && !s[0].tok.End? {
      NoneLost(s[1 + Reach(s)..]);
    }
  }

  /** A run right after `\Y\B` can lose its indentation. */
  lemma StartLosesIndentation(forceLines: bool)
    ensures var s := [Item(Break(6), true), Item(Indent, true), Item(Other(65), true)];
            Made(s, true, forceLines) == [Text(65)] && Net(Body(s)) == 1
  {
    var s := [Item(Break(6), true), Item(Indent, true), Item(Other(65), true)];
    assert s[1..] == [Item(Indent, true), Item(Other(65), true)];
    assert s[1..][1..] == [Item(Other(65), true)] && s[2..] == [Item(Other(65), true)];
    assert RunLength(s[1..][1..]) == 0 && RunLength(s[1..]) == 1;
    assert s[2..][1..] == [];
    assert Body([Item(Other(65), true)]) == [Item(Other(65), true)];
    assert Body(s[1..]) == [Item(Indent, true)] + [Item(Other(65), true)];
    assert Net([Item(Other(65), true)]) == 0;
    assert Body(s)[1..] == Body(s[1..]) && Body(s[1..])[1..] == [Item(Other(65), true)];
  }

  // ----- What comes through

  /** What a scan of the tokens is behind: nothing, a break in this mode, or a cancel. */
  datatype Behind = Nothing | Run(outer: bool) | Cancelled(big: bool)

  /** A run swallows breaks, indents, outdents, opts and blanks; a cancel these and backups, but
      blanks only if it is a big one. */
  predicate Swallows(w: Behind, t: Tok) {
    && !w.Nothing?
    && (t.Break? || t.Indent? || t.Outdent? || t.Opt? || t.Inserted?
        || (t.Backup? && w.Cancelled?) || (t.Blank? && (w.Run? || w.big)))
  }

  function Scan(w: Behind, i: Item): Behind {
    if Swallows(w, i.tok) then w
    else if i.tok.Break? then Run(i.outer)
    else if i.tok.Cancel? then Cancelled(i.tok.big)
    else Nothing
  }

  /** The text, mark or optional break a token stands for; in inner mode there is only text. */
  function Meaning(i: Item, forceLines: bool): seq<Out> {
    if i.tok.Blank? then [Text(32)]
    else if i.tok.Other? then [Text(i.tok.x)]
    else if !i.outer then []
    else if i.tok.Backup? then [Code(4)]
    else if i.tok.Preproc? then [Code(8)]
    else if i.tok.Opt? then [Optional(i.tok.digit, i.tok.digit == '0' && forceLines)]
    else []
  }

  /** In inner mode a run leaves a gap, unless it meets a cancel. */
  predicate LeavesGap(w: Behind, i: Item) {
    w == Run(false) && !i.outer && !i.tok.Cancel?
  }

  /** The meanings of all tokens that are not swallowed, with the gaps, in order. */
  function Shown(s: seq<Item>, w: Behind, forceLines: bool): seq<Out> {
    if s == [] || s[0].tok.End? then []
    else
      (if Swallows(w, s[0].tok) then []
       else (if LeavesGap(w, s[0]) then [Gap] else []) + Meaning(s[0], forceLines))
      + Shown(s[1..], Scan(w, s[0]), forceLines)
  }

  /** An output without indentation, breaks and ends of lines. */
  function Marks(out: seq<Out>): seq<Out> {
    if out == [] then []
    else
      (match out[0]
       case Code(n) => if n == 1 || n == 2 || 5 <= n <= 7 then [] else [out[0]]
       case LineEnd => []
       case _ => [out[0]]) + Marks(out[1..])
  }

  lemma {:induction false} MarksConcat(a: seq<Out>, b: seq<Out>)
    ensures Marks(a + b) == Marks(a) + Marks(b)
  {
    if a == [] {
      assert a + b == b;
    } else {
      assert (a + b)[0] == a[0] && (a + b)[1..] == a[1..] + b;
      MarksConcat(a[1..], b);
    }
  }

  lemma {:induction false} NoMarks(c: int)
    ensures Marks(Indentation(c)) == []
    decreases if c >= 0 then c else -c
  {
    if c > 0 {
      NoMarks(c - 1);
      assert Indentation(c)[1..] == Indentation(c - 1);
    } else if c < 0 {
      NoMarks(c + 1);
      assert Indentation(c)[1..] == Indentation(c + 1);
    }
  }

  /** n swallowed tokens show nothing. */
  lemma {:induction false} ShownSkips(s: seq<Item>, n: nat, w: Behind, forceLines: bool)
    requires n <= |s| && forall i :: 0 <= i < n ==> Swallows(w, s[i].tok)
    ensures Shown(s, w, forceLines) == Shown(s[n..], w, forceLines)
  {
    hide Swallows;
    if n > 0 {
      SwallowsNoEnd(w, s[0].tok);
      assert s[1..][n - 1..] == s[n..];
      ShownSkips(s[1..], n - 1, w, forceLines);
    } else {
      assert s[0..] == s;
    }
  }

  lemma SwallowsNoEnd(w: Behind, t: Tok)
    ensures Swallows(w, t) ==> !t.End?
  {
  }

  /** Where nothing is swallowed, only the gap depends on what is behind. */
  lemma ShownBehind(s: seq<Item>, w: Behind, forceLines: bool)
    requires s != [] ==> !Swallows(w, s[0].tok)
    ensures Shown(s, w, forceLines) ==
            (if s != [] && !s[0].tok.End? && LeavesGap(w, s[0]) then [Gap] else [])
            + Shown(s, Nothing, forceLines)
  {
  }

  lemma {:induction false} StrongestOK(run: seq<Item>, b: nat)
    requires BreaksOK(run) && 5 <= b <= 7
    ensures 5 <= Strongest(run, b) <= 7
  {
    if run != [] {
      assert run[0] in run && forall i :: i in run[1..] ==> i in run;
      var t := run[0].tok;
      StrongestOK(run[1..], if t.Break? && t.strength > b then t.strength else b);
    }
  }

  lemma RunMarks(outer: bool, run: seq<Item>, b: nat, rest: seq<Item>, start: bool)
    requires BreaksOK(run) && 5 <= b <= 7
    ensures Marks(AfterRun(outer, run, b, rest, start)) ==
            if rest != [] && !rest[0].tok.End? && LeavesGap(Run(outer), rest[0]) then [Gap] else []
  {
    hide Net, Strongest, BreaksOK;
    NoMarks(Net(run));
    StrongestOK(run, b);
    var last := [Code(Strongest(run, b))];
    MarksConcat(Indentation(Net(run)), last);
    MarksConcat(Indentation(Net(run)) + last, [LineEnd]);
    assert last[1..] == [] && [LineEnd][1..] == [];
    assert Indentation(Net(run)) + last + [] == Indentation(Net(run)) + last;
  }

  lemma SingleMarks(i: Item, forceLines: bool)
    requires !i.tok.Break? && !i.tok.Cancel?
    ensures Marks(Single(i, forceLines)) == Meaning(i, forceLines)
  {
    assert Single(i, forceLines) != [] ==> Single(i, forceLines)[1..] == [];
  }

  /** What is dealt with together is a token and those it swallows. */
  lemma ReachSwallows(s: seq<Item>)
    requires s != [] && !s[0].tok.End?
    ensures var n, w := Reach(s), Scan(Nothing, s[0]);
            && (forall i :: 0 <= i < n ==> Swallows(w, s[1..][i].tok))
            && (1 + n < |s| ==> !Swallows(w, s[1 + n].tok))
  {
    assert 1 + Reach(s) < |s| ==> s[1..][Reach(s)] == s[1 + Reach(s)];
  }

  lemma ShownFirst(s: seq<Item>, forceLines: bool)
    requires s != [] && !s[0].tok.End?
    ensures Shown(s, Nothing, forceLines) ==
            Meaning(s[0], forceLines) + Shown(s[1..], Scan(Nothing, s[0]), forceLines)
  {
  }

  /** Behind the first token all shown is the gap and what comes behind the swallowed tokens. */
  lemma ShownRest(s: seq<Item>, forceLines: bool)
    requires s != [] && !s[0].tok.End?
    ensures var rest, w := s[1 + Reach(s)..], Scan(Nothing, s[0]);
            Shown(s[1..], w, forceLines) ==
            (if rest != [] && !rest[0].tok.End? && LeavesGap(w, rest[0]) then [Gap] else [])
            + Shown(rest, Nothing, forceLines)
  {
    hide Shown, Swallows, Scan, LeavesGap, Reach;
    var n, w := Reach(s), Scan(Nothing, s[0]);
    assert s[1..][n..] == s[1 + n..];
    ReachSwallows(s);
    ShownSkips(s[1..], n, w, forceLines);
    ShownBehind(s[1 + n..], w, forceLines);
  }

  lemma StepMarks(s: seq<Item>, start: bool, forceLines: bool)
    requires s != [] && !s[0].tok.End? && BreaksOK(s)
    ensures var rest, w := s[1 + Reach(s)..], Scan(Nothing, s[0]);
            Marks(Step(s, start, forceLines)) ==
            Meaning(s[0], forceLines) +
            if rest != [] && !rest[0].tok.End? && LeavesGap(w, rest[0]) then [Gap] else []
  {
    hide AfterRun, Single, Net, Marks, Indentation, RunLength, CancelLength;
    var n := Reach(s);
    var mid, rest := s[1..][..n], s[1 + n..];
    assert s[0] in s && forall i :: i in mid ==> i in s;
    if s[0].tok.Cancel? {
      NoMarks(Net(mid));
    } else if s[0].tok.Break? {
      RunMarks(s[0].outer, mid, s[0].tok.strength, rest, start);
    } else {
      SingleMarks(s[0], forceLines);
    }
  }

  lemma StepShown(s: seq<Item>, start: bool, forceLines: bool)
    requires s != [] && !s[0].tok.End? && BreaksOK(s)
    ensures Shown(s, Nothing, forceLines) ==
            Marks(Step(s, start, forceLines)) + Shown(s[1 + Reach(s)..], Nothing, forceLines)
  {
    hide *;
    StepMarks(s, start, forceLines);
    ShownFirst(s, forceLines);
    ShownRest(s, forceLines);
    var rest := s[1 + Reach(s)..];
    var gap := if rest != [] && !rest[0].tok.End? && LeavesGap(Scan(Nothing, s[0]), rest[0]) then [Gap]
               else [];
    Assoc(Meaning(s[0], forceLines), gap, Shown(rest, Nothing, forceLines));
  }

  lemma RestOK(s: seq<Item>, n: nat)
    requires BreaksOK(s) && n <= |s|
    ensures BreaksOK(s[n..])
  {
    assert forall i :: i in s[n..] ==> i in s;
  }

  /**
    Indentation, breaks and ends of lines apart, make_output puts out every token's text or mark in
    order, but for exactly those that a break or a cancel before them swallows; in inner mode a run
    of breaks leaves a gap.
   */
  lemma {:induction false} TextsComeThrough(s: seq<Item>, start: bool, forceLines: bool)
    requires BreaksOK(s)
    ensures Marks(Made(s, start, forceLines)) == Shown(s, Nothing, forceLines)
    decreases |s|
  {
    hide Step, Reach, BreaksOK;
    if s != [] && !s[0].tok.End? {
      hide Shown, Marks;
      var out, rest := Step(s, start, forceLines), s[1 + Reach(s)..];
      RestOK(s, 1 + Reach(s));
      StepShown(s, start, forceLines);
      TextsComeThrough(rest, start && out == [], forceLines);
      MarksConcat(out, Made(rest, start && out == [], forceLines));
    }
  }

  // ----- The loops

  class Maker {
    const tokens: seq<Item>
    const forceLines: bool
    var next: nat
    var a: Item
    var start: bool
    var out: seq<Out>

    constructor (tokens: seq<Item>, forceLines: bool, start: bool)
      ensures this.tokens == tokens && this.forceLines == forceLines && this.start == start
      ensures next == 0 && out == []
    {
      this.tokens, this.forceLines, this.start := tokens, forceLines, start;
      next, out, a := 0, [], Item(End, true);
    }

    /** get_output: the end of the translation comes when there are no more tokens. */
    method GetOutput()
      requires next <= |tokens|
      modifies `next, `a
      ensures if old(next) == |tokens| then next == old(next) && a == Item(End, true)
              else next == old(next) + 1 && a == tokens[old(next)]
    {
      if next == |tokens| {
        a := Item(End, true);
      } else {
        a := tokens[next];
        next := next + 1;
      }
    }

    method Emit(o: seq<Out>)
      modifies `out, `start
      ensures out == old(out) + o && start == (old(start) && o == [])
    {
      out := out + o;
      start := start && o == [];
    }

    /** \1 or \2, as often as the count says. */
    method PutIndentation(c: int)
      modifies `out, `start
      ensures out == old(out) + Indentation(c) && start == (old(start) && Indentation(c) == [])
    {
      var k := c;
      assert out + Indentation(k) == old(out) + Indentation(c);
      while k > 0
        invariant k <= c && (c > 0 ==> k >= 0) && (c <= 0 ==> k == c)
        invariant out + Indentation(k) == old(out) + Indentation(c)
        invariant start == (old(start) && (c <= 0 || k == c))
        decreases k
      {
        ghost var before := out;
        assert before + ([Code(1)] + Indentation(k - 1)) == before + [Code(1)] + Indentation(k - 1);
        Emit([Code(1)]);
        k := k - 1;
      }
      while k < 0
        invariant c <= k <= 0 || (k == 0 && c >= 0)
        invariant out + Indentation(k) == old(out) + Indentation(c)
        invariant start == (old(start) && (c == 0 || (c < 0 && k == c)))
        decreases -k
      {
        ghost var before := out;
        assert before + ([Code(2)] + Indentation(k + 1)) == before + [Code(2)] + Indentation(k + 1);
        Emit([Code(2)]);
        k := k + 1;
      }
    }

    /** `a` holds the next token of s, and the others are still to be read. */
    ghost predicate Ahead(s: seq<Item>)
      reads `next, `a
    {
      next <= |tokens| &&
      if s == [] then next == |tokens| && a == Item(End, true)
      else a == s[0] && tokens[next..] == s[1..]
    }

    method Advance(ghost s: seq<Item>)
      requires next <= |tokens| && tokens[next..] == s
      modifies `next, `a
      ensures Ahead(s)
    {
      GetOutput();
    }

    /** The loop behind a cancel, whose tokens s are still to be read. */
    method SkipCancelled(big: bool, ghost s: seq<Item>)
      requires next <= |tokens| && tokens[next..] == s
      modifies `next, `a, `out, `start
      ensures var n := CancelLength(s, big);
              var o := Indentation(Net(s[..n]));
              out == old(out) + o && start == (old(start) && o == []) && Ahead(s[n..])
    {
      hide Net;
      var c := 0;
      ghost var k := 0;
      assert s[..0] == [] && s[0..] == s;
      NothingNet(0);
      Advance(s);
      while !Stays(a.tok, big)
        invariant 0 <= k <= |s| && Ahead(s[k..]) && c == Net(s[..k])
        invariant forall i :: 0 <= i < k ==> !Stays(s[i].tok, big)
        invariant out == old(out) && start == old(start)
        decreases |s| - k
      {
        NetNext(s, k);
        if !a.tok.Inserted? {
          c := c + Shift(a.tok);
        }
        assert s[k..][1..] == s[k + 1..];
        k := k + 1;
        Advance(s[k..]);
      }
      assert k < |s| ==> s[k..][0] == s[k];
      CancelUnique(s, big, k);
      hide CancelLength;
      PutIndentation(c);
    }

    /** The loop behind a break of strength `strength`, whose tokens s are still to be read. */
    method CollapseRun(strength: nat, outer: bool, ghost s: seq<Item>)
      requires next <= |tokens| && tokens[next..] == s
      modifies `next, `a, `out, `start
      ensures var n := RunLength(s);
              var o := AfterRun(outer, s[..n], strength, s[n..], old(start));
              out == old(out) + o && start == (old(start) && o == []) && Ahead(s[n..])
    {
      hide Net, Strongest;
      var b, c := strength, 0;
      ghost var k := 0;
      assert s[..0] == [] && s[0..] == s;
      NothingNet(strength);
      Advance(s);
      while !Ends(a.tok)
        invariant 0 <= k <= |s| && Ahead(s[k..])
        invariant c == Net(s[..k]) && b == Strongest(s[..k], strength)
        invariant forall i :: 0 <= i < k ==> !Ends(s[i].tok)
        invariant out == old(out) && start == old(start)
        decreases |s| - k
      {
        NetNext(s, k);
        StrongestNext(s, k, strength);
        if !a.tok.Inserted? {
          c := c + Shift(a.tok);
          if a.tok.Break? && a.tok.strength > b {
            b := a.tok.strength;
          }
        }
        assert s[k..][1..] == s[k + 1..];
        k := k + 1;
        Advance(s[k..]);
      }
      assert k < |s| ==> s[k..][0] == s[k];
      RunUnique(s, k);
      hide RunLength;
      PutRun(b, c, outer, s[..k], strength, s[k..]);
    }

    /** What is put out once a run is read: net indentation c, strongest break b. */
    method PutRun(b: nat, c: int, outer: bool, ghost run: seq<Item>, ghost strength: nat,
                  ghost rest: seq<Item>)
      requires Ahead(rest) && Ends(a.tok) && c == Net(run) && b == Strongest(run, strength)
      modifies `out, `start
      ensures var o := AfterRun(outer, run, strength, rest, old(start));
              out == old(out) + o && start == (old(start) && o == [])
    {
      hide Net, Strongest;
      ghost var before := out;
      if a.tok.Cancel? {
        PutIndentation(c);
      } else if outer {
        if !start {
          PutIndentation(c);
          Emit([Code(b)]);
          if !a.tok.End? {
            Emit([LineEnd]);
          }
          Assoc(before, Indentation(c), [Code(b)]);
          Assoc(before, Indentation(c) + [Code(b)], if a.tok.End? then [] else [LineEnd]);
        }
      } else if !a.tok.End? && !a.outer {
        Emit([Gap]);
      }
    }

    /** One turn of the loop, from the label `reswitch`. */
    method MakeStep(ghost s: seq<Item>)
      requires Ahead(s) && !a.tok.End?
      modifies `next, `a, `out, `start
      ensures s != [] && Ahead(s[1 + Reach(s)..])
      ensures var o := Step(s, old(start), forceLines);
              out == old(out) + o && start == (old(start) && o == [])
    {
      hide AfterRun, Single, Net, Indentation;
      ghost var n := Reach(s);
      assert s[1..][n..] == s[1 + n..];
      if a.tok.Cancel? {
        SkipCancelled(a.tok.big, s[1..]);
      } else if a.tok.Break? {
        CollapseRun(a.tok.strength, a.outer, s[1..]);
      } else {
        Emit(Single(a, forceLines));
        Advance(s[1..]);
      }
    }

    /** make_output. */
    method MakeOutput()
      requires next == 0 && out == []
      modifies `next, `a, `out, `start
      ensures out == Made(tokens, old(start), forceLines)
    {
      hide Step, Made, Reach;
      ghost var s := tokens;
      assert tokens[0..] == tokens;
      Advance(s);
      assert out + Made(s, start, forceLines) == Made(tokens, start, forceLines);
      while !a.tok.End?
        invariant Ahead(s)
        invariant out + Made(s, start, forceLines) == Made(tokens, old(start), forceLines)
        decreases |s|
      {
        MadeNext(s, start, forceLines, out);
        MakeStep(s);
        s := s[1 + Reach(s)..];
      }
      MadeEnd(s, start, forceLines);
      assert out + [] == out;
    }
  }

  lemma CancelUnique(s: seq<Item>, big: bool, k: nat)
    requires k <= |s| && (k < |s| ==> Stays(s[k].tok, big))
    requires forall i :: 0 <= i < k ==> !Stays(s[i].tok, big)
    ensures CancelLength(s, big) == k
  {
  }

  lemma RunUnique(s: seq<Item>, k: nat)
    requires k <= |s| && (k < |s| ==> Ends(s[k].tok))
    requires forall i :: 0 <= i < k ==> !Ends(s[i].tok)
    ensures RunLength(s) == k
  {
  }

  lemma MadeEnd(s: seq<Item>, start: bool, forceLines: bool)
    requires s == [] || s[0].tok.End?
    ensures Made(s, start, forceLines) == []
  {
  }

  lemma MadeNext(s: seq<Item>, start: bool, forceLines: bool, before: seq<Out>)
    requires s != [] && !s[0].tok.End?
    ensures var o := Step(s, start, forceLines);
            before + Made(s, start, forceLines) ==
            (before + o) + Made(s[1 + Reach(s)..], start && o == [], forceLines)
  {
    hide Step;
  }

  lemma NetNext(s: seq<Item>, k: nat)
    requires k < |s|
    ensures Net(s[..k + 1]) == Net(s[..k]) + Shift(s[k].tok)
  {
    var t := s[..k + 1];
    NetSplit(t, k);
    assert t[..k] == s[..k] && t[k..] == [s[k]] && [s[k]][1..] == [];
  }

  lemma {:induction false} StrongestNext(s: seq<Item>, k: nat, b: nat)
    requires k < |s|
    ensures var m := Strongest(s[..k], b);
            Strongest(s[..k + 1], b) ==
            if s[k].tok.Break? && s[k].tok.strength > m then s[k].tok.strength else m
    decreases k
  {
    if k == 0 {
      assert s[..1][1..] == [] && s[..0] == [];
    } else {
      assert s[..k][1..] == s[1..][..k - 1] && s[..k + 1][1..] == s[1..][..k];
      var t := s[0].tok;
      StrongestNext(s[1..], k - 1, if t.Break? && t.strength > b then t.strength else b);
    }
  }
}
