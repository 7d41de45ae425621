/**
  The output lines of CWEAVE: out, break_out and flush_buffer.
 */
module LineBreaker {
  /** line_length. */
  const LINE_LENGTH: nat := 80

  /** A line that was written; `percent` says that it ends in `%`. */
  datatype Line = Line(text: string, percent: bool)

  // ----- What break_out does to the characters in the buffer

  function TrimBlanks(s: string): (t: string)
    ensures t <= s
  {
    if s == [] || s[|s| - 1] != ' ' then s else TrimBlanks(s[..|s| - 1])
  }

  /** A break may come in front of this character: a backslash that is not behind another one. */
  predicate BreaksBefore(s: string, i: nat)
    requires i < |s|
  {
    s[i] == '\\' && i > 0 && s[i - 1] != '\\'
  }

  /** Where the search from the end stops: behind a blank, in front of a backslash, or nowhere. */
  function Search(s: string, k: nat): (n: nat)
    requires k <= |s|
    ensures n <= k && (n > 0 ==> s[n - 1] == ' ' || BreaksBefore(s, n - 1))
    ensures forall i :: n <= i < k ==> s[i] != ' ' && !BreaksBefore(s, i)
  {
    if k == 0 || s[k - 1] == ' ' || BreaksBefore(s, k - 1) then k else Search(s, k - 1)
  }

  /** How many characters leave the buffer, and whether the line gets a `%`. */
  function Cut(s: string): (r: (nat, bool))
    requires s != []
    ensures r.0 <= |s| && (|s| > 1 ==> r.0 > 0)
  {
    var n := Search(s, |s|);
    if n == 0 then (|s| - 1, true) else if s[n - 1] == ' ' then (n, false) else (n - 1, true)
  }

  function Broken(s: string): Line
    requires s != []
  {
    var (n, percent) := Cut(s);
    Line(if percent then s[..n] else TrimBlanks(s[..n]), percent)
  }

  /** A `%` that is not behind a backslash: TeX ignores the rest of the line. */
  predicate CommentAt(s: string, i: nat)
    requires i < |s|
  {
    s[i] == '%' && (i == 0 || s[i - 1] != '\\')
  }

  predicate HasComment(s: string) {
    exists i :: 0 <= i < |s| && CommentAt(s, i)
  }

  /** What stays in the buffer; when the line had a comment the rest is made one too. */
  function Carried(s: string): string
    requires s != []
  {
    (if HasComment(Broken(s).text) then ['%'] else []) + s[Cut(s).0..]
  }

  /** The line would be broken right behind a `%` at its start. */
  predicate Stuck(s: string)
    requires s != []
  {
    s[0] == '%' && Cut(s).0 == 1
  }

  /**
    A break frees at least one position of the buffer if and only if it is not right behind a `%` at
    its start; there it changes nothing.
   */
  lemma BreakFrees(s: string)
    requires |s| > 1
    ensures |Carried(s)| < |s| <==> !Stuck(s)
    ensures Stuck(s) ==> Carried(s) == s
  {
    CutParts(s);
    hide Cut, Broken, TrimBlanks;
    var n, text := Cut(s).0, Broken(s).text;
    if Stuck(s) {
      assert s[..n] == ['%'] && s[..n][n - 1] == '%';
      assert CommentAt(text, 0);
    } else if n == 1 && HasComment(text) {
      assert text <= s[..n] && text == s[..1];
    }
  }

  /** A line without breaking points behind a `%`: break_out does not free anything. */
  lemma StuckLine()
    ensures var s := ['%'] + ['\\'] + seq(78, i => 'x');
            |s| == LINE_LENGTH && Stuck(s)
  {
    var s := ['%'] + ['\\'] + seq(78, i => 'x');
    var n := Search(s, |s|);
    assert forall i :: 2 <= i < 80 ==> s[i] == 'x';
    assert BreaksBefore(s, 1);
    assert n == 2;
  }

  // ----- Reading the output back

  /** A `%` hides the end of its line; other line ends read as blanks. */
  function ReadBack(ls: seq<Line>): string {
    if ls == [] then []
    else
      var last := ls[|ls| - 1];
      ReadBack(ls[..|ls| - 1]) + last.text + if last.percent then [] else [' ']
  }

  /** Every run of blanks as one blank. */
  function Squeeze(s: string): string {
    if s == [] then []
    else
      var before, c := s[..|s| - 1], s[|s| - 1];
      if c == ' ' && before != [] && before[|before| - 1] == ' ' then Squeeze(before)
      else Squeeze(before) + [c]
  }

  lemma {:induction false} SqueezeBlank(a: string, b: string)
    ensures Squeeze(a + [' ', ' '] + b) == Squeeze(a + [' '] + b)
  {
    var s, t := a + [' ', ' '] + b, a + [' '] + b;
    if b == [] {
      assert s[..|s| - 1] == a + [' '] && t == a + [' '];
    } else {
      var c := b[..|b| - 1];
      assert s[..|s| - 1] == a + [' ', ' '] + c && t[..|t| - 1] == a + [' '] + c;
      SqueezeBlank(a, c);
      assert c == [] ==> s[..|s| - 1][|s| - 2] == ' ' == t[..|t| - 1][|t| - 2];
      assert c != [] ==> s[..|s| - 1][|s| - 2] == c[|c| - 1] == t[..|t| - 1][|t| - 2];
    }
  }

  /** A run of blanks counts for one blank. */
  lemma {:induction false} SqueezeTrimmed(a: string, s: string, b: string)
    requires s != [] && s[|s| - 1] == ' '
    ensures Squeeze(a + s + b) == Squeeze(a + (TrimBlanks(s) + [' ']) + b)
  {
    var t := s[..|s| - 1];
    assert s == t + [' '];
    if t != [] && t[|t| - 1] == ' ' {
      var u := t[..|t| - 1];
      assert t == u + [' '];
      assert a + s + b == (a + u) + [' ', ' '] + b && a + t + b == (a + u) + [' '] + b;
      SqueezeBlank(a + u, b);
      SqueezeTrimmed(a, t, b);
    } else {
      assert TrimBlanks(s) == TrimBlanks(t) == t;
    }
  }

  // ----- The output as a whole

  datatype Output = Output(lines: seq<Line>, buffer: string)

  /** out: one more character. */
  function Out(o: Output, c: char): Output {
    if |o.buffer| >= LINE_LENGTH then
      Output(o.lines + [Broken(o.buffer)], Carried(o.buffer) + [c])
    else o.(buffer := o.buffer + [c])
  }

  function OutAll(o: Output, s: string): Output {
    if s == [] then o else Out(OutAll(o, s[..|s| - 1]), s[|s| - 1])
  }

  /** No break on the way is at a line that is stuck. */
  ghost predicate Flows(o: Output, s: string) {
    forall k :: 0 <= k < |s| ==>
      var b := OutAll(o, s[..k]).buffer; |b| >= LINE_LENGTH ==> !Stuck(b)
  }

  ghost predicate Fits(o: Output) {
    |o.buffer| <= LINE_LENGTH && forall l :: l in o.lines ==> |l.text| <= LINE_LENGTH
  }

  function AllText(o: Output): string {
    ReadBack(o.lines) + o.buffer
  }

  /** A break keeps what is read back, up to the length of runs of blanks. */
  lemma BreakKeepsText(lines: seq<Line>, s: string, b: string)
    requires s != []
    ensures Squeeze(ReadBack(lines) + s + b) ==
            Squeeze(ReadBack(lines + [Broken(s)]) + (s[Cut(s).0..] + b))
  {
    hide *;
    var r, n, l := ReadBack(lines), Cut(s).0, Broken(s);
    CutParts(s);
    ReadBackNext(lines, l);
    if l.percent {
      PercentBreak(r, s[..n], s[n..], b);
    } else {
      BlankBreak(r, s[..n], s[n..], b);
    }
  }

  lemma CutParts(s: string)
    requires s != []
    ensures var n := Cut(s).0;
            && n <= |s| && s == s[..n] + s[n..] && Broken(s).text <= s[..n]
            && (|s| > 1 ==> n > 0)
            && (if Broken(s).percent then Broken(s).text == s[..n]
                else n > 0 && s[..n][n - 1] == ' ' && Broken(s).text == TrimBlanks(s[..n]))
  {
  }

  lemma PercentBreak(r: string, head: string, tail: string, b: string)
    ensures r + (head + tail) + b == (r + head + []) + (tail + b)
  {
  }

  lemma BlankBreak(r: string, head: string, tail: string, b: string)
    requires head != [] && head[|head| - 1] == ' '
    ensures Squeeze(r + (head + tail) + b) == Squeeze((r + TrimBlanks(head) + [' ']) + (tail + b))
  {
    hide Squeeze, TrimBlanks;
    assert r + (head + tail) + b == r + head + (tail + b);
    SqueezeTrimmed(r, head, tail + b);
    assert r + (TrimBlanks(head) + [' ']) == r + TrimBlanks(head) + [' '];
  }

  lemma ReadBackNext(lines: seq<Line>, l: Line)
    ensures ReadBack(lines + [l]) == ReadBack(lines) + l.text + if l.percent then [] else [' ']
  {
    assert (lines + [l])[..|lines|] == lines;
  }

  lemma {:induction false} SqueezeNext(a: string, b: string, c: char)
    requires Squeeze(a) == Squeeze(b)
    ensures Squeeze(a + [c]) == Squeeze(b + [c])
  {
    SqueezeLast(a);
    SqueezeLast(b);
    assert (a + [c])[..|a|] == a && (b + [c])[..|b|] == b;
  }

  lemma {:induction false} SqueezeLast(a: string)
    ensures Squeeze(a) == [] <==> a == []
    ensures a != [] ==> Squeeze(a)[|Squeeze(a)| - 1] == a[|a| - 1]
  {
    if a != [] {
      SqueezeLast(a[..|a| - 1]);
    }
  }

  /**
    The buffer stays within its 80 positions, from an output that fits, if and only if no break on
    the way is at a line that is stuck.
   */
  lemma {:induction false} BufferFitsExactly(o: Output, s: string)
    requires Fits(o)
    ensures (forall k :: 0 <= k <= |s| ==> Fits(OutAll(o, s[..k]))) <==> Flows(o, s)
  {
    hide Out, Fits, Stuck;
    if s != [] {
      var before := s[..|s| - 1];
      assert forall k :: 0 <= k <= |before| ==> s[..k] == before[..k];
      assert s[..|s|] == s;
      BufferFitsExactly(o, before);
      assert before[..|before|] == before;
      if Fits(OutAll(o, before)) {
        OneMoreFits(OutAll(o, before), s[|s| - 1]);
      }
    } else {
      assert s[..0] == [];
    }
  }

  lemma OneMoreFits(o: Output, c: char)
    requires Fits(o)
    ensures Fits(Out(o, c)) <==> |o.buffer| < LINE_LENGTH || !Stuck(o.buffer)
  {
    hide Broken, Cut, Carried, Stuck;
    if |o.buffer| >= LINE_LENGTH {
      BreakFrees(o.buffer);
      BreakFits(o.buffer);
    }
  }

  /** No break on the way is at a line with a comment, so none is carried over. */
  ghost predicate NoCarry(s: string) {
    forall k :: 0 <= k < |s| ==> !Carries(OutAll(Output([], []), s[..k]))
  }

  /** One more character breaks a line with a comment. */
  predicate Carries(o: Output) {
    |o.buffer| >= LINE_LENGTH && HasComment(Broken(o.buffer).text)
  }

  function Percents(s: string): nat {
    if s == [] then 0 else Percents(s[..|s| - 1]) + if s[|s| - 1] == '%' then 1 else 0
  }

  lemma {:induction false} PercentsConcat(a: string, b: string)
    ensures Percents(a + b) == Percents(a) + Percents(b)
  {
    if b == [] {
      assert a + b == a;
    } else {
      assert (a + b)[..|a + b| - 1] == a + b[..|b| - 1];
      PercentsConcat(a, b[..|b| - 1]);
    }
  }

  lemma {:induction false} SqueezePercents(s: string)
    ensures Percents(Squeeze(s)) == Percents(s)
  {
    if s != [] {
      SqueezePercents(s[..|s| - 1]);
      PercentsConcat(Squeeze(s[..|s| - 1]), [s[|s| - 1]]);
    }
  }

  /** Each comment that is carried over adds a `%` to what is read back. */
  lemma OneMorePercent(o: Output, c: char)
    ensures Percents(AllText(Out(o, c))) ==
            Percents(AllText(o)) + (if c == '%' then 1 else 0) + if Carries(o) then 1 else 0
  {
    hide ReadBack, Broken, Cut, HasComment, Percents;
    PercentsOne(c);
    if |o.buffer| >= LINE_LENGTH {
      var l, rest := Broken(o.buffer), o.buffer[Cut(o.buffer).0..];
      var r := ReadBack(o.lines + [l]);
      BreakKeepsText(o.lines, o.buffer, [c]);
      SqueezePercents(ReadBack(o.lines) + o.buffer + [c]);
      SqueezePercents(r + (rest + [c]));
      PercentsConcat(ReadBack(o.lines) + o.buffer, [c]);
      PercentsConcat(r, rest + [c]);
      if HasComment(l.text) {
        assert ['%'] + rest + [c] == ['%'] + (rest + [c]);
        PercentsConcat(['%'], rest + [c]);
        PercentsConcat(r, ['%'] + (rest + [c]));
        PercentsOne('%');
      } else {
        assert [] + rest + [c] == rest + [c];
      }
    } else {
      assert ReadBack(o.lines) + o.buffer + [c] == ReadBack(o.lines) + (o.buffer + [c]);
      PercentsConcat(ReadBack(o.lines) + o.buffer, [c]);
    }
  }

  lemma PercentsOne(c: char)
    ensures Percents([c]) == if c == '%' then 1 else 0
  {
    assert [c][..0] == [];
  }

  lemma {:induction false} OutputPercents(s: string)
    ensures var n := Percents(AllText(OutAll(Output([], []), s)));
            n >= Percents(s) && (n == Percents(s) <==> NoCarry(s))
  {
    hide AllText, Out, Carries;
    if s == [] {
      NothingYet();
    } else {
      var before, c := s[..|s| - 1], s[|s| - 1];
      OutputPercents(before);
      OneMorePercent(OutAll(Output([], []), before), c);
      assert before[..|before|] == before && s[..|before|] == before;
      assert forall k :: 0 <= k < |before| ==> s[..k] == before[..k];
    }
  }

  lemma {:induction false} NoCarryReadsBack(s: string)
    requires NoCarry(s)
    ensures var o := OutAll(Output([], []), s);
            Fits(o) && Squeeze(AllText(o)) == Squeeze(s)
  {
    hide Squeeze, AllText, Out, Fits, Carries;
    if s == [] {
      NothingYet();
    } else {
      var before, c := s[..|s| - 1], s[|s| - 1];
      assert forall k :: 0 <= k <= |before| ==> s[..k] == before[..k];
      assert before[..|before|] == before;
      NoCarryReadsBack(before);
      var o := OutAll(Output([], []), before);
      OneMore(o, c);
      SqueezeNext(AllText(o), before, c);
      assert s == before + [c];
    }
  }

  /**
    Reading the lines and the buffer back gives the text, up to the length of runs of blanks, if
    and only if no line with a comment is broken; then no line is longer than 80 characters.
   */
  lemma OutputReadsBack(s: string)
    ensures var o := OutAll(Output([], []), s);
            && (Squeeze(AllText(o)) == Squeeze(s) <==> NoCarry(s))
            && (NoCarry(s) ==> Fits(o))
  {
    hide Squeeze, AllText, OutAll, Fits, NoCarry, Percents;
    OutputPercents(s);
    SqueezePercents(s);
    SqueezePercents(AllText(OutAll(Output([], []), s)));
    if NoCarry(s) {
      NoCarryReadsBack(s);
    }
  }

  lemma {:induction false} NoPercentOut(s: string)
    requires '%' !in s
    ensures NoCarry(s) && '%' !in OutAll(Output([], []), s).buffer
  {
    hide Out, Carries;
    if s != [] {
      var before, c := s[..|s| - 1], s[|s| - 1];
      assert c in s;
      NoPercentOut(before);
      NoPercentNext(OutAll(Output([], []), before), c);
      assert forall k :: 0 <= k <= |before| ==> s[..k] == before[..k];
      assert before[..|before|] == before;
    }
  }

  lemma NoPercentNext(o: Output, c: char)
    requires '%' !in o.buffer && c != '%'
    ensures !Carries(o) && '%' !in Out(o, c).buffer
  {
    if o.buffer != [] {
      CutParts(o.buffer);
      hide Cut, Broken;
      var text := Broken(o.buffer).text;
      forall i | 0 <= i < |text|
        ensures !CommentAt(text, i)
      {
        assert text[i] == o.buffer[i] && o.buffer[i] in o.buffer;
      }
    }
  }

  /** In particular for every text without `%`. */
  lemma PlainTextReadsBack(s: string)
    requires '%' !in s
    ensures var o := OutAll(Output([], []), s);
            Fits(o) && Squeeze(AllText(o)) == Squeeze(s)
  {
    hide *;
    NoPercentOut(s);
    NoCarryReadsBack(s);
  }

  lemma NothingYet()
    ensures Fits(Output([], [])) && AllText(Output([], [])) == []
  {
  }

  lemma OneMore(o: Output, c: char)
    requires Fits(o) && !Carries(o)
    ensures Fits(Out(o, c)) && Squeeze(AllText(Out(o, c))) == Squeeze(AllText(o) + [c])
  {
    hide Squeeze, ReadBack, Broken, Cut, TrimBlanks, HasComment, Stuck;
    OneMoreFits(o, c);
    if |o.buffer| >= LINE_LENGTH {
      NotStuck(o.buffer);
      BreakKeepsText(o.lines, o.buffer, [c]);
      BreakFits(o.buffer);
      var rest := o.buffer[Cut(o.buffer).0..];
      assert Carried(o.buffer) == rest by {
        assert [] + rest == rest;
      }
      var r := ReadBack(o.lines + [Broken(o.buffer)]);
      assert AllText(Out(o, c)) == r + (rest + [c]);
    } else {
      assert ReadBack(o.lines) + o.buffer + [c] == ReadBack(o.lines) + (o.buffer + [c]);
    }
  }

  lemma NotStuck(s: string)
    requires |s| > 1 && !HasComment(Broken(s).text)
    ensures !Stuck(s)
  {
    CutParts(s);
    BreakFrees(s);
    hide Cut, Broken, HasComment, Stuck;
  }

  lemma BreakFits(s: string)
    requires s != []
    ensures Cut(s).0 <= |s| && (|s| > 1 ==> Cut(s).0 > 0) && |Broken(s).text| <= |s|
  {
    CutParts(s);
  }

  // ----- The same with the source's variables

  lemma TrimStep(s: string, j: nat)
    requires j <= |s|
    ensures TrimBlanks(s[..j]) == if j > 0 && s[j - 1] == ' ' then TrimBlanks(s[..j - 1]) else s[..j]
  {
    assert j > 0 ==> s[..j][..j - 1] == s[..j - 1];
  }

  lemma NoneInNothing()
    ensures !HasComment([])
  {
  }

  class LineWriter {
    const outBuf: array<char>
    var outPtr: nat
    var lines: seq<Line>
    var lineBroken: bool

    constructor ()
      ensures Valid() && fresh(outBuf) && Now() == Output([], [])
    {
      outBuf := new char[LINE_LENGTH + 1](_ => ' ');
      outPtr, lines, lineBroken := 0, [], false;
      new;
      outBuf[0] := '\\';
    }

    /** The sentinel in front of the buffer looks like a backslash. */
    ghost predicate Valid()
      reads this, outBuf
    {
      outBuf.Length == LINE_LENGTH + 1 && outPtr <= LINE_LENGTH && outBuf[0] == '\\'
    }

    ghost function Text(): string
      requires outPtr < outBuf.Length
      reads this, outBuf
    {
      outBuf[1..outPtr + 1]
    }

    ghost function Now(): Output
      requires Valid()
      reads this, outBuf
    {
      Output(lines, Text())
    }

    /** The part of flush_buffer that writes the first b characters. */
    method WriteLine(b: nat, percent: bool) returns (j: nat)
      requires Valid() && b <= outPtr
      modifies this`lines
      ensures j <= b && Text()[..j] == if percent then Text()[..b] else TrimBlanks(Text()[..b])
      ensures lines == old(lines) +
                       [Line(if percent then Text()[..b] else TrimBlanks(Text()[..b]), percent)]
    {
      hide TrimBlanks;
      ghost var s := Text()[..b];
      assert s[..b] == s;
      j := b;
      if !percent {
        while j > 0 && outBuf[j] == ' '
          invariant 0 <= j <= b && TrimBlanks(s[..j]) == TrimBlanks(s)
          invariant lines == old(lines)
        {
          assert s[j - 1] == outBuf[j];
          TrimStep(s, j);
          j := j - 1;
        }
        assert j > 0 ==> s[j - 1] == outBuf[j];
        TrimStep(s, j);
      }
      ghost var text := if percent then Text()[..b] else TrimBlanks(Text()[..b]);
      assert outBuf[1..j + 1] == s[..j] == text;
      lines := lines + [Line(outBuf[1..j + 1], percent)];
    }

    /** Whether the first j characters have a comment. */
    method FindComment(j: nat) returns (found: bool)
      requires Valid() && j <= outPtr
      ensures found == HasComment(Text()[..j])
    {
      ghost var s := Text()[..j];
      var i := j;
      while i > 0
        invariant 0 <= i <= j
        invariant forall x :: i <= x < j ==> !CommentAt(s, x)
      {
        i := i - 1;
        assert s[i] == outBuf[i + 1] && (i > 0 ==> s[i - 1] == outBuf[i]);
        if outBuf[i + 1] == '%' && (i == 0 || outBuf[i] != '\\') {
          assert CommentAt(s, i);
          return true;
        }
      }
      found := false;
    }

    /** flush_buffer with carryover. */
    method FlushBuffer(b: nat, percent: bool)
      requires Valid() && b <= outPtr
      modifies this`outPtr, this`lines, outBuf
      ensures var text := if percent then old(Text())[..b] else TrimBlanks(old(Text())[..b]);
              && lines == old(lines) + [Line(text, percent)]
              && Valid() && Text() == (if HasComment(text) then ['%'] else []) + old(Text())[b..]
    {
      hide TrimBlanks, HasComment;
      var j := WriteLine(b, percent);
      var from := CarryOver(b, j);
      ghost var rest := Text()[from..];
      if from < outPtr {
        CopyDown(from);
      }
      assert outBuf[1..outPtr - from + 1] == rest;
      outPtr := outPtr - from;
    }

    /** The carryover: a `%` takes the last place of the written line. */
    method CarryOver(b: nat, j: nat) returns (from: nat)
      requires Valid() && j <= b <= outPtr
      modifies outBuf
      ensures Valid() && from <= outPtr
      ensures Text()[from..] ==
              (if HasComment(old(Text())[..j]) then ['%'] else []) + old(Text())[b..]
    {
      hide HasComment;
      from := b;
      var found := FindComment(j);
      if found {
        NoneInNothing();
        ghost var was := Text();
        outBuf[b] := '%';
        assert Text() == was[b - 1 := '%'];
        from := b - 1;
      }
    }

    /** strncpy(out_buf+1,b+1,out_ptr-b). */
    method CopyDown(b: nat)
      requires Valid() && b <= outPtr
      modifies outBuf
      ensures Valid() && outBuf[1..outPtr - b + 1] == old(Text())[b..]
    {
      ghost var a := outBuf[..];
      var i := 0;
      while i < outPtr - b
        invariant 0 <= i <= outPtr - b && outBuf[0] == '\\'
        invariant forall j :: 1 <= j <= i ==> outBuf[j] == a[b + j]
        invariant forall j :: b + i < j <= outPtr ==> outBuf[j] == a[j]
      {
        outBuf[1 + i] := outBuf[1 + b + i];
        i := i + 1;
      }
      forall k | 0 <= k < outPtr - b
        ensures outBuf[1..outPtr - b + 1][k] == old(Text())[b..][k]
      {
        assert outBuf[1..outPtr - b + 1][k] == outBuf[1 + k];
        assert old(Text())[b + k] == a[1 + b + k];
      }
    }

    /** The search of break_out; `found` is false if the line has to be broken anywhere. */
    method FindBreak() returns (b: nat, percent: bool, found: bool)
      requires Valid() && outPtr > 0
      ensures (b, percent) == Cut(Text()) && b <= outPtr
      ensures found == (Search(Text(), outPtr) > 0)
    {
      ghost var s := Text();
      var k := outPtr;
      while true
        invariant 0 <= k <= outPtr && Search(s, k) == Search(s, |s|)
        decreases k
      {
        if k == 0 {
          return outPtr - 1, true, false;
        }
        assert outBuf[k] == s[k - 1] && (k > 1 ==> outBuf[k - 1] == s[k - 2]);
        if outBuf[k] == ' ' {
          return k, false, true;
        }
        k := k - 1;
        if outBuf[k + 1] == '\\' && outBuf[k] != '\\' {
          return k, true, true;
        }
      }
    }

    /** break_out. */
    method BreakOut()
      requires Valid() && outPtr > 0
      modifies this, outBuf
      ensures Valid() && lines == old(lines) + [Broken(old(Text()))]
      ensures Text() == Carried(old(Text()))
      ensures old(outPtr) > 1 ==> (outPtr < old(outPtr) <==> !Stuck(old(Text())))
    {
      hide TrimBlanks, Search, HasComment;
      if outPtr > 1 {
        BreakFrees(Text());
      }
      var b, percent, found := FindBreak();
      if !found {
        lineBroken := true;
      }
      FlushBuffer(b, percent);
    }

    method Store(c: char)
      requires Valid() && outPtr < LINE_LENGTH
      modifies this`outPtr, outBuf
      ensures Valid() && Text() == old(Text()) + [c]
    {
      outPtr := outPtr + 1;
      outBuf[outPtr] := c;
    }

    /** The macro `out`. */
    method PutOut(c: char)
      requires Valid() && (outPtr >= LINE_LENGTH ==> !Stuck(Text()))
      modifies this, outBuf
      ensures Valid() && Now() == Out(old(Now()), c)
    {
      hide Broken, Cut, TrimBlanks, Carried, Stuck;
      if outPtr >= LINE_LENGTH {
        BreakOut();
      }
      Store(c);
    }

    /** out_str. */
    method OutStr(s: string)
      requires Valid() && Flows(Now(), s)
      modifies this, outBuf
      ensures Valid() && Now() == OutAll(old(Now()), s)
    {
      var i := 0;
      assert s[..0] == [];
      while i < |s|
        invariant 0 <= i <= |s| && Valid() && Now() == OutAll(old(Now()), s[..i])
      {
        assert s[..i + 1][..i] == s[..i];
        PutOut(s[i]);
        i := i + 1;
      }
      assert s[..i] == s;
    }
  }
}
