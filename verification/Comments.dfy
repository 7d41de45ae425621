/**
  Copying a C comment to the token memory: copy_comment and its caller outer_parse, in phase two.
 */
module Comments {
  import opened Sequences

  /**
    A token: a character, the sign that the next character is an eight-bit one, a translation of C
    text, or a control sequence with an opening brace, which app_str appends in one go.
   */
  datatype Token = Ch(c: char) | QuotedChar | Inner(n: nat) | Open(macro: string)

  datatype Complaint = InputEnded | MissingBrace | ExtraBrace | IllegalAt

  // ----- Braces

  /** Reading tokens: how many braces are open, whether a backslash was just read, and more. */
  datatype Scan = Scan(depth: int, escaped: bool, fine: bool)

  function Next(s: Scan, t: Token): Scan {
    if s.escaped then s.(escaped := false)
    else if t == Ch('\\') then s.(escaped := true)
    else if t == Ch('{') || t.Open? then s.(depth := s.depth + 1)
    else if t == Ch('}') then Scan(s.depth - 1, false, s.fine && s.depth > 0)
    else s
  }

  /** Braces behind a backslash do not count; `fine` says that the depth was never negative. */
  function Read(s: Scan, ts: seq<Token>): Scan
    decreases |ts|
  {
    if ts == [] then s else Read(Next(s, ts[0]), ts[1..])
  }

  lemma {:induction false} ReadConcat(s: Scan, a: seq<Token>, b: seq<Token>)
    ensures Read(s, a + b) == Read(Read(s, a), b)
    decreases |a|
  {
    if a == [] {
      assert a + b == b;
    } else {
      assert (a + b)[1..] == a[1..] + b;
      ReadConcat(Next(s, a[0]), a[1..], b);
    }
  }

  function Closing(n: nat): (ts: seq<Token>)
    ensures |ts| == n
  {
    if n == 0 then [] else [Ch('}')] + Closing(n - 1)
  }

  lemma {:induction false} ReadClosing(n: nat)
    ensures Read(Scan(n, false, true), Closing(n)) == Scan(0, false, true)
  {
    if n > 0 {
      assert Closing(n)[1..] == Closing(n - 1);
      ReadClosing(n - 1);
    }
  }

  // ----- copy_comment as a function

  /** Where the input stands; get_line puts a blank behind each line. */
  datatype Place = Place(buffer: string, loc: nat, later: seq<string>)

  predicate PlaceOK(p: Place) {
    p.loc <= |p.buffer| && p.buffer != [] && p.buffer[|p.buffer| - 1] == ' '
  }

  function Peek(buffer: string, i: nat): char {
    if i < |buffer| then buffer[i] else ' '
  }

  datatype Copied = Copied(out: seq<Token>, bal: nat, at: Place, errs: seq<Complaint>)

  function Put(ts: seq<Token>, c: Copied): Copied {
    c.(out := ts + c.out)
  }

  /** The rest of the comment is missing or over: all open braces are closed. */
  function Done(bal: nat, at: Place, errs: seq<Complaint>): Copied {
    Copied(Closing(bal), 0, at, errs)
  }

  function Missing(bal: nat): seq<Complaint> {
    if bal > 1 then [MissingBrace] else []
  }

  predicate High(c: char) {
    c as int > 127
  }

  /** A backslash that is not in front of an @ takes the next character with it. */
  predicate Escapes(buffer: string, i: nat) {
    i < |buffer| && buffer[i] == '\\' && Peek(buffer, i + 1) != '@'
  }

  /** The tokens of the ordinary character at place i. */
  function Piece(buffer: string, i: nat): seq<Token>
    requires i < |buffer|
  {
    var c := buffer[i];
    (if High(c) then [QuotedChar] else []) + [Ch(c)]
    + if Escapes(buffer, i) then [Ch(Peek(buffer, i + 1))] else []
  }

  function Behind(p: Place): (q: Place)
    requires PlaceOK(p) && p.loc < |p.buffer|
    ensures PlaceOK(q) && q.loc > p.loc && q.later == p.later && q.buffer == p.buffer
  {
    p.(loc := p.loc + if Escapes(p.buffer, p.loc) then 2 else 1)
  }

  /** copy_comment: bal braces are open; the result has bal 0 unless a `|` stopped it. */
  function Copy(p: Place, isLong: bool, bal: nat): Copied
    requires PlaceOK(p)
    decreases |p.later|, |p.buffer| - p.loc
  {
    if p.loc == |p.buffer| then
      if !isLong then Done(bal, p, Missing(bal))
      else if p.later == [] then Done(bal, p.(loc := 1), [InputEnded])
      else Copy(Place(p.later[0] + " ", 0, p.later[1..]), isLong, bal)
    else
      var c, q := p.buffer[p.loc], p.(loc := p.loc + 1);
      if c == '|' then Copied([], bal, q, [])
      else if isLong && c == '*' && Peek(p.buffer, q.loc) == '/' then
        Done(bal, p.(loc := p.loc + 2), Missing(bal))
      else if c == '@' then
        if Peek(p.buffer, q.loc) == '@' then Put([Ch('@')], Copy(p.(loc := p.loc + 2), isLong, bal))
        else Put([Ch(' ')], Done(bal, p, [IllegalAt]))
      else if c == '}' && bal <= 1 then
        var more := Copy(Behind(p), isLong, bal);
        more.(errs := [ExtraBrace] + more.errs)
      else
        var b := if c == '{' then bal + 1 else if c == '}' then bal - 1 else bal;
        Put(Piece(p.buffer, p.loc), Copy(Behind(p), isLong, b))
  }

  /** A backslash in front of `@@` is read on its own; everything else goes in one piece. */
  predicate Pending(p: Place, escaped: bool) {
    escaped ==> p.loc < |p.buffer| && p.buffer[p.loc] == '@'
  }

  lemma ReadNone(s: Scan)
    ensures Read(s, []) == s
  {
  }

  lemma ReadPut(s: Scan, ts: seq<Token>, c: Copied)
    ensures Read(s, Put(ts, c).out) == Read(Read(s, ts), c.out)
  {
    ReadConcat(s, ts, c.out);
  }

  lemma ReadShort(s: Scan, a: Token, b: Token)
    ensures Read(s, [a]) == Next(s, a)
    ensures Read(s, [a, b]) == Next(Next(s, a), b)
  {
    assert [a][1..] == [] && [b][1..] == [] && [a, b] == [a] + [b];
    ReadConcat(s, [a], [b]);
  }

  /** copy_comment knows how many braces are open, and closes them all when the comment is over. */
  lemma {:induction false} CopyBalanced(p: Place, isLong: bool, bal: nat, escaped: bool)
    requires PlaceOK(p) && bal > 0 && Pending(p, escaped)
    ensures var c := Copy(p, isLong, bal);
            Read(Scan(bal, escaped, true), c.out) == Scan(c.bal, false, true) && PlaceOK(c.at)
    decreases |p.later|, |p.buffer| - p.loc
  {
    hide Read;
    var s := Scan(bal, escaped, true);
    ReadClosing(bal);
    if p.loc == |p.buffer| {
      if isLong && p.later != [] {
        CopyBalanced(Place(p.later[0] + " ", 0, p.later[1..]), isLong, bal, false);
      }
    } else {
      var c, q := p.buffer[p.loc], p.(loc := p.loc + 1);
      if c == '|' {
        ReadNone(s);
      } else if c == '@' {
        var r := p.(loc := p.loc + 2);
        if Peek(p.buffer, q.loc) == '@' {
          ReadShort(s, Ch('@'), Ch('@'));
          CopyBalanced(r, isLong, bal, false);
          ReadPut(s, [Ch('@')], Copy(r, isLong, bal));
        } else {
          ReadShort(s, Ch(' '), Ch(' '));
          ReadPut(s, [Ch(' ')], Done(bal, p, [IllegalAt]));
        }
      } else if !(isLong && c == '*' && Peek(p.buffer, q.loc) == '/') {
        CopyOther(p, isLong, bal, c);
      }
    }
  }

  /** The cases in which a character is copied. */
  lemma {:induction false} CopyOther(p: Place, isLong: bool, bal: nat, c: char)
    requires PlaceOK(p) && bal > 0 && p.loc < |p.buffer| && c == p.buffer[p.loc]
    requires c != '|' && c != '@' && !(isLong && c == '*' && Peek(p.buffer, p.loc + 1) == '/')
    ensures var r := Copy(p, isLong, bal);
            Read(Scan(bal, false, true), r.out) == Scan(r.bal, false, true) && PlaceOK(r.at)
    decreases |p.later|, |p.buffer| - p.loc, 0
  {
    hide Read;
    var s, q := Scan(bal, false, true), Behind(p);
    var ts := Piece(p.buffer, p.loc);
    ReadPiece(s, p.buffer, p.loc);
    if c == '}' && bal == 1 {
      CopyBalanced(q, isLong, bal, false);
    } else {
      var b := if c == '{' then bal + 1 else if c == '}' then bal - 1 else bal;
      CopyBalanced(q, isLong, b, c == '\\' && !Escapes(p.buffer, p.loc));
      ReadPut(s, ts, Copy(q, isLong, b));
    }
  }

  lemma ReadPiece(s: Scan, buffer: string, i: nat)
    requires i < |buffer| && !s.escaped
    ensures Read(s, Piece(buffer, i)) ==
            if Escapes(buffer, i) then s else Next(s, Ch(buffer[i]))
  {
    var c := buffer[i];
    var high := if High(c) then [QuotedChar] else [];
    var more := if Escapes(buffer, i) then [Ch(Peek(buffer, i + 1))] else [];
    ReadConcat(s, high + [Ch(c)], more);
    ReadConcat(s, high, [Ch(c)]);
    ReadShort(s, Ch(c), Ch(c));
    ReadShort(s, QuotedChar, Ch(c));
    ReadShort(Next(s, Ch(c)), Ch(Peek(buffer, i + 1)), Ch(c));
  }

  // ----- The text of a comment

  /** The text from place p up to place q, over the lines in between. */
  function Between(p: Place, q: Place): string
    requires PlaceOK(p)
    decreases |p.later|
  {
    if |p.later| == |q.later| then
      if p.loc <= q.loc <= |p.buffer| then p.buffer[p.loc..q.loc] else ""
    else if p.later == [] then ""
    else p.buffer[p.loc..] + Between(Place(p.later[0] + " ", 0, p.later[1..]), q)
  }

  /** The characters that tokens stand for in the input, where an `@` is written twice. */
  function Written(ts: seq<Token>): string {
    if ts == [] then ""
    else
      (match ts[0]
       case Ch(c) => if c == '@' then "@@" else [c]
       case _ => "") + Written(ts[1..])
  }

  lemma {:induction false} WrittenConcat(a: seq<Token>, b: seq<Token>)
    ensures Written(a + b) == Written(a) + Written(b)
  {
    if a == [] {
      assert a + b == b;
    } else {
      assert (a + b)[0] == a[0] && (a + b)[1..] == a[1..] + b;
      WrittenConcat(a[1..], b);
    }
  }

  lemma WrittenPiece(p: Place)
    requires PlaceOK(p) && p.loc < |p.buffer| && p.buffer[p.loc] != '@'
    ensures Written(Piece(p.buffer, p.loc)) == p.buffer[p.loc..Behind(p).loc]
  {
    var c := p.buffer[p.loc];
    var high := if High(c) then [QuotedChar] else [];
    var more := if Escapes(p.buffer, p.loc) then [Ch(Peek(p.buffer, p.loc + 1))] else [];
    WrittenConcat(high + [Ch(c)], more);
    WrittenConcat(high, [Ch(c)]);
    assert [QuotedChar][1..] == [] && [Ch(c)][1..] == [];
    assert more != [] ==> more[1..] == [];
  }

  lemma BetweenLines(p: Place, r: Place)
    requires PlaceOK(p) && |r.later| < |p.later|
    ensures Between(p, r) == p.buffer[p.loc..] + Between(Place(p.later[0] + " ", 0, p.later[1..]), r)
  {
  }

  lemma BetweenHere(p: Place, r: Place)
    requires PlaceOK(p) && |r.later| == |p.later| && p.loc <= r.loc <= |p.buffer|
    ensures Between(p, r) == p.buffer[p.loc..r.loc]
  {
  }

  lemma Parts(s: string, i: nat, j: nat, k: nat)
    requires i <= j <= k <= |s|
    ensures s[i..k] == s[i..j] + s[j..k]
  {
  }

  lemma LineParts(s: string, i: nat, j: nat)
    requires i <= j <= |s|
    ensures s[i..] == s[i..j] + s[j..]
  {
  }

  /** The text from p is a piece on its line and then the text from there. */
  lemma BetweenOn(p: Place, q: Place, r: Place)
    requires PlaceOK(p) && p.loc <= q.loc <= |p.buffer| && q == p.(loc := q.loc)
    requires |r.later| == |p.later| ==> q.loc <= r.loc <= |p.buffer|
    requires |r.later| <= |p.later|
    ensures Between(p, r) == p.buffer[p.loc..q.loc] + Between(q, r)
  {
    hide Between;
    if |p.later| == |r.later| {
      BetweenHere(p, r);
      BetweenHere(q, r);
      Parts(p.buffer, p.loc, q.loc, r.loc);
    } else {
      BetweenLines(p, r);
      BetweenLines(q, r);
      LineParts(p.buffer, p.loc, q.loc);
      Assoc(p.buffer[p.loc..q.loc], p.buffer[q.loc..],
            Between(Place(p.later[0] + " ", 0, p.later[1..]), r));
    }
  }

  /** The comment has stopped behind this place. */
  predicate Further(p: Place, r: Place) {
    |r.later| <= |p.later| && (|r.later| == |p.later| ==> p.loc <= r.loc <= |p.buffer|)
  }

  /** What ends the piece that copy_comment copies. */
  function Delimiter(isLong: bool, bal: nat): string {
    if bal > 0 then "|" else if isLong then "*/" else ""
  }

  function Ending(bal: nat): seq<Token> {
    if bal > 0 then [] else [Ch('}')]
  }

  /**
    Unless something is complained about, the tokens stand for exactly what the comment says up to
    its end or the next `|`, with the one brace that closes it behind them.
   */
  lemma {:induction false} TextKept(p: Place, isLong: bool, bal: nat) returns (ts: seq<Token>)
    requires PlaceOK(p) && bal > 0 && Copy(p, isLong, bal).errs == []
    ensures var c := Copy(p, isLong, bal);
            && c.out == ts + Ending(c.bal) && Further(p, c.at)
            && Between(p, c.at) == Written(ts) + Delimiter(isLong, c.bal)
    decreases |p.later|, |p.buffer| - p.loc
  {
    hide Written, Between;
    ts := [];
    NothingWritten(p);
    if p.loc == |p.buffer| {
      if isLong {
        var q := Place(p.later[0] + " ", 0, p.later[1..]);
        ts := TextKept(q, isLong, bal);
        NextLine(p, Copy(q, isLong, bal).at);
      } else {
        assert Closing(1) == [Ch('}')];
      }
    } else {
      var c, q := p.buffer[p.loc], p.(loc := p.loc + 1);
      if c == '|' {
        OnLine(p, q);
      } else if isLong && c == '*' && Peek(p.buffer, q.loc) == '/' {
        OnLine(p, p.(loc := p.loc + 2));
        assert p.buffer[p.loc..p.loc + 2] == "*/" && Closing(1) == [Ch('}')];
      } else if c == '@' {
        var r := p.(loc := p.loc + 2);
        var rest := TextKept(r, isLong, bal);
        ts := [Ch('@')] + rest;
        Assoc([Ch('@')], rest, Ending(Copy(r, isLong, bal).bal));
        assert p.buffer[p.loc..p.loc + 2] == "@@";
        JoinWritten(p, r, Copy(r, isLong, bal).at, [Ch('@')], rest,
                    Delimiter(isLong, Copy(r, isLong, bal).bal));
      } else {
        var b := if c == '{' then bal + 1 else if c == '}' then bal - 1 else bal;
        var r := Behind(p);
        var rest := TextKept(r, isLong, b);
        ts := Piece(p.buffer, p.loc) + rest;
        Assoc(Piece(p.buffer, p.loc), rest, Ending(Copy(r, isLong, b).bal));
        WrittenPiece(p);
        hide Piece;
        JoinWritten(p, r, Copy(r, isLong, b).at, Piece(p.buffer, p.loc), rest,
                    Delimiter(isLong, Copy(r, isLong, b).bal));
      }
    }
  }

  lemma NothingWritten(p: Place)
    requires PlaceOK(p)
    ensures Written([]) == "" && Between(p, p) == "" && Written([Ch('@')]) == "@@"
  {
    assert [Ch('@')][1..] == [];
  }

  lemma OnLine(p: Place, q: Place)
    requires PlaceOK(p) && p.loc <= q.loc <= |p.buffer| && q == p.(loc := q.loc)
    ensures Between(p, q) == p.buffer[p.loc..q.loc]
  {
  }

  lemma NextLine(p: Place, r: Place)
    requires PlaceOK(p) && p.loc == |p.buffer| && p.later != [] && |r.later| < |p.later|
    ensures Between(p, r) == Between(Place(p.later[0] + " ", 0, p.later[1..]), r)
  {
  }

  lemma JoinWritten(p: Place, q: Place, r: Place, a: seq<Token>, b: seq<Token>, last: string)
    requires PlaceOK(p) && p.loc <= q.loc <= |p.buffer| && q == p.(loc := q.loc) && Further(q, r)
    requires Written(a) == p.buffer[p.loc..q.loc] && Between(q, r) == Written(b) + last
    ensures Between(p, r) == Written(a + b) + last && Further(p, r)
  {
    hide Written, Between;
    BetweenOn(p, q, r);
    WrittenConcat(a, b);
    Assoc(Written(a), Written(b), last);
  }

  // ----- outer_parse

  /** What C_translate makes of an embedded piece: its text, where it stops, whether at a `|`. */
  datatype Embedded = Embedded(text: nat, at: Place, closed: bool)

  /** The tokens behind the opening of a comment. */
  function CommentBody(p: Place, isLong: bool, bal: nat, es: seq<Embedded>): seq<Token>
    requires PlaceOK(p) && forall e :: e in es ==> PlaceOK(e.at)
    decreases |es|, 1
  {
    var c := Copy(p, isLong, bal);
    c.out + AfterCopy(isLong, c.bal, es)
  }

  /** The same from where copy_comment has stopped with bal open braces. */
  function AfterCopy(isLong: bool, bal: nat, es: seq<Embedded>): seq<Token>
    requires forall e :: e in es ==> PlaceOK(e.at)
    decreases |es|, 0
  {
    if bal == 0 || es == [] then []
    else
      assert es[0] in es;
      [Open("\\PB{"), Inner(es[0].text), Ch('}')]
      + if es[0].closed then CommentBody(es[0].at, isLong, bal, es[1..]) else []
  }

  lemma BodyParts(p: Place, isLong: bool, bal: nat, es: seq<Embedded>)
    requires PlaceOK(p) && forall e :: e in es ==> PlaceOK(e.at)
    ensures var c := Copy(p, isLong, bal);
            CommentBody(p, isLong, bal, es) == c.out + AfterCopy(isLong, c.bal, es)
  {
    hide Copy;
  }

  /** The braces that stay open: those before the first embedded piece that is not closed. */
  function LeftOpen(p: Place, isLong: bool, bal: nat, es: seq<Embedded>): nat
    requires PlaceOK(p) && forall e :: e in es ==> PlaceOK(e.at)
    decreases |es|
  {
    var c := Copy(p, isLong, bal);
    if c.bal == 0 || es == [] then c.bal
    else if es[0].closed then
      assert es[0] in es;
      LeftOpen(es[0].at, isLong, c.bal, es[1..])
    else c.bal
  }

  lemma ReadEmbedded(bal: nat, n: nat)
    ensures Read(Scan(bal, false, true), [Open("\\PB{"), Inner(n), Ch('}')]) == Scan(bal, false, true)
  {
    var s, open := Scan(bal, false, true), Open("\\PB{");
    ReadShort(s, open, Inner(n));
    ReadConcat(s, [open, Inner(n)], [Ch('}')]);
    assert [open, Inner(n)] + [Ch('}')] == [open, Inner(n), Ch('}')];
    ReadShort(Scan(bal + 1, false, true), Ch('}'), Ch('}'));
  }

  lemma {:induction false} BodyBalanced(p: Place, isLong: bool, bal: nat, es: seq<Embedded>)
    requires PlaceOK(p) && bal > 0 && forall e :: e in es ==> PlaceOK(e.at)
    ensures Read(Scan(bal, false, true), CommentBody(p, isLong, bal, es)) ==
            Scan(LeftOpen(p, isLong, bal, es), false, true)
    decreases |es|
  {
    hide Read;
    CopyBalanced(p, isLong, bal, false);
    var c := Copy(p, isLong, bal);
    assert c.bal == 0 || es == [] ==> c.out + [] == c.out;
    if c.bal != 0 && es != [] {
      var s := Scan(bal, false, true);
      var e, mid := es[0], [Open("\\PB{"), Inner(es[0].text), Ch('}')];
      assert e in es;
      ReadEmbedded(c.bal, e.text);
      var rest := if e.closed then CommentBody(e.at, isLong, c.bal, es[1..]) else [];
      ReadConcat(s, c.out, mid + rest);
      ReadConcat(Scan(c.bal, false, true), mid, rest);
      if e.closed {
        assert forall x :: x in es[1..] ==> x in es;
        BodyBalanced(e.at, isLong, c.bal, es[1..]);
      } else {
        ReadNone(Scan(c.bal, false, true));
      }
    }
  }

  /** Every embedded piece that is reached is closed, and the input does not end within one. */
  predicate AllClosed(p: Place, isLong: bool, bal: nat, es: seq<Embedded>)
    requires PlaceOK(p) && forall e :: e in es ==> PlaceOK(e.at)
    decreases |es|
  {
    var c := Copy(p, isLong, bal);
    c.bal == 0 ||
    (es != [] && es[0].closed &&
     assert es[0] in es; AllClosed(es[0].at, isLong, c.bal, es[1..]))
  }

  lemma {:induction false} LeftOpenExactly(p: Place, isLong: bool, bal: nat, es: seq<Embedded>)
    requires PlaceOK(p) && forall e :: e in es ==> PlaceOK(e.at)
    ensures LeftOpen(p, isLong, bal, es) == 0 <==> AllClosed(p, isLong, bal, es)
    decreases |es|
  {
    if es != [] && es[0].closed {
      assert es[0] in es;
      LeftOpenExactly(es[0].at, isLong, Copy(p, isLong, bal).bal, es[1..]);
    }
  }

  /** The whole comment. */
  function Comment(p: Place, isLong: bool, es: seq<Embedded>): seq<Token>
    requires PlaceOK(p) && forall e :: e in es ==> PlaceOK(e.at)
  {
    [Open(if isLong then "\\C{" else "\\SHC{")] + CommentBody(p, isLong, 1, es)
  }

  /**
    No prefix of the tokens of a comment closes more braces than it opens, and the braces balance if
    and only if every embedded piece of C text that is reached is closed.
   */
  lemma CommentBalanced(p: Place, isLong: bool, es: seq<Embedded>)
    requires PlaceOK(p) && forall e :: e in es ==> PlaceOK(e.at)
    ensures var r := Read(Scan(0, false, true), Comment(p, isLong, es));
            r.fine && !r.escaped && (r.depth == 0 <==> AllClosed(p, isLong, 1, es))
  {
    BodyBalanced(p, isLong, 1, es);
    LeftOpenExactly(p, isLong, 1, es);
    var open := Open(if isLong then "\\C{" else "\\SHC{");
    assert Comment(p, isLong, es)[1..] == CommentBody(p, isLong, 1, es);
  }

  // ----- The same with the source's variables

  class Commenter {
    var buffer: string
    var loc: nat
    var later: seq<string>
    var tokens: seq<Token>
    var errs: seq<Complaint>

    constructor (at: Place)
      ensures Now() == at && tokens == [] && errs == []
    {
      buffer, loc, later := at.buffer, at.loc, at.later;
      tokens, errs := [], [];
    }

    function Now(): Place
      reads this
    {
      Place(buffer, loc, later)
    }

    /** What was done so far and what copying from here on will do. */
    ghost function Total(isLong: bool, bal: nat): Copied
      requires PlaceOK(Now())
      reads this
    {
      var c := Copy(Now(), isLong, bal);
      Copied(tokens + c.out, c.bal, c.at, errs + c.errs)
    }

    method AppTok(t: Token)
      modifies `tokens
      ensures tokens == old(tokens) + [t]
    {
      tokens := tokens + [t];
    }

    method ErrPrint(e: Complaint)
      modifies `errs
      ensures errs == old(errs) + [e]
    {
      errs := errs + [e];
    }

    /** get_line. */
    method GetLine() returns (more: bool)
      modifies this
      ensures more == (old(later) != [])
      ensures if more then Now() == Place(old(later)[0] + " ", 0, old(later)[1..])
              else Now() == old(Now())
      ensures tokens == old(tokens) && errs == old(errs)
    {
      more := later != [];
      if more {
        buffer, loc, later := later[0] + " ", 0, later[1..];
      }
    }

    /** The end of copy_comment, behind its label `done`. */
    method CloseAll(bal: nat)
      modifies `tokens
      ensures tokens == old(tokens) + Closing(bal)
    {
      var k := bal;
      while k > 0
        invariant 0 <= k <= bal
        invariant tokens + Closing(k) == old(tokens) + Closing(bal)
      {
        k := k - 1;
        assert tokens + ([Ch('}')] + Closing(k)) == tokens + [Ch('}')] + Closing(k);
        AppTok(Ch('}'));
      }
    }

    /** One character of copy_comment; `stop` says that the loop ends with bal' as the result. */
    method CopyChar(isLong: bool, bal: nat) returns (stop: bool, bal': nat)
      requires PlaceOK(Now()) && loc < |buffer|
      modifies this
      ensures PlaceOK(Now())
      ensures if stop then Copied(tokens, bal', Now(), errs) == old(Total(isLong, bal))
              else Total(isLong, bal') == old(Total(isLong, bal))
      ensures !stop ==> later == old(later) && buffer == old(buffer) && loc > old(loc)
    {
      ghost var ts, es := tokens, errs;
      stop, bal' := false, bal;
      var c := buffer[loc];
      loc := loc + 1;
      if c == '|' {
        assert ts + [] == ts && es + [] == es;
        return true, bal;
      }
      if isLong && c == '*' && Peek(buffer, loc) == '/' {
        loc := loc + 1;
        if bal > 1 {
          ErrPrint(MissingBrace);
        }
        assert errs == es + Missing(bal);
        CloseAll(bal);
        return true, 0;
      }
      if c == '@' {
        AppTok(Ch(c));
        stop := LookAtAt(bal);
        if stop {
          Assoc(ts, [Ch(' ')], Closing(bal));
          return true, 0;
        }
        hide Copy;
        Assoc(ts, [Ch(c)], Copy(Now(), isLong, bal).out);
      } else {
        hide Copy;
        bal' := CopyOrdinary(c, isLong, bal);
      }
    }

    /** The tokens of an ordinary character c that was read just now. */
    method AppPiece(c: char)
      requires PlaceOK(Now()) && loc > 0 && buffer[loc - 1] == c && c != '@'
      modifies `loc, `tokens
      ensures PlaceOK(Now())
      ensures tokens == old(tokens) + Piece(buffer, old(loc) - 1) && |Piece(buffer, old(loc) - 1)| > 0
      ensures Now() == Behind(old(Now()).(loc := old(loc) - 1))
    {
      if High(c) {
        AppTok(QuotedChar);
      }
      AppTok(Ch(c));
      if c == '\\' && Peek(buffer, loc) != '@' {
        AppTok(Ch(buffer[loc]));
        loc := loc + 1;
      }
    }

    /** The other characters; c was read just now. */
    method CopyOrdinary(c: char, isLong: bool, bal: nat) returns (bal': nat)
      requires PlaceOK(Now()) && loc > 0 && buffer[loc - 1] == c && c != '|' && c != '@'
      requires !(isLong && c == '*' && Peek(buffer, loc) == '/')
      modifies this
      ensures PlaceOK(Now()) && later == old(later) && buffer == old(buffer) && loc >= old(loc)
      ensures var c := old(Copy(Now().(loc := loc - 1), isLong, bal));
              Total(isLong, bal') == Copied(old(tokens) + c.out, c.bal, c.at, old(errs) + c.errs)
    {
      ghost var ts, es, p := tokens, errs, Now().(loc := loc - 1);
      ghost var b := if c == '{' then bal + 1 else if c == '}' && bal > 1 then bal - 1 else bal;
      ghost var more := Copy(Behind(p), isLong, b);
      assert Copy(p, isLong, bal) ==
             if c == '}' && bal <= 1 then more.(errs := [ExtraBrace] + more.errs)
             else Put(Piece(p.buffer, p.loc), more);
      hide Copy;
      AppPiece(c);
      assert c == '}' ==> tokens == ts + [Ch('}')];
      hide Piece;
      bal' := bal;
      if c == '{' {
        bal' := bal + 1;
      } else if c == '}' {
        if bal > 1 {
          bal' := bal - 1;
        } else {
          ErrPrint(ExtraBrace);
          tokens := tokens[..|tokens| - 1];
          assert tokens == ts;
          Assoc(es, [ExtraBrace], Copy(Now(), isLong, bal').errs);
          return;
        }
      }
      Assoc(ts, Piece(p.buffer, p.loc), Copy(Now(), isLong, bal').out);
    }

    /** Behind an @: true if there is no second one, which ends the comment. */
    method LookAtAt(bal: nat) returns (stop: bool)
      requires 0 < loc <= |buffer| && tokens != []
      modifies this
      ensures buffer == old(buffer) && later == old(later)
      ensures stop == (Peek(buffer, old(loc)) != '@')
      ensures loc == if stop then old(loc) - 1 else old(loc) + 1
      ensures errs == old(errs) + if stop then [IllegalAt] else []
      ensures tokens == if stop then old(tokens)[..|old(tokens)| - 1] + [Ch(' ')] + Closing(bal)
                        else old(tokens)
    {
      loc := loc + 1;
      stop := Peek(buffer, loc - 1) != '@';
      if stop {
        ErrPrint(IllegalAt);
        loc := loc - 2;
        tokens := tokens[..|tokens| - 1] + [Ch(' ')];
        CloseAll(bal);
      }
    }

    /** copy_comment. */
    method CopyComment(isLong: bool, bal: nat) returns (left: nat)
      requires PlaceOK(Now())
      modifies this
      ensures Copied(tokens, left, Now(), errs) == old(Total(isLong, bal)) && PlaceOK(Now())
    {
      hide Copy;
      left := bal;
      var stop := false;
      while !stop
        invariant PlaceOK(Now())
        invariant if stop then Copied(tokens, left, Now(), errs) == old(Total(isLong, bal))
                  else Total(isLong, left) == old(Total(isLong, bal))
        decreases !stop, |later|, |buffer| - loc
      {
        if loc == |buffer| {
          stop := NextLine(isLong, left);
          left := if stop then 0 else left;
        } else {
          stop, left := CopyChar(isLong, left);
        }
      }
    }

    /** copy_comment at the end of a line: true if the comment ends there. */
    method NextLine(isLong: bool, bal: nat) returns (stop: bool)
      requires PlaceOK(Now()) && loc == |buffer|
      modifies this
      ensures PlaceOK(Now())
      ensures if stop then Copied(tokens, 0, Now(), errs) == old(Total(isLong, bal))
              else Total(isLong, bal) == old(Total(isLong, bal)) && |later| < |old(later)|
    {
      ghost var es := errs;
      assert es + [] == es;
      var more := false;
      if isLong {
        more := GetLine();
        if !more {
          ErrPrint(InputEnded);
          loc := 1;
        }
      } else if bal > 1 {
        ErrPrint(MissingBrace);
      }
      stop := !more;
      if stop {
        CloseAll(bal);
      }
    }

    /** One embedded piece, and what follows it in the comment. */
    method CopyEmbedded(isLong: bool, bal: nat, e: Embedded, ghost rest: seq<Embedded>)
      returns (left: nat)
      requires bal > 0 && PlaceOK(e.at) && forall x :: x in rest ==> PlaceOK(x.at)
      modifies this
      ensures PlaceOK(Now())
      ensures tokens + AfterCopy(isLong, left, rest) ==
              old(tokens) + ([Open("\\PB{"), Inner(e.text), Ch('}')]
                             + if e.closed then CommentBody(e.at, isLong, bal, rest) else [])
    {
      hide Copy;
      ghost var before, mid := tokens, [Open("\\PB{"), Inner(e.text), Ch('}')];
      AppTok(Open("\\PB{"));
      AppTok(Inner(e.text));
      AppTok(Ch('}'));
      assert tokens == before + mid;
      buffer, loc, later := e.at.buffer, e.at.loc, e.at.later;
      if e.closed {
        ghost var d := Copy(Now(), isLong, bal);
        Assoc(before, mid, d.out + AfterCopy(isLong, d.bal, rest));
        Assoc(tokens, d.out, AfterCopy(isLong, d.bal, rest));
        left := CopyComment(isLong, bal);
      } else {
        left := 0;
        assert mid + [] == mid && tokens + [] == tokens;
      }
    }

    /** The part of outer_parse for one comment; es is what C_translate makes of embedded pieces. */
    method ParseComment(isLong: bool, es: seq<Embedded>)
      requires PlaceOK(Now()) && forall e :: e in es ==> PlaceOK(e.at)
      modifies this
      ensures tokens == old(tokens) + Comment(old(Now()), isLong, es)
    {
      hide Copy, CommentBody;
      ghost var ts := tokens;
      ghost var open, body := Open(if isLong then "\\C{" else "\\SHC{"), CommentBody(Now(), isLong, 1, es);
      AppTok(Open(if isLong then "\\C{" else "\\SHC{"));
      Assoc(ts, [open], body);
      ghost var c := Copy(Now(), isLong, 1);
      BodyParts(Now(), isLong, 1, es);
      Assoc(tokens, c.out, AfterCopy(isLong, c.bal, es));
      var bal := CopyComment(isLong, 1);
      var k := 0;
      assert es[0..] == es;
      while bal > 0 && k < |es|
        invariant PlaceOK(Now()) && 0 <= k <= |es|
        invariant forall e :: e in es[k..] ==> PlaceOK(e.at)
        invariant tokens + AfterCopy(isLong, bal, es[k..]) == ts + ([open] + body)
        decreases |es| - k
      {
        assert es[k..][0] == es[k] && es[k] in es && es[k..][1..] == es[k + 1..];
        bal := CopyEmbedded(isLong, bal, es[k], es[k + 1..]);
        k := k + 1;
      }
      assert tokens + [] == tokens;
    }
  }
}
