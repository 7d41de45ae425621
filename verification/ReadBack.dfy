/**
  Reading CTANGLE's output again: get_next, which makes one code of each operator of several
  characters, against out_char, which writes the operators out. Strings, control codes and lines of
  the preprocessor are not read here.
 */
module ReadBack {
  import opened ByteCodes
  import opened OutChar
  import opened Sequences

  // ----- The scanner

  predicate Digit(b: Byte) {
    48 <= b <= 57
  }

  predicate HexDigit(b: Byte) {
    Digit(b) || 65 <= b <= 70 || 97 <= b <= 102
  }

  predicate Letter(b: Byte) {
    65 <= b <= 90 || 97 <= b <= 122 || b == 95 || b >= 128
  }

  predicate Suffix(b: Byte) {
    b == 117 || b == 85 || b == 108 || b == 76 || b == 102 || b == 70
  }

  predicate InIdent(b: Byte) {
    Letter(b) || Digit(b)
  }

  /** How many bytes at the front are of this kind. */
  function Run(s: seq<Byte>, kind: Byte -> bool): (n: nat)
    ensures n <= |s| && (forall i :: 0 <= i < n ==> kind(s[i])) && (n < |s| ==> !kind(s[n]))
  {
    if s == [] || !kind(s[0]) then 0 else 1 + Run(s[1..], kind)
  }

  /** The byte at place i; a line has a blank behind its end. */
  function At(s: seq<Byte>, i: nat): Byte {
    if i < |s| then s[i] else SPACE
  }

  function FractionEnd(s: seq<Byte>, n: nat): (m: nat)
    requires n <= |s|
    ensures n <= m <= |s| && (m > n <==> At(s, n) == 46)
  {
    if At(s, n) == 46 then n + 1 + Run(s[n + 1..], Digit) else n
  }

  function ExponentEnd(s: seq<Byte>, n: nat): (m: nat)
    requires n <= |s|
    ensures n <= m <= |s| && (m > n <==> At(s, n) == 101 || At(s, n) == 69)
  {
    if At(s, n) == 101 || At(s, n) == 69 then
      var k := if At(s, n + 1) == 43 || At(s, n + 1) == 45 then n + 2 else n + 1;
      k + Run(s[k..], Digit)
    else n
  }

  /** A constant: after a backslash octal, after 0x hexadecimal, otherwise decimal. */
  function ConstantEnd(s: seq<Byte>): (n: nat)
    requires s != []
    ensures 0 < n <= |s|
  {
    var n :=
      if s[0] == BACKSLASH then 1 + Run(s[1..], Digit)
      else if s[0] == 48 && (At(s, 1) == 120 || At(s, 1) == 88) then 2 + Run(s[2..], HexDigit)
      else
        var whole := 1 + Run(s[1..], Digit);
        ExponentEnd(s, FractionEnd(s, whole));
    n + Run(s[n..], Suffix)
  }

  /** Where a comment ends that has begun: behind the next star and slash, if there are any. */
  function LongEnd(s: seq<Byte>): (n: nat)
    ensures n <= |s|
  {
    if s == [] then 0
    else if s[0] == STAR && At(s, 1) == SLASH then 2
    else 1 + LongEnd(s[1..])
  }

  predicate OnLine(b: Byte) {
    b != NEWLINE
  }

  /** The longest operator at the front and its code. */
  function Symbol(s: seq<Byte>): (r: (Byte, nat))
    requires s != []
    ensures 0 < r.1 <= |s|
  {
    var c, d, e := s[0], At(s, 1), At(s, 2);
    if c == 43 && d == 43 then (11, 2)
    else if c == 45 && d == 45 then (1, 2)
    else if c == 45 && d == 62 && e == 42 then (23, 3)
    else if c == 45 && d == 62 then (25, 2)
    else if c == 46 && d == 42 then (22, 2)
    else if c == 46 && d == 46 && e == 46 then (14, 3)
    else if c == 58 && d == 58 then (6, 2)
    else if c == 61 && d == 61 then (30, 2)
    else if c == 62 && d == 61 then (29, 2)
    else if c == 62 && d == 62 then (17, 2)
    else if c == 60 && d == 61 then (28, 2)
    else if c == 60 && d == 60 then (16, 2)
    else if c == 38 && d == 38 then (4, 2)
    else if c == 124 && d == 124 then (31, 2)
    else if c == 33 && d == 61 then (26, 2)
    else (c, 1)
  }

  /** The next token, with its length; a comment counts as a mark. */
  function Lex(s: seq<Byte>): (r: (Token, nat))
    requires s != []
    ensures 0 < r.1 <= |s|
  {
    var c, d := s[0], At(s, 1);
    if c == SLASH && d == STAR then
      var n := 2 + LongEnd(s[2..]);
      (Mark(s[..n]), n)
    else if c == SLASH && d == SLASH then
      var n := 2 + Run(s[2..], OnLine);
      (Mark(s[..n]), n)
    else if Digit(c) || c == BACKSLASH || (c == 46 && Digit(d)) then
      (Constant(s[..ConstantEnd(s)]), ConstantEnd(s))
    else if Letter(c) then
      var n := 1 + Run(s[1..], InIdent);
      (Ident(s[..n]), n)
    else (Plain(Symbol(s).0), Symbol(s).1)
  }

  /** All tokens; blanks between them are skipped. */
  function Lexed(s: seq<Byte>): seq<Token>
    decreases |s|
  {
    if s == [] then []
    else if s[0] == SPACE then Lexed(s[1..])
    else [Lex(s).0] + Lexed(s[Lex(s).1..])
  }

  // ----- The tokens that are read again

  /** The codes of operators with more than one character. */
  predicate Compressed(c: Byte) {
    c == 1 || c == 4 || c == 6 || c == 11 || c == 14 || c == 16 || c == 17 || c == 22 || c == 23 ||
    c == 25 || c == 26 || c == 28 || c == 29 || c == 30 || c == 31
  }

  /** A character that stands for itself, apart from quotes, `#`, `@` and the backslash. */
  predicate Punctuation(c: Byte) {
    33 <= c < 127 && !InIdent(c) && c != 34 && c != 35 && c != 39 && c != 64 && c != BACKSLASH
  }

  /** Identifiers, decimal numbers, operators, punctuation, and newlines outside macros. */
  predicate Readable(t: Token, protect: bool) {
    match t
    case Ident(bytes) =>
      bytes != [] && Letter(bytes[0]) && forall b :: b in bytes ==> InIdent(b) && b < 128
    case Constant(body) => body != [] && forall b :: b in body ==> Digit(b)
    case Plain(c) => Compressed(c) || Punctuation(c) || (c == NEWLINE && !protect)
    case _ => false
  }

  /** Each operator is written so that it is read as the code it was. */
  lemma OperatorsReadBack(c: Byte)
    ensures Operator(c) != [] <==> Compressed(c)
    ensures Compressed(c) ==> Lex(Operator(c)) == (Plain(c), |Operator(c)|)
  {
  }

  /** With these two bytes behind it the token is taken for the start of something longer. */
  predicate Extends(t: Token, d: Byte, e: Byte) {
    match t
    case Constant(_) => d == 46
    case Plain(c) =>
      || (c == 43 && d == 43)
      || (c == 45 && (d == 45 || d == 62))
      || (c == 25 && d == 42)
      || (c == 46 && (d == 42 || Digit(d) || (d == 46 && e == 46)))
      || (c == 58 && d == 58)
      || (c == 60 && (d == 60 || d == 61))
      || (c == 62 && (d == 62 || d == 61))
      || (c == 38 && d == 38)
      || (c == 124 && d == 124)
      || (c == 33 && d == 61)
      || (c == SLASH && (d == SLASH || d == STAR))
    case _ => false
  }

  /** The output for the tokens behind `latest`. */
  function Tail(table: Translit, protect: bool, latest: seq<Token>, ts: seq<Token>): seq<Byte>
    requires |table| == 128
    decreases |ts|
  {
    if ts == [] then []
    else
      Spaced(NeedsSpace(latest, ts[0])) + TextOf(table, protect, ts[0])
      + Tail(table, protect, [ts[0]], ts[1..])
  }

  /** What is put out for the two tokens behind token i. */
  function Near(table: Translit, protect: bool, ts: seq<Token>, i: nat): seq<Byte>
    requires |table| == 128 && i < |ts|
  {
    Tail(table, protect, [ts[i]], if i + 3 <= |ts| then ts[i + 1..i + 3] else ts[i + 1..])
  }

  /** No token is extended by those behind it. */
  ghost predicate Apart(table: Translit, protect: bool, ts: seq<Token>)
    requires |table| == 128
  {
    forall i :: 0 <= i < |ts| ==>
      var next := Near(table, protect, ts, i); !Extends(ts[i], At(next, 0), At(next, 1))
  }

  lemma {:induction false} TransliterateAscii(table: Translit, bytes: seq<Byte>)
    requires |table| == 128 && forall b :: b in bytes ==> b < 128
    ensures Transliterate(table, bytes) == bytes
  {
    if bytes != [] {
      assert forall b :: b in bytes[1..] ==> b in bytes;
      assert bytes[0] in bytes;
      TransliterateAscii(table, bytes[1..]);
    }
  }

  lemma {:induction false} DigitsText(protect: bool, body: seq<Byte>)
    requires forall b :: b in body ==> Digit(b)
    ensures BodyText(protect, body) == body
  {
    if body != [] {
      assert forall b :: b in body[1..] ==> b in body;
      assert body[0] in body;
      DigitsText(protect, body[1..]);
    }
  }

  /** What the texts of readable tokens look like. */
  lemma ReadableText(table: Translit, protect: bool, t: Token)
    requires |table| == 128 && Readable(t, protect)
    ensures var text := TextOf(table, protect, t);
            && text != [] && text[0] != SPACE
            && (t.Ident? ==> text == t.bytes) && (t.Constant? ==> text == t.body)
            && (t.Plain? ==> !InIdent(text[0]) && text[0] != BACKSLASH)
  {
    if t.Ident? {
      TransliterateAscii(table, t.bytes);
      assert t.bytes[0] in t.bytes;
    } else if t.Constant? {
      DigitsText(protect, t.body);
      assert t.body[0] in t.body;
    }
  }

  /** The output from one token on, with a blank in front if there must be one. */
  lemma TailFront(table: Translit, protect: bool, t: Token, ts: seq<Token>)
    requires |table| == 128 && forall u :: u in ts ==> Readable(u, protect)
    ensures var rest := Tail(table, protect, [t], ts);
            Word(t) ==> !InIdent(At(rest, 0)) && At(rest, 0) != BACKSLASH
  {
    if ts != [] {
      assert ts[0] in ts;
      ReadableText(table, protect, ts[0]);
      hide TextOf, Tail;
      TailOne(table, protect, [t], ts);
    }
  }

  lemma TailOne(table: Translit, protect: bool, latest: seq<Token>, ts: seq<Token>)
    requires |table| == 128
    ensures Tail(table, protect, latest, []) == []
    ensures ts != [] ==>
              Tail(table, protect, latest, ts) ==
              Spaced(NeedsSpace(latest, ts[0])) + TextOf(table, protect, ts[0])
              + Tail(table, protect, [ts[0]], ts[1..])
  {
  }

  // ----- One token

  /** The run of a constant or an identifier ends where its text does. */
  lemma {:induction false} RunOver(a: seq<Byte>, rest: seq<Byte>, kind: Byte -> bool)
    requires (forall b :: b in a ==> kind(b)) && (rest != [] ==> !kind(rest[0]))
    ensures Run(a + rest, kind) == |a|
  {
    if a == [] {
      assert a + rest == rest;
    } else {
      assert (a + rest)[1..] == a[1..] + rest && a[0] in a;
      RunOver(a[1..], rest, kind);
    }
  }

  lemma LexIdent(bytes: seq<Byte>, rest: seq<Byte>)
    requires bytes != [] && Letter(bytes[0]) && forall b :: b in bytes ==> InIdent(b)
    requires !InIdent(At(rest, 0))
    ensures Lex(bytes + rest) == (Ident(bytes), |bytes|)
  {
    var s := bytes + rest;
    assert s[1..] == bytes[1..] + rest && s[..|bytes|] == bytes;
    RunOver(bytes[1..], rest, InIdent);
  }

  lemma DecimalEnd(s: seq<Byte>, n: nat)
    requires s != [] && Digit(s[0]) && At(s, 1) != 120 && At(s, 1) != 88
    requires n == 1 + Run(s[1..], Digit) && !InIdent(At(s, n))
    ensures At(s, n) != 46 ==> ConstantEnd(s) == n
    ensures At(s, n) == 46 ==> ConstantEnd(s) > n
  {
    hide FractionEnd, ExponentEnd, InIdent;
    NoSuffix(s, n);
    hide Run, HexDigit;
  }

  lemma NoSuffix(s: seq<Byte>, n: nat)
    requires n <= |s| && !InIdent(At(s, n))
    ensures Run(s[n..], Suffix) == 0
    ensures At(s, n) != 101 && At(s, n) != 69
  {
  }

  lemma LexConstant(body: seq<Byte>, rest: seq<Byte>)
    requires body != [] && (forall b :: b in body ==> Digit(b)) && !InIdent(At(rest, 0))
    ensures At(rest, 0) != 46 ==> Lex(body + rest) == (Constant(body), |body|)
    ensures At(rest, 0) == 46 ==> Lex(body + rest).0 != Constant(body)
  {
    hide ConstantEnd, Run;
    var s := body + rest;
    assert s[1..] == body[1..] + rest && s[..|body|] == body;
    assert body[0] in body && (|body| > 1 ==> body[1] in body);
    RunOver(body[1..], rest, Digit);
    DecimalEnd(s, |body|);
  }

  lemma LexPlain(c: Byte, rest: seq<Byte>)
    requires Compressed(c) || Punctuation(c) || c == NEWLINE
    requires c != EQUALS
    ensures var text := if Operator(c) != [] then Operator(c) else [c];
            if Extends(Plain(c), At(rest, 0), At(rest, 1)) then Lex(text + rest).0 != Plain(c)
            else Lex(text + rest) == (Plain(c), |text|)
  {
    var text := if Operator(c) != [] then Operator(c) else [c];
    var s := text + rest;
    OperatorsReadBack(c);
    assert At(s, |text|) == At(rest, 0) && At(s, |text| + 1) == At(rest, 1);
    assert forall i: nat :: i < |text| ==> At(s, i) == text[i];
  }

  lemma LexedNext(s: seq<Byte>)
    ensures Lexed([SPACE] + s) == Lexed(s)
    ensures s != [] && s[0] != SPACE ==> Lexed(s) == [Lex(s).0] + Lexed(s[Lex(s).1..])
  {
    assert ([SPACE] + s)[1..] == s;
  }

  /** The first token of the output is read as what it was unless it is extended. */
  lemma LexedOne(table: Translit, protect: bool, t: Token, rest: seq<Byte>)
    requires |table| == 128 && Readable(t, protect)
    requires Word(t) ==> !InIdent(At(rest, 0))
    ensures var s := TextOf(table, protect, t) + rest;
            if Extends(t, At(rest, 0), At(rest, 1)) then Lexed(s) != [] && Lexed(s)[0] != t
            else Lexed(s) == [t] + Lexed(rest)
  {
    hide Lex, Lexed;
    var text := TextOf(table, protect, t);
    var s := text + rest;
    ReadableText(table, protect, t);
    LexedNext(s);
    if t == Plain(EQUALS) {
      LexedNext(rest);
      assert s == [EQUALS] + ([SPACE] + rest);
      LexEquals([SPACE] + rest);
      assert s[1..] == [SPACE] + rest;
    } else {
      assert s[|text|..] == rest;
      match t
      case Ident(bytes) => LexIdent(bytes, rest);
      case Constant(body) => LexConstant(body, rest);
      case Plain(c) =>
        assert text == if Operator(c) != [] then Operator(c) else [c];
        LexPlain(c, rest);
    }
  }

  lemma LexEquals(rest: seq<Byte>)
    requires At(rest, 0) == SPACE
    ensures Lex([EQUALS] + rest) == (Plain(EQUALS), 1)
  {
  }

  // ----- All tokens

  lemma LatestPlain(ts: seq<Token>, t: Token)
    requires !t.Mark?
    ensures Latest(ts + [t]) == [t]
  {
  }

  /** Without marks the layout can be read from the front. */
  lemma {:induction false} LayoutTail(table: Translit, protect: bool, front: seq<Token>, ts: seq<Token>)
    requires |table| == 128 && forall t :: t in ts ==> !t.Mark?
    ensures Layout(table, protect, front + ts) ==
            Layout(table, protect, front) + Tail(table, protect, Latest(front), ts)
    decreases |ts|
  {
    hide Layout, TextOf, NeedsSpace, Latest, Tail;
    if ts == [] {
      assert front + ts == front;
      TailOne(table, protect, Latest(front), ts);
      assert Layout(table, protect, front) + [] == Layout(table, protect, front);
    } else {
      var t := ts[0];
      assert t in ts && forall u :: u in ts[1..] ==> u in ts;
      assert front + ts == front + [t] + ts[1..];
      LayoutTail(table, protect, front + [t], ts[1..]);
      LatestPlain(front, t);
      LayoutNext(table, protect, front, t);
      TailOne(table, protect, Latest(front), ts);
      Four(Layout(table, protect, front), Spaced(NeedsSpace(Latest(front), t)),
           TextOf(table, protect, t), Tail(table, protect, [t], ts[1..]));
    }
  }

  lemma Four(a: seq<Byte>, b: seq<Byte>, c: seq<Byte>, d: seq<Byte>)
    ensures a + b + c + d == a + (b + c + d)
  {
  }

  /** Two bytes behind a token are those of the next two tokens. */
  lemma NearFront(table: Translit, protect: bool, t: Token, ts: seq<Token>)
    requires |table| == 128 && forall u :: u in ts ==> Readable(u, protect)
    ensures var near := Tail(table, protect, [t], if |ts| >= 2 then ts[..2] else ts);
            var all := Tail(table, protect, [t], ts);
            At(near, 0) == At(all, 0) && At(near, 1) == At(all, 1)
  {
    assert |ts| == 2 ==> ts[..2] == ts;
    if |ts| > 2 {
      var two := ts[..2];
      assert ts[0] in ts && ts[1] in ts;
      ReadableText(table, protect, ts[0]);
      ReadableText(table, protect, ts[1]);
      hide TextOf, Tail, NeedsSpace, Readable, At, Spaced;
      TailOne(table, protect, [t], ts);
      TailOne(table, protect, [t], two);
      TailOne(table, protect, [ts[0]], ts[1..]);
      TailOne(table, protect, [ts[0]], two[1..]);
      assert two[1..] == [ts[1]] && ts[1..][0] == ts[1] && two[0] == ts[0];
      var a := Spaced(NeedsSpace([t], ts[0])) + TextOf(table, protect, ts[0]);
      var b := Spaced(NeedsSpace([ts[0]], ts[1])) + TextOf(table, protect, ts[1]);
      FrontBytes(a, b, Tail(table, protect, [ts[1]], ts[1..][1..]));
      FrontBytes(a, b, Tail(table, protect, [ts[1]], two[1..][1..]));
    }
  }

  lemma FrontBytes(a: seq<Byte>, b: seq<Byte>, rest: seq<Byte>)
    requires a != [] && b != []
    ensures At(a + (b + rest), 0) == (a + b)[0] && At(a + (b + rest), 1) == (a + b)[1]
  {
  }

  lemma {:induction false} TailReadBack(table: Translit, protect: bool, latest: seq<Token>,
                                        ts: seq<Token>)
    requires |table| == 128 && forall t :: t in ts ==> Readable(t, protect)
    ensures Lexed(Tail(table, protect, latest, ts)) == ts <==> Apart(table, protect, ts)
    decreases |ts|
  {
    hide Lexed, Tail, TextOf, NeedsSpace, Readable, Extends, At, Apart;
    if ts == [] {
      TailOne(table, protect, latest, ts);
      LexedNone(table, protect);
    } else {
      var t := ts[0];
      assert t in ts && forall u :: u in ts[1..] ==> u in ts;
      var rest := Tail(table, protect, [t], ts[1..]);
      TailOne(table, protect, latest, ts);
      BlankInFront(NeedsSpace(latest, t), TextOf(table, protect, t), rest);
      TailFront(table, protect, t, ts[1..]);
      LexedOne(table, protect, t, rest);
      NearFront(table, protect, t, ts[1..]);
      TailReadBack(table, protect, [t], ts[1..]);
      ApartFirst(table, protect, ts);
      assert |ts| >= 3 ==> ts[1..3] == ts[1..][..2];
      assert Near(table, protect, ts, 0) ==
             Tail(table, protect, [t], if |ts[1..]| >= 2 then ts[1..][..2] else ts[1..]);
    }
  }

  lemma LexedNone(table: Translit, protect: bool)
    requires |table| == 128
    ensures Lexed([]) == [] && Apart(table, protect, [])
  {
  }

  lemma BlankInFront(space: bool, text: seq<Byte>, rest: seq<Byte>)
    ensures Lexed(Spaced(space) + text + rest) == Lexed(text + rest)
  {
    hide Lexed;
    LexedNext(text + rest);
    assert Spaced(true) + text + rest == [SPACE] + (text + rest);
    assert Spaced(false) + text + rest == text + rest;
  }

  lemma ApartFirst(table: Translit, protect: bool, ts: seq<Token>)
    requires |table| == 128 && ts != []
    ensures var next := Near(table, protect, ts, 0);
            Apart(table, protect, ts) <==>
            !Extends(ts[0], At(next, 0), At(next, 1)) && Apart(table, protect, ts[1..])
  {
    hide Tail, At, Extends;
    forall i | 0 <= i < |ts| - 1
      ensures Near(table, protect, ts, i + 1) == Near(table, protect, ts[1..], i)
    {
      if i + 4 <= |ts| {
        assert ts[i + 2..i + 4] == ts[1..][i + 1..i + 3];
      } else {
        assert ts[i + 2..] == ts[1..][i + 1..];
      }
    }
    assert forall i :: 0 <= i < |ts| - 1 ==> ts[1..][i] == ts[i + 1];
    if Apart(table, protect, ts[1..]) {
      forall j | 0 < j < |ts|
        ensures var next := Near(table, protect, ts, j); !Extends(ts[j], At(next, 0), At(next, 1))
      {
        assert ts[1..][j - 1] == ts[j];
        assert Near(table, protect, ts, j) == Near(table, protect, ts[1..], j - 1);
      }
    }
  }

  /**
    Identifiers, numbers, operators and punctuation are read back from the output as they were, if
    and only if none of them is extended by what the next two tokens put out.
   */
  lemma ReadsBack(table: Translit, protect: bool, ts: seq<Token>)
    requires |table| == 128 && forall t :: t in ts ==> Readable(t, protect)
    ensures Lexed(Layout(table, protect, ts)) == ts <==> Apart(table, protect, ts)
  {
    hide *;
    assert forall t :: t in ts ==> !t.Mark? by {
      forall t | t in ts
        ensures !t.Mark?
      {
        NoMark(t, protect);
      }
    }
    LayoutTail(table, protect, [], ts);
    assert [] + ts == ts;
    LayoutEmpty(table, protect);
    assert [] + Tail(table, protect, [], ts) == Tail(table, protect, [], ts);
    TailReadBack(table, protect, [], ts);
  }

  lemma NoMark(t: Token, protect: bool)
    requires Readable(t, protect)
    ensures !t.Mark?
  {
  }

  lemma LayoutEmpty(table: Translit, protect: bool)
    requires |table| == 128
    ensures Layout(table, protect, []) == [] && Latest([]) == []
  {
  }

  /** Two plus signs are written as one increment. */
  lemma TwoPlusSigns(table: Translit)
    requires |table| == 128
    ensures Layout(table, false, [Plain(43), Plain(43)]) == [43, 43]
    ensures Lexed([43, 43]) == [Plain(11)]
  {
    hide *;
    var one := [Plain(43)];
    assert [] + one == one && one + one == [Plain(43), Plain(43)];
    LayoutNext(table, false, [], Plain(43));
    LayoutNext(table, false, one, Plain(43));
    LayoutEmpty(table, false);
    PlusSigns(table);
  }

  lemma PlusSigns(table: Translit)
    requires |table| == 128
    ensures TextOf(table, false, Plain(43)) == [43] && Spaced(false) == []
    ensures !NeedsSpace([], Plain(43)) && !NeedsSpace(Latest([Plain(43)]), Plain(43))
    ensures Lexed([43, 43]) == [Plain(11)]
  {
    assert [43, 43][2..] == [] && Lexed([]) == [];
  }
}
