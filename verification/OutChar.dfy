/**
  The output state machine of CTANGLE: out_char, and the bytes that get_output passes by it.
 */
module OutChar {
  import opened ByteCodes

  const SPACE: Byte := 32
  const STAR: Byte := 42
  const SLASH: Byte := 47
  const EQUALS: Byte := 61
  const BACKSLASH: Byte := 92
  const JOIN: Byte := 127

  /** out_state. */
  datatype OutState = Normal | NumOrId | PostSlash | Unbreakable | Verbatim

  /** What reaches the output: a call of out_char, or a byte written directly. */
  datatype Act = Name(bytes: seq<Byte>) | Code(c: Byte) | Comment(text: seq<Byte>) | Raw(b: Byte)

  // ----- The machine

  /** How bytes from 0200 on are written in identifiers: the table translit. */
  type Translit = seq<seq<Byte>>

  function Transliterate(table: Translit, bytes: seq<Byte>): seq<Byte>
    requires |table| == 128
  {
    if bytes == [] then []
    else (if bytes[0] < 128 then [bytes[0]] else table[bytes[0] - 128])
         + Transliterate(table, bytes[1..])
  }

  /** The operators that are one code inside CTANGLE; [] for all other codes. */
  function Operator(c: Byte): seq<Byte> {
    if c == 11 then [43, 43]
    else if c == 1 then [45, 45]
    else if c == 25 then [45, 62]
    else if c == 17 then [62, 62]
    else if c == 30 then [61, 61]
    else if c == 16 then [60, 60]
    else if c == 29 then [62, 61]
    else if c == 28 then [60, 61]
    else if c == 26 then [33, 61]
    else if c == 4 then [38, 38]
    else if c == 31 then [124, 124]
    else if c == 14 then [46, 46, 46]
    else if c == 6 then [58, 58]
    else if c == 22 then [46, 42]
    else if c == 23 then [45, 62, 42]
    else []
  }

  function Spaced(b: bool): seq<Byte> {
    if b then [SPACE] else []
  }

  function EndLine(protect: bool, verbatim: bool): seq<Byte> {
    Spaced(protect) + (if protect || verbatim then [BACKSLASH] else []) + [NEWLINE]
  }

  /** What one call writes, and the state it leaves. */
  function Put(table: Translit, protect: bool, s: OutState, a: Act): (seq<Byte>, OutState)
    requires |table| == 128
  {
    match a
    case Raw(b) => ([b], s)
    case Comment(t) => (t, s)
    case Name(bytes) => (Spaced(s.NumOrId?) + Transliterate(table, bytes), NumOrId)
    case Code(c) =>
      if c == NEWLINE then (EndLine(protect, s.Verbatim?), if s.Verbatim? then s else Normal)
      else if Operator(c) != [] then (Operator(c), Normal)
      else if c == EQUALS then ([EQUALS, SPACE], Normal)
      else if c == JOIN then ([], Unbreakable)
      else if c == CONSTANT then
        if s.Verbatim? then ([], NumOrId) else (Spaced(s.NumOrId?), Verbatim)
      else if c == STRING then ([], if s.Verbatim? then Normal else Verbatim)
      else if c == SLASH then ([SLASH], PostSlash)
      else if c == STAR then (Spaced(s.PostSlash?) + [STAR], Normal)
      else ([c], Normal)
  }

  function PutAll(table: Translit, protect: bool, s: OutState, acts: seq<Act>): (seq<Byte>, OutState)
    requires |table| == 128
    decreases |acts|
  {
    if acts == [] then ([], s)
    else
      var (out, t) := Put(table, protect, s, acts[0]);
      var (more, u) := PutAll(table, protect, t, acts[1..]);
      (out + more, u)
  }

  // ----- Tokens

  /** A token of a replacement text; Mark is the comment or line directive of a section number. */
  datatype Token =
    | Ident(bytes: seq<Byte>)
    | Constant(body: seq<Byte>)
    | Quoted(body: seq<Byte>)
    | Plain(c: Byte)
    | Join
    | Mark(text: seq<Byte>)

  predicate TokenOK(t: Token) {
    match t
    case Constant(body) => forall b :: b in body ==> b != STRING && b != CONSTANT
    case Quoted(body) => forall b :: b in body ==> b != STRING && b != CONSTANT
    case Plain(c) => c != STRING && c != CONSTANT && c != JOIN
    case _ => true
  }

  function Inner(body: seq<Byte>): seq<Act> {
    if body == [] then []
    else [if body[0] == NEWLINE then Code(NEWLINE) else Raw(body[0])] + Inner(body[1..])
  }

  /** What get_output does with a token. */
  function Acts(t: Token): seq<Act> {
    match t
    case Ident(bytes) => [Name(bytes)]
    case Constant(body) => [Code(CONSTANT)] + (Inner(body) + [Code(CONSTANT)])
    case Quoted(body) => [Code(STRING)] + (Inner(body) + [Code(STRING)])
    case Plain(c) => [Code(c)]
    case Join => [Code(JOIN)]
    case Mark(text) => [Comment(text)]
  }

  function ActsAll(ts: seq<Token>): seq<Act> {
    if ts == [] then [] else ActsAll(ts[..|ts| - 1]) + Acts(ts[|ts| - 1])
  }

  // ----- What the output should look like

  /** Newlines inside a string get a backslash. */
  function BodyText(protect: bool, body: seq<Byte>): seq<Byte> {
    if body == [] then []
    else (if body[0] == NEWLINE then EndLine(protect, true) else [body[0]])
         + BodyText(protect, body[1..])
  }

  function TextOf(table: Translit, protect: bool, t: Token): seq<Byte>
    requires |table| == 128
  {
    match t
    case Ident(bytes) => Transliterate(table, bytes)
    case Constant(body) => BodyText(protect, body)
    case Quoted(body) => BodyText(protect, body)
    case Join => []
    case Mark(text) => text
    case Plain(c) =>
      if c == NEWLINE then EndLine(protect, false)
      else if Operator(c) != [] then Operator(c)
      else if c == EQUALS then [EQUALS, SPACE]
      else [c]
  }

  predicate Word(t: Token) {
    t.Ident? || t.Constant?
  }

  /** The last token that is not a mark, if there is one. */
  function Latest(ts: seq<Token>): seq<Token> {
    if ts == [] then []
    else if ts[|ts| - 1].Mark? then Latest(ts[..|ts| - 1])
    else [ts[|ts| - 1]]
  }

  /** A space is needed between two words, and between `/` and `*`. */
  predicate NeedsSpace(latest: seq<Token>, t: Token) {
    latest != [] && ((Word(latest[0]) && Word(t)) || (latest[0] == Plain(SLASH) && t == Plain(STAR)))
  }

  function Layout(table: Translit, protect: bool, ts: seq<Token>): seq<Byte>
    requires |table| == 128
  {
    if ts == [] then []
    else
      var before, t := ts[..|ts| - 1], ts[|ts| - 1];
      Layout(table, protect, before) + Spaced(NeedsSpace(Latest(before), t))
      + TextOf(table, protect, t)
  }

  function StateAfter(latest: seq<Token>): OutState {
    if latest == [] then Normal
    else if Word(latest[0]) then NumOrId
    else if latest[0] == Plain(SLASH) then PostSlash
    else if latest[0].Join? then Unbreakable
    else Normal
  }

  // ----- The machine writes the layout

  lemma {:induction false} PutConcat(table: Translit, protect: bool, s: OutState, a: seq<Act>,
                                     b: seq<Act>)
    requires |table| == 128
    ensures var (out, t) := PutAll(table, protect, s, a);
            var (more, u) := PutAll(table, protect, t, b);
            PutAll(table, protect, s, a + b) == (out + more, u)
    decreases |a|
  {
    hide Put;
    if a == [] {
      assert a + b == b;
      assert [] + PutAll(table, protect, s, b).0 == PutAll(table, protect, s, b).0;
    } else {
      assert (a + b)[0] == a[0] && (a + b)[1..] == a[1..] + b;
      var (out, t) := Put(table, protect, s, a[0]);
      PutConcat(table, protect, t, a[1..], b);
      var (mid, u) := PutAll(table, protect, t, a[1..]);
      var (more, v) := PutAll(table, protect, u, b);
      assert out + (mid + more) == (out + mid) + more;
    }
  }

  lemma PutNone(table: Translit, protect: bool, s: OutState)
    requires |table| == 128
    ensures PutAll(table, protect, s, []) == ([], s) && ActsAll([]) == []
  {
  }

  lemma LatestNone()
    ensures StateAfter(Latest([])) == Normal
  {
  }

  lemma PutOne(table: Translit, protect: bool, s: OutState, a: Act)
    requires |table| == 128
    ensures PutAll(table, protect, s, [a]) == Put(table, protect, s, a)
  {
    var (out, t) := Put(table, protect, s, a);
    assert [a][1..] == [] && out + [] == out;
  }

  lemma {:induction false} InnerOut(table: Translit, protect: bool, body: seq<Byte>)
    requires |table| == 128 && forall b :: b in body ==> b != STRING && b != CONSTANT
    ensures PutAll(table, protect, Verbatim, Inner(body)) == (BodyText(protect, body), Verbatim)
  {
    if body != [] {
      assert body[0] in body && forall b :: b in body[1..] ==> b in body;
      InnerOut(table, protect, body[1..]);
      var first := if body[0] == NEWLINE then Code(NEWLINE) else Raw(body[0]);
      assert Inner(body)[0] == first && Inner(body)[1..] == Inner(body[1..]);
    }
  }

  /** One token, from any state but within a string. */
  lemma TokenOut(table: Translit, protect: bool, s: OutState, t: Token)
    requires |table| == 128 && TokenOK(t) && !s.Verbatim?
    ensures PutAll(table, protect, s, Acts(t)) ==
            (Spaced((s.NumOrId? && Word(t)) || (s.PostSlash? && t == Plain(STAR)))
             + TextOf(table, protect, t),
             if t.Mark? then s else StateAfter([t]))
  {
    match t {
      case Constant(body) => BodyOut(table, protect, s, CONSTANT, body);
      case Quoted(body) => BodyOut(table, protect, s, STRING, body);
      case _ =>
        PutOne(table, protect, s, Acts(t)[0]);
        assert Acts(t) == [Acts(t)[0]];
        assert [] + TextOf(table, protect, t) == TextOf(table, protect, t);
    }
  }

  lemma BodyOut(table: Translit, protect: bool, s: OutState, d: Byte, body: seq<Byte>)
    requires |table| == 128 && !s.Verbatim? && (d == STRING || d == CONSTANT)
    requires forall b :: b in body ==> b != STRING && b != CONSTANT
    ensures PutAll(table, protect, s, [Code(d)] + (Inner(body) + [Code(d)])) ==
            (Spaced(d == CONSTANT && s.NumOrId?) + BodyText(protect, body),
             if d == CONSTANT then NumOrId else Normal)
  {
    InnerOut(table, protect, body);
    PutOne(table, protect, s, Code(d));
    PutOne(table, protect, Verbatim, Code(d));
    hide PutAll, BodyText;
    PutConcat(table, protect, Verbatim, Inner(body), [Code(d)]);
    PutConcat(table, protect, s, [Code(d)], Inner(body) + [Code(d)]);
    assert BodyText(protect, body) + [] == BodyText(protect, body);
  }

  /** For every sequence of tokens the output is the layout of the tokens. */
  lemma {:induction false} TokensOut(table: Translit, protect: bool, ts: seq<Token>)
    requires |table| == 128 && forall t :: t in ts ==> TokenOK(t)
    ensures PutAll(table, protect, Normal, ActsAll(ts)) ==
            (Layout(table, protect, ts), StateAfter(Latest(ts)))
  {
    hide PutAll, TextOf, TokenOK, Acts, NeedsSpace, StateAfter, Latest;
    if ts == [] {
      PutNone(table, protect, Normal);
      LatestNone();
    } else {
      var before, t := ts[..|ts| - 1], ts[|ts| - 1];
      assert t in ts;
      TokensOut(table, protect, before);
      LatestState(ts);
      TokenOut(table, protect, StateAfter(Latest(before)), t);
      PutConcat(table, protect, Normal, ActsAll(before), Acts(t));
      var gap := Spaced(NeedsSpace(Latest(before), t));
      assert Layout(table, protect, before) + (gap + TextOf(table, protect, t)) ==
             Layout(table, protect, before) + gap + TextOf(table, protect, t);
    }
  }

  /** The state tells what the latest token was, as far as the next one needs to know. */
  lemma LatestState(ts: seq<Token>)
    requires ts != []
    ensures var before, t := ts[..|ts| - 1], ts[|ts| - 1];
            var s := StateAfter(Latest(before));
            && !s.Verbatim?
            && (NeedsSpace(Latest(before), t) <==>
                (s.NumOrId? && Word(t)) || (s.PostSlash? && t == Plain(STAR)))
            && StateAfter(Latest(ts)) == (if t.Mark? then s else StateAfter([t]))
  {
  }

  // ----- What the layout guarantees

  /** Two words in a row are put out with a space between them, whatever came before. */
  lemma WordsApart(table: Translit, protect: bool, ts: seq<Token>, a: Token, b: Token)
    requires |table| == 128 && Word(a) && Word(b)
    ensures exists out :: Layout(table, protect, ts + [a, b]) ==
              out + TextOf(table, protect, a) + [SPACE] + TextOf(table, protect, b)
  {
    hide TextOf;
    var all := ts + [a, b];
    assert all[..|all| - 1] == ts + [a] && all[|all| - 1] == b;
    assert (ts + [a])[..|ts|] == ts && (ts + [a])[|ts|] == a;
    var out := Layout(table, protect, ts) + Spaced(NeedsSpace(Latest(ts), a));
    assert Layout(table, protect, ts + [a]) == out + TextOf(table, protect, a);
    assert Layout(table, protect, all) ==
           out + TextOf(table, protect, a) + [SPACE] + TextOf(table, protect, b);
  }

  /** No `*` directly follows a `/`. */
  ghost predicate NoComment(out: seq<Byte>) {
    forall i, j :: 0 <= i < j < |out| && j == i + 1 ==> out[i] != SLASH || out[j] != STAR
  }

  /** The text does not make a comment with what stands next to it. */
  ghost predicate Tame(text: seq<Byte>) {
    && text != [] && NoComment(text)
    && text[0] != STAR && text[|text| - 1] != SLASH
  }

  /** The operators and other single codes, apart from `/` and `*` themselves. */
  lemma PlainTame(table: Translit, protect: bool, c: Byte)
    requires |table| == 128 && c != SLASH && c != STAR
    ensures Tame(TextOf(table, protect, Plain(c)))
  {
  }

  /** No join, no mark, and a text that is harmless or empty. */
  ghost predicate Quiet(table: Translit, protect: bool, t: Token)
    requires |table| == 128
  {
    && TokenOK(t) && !t.Join? && !t.Mark?
    && (t.Plain? || TextOf(table, protect, t) == [] || Tame(TextOf(table, protect, t)))
  }

  /** Token i is a `/`, and nothing at all is put out for the tokens behind it. */
  ghost predicate SilentSince(table: Translit, protect: bool, ts: seq<Token>, i: nat)
    requires |table| == 128
  {
    && i < |ts| && ts[i] == Plain(SLASH)
    && (forall k :: i < k < |ts| ==> TextOf(table, protect, ts[k]) == [])
    && forall k, l :: i < k < l < |ts| && l == k + 1 ==> !Word(ts[k]) || !Word(ts[l])
  }

  /** The `*` that is token j follows such a `/` with something silent in between. */
  ghost predicate Collides(table: Translit, protect: bool, ts: seq<Token>, i: nat, j: nat)
    requires |table| == 128
  {
    i + 1 < j < |ts| && ts[j] == Plain(STAR) && SilentSince(table, protect, ts[..j], i)
  }

  ghost predicate AfterSlash(table: Translit, protect: bool, ts: seq<Token>)
    requires |table| == 128
  {
    exists i: nat :: SilentSince(table, protect, ts, i)
  }

  /** The same, with other tokens behind the `/`. */
  ghost predicate SlashBefore(table: Translit, protect: bool, ts: seq<Token>)
    requires |table| == 128
  {
    exists i: nat :: i + 1 < |ts| && SilentSince(table, protect, ts, i)
  }

  ghost predicate Collision(table: Translit, protect: bool, ts: seq<Token>)
    requires |table| == 128
  {
    exists i: nat, j: nat :: Collides(table, protect, ts, i, j)
  }

  ghost predicate EndsInSlash(out: seq<Byte>) {
    out != [] && out[|out| - 1] == SLASH
  }

  /** How one more token changes the places where a comment can open. */
  lemma CollisionNext(table: Translit, protect: bool, ts: seq<Token>, t: Token)
    requires |table| == 128
    ensures Collision(table, protect, ts + [t]) <==>
            || Collision(table, protect, ts)
            || (t == Plain(STAR) && SlashBefore(table, protect, ts))
  {
    hide SilentSince;
    var all := ts + [t];
    assert all[..|ts|] == ts;
    forall j | 0 <= j < |ts|
      ensures all[..j] == ts[..j] && all[j] == ts[j]
    {
    }
    if i: nat, j: nat :| Collides(table, protect, all, i, j) {
      if j < |ts| {
        assert Collides(table, protect, ts, i, j);
      }
    }
    if i: nat, j: nat :| Collides(table, protect, ts, i, j) {
      assert Collides(table, protect, all, i, j);
    }
    if i: nat :| i + 1 < |ts| && SilentSince(table, protect, ts, i) {
      assert t == Plain(STAR) ==> Collides(table, protect, all, i, |ts|);
    }
  }

  lemma SlashNext(table: Translit, protect: bool, ts: seq<Token>, t: Token)
    requires |table| == 128
    ensures t == Plain(SLASH) ==> AfterSlash(table, protect, ts + [t])
    ensures t != Plain(SLASH) && TextOf(table, protect, t) != [] ==>
              !AfterSlash(table, protect, ts + [t])
    ensures t != Plain(SLASH) && TextOf(table, protect, t) == [] ==>
              (AfterSlash(table, protect, ts + [t]) <==>
               AfterSlash(table, protect, ts) && !(Word(ts[|ts| - 1]) && Word(t)))
  {
    hide TextOf;
    var all := ts + [t];
    assert all[|ts|] == t && forall k :: 0 <= k < |ts| ==> all[k] == ts[k];
    if t == Plain(SLASH) {
      assert SilentSince(table, protect, all, |ts|);
    } else {
      if i: nat :| SilentSince(table, protect, all, i) {
        assert SilentSince(table, protect, ts, i);
      }
      if i: nat :| SilentSince(table, protect, ts, i) {
        assert TextOf(table, protect, t) == [] && !(Word(ts[|ts| - 1]) && Word(t)) ==>
            SilentSince(table, protect, all, i);
      }
    }
  }

  lemma PlainHasText(table: Translit, protect: bool, c: Byte)
    requires |table| == 128
    ensures TextOf(table, protect, Plain(c)) != []
  {
  }

  /** A `/` at the very end is the only one that counts: its text is not empty. */
  lemma LastSlash(table: Translit, protect: bool, ts: seq<Token>)
    requires |table| == 128
    ensures AfterSlash(table, protect, ts) && ts[|ts| - 1] == Plain(SLASH) ==>
              !SlashBefore(table, protect, ts)
    ensures AfterSlash(table, protect, ts) && ts[|ts| - 1] != Plain(SLASH) ==>
              SlashBefore(table, protect, ts)
    ensures SlashBefore(table, protect, ts) ==> AfterSlash(table, protect, ts)
  {
    PlainHasText(table, protect, SLASH);
  }

  /**
    Without joins and section numbers, and with texts that are harmless or empty, a comment opens
    in the output if and only if some `*` token follows a `/` token behind which nothing but empty
    texts without a space was put out. Without empty texts it never does.
   */
  lemma {:induction false} NoCommentOut(table: Translit, protect: bool, ts: seq<Token>)
    requires |table| == 128 && forall t :: t in ts ==> Quiet(table, protect, t)
    ensures var out := Layout(table, protect, ts);
            && (NoComment(out) <==> !Collision(table, protect, ts))
            && (EndsInSlash(out) <==> AfterSlash(table, protect, ts))
  {
    hide TextOf, NoComment, SlashBefore, Collision, AfterSlash, EndsInSlash, Tame;
    if ts == [] {
      NothingOut(table, protect);
    } else {
      var before, t := ts[..|ts| - 1], ts[|ts| - 1];
      assert t in ts && before + [t] == ts;
      NoCommentOut(table, protect, before);
      CollisionNext(table, protect, before, t);
      SlashNext(table, protect, before, t);
      LastSlash(table, protect, before);
      SlashHasToken(table, protect, before);
      assert before != [] ==> before[|before| - 1] in ts;
      QuietKind(table, protect, t);
      AddText(Layout(table, protect, before), NeedsSpace(Latest(before), t),
              TextOf(table, protect, t));
    }
  }

  /** In particular none opens when every token has a text. */
  lemma FullTextsNoComment(table: Translit, protect: bool, ts: seq<Token>)
    requires |table| == 128 && forall t :: t in ts ==> Quiet(table, protect, t)
    requires forall t :: t in ts ==> TextOf(table, protect, t) != []
    ensures NoComment(Layout(table, protect, ts))
  {
    hide TextOf, NoComment, Quiet;
    NoCommentOut(table, protect, ts);
    forall i: nat, j: nat
      ensures !Collides(table, protect, ts, i, j)
    {
      if i + 1 < j < |ts| {
        assert ts[..j][i + 1] == ts[i + 1] && ts[i + 1] in ts;
      }
    }
  }

  lemma NothingOut(table: Translit, protect: bool)
    requires |table| == 128
    ensures Layout(table, protect, []) == [] && NoComment([]) && !EndsInSlash([])
    ensures !Collision(table, protect, []) && !AfterSlash(table, protect, [])
  {
  }

  lemma SlashHasToken(table: Translit, protect: bool, ts: seq<Token>)
    requires |table| == 128
    ensures AfterSlash(table, protect, ts) ==> ts != []
  {
  }

  lemma QuietKind(table: Translit, protect: bool, t: Token)
    requires |table| == 128 && Quiet(table, protect, t)
    ensures var text := TextOf(table, protect, t);
            if t == Plain(SLASH) then text == [SLASH]
            else if t == Plain(STAR) then text == [STAR]
            else text == [] || (Tame(text) && text != [SLASH] && text != [STAR])
  {
    if t.Plain? && t.c != SLASH && t.c != STAR {
      PlainTame(table, protect, t.c);
    }
  }

  /** One more text at the end; `space` says that there is a space in front of it. */
  lemma AddText(out: seq<Byte>, space: bool, text: seq<Byte>)
    requires text == [] || text == [SLASH] || text == [STAR] || Tame(text)
    ensures var all := out + Spaced(space) + text;
            && (NoComment(all) <==>
                NoComment(out) && !(EndsInSlash(out) && !space && text == [STAR]))
            && (EndsInSlash(all) <==>
                if text == [] then EndsInSlash(out) && !space else text == [SLASH])
  {
    var mid := out + Spaced(space);
    NoCommentSplit(out, Spaced(space));
    NoCommentSplit(mid, text);
    assert NoComment(text) && NoComment(Spaced(space));
  }

  lemma NoCommentSplit(a: seq<Byte>, b: seq<Byte>)
    ensures NoComment(a + b) <==>
            NoComment(a) && NoComment(b) && !(EndsInSlash(a) && b != [] && b[0] == STAR)
  {
    var all := a + b;
    assert forall i :: 0 <= i < |a| ==> all[i] == a[i];
    assert forall i :: 0 <= i < |b| ==> all[|a| + i] == b[i];
    if NoComment(a) && NoComment(b) && !(EndsInSlash(a) && b != [] && b[0] == STAR) {
      forall i, j | 0 <= i < j < |all| && j == i + 1
        ensures all[i] != SLASH || all[j] != STAR
      {
        if i >= |a| {
          assert b[i - |a|] != SLASH || b[j - |a|] != STAR;
        }
      }
    } else if !NoComment(b) {
      var i, j :| 0 <= i < j < |b| && j == i + 1 && b[i] == SLASH && b[j] == STAR;
      assert all[|a| + i] == SLASH && all[|a| + j] == STAR;
    }
  }

  /** A string without contents between them lets `/` and `*` come together. */
  lemma EmptyStringOpensComment(table: Translit)
    requires |table| == 128
    ensures Layout(table, false, [Plain(SLASH), Quoted([]), Plain(STAR)]) == [SLASH, STAR]
  {
    hide *;
    var a, b := [Plain(SLASH)], [Plain(SLASH), Quoted([])];
    assert [] + a == a && a + [Quoted([])] == b;
    assert b + [Plain(STAR)] == [Plain(SLASH), Quoted([]), Plain(STAR)];
    LayoutNext(table, false, [], Plain(SLASH));
    LayoutNext(table, false, a, Quoted([]));
    LayoutNext(table, false, b, Plain(STAR));
    ThreeTexts(table);
  }

  lemma ThreeTexts(table: Translit)
    requires |table| == 128
    ensures TextOf(table, false, Plain(SLASH)) == [SLASH]
    ensures TextOf(table, false, Quoted([])) == []
    ensures TextOf(table, false, Plain(STAR)) == [STAR]
    ensures Layout(table, false, []) == [] && Spaced(false) == []
    ensures !NeedsSpace(Latest([]), Plain(SLASH))
    ensures !NeedsSpace(Latest([Plain(SLASH)]), Quoted([]))
    ensures !NeedsSpace(Latest([Plain(SLASH), Quoted([])]), Plain(STAR))
  {
  }

  lemma LayoutNext(table: Translit, protect: bool, ts: seq<Token>, t: Token)
    requires |table| == 128
    ensures Layout(table, protect, ts + [t]) ==
            Layout(table, protect, ts) + Spaced(NeedsSpace(Latest(ts), t))
            + TextOf(table, protect, t)
  {
    assert (ts + [t])[..|ts|] == ts;
  }

  // ----- The same with the source's variables

  class Writer {
    const table: Translit
    var outState: OutState
    var protect: bool
    var out: seq<Byte>

    constructor (table: Translit)
      ensures this.table == table && outState == Normal && !protect && out == []
    {
      this.table := table;
      outState, protect, out := Normal, false, [];
    }

    method PutC(c: Byte)
      modifies `out
      ensures out == old(out) + [c]
    {
      out := out + [c];
    }

    method PutS(s: seq<Byte>)
      modifies `out
      ensures out == old(out) + s
    {
      var i := 0;
      while i < |s|
        invariant 0 <= i <= |s| && out == old(out) + s[..i]
      {
        PutC(s[i]);
        i := i + 1;
      }
      assert s[..i] == s;
    }

    /** The case `identifier` of out_char. */
    method PutName(bytes: seq<Byte>)
      requires |table| == 128
      modifies `out, `outState
      ensures var (o, s) := Put(table, protect, old(outState), Name(bytes));
              out == old(out) + o && outState == s
    {
      if outState == NumOrId {
        PutC(SPACE);
      }
      var j := 0;
      ghost var start := out;
      assert bytes[0..] == bytes;
      while j < |bytes|
        invariant 0 <= j <= |bytes|
        invariant out + Transliterate(table, bytes[j..]) == start + Transliterate(table, bytes)
      {
        ghost var before := out;
        ghost var piece := if bytes[j] < 128 then [bytes[j]] else table[bytes[j] - 128];
        assert bytes[j..][1..] == bytes[j + 1..];
        if bytes[j] < 128 {
          PutC(bytes[j]);
        } else {
          PutS(table[bytes[j] - 128]);
        }
        assert before + (piece + Transliterate(table, bytes[j + 1..])) ==
               before + piece + Transliterate(table, bytes[j + 1..]);
        j := j + 1;
      }
      assert bytes[j..] == [] && out == start + Transliterate(table, bytes);
      outState := NumOrId;
    }

    /** The other cases of out_char. */
    method PutCode(c: Byte)
      requires |table| == 128
      modifies `out, `outState
      ensures var (o, s) := Put(table, protect, old(outState), Code(c));
              out == old(out) + o && outState == s
    {
      if c == NEWLINE {
        if protect {
          PutC(SPACE);
        }
        if protect || outState == Verbatim {
          PutC(BACKSLASH);
        }
        PutC(NEWLINE);
        if outState != Verbatim {
          outState := Normal;
        }
      } else if Operator(c) != [] {
        PutS(Operator(c));
        outState := Normal;
      } else if c == EQUALS {
        PutC(EQUALS);
        PutC(SPACE);
        outState := Normal;
      } else if c == JOIN {
        outState := Unbreakable;
      } else if c == CONSTANT {
        if outState == Verbatim {
          outState := NumOrId;
          return;
        }
        if outState == NumOrId {
          PutC(SPACE);
        }
        outState := Verbatim;
      } else if c == STRING {
        outState := if outState == Verbatim then Normal else Verbatim;
      } else if c == SLASH {
        PutC(SLASH);
        outState := PostSlash;
      } else {
        if c == STAR && outState == PostSlash {
          PutC(SPACE);
        }
        PutC(c);
        outState := Normal;
      }
    }

    /** One call of get_output, as far as its output goes. */
    method Do(a: Act)
      requires |table| == 128
      modifies `out, `outState
      ensures var (o, s) := Put(table, protect, old(outState), a);
              out == old(out) + o && outState == s
    {
      match a
      case Raw(b) => PutC(b);
      case Comment(t) => PutS(t);
      case Name(bytes) => PutName(bytes);
      case Code(c) => PutCode(c);
    }

    method DoAll(acts: seq<Act>)
      requires |table| == 128
      modifies `out, `outState
      ensures var (o, s) := PutAll(table, protect, old(outState), acts);
              out == old(out) + o && outState == s
    {
      hide Put, PutAll;
      var k := 0;
      assert acts[..0] == [];
      PutNone(table, protect, outState);
      while k < |acts|
        invariant 0 <= k <= |acts|
        invariant var (o, t) := PutAll(table, protect, old(outState), acts[..k]);
                  out == old(out) + o && outState == t
      {
        assert acts[..k + 1] == acts[..k] + [acts[k]];
        PutConcat(table, protect, old(outState), acts[..k], [acts[k]]);
        PutOne(table, protect, outState, acts[k]);
        ghost var so := PutAll(table, protect, old(outState), acts[..k]).0;
        ghost var more := Put(table, protect, outState, acts[k]).0;
        assert old(out) + so + more == old(out) + (so + more);
        Do(acts[k]);
        k := k + 1;
      }
      assert acts[..k] == acts;
    }

    /** A whole text: from the start of a file the output is the layout of its tokens. */
    method WriteTokens(ts: seq<Token>)
      requires |table| == 128 && outState == Normal && out == []
      requires forall t :: t in ts ==> TokenOK(t)
      modifies `out, `outState
      ensures out == Layout(table, protect, ts) && outState == StateAfter(Latest(ts))
    {
      hide Put, PutAll, TokenOK, Layout, Acts;
      var i := 0;
      assert ts[..0] == [];
      PutNone(table, protect, Normal);
      while i < |ts|
        invariant 0 <= i <= |ts|
        invariant (out, outState) == PutAll(table, protect, Normal, ActsAll(ts[..i]))
      {
        assert ts[..i + 1][..i] == ts[..i];
        PutConcat(table, protect, Normal, ActsAll(ts[..i]), Acts(ts[i]));
        DoAll(Acts(ts[i]));
        i := i + 1;
      }
      assert ts[..i] == ts;
      TokensOut(table, protect, ts);
    }
  }
}
