/**
  The token and text memories of CWEAVE, tok_mem and tok_start, and the routines that append to
  the open text: app, big_app, big_app1 and freeze_text.
 */
module TextMemory {
  import opened Grammar
  import opened Rewriting

  /**
    A sixteen-bit token: an identifier, a reserved word, a section name, a text (in outer or
    inner mode), or a code. Only `Fmt` and `Txt` tokens are appended by the parser itself.
   */
  datatype Token =
    | Ident(name: nat)
    | Res(name: nat)
    | Sec(name: nat)
    | Txt(text: nat)
    | InnerTxt(text: nat)
    | Fmt(code: Code, big: bool)

  /** An entry of scrap_info. */
  datatype Cell = Cell(cat: Cat, trans: nat, init: Math, end: Math)

  // ----- Texts and their expansions

  function PieceOf(t: Token, body: seq<seq<Piece>>): seq<Piece> {
    match t
    case Txt(u) => if u < |body| then body[u] else []
    case Fmt(c, big) => [Tok(c, big)]
    case _ => []
  }

  /** The expansion of a token list, given the expansions of the texts it mentions. */
  function Expand(toks: seq<Token>, body: seq<seq<Piece>>): seq<Piece> {
    if toks == [] then []
    else var last := |toks| - 1; Expand(toks[..last], body) + PieceOf(toks[last], body)
  }

  /** Only codes and texts older than `limit`. */
  predicate RefersBelow(toks: seq<Token>, limit: nat) {
    forall i :: 0 <= i < |toks| ==> toks[i].Fmt? || (toks[i].Txt? && toks[i].text < limit)
  }

  /** Text `limit` only mentions older texts. */
  predicate Older(toks: seq<Token>, limit: nat) {
    forall i :: 0 <= i < |toks| ==>
      && (toks[i].Txt? ==> toks[i].text < limit)
      && (toks[i].InnerTxt? ==> toks[i].text < limit)
  }

  /** Texts 0..n-1 lie inside the token memory and mention only older texts. */
  ghost predicate AllSliced(toks: seq<Token>, starts: seq<nat>, n: nat) {
    n < |starts| && forall t :: 0 <= t < n ==> Sliced(toks, starts, t)
  }

  /** Text `t` is a slice of the token memory and only mentions older texts. */
  predicate Sliced(toks: seq<Token>, starts: seq<nat>, t: nat)
    requires t + 1 < |starts|
  {
    starts[t] <= starts[t + 1] <= |toks| && Older(toks[starts[t]..starts[t + 1]], t)
  }

  /** Texts below `base` are original; each later one is made of codes and of older texts. */
  ghost predicate TextOK(toks: seq<Token>, starts: seq<nat>, body: seq<seq<Piece>>, base: nat,
                         t: nat)
    requires t + 1 < |starts| && t < |body|
  {
    && Sliced(toks, starts, t)
    && (if t < base then body[t] == [Leaf(t)]
        else && RefersBelow(toks[starts[t]..starts[t + 1]], t)
             && body[t] == Expand(toks[starts[t]..starts[t + 1]], body))
  }

  /** No text from `base` on is empty. */
  predicate Filled(starts: seq<nat>, base: nat) {
    forall t :: base <= t && t + 1 < |starts| ==> starts[t] < starts[t + 1]
  }

  /** `body` gives the expansion of every text; the open text starts at starts[|body|]. */
  ghost predicate Expansions(toks: seq<Token>, starts: seq<nat>, body: seq<seq<Piece>>, base: nat) {
    && base <= |body| && |starts| == |body| + 1
    && (forall t :: 0 <= t < |body| ==> TextOK(toks, starts, body, base, t))
    && starts[|body|] <= |toks|
    && RefersBelow(toks[starts[|body|]..], |body|)
  }

  lemma {:induction false} ExpandMoreTexts(toks: seq<Token>, body: seq<seq<Piece>>, x: seq<Piece>)
    requires RefersBelow(toks, |body|)
    ensures Expand(toks, body + [x]) == Expand(toks, body)
  {
    if toks != [] {
      ExpandMoreTexts(toks[..|toks| - 1], body, x);
    }
  }

  lemma ExpandOneMore(toks: seq<Token>, t: Token, body: seq<seq<Piece>>)
    ensures Expand(toks + [t], body) == Expand(toks, body) + PieceOf(t, body)
  {
    assert (toks + [t])[..|toks|] == toks;
  }

  lemma AppendToken(toks: seq<Token>, starts: seq<nat>, body: seq<seq<Piece>>, base: nat, t: Token)
    requires Expansions(toks, starts, body, base)
    requires t.Fmt? || (t.Txt? && t.text < |body|)
    ensures Expansions(toks + [t], starts, body, base)
    ensures Expand((toks + [t])[starts[|body|]..], body) ==
            Expand(toks[starts[|body|]..], body) + PieceOf(t, body)
  {
    hide Expand;
    forall u | 0 <= u < |body|
      ensures TextOK(toks + [t], starts, body, base, u)
    {
      assert TextOK(toks, starts, body, base, u);
      assert (toks + [t])[starts[u]..starts[u + 1]] == toks[starts[u]..starts[u + 1]];
    }
    hide TextOK;
    assert (toks + [t])[starts[|body|]..] == toks[starts[|body|]..] + [t];
    ExpandOneMore(toks[starts[|body|]..], t, body);
  }

  lemma FreezeText(toks: seq<Token>, starts: seq<nat>, body: seq<seq<Piece>>, base: nat)
    requires Expansions(toks, starts, body, base)
    ensures Expansions(toks, starts + [|toks|], body + [Expand(toks[starts[|body|]..], body)], base)
  {
    hide Expand, RefersBelow, TextOK;
    var n := |body|;
    var x := Expand(toks[starts[n]..], body);
    forall t | 0 <= t <= n
      ensures TextOK(toks, starts + [|toks|], body + [x], base, t)
    {
      FrozenText(toks, starts, body, base, t);
    }
    assert toks[(starts + [|toks|])[n + 1]..] == [];
    NoTokens(n + 1);
  }

  lemma NoTokens(limit: nat)
    ensures RefersBelow([], limit)
  {
  }

  lemma FrozenText(toks: seq<Token>, starts: seq<nat>, body: seq<seq<Piece>>, base: nat, t: nat)
    requires Expansions(toks, starts, body, base) && t <= |body|
    ensures TextOK(toks, starts + [|toks|], body + [Expand(toks[starts[|body|]..], body)], base, t)
  {
    hide Expand;
    var x := Expand(toks[starts[|body|]..], body);
    var hi := (starts + [|toks|])[t + 1];
    if t < |body| {
      assert TextOK(toks, starts, body, base, t);
    } else {
      assert toks[starts[t]..hi] == toks[starts[|body|]..];
    }
    if base <= t {
      ExpandMoreTexts(toks[starts[t]..hi], body, x);
    }
  }

  /** Tokens of original texts may change without touching any expansion. */
  lemma PatchOriginals(toks: seq<Token>, toks': seq<Token>, starts: seq<nat>, body: seq<seq<Piece>>,
                       base: nat)
    requires Expansions(toks, starts, body, base) && |toks'| == |toks|
    requires forall i :: starts[base] <= i < |toks| ==> toks'[i] == toks[i]
    requires Kept(toks, toks')
    ensures Expansions(toks', starts, body, base)
    ensures toks'[starts[|body|]..] == toks[starts[|body|]..]
  {
    hide Expand;
    StartsMonotone(toks, starts, body, base, base, |body|);
    forall t | 0 <= t < |body|
      ensures TextOK(toks', starts, body, base, t)
    {
      assert TextOK(toks, starts, body, base, t);
      var now, was := toks'[starts[t]..starts[t + 1]], toks[starts[t]..starts[t + 1]];
      assert forall i :: 0 <= i < |was| ==>
          was[i] == toks[starts[t] + i] && now[i] == toks'[starts[t] + i];
      if base <= t {
        StartsMonotone(toks, starts, body, base, base, t);
        assert now == was;
      }
    }
  }

  lemma {:induction false} StartsMonotone(toks: seq<Token>, starts: seq<nat>, body: seq<seq<Piece>>,
                                          base: nat, t: nat, u: nat)
    requires Expansions(toks, starts, body, base) && t <= u <= |body|
    ensures starts[t] <= starts[u]
    decreases u - t
  {
    hide Expand;
    if t < u {
      StartsMonotone(toks, starts, body, base, t, u - 1);
      assert TextOK(toks, starts, body, base, u - 1);
    }
  }

  /** From text `base` on there are no identifiers. */
  lemma NoIdentifiers(toks: seq<Token>, starts: seq<nat>, body: seq<seq<Piece>>, base: nat, i: nat)
    requires Expansions(toks, starts, body, base) && starts[base] <= i < |toks|
    ensures toks[i].Fmt? || toks[i].Txt?
  {
    hide Expand;
    if starts[|body|] <= i {
      assert toks[i] == toks[starts[|body|]..][i - starts[|body|]];
    } else {
      var t := base;
      while starts[t + 1] <= i
        invariant base <= t < |body| && starts[t] <= i
        decreases |body| - t
      {
        t := t + 1;
      }
      assert TextOK(toks, starts, body, base, t);
      assert toks[i] == toks[starts[t]..starts[t + 1]][i - starts[t]];
    }
  }

  /** An identifier of an original text may have become a reserved word of the same name. */
  ghost predicate Kept(before: seq<Token>, after: seq<Token>) {
    && |before| <= |after|
    && forall i :: 0 <= i < |before| ==>
         after[i] == before[i] || (before[i].Ident? && after[i] == Res(before[i].name))
  }

  function Conv(c: Cell, body: seq<seq<Piece>>): Scrap {
    Scrap(c.cat, c.init, c.end, if c.trans < |body| then body[c.trans] else [])
  }

  /** The search of find_first_ident through text p from token j on. */
  ghost function FirstIdent(toks: seq<Token>, starts: seq<nat>, p: nat, j: nat): (r: Found)
    requires AllSliced(toks, starts, p + 1)
    requires starts[p] <= j <= starts[p + 1]
    ensures r.At? ==> r.i < |toks| && (toks[r.i].Ident? || toks[r.i].Res?)
    decreases p, starts[p + 1] - j
  {
    if j == starts[p + 1] then Nowhere
    else
      assert Sliced(toks, starts, p);
      var t := toks[j];
      assert t == toks[starts[p]..starts[p + 1]][j - starts[p]];
      if t.Ident? || t.Res? then At(j)
      else
        var inside := if t.Txt? || t.InnerTxt? then
                        assert Sliced(toks, starts, t.text);
                        FirstIdent(toks, starts, t.text, starts[t.text])
                      else Nowhere;
        if inside.At? then inside
        else if t.Fmt? && t.code.Inserted? then Nowhere
        else FirstIdent(toks, starts, p, j + 1)
  }

  datatype Found = Nowhere | At(i: nat)

  predicate IsIdent(t: Token) {
    t.Ident? || t.Res?
  }

  /**
    The places of the tokens of text p from token j on, with the texts it mentions in place of their
    tokens, and each text cut off at its first `inserted`.
   */
  ghost function Flat(toks: seq<Token>, starts: seq<nat>, p: nat, j: nat): (r: seq<nat>)
    requires AllSliced(toks, starts, p + 1)
    requires starts[p] <= j <= starts[p + 1]
    ensures forall k :: 0 <= k < |r| ==> r[k] < |toks|
    decreases p, starts[p + 1] - j
  {
    if j == starts[p + 1] then []
    else
      assert Sliced(toks, starts, p);
      var t := toks[j];
      assert t == toks[starts[p]..starts[p + 1]][j - starts[p]];
      if t.Txt? || t.InnerTxt? then
        assert Sliced(toks, starts, t.text);
        Flat(toks, starts, t.text, starts[t.text]) + Flat(toks, starts, p, j + 1)
      else if t.Fmt? && t.code.Inserted? then []
      else [j] + Flat(toks, starts, p, j + 1)
  }

  /** Place k of the list is the first with an identifier or reserved word. */
  predicate FirstAt(toks: seq<Token>, places: seq<nat>, k: nat) {
    && k < |places| && places[k] < |toks| && IsIdent(toks[places[k]])
    && forall l :: 0 <= l < k ==> places[l] < |toks| && !IsIdent(toks[places[l]])
  }

  /** find_first_ident finds the first identifier of the flattened text, if there is one. */
  lemma {:induction false} FirstIdentIsFirst(toks: seq<Token>, starts: seq<nat>, p: nat, j: nat)
    requires AllSliced(toks, starts, p + 1)
    requires starts[p] <= j <= starts[p + 1]
    ensures var places := Flat(toks, starts, p, j);
            Finds(toks, places, FirstIdent(toks, starts, p, j))
    decreases p, starts[p + 1] - j
  {
    if j < starts[p + 1] {
      FirstIdentStep(toks, starts, p, j);
      var t := toks[j];
      if t.Txt? || t.InnerTxt? {
        FirstIdentIsFirst(toks, starts, t.text, starts[t.text]);
        FirstIdentIsFirst(toks, starts, p, j + 1);
        FirstOfTwo(toks, Flat(toks, starts, t.text, starts[t.text]), Flat(toks, starts, p, j + 1),
                   FirstIdent(toks, starts, t.text, starts[t.text]),
                   FirstIdent(toks, starts, p, j + 1));
      } else if !(t.Fmt? && t.code.Inserted?) {
        FirstIdentIsFirst(toks, starts, p, j + 1);
        if IsIdent(t) {
          assert FirstAt(toks, [j], 0);
        }
        FirstOfTwo(toks, [j], Flat(toks, starts, p, j + 1), if IsIdent(t) then At(j) else Nowhere,
                   FirstIdent(toks, starts, p, j + 1));
      }
    }
  }

  ghost predicate Finds(toks: seq<Token>, places: seq<nat>, r: Found)
    requires forall k :: 0 <= k < |places| ==> places[k] < |toks|
  {
    match r
    case Nowhere => forall k :: 0 <= k < |places| ==> !IsIdent(toks[places[k]])
    case At(i) => exists k: nat :: FirstAt(toks, places, k) && places[k] == i
  }

  lemma FirstOfTwo(toks: seq<Token>, a: seq<nat>, b: seq<nat>, ra: Found, rb: Found)
    requires forall k :: 0 <= k < |a| ==> a[k] < |toks|
    requires forall k :: 0 <= k < |b| ==> b[k] < |toks|
    requires Finds(toks, a, ra) && Finds(toks, b, rb)
    ensures Finds(toks, a + b, if ra.At? then ra else rb)
  {
    if ra.At? {
      var k: nat :| FirstAt(toks, a, k) && a[k] == ra.i;
      assert FirstAt(toks, a + b, k);
    } else if rb.At? {
      var k: nat :| FirstAt(toks, b, k) && b[k] == rb.i;
      assert FirstAt(toks, a + b, |a| + k);
    }
  }

  lemma FirstIdentStep(toks: seq<Token>, starts: seq<nat>, p: nat, j: nat)
    requires AllSliced(toks, starts, p + 1)
    requires starts[p] <= j < starts[p + 1]
    ensures j < |toks|
    ensures toks[j].Txt? ==> toks[j].text < p && Sliced(toks, starts, toks[j].text)
    ensures toks[j].InnerTxt? ==> toks[j].text < p && Sliced(toks, starts, toks[j].text)
    ensures FirstIdent(toks, starts, p, j) ==
            var t := toks[j];
            if t.Ident? || t.Res? then At(j)
            else
              var inside := if t.Txt? || t.InnerTxt?
                            then FirstIdent(toks, starts, t.text, starts[t.text]) else Nowhere;
              if inside.At? then inside
              else if t.Fmt? && t.code.Inserted? then Nowhere
              else FirstIdent(toks, starts, p, j + 1)
  {
    assert Sliced(toks, starts, p);
    assert toks[j] == toks[starts[p]..starts[p + 1]][j - starts[p]];
    if toks[j].Txt? || toks[j].InnerTxt? {
      assert Sliced(toks, starts, toks[j].text);
    }
  }

  lemma FirstIdentEnd(toks: seq<Token>, starts: seq<nat>, p: nat)
    requires AllSliced(toks, starts, p + 1)
    requires starts[p] <= starts[p + 1]
    ensures FirstIdent(toks, starts, p, starts[p + 1]) == Nowhere
  {
  }

  function Originals(n: nat): seq<seq<Piece>> {
    seq(n, t requires 0 <= t < n => [Leaf(t)])
  }

  lemma OneMoreOriginal(toks: seq<Token>, starts: seq<nat>, body: seq<seq<Piece>>, more: seq<Token>)
    requires Expansions(toks, starts, body, |body|) && starts[|body|] == |toks|
    requires Older(more, |body|)
    ensures Expansions(toks + more, starts + [|toks + more|], body + [[Leaf(|body|)]], |body| + 1)
  {
    var n, m := |body|, |body| + 1;
    var toks', starts', body' := toks + more, starts + [|toks + more|], body + [[Leaf(n)]];
    forall t | 0 <= t <= n
      ensures TextOK(toks', starts', body', m, t)
    {
      if t < n {
        assert TextOK(toks, starts, body, n, t);
        assert toks'[starts[t]..starts[t + 1]] == toks[starts[t]..starts[t + 1]];
      } else {
        assert toks'[starts'[n]..starts'[n + 1]] == more;
      }
    }
    assert toks'[starts'[n + 1]..] == [];
  }

  lemma SettleTexts(toks: seq<Token>, starts: seq<nat>, body: seq<seq<Piece>>, base: nat)
    requires Expansions(toks, starts, body, base) && starts[|body|] == |toks|
    ensures Expansions(toks, starts, Originals(|body|), |body|)
  {
    hide Expand;
    forall t | 0 <= t < |body|
      ensures TextOK(toks, starts, Originals(|body|), |body|, t)
    {
      assert TextOK(toks, starts, body, base, t);
    }
  }

  /** tok_mem and tok_start with the text under construction. */
  class Texts {
    const tok: array<Token>
    const start: array<nat>
    var tokPtr: nat
    var textPtr: nat
    var initMath: Math
    var curMath: Math
    ghost var body: seq<seq<Piece>>
    ghost var base: nat

    constructor (toks: nat, texts: nat)
      requires texts > 1
      ensures Valid() && fresh(tok) && fresh(start) && tok.Length == toks && start.Length == texts
      ensures body == [[Leaf(0)]] && Settled() && Open() == []
    {
      tok := new Token[toks](_ => Fmt(Noop, false));
      start := new nat[texts](_ => 0);
      tokPtr, textPtr, initMath, curMath := 0, 1, Maybe, Maybe;
      body, base := [[Leaf(0)]], 1;
      new;
      assert start[..textPtr + 1] == [0, 0] && tok[..tokPtr] == [];
    }

    /** tok_mem and tok_start are consistent with the expansions in `body`. */
    ghost predicate Valid()
      reads this, tok, start
    {
      && tokPtr <= tok.Length && textPtr < start.Length && |body| == textPtr
      && Expansions(tok[..tokPtr], start[..textPtr + 1], body, base)
    }

    /** Nothing was appended to the open text. */
    ghost predicate Closed()
      reads this, start
    {
      textPtr < start.Length && start[textPtr] == tokPtr
    }

    /** All texts are original ones: nothing was translated since the last `Settle`. */
    ghost predicate Settled()
      reads this, tok, start
    {
      Valid() && Closed() && base == textPtr
    }

    /** The expansion of the open text. */
    ghost function Open(): seq<Piece>
      requires Valid()
      reads this, tok, start
    {
      Expand(tok[..tokPtr][start[textPtr]..], body)
    }

    ghost function Drafted(): Draft
      requires Valid()
      reads this, tok, start
    {
      Draft(initMath, curMath, Open())
    }

    /** app, and each character of app_str. */
    method App(t: Token) returns (ok: bool)
      requires Valid()
      requires t.Fmt? || (t.Txt? && t.text < textPtr)
      modifies tok, `tokPtr
      ensures Valid() && tokPtr >= old(tokPtr) && tok[..old(tokPtr)] == old(tok[..tokPtr])
      ensures ok ==> tokPtr > old(tokPtr)
      ensures ok ==> Open() == old(Open()) + PieceOf(t, body)
      ensures !ok ==> tokPtr == tok.Length
    {
      if tokPtr >= tok.Length {
        return false;
      }
      ghost var before := tok[..tokPtr];
      AppendToken(before, start[..textPtr + 1], body, base, t);
      tok[tokPtr] := t;
      tokPtr := tokPtr + 1;
      assert tok[..tokPtr] == before + [t];
      return true;
    }

    method AppCode(c: Code) returns (ok: bool)
      requires Valid()
      modifies tok, `tokPtr
      ensures Valid() && tokPtr >= old(tokPtr) && tok[..old(tokPtr)] == old(tok[..tokPtr])
      ensures ok ==> tokPtr > old(tokPtr)
      ensures ok ==> Open() == old(Open()) + [Tok(c, false)]
      ensures !ok ==> tokPtr == tok.Length
    {
      ok := App(Fmt(c, false));
    }

    /** The mode switch at the head of big_app and big_app1, towards mode `m`. */
    method SwitchTo(m: Math) returns (ok: bool)
      requires Valid() && !m.Maybe?
      modifies tok, `tokPtr, `initMath, `curMath
      ensures Valid() && tokPtr >= old(tokPtr) && tok[..old(tokPtr)] == old(tok[..tokPtr])
      ensures ok ==> Drafted() == Switch(old(Drafted()), m)
      ensures !ok ==> tokPtr == tok.Length
    {
      hide Expansions, Expand;
      ok := true;
      if curMath.Maybe? {
        initMath := m;
      } else if curMath != m {
        ghost var out := Open();
        var first := if m.No? then Char('{') else Char('$');
        var second := if m.No? then Char('}') else Char('{');
        var third := if m.No? then Char('$') else Char('}');
        ghost var n, before := tokPtr, tok[..tokPtr];
        ok := AppCode(first);
        if !ok { return; }
        ghost var n1 := tokPtr;
        ok := AppCode(second);
        assert tok[..n] == tok[..n1][..n] == before;
        if !ok { return; }
        ghost var n2 := tokPtr;
        ok := AppCode(third);
        assert tok[..n] == tok[..n2][..n] == before;
        if !ok { return; }
        assert Open() == out + [Tok(first, false), Tok(second, false), Tok(third, false)];
      }
      curMath := m;
    }

    method BigApp(c: Code) returns (ok: bool)
      requires Valid()
      modifies tok, `tokPtr, `initMath, `curMath
      ensures Valid() && tokPtr >= old(tokPtr) && tok[..old(tokPtr)] == old(tok[..tokPtr])
      ensures ok ==> tokPtr > old(tokPtr)
      ensures ok ==> Drafted() == Rewriting.BigApp(old(Drafted()), c)
      ensures !ok ==> tokPtr == tok.Length
    {
      hide Expansions, Expand;
      ok := SwitchTo(ModeOf(c));
      if ok {
        ok := App(Fmt(c, true));
      }
    }

    method BigApp1(a: Cell) returns (ok: bool)
      requires Valid() && a.trans < textPtr
      modifies tok, `tokPtr, `initMath, `curMath
      ensures Valid() && tokPtr >= old(tokPtr) && tok[..old(tokPtr)] == old(tok[..tokPtr])
      ensures ok ==> tokPtr > old(tokPtr)
      ensures ok ==> Drafted() == Rewriting.BigApp1(old(Drafted()), Conv(a, body))
      ensures !ok ==> tokPtr == tok.Length
    {
      hide Expansions, Expand;
      ok := true;
      if !a.init.Maybe? {
        ok := SwitchTo(a.init);
        if !ok { return; }
        curMath := a.end;
      }
      ok := App(Txt(a.trans));
    }

    method FindFirstIdent(p: nat) returns (r: Found)
      requires Valid() && p < textPtr
      ensures AllSliced(tok[..tokPtr], start[..textPtr + 1], p + 1) && start[p] <= start[p + 1]
      ensures r == FirstIdent(tok[..tokPtr], start[..textPtr + 1], p, start[p])
      decreases p
    {
      ghost var toks, starts := tok[..tokPtr], start[..textPtr + 1];
      hide FirstIdent, Expand, RefersBelow;
      forall t | 0 <= t < textPtr
        ensures Sliced(toks, starts, t)
      {
        assert TextOK(toks, starts, body, base, t);
      }
      assert Sliced(toks, starts, p);
      hide TextOK, Expansions, Sliced;
      var j := start[p];
      while j < start[p + 1]
        invariant start[p] <= j <= start[p + 1]
        invariant FirstIdent(toks, starts, p, j) == FirstIdent(toks, starts, p, start[p])
        decreases start[p + 1] - j
      {
        FirstIdentStep(toks, starts, p, j);
        match tok[j] {
          case Ident(_) => return At(j);
          case Res(_) => return At(j);
          case Txt(u) =>
            r := FindFirstIdent(u);
            if r.At? { return; }
          case InnerTxt(u) =>
            r := FindFirstIdent(u);
            if r.At? { return; }
          case Sec(_) =>
          case Fmt(c, _) => if c.Inserted? { return Nowhere; }
        }
        j := j + 1;
      }
      FirstIdentEnd(toks, starts, p);
      r := Nowhere;
    }

    /** freeze_text: the open text becomes text number textPtr. */
    method Freeze()
      requires Valid() && textPtr + 1 < start.Length
      modifies start, `textPtr, `body
      ensures Valid() && textPtr == old(textPtr) + 1
      ensures body == old(body) + [old(Open())] && Open() == [] && Closed()
      ensures start[..textPtr + 1] == old(start[..textPtr + 1]) + [tokPtr]
    {
      ghost var starts := start[..textPtr + 1];
      FreezeText(tok[..tokPtr], starts, body, base);
      hide Expansions;
      body := body + [Open()];
      textPtr := textPtr + 1;
      start[textPtr] := tokPtr;
      assert start[..textPtr + 1] == starts + [tokPtr];
      assert tok[..tokPtr][start[textPtr]..] == [];
    }

    /** Appends of C_parse or outer_parse with the freeze_text that follows: an original text. */
    method AppOriginal(toks: seq<Token>) returns (ok: bool)
      requires Settled() && Older(toks, textPtr)
      modifies tok, start, `tokPtr, `textPtr, `body, `base
      ensures ok <==> old(tokPtr) + |toks| <= tok.Length && old(textPtr) + 1 < start.Length
      ensures Settled()
      ensures ok ==> textPtr == old(textPtr) + 1 && body == old(body) + [[Leaf(old(textPtr))]]
      ensures ok ==> tok[..tokPtr] == old(tok[..tokPtr]) + toks
      ensures ok ==> start[..textPtr + 1] == old(start[..textPtr + 1]) + [tokPtr]
      ensures !ok ==> textPtr == old(textPtr) && tokPtr == old(tokPtr) && body == old(body)
    {
      if tokPtr + |toks| > tok.Length || textPtr + 1 >= start.Length {
        return false;
      }
      ghost var before, starts := tok[..tokPtr], start[..textPtr + 1];
      hide Expansions, Older;
      var i := 0;
      while i < |toks|
        invariant 0 <= i <= |toks| && tokPtr == old(tokPtr) + i
        invariant tok[..tokPtr] == before + toks[..i]
        modifies tok, `tokPtr
      {
        tok[tokPtr] := toks[i];
        tokPtr := tokPtr + 1;
        i := i + 1;
      }
      assert toks[..i] == toks;
      OneMoreOriginal(before, starts, body, toks);
      body := body + [[Leaf(textPtr)]];
      textPtr := textPtr + 1;
      base := textPtr;
      start[textPtr] := tokPtr;
      assert start[..textPtr + 1] == starts + [tokPtr];
      ok := true;
    }

    /**
      From here on the texts made so far count as original: a translation is not looked into by
      later ones. Only the view of the memories changes.
     */
    ghost method Settle()
      requires Valid() && Closed()
      modifies `body, `base
      ensures Settled() && Open() == []
      ensures body == Originals(textPtr)
    {
      SettleTexts(tok[..tokPtr], start[..textPtr + 1], body, base);
      hide Expansions;
      body := Originals(textPtr);
      base := textPtr;
      assert tok[..tokPtr][start[textPtr]..] == [];
    }
  }
}
