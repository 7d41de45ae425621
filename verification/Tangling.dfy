/**
  CTANGLE from end to end: the bytes of the replacement texts are decoded, expanded and written, and
  what comes out is the layout of the tokens that the recursive substitution of the scanned texts
  gives.
 */
module Tangling {
  import opened ByteCodes
  import opened Chains
  import opened Expander
  import opened ExpanderTheorems
  import C = TokenCodec
  import W = OutChar

  // ----- A program whose tokens are split into smaller ones

  function Split<A, B>(h: A -> seq<B>, tok: Tok<A>): seq<Tok<B>> {
    match tok
    case Ref(p) => [Ref(p)]
    case Begin(n) => [Begin(n)]
    case Defs => [Defs]
    case Other(x) => Others(h(x))
  }

  function Others<B>(xs: seq<B>): (toks: seq<Tok<B>>)
    ensures |toks| == |xs|
  {
    seq(|xs|, i requires 0 <= i < |xs| => Other(xs[i]))
  }

  function SplitAll<A, B>(h: A -> seq<B>, toks: seq<Tok<A>>): seq<Tok<B>> {
    if toks == [] then []
    else SplitAll(h, toks[..|toks| - 1]) + Split(h, toks[|toks| - 1])
  }

  function Items<B>(xs: seq<B>): (outs: seq<Out<B>>)
    ensures |outs| == |xs|
  {
    seq(|xs|, i requires 0 <= i < |xs| => Item(xs[i]))
  }

  function SplitOut<A, B>(h: A -> seq<B>, o: Out<A>): seq<Out<B>> {
    match o
    case Mark(n) => [Mark(n)]
    case EndMark(n) => [EndMark(n)]
    case Macros => [Macros]
    case Missing(p) => [Missing(p)]
    case Item(x) => Items(h(x))
  }

  function SplitOuts<A, B>(h: A -> seq<B>, outs: seq<Out<A>>): seq<Out<B>> {
    if outs == [] then [] else SplitOut(h, outs[0]) + SplitOuts(h, outs[1..])
  }

  lemma {:induction false} SplitOutsConcat<A, B>(h: A -> seq<B>, a: seq<Out<A>>, b: seq<Out<A>>)
    ensures SplitOuts(h, a + b) == SplitOuts(h, a) + SplitOuts(h, b)
  {
    if a == [] {
      assert a + b == b;
    } else {
      assert (a + b)[0] == a[0] && (a + b)[1..] == a[1..] + b;
      SplitOutsConcat(h, a[1..], b);
    }
  }

  lemma SplitOutsOne<A, B>(h: A -> seq<B>, o: Out<A>)
    ensures SplitOuts(h, [o]) == SplitOut(h, o) && SplitOuts(h, []) == []
  {
    assert [o][1..] == [];
  }

  /** p2 is p1 with every token that is passed on split up. */
  ghost predicate Refines<A, B>(p1: Program<A>, p2: Program<B>, h: A -> seq<B>) {
    && p2.link == p1.link && p2.equiv == p1.equiv && |p2.texts| == |p1.texts|
    && forall t :: 0 <= t < |p1.texts| ==> p2.texts[t] == SplitAll(h, p1.texts[t])
  }

  lemma {:induction false} SplitRefs<A, B>(h: A -> seq<B>, toks: seq<Tok<A>>, i: nat)
    requires i < |SplitAll(h, toks)| && SplitAll(h, toks)[i].Ref?
    ensures SplitAll(h, toks)[i].name in set k | 0 <= k < |toks| && toks[k].Ref? :: toks[k].name
  {
    var last := |toks| - 1;
    var front := SplitAll(h, toks[..last]);
    if i < |front| {
      SplitRefs(h, toks[..last], i);
      var k :| 0 <= k < last && toks[..last][k].Ref? && toks[..last][k].name == front[i].name;
      assert toks[k].Ref? && toks[k].name == SplitAll(h, toks)[i].name;
    } else {
      assert Split(h, toks[last])[i - |front|].Ref?;
      assert toks[last].Ref? && toks[last].name == SplitAll(h, toks)[i].name;
    }
  }

  lemma RefinesCode<A, B>(p1: Program<A>, p2: Program<B>, h: A -> seq<B>, code: set<nat>)
    requires Code(p1, code) && Refines(p1, p2, h)
    ensures Code(p2, code)
  {
    hide SplitAll;
    forall t, i | t in code && 0 <= i < |p2.texts[t]| && p2.texts[t][i].Ref?
      ensures p2.texts[t][i].name < |p2.equiv|
    {
      SplitRefs(h, p1.texts[t], i);
    }
  }

  /** Where token pos of a text is after splitting. */
  function Place<A, B>(h: A -> seq<B>, toks: seq<Tok<A>>, pos: nat): nat
    requires pos <= |toks|
  {
    |SplitAll(h, toks[..pos])|
  }

  lemma {:induction false} SplitFront<A, B>(h: A -> seq<B>, toks: seq<Tok<A>>, pos: nat)
    requires pos <= |toks|
    ensures SplitAll(h, toks[..pos]) <= SplitAll(h, toks)
    decreases |toks|
  {
    if pos < |toks| {
      SplitFront(h, toks[..|toks| - 1], pos);
      assert toks[..|toks| - 1][..pos] == toks[..pos];
    } else {
      assert toks[..pos] == toks;
    }
  }

  /** Token pos gives way to its parts. */
  lemma PlaceNext<A, B>(h: A -> seq<B>, toks: seq<Tok<A>>, pos: nat)
    requires pos <= |toks|
    ensures Place(h, toks, pos) <= |SplitAll(h, toks)|
    ensures pos == |toks| ==> Place(h, toks, pos) == |SplitAll(h, toks)|
    ensures pos < |toks| ==>
              var (a, parts) := (Place(h, toks, pos), Split(h, toks[pos]));
              && Place(h, toks, pos + 1) == a + |parts| <= |SplitAll(h, toks)|
              && SplitAll(h, toks)[a..a + |parts|] == parts
  {
    hide SplitAll, Split;
    SplitFront(h, toks, pos);
    if pos == |toks| {
      assert toks[..pos] == toks;
    } else {
      SplitFront(h, toks, pos + 1);
      SplitAllMore(h, toks[..pos], toks[pos]);
      assert toks[..pos] + [toks[pos]] == toks[..pos + 1];
    }
  }

  /** Tokens that are passed on come out as they are. */
  lemma {:induction false} OthersOut<B>(pg: Program<B>, code: set<nat>, t: nat, pos: nat, sec: nat,
                                        room: nat, xs: seq<B>)
    requires Code(pg, code) && t in code && pos + |xs| <= |pg.texts[t]|
    requires pg.texts[t][pos..pos + |xs|] == Others(xs)
    ensures var (here, next) := (Expand(pg, code, t, pos, sec, room),
                                 Expand(pg, code, t, pos + |xs|, sec, room));
            here.out == Items(xs) + next.out && here.over == next.over
    decreases |xs|
  {
    hide Expand, Items;
    NoItems<B>();
    if xs != [] {
      var toks, rest := pg.texts[t], xs[1..];
      assert toks[pos] == toks[pos..pos + |xs|][0] == Other(xs[0]);
      OthersRest(xs);
      assert toks[pos + 1..pos + |xs|] == toks[pos..pos + |xs|][1..];
      OtherStep(pg, code, t, pos, sec, room, xs[0]);
      OthersOut(pg, code, t, pos + 1, sec, room, rest);
      ItemsFirst(xs);
    }
  }

  lemma NoItems<B>()
    ensures Items<B>([]) == []
  {
  }

  lemma ItemsFirst<B>(xs: seq<B>)
    requires xs != []
    ensures Items(xs) == [Item(xs[0])] + Items(xs[1..])
  {
  }

  lemma OthersRest<B>(xs: seq<B>)
    requires xs != []
    ensures Others(xs)[1..] == Others(xs[1..])
  {
  }

  lemma OtherStep<B>(pg: Program<B>, code: set<nat>, t: nat, pos: nat, sec: nat, room: nat, x: B)
    requires Code(pg, code) && t in code && pos < |pg.texts[t]| && pg.texts[t][pos] == Other(x)
    ensures var (here, next) := (Expand(pg, code, t, pos, sec, room),
                                 Expand(pg, code, t, pos + 1, sec, room));
            here.out == [Item(x)] + next.out && here.over == next.over
  {
  }

  /** The results are the same up to splitting. */
  ghost predicate Same<A, B>(h: A -> seq<B>, a: Res<A>, b: Res<B>) {
    b.out == SplitOuts(h, a.out) && b.over == a.over
  }

  lemma SameThen<A, B>(h: A -> seq<B>, a1: Res<A>, a2: Res<A>, b1: Res<B>, b2: Res<B>)
    requires Same(h, a1, b1) && (!a1.over ==> Same(h, a2, b2))
    ensures Same(h, Then(a1, a2), Then(b1, b2))
  {
    SplitOutsConcat(h, a1.out, a2.out);
  }

  lemma SameEmit<A, B>(h: A -> seq<B>, o: Out<A>, b: Out<B>)
    requires SplitOut(h, o) == [b]
    ensures Same(h, Emit([o]), Emit([b])) && Same(h, Emit<A>([]), Emit<B>([]))
  {
    SplitOutsOne(h, o);
  }

  /** Expanding the program with the split tokens gives the split output, and overflows alike. */
  lemma {:induction false} ExpandSplit<A, B>(p1: Program<A>, p2: Program<B>, h: A -> seq<B>,
                                             code: set<nat>, t: nat, pos: nat, sec: nat, room: nat)
    requires Code(p1, code) && Code(p2, code) && Refines(p1, p2, h)
    requires t in code && pos <= |p1.texts[t]|
    ensures var at := Place(h, p1.texts[t], pos);
            && at <= |p2.texts[t]|
            && Same(h, Expand(p1, code, t, pos, sec, room), Expand(p2, code, t, at, sec, room))
    decreases room, SECTION_FLAG - t, |p1.texts[t]| - pos
  {
    hide SplitAll, Same, Place, Split, Others, Items, SplitOuts, Expand;
    var at := Place(h, p1.texts[t], pos);
    PlaceNext(h, p1.texts[t], pos);
    if pos == |p1.texts[t]| {
      if p1.link[t] < SECTION_FLAG {
        ExpandSplit(p1, p2, h, code, p1.link[t], 0, sec, room);
        PlaceZero(h, p1.texts[p1.link[t]]);
      }
      EndSplit(p1, p2, h, code, t, sec, room);
    } else {
      var tok := p1.texts[t][pos];
      var sec' := if tok.Begin? then tok.n else sec;
      var next := Place(h, p1.texts[t], pos + 1);
      ExpandSplit(p1, p2, h, code, t, pos + 1, sec', room);
      if tok.Other? {
        SplitOther(h, tok.x);
        OthersOut(p2, code, t, at, sec, room, h(tok.x));
        OtherThen(p1, code, t, pos, sec, room, tok.x);
        SameItem(h, tok.x, Expand(p1, code, t, pos + 1, sec, room),
                 Expand(p2, code, t, next, sec, room), Expand(p2, code, t, at, sec, room));
      } else {
        SplitSingle(h, p2.texts[t], at, tok);
        if tok.Ref? && p1.equiv[tok.name] != 0 && room > 0 {
          ExpandSplit(p1, p2, h, code, p1.equiv[tok.name], 0, 0, room - 1);
          PlaceZero(h, p1.texts[p1.equiv[tok.name]]);
        }
        SingleSplit(p1, p2, h, code, t, pos, at, sec, room);
      }
    }
  }

  lemma OtherThen<A>(pg: Program<A>, code: set<nat>, t: nat, pos: nat, sec: nat, room: nat, x: A)
    requires Code(pg, code) && t in code && pos < |pg.texts[t]| && pg.texts[t][pos] == Other(x)
    ensures Expand(pg, code, t, pos, sec, room) ==
            Then(Emit([Item(x)]), Expand(pg, code, t, pos + 1, sec, room))
  {
  }

  /** The step at the end of a text. */
  lemma EndSplit<A, B>(p1: Program<A>, p2: Program<B>, h: A -> seq<B>, code: set<nat>, t: nat,
                       sec: nat, room: nat)
    requires Code(p1, code) && Code(p2, code) && p2.link == p1.link && t in code
    requires p1.link[t] < SECTION_FLAG ==>
               Same(h, Expand(p1, code, p1.link[t], 0, sec, room),
                    Expand(p2, code, p1.link[t], 0, sec, room))
    ensures Same(h, Expand(p1, code, t, |p1.texts[t]|, sec, room),
                 Expand(p2, code, t, |p2.texts[t]|, sec, room))
  {
    hide Same;
    EmitMark(h, EndMark(sec));
    if p1.link[t] < SECTION_FLAG {
      var u := p1.link[t];
      SameThen(h, Emit(if sec > 0 then [EndMark(sec)] else []), Expand(p1, code, u, 0, sec, room),
               Emit(if sec > 0 then [EndMark(sec)] else []), Expand(p2, code, u, 0, sec, room));
    }
  }

  /** The step for a token that is not split. */
  lemma SingleSplit<A, B>(p1: Program<A>, p2: Program<B>, h: A -> seq<B>, code: set<nat>, t: nat,
                          pos: nat, at: nat, sec: nat, room: nat)
    requires Code(p1, code) && Code(p2, code) && p2.link == p1.link && p2.equiv == p1.equiv
    requires t in code && pos < |p1.texts[t]| && at < |p2.texts[t]| && !p1.texts[t][pos].Other?
    requires p2.texts[t][at] == Split(h, p1.texts[t][pos])[0]
    requires var tok := p1.texts[t][pos];
             var sec' := if tok.Begin? then tok.n else sec;
             && Same(h, Expand(p1, code, t, pos + 1, sec', room),
                     Expand(p2, code, t, at + 1, sec', room))
             && (tok.Ref? && p1.equiv[tok.name] != 0 && room > 0 ==>
                   Same(h, Expand(p1, code, p1.equiv[tok.name], 0, 0, room - 1),
                        Expand(p2, code, p1.equiv[tok.name], 0, 0, room - 1)))
    ensures Same(h, Expand(p1, code, t, pos, sec, room), Expand(p2, code, t, at, sec, room))
  {
    hide Same, SplitOuts;
    var rest1, rest2 := Expand(p1, code, t, pos + 1, sec, room), Expand(p2, code, t, at + 1, sec, room);
    NothingSame(h);
    match p1.texts[t][pos]
    case Ref(p) =>
      if p1.equiv[p] == 0 {
        EmitMark(h, Missing(p));
        SameThen(h, Emit(if p != 0 then [Missing(p)] else []), rest1,
                 Emit(if p != 0 then [Missing(p)] else []), rest2);
      } else if room > 0 {
        var in1 := Expand(p1, code, p1.equiv[p], 0, 0, room - 1);
        var in2 := Expand(p2, code, p1.equiv[p], 0, 0, room - 1);
        EmitMark(h, Macros);
        SameThen(h, Emit([]), in1, Emit([]), in2);
        SameThen(h, Then(Emit([]), in1), rest1, Then(Emit([]), in2), rest2);
      }
    case Begin(n) =>
      EmitMark(h, Mark(n));
      SameThen(h, Emit([Mark(n)]), Expand(p1, code, t, pos + 1, n, room), Emit([Mark(n)]),
               Expand(p2, code, t, at + 1, n, room));
    case Defs =>
      EmitMark(h, Macros);
      if room > 0 {
        SameThen(h, Emit([Macros]), rest1, Emit([Macros]), rest2);
      }
  }

  lemma NothingSame<A, B>(h: A -> seq<B>)
    ensures Same(h, Cut<A>(), Cut<B>())
  {
  }

  /** What a token gives that overflows the stack. */
  function Cut<T>(): Res<T> {
    Res([], true, 1)
  }

  /** An output that is not split. */
  lemma EmitMark<A, B>(h: A -> seq<B>, o: Out<A>)
    requires !o.Item?
    ensures var b: Out<B> := SplitOut(h, o)[0];
            && SplitOut(h, o) == [b]
            && Same(h, Emit([o]), Emit([b])) && Same(h, Emit<A>([]), Emit<B>([]))
  {
    SameEmit(h, o, SplitOut(h, o)[0]);
  }

  lemma PlaceZero<A, B>(h: A -> seq<B>, toks: seq<Tok<A>>)
    ensures Place(h, toks, 0) == 0
  {
  }

  lemma SplitOther<A, B>(h: A -> seq<B>, x: A)
    ensures Split(h, Other(x)) == Others(h(x)) && |Others(h(x))| == |h(x)|
  {
  }

  lemma SplitSingle<A, B>(h: A -> seq<B>, all: seq<Tok<B>>, at: nat, tok: Tok<A>)
    requires !tok.Other? && at + |Split(h, tok)| <= |all|
    requires all[at..at + |Split(h, tok)|] == Split(h, tok)
    ensures |Split(h, tok)| == 1 && all[at] == Split(h, tok)[0]
  {
    assert all[at] == all[at..at + 1][0];
  }

  lemma SameItem<A, B>(h: A -> seq<B>, x: A, rest1: Res<A>, rest2: Res<B>, all2: Res<B>)
    requires Same(h, rest1, rest2)
    requires all2.out == Items(h(x)) + rest2.out && all2.over == rest2.over
    ensures Same(h, Then(Emit([Item(x)]), rest1), all2)
  {
    SplitOutsConcat(h, [Item(x)], rest1.out);
    SplitOutsOne(h, Item(x));
  }

  // ----- The bytes of the replacement texts

  function ItemTok(it: C.Item): Tok<C.Item> {
    match it
    case Ref(a) => Ref(a)
    case Number(n) => Begin(n)
    case Defs => Defs
    case _ => Other(it)
  }

  function EventTok(e: C.Event): Tok<C.Event> {
    match e
    case Section(a) => Ref(a)
    case Begin(n) => Begin(n)
    case CallDefs => Defs
    case _ => Other(e)
  }

  function ItemToks(items: seq<C.Item>): (toks: seq<Tok<C.Item>>)
    ensures |toks| == |items|
  {
    seq(|items|, i requires 0 <= i < |items| => ItemTok(items[i]))
  }

  function EventToks(es: seq<C.Event>): (toks: seq<Tok<C.Event>>)
    ensures |toks| == |es|
  {
    seq(|es|, i requires 0 <= i < |es| => EventTok(es[i]))
  }

  /** The tokens that get_output sees in the bytes of a text. */
  function Read(bytes: seq<Byte>): seq<Tok<C.Event>> {
    EventToks(C.Decode(bytes, false))
  }

  lemma SplitAllMore<A, B>(h: A -> seq<B>, toks: seq<Tok<A>>, tok: Tok<A>)
    ensures SplitAll(h, toks + [tok]) == SplitAll(h, toks) + Split(h, tok)
  {
    assert (toks + [tok])[..|toks|] == toks;
  }

  lemma {:induction false} SplitAllFirst<A, B>(h: A -> seq<B>, tok: Tok<A>, toks: seq<Tok<A>>)
    ensures SplitAll(h, [tok] + toks) == Split(h, tok) + SplitAll(h, toks)
    decreases |toks|
  {
    hide Split;
    if toks == [] {
      SplitAllMore(h, [], tok);
      assert [] + [tok] == [tok] + toks;
    } else {
      var front, last := toks[..|toks| - 1], toks[|toks| - 1];
      hide SplitAll;
      SplitAllFirst(h, tok, front);
      SplitAllMore(h, [tok] + front, last);
      SplitAllMore(h, front, last);
      assert [tok] + front + [last] == [tok] + toks && front + [last] == toks;
    }
  }

  /** The events of an item are its parts. */
  lemma MeaningSplits(it: C.Item)
    ensures EventToks(C.Meaning(it)) == Split(C.Meaning, ItemTok(it))
  {
    if it.Quoted? {
      BodyPlain(it.body);
      var es := C.Meaning(it);
      forall i | 0 <= i < |es|
        ensures EventTok(es[i]) == Other(es[i])
      {
        assert i != 0 && i != |es| - 1 ==> es[i] == C.Body(it.body)[i - 1];
      }
    }
  }

  lemma {:induction false} BodyPlain(body: seq<Byte>)
    ensures forall i :: 0 <= i < |C.Body(body)| ==> C.Body(body)[i].Char? || C.Body(body)[i].Raw?
  {
    if body != [] {
      BodyPlain(body[1..]);
    }
  }

  lemma {:induction false} MeaningAllSplits(items: seq<C.Item>)
    ensures EventToks(C.MeaningAll(items)) == SplitAll(C.Meaning, ItemToks(items))
  {
    if items != [] {
      var it, rest := items[0], items[1..];
      MeaningAllSplits(rest);
      MeaningSplits(it);
      SplitAllFirst(C.Meaning, ItemTok(it), ItemToks(rest));
      assert ItemToks(items) == [ItemTok(it)] + ItemToks(rest);
      EventsConcat(C.Meaning(it), C.MeaningAll(rest));
    }
  }

  lemma EventsConcat(a: seq<C.Event>, b: seq<C.Event>)
    ensures EventToks(a + b) == EventToks(a) + EventToks(b)
  {
  }

  /** Items that scan_repl may append: sizes in range, and no quote byte inside a string. */
  predicate Scannable(it: C.Item) {
    C.Sized(it) && C.Clean(it)
  }

  /** The scanned texts, with the links of their chains and the heads of the sections. */
  datatype Source = Source(texts: seq<seq<C.Item>>, link: seq<nat>, equiv: seq<nat>)

  /** The program as scanned. */
  function Meant(src: Source): (pg: Program<C.Item>)
    ensures |pg.texts| == |src.texts|
  {
    Program(seq(|src.texts|, t requires 0 <= t < |src.texts| => ItemToks(src.texts[t])), src.link,
            src.equiv)
  }

  /** The program as read back from tok_mem. */
  function Stored(src: Source): (pg: Program<C.Event>)
    ensures |pg.texts| == |src.texts|
  {
    Program(seq(|src.texts|, t requires 0 <= t < |src.texts| => Read(C.EncodeAll(src.texts[t]))),
            src.link, src.equiv)
  }

  ghost predicate AllScannable(src: Source) {
    forall t, i :: 0 <= t < |src.texts| && 0 <= i < |src.texts[t]| ==> Scannable(src.texts[t][i])
  }

  /** What is read back is what was scanned, in smaller pieces. */
  lemma StoredRefines(src: Source)
    requires AllScannable(src)
    ensures Refines(Meant(src), Stored(src), C.Meaning)
  {
    forall t | 0 <= t < |src.texts|
      ensures Stored(src).texts[t] == SplitAll(C.Meaning, Meant(src).texts[t])
    {
      var items := src.texts[t];
      assert forall it :: it in items ==> C.Sized(it) && C.Clean(it);
      C.RoundTrip(items);
      MeaningAllSplits(items);
    }
  }

  // ----- Section texts

  /** scan_section stores the section's number; scan_repl adds no other. */
  predicate SectionText(items: seq<C.Item>) {
    && items != [] && items[0].Number? && items[0].n > 0
    && forall i :: 0 < i < |items| ==> !items[i].Number?
  }

  lemma {:induction false} SplitBegins<A, B>(h: A -> seq<B>, toks: seq<Tok<A>>)
    requires WellMarked(toks)
    ensures WellMarked(SplitAll(h, toks)) && SplitAll(h, toks)[0] == Begin(toks[0].n)
    decreases |toks|
  {
    var last := |toks| - 1;
    assert toks[..last] + [toks[last]] == toks;
    if last == 0 {
      assert toks[..0] == [] && SplitAll(h, toks[..0]) == [];
    } else {
      SplitBegins(h, toks[..last]);
      var front, parts := SplitAll(h, toks[..last]), Split(h, toks[last]);
      assert forall i :: 0 <= i < |parts| ==> !parts[i].Begin?;
    }
  }

  /** So each text starts with its number and has no other when it is read back. */
  lemma StoredMarked(src: Source, t: nat)
    requires AllScannable(src) && t < |src.texts| && SectionText(src.texts[t])
    ensures WellMarked(Stored(src).texts[t])
    ensures Stored(src).texts[t][0] == Begin(src.texts[t][0].n)
  {
    StoredRefines(src);
    SplitBegins(C.Meaning, ItemToks(src.texts[t]));
  }

  /** The marks in what comes out of the stored texts are properly nested. */
  lemma StoredNests(src: Source, code: set<nat>, s: nat, room: nat)
    requires AllScannable(src) && Code(Meant(src), code) && s in code
    requires forall t :: t in code ==> SectionText(src.texts[t])
    ensures Code(Stored(src), code)
    ensures Nests(Expand(Stored(src), code, s, 0, 0, room), [], [])
  {
    hide Nests, Expand, WellMarked, SectionText;
    StoredRefines(src);
    RefinesCode(Meant(src), Stored(src), C.Meaning, code);
    forall t | t in code
      ensures WellMarked(Stored(src).texts[t])
    {
      StoredMarked(src, t);
    }
    ExpandNests(Stored(src), code, s, 0, 0, room, []);
  }

  // ----- The characters that are written

  /** What names, marks and lines are written as, and the macro definitions. */
  datatype Style = Style(name: nat -> seq<Byte>, begin: nat -> seq<Byte>, end: nat -> seq<Byte>,
                         line: (nat, int) -> seq<Byte>, macros: seq<W.Token>)

  function EventActs(st: Style, e: C.Event): seq<W.Act> {
    match e
    case Name(a) => [W.Name(st.name(a))]
    case LineMark(line, file) => [W.Comment(st.line(line, file))]
    case Raw(b) => [W.Raw(b)]
    case Char(b) => [W.Code(b)]
    case _ => []
  }

  /** What get_output does with an output of the expander. */
  function OutActs(st: Style, o: Out<C.Event>): seq<W.Act> {
    match o
    case Mark(n) => [W.Comment(st.begin(n))]
    case EndMark(n) => [W.Comment(st.end(n))]
    case Macros => W.ActsAll(st.macros)
    case Missing(_) => []
    case Item(e) => EventActs(st, e)
  }

  function AllActs(st: Style, outs: seq<Out<C.Event>>): seq<W.Act> {
    if outs == [] then [] else OutActs(st, outs[0]) + AllActs(st, outs[1..])
  }

  function ItemToken(st: Style, it: C.Item): seq<W.Token> {
    match it
    case Ident(a) => [W.Ident(st.name(a))]
    case Line(line, file) => [W.Mark(st.line(line, file))]
    case Quoted(d, body) => [if d == CONSTANT then W.Constant(body) else W.Quoted(body)]
    case Plain(c) => [if c == W.JOIN then W.Join else W.Plain(c)]
    case _ => []
  }

  function OutTokens(st: Style, o: Out<C.Item>): seq<W.Token> {
    match o
    case Mark(n) => [W.Mark(st.begin(n))]
    case EndMark(n) => [W.Mark(st.end(n))]
    case Macros => st.macros
    case Missing(_) => []
    case Item(it) => ItemToken(st, it)
  }

  function AllTokens(st: Style, outs: seq<Out<C.Item>>): seq<W.Token> {
    if outs == [] then [] else OutTokens(st, outs[0]) + AllTokens(st, outs[1..])
  }

  lemma {:induction false} ActsConcat(a: seq<W.Token>, b: seq<W.Token>)
    ensures W.ActsAll(a + b) == W.ActsAll(a) + W.ActsAll(b)
    decreases |b|
  {
    hide W.Acts, W.ActsAll;
    if b == [] {
      assert a + b == a;
      NoActs(W.ActsAll(a));
    } else {
      var front, last := b[..|b| - 1], b[|b| - 1];
      ActsConcat(a, front);
      ActsMore(a + front, last);
      ActsMore(front, last);
      assert a + front + [last] == a + b && front + [last] == b;
    }
  }

  lemma NoActs(acts: seq<W.Act>)
    ensures acts + W.ActsAll([]) == acts
  {
  }

  lemma ActsMore(ts: seq<W.Token>, tok: W.Token)
    ensures W.ActsAll(ts + [tok]) == W.ActsAll(ts) + W.Acts(tok)
  {
    assert (ts + [tok])[..|ts|] == ts;
  }

  lemma {:induction false} AllActsConcat(st: Style, a: seq<Out<C.Event>>, b: seq<Out<C.Event>>)
    ensures AllActs(st, a + b) == AllActs(st, a) + AllActs(st, b)
  {
    hide OutActs;
    if a == [] {
      assert a + b == b;
    } else {
      assert (a + b)[0] == a[0] && (a + b)[1..] == a[1..] + b;
      AllActsConcat(st, a[1..], b);
    }
  }

  lemma {:induction false} BodyActs(st: Style, body: seq<Byte>)
    ensures AllActs(st, Items(C.Body(body))) == W.Inner(body)
  {
    if body != [] {
      BodyActs(st, body[1..]);
      var e := C.Body(body)[0];
      assert C.Body(body)[1..] == C.Body(body[1..]);
      assert Items(C.Body(body))[0] == Item(e) && Items(C.Body(body))[1..] == Items(C.Body(body[1..]));
    }
  }

  lemma OneAct(st: Style, e: C.Event)
    ensures AllActs(st, Items([e])) == EventActs(st, e)
  {
    assert Items([e])[0] == Item(e) && Items([e])[1..] == [];
  }

  lemma ItemsConcat<B>(a: seq<B>, b: seq<B>)
    ensures Items(a + b) == Items(a) + Items(b)
  {
  }

  lemma OneToken(tok: W.Token)
    ensures W.ActsAll([tok]) == W.Acts(tok)
  {
    assert [tok][..0] == [];
  }

  lemma QuotedActs(st: Style, d: Byte, body: seq<Byte>)
    ensures AllActs(st, Items([C.Char(d)] + C.Body(body) + [C.Char(d)])) ==
            [W.Code(d)] + (W.Inner(body) + [W.Code(d)])
  {
    hide AllActs, Items, C.Body, W.Inner;
    var q, es := [C.Char(d)], C.Body(body);
    ItemsConcat(q + es, q);
    ItemsConcat(q, es);
    AllActsConcat(st, Items(q) + Items(es), Items(q));
    AllActsConcat(st, Items(q), Items(es));
    BodyActs(st, body);
    OneAct(st, C.Char(d));
  }

  /** The events of an item do what its token does. */
  lemma ItemActs(st: Style, it: C.Item)
    requires Scannable(it) && ItemTok(it).Other?
    ensures AllActs(st, Items(C.Meaning(it))) == W.ActsAll(ItemToken(st, it))
    ensures forall tok :: tok in ItemToken(st, it) ==> W.TokenOK(tok)
  {
    OneToken(ItemToken(st, it)[0]);
    assert ItemToken(st, it) == [ItemToken(st, it)[0]];
    if it.Quoted? {
      QuotedActs(st, it.delim, it.body);
    } else {
      OneAct(st, C.Meaning(it)[0]);
      assert C.Meaning(it) == [C.Meaning(it)[0]];
    }
  }

  /** What is passed on comes from the items of the texts. */
  ghost predicate Passable(outs: seq<Out<C.Item>>) {
    forall i :: 0 <= i < |outs| && outs[i].Item? ==> Scannable(outs[i].x) && ItemTok(outs[i].x).Other?
  }

  lemma {:induction false} OutsMatch(st: Style, outs: seq<Out<C.Item>>)
    requires Passable(outs) && forall tok :: tok in st.macros ==> W.TokenOK(tok)
    ensures AllActs(st, SplitOuts(C.Meaning, outs)) == W.ActsAll(AllTokens(st, outs))
    ensures forall tok :: tok in AllTokens(st, outs) ==> W.TokenOK(tok)
  {
    hide W.Acts, C.Meaning, W.TokenOK, Scannable;
    if outs != [] {
      var o, rest := outs[0], outs[1..];
      OutsMatch(st, rest);
      OutMatch(st, o);
      AllActsConcat(st, SplitOut(C.Meaning, o), SplitOuts(C.Meaning, rest));
      ActsConcat(OutTokens(st, o), AllTokens(st, rest));
    }
  }

  lemma OutMatch(st: Style, o: Out<C.Item>)
    requires o.Item? ==> Scannable(o.x) && ItemTok(o.x).Other?
    requires forall tok :: tok in st.macros ==> W.TokenOK(tok)
    ensures AllActs(st, SplitOut(C.Meaning, o)) == W.ActsAll(OutTokens(st, o))
    ensures forall tok :: tok in OutTokens(st, o) ==> W.TokenOK(tok)
  {
    if o.Item? {
      ItemActs(st, o.x);
    } else {
      var b := SplitOut(C.Meaning, o)[0];
      assert SplitOut(C.Meaning, o)[1..] == [];
      if o.Mark? || o.EndMark? {
        OneToken(OutTokens(st, o)[0]);
      }
    }
  }

  lemma {:induction false} ExpandPassable(src: Source, code: set<nat>, t: nat, pos: nat, sec: nat,
                                          room: nat)
    requires AllScannable(src) && Code(Meant(src), code) && t in code
    requires pos <= |Meant(src).texts[t]|
    ensures Passable(Expand(Meant(src), code, t, pos, sec, room).out)
    decreases room, SECTION_FLAG - t, |Meant(src).texts[t]| - pos
  {
    hide Scannable;
    var pg := Meant(src);
    if pos == |pg.texts[t]| {
      if pg.link[t] < SECTION_FLAG {
        ExpandPassable(src, code, pg.link[t], 0, sec, room);
      }
    } else {
      var tok := pg.texts[t][pos];
      assert tok == ItemTok(src.texts[t][pos]);
      ExpandPassable(src, code, t, pos + 1, if tok.Begin? then tok.n else sec, room);
      if tok.Ref? && pg.equiv[tok.name] != 0 && room > 0 {
        ExpandPassable(src, code, pg.equiv[tok.name], 0, 0, room - 1);
      }
    }
  }

  /**
    From the bytes to the characters: what the stack machine makes of the stored bytes and out_char
    writes is the layout of the tokens that the recursive substitution of the scanned texts gives.
   */
  lemma TangledOutput(src: Source, code: set<nat>, s: nat, sec: nat, room: nat, st: Style,
                      table: W.Translit, protect: bool)
    requires AllScannable(src) && Code(Meant(src), code) && s in code
    requires |table| == 128 && forall tok :: tok in st.macros ==> W.TokenOK(tok)
    ensures Code(Stored(src), code)
    ensures var (meant, done) := (Expand(Meant(src), code, s, 0, sec, room),
                                  Expand(Stored(src), code, s, 0, sec, room));
            && done.over == meant.over
            && W.PutAll(table, protect, W.Normal, AllActs(st, done.out)).0 ==
               W.Layout(table, protect, AllTokens(st, meant.out))
  {
    hide Expand, W.PutAll, W.Layout, AllScannable, Meant, Stored, AllActs, AllTokens, W.TokenOK;
    StoredRefines(src);
    RefinesCode(Meant(src), Stored(src), C.Meaning, code);
    ExpandSplit(Meant(src), Stored(src), C.Meaning, code, s, 0, sec, room);
    PlaceZero(C.Meaning, Meant(src).texts[s]);
    ExpandPassable(src, code, s, 0, sec, room);
    var meant := Expand(Meant(src), code, s, 0, sec, room);
    OutsMatch(st, meant.out);
    W.TokensOut(table, protect, AllTokens(st, meant.out));
  }

  /**
    One output file: the bytes are read, expanded with the stack, and written. Unless the stack
    overflows the file is the layout of the substitution; if it does, of the part before.
   */
  method TangleFile(src: Source, ghost code: set<nat>, s: nat, st: Style, table: W.Translit)
    returns (ok: bool, file: seq<Byte>)
    requires AllScannable(src) && Code(Meant(src), code) && s in code
    requires |table| == 128 && forall tok :: tok in st.macros ==> W.TokenOK(tok)
    ensures var meant := Expand(Meant(src), code, s, 0, 0, STACK_SIZE - 1);
            ok == !meant.over && file == W.Layout(table, false, AllTokens(st, meant.out))
  {
    hide Expand, W.PutAll, W.Layout, AllScannable, Meant, Stored, AllActs, AllTokens, W.TokenOK;
    TangledOutput(src, code, s, 0, STACK_SIZE - 1, st, table, false);
    FrameStarts(src, code, s);
    var t := new Tangler<C.Event>(s);
    ok := t.Run(Stored(src), code);
    var w := new W.Writer(table);
    w.DoAll(AllActs(st, t.out));
    file := w.out;
    assert [] + file == file;
  }

  lemma FrameStarts(src: Source, code: set<nat>, s: nat)
    requires Code(Stored(src), code) && s in code
    ensures FrameOK(Stored(src), code, Frame(s, 0, 0))
  {
  }
}
