/**
  The order of CWEAVE's index: the collating sequence, and the bucket sort of phase_three as a
  function on lists of names.
 */
module IndexOrder {
  import opened ByteCodes

  const RANKS: nat := 229
  const INFINITY: nat := 255

  /** The table `collate`: no upper-case letter and no DEL occurs in it. */
  function Collate(r: nat): Byte
    requires r < RANKS
  {
    if r == 0 then 0
    else if r == 1 then 32
    else if r < 33 then r - 1
    else if r < 48 then r
    else if r < 55 then r + 10
    else if r < 59 then r + 36
    else if r == 59 then 96
    else if r < 64 then r + 63
    else if r == 64 then 95
    else if r < 91 then r + 32
    else if r < 101 then r - 43
    else r + 27
  }

  function Fold(c: Byte): Byte {
    if 65 <= c <= 90 then c + 32 else c
  }

  /** The place of a character in the collating sequence, upper case counting as lower case. */
  function Rank(c: Byte): nat {
    var f := Fold(c);
    if f == 0 then 0
    else if f == 32 then 1
    else if f < 32 then f + 1
    else if f < 48 then f
    else if f < 58 then f + 43
    else if f < 65 then f - 10
    else if f < 95 then f - 36
    else if f == 95 then 64
    else if f == 96 then 59
    else if f < 123 then f - 32
    else if f < 127 then f - 63
    else if f == 127 then RANKS
    else f - 27
  }

  lemma RankCollate(c: Byte)
    ensures Rank(c) < RANKS <==> c != 127
    ensures Rank(c) < RANKS ==> Collate(Rank(c)) == Fold(c)
    ensures Rank(c) == 0 <==> c == 0
  {
  }

  lemma CollateRank(r: nat)
    requires r < RANKS
    ensures Rank(Collate(r)) == r
  {
  }

  // The strings that the program copies into the table behind the zero, the blank and the codes 1
  // to 31, and in front of the codes from 128 on.
  const SIGNS: string := "!\"#$%&'()*+,-./:;<=>?@[\\]^`{|}~_"
  const LETTERS: string := "abcdefghijklmnopqrstuvwxyz0123456789"

  /** The whole table as it is copied together. */
  function Copied(r: nat): int
    requires r < RANKS
  {
    if r == 0 then 0
    else if r == 1 then 32
    else if r <= 32 then r - 1
    else if r <= 32 + |SIGNS| then SIGNS[r - 33] as int
    else if r <= 32 + |SIGNS| + |LETTERS| then LETTERS[r - 33 - |SIGNS|] as int
    else 128 + (r - 33 - |SIGNS| - |LETTERS|)
  }

  lemma CollateSigns(i: nat)
    requires i < 32
    ensures |SIGNS| == 32 && Collate(33 + i) == SIGNS[i] as int
  {
  }

  lemma CollateLetters(i: nat)
    requires i < 36
    ensures |LETTERS| == 36 && Collate(65 + i) == LETTERS[i] as int
  {
  }

  lemma CollateCopied(r: nat)
    requires r < RANKS
    ensures Collate(r) == Copied(r)
  {
    CollateSigns(if 33 <= r < 65 then r - 33 else 0);
    CollateLetters(if 65 <= r < 101 then r - 65 else 0);
    hide SIGNS, LETTERS;
  }

  type Names = seq<seq<Byte>>

  /** Names are numbered from 1; they are nonempty and contain neither NUL nor DEL. */
  ghost predicate NamesOK(names: Names) {
    names != [] &&
    forall n :: 0 < n < |names| ==>
      names[n] != [] && forall c :: c in names[n] ==> c != 0 && c != 127
  }

  ghost predicate IsName(names: Names, n: nat) {
    0 < n < |names|
  }

  ghost predicate AllNames(names: Names, l: seq<nat>) {
    forall n :: n in l ==> IsName(names, n)
  }

  function Text(names: Names, n: nat): seq<Byte> {
    if n < |names| then names[n] else []
  }

  /** The rank of the character at place d of name n; the end of the name comes before all. */
  function At(names: Names, n: nat, d: nat): nat {
    if d < |Text(names, n)| then Rank(Text(names, n)[d]) else 0
  }

  lemma AtInRange(names: Names, n: nat, d: nat)
    requires NamesOK(names) && IsName(names, n)
    ensures At(names, n, d) < RANKS && (At(names, n, d) == 0 <==> d >= |names[n]|)
  {
    if d < |names[n]| {
      assert names[n][d] in names[n];
      RankCollate(names[n][d]);
    }
  }

  // ----- The order

  ghost predicate SameTo(names: Names, a: nat, b: nat, d: nat)
  {
    forall e :: 0 <= e < d ==> At(names, a, e) == At(names, b, e)
  }

  ghost predicate Below(names: Names, a: nat, b: nat, d: nat)
  {
    SameTo(names, a, b, d) && At(names, a, d) < At(names, b, d)
  }

  /** Name a may come before name b: they are compared by their first 255 characters. */
  ghost predicate Leq(names: Names, a: nat, b: nat)
  {
    SameTo(names, a, b, INFINITY) || exists d :: 0 <= d < INFINITY && Below(names, a, b, d)
  }

  function FoldAll(s: seq<Byte>): (t: seq<Byte>)
    ensures |t| == |s| && forall i :: 0 <= i < |s| ==> t[i] == Fold(s[i])
  {
    if s == [] then [] else [Fold(s[0])] + FoldAll(s[1..])
  }

  /** The dictionary order on folded names, whatever their length. */
  ghost predicate Dictionary(s: seq<Byte>, t: seq<Byte>) {
    || (|s| <= |t| && FoldAll(s) == FoldAll(t)[..|s|])
    || exists d :: Differs(s, t, d)
  }

  ghost predicate Differs(s: seq<Byte>, t: seq<Byte>, d: nat) {
    d < |s| && d < |t| && FoldAll(s)[..d] == FoldAll(t)[..d] && Rank(s[d]) < Rank(t[d])
  }

  lemma SameChar(x: Byte, y: Byte)
    requires x != 127 && y != 127
    ensures Rank(x) == Rank(y) <==> Fold(x) == Fold(y)
  {
    RankCollate(x);
    RankCollate(y);
  }

  lemma SamePrefix(names: Names, a: nat, b: nat, d: nat)
    requires NamesOK(names) && IsName(names, a) && IsName(names, b)
    requires d <= |names[a]| && d <= |names[b]|
    ensures SameTo(names, a, b, d) <==> FoldAll(names[a])[..d] == FoldAll(names[b])[..d]
  {
    var s, t := names[a], names[b];
    forall e | 0 <= e < d
      ensures At(names, a, e) == At(names, b, e) <==> Fold(s[e]) == Fold(t[e])
    {
      assert s[e] in s && t[e] in t;
      SameChar(s[e], t[e]);
    }
    hide Rank, Fold;
    if SameTo(names, a, b, d) {
      assert FoldAll(s)[..d] == FoldAll(t)[..d];
    } else {
      var e :| 0 <= e < d && At(names, a, e) != At(names, b, e);
      assert FoldAll(s)[..d][e] != FoldAll(t)[..d][e];
    }
  }

  /** If one name has ended, agreement from there on means the other has ended too. */
  lemma SameEnd(names: Names, a: nat, b: nat, d: nat)
    requires NamesOK(names) && IsName(names, a) && IsName(names, b)
    requires SameTo(names, a, b, d) && |names[a]| < d
    ensures |names[b]| == |names[a]|
  {
    var m := |names[a]|;
    assert At(names, a, m) == At(names, b, m);
    AtInRange(names, a, m);
    AtInRange(names, b, m);
    if |names[b]| < m {
      assert At(names, a, |names[b]|) == At(names, b, |names[b]|);
      AtInRange(names, a, |names[b]|);
      assert false;
    }
  }

  /** For names of at most 255 characters the index order is the dictionary order. */
  lemma LeqIsDictionary(names: Names, a: nat, b: nat)
    requires NamesOK(names) && IsName(names, a) && IsName(names, b)
    requires |names[a]| <= INFINITY && |names[b]| <= INFINITY
    ensures Leq(names, a, b) <==> Dictionary(names[a], names[b])
  {
    hide Rank, Fold;
    var s, t := names[a], names[b];
    if Leq(names, a, b) {
      LeqToDictionary(names, a, b);
    }
    if Dictionary(s, t) {
      DictionaryToLeq(names, a, b);
    }
  }

  lemma LeqToDictionary(names: Names, a: nat, b: nat)
    requires NamesOK(names) && IsName(names, a) && IsName(names, b)
    requires |names[a]| <= INFINITY && |names[b]| <= INFINITY && Leq(names, a, b)
    ensures Dictionary(names[a], names[b])
  {
    hide Rank, Fold;
    var s, t := names[a], names[b];
    if SameTo(names, a, b, INFINITY) {
      if |s| < INFINITY {
        SameEnd(names, a, b, INFINITY);
      } else if |t| < INFINITY {
        SameEnd(names, b, a, INFINITY);
      }
      SamePrefix(names, a, b, |s|);
      assert FoldAll(s)[..|s|] == FoldAll(s);
    } else {
      var d :| 0 <= d < INFINITY && Below(names, a, b, d);
      AtInRange(names, b, d);
      AtInRange(names, a, d);
      if d > |s| {
        SameEnd(names, a, b, d);
      } else {
        SamePrefix(names, a, b, d);
        if d == |s| {
          assert FoldAll(s)[..|s|] == FoldAll(s);
        } else {
          assert Differs(s, t, d);
        }
      }
    }
  }

  lemma DictionaryToLeq(names: Names, a: nat, b: nat)
    requires NamesOK(names) && IsName(names, a) && IsName(names, b)
    requires |names[a]| <= INFINITY && |names[b]| <= INFINITY
    requires Dictionary(names[a], names[b])
    ensures Leq(names, a, b)
  {
    hide Rank, Fold;
    var s, t := names[a], names[b];
    if |s| <= |t| && FoldAll(s) == FoldAll(t)[..|s|] {
      assert FoldAll(s)[..|s|] == FoldAll(s);
      SamePrefix(names, a, b, |s|);
      AtInRange(names, b, |s|);
      if |s| < |t| {
        assert Below(names, a, b, |s|);
      }
    } else {
      var d :| Differs(s, t, d);
      SamePrefix(names, a, b, d);
      assert Below(names, a, b, d);
    }
  }

  // ----- The sort as a function

  /** An entry of the sort stack: names that agree in their first `depth` characters. */
  datatype Entry = Entry(depth: nat, list: seq<nat>)

  /** The names of the list whose character at place d has rank r, last one first. */
  function Part(names: Names, l: seq<nat>, d: nat, r: nat): seq<nat>
  {
    if l == [] then []
    else
      var last := |l| - 1;
      (if At(names, l[last], d) == r then [l[last]] else []) + Part(names, l[..last], d, r)
  }

  /** What `unbucket` puts on the stack for the ranks below n, the smallest rank on top. */
  function Pushed(names: Names, l: seq<nat>, d: nat, n: nat): seq<Entry>
  {
    if n == 0 then []
    else
      var part := Part(names, l, d, n - 1);
      (if part == [] then [] else [Entry(if n == 1 then INFINITY else d + 1, part)])
      + Pushed(names, l, d, n - 1)
  }

  ghost predicate StackOK(names: Names, stk: seq<Entry>) {
    forall i :: 0 <= i < |stk| ==>
      stk[i].list != [] && 1 <= stk[i].depth <= INFINITY && AllNames(names, stk[i].list)
  }

  function Weight(stk: seq<Entry>): nat {
    if stk == [] then 0
    else
      var top := stk[|stk| - 1];
      Weight(stk[..|stk| - 1]) +
      |top.list| * if top.depth <= INFINITY then 1 + INFINITY - top.depth else 0
  }

  lemma {:induction false} WeightConcat(a: seq<Entry>, b: seq<Entry>)
    ensures Weight(a + b) == Weight(a) + Weight(b)
  {
    if b == [] {
      assert a + b == a;
    } else {
      var last := |b| - 1;
      assert (a + b)[..|a + b| - 1] == a + b[..last];
      WeightConcat(a, b[..last]);
    }
  }

  lemma WeightOne(e: Entry)
    requires e.depth <= INFINITY
    ensures Weight([e]) == |e.list| * (1 + INFINITY - e.depth)
  {
    assert [e][..0] == [];
  }

  /** How many of the names have a rank below n at place d. */
  function Count(names: Names, l: seq<nat>, d: nat, n: nat): nat
  {
    if n == 0 then 0 else |Part(names, l, d, n - 1)| + Count(names, l, d, n - 1)
  }

  lemma {:induction false} CountLast(names: Names, l: seq<nat>, d: nat, n: nat)
    requires l != []
    ensures Count(names, l, d, n) ==
            Count(names, l[..|l| - 1], d, n) +
            if At(names, l[|l| - 1], d) < n then 1 else 0
  {
    hide At;
    if n > 0 {
      CountLast(names, l, d, n - 1);
    }
  }

  lemma {:induction false} CountAll(names: Names, l: seq<nat>, d: nat)
    requires NamesOK(names) && AllNames(names, l)
    ensures Count(names, l, d, RANKS) == |l|
  {
    hide At;
    if l != [] {
      var last := |l| - 1;
      assert l[last] in l;
      CountLast(names, l, d, RANKS);
      AtInRange(names, l[last], d);
      CountAll(names, l[..last], d);
    } else {
      CountNone(names, d, RANKS);
    }
  }

  lemma {:induction false} CountNone(names: Names, d: nat, n: nat)
    ensures Count(names, [], d, n) == 0
  {
    if n > 0 {
      CountNone(names, d, n - 1);
    }
  }

  lemma PushedNone(names: Names, l: seq<nat>, d: nat, n: nat)
    ensures n == 0 ==> Pushed(names, l, d, n) == []
    ensures Weight([]) == 0
  {
  }

  lemma PushedStep(names: Names, l: seq<nat>, d: nat, n: nat)
    requires n > 0
    ensures var part := Part(names, l, d, n - 1);
            var e := Entry(if n == 1 then INFINITY else d + 1, part);
            var rest := Pushed(names, l, d, n - 1);
            Pushed(names, l, d, n) == if part == [] then rest else [e] + rest
  {
    hide Part;
    assert [] + Pushed(names, l, d, n - 1) == Pushed(names, l, d, n - 1);
  }

  lemma {:induction false} WeightPushed(names: Names, l: seq<nat>, d: nat, n: nat)
    requires d < INFINITY
    ensures Weight(Pushed(names, l, d, n)) <= Count(names, l, d, n) * (INFINITY - d)
  {
    hide Part, Weight, Pushed;
    if n > 0 {
      var part := Part(names, l, d, n - 1);
      var depth := if n == 1 then INFINITY else d + 1;
      var rest := Pushed(names, l, d, n - 1);
      WeightPushed(names, l, d, n - 1);
      PushedStep(names, l, d, n);
      WeightConcat([Entry(depth, part)], rest);
      WeightOne(Entry(depth, part));
      Heavier(|part|, 1 + INFINITY - depth, INFINITY - d, Count(names, l, d, n - 1), Weight(rest));
    } else {
      PushedNone(names, l, d, 0);
    }
  }

  lemma Heavier(a: nat, b: nat, c: nat, k: nat, w: nat)
    requires b <= c && w <= k * c
    ensures w <= a * b + w <= (a + k) * c
  {
    assert a * b <= a * c;
    assert (a + k) * c == a * c + k * c;
  }

  lemma {:induction false} PushedOK(names: Names, l: seq<nat>, d: nat, n: nat)
    requires AllNames(names, l) && d < INFINITY
    ensures StackOK(names, Pushed(names, l, d, n))
  {
    hide Part, Pushed, At;
    if n == 0 {
      PushedNone(names, l, d, 0);
    } else {
      PartFrom(names, l, d, n - 1);
      PushedOK(names, l, d, n - 1);
      PushedStep(names, l, d, n);
    }
  }

  lemma {:induction false} PartFrom(names: Names, l: seq<nat>, d: nat, r: nat)
    ensures forall x :: x in Part(names, l, d, r) <==> x in l && At(names, x, d) == r
  {
    hide At;
    if l != [] {
      var last := |l| - 1;
      assert l[last] in l;
      PartFrom(names, l[..last], d, r);
      assert l == l[..last] + [l[last]];
    }
  }

  /** An entry whose names are not compared any further. */
  predicate Finished(e: Entry) {
    |e.list| == 1 || e.depth == INFINITY
  }

  lemma TopAndRest(names: Names, stk: seq<Entry>)
    requires StackOK(names, stk) && stk != []
    ensures var top, rest := stk[|stk| - 1], stk[..|stk| - 1];
            && stk == rest + [top] && StackOK(names, rest) && AllNames(names, top.list)
            && top.list != [] && top.depth <= INFINITY
  {
  }

  lemma OutputNone(names: Names)
    requires NamesOK(names)
    ensures StackOK(names, []) && Output(names, []) == []
  {
  }

  lemma SplitLowers(names: Names, stk: seq<Entry>)
    requires NamesOK(names) && StackOK(names, stk) && stk != []
    ensures Weight(stk[..|stk| - 1]) < Weight(stk)
    ensures StackOK(names, stk[..|stk| - 1])
    ensures var top := stk[|stk| - 1];
            top.depth < INFINITY ==>
              var next := stk[..|stk| - 1] + Pushed(names, top.list, top.depth, RANKS);
              Weight(next) < Weight(stk) && StackOK(names, next)
  {
    hide *;
    var top, rest := stk[|stk| - 1], stk[..|stk| - 1];
    TopAndRest(names, stk);
    WeightConcat(rest, [top]);
    WeightOne(top);
    Bigger(|top.list|, INFINITY - top.depth);
    if top.depth < INFINITY {
      TopLowers(names, rest, top);
    }
  }

  lemma TopLowers(names: Names, rest: seq<Entry>, top: Entry)
    requires NamesOK(names) && StackOK(names, rest) && AllNames(names, top.list)
    requires top.list != [] && top.depth < INFINITY
    ensures var next := rest + Pushed(names, top.list, top.depth, RANKS);
            StackOK(names, next) &&
            Weight(next) < Weight(rest) + |top.list| * (1 + INFINITY - top.depth)
  {
    hide Pushed, Part, At, Weight, Count, NamesOK;
    var more := Pushed(names, top.list, top.depth, RANKS);
    WeightConcat(rest, more);
    WeightPushed(names, top.list, top.depth, RANKS);
    CountAll(names, top.list, top.depth);
    PushedOK(names, top.list, top.depth, RANKS);
    hide AllNames;
    Bigger(|top.list|, INFINITY - top.depth);
  }

  lemma Bigger(a: nat, b: nat)
    requires a > 0
    ensures a * b < a * (1 + b)
  {
  }

  /** The order in which the loop of phase_three puts out the names on the stack. */
  ghost function Output(names: Names, stk: seq<Entry>): seq<nat>
    requires NamesOK(names) && StackOK(names, stk)
    decreases Weight(stk)
  {
    if stk == [] then []
    else
      var top, rest := stk[|stk| - 1], stk[..|stk| - 1];
      SplitLowers(names, stk);
      if Finished(top) then top.list + Output(names, rest)
      else Output(names, rest + Pushed(names, top.list, top.depth, RANKS))
  }

  // ----- Every name once

  function Times(l: seq<nat>, x: nat): nat {
    if l == [] then 0 else (if l[0] == x then 1 else 0) + Times(l[1..], x)
  }

  lemma {:induction false} TimesConcat(a: seq<nat>, b: seq<nat>, x: nat)
    ensures Times(a + b, x) == Times(a, x) + Times(b, x)
  {
    if a == [] {
      assert a + b == b;
    } else {
      assert (a + b)[1..] == a[1..] + b;
      TimesConcat(a[1..], b, x);
    }
  }

  lemma TimesOne(y: nat, x: nat)
    ensures Times([y], x) == if y == x then 1 else 0
  {
    assert [y][1..] == [];
  }

  lemma {:induction false} TimesIsMultiplicity(l: seq<nat>, x: nat)
    ensures Times(l, x) == multiset(l)[x]
  {
    if l != [] {
      TimesIsMultiplicity(l[1..], x);
      assert l == [l[0]] + l[1..];
    }
  }

  /** How often name x is on the stack. */
  function Tally(stk: seq<Entry>, x: nat): nat {
    if stk == [] then 0
    else Tally(stk[..|stk| - 1], x) + Times(stk[|stk| - 1].list, x)
  }

  lemma {:induction false} TallyConcat(a: seq<Entry>, b: seq<Entry>, x: nat)
    ensures Tally(a + b, x) == Tally(a, x) + Tally(b, x)
  {
    if b == [] {
      assert a + b == a;
    } else {
      var last := |b| - 1;
      assert (a + b)[..|a + b| - 1] == a + b[..last];
      TallyConcat(a, b[..last], x);
    }
  }

  lemma TallyOne(e: Entry, x: nat)
    ensures Tally([e], x) == Times(e.list, x)
  {
    assert [e][..0] == [];
  }

  /** How often x occurs in the parts of the ranks below n. */
  function Shared(names: Names, l: seq<nat>, d: nat, n: nat, x: nat): nat {
    if n == 0 then 0
    else Times(Part(names, l, d, n - 1), x) + Shared(names, l, d, n - 1, x)
  }

  lemma PartLast(names: Names, l: seq<nat>, d: nat, r: nat, x: nat)
    requires l != []
    ensures Times(Part(names, l, d, r), x) ==
            Times(Part(names, l[..|l| - 1], d, r), x) +
            if At(names, l[|l| - 1], d) == r && l[|l| - 1] == x then 1 else 0
  {
    hide At, Times;
    var z := l[|l| - 1];
    TimesOne(z, x);
    TimesConcat([z], Part(names, l[..|l| - 1], d, r), x);
    assert [] + Part(names, l[..|l| - 1], d, r) == Part(names, l[..|l| - 1], d, r);
  }

  lemma {:induction false} SharedLast(names: Names, l: seq<nat>, d: nat, n: nat, x: nat)
    requires l != []
    ensures Shared(names, l, d, n, x) ==
            Shared(names, l[..|l| - 1], d, n, x) +
            if At(names, l[|l| - 1], d) < n && l[|l| - 1] == x then 1 else 0
  {
    hide At, Part;
    if n > 0 {
      PartLast(names, l, d, n - 1, x);
      SharedLast(names, l, d, n - 1, x);
    }
  }

  lemma {:induction false} SharedNone(names: Names, d: nat, n: nat, x: nat)
    ensures Shared(names, [], d, n, x) == 0
  {
    if n > 0 {
      SharedNone(names, d, n - 1, x);
    }
  }

  lemma {:induction false} SharedAll(names: Names, l: seq<nat>, d: nat, x: nat)
    requires NamesOK(names) && AllNames(names, l)
    ensures Shared(names, l, d, RANKS, x) == Times(l, x)
  {
    hide At, Shared, Times;
    if l != [] {
      var last := |l| - 1;
      assert l[last] in l;
      TimesConcat(l[..last], [l[last]], x);
      TimesOne(l[last], x);
      SharedLast(names, l, d, RANKS, x);
      AtInRange(names, l[last], d);
      SharedAll(names, l[..last], d, x);
      assert l == l[..last] + [l[last]];
    } else {
      SharedNone(names, d, RANKS, x);
      TimesNone(x);
    }
  }

  lemma TimesNone(x: nat)
    ensures Times([], x) == 0
  {
  }

  lemma SharedZero(names: Names, l: seq<nat>, d: nat, x: nat)
    ensures Shared(names, l, d, 0, x) == 0 == Tally([], x)
  {
  }

  lemma SharedStep(names: Names, l: seq<nat>, d: nat, n: nat, x: nat)
    requires n > 0
    ensures Shared(names, l, d, n, x) ==
            Shared(names, l, d, n - 1, x) +
            if Part(names, l, d, n - 1) == [] then 0 else Times(Part(names, l, d, n - 1), x)
  {
    hide Part;
  }

  lemma {:induction false} TallyPushed(names: Names, l: seq<nat>, d: nat, n: nat, x: nat)
    ensures Tally(Pushed(names, l, d, n), x) == Shared(names, l, d, n, x)
  {
    hide Part, Tally, Pushed, Shared, Times;
    if n == 0 {
      PushedNone(names, l, d, 0);
      SharedZero(names, l, d, x);
    } else {
      TallyPushed(names, l, d, n - 1, x);
      PushedStep(names, l, d, n);
      SharedStep(names, l, d, n, x);
      var e := Entry(if n == 1 then INFINITY else d + 1, Part(names, l, d, n - 1));
      TallyOne(e, x);
      TallyConcat([e], Pushed(names, l, d, n - 1), x);
    }
  }

  /** The output lists every name exactly as often as the stack does. */
  lemma {:induction false} OutputKeepsNames(names: Names, stk: seq<Entry>, x: nat)
    requires NamesOK(names) && StackOK(names, stk)
    ensures Times(Output(names, stk), x) == Tally(stk, x)
    decreases Weight(stk)
  {
    if stk != [] {
      var top, rest := stk[|stk| - 1], stk[..|stk| - 1];
      SplitLowers(names, stk);
      hide Pushed, Weight;
      if Finished(top) {
        OutputKeepsNames(names, rest, x);
        TimesConcat(top.list, Output(names, rest), x);
      } else {
        var more := Pushed(names, top.list, top.depth, RANKS);
        OutputKeepsNames(names, rest + more, x);
        TallyConcat(rest, more, x);
        TallyPushed(names, top.list, top.depth, RANKS, x);
        SharedAll(names, top.list, top.depth, x);
      }
    }
  }

  // ----- In order

  /** The names of an entry agree so far, and none of them has ended before. */
  ghost predicate Agree(names: Names, e: Entry) {
    && AllNames(names, e.list)
    && (forall a, b :: a in e.list && b in e.list ==> SameTo(names, a, b, e.depth))
    && (e.depth < INFINITY ==> forall a :: a in e.list ==> |names[a]| >= e.depth)
  }

  ghost predicate Before(names: Names, e: Entry, f: Entry)
  {
    forall a, b :: a in e.list && b in f.list ==> Leq(names, a, b)
  }

  /** The stack in order: whatever is higher up comes first. */
  ghost predicate Layered(names: Names, stk: seq<Entry>)
  {
    && (forall i :: 0 <= i < |stk| ==> Agree(names, stk[i]))
    && (forall i, j :: 0 <= i < j < |stk| ==> Before(names, stk[j], stk[i]))
  }

  ghost predicate Sorted(names: Names, l: seq<nat>)
  {
    forall i, j :: 0 <= i < j < |l| ==> Leq(names, l[i], l[j])
  }

  /** A pushed entry: the rank its names share at place d, and how deep they agree now. */
  lemma {:induction false} PushedShape(names: Names, l: seq<nat>, d: nat, n: nat, i: nat)
    returns (r: nat)
    requires i < |Pushed(names, l, d, n)|
    ensures r < n && Pushed(names, l, d, n)[i].list == Part(names, l, d, r)
    ensures Pushed(names, l, d, n)[i].depth == if r == 0 then INFINITY else d + 1
  {
    hide Part, Pushed;
    PushedNone(names, l, d, n);
    PushedStep(names, l, d, n);
    var all, rest := Pushed(names, l, d, n), Pushed(names, l, d, n - 1);
    if all == rest {
      r := PushedShape(names, l, d, n - 1, i);
    } else if i == 0 {
      r := n - 1;
    } else {
      r := PushedShape(names, l, d, n - 1, i - 1);
      assert all[i] == rest[i - 1];
    }
  }

  lemma {:induction false} PushedRanks(names: Names, l: seq<nat>, d: nat, n: nat, i: nat, j: nat)
    returns (r: nat, q: nat)
    requires i < j < |Pushed(names, l, d, n)|
    ensures q < r < n && Pushed(names, l, d, n)[i].list == Part(names, l, d, r)
    ensures Pushed(names, l, d, n)[j].list == Part(names, l, d, q)
  {
    hide Part, Pushed;
    PushedNone(names, l, d, n);
    PushedStep(names, l, d, n);
    var all, rest := Pushed(names, l, d, n), Pushed(names, l, d, n - 1);
    if all == rest {
      r, q := PushedRanks(names, l, d, n - 1, i, j);
    } else {
      assert all[j] == rest[j - 1];
      if i == 0 {
        r := n - 1;
        q := PushedShape(names, l, d, n - 1, j - 1);
      } else {
        assert all[i] == rest[i - 1];
        r, q := PushedRanks(names, l, d, n - 1, i - 1, j - 1);
      }
    }
  }

  /** A list that agrees to depth d splits into lists that agree further. */
  lemma PartAgrees(names: Names, e: Entry, r: nat)
    requires NamesOK(names) && Agree(names, e) && e.depth < INFINITY
    ensures Agree(names, Entry(if r == 0 then INFINITY else e.depth + 1,
                               Part(names, e.list, e.depth, r)))
  {
    var d := e.depth;
    PartFrom(names, e.list, d, r);
    var part := Part(names, e.list, d, r);
    hide At, Part;
    forall a | a in part
      ensures IsName(names, a) && (if r == 0 then |names[a]| == d else |names[a]| > d)
    {
      AtInRange(names, a, d);
    }
    forall a, b | a in part && b in part
      ensures SameTo(names, a, b, if r == 0 then INFINITY else d + 1)
    {
      assert SameTo(names, a, b, d);
      if r == 0 {
        forall x | d <= x < INFINITY
          ensures At(names, a, x) == At(names, b, x)
        {
          AtInRange(names, a, x);
          AtInRange(names, b, x);
        }
      }
    }
  }

  lemma PartsOrdered(names: Names, e: Entry, q: nat, r: nat)
    requires NamesOK(names) && Agree(names, e) && e.depth < INFINITY && q < r
    ensures AllNames(names, Part(names, e.list, e.depth, q))
    ensures AllNames(names, Part(names, e.list, e.depth, r))
    ensures forall a, b ::
              a in Part(names, e.list, e.depth, q) && b in Part(names, e.list, e.depth, r) ==>
              Leq(names, a, b)
  {
    var d := e.depth;
    PartFrom(names, e.list, d, q);
    PartFrom(names, e.list, d, r);
    hide At, Part;
    forall a, b | a in Part(names, e.list, d, q) && b in Part(names, e.list, d, r)
      ensures Leq(names, a, b)
    {
      assert Below(names, a, b, d);
    }
  }

  /** What a list that agrees is split into is in order, and its names are those of the list. */
  lemma PushedLayered(names: Names, e: Entry)
    requires NamesOK(names) && Agree(names, e) && e.depth < INFINITY
    ensures Layered(names, Pushed(names, e.list, e.depth, RANKS))
    ensures forall f :: f in Pushed(names, e.list, e.depth, RANKS) ==>
              forall a :: a in f.list ==> a in e.list
  {
    var l, d := e.list, e.depth;
    var more := Pushed(names, l, d, RANKS);
    hide Pushed, Part, Leq, At, Agree, NamesOK;
    forall i | 0 <= i < |more|
      ensures Agree(names, more[i]) && forall a :: a in more[i].list ==> a in l
    {
      var r := PushedShape(names, l, d, RANKS, i);
      PartAgrees(names, e, r);
      PartFrom(names, l, d, r);
    }
    forall i, j | 0 <= i < j < |more|
      ensures Before(names, more[j], more[i])
    {
      var r, q := PushedRanks(names, l, d, RANKS, i, j);
      PartsOrdered(names, e, q, r);
    }
  }

  lemma BeforeSubset(names: Names, f: Entry, g: Entry, e: Entry)
    requires Before(names, f, e) && forall a :: a in g.list ==> a in f.list
    ensures Before(names, g, e)
  {
    hide Leq;
  }

  lemma LayeredConcat(names: Names, a: seq<Entry>, b: seq<Entry>)
    requires Layered(names, a) && Layered(names, b)
    requires forall i, j :: 0 <= i < |a| && 0 <= j < |b| ==> Before(names, b[j], a[i])
    ensures Layered(names, a + b)
  {
    hide Agree, Before;
  }

  /** Splitting the top of a stack in order leaves it in order. */
  lemma SplitLayered(names: Names, stk: seq<Entry>)
    requires NamesOK(names) && stk != [] && Layered(names, stk)
    requires stk[|stk| - 1].depth < INFINITY
    ensures var top := stk[|stk| - 1];
            Layered(names, stk[..|stk| - 1] + Pushed(names, top.list, top.depth, RANKS))
  {
    hide Pushed, Agree, Before, NamesOK;
    var top, rest := stk[|stk| - 1], stk[..|stk| - 1];
    var more := Pushed(names, top.list, top.depth, RANKS);
    PushedLayered(names, top);
    forall i, j | 0 <= i < |rest| && 0 <= j < |more|
      ensures Before(names, more[j], rest[i])
    {
      assert more[j] in more;
      BeforeSubset(names, top, more[j], stk[i]);
    }
    LayeredConcat(names, rest, more);
  }

  lemma {:induction false} OnStack(stk: seq<Entry>, n: nat) returns (i: nat)
    requires Tally(stk, n) > 0
    ensures i < |stk| && n in stk[i].list
  {
    TimesIsMultiplicity(stk[|stk| - 1].list, n);
    if n in stk[|stk| - 1].list {
      i := |stk| - 1;
    } else {
      i := OnStack(stk[..|stk| - 1], n);
    }
  }

  lemma SortedConcat(names: Names, a: seq<nat>, b: seq<nat>)
    requires Sorted(names, a) && Sorted(names, b)
    requires forall x, y :: x in a && y in b ==> Leq(names, x, y)
    ensures Sorted(names, a + b)
  {
    hide Leq;
    var all := a + b;
    forall i, j | 0 <= i < j < |all|
      ensures Leq(names, all[i], all[j])
    {
      if i < |a| <= j {
        assert all[i] in a && all[j] in b;
      }
    }
  }

  /** The names of a finished entry need no further order among themselves. */
  lemma FinishedSorted(names: Names, e: Entry)
    requires Agree(names, e) && Finished(e)
    ensures Sorted(names, e.list)
  {
    hide SameTo;
    forall i, j | 0 <= i < j < |e.list|
      ensures Leq(names, e.list[i], e.list[j])
    {
      assert e.list[i] in e.list && e.list[j] in e.list;
    }
  }

  /** The output is sorted by the folded, collated first 255 characters. */
  lemma {:induction false} OutputIsSorted(names: Names, stk: seq<Entry>)
    requires NamesOK(names) && StackOK(names, stk) && Layered(names, stk)
    ensures Sorted(names, Output(names, stk))
    decreases Weight(stk)
  {
    if stk != [] {
      var top, rest := stk[|stk| - 1], stk[..|stk| - 1];
      SplitLowers(names, stk);
      assert top.depth <= INFINITY;
      hide Pushed, Part, Layered, StackOK, Sorted, Leq, Weight, Finished, Agree, NamesOK;
      if Finished(top) {
        RestLayered(names, stk);
        OutputIsSorted(names, rest);
        FinishedSorted(names, top);
        forall x, y | x in top.list && y in Output(names, rest)
          ensures Leq(names, x, y)
        {
          TopFirst(names, stk, x, y);
        }
        SortedConcat(names, top.list, Output(names, rest));
      } else {
        NotFinished(top);
        SplitLayered(names, stk);
        OutputIsSorted(names, rest + Pushed(names, top.list, top.depth, RANKS));
      }
    }
  }

  lemma NotFinished(e: Entry)
    requires !Finished(e)
    ensures e.depth != INFINITY
  {
  }

  lemma RestLayered(names: Names, stk: seq<Entry>)
    requires Layered(names, stk) && stk != []
    ensures Layered(names, stk[..|stk| - 1]) && Agree(names, stk[|stk| - 1])
  {
    hide Agree, Before;
  }

  lemma TopFirst(names: Names, stk: seq<Entry>, x: nat, y: nat)
    requires NamesOK(names) && StackOK(names, stk) && Layered(names, stk) && stk != []
    requires StackOK(names, stk[..|stk| - 1])
    requires x in stk[|stk| - 1].list && y in Output(names, stk[..|stk| - 1])
    ensures Leq(names, x, y)
  {
    hide Output, Tally, Leq, Agree;
    var rest := stk[..|stk| - 1];
    OutputKeepsNames(names, rest, y);
    TimesIsMultiplicity(Output(names, rest), y);
    assert y in multiset(Output(names, rest));
    var k := OnStack(rest, y);
    assert Before(names, stk[|stk| - 1], stk[k]);
  }

  /**
    The index lists the given names, each exactly as often as it was given, in the order of the
    collating sequence applied to their first 255 characters; that is the dictionary order if none
    is longer.
   */
  lemma IndexIsSorted(names: Names, l: seq<nat>)
    requires NamesOK(names) && AllNames(names, l)
    ensures StackOK(names, Pushed(names, l, 0, RANKS))
    ensures var index := Output(names, Pushed(names, l, 0, RANKS));
            && multiset(index) == multiset(l) && Sorted(names, index)
            && ((forall n :: n in l ==> |names[n]| <= INFINITY) ==>
                  forall i, j :: 0 <= i < j < |index| ==>
                    Dictionary(Text(names, index[i]), Text(names, index[j])))
  {
    hide Pushed, Output, Leq, Dictionary, NamesOK, Tally, Shared, Layered;
    var stk := Pushed(names, l, 0, RANKS);
    PushedOK(names, l, 0, RANKS);
    PushedLayered(names, Entry(0, l)) by { StartAgrees(names, l); }
    OutputIsSorted(names, stk);
    var index := Output(names, stk);
    forall x: nat
      ensures multiset(index)[x] == multiset(l)[x]
    {
      TallyPushed(names, l, 0, RANKS, x);
      SharedAll(names, l, 0, x);
      OutputKeepsNames(names, stk, x);
      TimesIsMultiplicity(index, x);
      TimesIsMultiplicity(l, x);
    }
    assert multiset(index) == multiset(l);
    if forall n :: n in l ==> |names[n]| <= INFINITY {
      forall i, j | 0 <= i < j < |index|
        ensures Dictionary(Text(names, index[i]), Text(names, index[j]))
      {
        assert index[i] in multiset(index) && index[j] in multiset(index);
        LeqIsDictionary(names, index[i], index[j]);
      }
    }
  }

  lemma StartAgrees(names: Names, l: seq<nat>)
    requires AllNames(names, l)
    ensures Agree(names, Entry(0, l))
  {
  }
}
