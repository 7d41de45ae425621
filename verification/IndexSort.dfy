/**
  The bucket sort of phase_three in place: lists threaded through blink, 256 buckets, and a stack of
  lists that still have to be sorted.
 */
module IndexSort {
  import opened ByteCodes
  import opened IndexOrder
  import opened Links
  import opened Sequences

  /** A record of the sort stack. */
  datatype Slot = Slot(depth: nat, head: nat)

  lemma {:induction false} TimesNoDup(l: seq<nat>)
    requires forall x :: Times(l, x) <= 1
    ensures NoDup(l)
  {
    if l != [] {
      forall x
        ensures Times(l[1..], x) <= 1
      {
        assert Times(l, x) <= 1;
      }
      TimesNoDup(l[1..]);
      var y := l[0];
      TimesIsMultiplicity(l[1..], y);
      assert Times(l, y) <= 1;
      assert y !in multiset(l[1..]);
      forall i, j | 0 <= i < j < |l|
        ensures l[i] != l[j]
      {
        assert l[j] == l[1..][j - 1];
        assert l[1..][j - 1] in multiset(l[1..]);
        if i > 0 {
          assert l[i] == l[1..][i - 1];
        }
      }
    }
  }

  // ----- Buckets

  /** The buckets hold the names of l, spread by their characters at place d. */
  ghost predicate Bucketed(names: Names, blink: seq<nat>, bucket: seq<nat>, l: seq<nat>, d: nat) {
    |bucket| == 256 &&
    forall r :: 0 <= r < RANKS ==> Chain(blink, Part(names, l, d, r), bucket[Collate(r)])
  }

  lemma PartGrows(names: Names, l: seq<nat>, x: nat, d: nat, r: nat)
    ensures Part(names, l + [x], d, r) ==
            if At(names, x, d) == r then [x] + Part(names, l, d, r) else Part(names, l, d, r)
  {
    hide At;
    assert (l + [x])[..|l|] == l;
    assert [] + Part(names, l, d, r) == Part(names, l, d, r);
  }

  lemma OneRank(q: nat, r: nat)
    requires q < RANKS && r < RANKS && Collate(q) == Collate(r)
    ensures q == r
  {
    CollateRank(q);
    CollateRank(r);
  }

  /** Putting one more name into its bucket. */
  lemma BucketedGrows(names: Names, blink: seq<nat>, bucket: seq<nat>, l: seq<nat>, d: nat, x: nat)
    requires Bucketed(names, blink, bucket, l, d) && x !in l
    requires 0 < x < |blink| && At(names, x, d) < RANKS
    ensures var c := Collate(At(names, x, d));
            Bucketed(names, blink[x := bucket[c]], bucket[c := x], l + [x], d)
  {
    var q := At(names, x, d);
    var c := Collate(q);
    hide At, Collate, Chain, Part;
    var blink', bucket' := blink[x := bucket[c]], bucket[c := x];
    forall r | 0 <= r < RANKS
      ensures Chain(blink', Part(names, l + [x], d, r), bucket'[Collate(r)])
    {
      PartGrows(names, l, x, d, r);
      PartFrom(names, l, d, r);
      assert Chain(blink, Part(names, l, d, r), bucket[Collate(r)]);
      if r == q {
        ChainPush(blink, Part(names, l, d, r), bucket[c], x);
      } else {
        ChainFrame(blink, Part(names, l, d, r), bucket[Collate(r)], blink');
        if Collate(r) == c {
          OneRank(q, r);
        }
      }
    }
  }

  lemma NoNames(names: Names, blink: seq<nat>, bucket: seq<nat>, d: nat)
    requires |bucket| == 256
    ensures Bucketed(names, blink, bucket, [], d) <==>
            forall r :: 0 <= r < RANKS ==> bucket[Collate(r)] == 0
  {
    hide Collate;
    forall r | 0 <= r < RANKS
      ensures Chain(blink, Part(names, [], d, r), bucket[Collate(r)]) <==> bucket[Collate(r)] == 0
    {
      assert Part(names, [], d, r) == [];
    }
  }

  // ----- The stack

  ghost predicate Stacked(blink: seq<nat>, slots: seq<Slot>, stk: seq<Entry>) {
    && |slots| == |stk|
    && forall i :: 0 <= i < |stk| ==>
         slots[i].depth == stk[i].depth && Chain(blink, stk[i].list, slots[i].head)
  }

  lemma StackedFrame(blink: seq<nat>, slots: seq<Slot>, stk: seq<Entry>, blink': seq<nat>,
                     l: seq<nat>)
    requires Stacked(blink, slots, stk) && |blink'| == |blink|
    requires forall x :: 0 <= x < |blink| && x !in l ==> blink'[x] == blink[x]
    requires forall i, x :: 0 <= i < |stk| && x in l ==> x !in stk[i].list
    ensures Stacked(blink', slots, stk)
  {
    hide Chain;
    forall i | 0 <= i < |stk|
      ensures Chain(blink', stk[i].list, slots[i].head)
    {
      ChainFrame(blink, stk[i].list, slots[i].head, blink');
    }
  }

  ghost predicate Distinct(stk: seq<Entry>) {
    forall x: nat :: Tally(stk, x) <= 1
  }

  lemma {:induction false} TallyMember(stk: seq<Entry>, i: nat, x: nat)
    requires i < |stk| && x in stk[i].list
    ensures Tally(stk, x) >= 1
  {
    TimesIsMultiplicity(stk[|stk| - 1].list, x);
    if i < |stk| - 1 {
      TallyMember(stk[..|stk| - 1], i, x);
    }
  }

  /** Nothing on the stack occurs twice: not within the top list, and not in it and below. */
  lemma DistinctTop(stk: seq<Entry>)
    requires Distinct(stk) && stk != []
    ensures var top, rest := stk[|stk| - 1], stk[..|stk| - 1];
            && NoDup(top.list) && Distinct(rest)
            && forall i, x :: 0 <= i < |rest| && x in top.list ==> x !in rest[i].list
  {
    var top, rest := stk[|stk| - 1], stk[..|stk| - 1];
    forall x: nat
      ensures Times(top.list, x) <= 1 && Tally(rest, x) <= 1
    {
      assert Tally(stk, x) <= 1;
    }
    TimesNoDup(top.list);
    forall i, x: nat | 0 <= i < |rest| && x in top.list
      ensures x !in rest[i].list
    {
      TimesIsMultiplicity(top.list, x);
      assert Times(top.list, x) == 1 && Tally(stk, x) <= 1;
      if x in rest[i].list {
        TallyMember(rest, i, x);
        assert false;
      }
    }
  }

  lemma DistinctSplit(names: Names, stk: seq<Entry>)
    requires NamesOK(names) && Distinct(stk) && stk != []
    requires AllNames(names, stk[|stk| - 1].list)
    ensures var top := stk[|stk| - 1];
            Distinct(stk[..|stk| - 1] + Pushed(names, top.list, top.depth, RANKS))
  {
    var top, rest := stk[|stk| - 1], stk[..|stk| - 1];
    hide Pushed, NamesOK, AllNames;
    forall x: nat
      ensures Tally(rest + Pushed(names, top.list, top.depth, RANKS), x) <= 1
    {
      TallyConcat(rest, Pushed(names, top.list, top.depth, RANKS), x);
      TallyPushed(names, top.list, top.depth, RANKS, x);
      SharedAll(names, top.list, top.depth, x);
      assert Tally(stk, x) <= 1;
    }
  }

  lemma DistinctStart(names: Names, l: seq<nat>)
    requires NamesOK(names) && AllNames(names, l) && NoDup(l)
    ensures Distinct(Pushed(names, l, 0, RANKS))
  {
    hide Pushed, NamesOK, AllNames;
    forall x: nat
      ensures Tally(Pushed(names, l, 0, RANKS), x) <= 1
    {
      TallyPushed(names, l, 0, RANKS, x);
      SharedAll(names, l, 0, x);
      NoDupTimes(l, x);
    }
  }

  lemma {:induction false} NoDupTimes(l: seq<nat>, x: nat)
    requires NoDup(l)
    ensures Times(l, x) <= 1
  {
    if l != [] {
      NoDupTimes(l[1..], x);
      if l[0] == x {
        TimesIsMultiplicity(l[1..], x);
        assert x !in l[1..];
      }
    }
  }

  // ----- The names that go into the index

  /** The hash lists one after the other. */
  function Flat(lists: seq<seq<nat>>): seq<nat> {
    if lists == [] then [] else Flat(lists[..|lists| - 1]) + lists[|lists| - 1]
  }

  /** The names with cross references. */
  function Indexed(l: seq<nat>, xref: seq<bool>): seq<nat> {
    if l == [] then []
    else
      var x := l[|l| - 1];
      Indexed(l[..|l| - 1], xref) + if x < |xref| && xref[x] then [x] else []
  }

  lemma {:induction false} IndexedFrom(l: seq<nat>, xref: seq<bool>)
    ensures forall x :: x in Indexed(l, xref) <==> x in l && x < |xref| && xref[x]
    ensures NoDup(l) ==> NoDup(Indexed(l, xref))
  {
    if l != [] {
      var last := |l| - 1;
      IndexedFrom(l[..last], xref);
      assert l == l[..last] + [l[last]];
      if NoDup(l) {
        assert l[last] !in l[..last];
        var m := Indexed(l[..last], xref);
        forall i | 0 <= i < |m|
          ensures m[i] != l[last]
        {
          assert m[i] in m;
        }
      }
    }
  }

  lemma IndexedNone(xref: seq<bool>)
    ensures Indexed([], xref) == []
  {
  }

  lemma IndexedGrows(l: seq<nat>, x: nat, xref: seq<bool>)
    ensures Indexed(l + [x], xref) ==
            if x < |xref| && xref[x] then Indexed(l, xref) + [x] else Indexed(l, xref)
  {
    assert (l + [x])[..|l|] == l;
    assert Indexed(l, xref) + [] == Indexed(l, xref);
  }

  /** In lists without duplicates a name has not been met before its place. */
  lemma Prefix(before: seq<nat>, l: seq<nat>, k: nat)
    requires NoDup(before + l) && k < |l|
    ensures l[k] !in before + l[..k]
  {
    var all := before + l;
    assert all[..|before| + k] == before + l[..k] && all[|before| + k] == l[k];
    NotBefore(all, |before| + k);
  }

  class IndexSorter {
    const names: Names
    const blink: array<nat>
    const bucket: array<nat>
    const stack: array<Slot>
    var sortPtr: nat
    var index: seq<nat>

    constructor (names: Names, maxSorts: nat)
      requires maxSorts > 0
      ensures this.names == names && Shape() && stack.Length == maxSorts
      ensures fresh(blink) && fresh(bucket) && fresh(stack) && sortPtr == 0 && index == []
    {
      this.names := names;
      blink := new nat[|names|](_ => 0);
      bucket := new nat[256](_ => 0);
      stack := new Slot[maxSorts](_ => Slot(0, 0));
      sortPtr, index := 0, [];
    }

    ghost predicate Shape()
      reads this
    {
      && blink.Length == |names| && bucket.Length == 256 && blink != bucket
      && sortPtr < stack.Length
    }

    ghost predicate Holds(l: seq<nat>, d: nat)
      reads this, blink, bucket
    {
      Bucketed(names, blink[..], bucket[..], l, d)
    }

    ghost predicate OnStack(stk: seq<Entry>)
      reads this, blink, stack
    {
      sortPtr < stack.Length && Stacked(blink[..], stack[1..sortPtr + 1], stk)
    }

    /** Puts one name into the bucket of character c. */
    method Drop(x: nat, c: Byte, d: nat, ghost l: seq<nat>)
      requires Shape() && Holds(l, d) && x !in l && 0 < x < |names|
      requires At(names, x, d) < RANKS && c == Collate(At(names, x, d))
      modifies blink, bucket
      ensures Holds(l + [x], d)
      ensures blink[..] == old(blink[..])[x := old(bucket[c])]
    {
      hide At, Collate, Chain, Part, Bucketed;
      BucketedGrows(names, blink[..], bucket[..], l, d, x);
      blink[x] := bucket[c];
      bucket[c] := x;
      assert blink[..] == old(blink[..])[x := old(bucket[c])];
      assert bucket[..] == old(bucket[..])[c := x];
    }

    /** One hash list: its names with cross references go into their first buckets. */
    method GatherList(head: nat, link: seq<nat>, xref: seq<bool>, ghost l: seq<nat>,
                      ghost before: seq<nat>)
      requires Shape() && NamesOK(names) && |link| == |names| == |xref|
      requires NoDup(before + l) && Chain(link, l, head)
      requires Holds(Indexed(before, xref), 0)
      modifies blink, bucket
      ensures Holds(Indexed(before + l, xref), 0)
    {
      hide At, Collate, Part, NoDup, Bucketed, Indexed, NamesOK, Holds;
      var next := head;
      ghost var k := 0;
      assert before + l[..0] == before && l[0..] == l;
      while next != 0
        invariant 0 <= k <= |l| && Chain(link, l[k..], next)
        invariant Holds(Indexed(before + l[..k], xref), 0)
        decreases |l| - k
      {
        var cur := next;
        next := link[cur];
        assert l[k..][1..] == l[k + 1..] && l[k] == cur;
        ghost var seen := before + l[..k];
        assert before + l[..k + 1] == seen + [cur];
        IndexedGrows(seen, cur, xref);
        FoldedFirst(names, cur);
        if xref[cur] {
          var ch := names[cur][0];
          Prefix(before, l, k);
          IndexedFrom(seen, xref);
          Drop(cur, if 65 <= ch <= 90 then ch + 32 else ch, 0, Indexed(seen, xref));
        }
        k := k + 1;
      }
      assert l[..k] == l;
    }

    /** The names of the hash lists that have cross references go into their first buckets. */
    method Gather(hash: seq<nat>, link: seq<nat>, xref: seq<bool>, ghost lists: seq<seq<nat>>)
      requires Shape() && NamesOK(names) && |link| == |names| == |xref|
      requires |hash| == |lists| && NoDup(Flat(lists))
      requires forall h :: 0 <= h < |hash| ==> Chain(link, lists[h], hash[h])
      modifies blink, bucket
      ensures Holds(Indexed(Flat(lists), xref), 0)
    {
      hide At, Part, NoDup, Bucketed, Chain, Indexed, NamesOK;
      var c := 0;
      while c < 256
        invariant 0 <= c <= 256 && forall k :: 0 <= k < c ==> bucket[k] == 0
      {
        bucket[c] := 0;
        c := c + 1;
      }
      NoNames(names, blink[..], bucket[..], 0);
      hide Collate;
      IndexedNone(xref);
      var h := 0;
      assert lists[..0] == [];
      while h < |hash|
        invariant 0 <= h <= |hash| && Holds(Indexed(Flat(lists[..h]), xref), 0)
      {
        assert lists[..h + 1][..h] == lists[..h];
        assert Flat(lists[..h + 1]) == Flat(lists[..h]) + lists[h];
        FlatPrefix(lists, h + 1);
        GatherList(hash[h], link, xref, lists[h], Flat(lists[..h]));
        h := h + 1;
      }
      assert lists[..h] == lists;
    }

    /** The list at `head`, whose names agree in d characters, is spread over the buckets. */
    method Distribute(head: nat, d: nat, ghost l: seq<nat>)
      requires Shape() && NamesOK(names) && AllNames(names, l) && NoDup(l) && l != []
      requires Chain(blink[..], l, head) && Holds([], d)
      modifies blink, bucket
      ensures Holds(l, d)
      ensures forall x :: 0 <= x < blink.Length && x !in l ==> blink[x] == old(blink[x])
    {
      hide At, Collate, Part, NoDup, Bucketed;
      var next := head;
      ghost var k := 0;
      assert l[..0] == [] && l[0..] == l;
      while next != 0
        invariant 0 <= k <= |l| && Chain(blink[..], l[k..], next)
        invariant Holds(l[..k], d)
        invariant forall x :: 0 <= x < blink.Length && x !in l ==> blink[x] == old(blink[x])
        decreases |l| - k
      {
        var cur := next;
        next := blink[cur];
        assert l[k..][1..] == l[k + 1..] && l[k] == cur && cur in l;
        NotBefore(l, k);
        ghost var was := blink[..];
        var c := 0;
        if d < |names[cur]| {
          c := names[cur][d];
          if 65 <= c <= 90 {
            c := c + 32;
          }
        }
        FoldedAt(names, cur, d);
        Drop(cur, c, d, l[..k]);
        ChainFrame(was, l[k + 1..], next, blink[..]) by {
          NotAfter(l, k);
        }
        assert l[..k + 1] == l[..k] + [cur];
        k := k + 1;
      }
      assert l[..k] == l;
    }

    /** The list in bucket c goes on the stack; false stands for overflow. */
    method PushBucket(depth: nat, c: Byte, ghost list: seq<nat>, ghost stk: seq<Entry>)
      returns (ok: bool)
      requires Shape() && OnStack(stk) && Chain(blink[..], list, bucket[c])
      modifies this`sortPtr, stack, bucket
      ensures Shape() && (ok ==> OnStack(stk + [Entry(depth, list)]))
      ensures !ok ==> sortPtr == stack.Length - 1
      ensures bucket[..] == if ok then old(bucket[..])[c := 0] else old(bucket[..])
    {
      hide Chain;
      if sortPtr >= stack.Length - 1 {
        return false;
      }
      ghost var slots := stack[1..sortPtr + 1];
      sortPtr := sortPtr + 1;
      stack[sortPtr] := Slot(depth, bucket[c]);
      assert stack[1..sortPtr + 1] == slots + [Slot(depth, bucket[c])];
      bucket[c] := 0;
      ok := true;
    }

    /** The buckets of the ranks below n are still full, the others empty. */
    ghost predicate HoldsBelow(l: seq<nat>, d: nat, n: nat)
      requires bucket.Length == 256
      reads this, blink, bucket
    {
      forall r :: 0 <= r < RANKS ==>
        if r < n then Chain(blink[..], Part(names, l, d, r), bucket[Collate(r)])
        else bucket[Collate(r)] == 0
    }

    /** One turn of the loop of unbucket, for rank n; false stands for overflow. */
    method PushRank(n: nat, d: nat, ghost l: seq<nat>, ghost stk: seq<Entry>)
      returns (ok: bool, ghost stk': seq<Entry>)
      requires Shape() && 0 < d && n < RANKS && OnStack(stk) && HoldsBelow(l, d - 1, n + 1)
      modifies this`sortPtr, stack, bucket
      ensures Shape() && (!ok ==> sortPtr == stack.Length - 1)
      ensures ok ==>
                && OnStack(stk') && HoldsBelow(l, d - 1, n)
                && stk' + Pushed(names, l, d - 1, n) == stk + Pushed(names, l, d - 1, n + 1)
    {
      hide At, Collate, Part, Pushed, Chain, OnStack;
      ok, stk' := true, stk;
      PushedStep(names, l, d - 1, n + 1);
      ghost var part := Part(names, l, d - 1, n);
      EmptyChain(blink[..], part, bucket[Collate(n)]);
      SameBuckets(n);
      if bucket[Collate(n)] != 0 {
        ghost var e := Entry(if n == 0 then INFINITY else d, part);
        Assoc(stk, [e], Pushed(names, l, d - 1, n));
        ok := PushBucket(if n == 0 then INFINITY else d, Collate(n), part, stk);
        stk' := stk + [e];
      }
    }

    /** unbucket: false stands for overflow. */
    method Unbucket(d: nat, ghost l: seq<nat>, ghost below: seq<Entry>) returns (ok: bool)
      requires Shape() && 0 < d && Holds(l, d - 1) && OnStack(below)
      modifies this`sortPtr, stack, bucket
      ensures Shape() && (!ok ==> sortPtr == stack.Length - 1)
      ensures ok ==> OnStack(below + Pushed(names, l, d - 1, RANKS)) && Holds([], d)
    {
      hide At, Collate, Part, Pushed, Chain, OnStack;
      ghost var goal := below + Pushed(names, l, d - 1, RANKS);
      ghost var stk := below;
      var n := RANKS;
      assert HoldsBelow(l, d - 1, n);
      hide HoldsBelow, Bucketed;
      while n > 0
        invariant 0 <= n <= RANKS && Shape() && OnStack(stk) && HoldsBelow(l, d - 1, n)
        invariant stk + Pushed(names, l, d - 1, n) == goal
      {
        n := n - 1;
        ok, stk := PushRank(n, d, l, stk);
        if !ok {
          return;
        }
      }
      PushedNone(names, l, d - 1, 0);
      assert stk == goal;
      NoneHeld(l, d - 1, d);
      ok := true;
    }

    /** The names of a finished list go out. */
    method PutOut(head: nat, ghost l: seq<nat>)
      requires Shape() && l != [] && Chain(blink[..], l, head)
      modifies this`index
      ensures index == old(index) + l
    {
      var cur := head;
      ghost var k := 0;
      assert l[..0] == [] && l[0..] == l;
      while cur != 0
        invariant 0 <= k <= |l| && Chain(blink[..], l[k..], cur)
        invariant index == old(index) + l[..k]
        decreases |l| - k
      {
        assert l[k..][1..] == l[k + 1..] && l[k] == cur;
        assert l[..k + 1] == l[..k] + [cur];
        index := index + [cur];
        cur := blink[cur];
        k := k + 1;
      }
      assert l[..k] == l;
    }

    /** What the loop of phase_three keeps. */
    ghost predicate Sorting(stk: seq<Entry>)
      reads this, blink, bucket, stack
    {
      && Shape() && NamesOK(names) && StackOK(names, stk) && Distinct(stk) && OnStack(stk)
      && Holds([], 0)
    }

    lemma NoneOnStack()
      requires Shape() && sortPtr == 0
      ensures OnStack([])
    {
    }

    lemma NoneHeld(l: seq<nat>, d: nat, e: nat)
      requires Shape() && HoldsBelow(l, d, 0)
      ensures Holds([], e)
    {
      NoNames(names, blink[..], bucket[..], e);
    }

    lemma StartSorting(stk: seq<Entry>)
      requires Shape() && NamesOK(names) && StackOK(names, stk) && Distinct(stk) && OnStack(stk)
      requires Holds([], 1)
      ensures Sorting(stk)
    {
      AnyDepth(names, blink[..], bucket[..], 1, 0);
    }

    lemma SortingDone(stk: seq<Entry>)
      requires Sorting(stk) && sortPtr == 0
      ensures stk == [] && Output(names, stk) == []
    {
      assert |stk| == 0;
      OutputNone(names);
    }

    /** One turn of the loop: false stands for overflow. */
    method SortTop(ghost stk: seq<Entry>) returns (ok: bool, ghost stk': seq<Entry>)
      requires Sorting(stk) && sortPtr > 0
      modifies this, blink, bucket, stack
      ensures !ok ==> sortPtr == stack.Length - 1
      ensures ok ==>
                && Sorting(stk') && Weight(stk') < Weight(stk)
                && index + Output(names, stk') == old(index) + Output(names, stk)
    {
      hide At, Part, Pushed, Bucketed, NamesOK, StackOK, Distinct, Weight, Chain, NoDup;
      ghost var top, rest := stk[|stk| - 1], stk[..|stk| - 1];
      var slot := stack[sortPtr];
      assert slot == stack[1..sortPtr + 1][|stk| - 1];
      assert stack[1..sortPtr] == stack[1..sortPtr + 1][..|stk| - 1];
      TopAndRest(names, stk);
      DistinctTop(stk);
      SplitLowers(names, stk);
      ChainHead(blink[..], top.list, slot.head);
      if blink[slot.head] == 0 || slot.depth == INFINITY {
        PutOut(slot.head, top.list);
        sortPtr := sortPtr - 1;
        ok, stk' := true, rest;
      } else {
        DistinctSplit(names, stk);
        AnyDepth(names, blink[..], bucket[..], 0, top.depth);
        ghost var was := blink[..];
        Distribute(slot.head, slot.depth, top.list);
        sortPtr := sortPtr - 1;
        StackedFrame(was, stack[1..sortPtr + 1], rest, blink[..], top.list);
        ok := Unbucket(slot.depth + 1, top.list, rest);
        stk' := rest + Pushed(names, top.list, top.depth, RANKS);
        if ok {
          AnyDepth(names, blink[..], bucket[..], slot.depth + 1, 0);
        }
      }
    }

    /**
      The whole of the index loop: every name with cross references goes out exactly once, in the
      order of the collating sequence.
     */
    method SortIndex(hash: seq<nat>, link: seq<nat>, xref: seq<bool>, ghost lists: seq<seq<nat>>)
      returns (ok: bool)
      requires Shape() && NamesOK(names) && |link| == |names| == |xref|
      requires |hash| == |lists| && NoDup(Flat(lists)) && sortPtr == 0 && index == []
      requires forall h :: 0 <= h < |hash| ==> Chain(link, lists[h], hash[h])
      requires forall h :: 0 <= h < |hash| ==> AllNames(names, lists[h])
      modifies this, blink, bucket, stack
      ensures !ok ==> sortPtr == stack.Length - 1
      ensures ok ==>
                && NoDup(index) && Sorted(names, index)
                && (forall x :: x in index <==> x in Flat(lists) && x < |xref| && xref[x])
                && ((forall x :: x in index ==> |Text(names, x)| <= INFINITY) ==>
                      forall i, j :: 0 <= i < j < |index| ==>
                        Dictionary(Text(names, index[i]), Text(names, index[j])))
    {
      hide NamesOK, StackOK, Distinct, Output, Pushed, Weight, Sorted, Dictionary, Indexed, Flat, NoDup,
           Stacked, Bucketed, Chain, AllNames;
      ghost var l := Indexed(Flat(lists), xref);
      SortStart(names, lists, xref);
      Gather(hash, link, xref, lists);
      NoneOnStack();
      ok := Unbucket(1, l, []);
      if !ok {
        return;
      }
      ghost var stk := Pushed(names, l, 0, RANKS);
      assert [] + stk == stk;
      ghost var all := Output(names, stk);
      StartSorting(stk);
      while sortPtr > 0
        invariant Sorting(stk) && index + Output(names, stk) == all
        decreases Weight(stk)
      {
        ok, stk := SortTop(stk);
        if !ok {
          return;
        }
      }
      SortingDone(stk);
      assert index == all;
      SortEnd(names, lists, xref, index);
    }
  }

  lemma SortStart(names: Names, lists: seq<seq<nat>>, xref: seq<bool>)
    requires NamesOK(names) && NoDup(Flat(lists)) && |xref| == |names|
    requires forall h :: 0 <= h < |lists| ==> AllNames(names, lists[h])
    ensures var l := Indexed(Flat(lists), xref);
            && AllNames(names, l) && NoDup(l) && StackOK(names, Pushed(names, l, 0, RANKS))
            && Distinct(Pushed(names, l, 0, RANKS))
  {
    hide Pushed, NoDup, Distinct;
    var l := Indexed(Flat(lists), xref);
    FlatNames(names, lists);
    IndexedFrom(Flat(lists), xref);
    IndexIsSorted(names, l);
    DistinctStart(names, l);
  }

  lemma SortEnd(names: Names, lists: seq<seq<nat>>, xref: seq<bool>, index: seq<nat>)
    requires NamesOK(names) && NoDup(Flat(lists)) && |xref| == |names|
    requires forall h :: 0 <= h < |lists| ==> AllNames(names, lists[h])
    requires StackOK(names, Pushed(names, Indexed(Flat(lists), xref), 0, RANKS))
    requires index == Output(names, Pushed(names, Indexed(Flat(lists), xref), 0, RANKS))
    ensures NoDup(index) && Sorted(names, index)
    ensures forall x :: x in index <==> x in Flat(lists) && x < |xref| && xref[x]
    ensures forall x :: x in Flat(lists) ==> x < |xref|
    ensures (forall x :: x in index ==> |Text(names, x)| <= INFINITY) ==>
              forall i, j :: 0 <= i < j < |index| ==>
                Dictionary(Text(names, index[i]), Text(names, index[j]))
  {
    hide Pushed, Output, Sorted, Dictionary, NoDup;
    var l := Indexed(Flat(lists), xref);
    FlatNames(names, lists);
    IndexedFrom(Flat(lists), xref);
    IndexIsSorted(names, l);
    forall x
      ensures x in index <==> x in l
      ensures Times(index, x) <= 1
    {
      assert x in index <==> x in multiset(index);
      assert x in l <==> x in multiset(l);
      TimesIsMultiplicity(index, x);
      TimesIsMultiplicity(l, x);
      NoDupTimes(l, x);
    }
    TimesNoDup(index);
  }

  lemma {:induction false} FlatNames(names: Names, lists: seq<seq<nat>>)
    requires forall h :: 0 <= h < |lists| ==> AllNames(names, lists[h])
    ensures AllNames(names, Flat(lists))
  {
    if lists != [] {
      var last := |lists| - 1;
      assert AllNames(names, lists[last]);
      forall h | 0 <= h < last
        ensures AllNames(names, lists[..last][h])
      {
        assert AllNames(names, lists[h]);
      }
      FlatNames(names, lists[..last]);
    }
  }

  /** An initial part of lists without duplicates has none. */
  lemma {:induction false} FlatPrefix(lists: seq<seq<nat>>, h: nat)
    requires NoDup(Flat(lists)) && h <= |lists|
    ensures NoDup(Flat(lists[..h]))
    decreases |lists|
  {
    if h == |lists| {
      assert lists[..h] == lists;
    } else {
      var last := |lists| - 1;
      var f := Flat(lists[..last]);
      assert Flat(lists) == f + lists[last];
      forall i, j | 0 <= i < j < |f|
        ensures f[i] != f[j]
      {
        assert f[i] == Flat(lists)[i] && f[j] == Flat(lists)[j];
      }
      FlatPrefix(lists[..last], h);
      assert lists[..last][..h] == lists[..h];
    }
  }

  lemma FoldedAt(names: Names, n: nat, d: nat)
    requires NamesOK(names) && IsName(names, n)
    ensures At(names, n, d) < RANKS
    ensures Collate(At(names, n, d)) == if d < |names[n]| then Fold(names[n][d]) else 0
  {
    AtInRange(names, n, d);
    if d < |names[n]| {
      RankCollate(names[n][d]);
    }
  }

  lemma FoldedFirst(names: Names, n: nat)
    requires NamesOK(names) && IsName(names, n)
    ensures names[n] != [] && At(names, n, 0) < RANKS
    ensures Collate(At(names, n, 0)) == Fold(names[n][0])
  {
    FoldedAt(names, n, 0);
  }

  /** Empty buckets are empty for every place. */
  lemma AnyDepth(names: Names, blink: seq<nat>, bucket: seq<nat>, d: nat, e: nat)
    requires Bucketed(names, blink, bucket, [], d)
    ensures Bucketed(names, blink, bucket, [], e)
  {
    NoNames(names, blink, bucket, d);
    NoNames(names, blink, bucket, e);
  }

  lemma SameBuckets(n: nat)
    requires n < RANKS
    ensures forall r :: 0 <= r < RANKS && r != n ==> Collate(r) != Collate(n)
  {
    forall r: nat | r < RANKS && r != n
      ensures Collate(r) != Collate(n)
    {
      if Collate(r) == Collate(n) {
        OneRank(r, n);
      }
    }
  }
}
