/**
  The cross-reference memory of CWEAVE: lists in xmem, edited in place.
 */
module Xrefs {
  import opened Links
  import opened Sequences
  import opened XrefOrder

  /** The numbers in the given nodes. */
  function NumsOf(num: seq<nat>, l: seq<nat>): (r: seq<nat>)
    ensures |r| == |l|
  {
    seq(|l|, i requires 0 <= i < |l| => if l[i] < |num| then num[l[i]] else 0)
  }

  /** Node 0 is the end of every list; the lists of different names have no node in common. */
  ghost predicate TableOK(xlink: seq<nat>, xref: seq<nat>, nodes: seq<seq<nat>>, top: nat) {
    && |xref| == |nodes| && top < |xlink|
    && (forall p :: 0 <= p < |nodes| ==>
          Chain(xlink, nodes[p], xref[p]) && NoDup(nodes[p]) && Used(nodes[p], top))
    && (forall p, q :: 0 <= p < |nodes| && 0 <= q < |nodes| && p != q ==> Disjoint(nodes[p], nodes[q]))
  }

  ghost predicate Used(l: seq<nat>, top: nat) {
    forall x :: x in l ==> 0 < x <= top
  }

  ghost predicate Disjoint(a: seq<nat>, b: seq<nat>) {
    forall x :: x in a ==> x !in b
  }

  /** The list of one name changes; it may take in the next free node. */
  lemma TableChange(xlink: seq<nat>, xref: seq<nat>, nodes: seq<seq<nat>>, top: nat,
                    xlink': seq<nat>, xref': seq<nat>, top': nat, p: nat, l: seq<nat>)
    requires TableOK(xlink, xref, nodes, top) && p < |nodes|
    requires |xlink'| == |xlink| && |xref'| == |xref| && top <= top' <= top + 1 && top' < |xlink|
    requires forall q :: 0 <= q < |xref| && q != p ==> xref'[q] == xref[q]
    requires forall x :: 0 <= x <= top && x !in nodes[p] ==> xlink'[x] == xlink[x]
    requires Chain(xlink', l, xref'[p]) && NoDup(l)
    requires forall x :: x in l ==> x in nodes[p] || top < x <= top'
    ensures TableOK(xlink', xref', nodes[p := l], top')
  {
    hide Chain, NoDup;
    var nodes' := nodes[p := l];
    forall q | 0 <= q < |nodes|
      ensures Chain(xlink', nodes'[q], xref'[q]) && NoDup(nodes'[q]) && Used(nodes'[q], top')
    {
      if q != p {
        assert Disjoint(nodes[p], nodes[q]);
        assert Used(nodes[q], top);
        ChainFrame(xlink, nodes[q], xref[q], xlink');
      }
    }
    forall q, r | 0 <= q < |nodes| && 0 <= r < |nodes| && q != r
      ensures Disjoint(nodes'[q], nodes'[r])
    {
      assert Disjoint(nodes[q], nodes[r]) && Used(nodes[q], top) && Used(nodes[r], top);
      assert Disjoint(nodes[r], nodes[q]);
    }
  }

  lemma TableList(xlink: seq<nat>, xref: seq<nat>, nodes: seq<seq<nat>>, top: nat, p: nat)
    requires TableOK(xlink, xref, nodes, top) && p < |nodes|
    ensures |xref| == |nodes| && Chain(xlink, nodes[p], xref[p])
    ensures NoDup(nodes[p]) && Used(nodes[p], top)
  {
  }

  lemma NoFirst(l: seq<nat>, k: nat, top: nat)
    requires Used(l, top) && k <= |l| && First(l[k..]) == 0
    ensures k == |l|
  {
    if k < |l| {
      FirstAt(l, k, top);
    }
  }

  lemma FirstAt(l: seq<nat>, k: nat, top: nat)
    requires Used(l, top) && k < |l|
    ensures First(l[k..]) == l[k] && 0 < l[k] <= top
  {
    assert l[k] in l;
  }

  lemma NumsFrame(num: seq<nat>, num': seq<nat>, l: seq<nat>)
    requires |num'| == |num| && forall x :: x in l && x < |num| ==> num'[x] == num[x]
    ensures NumsOf(num', l) == NumsOf(num, l)
  {
  }

  lemma NumAt(num: seq<nat>, l: seq<nat>, k: nat)
    requires k < |l| && l[k] < |num|
    ensures NumsOf(num, l)[k] == num[l[k]]
  {
  }

  lemma NumOne(num: seq<nat>, x: nat)
    requires x < |num|
    ensures NumsOf(num, [x]) == [num[x]]
  {
  }

  lemma HeadInRange(link: seq<nat>, l: seq<nat>, head: nat)
    requires Chain(link, l, head) && link != []
    ensures head < |link|
  {
  }

  lemma NumsConcat(num: seq<nat>, a: seq<nat>, b: seq<nat>)
    ensures NumsOf(num, a + b) == NumsOf(num, a) + NumsOf(num, b)
  {
  }

  function Reversed(l: seq<nat>): (r: seq<nat>)
    ensures |r| == |l|
  {
    if l == [] then [] else Reversed(l[1..]) + [l[0]]
  }

  lemma {:induction false} ReversedAt(l: seq<nat>, i: nat)
    requires i < |l|
    ensures Reversed(l)[i] == l[|l| - 1 - i]
  {
    if i < |l| - 1 {
      ReversedAt(l[1..], i);
    }
  }

  ghost predicate Climbing(l: seq<nat>) {
    forall i, j :: 0 <= i < j < |l| ==> Sec(l[i]) < Sec(l[j])
  }

  /** The index prints a falling list with its sections increasing. */
  lemma FallingPrintsRising(l: seq<nat>)
    ensures Falling(l) <==> Climbing(Reversed(l))
  {
    hide Sec, Reversed;
    forall i: nat | i < |l|
      ensures Reversed(l)[i] == l[|l| - 1 - i]
    {
      ReversedAt(l, i);
    }
    var r := Reversed(l);
    if Falling(l) {
      forall i, j | 0 <= i < j < |r|
        ensures Sec(r[i]) < Sec(r[j])
      {
        assert r[i] == l[|l| - 1 - i] && r[j] == l[|l| - 1 - j];
      }
    }
    if Climbing(r) {
      forall i, j | 0 <= i < j < |l|
        ensures Sec(l[i]) > Sec(l[j])
      {
        var a, b: nat := |l| - 1 - j, |l| - 1 - i;
        assert r[a] == l[j] && r[b] == l[i];
      }
    }
  }

  lemma Middle(a: seq<nat>, q: nat, b: seq<nat>, top: nat)
    requires NoDup(a + ([q] + b)) && Used(a + ([q] + b), top)
    ensures NoDup(a + b) && q !in a && q !in b && 0 < q <= top
    ensures forall x :: x in a + b ==> x in a + ([q] + b) && 0 < x <= top
  {
    var all := a + ([q] + b);
    assert all[|a|] == q && q in all;
    forall i, j | 0 <= i < j < |a + b|
      ensures (a + b)[i] != (a + b)[j]
    {
      var i' := if i < |a| then i else i + 1;
      var j' := if j < |a| then j else j + 1;
      assert all[i'] == (a + b)[i] && all[j'] == (a + b)[j];
    }
    forall x | x in b
      ensures x != q
    {
      var i :| 0 <= i < |b| && b[i] == x;
      assert all[|a| + 1 + i] == x;
    }
    forall x | x in a
      ensures x != q
    {
      var i :| 0 <= i < |a| && a[i] == x;
      assert all[i] == x;
    }
  }

  lemma LastOnly(a: seq<nat>, q: nat, b: seq<nat>)
    requires NoDup(a + ([q] + b)) && a != []
    ensures a[|a| - 1] !in b && forall i :: 0 <= i < |a| - 1 ==> a[i] != a[|a| - 1]
  {
    var all, r := a + ([q] + b), a[|a| - 1];
    assert all[|a| - 1] == r;
    forall x | x in b
      ensures x != r
    {
      var i :| 0 <= i < |b| && b[i] == x;
      assert all[|a| + 1 + i] == x;
    }
    forall i | 0 <= i < |a| - 1
      ensures a[i] != r
    {
      assert all[i] == a[i];
    }
  }

  /** Linking around node q. */
  lemma Unlink(link: seq<nat>, head: nat, a: seq<nat>, q: nat, b: seq<nat>, top: nat)
    requires Chain(link, a + ([q] + b), head)
    requires NoDup(a + ([q] + b)) && Used(a + ([q] + b), top)
    ensures q < |link| && link[q] == First(b)
    ensures a == [] ==> Chain(link, a + b, First(b))
    ensures a != [] ==>
              var r := a[|a| - 1];
              0 < r < |link| && r != q && r in a + ([q] + b) && Chain(link[r := First(b)], a + b, head)
  {
    hide Chain, NoDup, Used;
    var ns := a + ([q] + b);
    FollowLink(link, a, q, b, head);
    Middle(a, q, b, top);
    ChainFrom(link, ns, head, |a| + 1);
    assert ns[|a| + 1..] == b && a + b == if a == [] then b else a + b;
    if a != [] {
      var last := |a| - 1;
      var r := a[last];
      assert ns[last] == r && r in ns && r in a + b;
      ChainFrom(link, ns, head, last);
      LastOnly(a, q, b);
      ChainFrame(link, b, First(b), link[r := First(b)]);
      Relink(link, link[r := First(b)], a, [q] + b, b, head);
    }
  }

  lemma PrunedStart(num: seq<nat>, l: seq<nat>)
    ensures NumsOf(num, []) == []
    ensures Pruned(NumsOf(num, l)) == NumsOf(num, []) + Pruned(NumsOf(num, l))
    ensures l == [] ==> Pruned(NumsOf(num, l)) == []
  {
  }

  /** What pruning makes of node q. */
  lemma PrunedNext(num: seq<nat>, a: seq<nat>, q: nat, c: seq<nat>)
    requires q < |num|
    ensures NumsOf(num, a) + Pruned(NumsOf(num, [q] + c)) ==
            NumsOf(num, if num[q] < DEF then a else a + [q]) + Pruned(NumsOf(num, c))
  {
    NumsConcat(num, [q], c);
    NumsConcat(num, a, [q]);
    assert NumsOf(num, [q]) == [num[q]];
    assert ([num[q]] + NumsOf(num, c))[1..] == NumsOf(num, c);
    hide NumsOf;
    assert NumsOf(num, a) + ([num[q]] + Pruned(NumsOf(num, c))) ==
           NumsOf(num, a) + [num[q]] + Pruned(NumsOf(num, c));
  }

  lemma FollowLink(link: seq<nat>, a: seq<nat>, q: nat, c: seq<nat>, head: nat)
    requires Chain(link, a + ([q] + c), head)
    ensures 0 < q < |link| && link[q] == First(c)
  {
    var all := a + ([q] + c);
    ChainFrom(link, all, head, |a|);
    assert all[|a|] == q && all[|a| + 1..] == c;
  }

  /** The list ns while it is turned round: `done` is turned already, `left` is not. */
  ghost predicate Turning(ns: seq<nat>, done: seq<nat>, left: seq<nat>, link: seq<nat>) {
    && NoDup(ns) && ns == Reversed(done) + left
    && Chain(link, done, First(done)) && Chain(link, left, First(left))
  }

  lemma TurnStart(ns: seq<nat>, link: seq<nat>)
    requires NoDup(ns) && Chain(link, ns, First(ns))
    ensures Turning(ns, [], ns, link)
  {
  }

  lemma {:induction false} ReversedMembers(l: seq<nat>)
    ensures forall x :: x in Reversed(l) <==> x in l
  {
    if l != [] {
      ReversedMembers(l[1..]);
      assert l == [l[0]] + l[1..];
    }
  }

  lemma TurnStep(ns: seq<nat>, done: seq<nat>, left: seq<nat>, link: seq<nat>)
    requires Turning(ns, done, left, link) && left != []
    ensures var x := left[0];
            && 0 < x < |link| && link[x] == First(left[1..]) && x in ns
            && Turning(ns, [x] + done, left[1..], link[x := First(done)])
  {
    var x := left[0];
    assert 0 < x < |link| && Chain(link, left[1..], link[x]);
    hide Chain;
    ChainFrom(link, left, x, 1);
    assert left == [x] + left[1..];
    ReversedMembers(done);
    assert ([x] + done)[1..] == done;
    assert ns == Reversed(done) + ([x] + left[1..]);
    Apart(Reversed(done), x, left[1..]);
    assert Reversed([x] + done) + left[1..] == ns;
    ChainPush(link, done, First(done), x);
    ChainFrame(link, left[1..], link[x], link[x := First(done)]);
  }

  lemma TurnedAll(ns: seq<nat>, done: seq<nat>, left: seq<nat>, link: seq<nat>)
    requires Turning(ns, done, left, link) && First(left) == 0
    ensures left == []
  {
    EmptyChain(link, left, 0);
  }

  lemma Apart(a: seq<nat>, x: nat, b: seq<nat>)
    requires NoDup(a + ([x] + b))
    ensures x !in a && x !in b
  {
    var all := a + ([x] + b);
    assert all[|a|] == x;
    forall y | y in b
      ensures y != x
    {
      var i :| 0 <= i < |b| && b[i] == y;
      assert all[|a| + 1 + i] == y;
    }
    forall y | y in a
      ensures y != x
    {
      var i :| 0 <= i < |a| && a[i] == y;
      assert all[i] == y;
    }
  }

  lemma {:induction false} ReversedTwice(l: seq<nat>)
    ensures Reversed(Reversed(l)) == l
  {
    forall i | 0 <= i < |l|
      ensures Reversed(Reversed(l))[i] == l[i]
    {
      ReversedAt(Reversed(l), i);
      ReversedAt(l, |l| - 1 - i);
    }
  }

  lemma ReversedNums(num: seq<nat>, l: seq<nat>)
    ensures NumsOf(num, Reversed(l)) == Reversed(NumsOf(num, l))
  {
    hide Reversed;
    forall i | 0 <= i < |l|
      ensures NumsOf(num, Reversed(l))[i] == Reversed(NumsOf(num, l))[i]
    {
      ReversedAt(l, i);
      ReversedAt(NumsOf(num, l), i);
    }
  }

  /** When the list is turned round its old first node is the last one. */
  lemma TurnEnd(num: seq<nat>, ns: seq<nat>, done: seq<nat>, link: seq<nat>)
    requires Turning(ns, done, [], link) && ns != []
    ensures done == Reversed(ns) && Chain(link, done, First(done))
    ensures Chain(link, ns[..1], ns[0]) && NoDup(ns[..1]) && ns[..1] == [ns[0]]
    ensures NumsOf(num, done) == Reversed(NumsOf(num, ns))
    ensures NumsOf(num, ns[..1]) == NumsOf(num, ns)[..1]
  {
    assert ns == Reversed(done);
    ReversedTwice(done);
    ReversedNums(num, ns);
    var last := |done| - 1;
    ReversedAt(done, 0);
    assert done[last] == ns[0];
    hide Reversed;
    ChainFrom(link, done, First(done), last);
    assert done[last..] == [ns[0]];
  }

  class XrefMemory {
    const num: array<nat>
    const xlink: array<nat>
    const xref: array<nat>
    var xrefPtr: nat
    var xrefSwitch: nat
    var sectionXrefSwitch: nat
    ghost var nodes: seq<seq<nat>>

    constructor (maxRefs: nat, names: nat)
      requires maxRefs > 0
      ensures Valid() && |nodes| == names && num.Length == maxRefs && xrefPtr == 0
      ensures forall p :: 0 <= p < names ==> Nums(p) == []
      ensures xrefSwitch == sectionXrefSwitch == 0
      ensures fresh(num) && fresh(xlink) && fresh(xref)
    {
      num := new nat[maxRefs](_ => 0);
      xlink := new nat[maxRefs](_ => 0);
      xref := new nat[names](_ => 0);
      xrefPtr, xrefSwitch, sectionXrefSwitch := 0, 0, 0;
      nodes := seq(names, _ => []);
    }

    ghost predicate Valid()
      reads `xrefPtr, `nodes, num, xlink, xref
    {
      && num != xlink && num != xref && xlink != xref
      && num.Length == xlink.Length && xrefPtr < num.Length && num[0] == 0
      && TableOK(xlink[..], xref[..], nodes, xrefPtr)
    }

    /** The cross references of name p, first one first. */
    ghost function Nums(p: nat): seq<nat>
      requires p < |nodes|
      reads `nodes, num
    {
      NumsOf(num[..], nodes[p])
    }

    ghost predicate IsName(p: nat)
      reads `nodes, xref
    {
      p < |nodes| == xref.Length
    }

    /** The list of p is now r, and no other list has changed. */
    twostate predicate Only(p: nat, r: seq<nat>)
      requires old(p < |nodes|)
      reads `xrefPtr, `nodes, num, xlink, xref
    {
      && Valid() && |nodes| == old(|nodes|) && Nums(p) == r
      && forall q :: 0 <= q < |nodes| && q != p ==> Nums(q) == old(Nums(q))
    }

    /** Writes a number into node x of the list of p. */
    method SetNum(p: nat, ghost i: nat, x: nat, m: nat)
      requires Valid() && IsName(p) && i < |nodes[p]| && nodes[p][i] == x
      modifies num
      ensures Only(p, old(Nums(p))[i := m])
    {
      hide Chain;
      assert NoDup(nodes[p]) && Used(nodes[p], xrefPtr) && x in nodes[p];
      num[x] := m;
      forall q | 0 <= q < |nodes| && q != p
        ensures Nums(q) == old(Nums(q))
      {
        assert Disjoint(nodes[p], nodes[q]);
        NumsFrame(old(num[..]), num[..], nodes[q]);
      }
    }

    /** append_xref, with the new node in front of the list of p; false stands for overflow. */
    method Append(p: nat, m: nat) returns (ok: bool)
      requires Valid() && IsName(p)
      modifies this`xrefPtr, this`nodes, num, xlink, xref
      ensures ok == (old(xrefPtr) < num.Length - 1)
      ensures ok ==> Only(p, [m] + old(Nums(p))) && nodes[p] == [xrefPtr] + old(nodes[p])
      ensures !ok ==> Only(p, old(Nums(p)))
    {
      hide Chain;
      if xrefPtr == num.Length - 1 {
        return false;
      }
      ghost var l, x := nodes[p], xrefPtr + 1;
      assert Used(l, xrefPtr) && NoDup(l) && x !in l;
      ChainPush(xlink[..], l, xref[p], x);
      xrefPtr := xrefPtr + 1;
      num[xrefPtr] := m;
      xlink[xrefPtr] := xref[p];
      xref[p] := xrefPtr;
      assert xlink[..] == old(xlink[..])[x := old(xref[p])];
      Prepended(x, l);
      TableChange(old(xlink[..]), old(xref[..]), nodes, old(xrefPtr), xlink[..], xref[..], xrefPtr, p,
                  [x] + l);
      AppendNums(old(num[..]), num[..], nodes, old(xrefPtr), m);
      NumsConcat(num[..], [x], l);
      nodes := nodes[p := [x] + l];
      ok := true;
    }

    /** new_xref, in the given section; `skip` says that the name is not to be indexed. */
    method NoteXref(p: nat, skip: bool, sectionCount: nat) returns (ok: bool)
      requires Valid() && IsName(p)
      modifies this, num, xlink, xref
      ensures sectionXrefSwitch == old(sectionXrefSwitch)
      ensures if skip && old(xrefSwitch) == 0 then ok && Only(p, old(Nums(p)))
              else xrefSwitch == 0 &&
                   (ok ==> Only(p, NewXref(old(Nums(p)), sectionCount + old(xrefSwitch))))
      ensures !ok ==> old(xrefPtr) == num.Length - 1 && Only(p, old(Nums(p)))
    {
      hide Chain;
      ok := true;
      if skip && xrefSwitch == 0 {
        return;
      }
      var m := sectionCount + xrefSwitch;
      xrefSwitch := 0;
      var q := xref[p];
      EmptyChain(xlink[..], nodes[p], q);
      if q != 0 {
        assert Used(nodes[p], xrefPtr) && q in nodes[p];
        var n := num[q];
        assert Nums(p)[0] == n;
        if n == m || n == m + DEF {
          return;
        } else if m == n + DEF {
          SetNum(p, 0, q, m);
          return;
        }
      }
      ok := Append(p, m);
    }

    /** set_file_flag. */
    method FlagFile(p: nat) returns (ok: bool)
      requires Valid() && IsName(p)
      modifies this`xrefPtr, this`nodes, num, xlink, xref
      ensures ok ==> Only(p, SetFileFlag(old(Nums(p))))
      ensures !ok ==> old(xrefPtr) == num.Length - 1 && Only(p, old(Nums(p)))
    {
      hide Chain;
      var q := xref[p];
      EmptyChain(xlink[..], nodes[p], q);
      assert q != 0 ==> q in nodes[p] && Used(nodes[p], xrefPtr);
      assert q != 0 ==> Nums(p)[0] == num[q];
      ok := true;
      if num[q] != FILE {
        ok := Append(p, FILE);
      }
    }

    /** The loop of new_section_xref: q follows the entries that are larger than the switch. */
    method FindGroup(p: nat, m: nat, switch: nat) returns (q: nat, r: nat, ghost k: nat)
      requires Valid() && IsName(p)
      ensures k <= |nodes[p]| && q == First(nodes[p][k..])
      ensures r == (if k == 0 then 0 else nodes[p][k - 1]) && r <= xrefPtr
      ensures var l := Nums(p);
              NewSectionXref(0, l, m, switch) == if num[r] == m then l else l[..k] + [m] + l[k..]
    {
      hide Chain, TableOK, NumsOf, NewSectionXref;
      ghost var l, ns := Nums(p), nodes[p];
      TableList(xlink[..], xref[..], nodes, xrefPtr, p);
      EmptyChain(xlink[..], ns, xref[p]);
      q, r, k := xref[p], 0, 0;
      assert l[..0] == [] && l[0..] == l && ns[0..] == ns;
      HeadInRange(xlink[..], ns, q);
      while q != 0 && num[q] > switch
        invariant k <= |ns| && q == First(ns[k..]) && q < num.Length
        invariant r == (if k == 0 then 0 else ns[k - 1]) && r <= xrefPtr
        invariant NewSectionXref(0, l, m, switch) ==
                  l[..k] + NewSectionXref(num[r], l[k..], m, switch)
        decreases |ns| - k
      {
        if k < |ns| {
          FirstAt(ns, k, xrefPtr);
        }
        NumAt(num[..], ns, k);
        SectionNext(l, k, num[r], m, switch);
        ChainFrom(xlink[..], ns, xref[p], k);
        r := q;
        q := xlink[q];
        k := k + 1;
        if k < |ns| {
          FirstAt(ns, k, xrefPtr);
        }
      }
      if k < |ns| {
        FirstAt(ns, k, xrefPtr);
        NumAt(num[..], ns, k);
      }
      SectionStop(l, k, num[r], m, switch);
    }

    /** new_section_xref: an entry that is there already leaves the switch as it is. */
    method NoteSection(p: nat, sectionCount: nat) returns (ok: bool)
      requires Valid() && IsName(p) && sectionCount > 0
      modifies this`xrefPtr, this`nodes, this`sectionXrefSwitch, num, xlink, xref
      ensures ok ==> Only(p, NewSectionXref(0, old(Nums(p)), sectionCount + old(sectionXrefSwitch),
                                            old(sectionXrefSwitch)))
      ensures ok ==> sectionXrefSwitch == if nodes == old(nodes) then old(sectionXrefSwitch) else 0
      ensures !ok ==> old(xrefPtr) == num.Length - 1 && Only(p, old(Nums(p)))
    {
      hide Chain, NewSectionXref, NumsOf;
      var m := sectionCount + sectionXrefSwitch;
      var q, r, k := FindGroup(p, m, sectionXrefSwitch);
      ok := true;
      if num[r] == m {
        return;
      }
      ok := AppendAfter(p, q, r, k, m);
      if ok {
        sectionXrefSwitch := 0;
      }
    }

    /** A new node with number m goes between node r, the last of k, and what follows it. */
    method AppendAfter(p: nat, q: nat, r: nat, ghost k: nat, m: nat) returns (ok: bool)
      requires Valid() && IsName(p) && k <= |nodes[p]| && q == First(nodes[p][k..])
      requires r == (if k == 0 then 0 else nodes[p][k - 1]) && r <= xrefPtr
      modifies this`xrefPtr, this`nodes, num, xlink, xref
      ensures ok ==> Only(p, old(Nums(p))[..k] + [m] + old(Nums(p))[k..]) && nodes != old(nodes)
      ensures !ok ==> old(xrefPtr) == num.Length - 1 && Only(p, old(Nums(p)))
    {
      hide Chain, TableOK, NumsOf, Used, NoDup;
      if xrefPtr == num.Length - 1 {
        return false;
      }
      ghost var ns, x: nat := nodes[p], xrefPtr + 1;
      ghost var a, b := ns[..k], ns[k..];
      TableList(xlink[..], xref[..], nodes, xrefPtr, p);
      assert ns == a + b;
      Inserted(a, x, b, xrefPtr);
      LinkIn(xlink[..], xref[p], a, x, b);
      xrefPtr := xrefPtr + 1;
      num[xrefPtr] := m;
      xlink[xrefPtr] := q;
      assert a != [] ==> r == a[|a| - 1] && r > 0;
      if r == 0 {
        xref[p] := xrefPtr;
        assert xlink[..] == old(xlink[..])[x := First(b)];
      } else {
        xlink[r] := xrefPtr;
        assert xlink[..] == old(xlink[..])[x := First(b)][r := x];
      }
      TableChange(old(xlink[..]), old(xref[..]), nodes, old(xrefPtr), xlink[..], xref[..], xrefPtr, p,
                  a + ([x] + b));
      AllUsed(old(xlink[..]), old(xref[..]), nodes, old(xrefPtr));
      AppendNums(old(num[..]), num[..], nodes, old(xrefPtr), m);
      InsertedNums(num[..], a, x, b);
      nodes := nodes[p := a + ([x] + b)];
      ok := true;
    }

    /** The loop of underline_xref: how many entries it passes, and whether it finds the section. */
    method FindUnderlined(p: nat, m: nat) returns (q: nat, ghost k: nat, same: bool)
      requires Valid() && IsName(p)
      ensures k <= |nodes[p]| && q == First(nodes[p][k..]) && q < num.Length
      ensures same ==> k < |nodes[p]| && num[q] == Nums(p)[k] && (num[q] == m || num[q] + DEF == m)
      ensures var l := Nums(p);
              Underlined(l, m) == if !same then l[..k] + [m] + l[k..]
                                  else if l[k] == m then l
                                  else l[k := m]
    {
      hide Chain, Underlined, NumsOf;
      ghost var l, ns := Nums(p), nodes[p];
      assert Used(ns, xrefPtr);
      EmptyChain(xlink[..], ns, xref[p]);
      q, k, same := xref[p], 0, false;
      UnderlinedStart(l, m);
      assert ns[0..] == ns;
      while q != 0
        invariant k <= |ns| && q == First(ns[k..])
        invariant Underlined(l, m) == l[..k] + Underlined(l[k..], m)
        decreases |ns| - k
      {
        assert q in ns;
        ChainFrom(xlink[..], ns, xref[p], k);
        var n := num[q];
        NumAt(num[..], ns, k);
        assert l[k] == n;
        UnderlinedNext(l, k, m);
        if n == m || m == n + DEF {
          same := true;
          return;
        } else if n >= DEF && n < m {
          return;
        }
        q := xlink[q];
        k := k + 1;
      }
      NoFirst(ns, k, xrefPtr);
      UnderlinedNext(l, k, m);
    }

    /** Moves the numbers of the first k entries one node towards the front. */
    method ShiftDown(p: nat, q: nat, ghost k: nat) returns (r: nat)
      requires Valid() && IsName(p) && k < |nodes[p]| && q == First(nodes[p][k + 1..])
      modifies num
      ensures Only(p, Shifted(old(Nums(p)), k)) && r == nodes[p][k]
    {
      hide Chain, NumsOf, Shifted;
      ghost var l, ns := Nums(p), nodes[p];
      assert Used(ns, xrefPtr) && NoDup(ns);
      EmptyChain(xlink[..], ns, xref[p]);
      r := xref[p];
      ghost var i := 0;
      ShiftedStep(l, 0);
      assert r in ns;
      ChainFrom(xlink[..], ns, xref[p], i);
      while xlink[r] != q
        invariant i <= k && r == ns[i] && 0 < r <= xrefPtr && xlink[r] == First(ns[i + 1..])
        invariant Only(p, Shifted(l, i))
        decreases k - i
      {
        SameFirst(ns, i + 1, k + 1, xrefPtr);
        assert i < k && ns[i + 1] in ns && xlink[r] == ns[i + 1];
        ShiftedStep(l, i);
        NumAt(num[..], ns, i + 1);
        SetNum(p, i, r, num[xlink[r]]);
        r := xlink[r];
        i := i + 1;
        ChainFrom(xlink[..], ns, xref[p], i);
      }
      SameFirst(ns, i + 1, k + 1, xrefPtr);
    }

    /** underline_xref, in the given section. */
    method UnderlineXref(p: nat, sectionCount: nat) returns (ok: bool)
      requires Valid() && IsName(p)
      modifies this`xrefPtr, this`nodes, num, xlink, xref
      ensures ok ==> Only(p, Underlined(old(Nums(p)), sectionCount + xrefSwitch))
      ensures !ok ==> old(xrefPtr) == num.Length - 1 && Only(p, old(Nums(p)))
    {
      hide Chain, Underlined, NumsOf, Shifted;
      ghost var l := Nums(p);
      var m := sectionCount + xrefSwitch;
      var q, k, same := FindUnderlined(p, m);
      ok := true;
      if same {
        if num[q] != m {
          SetNum(p, k, q, m);
        }
      } else {
        ok := InsertBefore(p, q, k, m);
      }
    }

    /** The new entry goes in front of the list, and the numbers move so that it stands before q. */
    method InsertBefore(p: nat, q: nat, ghost k: nat, m: nat) returns (ok: bool)
      requires Valid() && IsName(p) && k <= |nodes[p]| && q == First(nodes[p][k..])
      modifies this`xrefPtr, this`nodes, num, xlink, xref
      ensures ok ==> Only(p, old(Nums(p))[..k] + [m] + old(Nums(p))[k..])
      ensures !ok ==> old(xrefPtr) == num.Length - 1 && Only(p, old(Nums(p)))
    {
      hide Chain, NumsOf, Shifted;
      ghost var l, ns := Nums(p), nodes[p];
      ok := Append(p, 0);
      if ok {
        assert nodes[p][k + 1..] == ns[k..];
        var r := ShiftDown(p, q, k);
        ShiftedInsert(l, k, m);
        SetNum(p, k, r, m);
      }
    }

    /** Takes node q, which follows the nodes a, out of the list of p; r is the last node of a. */
    method DropNode(p: nat, q: nat, r: nat, ghost a: seq<nat>, ghost b: seq<nat>)
      requires Valid() && IsName(p) && nodes[p] == a + ([q] + b) && q < xlink.Length
      requires r == if a == [] then 0 else a[|a| - 1]
      modifies this`nodes, xlink, xref
      ensures Valid() && IsName(p) && nodes == old(nodes)[p := a + b]
      ensures xlink[q] == old(xlink[q])
    {
      hide Chain, TableOK, NoDup, Used;
      TableList(xlink[..], xref[..], nodes, xrefPtr, p);
      Middle(a, q, b, xrefPtr);
      Unlink(xlink[..], xref[p], a, q, b, xrefPtr);
      if r != 0 {
        xlink[r] := xlink[q];
        assert xlink[..] == old(xlink[..])[r := First(b)];
      } else {
        xref[p] := xlink[q];
      }
      TableChange(old(xlink[..]), old(xref[..]), nodes, xrefPtr, xlink[..], xref[..], xrefPtr, p,
                  a + b);
      nodes := nodes[p := a + b];
    }

    /** The loop in which `@f` takes the uses out of the list of a name. */
    method PruneUses(p: nat)
      requires Valid() && IsName(p)
      modifies this`nodes, xlink, xref
      ensures Only(p, Pruned(old(Nums(p))))
    {
      hide Chain, NumsOf, Pruned, TableOK;
      ghost var ns, ns0 := nodes[p], nodes;
      TableList(xlink[..], xref[..], nodes, xrefPtr, p);
      EmptyChain(xlink[..], ns, xref[p]);
      var q, r := xref[p], 0;
      ghost var a, b := [], ns;
      PrunedStart(num[..], ns);
      assert a + b == ns && ns0 == ns0[p := ns];
      while q != 0
        invariant q == First(b) && r == (if a == [] then 0 else a[|a| - 1])
        invariant Valid() && IsName(p) && nodes == ns0[p := a + b]
        invariant Pruned(NumsOf(num[..], ns)) == NumsOf(num[..], a) + Pruned(NumsOf(num[..], b))
        decreases |b|
      {
        ghost var c := b[1..];
        assert b == [q] + c;
        TableList(xlink[..], xref[..], nodes, xrefPtr, p);
        FollowLink(xlink[..], a, q, c, xref[p]);
        PrunedNext(num[..], a, q, c);
        if num[q] < DEF {
          DropNode(p, q, r, a, c);
        } else {
          assert a + ([q] + c) == (a + [q]) + c;
          a := a + [q];
          r := q;
        }
        q := xlink[q];
        b := c;
      }
      TableList(xlink[..], xref[..], nodes, xrefPtr, p);
      assert (a + b)[|a|..] == b;
      NoFirst(a + b, |a|, xrefPtr);
      PrunedStart(num[..], b);
      assert a + b == a;
    }

    /**
      The index entry of p: its list is turned round in place and its numbers go out from the new
      head on. The list of p is left with its old first node only.
     */
    method PrintXrefs(p: nat) returns (printed: seq<nat>)
      requires Valid() && IsName(p) && nodes[p] != []
      modifies this`nodes, xlink
      ensures printed == Reversed(old(Nums(p))) && Only(p, old(Nums(p))[..1])
    {
      hide Chain, NumsOf, Reversed, Turning;
      ghost var ns, links := nodes[p], xlink[..];
      assert NoDup(ns);
      EmptyChain(xlink[..], ns, xref[p]);
      var rest, cur := xref[p], 0;
      ghost var done, left := [], ns;
      TurnStart(ns, xlink[..]);
      while rest != 0
        invariant Turning(ns, done, left, xlink[..])
        invariant rest == First(left) && cur == First(done)
        invariant forall x :: 0 <= x < xlink.Length && x !in ns ==> xlink[x] == links[x]
        invariant nodes == old(nodes)
        decreases |left|
      {
        TurnStep(ns, done, left, xlink[..]);
        ghost var before := xlink[..];
        var next := xlink[rest];
        xlink[rest] := cur;
        assert xlink[..] == before[left[0] := First(done)];
        done, left := [rest] + done, left[1..];
        cur := rest;
        rest := next;
      }
      assert left == [] by {
        TurnedAll(ns, done, left, xlink[..]);
      }
      TurnEnd(num[..], ns, done, xlink[..]);
      TableChange(links, xref[..], nodes, xrefPtr, xlink[..], xref[..], xrefPtr, p, ns[..1]);
      nodes := nodes[p := ns[..1]];
      printed := PrintFrom(cur, done);
    }

    /** The numbers of a list, from its head on. */
    method PrintFrom(head: nat, ghost l: seq<nat>) returns (printed: seq<nat>)
      requires Valid() && Chain(xlink[..], l, head)
      ensures printed == NumsOf(num[..], l)
    {
      hide Chain, NumsOf;
      var cur := head;
      printed := [];
      ghost var k := 0;
      assert l[0..] == l;
      PrunedStart(num[..], []);
      assert l[..0] == [];
      while cur != 0
        invariant 0 <= k <= |l| && Chain(xlink[..], l[k..], cur)
        invariant printed == NumsOf(num[..], l[..k])
        decreases |l| - k
      {
        EmptyChain(xlink[..], l[k..], cur);
        ChainFrom(xlink[..], l, head, k);
        ChainFrom(xlink[..], l, head, k + 1);
        assert l[..k + 1] == l[..k] + [cur];
        NumsConcat(num[..], l[..k], [cur]);
        NumOne(num[..], cur);
        printed := printed + [num[cur]];
        cur := xlink[cur];
        k := k + 1;
      }
      EmptyChain(xlink[..], l[k..], cur);
      assert l[..k] == l;
    }
  }

  /** The first k + 1 numbers after the first one moved one place towards the front. */
  function Shifted(l: seq<nat>, k: nat): (r: seq<nat>)
    requires k < |l|
    ensures |r| == |l|
  {
    l[1..k + 1] + l[k..]
  }

  lemma ShiftedStep(l: seq<nat>, i: nat)
    requires i < |l|
    ensures i == 0 ==> Shifted(l, 0) == l
    ensures i + 1 < |l| ==>
              Shifted(l, i)[i + 1] == l[i + 1] &&
              Shifted(l, i)[i := Shifted(l, i)[i + 1]] == Shifted(l, i + 1)
  {
    assert l[1..1] + l[0..] == l;
    if i + 1 < |l| {
      assert l[1..i + 2] == l[1..i + 1] + [l[i + 1]];
    }
  }

  lemma ShiftedInsert(l: seq<nat>, k: nat, m: nat)
    requires k <= |l|
    ensures Shifted([0] + l, k)[k := m] == l[..k] + [m] + l[k..]
  {
    var all := [0] + l;
    assert all[1..k + 1] == l[..k];
    assert all[k..] == [all[k]] + l[k..];
  }

  lemma UnderlinedStart(l: seq<nat>, m: nat)
    ensures Underlined(l, m) == l[..0] + Underlined(l[0..], m)
  {
    hide Underlined;
    assert l[..0] == [] && l[0..] == l;
  }

  /** What underline_xref makes of the entry at place k. */
  lemma UnderlinedNext(l: seq<nat>, k: nat, m: nat)
    requires k <= |l| && Underlined(l, m) == l[..k] + Underlined(l[k..], m)
    ensures Underlined(l, m) == if k == |l| then l[..k] + [m] + l[k..]
                                else if l[k] == m then l
                                else if m == l[k] + DEF then l[k := m]
                                else if DEF <= l[k] < m then l[..k] + [m] + l[k..]
                                else l[..k + 1] + Underlined(l[k + 1..], m)
  {
    hide Underlined;
    if k < |l| {
      var x, t := l[k], l[k + 1..];
      UnderlinedUnfold(l[k..], m);
      assert l[k..][1..] == t;
      Resplit(l, k, [m] + t);
      Resplit(l, k, [x] + Underlined(t, m));
      assert [m] + l[k..] == [m] + ([x] + t);
      Assoc(l[..k], [m], l[k..]);
      Assoc(l[..k], [x], Underlined(t, m));
    } else {
      assert l[k..] == [];
      UnderlinedNone(m);
      assert l[..k] + [m] + [] == l[..k] + [m];
    }
  }

  lemma UnderlinedNone(m: nat)
    ensures Underlined([], m) == [m]
  {
  }

  lemma UnderlinedUnfold(l: seq<nat>, m: nat)
    requires l != []
    ensures Underlined(l, m) == if l[0] == m then l
                                else if m == l[0] + DEF then [m] + l[1..]
                                else if DEF <= l[0] < m then [m] + l
                                else [l[0]] + Underlined(l[1..], m)
  {
  }

  lemma Resplit(l: seq<nat>, k: nat, r: seq<nat>)
    requires k < |l|
    ensures l[..k] + l[k..] == l && l[..k + 1] == l[..k] + [l[k]]
    ensures r != [] && r[1..] == l[k + 1..] ==> l[..k] + r == l[k := r[0]]
  {
  }

  /** Different places of a list begin with different nodes. */
  lemma SameFirst(l: seq<nat>, i: nat, j: nat, top: nat)
    requires NoDup(l) && Used(l, top) && i <= j <= |l|
    ensures First(l[i..]) == First(l[j..]) <==> i == j
  {
    assert i < |l| ==> l[i] in l;
  }

  lemma Prepended(x: nat, l: seq<nat>)
    requires x !in l && NoDup(l)
    ensures NoDup([x] + l) && forall y :: y in [x] + l <==> y == x || y in l
  {
  }

  /** A fresh node between two parts of a list. */
  lemma Inserted(a: seq<nat>, x: nat, b: seq<nat>, top: nat)
    requires NoDup(a + b) && Used(a + b, top) && top < x
    ensures NoDup(a + ([x] + b)) && x !in a + b && x !in b
    ensures forall y :: y in a + ([x] + b) <==> y in a + b || y == x
    ensures forall y :: y in a + b ==> 0 < y <= top
    ensures a != [] ==>
              var r := a[|a| - 1];
              r in a + b && r !in b && 0 < r && forall i :: 0 <= i < |a| - 1 ==> a[i] != r
  {
    var all, l := a + ([x] + b), a + b;
    forall i, j | 0 <= i < j < |all|
      ensures all[i] != all[j]
    {
      var i' := if i <= |a| then i else i - 1;
      var j' := if j <= |a| then j else j - 1;
      assert i != |a| ==> all[i] == l[i'] && all[i] in l;
      assert j != |a| ==> all[j] == l[j'] && all[j] in l;
    }
    if a != [] {
      var r := a[|a| - 1];
      assert l[|a| - 1] == r;
      forall y | y in b
        ensures y != r
      {
        var i :| 0 <= i < |b| && b[i] == y;
        assert l[|a| + i] == y;
      }
      forall i | 0 <= i < |a| - 1
        ensures a[i] != r
      {
        assert l[i] == a[i];
      }
    }
  }

  /** Linking a fresh node in between two parts of a list. */
  lemma LinkIn(link: seq<nat>, head: nat, a: seq<nat>, x: nat, b: seq<nat>)
    requires Chain(link, a + b, head) && 0 < x < |link| && x !in a + b && x !in b
    requires a != [] ==>
               var r := a[|a| - 1];
               r in a + b && r !in b && r != x && forall i :: 0 <= i < |a| - 1 ==> a[i] != r
    ensures a == [] ==> Chain(link[x := First(b)], a + ([x] + b), x)
    ensures a != [] ==> a[|a| - 1] < |link| &&
                        Chain(link[x := First(b)][a[|a| - 1] := x], a + ([x] + b), head)
  {
    hide Chain;
    ChainFrom(link, a + b, head, |a|);
    assert (a + b)[|a|..] == b;
    ChainPush(link, b, First(b), x);
    var mid := link[x := First(b)];
    if a == [] {
      assert a + ([x] + b) == [x] + b;
    } else {
      var last := |a| - 1;
      ChainFrom(link, a + b, head, last);
      ChainFrame(link, a + b, head, mid);
      var r := a[last];
      assert (a + b)[last] == r;
      ChainFrame(mid, [x] + b, x, mid[r := x]);
      Relink(mid, mid[r := x], a, b, [x] + b, head);
    }
  }

  lemma InsertedNums(num: seq<nat>, a: seq<nat>, x: nat, b: seq<nat>)
    ensures var l := NumsOf(num, a + b);
            NumsOf(num, a + ([x] + b)) == l[..|a|] + NumsOf(num, [x]) + l[|a|..]
  {
    NumsConcat(num, a, b);
    NumsConcat(num, [x], b);
    NumsConcat(num, a, [x] + b);
  }

  lemma AllUsed(xlink: seq<nat>, xref: seq<nat>, nodes: seq<seq<nat>>, top: nat)
    requires TableOK(xlink, xref, nodes, top)
    ensures forall p :: 0 <= p < |nodes| ==> Used(nodes[p], top)
  {
  }

  /** What new_section_xref makes of an entry that is larger than the switch. */
  lemma SectionNext(l: seq<nat>, k: nat, prev: nat, m: nat, switch: nat)
    requires k < |l| && l[k] > switch
    ensures l[..k] + NewSectionXref(prev, l[k..], m, switch) ==
            l[..k + 1] + NewSectionXref(l[k], l[k + 1..], m, switch)
  {
    assert l[k..][1..] == l[k + 1..] && l[..k + 1] == l[..k] + [l[k]];
    Assoc(l[..k], [l[k]], NewSectionXref(l[k], l[k + 1..], m, switch));
  }

  lemma SectionStop(l: seq<nat>, k: nat, prev: nat, m: nat, switch: nat)
    requires k <= |l| && (k < |l| ==> l[k] <= switch)
    ensures l[..k] + NewSectionXref(prev, l[k..], m, switch) ==
            if prev == m then l else l[..k] + [m] + l[k..]
  {
    assert l == l[..k] + l[k..];
    Assoc(l[..k], [m], l[k..]);
  }

  /** Writing into the next free node changes no list. */
  lemma AppendNums(num: seq<nat>, num': seq<nat>, nodes: seq<seq<nat>>, top: nat, m: nat)
    requires top + 1 < |num| && num' == num[top + 1 := m]
    requires forall p :: 0 <= p < |nodes| ==> Used(nodes[p], top)
    ensures forall p :: 0 <= p < |nodes| ==> NumsOf(num', nodes[p]) == NumsOf(num, nodes[p])
    ensures NumsOf(num', [top + 1]) == [m]
  {
    hide NumsOf;
    forall p | 0 <= p < |nodes|
      ensures NumsOf(num', nodes[p]) == NumsOf(num, nodes[p])
    {
      NumsFrame(num, num', nodes[p]);
    }
    NumOne(num', top + 1);
  }
}
