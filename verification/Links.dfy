/**
  Lists threaded through an array of links, with 0 at their end: CWEAVE keeps names and cross
  references in such lists.
 */
module Links {
  /** Following `link` from `head` visits exactly the nodes of l. */
  ghost predicate Chain(link: seq<nat>, l: seq<nat>, head: nat) {
    if l == [] then head == 0
    else head == l[0] && 0 < head < |link| && Chain(link, l[1..], link[head])
  }

  function First(l: seq<nat>): nat {
    if l == [] then 0 else l[0]
  }

  ghost predicate NoDup(l: seq<nat>) {
    forall i, j :: 0 <= i < j < |l| ==> l[i] != l[j]
  }

  /** Links outside the list do not matter. */
  lemma {:induction false} ChainFrame(link: seq<nat>, l: seq<nat>, head: nat, link': seq<nat>)
    requires Chain(link, l, head) && |link'| == |link|
    requires forall x :: 0 <= x < |link| && x in l ==> link'[x] == link[x]
    ensures Chain(link', l, head)
  {
    if l != [] {
      assert head in l;
      ChainFrame(link, l[1..], link[head], link');
    }
  }

  /** A new node in front. */
  lemma ChainPush(link: seq<nat>, l: seq<nat>, head: nat, x: nat)
    requires Chain(link, l, head) && 0 < x < |link| && x !in l
    ensures Chain(link[x := head], [x] + l, x)
  {
    ChainFrame(link, l, head, link[x := head]);
    assert ([x] + l)[1..] == l;
  }

  lemma EmptyChain(link: seq<nat>, l: seq<nat>, head: nat)
    requires Chain(link, l, head)
    ensures head == First(l) && (head == 0 <==> l == [])
  {
  }

  lemma ChainHead(link: seq<nat>, l: seq<nat>, head: nat)
    requires Chain(link, l, head) && l != []
    ensures 0 < head < |link| && (link[head] == 0 <==> |l| == 1)
  {
  }

  /** The rest of a list from place i on, and the link that leads on from there. */
  lemma {:induction false} ChainFrom(link: seq<nat>, l: seq<nat>, head: nat, i: nat)
    requires Chain(link, l, head) && i <= |l|
    ensures Chain(link, l[i..], First(l[i..]))
    ensures i < |l| ==> 0 < l[i] < |link| && link[l[i]] == First(l[i + 1..])
  {
    if i == 0 {
      assert l[0..] == l;
      if l != [] {
        EmptyChain(link, l[1..], link[head]);
      }
    } else {
      assert l[1..][i - 1..] == l[i..] && (i < |l| ==> l[1..][i..] == l[i + 1..]);
      ChainFrom(link, l[1..], link[head], i - 1);
    }
  }

  /** What follows a is replaced: the last node of a is linked to c instead. */
  lemma {:induction false} Relink(link: seq<nat>, link': seq<nat>, a: seq<nat>, b: seq<nat>,
                                  c: seq<nat>, head: nat)
    requires a != [] && |link'| == |link|
    requires Chain(link, a + b, head) && Chain(link', c, First(c))
    requires forall i :: 0 <= i < |a| && a[i] < |link| ==>
               link'[a[i]] == if i < |a| - 1 then link[a[i]] else First(c)
    ensures Chain(link', a + c, head)
  {
    assert (a + b)[1..] == a[1..] + b && (a + c)[1..] == a[1..] + c;
    assert a[0] == head;
    if |a| == 1 {
      assert a[1..] + c == c;
    } else {
      forall i | 0 <= i < |a[1..]| && a[1..][i] < |link|
        ensures link'[a[1..][i]] == if i < |a[1..]| - 1 then link[a[1..][i]] else First(c)
      {
        assert a[1..][i] == a[i + 1];
      }
      Relink(link, link', a[1..], b, c, link[head]);
    }
  }

  lemma NotBefore(l: seq<nat>, k: nat)
    requires NoDup(l) && k < |l|
    ensures l[k] !in l[..k]
  {
  }

  lemma NotAfter(l: seq<nat>, k: nat)
    requires NoDup(l) && k < |l|
    ensures l[k] !in l[k + 1..]
  {
  }
}
