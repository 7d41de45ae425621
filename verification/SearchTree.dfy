/**
  The binary search tree of section-name prefixes: its order, the names that match a query, and
  its representation by two link arrays with 0 for NULL.
 */
module SearchTree {
  import opened NameOrder

  datatype Tree = Leaf | Node(left: Tree, name: nat, right: Tree)

  function Elems(t: Tree): set<nat> {
    match t
    case Leaf => {}
    case Node(l, n, r) => Elems(l) + {n} + Elems(r)
  }

  /** Stored prefixes are in search-tree order, and any two split at some character. */
  predicate Ordered(t: Tree, keys: seq<string>) {
    match t
    case Leaf => true
    case Node(l, n, r) =>
      && n < |keys| && (forall m :: m in Elems(t) ==> m < |keys|)
      && Ordered(l, keys) && Ordered(r, keys)
      && (forall m :: m in Elems(l) ==> Before(keys[m], keys[n]))
      && (forall m :: m in Elems(r) ==> Before(keys[n], keys[m]))
  }

  /** All names whose prefix starts with the query or the other way round: a scan of the names. */
  function Matches(t: Tree, keys: seq<string>, q: string): set<nat> {
    set n | n in Elems(t) && n < |keys| && Comparable(keys[n], q)
  }

  lemma {:induction false} InRange(t: Tree, keys: seq<string>)
    requires Ordered(t, keys)
    ensures forall m :: m in Elems(t) ==> m < |keys|
  {
  }

  /** Any two different names of an ordered tree have incomparable prefixes. */
  lemma {:induction false} PairwiseIncomparable(t: Tree, keys: seq<string>, a: nat, b: nat)
    requires Ordered(t, keys) && a in Elems(t) && b in Elems(t) && a != b
    ensures !Comparable(keys[a], keys[b])
  {
    var Node(l, n, r) := t;
    if a in Elems(l) && b in Elems(l) {
      PairwiseIncomparable(l, keys, a, b);
    } else if a in Elems(r) && b in Elems(r) {
      PairwiseIncomparable(r, keys, a, b);
    } else if a in Elems(l) && b in Elems(r) {
      BeforeTransitive(keys[a], keys[n], keys[b]);
      BeforeIrreflexive(keys[a], keys[b]);
    } else if a in Elems(r) && b in Elems(l) {
      BeforeTransitive(keys[b], keys[n], keys[a]);
      BeforeIrreflexive(keys[b], keys[a]);
    } else if a in Elems(l) || b in Elems(r) {
      BeforeIrreflexive(keys[a], keys[b]);
    } else {
      BeforeIrreflexive(keys[b], keys[a]);
    }
  }

  /** A query that splits from the root's prefix can only match on one side. */
  lemma MatchesGoLeft(t: Tree, keys: seq<string>, q: string)
    requires t.Node? && Ordered(t, keys) && Before(q, keys[t.name])
    ensures Matches(t, keys, q) == Matches(t.left, keys, q)
  {
    BeforeIrreflexive(q, keys[t.name]);
    forall n | n in Elems(t.right)
      ensures !Comparable(keys[n], q)
    {
      BeforeTransitive(q, keys[t.name], keys[n]);
      BeforeIrreflexive(q, keys[n]);
    }
  }

  lemma MatchesGoRight(t: Tree, keys: seq<string>, q: string)
    requires t.Node? && Ordered(t, keys) && Before(keys[t.name], q)
    ensures Matches(t, keys, q) == Matches(t.right, keys, q)
  {
    BeforeIrreflexive(keys[t.name], q);
    forall n | n in Elems(t.left)
      ensures !Comparable(keys[n], q)
    {
      BeforeTransitive(keys[n], keys[t.name], q);
      BeforeIrreflexive(keys[n], q);
    }
  }

  lemma MatchesAtRoot(t: Tree, keys: seq<string>, q: string)
    requires t.Node? && Ordered(t, keys) && Comparable(keys[t.name], q)
    ensures Matches(t, keys, q) ==
            Matches(t.left, keys, q) + {t.name} + Matches(t.right, keys, q)
    ensures t.name !in Elems(t.left) && t.name !in Elems(t.right)
  {
    forall n | n in Elems(t.left) || n in Elems(t.right)
      ensures n != t.name
    {
      if n in Elems(t.left) {
        BeforeIrreflexive(keys[n], keys[t.name]);
      } else {
        BeforeIrreflexive(keys[t.name], keys[n]);
      }
    }
  }

  // ----- Insertion

  function Insert(t: Tree, keys: seq<string>, q: string, n: nat): Tree {
    match t
    case Leaf => Node(Leaf, n, Leaf)
    case Node(l, m, r) =>
      if m < |keys| && Cmp(q, keys[m]).Less? then Node(Insert(l, keys, q, n), m, r)
      else Node(l, m, Insert(r, keys, q, n))
  }

  /** Insertion only looks at the keys of the tree. */
  lemma {:induction false} InsertFrame(t: Tree, keys: seq<string>, keys': seq<string>, q: string,
                                       n: nat)
    requires forall m :: m in Elems(t) ==> m < |keys| && m < |keys'| && keys[m] == keys'[m]
    ensures Insert(t, keys, q, n) == Insert(t, keys', q, n)
  {
    match t
    case Leaf =>
    case Node(l, m, r) =>
      assert m in Elems(t);
      assert forall x :: x in Elems(l) ==> x in Elems(t);
      assert forall x :: x in Elems(r) ==> x in Elems(t);
      InsertFrame(l, keys, keys', q, n);
      InsertFrame(r, keys, keys', q, n);
  }

  lemma {:induction false} InsertElems(t: Tree, keys: seq<string>, q: string, n: nat)
    ensures Elems(Insert(t, keys, q, n)) == Elems(t) + {n}
  {
    match t
    case Leaf =>
    case Node(l, m, r) =>
      InsertElems(l, keys, q, n);
      InsertElems(r, keys, q, n);
  }

  /** Adding a name that matches nothing keeps the order. */
  lemma {:induction false} InsertOrdered(t: Tree, keys: seq<string>, n: nat)
    requires Ordered(t, keys) && n < |keys| && Matches(t, keys, keys[n]) == {}
    ensures Ordered(Insert(t, keys, keys[n], n), keys)
  {
    match t
    case Leaf =>
    case Node(l, m, r) =>
      var q := keys[n];
      hide Cmp, Comparable;
      assert m in Elems(t) && m !in Matches(t, keys, q);
      CmpMeaning(keys[m], q);
      CmpMeaning(q, keys[m]);
      hide Matches;
      if Cmp(q, keys[m]).Less? {
        MatchesGoLeft(t, keys, q);
        InsertOrdered(l, keys, n);
        InsertElems(l, keys, q, n);
      } else {
        MatchesGoRight(t, keys, q);
        InsertOrdered(r, keys, n);
        InsertElems(r, keys, q, n);
      }
  }

  /** Shortening the prefix of the only match to the query keeps the order. */
  lemma {:induction false} ShortenOrdered(t: Tree, keys: seq<string>, r: nat, q: string)
    requires Ordered(t, keys) && r < |keys| && q <= keys[r]
    requires forall n :: n in Elems(t) && n != r ==> !Comparable(keys[n], q)
    ensures Ordered(t, keys[r := q])
  {
    match t
    case Leaf =>
    case Node(l, n, rt) =>
      assert forall x :: x in Elems(l) ==> x in Elems(t);
      assert forall x :: x in Elems(rt) ==> x in Elems(t);
      ShortenOrdered(l, keys, r, q);
      ShortenOrdered(rt, keys, r, q);
      var keys' := keys[r := q];
      forall m | m in Elems(l)
        ensures Before(keys'[m], keys'[n])
      {
        BeforeIrreflexive(keys[m], keys[n]);
        if n == r && m != r {
          BeforePrefix(keys[m], keys[r], q);
        } else if m == r && n != r {
          BeforePrefix(keys[n], keys[r], q);
        }
      }
      forall m | m in Elems(rt)
        ensures Before(keys'[n], keys'[m])
      {
        BeforeIrreflexive(keys[n], keys[m]);
        if n == r && m != r {
          BeforePrefix(keys[m], keys[r], q);
        } else if m == r && n != r {
          BeforePrefix(keys[n], keys[r], q);
        }
      }
  }

  /** Keys outside the tree do not matter. */
  lemma {:induction false} OrderedFrame(t: Tree, keys: seq<string>, keys': seq<string>)
    requires Ordered(t, keys) && |keys| <= |keys'|
    requires forall n :: n in Elems(t) ==> n < |keys| && keys'[n] == keys[n]
    ensures Ordered(t, keys')
  {
    match t
    case Leaf =>
    case Node(l, n, r) =>
      assert forall x :: x in Elems(l) ==> x in Elems(t);
      assert forall x :: x in Elems(r) ==> x in Elems(t);
      OrderedFrame(l, keys, keys');
      OrderedFrame(r, keys, keys');
  }

  // ----- Representation

  /** The links below p hold tree t; 0 is NULL. */
  ghost predicate Repr(link: seq<nat>, rlink: seq<nat>, p: nat, t: Tree)
    decreases t
  {
    match t
    case Leaf => p == 0
    case Node(l, n, r) =>
      p == n && 0 < n < |link| && n < |rlink| && Repr(link, rlink, link[n], l) &&
      Repr(link, rlink, rlink[n], r)
  }

  /** Links of entries outside the tree do not matter. */
  lemma {:induction false} ReprFrame(link: seq<nat>, rlink: seq<nat>, link': seq<nat>,
                                     rlink': seq<nat>, p: nat, t: Tree)
    requires Repr(link, rlink, p, t) && |link'| >= |link| && |rlink'| >= |rlink|
    requires forall n :: n in Elems(t) && n < |link| && n < |rlink| ==>
               link'[n] == link[n] && rlink'[n] == rlink[n]
    ensures Repr(link', rlink', p, t)
    decreases t
  {
    match t
    case Leaf =>
    case Node(l, n, r) =>
      assert forall x :: x in Elems(l) ==> x in Elems(t);
      assert forall x :: x in Elems(r) ==> x in Elems(t);
      ReprFrame(link, rlink, link', rlink', link[n], l);
      ReprFrame(link, rlink, link', rlink', rlink[n], r);
  }

  /** Where a search that matches nothing ends: the last name compared and the last result. */
  function Parent(t: Tree, keys: seq<string>, q: string, par: nat, c: Order): (nat, Order) {
    match t
    case Leaf => (par, c)
    case Node(l, m, r) =>
      var d := if m < |keys| then Cmp(q, keys[m]) else Greater;
      if d.Less? then Parent(l, keys, q, m, d) else Parent(r, keys, q, m, d)
  }

  lemma {:induction false} ParentInTree(t: Tree, keys: seq<string>, q: string, par: nat, c: Order)
    requires t.Node?
    ensures Parent(t, keys, q, par, c).0 in Elems(t)
    ensures forall p, d :: Parent(t, keys, q, p, d) == Parent(t, keys, q, par, c)
  {
    var Node(l, m, r) := t;
    var d := if m < |keys| then Cmp(q, keys[m]) else Greater;
    var s := if d.Less? then l else r;
    if s.Node? {
      ParentInTree(s, keys, q, m, d);
    }
  }

  /** No name occurs twice. */
  predicate Distinct(t: Tree) {
    match t
    case Leaf => true
    case Node(l, n, r) =>
      n !in Elems(l) && n !in Elems(r) && Elems(l) !! Elems(r) && Distinct(l) && Distinct(r)
  }

  lemma {:induction false} OrderedDistinct(t: Tree, keys: seq<string>)
    requires Ordered(t, keys)
    ensures Distinct(t)
  {
    match t
    case Leaf =>
    case Node(l, n, r) =>
      OrderedDistinct(l, keys);
      OrderedDistinct(r, keys);
      forall m | m in Elems(l)
        ensures m != n && m !in Elems(r)
      {
        BeforeIrreflexive(keys[m], keys[n]);
      }
      forall m | m in Elems(r)
        ensures m != n
      {
        BeforeIrreflexive(keys[n], keys[m]);
      }
  }

  /** Hanging a fresh name below its parent represents the insertion. */
  lemma {:induction false} InsertRepr(link: seq<nat>, rlink: seq<nat>, p: nat, t: Tree,
                                      keys: seq<string>, q: string, n: nat)
    requires Repr(link, rlink, p, t) && Distinct(t) && t.Node?
    requires 0 < n < |link| && n < |rlink| && n !in Elems(t) && link[n] == 0 && rlink[n] == 0
    ensures var (par, c) := Parent(t, keys, q, 0, Equal);
            && par in Elems(t) && par < |link| && par < |rlink|
            && (if c.Less? then Repr(link[par := n], rlink, p, Insert(t, keys, q, n))
                else Repr(link, rlink[par := n], p, Insert(t, keys, q, n)))
    decreases t
  {
    var Node(l, m, r) := t;
    var d := if m < |keys| then Cmp(q, keys[m]) else Greater;
    var s := if d.Less? then l else r;
    var (par, c) := Parent(t, keys, q, 0, Equal);
    if s.Node? {
      InsertRepr(link, rlink, if d.Less? then link[m] else rlink[m], s, keys, q, n);
      ParentInTree(s, keys, q, m, d);
    }
    var link' := if c.Less? then link[par := n] else link;
    var rlink' := if c.Less? then rlink else rlink[par := n];
    ReprFrame(link, rlink, link', rlink', if d.Less? then rlink[m] else link[m],
              if d.Less? then r else l);
  }
}
