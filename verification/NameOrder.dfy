/** How section names compare: web_strcmp and the order it induces. */
module NameOrder {

  /** The results of web_strcmp(j, k): `Extension` says j extends k, `Prefix` that k extends j. */
  datatype Order = Less | Equal | Greater | Prefix | Extension

  function Cmp(j: string, k: string): Order {
    if k == [] then (if j == [] then Equal else Extension)
    else if j == [] then Prefix
    else if j[0] == k[0] then Cmp(j[1..], k[1..])
    else if j[0] < k[0] then Less
    else Greater
  }

  /** The loop of web_strcmp. */
  method WebStrcmp(j: string, k: string) returns (c: Order)
    ensures c == Cmp(j, k)
  {
    var i := 0;
    while i < |k| && i < |j| && j[i] == k[i]
      invariant i <= |j| && i <= |k|
      invariant Cmp(j, k) == Cmp(j[i..], k[i..])
    {
      i := i + 1;
    }
    if i == |k| {
      c := if i == |j| then Equal else Extension;
    } else if i == |j| {
      c := Prefix;
    } else {
      c := if j[i] < k[i] then Less else Greater;
    }
  }

  /** j and k agree before position i, where j has the smaller character. */
  predicate SplitAt(j: string, k: string, i: nat) {
    i < |j| && i < |k| && j[..i] == k[..i] && j[i] < k[i]
  }

  predicate Before(j: string, k: string) {
    Cmp(j, k).Less?
  }

  /** One of the two strings starts with the other. */
  predicate Comparable(j: string, k: string) {
    j <= k || k <= j
  }

  lemma {:induction false} LessSplits(j: string, k: string) returns (i: nat)
    requires Cmp(j, k).Less?
    ensures SplitAt(j, k, i)
  {
    if j[0] == k[0] {
      i := LessSplits(j[1..], k[1..]);
      assert j[..i + 1] == [j[0]] + j[1..][..i] && k[..i + 1] == [k[0]] + k[1..][..i];
      i := i + 1;
    } else {
      i := 0;
    }
  }

  lemma {:induction false} SplitIsLess(j: string, k: string, i: nat)
    requires SplitAt(j, k, i)
    ensures Cmp(j, k).Less? && Cmp(k, j).Greater?
    decreases i
  {
    if i > 0 {
      assert j[0] == j[..i][0] && k[0] == k[..i][0];
      assert j[1..][..i - 1] == j[..i][1..] && k[1..][..i - 1] == k[..i][1..];
      SplitIsLess(j[1..], k[1..], i - 1);
    }
  }

  /** What each of the five results says about the two strings. */
  lemma {:induction false} CmpMeaning(j: string, k: string)
    ensures Cmp(j, k).Equal? <==> j == k
    ensures Cmp(j, k).Extension? <==> k < j
    ensures Cmp(j, k).Prefix? <==> j < k
    ensures Cmp(j, k).Greater? <==> Cmp(k, j).Less?
    ensures Cmp(j, k).Less? || Cmp(j, k).Greater? <==> !Comparable(j, k)
  {
    if j != [] && k != [] && j[0] == k[0] {
      CmpMeaning(j[1..], k[1..]);
      assert j == [j[0]] + j[1..] && k == [k[0]] + k[1..];
    }
  }

  lemma BeforeTransitive(a: string, b: string, c: string)
    requires Before(a, b) && Before(b, c)
    ensures Before(a, c)
  {
    var i := LessSplits(a, b);
    var j := LessSplits(b, c);
    var m := if i < j then i else j;
    assert a[..m] == b[..m] by { assert a[..i][..m] == a[..m] && b[..i][..m] == b[..m]; }
    assert c[..m] == b[..m] by { assert c[..j][..m] == c[..m] && b[..j][..m] == b[..m]; }
    if i < j {
      assert c[i] == c[..j][i] == b[..j][i] == b[i];
    } else if j < i {
      assert a[j] == a[..i][j] == b[..i][j] == b[j];
    }
    SplitIsLess(a, c, m);
  }

  lemma BeforeIrreflexive(a: string, b: string)
    requires Before(a, b)
    ensures a != b && !Comparable(a, b) && !Before(b, a)
  {
    CmpMeaning(a, b);
    CmpMeaning(b, a);
  }

  /** A string that splits from k, but not comparably to k's prefix q, splits from q alike. */
  lemma BeforePrefix(a: string, k: string, q: string)
    requires q <= k && !Comparable(a, q)
    ensures Before(a, k) <==> Before(a, q)
    ensures Before(k, a) <==> Before(q, a)
  {
    CmpMeaning(a, q);
    CmpMeaning(q, a);
    if Before(a, q) {
      var i := LessSplits(a, q);
      assert k[..i] == q[..i] && k[i] == q[i];
      SplitIsLess(a, k, i);
      BeforeIrreflexive(a, k);
      BeforeIrreflexive(a, q);
    } else {
      var i := LessSplits(q, a);
      assert k[..i] == q[..i] && k[i] == q[i];
      SplitIsLess(k, a, i);
      BeforeIrreflexive(k, a);
      BeforeIrreflexive(q, a);
    }
  }
}
