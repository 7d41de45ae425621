/**
  section_lookup over the arrays of name_dir, and what any sequence of lookups keeps.
 */
module SectionLookup {
  import opened NameOrder
  import opened SearchTree
  import opened NameChunks
  import opened SectionTable

  /** The sections a query may mean: a scan of all prefixes. */
  function Hits(t: map<nat, Section>, q: string): set<nat> {
    set p | p in t && Comparable(t[p].prefix, q)
  }

  /**
    What a lookup does: no hit adds the section at `p`, two hits are an ambiguity, one hit is
    updated. The table, the result and whether an error was reported.
   */
  ghost predicate Looked(t: map<nat, Section>, q: string, ispref: bool,
                         t': map<nat, Section>, p: nat, err: bool) {
    var hits := Hits(t, q);
    if hits == {} then p != 0 && p !in t && !err && t' == t[p := Section(q, q, !ispref)]
    else if exists a, b :: a in hits && b in hits && a != b then p == 0 && err && t' == t
    else hits == {p} && (t[p := Updated(t[p], q, ispref).0], Updated(t[p], q, ispref).1) == (t', err)
  }

  lemma TreeHits(d: Dir, tree: Tree, chains: map<nat, seq<nat>>, q: string)
    requires TableOK(d, tree, chains) && Shape(d)
    ensures Matches(tree, KeysOf(d.text, d.plen), q) == Hits(Sections(d, chains), q)
  {
    hide TableOK, NameOK, Owned;
    TableTree(d, tree, chains);
    hide TreeOK;
    forall p | p in chains
      ensures p < |d.text| && Sections(d, chains)[p].prefix == KeysOf(d.text, d.plen)[p]
    {
    }
  }

  /**
    The state of the search: below p (tree tp) and below `pending` (tree tq) lie all matches
    still to be found; before the first match r the search is where an insertion would go.
   */
  ghost predicate Searching(link: seq<nat>, rlink: seq<nat>, keys: seq<string>, q: string,
                            tree: Tree, p: nat, tp: Tree, pending: nat, tq: Tree, r: nat,
                            par: nat, c: Order) {
    && Repr(link, rlink, p, tp) && Repr(link, rlink, pending, tq)
    && Ordered(tp, keys) && Ordered(tq, keys)
    && (if r == 0 then
          && tq == Leaf && Matches(tree, keys, q) == Matches(tp, keys, q)
          && Parent(tp, keys, q, par, c) == Parent(tree, keys, q, 0, Equal)
        else
          && Matches(tree, keys, q) == {r} + Matches(tp, keys, q) + Matches(tq, keys, q)
          && r !in Elems(tp) && r !in Elems(tq))
  }

  lemma StartSearch(link: seq<nat>, rlink: seq<nat>, keys: seq<string>, q: string, tree: Tree,
                    p: nat)
    requires Repr(link, rlink, p, tree) && Ordered(tree, keys)
    ensures Searching(link, rlink, keys, q, tree, p, tree, 0, Leaf, 0, 0, Equal)
  {
  }

  lemma AtNode(link: seq<nat>, rlink: seq<nat>, keys: seq<string>, q: string, tree: Tree, p: nat,
               tp: Tree, pending: nat, tq: Tree, r: nat, par: nat, c: Order)
    requires Searching(link, rlink, keys, q, tree, p, tp, pending, tq, r, par, c) && p != 0
    ensures p < |link| && p < |rlink| && p < |keys| && tp.Node? && tp.name == p
  {
  }

  /** The query splits from the prefix of p: one side of p can be forgotten. */
  lemma Descend(link: seq<nat>, rlink: seq<nat>, keys: seq<string>, q: string, tree: Tree, p: nat,
                tp: Tree, pending: nat, tq: Tree, r: nat, par: nat, c: Order)
    requires Searching(link, rlink, keys, q, tree, p, tp, pending, tq, r, par, c) && p != 0
    requires p < |link| && p < |rlink| && p < |keys| && tp.Node?
    requires Cmp(q, keys[p]).Less? || Cmp(q, keys[p]).Greater?
    ensures var o := Cmp(q, keys[p]);
            var p', tp' := if o.Less? then link[p] else rlink[p], if o.Less? then tp.left else tp.right;
            Searching(link, rlink, keys, q, tree, p', tp', pending, tq, r,
                      if r == 0 then p else par, o)
    ensures Size(tp.left) < Size(tp) && Size(tp.right) < Size(tp)
  {
    hide Cmp, Matches;
    CmpMeaning(q, keys[p]);
    if Cmp(q, keys[p]).Less? {
      MatchesGoLeft(tp, keys, q);
    } else {
      MatchesGoRight(tp, keys, q);
    }
  }

  /** The prefix of p matches: it is the first match, or there are two. */
  lemma Hit(link: seq<nat>, rlink: seq<nat>, keys: seq<string>, q: string, tree: Tree, p: nat,
            tp: Tree, pending: nat, tq: Tree, r: nat, par: nat, c: Order)
    requires Searching(link, rlink, keys, q, tree, p, tp, pending, tq, r, par, c) && p != 0
    requires p < |link| && p < |rlink| && p < |keys| && tp.Node? && tp.name == p
    requires !Cmp(q, keys[p]).Less? && !Cmp(q, keys[p]).Greater?
    ensures if r == 0 then
              forall par', c' :: Searching(link, rlink, keys, q, tree, link[p], tp.left, rlink[p],
                                           tp.right, p, par', c')
            else r in Matches(tree, keys, q) && p in Matches(tree, keys, q) && p != r
    ensures Size(tp.left) + Size(tp.right) < Size(tp)
  {
    hide Cmp;
    CmpMeaning(q, keys[p]);
    assert Comparable(keys[p], q);
    hide Comparable;
    MatchesAtRoot(tp, keys, q);
  }

  lemma TakePending(link: seq<nat>, rlink: seq<nat>, keys: seq<string>, q: string, tree: Tree,
                    tp: Tree, pending: nat, tq: Tree, r: nat, par: nat, c: Order)
    requires Searching(link, rlink, keys, q, tree, 0, tp, pending, tq, r, par, c)
    ensures Searching(link, rlink, keys, q, tree, pending, tq, 0, Leaf, r, par, c)
    ensures Size(tp) == 0
  {
  }

  lemma EndSearch(link: seq<nat>, rlink: seq<nat>, keys: seq<string>, q: string, tree: Tree,
                  tp: Tree, tq: Tree, r: nat, par: nat, c: Order)
    requires Searching(link, rlink, keys, q, tree, 0, tp, 0, tq, r, par, c)
    ensures if r != 0 then Matches(tree, keys, q) == {r}
            else Matches(tree, keys, q) == {} && (par, c) == Parent(tree, keys, q, 0, Equal)
  {
  }

  function Size(t: Tree): nat {
    match t
    case Leaf => 0
    case Node(l, _, r) => 1 + Size(l) + Size(r)
  }

  /** The bytes of a chunk, with the blank behind an incomplete one. */
  function Stored(chunk: string, ispref: bool): nat {
    |chunk| + if ispref then 1 else 0
  }

  class NameDir {
    const text: array<string>
    const link: array<nat>
    const rlink: array<nat>
    const plen: array<nat>
    const maxBytes: nat
    var bytePtr: nat
    var root: nat
    var namePtr: nat
    ghost var tree: Tree
    ghost var chains: map<nat, seq<nat>>

    constructor (maxNames: nat, maxBytes: nat)
      requires maxNames >= 2
      ensures Valid() && Table() == map[] && this.maxBytes == maxBytes && bytePtr == 0
      ensures fresh(text) && fresh(link) && fresh(rlink) && fresh(plen)
    {
      text := new string[maxNames](_ => "");
      link := new nat[maxNames](_ => 0);
      rlink := new nat[maxNames](_ => 0);
      plen := new nat[maxNames](_ => 0);
      this.maxBytes, bytePtr := maxBytes, 0;
      root, namePtr, tree, chains := 0, 1, Leaf, map[];
    }

    ghost function Now(): Dir
      reads this, text, link, rlink, plen
    {
      Dir(text[..], link[..], rlink[..], plen[..], root, namePtr)
    }

    ghost predicate Valid()
      reads this, text, link, rlink, plen
    {
      && Shape(Now()) && TableOK(Now(), tree, chains)
      && link != rlink && link != plen && rlink != plen
    }

    ghost function Table(): map<nat, Section>
      reads this, text, link, rlink, plen
    {
      Sections(Now(), chains)
    }

    /** name_dir or byte_mem has no room for one more chunk. */
    predicate Scarce(names: nat, bytes: nat, chunk: string) {
      names + 2 >= text.Length || bytes + |chunk| + 3 > maxBytes
    }

    /** The two-phase search: r is the first match, `other` a second one. */
    method Search(q: string) returns (r: nat, other: nat, par: nat, c: Order)
      requires Valid()
      ensures var keys := KeysOf(text[..], plen[..]);
              var m := Matches(tree, keys, q);
              if other != 0 then r in m && other in m && r != other
              else if r != 0 then m == {r}
              else m == {} && (par, c) == Parent(tree, keys, q, 0, Equal)
    {
      hide NameOK, Owned, Cmp, Searching, Matches, Parent, KeysOf;
      ghost var keys := KeysOf(text[..], plen[..]);
      TableTree(Now(), tree, chains);
      hide TableOK;
      var p: nat, pending: nat := root, 0;
      ghost var tp, tq := tree, Leaf;
      r, other, par, c := 0, 0, 0, Equal;
      StartSearch(link[..], rlink[..], keys, q, tree, p);
      hide TreeOK;
      while p != 0
        invariant Searching(link[..], rlink[..], keys, q, tree, p, tp, pending, tq, r, par, c)
        invariant p == 0 ==> pending == 0
        decreases Size(tp) + Size(tq)
      {
        AtNode(link[..], rlink[..], keys, q, tree, p, tp, pending, tq, r, par, c);
        var key := if plen[p] <= |text[p]| then text[p][..plen[p]] else text[p];
        assert keys[p] == key;
        var o := WebStrcmp(q, key);
        if o.Less? || o.Greater? {
          Descend(link[..], rlink[..], keys, q, tree, p, tp, pending, tq, r, par, c);
          if r == 0 {
            par := p;
          }
          p, tp := if o.Less? then link[p] else rlink[p], if o.Less? then tp.left else tp.right;
        } else {
          Hit(link[..], rlink[..], keys, q, tree, p, tp, pending, tq, r, par, c);
          if r != 0 {
            other := p;
            return;
          }
          r := p;
          tp, tq := tp.left, tp.right;
          pending := rlink[r];
          p := link[r];
        }
        c := o;
        if p == 0 {
          TakePending(link[..], rlink[..], keys, q, tree, tp, pending, tq, r, par, c);
          p, pending := pending, 0;
          tp, tq := tq, Leaf;
        }
      }
      EndSearch(link[..], rlink[..], keys, q, tree, tp, tq, r, par, c);
    }

    /** The part of add_section_name that fills the new entries. */
    method FillEntry(q: string, ispref: bool)
      requires Shape(Now()) && namePtr + 2 < text.Length
      requires link != rlink && link != plen && rlink != plen
      modifies this`namePtr, text, link, rlink, plen
      ensures text[..] == (var t := old(text[..])[old(namePtr) := if ispref then q + " " else q];
                           if ispref then t[old(namePtr) + 1 := ""] else t)
      ensures link[..] == (var l := old(link[..])[old(namePtr) := 0];
                           if ispref then l[old(namePtr) + 1 := 0] else l)
      ensures rlink[..] == old(rlink[..])[old(namePtr) := 0]
      ensures plen[..] == old(plen[..])[old(namePtr) := |q|]
      ensures namePtr == if ispref then old(namePtr) + 2 else old(namePtr) + 1
    {
      var p := namePtr;
      text[p] := if ispref then q + " " else q;
      namePtr := namePtr + 1;
      link[p] := 0;
      rlink[p] := 0;
      if ispref {
        text[p + 1] := "";
        link[p + 1] := 0;
        namePtr := namePtr + 1;
      }
      plen[p] := |q|;
    }

    /** All writes of add_section_name. */
    method PlaceEntry(par: nat, c: Order, q: string, ispref: bool, ghost keys: seq<string>,
                      ghost t: Tree)
      requires Shape(Now()) && namePtr + 2 < text.Length && par < namePtr
      requires (par, c) == Parent(t, keys, q, 0, Equal)
      requires link != rlink && link != plen && rlink != plen
      modifies this`namePtr, this`root, text, link, rlink, plen
      ensures Now() == old(AddEntry(Now(), keys, t, q, ispref))
    {
      hide Parent;
      var p := namePtr;
      FillEntry(q, ispref);
      ghost var e := Now();
      if par == 0 {
        root := p;
      } else if c.Less? {
        link[par] := p;
        assert link[..] == e.link[par := p];
      } else {
        rlink[par] := p;
        assert rlink[..] == e.rlink[par := p];
      }
    }

    /** add_section_name below `par`, on the side that `c` says. */
    method AddSectionName(par: nat, c: Order, q: string, ispref: bool) returns (ok: bool, p: nat)
      requires Valid() && Matches(tree, KeysOf(text[..], plen[..]), q) == {}
      requires (par, c) == Parent(tree, KeysOf(text[..], plen[..]), q, 0, Equal)
      requires !ispref ==> Trimmed(q)
      modifies this, text, link, rlink, plen
      ensures !ok ==> Scarce(old(namePtr), old(bytePtr), q) && Now() == old(Now())
      ensures bytePtr == old(bytePtr) + if ok then 2 + Stored(q, ispref) else 0
      ensures ok ==> bytePtr <= maxBytes
      ensures ok ==> Valid() && p != 0 && p !in old(Table())
      ensures ok ==> Table() == old(Table())[p := Section(q, q, !ispref)]
    {
      hide TableOK, Matches, Parent, KeysOf, AddEntry;
      p := namePtr;
      if bytePtr + 2 + Stored(q, ispref) > maxBytes || namePtr + 1 >= text.Length - 1 {
        return false, p;
      }
      ghost var d, keys := Now(), KeysOf(text[..], plen[..]);
      AddOK(d, tree, chains, q, ispref);
      ParentBelow(tree, keys, q);
      TableTree(d, tree, chains);
      hide TreeOK, Elems;
      PlaceEntry(par, c, q, ispref, keys, tree);
      bytePtr := bytePtr + 2 + Stored(q, ispref);
      AddShape(d, keys, tree, q, ispref);
      tree, chains := Insert(tree, keys, q, p), chains[p := []];
      ok := true;
    }

    /** extend_section_name. */
    method ExtendSectionName(p: nat, rest: string, ispref: bool) returns (ok: bool)
      requires Valid() && p in chains && !Finished(text[..], p, chains[p])
      requires (ispref ==> rest != "") && p < text.Length
      requires !ispref ==> Trimmed(rest) && Trimmed(FullText(text[..], p, chains[p]) + rest)
      modifies this, text, link
      ensures !ok ==> Scarce(old(namePtr), old(bytePtr), rest) && Now() == old(Now())
      ensures bytePtr == old(bytePtr) + if ok then Stored(rest, ispref) else 0
      ensures ok ==> bytePtr <= maxBytes
      ensures ok ==> Valid()
      ensures ok ==> var s := SectionOf(old(Now()), p, old(chains[p]));
                     Table() == old(Table())[p := s.(full := s.full + rest, done := !ispref)]
    {
      hide TableOK, FullText, Finished;
      if namePtr >= text.Length - 1 || bytePtr + Stored(rest, ispref) > maxBytes {
        return false;
      }
      ghost var d := Now();
      ghost var es := chains[p];
      TableName(d, tree, chains, p);
      ExtendOK(d, tree, chains, p, rest, ispref);
      var q := FindHolder(p);
      var n := namePtr;
      link[n] := 0;
      link[q] := n;
      text[n] := if ispref then rest + " " else rest;
      namePtr := namePtr + 1;
      bytePtr := bytePtr + Stored(rest, ispref);
      assert Now() == ExtendEntry(d, p, es, rest, ispref);
      chains := chains[p := es + [n]];
      ok := true;
    }

    /** The walk to the entry whose link field is still name_dir. */
    method FindHolder(p: nat) returns (q: nat)
      requires Valid() && p in chains && !Finished(text[..], p, chains[p])
      ensures q == Holder(p, chains[p]) && q < namePtr && q < link.Length
    {
      hide TableOK;
      TableName(Now(), tree, chains, p);
      ghost var es := chains[p];
      ChainInRange(text[..], link[..], link[p + 1], es);
      if es != [] { assert Last(p, es) in es; }
      q := p + 1;
      ghost var left := es;
      while link[q] != 0
        invariant q < link.Length && q < namePtr && ChainFrom(text[..], link[..], link[q], left)
        invariant Holder(p, es) == if left == [] then q else Last(p, left)
        invariant left != [] ==> Last(p, left) == Last(p, es)
        invariant forall e :: e in left ==> e in es
        invariant Incomplete(text[..][Last(p, es)])
        decreases |left|
      {
        assert left[0] in left && forall e :: e in left[1..] ==> e in left;
        q := link[q];
        left := left[1..];
      }
    }

    /**
      section_lookup. Unless name_dir or byte_mem overflows, the table is still in order and the lookup did
      what `Looked` says, which depends on the recorded prefixes and names alone.
     */
    method SectionLookup(q: string, ispref: bool) returns (ok: bool, p: nat, err: bool)
      requires Valid() && (!ispref ==> Trimmed(q))
      modifies this, text, link, rlink, plen
      ensures !ok ==> Scarce(old(namePtr), old(bytePtr), q) && Now() == old(Now())
      ensures old(bytePtr) <= bytePtr <= old(bytePtr) + |q| + 3
      ensures ok ==> Valid()
      ensures ok ==> Looked(old(Table()), q, ispref, Table(), p, err)
    {
      hide TableOK, Matches, Parent, KeysOf, FullText, Finished, Sections, Updated;
      ok, err := true, false;
      var r, other, par, c := Search(q);
      TreeHits(Now(), tree, chains, q);
      if other != 0 {
        return true, 0, true;
      }
      if r == 0 {
        ok, p := AddSectionName(par, c, q, ispref);
        return;
      }
      p := r;
      MatchInTree(tree, KeysOf(text[..], plen[..]), q, r);
      TableTree(Now(), tree, chains);
      hide TreeOK;
      ok, err := Update(q, ispref, r);
    }

    /** The rest of section_lookup, with the only match r. */
    method Update(q: string, ispref: bool, r: nat) returns (ok: bool, err: bool)
      requires Valid() && (!ispref ==> Trimmed(q))
      requires Matches(tree, KeysOf(text[..], plen[..]), q) == {r} && r in chains
      modifies this, text, link, plen
      ensures !ok ==> Scarce(old(namePtr), old(bytePtr), q) && Now() == old(Now())
      ensures old(bytePtr) <= bytePtr <= old(bytePtr) + |q| + 3
      ensures ok ==> Valid()
      ensures ok ==> (Table(), err) ==
                     var (s, e) := Updated(old(Table())[r], q, ispref); (old(Table())[r := s], e)
    {
      hide TableOK, Matches, KeysOf;
      ok, err := true, false;
      ghost var d, t := Now(), Table();
      TableName(d, tree, chains, r);
      var cmp := SectionNameCmp(text, link, q, r, chains[r]);
      assert t[r] == SectionOf(d, r, chains[r]);
      assert t[r := t[r]] == t;
      match cmp {
        case NamePrefix =>
          if !ispref {
            err := true;
          } else if |q| < plen[r] {
            PrefixOfPrefix(t[r], q);
            ShortenOK(d, tree, chains, r, q);
            plen[r] := |q|;
            assert Now() == d.(plen := d.plen[r := |q|]);
          }
        case NameEqual =>
        case NameExtension(rest) =>
          if !ispref || rest != "" {
            ExtensionRest(t[r], q, rest);
            ok := ExtendSectionName(r, rest, ispref);
          }
        case BadExtension => err := true;
        case NameLess => err := true;
        case NameGreater => err := true;
      }
    }
  }

  lemma AddShape(d: Dir, keys: seq<string>, tree: Tree, q: string, ispref: bool)
    requires Shape(d) && d.next + 2 < |d.text|
    ensures Shape(AddEntry(d, keys, tree, q, ispref))
  {
  }

  lemma MatchInTree(tree: Tree, keys: seq<string>, q: string, r: nat)
    requires r in Matches(tree, keys, q)
    ensures r in Elems(tree)
  {
  }

  lemma ExtensionRest(s: Section, q: string, rest: string)
    requires NameCmp(q, s.full, s.done) == NameExtension(rest)
    ensures !s.done && s.full + rest == q && (Trimmed(q) ==> Trimmed(rest))
  {
    CmpMeaning(q, s.full);
  }

  lemma PrefixOfPrefix(s: Section, q: string)
    requires NameCmp(q, s.full, s.done).NamePrefix? && s.prefix <= s.full && |q| < |s.prefix|
    ensures q <= s.prefix
  {
    CmpMeaning(q, s.full);
  }
}
