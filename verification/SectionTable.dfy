/**
  The table of section names: section_lookup with add_section_name, extend_section_name and the
  shortening of prefixes. Entry 0 of name_dir is never a section, so 0 also stands for NULL.
 */
module SectionTable {
  import opened NameOrder
  import opened SearchTree
  import opened NameChunks

  /** What the table records of a section: the prefix it is found by, its name so far, and whether
      that is the full name. */
  datatype Section = Section(prefix: string, full: string, done: bool)

  /** The arrays of name_dir with `root` and `name_ptr`. */
  datatype Dir = Dir(text: seq<string>, link: seq<nat>, rlink: seq<nat>, plen: seq<nat>,
                     root: nat, next: nat)

  function KeyOf(s: string, m: nat): string {
    if m <= |s| then s[..m] else s
  }

  function KeysOf(text: seq<string>, plen: seq<nat>): (keys: seq<string>)
    requires |text| == |plen|
    ensures |keys| == |text|
    ensures forall i :: 0 <= i < |text| ==> keys[i] == KeyOf(text[i], plen[i])
  {
    seq(|text|, i requires 0 <= i < |text| => KeyOf(text[i], plen[i]))
  }

  /** A full name never ends in a blank. */
  predicate Trimmed(s: string) {
    s == "" || s[|s| - 1] != ' '
  }

  /** The entries whose link fields chain the pieces of name p. */
  function Owned(text: seq<string>, p: nat, es: seq<nat>): set<nat> {
    if p < |text| && Incomplete(text[p]) then {p + 1} + set e | e in es else {}
  }

  ghost predicate NameOK(d: Dir, p: nat, es: seq<nat>) {
    && |d.text| == |d.link| == |d.plen|
    && Chain(d.text, d.link, p, es) && NoDuplicates(es) && p + 1 !in es
    && p < d.next && (forall e :: e in es ==> e < d.next)
    && (Incomplete(d.text[p]) ==> p + 1 < d.next)
    && d.plen[p] <= |Part(d.text[p])|
    && (Finished(d.text, p, es) ==> Trimmed(FullText(d.text, p, es)))
  }

  ghost predicate Shape(d: Dir) {
    && |d.text| == |d.link| == |d.rlink| == |d.plen| && 1 <= d.next < |d.text|
  }

  ghost predicate TreeOK(d: Dir, tree: Tree) {
    && Shape(d) && Repr(d.link, d.rlink, d.root, tree)
    && Ordered(tree, KeysOf(d.text, d.plen))
  }

  /** The names are those of the tree, each in good shape, and no link field is used twice. */
  ghost predicate TableOK(d: Dir, tree: Tree, chains: map<nat, seq<nat>>) {
    && TreeOK(d, tree) && chains.Keys == Elems(tree)
    && (forall p :: p in chains ==> NameOK(d, p, chains[p]))
    && (forall p :: p in chains ==> Owned(d.text, p, chains[p]) !! Elems(tree))
    && (forall p, r :: p in chains && r in chains && p != r ==>
          Owned(d.text, p, chains[p]) !! Owned(d.text, r, chains[r]))
  }

  function SectionOf(d: Dir, p: nat, es: seq<nat>): Section {
    if p < |d.text| && p < |d.plen| then
      Section(KeyOf(d.text[p], d.plen[p]), FullText(d.text, p, es), Finished(d.text, p, es))
    else Section("", "", false)
  }

  /** The sections in the table, by entry number. */
  function Sections(d: Dir, chains: map<nat, seq<nat>>): map<nat, Section> {
    map p | p in chains :: SectionOf(d, p, chains[p])
  }

  lemma TableName(d: Dir, tree: Tree, chains: map<nat, seq<nat>>, r: nat)
    requires TableOK(d, tree, chains) && r in chains
    ensures NameOK(d, r, chains[r]) && r in Elems(tree) && r < d.next
    ensures Owned(d.text, r, chains[r]) !! Elems(tree)
  {
    hide Owned, TreeOK, Chain;
  }

  lemma TablePair(d: Dir, tree: Tree, chains: map<nat, seq<nat>>, p: nat, r: nat)
    requires TableOK(d, tree, chains) && p in chains && r in chains && p != r
    ensures Owned(d.text, p, chains[p]) !! Owned(d.text, r, chains[r])
  {
    hide Owned, TreeOK, NameOK;
  }

  lemma TableTree(d: Dir, tree: Tree, chains: map<nat, seq<nat>>)
    requires TableOK(d, tree, chains)
    ensures TreeOK(d, tree) && chains.Keys == Elems(tree)
    ensures forall r :: r in chains ==> 0 < r < d.next
  {
    hide Owned, TreeOK;
    forall r | r in chains
      ensures 0 < r < d.next
    {
      assert NameOK(d, r, chains[r]);
    }
  }

  /** A name that a change of the table leaves alone. */
  ghost predicate SameName(d: Dir, d': Dir, r: nat, es: seq<nat>) {
    && NameOK(d', r, es) && SectionOf(d', r, es) == SectionOf(d, r, es)
    && Owned(d'.text, r, es) == Owned(d.text, r, es)
  }

  /** What name r owns stays clear of the set `mine`, which will belong to name p. */
  ghost predicate Clear(d: Dir, d': Dir, r: nat, es: seq<nat>, p: nat, mine: set<nat>) {
    && SameName(d, d', r, es) && mine !! Owned(d.text, r, es) && p !in Owned(d.text, r, es)
  }

  /** The table after name p changed or was added. */
  ghost predicate Change(d: Dir, d': Dir, tree: Tree, tree': Tree, chains: map<nat, seq<nat>>,
                         p: nat, es: seq<nat>) {
    && TableOK(d, tree, chains) && TreeOK(d', tree') && Elems(tree') == Elems(tree) + {p}
    && NameOK(d', p, es) && Owned(d'.text, p, es) !! Elems(tree')
    && forall r :: r in chains && r != p ==> Clear(d, d', r, chains[r], p, Owned(d'.text, p, es))
  }

  lemma AssembleName(d: Dir, d': Dir, tree: Tree, tree': Tree, chains: map<nat, seq<nat>>, p: nat,
                     es: seq<nat>, r: nat)
    requires Change(d, d', tree, tree', chains, p, es) && r in chains && r != p
    ensures NameOK(d', r, chains[r]) && Owned(d'.text, r, chains[r]) !! Elems(tree')
    ensures SectionOf(d', r, chains[r]) == SectionOf(d, r, chains[r])
    ensures Owned(d'.text, r, chains[r]) == Owned(d.text, r, chains[r])
    ensures Owned(d'.text, p, es) !! Owned(d.text, r, chains[r])
  {
    hide NameOK, TreeOK, SectionOf, Owned, TableOK;
    assert Clear(d, d', r, chains[r], p, Owned(d'.text, p, es));
    TableName(d, tree, chains, r);
  }

  lemma AssemblePair(d: Dir, d': Dir, tree: Tree, tree': Tree, chains: map<nat, seq<nat>>, p: nat,
                     es: seq<nat>, r: nat, r': nat)
    requires Change(d, d', tree, tree', chains, p, es) && r != r'
    requires (r == p || r in chains) && (r' == p || r' in chains)
    ensures var c := chains[p := es]; Owned(d'.text, r, c[r]) !! Owned(d'.text, r', c[r'])
  {
    hide NameOK, TreeOK, SectionOf, Owned, TableOK, Clear, SameName;
    if r != p {
      AssembleName(d, d', tree, tree', chains, p, es, r);
    }
    if r' != p {
      AssembleName(d, d', tree, tree', chains, p, es, r');
    }
    if r != p && r' != p {
      TablePair(d, tree, chains, r, r');
    }
  }

  lemma AssembleSections(d: Dir, d': Dir, tree: Tree, tree': Tree, chains: map<nat, seq<nat>>,
                         p: nat, es: seq<nat>)
    requires Change(d, d', tree, tree', chains, p, es)
    ensures Sections(d', chains[p := es]) == Sections(d, chains)[p := SectionOf(d', p, es)]
  {
    hide SectionOf, Change;
    forall r | r in chains && r != p
      ensures SectionOf(d', r, chains[r]) == SectionOf(d, r, chains[r])
    {
      AssembleName(d, d', tree, tree', chains, p, es, r);
    }
    assert Sections(d', chains[p := es]).Keys == chains.Keys + {p};
  }

  /** Putting the table together after a change to name p. */
  lemma Assemble(d: Dir, d': Dir, tree: Tree, tree': Tree, chains: map<nat, seq<nat>>, p: nat,
                 es: seq<nat>)
    requires Change(d, d', tree, tree', chains, p, es)
    ensures TableOK(d', tree', chains[p := es])
    ensures Sections(d', chains[p := es]) == Sections(d, chains)[p := SectionOf(d', p, es)]
  {
    hide NameOK, TreeOK, SectionOf, Owned, TableOK, Clear, Sections;
    AssembleSections(d, d', tree, tree', chains, p, es);
    TableTree(d, tree, chains);
    var chains' := chains[p := es];
    forall r | r in chains'
      ensures NameOK(d', r, chains'[r]) && Owned(d'.text, r, chains'[r]) !! Elems(tree')
    {
      if r != p {
        AssembleName(d, d', tree, tree', chains, p, es, r);
      }
    }
    forall r, r' | r in chains' && r' in chains' && r != r'
      ensures Owned(d'.text, r, chains'[r]) !! Owned(d'.text, r', chains'[r'])
    {
      hide Change;
      AssemblePair(d, d', tree, tree', chains, p, es, r, r');
    }
    IsTable(d', tree', chains');
  }

  lemma IsTable(d: Dir, tree: Tree, chains: map<nat, seq<nat>>)
    requires TreeOK(d, tree) && chains.Keys == Elems(tree)
    requires forall p :: p in chains ==>
               NameOK(d, p, chains[p]) && Owned(d.text, p, chains[p]) !! Elems(tree)
    requires forall p, r :: p in chains && r in chains && p != r ==>
               Owned(d.text, p, chains[p]) !! Owned(d.text, r, chains[r])
    ensures TableOK(d, tree, chains)
  {
    hide NameOK, TreeOK, Owned;
  }

  // ----- What one lookup does to the section it finds

  /** The record after a lookup of q that found it, and whether an error was reported. */
  function Updated(s: Section, q: string, ispref: bool): (Section, bool) {
    match NameCmp(q, s.full, s.done)
    case NamePrefix =>
      if !ispref then (s, true)
      else (if |q| < |s.prefix| then s.(prefix := q) else s, false)
    case NameEqual => (s, false)
    case NameExtension(rest) =>
      if !ispref || rest != "" then (s.(full := q, done := !ispref), false) else (s, false)
    case _ => (s, true)
  }

  /**
    Exactly when a lookup reports no error; and then the name is the longer one of the old name and
    the query, and the search prefix is the shorter one of the old prefix and the query. A full
    query, and nothing else, makes the name complete. An error changes nothing.
   */
  lemma LookupPromise(s: Section, q: string, ispref: bool)
    requires s.prefix <= s.full && Comparable(s.prefix, q)
    requires s.done ==> Trimmed(s.full)
    requires !ispref ==> Trimmed(q)
    ensures var (s', err) := Updated(s, q, ispref);
            && s'.prefix <= s'.full && (s'.done ==> Trimmed(s'.full))
            && (!err <==> (!s.done && s.full <= q) || (ispref && q <= s.full) ||
                          (s.done && q == s.full))
            && (err ==> s' == s)
            && (s'.done <==> s.done || (!err && !ispref))
            && (!err ==>
                  && s'.full == (if |q| > |s.full| then q else s.full)
                  && s'.prefix == (if |q| < |s.prefix| then q else s.prefix)
                  && s'.prefix <= q <= s'.full && s.full <= s'.full && s'.prefix <= s.prefix
                  && (!ispref ==> s'.full == q)
                  && (s.done ==> s'.full == s.full))
  {
    CmpMeaning(q, s.full);
  }

  // ----- The three ways the table changes

  /** add_section_name: entry d.next holds the new name, followed by a holder if it is unfinished. */
  function AddEntry(d: Dir, keys: seq<string>, tree: Tree, q: string, ispref: bool): Dir
    requires Shape(d) && d.next + 1 < |d.text|
  {
    var n := d.next;
    var text := d.text[n := if ispref then q + " " else q];
    var link := d.link[n := 0];
    var rlink := d.rlink[n := 0];
    var (par, c) := Parent(tree, keys, q, 0, Equal);
    Dir(if ispref then text[n + 1 := ""] else text,
        var l := if ispref then link[n + 1 := 0] else link;
        if 0 < par < |l| && c.Less? then l[par := n] else l,
        if 0 < par < |rlink| && !c.Less? then rlink[par := n] else rlink,
        d.plen[n := |q|],
        if par == 0 then n else d.root,
        if ispref then n + 2 else n + 1)
  }

  /** extend_section_name: entry d.next continues the name p. */
  function ExtendEntry(d: Dir, p: nat, es: seq<nat>, rest: string, ispref: bool): Dir
    requires Shape(d)
  {
    var n := d.next;
    var holder := if es == [] then p + 1 else Last(p, es);
    var link := d.link[n := 0];
    d.(text := d.text[n := if ispref then rest + " " else rest],
       link := if holder < |link| then link[holder := n] else link,
       next := n + 1)
  }

  lemma PartOfBlankEnded(q: string)
    ensures Incomplete(q + " ") && Part(q + " ") == q
  {
  }

  /** A name keeps its record when entries it does not own change. */
  lemma NameFrame(d: Dir, d': Dir, p: nat, es: seq<nat>)
    requires NameOK(d, p, es) && d.next <= d'.next
    requires |d'.text| == |d.text| && |d'.link| == |d.link| && |d'.plen| == |d.plen|
    requires d'.text[p] == d.text[p] && d'.plen[p] == d.plen[p]
    requires forall e :: e in es && e < |d.text| ==> d'.text[e] == d.text[e]
    requires forall e :: e in Owned(d.text, p, es) && e < |d.link| ==> d'.link[e] == d.link[e]
    ensures NameOK(d', p, es) && SectionOf(d', p, es) == SectionOf(d, p, es)
    ensures Owned(d'.text, p, es) == Owned(d.text, p, es)
  {
    if Incomplete(d.text[p]) {
      ChainInRange(d.text, d.link, d.link[p + 1], es);
      assert p + 1 in Owned(d.text, p, es);
      ChainFromFrame(d.text, d.link, d'.text, d'.link, d.link[p + 1], es);
    }
    if es != [] {
      assert Last(p, es) in es;
    }
  }

  lemma ExtendChain(d: Dir, p: nat, es: seq<nat>, rest: string, ispref: bool)
    requires Shape(d) && NameOK(d, p, es) && !Finished(d.text, p, es)
    requires ispref ==> rest != ""
    requires !ispref ==> Trimmed(rest)
    ensures var d' := ExtendEntry(d, p, es, rest, ispref);
            && p + 1 < |d'.link|
            && ChainFrom(d'.text, d'.link, d'.link[p + 1], es + [d.next])
            && Rest(d'.text, es + [d.next]) == Rest(d.text, es) + rest
  {
    hide FullText;
    var n := d.next;
    var s := if ispref then rest + " " else rest;
    PartOfBlankEnded(rest);
    assert Part(s) == rest && (Incomplete(s) ==> |s| >= 2);
    var d' := ExtendEntry(d, p, es, rest, ispref);
    var link := d.link[n := 0];
    if es == [] {
      assert ChainFrom(d'.text, d'.link, n, [n]);
      assert Rest(d'.text, [n]) == Part(s) + Rest(d'.text, []);
    } else {
      ChainInRange(d.text, d.link, d.link[p + 1], es);
      ChainFromFrame(d.text, d.link, d.text, link, d.link[p + 1], es);
      assert Last(0, es) == Last(p, es) && Last(p, es) in es;
      ChainGrows(d.text, link, d.link[p + 1], es, n, s);
    }
  }

  lemma ExtendFacts(d: Dir, p: nat, es: seq<nat>, rest: string, ispref: bool)
    requires Shape(d) && NameOK(d, p, es) && !Finished(d.text, p, es)
    requires ispref ==> rest != ""
    requires !ispref ==> Trimmed(rest)
    ensures var d' := ExtendEntry(d, p, es, rest, ispref);
            && d'.text[p] == d.text[p] && Incomplete(d.text[p]) && d'.plen == d.plen
            && Last(p, es + [d.next]) == d.next
            && FullText(d'.text, p, es + [d.next]) == FullText(d.text, p, es) + rest
            && Finished(d'.text, p, es + [d.next]) == !ispref
            && Owned(d'.text, p, es + [d.next]) == Owned(d.text, p, es) + {d.next}
  {
    ExtendChain(d, p, es, rest, ispref);
    hide ChainFrom, Rest;
    PartOfBlankEnded(rest);
    assert (set e | e in es + [d.next]) == (set e | e in es) + {d.next};
  }

  lemma ExtendOwn(es: seq<nat>, p: nat, n: nat)
    requires NoDuplicates(es) && p + 1 !in es && p + 1 < n && forall e :: e in es ==> e < n
    ensures NoDuplicates(es + [n]) && p + 1 !in es + [n] && forall e :: e in es + [n] ==> e < n + 1
  {
    forall i, j | 0 <= i < j < |es + [n]|
      ensures (es + [n])[i] != (es + [n])[j]
    {
      assert es[i] in es;
    }
  }

  /** The record of the name after an extension. */
  lemma ExtendName(d: Dir, p: nat, es: seq<nat>, rest: string, ispref: bool)
    requires Shape(d) && NameOK(d, p, es) && !Finished(d.text, p, es)
    requires ispref ==> rest != ""
    requires !ispref ==> Trimmed(rest) && Trimmed(FullText(d.text, p, es) + rest)
    ensures var d' := ExtendEntry(d, p, es, rest, ispref);
            && NameOK(d', p, es + [d.next])
            && SectionOf(d', p, es + [d.next]) ==
               SectionOf(d, p, es).(full := FullText(d.text, p, es) + rest, done := !ispref)
            && Owned(d'.text, p, es + [d.next]) == Owned(d.text, p, es) + {d.next}
  {
    ExtendFacts(d, p, es, rest, ispref);
    ExtendChain(d, p, es, rest, ispref);
    ExtendOwn(es, p, d.next);
    hide ChainFrom, Rest, FullText, Finished, NoDuplicates, Owned;
  }

  lemma OwnedInRange(d: Dir, p: nat, es: seq<nat>)
    requires NameOK(d, p, es)
    ensures forall e :: e in Owned(d.text, p, es) ==> e < d.next
  {
  }

  function Holder(p: nat, es: seq<nat>): nat {
    if es == [] then p + 1 else Last(p, es)
  }

  lemma HolderOwned(d: Dir, p: nat, es: seq<nat>)
    requires NameOK(d, p, es) && !Finished(d.text, p, es)
    ensures Holder(p, es) in Owned(d.text, p, es)
  {
    if es != [] { assert Last(p, es) in es; }
  }

  lemma ExtendTouches(d: Dir, p: nat, es: seq<nat>, rest: string, ispref: bool)
    requires Shape(d)
    ensures var d' := ExtendEntry(d, p, es, rest, ispref);
            Shape(d') || d.next + 1 == |d.text|
    ensures var d' := ExtendEntry(d, p, es, rest, ispref);
            && |d'.text| == |d.text| && |d'.link| == |d.link| && d'.plen == d.plen
            && d'.rlink == d.rlink && d'.root == d.root && d'.next == d.next + 1
            && (forall x :: 0 <= x < |d.text| && x != d.next ==> d'.text[x] == d.text[x])
            && (forall x :: 0 <= x < |d.link| && x != d.next && x != Holder(p, es) ==>
                  d'.link[x] == d.link[x])
  {
  }

  lemma ExtendElsewhere(d: Dir, tree: Tree, chains: map<nat, seq<nat>>, p: nat, rest: string,
                        ispref: bool, r: nat)
    requires TableOK(d, tree, chains) && p in chains && !Finished(d.text, p, chains[p])
    requires r in chains && r != p
    ensures Clear(d, ExtendEntry(d, p, chains[p], rest, ispref), r, chains[r], p,
                  Owned(d.text, p, chains[p]) + {d.next})
  {
    TableName(d, tree, chains, p);
    TableName(d, tree, chains, r);
    TablePair(d, tree, chains, p, r);
    TableTree(d, tree, chains);
    HolderOwned(d, p, chains[p]);
    OwnedInRange(d, r, chains[r]);
    TableShape(d, tree);
    ExtendTouches(d, p, chains[p], rest, ispref);
    hide TableOK, Owned, TreeOK, Chain, FullText, Finished, ExtendEntry, Holder;
    NameFrame(d, ExtendEntry(d, p, chains[p], rest, ispref), r, chains[r]);
  }

  lemma ExtendTree(d: Dir, tree: Tree, chains: map<nat, seq<nat>>, p: nat, rest: string,
                   ispref: bool)
    requires TableOK(d, tree, chains) && p in chains && !Finished(d.text, p, chains[p])
    requires d.next + 1 < |d.text|
    ensures TreeOK(ExtendEntry(d, p, chains[p], rest, ispref), tree)
    ensures d.next !in Elems(tree)
  {
    TableName(d, tree, chains, p);
    TableTree(d, tree, chains);
    HolderOwned(d, p, chains[p]);
    TableShape(d, tree);
    ExtendTouches(d, p, chains[p], rest, ispref);
    hide TableOK, Owned, NameOK, TreeOK, ExtendEntry, Holder;
    TreeFrame(d, ExtendEntry(d, p, chains[p], rest, ispref), tree, chains);
  }

  /** After an extension the table is still in order, with one record changed. */
  lemma ExtendOK(d: Dir, tree: Tree, chains: map<nat, seq<nat>>, p: nat, rest: string, ispref: bool)
    requires TableOK(d, tree, chains) && p in chains && !Finished(d.text, p, chains[p])
    requires ispref ==> rest != ""
    requires p < |d.text| && (!ispref ==> Trimmed(rest) && Trimmed(FullText(d.text, p, chains[p]) + rest))
    requires d.next + 1 < |d.text|
    ensures var d' := ExtendEntry(d, p, chains[p], rest, ispref);
            var chains' := chains[p := chains[p] + [d.next]];
            && TableOK(d', tree, chains')
            && Sections(d', chains') ==
               Sections(d, chains)[p := SectionOf(d, p, chains[p]).(
                                     full := FullText(d.text, p, chains[p]) + rest,
                                     done := !ispref)]
  {
    hide TableOK, NameOK, TreeOK, SectionOf, Owned, FullText, Finished, ExtendEntry, Clear;
    TableName(d, tree, chains, p);
    TableTree(d, tree, chains);
    TableShape(d, tree);
    var d' := ExtendEntry(d, p, chains[p], rest, ispref);
    ExtendName(d, p, chains[p], rest, ispref);
    ExtendTree(d, tree, chains, p, rest, ispref);
    forall r | r in chains && r != p
      ensures Clear(d, d', r, chains[r], p, Owned(d.text, p, chains[p]) + {d.next})
    {
      ExtendElsewhere(d, tree, chains, p, rest, ispref, r);
    }
    Assemble(d, d', tree, tree, chains, p, chains[p] + [d.next]);
  }

  lemma TableShape(d: Dir, tree: Tree)
    requires TreeOK(d, tree)
    ensures Shape(d)
  {
  }

  /** The tree is untouched by changes outside its entries. */
  lemma TreeFrame(d: Dir, d': Dir, tree: Tree, chains: map<nat, seq<nat>>)
    requires TreeOK(d, tree) && chains.Keys == Elems(tree) && d'.root == d.root && Shape(d')
    requires |d'.text| == |d.text| && forall r :: r in chains ==> r < d.next
    requires forall r :: r in chains ==>
               && d'.text[r] == d.text[r] && d'.link[r] == d.link[r]
               && d'.rlink[r] == d.rlink[r] && d'.plen[r] == d.plen[r]
    ensures TreeOK(d', tree)
  {
    ReprFrame(d.link, d.rlink, d'.link, d'.rlink, d.root, tree);
    OrderedFrame(tree, KeysOf(d.text, d.plen), KeysOf(d'.text, d'.plen));
  }

  lemma ShortenElsewhere(d: Dir, r: nat, m: nat, p: nat, es: seq<nat>)
    requires NameOK(d, p, es) && r < |d.plen| && r != p
    ensures SameName(d, d.(plen := d.plen[r := m]), p, es)
  {
  }

  lemma ShortenTree(d: Dir, tree: Tree, r: nat, q: string)
    requires TreeOK(d, tree) && r < |d.plen|
    requires Matches(tree, KeysOf(d.text, d.plen), q) == {r}
    requires q <= KeyOf(d.text[r], d.plen[r])
    ensures TreeOK(d.(plen := d.plen[r := |q|]), tree)
  {
    var d' := d.(plen := d.plen[r := |q|]);
    var keys := KeysOf(d.text, d.plen);
    assert KeyOf(d.text[r], |q|) == q;
    assert KeysOf(d'.text, d'.plen) == keys[r := q];
    InRange(tree, keys);
    forall n | n in Elems(tree) && n != r
      ensures !Comparable(keys[n], q)
    {
      assert n !in Matches(tree, keys, q);
    }
    ShortenOrdered(tree, keys, r, q);
  }

  lemma ShortenName(d: Dir, r: nat, es: seq<nat>, q: string)
    requires NameOK(d, r, es) && q <= KeyOf(d.text[r], d.plen[r])
    ensures var d' := d.(plen := d.plen[r := |q|]);
            NameOK(d', r, es) && SectionOf(d', r, es) == SectionOf(d, r, es).(prefix := q)
  {
  }

  /** set_prefix_length on the only match of the query. */
  lemma ShortenOK(d: Dir, tree: Tree, chains: map<nat, seq<nat>>, r: nat, q: string)
    requires TableOK(d, tree, chains) && r in chains && r < |d.plen| && r < |d.text|
    requires |d.text| == |d.plen| && Matches(tree, KeysOf(d.text, d.plen), q) == {r}
    requires q <= KeyOf(d.text[r], d.plen[r])
    ensures var d' := d.(plen := d.plen[r := |q|]);
            && TableOK(d', tree, chains)
            && Sections(d', chains) == Sections(d, chains)[r := SectionOf(d, r, chains[r]).(prefix := q)]
  {
    hide TableOK, NameOK, TreeOK, SectionOf, Owned, SameName;
    var d' := d.(plen := d.plen[r := |q|]);
    TableTree(d, tree, chains);
    TableName(d, tree, chains, r);
    ShortenTree(d, tree, r, q);
    ShortenName(d, r, chains[r], q);
    forall p | p in chains && p != r
      ensures Clear(d, d', p, chains[p], r, Owned(d'.text, r, chains[r]))
    {
      TableName(d, tree, chains, p);
      TablePair(d, tree, chains, r, p);
      ShortenElsewhere(d, r, |q|, p, chains[p]);
    }
    assert chains[r := chains[r]] == chains;
    Assemble(d, d', tree, tree, chains, r, chains[r]);
  }

  lemma ParentBelow(tree: Tree, keys: seq<string>, q: string)
    ensures var par := Parent(tree, keys, q, 0, Equal).0;
            if tree.Leaf? then par == 0 else par in Elems(tree)
  {
    if tree.Node? {
      ParentInTree(tree, keys, q, 0, Equal);
    }
  }

  lemma AddTreeOK(d: Dir, tree: Tree, q: string, ispref: bool)
    requires TreeOK(d, tree) && d.next + 2 < |d.text|
    requires forall r :: r in Elems(tree) ==> 0 < r < d.next
    requires Matches(tree, KeysOf(d.text, d.plen), q) == {}
    ensures var keys := KeysOf(d.text, d.plen);
            TreeOK(AddEntry(d, keys, tree, q, ispref), Insert(tree, keys, q, d.next))
  {
    var keys, n := KeysOf(d.text, d.plen), d.next;
    var d' := AddEntry(d, keys, tree, q, ispref);
    AddTreeRepr(d, tree, q, ispref);
    AddKeys(d, keys, tree, q, ispref);
    hide Repr, Insert, Parent, AddEntry, KeysOf, Ordered, Matches;
    var keys' := KeysOf(d'.text, d'.plen);
    OrderedFrame(tree, keys, keys');
    InsertFrame(tree, keys, keys', q, n);
    SameMatches(tree, keys, keys', q);
    InsertOrdered(tree, keys', n);
  }

  /** The keys of the old entries stay, and the new one has the query as its key. */
  lemma AddKeys(d: Dir, keys: seq<string>, tree: Tree, q: string, ispref: bool)
    requires Shape(d) && d.next + 2 < |d.text| && keys == KeysOf(d.text, d.plen)
    requires forall r :: r in Elems(tree) ==> 0 < r < d.next
    ensures var d' := AddEntry(d, keys, tree, q, ispref);
            var keys' := KeysOf(d'.text, d'.plen);
            && |keys'| == |keys| && d.next < |keys'| && keys'[d.next] == q
            && (forall r :: r in Elems(tree) ==> keys'[r] == keys[r])
            && |d'.link| == |d'.rlink| == |d'.text| == |d'.plen| == |d.text|
  {
    PartOfBlankEnded(q);
    ParentBelow(tree, keys, q);
    hide Parent;
  }

  lemma SameMatches(tree: Tree, keys: seq<string>, keys': seq<string>, q: string)
    requires forall r :: r in Elems(tree) ==> r < |keys| && r < |keys'| && keys'[r] == keys[r]
    ensures Matches(tree, keys', q) == Matches(tree, keys, q)
  {
  }

  lemma AddTreeRepr(d: Dir, tree: Tree, q: string, ispref: bool)
    requires TreeOK(d, tree) && d.next + 2 < |d.text|
    requires forall r :: r in Elems(tree) ==> 0 < r < d.next
    ensures var keys := KeysOf(d.text, d.plen);
            var d' := AddEntry(d, keys, tree, q, ispref);
            Repr(d'.link, d'.rlink, d'.root, Insert(tree, keys, q, d.next))
  {
    var keys, n := KeysOf(d.text, d.plen), d.next;
    ParentBelow(tree, keys, q);
    var link := if ispref then d.link[n := 0][n + 1 := 0] else d.link[n := 0];
    var rlink := d.rlink[n := 0];
    ReprFrame(d.link, d.rlink, link, rlink, d.root, tree);
    OrderedDistinct(tree, keys);
    if tree.Node? {
      InsertRepr(link, rlink, d.root, tree, keys, q, n);
      hide Insert, Parent, Ordered, Distinct;
    }
  }

  /** What the new entries look like. */
  lemma AddFields(d: Dir, keys: seq<string>, tree: Tree, q: string, ispref: bool)
    requires Shape(d) && d.next + 2 < |d.text|
    requires forall r :: r in Elems(tree) ==> 0 < r < d.next
    ensures var d', n := AddEntry(d, keys, tree, q, ispref), d.next;
            && |d'.text| == |d'.link| == |d'.plen| == |d.text| && d'.plen[n] == |q|
            && d'.text[n] == (if ispref then q + " " else q)
            && (ispref ==> d'.link[n + 1] == 0)
            && d'.next == if ispref then n + 2 else n + 1
  {
    ParentBelow(tree, keys, q);
    hide Parent;
  }

  lemma AddNameOK(d: Dir, keys: seq<string>, tree: Tree, q: string, ispref: bool)
    requires Shape(d) && d.next + 2 < |d.text|
    requires forall r :: r in Elems(tree) ==> 0 < r < d.next
    requires !ispref ==> Trimmed(q)
    ensures var d' := AddEntry(d, keys, tree, q, ispref);
            && NameOK(d', d.next, []) && SectionOf(d', d.next, []) == Section(q, q, !ispref)
            && Owned(d'.text, d.next, []) == if ispref then {d.next + 1} else {}
  {
    AddFields(d, keys, tree, q, ispref);
    PartOfBlankEnded(q);
    hide AddEntry;
  }

  lemma AddTouches(d: Dir, keys: seq<string>, tree: Tree, q: string, ispref: bool)
    requires Shape(d) && d.next + 2 < |d.text|
    ensures var d' := AddEntry(d, keys, tree, q, ispref);
            && |d'.text| == |d.text| && |d'.link| == |d.link| && |d'.plen| == |d.plen|
            && d.next < d'.next
            && (forall x :: 0 <= x < d.next ==> d'.text[x] == d.text[x] && d'.plen[x] == d.plen[x])
            && (forall x :: 0 <= x < d.next && x != Parent(tree, keys, q, 0, Equal).0 ==>
                  d'.link[x] == d.link[x])
  {
    hide Parent;
  }

  /** Adding a name changes nothing that belongs to name r. */
  lemma AddElsewhere(d: Dir, tree: Tree, chains: map<nat, seq<nat>>, q: string, ispref: bool, r: nat)
    requires TableOK(d, tree, chains) && Shape(d) && d.next + 2 < |d.text| && r in chains
    ensures Clear(d, AddEntry(d, KeysOf(d.text, d.plen), tree, q, ispref), r, chains[r], d.next,
                  {d.next + 1})
  {
    var keys := KeysOf(d.text, d.plen);
    TableName(d, tree, chains, r);
    TableTree(d, tree, chains);
    OwnedInRange(d, r, chains[r]);
    ParentBelow(tree, keys, q);
    AddTouches(d, keys, tree, q, ispref);
    hide TableOK, TreeOK, Owned, Chain, FullText, Finished, Parent, AddEntry;
    NameFrame(d, AddEntry(d, keys, tree, q, ispref), r, chains[r]);
  }

  /** A new name. */
  lemma AddOK(d: Dir, tree: Tree, chains: map<nat, seq<nat>>, q: string, ispref: bool)
    requires TableOK(d, tree, chains) && Shape(d) && d.next + 2 < |d.text|
    requires Matches(tree, KeysOf(d.text, d.plen), q) == {}
    requires !ispref ==> Trimmed(q)
    ensures var keys := KeysOf(d.text, d.plen);
            var d' := AddEntry(d, keys, tree, q, ispref);
            var chains' := chains[d.next := []];
            && TableOK(d', Insert(tree, keys, q, d.next), chains') && d.next !in chains
            && Sections(d', chains') == Sections(d, chains)[d.next := Section(q, q, !ispref)]
  {
    hide NameOK, TreeOK, SectionOf, Owned, SameName, AddEntry, TableOK, Clear;
    var keys := KeysOf(d.text, d.plen);
    var d' := AddEntry(d, keys, tree, q, ispref);
    TableTree(d, tree, chains);
    AddTreeOK(d, tree, q, ispref);
    AddNameOK(d, keys, tree, q, ispref);
    InsertElems(tree, keys, q, d.next);
    forall r | r in chains && r != d.next
      ensures Clear(d, d', r, chains[r], d.next, Owned(d'.text, d.next, []))
    {
      AddElsewhere(d, tree, chains, q, ispref, r);
      SmallerMine(d, d', r, chains[r], d.next, {d.next + 1}, Owned(d'.text, d.next, []));
    }
    Assemble(d, d', tree, Insert(tree, keys, q, d.next), chains, d.next, []);
  }

  lemma SmallerMine(d: Dir, d': Dir, r: nat, es: seq<nat>, p: nat, a: set<nat>, b: set<nat>)
    requires Clear(d, d', r, es, p, a) && b <= a
    ensures Clear(d, d', r, es, p, b)
  {
    hide SameName, Owned;
  }
}
