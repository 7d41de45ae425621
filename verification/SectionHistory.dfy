/**
  What any sequence of section lookups keeps: prefixes that can be told apart, names that only
  grow, and names that are found again.
 */
module SectionHistory {
  import opened NameOrder
  import opened SearchTree
  import opened NameChunks
  import opened SectionTable
  import opened SectionLookup

  predicate GoodSection(s: Section) {
    s.prefix <= s.full && (s.done ==> Trimmed(s.full))
  }

  /** No prefix starts with another one, and each one starts its name. */
  predicate Good(t: map<nat, Section>) {
    && (forall p :: p in t ==> GoodSection(t[p]))
    && (forall a, b :: a in t && b in t && a != b ==> !Comparable(t[a].prefix, t[b].prefix))
  }

  lemma SectionGood(d: Dir, p: nat, es: seq<nat>)
    requires NameOK(d, p, es)
    ensures GoodSection(SectionOf(d, p, es))
  {
    var k, part, rest := d.plen[p], Part(d.text[p]), Rest(d.text, es);
    assert KeyOf(d.text[p], k) == part[..k];
    assert part + rest == part[..k] + (part[k..] + rest);
  }

  /** The arrays only ever hold good tables. */
  lemma TableGood(d: Dir, tree: Tree, chains: map<nat, seq<nat>>)
    requires TableOK(d, tree, chains)
    ensures Good(Sections(d, chains))
  {
    TableTree(d, tree, chains);
    TableShape(d, tree);
    hide TableOK, Owned, NameOK;
    var t := Sections(d, chains);
    forall p | p in t
      ensures GoodSection(t[p])
    {
      TableName(d, tree, chains, p);
      SectionGood(d, p, chains[p]);
    }
    forall a, b | a in t && b in t && a != b
      ensures !Comparable(t[a].prefix, t[b].prefix)
    {
      PairwiseIncomparable(tree, KeysOf(d.text, d.plen), a, b);
    }
  }

  /** A hit alone: no other prefix is comparable with the query. */
  lemma LoneHit(t: map<nat, Section>, q: string, p: nat, b: nat)
    requires Hits(t, q) == {p} && b in t && b != p
    ensures !Comparable(t[b].prefix, q)
  {
    assert b !in Hits(t, q);
  }

  /** What one lookup does to a section that was there before. */
  predicate Grown(s: Section, s': Section) {
    && s.full <= s'.full && s'.prefix <= s.prefix
    && (s.done ==> s'.done && s'.full == s.full)
  }

  lemma UpdatePrefix(s: Section, q: string, ispref: bool)
    requires GoodSection(s) && Comparable(s.prefix, q) && (!ispref ==> Trimmed(q))
    ensures var s' := Updated(s, q, ispref).0;
            GoodSection(s') && Grown(s, s') && (s'.prefix == s.prefix || s'.prefix == q)
  {
    LookupPromise(s, q, ispref);
  }

  /** One lookup keeps the table good and lets names only grow. */
  lemma LookupKeepsTable(t: map<nat, Section>, q: string, ispref: bool, t': map<nat, Section>,
                         p: nat, err: bool)
    requires Good(t) && Looked(t, q, ispref, t', p, err) && (!ispref ==> Trimmed(q))
    ensures Good(t')
    ensures forall a :: a in t ==> a in t' && Grown(t[a], t'[a])
  {
    hide Comparable, GoodSection, Grown, Trimmed;
    forall a
      ensures a in t ==> Grown(t[a], t[a])
    {
      if a in t { GrownSame(t[a]); }
    }
    if Hits(t, q) == {} {
      NewSectionGood(q, ispref);
      forall a | a in t
        ensures !Comparable(t[a].prefix, q) && !Comparable(q, t[a].prefix)
      {
        assert a !in Hits(t, q);
        Symmetric(t[a].prefix, q);
      }
    } else if t' != t {
      assert p in Hits(t, q);
      UpdatePrefix(t[p], q, ispref);
      forall b | b in t && b != p
        ensures !Comparable(t'[p].prefix, t[b].prefix) && !Comparable(t[b].prefix, t'[p].prefix)
      {
        LoneHit(t, q, p, b);
        Symmetric(t[b].prefix, q);
      }
    }
  }

  lemma Symmetric(a: string, b: string)
    ensures Comparable(a, b) == Comparable(b, a)
  {
  }

  lemma GrownSame(s: Section)
    ensures Grown(s, s)
  {
  }

  lemma NewSectionGood(q: string, ispref: bool)
    requires !ispref ==> Trimmed(q)
    ensures GoodSection(Section(q, q, !ispref))
  {
  }

  /** One lookup of a run: the query and what came of it. */
  datatype Lookup = Lookup(q: string, ispref: bool, p: nat, err: bool)

  /** The tables before, between and after a sequence of lookups. */
  ghost predicate History(ts: seq<map<nat, Section>>, ls: seq<Lookup>) {
    && |ts| == |ls| + 1
    && forall i :: 0 <= i < |ls| ==>
         && (!ls[i].ispref ==> Trimmed(ls[i].q))
         && Looked(ts[i], ls[i].q, ls[i].ispref, ts[i + 1], ls[i].p, ls[i].err)
  }

  lemma {:induction false} HistoryGood(ts: seq<map<nat, Section>>, ls: seq<Lookup>, i: nat, j: nat)
    requires History(ts, ls) && Good(ts[0]) && i <= j <= |ls|
    ensures Good(ts[i]) && Good(ts[j])
    ensures forall a :: a in ts[i] ==> a in ts[j] && Grown(ts[i][a], ts[j][a])
    decreases j, i
  {
    hide Looked, Good;
    if i > 0 {
      HistoryGood(ts, ls, 0, i - 1);
      LookupKeepsTable(ts[i - 1], ls[i - 1].q, ls[i - 1].ispref, ts[i], ls[i - 1].p, ls[i - 1].err);
    }
    if i < j {
      HistoryGood(ts, ls, i, j - 1);
      LookupKeepsTable(ts[j - 1], ls[j - 1].q, ls[j - 1].ispref, ts[j], ls[j - 1].p, ls[j - 1].err);
    }
  }

  /** The section was found by this query: its prefix starts the query, which fits its name. */
  predicate Answers(s: Section, q: string, ispref: bool) {
    s.prefix <= q && if ispref then q <= s.full else s.done && s.full == q
  }

  lemma AnswersAlone(t: map<nat, Section>, q: string, p: nat)
    requires Good(t) && p in t && t[p].prefix <= q
    ensures Hits(t, q) == {p}
  {
    forall b | b in t && b != p
      ensures !Comparable(t[b].prefix, q)
    {
      assert !Comparable(t[p].prefix, t[b].prefix);
    }
  }

  lemma LookupAgain(t: map<nat, Section>, q: string, ispref: bool, t': map<nat, Section>, p: nat,
                    r: nat, err: bool)
    requires Good(t) && p in t && Answers(t[p], q, ispref)
    requires Looked(t, q, ispref, t', r, err)
    ensures r == p && !err && t' == t
  {
    AnswersAlone(t, q, p);
    assert r in Hits(t, q);
    CmpMeaning(q, t[p].full);
    assert t[p := t[p]] == t;
  }

  lemma LookupRecorded(t: map<nat, Section>, q: string, ispref: bool, t': map<nat, Section>, p: nat)
    requires Good(t) && (!ispref ==> Trimmed(q)) && Looked(t, q, ispref, t', p, false)
    ensures p in t' && Answers(t'[p], q, ispref)
  {
    if Hits(t, q) != {} {
      assert p in Hits(t, q);
      LookupPromise(t[p], q, ispref);
    }
  }

  lemma AnswersLater(s: Section, s': Section, q: string, ispref: bool)
    requires Answers(s, q, ispref) && Grown(s, s')
    ensures Answers(s', q, ispref)
  {
  }

  /**
    A name that was once looked up without error, abbreviated or not, denotes the same section ever
    after, with no error and no change, however many lookups came in between. A full name does so as
    an abbreviation, too.
   */
  lemma NameIsStable(ts: seq<map<nat, Section>>, ls: seq<Lookup>, i: nat, j: nat)
    requires History(ts, ls) && Good(ts[0]) && i < j < |ls|
    requires !ls[i].err && ls[j].q == ls[i].q && (ls[i].ispref ==> ls[j].ispref)
    ensures ls[j].p == ls[i].p && !ls[j].err && ts[j + 1] == ts[j]
  {
    hide Looked, Answers, Grown;
    var p, q := ls[i].p, ls[i].q;
    HistoryGood(ts, ls, i, i);
    LookupRecorded(ts[i], q, ls[i].ispref, ts[i + 1], p);
    HistoryGood(ts, ls, i + 1, j);
    AnswersLater(ts[i + 1][p], ts[j][p], q, ls[i].ispref);
    AnswersShort(ts[j][p], q, ls[i].ispref, ls[j].ispref);
    LookupAgain(ts[j], q, ls[j].ispref, ts[j + 1], p, ls[j].p, ls[j].err);
  }

  lemma AnswersShort(s: Section, q: string, ispref: bool, shorter: bool)
    requires Answers(s, q, ispref) && (ispref ==> shorter)
    ensures Answers(s, q, shorter)
  {
  }

  // ----- What the table holds, read off the lookups alone

  /** Lookup k, one of the first i, returned section p without an error. */
  predicate Returned(ls: seq<Lookup>, i: nat, p: nat, k: int) {
    0 <= k < i <= |ls| && ls[k].p == p && !ls[k].err
  }

  /**
    What the first i lookups make of section p: its name is the longest and its prefix the shortest
    of the queries that returned it, and it is complete if and only if one of them was a full name,
    which then is the name.
   */
  ghost predicate Recorded(s: Section, ls: seq<Lookup>, i: nat, p: nat) {
    && (forall k :: Returned(ls, i, p, k) ==> s.prefix <= ls[k].q <= s.full)
    && (exists k :: Returned(ls, i, p, k) && ls[k].q == s.full)
    && (exists k :: Returned(ls, i, p, k) && ls[k].q == s.prefix)
    && (s.done <==> exists k :: Returned(ls, i, p, k) && !ls[k].ispref)
    && (forall k :: Returned(ls, i, p, k) && !ls[k].ispref ==> ls[k].q == s.full)
  }

  lemma RecordedSame(s: Section, ls: seq<Lookup>, i: nat, j: nat, p: nat)
    requires j == i + 1 <= |ls| && Recorded(s, ls, i, p) && (ls[i].p != p || ls[i].err)
    ensures Recorded(s, ls, j, p)
  {
    forall k: int
      ensures Returned(ls, j, p, k) == Returned(ls, i, p, k)
    {
    }
  }

  lemma RecordedNew(ls: seq<Lookup>, i: nat, j: nat, p: nat)
    requires j == i + 1 <= |ls| && ls[i].p == p && !ls[i].err
    requires forall k :: !Returned(ls, i, p, k)
    ensures Recorded(Section(ls[i].q, ls[i].q, !ls[i].ispref), ls, j, p)
  {
    forall k: int
      ensures Returned(ls, j, p, k) <==> k == i
    {
      assert !Returned(ls, i, p, k);
    }
  }

  lemma RecordedUpdate(s: Section, ls: seq<Lookup>, i: nat, j: nat, p: nat)
    requires j == i + 1 <= |ls| && Recorded(s, ls, i, p) && ls[i].p == p && !ls[i].err
    requires GoodSection(s) && Comparable(s.prefix, ls[i].q) && (!ls[i].ispref ==> Trimmed(ls[i].q))
    requires !Updated(s, ls[i].q, ls[i].ispref).1
    ensures Recorded(Updated(s, ls[i].q, ls[i].ispref).0, ls, j, p)
  {
    LookupPromise(s, ls[i].q, ls[i].ispref);
    hide Updated, Trimmed;
    forall k: int
      ensures Returned(ls, j, p, k) <==> Returned(ls, i, p, k) || k == i
    {
    }
  }

  /** A lookup leaves the sections alone that it does not return. */
  lemma LookedElsewhere(t: map<nat, Section>, q: string, ispref: bool, t': map<nat, Section>,
                        r: nat, err: bool, p: nat)
    requires Looked(t, q, ispref, t', r, err) && (r != p || err)
    ensures if p in t then p in t' && t'[p] == t[p] else p !in t'
  {
    var hits := Hits(t, q);
    if hits != {} && !(exists a, b :: a in hits && b in hits && a != b) {
      assert r in hits;
      CmpMeaning(q, t[r].full);
    }
  }

  /** One lookup brings the record of every section up to date. */
  lemma LookupRecords(ts: seq<map<nat, Section>>, ls: seq<Lookup>, i: nat, j: nat, p: nat)
    requires History(ts, ls) && j == i + 1 <= |ls| && Good(ts[i])
    requires if p in ts[i] then Recorded(ts[i][p], ls, i, p) else forall k :: !Returned(ls, i, p, k)
    ensures if p in ts[j] then Recorded(ts[j][p], ls, j, p) else forall k :: !Returned(ls, j, p, k)
  {
    hide Recorded, Updated, Comparable, GoodSection, Trimmed;
    var t, l := ts[i], ls[i];
    assert Looked(t, l.q, l.ispref, ts[j], l.p, l.err);
    if l.p != p || l.err {
      LookedElsewhere(t, l.q, l.ispref, ts[j], l.p, l.err, p);
      hide Looked;
      if p in t {
        RecordedSame(t[p], ls, i, j, p);
      } else {
        forall k: int
          ensures !Returned(ls, j, p, k)
        {
          assert !Returned(ls, i, p, k);
        }
      }
    } else if Hits(t, l.q) == {} {
      RecordedNew(ls, i, j, p);
    } else {
      assert p in Hits(t, l.q);
      RecordedUpdate(t[p], ls, i, j, p);
    }
  }

  /**
    From the empty table on: a section is in the table if and only if a lookup has returned it
    without an error, and its record is that of all these lookups. So it is complete exactly from
    the first of them on that gave the full name.
   */
  lemma {:induction false} RecordIsHistory(ts: seq<map<nat, Section>>, ls: seq<Lookup>, i: nat,
                                           p: nat)
    requires History(ts, ls) && ts[0] == map[] && i <= |ls|
    ensures p in ts[i] <==> exists k :: Returned(ls, i, p, k)
    ensures p in ts[i] ==> Recorded(ts[i][p], ls, i, p)
    decreases i
  {
    assert Good(ts[0]);
    hide Good;
    if i > 0 {
      RecordIsHistory(ts, ls, i - 1, p);
      HistoryGood(ts, ls, 0, i - 1);
      LookupRecords(ts, ls, i - 1, i, p);
    }
  }

  /**
    Exactly when a full name is accepted that meets one section: when it is the complete name, or
    when it extends the longest query so far and no full name was given before.
   */
  lemma FullNameAccepted(ts: seq<map<nat, Section>>, ls: seq<Lookup>, i: nat, p: nat)
    requires History(ts, ls) && ts[0] == map[] && i < |ls|
    requires !ls[i].ispref && Hits(ts[i], ls[i].q) == {p}
    ensures ls[i].p == p
    ensures !ls[i].err <==>
            || (forall k :: Returned(ls, i, p, k) ==> ls[k].ispref && ls[k].q <= ls[i].q)
            || (exists k :: Returned(ls, i, p, k) && !ls[k].ispref && ls[k].q == ls[i].q)
    ensures !ls[i].err ==> p in ts[i + 1] && ts[i + 1][p].done && ts[i + 1][p].full == ls[i].q
  {
    RecordIsHistory(ts, ls, i, p);
    HistoryGood(ts, ls, 0, i);
    assert p in Hits(ts[i], ls[i].q);
    FullFits(ts[i][p], ls, i, p, ls[i].q);
    FullLooked(ts[i], ls[i].q, ts[i + 1], ls[i].p, ls[i].err, p);
  }

  /** A full name that meets only section p. */
  lemma FullLooked(t: map<nat, Section>, q: string, t': map<nat, Section>, r: nat, err: bool, p: nat)
    requires Looked(t, q, false, t', r, err) && Hits(t, q) == {p} && Good(t) && Trimmed(q)
    ensures p in t && r == p
    ensures !err <==> (!t[p].done && t[p].full <= q) || (t[p].done && q == t[p].full)
    ensures !err ==> p in t' && t'[p].done && t'[p].full == q
  {
    assert p in Hits(t, q);
    LookupPromise(t[p], q, false);
    hide Updated, Trimmed;
  }

  lemma FullFits(s: Section, ls: seq<Lookup>, i: nat, p: nat, q: string)
    requires Recorded(s, ls, i, p)
    ensures (!s.done && s.full <= q) <==>
            forall k :: Returned(ls, i, p, k) ==> ls[k].ispref && ls[k].q <= q
    ensures (s.done && q == s.full) <==>
            exists k :: Returned(ls, i, p, k) && !ls[k].ispref && ls[k].q == q
  {
  }

  /**
    A full name that starts with every query so far that returned section p, all of them
    abbreviations, is accepted and completes that section.
   */
  lemma FullNameCompletes(ts: seq<map<nat, Section>>, ls: seq<Lookup>, i: nat, p: nat, first: nat)
    requires History(ts, ls) && ts[0] == map[] && i < |ls| && !ls[i].ispref
    requires Returned(ls, i, p, first)
    requires forall k :: Returned(ls, i, p, k) ==> ls[k].ispref && ls[k].q <= ls[i].q
    ensures ls[i].p == p && !ls[i].err
    ensures p in ts[i + 1] && ts[i + 1][p].done && ts[i + 1][p].full == ls[i].q
  {
    RecordIsHistory(ts, ls, i, p);
    HistoryGood(ts, ls, 0, i);
    AnswersAlone(ts[i], ls[i].q, p);
    FullNameAccepted(ts, ls, i, p);
  }
}
