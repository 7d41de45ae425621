/**
  The cross-reference lists of CWEAVE as sequences of numbers: those of identifiers, latest section
  first, and those of section names, in four groups.
 */
module XrefOrder {
  const CITE: nat := 10240
  const DEF: nat := 20480
  const FILE: nat := 30720

  // ----- Identifiers

  /** The section an entry is about, without its definition flag. */
  function Sec(n: nat): nat {
    if n < DEF then n else n - DEF
  }

  predicate Entry(n: nat) {
    0 < n < CITE || DEF < n < DEF + CITE
  }

  ghost predicate Entries(l: seq<nat>) {
    forall n :: n in l ==> Entry(n)
  }

  /** Sections strictly decrease. */
  ghost predicate Falling(l: seq<nat>) {
    forall i, j :: 0 <= i < j < |l| ==> Sec(l[i]) > Sec(l[j])
  }

  /** new_xref with section and switch m. */
  function NewXref(l: seq<nat>, m: nat): seq<nat> {
    if l != [] && (l[0] == m || l[0] == m + DEF) then l
    else if l != [] && m == l[0] + DEF then [m] + l[1..]
    else [m] + l
  }

  /** What `@f` leaves of the list of a name that is not to be indexed: its definitions. */
  function Pruned(l: seq<nat>): seq<nat> {
    if l == [] then []
    else if l[0] < DEF then Pruned(l[1..])
    else [l[0]] + Pruned(l[1..])
  }

  /** underline_xref with section and switch m. */
  function Underlined(l: seq<nat>, m: nat): seq<nat> {
    if l == [] then [m]
    else if l[0] == m then l
    else if m == l[0] + DEF then [m] + l[1..]
    else if DEF <= l[0] < m then [m] + l
    else [l[0]] + Underlined(l[1..], m)
  }

  lemma InFront(x: nat, l: seq<nat>)
    ensures forall n :: n in [x] + l <==> n == x || n in l
  {
  }

  lemma FallingOne(m: nat)
    ensures Falling([m])
  {
  }

  /** Every entry of l is about an earlier section than x. */
  ghost predicate Over(x: nat, l: seq<nat>) {
    forall n :: n in l ==> Sec(n) < Sec(x)
  }

  lemma FallingCons(x: nat, l: seq<nat>)
    ensures Falling([x] + l) <==> Falling(l) && Over(x, l)
  {
    hide Sec;
    var r := [x] + l;
    if Falling(r) {
      forall n | n in l
        ensures Sec(n) < Sec(x)
      {
        var i :| 0 <= i < |l| && l[i] == n;
        assert r[0] == x && r[i + 1] == n;
      }
      forall i, j | 0 <= i < j < |l|
        ensures Sec(l[i]) > Sec(l[j])
      {
        assert r[i + 1] == l[i] && r[j + 1] == l[j];
      }
    }
    if Falling(l) && Over(x, l) {
      forall i, j | 0 <= i < j < |r|
        ensures Sec(r[i]) > Sec(r[j])
      {
        assert r[j] == l[j - 1] && (i > 0 ==> r[i] == l[i - 1]);
      }
    }
  }

  /**
    Noting section s, no earlier than the ones noted so far: the list still falls, has one entry for
    s, which is flagged if this or an earlier note says so, and keeps all others.
   */
  lemma NewXrefKeeps(l: seq<nat>, s: nat, flag: bool)
    requires Falling(l) && Entries(l) && 0 < s < CITE && forall n :: n in l ==> Sec(n) <= s
    ensures var r := NewXref(l, if flag then s + DEF else s);
            && Falling(r) && Entries(r) && (forall n :: n in r ==> Sec(n) <= s)
            && Sec(r[0]) == s && (r[0] >= DEF <==> flag || s + DEF in l)
            && forall n :: Sec(n) != s ==> (n in r <==> n in l)
  {
    var m := if flag then s + DEF else s;
    assert Entry(m) && Sec(m) == s == Sec(s + DEF);
    if l == [] || Sec(l[0]) < s {
      assert l != [] ==> l[0] in l && Entry(l[0]);
      assert NewXref(l, m) == [m] + l;
      NewXrefLater(l, s, m);
    } else {
      var x, t := l[0], l[1..];
      assert l == [x] + t && x in l && Entry(x);
      var y := NewXref(l, m)[0];
      assert NewXref(l, m) == [y] + t && (y == x || y == m) && (y >= DEF <==> flag || x == s + DEF);
      NewXrefSame(x, t, s, y);
    }
  }

  lemma NewXrefLater(l: seq<nat>, s: nat, m: nat)
    requires Falling(l) && Entries(l) && Entry(m) && Sec(m) == s == Sec(s + DEF)
    requires l == [] || Sec(l[0]) < s
    ensures var r := [m] + l;
            && Falling(r) && Entries(r) && (forall n :: n in r ==> Sec(n) <= s) && s + DEF !in l
            && forall n :: Sec(n) != s ==> (n in r <==> n in l)
  {
    InFront(m, l);
    if l != [] {
      FallingCons(l[0], l[1..]);
      assert l == [l[0]] + l[1..];
      InFront(l[0], l[1..]);
      hide Sec, Falling, Entry;
    }
    assert Over(m, l);
    FallingCons(m, l);
  }

  /** The same when the section was noted before: the first entry x becomes y. */
  lemma NewXrefSame(x: nat, t: seq<nat>, s: nat, y: nat)
    requires Falling([x] + t) && Entries([x] + t) && Entry(y)
    requires Sec(x) == Sec(y) == s == Sec(s + DEF)
    ensures var r := [y] + t;
            && Falling(r) && Entries(r) && (forall n :: n in r ==> Sec(n) <= s)
            && (forall n :: Sec(n) != s ==> (n in r <==> n in [x] + t))
            && s + DEF !in t
  {
    FallingCons(x, t);
    FallingCons(y, t);
    InFront(x, t);
    InFront(y, t);
    hide Sec, Falling, Entry;
  }

  /** Pruning keeps exactly the definitions, in order. */
  lemma {:induction false} PrunedKeeps(l: seq<nat>)
    requires Falling(l)
    ensures Falling(Pruned(l)) && forall n :: n in Pruned(l) <==> n in l && n >= DEF
  {
    if l != [] {
      var x, t := l[0], l[1..];
      assert l == [x] + t;
      hide Falling;
      FallingCons(x, t);
      PrunedKeeps(t);
      InFront(x, t);
      InFront(x, Pruned(t));
      assert Over(x, Pruned(t));
      FallingCons(x, Pruned(t));
    }
  }

  /** The first entry of a section before s, unless s itself comes earlier, is a definition. */
  predicate Marked(l: seq<nat>, s: nat) {
    if l == [] || Sec(l[0]) == s then true
    else if Sec(l[0]) > s then Marked(l[1..], s)
    else l[0] >= DEF
  }

  ghost predicate OneEach(l: seq<nat>) {
    forall i, j :: 0 <= i < j < |l| ==> Sec(l[i]) != Sec(l[j])
  }

  /**
    As far as section s is concerned: an entry for s or a later section comes after entries of later
    sections only, or it is the flagged entry of s itself and the others are uses.
   */
  ghost predicate Steady(l: seq<nat>, s: nat) {
    forall i, j :: 0 <= i < j < |l| && Sec(l[j]) >= s ==>
      Sec(l[i]) > Sec(l[j]) || (l[j] == s + DEF && l[i] < DEF)
  }

  /** Entry x may stand in front of l as far as section s is concerned. */
  ghost predicate Leads(x: nat, l: seq<nat>, s: nat) {
    forall n :: n in l && Sec(n) >= s ==> Sec(x) > Sec(n) || (n == s + DEF && x < DEF)
  }

  ghost predicate Apart(x: nat, l: seq<nat>) {
    forall n :: n in l ==> Sec(n) != Sec(x)
  }

  lemma SteadyCons(x: nat, l: seq<nat>, s: nat)
    ensures Steady([x] + l, s) <==> Steady(l, s) && Leads(x, l, s)
  {
    hide Sec;
    var r := [x] + l;
    if Steady(r, s) {
      forall n | n in l && Sec(n) >= s
        ensures Sec(x) > Sec(n) || (n == s + DEF && x < DEF)
      {
        var i :| 0 <= i < |l| && l[i] == n;
        assert r[0] == x && r[i + 1] == n;
      }
      forall i, j | 0 <= i < j < |l| && Sec(l[j]) >= s
        ensures Sec(l[i]) > Sec(l[j]) || (l[j] == s + DEF && l[i] < DEF)
      {
        assert r[i + 1] == l[i] && r[j + 1] == l[j];
      }
    }
    if Steady(l, s) && Leads(x, l, s) {
      forall i, j | 0 <= i < j < |r| && Sec(r[j]) >= s
        ensures Sec(r[i]) > Sec(r[j]) || (r[j] == s + DEF && r[i] < DEF)
      {
        assert r[j] == l[j - 1] && (i > 0 ==> r[i] == l[i - 1]);
      }
    }
  }

  lemma OneEachCons(x: nat, l: seq<nat>)
    ensures OneEach([x] + l) <==> OneEach(l) && Apart(x, l)
  {
    hide Sec;
    var r := [x] + l;
    if OneEach(r) {
      forall n | n in l
        ensures Sec(n) != Sec(x)
      {
        var i :| 0 <= i < |l| && l[i] == n;
        assert r[0] == x && r[i + 1] == n;
      }
      forall i, j | 0 <= i < j < |l|
        ensures Sec(l[i]) != Sec(l[j])
      {
        assert r[i + 1] == l[i] && r[j + 1] == l[j];
      }
    }
    if OneEach(l) && Apart(x, l) {
      forall i, j | 0 <= i < j < |r|
        ensures Sec(r[i]) != Sec(r[j])
      {
        assert r[j] == l[j - 1] && (i > 0 ==> r[i] == l[i - 1]);
      }
    }
  }

  lemma FallingSteady(l: seq<nat>, s: nat)
    requires Falling(l)
    ensures Steady(l, s) && OneEach(l)
  {
  }

  lemma SteadyLater(l: seq<nat>, s: nat, t: nat)
    requires Steady(l, s) && s < t
    ensures Steady(l, t)
  {
  }

  /** r is l with the one entry for section s flagged, or put in. */
  ghost predicate Flagged(l: seq<nat>, r: seq<nat>, s: nat) {
    && Entries(r) && Steady(r, s) && OneEach(r) && s + DEF in r
    && forall n :: Sec(n) != s ==> (n in r <==> n in l)
  }

  lemma FlaggedParts(l: seq<nat>, r: seq<nat>, s: nat)
    requires Flagged(l, r, s)
    ensures Entries(r) && Steady(r, s) && OneEach(r) && s + DEF in r
    ensures forall n :: Sec(n) != s ==> (n in r <==> n in l)
  {
  }

  /** The entry x of section s itself becomes flagged. */
  lemma FlagsFirst(x: nat, t: seq<nat>, s: nat)
    requires Entries([x] + t) && Steady([x] + t, s) && OneEach([x] + t) && 0 < s < CITE
    requires Sec(x) == s
    ensures Flagged([x] + t, [s + DEF] + t, s)
  {
    var m := s + DEF;
    assert Entry(m) && Sec(m) == s;
    SteadyCons(x, t, s);
    OneEachCons(x, t);
    SteadyCons(m, t, s);
    OneEachCons(m, t);
    InFront(x, t);
    InFront(m, t);
    hide Steady, OneEach, Entry;
  }

  /** A flagged entry goes in front of an earlier definition x. */
  lemma FlagsBefore(x: nat, t: seq<nat>, s: nat)
    requires Entries([x] + t) && Steady([x] + t, s) && OneEach([x] + t) && 0 < s < CITE
    requires DEF <= x < s + DEF
    ensures Flagged([x] + t, [s + DEF] + ([x] + t), s)
  {
    var m, l := s + DEF, [x] + t;
    assert Entry(m) && Sec(m) == s;
    SteadyCons(x, t, s);
    InFront(x, t);
    InFront(m, l);
    assert forall n :: n in l ==> Sec(n) < s;
    hide Steady, OneEach, Entry;
    SteadyCons(m, l, s);
    OneEachCons(m, l);
  }

  /** An entry x that is passed over stays in front. */
  lemma FlagsBehind(x: nat, t: seq<nat>, r: seq<nat>, s: nat)
    requires Entries([x] + t) && Steady([x] + t, s) && OneEach([x] + t) && 0 < s < CITE
    requires Sec(x) != s && !(DEF <= x < s + DEF) && Flagged(t, r, s)
    ensures Flagged([x] + t, [x] + r, s)
  {
    var m := s + DEF;
    InFront(x, t);
    InFront(x, r);
    SteadyCons(x, t, s);
    OneEachCons(x, t);
    assert Entry(x) && Sec(m) == s;
    assert forall n :: Sec(n) == s ==> n == s || n == m;
    hide Steady, OneEach;
    assert s !in r by { OnlyFlag(r, s); }
    SteadyCons(x, r, s);
    OneEachCons(x, r);
  }

  lemma OnlyFlag(r: seq<nat>, s: nat)
    requires OneEach(r) && s + DEF in r && 0 < s < CITE
    ensures s !in r
  {
  }

  /**
    Underlining section s leaves exactly one entry for s, which is flagged, and all entries of other
    sections as they were.
   */
  lemma {:induction false} UnderlinedKeeps(l: seq<nat>, s: nat)
    requires Entries(l) && Steady(l, s) && OneEach(l) && 0 < s < CITE
    ensures Flagged(l, Underlined(l, s + DEF), s)
  {
    var m := s + DEF;
    if l == [] {
      assert Entry(m) && Sec(m) == s;
    } else {
      var x, t := l[0], l[1..];
      assert l == [x] + t && x in l && Entry(x);
      if Sec(x) == s {
        FlagsFirst(x, t, s);
        assert l[0] == m ==> [m] + t == l;
      } else if DEF <= x < m {
        FlagsBefore(x, t, s);
      } else {
        SteadyCons(x, t, s);
        OneEachCons(x, t);
        InFront(x, t);
        hide Steady, OneEach, Flagged;
        UnderlinedKeeps(t, s);
        FlagsBehind(x, t, Underlined(t, m), s);
      }
    }
  }

  /** Underlining keeps the order of a falling list if and only if the list is marked for s. */
  lemma {:induction false} UnderlinedFalls(l: seq<nat>, s: nat)
    requires Entries(l) && Falling(l) && 0 < s < CITE
    ensures Falling(Underlined(l, s + DEF)) <==> Marked(l, s)
  {
    var m := s + DEF;
    hide Falling, Steady, OneEach, Flagged;
    if l == [] {
      FallingOne(m);
    } else {
      var x, t := l[0], l[1..];
      assert l == [x] + t && x in l && Entry(x) && Sec(m) == s;
      FallingCons(x, t);
      InFront(x, t);
      if Sec(x) == s {
        FallingCons(m, t);
        assert l[0] == m ==> [m] + t == l;
      } else if DEF <= x < m {
        FallingCons(m, l);
      } else {
        var r := Underlined(t, m);
        FallingSteady(t, s);
        UnderlinedKeeps(t, s);
        UnderlinedFalls(t, s);
        PassedOver(x, t, r, s);
        FallingCons(x, r);
        hide Over, Entry;
        assert Underlined(l, m) == [x] + r;
      }
    }
  }

  lemma PassedOver(x: nat, t: seq<nat>, r: seq<nat>, s: nat)
    requires Over(x, t) && Flagged(t, r, s) && 0 < s < CITE
    ensures Over(x, r) <==> s < Sec(x)
  {
    hide Steady, Entries;
    assert Sec(s + DEF) == s;
    assert forall n :: n in r && Sec(n) != s ==> Sec(n) < Sec(x);
  }

  /** A list that underlining brings out of order. */
  lemma UnderlineOutOfOrder()
    ensures Falling([5, 3, 2 + DEF])
    ensures Underlined([5, 3, 2 + DEF], 4 + DEF) == [5, 3, 4 + DEF, 2 + DEF]
    ensures !Falling([5, 3, 4 + DEF, 2 + DEF])
  {
    var r := [5, 3, 4 + DEF, 2 + DEF];
    assert [5, 3, 2 + DEF][1..] == [3, 2 + DEF] && [3, 2 + DEF][1..] == [2 + DEF];
    assert Underlined([2 + DEF], 4 + DEF) == [4 + DEF, 2 + DEF];
    assert Underlined([3, 2 + DEF], 4 + DEF) == [3, 4 + DEF, 2 + DEF];
    assert Sec(r[1]) <= Sec(r[2]);
  }

  /** Underlining in a run of sections, as phase two comes to them. */
  function UnderlineRun(l: seq<nat>, ss: seq<nat>): seq<nat>
    decreases |ss|
  {
    if ss == [] then l else UnderlineRun(Underlined(l, ss[0] + DEF), ss[1..])
  }

  /** Sections that do not decrease from s on. */
  predicate Rising(ss: seq<nat>, s: nat) {
    ss == [] || (s <= ss[0] && 0 < ss[0] < CITE && Rising(ss[1..], ss[0]))
  }

  /**
    Over a whole run of sections that do not decrease, every section that is underlined ends up with
    exactly one entry, flagged, and no other entry changes.
   */
  lemma {:induction false} UnderlineRunKeeps(l: seq<nat>, ss: seq<nat>, s: nat)
    requires Entries(l) && Steady(l, s) && OneEach(l) && Rising(ss, s)
    ensures var r := UnderlineRun(l, ss);
            && Entries(r) && OneEach(r) && (forall t :: t in ss ==> t + DEF in r)
            && forall n :: Sec(n) !in ss ==> (n in r <==> n in l)
    decreases |ss|
  {
    hide Steady, Entries, OneEach, Underlined, Flagged;
    if ss != [] {
      var t, later := ss[0], ss[1..];
      if s < t {
        SteadyLater(l, s, t);
      }
      UnderlinedKeeps(l, t);
      var next := Underlined(l, t + DEF);
      FlaggedParts(l, next, t);
      assert Sec(t + DEF) == t;
      hide Sec, Rising;
      UnderlineRunKeeps(next, later, t);
      assert ss == [t] + later;
      InFront(t, later);
    }
  }

  // ----- Section names

  /** File flag, definitions, citations, uses. */
  function Group(n: nat): nat {
    if n == FILE then 3 else if DEF < n < FILE then 2 else if CITE < n < DEF then 1 else 0
  }

  predicate SectionEntry(n: nat) {
    n == FILE || 0 < n < CITE || CITE < n < DEF || DEF < n < FILE
  }

  /** The groups follow each other, each with its sections increasing, and at most one file flag. */
  ghost predicate Grouped(l: seq<nat>) {
    && (forall n :: n in l ==> SectionEntry(n))
    && forall i, j :: 0 <= i < j < |l| ==>
         Group(l[i]) > Group(l[j]) || (Group(l[i]) == Group(l[j]) < 3 && l[i] < l[j])
  }

  /**
    new_section_xref with section and switch m: it passes over the entries that are larger than the
    switch; `prev` is the last of these, 0 before the first.
   */
  function NewSectionXref(prev: nat, l: seq<nat>, m: nat, switch: nat): seq<nat>
    decreases |l|
  {
    if l != [] && l[0] > switch then [l[0]] + NewSectionXref(l[0], l[1..], m, switch)
    else if prev == m then l
    else [m] + l
  }

  function SetFileFlag(l: seq<nat>): seq<nat> {
    if l != [] && l[0] == FILE then l else [FILE] + l
  }

  predicate IsSwitch(switch: nat) {
    switch == 0 || switch == CITE || switch == DEF
  }

  /** No entry is about a section after s. */
  ghost predicate UpTo(l: seq<nat>, s: nat) {
    forall n :: n in l ==> n == FILE || n % CITE <= s
  }

  /** Entry x may stand in front of l. */
  ghost predicate Heads(x: nat, l: seq<nat>) {
    forall n :: n in l ==> Group(x) > Group(n) || (Group(x) == Group(n) < 3 && x < n)
  }

  lemma GroupedCons(x: nat, l: seq<nat>)
    ensures Grouped([x] + l) <==> Grouped(l) && SectionEntry(x) && Heads(x, l)
  {
    hide Group, SectionEntry;
    var r := [x] + l;
    InFront(x, l);
    if Grouped(r) {
      forall n | n in l
        ensures Group(x) > Group(n) || (Group(x) == Group(n) < 3 && x < n)
      {
        var i :| 0 <= i < |l| && l[i] == n;
        assert r[0] == x && r[i + 1] == n;
      }
      forall i, j | 0 <= i < j < |l|
        ensures Group(l[i]) > Group(l[j]) || (Group(l[i]) == Group(l[j]) < 3 && l[i] < l[j])
      {
        assert r[i + 1] == l[i] && r[j + 1] == l[j];
      }
    }
    if Grouped(l) && SectionEntry(x) && Heads(x, l) {
      forall i, j | 0 <= i < j < |r|
        ensures Group(r[i]) > Group(r[j]) || (Group(r[i]) == Group(r[j]) < 3 && r[i] < r[j])
      {
        assert r[j] == l[j - 1] && (i > 0 ==> r[i] == l[i - 1]);
      }
    }
  }

  /** What may precede a new entry m: nothing, or a larger entry than the switch that may head l. */
  ghost predicate MayPrecede(prev: nat, l: seq<nat>, s: nat, switch: nat) {
    prev == 0 || (prev > switch && SectionEntry(prev) && Heads(prev, l) && UpTo([prev], s))
  }

  lemma FirstLargest(l: seq<nat>)
    requires Grouped(l) && l != []
    ensures SectionEntry(l[0]) && forall n :: n in l ==> Group(n) <= Group(l[0])
  {
    assert l[0] in l && l == [l[0]] + l[1..];
    GroupedCons(l[0], l[1..]);
    InFront(l[0], l[1..]);
  }

  /** Entries that are not larger than the switch are in lower groups than the new entry. */
  lemma LowerGroup(n: nat, s: nat, switch: nat)
    requires SectionEntry(n) && n <= switch && 0 < s < CITE && IsSwitch(switch)
    ensures Group(n) < Group(s + switch)
  {
  }

  /** An entry that was passed over may stand in front of the new one, unless it is the same. */
  lemma MayHead(prev: nat, s: nat, switch: nat)
    requires prev > switch && SectionEntry(prev) && UpTo([prev], s)
    requires 0 < s < CITE && IsSwitch(switch) && prev != s + switch
    ensures var m := s + switch;
            SectionEntry(m) && (Group(prev) > Group(m) || (Group(prev) == Group(m) < 3 && prev < m))
  {
    assert prev in [prev];
  }

  lemma NewEntry(s: nat, switch: nat)
    requires 0 < s < CITE && IsSwitch(switch)
    ensures SectionEntry(s + switch) && Group(s + switch) < 3 && UpTo([s + switch], s)
  {
  }

  /** Where the search stops, m may stand between prev and l, unless it is prev. */
  lemma RoomForNew(prev: nat, l: seq<nat>, s: nat, switch: nat)
    requires Grouped(l) && 0 < s < CITE && IsSwitch(switch) && MayPrecede(prev, l, s, switch)
    requires l == [] || l[0] <= switch
    ensures var m := s + switch;
            && SectionEntry(m) && Heads(m, l) && UpTo([m], s) && m !in l
            && (prev == 0 || prev == m || Heads(prev, [m] + l))
  {
    var m := s + switch;
    hide Group, SectionEntry, Grouped, UpTo;
    NewEntry(s, switch);
    if l != [] {
      FirstLargest(l);
      LowerGroup(l[0], s, switch);
    }
    if prev != 0 && prev != m {
      MayHead(prev, s, switch);
    }
    InFront(m, l);
  }

  lemma AddedKeepsHead(prev: nat, l: seq<nat>, r: seq<nat>, s: nat, switch: nat)
    requires MayPrecede(prev, l, s, switch) && UpTo(l, s) && 0 < s < CITE && IsSwitch(switch)
    requires l != [] && l[0] > switch && SectionEntry(l[0])
    requires forall n :: n in r ==> n in l || n == s + switch
    ensures prev == 0 || Heads(prev, r)
  {
    if prev != 0 {
      assert prev in [prev] && l[0] in l;
      var m := s + switch;
      assert Group(prev) > Group(m) || (Group(prev) == Group(m) < 3 && prev < m);
    }
  }

  /** An entry x that is passed over may precede what follows it, and prev is not the new entry. */
  lemma PassOn(prev: nat, x: nat, t: seq<nat>, s: nat, switch: nat)
    requires Grouped([x] + t) && UpTo([x] + t, s) && 0 < s < CITE && IsSwitch(switch)
    requires MayPrecede(prev, [x] + t, s, switch) && x > switch
    ensures Grouped(t) && UpTo(t, s) && SectionEntry(x) && MayPrecede(x, t, s, switch)
    ensures prev != s + switch
  {
    GroupedCons(x, t);
    InFront(x, t);
    assert x in [x] + t && UpTo([x], s);
    assert prev in [prev];
    if prev == s + switch {
      assert false;
    }
  }

  /** A new reference of the current section keeps the groups and adds just itself. */
  lemma {:induction false} NewSectionXrefKeeps(prev: nat, l: seq<nat>, s: nat, switch: nat)
    requires Grouped(l) && UpTo(l, s) && 0 < s < CITE && IsSwitch(switch)
    requires MayPrecede(prev, l, s, switch)
    ensures var r := NewSectionXref(prev, l, s + switch, switch);
            && Grouped(r) && UpTo(r, s) && (prev == 0 || Heads(prev, r))
            && forall n :: n in r <==> n in l || (n == s + switch && prev != n)
    decreases |l|
  {
    hide Grouped, UpTo, MayPrecede, Heads, SectionEntry, IsSwitch;
    var m := s + switch;
    if l != [] && l[0] > switch {
      var x, t := l[0], l[1..];
      assert l == [x] + t;
      PassOn(prev, x, t, s, switch);
      NewSectionXrefKeeps(x, t, s, switch);
      var r := NewSectionXref(x, t, m, switch);
      assert x > 0 && Heads(x, r);
      GroupedCons(x, r);
      InFront(x, t);
      InFront(x, r);
      AddedKeepsHead(prev, l, [x] + r, s, switch);
      AddedUpTo(l, [x] + r, s, switch);
    } else {
      RoomForNew(prev, l, s, switch);
      PrecedesHere(prev, l, s, switch);
      GroupedCons(m, l);
      InFront(m, l);
      AddedUpTo(l, [m] + l, s, switch);
    }
  }

  lemma PrecedesHere(prev: nat, l: seq<nat>, s: nat, switch: nat)
    requires MayPrecede(prev, l, s, switch)
    ensures prev == 0 || Heads(prev, l)
  {
  }

  lemma AddedUpTo(l: seq<nat>, r: seq<nat>, s: nat, switch: nat)
    requires UpTo(l, s) && 0 < s < CITE && IsSwitch(switch)
    requires forall n :: n in r ==> n in l || n == s + switch
    ensures UpTo(r, s)
  {
  }

  lemma SetFileFlagKeeps(l: seq<nat>, s: nat)
    requires Grouped(l) && UpTo(l, s)
    ensures Grouped(SetFileFlag(l)) && UpTo(SetFileFlag(l), s)
    ensures forall n :: n in SetFileFlag(l) <==> n in l || n == FILE
  {
    var r := SetFileFlag(l);
    if r != l {
      assert r[1..] == l;
      forall j | 0 < j < |r|
        ensures Group(FILE) > Group(r[j])
      {
        assert r[j] == l[j - 1] && l[j - 1] in l && l[0] in l;
      }
      forall i, j | 0 < i < j < |r|
        ensures Group(r[i]) > Group(r[j]) || (Group(r[i]) == Group(r[j]) < 3 && r[i] < r[j])
      {
        assert r[i] == l[i - 1] && r[j] == l[j - 1];
      }
    }
  }

  /** What is done to the list of one section name. */
  datatype Note = Refer(s: nat, switch: nat) | File

  function Notes(l: seq<nat>, notes: seq<Note>): seq<nat>
    decreases |notes|
  {
    if notes == [] then l
    else
      var r := match notes[0]
               case Refer(s, switch) => NewSectionXref(0, l, s + switch, switch)
               case File => SetFileFlag(l);
      Notes(r, notes[1..])
  }

  /** Sections do not decrease from s on, whatever the switches. */
  predicate InOrder(notes: seq<Note>, s: nat) {
    if notes == [] then true
    else
      match notes[0]
      case Refer(t, switch) => s <= t && 0 < t < CITE && IsSwitch(switch) && InOrder(notes[1..], t)
      case File => InOrder(notes[1..], s)
  }

  /** The note is about entry n. */
  predicate Says(note: Note, n: nat) {
    match note case Refer(s, switch) => n == s + switch case File => n == FILE
  }

  ghost predicate Noted(notes: seq<Note>, n: nat) {
    exists k :: 0 <= k < |notes| && Says(notes[k], n)
  }

  /**
    Any run of references and file flags, with sections in order, gives a grouped list with exactly
    the entries that were noted.
   */
  lemma {:induction false} NotesGrouped(l: seq<nat>, notes: seq<Note>, s: nat)
    requires Grouped(l) && UpTo(l, s) && InOrder(notes, s)
    ensures Grouped(Notes(l, notes))
    ensures forall n :: n in Notes(l, notes) <==> n in l || Noted(notes, n)
    decreases |notes|
  {
    hide Grouped, UpTo, NewSectionXref, SetFileFlag, Noted, IsSwitch;
    if notes == [] {
      NothingNoted();
    } else {
      var first, rest := notes[0], notes[1..];
      forall n
        ensures Noted(notes, n) <==> Noted(rest, n) || Says(first, n)
      {
        NotedFirst(notes, n);
      }
      match first {
        case Refer(u, switch) =>
          LaterUpTo(l, s, u);
          assert MayPrecede(0, l, u, switch);
          NewSectionXrefKeeps(0, l, u, switch);
          assert 0 != u + switch;
          NotesGrouped(NewSectionXref(0, l, u + switch, switch), rest, u);
        case File =>
          SetFileFlagKeeps(l, s);
          NotesGrouped(SetFileFlag(l), rest, s);
      }
    }
  }

  lemma NothingNoted()
    ensures forall n :: !Noted([], n)
  {
  }

  lemma NotedFirst(notes: seq<Note>, n: nat)
    requires notes != []
    ensures Noted(notes, n) <==> Noted(notes[1..], n) || Says(notes[0], n)
  {
    hide Says;
    if Noted(notes[1..], n) {
      var k :| 0 <= k < |notes[1..]| && Says(notes[1..][k], n);
      assert notes[k + 1] == notes[1..][k];
    }
    if Noted(notes, n) {
      var k :| 0 <= k < |notes| && Says(notes[k], n);
      if k > 0 {
        assert notes[k] == notes[1..][k - 1];
      }
    }
  }

  lemma LaterUpTo(l: seq<nat>, s: nat, t: nat)
    requires UpTo(l, s) && s <= t
    ensures UpTo(l, t)
  {
  }
}
