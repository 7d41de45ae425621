/**
  The replacement texts of CTANGLE: how scan_section chains them through text_link, and in what
  order a chain visits them.
 */
module Chains {

  /** max_texts, which as a text_link ends the chain of a section. */
  const SECTION_FLAG: nat := 2500

  /** What a replacement text defines: a macro, or part of section p; section 0 is the unnamed one. */
  datatype Owner = Macro | Sec(p: nat)

  /** The texts that define section p, in source order; text t has owner owners[t]. */
  function TextsOf(owners: seq<Owner>, p: nat): seq<nat> {
    if owners == [] then []
    else
      var last := |owners| - 1;
      TextsOf(owners[..last], p) + if owners[last] == Sec(p) && last > 0 then [last] else []
  }

  lemma {:induction false} TextsOfOwners(owners: seq<Owner>, p: nat)
    ensures forall t :: t in TextsOf(owners, p) <==> 0 < t < |owners| && owners[t] == Sec(p)
    ensures forall i, j :: 0 <= i < j < |TextsOf(owners, p)| ==>
              TextsOf(owners, p)[i] < TextsOf(owners, p)[j]
  {
    if owners != [] {
      var last := |owners| - 1;
      TextsOfOwners(owners[..last], p);
      forall i | 0 <= i < |TextsOf(owners[..last], p)|
        ensures TextsOf(owners[..last], p)[i] < last
      {
        assert TextsOf(owners[..last], p)[i] in TextsOf(owners[..last], p);
      }
    }
  }

  /** Each text links to the next one and the last one ends the chain. */
  ghost predicate Linked(link: seq<nat>, ts: seq<nat>) {
    && (forall i :: 0 <= i < |ts| ==> ts[i] < |link|)
    && (forall i, j :: 0 <= i < j < |ts| && j == i + 1 ==> link[ts[i]] == ts[j])
    && (ts != [] ==> link[ts[|ts| - 1]] == SECTION_FLAG)
  }

  /** The texts that following text_link from text t visits. */
  function Follow(link: seq<nat>, t: nat): seq<nat>
    decreases |link| - t
  {
    if t >= |link| then []
    else [t] + if t < link[t] < SECTION_FLAG then Follow(link, link[t]) else []
  }

  /** Following the links of a chain visits it from the given place on. */
  lemma {:induction false} FollowChain(link: seq<nat>, ts: seq<nat>, i: nat)
    requires Linked(link, ts) && i < |ts|
    requires forall a, b :: 0 <= a < b < |ts| ==> ts[a] < ts[b]
    requires forall a :: 0 <= a < |ts| ==> ts[a] < SECTION_FLAG
    ensures Follow(link, ts[i]) == ts[i..]
    decreases |ts| - i
  {
    if i + 1 < |ts| {
      FollowChain(link, ts, i + 1);
    }
  }

  lemma NoTexts(p: nat)
    ensures TextsOf([Macro], p) == []
  {
    assert [Macro][..0] == [];
  }

  /** A link is below the flag except at the end of the chain. */
  lemma LinkedOn(link: seq<nat>, ts: seq<nat>, i: nat)
    requires Linked(link, ts) && i < |ts| && |link| == SECTION_FLAG
    ensures link[ts[i]] < SECTION_FLAG <==> i + 1 < |ts|
    ensures i + 1 < |ts| ==> link[ts[i]] == ts[i + 1]
  {
    if i + 1 < |ts| {
      assert ts[i + 1] < |link|;
    } else {
      assert i == |ts| - 1;
    }
  }

  lemma LinkedFrame(link: seq<nat>, link': seq<nat>, ts: seq<nat>)
    requires Linked(link, ts) && |link| == |link'|
    requires forall t :: t in ts && t < |link| ==> link'[t] == link[t]
    ensures Linked(link', ts)
  {
  }

  /** A fresh text hung behind the last one of a chain. */
  lemma LinkedGrows(link: seq<nat>, ts: seq<nat>, cur: nat, link': seq<nat>)
    requires Linked(link, ts) && cur < |link| == |link'|
    requires forall i, j :: 0 <= i < j < |ts| ==> ts[i] < ts[j]
    requires forall i :: 0 <= i < |ts| ==> ts[i] < cur
    requires link'[cur] == SECTION_FLAG
    requires ts != [] ==> link' == link[ts[|ts| - 1] := cur][cur := SECTION_FLAG]
    ensures Linked(link', ts + [cur])
  {
  }

  /** Text 0 leads to the unnamed section, equiv[p] to section p; 0 stands for none. */
  function HeadOf(link: seq<nat>, equiv: seq<nat>, p: nat): nat {
    if p == 0 then (if link == [] then 0 else link[0]) else if p < |equiv| then equiv[p] else 0
  }

  ghost predicate Headed(link: seq<nat>, equiv: seq<nat>, p: nat, ts: seq<nat>) {
    Linked(link, ts) && HeadOf(link, equiv, p) == if ts == [] then 0 else ts[0]
  }

  function LastOf(ts: seq<nat>): nat {
    if ts == [] then 0 else ts[|ts| - 1]
  }

  /** Every section's chain visits its texts; macros have link 0; lastUnnamed ends chain 0. */
  ghost predicate TableOK(link: seq<nat>, equiv: seq<nat>, owners: seq<Owner>, lastUnnamed: nat) {
    && |link| == SECTION_FLAG && 1 <= |owners| <= SECTION_FLAG && equiv != []
    && (forall p: nat :: p < |equiv| ==> Headed(link, equiv, p, TextsOf(owners, p)))
    && (forall t :: 0 < t < |owners| && owners[t].Macro? ==> link[t] == 0)
    && lastUnnamed == LastOf(TextsOf(owners, 0))
  }

  lemma HeadedIn(link: seq<nat>, equiv: seq<nat>, owners: seq<Owner>, lastUnnamed: nat, p: nat)
    requires TableOK(link, equiv, owners, lastUnnamed) && p < |equiv|
    ensures Headed(link, equiv, p, TextsOf(owners, p))
    ensures |link| == SECTION_FLAG && lastUnnamed == LastOf(TextsOf(owners, 0))
    ensures var ts := TextsOf(owners, p);
            && (forall i :: 0 <= i < |ts| ==> 0 < ts[i] < |owners|)
            && LastOf(ts) < |owners| && (ts != [] ==> 0 < ts[0] && 0 < LastOf(ts))
  {
    hide TextsOf;
    TextsOfOwners(owners, p);
    var ts := TextsOf(owners, p);
    assert forall i :: 0 <= i < |ts| ==> ts[i] in ts;
  }

  lemma HeadFacts(link: seq<nat>, equiv: seq<nat>, owners: seq<Owner>, lastUnnamed: nat, p: nat)
    requires TableOK(link, equiv, owners, lastUnnamed) && p < |equiv|
    ensures var ts := TextsOf(owners, p);
            && Headed(link, equiv, p, ts) && |link| == SECTION_FLAG
            && (p == 0 ==> lastUnnamed == LastOf(ts))
            && LastOf(ts) < |owners| <= |link| && (ts != [] ==> 0 < ts[0])
  {
    hide TextsOf;
    HeadedIn(link, equiv, owners, lastUnnamed, p);
  }

  lemma {:induction false} AnotherText(owners: seq<Owner>, x: Owner, p: nat)
    requires owners != []
    ensures TextsOf(owners + [x], p) ==
            if x == Sec(p) then TextsOf(owners, p) + [|owners|] else TextsOf(owners, p)
  {
    assert (owners + [x])[..|owners|] == owners;
  }

  /** After text `cur` is hung behind the chain ts of section p. */
  predicate Hung(link: seq<nat>, equiv: seq<nat>, p: nat, ts: seq<nat>, cur: nat, link': seq<nat>,
                 equiv': seq<nat>)
    requires cur < |link| && LastOf(ts) < |link| && p < |equiv|
  {
    && link' == (if ts != [] || p == 0 then link[LastOf(ts) := cur] else link)[cur := SECTION_FLAG]
    && equiv' == if ts == [] && p != 0 then equiv[p := cur] else equiv
  }

  /** Sections other than p keep their chains. */
  lemma OtherSection(link: seq<nat>, equiv: seq<nat>, owners: seq<Owner>, lastUnnamed: nat, p: nat,
                     link': seq<nat>, equiv': seq<nat>, r: nat)
    requires TableOK(link, equiv, owners, lastUnnamed) && p < |equiv| && r < |equiv| && r != p
    requires |owners| < SECTION_FLAG && LastOf(TextsOf(owners, p)) < |link|
    requires Hung(link, equiv, p, TextsOf(owners, p), |owners|, link', equiv')
    ensures Headed(link', equiv', r, TextsOf(owners, r))
  {
    hide TextsOf;
    TextsOfOwners(owners, p);
    TextsOfOwners(owners, r);
    HeadedIn(link, equiv, owners, lastUnnamed, r);
    HeadedIn(link, equiv, owners, lastUnnamed, p);
    hide TableOK;
    var ts := TextsOf(owners, p);
    assert ts != [] ==> LastOf(ts) in ts;
    LinkedFrame(link, link', TextsOf(owners, r));
  }

  lemma OwnSection(link: seq<nat>, equiv: seq<nat>, owners: seq<Owner>, lastUnnamed: nat, p: nat,
                   link': seq<nat>, equiv': seq<nat>)
    requires TableOK(link, equiv, owners, lastUnnamed) && p < |equiv|
    requires |owners| < SECTION_FLAG && LastOf(TextsOf(owners, p)) < |link|
    requires Hung(link, equiv, p, TextsOf(owners, p), |owners|, link', equiv')
    ensures Headed(link', equiv', p, TextsOf(owners, p) + [|owners|])
  {
    hide TextsOf;
    var ts := TextsOf(owners, p);
    TextsOfOwners(owners, p);
    HeadedIn(link, equiv, owners, lastUnnamed, p);
    hide TableOK;
    LinkedGrows(link, ts, |owners|, link');
    assert p == 0 && ts != [] ==> LastOf(ts) != 0;
  }

  lemma MacrosKept(link: seq<nat>, equiv: seq<nat>, owners: seq<Owner>, lastUnnamed: nat, p: nat,
                   link': seq<nat>, equiv': seq<nat>, t: nat)
    requires TableOK(link, equiv, owners, lastUnnamed) && p < |equiv|
    requires |owners| < SECTION_FLAG && LastOf(TextsOf(owners, p)) < |link|
    requires Hung(link, equiv, p, TextsOf(owners, p), |owners|, link', equiv')
    requires 0 < t < |owners| && owners[t].Macro?
    ensures link'[t] == 0
  {
    hide TextsOf;
    var ts := TextsOf(owners, p);
    TextsOfOwners(owners, p);
    assert ts != [] ==> LastOf(ts) in ts;
    assert link[t] == 0;
  }

  lemma SectionOK(link: seq<nat>, equiv: seq<nat>, owners: seq<Owner>, lastUnnamed: nat, p: nat,
                  link': seq<nat>, equiv': seq<nat>)
    requires TableOK(link, equiv, owners, lastUnnamed) && p < |equiv|
    requires |owners| < SECTION_FLAG && LastOf(TextsOf(owners, p)) < |link|
    requires Hung(link, equiv, p, TextsOf(owners, p), |owners|, link', equiv')
    ensures TableOK(link', equiv', owners + [Sec(p)], if p == 0 then |owners| else lastUnnamed)
  {
    hide TextsOf, Headed;
    AnotherText(owners, Sec(p), 0);
    forall r: nat | r < |equiv|
      ensures Headed(link', equiv', r, TextsOf(owners + [Sec(p)], r))
    {
      AnotherText(owners, Sec(p), r);
      if r == p {
        OwnSection(link, equiv, owners, lastUnnamed, p, link', equiv');
      } else {
        OtherSection(link, equiv, owners, lastUnnamed, p, link', equiv', r);
      }
    }
    forall t | 0 < t < |owners| && owners[t].Macro?
      ensures link'[t] == 0
    {
      MacrosKept(link, equiv, owners, lastUnnamed, p, link', equiv', t);
    }
  }

  lemma MacroOK(link: seq<nat>, equiv: seq<nat>, owners: seq<Owner>, lastUnnamed: nat)
    requires TableOK(link, equiv, owners, lastUnnamed) && |owners| < SECTION_FLAG
    ensures TableOK(link[|owners| := 0], equiv, owners + [Macro], lastUnnamed)
  {
    hide TextsOf;
    AnotherText(owners, Macro, 0);
    forall p: nat | p < |equiv|
      ensures Headed(link[|owners| := 0], equiv, p, TextsOf(owners + [Macro], p))
    {
      AnotherText(owners, Macro, p);
      TextsOfOwners(owners, p);
      HeadedIn(link, equiv, owners, lastUnnamed, p);
      LinkedFrame(link, link[|owners| := 0], TextsOf(owners, p));
    }
  }

  lemma NoTextYet(link: seq<nat>, equiv: seq<nat>)
    requires |link| == SECTION_FLAG && equiv != []
    requires forall i :: 0 <= i < |link| ==> link[i] == 0
    requires forall p :: 0 <= p < |equiv| ==> equiv[p] == 0
    ensures TableOK(link, equiv, [Macro], 0)
  {
    forall p: nat
      ensures TextsOf([Macro], p) == []
    {
      NoTexts(p);
    }
    hide TextsOf;
  }

  /** text_info with the names that own its texts. */
  class TextTable {
    const link: array<nat>
    const equiv: array<nat>
    var textPtr: nat
    var lastUnnamed: nat
    ghost var owners: seq<Owner>

    constructor (names: nat)
      requires names > 0
      ensures Valid() && owners == [Macro] && equiv.Length == names
      ensures fresh(link) && fresh(equiv)
    {
      link := new nat[SECTION_FLAG](_ => 0);
      equiv := new nat[names](_ => 0);
      textPtr, lastUnnamed, owners := 1, 0, [Macro];
      new;
      NoTextYet(link[..], equiv[..]);
    }

    ghost predicate Valid()
      reads this, link, equiv
    {
      && link != equiv && |owners| == textPtr
      && TableOK(link[..], equiv[..], owners, lastUnnamed)
    }

    /** A macro definition: the new text has link 0. */
    method DefineMacro() returns (ok: bool)
      requires Valid()
      modifies this, link
      ensures Valid() && owners == if ok then old(owners) + [Macro] else old(owners)
      ensures ok == (old(textPtr) < SECTION_FLAG)
    {
      if textPtr > link.Length - 1 {
        return false;
      }
      MacroOK(link[..], equiv[..], owners, lastUnnamed);
      hide TableOK;
      link[textPtr] := 0;
      assert link[..] == old(link[..])[textPtr := 0];
      textPtr := textPtr + 1;
      owners := owners + [Macro];
      ok := true;
    }

    /** Hang the text `cur` behind the chain ts of section p. */
    method Hang(p: nat, cur: nat, ghost ts: seq<nat>)
      requires link != equiv && link.Length == SECTION_FLAG && p < equiv.Length && cur < link.Length
      requires Headed(link[..], equiv[..], p, ts) && (p == 0 ==> lastUnnamed == LastOf(ts))
      requires LastOf(ts) < link.Length && (ts != [] ==> ts[0] != 0)
      modifies link, equiv
      ensures Hung(old(link[..]), old(equiv[..]), p, ts, cur, link[..], equiv[..])
    {
      if p == 0 {
        link[lastUnnamed] := cur;
      } else if equiv[p] == 0 {
        equiv[p] := cur;
      } else {
        var q := FindLast(equiv[p], ts);
        link[q] := cur;
      }
      link[cur] := SECTION_FLAG;
    }

    /** The new text of section p goes to the end of its chain. */
    method DefineSection(p: nat) returns (ok: bool)
      requires Valid() && p < equiv.Length
      modifies this, link, equiv
      ensures Valid() && owners == if ok then old(owners) + [Sec(p)] else old(owners)
      ensures ok == (old(textPtr) < SECTION_FLAG)
    {
      if textPtr > link.Length - 1 {
        return false;
      }
      HangNew(p);
      lastUnnamed := if p == 0 then textPtr else lastUnnamed;
      owners := owners + [Sec(p)];
      textPtr := textPtr + 1;
      ok := true;
    }

    method HangNew(p: nat)
      requires Valid() && p < equiv.Length && textPtr < link.Length
      modifies link, equiv
      ensures TableOK(link[..], equiv[..], owners + [Sec(p)],
                      if p == 0 then textPtr else lastUnnamed)
    {
      hide TextsOf, Hung, Headed, LastOf, TableOK;
      ghost var was: seq<nat>, names: seq<nat> := link[..], equiv[..];
      HeadFacts(was, names, owners, lastUnnamed, p);
      Hang(p, textPtr, TextsOf(owners, p));
      SectionOK(was, names, owners, lastUnnamed, p, link[..], equiv[..]);
    }

    /** The walk to the end of a chain. */
    method FindLast(head: nat, ghost ts: seq<nat>) returns (q: nat)
      requires link.Length == SECTION_FLAG && Linked(link[..], ts) && ts != [] && head == ts[0]
      ensures q == LastOf(ts)
    {
      q := head;
      ghost var i := 0;
      LinkedOn(link[..], ts, i);
      while link[q] < SECTION_FLAG
        invariant 0 <= i < |ts| && q == ts[i] && q < link.Length
        invariant link[q] < SECTION_FLAG <==> i + 1 < |ts|
        decreases |ts| - i
      {
        q := link[q];
        i := i + 1;
        LinkedOn(link[..], ts, i);
      }
    }
  }

  /**
    Following text_link from the head of a section visits exactly the texts that define it, in the
    order of the source.
   */
  lemma ChainVisitsDefinitions(link: seq<nat>, equiv: seq<nat>, owners: seq<Owner>,
                               lastUnnamed: nat, p: nat)
    requires TableOK(link, equiv, owners, lastUnnamed) && p < |equiv|
    ensures var head := HeadOf(link, equiv, p);
            if head == 0 then forall t :: 0 < t < |owners| ==> owners[t] != Sec(p)
            else Follow(link, head) == TextsOf(owners, p)
  {
    HeadedIn(link, equiv, owners, lastUnnamed, p);
    TextsOfOwners(owners, p);
    var ts := TextsOf(owners, p);
    if ts != [] {
      FollowChain(link, ts, 0);
      assert ts[0..] == ts;
    }
  }

  /** No text is on the chains that start at two sections, and no macro is on any. */
  lemma ChainsDisjoint(link: seq<nat>, equiv: seq<nat>, owners: seq<Owner>, lastUnnamed: nat,
                       p: nat, r: nat, t: nat)
    requires TableOK(link, equiv, owners, lastUnnamed) && p < |equiv| && r < |equiv|
    requires HeadOf(link, equiv, p) != 0 && t in Follow(link, HeadOf(link, equiv, p))
    ensures t < |owners| && !owners[t].Macro?
    ensures p != r && HeadOf(link, equiv, r) != 0 ==> t !in Follow(link, HeadOf(link, equiv, r))
  {
    hide TableOK, TextsOf, Follow;
    ChainVisitsDefinitions(link, equiv, owners, lastUnnamed, p);
    ChainVisitsDefinitions(link, equiv, owners, lastUnnamed, r);
    TextsOfOwners(owners, p);
    TextsOfOwners(owners, r);
  }

  /** From a text of section p its link leads to a later text of p or ends the chain. */
  lemma LinkStep(link: seq<nat>, equiv: seq<nat>, owners: seq<Owner>, lastUnnamed: nat, t: nat)
    requires TableOK(link, equiv, owners, lastUnnamed) && 0 < t < |owners|
    requires owners[t].Sec? && owners[t].p < |equiv|
    ensures link[t] == SECTION_FLAG ||
            (t < link[t] < |owners| && owners[link[t]] == owners[t])
  {
    hide TextsOf;
    var p := owners[t].p;
    TextsOfOwners(owners, p);
    HeadedIn(link, equiv, owners, lastUnnamed, p);
    var ts := TextsOf(owners, p);
    assert t in ts;
    var i :| 0 <= i < |ts| && ts[i] == t;
    LinkedOn(link, ts, i);
    if i + 1 < |ts| {
      assert ts[i + 1] in ts;
    }
  }

  /** The first text of a section belongs to it. */
  lemma HeadStep(link: seq<nat>, equiv: seq<nat>, owners: seq<Owner>, lastUnnamed: nat, p: nat)
    requires TableOK(link, equiv, owners, lastUnnamed) && p < |equiv|
    requires HeadOf(link, equiv, p) != 0
    ensures HeadOf(link, equiv, p) < |owners| && owners[HeadOf(link, equiv, p)] == Sec(p)
  {
    hide TextsOf;
    TextsOfOwners(owners, p);
    HeadedIn(link, equiv, owners, lastUnnamed, p);
    assert TextsOf(owners, p)[0] in TextsOf(owners, p);
  }
}
