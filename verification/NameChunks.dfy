/**
  Section names stored in pieces: an entry whose text ends in a blank is to be continued, and the
  continuations are chained through the link fields. A name is compared with the concatenation of
  its pieces.
 */
module NameChunks {
  import opened NameOrder
  import opened Sequences

  /** The text of an entry ends in the blank that marks an unfinished name. */
  predicate Incomplete(s: string) {
    s != "" && s[|s| - 1] == ' '
  }

  function Part(s: string): string {
    if Incomplete(s) then s[..|s| - 1] else s
  }

  /** From entry q on, the continuations are exactly the entries es; 0 stands for name_dir. */
  ghost predicate ChainFrom(text: seq<string>, link: seq<nat>, q: nat, es: seq<nat>)
    decreases |es|
  {
    if es == [] then q == 0
    else
      && q == es[0] && 0 < q < |text| && q < |link|
      && (if Incomplete(text[q]) then |text[q]| >= 2 && ChainFrom(text, link, link[q], es[1..])
          else es[1..] == [])
  }

  /** The continuations of the name with first entry p; entry p+1 only holds their first link. */
  ghost predicate Chain(text: seq<string>, link: seq<nat>, p: nat, es: seq<nat>) {
    && 0 < p < |text|
    && (if Incomplete(text[p]) then p + 1 < |link| && ChainFrom(text, link, link[p + 1], es)
        else es == [])
  }

  /** The text in the continuations. */
  function Rest(text: seq<string>, es: seq<nat>): string {
    if es == [] then ""
    else (if es[0] < |text| then Part(text[es[0]]) else "") + Rest(text, es[1..])
  }

  function Last(p: nat, es: seq<nat>): nat {
    if es == [] then p else es[|es| - 1]
  }

  /** The name so far. */
  function FullText(text: seq<string>, p: nat, es: seq<nat>): string
    requires p < |text|
  {
    Part(text[p]) + Rest(text, es)
  }

  predicate Finished(text: seq<string>, p: nat, es: seq<nat>) {
    Last(p, es) < |text| && !Incomplete(text[Last(p, es)])
  }

  /** The results of section_name_cmp; an extension comes with what is left of the query. */
  datatype NameResult =
    | NameLess | NameEqual | NameGreater | NamePrefix | NameExtension(rest: string)
    | BadExtension

  /** Compare a query with a name as if the name were stored in one piece. */
  function NameCmp(q: string, full: string, done: bool): NameResult {
    match Cmp(q, full)
    case Less => NameLess
    case Greater => NameGreater
    case Prefix => NamePrefix
    case Equal => if done then NameEqual else NameExtension("")
    case Extension => if !done then NameExtension(if |full| <= |q| then q[|full|..] else "")
                      else BadExtension
  }

  /** Comparing with a concatenation, given the comparison with its first piece. */
  lemma {:induction false} CmpConcat(f: string, part: string, r: string)
    ensures match Cmp(f, part)
            case Less => Cmp(f, part + r).Less?
            case Greater => Cmp(f, part + r).Greater?
            case Prefix => Cmp(f, part + r).Prefix?
            case Equal => Cmp(f, part + r) == if r == "" then Equal else Prefix
            case Extension => |part| <= |f| && Cmp(f, part + r) == Cmp(f[|part|..], r)
  {
    if part == [] {
      assert part + r == r;
    } else if f != [] && f[0] == part[0] {
      CmpConcat(f[1..], part[1..], r);
      assert (part + r)[1..] == part[1..] + r;
      if Cmp(f, part).Extension? {
        assert f[1..][|part| - 1..] == f[|part|..];
      }
    }
  }

  /** One round of section_name_cmp agrees with the comparison against the whole name. */
  lemma NameCmpConcat(f: string, part: string, r: string, done: bool)
    ensures match Cmp(f, part)
            case Less => NameCmp(f, part + r, done).NameLess?
            case Greater => NameCmp(f, part + r, done).NameGreater?
            case Prefix => NameCmp(f, part + r, done).NamePrefix?
            case Equal => NameCmp(f, part + r, done) ==
                          if r != "" then NamePrefix
                          else if done then NameEqual else NameExtension("")
            case Extension => |part| <= |f| &&
                              NameCmp(f, part + r, done) == NameCmp(f[|part|..], r, done)
  {
    CmpConcat(f, part, r);
    if Cmp(f, part).Extension? {
      CmpMeaning(f[|part|..], r);
      if |r| <= |f| - |part| {
        assert f[|part|..][|r|..] == f[|part + r|..];
      }
    }
  }

  method SectionNameCmp(text: array<string>, link: array<nat>, first: string, r: nat,
                        ghost es: seq<nat>)
    returns (c: NameResult)
    requires text.Length == link.Length && Chain(text[..], link[..], r, es)
    ensures c == NameCmp(first, FullText(text[..], r, es), Finished(text[..], r, es))
  {
    ghost var full, done := FullText(text[..], r, es), Finished(text[..], r, es);
    var f: string, cur: nat, q: nat := first, r, r + 1;
    hide Cmp;
    ghost var left := es;
    while true
      invariant 0 < cur < text.Length && Last(cur, left) == Last(r, es)
      invariant NameCmp(f, Part(text[cur]) + Rest(text[..], left), done) ==
                NameCmp(first, full, done)
      invariant if Incomplete(text[cur])
                then q < link.Length && ChainFrom(text[..], link[..], link[q], left)
                else left == []
      decreases |left|
    {
      var ispref := Incomplete(text[cur]);
      var part := Part(text[cur]);
      q := if ispref then link[q] else 0;
      NameCmpConcat(f, part, Rest(text[..], left), done);
      var o := WebStrcmp(f, part);
      match o {
        case Equal =>
          if q == 0 {
            return if ispref then NameExtension("") else NameEqual;
          }
          return if text[q] == "" then NameEqual else NamePrefix;
        case Extension =>
          if !ispref {
            CmpMeaning(f, part);
            return BadExtension;
          }
          f := f[|part|..];
          if q == 0 {
            CmpMeaning(first, full);
            return NameExtension(f);
          }
          cur := q;
          left := left[1..];
        case Less => return NameLess;
        case Greater => return NameGreater;
        case Prefix => return NamePrefix;
      }
    }
  }

  /** sprint_section_name: all pieces of a name. */
  method SprintSectionName(text: array<string>, link: array<nat>, r: nat, ghost es: seq<nat>)
    returns (dest: string)
    requires text.Length == link.Length && Chain(text[..], link[..], r, es)
    ensures dest == FullText(text[..], r, es)
  {
    dest := "";
    var p: nat, q: nat := r, r + 1;
    ghost var left, t := es, text[..];
    ghost var full := FullText(t, r, es);
    assert full == Part(t[r]) + Rest(t, es);
    hide Part, FullText;
    while p != 0
      invariant p < text.Length
      invariant if p == 0 then dest == full else dest + (Part(t[p]) + Rest(t, left)) == full
      invariant p != 0 ==> if Incomplete(t[p])
                           then q < link.Length && ChainFrom(t, link[..], link[q], left)
                           else left == []
      decreases p != 0, |left|
    {
      Assoc(dest, Part(t[p]), Rest(t, left));
      dest := dest + Part(text[p]);
      if Incomplete(text[p]) {
        p := link[q];
        q := p;
        left := if left == [] then [] else left[1..];
      } else {
        p := 0;
      }
    }
  }

  /** Continuations only depend on their own entries. */
  lemma {:induction false} ChainFromFrame(text: seq<string>, link: seq<nat>, text': seq<string>,
                                          link': seq<nat>, q: nat, es: seq<nat>)
    requires ChainFrom(text, link, q, es) && |text| <= |text'| && |link| <= |link'|
    requires forall e :: e in es ==>
               e < |text| && e < |link| && text'[e] == text[e] && link'[e] == link[e]
    ensures ChainFrom(text', link', q, es) && Rest(text', es) == Rest(text, es)
    decreases |es|
  {
    if es != [] {
      assert es[0] in es && forall e :: e in es[1..] ==> e in es;
      if Incomplete(text[q]) {
        ChainFromFrame(text, link, text', link', link[q], es[1..]);
      }
    }
  }

  lemma {:induction false} ChainInRange(text: seq<string>, link: seq<nat>, q: nat, es: seq<nat>)
    requires ChainFrom(text, link, q, es)
    ensures forall e :: e in es ==> 0 < e < |text| && e < |link|
    decreases |es|
  {
    if es != [] {
      if Incomplete(text[q]) {
        ChainInRange(text, link, link[q], es[1..]);
      }
      forall e | e in es
        ensures 0 < e < |text| && e < |link|
      {
        assert e == es[0] || e in es[1..];
      }
    }
  }

  predicate NoDuplicates(es: seq<nat>) {
    forall i, j :: 0 <= i < j < |es| ==> es[i] != es[j]
  }

  /** Hanging a fresh entry n behind the last unfinished piece, whose link is kept at `holder`. */
  lemma {:induction false} ChainGrows(text: seq<string>, link: seq<nat>, q: nat, es: seq<nat>,
                                      n: nat, s: string)
    requires ChainFrom(text, link, q, es) && NoDuplicates(es) && es != []
    requires Last(0, es) < |text| && Incomplete(text[Last(0, es)]) && 0 < n < |text| && n < |link| && n !in es
    requires link[n] == 0 && (Incomplete(s) ==> |s| >= 2)
    ensures Last(0, es) < |link|
    ensures ChainFrom(text[n := s], link[Last(0, es) := n], q, es + [n])
    ensures Rest(text[n := s], es + [n]) == Rest(text, es) + Part(s)
    decreases |es|
  {
    hide Incomplete, Part;
    ChainInRange(text, link, q, es);
    assert Last(0, es) in es;
    var text', link' := text[n := s], link[Last(0, es) := n];
    assert (es + [n])[1..] == es[1..] + [n];
    if |es| == 1 {
      assert ChainFrom(text', link', n, [n]);
      assert Rest(text', [n]) == Part(s) + Rest(text', []);
      assert Rest(text, es) == Part(text[q]) + Rest(text, es[1..]);
    } else {
      assert Last(0, es[1..]) == Last(0, es);
      assert es[0] != Last(0, es);
      ChainGrows(text, link, link[q], es[1..], n, s);
    }
  }
}
