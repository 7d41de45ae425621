/**
  What the recursive substitution guarantees: cyclic sections overflow the stack, well-founded ones
  do not, and the marks around the sections' texts nest.
 */
module ExpanderTheorems {
  import opened Chains
  import opened Expander

  /** A reference to section b stands in text t from token pos on, or further along its chain. */
  predicate Ahead<T>(pg: Program<T>, code: set<nat>, t: nat, pos: nat, b: nat)
    requires Code(pg, code) && t in code && pos <= |pg.texts[t]|
    decreases SECTION_FLAG - t, |pg.texts[t]| - pos
  {
    if pos == |pg.texts[t]| then
      pg.link[t] < SECTION_FLAG && Ahead(pg, code, pg.link[t], 0, b)
    else pg.texts[t][pos] == Ref(b) || Ahead(pg, code, t, pos + 1, b)
  }

  /** Section a is defined and mentions section b, which is defined too. */
  predicate Calls<T>(pg: Program<T>, code: set<nat>, a: nat, b: nat)
    requires Code(pg, code)
  {
    && a < |pg.equiv| && pg.equiv[a] != 0 && b < |pg.equiv| && pg.equiv[b] != 0
    && Ahead(pg, code, pg.equiv[a], 0, b)
  }

  /** If the call of b overflows, so does every text that still has to call b. */
  lemma {:induction false} AheadOverflows<T>(pg: Program<T>, code: set<nat>, t: nat, pos: nat, sec: nat,
                                          room: nat, b: nat)
    requires Code(pg, code) && t in code && pos <= |pg.texts[t]|
    requires b < |pg.equiv| && pg.equiv[b] != 0 && Ahead(pg, code, t, pos, b)
    requires room == 0 || Expand(pg, code, pg.equiv[b], 0, 0, room - 1).over
    ensures Expand(pg, code, t, pos, sec, room).over
    decreases SECTION_FLAG - t, |pg.texts[t]| - pos
  {
    if pos == |pg.texts[t]| {
      AheadOverflows(pg, code, pg.link[t], 0, sec, room, b);
    } else if pg.texts[t][pos] != Ref(b) {
      var sec' := if pg.texts[t][pos].Begin? then pg.texts[t][pos].n else sec;
      AheadOverflows(pg, code, t, pos + 1, sec', room, b);
    }
  }

  /** Each section of the list calls the next one, and the last one calls the first. */
  ghost predicate Cycle<T>(pg: Program<T>, code: set<nat>, names: seq<nat>)
    requires Code(pg, code)
  {
    && names != []
    && (forall i, j :: 0 <= i < j < |names| && j == i + 1 ==> Calls(pg, code, names[i], names[j]))
    && Calls(pg, code, names[|names| - 1], names[0])
  }

  /**
    A cycle of sections ends in stack overflow however large the stack is, never in an endless
    expansion.
   */
  lemma {:induction false} CycleOverflows<T>(pg: Program<T>, code: set<nat>, names: seq<nat>, i: nat,
                                          room: nat)
    requires Code(pg, code) && Cycle(pg, code, names) && i < |names|
    ensures Calls(pg, code, names[i], names[if i + 1 == |names| then 0 else i + 1])
    ensures Expand(pg, code, pg.equiv[names[i]], 0, 0, room).over
    decreases room
  {
    hide Expand, Ahead;
    var j := if i + 1 == |names| then 0 else i + 1;
    if room > 0 {
      CycleOverflows(pg, code, names, j, room - 1);
    }
    AheadOverflows(pg, code, pg.equiv[names[i]], 0, 0, room, names[j]);
  }

  /** A call for the macro definitions stands ahead. */
  predicate DefsAhead<T>(pg: Program<T>, code: set<nat>, t: nat, pos: nat)
    requires Code(pg, code) && t in code && pos <= |pg.texts[t]|
    decreases SECTION_FLAG - t, |pg.texts[t]| - pos
  {
    if pos == |pg.texts[t]| then
      pg.link[t] < SECTION_FLAG && DefsAhead(pg, code, pg.link[t], 0)
    else pg.texts[t][pos].Defs? || DefsAhead(pg, code, t, pos + 1)
  }

  /**
    A chain of calls leads from this place deeper than the stack allows: room+1 calls, or room of
    them and then a call for the macro definitions.
   */
  predicate TooDeep<T>(pg: Program<T>, code: set<nat>, t: nat, pos: nat, names: seq<nat>, room: nat)
    requires Code(pg, code) && t in code && pos <= |pg.texts[t]|
    decreases |names|
  {
    if names == [] then room == 0 && DefsAhead(pg, code, t, pos)
    else
      && names[0] < |pg.equiv| && pg.equiv[names[0]] != 0 && Ahead(pg, code, t, pos, names[0])
      && if room == 0 then |names| == 1
         else TooDeep(pg, code, pg.equiv[names[0]], 0, names[1..], room - 1)
  }

  ghost predicate Overdeep<T>(pg: Program<T>, code: set<nat>, t: nat, pos: nat, room: nat)
    requires Code(pg, code) && t in code && pos <= |pg.texts[t]|
  {
    exists names :: TooDeep(pg, code, t, pos, names, room)
  }

  lemma {:induction false} DefsOverflow<T>(pg: Program<T>, code: set<nat>, t: nat, pos: nat, sec: nat)
    requires Code(pg, code) && t in code && pos <= |pg.texts[t]| && DefsAhead(pg, code, t, pos)
    ensures Expand(pg, code, t, pos, sec, 0).over
    decreases SECTION_FLAG - t, |pg.texts[t]| - pos
  {
    if pos == |pg.texts[t]| {
      DefsOverflow(pg, code, pg.link[t], 0, sec);
    } else if !pg.texts[t][pos].Defs? {
      var sec' := if pg.texts[t][pos].Begin? then pg.texts[t][pos].n else sec;
      DefsOverflow(pg, code, t, pos + 1, sec');
    }
  }

  lemma {:induction false} DeepOverflows<T>(pg: Program<T>, code: set<nat>, t: nat, pos: nat, sec: nat,
                                         names: seq<nat>, room: nat)
    requires Code(pg, code) && t in code && pos <= |pg.texts[t]|
    requires TooDeep(pg, code, t, pos, names, room)
    ensures Expand(pg, code, t, pos, sec, room).over
    decreases |names|
  {
    hide Expand, Ahead, DefsAhead;
    if names == [] {
      DefsOverflow(pg, code, t, pos, sec);
    } else {
      if room > 0 {
        DeepOverflows(pg, code, pg.equiv[names[0]], 0, 0, names[1..], room - 1);
      }
      AheadOverflows(pg, code, t, pos, sec, room, names[0]);
    }
  }

  /** What is too deep from the next place on is too deep from here. */
  lemma DeepEarlier<T>(pg: Program<T>, code: set<nat>, t: nat, pos: nat, names: seq<nat>, room: nat)
    requires Code(pg, code) && t in code && pos <= |pg.texts[t]|
    requires if pos == |pg.texts[t]|
             then pg.link[t] < SECTION_FLAG && TooDeep(pg, code, pg.link[t], 0, names, room)
             else TooDeep(pg, code, t, pos + 1, names, room)
    ensures TooDeep(pg, code, t, pos, names, room)
  {
  }

  lemma {:induction false} OverflowIsDeep<T>(pg: Program<T>, code: set<nat>, t: nat, pos: nat, sec: nat,
                                          room: nat) returns (names: seq<nat>)
    requires Code(pg, code) && t in code && pos <= |pg.texts[t]|
    requires Expand(pg, code, t, pos, sec, room).over
    ensures TooDeep(pg, code, t, pos, names, room)
    decreases room, SECTION_FLAG - t, |pg.texts[t]| - pos
  {
    if pos == |pg.texts[t]| {
      names := OverflowIsDeep(pg, code, pg.link[t], 0, sec, room);
      DeepEarlier(pg, code, t, pos, names, room);
    } else {
      var tok := pg.texts[t][pos];
      if tok.Ref? && pg.equiv[tok.name] != 0 && room == 0 {
        names := [tok.name];
      } else if tok.Ref? && pg.equiv[tok.name] != 0 &&
                Expand(pg, code, pg.equiv[tok.name], 0, 0, room - 1).over {
        var inner := OverflowIsDeep(pg, code, pg.equiv[tok.name], 0, 0, room - 1);
        names := [tok.name] + inner;
        assert names[1..] == inner;
      } else if tok.Defs? && room == 0 {
        names := [];
      } else {
        var sec' := if tok.Begin? then tok.n else sec;
        names := OverflowIsDeep(pg, code, t, pos + 1, sec', room);
        DeepEarlier(pg, code, t, pos, names, room);
      }
    }
  }

  /** The expansion overflows if and only if a chain of calls that is too deep starts at its place. */
  lemma OverflowExactly<T>(pg: Program<T>, code: set<nat>, t: nat, pos: nat, sec: nat, room: nat)
    requires Code(pg, code) && t in code && pos <= |pg.texts[t]|
    ensures Expand(pg, code, t, pos, sec, room).over <==>
            Overdeep(pg, code, t, pos, room)
  {
    hide Expand, TooDeep;
    if Expand(pg, code, t, pos, sec, room).over {
      var names := OverflowIsDeep(pg, code, t, pos, sec, room);
    }
    if names :| TooDeep(pg, code, t, pos, names, room) {
      DeepOverflows(pg, code, t, pos, sec, names, room);
    }
  }

  // ----- Where the output comes from

  /** What a token puts out itself: a missing section is complained about, but not the unnamed one. */
  ghost predicate Gives<T>(pg: Program<T>, tok: Tok<T>, o: Out<T>) {
    match tok
    case Ref(p) => p < |pg.equiv| && pg.equiv[p] == 0 && p != 0 && o == Missing(p)
    case Begin(n) => o == Mark(n)
    case Defs => o == Macros
    case Other(x) => o == Item(x)
  }

  /** A token that puts out o stands ahead. */
  ghost predicate GivenAhead<T>(pg: Program<T>, code: set<nat>, t: nat, pos: nat, o: Out<T>)
    requires Code(pg, code) && t in code && pos <= |pg.texts[t]|
    decreases SECTION_FLAG - t, |pg.texts[t]| - pos
  {
    if pos == |pg.texts[t]| then
      pg.link[t] < SECTION_FLAG && GivenAhead(pg, code, pg.link[t], 0, o)
    else Gives(pg, pg.texts[t][pos], o) || GivenAhead(pg, code, t, pos + 1, o)
  }

  /** It stands ahead at the place to which the calls of the sections in `path` lead. */
  ghost predicate GivenBehind<T>(pg: Program<T>, code: set<nat>, t: nat, pos: nat, path: seq<nat>,
                                 o: Out<T>)
    requires Code(pg, code) && t in code && pos <= |pg.texts[t]|
    decreases |path|
  {
    if path == [] then GivenAhead(pg, code, t, pos, o)
    else
      && path[0] < |pg.equiv| && pg.equiv[path[0]] != 0 && Ahead(pg, code, t, pos, path[0])
      && GivenBehind(pg, code, pg.equiv[path[0]], 0, path[1..], o)
  }

  lemma GivenEarlier<T>(pg: Program<T>, code: set<nat>, t: nat, pos: nat, path: seq<nat>, o: Out<T>)
    requires Code(pg, code) && t in code && pos <= |pg.texts[t]|
    requires if pos == |pg.texts[t]|
             then pg.link[t] < SECTION_FLAG && GivenBehind(pg, code, pg.link[t], 0, path, o)
             else GivenBehind(pg, code, t, pos + 1, path, o)
    ensures GivenBehind(pg, code, t, pos, path, o)
  {
  }

  /** What is put out comes from a token. */
  lemma {:induction false} OutputGiven<T>(pg: Program<T>, code: set<nat>, t: nat, pos: nat, sec: nat,
                                        room: nat, o: Out<T>) returns (path: seq<nat>)
    requires Code(pg, code) && t in code && pos <= |pg.texts[t]|
    requires o in Expand(pg, code, t, pos, sec, room).out && !o.EndMark?
    ensures GivenBehind(pg, code, t, pos, path, o)
    decreases room, SECTION_FLAG - t, |pg.texts[t]| - pos
  {
    path := [];
    if pos == |pg.texts[t]| {
      path := OutputGiven(pg, code, pg.link[t], 0, sec, room, o);
      GivenEarlier(pg, code, t, pos, path, o);
    } else {
      var tok := pg.texts[t][pos];
      if Gives(pg, tok, o) {
      } else if tok.Ref? && pg.equiv[tok.name] != 0 &&
                o in Expand(pg, code, pg.equiv[tok.name], 0, 0, room - 1).out {
        var inner := OutputGiven(pg, code, pg.equiv[tok.name], 0, 0, room - 1, o);
        path := [tok.name] + inner;
        assert path[1..] == inner;
      } else {
        var sec' := if tok.Begin? then tok.n else sec;
        path := OutputGiven(pg, code, t, pos + 1, sec', room, o);
        GivenEarlier(pg, code, t, pos, path, o);
      }
    }
  }

  /** Without an overflow, what a token ahead puts out is in the output. */
  lemma {:induction false} AheadGiven<T>(pg: Program<T>, code: set<nat>, t: nat, pos: nat, sec: nat,
                                       room: nat, o: Out<T>)
    requires Code(pg, code) && t in code && pos <= |pg.texts[t]|
    requires !Expand(pg, code, t, pos, sec, room).over && GivenAhead(pg, code, t, pos, o)
    ensures o in Expand(pg, code, t, pos, sec, room).out
    decreases SECTION_FLAG - t, |pg.texts[t]| - pos
  {
    if pos == |pg.texts[t]| {
      AheadGiven(pg, code, pg.link[t], 0, sec, room, o);
    } else if !Gives(pg, pg.texts[t][pos], o) {
      var sec' := if pg.texts[t][pos].Begin? then pg.texts[t][pos].n else sec;
      AheadGiven(pg, code, t, pos + 1, sec', room, o);
    }
  }

  /** A call ahead is expanded, and its output is in the output. */
  lemma {:induction false} CallGiven<T>(pg: Program<T>, code: set<nat>, t: nat, pos: nat, sec: nat,
                                      room: nat, p: nat, o: Out<T>)
    requires Code(pg, code) && t in code && pos <= |pg.texts[t]|
    requires !Expand(pg, code, t, pos, sec, room).over && Ahead(pg, code, t, pos, p)
    requires p < |pg.equiv| && pg.equiv[p] != 0
    ensures room > 0 && !Expand(pg, code, pg.equiv[p], 0, 0, room - 1).over
    ensures o in Expand(pg, code, pg.equiv[p], 0, 0, room - 1).out ==>
              o in Expand(pg, code, t, pos, sec, room).out
    decreases SECTION_FLAG - t, |pg.texts[t]| - pos
  {
    if pos == |pg.texts[t]| {
      CallGiven(pg, code, pg.link[t], 0, sec, room, p, o);
    } else if pg.texts[t][pos] != Ref(p) {
      var sec' := if pg.texts[t][pos].Begin? then pg.texts[t][pos].n else sec;
      CallGiven(pg, code, t, pos + 1, sec', room, p, o);
    }
  }

  lemma {:induction false} PathGiven<T>(pg: Program<T>, code: set<nat>, t: nat, pos: nat, sec: nat,
                                      room: nat, path: seq<nat>, o: Out<T>)
    requires Code(pg, code) && t in code && pos <= |pg.texts[t]|
    requires !Expand(pg, code, t, pos, sec, room).over && GivenBehind(pg, code, t, pos, path, o)
    ensures o in Expand(pg, code, t, pos, sec, room).out
    decreases |path|
  {
    hide Expand, Ahead, GivenAhead;
    if path == [] {
      AheadGiven(pg, code, t, pos, sec, room, o);
    } else {
      CallGiven(pg, code, t, pos, sec, room, path[0], o);
      PathGiven(pg, code, pg.equiv[path[0]], 0, 0, room - 1, path[1..], o);
    }
  }

  /**
    Without an overflow something is put out if and only if calls lead to a token that gives it: so a
    section is reported as not present exactly if a reference to it is reached and it has no text.
   */
  lemma OutputExactly<T>(pg: Program<T>, code: set<nat>, t: nat, pos: nat, sec: nat, room: nat,
                             o: Out<T>)
    requires Code(pg, code) && t in code && pos <= |pg.texts[t]|
    requires !Expand(pg, code, t, pos, sec, room).over && !o.EndMark?
    ensures o in Expand(pg, code, t, pos, sec, room).out <==>
            exists path :: GivenBehind(pg, code, t, pos, path, o)
  {
    hide Expand, GivenBehind;
    if o in Expand(pg, code, t, pos, sec, room).out {
      var path := OutputGiven(pg, code, t, pos, sec, room, o);
    }
    if path :| GivenBehind(pg, code, t, pos, path, o) {
      PathGiven(pg, code, t, pos, sec, room, path, o);
    }
  }

  /** Calls lead from this place through the sections of `path`. */
  predicate Path<T>(pg: Program<T>, code: set<nat>, t: nat, pos: nat, path: seq<nat>)
    requires Code(pg, code) && t in code && pos <= |pg.texts[t]|
    decreases |path|
  {
    path == [] ||
    (&& path[0] < |pg.equiv| && pg.equiv[path[0]] != 0 && Ahead(pg, code, t, pos, path[0])
     && Path(pg, code, pg.equiv[path[0]], 0, path[1..]))
  }

  /** A place from which a section on a cycle can be reached overflows whatever the stack's size. */
  lemma {:induction false} ReachedCycleOverflows<T>(pg: Program<T>, code: set<nat>, t: nat, pos: nat,
                                                 sec: nat, path: seq<nat>, names: seq<nat>, i: nat,
                                                 room: nat)
    requires Code(pg, code) && t in code && pos <= |pg.texts[t]|
    requires Cycle(pg, code, names) && i < |names|
    requires Path(pg, code, t, pos, path) && path != [] && path[|path| - 1] == names[i]
    ensures Expand(pg, code, t, pos, sec, room).over
    decreases |path|
  {
    hide Expand, Ahead, Cycle;
    if room > 0 {
      if |path| == 1 {
        CycleOverflows(pg, code, names, i, room - 1);
      } else {
        ReachedCycleOverflows(pg, code, pg.equiv[path[0]], 0, 0, path[1..], names, i, room - 1);
      }
    }
    AheadOverflows(pg, code, t, pos, sec, room, path[0]);
  }

  /**
    The whole driver: phase_two gets through all output files if and only if no chain of calls that
    is too deep for the stack starts in the unnamed program or in one of the files.
   */
  lemma WrittenExactly<T>(pg: Program<T>, code: set<nat>, files: seq<nat>, ok: bool,
                       outs: seq<seq<Out<T>>>, secs: seq<nat>)
    requires Startable(pg, code, files) && Written(pg, code, files, ok, outs, secs)
    ensures forall s :: s in Starts(pg, files) ==> s in code
    ensures ok <==> forall s :: s in Starts(pg, files) ==>
                      !Overdeep(pg, code, s, 0, STACK_SIZE - 1)
  {
    hide Overdeep;
    StartsInCode(pg, code, files);
    var starts := Starts(pg, files);
    hide Expand, Starts;
    if ok {
      forall s | s in starts
        ensures !Overdeep(pg, code, s, 0, STACK_SIZE - 1)
      {
        var i :| 0 <= i < |starts| && starts[i] == s;
        assert !Expand(pg, code, starts[i], 0, secs[i], STACK_SIZE - 1).over;
        OverflowExactly(pg, code, s, 0, secs[i], STACK_SIZE - 1);
      }
    } else {
      var i := |outs| - 1;
      assert Expand(pg, code, starts[i], 0, secs[i], STACK_SIZE - 1).over;
      OverflowExactly(pg, code, starts[i], 0, secs[i], STACK_SIZE - 1);
      assert starts[i] in starts;
    }
  }

  lemma StartsInCode<T>(pg: Program<T>, code: set<nat>, files: seq<nat>)
    requires Startable(pg, code, files)
    ensures forall s :: s in Starts(pg, files) ==> s in code
  {
    forall s | s in Starts(pg, files)
      ensures s in code
    {
      var n := |Starts(pg, files)| - |files|;
      var i :| 0 <= i < |Starts(pg, files)| && Starts(pg, files)[i] == s;
      if i >= n {
        assert files[i - n] in files && s == pg.equiv[files[i - n]];
      }
    }
  }

  /** A cycle that can be reached from the unnamed program or from a file ends phase_two early. */
  lemma ReachedCycleEnds<T>(pg: Program<T>, code: set<nat>, files: seq<nat>, ok: bool,
                         outs: seq<seq<Out<T>>>, secs: seq<nat>, s: nat, path: seq<nat>,
                         names: seq<nat>)
    requires Startable(pg, code, files) && Written(pg, code, files, ok, outs, secs)
    requires s in Starts(pg, files) && s in code && Path(pg, code, s, 0, path) && path != []
    requires Cycle(pg, code, names) && path[|path| - 1] in names
    ensures !ok
  {
    hide Expand, Starts, Overdeep, Cycle, Path, Written;
    var i :| 0 <= i < |names| && names[i] == path[|path| - 1];
    ReachedCycleOverflows(pg, code, s, 0, 0, path, names, i, STACK_SIZE - 1);
    OverflowExactly(pg, code, s, 0, 0, STACK_SIZE - 1);
    WrittenExactly(pg, code, files, ok, outs, secs);
  }

  /** `rank` bounds how deep the calls of each section nest. */
  ghost predicate Ranked<T>(pg: Program<T>, code: set<nat>, rank: nat -> nat)
    requires Code(pg, code)
  {
    && (forall a, b :: Calls(pg, code, a, b) ==> rank(b) < rank(a))
    && (forall a :: 0 <= a < |pg.equiv| && pg.equiv[a] != 0 ==>
          (DefsAhead(pg, code, pg.equiv[a], 0) ==> rank(a) >= 1))
  }

  /** Whatever stands ahead can still be called with `room` free places on the stack. */
  ghost predicate Roomy<T>(pg: Program<T>, code: set<nat>, rank: nat -> nat, t: nat, pos: nat, room: nat)
    requires Code(pg, code) && t in code && pos <= |pg.texts[t]|
  {
    && (forall b :: 0 <= b < |pg.equiv| && pg.equiv[b] != 0 ==>
          (Ahead(pg, code, t, pos, b) ==> rank(b) < room))
    && (DefsAhead(pg, code, t, pos) ==> room >= 1)
  }

  lemma RoomyOn<T>(pg: Program<T>, code: set<nat>, rank: nat -> nat, t: nat, pos: nat, room: nat)
    requires Code(pg, code) && t in code && pos <= |pg.texts[t]|
    requires Roomy(pg, code, rank, t, pos, room)
    ensures pos == |pg.texts[t]| && pg.link[t] < SECTION_FLAG ==>
              Roomy(pg, code, rank, pg.link[t], 0, room)
    ensures pos < |pg.texts[t]| ==> Roomy(pg, code, rank, t, pos + 1, room)
    ensures pos < |pg.texts[t]| && pg.texts[t][pos].Defs? ==> room >= 1
  {
  }

  lemma RoomyCall<T>(pg: Program<T>, code: set<nat>, rank: nat -> nat, t: nat, pos: nat, room: nat,
                  a: nat)
    requires Code(pg, code) && t in code && pos < |pg.texts[t]| && pg.texts[t][pos] == Ref(a)
    requires Ranked(pg, code, rank) && Roomy(pg, code, rank, t, pos, room)
    requires a < |pg.equiv| && pg.equiv[a] != 0
    ensures room > 0 && Roomy(pg, code, rank, pg.equiv[a], 0, room - 1)
  {
    assert Ahead(pg, code, t, pos, a);
    hide Ahead, DefsAhead;
    forall b | 0 <= b < |pg.equiv| && pg.equiv[b] != 0
      ensures Ahead(pg, code, pg.equiv[a], 0, b) ==> rank(b) < room - 1
    {
      if Ahead(pg, code, pg.equiv[a], 0, b) {
        assert Calls(pg, code, a, b);
      }
    }
  }

  /** Without cycles, a stack with room for the deepest nesting does not overflow. */
  lemma {:induction false} RankedFits<T>(pg: Program<T>, code: set<nat>, rank: nat -> nat, t: nat,
                                      pos: nat, sec: nat, room: nat)
    requires Code(pg, code) && Ranked(pg, code, rank) && t in code && pos <= |pg.texts[t]|
    requires Roomy(pg, code, rank, t, pos, room)
    ensures !Expand(pg, code, t, pos, sec, room).over
    decreases room, SECTION_FLAG - t, |pg.texts[t]| - pos
  {
    hide Roomy, Ranked;
    RoomyOn(pg, code, rank, t, pos, room);
    if pos == |pg.texts[t]| {
      if pg.link[t] < SECTION_FLAG {
        RankedFits(pg, code, rank, pg.link[t], 0, sec, room);
      }
    } else {
      var tok := pg.texts[t][pos];
      if tok.Ref? && pg.equiv[tok.name] != 0 {
        RoomyCall(pg, code, rank, t, pos, room, tok.name);
        RankedFits(pg, code, rank, pg.equiv[tok.name], 0, 0, room - 1);
      }
      RankedFits(pg, code, rank, t, pos + 1, if tok.Begin? then tok.n else sec, room);
    }
  }

  // ----- Marks

  /** Reading the marks against a stack of open sections. */
  datatype Nesting = Bad | Open(secs: seq<nat>)

  function Nest<T>(out: seq<Out<T>>, secs: seq<nat>): Nesting {
    if out == [] then Open(secs)
    else
      match out[0]
      case Mark(n) => Nest(out[1..], secs + [n])
      case EndMark(n) =>
        if secs != [] && secs[|secs| - 1] == n then Nest(out[1..], secs[..|secs| - 1]) else Bad
      case _ => Nest(out[1..], secs)
  }

  lemma {:induction false} NestConcat<T>(a: seq<Out<T>>, b: seq<Out<T>>, secs: seq<nat>)
    ensures Nest(a + b, secs) ==
            match Nest(a, secs) case Bad => Bad case Open(s) => Nest(b, s)
  {
    if a == [] {
      assert a + b == b;
    } else {
      assert (a + b)[0] == a[0] && (a + b)[1..] == a[1..] + b;
      match a[0]
      case Mark(n) => NestConcat(a[1..], b, secs + [n]);
      case EndMark(n) =>
        if secs != [] && secs[|secs| - 1] == n {
          NestConcat(a[1..], b, secs[..|secs| - 1]);
        }
      case _ => NestConcat(a[1..], b, secs);
    }
  }

  /** The text of a section starts with its number and has no other. */
  predicate WellMarked<T>(toks: seq<Tok<T>>) {
    && toks != [] && toks[0].Begin? && toks[0].n > 0
    && forall i :: 0 < i < |toks| ==> !toks[i].Begin?
  }

  /** The marks opened in `out` are closed again, in the reverse order, unless it was cut short. */
  predicate Nests<T>(r: Res<T>, before: seq<nat>, after: seq<nat>) {
    if r.over then Nest(r.out, before).Open? else Nest(r.out, before) == Open(after)
  }

  lemma NestsThen<T>(a: Res<T>, b: Res<T>, s0: seq<nat>, s1: seq<nat>, s2: seq<nat>)
    requires Nests(a, s0, s1) && (!a.over ==> Nests(b, s1, s2))
    ensures Nests(Then(a, b), s0, s2)
  {
    NestConcat(a.out, b.out, s0);
  }

  lemma NestOne<T>(o: Out<T>, secs: seq<nat>)
    ensures o.Mark? ==> Nests(Emit([o]), secs, secs + [o.n])
    ensures o.EndMark? ==> Nests(Emit([o]), secs + [o.n], secs)
    ensures !o.Mark? && !o.EndMark? ==> Nests(Emit([o]), secs, secs)
    ensures Nests(Emit<T>([]), secs, secs)
  {
    assert [o][1..] == [];
    if o.EndMark? {
      assert (secs + [o.n])[..|secs|] == secs;
    }
  }

  /** The begin and end marks that an expansion puts out are properly nested. */
  lemma {:induction false} ExpandNests<T>(pg: Program<T>, code: set<nat>, t: nat, pos: nat, sec: nat,
                                       room: nat, secs: seq<nat>)
    requires Code(pg, code) && t in code && pos <= |pg.texts[t]| && (pos > 0 ==> sec > 0)
    requires forall u :: u in code ==> WellMarked(pg.texts[u])
    ensures Nests(Expand(pg, code, t, pos, sec, room),
                  if pos == 0 then secs else secs + [sec], secs)
    decreases room, SECTION_FLAG - t, |pg.texts[t]| - pos
  {
    hide Nests, Nest;
    assert WellMarked(pg.texts[t]);
    var all := Expand(pg, code, t, pos, sec, room);
    var open := if pos == 0 then secs else secs + [sec];
    if pos == |pg.texts[t]| {
      NestOne<T>(EndMark(sec), secs);
      if pg.link[t] < SECTION_FLAG {
        ExpandNests(pg, code, pg.link[t], 0, sec, room, secs);
        NestsThen(Emit([EndMark(sec)]), Expand(pg, code, pg.link[t], 0, sec, room), open, secs, secs);
      }
    } else if pos == 0 {
      var n := pg.texts[t][0].n;
      NestOne<T>(Mark(n), secs);
      ExpandNests(pg, code, t, 1, n, room, secs);
      NestsThen(Emit([Mark(n)]), Expand(pg, code, t, 1, n, room), secs, secs + [n], secs);
    } else {
      PlainNests(pg, code, t, pos, sec, room, secs);
      var rest := Expand(pg, code, t, pos + 1, sec, room);
      ExpandNests(pg, code, t, pos + 1, sec, room, secs);
      match pg.texts[t][pos]
      case Ref(p) =>
        if pg.equiv[p] != 0 && room > 0 {
          var inner := Expand(pg, code, pg.equiv[p], 0, 0, room - 1);
          ExpandNests(pg, code, pg.equiv[p], 0, 0, room - 1, open);
          NestOne<T>(Macros, open);
          NestsThen(Emit([]), inner, open, open, open);
          NestsThen(Then(Emit([]), inner), rest, open, open, secs);
        } else if pg.equiv[p] == 0 {
          NestOne<T>(Missing(p), open);
          NestsThen(Emit(if p != 0 then [Missing(p)] else []), rest, open, open, secs);
        }
      case Defs =>
        if room > 0 {
          NestOne<T>(Macros, open);
          NestsThen(Emit([Macros]), rest, open, open, secs);
        }
      case Other(x) =>
        NestOne(Item(x), open);
        NestsThen(Emit([Item(x)]), rest, open, open, secs);
    }
  }

  /** A token that overflows the stack leaves the marks as they are. */
  lemma PlainNests<T>(pg: Program<T>, code: set<nat>, t: nat, pos: nat, sec: nat, room: nat,
                   secs: seq<nat>)
    requires Code(pg, code) && t in code && 0 < pos < |pg.texts[t]|
    ensures Expand(pg, code, t, pos, sec, room) == Res([], true, 1) ==>
              Nests(Expand(pg, code, t, pos, sec, room), secs + [sec], secs)
  {
    hide Expand;
  }

  // ----- An output file whose section was never defined

  lemma {:induction false} ExpandInMore<T>(pg: Program<T>, code: set<nat>, more: set<nat>, t: nat,
                                        pos: nat, sec: nat, room: nat)
    requires Code(pg, code) && Code(pg, more) && code <= more && t in code
    requires pos <= |pg.texts[t]|
    ensures Expand(pg, code, t, pos, sec, room) == Expand(pg, more, t, pos, sec, room)
    decreases room, SECTION_FLAG - t, |pg.texts[t]| - pos
  {
    if pos == |pg.texts[t]| {
      if pg.link[t] < SECTION_FLAG {
        ExpandInMore(pg, code, more, pg.link[t], 0, sec, room);
      }
    } else {
      var tok := pg.texts[t][pos];
      if tok.Ref? && pg.equiv[tok.name] != 0 && room > 0 {
        ExpandInMore(pg, code, more, pg.equiv[tok.name], 0, 0, room - 1);
      }
      ExpandInMore(pg, code, more, t, pos + 1, if tok.Begin? then tok.n else sec, room);
    }
  }

  /**
    The driver starts a file whose section was never defined with the empty text 0. When there is an
    unnamed program the file gets that, after an end mark for the section where the file before it
    ended.
   */
  lemma UndefinedFileGetsProgram<T>(pg: Program<T>, code: set<nat>, sec: nat, room: nat)
    requires Code(pg, code) && pg.texts != [] && pg.texts[0] == [] && pg.link != []
    requires 0 < pg.link[0] < SECTION_FLAG && pg.link[0] in code && 0 !in code
    ensures var mark := Emit(if sec > 0 then [EndMark(sec)] else []);
            && Code(pg, code + {0})
            && Expand(pg, code + {0}, 0, 0, sec, room) ==
               Then(mark, Expand(pg, code, pg.link[0], 0, sec, room))
  {
    var more := code + {0};
    assert Code(pg, more);
    ExpandInMore(pg, code, more, pg.link[0], 0, sec, room);
  }

  /** The machine after some steps: where it is and what it has put out, or its end. */
  datatype Machine<T> = Running(cur: Frame, saved: seq<Frame>, out: seq<Out<T>>) | Ended(out: seq<Out<T>>)

  /** The frame can be stepped. */
  predicate Steppable<T>(pg: Program<T>, f: Frame) {
    && f.text < |pg.texts| && f.text < |pg.link| && f.pos <= |pg.texts[f.text]|
    && forall i :: 0 <= i < |pg.texts[f.text]| && pg.texts[f.text][i].Ref? ==>
         pg.texts[f.text][i].name < |pg.equiv|
  }

  function After<T>(pg: Program<T>, cur: Frame, saved: seq<Frame>, out: seq<Out<T>>, n: nat): Machine<T>
    decreases n
  {
    if n == 0 || !Steppable(pg, cur) then Running(cur, saved, out)
    else
      match Step(pg, cur, saved)
      case Go(c, s, o) => After(pg, c, s, out + o, n - 1)
      case Stop(o) => Ended(out + o)
      case Overflow => Ended(out)
  }

  function Times<T>(o: seq<Out<T>>, n: nat): seq<Out<T>> {
    if n == 0 then [] else o + Times(o, n - 1)
  }

  /** Without an unnamed program the driver is, after any number of steps, where it was. */
  lemma {:induction false} UndefinedFileStays<T>(pg: Program<T>, sec: nat, out: seq<Out<T>>, n: nat)
    requires pg.texts != [] && pg.texts[0] == [] && pg.link != [] && pg.link[0] == 0
    ensures After(pg, Frame(0, 0, sec), [], out, n) ==
            Running(Frame(0, 0, sec), [], out + Times(if sec > 0 then [EndMark(sec)] else [], n))
    decreases n
  {
    var o := if sec > 0 then [EndMark(sec)] else [];
    if n == 0 {
      assert out + [] == out;
    } else {
      UndefinedFileStays(pg, sec, out + o, n - 1);
      assert out + o + Times(o, n - 1) == out + (o + Times(o, n - 1));
    }
  }

  /** On code the machine ends within the number of steps that the substitution counts. */
  lemma {:induction false} MachineEnds<T>(pg: Program<T>, code: set<nat>, cur: Frame, saved: seq<Frame>,
                                       out: seq<Out<T>>, n: nat)
    requires Code(pg, code) && FrameOK(pg, code, cur) && FramesOK(pg, code, saved)
    requires n > Remaining(pg, code, cur, saved).cost
    ensures After(pg, cur, saved, out, n).Ended?
    decreases n
  {
    hide Remaining, Step;
    StepRemaining(pg, code, cur, saved);
    match Step(pg, cur, saved)
    case Go(c, s, o) => MachineEnds(pg, code, c, s, out + o, n - 1);
    case _ =>
  }

  /**
    The driver starts a file whose section was never defined with the empty text 0. It ends if and
    only if there is an unnamed program; otherwise it is at the same place for ever.
   */
  lemma UndefinedFileLoops<T>(pg: Program<T>, code: set<nat>, sec: nat)
    requires Code(pg, code) && pg.texts != [] && pg.texts[0] == [] && pg.link != [] && 0 !in code
    requires pg.link[0] < SECTION_FLAG && (pg.link[0] != 0 ==> pg.link[0] in code)
    ensures (exists n :: After(pg, Frame(0, 0, sec), [], [], n).Ended?) <==> pg.link[0] != 0
  {
    if pg.link[0] == 0 {
      forall n
        ensures After(pg, Frame(0, 0, sec), [], [], n).Running?
      {
        UndefinedFileStays(pg, sec, [], n);
      }
    } else {
      UndefinedFileGetsProgram(pg, code, sec, STACK_SIZE - 1);
      var more := code + {0};
      var n := Remaining(pg, more, Frame(0, 0, sec), []).cost + 1;
      MachineEnds(pg, more, Frame(0, 0, sec), [], [], n);
    }
  }
}
