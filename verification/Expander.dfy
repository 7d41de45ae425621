/**
  The macro expander of CTANGLE: get_output with its explicit stack, against the recursive in-order
  substitution of section texts.
 */
module Expander {
  import opened Chains

  /** stack_size: stack_end - stack. */
  const STACK_SIZE: nat := 50

  /**
    A decoded token of a replacement text: a section reference, the number that opens a section's
    text, a call for the macro definitions, or anything that is passed on.
   */
  datatype Tok<T> = Ref(name: nat) | Begin(n: nat) | Defs | Other(x: T)

  /** What reaches out_char, and the complaint about a section that is not present. */
  datatype Out<T> = Mark(n: nat) | EndMark(n: nat) | Item(x: T) | Macros | Missing(name: nat)

  /** The texts with text_link and equiv; entry 0 of each stands for the unnamed program. */
  datatype Program<T> = Program(texts: seq<seq<Tok<T>>>, link: seq<nat>, equiv: seq<nat>)

  /** output_state: cur_repl, how much of it was read, and cur_section. */
  datatype Frame = Frame(text: nat, pos: nat, sec: nat)

  /** The program as a run of scan_section leaves it. */
  ghost predicate Scanned<T>(pg: Program<T>, owners: seq<Owner>, lastUnnamed: nat) {
    && TableOK(pg.link, pg.equiv, owners, lastUnnamed)
    && |pg.texts| == |owners| && pg.texts[0] == []
    && (forall t :: 0 < t < |owners| && owners[t].Sec? ==> owners[t].p < |pg.equiv|)
    && (forall t, i :: 0 <= t < |pg.texts| && 0 <= i < |pg.texts[t]| && pg.texts[t][i].Ref? ==>
          pg.texts[t][i].name < |pg.equiv|)
  }

  /** The links that expansion follows lead forward to other section texts. */
  predicate Code<T>(pg: Program<T>, code: set<nat>) {
    && (forall t :: t in code ==> t < |pg.texts| && t < |pg.link| && t < SECTION_FLAG)
    && (forall t :: t in code && pg.link[t] < SECTION_FLAG ==> pg.link[t] > t && pg.link[t] in code)
    && (forall p :: 0 <= p < |pg.equiv| && pg.equiv[p] != 0 ==> pg.equiv[p] in code)
    && (forall t, i :: t in code && 0 <= i < |pg.texts[t]| && pg.texts[t][i].Ref? ==>
          pg.texts[t][i].name < |pg.equiv|)
  }

  lemma ScannedIsCode<T>(pg: Program<T>, owners: seq<Owner>, lastUnnamed: nat) returns (code: set<nat>)
    requires Scanned(pg, owners, lastUnnamed) && pg.equiv[0] == 0
    ensures Code(pg, code) && (pg.link[0] != 0 ==> pg.link[0] in code)
    ensures code == set t | 0 < t < |owners| && owners[t].Sec?
  {
    code := set t | 0 < t < |owners| && owners[t].Sec?;
    forall t | t in code && pg.link[t] < SECTION_FLAG
      ensures pg.link[t] > t && pg.link[t] in code
    {
      LinkStep(pg.link, pg.equiv, owners, lastUnnamed, t);
    }
    forall p: nat | p < |pg.equiv| && pg.equiv[p] != 0
      ensures pg.equiv[p] in code
    {
      HeadStep(pg.link, pg.equiv, owners, lastUnnamed, p);
    }
    if pg.link[0] != 0 {
      HeadStep(pg.link, pg.equiv, owners, lastUnnamed, 0);
    }
  }

  // ----- The recursive substitution

  /** Output, whether the stack overflowed at its end, and the number of machine steps. */
  datatype Res<T> = Res(out: seq<Out<T>>, over: bool, cost: nat)

  function Nothing<T>(): Res<T> {
    Res([], false, 0)
  }

  function Then<T>(a: Res<T>, b: Res<T>): Res<T> {
    if a.over then a else Res(a.out + b.out, b.over, a.cost + b.cost)
  }

  function Emit<T>(out: seq<Out<T>>): Res<T> {
    Res(out, false, 1)
  }

  /**
    The expansion of text t from token pos on, within section sec, followed by the rest of its
    chain; a reference is replaced by the expansion of its section. `room` is how many more calls
    the stack can hold.
   */
  function Expand<T>(pg: Program<T>, code: set<nat>, t: nat, pos: nat, sec: nat, room: nat): Res<T>
    requires Code(pg, code) && t in code && pos <= |pg.texts[t]|
    decreases room, SECTION_FLAG - t, |pg.texts[t]| - pos
  {
    if pos == |pg.texts[t]| then
      var mark := Emit(if sec > 0 then [EndMark(sec)] else []);
      if pg.link[t] < SECTION_FLAG then Then(mark, Expand(pg, code, pg.link[t], 0, sec, room))
      else mark
    else
      match pg.texts[t][pos]
      case Ref(p) =>
        if pg.equiv[p] == 0 then
          Then(Emit(if p != 0 then [Missing(p)] else []), Expand(pg, code, t, pos + 1, sec, room))
        else if room == 0 then Res([], true, 1)
        else Then(Then(Emit([]), Expand(pg, code, pg.equiv[p], 0, 0, room - 1)),
                  Expand(pg, code, t, pos + 1, sec, room))
      case Begin(n) => Then(Emit([Mark(n)]), Expand(pg, code, t, pos + 1, n, room))
      case Defs =>
        if room == 0 then Res([], true, 1)
        else Then(Emit([Macros]), Expand(pg, code, t, pos + 1, sec, room))
      case Other(x) => Then(Emit([Item(x)]), Expand(pg, code, t, pos + 1, sec, room))
  }

  // ----- The stack machine

  predicate FrameOK<T>(pg: Program<T>, code: set<nat>, f: Frame) {
    f.text in code && f.text < |pg.texts| && f.pos <= |pg.texts[f.text]|
  }

  predicate FramesOK<T>(pg: Program<T>, code: set<nat>, saved: seq<Frame>) {
    |saved| < STACK_SIZE && forall i :: 0 <= i < |saved| ==> FrameOK(pg, code, saved[i])
  }

  /** What the saved callers still have to contribute, innermost first. */
  function Pending<T>(pg: Program<T>, code: set<nat>, saved: seq<Frame>): Res<T>
    requires Code(pg, code) && FramesOK(pg, code, saved)
  {
    if saved == [] then Nothing()
    else
      var last := |saved| - 1;
      var f := saved[last];
      Then(Expand(pg, code, f.text, f.pos, f.sec, STACK_SIZE - |saved|),
           Pending(pg, code, saved[..last]))
  }

  /** All that a machine state will still put out. */
  function Remaining<T>(pg: Program<T>, code: set<nat>, cur: Frame, saved: seq<Frame>): Res<T>
    requires Code(pg, code) && FrameOK(pg, code, cur) && FramesOK(pg, code, saved)
  {
    Then(Expand(pg, code, cur.text, cur.pos, cur.sec, STACK_SIZE - 1 - |saved|),
         Pending(pg, code, saved))
  }

  lemma ThenAssociative<T>(a: Res<T>, b: Res<T>, c: Res<T>)
    ensures Then(Then(a, b), c) == Then(a, Then(b, c))
  {
  }

  /** What one pass of get_output does: go on, come to the end, or overflow the stack. */
  datatype Stepped<T> = Go(cur: Frame, saved: seq<Frame>, out: seq<Out<T>>) | Stop(end: seq<Out<T>>) | Overflow

  function Step<T>(pg: Program<T>, cur: Frame, saved: seq<Frame>): Stepped<T>
    requires cur.text < |pg.texts| && cur.text < |pg.link| && cur.pos <= |pg.texts[cur.text]|
    requires forall i :: 0 <= i < |pg.texts[cur.text]| && pg.texts[cur.text][i].Ref? ==>
               pg.texts[cur.text][i].name < |pg.equiv|
  {
    if cur.pos == |pg.texts[cur.text]| then
      var mark := if cur.sec > 0 then [EndMark(cur.sec)] else [];
      if pg.link[cur.text] < SECTION_FLAG then
        Go(Frame(pg.link[cur.text], 0, cur.sec), saved, mark)
      else if saved == [] then Stop(mark)
      else Go(saved[|saved| - 1], saved[..|saved| - 1], mark)
    else
      var next := cur.(pos := cur.pos + 1);
      match pg.texts[cur.text][cur.pos]
      case Ref(p) =>
        if pg.equiv[p] == 0 then Go(next, saved, if p != 0 then [Missing(p)] else [])
        else if |saved| + 1 == STACK_SIZE then Overflow
        else Go(Frame(pg.equiv[p], 0, 0), saved + [next], [])
      case Begin(n) => Go(next.(sec := n), saved, [Mark(n)])
      case Defs => if |saved| + 1 == STACK_SIZE then Overflow else Go(next, saved, [Macros])
      case Other(x) => Go(next, saved, [Item(x)])
  }

  /** `c` and `s` with output `o` are where the machine goes from `cur` and `saved`. */
  ghost predicate Advances<T>(pg: Program<T>, code: set<nat>, cur: Frame, saved: seq<Frame>, c: Frame,
                           s: seq<Frame>, o: seq<Out<T>>)
    requires Code(pg, code) && FrameOK(pg, code, cur) && FramesOK(pg, code, saved)
  {
    && FrameOK(pg, code, c) && FramesOK(pg, code, s)
    && Remaining(pg, code, cur, saved) == Then(Emit(o), Remaining(pg, code, c, s))
  }

  lemma PendingPush<T>(pg: Program<T>, code: set<nat>, saved: seq<Frame>, f: Frame)
    requires Code(pg, code) && FramesOK(pg, code, saved) && FrameOK(pg, code, f)
    requires |saved| + 1 < STACK_SIZE
    ensures FramesOK(pg, code, saved + [f])
    ensures Pending(pg, code, saved + [f]) ==
            Then(Expand(pg, code, f.text, f.pos, f.sec, STACK_SIZE - 1 - |saved|),
                 Pending(pg, code, saved))
  {
    hide Expand;
    assert (saved + [f])[..|saved|] == saved;
  }

  /** A token that is passed on, or opens a section. */
  lemma StepPlain<T>(pg: Program<T>, code: set<nat>, cur: Frame, saved: seq<Frame>, sec: nat, o: seq<Out<T>>)
    requires Code(pg, code) && FrameOK(pg, code, cur) && FramesOK(pg, code, saved)
    requires cur.pos < |pg.texts[cur.text]|
    requires var room := STACK_SIZE - 1 - |saved|;
             Expand(pg, code, cur.text, cur.pos, cur.sec, room) ==
             Then(Emit(o), Expand(pg, code, cur.text, cur.pos + 1, sec, room))
    ensures Advances(pg, code, cur, saved, Frame(cur.text, cur.pos + 1, sec), saved, o)
  {
    hide Expand, Pending;
    ThenAssociative(Emit(o), Expand(pg, code, cur.text, cur.pos + 1, sec, STACK_SIZE - 1 - |saved|),
                    Pending(pg, code, saved));
  }

  lemma StepCall<T>(pg: Program<T>, code: set<nat>, cur: Frame, saved: seq<Frame>, p: nat)
    requires Code(pg, code) && FrameOK(pg, code, cur) && FramesOK(pg, code, saved)
    requires cur.pos < |pg.texts[cur.text]| && pg.texts[cur.text][cur.pos] == Ref(p)
    requires p < |pg.equiv| && pg.equiv[p] != 0 && |saved| + 1 < STACK_SIZE
    ensures Advances(pg, code, cur, saved, Frame(pg.equiv[p], 0, 0),
                     saved + [cur.(pos := cur.pos + 1)], [])
  {
    var room := STACK_SIZE - 1 - |saved|;
    var next := cur.(pos := cur.pos + 1);
    var rest := Expand(pg, code, cur.text, cur.pos + 1, cur.sec, room);
    var inner := Expand(pg, code, pg.equiv[p], 0, 0, room - 1);
    assert Expand(pg, code, cur.text, cur.pos, cur.sec, room) == Then(Then(Emit([]), inner), rest);
    hide Expand, Pending;
    PendingPush(pg, code, saved, next);
    var ps := Pending(pg, code, saved);
    ThenAssociative(Then(Emit([]), inner), rest, ps);
    ThenAssociative(Emit([]), inner, Then(rest, ps));
  }

  lemma StepEnd<T>(pg: Program<T>, code: set<nat>, cur: Frame, saved: seq<Frame>)
    requires Code(pg, code) && FrameOK(pg, code, cur) && FramesOK(pg, code, saved)
    requires cur.pos == |pg.texts[cur.text]|
    ensures var o := if cur.sec > 0 then [EndMark(cur.sec)] else [];
            if pg.link[cur.text] < SECTION_FLAG then
              Advances(pg, code, cur, saved, Frame(pg.link[cur.text], 0, cur.sec), saved, o)
            else if saved == [] then Remaining(pg, code, cur, saved) == Then(Emit(o), Nothing())
            else Advances(pg, code, cur, saved, saved[|saved| - 1], saved[..|saved| - 1], o)
  {
    var o := if cur.sec > 0 then [EndMark(cur.sec)] else [];
    var room := STACK_SIZE - 1 - |saved|;
    if pg.link[cur.text] < SECTION_FLAG {
      assert Expand(pg, code, cur.text, cur.pos, cur.sec, room) ==
             Then(Emit(o), Expand(pg, code, pg.link[cur.text], 0, cur.sec, room));
      ThenAssociative(Emit(o), Expand(pg, code, pg.link[cur.text], 0, cur.sec, room),
                      Pending(pg, code, saved));
    } else {
      assert Expand(pg, code, cur.text, cur.pos, cur.sec, room) == Emit(o);
    }
    hide Expand;
  }

  /** A pass puts out the next piece of what remains. */
  lemma StepRemaining<T>(pg: Program<T>, code: set<nat>, cur: Frame, saved: seq<Frame>)
    requires Code(pg, code) && FrameOK(pg, code, cur) && FramesOK(pg, code, saved)
    ensures match Step(pg, cur, saved)
            case Go(c, s, o) => Advances(pg, code, cur, saved, c, s, o)
            case Stop(o) => Remaining(pg, code, cur, saved) == Then(Emit(o), Nothing())
            case Overflow =>
              Remaining(pg, code, cur, saved).over && Remaining(pg, code, cur, saved).out == []
  {
    hide Advances, Pending;
    if cur.pos == |pg.texts[cur.text]| {
      StepEnd(pg, code, cur, saved);
    } else {
      match pg.texts[cur.text][cur.pos]
      case Ref(p) =>
        if pg.equiv[p] == 0 {
          StepPlain(pg, code, cur, saved, cur.sec, if p != 0 then [Missing(p)] else []);
        } else if |saved| + 1 < STACK_SIZE {
          StepCall(pg, code, cur, saved, p);
        }
      case Begin(n) => StepPlain(pg, code, cur, saved, n, [Mark(n)]);
      case Defs =>
        if |saved| + 1 < STACK_SIZE {
          StepPlain(pg, code, cur, saved, cur.sec, [Macros]);
        }
      case Other(x) => StepPlain(pg, code, cur, saved, cur.sec, [Item(x)]);
    }
  }

  lemma StartRemaining<T>(pg: Program<T>, code: set<nat>, cur: Frame)
    requires Code(pg, code) && FrameOK(pg, code, cur)
    ensures Remaining(pg, code, cur, []) ==
            Expand(pg, code, cur.text, cur.pos, cur.sec, STACK_SIZE - 1)
  {
    hide Expand;
  }

  /** The texts that phase_two starts its output files with. */
  function Starts<T>(pg: Program<T>, files: seq<nat>): (s: seq<nat>)
    requires pg.link != []
    requires forall f :: f in files ==> f < |pg.equiv|
    ensures |s| == |files| + if pg.link[0] != 0 then 1 else 0
  {
    (if pg.link[0] != 0 then [pg.link[0]] else []) + seq(|files|, i requires 0 <= i < |files| =>
      assert files[i] in files; pg.equiv[files[i]])
  }

  /** The files are in `code`, and so is the unnamed program if there is one. */
  predicate Startable<T>(pg: Program<T>, code: set<nat>, files: seq<nat>) {
    && Code(pg, code) && pg.link != [] && (pg.link[0] != 0 ==> pg.link[0] in code)
    && forall f :: f in files ==> f < |pg.equiv| && pg.equiv[f] in code
  }

  /**
    What phase_two leaves: each output is the substitution of the text it starts with, for the
    section where the one before it ended; the first overflow ends it all.
   */
  ghost predicate Written<T>(pg: Program<T>, code: set<nat>, files: seq<nat>, ok: bool,
                          outs: seq<seq<Out<T>>>, secs: seq<nat>)
    requires Startable(pg, code, files)
  {
    && |outs| == |secs| <= |Starts(pg, files)|
    && (forall i :: 0 <= i < |outs| ==>
          (var all := Expand(pg, code, Starts(pg, files)[i], 0, secs[i], STACK_SIZE - 1);
           outs[i] == all.out && (all.over <==> !ok && i == |outs| - 1)))
    && (if ok then |outs| == |Starts(pg, files)| else outs != [])
  }

  class Tangler<T> {
    const stack: array<Frame>
    var stackPtr: nat
    var cur: Frame
    var out: seq<Out<T>>

    constructor (start: nat)
      ensures fresh(stack) && stack.Length == STACK_SIZE
      ensures stackPtr == 1 && cur == Frame(start, 0, 0) && out == []
    {
      stack := new Frame[STACK_SIZE](_ => Frame(0, 0, 0));
      stackPtr, cur, out := 1, Frame(start, 0, 0), [];
    }

    ghost predicate Valid(pg: Program<T>, code: set<nat>)
      reads this, stack
    {
      && stack.Length == STACK_SIZE && Code(pg, code)
      && (stackPtr > 0 ==>
            stackPtr <= STACK_SIZE && FrameOK(pg, code, cur) &&
            FramesOK(pg, code, stack[1..stackPtr]))
    }

    ghost function Left(pg: Program<T>, code: set<nat>): Res<T>
      requires Valid(pg, code)
      reads this, stack
    {
      if stackPtr == 0 then Nothing() else Remaining(pg, code, cur, stack[1..stackPtr])
    }

    /** push_level: false stands for overflow. */
    method PushLevel(text: nat) returns (ok: bool)
      requires 0 < stackPtr <= stack.Length == STACK_SIZE
      modifies this, stack
      ensures ok == (old(stackPtr) < STACK_SIZE) && out == old(out)
      ensures ok ==> stackPtr == old(stackPtr) + 1 && cur == Frame(text, 0, 0) &&
                     stack[1..stackPtr] == old(stack[1..stackPtr] + [cur])
    {
      if stackPtr == stack.Length {
        return false;
      }
      stack[stackPtr] := cur;
      stackPtr := stackPtr + 1;
      cur := Frame(text, 0, 0);
      ok := true;
    }

    /** pop_level(1): on to the next text of the chain, or back to the caller. */
    method PopLevel(pg: Program<T>)
      requires 0 < stackPtr <= stack.Length && cur.text < |pg.link|
      modifies this
      ensures out == old(out)
      ensures if pg.link[old(cur).text] < SECTION_FLAG then
                stackPtr == old(stackPtr) && cur == Frame(pg.link[old(cur).text], 0, old(cur).sec)
              else stackPtr == old(stackPtr) - 1 &&
                   (stackPtr > 0 ==> cur == stack[stackPtr])
    {
      if pg.link[cur.text] < SECTION_FLAG {
        cur := Frame(pg.link[cur.text], 0, cur.sec);
        return;
      }
      stackPtr := stackPtr - 1;
      if stackPtr > 0 {
        cur := stack[stackPtr];
      }
    }

    /**
      One pass of get_output from its label `restart`, which is what `Step` says; false stands for
      overflow.
     */
    method Pass(pg: Program<T>, ghost code: set<nat>) returns (ok: bool)
      requires Valid(pg, code) && stackPtr > 0
      modifies this, stack
      ensures match old(Step(pg, cur, stack[1..stackPtr]))
              case Go(c, s, o) =>
                ok && stackPtr == |s| + 1 && cur == c && stack[1..stackPtr] == s &&
                out == old(out) + o
              case Stop(o) => ok && stackPtr == 0 && out == old(out) + o
              case Overflow => !ok && out == old(out)
    {
      hide Expand;
      ok := true;
      ghost var saved := stack[1..stackPtr];
      if cur.pos == |pg.texts[cur.text]| {
        if cur.sec > 0 {
          out := out + [EndMark(cur.sec)];
        }
        PopLevel(pg);
        return;
      }
      var a := pg.texts[cur.text][cur.pos];
      cur := cur.(pos := cur.pos + 1);
      match a
      case Ref(p) =>
        if pg.equiv[p] != 0 {
          ok := PushLevel(pg.equiv[p]);
        } else if p != 0 {
          out := out + [Missing(p)];
        }
      case Begin(n) =>
        cur := cur.(sec := n);
        out := out + [Mark(n)];
      case Defs =>
        if stackPtr == stack.Length {
          return false;
        }
        out := out + [Macros];
      case Other(x) => out := out + [Item(x)];
    }

    /**
      A pass keeps the output so far together with what is left, and there is less left to do.
     */
    method PassOn(pg: Program<T>, ghost code: set<nat>) returns (ok: bool)
      requires Valid(pg, code) && stackPtr > 0
      modifies this, stack
      ensures ok ==>
                && Valid(pg, code) && Left(pg, code).cost < old(Left(pg, code)).cost
                && out + Left(pg, code).out == old(out) + old(Left(pg, code)).out
                && Left(pg, code).over == old(Left(pg, code)).over
      ensures !ok ==> old(Left(pg, code)).over && out == old(out) + old(Left(pg, code)).out
    {
      hide Expand, Step, Remaining;
      StepRemaining(pg, code, cur, stack[1..stackPtr]);
      ok := Pass(pg, code);
    }

    /**
      The driver loop: the output is the recursive substitution, up to the place where the stack
      overflows if it does.
     */
    method Run(pg: Program<T>, ghost code: set<nat>) returns (ok: bool)
      requires Valid(pg, code) && stackPtr == 1 && out == []
      modifies this, stack
      ensures var all := Expand(pg, code, old(cur).text, old(cur).pos, old(cur).sec, STACK_SIZE - 1);
              out == all.out && ok == !all.over
    {
      hide Expand, Step;
      ok := true;
      ghost var all := Expand(pg, code, cur.text, cur.pos, cur.sec, STACK_SIZE - 1);
      assert stack[1..stackPtr] == [];
      assert Then(all, Nothing()) == all;
      hide Remaining;
      assert Left(pg, code) == all by { StartRemaining(pg, code, cur); }
      while stackPtr > 0
        invariant Valid(pg, code)
        invariant out + Left(pg, code).out == all.out && Left(pg, code).over == all.over
        decreases Left(pg, code).cost
      {
        ok := PassOn(pg, code);
        if !ok {
          return;
        }
      }
    }

    /** Start on another file: cur_section is not reset. */
    method Restart(text: nat)
      modifies this
      ensures stackPtr == 1 && cur == Frame(text, 0, old(cur).sec) && out == []
    {
      stackPtr := 1;
      cur := Frame(text, 0, cur.sec);
      out := [];
    }

    /**
      The loops of phase_two: the unnamed program if there is one, then every named file in turn;
      each output is the recursive substitution of the text it starts with.
     */
    method PhaseTwo(pg: Program<T>, ghost code: set<nat>, files: seq<nat>)
      returns (ok: bool, outs: seq<seq<Out<T>>>, ghost secs: seq<nat>)
      requires Startable(pg, code, files) && stack.Length == STACK_SIZE
      modifies this, stack
      ensures Written(pg, code, files, ok, outs, secs) && (secs != [] ==> secs[0] == old(cur).sec)
    {
      hide Expand;
      ok, outs, secs := true, [], [];
      ghost var starts := Starts(pg, files);
      if pg.link[0] != 0 {
        Restart(pg.link[0]);
        secs := secs + [cur.sec];
        ok := Run(pg, code);
        outs := [out];
        if !ok {
          return;
        }
      }
      var i := 0;
      while i < |files|
        invariant 0 <= i <= |files| && stack.Length == STACK_SIZE && ok
        invariant |secs| == |outs| == i + |starts| - |files|
        invariant if secs != [] then secs[0] == old(cur).sec else cur.sec == old(cur).sec
        invariant forall k :: 0 <= k < |outs| ==>
                    (var all := Expand(pg, code, starts[k], 0, secs[k], STACK_SIZE - 1);
                     outs[k] == all.out && !all.over)
      {
        assert files[i] in files;
        assert starts[|outs|] == pg.equiv[files[i]];
        Restart(pg.equiv[files[i]]);
        secs := secs + [cur.sec];
        ok := Run(pg, code);
        outs := outs + [out];
        if !ok {
          return;
        }
        i := i + 1;
      }
    }
  }
}
