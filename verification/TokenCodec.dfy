/**
  The bytes of CTANGLE's replacement texts: what scan_repl and scan_section append to tok_mem, and
  what get_output reads back.
 */
module TokenCodec {
  import opened ByteCodes
  import opened Sequences

  /** 024000: identifiers lie below it, section references start at it. */
  const REFS: nat := 10240
  /** output_defs_flag, the last section reference. */
  const OUTPUT_DEFS: nat := 20479
  /** 0150000: this plus a section number, or plus 0 in front of a line record. */
  const NUMBERS: nat := 53248

  /** What scan_repl appends; `body` is a string or constant after `@@` has become `@`. */
  datatype Item =
    | Ident(name: nat)
    | Ref(name: nat)
    | Number(n: nat)
    | Line(line: nat, file: nat)
    | Defs
    | Quoted(delim: Byte, body: seq<Byte>)
    | Plain(c: Byte)

  /** What get_output does with the bytes; Raw is a byte that bypasses out_char. */
  datatype Event =
    | Name(v: nat)
    | Section(v: nat)
    | Begin(v: nat)
    | LineMark(line: nat, file: int)
    | CallDefs
    | Raw(b: Byte)
    | Char(b: Byte)
    | Stuck

  // ----- Encoding

  function TwoBytes(x: nat): (r: seq<Byte>)
    ensures |r| == 2
  {
    [x / 256 % 256, x % 256]
  }

  function NameBytes(a: nat, base: nat): (r: seq<Byte>)
    ensures |r| == 2
  {
    [(a / 256 + base) % 256, a % 256]
  }

  function Encode(it: Item): seq<Byte> {
    match it
    case Ident(a) => NameBytes(a, 128)
    case Ref(a) => NameBytes(a, 168)
    case Number(n) => TwoBytes(NUMBERS + n)
    case Line(line, file) => TwoBytes(NUMBERS) + TwoBytes(line) + NameBytes(file, 128)
    case Defs => NameBytes(OUTPUT_DEFS, 128)
    case Quoted(d, body) => [d] + body + [d]
    case Plain(c) => [c]
  }

  function EncodeAll(items: seq<Item>): seq<Byte> {
    if items == [] then [] else Encode(items[0]) + EncodeAll(items[1..])
  }

  // ----- Decoding

  predicate IsQuote(b: Byte) {
    b == STRING || b == CONSTANT
  }

  /** What the bytes at the front make get_output do, and how many there are. */
  function First(bs: seq<Byte>, verbatim: bool): (r: (Event, nat))
    requires bs != []
    ensures 1 <= r.1 <= |bs|
  {
    if verbatim && !IsQuote(bs[0]) && bs[0] != NEWLINE then (Raw(bs[0]), 1)
    else if bs[0] < 128 then (Char(bs[0]), 1)
    else if |bs| < 2 then (Stuck, 1)
    else
      var a: int := (bs[0] as int - 128) * 256 + bs[1];
      if a < REFS then (Name(a), 2)
      else if a < 2 * REFS then (if a == OUTPUT_DEFS then CallDefs else Section(a - REFS), 2)
      else if a > 2 * REFS then (Begin(a - 2 * REFS), 2)
      else if |bs| < 6 then (Stuck, |bs|)
      else (LineMark(256 * (bs[2] as int) + bs[3], 256 * (bs[4] as int - 128) + bs[5]), 6)
  }

  /** Quotes of either kind start and end the verbatim state of out_char. */
  function Verbatim(e: Event, verbatim: bool): bool {
    if e.Char? && IsQuote(e.b) then !verbatim else verbatim
  }

  function Decode(bs: seq<Byte>, verbatim: bool): seq<Event> {
    if bs == [] then []
    else
      var (e, n) := First(bs, verbatim);
      [e] + Decode(bs[n..], Verbatim(e, verbatim))
  }

  // ----- What decoding should give

  function Body(body: seq<Byte>): seq<Event> {
    if body == [] then []
    else [if body[0] == NEWLINE then Char(NEWLINE) else Raw(body[0])] + Body(body[1..])
  }

  function Meaning(it: Item): seq<Event> {
    match it
    case Ident(a) => [Name(a)]
    case Ref(a) => [Section(a)]
    case Number(n) => [Begin(n)]
    case Line(line, file) => [LineMark(line, file)]
    case Defs => [CallDefs]
    case Quoted(d, body) => [Char(d)] + Body(body) + [Char(d)]
    case Plain(c) => [Char(c)]
  }

  function MeaningAll(items: seq<Item>): seq<Event> {
    if items == [] then [] else Meaning(items[0]) + MeaningAll(items[1..])
  }

  /** The sizes that the tables of CTANGLE keep to; max_names is 4000. */
  predicate Sized(it: Item) {
    match it
    case Ident(a) => a < REFS
    case Ref(a) => a < REFS - 1
    case Number(n) => 1 <= n <= 12287
    case Line(line, file) => line < 65536 && file < REFS
    case Defs => true
    case Quoted(d, body) => IsQuote(d)
    case Plain(c) => c < 128 && !IsQuote(c)
  }

  predicate Clean(it: Item) {
    it.Quoted? ==> forall b :: b in it.body ==> !IsQuote(b)
  }

  // ----- Round trip

  lemma DecodeNone(verbatim: bool)
    ensures Decode([], verbatim) == []
  {
  }

  lemma DecodeStep(bs: seq<Byte>, verbatim: bool)
    requires bs != []
    ensures var (e, n) := First(bs, verbatim);
            Decode(bs, verbatim) == [e] + Decode(bs[n..], Verbatim(e, verbatim))
  {
  }

  /** A byte pair below 024000 + 024000, as the two bytes of a name. */
  lemma NameSplit(a: nat, base: nat)
    requires a < REFS && 128 <= base <= 168
    ensures NameBytes(a, base)[0] == a / 256 + base >= 128
    ensures (NameBytes(a, base)[0] as int - 128) * 256 + NameBytes(a, base)[1] ==
            a + (base - 128) * 256
  {
  }

  lemma NumberSplit(n: nat)
    requires n <= 12287
    ensures TwoBytes(NUMBERS + n)[0] >= 128
    ensures (TwoBytes(NUMBERS + n)[0] as int - 128) * 256 + TwoBytes(NUMBERS + n)[1] ==
            2 * REFS + n
  {
  }

  lemma DefsBytes()
    ensures NameBytes(OUTPUT_DEFS, 128) == [207, 255]
  {
  }

  lemma LineSplit(line: nat)
    requires line < 65536
    ensures 256 * (TwoBytes(line)[0] as int) + TwoBytes(line)[1] == line
  {
  }

  lemma FirstOne(it: Item, rest: seq<Byte>)
    requires Sized(it) && !it.Quoted?
    ensures First(Encode(it) + rest, false) == (Meaning(it)[0], |Encode(it)|)
  {
    hide NameBytes, TwoBytes;
    match it {
      case Ident(a) => NameSplit(a, 128);
      case Ref(a) => NameSplit(a, 168);
      case Number(n) => NumberSplit(n);
      case Line(line, file) =>
        NumberSplit(0);
        LineSplit(line);
        NameSplit(file, 128);
      case Defs => DefsBytes();
      case Plain(c) =>
    }
  }

  lemma DecodeOne(it: Item, rest: seq<Byte>)
    requires Sized(it) && !it.Quoted?
    ensures Decode(Encode(it) + rest, false) == Meaning(it) + Decode(rest, false)
  {
    var bs := Encode(it) + rest;
    var n := |Encode(it)|;
    FirstOne(it, rest);
    DecodeStep(bs, false);
    assert Meaning(it) == [Meaning(it)[0]];
    assert n > 0 && !(Meaning(it)[0].Char? && IsQuote(Meaning(it)[0].b));
    hide First, Decode, Meaning, Encode;
    assert bs[n..] == rest;
  }

  lemma SameTail(e: Event, a: seq<Event>, b: seq<Event>)
    ensures [e] + a == [e] + b ==> a == b
  {
    assert ([e] + a)[1..] == a && ([e] + b)[1..] == b;
  }

  /** Inside a string a byte other than a quote byte or newline comes out as it is. */
  lemma DecodeInner(b: Byte, bs: seq<Byte>)
    ensures Decode([b] + bs, true) ==
            if IsQuote(b) then [Char(b)] + Decode(bs, false) else Body([b]) + Decode(bs, true)
  {
    assert ([b] + bs)[1..] == bs;
    assert Body([b]) == [if b == NEWLINE then Char(NEWLINE) else Raw(b)];
  }

  lemma BodyStep(b: Byte, body: seq<Byte>)
    ensures Body([b] + body) == Body([b]) + Body(body) && |Body([b])| == 1
    ensures IsQuote(b) ==> Body([b])[0] != Char(b)
  {
    assert ([b] + body)[1..] == body;
    assert [b][1..] == [];
  }

  lemma {:induction false} DecodeClean(body: seq<Byte>, rest: seq<Byte>)
    requires forall b :: b in body ==> !IsQuote(b)
    ensures Decode(body + rest, true) == Body(body) + Decode(rest, true)
  {
    if body == [] {
      assert body + rest == rest;
      assert Body(body) == [];
    } else {
      var b, tail := body[0], body[1..];
      hide Decode, Body;
      DecodeClean(tail, rest);
      DecodeInner(b, tail + rest);
      BodyStep(b, tail);
      Assoc(Body([b]), Body(tail), Decode(rest, true));
      assert b in body && !IsQuote(b);
      hide IsQuote;
      SplitFirst(body, rest);
    }
  }

  lemma SplitFirst(body: seq<Byte>, rest: seq<Byte>)
    requires body != []
    ensures body == [body[0]] + body[1..] && body + rest == [body[0]] + (body[1..] + rest)
  {
  }

  lemma {:induction false} DecodeUnclean(body: seq<Byte>, rest: seq<Byte>, after: seq<Event>)
    requires exists b :: b in body && IsQuote(b)
    ensures Decode(body + rest, true) != Body(body) + after
  {
    var b, tail := body[0], body[1..];
    hide Decode, Body;
    SplitFirst(body, rest);
    DecodeInner(b, tail + rest);
    BodyStep(b, tail);
    var m := Body([b])[0];
    assert Body([b]) == [m];
    Assoc([m], Body(tail), after);
    if IsQuote(b) {
      assert Decode(body + rest, true)[0] == Char(b);
      assert ([m] + (Body(tail) + after))[0] == m;
    } else {
      DecodeUnclean(tail, rest, after);
      SameTail(m, Decode(tail + rest, true), Body(tail) + after);
    }
  }

  /** A string decodes to what it means unless it contains a quote byte, and then it never does. */
  lemma DecodeQuoted(it: Item, rest: seq<Byte>, after: seq<Event>)
    requires Sized(it) && it.Quoted?
    ensures Clean(it) ==> Decode(Encode(it) + rest, false) == Meaning(it) + Decode(rest, false)
    ensures !Clean(it) ==> Decode(Encode(it) + rest, false) != Meaning(it) + after
  {
    var d, body := it.delim, it.body;
    OpenQuote(d, body, rest);
    var c := [Char(d)];
    assert Encode(it) == [d] + body + [d] && Meaning(it) == c + Body(body) + c;
    DecodeInner(d, rest);
    hide First, Decode, Body, Meaning, Encode;
    Assoc(c + Body(body), c, Decode(rest, false));
    Assoc(c, Body(body), c + Decode(rest, false));
    Assoc(c + Body(body), c, after);
    Assoc(c, Body(body), c + after);
    if Clean(it) {
      DecodeClean(body, [d] + rest);
    } else {
      DecodeUnclean(body, [d] + rest, c + after);
      SameTail(Char(d), Decode(body + ([d] + rest), true), Body(body) + (c + after));
    }
  }

  lemma OpenQuote(d: Byte, body: seq<Byte>, rest: seq<Byte>)
    requires IsQuote(d)
    ensures Decode([d] + body + [d] + rest, false) == [Char(d)] + Decode(body + ([d] + rest), true)
  {
    var bs := [d] + body + [d] + rest;
    DecodeStep(bs, false);
    assert bs[1..] == body + ([d] + rest);
  }

  /** A string that holds just the byte 02 is read back as three quote bytes. */
  lemma QuoteByteMisread()
    ensures var it := Quoted(STRING, [STRING]);
            && Sized(it)
            && Decode(Encode(it), false) == [Char(STRING), Char(STRING), Char(STRING)]
            && Meaning(it) == [Char(STRING), Raw(STRING), Char(STRING)]
  {
    var bs: seq<Byte> := [STRING, STRING, STRING];
    assert Encode(Quoted(STRING, [STRING])) == bs;
    assert bs[1..] == [STRING, STRING] && bs[1..][1..] == [STRING] && bs[1..][1..][1..] == [];
    DecodeStep(bs, false);
    DecodeStep(bs[1..], true);
    DecodeStep(bs[1..][1..], false);
    DecodeNone(true);
    assert Body([STRING]) == [Raw(STRING)] + Body([]);
  }

  /**
    Reading back an appended text does exactly what its items mean, if and only if no string or
    constant contains one of the bytes 02 and 03.
   */
  lemma {:induction false} RoundTrip(items: seq<Item>)
    requires forall it :: it in items ==> Sized(it)
    ensures Decode(EncodeAll(items), false) == MeaningAll(items) <==>
            forall it :: it in items ==> Clean(it)
  {
    if items != [] {
      var it, rest := items[0], EncodeAll(items[1..]);
      RoundTrip(items[1..]);
      assert items == [it] + items[1..];
      assert !it.Quoted? ==> Clean(it);
      hide First, Decode, Meaning, Encode, Clean;
      if it.Quoted? {
        DecodeQuoted(it, rest, MeaningAll(items[1..]));
      } else {
        DecodeOne(it, rest);
      }
      if Clean(it) {
        var m := Meaning(it);
        assert (m + Decode(rest, false))[|m|..] == Decode(rest, false);
        assert (m + MeaningAll(items[1..]))[|m|..] == MeaningAll(items[1..]);
      }
    }
  }

  // ----- The meaning determines the items

  /** Where the string that is open ends. */
  function Close(es: seq<Event>): (n: nat)
    ensures n <= |es|
  {
    if es == [] || (es[0].Char? && IsQuote(es[0].b)) then 0 else 1 + Close(es[1..])
  }

  function Bytes(es: seq<Event>): seq<Byte> {
    if es == [] then []
    else [if es[0].Raw? || es[0].Char? then es[0].b else 0] + Bytes(es[1..])
  }

  /** Reads the items off the events. */
  function Group(es: seq<Event>): seq<Item> {
    if es == [] then []
    else
      match es[0]
      case Char(d) =>
        if IsQuote(d) then
          var n := Close(es[1..]);
          if 1 + n == |es| then [] else [Quoted(d, Bytes(es[1..][..n]))] + Group(es[1..][n + 1..])
        else [Plain(d)] + Group(es[1..])
      case Name(v) => [Ident(v)] + Group(es[1..])
      case Section(v) => [Ref(v)] + Group(es[1..])
      case Begin(v) => [Number(v)] + Group(es[1..])
      case LineMark(line, file) => (if file >= 0 then [Line(line, file)] else []) + Group(es[1..])
      case CallDefs => [Defs] + Group(es[1..])
      case _ => Group(es[1..])
  }

  lemma {:induction false} CloseBody(body: seq<Byte>, d: Byte, after: seq<Event>)
    requires IsQuote(d) && forall b :: b in body ==> !IsQuote(b)
    ensures Close(Body(body) + [Char(d)] + after) == |body| == |Body(body)|
    ensures Bytes(Body(body)) == body
  {
    var es := Body(body) + [Char(d)] + after;
    if body == [] {
      assert es[0] == Char(d);
    } else {
      CloseBody(body[1..], d, after);
      assert es[0] == Body(body)[0] && !IsQuote(body[0]);
      assert es[1..] == Body(body[1..]) + [Char(d)] + after;
      assert Body(body)[1..] == Body(body[1..]);
    }
  }

  lemma GroupQuoted(d: Byte, body: seq<Byte>, after: seq<Event>)
    requires IsQuote(d) && forall b :: b in body ==> !IsQuote(b)
    ensures Group([Char(d)] + Body(body) + [Char(d)] + after) == [Quoted(d, body)] + Group(after)
  {
    var tail := Body(body) + [Char(d)] + after;
    var es := [Char(d)] + Body(body) + [Char(d)] + after;
    assert es == [Char(d)] + tail && es[0] == Char(d) && es[1..] == tail;
    CloseBody(body, d, after);
    hide Body, Bytes, Close;
    var n := Close(tail);
    assert tail[..n] == Body(body) && tail[n + 1..] == after;
    assert Group(es) == [Quoted(d, Bytes(tail[..n]))] + Group(tail[n + 1..]);
  }

  lemma GroupOne(it: Item, after: seq<Event>)
    requires Sized(it) && Clean(it)
    ensures Group(Meaning(it) + after) == [it] + Group(after)
  {
    if it.Quoted? {
      GroupQuoted(it.delim, it.body, after);
    } else {
      assert (Meaning(it) + after)[1..] == after;
    }
  }

  /** The items can be read off what get_output does: the encoding loses nothing. */
  lemma {:induction false} ItemsRecovered(items: seq<Item>)
    requires forall it :: it in items ==> Sized(it) && Clean(it)
    ensures Group(Decode(EncodeAll(items), false)) == items
  {
    hide *;
    RoundTrip(items);
    GroupMeaning(items);
  }

  lemma {:induction false} GroupMeaning(items: seq<Item>)
    requires forall it :: it in items ==> Sized(it) && Clean(it)
    ensures Group(MeaningAll(items)) == items
  {
    if items != [] {
      hide Group, Meaning;
      GroupMeaning(items[1..]);
      GroupOne(items[0], MeaningAll(items[1..]));
    } else {
      assert Group([]) == [];
    }
  }

  // ----- The same in tok_mem

  class TokMem {
    const tokMem: array<Byte>
    var tokPtr: nat

    constructor (maxToks: nat)
      ensures fresh(tokMem) && tokMem.Length == maxToks && tokPtr == 0
    {
      tokMem := new Byte[maxToks](_ => 0);
      tokPtr := 0;
    }

    ghost predicate Valid()
      reads this
    {
      tokPtr <= tokMem.Length
    }

    /** app_repl: false stands for overflow. */
    method AppRepl(c: Byte) returns (ok: bool)
      requires Valid()
      modifies this, tokMem
      ensures Valid() && ok == (old(tokPtr) < tokMem.Length)
      ensures ok ==> tokMem[..tokPtr] == old(tokMem[..tokPtr]) + [c]
    {
      if tokPtr == tokMem.Length {
        return false;
      }
      tokMem[tokPtr] := c;
      tokPtr := tokPtr + 1;
      ok := true;
    }

    /** store_two_bytes: the room for both bytes is checked first. */
    method StoreTwoBytes(x: nat) returns (ok: bool)
      requires Valid()
      modifies this, tokMem
      ensures Valid() && ok == (old(tokPtr) + 2 <= tokMem.Length)
      ensures ok ==> tokMem[..tokPtr] == old(tokMem[..tokPtr]) + TwoBytes(x)
    {
      if tokPtr + 2 > tokMem.Length {
        return false;
      }
      tokMem[tokPtr] := x / 256 % 256;
      tokPtr := tokPtr + 1;
      tokMem[tokPtr] := x % 256;
      tokPtr := tokPtr + 1;
      ok := true;
    }

    method AppName(a: nat, base: nat) returns (ok: bool)
      requires Valid()
      modifies this, tokMem
      ensures Valid() && ok == (old(tokPtr) + 2 <= tokMem.Length)
      ensures ok ==> tokMem[..tokPtr] == old(tokMem[..tokPtr]) + NameBytes(a, base)
    {
      ok := AppRepl((a / 256 + base) % 256);
      if ok {
        ok := AppRepl(a % 256);
      }
    }

    /** A string or constant between its quote bytes. */
    method AppQuoted(d: Byte, body: seq<Byte>) returns (ok: bool)
      requires Valid()
      modifies this, tokMem
      ensures Valid() && ok == (old(tokPtr) + |body| + 2 <= tokMem.Length)
      ensures ok ==> tokMem[..tokPtr] == old(tokMem[..tokPtr]) + ([d] + body + [d])
    {
      ok := AppRepl(d);
      var i := 0;
      while ok && i < |body|
        invariant Valid() && 0 <= i <= |body|
        invariant ok ==> tokMem[..tokPtr] == old(tokMem[..tokPtr]) + ([d] + body[..i])
        invariant !ok ==> old(tokPtr) + |body| + 2 > tokMem.Length
      {
        ok := AppRepl(body[i]);
        i := i + 1;
      }
      if ok {
        assert body[..i] == body;
        ok := AppRepl(d);
      }
    }

    /** One turn of the loop of scan_repl. */
    method AppItem(it: Item) returns (ok: bool)
      requires Valid()
      modifies this, tokMem
      ensures Valid() && ok == (old(tokPtr) + |Encode(it)| <= tokMem.Length)
      ensures ok ==> tokMem[..tokPtr] == old(tokMem[..tokPtr]) + Encode(it)
    {
      match it
      case Ident(a) => ok := AppName(a, 128);
      case Ref(a) => ok := AppName(a, 168);
      case Number(n) => ok := StoreTwoBytes(NUMBERS + n);
      case Defs => ok := AppName(OUTPUT_DEFS, 128);
      case Quoted(d, body) => ok := AppQuoted(d, body);
      case Plain(c) => ok := AppRepl(c);
      case Line(line, file) =>
        ok := StoreTwoBytes(NUMBERS);
        if ok {
          ok := StoreTwoBytes(line);
        }
        if ok {
          ok := AppName(file, 128);
        }
    }

    /** scan_repl on a text with the given items. */
    method ScanRepl(items: seq<Item>) returns (ok: bool)
      requires Valid()
      modifies this, tokMem
      ensures Valid() && ok == (old(tokPtr) + |EncodeAll(items)| <= tokMem.Length)
      ensures ok ==> tokMem[..tokPtr] == old(tokMem[..tokPtr]) + EncodeAll(items)
    {
      hide Encode;
      ok := true;
      var i := 0;
      assert items[0..] == items;
      while ok && i < |items|
        invariant Valid() && 0 <= i <= |items|
        invariant ok ==> tokMem[..tokPtr] + EncodeAll(items[i..]) ==
                         old(tokMem[..tokPtr]) + EncodeAll(items)
        invariant !ok ==> old(tokPtr) + |EncodeAll(items)| > tokMem.Length
      {
        ghost var before := tokMem[..tokPtr];
        ghost var rest := EncodeAll(items[i..][1..]);
        assert items[i..][1..] == items[i + 1..];
        assert EncodeAll(items[i..]) == Encode(items[i]) + rest;
        assert |before| == tokPtr;
        assert |before + EncodeAll(items[i..])| == old(tokPtr) + |EncodeAll(items)|;
        ok := AppItem(items[i]);
        assert ok ==> tokMem[..tokPtr] + rest == before + (Encode(items[i]) + rest);
        i := i + 1;
      }
    }
  }

  class Reader {
    const bytes: seq<Byte>
    var curByte: nat
    var verbatim: bool
    var done: seq<Event>

    constructor (bytes: seq<Byte>)
      ensures this.bytes == bytes && curByte == 0 && !verbatim && done == []
    {
      this.bytes := bytes;
      curByte, verbatim, done := 0, false, [];
    }

    /** The bytes of one token: false if the text ends within it. */
    method GetToken() returns (ok: bool)
      requires curByte < |bytes|
      modifies this
      ensures var (e, n) := First(bytes[old(curByte)..], old(verbatim));
              && done == old(done) + [e] && curByte == old(curByte) + n
              && verbatim == Verbatim(e, old(verbatim)) && ok == !e.Stuck?
    {
      var a := bytes[curByte];
      curByte := curByte + 1;
      ok := true;
      if verbatim && !IsQuote(a) && a != NEWLINE {
        done := done + [Raw(a)];
      } else if a < 128 {
        done := done + [Char(a)];
        verbatim := verbatim != IsQuote(a);
      } else if curByte == |bytes| {
        done := done + [Stuck];
        ok := false;
      } else {
        var v: int := (a as int - 128) * 256 + bytes[curByte];
        curByte := curByte + 1;
        if v < REFS {
          done := done + [Name(v)];
        } else if v < 2 * REFS {
          done := done + [if v == OUTPUT_DEFS then CallDefs else Section(v - REFS)];
        } else if v > 2 * REFS {
          done := done + [Begin(v - 2 * REFS)];
        } else if curByte + 4 > |bytes| {
          done := done + [Stuck];
          curByte := |bytes|;
          ok := false;
        } else {
          var line: nat := 256 * (bytes[curByte] as int) + bytes[curByte + 1];
          done := done + [LineMark(line, 256 * (bytes[curByte + 2] as int - 128) + bytes[curByte + 3])];
          curByte := curByte + 4;
        }
      }
    }

    /** Reading a whole text. */
    method GetText()
      requires curByte == 0 && !verbatim && done == []
      modifies this
      ensures done == Decode(bytes, false)
    {
      hide First, Decode;
      assert bytes[curByte..] == bytes;
      while curByte < |bytes|
        invariant curByte <= |bytes|
        invariant done + Decode(bytes[curByte..], verbatim) == Decode(bytes, false)
        decreases |bytes| - curByte
      {
        ghost var (e, n) := First(bytes[curByte..], verbatim);
        DecodeStep(bytes[curByte..], verbatim);
        assert bytes[curByte..][n..] == bytes[curByte + n..];
        Assoc(done, [e], Decode(bytes[curByte + n..], Verbatim(e, verbatim)));
        var _ := GetToken();
      }
      assert bytes[curByte..] == [];
      DecodeNone(verbatim);
    }
  }
}
