/** Where the parser stands when a chunk ends in the middle of a reply. A
    `Cut` describes it: the arrays it has suspended (a `Level` per array,
    innermost first, exactly as `arrayCache`/`arrayPos` hold them), how far
    into the reply's encoding parsing will resume, and whether a bulk string
    is being reassembled. The cut depends only on how many bytes of the reply
    have arrived, never on how they were split into chunks. */
module Suspension {
  import opened Decimal
  import opened Resp
  import opened Scanners
  import opened RedisParser
  import opened Encoding

  /** An array being parsed: its elements and the index of the next one. */
  datatype Level = Level(elements: seq<Reply>, pos: nat)

  /** `path`: the suspended arrays, innermost first. `rest`: the offset in
      the reply's encoding at which parsing resumes. `bulk`: the length of the
      bulk string whose data starts at `rest`, if one is pending. */
  datatype Cut = Cut(path: seq<Level>, rest: nat, bulk: Option<nat>)

  /** Nothing kept: the reply is re-read from its type byte. */
  const Rolled := Cut([], 0, None)

  /** The slots of an array whose first `i` elements are parsed. */
  function FrameOf(es: seq<Reply>, i: nat, sn: bool): (arr: seq<Slot>)
    ensures |arr| == |es|
    ensures forall k :: 0 <= k < |es| ==> arr[k] == if k < i then Filled(Decoded(es[k], sn)) else Hole
  {
    seq(|es|, k requires 0 <= k < |es| => if k < i then Filled(Decoded(es[k], sn)) else Hole)
  }

  function CacheOf(path: seq<Level>, sn: bool): (c: seq<seq<Slot>>)
    ensures |c| == |path|
    ensures forall k :: 0 <= k < |path| ==> c[k] == FrameOf(path[k].elements, path[k].pos, sn)
  {
    seq(|path|, k requires 0 <= k < |path| => FrameOf(path[k].elements, path[k].pos, sn))
  }

  function PosOf(path: seq<Level>): (p: seq<int>)
    ensures |p| == |path|
    ensures forall k :: 0 <= k < |path| ==> p[k] == path[k].pos
  {
    seq(|path|, k requires 0 <= k < |path| => path[k].pos as int)
  }

  /** The bytes of a reply after `k` of them have arrived: the suspended
      arrays and the resume offset. A scalar, or a count line, that has not
      fully arrived is re-read from its type byte. */
  function CutOf(r: Reply, k: nat, sn: bool): Cut
    requires k < |Encode(r)|
    decreases r, 1
  {
    match r
    case Bulk(b) =>
      var h := |Header(BULK_TAG, |b|)|;
      if k < h then Rolled else Cut([], h, Some(|b|))
    case Array(es) =>
      var h := |Header(ARRAY_TAG, |es|)|;
      if k < h then Rolled
      else
        var c := CutElems(es, 0, k - h, sn);
        c.(rest := h + c.rest)
    case _ => Rolled
  }

  /** The cut of the element encodings `es[i..]` after `k` bytes. */
  function CutElems(es: seq<Reply>, i: nat, k: nat, sn: bool): Cut
    requires i <= |es| && k < |EncodeAll(es[i..])|
    decreases es, 0, |es| - i
  {
    EncodeAllSplit(es, i);
    var e := Encode(es[i]);
    if k < |e| then
      var c := CutOf(es[i], k, sn);
      Cut(c.path + [Level(es, i)], c.rest, c.bulk)
    else
      var c := CutElems(es, i + 1, k - |e|, sn);
      c.(rest := |e| + c.rest)
  }

  /** The parser state a cut leaves, for a reply starting at `p` in `buf`:
      the suspended arrays, the offset, and the bulk bookkeeping. */
  function Resumed(st: State, buf: seq<byte>, p: int, c: Cut): State {
    var s := st.(arrayCache := CacheOf(c.path, st.stringNumbers), arrayPos := PosOf(c.path), offset := p + c.rest);
    match c.bulk
    case None => s
    case Some(len) => s.(bigStrSize := p + c.rest + len + 2, totalChunkSize := |buf|, bufferCache := [buf])
  }

  /** `buf` holds a proper, possibly empty, prefix of `e` from `p` to its end. */
  predicate Partial(buf: seq<byte>, p: int, e: seq<byte>) {
    0 <= p <= |buf| < p + |e| && buf[p..] == e[..|buf| - p]
  }

  /** Part of `a` is part of anything `a` begins. */
  lemma PartialPrefix(buf: seq<byte>, p: int, a: seq<byte>, b: seq<byte>)
    requires Partial(buf, p, a)
    ensures Partial(buf, p, a + b)
  {
    assert (a + b)[..|buf| - p] == a[..|buf| - p];
  }

  lemma {:induction false} PartialSplit(buf: seq<byte>, p: int, a: seq<byte>, b: seq<byte>)
    requires Partial(buf, p, a + b)
    ensures |buf| - p < |a| ==> Partial(buf, p, a)
    ensures |buf| - p >= |a| ==> Holds(buf, p, a) && Partial(buf, p + |a|, b)
  {
    var w := buf[p..];
    assert w == (a + b)[..|buf| - p];
    if |buf| - p < |a| {
      assert (a + b)[..|buf| - p] == a[..|buf| - p];
    } else {
      assert buf[p..p + |a|] == w[..|a|] == a;
      assert buf[p + |a|..] == w[|a|..] == b[..|buf| - p - |a|];
    }
  }

  /** A line cut short before its terminator has fully arrived offers no CR
      with a byte after it. */
  lemma LinePartial(buf: seq<byte>, p: nat, tag: byte, body: seq<byte>, more: seq<byte>)
    requires Partial(buf, p, [tag] + body + CRLF + more) && NoCR(body, 0, |body|)
    requires |buf| - p < |body| + 3
    ensures NoCR(buf, p + 1, |buf| - 1)
  {
    var e := [tag] + body + CRLF + more;
    forall k | p + 1 <= k < |buf| - 1
      ensures buf[k] != CR
    {
      assert buf[k] == buf[p..][k - p] == e[k - p] == body[k - p - 1];
    }
  }

  lemma IntBytesNoCR(n: int)
    ensures NoCR(IntBytes(n), 0, |IntBytes(n)|)
  {
    DigitsNoCR(if n < 0 then NatBytes(-n) else NatBytes(n));
  }

  /** A parser state with nothing suspended and no bulk string pending. */
  predicate Fresh(st: State, buf: seq<byte>) {
    At(st, buf) && NoBulk(st) && st.arrayCache == [] && st.arrayPos == []
  }

  /** What `parseType` leaves for a reply cut short: the state untouched when
      the cut keeps nothing (its caller rolls the offset back), else the cut. */
  function TypeResult(st: State, buf: seq<byte>, p: int, c: Cut): State {
    if c.path == [] && c.bulk.None? then st else Resumed(st, buf, p, c)
  }

  lemma CacheOfAppend(path: seq<Level>, l: Level, sn: bool)
    ensures CacheOf(path + [l], sn) == CacheOf(path, sn) + [FrameOf(l.elements, l.pos, sn)]
    ensures PosOf(path + [l]) == PosOf(path) + [l.pos]
  {
  }

  /** Filling the next slot of a frame moves it on by one element. */
  lemma FrameStep(es: seq<Reply>, i: nat, sn: bool)
    requires i < |es|
    ensures FrameOf(es, i, sn)[i := Filled(Decoded(es[i], sn))] == FrameOf(es, i + 1, sn)
  {
  }

  /** A reply cut short: `parseType` returns `undefined`, raises no error,
      and leaves the state the cut describes. */
  lemma {:induction false} PartialDecode(st: State, buf: seq<byte>, r: Reply)
    requires Fresh(st, buf) && st.offset >= 1 && Encodable(r)
    requires Partial(buf, st.offset - 1, Encode(r))
    ensures buf[st.offset - 1] == Encode(r)[0]
    ensures ParseType(st, buf, buf[st.offset - 1]) ==
      Step(Incomplete, TypeResult(st, buf, st.offset - 1, CutOf(r, |buf| - (st.offset - 1), st.stringNumbers)), [])
    decreases r, 2
  {
    assert buf[st.offset - 1] == buf[st.offset - 1..][0] == Encode(r)[0];
    match r
    case Simple(_) => PartialLine(st, buf, r);
    case Error(_) => PartialLine(st, buf, r);
    case Integer(_) => PartialInteger(st, buf, r);
    case Nil => PartialNil(st, buf, r);
    case NilArray =>
      PartialNil(st, buf, r);
    case Bulk(_) =>
      PartialBulk(st, buf, r);
      assert ParseType(st, buf, BULK_TAG) == ParseBulkString(st, buf);
    case Array(_) =>
      PartialArray(st, buf, r);
      assert ParseType(st, buf, ARRAY_TAG) == ParseArray(st, buf);
  }

  lemma PartialLine(st: State, buf: seq<byte>, r: Reply)
    requires Fresh(st, buf) && st.offset >= 1 && Encodable(r) && (r.Simple? || r.Error?)
    requires Partial(buf, st.offset - 1, Encode(r))
    ensures buf[st.offset - 1] == Encode(r)[0]
    ensures ParseType(st, buf, buf[st.offset - 1]) == Step(Incomplete, st, [])
  {
    var p := st.offset - 1;
    assert buf[p] == buf[p..][0] == Encode(r)[0];
    var body := if r.Simple? then r.bytes else r.message;
    assert Encode(r) == [Encode(r)[0]] + body + CRLF + [];
    LinePartial(buf, p, Encode(r)[0], body, []);
  }

  lemma PartialInteger(st: State, buf: seq<byte>, r: Reply)
    requires Fresh(st, buf) && st.offset >= 1 && r.Integer?
    requires Partial(buf, st.offset - 1, Encode(r))
    ensures buf[st.offset - 1] == Encode(r)[0]
    ensures ParseType(st, buf, buf[st.offset - 1]) == Step(Incomplete, st, [])
  {
    var p := st.offset - 1;
    assert buf[p] == buf[p..][0] == Encode(r)[0];
    assert Encode(r) == [INTEGER_TAG] + IntBytes(r.n) + CRLF + [];
    IntBytesNoCR(r.n);
    LinePartial(buf, p, INTEGER_TAG, IntBytes(r.n), []);
  }

  lemma PartialNil(st: State, buf: seq<byte>, r: Reply)
    requires Fresh(st, buf) && st.offset >= 1 && (r.Nil? || r.NilArray?)
    requires Partial(buf, st.offset - 1, Encode(r))
    ensures buf[st.offset - 1] == Encode(r)[0]
    ensures ParseType(st, buf, buf[st.offset - 1]) == Step(Incomplete, st, [])
  {
    var p := st.offset - 1;
    var tag := Encode(r)[0];
    assert buf[p] == buf[p..][0] == tag;
    var body: seq<byte> := [MINUS, 49];
    assert Encode(r) == [tag] + body + CRLF + [];
    LinePartial(buf, p, tag, body, []);
  }

  /** A count line that has not fully arrived reads as "need more". */
  lemma LengthPartial(buf: seq<byte>, p: nat, tag: byte, n: nat, more: seq<byte>)
    requires Partial(buf, p, Header(tag, n) + more) && |buf| - p < |Header(tag, n)|
    ensures ParseLength(buf, p + 1).NeedMore?
  {
    DigitsNoCR(NatBytes(n));
    assert Header(tag, n) + more == [tag] + NatBytes(n) + CRLF + more;
    LinePartial(buf, p, tag, NatBytes(n), more);
  }

  /** A count line that has fully arrived is read back. */
  lemma {:induction false} LengthFull(buf: seq<byte>, p: nat, tag: byte, n: nat, more: seq<byte>)
    requires Partial(buf, p, Header(tag, n) + more) && |buf| - p >= |Header(tag, n)|
    ensures ParseLength(buf, p + 1) == Field(n, p + |Header(tag, n)|)
    ensures Partial(buf, p + |Header(tag, n)|, more)
  {
    PartialSplit(buf, p, Header(tag, n), more);
    HeaderAt(buf, p, tag, n);
  }

  lemma {:induction false} PartialBulk(st: State, buf: seq<byte>, r: Reply)
    requires Fresh(st, buf) && st.offset >= 1 && r.Bulk?
    requires Partial(buf, st.offset - 1, Encode(r))
    ensures ParseBulkString(st, buf) ==
      Step(Incomplete, TypeResult(st, buf, st.offset - 1, CutOf(r, |buf| - (st.offset - 1), st.stringNumbers)), [])
  {
    if |buf| - (st.offset - 1) < |Header(BULK_TAG, |r.bytes|)| {
      PartialBulkHead(st, buf, r);
    } else {
      PartialBulkData(st, buf, r);
    }
  }

  /** Cut inside the length line: nothing is consumed. */
  lemma PartialBulkHead(st: State, buf: seq<byte>, r: Reply)
    requires Fresh(st, buf) && st.offset >= 1 && r.Bulk?
    requires Partial(buf, st.offset - 1, Encode(r)) && |buf| - (st.offset - 1) < |Header(BULK_TAG, |r.bytes|)|
    ensures ParseBulkString(st, buf) ==
      Step(Incomplete, TypeResult(st, buf, st.offset - 1, CutOf(r, |buf| - (st.offset - 1), st.stringNumbers)), [])
  {
    var b := r.bytes;
    assert Encode(r) == Header(BULK_TAG, |b|) + (b + CRLF);
    LengthPartial(buf, st.offset - 1, BULK_TAG, |b|, b + CRLF);
  }

  /** Cut inside the data or its terminator: the string is left pending. */
  lemma {:induction false} PartialBulkData(st: State, buf: seq<byte>, r: Reply)
    requires Fresh(st, buf) && st.offset >= 1 && r.Bulk?
    requires Partial(buf, st.offset - 1, Encode(r)) && |buf| - (st.offset - 1) >= |Header(BULK_TAG, |r.bytes|)|
    ensures ParseBulkString(st, buf) ==
      Step(Incomplete, TypeResult(st, buf, st.offset - 1, CutOf(r, |buf| - (st.offset - 1), st.stringNumbers)), [])
  {
    var b := r.bytes;
    assert Encode(r) == Header(BULK_TAG, |b|) + (b + CRLF);
    LengthFull(buf, st.offset - 1, BULK_TAG, |b|, b + CRLF);
    PendingBulkCut(st, buf, r);
  }

  /** The bookkeeping `parseBulkString` leaves for a string whose data has
      not fully arrived is the bulk cut. */
  lemma PendingBulkCut(st: State, buf: seq<byte>, r: Reply)
    requires Fresh(st, buf) && st.offset >= 1 && r.Bulk?
    requires |Header(BULK_TAG, |r.bytes|)| <= |buf| - (st.offset - 1) < |Encode(r)|
    ensures
      var next := st.offset - 1 + |Header(BULK_TAG, |r.bytes|)|;
      st.(offset := next, bigStrSize := next + |r.bytes| + 2, totalChunkSize := |buf|, bufferCache := st.bufferCache + [buf]) ==
      TypeResult(st, buf, st.offset - 1, CutOf(r, |buf| - (st.offset - 1), st.stringNumbers))
  {
    assert [] + [buf] == [buf];
  }

  lemma {:induction false} PartialArray(st: State, buf: seq<byte>, r: Reply)
    requires Fresh(st, buf) && st.offset >= 1 && Encodable(r) && r.Array?
    requires Partial(buf, st.offset - 1, Encode(r))
    ensures ParseArray(st, buf) ==
      Step(Incomplete, TypeResult(st, buf, st.offset - 1, CutOf(r, |buf| - (st.offset - 1), st.stringNumbers)), [])
    decreases r, 1
  {
    if |buf| - (st.offset - 1) < |Header(ARRAY_TAG, |r.elements|)| {
      PartialCount(st, buf, r);
    } else {
      PartialBody(st, buf, r);
    }
  }

  /** The count line of the array has not fully arrived. */
  lemma PartialCount(st: State, buf: seq<byte>, r: Reply)
    requires Fresh(st, buf) && st.offset >= 1 && Encodable(r) && r.Array?
    requires Partial(buf, st.offset - 1, Encode(r))
    requires |buf| - (st.offset - 1) < |Header(ARRAY_TAG, |r.elements|)|
    ensures ParseArray(st, buf) ==
      Step(Incomplete, TypeResult(st, buf, st.offset - 1, CutOf(r, |buf| - (st.offset - 1), st.stringNumbers)), [])
  {
    var es := r.elements;
    assert Encode(r) == Header(ARRAY_TAG, |es|) + EncodeAll(es);
    LengthPartial(buf, st.offset - 1, ARRAY_TAG, |es|, EncodeAll(es));
  }

  /** The count line is in, some element is cut short. */
  lemma {:induction false} PartialBody(st: State, buf: seq<byte>, r: Reply)
    requires Fresh(st, buf) && st.offset >= 1 && Encodable(r) && r.Array?
    requires Partial(buf, st.offset - 1, Encode(r))
    requires |buf| - (st.offset - 1) >= |Header(ARRAY_TAG, |r.elements|)|
    ensures ParseArray(st, buf) ==
      Step(Incomplete, TypeResult(st, buf, st.offset - 1, CutOf(r, |buf| - (st.offset - 1), st.stringNumbers)), [])
    decreases r, 0
  {
    hide ParseElements, ParseArray, CutElems, Resumed;
    var p := st.offset - 1;
    var es := r.elements;
    var h := Header(ARRAY_TAG, |es|);
    assert Encode(r) == h + EncodeAll(es);
    var st2 := st.(offset := p + |h|);
    LengthFull(buf, p, ARRAY_TAG, |es|, EncodeAll(es));
    ArrayStep(st, st2, buf, es);
    assert es[0..] == es;
    PartialElements(st2, buf, es, 0);
    ArrayCut(st, st2, buf, r);
  }

  /** `parseArray` once the count line is read: the elements, from holes. */
  lemma {:induction false} ArrayStep(st: State, st2: State, buf: seq<byte>, es: seq<Reply>)
    requires At(st, buf) && Frames(st.arrayCache, st.arrayPos) && NoBulk(st)
    requires st2.offset >= 0 && st2 == st.(offset := st2.offset)
    requires ParseLength(buf, st.offset) == Field(|es|, st2.offset)
    ensures ParseArray(st, buf) == ParseElements(st2, buf, FrameOf(es, 0, st2.stringNumbers), 0)
  {
    assert FrameOf(es, 0, st2.stringNumbers) == seq(|es|, _ => Hole);
  }

  /** The cut of an array whose count line has arrived is the cut of its
      elements, moved past the count line. */
  lemma {:induction false} ArrayCut(st: State, st2: State, buf: seq<byte>, r: Reply)
    requires Fresh(st, buf) && st.offset >= 1 && r.Array?
    requires st2 == st.(offset := st.offset - 1 + |Header(ARRAY_TAG, |r.elements|)|)
    requires st2.offset <= |buf| < st.offset - 1 + |Encode(r)|
    requires |buf| - st2.offset < |EncodeAll(r.elements[0..])|
    ensures Resumed(st2, buf, st2.offset, CutElems(r.elements, 0, |buf| - st2.offset, st2.stringNumbers)) ==
      TypeResult(st, buf, st.offset - 1, CutOf(r, |buf| - (st.offset - 1), st.stringNumbers))
  {
    assert r.elements[0..] == r.elements;
    CutElemsPath(r.elements, 0, |buf| - st2.offset, st.stringNumbers);
  }

  /** The elements `es[i..]` cut short: `parseArrayElements` suspends the
      array, on top of whatever the element it stopped in suspended. */
  lemma {:induction false} PartialElements(st: State, buf: seq<byte>, es: seq<Reply>, i: nat)
    requires Fresh(st, buf) && i <= |es| && forall k :: i <= k < |es| ==> Encodable(es[k])
    requires Partial(buf, st.offset, EncodeAll(es[i..]))
    ensures ParseElements(st, buf, FrameOf(es, i, st.stringNumbers), i) ==
      Step(Incomplete, Resumed(st, buf, st.offset, CutElems(es, i, |buf| - st.offset, st.stringNumbers)), [])
    decreases es, 0, |es| - i, 2
  {
    EncodeAllSplit(es, i);
    PartialSplit(buf, st.offset, Encode(es[i]), EncodeAll(es[i + 1..]));
    if st.offset == |buf| {
      ElementsAtEnd(st, buf, es, i);
    } else if |buf| - st.offset < |Encode(es[i])| {
      PartialElementsHere(st, buf, es, i);
    } else {
      PartialElementsPast(st, buf, es, i);
    }
  }

  /** The element at `i` is the one cut short. */
  lemma {:induction false} PartialElementsHere(st: State, buf: seq<byte>, es: seq<Reply>, i: nat)
    requires Fresh(st, buf) && i < |es| && Encodable(es[i]) && st.offset < |buf|
    requires Partial(buf, st.offset, Encode(es[i]))
    ensures |buf| - st.offset < |EncodeAll(es[i..])|
    ensures ParseElements(st, buf, FrameOf(es, i, st.stringNumbers), i) ==
      Step(Incomplete, Resumed(st, buf, st.offset, CutElems(es, i, |buf| - st.offset, st.stringNumbers)), [])
    decreases es, 0, |es| - i, 1
  {
    PartialDecode(st.(offset := st.offset + 1), buf, es[i]);
    ElementsStop(st, buf, es, i);
  }

  /** The element at `i` has fully arrived; the cut lies further on. */
  lemma {:induction false} PartialElementsPast(st: State, buf: seq<byte>, es: seq<Reply>, i: nat)
    requires Fresh(st, buf) && i < |es| && forall k :: i <= k < |es| ==> Encodable(es[k])
    requires EncodeAll(es[i..]) == Encode(es[i]) + EncodeAll(es[i + 1..])
    requires Holds(buf, st.offset, Encode(es[i])) && Partial(buf, st.offset + |Encode(es[i])|, EncodeAll(es[i + 1..]))
    ensures ParseElements(st, buf, FrameOf(es, i, st.stringNumbers), i) ==
      Step(Incomplete, Resumed(st, buf, st.offset, CutElems(es, i, |buf| - st.offset, st.stringNumbers)), [])
    decreases es, 0, |es| - i, 1
  {
    var st2 := st.(offset := st.offset + |Encode(es[i])|);
    DecodeEncode(st.(offset := st.offset + 1), buf, es[i]);
    PartialElements(st2, buf, es, i + 1);
    ElementsNext(st, st2, buf, es, i);
  }

  lemma ElementsAtEnd(st: State, buf: seq<byte>, es: seq<Reply>, i: nat)
    requires Fresh(st, buf) && i < |es| && st.offset == |buf|
    ensures 0 < |EncodeAll(es[i..])|
    ensures ParseElements(st, buf, FrameOf(es, i, st.stringNumbers), i) ==
      Step(Incomplete, Resumed(st, buf, st.offset, CutElems(es, i, 0, st.stringNumbers)), [])
  {
    ElementsEndStep(st, buf, FrameOf(es, i, st.stringNumbers), i);
    CutElemsEnd(st, buf, es, i);
  }

  lemma {:induction false} ElementsStop(st: State, buf: seq<byte>, es: seq<Reply>, i: nat)
    requires Fresh(st, buf) && i < |es| && st.offset < |buf|
    requires |buf| - st.offset < |Encode(es[i])|
    requires ParseType(st.(offset := st.offset + 1), buf, buf[st.offset]) ==
      Step(Incomplete, TypeResult(st.(offset := st.offset + 1), buf, st.offset, CutOf(es[i], |buf| - st.offset, st.stringNumbers)), [])
    ensures |buf| - st.offset < |EncodeAll(es[i..])|
    ensures ParseElements(st, buf, FrameOf(es, i, st.stringNumbers), i) ==
      Step(Incomplete, Resumed(st, buf, st.offset, CutElems(es, i, |buf| - st.offset, st.stringNumbers)), [])
  {
    ElementsSuspendStep(st, buf, FrameOf(es, i, st.stringNumbers), i);
    CutElemsStop(st, buf, es, i);
  }

  lemma {:induction false} ElementsNext(st: State, st2: State, buf: seq<byte>, es: seq<Reply>, i: nat)
    requires Fresh(st, buf) && i < |es| && st.offset < |buf|
    requires |Encode(es[i])| <= |buf| - st.offset < |EncodeAll(es[i..])|
    requires EncodeAll(es[i..]) == Encode(es[i]) + EncodeAll(es[i + 1..])
    requires st2 == st.(offset := st.offset + |Encode(es[i])|) && Fresh(st2, buf)
    requires ParseType(st.(offset := st.offset + 1), buf, buf[st.offset]) ==
      Step(Complete(Decoded(es[i], st.stringNumbers)), st2, [])
    requires |buf| - st2.offset < |EncodeAll(es[i + 1..])|
    requires ParseElements(st2, buf, FrameOf(es, i + 1, st2.stringNumbers), i + 1) ==
      Step(Incomplete, Resumed(st2, buf, st2.offset, CutElems(es, i + 1, |buf| - st2.offset, st2.stringNumbers)), [])
    ensures ParseElements(st, buf, FrameOf(es, i, st.stringNumbers), i) ==
      Step(Incomplete, Resumed(st, buf, st.offset, CutElems(es, i, |buf| - st.offset, st.stringNumbers)), [])
  {
    ElementsFillFrame(st, st2, buf, es, i);
    CutElemsNext(st, st2, buf, es, i);
  }

  /** Filling the next element of a frame with a decoded element. */
  lemma {:induction false} ElementsFillFrame(st: State, st2: State, buf: seq<byte>, es: seq<Reply>, i: nat)
    requires Fresh(st, buf) && i < |es| && st.offset < |buf|
    requires st2.stringNumbers == st.stringNumbers
    requires ParseType(st.(offset := st.offset + 1), buf, buf[st.offset]) ==
      Step(Complete(Decoded(es[i], st.stringNumbers)), st2, [])
    ensures ParseElements(st, buf, FrameOf(es, i, st.stringNumbers), i) ==
      ParseElements(st2, buf, FrameOf(es, i + 1, st2.stringNumbers), i + 1)
  {
    ElementsFillStep(st, buf, FrameOf(es, i, st.stringNumbers), i);
    FrameStep(es, i, st.stringNumbers);
  }

  /** `parseArrayElements` at the end of the buffer suspends the array. */
  lemma ElementsEndStep(st: State, buf: seq<byte>, arr: seq<Slot>, i: nat)
    requires Fresh(st, buf) && st.offset == |buf| && FilledUpTo(arr, i) && i < |arr|
    ensures ParseElements(st, buf, arr, i) == Step(Incomplete, Push(st, arr, i), [])
  {
  }

  /** `parseArrayElements` when the next element is `undefined`. */
  lemma ElementsSuspendStep(st: State, buf: seq<byte>, arr: seq<Slot>, i: nat)
    requires Fresh(st, buf) && st.offset < |buf| && FilledUpTo(arr, i) && i < |arr|
    requires ParseType(st.(offset := st.offset + 1), buf, buf[st.offset]).out.Incomplete?
    ensures
      var s := ParseType(st.(offset := st.offset + 1), buf, buf[st.offset]);
      var kept := if !(|s.st.arrayCache| > 0 || |s.st.bufferCache| > 0) then s.st.(offset := st.offset) else s.st;
      ParseElements(st, buf, arr, i) == Step(Incomplete, Push(kept, arr, i), s.fatal)
  {
  }

  /** `parseArrayElements` when the next element is a value. */
  lemma {:induction false} ElementsFillStep(st: State, buf: seq<byte>, arr: seq<Slot>, i: nat)
    requires Fresh(st, buf) && st.offset < |buf| && FilledUpTo(arr, i) && i < |arr|
    requires ParseType(st.(offset := st.offset + 1), buf, buf[st.offset]).out.Complete?
    ensures
      var s := ParseType(st.(offset := st.offset + 1), buf, buf[st.offset]);
      && FilledUpTo(arr[i := Filled(s.out.reply)], i + 1)
      && ParseElements(st, buf, arr, i) == ParseElements(s.st, buf, arr[i := Filled(s.out.reply)], i + 1)
  {
    var s := ParseType(st.(offset := st.offset + 1), buf, buf[st.offset]);
    assert ParseElements(st, buf, arr, i) == ParseElementAt(st, buf, arr, i) == ContinueElements(st, buf, s, arr, i);
  }

  lemma CutElemsEnd(st: State, buf: seq<byte>, es: seq<Reply>, i: nat)
    requires Fresh(st, buf) && i < |es|
    ensures 0 < |EncodeAll(es[i..])|
    ensures Push(st, FrameOf(es, i, st.stringNumbers), i) == Resumed(st, buf, st.offset, CutElems(es, i, 0, st.stringNumbers))
  {
    var sn := st.stringNumbers;
    EncodeAllSplit(es, i);
    assert CutOf(es[i], 0, sn) == Rolled;
    assert CutElems(es, i, 0, sn) == Cut([Level(es, i)], 0, None) by {
      assert [] + [Level(es, i)] == [Level(es, i)];
    }
    CacheOfAppend([], Level(es, i), sn);
  }

  /** Suspending on an element cut short pushes the array above the
      element's own cut, keeping the offset unless the element kept nothing. */
  lemma {:induction false} CutElemsStop(st: State, buf: seq<byte>, es: seq<Reply>, i: nat)
    requires Fresh(st, buf) && i < |es| && st.offset < |buf|
    requires |buf| - st.offset < |Encode(es[i])|
    ensures |buf| - st.offset < |EncodeAll(es[i..])|
    ensures
      var s := TypeResult(st.(offset := st.offset + 1), buf, st.offset, CutOf(es[i], |buf| - st.offset, st.stringNumbers));
      var kept := if !(|s.arrayCache| > 0 || |s.bufferCache| > 0) then s.(offset := st.offset) else s;
      Push(kept, FrameOf(es, i, st.stringNumbers), i) == Resumed(st, buf, st.offset, CutElems(es, i, |buf| - st.offset, st.stringNumbers))
  {
    var sn := st.stringNumbers;
    EncodeAllSplit(es, i);
    var c := CutOf(es[i], |buf| - st.offset, sn);
    CutOfRolled(es[i], |buf| - st.offset, sn);
    CacheOfAppend(c.path, Level(es, i), sn);
    if c.path == [] {
      assert [] + [Level(es, i)] == [Level(es, i)];
    }
  }

  /** Past a complete element, the cut of the rest is the cut of the
      following elements, moved past that element. */
  lemma CutElemsNext(st: State, st2: State, buf: seq<byte>, es: seq<Reply>, i: nat)
    requires Fresh(st, buf) && i < |es|
    requires |Encode(es[i])| <= |buf| - st.offset < |EncodeAll(es[i..])|
    requires EncodeAll(es[i..]) == Encode(es[i]) + EncodeAll(es[i + 1..])
    requires st2 == st.(offset := st.offset + |Encode(es[i])|)
    requires |buf| - st2.offset < |EncodeAll(es[i + 1..])|
    ensures Resumed(st2, buf, st2.offset, CutElems(es, i + 1, |buf| - st2.offset, st2.stringNumbers)) ==
      Resumed(st, buf, st.offset, CutElems(es, i, |buf| - st.offset, st.stringNumbers))
  {
  }

  /** A cut keeps nothing exactly when it resumes at the reply's type byte
      with no array suspended and no bulk string pending. */
  lemma {:induction false} CutOfRolled(r: Reply, k: nat, sn: bool)
    requires k < |Encode(r)|
    ensures var c := CutOf(r, k, sn); c.path == [] && c.bulk.None? ==> c == Rolled
  {
    match r
    case Array(es) =>
      var h := |Header(ARRAY_TAG, |es|)|;
      if k >= h {
        CutElemsPath(es, 0, k - h, sn);
      }
    case _ =>
  }

  lemma {:induction false} CutElemsPath(es: seq<Reply>, i: nat, k: nat, sn: bool)
    requires i <= |es| && k < |EncodeAll(es[i..])|
    ensures |CutElems(es, i, k, sn).path| >= 1
    decreases |es| - i
  {
    EncodeAllSplit(es, i);
    if k >= |Encode(es[i])| {
      CutElemsPath(es, i + 1, k - |Encode(es[i])|, sn);
    }
  }
}
