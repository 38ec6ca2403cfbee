/** Fragmentation invariance of `execute`: however the encodings of a
    sequence of replies are split into non-empty chunks, feeding the chunks
    one by one to an idle parser fires exactly one callback per reply, in
    order, and leaves the parser idle. */
module Streaming {
  import opened Decimal
  import opened Resp
  import opened RedisParser
  import opened Encoding
  import opened Suspension
  import opened Resumption
  import BufferPool

  /** Byte `k` of the stream `EncodeAll(rs)` lies `into` bytes into reply
      `done`, all replies before it having fully arrived. */
  datatype Spot = Spot(done: nat, into: nat)

  function Advance(rs: seq<Reply>, k: nat): (p: Spot)
    requires k <= |EncodeAll(rs)|
    ensures p.done <= |rs|
    ensures p.done == |rs| ==> p.into == 0
    ensures p.done < |rs| ==> p.into < |Encode(rs[p.done])|
    ensures k == |EncodeAll(rs[..p.done])| + p.into
    decreases |rs|
  {
    if |rs| == 0 || k < |Encode(rs[0])| then
      assert rs[..0] == [];
      Spot(0, k)
    else
      var p := Advance(rs[1..], k - |Encode(rs[0])|);
      assert rs[..p.done + 1] == [rs[0]] + rs[1..][..p.done];
      EncodeAllAppend([rs[0]], rs[1..][..p.done]);
      assert EncodeAll([rs[0]]) == Encode(rs[0]) by {
        assert [rs[0]][1..] == [];
      }
      Spot(p.done + 1, p.into)
  }

  lemma {:induction false} DeliveredAllAppend(a: seq<Reply>, b: seq<Reply>, sn: bool)
    ensures DeliveredAll(a + b, sn) == DeliveredAll(a, sn) + DeliveredAll(b, sn)
    decreases |a|
  {
    if |a| == 0 {
      assert a + b == b;
    } else {
      assert (a + b)[1..] == a[1..] + b;
      DeliveredAllAppend(a[1..], b, sn);
    }
  }

  /** The cut lies at or after the resume offset, and a pending bulk string
      ends, terminator included, after the cut and within the reply. */
  lemma {:induction false} CutBounds(r: Reply, k: nat, sn: bool)
    requires k < |Encode(r)|
    ensures CutOf(r, k, sn).rest <= k
    ensures CutOf(r, k, sn).bulk.Some? ==>
      k < CutOf(r, k, sn).rest + CutOf(r, k, sn).bulk.value + 2 <= |Encode(r)|
    decreases r, 1
  {
    match r
    case Array(es) =>
      var h := |Header(ARRAY_TAG, |es|)|;
      if k >= h {
        assert es[0..] == es;
        ElemsBounds(es, 0, k - h, sn);
      }
    case _ =>
  }

  lemma {:induction false} ElemsBounds(es: seq<Reply>, i: nat, k: nat, sn: bool)
    requires i <= |es| && k < |EncodeAll(es[i..])|
    ensures CutElems(es, i, k, sn).rest <= k
    ensures CutElems(es, i, k, sn).bulk.Some? ==>
      k < CutElems(es, i, k, sn).rest + CutElems(es, i, k, sn).bulk.value + 2 <= |EncodeAll(es[i..])|
    decreases es, 0, |es| - i
  {
    EncodeAllSplit(es, i);
    if k < |Encode(es[i])| {
      CutBounds(es[i], k, sn);
    } else {
      ElemsBounds(es, i + 1, k - |Encode(es[i])|, sn);
    }
  }

  /** While the bytes of a pending bulk string arrive, the cut stays put. */
  lemma {:induction false} CutStable(r: Reply, k: nat, k2: nat, sn: bool)
    requires k < |Encode(r)| && CutOf(r, k, sn).bulk.Some?
    requires k <= k2 < CutOf(r, k, sn).rest + CutOf(r, k, sn).bulk.value + 2
    ensures k2 < |Encode(r)|
    ensures CutOf(r, k2, sn) == CutOf(r, k, sn)
    decreases r, 1
  {
    CutBounds(r, k, sn);
    match r
    case Array(es) =>
      var h := |Header(ARRAY_TAG, |es|)|;
      assert es[0..] == es;
      ElemsStable(es, 0, k - h, k2 - h, sn);
    case _ =>
  }

  lemma {:induction false} ElemsStable(es: seq<Reply>, i: nat, k: nat, k2: nat, sn: bool)
    requires i <= |es| && k < |EncodeAll(es[i..])| && CutElems(es, i, k, sn).bulk.Some?
    requires k <= k2 < CutElems(es, i, k, sn).rest + CutElems(es, i, k, sn).bulk.value + 2
    ensures k2 < |EncodeAll(es[i..])|
    ensures CutElems(es, i, k2, sn) == CutElems(es, i, k, sn)
    decreases es, 0, |es| - i
  {
    EncodeAllSplit(es, i);
    var e := Encode(es[i]);
    if k < |e| {
      CutBounds(es[i], k, sn);
      CutStable(es[i], k, k2, sn);
    } else {
      ElemsStable(es, i + 1, k - |e|, k2 - |e|, sn);
    }
  }

  /** The bytes still to parse on a path start with the encoding of the
      element the innermost array is reading. */
  lemma {:induction false} TailHead(path: seq<Level>)
    requires Shaped(path) && path[0].pos < |path[0].elements|
    ensures |Encode(path[0].elements[path[0].pos])| <= |Tail(path)|
    ensures Tail(path)[..|Encode(path[0].elements[path[0].pos])|] == Encode(path[0].elements[path[0].pos])
    decreases |path|
  {
    var e := Encode(path[0].elements[path[0].pos]);
    if |path| == 1 {
      EncodeAllSplit(path[0].elements, path[0].pos);
    } else {
      var inner := path[..|path| - 1];
      assert inner[0] == path[0];
      assert Shaped(inner) by {
        assert forall k :: 0 <= k < |inner| ==> inner[k] == path[k];
      }
      TailHead(inner);
      assert Tail(path)[..|e|] == Tail(inner)[..|e|];
    }
  }

  /** A pending bulk string's payload sits between its count line and its
      terminator: it is the reply itself, or the element the innermost
      suspended array is reading. */
  lemma {:induction false} PendingBulkBytes(r: Reply, k: nat, sn: bool)
    requires Encodable(r) && k < |Encode(r)| && CutOf(r, k, sn).bulk.Some?
    ensures var c := CutOf(r, k, sn);
      && c.rest + c.bulk.value + 2 <= |Encode(r)|
      && (c.path == [] ==> r == Bulk(Encode(r)[c.rest..c.rest + c.bulk.value]))
      && (c.path != [] ==>
            && c.path[0].pos < |c.path[0].elements|
            && c.path[0].elements[c.path[0].pos] == Bulk(Encode(r)[c.rest..c.rest + c.bulk.value]))
  {
    var c := CutOf(r, k, sn);
    var len := c.bulk.value;
    CutBounds(r, k, sn);
    CutOfShape(r, k, sn);
    var h := Header(BULK_TAG, len);
    if c.path == [] {
      assert Encode(r) == h + r.bytes + CRLF;
      assert Encode(r)[|h|..|h| + len] == r.bytes;
    } else {
      InnerBulkBytes(r, c.path, c.path[0].elements[c.path[0].pos].bytes);
    }
  }

  /** The bulk string the innermost suspended array stopped at lies, count
      line and terminator included, within the encoding of the root. */
  lemma {:induction false} InnerBulkBytes(r: Reply, path: seq<Level>, b: seq<byte>)
    requires PathOK(path) && r == Root(path)
    requires path[0].pos < |path[0].elements| && path[0].elements[path[0].pos] == Bulk(b)
    ensures PathRest(path) + |Header(BULK_TAG, |b|)| + |b| + 2 <= |Encode(r)|
    ensures b == Encode(r)[PathRest(path) + |Header(BULK_TAG, |b|)|..PathRest(path) + |Header(BULK_TAG, |b|)| + |b|]
  {
    var h := Header(BULK_TAG, |b|);
    var e := Encode(Bulk(b));
    assert e == h + b + CRLF;
    TailAt(path);
    TailHead(path);
    hide Encode, Tail, PathRest, Root, PathOK, Encodable, Header;
    SliceWithin(Encode(r), PathRest(path), Tail(path), h, b, CRLF);
  }

  /** Bytes `h + b + c` that start the suffix `t` of `x` from `p` on: `b`
      sits in `x` just after `h`. */
  lemma {:induction false} SliceWithin(x: seq<byte>, p: nat, t: seq<byte>, h: seq<byte>, b: seq<byte>, c: seq<byte>)
    requires p + |t| == |x| && x[p..] == t
    requires |h + b + c| <= |t| && t[..|h + b + c|] == h + b + c
    ensures p + |h| + |b| + |c| <= |x|
    ensures x[p + |h|..p + |h| + |b|] == b
  {
    assert x[p + |h|..p + |h| + |b|] == t[|h|..|h| + |b|] == (h + b + c)[|h|..|h| + |b|];
  }

  /** Once a pending bulk string inside arrays has been stored, the path
      moves past it: the resume offset is the end of its terminator. */
  lemma {:induction false} BulkEndPath(r: Reply, k: nat, sn: bool)
    requires Encodable(r) && k < |Encode(r)| && CutOf(r, k, sn).bulk.Some? && CutOf(r, k, sn).path != []
    ensures var c := CutOf(r, k, sn);
      && PathOK(c.path) && c.path[0].pos < |c.path[0].elements|
      && PathOK(Bump(c.path)) && Root(Bump(c.path)) == r
      && PathRest(Bump(c.path)) == c.rest + c.bulk.value + 2
  {
    var c := CutOf(r, k, sn);
    CutOfShape(r, k, sn);
    BumpPath(c.path);
  }

  /** No buffer, nothing suspended, no bulk string pending: `execute`
      will scan the next chunk from its first byte. */
  predicate Idle(st: State) {
    st.buffer.None? && NoBulk(st) && st.arrayCache == [] && st.arrayPos == []
  }

  /** The parser holds the first `j` bytes of reply `r` as the cut at `j`
      describes them: the suspended arrays, the bytes still to be consumed
      (from the buffer, or from the cached chunks of a pending bulk string),
      and the bulk bookkeeping. */
  predicate Mid(st: State, r: Reply, j: nat) {
    && Encodable(r) && 0 < j < |Encode(r)| && st.buffer.Some?
    && var c := CutOf(r, j, st.stringNumbers);
       && c.rest <= j
       && st.arrayCache == CacheOf(c.path, st.stringNumbers) && st.arrayPos == PosOf(c.path)
       && match c.bulk
          case None =>
            && NoBulk(st) && 0 <= st.offset <= |st.buffer.value|
            && st.buffer.value[st.offset..] == Encode(r)[c.rest..j]
          case Some(len) =>
            && st.bigStrSize == st.offset + len + 2 && PendingChunks(st)
            && 0 <= st.offset <= |BufferPool.Flatten(st.bufferCache)|
            && BufferPool.Flatten(st.bufferCache)[st.offset..] == Encode(r)[c.rest..j]
  }

  /** Between two calls of `execute` while the stream `EncodeAll(rs)` is
      fed: the parser is idle before `rs[0]`, or holds the first `j` bytes
      of it. */
  predicate Inv(st: State, rs: seq<Reply>, j: nat) {
    && Valid(st)
    && (forall k :: 0 <= k < |rs| ==> Encodable(rs[k]))
    && (if j == 0 then Idle(st) else |rs| > 0 && Mid(st, rs[0], j))
  }

  /** The state the loop keeps when a reply starting at `st.offset` is cut
      after `k` bytes. */
  lemma {:induction false} MidAfterPartial(st: State, buf: seq<byte>, r: Reply, k: nat)
    requires Fresh(st, buf) && st.offset < |buf| && Encodable(r) && 0 < k < |Encode(r)|
    requires buf[st.offset..] == Encode(r)[..k]
    ensures
      var s := TypeResult(st.(offset := st.offset + 1), buf, st.offset, CutOf(r, k, st.stringNumbers));
      var kept := if !(|s.arrayCache| > 0 || |s.bufferCache| > 0) then s.(offset := st.offset) else s;
      Mid(kept, r, k)
  {
    var c := CutOf(r, k, st.stringNumbers);
    CutOfRolled(r, k, st.stringNumbers);
    if c.path == [] && c.bulk.None? {
      MidRolled(st, buf, r, k);
    } else {
      MidKept(st, buf, r, k, c);
    }
  }

  /** A reply cut before anything could be kept is re-read from its type
      byte: the buffer from the offset is the cut's whole prefix. */
  lemma MidRolled(st: State, buf: seq<byte>, r: Reply, k: nat)
    requires Fresh(st, buf) && st.offset < |buf| && Encodable(r) && 0 < k < |Encode(r)|
    requires buf[st.offset..] == Encode(r)[..k] && CutOf(r, k, st.stringNumbers) == Rolled
    ensures Mid(st.(offset := st.offset + 1).(offset := st.offset), r, k)
  {
    assert Encode(r)[0..k] == Encode(r)[..k];
  }

  /** A reply cut inside an array or a bulk string keeps the cut, and the
      kept state says so. */
  lemma {:induction false} MidKept(st: State, buf: seq<byte>, r: Reply, k: nat, c: Cut)
    requires Fresh(st, buf) && st.offset < |buf| && Encodable(r) && 0 < k < |Encode(r)|
    requires buf[st.offset..] == Encode(r)[..k]
    requires c == CutOf(r, k, st.stringNumbers) && !(c.path == [] && c.bulk.None?)
    ensures var s := Resumed(st.(offset := st.offset + 1), buf, st.offset, c);
      (|s.arrayCache| > 0 || |s.bufferCache| > 0) && Mid(s, r, k)
  {
    var o := st.offset;
    CutBounds(r, k, st.stringNumbers);
    assert buf[o + c.rest..] == Encode(r)[c.rest..k] by {
      assert buf[o + c.rest..] == buf[o..][c.rest..];
    }
    if c.bulk.Some? {
      BufferPool.FlattenOne(buf);
    }
  }

  /** `run` is what the scanning loop of `execute` does from `st` over
      `buf`. */
  predicate Looped(st: State, buf: seq<byte>, run: Run)
    requires At(st, buf) && Frames(st.arrayCache, st.arrayPos) && NoBulk(st)
  {
    run == Loop(st, buf)
  }

  /** The loop delivers a reply that has fully arrived through the callback
      its type selects, then goes on after it. */
  lemma {:induction false} LoopReply(st: State, buf: seq<byte>, r: Reply)
    requires Fresh(st, buf) && st.offset < |buf| && Encodable(r)
    requires Holds(buf, st.offset, Encode(r))
    ensures Fresh(st.(offset := st.offset + |Encode(r)|), buf)
    ensures
      var rest := Loop(st.(offset := st.offset + |Encode(r)|), buf);
      Loop(st, buf) == Run(rest.st, [Delivered(r, st.stringNumbers)] + rest.events)
  {
    hide ParseType, Encodable, EncodeAll;
    var st1 := st.(offset := st.offset + 1);
    DecodeEncode(st1, buf, r);
    TagOf(r);
  }

  /** The loop stops, firing nothing, in the middle of a reply. */
  lemma {:induction false} LoopCut(st: State, buf: seq<byte>, r: Reply, k: nat)
    requires Fresh(st, buf) && st.offset < |buf| && Encodable(r) && 0 < k < |Encode(r)|
    requires buf[st.offset..] == Encode(r)[..k]
    ensures Loop(st, buf).events == [] && Mid(Loop(st, buf).st, r, k)
  {
    hide ParseType, Mid, Encode;
    var st1 := st.(offset := st.offset + 1);
    assert Partial(buf, st.offset, Encode(r));
    PartialDecode(st1, buf, r);
    MidAfterPartial(st, buf, r, k);
  }

  /** What a run of the loop has done once the first `k` bytes of the
      stream `EncodeAll(rs)` were in its buffer: every reply that fully
      arrived is delivered, in order, and the parser is left idle or holding
      the start of the next one. */
  predicate Streamed(run: Run, rs: seq<Reply>, k: nat, sn: bool)
    requires k <= |EncodeAll(rs)|
  {
    var p := Advance(rs, k);
    && run.events == DeliveredAll(rs[..p.done], sn)
    && Inv(run.st, rs[p.done..], p.into)
  }

  /** The buffer holds, from the offset on, the first `k` bytes of the
      stream `EncodeAll(rs)`, and the loop starts there afresh. */
  predicate Feeds(st: State, buf: seq<byte>, rs: seq<Reply>, k: nat) {
    && Fresh(st, buf) && (forall i :: 0 <= i < |rs| ==> Encodable(rs[i]))
    && k <= |EncodeAll(rs)| && buf[st.offset..] == EncodeAll(rs)[..k]
  }

  /** A whole reply `r` is in the buffer at the offset. */
  predicate ReplyAt(st: State, buf: seq<byte>, r: Reply) {
    Fresh(st, buf) && st.offset < |buf| && Encodable(r) && Holds(buf, st.offset, Encode(r))
  }

  /** The first `k` bytes of the stream cover the whole first reply. */
  predicate Covers(rs: seq<Reply>, k: nat) {
    && |rs| > 0 && |Encode(rs[0])| <= k <= |EncodeAll(rs)|
    && k - |Encode(rs[0])| <= |EncodeAll(rs[1..])|
  }

  /** `LoopStream` for the loop's own run. */
  lemma {:induction false} LoopStreamed(st: State, buf: seq<byte>, rs: seq<Reply>, k: nat)
    requires Feeds(st, buf, rs, k)
    ensures Fresh(st, buf) && Streamed(Loop(st, buf), rs, k, st.stringNumbers)
  {
    LoopStream(st, buf, rs, k, Loop(st, buf));
  }

  /** The loop over a buffer holding, from the offset on, the first `k`
      bytes of the stream `EncodeAll(rs)`. */
  lemma {:induction false} LoopStream(st: State, buf: seq<byte>, rs: seq<Reply>, k: nat, run: Run)
    requires Feeds(st, buf, rs, k) && Looped(st, buf, run)
    ensures Streamed(run, rs, k, st.stringNumbers)
    decreases |buf| - st.offset
  {
    hide Streamed, Loop, Delivered, Covers, ReplyAt;
    if st.offset == |buf| {
      LoopStreamEnd(st, buf, rs, k, run);
    } else if k < |Encode(rs[0])| {
      LoopStreamCut(st, buf, rs, k, run);
    } else {
      var st2 := st.(offset := st.offset + |Encode(rs[0])|);
      var k2 := k - |Encode(rs[0])|;
      var rest := Loop(st2, buf);
      LoopStreamSkip(st, buf, rs, k);
      LoopStream(st2, buf, rs[1..], k2, rest);
      LoopReplyRun(st, st2, buf, rs[0], run, rest);
      LoopStreamReply(rs, k, k2, st.stringNumbers, run, rest);
    }
  }

  lemma LoopStreamEnd(st: State, buf: seq<byte>, rs: seq<Reply>, k: nat, run: Run)
    requires Feeds(st, buf, rs, k) && st.offset == |buf| && Looped(st, buf, run)
    ensures Streamed(run, rs, k, st.stringNumbers)
  {
    assert rs[..0] == [] && rs[0..] == rs;
  }

  lemma {:induction false} LoopStreamCut(st: State, buf: seq<byte>, rs: seq<Reply>, k: nat, run: Run)
    requires Feeds(st, buf, rs, k) && st.offset < |buf| && |rs| > 0 && k < |Encode(rs[0])|
    requires Looped(st, buf, run)
    ensures Streamed(run, rs, k, st.stringNumbers)
  {
    assert EncodeAll(rs) == Encode(rs[0]) + EncodeAll(rs[1..]);
    assert buf[st.offset..] == Encode(rs[0])[..k];
    LoopCut(st, buf, rs[0], k);
    assert rs[..0] == [] && rs[0..] == rs;
  }

  /** After the first reply, the buffer holds the rest of the stream. */
  lemma {:induction false} LoopStreamSkip(st: State, buf: seq<byte>, rs: seq<Reply>, k: nat)
    requires Feeds(st, buf, rs, k) && st.offset < |buf| && |rs| > 0 && k >= |Encode(rs[0])|
    ensures ReplyAt(st, buf, rs[0]) && Covers(rs, k)
    ensures Feeds(st.(offset := st.offset + |Encode(rs[0])|), buf, rs[1..], k - |Encode(rs[0])|)
  {
    var e := Encode(rs[0]);
    var rest := EncodeAll(rs[1..]);
    assert EncodeAll(rs) == e + rest;
    hide Encode, EncodeAll, Encodable;
    var w := buf[st.offset..];
    assert w == (e + rest)[..k];
    assert w[..|e|] == e && w[|e|..] == rest[..k - |e|];
    assert buf[st.offset..st.offset + |e|] == w[..|e|];
    assert buf[st.offset + |e|..] == w[|e|..];
  }

  /** `LoopReply` for runs given by name. */
  lemma {:induction false} LoopReplyRun(st: State, st2: State, buf: seq<byte>, r: Reply, run: Run, rest: Run)
    requires ReplyAt(st, buf, r) && st2 == st.(offset := st.offset + |Encode(r)|)
    requires Looped(st, buf, run) && Looped(st2, buf, rest)
    ensures run == Run(rest.st, [Delivered(r, st.stringNumbers)] + rest.events)
  {
    LoopReply(st, buf, r);
  }

  /** Delivering the first reply in front of what the rest of the run did. */
  lemma {:induction false} LoopStreamReply(rs: seq<Reply>, k: nat, k2: nat, sn: bool, run: Run, rest: Run)
    requires Covers(rs, k) && k2 == k - |Encode(rs[0])|
    requires run == Run(rest.st, [Delivered(rs[0], sn)] + rest.events)
    requires Streamed(rest, rs[1..], k2, sn)
    ensures Streamed(run, rs, k, sn)
  {
    var r := rs[0];
    var p := Advance(rs, k);
    var q := Advance(rs[1..], k - |Encode(r)|);
    assert p == Spot(q.done + 1, q.into);
    assert rs[..p.done] == [r] + rs[1..][..q.done];
    assert rs[p.done..] == rs[1..][q.done..];
    DeliveredAllAppend([r], rs[1..][..q.done], sn);
    assert DeliveredAll([r], sn) == [Delivered(r, sn)] by {
      assert [r][1..] == [];
    }
  }
}
