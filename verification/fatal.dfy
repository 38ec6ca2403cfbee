/** Fatal isolation of `execute`: a stream whose next reply starts with a
    byte that is no type tag delivers every reply before it, then exactly one
    fatal error through `returnFatalError` (or `returnError` when none was
    given), and drops the buffer. */
module FatalIsolation {
  import opened Decimal
  import opened Resp
  import opened RedisParser
  import opened Encoding
  import opened Suspension
  import opened Streaming
  import BufferPool

  /** The one notification a fatal error fires. */
  function FatalEvent(st: State, f: Failure): Event {
    if st.hasFatalHandler then OnFatal(f) else OnError(f)
  }

  /** An unknown type byte at the offset: the loop stops at once, drops the
      buffer, leaves the offset on that byte and reports the byte with the
      offset just past it. */
  lemma LoopFatal(st: State, buf: seq<byte>, t: byte)
    requires Fresh(st, buf) && st.offset < |buf| && buf[st.offset] == t && !KnownTag(t)
    ensures Loop(st, buf) == Run(st.(buffer := None), [FatalEvent(st, ParserError(t, buf, st.offset + 1))])
  {
    var s := ParseType(st.(offset := st.offset + 1), buf, t);
    assert s == Step(Incomplete, st.(offset := st.offset + 1).(buffer := None), [ParserError(t, buf, st.offset + 1)]);
    assert FatalEvents(st, s.fatal) == [FatalEvent(st, ParserError(t, buf, st.offset + 1))];
  }

  /** The encodings of `rs` followed, at offset `p`, by an unknown type
      byte: one callback per reply, in order, then the fatal error. */
  lemma {:induction false} LoopRepliesFatal(st: State, buf: seq<byte>, rs: seq<Reply>, t: byte, p: nat)
    requires Fresh(st, buf) && (forall i :: 0 <= i < |rs| ==> Encodable(rs[i]))
    requires Holds(buf, st.offset, EncodeAll(rs)) && p == st.offset + |EncodeAll(rs)| < |buf|
    requires buf[p] == t && !KnownTag(t)
    ensures Loop(st, buf) ==
      Run(st.(buffer := None, offset := p), DeliveredAll(rs, st.stringNumbers) + [FatalEvent(st, ParserError(t, buf, p + 1))])
    decreases |rs|
  {
    hide Loop, Encode, Encodable, Delivered, Fresh, Holds;
    if |rs| == 0 {
      assert rs == [] && p == st.offset;
      LoopFatal(st, buf, t);
      assert st.(buffer := None) == st.(buffer := None, offset := p);
    } else {
      var sn := st.stringNumbers;
      var st2 := st.(offset := st.offset + |Encode(rs[0])|);
      FirstReply(st, buf, rs);
      LoopRepliesFatal(st2, buf, rs[1..], t, p);
      var fe := FatalEvent(st, ParserError(t, buf, p + 1));
      assert Loop(st2, buf) == Run(st.(buffer := None, offset := p), DeliveredAll(rs[1..], sn) + [fe]);
      assert DeliveredAll(rs, sn) == [Delivered(rs[0], sn)] + DeliveredAll(rs[1..], sn);
      assert [Delivered(rs[0], sn)] + (DeliveredAll(rs[1..], sn) + [fe]) == DeliveredAll(rs, sn) + [fe];
    }
  }

  /** The first of several whole replies is delivered, and the loop goes on
      past it with the rest in the buffer. */
  lemma {:induction false} FirstReply(st: State, buf: seq<byte>, rs: seq<Reply>)
    requires Fresh(st, buf) && |rs| > 0 && (forall i :: 0 <= i < |rs| ==> Encodable(rs[i]))
    requires Holds(buf, st.offset, EncodeAll(rs)) && st.offset + |EncodeAll(rs)| < |buf|
    ensures |EncodeAll(rs)| == |Encode(rs[0])| + |EncodeAll(rs[1..])|
    ensures Fresh(st.(offset := st.offset + |Encode(rs[0])|), buf)
    ensures Holds(buf, st.offset + |Encode(rs[0])|, EncodeAll(rs[1..]))
    ensures Loop(st, buf) ==
      Run(Loop(st.(offset := st.offset + |Encode(rs[0])|), buf).st,
          [Delivered(rs[0], st.stringNumbers)] + Loop(st.(offset := st.offset + |Encode(rs[0])|), buf).events)
  {
    var e := Encode(rs[0]);
    assert EncodeAll(rs) == e + EncodeAll(rs[1..]);
    HoldsSplit(buf, st.offset, e, EncodeAll(rs[1..]));
    LoopReply(st, buf, rs[0]);
  }

  /** One chunk on an idle parser holding whole replies, an unknown type byte
      and anything after it: exactly the replies before the byte, then one
      fatal error carrying the byte, the chunk and the offset past the byte;
      the parser is left without a buffer and the pool untouched. */
  lemma {:induction false} ExecuteFatal(st: State, pool: BufferPool.Pool, rs: seq<Reply>, t: byte, junk: seq<byte>)
    requires Valid(st) && Idle(st) && BufferPool.Valid(pool)
    requires (forall i :: 0 <= i < |rs| ==> Encodable(rs[i])) && !KnownTag(t)
    ensures var chunk := EncodeAll(rs) + [t] + junk;
      Execute(st, pool, chunk) ==
        Output(st.(offset := |EncodeAll(rs)|), pool,
               DeliveredAll(rs, st.stringNumbers) + [FatalEvent(st, ParserError(t, chunk, |EncodeAll(rs)| + 1))])
  {
    hide Loop, Encode, Encodable, Delivered, DeliveredAll, EncodeAll;
    var chunk := EncodeAll(rs) + [t] + junk;
    var st1 := st.(buffer := Some(chunk), offset := 0);
    assert chunk[0..|EncodeAll(rs)|] == EncodeAll(rs);
    LoopRepliesFatal(st1, chunk, rs, t, |EncodeAll(rs)|);
  }
}
