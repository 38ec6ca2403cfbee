/** Split invariance of the parser: `execute` called once per chunk delivers
    the same callbacks, in the same order, however the byte stream is cut
    into chunks, and ends idle once the stream ends on a reply boundary. */
module Fragmentation {
  import opened Decimal
  import opened Resp
  import opened RedisParser
  import opened Encoding
  import opened Streaming
  import opened Resumption
  import opened Steps
  import BufferPool

  /** Every chunk holds at least one byte. */
  predicate NonEmpty(chunks: seq<seq<byte>>) {
    forall i :: 0 <= i < |chunks| ==> |chunks[i]| > 0
  }

  /** `execute` called on each chunk in turn; the callbacks of all calls,
      in order, and the parser and pool after the last one. */
  function ExecuteAll(st: State, pool: BufferPool.Pool, chunks: seq<seq<byte>>): (r: Output)
    requires Valid(st) && BufferPool.Valid(pool) && NonEmpty(chunks)
    ensures Valid(r.st) && BufferPool.Valid(r.pool) && SameConfig(st, r.st)
    decreases |chunks|
  {
    if |chunks| == 0 then Output(st, pool, [])
    else
      var o := Execute(st, pool, chunks[0]);
      var rest := ExecuteAll(o.st, o.pool, chunks[1..]);
      Output(rest.st, rest.pool, o.events + rest.events)
  }

  /** The stream is used up: nothing can be pending. */
  lemma FeedEnd(st: State, rs: seq<Reply>, j: nat)
    requires Inv(st, rs, j) && j == |EncodeAll(rs)|
    ensures rs == [] && Idle(st)
  {
  }

  /** The stream after byte `k`, which lies `p.into` bytes into reply
      `p.done`, is the rest of the replies from that point on. */
  lemma {:induction false} StreamFrom(rs: seq<Reply>, k: nat, p: Spot)
    requires k <= |EncodeAll(rs)| && p == Advance(rs, k)
    ensures p.into <= |EncodeAll(rs[p.done..])|
    ensures EncodeAll(rs)[k..] == EncodeAll(rs[p.done..])[p.into..]
  {
    EncodeAllAppend(rs[..p.done], rs[p.done..]);
    assert rs[..p.done] + rs[p.done..] == rs;
  }

  /** Split invariance, from any point of the stream: if the parser holds
      the first `j` bytes of the stream `EncodeAll(rs)` and the chunks are
      the rest of it, the calls deliver every reply of `rs`, in order, and
      leave the parser idle. */
  lemma {:induction false} FeedStream(st: State, pool: BufferPool.Pool, rs: seq<Reply>, j: nat, chunks: seq<seq<byte>>, out: Output)
    requires Inv(st, rs, j) && BufferPool.Valid(pool) && NonEmpty(chunks)
    requires j <= |EncodeAll(rs)| && BufferPool.Flatten(chunks) == EncodeAll(rs)[j..]
    requires out == ExecuteAll(st, pool, chunks)
    ensures out.events == DeliveredAll(rs, st.stringNumbers) && Idle(out.st)
    decreases |chunks|
  {
    hide Execute, ExecuteTail, ExecuteBulkEnd, Loop, ParseArrayChunks, Encode, Mid, Valid, Idle, DeliveredAll, Advance;
    if |chunks| == 0 {
      FeedEnd(st, rs, j);
    } else {
      var sn := st.stringNumbers;
      var chunk := chunks[0];
      var k := j + |chunk|;
      assert BufferPool.Flatten(chunks) == chunk + BufferPool.Flatten(chunks[1..]);
      assert ChunkAt(rs, j, chunk) by {
        assert EncodeAll(rs)[j..][..|chunk|] == EncodeAll(rs)[j..k];
      }
      var o := Execute(st, pool, chunk);
      ExecuteStream(st, pool, rs, j, k, chunk);
      var p := Advance(rs, k);
      StreamFrom(rs, k, p);
      assert BufferPool.Flatten(chunks[1..]) == EncodeAll(rs)[k..];
      var rest := ExecuteAll(o.st, o.pool, chunks[1..]);
      FeedStream(o.st, o.pool, rs[p.done..], p.into, chunks[1..], rest);
      assert out == Output(rest.st, rest.pool, o.events + rest.events);
      DeliveredAllAppend(rs[..p.done], rs[p.done..], sn);
      assert rs[..p.done] + rs[p.done..] == rs;
    }
  }

  /** From a freshly constructed parser: the callbacks are exactly one per
      reply, in order, and the parser is idle again at the end. */
  lemma {:induction false} FeedFresh(returnBuffers: bool, stringNumbers: bool, hasFatalHandler: bool, pool: BufferPool.Pool, rs: seq<Reply>, chunks: seq<seq<byte>>)
    requires BufferPool.Valid(pool) && NonEmpty(chunks) && (forall i :: 0 <= i < |rs| ==> Encodable(rs[i]))
    requires BufferPool.Flatten(chunks) == EncodeAll(rs)
    ensures var out := ExecuteAll(New(returnBuffers, stringNumbers, hasFatalHandler), pool, chunks);
      out.events == DeliveredAll(rs, stringNumbers) && Idle(out.st)
  {
    var st := New(returnBuffers, stringNumbers, hasFatalHandler);
    assert EncodeAll(rs)[0..] == EncodeAll(rs);
    FeedStream(st, pool, rs, 0, chunks, ExecuteAll(st, pool, chunks));
  }

  /** Two ways of cutting the same stream into chunks yield the same
      callbacks. */
  lemma {:induction false} SplitInvariance(returnBuffers: bool, stringNumbers: bool, hasFatalHandler: bool, pool: BufferPool.Pool,
                        rs: seq<Reply>, chunks: seq<seq<byte>>, other: seq<seq<byte>>)
    requires BufferPool.Valid(pool) && NonEmpty(chunks) && NonEmpty(other) && (forall i :: 0 <= i < |rs| ==> Encodable(rs[i]))
    requires BufferPool.Flatten(chunks) == EncodeAll(rs) && BufferPool.Flatten(other) == EncodeAll(rs)
    ensures var st := New(returnBuffers, stringNumbers, hasFatalHandler);
      ExecuteAll(st, pool, chunks).events == ExecuteAll(st, pool, other).events
  {
    FeedFresh(returnBuffers, stringNumbers, hasFatalHandler, pool, rs, chunks);
    FeedFresh(returnBuffers, stringNumbers, hasFatalHandler, pool, rs, other);
  }
}
