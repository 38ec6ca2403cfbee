/** One call of `execute` on a chunk of the stream `EncodeAll(rs)`, in each
    of its modes: the parser goes from holding the first `j` bytes of the
    current reply to having delivered every reply the chunk completes and
    holding the start of the next. */
module Steps {
  import opened Decimal
  import opened Resp
  import opened RedisParser
  import opened Encoding
  import opened Suspension
  import opened Resumption
  import opened Streaming
  import BufferPool

  /** `s` is what `parseArrayChunks` does from `st` over `buf`. */
  predicate Chunked(st: State, buf: seq<byte>, s: Step)
    requires At(st, buf) && NoBulk(st) && |st.arrayCache| >= 1 && ResumableFrames(st.arrayCache, st.arrayPos)
  {
    s == ParseArrayChunks(st, buf)
  }

  /** The buffer holds, from the offset on, the stream `EncodeAll(rs)` from
      the resume point of the arrays of `rs[0]` that `st` holds suspended up
      to byte `k`. */
  predicate ResumeFeeds(st: State, buf: seq<byte>, rs: seq<Reply>, path: seq<Level>, k: nat) {
    && Suspends(st, buf, path) && |rs| > 0 && Root(path) == rs[0]
    && (forall i :: 0 <= i < |rs| ==> Encodable(rs[i]))
    && PathRest(path) <= k <= |EncodeAll(rs)|
    && buf[st.offset..] == EncodeAll(rs)[PathRest(path)..k]
  }

  /** A state that resumes reply `r` at `base` bytes into its encoding, the
      buffer holding the bytes up to `k`, is in the middle of `r` as the cut
      at `k` says. */
  lemma {:induction false} MidResumed(st: State, buf: seq<byte>, r: Reply, base: nat, k: nat, tc: Cut)
    requires At(st, buf) && NoBulk(st) && Encodable(r) && 0 < k < |Encode(r)| && base <= k
    requires buf[st.offset..] == Encode(r)[base..k]
    requires CutOf(r, k, st.stringNumbers) == Shift(tc, base)
    ensures Mid(Resumed(st, buf, st.offset, tc), r, k)
  {
    var o := st.offset;
    CutBounds(r, k, st.stringNumbers);
    assert buf[o + tc.rest..] == Encode(r)[base + tc.rest..k] by {
      assert buf[o + tc.rest..] == buf[o..][tc.rest..];
    }
    if tc.bulk.Some? {
      MidResumedBulk(st, buf, r, base, k, tc);
    } else {
      MidResumedPlain(st, buf, r, base, k, tc);
    }
  }

  lemma MidResumedPlain(st: State, buf: seq<byte>, r: Reply, base: nat, k: nat, tc: Cut)
    requires At(st, buf) && NoBulk(st) && Encodable(r) && 0 < k < |Encode(r)| && tc.bulk.None?
    requires CutOf(r, k, st.stringNumbers) == Shift(tc, base) && base + tc.rest <= k
    requires st.offset + tc.rest <= |buf| && buf[st.offset + tc.rest..] == Encode(r)[base + tc.rest..k]
    ensures Mid(Resumed(st, buf, st.offset, tc), r, k)
  {
  }

  lemma {:induction false} MidResumedBulk(st: State, buf: seq<byte>, r: Reply, base: nat, k: nat, tc: Cut)
    requires At(st, buf) && NoBulk(st) && Encodable(r) && 0 < k < |Encode(r)| && tc.bulk.Some?
    requires CutOf(r, k, st.stringNumbers) == Shift(tc, base)
    requires k < base + tc.rest + tc.bulk.value + 2 && base + tc.rest <= k
    requires st.offset + tc.rest <= |buf| && buf[st.offset + tc.rest..] == Encode(r)[base + tc.rest..k]
    ensures Mid(Resumed(st, buf, st.offset, tc), r, k)
  {
    BufferPool.FlattenOne(buf);
  }

  /** The view `b[o..]` of the bytes `pr` to `k` of `x + y`, split where `x`
      ends. */
  lemma {:induction false} ViewSplit(b: seq<byte>, o: nat, x: seq<byte>, y: seq<byte>, pr: nat, k: nat)
    requires o <= |b| && pr <= |x| <= k <= |x| + |y| && b[o..] == (x + y)[pr..k]
    ensures o + |x| - pr <= |b|
    ensures b[o..o + |x| - pr] == x[pr..]
    ensures b[o + |x| - pr..] == y[..k - |x|]
  {
    assert b[o..o + |x| - pr] == b[o..][..|x| - pr];
    assert b[o + |x| - pr..] == b[o..][|x| - pr..];
  }

  /** The same when the view ends inside `x`. */
  lemma ViewInside(b: seq<byte>, o: nat, x: seq<byte>, y: seq<byte>, pr: nat, k: nat)
    requires o <= |b| && pr <= k <= |x| && b[o..] == (x + y)[pr..k]
    ensures b[o..] == x[pr..k]
  {
  }

  /** `parseArrayChunks` over the stream: it stops in the middle of the
      root reply as one parse of the whole stream would, or delivers it and
      leaves the buffer at the next reply. */
  lemma {:induction false} ResumeStream(st: State, buf: seq<byte>, rs: seq<Reply>, path: seq<Level>, k: nat, s: Step)
    requires ResumeFeeds(st, buf, rs, path, k)
    requires ResumableFrames(st.arrayCache, st.arrayPos) && |st.arrayCache| >= 1 && Chunked(st, buf, s)
    ensures s.fatal == []
    ensures k < |Encode(rs[0])| ==> s.out.Incomplete? && Mid(s.st, rs[0], k)
    ensures k >= |Encode(rs[0])| ==>
      && s.out == Complete(Decoded(rs[0], st.stringNumbers))
      && Covers(rs, k) && Feeds(s.st, buf, rs[1..], k - |Encode(rs[0])|)
  {
    TailAt(path);
    if k < |Encode(rs[0])| {
      ResumeStreamCut(st, buf, rs, path, k, s);
    } else {
      ResumeStreamDone(st, buf, rs, path, k, s);
    }
  }

  lemma {:induction false} ResumeStreamCut(st: State, buf: seq<byte>, rs: seq<Reply>, path: seq<Level>, k: nat, s: Step)
    requires ResumeFeeds(st, buf, rs, path, k) && k < |Encode(rs[0])|
    requires ResumableFrames(st.arrayCache, st.arrayPos) && |st.arrayCache| >= 1 && Chunked(st, buf, s)
    ensures s.fatal == [] && s.out.Incomplete? && Mid(s.st, rs[0], k)
  {
    hide ParseArrayChunks, Loop, CutOf, Mid, Valid, Resumed, Encode, EncodeAll, Tail;
    var r := rs[0];
    var sn := st.stringNumbers;
    var pr := PathRest(path);
    ResumeBytes(st, buf, rs, path, k);
    Resume(st, buf, path);
    var j := |buf| - st.offset;
    var tc := TailCut(path, j, sn);
    assert s == Step(Incomplete, Resumed(st, buf, st.offset, tc), []);
    CutAtPath(path, j, sn);
    MidResumed(st, buf, r, pr, k, tc);
  }

  /** The bytes a resumed parse sees when the stream stops inside the first
      reply: a proper prefix of the tail of its suspended arrays. */
  lemma {:induction false} ResumeBytes(st: State, buf: seq<byte>, rs: seq<Reply>, path: seq<Level>, k: nat)
    requires ResumeFeeds(st, buf, rs, path, k) && k < |Encode(rs[0])|
    ensures Partial(buf, st.offset, Tail(path)) && |buf| - st.offset == k - PathRest(path)
    ensures buf[st.offset..] == Encode(rs[0])[PathRest(path)..k]
  {
    var r := rs[0];
    var o := st.offset;
    var pr := PathRest(path);
    TailAt(path);
    assert EncodeAll(rs) == Encode(r) + EncodeAll(rs[1..]);
    ViewInside(buf, o, Encode(r), EncodeAll(rs[1..]), pr, k);
    assert Tail(path)[..k - pr] == Encode(r)[pr..k];
  }

  lemma {:induction false} ResumeStreamDone(st: State, buf: seq<byte>, rs: seq<Reply>, path: seq<Level>, k: nat, s: Step)
    requires ResumeFeeds(st, buf, rs, path, k) && k >= |Encode(rs[0])|
    requires ResumableFrames(st.arrayCache, st.arrayPos) && |st.arrayCache| >= 1 && Chunked(st, buf, s)
    ensures s.fatal == [] && s.out == Complete(Decoded(rs[0], st.stringNumbers))
    ensures Covers(rs, k) && Feeds(s.st, buf, rs[1..], k - |Encode(rs[0])|)
  {
    ResumeBytesDone(st, buf, rs, path, k);
    Resume(st, buf, path);
  }

  /** The bytes a resumed parse sees when the stream covers the first reply:
      the whole tail of its suspended arrays, then the next replies. */
  lemma {:induction false} ResumeBytesDone(st: State, buf: seq<byte>, rs: seq<Reply>, path: seq<Level>, k: nat)
    requires ResumeFeeds(st, buf, rs, path, k) && k >= |Encode(rs[0])|
    ensures Holds(buf, st.offset, Tail(path)) && Covers(rs, k)
    ensures st.offset + |Tail(path)| <= |buf|
    ensures buf[st.offset + |Tail(path)|..] == EncodeAll(rs[1..])[..k - |Encode(rs[0])|]
  {
    var r := rs[0];
    var o := st.offset;
    TailAt(path);
    assert EncodeAll(rs) == Encode(r) + EncodeAll(rs[1..]);
    ViewSplit(buf, o, Encode(r), EncodeAll(rs[1..]), PathRest(path), k);
  }

  /** `chunk` is the next `|chunk|` bytes of the stream `EncodeAll(rs)` after
      byte `j`. */
  predicate ChunkAt(rs: seq<Reply>, j: nat, chunk: seq<byte>) {
    |chunk| > 0 && j + |chunk| <= |EncodeAll(rs)| && chunk == EncodeAll(rs)[j..j + |chunk|]
  }

  /** What a call of `execute` did, as a run over the stream. */
  function AsRun(out: Output): Run {
    Run(out.st, out.events)
  }

  /** The kept bytes followed by the chunk are the stream from the kept
      point on. */
  lemma ViewJoin(a: seq<byte>, chunk: seq<byte>, x: seq<byte>, lo: nat, j: nat)
    requires lo <= j && j + |chunk| <= |x| && a == x[lo..j] && chunk == x[j..j + |chunk|]
    ensures a + chunk == x[lo..j + |chunk|]
  {
  }

  /** The stream up to byte `j` lies inside its first reply. */
  lemma WithinFirst(rs: seq<Reply>, j: nat)
    requires |rs| > 0 && j <= |Encode(rs[0])|
    ensures j <= |EncodeAll(rs)| && EncodeAll(rs)[..j] == Encode(rs[0])[..j]
  {
    assert EncodeAll(rs) == Encode(rs[0]) + EncodeAll(rs[1..]);
  }

  /** Idle: the chunk is scanned from its first byte. */
  lemma {:induction false} ExecuteIdle(st: State, pool: BufferPool.Pool, rs: seq<Reply>, chunk: seq<byte>, out: Output)
    requires Inv(st, rs, 0) && BufferPool.Valid(pool) && ChunkAt(rs, 0, chunk)
    requires out == Execute(st, pool, chunk)
    ensures Streamed(AsRun(out), rs, |chunk|, st.stringNumbers)
  {
    var st1 := st.(buffer := Some(chunk), offset := 0);
    var run := Loop(st1, chunk);
    assert Feeds(st1, chunk, rs, |chunk|);
    LoopStream(st1, chunk, rs, |chunk|, run);
    assert AsRun(out) == run;
  }

  /** The previous buffer's unread bytes followed by the chunk: the stream
      from the cut's resume offset to the end of the chunk. */
  lemma TailBuffer(st: State, rs: seq<Reply>, j: nat, chunk: seq<byte>)
    requires Inv(st, rs, j) && j > 0 && ChunkAt(rs, j, chunk)
    requires CutOf(rs[0], j, st.stringNumbers).bulk.None?
    ensures var c := CutOf(rs[0], j, st.stringNumbers);
      && c.rest <= j
      && st.buffer.value[st.offset..] + chunk == EncodeAll(rs)[c.rest..j + |chunk|]
  {
    var c := CutOf(rs[0], j, st.stringNumbers);
    WithinFirst(rs, j);
    assert st.buffer.value[st.offset..] == EncodeAll(rs)[c.rest..j] by {
      assert EncodeAll(rs)[c.rest..j] == EncodeAll(rs)[..j][c.rest..];
      assert Encode(rs[0])[c.rest..j] == Encode(rs[0])[..j][c.rest..];
    }
    ViewJoin(st.buffer.value[st.offset..], chunk, EncodeAll(rs), c.rest, j);
  }

  /** Tail of the previous buffer, nothing suspended: the reply was rolled
      back to its type byte, and the loop scans the joined buffer. */
  lemma {:induction false} ExecuteRolled(st: State, pool: BufferPool.Pool, rs: seq<Reply>, j: nat, chunk: seq<byte>, out: Output)
    requires Inv(st, rs, j) && j > 0 && BufferPool.Valid(pool) && ChunkAt(rs, j, chunk)
    requires CutOf(rs[0], j, st.stringNumbers).bulk.None? && CutOf(rs[0], j, st.stringNumbers).path == []
    requires out == Execute(st, pool, chunk)
    ensures Streamed(AsRun(out), rs, j + |chunk|, st.stringNumbers)
  {
    hide Loop, Streamed;
    var c := CutOf(rs[0], j, st.stringNumbers);
    CutOfShape(rs[0], j, st.stringNumbers);
    TailBuffer(st, rs, j, chunk);
    var buf := st.buffer.value[st.offset..] + chunk;
    var st1 := st.(buffer := Some(buf), offset := 0);
    var run := Loop(st1, buf);
    assert Feeds(st1, buf, rs, j + |chunk|);
    LoopStream(st1, buf, rs, j + |chunk|, run);
    assert AsRun(out) == run;
  }

  /** A run that fired nothing and stopped inside the first reply. */
  lemma CutStreamed(run: Run, rs: seq<Reply>, k: nat, sn: bool)
    requires Valid(run.st) && (forall i :: 0 <= i < |rs| ==> Encodable(rs[i]))
    requires |rs| > 0 && 0 < k < |Encode(rs[0])| && Mid(run.st, rs[0], k) && run.events == []
    ensures k <= |EncodeAll(rs)| && Streamed(run, rs, k, sn)
  {
    assert EncodeAll(rs) == Encode(rs[0]) + EncodeAll(rs[1..]);
    assert Advance(rs, k) == Spot(0, k);
    assert rs[..0] == [] && rs[0..] == rs;
  }

  /** Tail of the previous buffer with arrays suspended: they resume over
      the joined buffer, and once the root is complete the loop scans on. */
  lemma {:induction false} ExecuteResume(st: State, pool: BufferPool.Pool, rs: seq<Reply>, j: nat, k: nat, chunk: seq<byte>, out: Output)
    requires Inv(st, rs, j) && j > 0 && BufferPool.Valid(pool) && ChunkAt(rs, j, chunk)
    requires CutOf(rs[0], j, st.stringNumbers).bulk.None? && CutOf(rs[0], j, st.stringNumbers).path != []
    requires out == ExecuteTail(st, pool, chunk) && k == j + |chunk|
    ensures Streamed(AsRun(out), rs, k, st.stringNumbers)
  {
    var buf := st.buffer.value[st.offset..] + chunk;
    var st1 := st.(buffer := Some(buf), offset := 0);
    hide ExecuteTail;
    var path := CutOf(rs[0], j, st.stringNumbers).path;
    ResumeSetup(st, rs, j, chunk, buf, st1, path);
    ResumeTail(st, st1, buf, pool, rs, path, k, chunk, out);
  }

  /** The joined buffer resumes the suspended arrays of the cut. */
  lemma {:induction false} ResumeSetup(st: State, rs: seq<Reply>, j: nat, chunk: seq<byte>, buf: seq<byte>, st1: State, path: seq<Level>)
    requires Inv(st, rs, j) && j > 0 && ChunkAt(rs, j, chunk)
    requires CutOf(rs[0], j, st.stringNumbers).bulk.None? && path == CutOf(rs[0], j, st.stringNumbers).path && path != []
    requires buf == st.buffer.value[st.offset..] + chunk && st1 == st.(buffer := Some(buf), offset := 0)
    ensures st.buffer.Some? && st.bigStrSize == 0 && |st.arrayCache| > 0
    ensures ResumeFeeds(st1, buf, rs, path, j + |chunk|) && ResumableFrames(st1.arrayCache, st1.arrayPos)
  {
    hide Encode, EncodeAll, Encodable, CutOf, PathRest;
    var sn := st.stringNumbers;
    CutOfShape(rs[0], j, sn);
    TailBuffer(st, rs, j, chunk);
    PathFrames(path, sn);
  }

  lemma {:induction false} ResumeTail(st: State, st1: State, buf: seq<byte>, pool: BufferPool.Pool, rs: seq<Reply>, path: seq<Level>, k: nat, chunk: seq<byte>, out: Output)
    requires Valid(st) && BufferPool.Valid(pool) && st.buffer.Some? && st.bigStrSize == 0 && |st.arrayCache| > 0
    requires buf == st.buffer.value[st.offset..] + chunk && st1 == st.(buffer := Some(buf), offset := 0)
    requires ResumeFeeds(st1, buf, rs, path, k) && ResumableFrames(st1.arrayCache, st1.arrayPos)
    requires out == ExecuteTail(st, pool, chunk)
    ensures Streamed(AsRun(out), rs, k, st.stringNumbers)
  {
    var sn := st.stringNumbers;
    var s := ParseArrayChunks(st1, buf);
    ResumeStream(st1, buf, rs, path, k, s);
    if k < |Encode(rs[0])| {
      assert AsRun(out) == Run(s.st, []);
      CutStreamed(AsRun(out), rs, k, sn);
    } else {
      var k2 := k - |Encode(rs[0])|;
      var run := Loop(s.st, buf);
      LoopStream(s.st, buf, rs[1..], k2, run);
      assert AsRun(out) == Run(run.st, [Delivered(rs[0], sn)] + run.events);
      LoopStreamReply(rs, k, k2, sn, AsRun(out), run);
    }
  }

  /** While a bulk string is pending, the bytes it still lacks (payload and
      terminator) are more than `execute` appends to the cache. */
  lemma PendingRoom(st: State, r: Reply, j: nat, m: nat)
    requires Valid(st) && Mid(st, r, j) && CutOf(r, j, st.stringNumbers).bulk.Some?
    requires st.totalChunkSize + m < st.bigStrSize
    ensures var c := CutOf(r, j, st.stringNumbers); j + m < c.rest + c.bulk.value + 2
  {
    var c := CutOf(r, j, st.stringNumbers);
    assert |BufferPool.Flatten(st.bufferCache)[st.offset..]| == j - c.rest;
  }

  /** The appended chunk extends the cached bytes of the pending bulk
      string, and the cut has not moved. */
  lemma {:induction false} AppendMid(st: State, st2: State, r: Reply, j: nat, k: nat, chunk: seq<byte>)
    requires Valid(st) && Mid(st, r, j) && CutOf(r, j, st.stringNumbers).bulk.Some?
    requires |chunk| > 0 && k == j + |chunk| && k < |Encode(r)| && chunk == Encode(r)[j..k]
    requires CutOf(r, k, st.stringNumbers) == CutOf(r, j, st.stringNumbers)
    requires st2 == st.(bufferCache := st.bufferCache + [chunk], totalChunkSize := st.totalChunkSize + |chunk|)
    requires st.totalChunkSize + |chunk| < st.bigStrSize
    ensures Mid(st2, r, k)
  {
    hide CutOf, CacheOf, PosOf, Encode, EncodeAll, Encodable;
    var c := CutOf(r, j, st.stringNumbers);
    AppendCached(st.bufferCache, chunk, st.offset);
    assert Encode(r)[c.rest..k] == Encode(r)[c.rest..j] + Encode(r)[j..k];
  }

  /** Appending a non-empty chunk to the cached chunks of a pending bulk
      string keeps them non-empty past the first and extends their bytes. */
  lemma {:induction false} AppendCached(bc: seq<seq<byte>>, chunk: seq<byte>, o: int)
    requires |bc| >= 1 && |chunk| > 0 && 0 <= o <= |BufferPool.Flatten(bc)|
    requires forall i :: 1 <= i < |bc| ==> |bc[i]| > 0
    ensures var list := bc + [chunk];
      && |list| >= 1 && list[0] == bc[0] && (forall i :: 1 <= i < |list| ==> |list[i]| > 0)
      && |BufferPool.Flatten(list)| == |BufferPool.Flatten(bc)| + |chunk|
      && BufferPool.Flatten(list)[o..] == BufferPool.Flatten(bc)[o..] + chunk
  {
    var list := bc + [chunk];
    BufferPool.FlattenLast(list);
    assert list[..|list| - 1] == bc;
    assert forall i :: 1 <= i < |bc| ==> list[i] == bc[i];
  }

  /** A pending bulk string that the chunk does not complete: the chunk is
      cached and nothing fires. */
  lemma {:induction false} ExecuteAppend(st: State, pool: BufferPool.Pool, rs: seq<Reply>, j: nat, k: nat, chunk: seq<byte>, out: Output)
    requires Inv(st, rs, j) && j > 0 && ChunkAt(rs, j, chunk)
    requires CutOf(rs[0], j, st.stringNumbers).bulk.Some? && st.totalChunkSize + |chunk| < st.bigStrSize
    requires out == Output(st.(bufferCache := st.bufferCache + [chunk], totalChunkSize := st.totalChunkSize + |chunk|), pool, [])
    requires Valid(out.st) && k == j + |chunk|
    ensures Streamed(AsRun(out), rs, k, st.stringNumbers)
  {
    var sn := st.stringNumbers;
    PendingRoom(st, rs[0], j, |chunk|);
    CutStable(rs[0], j, k, sn);
    WithinFirst(rs, k);
    assert chunk == Encode(rs[0])[j..k] by {
      assert EncodeAll(rs)[j..k] == EncodeAll(rs)[..k][j..];
      assert Encode(rs[0])[j..k] == Encode(rs[0])[..k][j..];
    }
    AppendMid(st, out.st, rs[0], j, k, chunk);
    CutStreamed(AsRun(out), rs, k, sn);
  }

  /** The chunk completes a pending bulk string: with the cached chunks it
      holds the payload, and its bytes after the terminator are the stream
      from the end `e` of the bulk string on. */
  lemma {:induction false} BulkEndBytes(st: State, rs: seq<Reply>, j: nat, chunk: seq<byte>, e: nat)
    requires Inv(st, rs, j) && j > 0 && ChunkAt(rs, j, chunk)
    requires CutOf(rs[0], j, st.stringNumbers).bulk.Some? && st.totalChunkSize + |chunk| >= st.bigStrSize
    requires e == CutOf(rs[0], j, st.stringNumbers).rest + CutOf(rs[0], j, st.stringNumbers).bulk.value + 2
    ensures j < e <= j + |chunk| && e <= |Encode(rs[0])|
    ensures var list := st.bufferCache + [chunk];
      && st.bigStrSize - 2 <= |BufferPool.Flatten(list)|
      && BufferPool.Flatten(list)[st.offset..st.bigStrSize - 2] == Encode(rs[0])[e - st.bigStrSize + st.offset..e - 2]
    ensures st.bigStrSize - st.totalChunkSize == e - j
    ensures chunk[e - j..] == EncodeAll(rs)[e..j + |chunk|]
  {
    hide Inv, Mid, Valid, CutOf, BufferPool.Flatten, Decoded, CacheOf, PosOf;
    MidParts(st, rs, j);
    var c := CutOf(rs[0], j, st.stringNumbers);
    var k := j + |chunk|;
    var list := st.bufferCache + [chunk];
    CutBounds(rs[0], j, st.stringNumbers);
    JoinedBytes(st, rs, j, chunk, k, c);
    WithinFirst(rs, e);
    assert chunk == EncodeAll(rs)[j..k];
    hide Encode, EncodeAll, ChunkAt;
    BulkSlices(BufferPool.Flatten(list), EncodeAll(rs), Encode(rs[0]), chunk, st.offset, c.rest, j, e, k);
  }

  /** The slices behind a completed bulk string: the joined chunks `f` hold,
      from `o` on, the stream `x` from `lo` to `k`; the stream agrees with the
      reply's encoding `r` up to the bulk string's end `e`. */
  lemma {:induction false} BulkSlices(f: seq<byte>, x: seq<byte>, r: seq<byte>, chunk: seq<byte>, o: nat, lo: nat, j: nat, e: nat, k: nat)
    requires o <= |f| && lo <= j < e <= k <= |x| && lo + 2 <= e && e <= |r|
    requires f[o..] == x[lo..k] && x[..e] == r[..e] && chunk == x[j..k]
    ensures o + e - 2 - lo <= |f|
    ensures f[o..o + e - 2 - lo] == r[lo..e - 2]
    ensures chunk[e - j..] == x[e..k]
  {
    assert f[o..o + e - 2 - lo] == f[o..][..e - 2 - lo] == x[lo..k][..e - 2 - lo] == x[..e][lo..e - 2];
    assert r[lo..e - 2] == r[..e][lo..e - 2];
  }

  /** The cached chunks of a pending bulk string hold, from the offset on,
      the stream from the resume offset of the cut up to `j`. */
  lemma CachedBytes(st: State, rs: seq<Reply>, j: nat, c: Cut)
    requires Inv(st, rs, j) && j > 0
    requires c == CutOf(rs[0], j, st.stringNumbers) && c.bulk.Some?
    ensures c.rest <= j && st.buffer.Some? && PendingChunks(st)
    ensures 0 <= st.offset <= |BufferPool.Flatten(st.bufferCache)|
    ensures BufferPool.Flatten(st.bufferCache)[st.offset..] == EncodeAll(rs)[c.rest..j]
  {
    hide Valid, CacheOf, PosOf;
    WithinFirst(rs, j);
    assert EncodeAll(rs)[c.rest..j] == EncodeAll(rs)[..j][c.rest..];
    assert Encode(rs[0])[c.rest..j] == Encode(rs[0])[..j][c.rest..];
  }

  /** The cached chunks of a pending bulk string, from the offset on, then
      the new chunk: the stream from the cut's resume offset to byte `k`. */
  lemma {:induction false} JoinedBytes(st: State, rs: seq<Reply>, j: nat, chunk: seq<byte>, k: nat, c: Cut)
    requires Inv(st, rs, j) && j > 0 && ChunkAt(rs, j, chunk) && k == j + |chunk|
    requires c == CutOf(rs[0], j, st.stringNumbers) && c.bulk.Some?
    ensures c.rest <= j && st.totalChunkSize == st.offset + j - c.rest
    ensures var list := st.bufferCache + [chunk];
      && 0 <= st.offset <= |BufferPool.Flatten(list)|
      && BufferPool.Flatten(list)[st.offset..] == EncodeAll(rs)[c.rest..k]
  {
    CachedBytes(st, rs, j, c);
    hide Inv, Mid, Valid, CacheOf, PosOf, EncodeAll, CutOf, ChunkAt;
    var list := st.bufferCache + [chunk];
    var cached := BufferPool.Flatten(st.bufferCache)[st.offset..];
    BufferPool.FlattenLast(list);
    assert list[..|list| - 1] == st.bufferCache;
    assert BufferPool.Flatten(list)[st.offset..] == cached + chunk;
    ViewJoin(cached, chunk, EncodeAll(rs), c.rest, j);
  }

  /** A top-level bulk string completed by the chunk: its payload is the
      reply, and the rest of the chunk is the stream after it. */
  lemma {:induction false} BulkTopSetup(st: State, pool: BufferPool.Pool, rs: seq<Reply>, j: nat, k: nat, chunk: seq<byte>, copy: BufferPool.BulkCopy, st1: State)
    requires Inv(st, rs, j) && j > 0 && BufferPool.Valid(pool) && ChunkAt(rs, j, chunk) && k == j + |chunk|
    requires CutOf(rs[0], j, st.stringNumbers).bulk.Some? && CutOf(rs[0], j, st.stringNumbers).path == []
    requires st.totalChunkSize + |chunk| >= st.bigStrSize
    requires copy == ReassembleBulk(st, pool, st.bufferCache + [chunk])
    requires st1 == st.(offset := copy.offset, bigStrSize := 0, bufferCache := [], buffer := Some(chunk))
    ensures |st.arrayCache| == 0 && rs[0] == Bulk(copy.value)
    ensures Covers(rs, k) && Feeds(st1, chunk, rs[1..], k - |Encode(rs[0])|)
  {
    hide Inv, Mid, ReassembleBulk, BufferPool.Valid, CutOf, ChunkAt;
    BulkTopValue(st, pool, rs, j, k, chunk, copy);
    assert EncodeAll(rs) == Encode(rs[0]) + EncodeAll(rs[1..]);
    hide Encode, EncodeAll;
    assert chunk[st1.offset..] == EncodeAll(rs[1..])[..k - |Encode(rs[0])|];
  }

  /** The bulk string a top-level pending string reassembles to is `rs[0]`,
      and the chunk goes on with the stream just past it. */
  lemma {:induction false} BulkTopValue(st: State, pool: BufferPool.Pool, rs: seq<Reply>, j: nat, k: nat, chunk: seq<byte>, copy: BufferPool.BulkCopy)
    requires Inv(st, rs, j) && j > 0 && BufferPool.Valid(pool) && ChunkAt(rs, j, chunk) && k == j + |chunk|
    requires CutOf(rs[0], j, st.stringNumbers).bulk.Some? && CutOf(rs[0], j, st.stringNumbers).path == []
    requires st.totalChunkSize + |chunk| >= st.bigStrSize
    requires copy == ReassembleBulk(st, pool, st.bufferCache + [chunk])
    ensures Valid(st) && |st.arrayCache| == 0 && |st.arrayPos| == 0 && rs[0] == Bulk(copy.value)
    ensures (forall i :: 0 <= i < |rs| ==> Encodable(rs[i])) && k <= |EncodeAll(rs)|
    ensures 0 < copy.offset && |Encode(rs[0])| == j + copy.offset <= k
    ensures chunk[copy.offset..] == EncodeAll(rs)[|Encode(rs[0])|..k]
  {
    hide Inv, Mid, ReassembleBulk, BufferPool.Valid, CutOf;
    MidParts(st, rs, j);
    var sn := st.stringNumbers;
    var c := CutOf(rs[0], j, sn);
    var e := c.rest + c.bulk.value + 2;
    CutOfShape(rs[0], j, sn);
    BulkEndBytes(st, rs, j, chunk, e);
    var b := rs[0].bytes;
    var h := Header(BULK_TAG, |b|);
    assert c.bulk.value == |b| && c.rest == |h|;
    assert Encode(rs[0]) == h + b + CRLF;
    hide CutShape, Encode, EncodeAll;
    assert copy.value == (h + b + CRLF)[|h|..|h| + |b|] == b;
  }

  /** A top-level bulk string completed by the chunk is delivered, then the
      loop scans the rest of the chunk. */
  lemma {:induction false} ExecuteBulkTop(st: State, pool: BufferPool.Pool, rs: seq<Reply>, j: nat, k: nat, chunk: seq<byte>, out: Output)
    requires Inv(st, rs, j) && j > 0 && BufferPool.Valid(pool) && ChunkAt(rs, j, chunk) && k == j + |chunk|
    requires CutOf(rs[0], j, st.stringNumbers).bulk.Some? && CutOf(rs[0], j, st.stringNumbers).path == []
    requires st.totalChunkSize + |chunk| >= st.bigStrSize
    requires out == ExecuteBulkEnd(st, pool, chunk)
    ensures Streamed(AsRun(out), rs, k, st.stringNumbers)
  {
    hide Inv, Mid, Valid, CutOf, ReassembleBulk, ExecuteBulkEnd, Loop, Streamed, Encode, EncodeAll;
    var sn := st.stringNumbers;
    MidParts(st, rs, j);
    PendingList(st, chunk);
    var copy := ReassembleBulk(st, pool, st.bufferCache + [chunk]);
    var st1 := st.(offset := copy.offset, bigStrSize := 0, bufferCache := [], buffer := Some(chunk));
    BulkTopSetup(st, pool, rs, j, k, chunk, copy, st1);
    var k2 := k - |Encode(rs[0])|;
    var run := Loop(st1, chunk);
    LoopStream(st1, chunk, rs[1..], k2, run);
    BulkEndTop(st, pool, chunk, copy, st1, run, out);
    assert Delivered(rs[0], sn) == OnReply(Bulk(copy.value));
    LoopStreamReply(rs, k, k2, sn, AsRun(out), run);
  }

  /** The cached chunks and the chunk completing a pending bulk string are
      what the reassembly takes. */
  lemma PendingList(st: State, chunk: seq<byte>)
    requires Valid(st) && |chunk| > 0 && st.buffer.Some? && st.bigStrSize != 0
    requires st.totalChunkSize + |chunk| >= st.bigStrSize
    ensures BufferPool.PendingBulk(st.bufferCache + [chunk], st.offset, st.bigStrSize, st.totalChunkSize)
  {
    var list := st.bufferCache + [chunk];
    assert list[..|list| - 1] == st.bufferCache;
  }

  /** What `execute` returns once a bulk string outside any array completes:
      the string, then what the loop delivers from the rest of the chunk. */
  lemma {:induction false} BulkEndTop(st: State, pool: BufferPool.Pool, chunk: seq<byte>, copy: BufferPool.BulkCopy, st1: State, run: Run, out: Output)
    requires Valid(st) && BufferPool.Valid(pool) && |chunk| > 0 && st.buffer.Some? && st.bigStrSize != 0
    requires st.totalChunkSize + |chunk| >= st.bigStrSize && |st.arrayCache| == 0
    requires copy == ReassembleBulk(st, pool, st.bufferCache + [chunk])
    requires st1 == st.(offset := copy.offset, bigStrSize := 0, bufferCache := [], buffer := Some(chunk))
    requires Fresh(st1, chunk) && Looped(st1, chunk, run) && out == ExecuteBulkEnd(st, pool, chunk)
    ensures AsRun(out) == Run(run.st, [OnReply(Bulk(copy.value))] + run.events)
  {
    hide ReassembleBulk, Valid, BufferPool.Valid, OutputOK, FatalEvents, Loop, ParseArrayChunks;
  }

  /** A bulk string inside suspended arrays completed by the chunk: stored
      into the innermost array, it moves the path past itself, and the rest
      of the chunk resumes the arrays from there. */
  lemma {:induction false} BulkInnerSetup(st: State, pool: BufferPool.Pool, rs: seq<Reply>, j: nat, k: nat, chunk: seq<byte>, copy: BufferPool.BulkCopy, st2: State, c: Cut, path: seq<Level>)
    requires Inv(st, rs, j) && j > 0 && BufferPool.Valid(pool) && ChunkAt(rs, j, chunk) && k == j + |chunk|
    requires c == CutOf(rs[0], j, st.stringNumbers) && c.bulk.Some? && c.path != []
    requires st.totalChunkSize + |chunk| >= st.bigStrSize
    requires copy == ReassembleBulk(st, pool, st.bufferCache + [chunk])
    requires |st.arrayCache| > 0 && path == Bump(c.path)
    requires st2 == st.(offset := copy.offset, bigStrSize := 0, bufferCache := [], buffer := Some(chunk),
                        arrayCache := st.arrayCache[0 := st.arrayCache[0][st.arrayPos[0] := Filled(Bulk(copy.value))]],
                        arrayPos := st.arrayPos[0 := st.arrayPos[0] + 1])
    ensures ResumeFeeds(st2, chunk, rs, path, k) && ResumableFrames(st2.arrayCache, st2.arrayPos)
  {
    hide ReassembleBulk, Valid, Encode, CutOf, Decoded, Tail, Inv, Mid, FrameOf, BufferPool.Valid, BufferPool.Flatten;
    var sn := st.stringNumbers;
    var e := c.rest + c.bulk.value + 2;
    MidParts(st, rs, j);
    BulkInnerValue(st, pool, rs, j, chunk, k, copy, c, e);
    assert st2.arrayCache == CacheOf(path, sn) && st2.arrayPos == PosOf(path) by {
      StoreBulk(st.arrayCache, st.arrayPos, c.path, sn, Bulk(copy.value));
    }
    assert PathOK(path) && Root(path) == rs[0] && PathRest(path) == e by {
      BulkEndPath(rs[0], j, sn);
    }
    assert ResumableFrames(st2.arrayCache, st2.arrayPos) by {
      PathFrames(path, sn);
    }
    StoredFeeds(st2, chunk, rs, path, j, k, e);
  }

  /** The state left after storing a bulk string inside arrays resumes the
      stream just past the string's terminator. */
  lemma StoredFeeds(st2: State, chunk: seq<byte>, rs: seq<Reply>, path: seq<Level>, j: nat, k: nat, e: nat)
    requires PathOK(path) && |rs| > 0 && Root(path) == rs[0] && PathRest(path) == e
    requires st2.buffer == Some(chunk) && NoBulk(st2) && st2.offset == e - j && j < e <= k && k == j + |chunk|
    requires st2.arrayCache == CacheOf(path, st2.stringNumbers) && st2.arrayPos == PosOf(path)
    requires (forall i :: 0 <= i < |rs| ==> Encodable(rs[i])) && k <= |EncodeAll(rs)|
    requires chunk[e - j..] == EncodeAll(rs)[e..k]
    ensures ResumeFeeds(st2, chunk, rs, path, k)
  {
  }

  /** What the parser holds in the middle of the first reply, in terms of
      the cut there. */
  lemma MidParts(st: State, rs: seq<Reply>, j: nat)
    requires Inv(st, rs, j) && j > 0
    ensures Valid(st) && |rs| > 0 && (forall i :: 0 <= i < |rs| ==> Encodable(rs[i])) && 0 < j < |Encode(rs[0])| && st.buffer.Some?
    ensures var c := CutOf(rs[0], j, st.stringNumbers);
      && st.arrayCache == CacheOf(c.path, st.stringNumbers) && st.arrayPos == PosOf(c.path)
      && (c.bulk.Some? ==> st.bigStrSize == st.offset + c.bulk.value + 2)
  {
  }

  /** The payload a pending bulk string inside arrays reassembles to is the
      element the innermost array is reading, and the chunk continues the
      stream just past it. */
  lemma {:induction false} BulkInnerValue(st: State, pool: BufferPool.Pool, rs: seq<Reply>, j: nat, chunk: seq<byte>, k: nat, copy: BufferPool.BulkCopy, c: Cut, e: nat)
    requires Inv(st, rs, j) && j > 0 && BufferPool.Valid(pool) && ChunkAt(rs, j, chunk) && k == j + |chunk|
    requires c == CutOf(rs[0], j, st.stringNumbers) && c.bulk.Some? && c.path != [] && e == c.rest + c.bulk.value + 2
    requires st.totalChunkSize + |chunk| >= st.bigStrSize
    requires copy == ReassembleBulk(st, pool, st.bufferCache + [chunk])
    ensures c.path[0].pos < |c.path[0].elements|
    ensures Decoded(c.path[0].elements[c.path[0].pos], st.stringNumbers) == Bulk(copy.value)
    ensures copy.offset == e - j && j < e <= k && chunk[e - j..] == EncodeAll(rs)[e..k]
  {
    hide ReassembleBulk, Inv, Mid, Valid, CutOf, EncodeAll, BufferPool.Flatten, BufferPool.Valid;
    var sn := st.stringNumbers;
    MidParts(st, rs, j);
    BulkEndBytes(st, rs, j, chunk, e);
    PendingBulkBytes(rs[0], j, sn);
    assert copy.value == Encode(rs[0])[c.rest..c.rest + c.bulk.value];
  }

  /** Storing the element a suspended array is reading moves its path one
      element on. */
  lemma {:induction false} StoreBulk(cache: seq<seq<Slot>>, pos: seq<int>, path: seq<Level>, sn: bool, v: Reply)
    requires |path| >= 1 && path[0].pos < |path[0].elements|
    requires cache == CacheOf(path, sn) && pos == PosOf(path)
    requires Decoded(path[0].elements[path[0].pos], sn) == v
    ensures |cache| >= 1 && 0 <= pos[0] < |cache[0]|
    ensures cache[0 := cache[0][pos[0] := Filled(v)]] == CacheOf(Bump(path), sn)
    ensures pos[0 := pos[0] + 1] == PosOf(Bump(path))
  {
    BumpCache(path, sn);
  }

  /** The same, followed by the rest of `execute`: the reply is delivered
      once its arrays complete, and the loop scans on. */
  lemma {:induction false} ExecuteBulkInner(st: State, pool: BufferPool.Pool, rs: seq<Reply>, j: nat, k: nat, chunk: seq<byte>, out: Output)
    requires Inv(st, rs, j) && j > 0 && BufferPool.Valid(pool) && ChunkAt(rs, j, chunk) && k == j + |chunk|
    requires CutOf(rs[0], j, st.stringNumbers).bulk.Some? && CutOf(rs[0], j, st.stringNumbers).path != []
    requires st.totalChunkSize + |chunk| >= st.bigStrSize
    requires out == ExecuteBulkEnd(st, pool, chunk)
    ensures Streamed(AsRun(out), rs, k, st.stringNumbers)
  {
    hide Inv, Mid, CutOf, ExecuteBulkEnd, ReassembleBulk, ParseArrayChunks, Loop, Streamed, Feeds;
    var sn := st.stringNumbers;
    MidParts(st, rs, j);
    PendingList(st, chunk);
    var c := CutOf(rs[0], j, sn);
    var list := st.bufferCache + [chunk];
    var copy := ReassembleBulk(st, pool, list);
    var st2 := st.(offset := copy.offset, bigStrSize := 0, bufferCache := [], buffer := Some(chunk),
                   arrayCache := st.arrayCache[0 := st.arrayCache[0][st.arrayPos[0] := Filled(Bulk(copy.value))]],
                   arrayPos := st.arrayPos[0 := st.arrayPos[0] + 1]);
    var path := Bump(c.path);
    BulkInnerSetup(st, pool, rs, j, k, chunk, copy, st2, c, path);
    var s := ParseArrayChunks(st2, chunk);
    if k < |Encode(rs[0])| {
      BulkInnerWaits(st, pool, rs, k, chunk, copy, st2, path, s, out);
    } else {
      BulkInnerDone(st, pool, rs, k, chunk, copy, st2, path, s, out);
    }
  }

  /** The arrays stay suspended after the string is stored: nothing is
      delivered, and the parser holds the stream up to `k`. */
  lemma {:induction false} BulkInnerWaits(st: State, pool: BufferPool.Pool, rs: seq<Reply>, k: nat, chunk: seq<byte>, copy: BufferPool.BulkCopy, st2: State, path: seq<Level>, s: Step, out: Output)
    requires Valid(st) && BufferPool.Valid(pool) && |chunk| > 0 && st.buffer.Some? && st.bigStrSize != 0
    requires st.totalChunkSize + |chunk| >= st.bigStrSize && |st.arrayCache| > 0
    requires copy == ReassembleBulk(st, pool, st.bufferCache + [chunk])
    requires st2 == st.(offset := copy.offset, bigStrSize := 0, bufferCache := [], buffer := Some(chunk),
                        arrayCache := st.arrayCache[0 := st.arrayCache[0][st.arrayPos[0] := Filled(Bulk(copy.value))]],
                        arrayPos := st.arrayPos[0 := st.arrayPos[0] + 1])
    requires ResumeFeeds(st2, chunk, rs, path, k) && ResumableFrames(st2.arrayCache, st2.arrayPos) && |st2.arrayCache| >= 1
    requires Chunked(st2, chunk, s)
    requires out == ExecuteBulkEnd(st, pool, chunk)
    requires 0 < k < |Encode(rs[0])|
    ensures Streamed(AsRun(out), rs, k, st.stringNumbers)
  {
    hide ReassembleBulk, Loop, Streamed, Mid, ParseArrayChunks;
    ResumeStream(st2, chunk, rs, path, k, s);
    BulkEndSuspended(st, pool, chunk, copy, st2, s, out);
    CutStreamed(AsRun(out), rs, k, st.stringNumbers);
  }

  /** The arrays complete after the string is stored: `rs[0]` is delivered
      and the loop scans the rest of the chunk. */
  lemma {:induction false} BulkInnerDone(st: State, pool: BufferPool.Pool, rs: seq<Reply>, k: nat, chunk: seq<byte>, copy: BufferPool.BulkCopy, st2: State, path: seq<Level>, s: Step, out: Output)
    requires Valid(st) && BufferPool.Valid(pool) && |chunk| > 0 && st.buffer.Some? && st.bigStrSize != 0
    requires st.totalChunkSize + |chunk| >= st.bigStrSize && |st.arrayCache| > 0
    requires copy == ReassembleBulk(st, pool, st.bufferCache + [chunk])
    requires st2 == st.(offset := copy.offset, bigStrSize := 0, bufferCache := [], buffer := Some(chunk),
                        arrayCache := st.arrayCache[0 := st.arrayCache[0][st.arrayPos[0] := Filled(Bulk(copy.value))]],
                        arrayPos := st.arrayPos[0 := st.arrayPos[0] + 1])
    requires ResumeFeeds(st2, chunk, rs, path, k) && ResumableFrames(st2.arrayCache, st2.arrayPos) && |st2.arrayCache| >= 1
    requires Chunked(st2, chunk, s)
    requires out == ExecuteBulkEnd(st, pool, chunk)
    requires k >= |Encode(rs[0])|
    ensures Streamed(AsRun(out), rs, k, st.stringNumbers)
  {
    hide ReassembleBulk, Loop, Streamed, Feeds, ParseArrayChunks;
    ResumeStream(st2, chunk, rs, path, k, s);
    var k2 := k - |Encode(rs[0])|;
    LoopStreamed(s.st, chunk, rs[1..], k2);
    var run := Loop(s.st, chunk);
    BulkEndResumed(st, pool, chunk, copy, st2, s, run, out);
    LoopStreamReply(rs, k, k2, st.stringNumbers, AsRun(out), run);
  }

  /** What `execute` returns once a bulk string completed inside suspended
      arrays has been stored and the arrays stay suspended: their state,
      and no callback. */
  lemma BulkEndSuspended(st: State, pool: BufferPool.Pool, chunk: seq<byte>, copy: BufferPool.BulkCopy, st2: State, s: Step, out: Output)
    requires Valid(st) && BufferPool.Valid(pool) && |chunk| > 0 && st.buffer.Some? && st.bigStrSize != 0
    requires st.totalChunkSize + |chunk| >= st.bigStrSize && |st.arrayCache| > 0
    requires copy == ReassembleBulk(st, pool, st.bufferCache + [chunk])
    requires st2 == st.(offset := copy.offset, bigStrSize := 0, bufferCache := [], buffer := Some(chunk),
                        arrayCache := st.arrayCache[0 := st.arrayCache[0][st.arrayPos[0] := Filled(Bulk(copy.value))]],
                        arrayPos := st.arrayPos[0 := st.arrayPos[0] + 1])
    requires At(st2, chunk) && ResumableFrames(st2.arrayCache, st2.arrayPos) && Chunked(st2, chunk, s) && s.fatal == []
    requires s.out.Incomplete? && out == ExecuteBulkEnd(st, pool, chunk)
    ensures AsRun(out) == Run(s.st, [])
  {
    hide ReassembleBulk, Valid, BufferPool.Valid, OutputOK, FatalEvents, Loop, ParseArrayChunks;
  }

  /** The same when the arrays complete: their root is delivered, then the
      loop scans the rest of the chunk. */
  lemma {:induction false} BulkEndResumed(st: State, pool: BufferPool.Pool, chunk: seq<byte>, copy: BufferPool.BulkCopy, st2: State, s: Step, run: Run, out: Output)
    requires Valid(st) && BufferPool.Valid(pool) && |chunk| > 0 && st.buffer.Some? && st.bigStrSize != 0
    requires st.totalChunkSize + |chunk| >= st.bigStrSize && |st.arrayCache| > 0
    requires copy == ReassembleBulk(st, pool, st.bufferCache + [chunk])
    requires st2 == st.(offset := copy.offset, bigStrSize := 0, bufferCache := [], buffer := Some(chunk),
                        arrayCache := st.arrayCache[0 := st.arrayCache[0][st.arrayPos[0] := Filled(Bulk(copy.value))]],
                        arrayPos := st.arrayPos[0 := st.arrayPos[0] + 1])
    requires At(st2, chunk) && ResumableFrames(st2.arrayCache, st2.arrayPos) && Chunked(st2, chunk, s) && s.fatal == []
    requires s.out.Complete? && Looped(s.st, chunk, run) && out == ExecuteBulkEnd(st, pool, chunk)
    ensures AsRun(out) == Run(run.st, [OnReply(s.out.reply)] + run.events)
  {
    hide ReassembleBulk, Valid, BufferPool.Valid, OutputOK, FatalEvents, Loop, ParseArrayChunks;
  }

  /** One call of `execute` with the next bytes of the stream, whatever
      mode the parser is in: the replies the chunk completes are delivered,
      in order, and the parser holds the start of the next one. */
  lemma {:induction false} ExecuteStream(st: State, pool: BufferPool.Pool, rs: seq<Reply>, j: nat, k: nat, chunk: seq<byte>)
    requires Inv(st, rs, j) && BufferPool.Valid(pool) && ChunkAt(rs, j, chunk) && k == j + |chunk|
    ensures var out := Execute(st, pool, chunk);
      BufferPool.Valid(out.pool) && SameConfig(st, out.st)
    ensures Streamed(AsRun(Execute(st, pool, chunk)), rs, k, st.stringNumbers)
  {
    hide ExecuteTail, ExecuteBulkEnd, Loop, ParseArrayChunks, ReassembleBulk, Streamed, Advance, DeliveredAll, Encode, EncodeAll, CutOf, CacheOf, PosOf, BufferPool.Flatten;
    var out := Execute(st, pool, chunk);
    if j == 0 {
      ExecuteIdle(st, pool, rs, chunk, out);
    } else {
      var c := CutOf(rs[0], j, st.stringNumbers);
      if c.bulk.None? {
        if c.path == [] {
          ExecuteRolled(st, pool, rs, j, chunk, out);
        } else {
          assert out == ExecuteTail(st, pool, chunk);
          ExecuteResume(st, pool, rs, j, k, chunk, out);
        }
      } else if st.totalChunkSize + |chunk| < st.bigStrSize {
        ExecuteAppend(st, pool, rs, j, k, chunk, out);
      } else {
        assert out == ExecuteBulkEnd(st, pool, chunk);
        if c.path == [] {
          ExecuteBulkTop(st, pool, rs, j, k, chunk, out);
        } else {
          ExecuteBulkInner(st, pool, rs, j, k, chunk, out);
        }
      }
    }
  }
}
