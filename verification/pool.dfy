/** The process-wide scratch arena of parser.js (`bufferPool`, `bufferOffset`,
    `counter`, `notDecreased`, `interval`) and the reassembly of a bulk string
    whose bytes were delivered over several chunks. */
module BufferPool {
  import opened Decimal

  const MiB: nat := 1024 * 1024
  const INITIAL_SIZE: nat := 32 * 1024
  /** Above this size the shrink timer keeps trimming the arena. */
  const SHRINK_THRESHOLD: nat := 50 * 1024
  /** Reassemblies longer than this grow the arena by 2x instead of 3x. */
  const BIG_LENGTH: nat := 75 * MiB
  /** A write cursor above this is carried into a new arena as OFFSET_CAP. */
  const OFFSET_LIMIT: nat := 111 * MiB
  const OFFSET_CAP: nat := 50 * MiB

  /** `bufferPool`, `bufferOffset`, `counter`, `notDecreased`, and whether the
      shrink interval is armed. Fresh memory from `Buffer.allocUnsafe` is
      modelled as zeros; only bytes that were copied in are ever handed out. */
  datatype Pool = Pool(arena: seq<byte>, offset: nat, counter: int, notDecreased: int, timerRunning: bool)

  predicate Valid(p: Pool) {
    p.offset <= |p.arena|
  }

  function Initial(): (p: Pool)
    ensures Valid(p) && |p.arena| == INITIAL_SIZE && p.offset == 0 && !p.timerRunning
  {
    Pool(seq(INITIAL_SIZE, _ => 0), 0, 0, 0, false)
  }

  /** The size `resizeBuffer` allocates for `length` bytes when the arena is too small. */
  function GrownSize(length: nat, offset: nat): nat {
    length * (if length > BIG_LENGTH then 2 else 3) + (if offset > OFFSET_LIMIT then OFFSET_CAP else offset)
  }

  /** `resizeBuffer`: make room for `length` bytes at the write cursor. */
  function ResizeBuffer(pool: Pool, length: nat): (r: Pool)
    ensures Valid(r) && |r.arena| >= length + r.offset
    ensures |pool.arena| >= length + pool.offset ==> r == pool
    ensures |pool.arena| < length + pool.offset ==>
      && r.offset == 0
      && |r.arena| == GrownSize(length, pool.offset)
      && r.counter == pool.counter + 1
      && r.notDecreased == pool.notDecreased
      && r.timerRunning
  {
    if |pool.arena| < length + pool.offset then
      Pool(seq(GrownSize(length, pool.offset), _ => 0), 0, pool.counter + 1, pool.notDecreased, true)
    else
      pool
  }

  /** One tick of the `decreaseBufferPool` timer. Above the threshold it either
      drops a prefix of the arena (at least a tenth, and at least everything
      below the write cursor) or backs the counters off; at or below it, it
      disarms the timer and clears both counters. */
  function DecreaseTick(pool: Pool): (r: Pool)
    requires Valid(pool)
    ensures Valid(r) && |r.arena| <= |pool.arena|
    ensures |pool.arena| <= SHRINK_THRESHOLD ==>
      r == Pool(pool.arena, pool.offset, 0, 0, false)
    ensures |pool.arena| > SHRINK_THRESHOLD && (pool.counter == 1 || pool.notDecreased > pool.counter * 2) ==>
      && r.offset == 0
      && pool.offset <= |pool.arena| - |r.arena|
      && |pool.arena| / 10 <= |pool.arena| - |r.arena|
      && r.arena == pool.arena[|pool.arena| - |r.arena|..]
    ensures |pool.arena| > SHRINK_THRESHOLD && !(pool.counter == 1 || pool.notDecreased > pool.counter * 2) ==>
      r == pool.(counter := pool.counter - 1, notDecreased := pool.notDecreased + 1)
  {
    if |pool.arena| > SHRINK_THRESHOLD then
      if pool.counter == 1 || pool.notDecreased > pool.counter * 2 then
        var minSliceLen := |pool.arena| / 10;
        var sliceLength := if minSliceLen < pool.offset then pool.offset else minSliceLen;
        pool.(arena := pool.arena[sliceLength..], offset := 0)
      else
        pool.(counter := pool.counter - 1, notDecreased := pool.notDecreased + 1)
    else
      Pool(pool.arena, pool.offset, 0, 0, false)
  }

  /** The pool after `n` runs of the shrink timer's callback. */
  function Ticks(pool: Pool, n: nat): (r: Pool)
    requires Valid(pool)
    ensures Valid(r)
    decreases n
  {
    if n == 0 then pool else Ticks(DecreaseTick(pool), n - 1)
  }

  /** The timer has stopped with the arena at most the shrink threshold,
      both counters cleared, and only bytes from the front of `from`'s arena
      dropped. */
  predicate Settled(from: Pool, to: Pool) {
    && |to.arena| <= SHRINK_THRESHOLD && !to.timerRunning && to.counter == 0 && to.notDecreased == 0
    && |to.arena| <= |from.arena| && to.arena == from.arena[|from.arena| - |to.arena|..]
  }

  /** How far a pool above the threshold is from its next shrinking tick:
      a backing-off tick brings `notDecreased > counter * 2` three steps
      closer. */
  function Backoff(pool: Pool): nat {
    if pool.notDecreased <= pool.counter * 2 then pool.counter * 2 - pool.notDecreased + 1 else 0
  }

  /** How many ticks until the shrink timer clears itself: it always does. */
  function StopTicks(pool: Pool): (n: nat)
    requires Valid(pool)
    ensures Settled(pool, Ticks(pool, n))
    decreases |pool.arena|, Backoff(pool)
  {
    if |pool.arena| <= SHRINK_THRESHOLD then
      SettledAtOnce(pool);
      1
    else
      TickProgress(pool);
      var m := StopTicks(DecreaseTick(pool));
      SettledLater(pool, m);
      m + 1
  }

  /** At or below the threshold, the next tick stops the timer. */
  lemma {:induction false} SettledAtOnce(pool: Pool)
    requires Valid(pool) && |pool.arena| <= SHRINK_THRESHOLD
    ensures Settled(pool, Ticks(pool, 1))
  {
    assert Ticks(pool, 1) == DecreaseTick(pool);
    assert pool.arena[|pool.arena| - |pool.arena|..] == pool.arena;
  }

  /** Settling after the first tick settles from before it. */
  lemma {:induction false} SettledLater(pool: Pool, m: nat)
    requires Valid(pool) && |pool.arena| > SHRINK_THRESHOLD
    requires Settled(DecreaseTick(pool), Ticks(DecreaseTick(pool), m))
    ensures Settled(pool, Ticks(pool, m + 1))
  {
    hide DecreaseTick;
    var next := DecreaseTick(pool);
    var r := Ticks(next, m);
    assert Ticks(pool, m + 1) == r;
    TickProgress(pool);
    hide Ticks;
    SuffixOfSuffix(pool.arena, next.arena, r.arena);
  }

  /** A tick above the threshold drops bytes from the front of the arena, at
      least a tenth of it when it shrinks, or else backs off. */
  lemma {:induction false} TickProgress(pool: Pool)
    requires Valid(pool) && |pool.arena| > SHRINK_THRESHOLD
    ensures var next := DecreaseTick(pool);
      && |next.arena| <= |pool.arena| && next.arena == pool.arena[|pool.arena| - |next.arena|..]
      && (|next.arena| < |pool.arena| || Backoff(next) < Backoff(pool))
  {
  }

  /** A suffix of a suffix is a suffix. */
  lemma {:induction false} SuffixOfSuffix(a: seq<byte>, b: seq<byte>, c: seq<byte>)
    requires |b| <= |a| && b == a[|a| - |b|..] && |c| <= |b| && c == b[|b| - |c|..]
    ensures c == a[|a| - |c|..]
  {
  }

  /** The bytes of a list of chunks, in order. */
  function Flatten(list: seq<seq<byte>>): seq<byte> {
    if |list| == 0 then [] else list[0] + Flatten(list[1..])
  }

  lemma {:induction false} FlattenSplit(list: seq<seq<byte>>, k: nat)
    requires k <= |list|
    ensures Flatten(list) == Flatten(list[..k]) + Flatten(list[k..])
    decreases k
  {
    if k == 0 {
      assert list[..0] == [] && list[0..] == list;
    } else {
      FlattenSplit(list[1..], k - 1);
      assert list[1..][..k - 1] == list[1..k];
      assert list[1..][k - 1..] == list[k..];
      assert list[..k][1..] == list[1..k];
    }
  }

  lemma {:induction false} FlattenOne(c: seq<byte>)
    ensures Flatten([c]) == c
  {
    assert [c][1..] == [];
  }

  /** What the arena and parser state say about a bulk string still being
      reassembled: `list` holds every chunk since the one holding the length
      line, the last of them reaching `bigStrSize`; `totalChunkSize` counts all
      chunks but the last; the data starts at `oldOffset` of the first chunk. */
  predicate PendingBulk(list: seq<seq<byte>>, oldOffset: int, bigStrSize: int, totalChunkSize: int) {
    && |list| >= 2
    && totalChunkSize == |Flatten(list[..|list| - 1])|
    && totalChunkSize < bigStrSize <= totalChunkSize + |list[|list| - 1]|
    && 0 <= oldOffset <= |list[0]|
    && oldOffset + 2 <= bigStrSize
    && forall k :: 1 <= k < |list| ==> |list[k]| > 0
  }

  /** How many chunks the data touches: all of them, or all but the last
      when the last chunk holds only terminator bytes (`offset <= 2`). */
  function DataChunks(list: seq<seq<byte>>, bigStrSize: int, totalChunkSize: int): int {
    if bigStrSize - totalChunkSize <= 2 then |list| - 1 else |list|
  }

  /** Where the data ends in chunk `DataChunks - 1`, plus the two terminator bytes. */
  function DataEnd(list: seq<seq<byte>>, bigStrSize: int, totalChunkSize: int): int
    requires |list| >= 2
  {
    var offset := bigStrSize - totalChunkSize;
    if offset <= 2 then |list[|list| - 2]| + offset else offset
  }

  /** The pieces `concatBulkString` and `concatBulkBuffer` take from the chunk
      list: the first chunk from `oldOffset`, whole middle chunks, and the data
      prefix of the chunk where the data ends. When the last chunk holds only
      terminator bytes and there are just two chunks, the first chunk holds
      all the data. */
  function BulkFragments(list: seq<seq<byte>>, oldOffset: int, bigStrSize: int, totalChunkSize: int): (r: seq<seq<byte>>)
    requires PendingBulk(list, oldOffset, bigStrSize, totalChunkSize)
    ensures |r| >= 1
  {
    var offset := bigStrSize - totalChunkSize;
    if offset <= 2 && |list| == 2 then
      FlattenSplit(list, 1);
      FlattenOne(list[0]);
      [list[0][oldOffset..|list[0]| + offset - 2]]
    else
      var chunks := DataChunks(list, bigStrSize, totalChunkSize);
      var end := DataEnd(list, bigStrSize, totalChunkSize);
      DataEndBounds(list, oldOffset, bigStrSize, totalChunkSize);
      [list[0][oldOffset..]] + list[1..chunks - 1] + [list[chunks - 1][..end - 2]]
  }

  /** Flattening around one chosen chunk. */
  lemma {:induction false} FlattenAt(list: seq<seq<byte>>, k: nat)
    requires k < |list|
    ensures Flatten(list) == Flatten(list[..k]) + list[k] + Flatten(list[k + 1..])
  {
    FlattenSplit(list, k);
    assert list[k..][1..] == list[k + 1..];
  }

  /** `list` without its last chunk flattens to all but the last chunk's bytes. */
  lemma {:induction false} FlattenLast(list: seq<seq<byte>>)
    requires |list| >= 1
    ensures Flatten(list) == Flatten(list[..|list| - 1]) + list[|list| - 1]
  {
    FlattenAt(list, |list| - 1);
    assert list[|list|..] == [];
  }

  /** The slice of `x + m + y + z` that starts inside `x` and ends inside `y`. */
  lemma {:induction false} SliceFour(x: seq<byte>, m: seq<byte>, y: seq<byte>, z: seq<byte>, i: int, e: int)
    requires 0 <= i <= |x| && 0 <= e <= |y|
    ensures (x + m + y + z)[i..|x| + |m| + e] == x[i..] + m + y[..e]
  {
    var all := x + m + y + z;
    assert all[i..|x| + |m| + e] == all[i..|x|] + all[|x|..|x| + |m|] + all[|x| + |m|..|x| + |m| + e];
  }

  lemma {:induction false} PendingBulkLength(list: seq<seq<byte>>, oldOffset: int, bigStrSize: int, totalChunkSize: int)
    requires PendingBulk(list, oldOffset, bigStrSize, totalChunkSize)
    ensures |Flatten(list)| == totalChunkSize + |list[|list| - 1]|
    ensures bigStrSize - 2 <= |Flatten(list)|
  {
    FlattenLast(list);
  }

  /** The reassembled bulk string is exactly the stream's bytes between the
      end of the length line and the terminator: `bigStrSize - oldOffset - 2`
      bytes. */
  lemma {:induction false} BulkFragmentsExact(list: seq<seq<byte>>, oldOffset: int, bigStrSize: int, totalChunkSize: int)
    requires PendingBulk(list, oldOffset, bigStrSize, totalChunkSize)
    ensures bigStrSize - 2 <= |Flatten(list)|
    ensures Flatten(BulkFragments(list, oldOffset, bigStrSize, totalChunkSize)) == Flatten(list)[oldOffset..bigStrSize - 2]
  {
    PendingBulkLength(list, oldOffset, bigStrSize, totalChunkSize);
    if bigStrSize - totalChunkSize <= 2 && |list| == 2 {
      FragmentsInFirst(list, oldOffset, bigStrSize, totalChunkSize);
    } else {
      FragmentsSpread(list, oldOffset, bigStrSize, totalChunkSize);
    }
  }

  /** Two chunks, the second holding only terminator bytes: the data is a
      slice of the first. */
  lemma {:induction false} FragmentsInFirst(list: seq<seq<byte>>, oldOffset: int, bigStrSize: int, totalChunkSize: int)
    requires PendingBulk(list, oldOffset, bigStrSize, totalChunkSize)
    requires bigStrSize - totalChunkSize <= 2 && |list| == 2
    ensures bigStrSize - 2 <= |Flatten(list)|
    ensures Flatten(BulkFragments(list, oldOffset, bigStrSize, totalChunkSize)) == Flatten(list)[oldOffset..bigStrSize - 2]
  {
    FlattenLast(list);
    assert list[..1] == [list[0]];
    FlattenOne(list[0]);
    var frag := list[0][oldOffset..|list[0]| + bigStrSize - totalChunkSize - 2];
    assert BulkFragments(list, oldOffset, bigStrSize, totalChunkSize) == [frag];
    FlattenOne(frag);
    hide Flatten, BulkFragments;
    assert Flatten(list) == list[0] + list[1];
    assert (list[0] + list[1])[oldOffset..bigStrSize - 2] == frag;
  }

  /** The data spread over several chunks: the first from the offset, whole
      middle chunks, and the data part of the chunk where it ends. */
  lemma {:induction false} FragmentsSpread(list: seq<seq<byte>>, oldOffset: int, bigStrSize: int, totalChunkSize: int)
    requires PendingBulk(list, oldOffset, bigStrSize, totalChunkSize)
    requires !(bigStrSize - totalChunkSize <= 2 && |list| == 2)
    ensures bigStrSize - 2 <= |Flatten(list)|
    ensures Flatten(BulkFragments(list, oldOffset, bigStrSize, totalChunkSize)) == Flatten(list)[oldOffset..bigStrSize - 2]
  {
    hide PendingBulk, Flatten, BulkFragments, DataChunks, DataEnd;
    FragmentsShape(list, oldOffset, bigStrSize, totalChunkSize);
    StreamAroundDataEnd(list, oldOffset, bigStrSize, totalChunkSize);
    var chunks := DataChunks(list, bigStrSize, totalChunkSize);
    var end := DataEnd(list, bigStrSize, totalChunkSize);
    FlattenThree(list[0][oldOffset..], list[1..chunks - 1], list[chunks - 1][..end - 2]);
  }


  /** The pieces when the data spreads over several chunks. */
  lemma {:induction false} FragmentsShape(list: seq<seq<byte>>, oldOffset: int, bigStrSize: int, totalChunkSize: int)
    requires PendingBulk(list, oldOffset, bigStrSize, totalChunkSize)
    requires !(bigStrSize - totalChunkSize <= 2 && |list| == 2)
    ensures 0 <= oldOffset <= |list[0]| && 2 <= DataChunks(list, bigStrSize, totalChunkSize) <= |list|
    ensures 2 <= DataEnd(list, bigStrSize, totalChunkSize) <= |list[DataChunks(list, bigStrSize, totalChunkSize) - 1]| + 2
    ensures var chunks := DataChunks(list, bigStrSize, totalChunkSize);
      BulkFragments(list, oldOffset, bigStrSize, totalChunkSize) ==
        [list[0][oldOffset..]] + list[1..chunks - 1] + [list[chunks - 1][..DataEnd(list, bigStrSize, totalChunkSize) - 2]]
  {
    DataEndBounds(list, oldOffset, bigStrSize, totalChunkSize);
  }


  lemma {:induction false} FlattenThree(first: seq<byte>, mid: seq<seq<byte>>, last: seq<byte>)
    ensures Flatten([first] + mid + [last]) == first + Flatten(mid) + last
  {
    var frags := [first] + mid + [last];
    FlattenLast(frags);
    assert frags[..|frags| - 1] == [first] + mid;
    assert ([first] + mid)[1..] == mid;
  }

  /** The chunk where the data ends, and the offset in it past the data. */
  lemma {:induction false} DataEndBounds(list: seq<seq<byte>>, oldOffset: int, bigStrSize: int, totalChunkSize: int)
    requires PendingBulk(list, oldOffset, bigStrSize, totalChunkSize)
    requires !(bigStrSize - totalChunkSize <= 2 && |list| == 2)
    ensures 2 <= DataChunks(list, bigStrSize, totalChunkSize) <= |list|
    ensures 2 <= DataEnd(list, bigStrSize, totalChunkSize) <= |list[DataChunks(list, bigStrSize, totalChunkSize) - 1]| + 2
    ensures |Flatten(list[..DataChunks(list, bigStrSize, totalChunkSize) - 1])| + DataEnd(list, bigStrSize, totalChunkSize) == bigStrSize
  {
    if bigStrSize - totalChunkSize <= 2 {
      FlattenLast(list[..|list| - 1]);
      assert list[..|list| - 1][..|list| - 2] == list[..|list| - 2];
    }
  }

  lemma {:induction false} StreamAroundDataEnd(list: seq<seq<byte>>, oldOffset: int, bigStrSize: int, totalChunkSize: int)
    requires PendingBulk(list, oldOffset, bigStrSize, totalChunkSize)
    requires !(bigStrSize - totalChunkSize <= 2 && |list| == 2)
    ensures DataChunks(list, bigStrSize, totalChunkSize) >= 2
    ensures DataEnd(list, bigStrSize, totalChunkSize) - 2 <= |list[DataChunks(list, bigStrSize, totalChunkSize) - 1]|
    ensures bigStrSize - 2 <= |Flatten(list)|
    ensures
      var chunks := DataChunks(list, bigStrSize, totalChunkSize);
      Flatten(list)[oldOffset..bigStrSize - 2] ==
        list[0][oldOffset..] + Flatten(list[1..chunks - 1]) + list[chunks - 1][..DataEnd(list, bigStrSize, totalChunkSize) - 2]
  {
    hide DataChunks, DataEnd, Flatten;
    PendingBulkLength(list, oldOffset, bigStrSize, totalChunkSize);
    DataEndBounds(list, oldOffset, bigStrSize, totalChunkSize);
    FlattenSlice(list, oldOffset, DataChunks(list, bigStrSize, totalChunkSize), DataEnd(list, bigStrSize, totalChunkSize) - 2);
  }

  /** The stream from offset `o` of the first chunk up to offset `e` of chunk
      `chunks - 1`. */
  lemma {:induction false} FlattenSlice(list: seq<seq<byte>>, o: int, chunks: int, e: int)
    requires 2 <= chunks <= |list| && 0 <= o <= |list[0]| && 0 <= e <= |list[chunks - 1]|
    ensures |Flatten(list[..chunks - 1])| + e <= |Flatten(list)|
    ensures Flatten(list)[o..|Flatten(list[..chunks - 1])| + e] ==
      list[0][o..] + Flatten(list[1..chunks - 1]) + list[chunks - 1][..e]
  {
    var before := list[..chunks - 1];
    var mid := list[1..chunks - 1];
    FlattenAt(list, chunks - 1);
    assert Flatten(before) == list[0] + Flatten(mid) by {
      assert before[1..] == mid;
    }
    SliceFour(list[0], Flatten(mid), list[chunks - 1], Flatten(list[chunks..]), o, e);
  }

  /** `target` with `src` written over it at position `at`. */
  function CopyInto(target: seq<byte>, at: nat, src: seq<byte>): (r: seq<byte>)
    requires at + |src| <= |target|
    ensures |r| == |target|
    ensures r[..at] == target[..at] && r[at..at + |src|] == src && r[at + |src|..] == target[at + |src|..]
  {
    target[..at] + src + target[at + |src|..]
  }

  /** The copy loop of `concatBulkBuffer`: each fragment written right after
      the previous one. */
  function CopyFragments(arena: seq<byte>, at: nat, frags: seq<seq<byte>>): (r: seq<byte>)
    requires at + |Flatten(frags)| <= |arena|
    ensures |r| == |arena|
    ensures r[..at] == arena[..at]
    ensures r[at..at + |Flatten(frags)|] == Flatten(frags)
    ensures r[at + |Flatten(frags)|..] == arena[at + |Flatten(frags)|..]
    decreases |frags|
  {
    if |frags| == 0 then arena
    else
      var step := CopyInto(arena, at, frags[0]);
      var r := CopyFragments(step, at + |frags[0]|, frags[1..]);
      assert r[at..at + |Flatten(frags)|] == r[at..at + |frags[0]|] + r[at + |frags[0]|..at + |Flatten(frags)|];
      r
  }

  /** The result of reassembling a bulk string: its bytes, the pool after the
      copy, and the parser offset just past the terminator in the last chunk. */
  datatype BulkCopy = BulkCopy(value: seq<byte>, pool: Pool, offset: int)

  /** `concatBulkBuffer`: the bulk string's bytes as a view into the arena
      (or, when the data ends in the first chunk, a slice of it). */
  function ConcatBulkBuffer(pool: Pool, list: seq<seq<byte>>, oldOffset: int, bigStrSize: int, totalChunkSize: int): (r: BulkCopy)
    requires Valid(pool)
    requires PendingBulk(list, oldOffset, bigStrSize, totalChunkSize)
    ensures Valid(r.pool)
    ensures bigStrSize - 2 <= |Flatten(list)|
    ensures r.value == Flatten(list)[oldOffset..bigStrSize - 2]
    ensures |r.value| == bigStrSize - oldOffset - 2
    ensures r.offset == bigStrSize - totalChunkSize
    ensures r.pool == pool || (|r.value| <= r.pool.offset && r.value == r.pool.arena[r.pool.offset - |r.value|..r.pool.offset])
    ensures |pool.arena| >= |r.value| + pool.offset ==>
      |r.pool.arena| == |pool.arena| && r.pool.arena[..pool.offset] == pool.arena[..pool.offset]
  {
    var length := bigStrSize - oldOffset - 2;
    var offset := bigStrSize - totalChunkSize;
    var frags := BulkFragments(list, oldOffset, bigStrSize, totalChunkSize);
    BulkFragmentsExact(list, oldOffset, bigStrSize, totalChunkSize);
    if offset <= 2 && |list| == 2 then
      FlattenOne(frags[0]);
      BulkCopy(frags[0], pool, offset)
    else
      var grown := ResizeBuffer(pool, length);
      var start := grown.offset;
      var arena := CopyFragments(grown.arena, start, frags);
      var end := start + length;
      BulkCopy(arena[start..end], grown.(arena := arena, offset := end), offset)
  }

  /** The bytes `concatBulkString` hands to the UTF-8 decoder, fragment by
      fragment; the arena is not used. */
  function ConcatBulkString(list: seq<seq<byte>>, oldOffset: int, bigStrSize: int, totalChunkSize: int): (r: seq<byte>)
    requires PendingBulk(list, oldOffset, bigStrSize, totalChunkSize)
    ensures bigStrSize - 2 <= |Flatten(list)|
    ensures r == Flatten(list)[oldOffset..bigStrSize - 2]
    ensures |r| == bigStrSize - oldOffset - 2
  {
    BulkFragmentsExact(list, oldOffset, bigStrSize, totalChunkSize);
    Flatten(BulkFragments(list, oldOffset, bigStrSize, totalChunkSize))
  }
}
