/** The `JavascriptRedisParser` state machine of parser.js: the type
    dispatcher, the bulk-string and array parsers, the suspended-array stack
    (`arrayCache`/`arrayPos`) and `execute`, as pure functions from a parser
    state to the next state and the callbacks fired. */
module RedisParser {
  import opened Decimal
  import opened Resp
  import opened Scanners
  import BufferPool

  /** One slot of an array under construction: `new Array(n)` starts as holes. */
  datatype Slot = Hole | Filled(reply: Reply)

  /** The fields of a `JavascriptRedisParser` instance. `buffer` is `None` when
      the source's `buffer` is `null`. `arrayCache[k]` is a suspended array and
      `arrayPos[k]` the next slot to fill in it; index 0 is the innermost one.
      `hasFatalHandler` records whether a `returnFatalError` option was given. */
  datatype State = State(
    buffer: Option<seq<byte>>,
    offset: int,
    bigStrSize: int,
    totalChunkSize: int,
    bufferCache: seq<seq<byte>>,
    arrayCache: seq<seq<Slot>>,
    arrayPos: seq<int>,
    returnBuffers: bool,
    stringNumbers: bool,
    hasFatalHandler: bool)

  /** What a value parser returns: a value (possibly `Nil`) or `undefined`. */
  datatype Outcome = Complete(reply: Reply) | Incomplete

  /** A parser's outcome, the state it leaves, and the fatal protocol error it
      raised through `handleError`, if any. */
  datatype Step = Step(out: Outcome, st: State, fatal: seq<Failure>)

  /** Slots `0..i` of `arr` are filled. */
  predicate FilledUpTo(arr: seq<Slot>, i: int) {
    0 <= i <= |arr| && forall k :: 0 <= k < i ==> arr[k].Filled?
  }

  /** The two stacks have equal height, and every suspended array has its
      slots filled up to its position, which is a slot still to fill. */
  predicate Frames(cache: seq<seq<Slot>>, pos: seq<int>) {
    && |cache| == |pos|
    && forall k :: 0 <= k < |cache| ==> pos[k] < |cache[k]| && FilledUpTo(cache[k], pos[k])
  }

  /** As `Frames`, except that the innermost array may be full: the state
      right after a reassembled bulk string was stored into it. */
  predicate ResumableFrames(cache: seq<seq<Slot>>, pos: seq<int>) {
    && |cache| == |pos|
    && (forall k :: 0 <= k < |cache| ==> FilledUpTo(cache[k], pos[k]))
    && (forall k :: 1 <= k < |cache| ==> pos[k] < |cache[k]|)
  }

  predicate NoBulk(st: State) {
    st.bufferCache == [] && st.bigStrSize == 0
  }

  /** The bookkeeping `parseBulkString` leaves when the string runs past the
      end of `buf`: the absolute end of string plus terminator, and the bytes
      buffered so far. */
  predicate BulkTarget(st: State, buf: seq<byte>) {
    && st.totalChunkSize == |buf| < st.bigStrSize
    && 0 <= st.offset <= |buf|
    && st.offset + 2 <= st.bigStrSize
  }

  predicate At(st: State, buf: seq<byte>) {
    st.buffer == Some(buf) && 0 <= st.offset <= |buf|
  }

  predicate SameConfig(a: State, b: State) {
    a.returnBuffers == b.returnBuffers && a.stringNumbers == b.stringNumbers && a.hasFatalHandler == b.hasFatalHandler
  }

  /** `b`'s stacks extend `a`'s: frames are only pushed. */
  predicate Grows(a: State, b: State) {
    a.arrayCache <= b.arrayCache && a.arrayPos <= b.arrayPos
  }

  /** What every value parser guarantees about the state it leaves. On a
      value, only the offset moved, and not backwards. On `undefined` without a
      fatal error, the buffer is kept, the offset did not move back, and the
      stacks only grew. A fatal error drops the buffer. A pending bulk string
      is the only way the bulk bookkeeping changes. */
  predicate StepOK(st: State, buf: seq<byte>, r: Step) {
    && Frames(r.st.arrayCache, r.st.arrayPos)
    && SameConfig(st, r.st)
    && (r.out.Complete? ==> r.fatal == [] && r.st == st.(offset := r.st.offset) && st.offset <= r.st.offset <= |buf|)
    && (r.out.Incomplete? && r.fatal == [] ==>
          r.st.buffer == Some(buf) && st.offset <= r.st.offset <= |buf| && Grows(st, r.st))
    && (r.fatal != [] ==>
          r.out.Incomplete? && |r.fatal| == 1 && r.fatal[0].ParserError? && r.st.buffer.None? && NoBulk(r.st) && Grows(st, r.st))
    && (NoBulk(r.st) || (r.out.Incomplete? && r.fatal == [] && r.st.bufferCache == [buf] && BulkTarget(r.st, buf)))
  }

  /** The value kinds each type byte can produce. */
  predicate MatchesTag(t: byte, stringNumbers: bool, reply: Reply) {
    && (t == BULK_TAG ==> reply.Bulk? || reply.Nil?)
    && (t == SIMPLE_TAG ==> reply.Simple?)
    && (t == ARRAY_TAG ==> reply.Array? || reply.Nil?)
    && (t == INTEGER_TAG ==> if stringNumbers then reply.IntegerText? else reply.Integer?)
    && (t == ERROR_TAG ==> reply.Error?)
  }

  predicate KnownTag(t: byte) {
    t == BULK_TAG || t == SIMPLE_TAG || t == ARRAY_TAG || t == INTEGER_TAG || t == ERROR_TAG
  }

  function Push(st: State, arr: seq<Slot>, i: int): State {
    st.(arrayCache := st.arrayCache + [arr], arrayPos := st.arrayPos + [i])
  }

  lemma FramesPush(cache: seq<seq<Slot>>, pos: seq<int>, arr: seq<Slot>, i: int)
    requires Frames(cache, pos) && FilledUpTo(arr, i) && i < |arr|
    ensures Frames(cache + [arr], pos + [i])
  {
    var c := cache + [arr];
    var p := pos + [i];
    forall k | 0 <= k < |c|
      ensures p[k] < |c[k]| && FilledUpTo(c[k], p[k])
    {
      if k < |cache| {
        assert c[k] == cache[k] && p[k] == pos[k];
      }
    }
  }

  /** The pushed frame is on top of both stacks. */
  lemma PushTop(st: State, arr: seq<Slot>, i: int)
    ensures |Push(st, arr, i).arrayCache| == |st.arrayCache| + 1 && |Push(st, arr, i).arrayPos| == |st.arrayPos| + 1
    ensures Push(st, arr, i).arrayCache[|st.arrayCache|] == arr && Push(st, arr, i).arrayPos[|st.arrayPos|] == i
  {
  }

  lemma GrowsPush(a: State, b: State, arr: seq<Slot>, i: int)
    requires Grows(a, b)
    ensures Grows(a, Push(b, arr, i))
  {
    assert (b.arrayCache + [arr])[..|a.arrayCache|] == b.arrayCache[..|a.arrayCache|];
    assert (b.arrayPos + [i])[..|a.arrayPos|] == b.arrayPos[..|a.arrayPos|];
  }

  /** The values of a completely filled array. */
  function Values(arr: seq<Slot>): (r: seq<Reply>)
    requires FilledUpTo(arr, |arr|)
    ensures |r| == |arr| && forall k :: 0 <= k < |arr| ==> arr[k] == Filled(r[k])
  {
    seq(|arr|, k requires 0 <= k < |arr| => arr[k].reply)
  }

  /** `parseBulkString`. */
  function ParseBulkString(st: State, buf: seq<byte>): (r: Step)
    requires At(st, buf) && Frames(st.arrayCache, st.arrayPos) && NoBulk(st)
    ensures StepOK(st, buf, r) && r.fatal == []
    ensures ParseLength(buf, st.offset).NeedMore? ==> r == Step(Incomplete, st, [])
    ensures ParseLength(buf, st.offset).Field? ==>
      var len := ParseLength(buf, st.offset).value;
      var next := ParseLength(buf, st.offset).next;
      && (len < 0 ==> r == Step(Complete(Nil), st.(offset := next), []))
      && (len >= 0 && next + len + 2 <= |buf| ==>
            r == Step(Complete(Bulk(buf[next..next + len])), st.(offset := next + len + 2), []))
      && (len >= 0 && next + len + 2 > |buf| ==>
            r == Step(Incomplete, st.(offset := next, bigStrSize := next + len + 2, totalChunkSize := |buf|, bufferCache := [buf]), []))
  {
    match ParseLength(buf, st.offset)
    case NeedMore => Step(Incomplete, st, [])
    case Field(len, next) =>
      if len < 0 then Step(Complete(Nil), st.(offset := next), [])
      else if next + len + 2 > |buf| then
        Step(Incomplete, st.(offset := next, bigStrSize := next + len + 2, totalChunkSize := |buf|,
                             bufferCache := st.bufferCache + [buf]), [])
      else Step(Complete(Bulk(buf[next..next + len])), st.(offset := next + len + 2), [])
  }

  /** A terminator-delimited field turned into a value. */
  function FieldStep<T>(st: State, buf: seq<byte>, f: Field<T>, mk: T -> Reply): (r: Step)
    requires At(st, buf) && Frames(st.arrayCache, st.arrayPos) && NoBulk(st)
    requires f.Field? ==> st.offset + 2 <= f.next <= |buf|
    ensures StepOK(st, buf, r) && r.fatal == []
    ensures r.out.Complete? <==> f.Field?
    ensures r.out.Complete? ==> r.out.reply == mk(f.value) && r.st.offset == f.next
  {
    match f
    case NeedMore => Step(Incomplete, st, [])
    case Field(v, next) => Step(Complete(mk(v)), st.(offset := next), [])
  }

  /** `handleError`: drop the buffer and report the offending type byte. */
  function HandleError(st: State, buf: seq<byte>, t: byte): (r: Step)
    requires At(st, buf) && Frames(st.arrayCache, st.arrayPos) && NoBulk(st)
    ensures StepOK(st, buf, r)
    ensures r.st.buffer.None? && r.fatal == [ParserError(t, buf, st.offset)]
  {
    Step(Incomplete, st.(buffer := None), [ParserError(t, buf, st.offset)])
  }

  /** `parseType`: dispatch on the type byte just read; `st.offset` is past it. */
  function ParseType(st: State, buf: seq<byte>, t: byte): (r: Step)
    requires At(st, buf) && Frames(st.arrayCache, st.arrayPos) && NoBulk(st)
    ensures StepOK(st, buf, r)
    ensures r.out.Complete? ==> st.offset + 2 <= r.st.offset
    ensures r.out.Complete? ==> MatchesTag(t, st.stringNumbers, r.out.reply)
    ensures !KnownTag(t) ==> r == Step(Incomplete, st.(buffer := None), [ParserError(t, buf, st.offset)])
    ensures r.fatal != [] ==> t == ARRAY_TAG || !KnownTag(t)
    decreases |buf| - st.offset + 1, 1
  {
    if t == BULK_TAG then ParseBulkString(st, buf)
    else if t == SIMPLE_TAG then FieldStep(st, buf, ParseSimpleString(buf, st.offset), b => Simple(b))
    else if t == ARRAY_TAG then ParseArray(st, buf)
    else if t == INTEGER_TAG then
      if st.stringNumbers then FieldStep(st, buf, ParseStringNumbers(buf, st.offset), s => IntegerText(s))
      else FieldStep(st, buf, ParseSimpleNumbers(buf, st.offset), n => Integer(n))
    else if t == ERROR_TAG then FieldStep(st, buf, ParseSimpleString(buf, st.offset), b => Error(b))
    else HandleError(st, buf, t)
  }

  /** `parseArray`: the count line, then the elements. */
  function ParseArray(st: State, buf: seq<byte>): (r: Step)
    requires At(st, buf) && Frames(st.arrayCache, st.arrayPos) && NoBulk(st)
    ensures StepOK(st, buf, r)
    ensures r.out.Complete? ==> r.out.reply.Array? || r.out.reply.Nil?
    ensures ParseLength(buf, st.offset).NeedMore? ==> r == Step(Incomplete, st, [])
    ensures ParseLength(buf, st.offset).Field? && ParseLength(buf, st.offset).value < 0 ==>
      r == Step(Complete(Nil), st.(offset := ParseLength(buf, st.offset).next), [])
    ensures r.out.Complete? && r.out.reply.Array? ==>
      ParseLength(buf, st.offset).Field? && |r.out.reply.elements| == ParseLength(buf, st.offset).value
    decreases |buf| - st.offset + 1, 0
  {
    match ParseLength(buf, st.offset)
    case NeedMore => Step(Incomplete, st, [])
    case Field(len, next) =>
      if len < 0 then Step(Complete(Nil), st.(offset := next), [])
      else ParseElements(st.(offset := next), buf, seq(len, _ => Hole), 0)
  }

  /** `parseArrayElements`: fill slots `i..` from the buffer; on `undefined`,
      suspend the array by pushing it with its position. The offset is rolled
      back to the element's type byte only when nothing else recorded progress
      (no suspended array and no buffered chunk). */
  function ParseElements(st: State, buf: seq<byte>, arr: seq<Slot>, i: int): (r: Step)
    requires At(st, buf) && Frames(st.arrayCache, st.arrayPos) && NoBulk(st)
    requires FilledUpTo(arr, i)
    ensures StepOK(st, buf, r)
    ensures r.out.Complete? ==>
      && r.out.reply.Array? && |r.out.reply.elements| == |arr|
      && forall k :: 0 <= k < i ==> arr[k] == Filled(r.out.reply.elements[k])
    ensures r.out.Incomplete? ==> |r.st.arrayCache| > |st.arrayCache|
    decreases |buf| - st.offset + 1, 2
  {
    if i >= |arr| then
      CompleteOK(st, buf, Array(Values(arr)));
      Step(Complete(Array(Values(arr))), st, [])
    else if st.offset >= |buf| then
      PushedOK(st, buf, arr, i);
      Step(Incomplete, Push(st, arr, i), [])
    else
      ParseElementAt(st, buf, arr, i)
  }

  /** Slot `i` from the type byte at the offset: a whole element is stored
      and the rest follow; an interrupted one suspends the array. */
  function ParseElementAt(st: State, buf: seq<byte>, arr: seq<Slot>, i: int): (r: Step)
    requires At(st, buf) && Frames(st.arrayCache, st.arrayPos) && NoBulk(st)
    requires FilledUpTo(arr, i) && 0 <= i < |arr| && st.offset < |buf|
    ensures StepOK(st, buf, r)
    ensures r.out.Complete? ==>
      && r.out.reply.Array? && |r.out.reply.elements| == |arr|
      && forall k :: 0 <= k < i ==> arr[k] == Filled(r.out.reply.elements[k])
    ensures r.out.Incomplete? ==> |r.st.arrayCache| > |st.arrayCache|
    decreases |buf| - st.offset + 1, 1
  {
    var start := st.offset;
    var s := ParseType(st.(offset := start + 1), buf, buf[start]);
    if s.out.Incomplete? then
      SuspendElements(st, buf, s, arr, i)
    else
      ContinueElements(st, buf, s, arr, i)
  }

  /** Element `i` was parsed whole into `s`: store it and fill the slots
      after it from past it. */
  function ContinueElements(st: State, buf: seq<byte>, s: Step, arr: seq<Slot>, i: int): (r: Step)
    requires At(st, buf) && Frames(st.arrayCache, st.arrayPos) && NoBulk(st)
    requires FilledUpTo(arr, i) && 0 <= i < |arr| && st.offset < |buf|
    requires s.out.Complete? && StepOK(st.(offset := st.offset + 1), buf, s)
    ensures StepOK(st, buf, r)
    ensures r.out.Complete? ==>
      && r.out.reply.Array? && |r.out.reply.elements| == |arr|
      && forall k :: 0 <= k < i ==> arr[k] == Filled(r.out.reply.elements[k])
    ensures r.out.Incomplete? ==> |r.st.arrayCache| > |st.arrayCache|
    decreases |buf| - st.offset + 1, 0
  {
    var arr' := arr[i := Filled(s.out.reply)];
    assert FilledUpTo(arr', i + 1);
    var r := ParseElements(s.st, buf, arr', i + 1);
    ElementsChain(st, buf, s, arr, i, r);
    r
  }

  /** A reply completed without consuming anything keeps the step
      guarantees. */
  lemma CompleteOK(st: State, buf: seq<byte>, reply: Reply)
    requires At(st, buf) && Frames(st.arrayCache, st.arrayPos) && NoBulk(st)
    ensures StepOK(st, buf, Step(Complete(reply), st, []))
  {
  }

  /** The buffer ran out before slot `i`: pushing the array keeps the step
      guarantees. */
  lemma PushedOK(st: State, buf: seq<byte>, arr: seq<Slot>, i: int)
    requires At(st, buf) && Frames(st.arrayCache, st.arrayPos) && NoBulk(st)
    requires FilledUpTo(arr, i) && 0 <= i < |arr|
    ensures StepOK(st, buf, Step(Incomplete, Push(st, arr, i), []))
    ensures |Push(st, arr, i).arrayCache| > |st.arrayCache|
  {
    FramesPush(st.arrayCache, st.arrayPos, arr, i);
    GrowsPush(st, st, arr, i);
  }

  /** An element parsed whole, then the rest of the array from past it: the
      step guarantees compose, and the element's value sits in its slot. */
  lemma ElementsChain(st: State, buf: seq<byte>, s: Step, arr: seq<Slot>, i: int, r: Step)
    requires At(st, buf) && Frames(st.arrayCache, st.arrayPos) && NoBulk(st)
    requires FilledUpTo(arr, i) && 0 <= i < |arr| && st.offset < |buf|
    requires s.out.Complete? && StepOK(st.(offset := st.offset + 1), buf, s)
    requires StepOK(s.st, buf, r)
    requires r.out.Complete? ==>
      && r.out.reply.Array? && |r.out.reply.elements| == |arr|
      && forall k :: 0 <= k < i + 1 ==> arr[i := Filled(s.out.reply)][k] == Filled(r.out.reply.elements[k])
    requires r.out.Incomplete? ==> |r.st.arrayCache| > |s.st.arrayCache|
    ensures StepOK(st, buf, r)
    ensures r.out.Complete? ==>
      && r.out.reply.Array? && |r.out.reply.elements| == |arr|
      && forall k :: 0 <= k < i ==> arr[k] == Filled(r.out.reply.elements[k])
    ensures r.out.Incomplete? ==> |r.st.arrayCache| > |st.arrayCache|
  {
    assert s.st == st.(offset := s.st.offset);
    if r.out.Complete? {
      forall k | 0 <= k < i
        ensures arr[k] == Filled(r.out.reply.elements[k])
      {
        assert arr[i := Filled(s.out.reply)][k] == arr[k];
      }
    }
  }

  /** The `undefined` path of `parseArrayElements`: roll the offset back to
      the element's type byte unless an array or a chunk is cached, then push
      the array and its position. */
  function SuspendElements(st: State, buf: seq<byte>, s: Step, arr: seq<Slot>, i: int): (r: Step)
    requires At(st, buf) && Frames(st.arrayCache, st.arrayPos) && NoBulk(st)
    requires FilledUpTo(arr, i) && i < |arr| && st.offset < |buf|
    requires s.out.Incomplete? && StepOK(st.(offset := st.offset + 1), buf, s)
    ensures StepOK(st, buf, r) && r.out.Incomplete? && r.fatal == s.fatal
    ensures |r.st.arrayCache| > |st.arrayCache|
    ensures r.st.arrayCache[|r.st.arrayCache| - 1] == arr && r.st.arrayPos[|r.st.arrayPos| - 1] == i
    ensures r.st.offset == if |s.st.arrayCache| > 0 || |s.st.bufferCache| > 0 then s.st.offset else st.offset
  {
    var rolled := if !(|s.st.arrayCache| > 0 || |s.st.bufferCache| > 0) then s.st.(offset := st.offset) else s.st;
    SuspendedOK(st, buf, s, arr, i, rolled);
    PushTop(rolled, arr, i);
    Step(Incomplete, Push(rolled, arr, i), s.fatal)
  }

  /** Pushing the interrupted array onto the state the element parser left,
      with the offset rolled back or not, keeps the step guarantees. */
  lemma SuspendedOK(st: State, buf: seq<byte>, s: Step, arr: seq<Slot>, i: int, rolled: State)
    requires At(st, buf) && Frames(st.arrayCache, st.arrayPos) && NoBulk(st)
    requires FilledUpTo(arr, i) && i < |arr| && st.offset < |buf|
    requires s.out.Incomplete? && StepOK(st.(offset := st.offset + 1), buf, s)
    requires rolled == if !(|s.st.arrayCache| > 0 || |s.st.bufferCache| > 0) then s.st.(offset := st.offset) else s.st
    ensures StepOK(st, buf, Step(Incomplete, Push(rolled, arr, i), s.fatal))
    ensures |Push(rolled, arr, i).arrayCache| > |st.arrayCache|
  {
    FramesPush(rolled.arrayCache, rolled.arrayPos, arr, i);
    assert Grows(st, rolled) by {
      assert st.arrayCache == st.(offset := st.offset + 1).arrayCache;
    }
    GrowsPush(st, rolled, arr, i);
    if s.fatal != [] {
      assert NoBulk(rolled) && rolled.buffer.None?;
    } else {
      assert rolled.buffer == Some(buf) && st.offset <= rolled.offset <= |buf|;
    }
  }

  /** `parseArrayChunks`: resume the suspended arrays, outermost on top of the
      stack and innermost at index 0. The frame is popped; the arrays beneath
      it are resumed first and the value they complete fills this frame's
      next slot; then this array's remaining elements are parsed. */
  function ParseArrayChunks(st: State, buf: seq<byte>): (r: Step)
    requires At(st, buf) && NoBulk(st)
    requires |st.arrayCache| >= 1 && ResumableFrames(st.arrayCache, st.arrayPos)
    ensures Frames(r.st.arrayCache, r.st.arrayPos) && SameConfig(st, r.st)
    ensures r.out.Complete? ==>
      && r.out.reply.Array? && r.fatal == []
      && At(r.st, buf) && st.offset <= r.st.offset
      && r.st == st.(offset := r.st.offset, arrayCache := [], arrayPos := [])
    ensures r.out.Incomplete? && r.fatal == [] ==> r.st.buffer == Some(buf) && st.offset <= r.st.offset <= |buf|
    ensures r.fatal != [] ==> r.out.Incomplete? && |r.fatal| == 1 && r.st.buffer.None? && NoBulk(r.st)
    ensures NoBulk(r.st) || (r.out.Incomplete? && r.fatal == [] && r.st.bufferCache == [buf] && BulkTarget(r.st, buf))
    decreases |st.arrayCache|
  {
    var n := |st.arrayCache|;
    var arr := st.arrayCache[n - 1];
    var pos := st.arrayPos[n - 1];
    var popped := st.(arrayCache := st.arrayCache[..n - 1], arrayPos := st.arrayPos[..n - 1]);
    if n - 1 > 0 then
      assert ResumableFrames(popped.arrayCache, popped.arrayPos) by {
        assert forall k :: 0 <= k < n - 1 ==> popped.arrayCache[k] == st.arrayCache[k] && popped.arrayPos[k] == st.arrayPos[k];
      }
      var s := ParseArrayChunks(popped, buf);
      if s.out.Incomplete? then
        FramesPush(s.st.arrayCache, s.st.arrayPos, arr, pos);
        Step(Incomplete, Push(s.st, arr, pos), s.fatal)
      else
        var arr' := arr[pos := Filled(s.out.reply)];
        assert FilledUpTo(arr', pos + 1);
        ParseElements(s.st, buf, arr', pos + 1)
    else
      ParseElements(popped, buf, arr, pos)
  }

  /** The bookkeeping of a bulk string being reassembled from several chunks:
      `bufferCache` starts with the chunk holding the length line (still the
      current `buffer`, with `offset` just past that line), later chunks are
      non-empty, and `totalChunkSize` counts them all without reaching
      `bigStrSize`. */
  predicate PendingChunks(st: State)
    requires st.buffer.Some?
  {
    && |st.bufferCache| >= 1 && st.bufferCache[0] == st.buffer.value
    && st.totalChunkSize == |BufferPool.Flatten(st.bufferCache)|
    && st.totalChunkSize < st.bigStrSize
    && st.offset + 2 <= st.bigStrSize
    && forall k :: 1 <= k < |st.bufferCache| ==> |st.bufferCache[k]| > 0
  }

  /** The invariant `execute` keeps between calls. */
  predicate Valid(st: State) {
    && Frames(st.arrayCache, st.arrayPos)
    && (st.buffer.Some? ==> 0 <= st.offset <= |st.buffer.value|)
    && (st.buffer.None? || st.bigStrSize == 0 ==> NoBulk(st))
    && (st.bigStrSize != 0 ==> st.buffer.Some? && PendingChunks(st))
  }

  /** `reset`: back to idle with every cache emptied; the options stay. */
  function Reset(st: State): (r: State)
    ensures Valid(r) && SameConfig(st, r)
    ensures r.buffer.None? && r.offset == 0 && NoBulk(r) && r.totalChunkSize == 0
    ensures r.arrayCache == [] && r.arrayPos == []
  {
    st.(offset := 0, buffer := None, bigStrSize := 0, totalChunkSize := 0,
        bufferCache := [], arrayCache := [], arrayPos := [])
  }

  /** The constructor: the two options, and whether a `returnFatalError`
      callback was supplied (without one, fatal errors go to `returnError`). */
  function New(returnBuffers: bool, stringNumbers: bool, hasFatalHandler: bool): (r: State)
    ensures Valid(r) && r.buffer.None? && NoBulk(r) && r.arrayCache == []
    ensures r.returnBuffers == returnBuffers && r.stringNumbers == stringNumbers && r.hasFatalHandler == hasFatalHandler
  {
    Reset(State(None, 0, 0, 0, [], [], [], returnBuffers, stringNumbers, hasFatalHandler))
  }

  /** The callback a fatal protocol error goes to: `returnFatalError`, which
      defaults to `returnError`. */
  function FatalEvents(st: State, fatal: seq<Failure>): (r: seq<Event>)
    ensures |r| == |fatal|
    ensures forall k :: 0 <= k < |r| ==> r[k] == (if st.hasFatalHandler then OnFatal(fatal[k]) else OnError(fatal[k]))
  {
    if |fatal| == 0 then []
    else [if st.hasFatalHandler then OnFatal(fatal[0]) else OnError(fatal[0])] + FatalEvents(st, fatal[1..])
  }

  /** A fatal-error notification, whichever callback received it. */
  predicate IsFatal(e: Event) {
    e.OnFatal? || (e.OnError? && e.failure.ParserError?)
  }

  /** How `execute` delivers a completed top-level value read after type byte
      `t`: error replies to `returnError`, everything else to `returnReply`. */
  function Route(t: byte, reply: Reply): (e: Event)
    requires t == ERROR_TAG ==> reply.Error?
    ensures t == ERROR_TAG ==> e == OnError(ReplyError(reply.message))
    ensures t != ERROR_TAG ==> e == OnReply(reply)
  {
    if t == ERROR_TAG then OnError(ReplyError(reply.message)) else OnReply(reply)
  }

  /** The events `execute` may fire: replies never carry a top-level error
      reply, and a fatal error, if any, is the last event. */
  predicate WellOrdered(events: seq<Event>) {
    && (forall k :: 0 <= k < |events| && events[k].OnReply? ==> !events[k].reply.Error?)
    && (forall k :: 0 <= k < |events| - 1 ==> !IsFatal(events[k]))
  }

  datatype Run = Run(st: State, events: seq<Event>)

  /** The `while` loop of `execute`: read a type byte, parse, deliver, repeat
      until the buffer is used up (then drop it) or a parser returns
      `undefined` (then keep it, rolled back to the type byte when nothing is
      cached). */
  function Loop(st: State, buf: seq<byte>): (r: Run)
    requires At(st, buf) && Frames(st.arrayCache, st.arrayPos) && NoBulk(st)
    ensures Valid(r.st) && SameConfig(st, r.st) && WellOrdered(r.events)
    ensures r.st.buffer.Some? ==>
      r.st.buffer == Some(buf) && (r.st.offset < |buf| || |r.st.arrayCache| > 0 || r.st.bigStrSize != 0)
    ensures r.st.buffer.None? && (forall k :: 0 <= k < |r.events| ==> !IsFatal(r.events[k])) ==>
      r.st == st.(buffer := None, offset := |buf|)
    decreases |buf| - st.offset
  {
    if st.offset < |buf| then
      var start := st.offset;
      var t := buf[start];
      var s := ParseType(st.(offset := start + 1), buf, t);
      if s.out.Incomplete? then
        Stop(st, buf, s)
      else
        var rest := Loop(s.st, buf);
        PrependRoute(t, s.out.reply, rest.events);
        Run(rest.st, [Route(t, s.out.reply)] + rest.events)
    else
      DroppedValid(st);
      Run(st.(buffer := None), [])
  }

  /** A state without a buffer is valid when its frames are and nothing is
      cached. */
  lemma DroppedValid(st: State)
    requires Frames(st.arrayCache, st.arrayPos) && NoBulk(st)
    ensures Valid(st.(buffer := None))
  {
  }

  /** A routed value delivered before the rest of a run. */
  lemma {:induction false} PrependRoute(t: byte, reply: Reply, events: seq<Event>)
    requires WellOrdered(events) && (t == ERROR_TAG <==> reply.Error?)
    ensures WellOrdered([Route(t, reply)] + events)
    ensures (forall k :: 0 <= k < |events| ==> !IsFatal(events[k])) <==>
      forall k :: 0 <= k < |events| + 1 ==> !IsFatal(([Route(t, reply)] + events)[k])
  {
    var all := [Route(t, reply)] + events;
    assert forall k :: 0 <= k < |events| ==> all[k + 1] == events[k];
  }

  /** The `undefined` exit of the loop: keep the buffer, rolled back to the
      type byte unless an array or a chunk is cached, and report a fatal
      error if one was raised. */
  function Stop(st: State, buf: seq<byte>, s: Step): (r: Run)
    requires At(st, buf) && Frames(st.arrayCache, st.arrayPos) && NoBulk(st) && st.offset < |buf|
    requires s.out.Incomplete? && StepOK(st.(offset := st.offset + 1), buf, s)
    ensures Valid(r.st) && SameConfig(st, r.st) && WellOrdered(r.events)
    ensures r.events == FatalEvents(st, s.fatal)
    ensures r.st.buffer.Some? ==>
      r.st.buffer == Some(buf) && (r.st.offset < |buf| || |r.st.arrayCache| > 0 || r.st.bigStrSize != 0)
    ensures r.st.buffer.None? ==> s.fatal != []
  {
    var kept := if !(|s.st.arrayCache| > 0 || |s.st.bufferCache| > 0) then s.st.(offset := st.offset) else s.st;
    BufferPool.FlattenOne(buf);
    Run(kept, FatalEvents(st, s.fatal))
  }

  datatype Output = Output(st: State, pool: BufferPool.Pool, events: seq<Event>)

  /** What every mode of `execute` guarantees. */
  predicate OutputOK(st: State, pool: BufferPool.Pool, r: Output) {
    && Valid(r.st) && BufferPool.Valid(r.pool) && SameConfig(st, r.st) && WellOrdered(r.events)
    && (r.st.buffer.Some? ==> r.st.offset < |r.st.buffer.value| || |r.st.arrayCache| > 0 || r.st.bigStrSize != 0)
  }

  /** A reply delivered before the rest of a run. */
  lemma PrependReply(reply: Reply, events: seq<Event>)
    requires WellOrdered(events) && !reply.Error?
    ensures WellOrdered([OnReply(reply)] + events)
  {
    var all := [OnReply(reply)] + events;
    assert forall k :: 0 <= k < |events| ==> all[k + 1] == events[k];
  }

  lemma FatalOrdered(st: State, fatal: seq<Failure>)
    requires |fatal| <= 1
    ensures WellOrdered(FatalEvents(st, fatal))
  {
  }

  /** `execute(buffer)`. Four modes: idle (scan the chunk); the tail of the
      previous buffer waiting for more bytes (concatenate, resume suspended
      arrays, scan); a bulk string being reassembled whose end this chunk
      reaches (reassemble, deliver or store into the innermost suspended
      array, scan the rest); and one whose end it does not reach (cache the
      chunk and return without firing a callback). */
  function Execute(st: State, pool: BufferPool.Pool, chunk: seq<byte>): (r: Output)
    requires Valid(st) && BufferPool.Valid(pool) && (|chunk| > 0 || st.bigStrSize == 0)
    ensures OutputOK(st, pool, r)
    ensures st.buffer.Some? && st.bigStrSize != 0 && st.totalChunkSize + |chunk| < st.bigStrSize ==>
      r == Output(st.(bufferCache := st.bufferCache + [chunk], totalChunkSize := st.totalChunkSize + |chunk|), pool, [])
    ensures !st.returnBuffers || st.bigStrSize == 0 ==> r.pool == pool
  {
    if st.buffer.None? then
      var run := Loop(st.(buffer := Some(chunk), offset := 0), chunk);
      Output(run.st, pool, run.events)
    else if st.bigStrSize == 0 then
      ExecuteTail(st, pool, chunk)
    else if st.totalChunkSize + |chunk| >= st.bigStrSize then
      ExecuteBulkEnd(st, pool, chunk)
    else
      var list := st.bufferCache + [chunk];
      assert list[..|list| - 1] == st.bufferCache;
      BufferPool.FlattenLast(list);
      Output(st.(bufferCache := list, totalChunkSize := st.totalChunkSize + |chunk|), pool, [])
  }

  /** An empty chunk on an idle parser fires nothing and changes nothing but
      the offset, which `execute` resets to 0. */
  lemma ExecuteEmptyIdle(st: State, pool: BufferPool.Pool)
    requires Valid(st) && BufferPool.Valid(pool) && st.buffer.None?
    ensures Execute(st, pool, []) == Output(st.(offset := 0), pool, [])
  {
  }

  /** The tail-concatenation mode: the unread bytes of the previous buffer
      followed by the chunk become the buffer; suspended arrays resume first. */
  function ExecuteTail(st: State, pool: BufferPool.Pool, chunk: seq<byte>): (r: Output)
    requires Valid(st) && BufferPool.Valid(pool) && st.buffer.Some? && st.bigStrSize == 0
    ensures OutputOK(st, pool, r) && r.pool == pool
  {
    var buf := st.buffer.value[st.offset..] + chunk;
    var st1 := st.(buffer := Some(buf), offset := 0);
    if |st.arrayCache| > 0 then
      var s := ParseArrayChunks(st1, buf);
      BufferPool.FlattenOne(buf);
      if s.out.Incomplete? then
        FatalOrdered(st, s.fatal);
        Output(s.st, pool, FatalEvents(st, s.fatal))
      else
        var run := Loop(s.st, buf);
        PrependReply(s.out.reply, run.events);
        Output(run.st, pool, [OnReply(s.out.reply)] + run.events)
    else
      var run := Loop(st1, buf);
      Output(run.st, pool, run.events)
  }

  /** The chunk reaches the end of the bulk string being reassembled. */
  function ExecuteBulkEnd(st: State, pool: BufferPool.Pool, chunk: seq<byte>): (r: Output)
    requires Valid(st) && BufferPool.Valid(pool) && |chunk| > 0
    requires st.buffer.Some? && st.bigStrSize != 0 && st.totalChunkSize + |chunk| >= st.bigStrSize
    ensures OutputOK(st, pool, r)
    ensures !st.returnBuffers ==> r.pool == pool
  {
    var list := st.bufferCache + [chunk];
    assert list[..|list| - 1] == st.bufferCache;
    var copy := ReassembleBulk(st, pool, list);
    var value := Bulk(copy.value);
    var st1 := st.(offset := copy.offset, bigStrSize := 0, bufferCache := [], buffer := Some(chunk));
    BufferPool.FlattenOne(chunk);
    if |st.arrayCache| > 0 then
      BulkIntoArrays(st, st1, copy.pool, chunk, value)
    else
      var run := Loop(st1, chunk);
      PrependReply(value, run.events);
      Output(run.st, copy.pool, [OnReply(value)] + run.events)
  }

  /** The reassembled string fills the slot the innermost suspended array
      is reading; the arrays then resume on the chunk. */
  function BulkIntoArrays(st: State, st1: State, pool: BufferPool.Pool, chunk: seq<byte>, value: Reply): (r: Output)
    requires Valid(st) && BufferPool.Valid(pool) && |st.arrayCache| > 0
    requires At(st1, chunk) && NoBulk(st1) && SameConfig(st, st1)
    requires st1.arrayCache == st.arrayCache && st1.arrayPos == st.arrayPos
    ensures OutputOK(st, pool, r) && r.pool == pool
  {
    var inner := st.arrayCache[0][st.arrayPos[0] := Filled(value)];
    var st2 := st1.(arrayCache := st.arrayCache[0 := inner], arrayPos := st.arrayPos[0 := st.arrayPos[0] + 1]);
    assert ResumableFrames(st2.arrayCache, st2.arrayPos) by {
      assert FilledUpTo(inner, st.arrayPos[0] + 1);
      assert forall k :: 1 <= k < |st.arrayCache| ==> st2.arrayCache[k] == st.arrayCache[k] && st2.arrayPos[k] == st.arrayPos[k];
    }
    var s := ParseArrayChunks(st2, chunk);
    if s.out.Incomplete? then
      FatalOrdered(st, s.fatal);
      Output(s.st, pool, FatalEvents(st, s.fatal))
    else
      var run := Loop(s.st, chunk);
      PrependReply(s.out.reply, run.events);
      Output(run.st, pool, [OnReply(s.out.reply)] + run.events)
  }

  /** `concatBulkBuffer` in raw-byte mode, `concatBulkString` otherwise; both
      yield the stream's bytes between the length line and the terminator and
      the offset just past the terminator in the last chunk. */
  function ReassembleBulk(st: State, pool: BufferPool.Pool, list: seq<seq<byte>>): (r: BufferPool.BulkCopy)
    requires BufferPool.Valid(pool)
    requires BufferPool.PendingBulk(list, st.offset, st.bigStrSize, st.totalChunkSize)
    ensures BufferPool.Valid(r.pool) && (!st.returnBuffers ==> r.pool == pool)
    ensures st.bigStrSize - 2 <= |BufferPool.Flatten(list)|
    ensures r.value == BufferPool.Flatten(list)[st.offset..st.bigStrSize - 2]
    ensures r.offset == st.bigStrSize - st.totalChunkSize
  {
    if st.returnBuffers then BufferPool.ConcatBulkBuffer(pool, list, st.offset, st.bigStrSize, st.totalChunkSize)
    else BufferPool.BulkCopy(BufferPool.ConcatBulkString(list, st.offset, st.bigStrSize, st.totalChunkSize), pool, st.bigStrSize - st.totalChunkSize)
  }
}
