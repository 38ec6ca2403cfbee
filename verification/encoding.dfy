/** A reference RESP2 encoder and the round trip through the parser: one
    chunk holding the encodings of any replies yields exactly those replies,
    in order, each through the callback its type selects. */
module Encoding {
  import opened Decimal
  import opened Resp
  import opened Scanners
  import opened RedisParser

  const CRLF: seq<byte> := [CR, LF]

  /** The digits of an integer reply, with a leading `-` for negatives. */
  function IntBytes(n: int): seq<byte> {
    if n < 0 then [MINUS] + NatBytes(-n) else NatBytes(n)
  }

  /** Replies the wire format can carry: simple strings and errors without a
      CR byte; `IntegerText` is only ever produced by the parser. */
  predicate Encodable(r: Reply)
    decreases r
  {
    match r
    case Simple(b) => NoCR(b, 0, |b|)
    case Error(m) => NoCR(m, 0, |m|)
    case Integer(_) => true
    case IntegerText(_) => false
    case Bulk(_) => true
    case Nil => true
    case NilArray => true
    case Array(es) => forall k :: 0 <= k < |es| ==> Encodable(es[k])
  }

  /** The count line of a bulk string or an array. */
  function Header(tag: byte, n: nat): (h: seq<byte>)
    ensures |h| == |NatBytes(n)| + 3 && h[0] == tag
  {
    [tag] + NatBytes(n) + CRLF
  }

  function Encode(r: Reply): (e: seq<byte>)
    ensures |e| >= 1
    decreases r
  {
    match r
    case Simple(b) => [SIMPLE_TAG] + b + CRLF
    case Error(m) => [ERROR_TAG] + m + CRLF
    case Integer(n) => [INTEGER_TAG] + IntBytes(n) + CRLF
    case IntegerText(s) => [INTEGER_TAG] + CRLF
    case Bulk(b) => Header(BULK_TAG, |b|) + b + CRLF
    case Nil => NullLine(BULK_TAG)
    case NilArray => NullLine(ARRAY_TAG)
    case Array(es) => Header(ARRAY_TAG, |es|) + EncodeAll(es)
  }

  /** The null bulk string `$-1` or the null array `*-1`. */
  function NullLine(tag: byte): seq<byte> {
    [tag, MINUS, 49] + CRLF
  }

  /** The encodings of several replies back to back. */
  function EncodeAll(es: seq<Reply>): seq<byte>
    decreases es
  {
    if |es| == 0 then [] else Encode(es[0]) + EncodeAll(es[1..])
  }

  /** The reply the parser produces for `r`: integers become their exact
      decimal text when the `stringNumbers` option is on. */
  function Decoded(r: Reply, stringNumbers: bool): Reply
    decreases r
  {
    match r
    case Integer(n) => if stringNumbers then IntegerText(IntText(n)) else r
    case Array(es) => Array(DecodedAll(es, stringNumbers))
    case NilArray => Nil
    case _ => r
  }

  function DecodedAll(es: seq<Reply>, stringNumbers: bool): (ds: seq<Reply>)
    ensures |ds| == |es|
    ensures forall k :: 0 <= k < |es| ==> ds[k] == Decoded(es[k], stringNumbers)
    decreases es
  {
    if |es| == 0 then [] else [Decoded(es[0], stringNumbers)] + DecodedAll(es[1..], stringNumbers)
  }

  /** The callback a top-level reply is delivered through. */
  function Delivered(r: Reply, stringNumbers: bool): Event {
    if r.Error? then OnError(ReplyError(r.message)) else OnReply(Decoded(r, stringNumbers))
  }

  function DeliveredAll(rs: seq<Reply>, stringNumbers: bool): (es: seq<Event>)
    ensures |es| == |rs|
  {
    if |rs| == 0 then [] else [Delivered(rs[0], stringNumbers)] + DeliveredAll(rs[1..], stringNumbers)
  }

  /** The scan for a terminator stops at the first CR. */
  lemma {:induction false} FindCRAt(buf: seq<byte>, from: nat, body: seq<byte>)
    requires from + |body| + 2 <= |buf| && buf[from..from + |body|] == body
    requires NoCR(body, 0, |body|) && buf[from + |body|] == CR
    ensures FindCR(buf, from) == Some(from + |body|)
    decreases |body|
  {
    if |body| > 0 {
      assert buf[from] == body[0];
      assert buf[from + 1..from + |body|] == body[1..];
      FindCRAt(buf, from + 1, body[1..]);
    }
  }

  lemma DigitsNoCR(s: seq<byte>)
    requires AllDigits(s)
    ensures NoCR(s, 0, |s|)
  {
  }

  /** A terminated field read back from the middle of a buffer. */
  lemma {:induction false} ScanAt(buf: seq<byte>, from: nat, body: seq<byte>)
    requires from + |body| + 2 <= |buf| && buf[from..from + |body| + 2] == body + CRLF
    requires NoCR(body, 0, |body|)
    ensures Scan(buf, from) == Field(body, from + |body| + 2)
  {
    assert buf[from..from + |body|] == (body + CRLF)[..|body|];
    assert buf[from + |body|] == (body + CRLF)[|body|];
    FindCRAt(buf, from, body);
  }

  function Magnitude(n: int): nat {
    if n < 0 then -n else n
  }

  /** The digits of an integer, past its optional `-`, scan back as one field. */
  lemma {:induction false} IntegerScan(buf: seq<byte>, off: nat, n: int)
    requires Holds(buf, off, IntBytes(n) + CRLF)
    ensures Negative(buf, off) <==> n < 0
    ensures Scan(buf, DigitsStart(buf, off)) == Field(NatBytes(Magnitude(n)), off + |IntBytes(n)| + 2)
  {
    var digits := NatBytes(Magnitude(n));
    if n < 0 {
      assert IntBytes(n) + CRLF == [MINUS] + (digits + CRLF);
      HoldsSplit(buf, off, [MINUS], digits + CRLF);
      assert buf[off..off + 1][0] == buf[off];
    } else {
      assert IntBytes(n) == digits;
      assert buf[off..off + |digits| + 2][0] == buf[off];
      assert (digits + CRLF)[0] == digits[0];
    }
    DigitsNoCR(digits);
    ScanAt(buf, DigitsStart(buf, off), digits);
  }

  /** The field parsers read back an integer's digits exactly. */
  lemma {:induction false} IntegerAt(buf: seq<byte>, off: nat, n: int)
    requires Holds(buf, off, IntBytes(n) + CRLF)
    ensures ParseSimpleNumbers(buf, off) == Field(n, off + |IntBytes(n)| + 2)
    ensures ParseStringNumbers(buf, off) == Field(IntText(n), off + |IntBytes(n)| + 2)
  {
    IntegerScan(buf, off, n);
    DecimalOfNatBytes(Magnitude(n));
    StringNumbersAt(buf, off, n, off + |IntBytes(n)| + 2);
  }

  lemma {:induction false} StringNumbersAt(buf: seq<byte>, off: nat, n: int, next: nat)
    requires Negative(buf, off) <==> n < 0
    requires Scan(buf, DigitsStart(buf, off)) == Field(NatBytes(Magnitude(n)), next)
    ensures ParseStringNumbers(buf, off) == Field(IntText(n), next)
  {
    var sign := if n < 0 then "-" else "";
    StringNumbersExact(NatBytes(Magnitude(n)), sign);
    if n >= 0 {
      assert sign + NatText(n) == NatText(n);
    }
  }

  /** `buf` holds `e` from index `p` on. */
  predicate Holds(buf: seq<byte>, p: int, e: seq<byte>) {
    0 <= p && p + |e| <= |buf| && buf[p..p + |e|] == e
  }

  lemma {:induction false} HoldsSplit(buf: seq<byte>, p: int, a: seq<byte>, b: seq<byte>)
    requires Holds(buf, p, a + b)
    ensures Holds(buf, p, a) && Holds(buf, p + |a|, b)
  {
    var w := buf[p..p + |a| + |b|];
    assert w == a + b;
    assert w[..|a|] == a && w[|a|..] == b;
    assert buf[p..p + |a|] == w[..|a|];
    assert buf[p + |a|..p + |a| + |b|] == w[|a|..];
  }

  lemma EncodeAllSplit(es: seq<Reply>, i: nat)
    requires i < |es|
    ensures EncodeAll(es[i..]) == Encode(es[i]) + EncodeAll(es[i + 1..])
  {
    assert es[i..][1..] == es[i + 1..];
  }

  /** Only an error reply is encoded with the `-` type byte. */
  lemma TagOf(r: Reply)
    ensures Encode(r)[0] == ERROR_TAG <==> r.Error?
  {
  }

  /** A tagged, terminated line: its body scans back from just past the tag. */
  lemma {:induction false} LineAt(buf: seq<byte>, p: nat, tag: byte, body: seq<byte>)
    requires Holds(buf, p, [tag] + body + CRLF) && NoCR(body, 0, |body|)
    ensures buf[p] == tag
    ensures Scan(buf, p + 1) == Field(body, p + 1 + |body| + 2)
  {
    assert [tag] + body + CRLF == [tag] + (body + CRLF);
    HoldsSplit(buf, p, [tag], body + CRLF);
    ScanAt(buf, p + 1, body);
  }

  /** The count line of a bulk string or an array read back. */
  lemma {:induction false} HeaderAt(buf: seq<byte>, p: nat, tag: byte, n: nat)
    requires Holds(buf, p, Header(tag, n))
    ensures buf[p] == tag
    ensures ParseLength(buf, p + 1) == Field(n, p + |Header(tag, n)|)
  {
    DigitsNoCR(NatBytes(n));
    LineAt(buf, p, tag, NatBytes(n));
    DecimalOfNatBytes(n);
  }

  lemma {:induction false} CountAt(buf: seq<byte>, p: nat, tag: byte, n: nat, rest: seq<byte>)
    requires Holds(buf, p, Header(tag, n) + rest)
    ensures buf[p] == tag
    ensures ParseLength(buf, p + 1) == Field(n, p + |Header(tag, n)|)
    ensures Holds(buf, p + |Header(tag, n)|, rest)
  {
    HoldsSplit(buf, p, Header(tag, n), rest);
    HeaderAt(buf, p, tag, n);
  }

  /** The count line `-1` reads as -29: `parseLength` folds the minus sign
      as a digit. */
  lemma {:induction false} NilAt(buf: seq<byte>, p: nat, tag: byte)
    requires Holds(buf, p, NullLine(tag))
    ensures buf[p] == tag
    ensures ParseLength(buf, p + 1) == Field(-29, p + 5)
  {
    var body: seq<byte> := [MINUS, 49];
    assert NullLine(tag) == [tag] + body + CRLF;
    LineAt(buf, p, tag, body);
    var one: seq<byte> := [45];
    assert body[..1] == one && one[..0] == [];
    assert DecimalValue(one) == -3;
    assert DecimalValue(body) == -29;
  }

  /** The fields a `ParseType` call at a reply's encoding needs. */
  predicate ReadyAt(st: State, buf: seq<byte>, r: Reply) {
    && At(st, buf) && Frames(st.arrayCache, st.arrayPos) && NoBulk(st)
    && st.offset >= 1 && Holds(buf, st.offset - 1, Encode(r)) && Encodable(r)
  }

  /** Round trip of one value: parsing the encoding of `r`, with the offset
      just past its type byte, yields the value the options make of `r` and
      leaves the offset just past the encoding, touching nothing else. */
  lemma {:induction false} DecodeEncode(st: State, buf: seq<byte>, r: Reply)
    requires ReadyAt(st, buf, r)
    ensures buf[st.offset - 1] == Encode(r)[0]
    ensures ParseType(st, buf, buf[st.offset - 1]) ==
      Step(Complete(Decoded(r, st.stringNumbers)), st.(offset := st.offset - 1 + |Encode(r)|), [])
    decreases r, 2
  {
    match r
    case Simple(_) => LineEncode(st, buf, r);
    case Error(_) => LineEncode(st, buf, r);
    case Integer(_) => IntegerEncode(st, buf, r);
    case Nil => NilEncode(st, buf, r);
    case NilArray => NilEncode(st, buf, r);
    case Bulk(_) => BulkEncode(st, buf, r);
    case Array(_) => ArrayEncode(st, buf, r);
  }

  lemma {:induction false} LineEncode(st: State, buf: seq<byte>, r: Reply)
    requires ReadyAt(st, buf, r) && (r.Simple? || r.Error?)
    ensures buf[st.offset - 1] == Encode(r)[0]
    ensures ParseType(st, buf, buf[st.offset - 1]) ==
      Step(Complete(Decoded(r, st.stringNumbers)), st.(offset := st.offset - 1 + |Encode(r)|), [])
  {
    if r.Simple? {
      LineAt(buf, st.offset - 1, SIMPLE_TAG, r.bytes);
    } else {
      LineAt(buf, st.offset - 1, ERROR_TAG, r.message);
    }
  }

  lemma {:induction false} IntegerEncode(st: State, buf: seq<byte>, r: Reply)
    requires ReadyAt(st, buf, r) && r.Integer?
    ensures buf[st.offset - 1] == Encode(r)[0]
    ensures ParseType(st, buf, buf[st.offset - 1]) ==
      Step(Complete(Decoded(r, st.stringNumbers)), st.(offset := st.offset - 1 + |Encode(r)|), [])
  {
    var p := st.offset - 1;
    var n := r.n;
    assert Encode(r) == [INTEGER_TAG] + (IntBytes(n) + CRLF);
    HoldsSplit(buf, p, [INTEGER_TAG], IntBytes(n) + CRLF);
    IntegerAt(buf, p + 1, n);
  }

  /** `$-1` and `*-1` both decode to `Nil`. */
  lemma {:induction false} NilEncode(st: State, buf: seq<byte>, r: Reply)
    requires ReadyAt(st, buf, r) && (r.Nil? || r.NilArray?)
    ensures buf[st.offset - 1] == Encode(r)[0]
    ensures ParseType(st, buf, buf[st.offset - 1]) ==
      Step(Complete(Decoded(r, st.stringNumbers)), st.(offset := st.offset - 1 + |Encode(r)|), [])
  {
    NilAt(buf, st.offset - 1, Encode(r)[0]);
  }

  lemma {:induction false} BulkEncode(st: State, buf: seq<byte>, r: Reply)
    requires ReadyAt(st, buf, r) && r.Bulk?
    ensures buf[st.offset - 1] == Encode(r)[0]
    ensures ParseType(st, buf, buf[st.offset - 1]) ==
      Step(Complete(Decoded(r, st.stringNumbers)), st.(offset := st.offset - 1 + |Encode(r)|), [])
  {
    hide ParseBulkString, ParseArray, ParseElements, Encode;
    var p := st.offset - 1;
    BulkAt(buf, p, r.bytes);
    assert ParseType(st, buf, BULK_TAG) == ParseBulkString(st, buf);
  }

  /** The encoding of a bulk string in the buffer: its count line reads back
      as its length, and its bytes follow. */
  lemma {:induction false} BulkAt(buf: seq<byte>, p: nat, b: seq<byte>)
    requires Holds(buf, p, Encode(Bulk(b)))
    ensures |Encode(Bulk(b))| == |Header(BULK_TAG, |b|)| + |b| + 2 && Encode(Bulk(b))[0] == BULK_TAG
    ensures buf[p] == BULK_TAG
    ensures ParseLength(buf, p + 1) == Field(|b|, p + |Header(BULK_TAG, |b|)|)
    ensures p + |Header(BULK_TAG, |b|)| + |b| + 2 <= |buf|
    ensures buf[p + |Header(BULK_TAG, |b|)|..p + |Header(BULK_TAG, |b|)| + |b|] == b
  {
    assert Encode(Bulk(b)) == Header(BULK_TAG, |b|) + (b + CRLF);
    CountAt(buf, p, BULK_TAG, |b|, b + CRLF);
    HoldsSplit(buf, p + |Header(BULK_TAG, |b|)|, b, CRLF);
  }

  lemma {:induction false} ArrayEncode(st: State, buf: seq<byte>, r: Reply)
    requires ReadyAt(st, buf, r) && r.Array?
    ensures buf[st.offset - 1] == Encode(r)[0] == ARRAY_TAG
    ensures ParseArray(st, buf) ==
      Step(Complete(Decoded(r, st.stringNumbers)), st.(offset := st.offset - 1 + |Encode(r)|), [])
    decreases r, 1
  {
    hide ParseElements, ParseType;
    var p := st.offset - 1;
    var es := r.elements;
    var h := Header(ARRAY_TAG, |es|);
    assert Encode(r) == h + EncodeAll(es);
    CountAt(buf, p, ARRAY_TAG, |es|, EncodeAll(es));
    var next := p + |h|;
    var holes: seq<Slot> := seq(|es|, _ => Hole);
    assert ParseArray(st, buf) == ParseElements(st.(offset := next), buf, holes, 0);
    assert es[0..] == es;
    ElementsEncode(st.(offset := next), buf, holes, 0, es);
    assert Decoded(r, st.stringNumbers) == Array(DecodedAll(es, st.stringNumbers));
  }

  /** Round trip of the elements `es[i..]` of an array whose slots before `i`
      already hold the first values. */
  lemma {:induction false} ElementsEncode(st: State, buf: seq<byte>, arr: seq<Slot>, i: nat, es: seq<Reply>)
    requires At(st, buf) && Frames(st.arrayCache, st.arrayPos) && NoBulk(st)
    requires |arr| == |es| && i <= |es| && FilledUpTo(arr, i)
    requires forall k :: 0 <= k < i ==> arr[k] == Filled(Decoded(es[k], st.stringNumbers))
    requires forall k :: i <= k < |es| ==> Encodable(es[k])
    requires Holds(buf, st.offset, EncodeAll(es[i..]))
    ensures ParseElements(st, buf, arr, i) ==
      Step(Complete(Array(DecodedAll(es, st.stringNumbers))), st.(offset := st.offset + |EncodeAll(es[i..])|), [])
    decreases es, 0, |es| - i
  {
    hide ParseElements, ParseType, Encodable, Decoded, DecodedAll, Values, Holds;
    if i == |es| {
      ElementsDone(st, buf, arr, i, es);
    } else {
      var arr' := arr[i := Filled(Decoded(es[i], st.stringNumbers))];
      ElementsStep(st, buf, arr, i, es, arr');
      ElementsEncode(st.(offset := st.offset + |Encode(es[i])|), buf, arr', i + 1, es);
    }
  }

  /** Every slot is filled: the array completes with the values parsed. */
  lemma ElementsDone(st: State, buf: seq<byte>, arr: seq<Slot>, i: nat, es: seq<Reply>)
    requires At(st, buf) && Frames(st.arrayCache, st.arrayPos) && NoBulk(st)
    requires |arr| == |es| && i == |es| && FilledUpTo(arr, i)
    requires forall k :: 0 <= k < i ==> arr[k] == Filled(Decoded(es[k], st.stringNumbers))
    ensures ParseElements(st, buf, arr, i) ==
      Step(Complete(Array(DecodedAll(es, st.stringNumbers))), st.(offset := st.offset + |EncodeAll(es[i..])|), [])
  {
    assert Values(arr) == DecodedAll(es, st.stringNumbers);
    assert es[i..] == [];
  }

  /** One element parsed: its value fills slot `i` and the parse goes on
      past its encoding. */
  lemma {:induction false} ElementsStep(st: State, buf: seq<byte>, arr: seq<Slot>, i: nat, es: seq<Reply>, arr': seq<Slot>)
    requires At(st, buf) && Frames(st.arrayCache, st.arrayPos) && NoBulk(st)
    requires |arr| == |es| && i < |es| && FilledUpTo(arr, i) && Encodable(es[i])
    requires forall k :: 0 <= k < i ==> arr[k] == Filled(Decoded(es[k], st.stringNumbers))
    requires Holds(buf, st.offset, EncodeAll(es[i..]))
    requires arr' == arr[i := Filled(Decoded(es[i], st.stringNumbers))]
    ensures FilledUpTo(arr', i + 1) && |arr'| == |es|
    ensures forall k :: 0 <= k < i + 1 ==> arr'[k] == Filled(Decoded(es[k], st.stringNumbers))
    ensures |EncodeAll(es[i..])| == |Encode(es[i])| + |EncodeAll(es[i + 1..])|
    ensures st.offset + |Encode(es[i])| <= |buf| && Holds(buf, st.offset + |Encode(es[i])|, EncodeAll(es[i + 1..]))
    ensures ParseElements(st, buf, arr, i) == ParseElements(st.(offset := st.offset + |Encode(es[i])|), buf, arr', i + 1)
    decreases es, 0, |es| - i - 1
  {
    hide ParseElements, ParseType, Decoded, Encodable, SuspendElements, Values;
    EncodeAllSplit(es, i);
    HoldsSplit(buf, st.offset, Encode(es[i]), EncodeAll(es[i + 1..]));
    DecodeEncode(st.(offset := st.offset + 1), buf, es[i]);
    ElementsUnfold(st, buf, arr, i, Decoded(es[i], st.stringNumbers), arr', |Encode(es[i])|);
  }

  /** One element of an array decoded whole: the parser moves past it and
      fills its slot. */
  lemma {:induction false} ElementsUnfold(st: State, buf: seq<byte>, arr: seq<Slot>, i: nat, v: Reply, arr': seq<Slot>, n: nat)
    requires At(st, buf) && Frames(st.arrayCache, st.arrayPos) && NoBulk(st)
    requires i < |arr| && FilledUpTo(arr, i) && st.offset < |buf| && st.offset + n <= |buf|
    requires ParseType(st.(offset := st.offset + 1), buf, buf[st.offset]) == Step(Complete(v), st.(offset := st.offset + n), [])
    requires arr' == arr[i := Filled(v)] && FilledUpTo(arr', i + 1)
    ensures ParseElements(st, buf, arr, i) == ParseElements(st.(offset := st.offset + n), buf, arr', i + 1)
  {
    hide SuspendElements, Decoded, Values;
    var s := ParseType(st.(offset := st.offset + 1), buf, buf[st.offset]);
    assert ParseElements(st, buf, arr, i) == ParseElementAt(st, buf, arr, i) == ContinueElements(st, buf, s, arr, i);
  }
}
