/** The terminator-delimited field scanners of parser.js. Each reads the
    buffer from an offset and either yields a value together with the offset
    just past the two terminator bytes, or reports that more data is needed, in
    which case the parser's offset is left where it was. */
module Scanners {
  import opened Decimal
  import opened Resp

  datatype Field<T> = Field(value: T, next: nat) | NeedMore

  /** No CR among `buf[lo..hi]` (indices past the end are ignored). */
  predicate NoCR(buf: seq<byte>, lo: int, hi: int) {
    forall k :: lo <= k < hi && 0 <= k < |buf| ==> buf[k] != CR
  }

  /** The scan loop shared by every field: the first CR at or after `from`
      that still has a byte after it. The byte after the CR is never looked at,
      so it is skipped whether or not it is LF. */
  function FindCR(buf: seq<byte>, from: nat): (r: Option<nat>)
    ensures r.Some? ==> from <= r.value && r.value + 1 < |buf| && buf[r.value] == CR
    ensures r.Some? ==> NoCR(buf, from, r.value)
    ensures r.None? ==> NoCR(buf, from, |buf| - 1)
    decreases |buf| - from
  {
    if from + 1 >= |buf| then None
    else if buf[from] == CR then Some(from)
    else FindCR(buf, from + 1)
  }

  /** The bytes of the field ending at a CR found from `from`, and the offset
      past CR and the byte after it. */
  function Scan(buf: seq<byte>, from: nat): (r: Field<seq<byte>>)
    ensures r.NeedMore? <==> NoCR(buf, from, |buf| - 1)
    ensures r.Field? ==> from + 2 <= r.next <= |buf| && buf[r.next - 2] == CR
    ensures r.Field? ==> NoCR(buf, from, r.next - 2) && r.value == buf[from..r.next - 2]
  {
    match FindCR(buf, from)
    case None => NeedMore
    case Some(j) => Field(buf[from..j], j + 2)
  }

  /** `parseLength`: an unsigned decimal fold up to the CR. */
  function ParseLength(buf: seq<byte>, off: nat): (r: Field<int>)
    ensures r.NeedMore? <==> NoCR(buf, off, |buf| - 1)
    ensures r.Field? ==> off + 2 <= r.next <= |buf| && buf[r.next - 2] == CR
    ensures r.Field? ==> NoCR(buf, off, r.next - 2) && r.value == DecimalValue(buf[off..r.next - 2])
  {
    match Scan(buf, off)
    case NeedMore => NeedMore
    case Field(s, next) => Field(DecimalValue(s), next)
  }

  /** `parseSimpleString`: the bytes strictly before the CR. */
  function ParseSimpleString(buf: seq<byte>, off: nat): (r: Field<seq<byte>>)
    ensures r.NeedMore? <==> NoCR(buf, off, |buf| - 1)
    ensures r.Field? ==> off + 2 <= r.next <= |buf| && buf[r.next - 2] == CR
    ensures r.Field? ==> NoCR(buf, off, r.next - 2) && r.value == buf[off..r.next - 2]
  {
    Scan(buf, off)
  }

  /** Whether an integer field starts with a `-` sign byte. */
  predicate Negative(buf: seq<byte>, off: nat) {
    off < |buf| && buf[off] == MINUS
  }

  /** Where the digits of an integer field start. */
  function DigitsStart(buf: seq<byte>, off: nat): nat {
    if Negative(buf, off) then off + 1 else off
  }

  /** `parseSimpleNumbers`: an optional `-`, then the decimal fold. The source
      accumulates in a double; this model uses an unbounded integer. */
  function ParseSimpleNumbers(buf: seq<byte>, off: nat): (r: Field<int>)
    ensures r.NeedMore? <==> NoCR(buf, DigitsStart(buf, off), |buf| - 1)
    ensures r.Field? ==> DigitsStart(buf, off) + 2 <= r.next <= |buf| && buf[r.next - 2] == CR
    ensures r.Field? ==> NoCR(buf, DigitsStart(buf, off), r.next - 2)
    ensures r.Field? && !Negative(buf, off) ==> r.value == DecimalValue(buf[off..r.next - 2])
    ensures r.Field? && Negative(buf, off) ==> r.value == -DecimalValue(buf[off + 1..r.next - 2])
  {
    var start := DigitsStart(buf, off);
    match Scan(buf, start)
    case NeedMore => NeedMore
    case Field(s, next) => Field(if Negative(buf, off) then -DecimalValue(s) else DecimalValue(s), next)
  }

  /** The digit loop of `parseStringNumbers`: `res` is the text built so far
      and `number` the pending small accumulator. Once `number` exceeds
      429496728 the next step flushes `number * 10 + digit` as text; a `0` read
      while `number` is 0 is appended as text directly. */
  function StringNumbersFold(ds: seq<byte>, res: string, number: int): string
    decreases |ds|
  {
    if |ds| == 0 then
      (if number != 0 then res + IntText(number) else res)
    else
      var c := ds[0];
      if number > 429496728 then
        StringNumbersFold(ds[1..], res + IntText(number * 10 + (c as int - 48)), 0)
      else if c == 48 && number == 0 then
        StringNumbersFold(ds[1..], res + "0", number)
      else
        StringNumbersFold(ds[1..], res, number * 10 + (c as int - 48))
  }

  /** `parseStringNumbers`: the integer field as text. */
  function ParseStringNumbers(buf: seq<byte>, off: nat): (r: Field<string>)
    ensures r.NeedMore? <==> NoCR(buf, DigitsStart(buf, off), |buf| - 1)
    ensures r.Field? ==> DigitsStart(buf, off) + 2 <= r.next <= |buf| && buf[r.next - 2] == CR
    ensures r.Field? ==> NoCR(buf, DigitsStart(buf, off), r.next - 2)
    ensures r.Field? && AllDigits(buf[DigitsStart(buf, off)..r.next - 2]) ==>
      r.value == (if Negative(buf, off) then "-" else "") + ByteChars(buf[DigitsStart(buf, off)..r.next - 2])
  {
    var start := DigitsStart(buf, off);
    match Scan(buf, start)
    case NeedMore => NeedMore
    case Field(s, next) =>
      var sign := if Negative(buf, off) then "-" else "";
      StringNumbersExact(s, sign);
      Field(StringNumbersFold(s, sign, 0), next)
  }

  /** The text the pending accumulator stands for. */
  function Pending(number: nat): string {
    if number != 0 then NatText(number) else ""
  }

  /** The text accumulator never loses a digit: on a run of digits the fold
      yields the prefix, the pending number's text, then the digits themselves. */
  lemma {:induction false} StringNumbersInvariant(ds: seq<byte>, res: string, number: nat)
    requires AllDigits(ds)
    ensures StringNumbersFold(ds, res, number) == res + Pending(number) + ByteChars(ds)
    decreases |ds|
  {
    if |ds| == 0 {
      assert ByteChars(ds) == [];
    } else {
      var res2, number2 := StringNumbersStep(ds, res, number);
      StringNumbersInvariant(ds[1..], res2, number2);
    }
  }

  /** One digit of the fold: the text still to come is the same before and
      after it. */
  lemma {:induction false} StringNumbersStep(ds: seq<byte>, res: string, number: nat) returns (res2: string, number2: nat)
    requires AllDigits(ds) && |ds| > 0
    ensures AllDigits(ds[1..])
    ensures StringNumbersFold(ds, res, number) == StringNumbersFold(ds[1..], res2, number2)
    ensures res + Pending(number) + ByteChars(ds) == res2 + Pending(number2) + ByteChars(ds[1..])
  {
    hide NatText;
    var c := ds[0];
    var d: nat := c - 48;
    assert IsDigit(c);
    ByteCharsFirst(ds);
    if number > 429496728 {
      res2, number2 := res + IntText(number * 10 + d), 0;
      PendingShift(number, d);
    } else if c == 48 && number == 0 {
      res2, number2 := res + "0", number;
    } else {
      res2, number2 := res, number * 10 + d;
      PendingShift(number, d);
    }
  }

  lemma {:induction false} ByteCharsFirst(ds: seq<byte>)
    requires |ds| > 0
    ensures ByteChars(ds) == [ds[0] as char] + ByteChars(ds[1..])
  {
  }

  /** Appending a digit to a pending number appends it to its text. */
  lemma {:induction false} PendingShift(number: nat, d: nat)
    requires d < 10 && (number == 0 ==> d != 0)
    ensures Pending(number * 10 + d) == Pending(number) + [(48 + d) as char]
  {
    if number == 0 {
      assert NatBytes(d) == [48 + d];
    } else {
      NatBytesShift(number, d);
    }
  }

  /** With text output an integer keeps every digit it was sent with, leading
      zeros included, so values beyond 2^53 keep full precision. */
  lemma {:induction false} StringNumbersExact(ds: seq<byte>, sign: string)
    ensures AllDigits(ds) ==> StringNumbersFold(ds, sign, 0) == sign + ByteChars(ds)
  {
    if AllDigits(ds) {
      StringNumbersInvariant(ds, sign, 0);
    }
  }

  /** `parseLength` has no sign handling: a leading `-` folds in as 45 - 48 =
      -3, so a `-` followed by digits is always negative, which is what the
      `length < 0` null test of the bulk and array parsers relies on. */
  lemma {:induction false} NegativeLength(s: seq<byte>)
    requires |s| >= 1 && s[0] == MINUS && AllDigits(s[1..])
    ensures DecimalValue(s) < 0
    ensures DecimalValue(s) == -3 * Pow10(|s| - 1) + DecimalValue(s[1..])
  {
    assert s == [s[0]] + s[1..];
    DecimalValueAppend([s[0]], s[1..]);
    assert DecimalValue([s[0]]) == -3 by {
      assert [s[0]][..0] == [];
    }
    DigitsBounds(s[1..]);
  }

  /** The null marker `-1` is read as -29. */
  lemma {:induction false} MinusOneLength()
    ensures ParseLength([45, 49, 13, 10], 0) == Field(-29, 4)
  {
    var buf: seq<byte> := [45, 49, 13, 10];
    assert FindCR(buf, 2) == Some(2);
    assert buf[0..2] == [45, 49];
    var one: seq<byte> := [45];
    assert buf[0..2][..1] == one && one[..0] == [];
  }
}
