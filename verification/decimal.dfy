/** Decimal digit arithmetic shared by the field scanners and the reference
    encoder: the left fold `number * 10 + (c - 48)` that every numeric scanner
    of the parser performs, the ASCII digits of a natural number, and the
    JavaScript `String(n)` rendering of an integer. */
module Decimal {

  /** A byte of a chunk delivered by the transport. */
  type byte = x: int | 0 <= x < 256

  predicate IsDigit(c: byte) {
    48 <= c <= 57
  }

  predicate AllDigits(s: seq<byte>) {
    forall k :: 0 <= k < |s| ==> IsDigit(s[k])
  }

  /** The value the scan loops accumulate: starting from 0, each byte `c`
      turns `number` into `number * 10 + (c - 48)`. No byte is rejected, so a
      non-digit contributes `c - 48` (a `-` contributes -3). */
  function DecimalValue(s: seq<byte>): int
    decreases |s|
  {
    if |s| == 0 then 0 else DecimalValue(s[..|s| - 1]) * 10 + (s[|s| - 1] as int - 48)
  }

  function Pow10(n: nat): (r: nat)
    ensures r >= 1
  {
    if n == 0 then 1 else 10 * Pow10(n - 1)
  }

  /** The ASCII decimal digits of `n`, most significant first, no leading zero. */
  function NatBytes(n: nat): (r: seq<byte>)
    ensures 1 <= |r|
    ensures AllDigits(r)
    ensures n > 0 ==> r[0] != 48
    decreases n
  {
    if n < 10 then [48 + n] else NatBytes(n / 10) + [48 + n % 10]
  }

  /** Bytes read as Latin-1 characters: the digits and `-` the scanners see. */
  function ByteChars(s: seq<byte>): (r: string)
    ensures |r| == |s|
    ensures forall k :: 0 <= k < |s| ==> r[k] as int == s[k]
  {
    seq(|s|, k requires 0 <= k < |s| => s[k] as char)
  }

  /** JavaScript's `String(n)` for a natural number below 10^21. */
  function NatText(n: nat): string {
    ByteChars(NatBytes(n))
  }

  /** JavaScript's `String(i)` for an integer: a `-` for negatives, then the digits. */
  function IntText(i: int): string {
    if i < 0 then "-" + NatText(-i) else NatText(i)
  }

  lemma {:induction false} DecimalValueAppend(a: seq<byte>, b: seq<byte>)
    ensures DecimalValue(a + b) == DecimalValue(a) * Pow10(|b|) + DecimalValue(b)
    decreases |b|
  {
    if |b| == 0 {
      assert a + b == a;
    } else {
      var b' := b[..|b| - 1];
      assert (a + b)[..|a + b| - 1] == a + b';
      DecimalValueAppend(a, b');
      calc {
        DecimalValue(a + b);
        DecimalValue(a + b') * 10 + (b[|b| - 1] as int - 48);
        (DecimalValue(a) * Pow10(|b'|) + DecimalValue(b')) * 10 + (b[|b| - 1] as int - 48);
        { assert Pow10(|b|) == 10 * Pow10(|b'|); }
        DecimalValue(a) * Pow10(|b|) + DecimalValue(b);
      }
    }
  }

  /** A run of digits denotes a number in [0, 10^length). */
  lemma {:induction false} DigitsBounds(s: seq<byte>)
    requires AllDigits(s)
    ensures 0 <= DecimalValue(s) < Pow10(|s|)
    decreases |s|
  {
    if |s| > 0 {
      DigitsBounds(s[..|s| - 1]);
    }
  }

  /** Reading back the digits of `n` gives `n`. */
  lemma {:induction false} DecimalOfNatBytes(n: nat)
    ensures DecimalValue(NatBytes(n)) == n
    decreases n
  {
    if n >= 10 {
      var s := NatBytes(n);
      assert s[..|s| - 1] == NatBytes(n / 10);
      DecimalOfNatBytes(n / 10);
    }
  }

  /** Appending one digit to a positive number appends its byte to the text. */
  lemma NatBytesShift(n: nat, d: nat)
    requires n > 0 && d < 10
    ensures NatBytes(n * 10 + d) == NatBytes(n) + [48 + d]
  {
    assert (n * 10 + d) / 10 == n;
    assert (n * 10 + d) % 10 == d;
  }
}
