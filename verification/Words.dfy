/** Machine words of the driver: bytes, and the wrap-around of its unsigned integers. */
module Words {

  type byte = bv8

  datatype Option<+T> = None | Some(value: T)

  /** Return codes; `Ok` stands for the library's zero. */
  datatype Status = Ok | Busy | IoError | ParamError | PllError | UsbError

  /** Conversion to `uint8_t`. */
  function U8(x: int): nat {
    x % 0x100
  }

  /** Conversion to `uint16_t`. */
  function U16(x: int): nat {
    x % 0x1_0000
  }

  /** Conversion to `uint32_t`. */
  function U32(x: int): nat {
    x % 0x1_0000_0000
  }

  /** The value of a 16-bit word read as `int16_t`. */
  function S16(w: nat): int
    requires w < 0x1_0000
  {
    if w < 0x8000 then w else w - 0x1_0000
  }

  /** A byte-sized number survives the conversion to a byte and back; split on the high nibble. */
  lemma ByteBack(x: nat)
    requires x < 256
    ensures (x as byte) as nat == x
  {
    var h, l := x / 16, x % 16;
    assert x == 16 * h + l;
    if h == 0 {} else if h == 1 {} else if h == 2 {} else if h == 3 {} else if h == 4 {} else if h == 5 {}
    else if h == 6 {} else if h == 7 {} else if h == 8 {} else if h == 9 {} else if h == 10 {} else if h == 11 {}
    else if h == 12 {} else if h == 13 {} else if h == 14 {} else {}
  }

  /** Multiplying by a natural number keeps an order. */
  lemma Times(k: nat, a: int, b: int)
    requires a <= b
    ensures k * a <= k * b
  {
  }

  /** Division read as multiplication, for a divisor that is not a constant. */
  lemma Quotient(a: nat, b: nat)
    requires 0 < b
    ensures 0 <= a / b && b * (a / b) <= a < b * (a / b) + b
  {
    var q, r := a / b, a % b;
    assert a == b * q + r && 0 <= r < b;
    if q < 0 {
      Times(b, q, -1);
    }
  }

  lemma QuotientAtLeast(a: nat, b: nat, k: nat)
    requires 0 < b
    ensures a / b >= k <==> b * k <= a
  {
    Quotient(a, b);
    if a / b >= k {
      Times(b, k, a / b);
    } else {
      Times(b, a / b + 1, k);
    }
  }

  lemma QuotientIs(c: nat, e: nat, q: nat)
    requires 0 < e && e * q <= c < e * q + e
    ensures c / e == q
  {
    assert e * (q + 1) == e * q + e;
    QuotientAtLeast(c, e, q);
    QuotientAtLeast(c, e, q + 1);
  }

  lemma SmallNumbersStay(x: nat)
    ensures x < 0x100 ==> U8(x) == x
    ensures x < 0x1_0000 ==> U16(x) == x
    ensures x < 0x1_0000_0000 ==> U32(x) == x
  {
  }

  lemma U16Left(a: int, b: int)
    ensures U16(U16(a) + b) == U16(a + b)
  {
  }

  lemma U32Left(a: int, b: int)
    ensures U32(U32(a) + b) == U32(a + b)
  {
  }

  lemma U32Right(a: int, b: int)
    ensures U32(a - U32(b)) == U32(a - b)
  {
  }
}
