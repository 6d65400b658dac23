/** Big-endian byte strings: the fixed-width numbers the attestor stores as keys and hashes as words. */
module BigEndian {
  type Byte = b: int | 0 <= b < 256
  type Bytes = seq<Byte>

  const U64_LIMIT: nat := 0x1_0000_0000_0000_0000

  type U64 = n: nat | n < U64_LIMIT
  type I64 = n: int | -0x8000_0000_0000_0000 <= n < 0x8000_0000_0000_0000

  // n + 1 in uint64 arithmetic.
  function Increment(n: nat): nat {
    if n + 1 == U64_LIMIT then 0 else n + 1
  }

  // 256 to the power n: the number of byte strings of length n.
  function Pow(n: nat): (p: nat)
    ensures p >= 1
  {
    if n == 0 then 1 else 256 * Pow(n - 1)
  }

  // The n low-order bytes of v, most significant byte first.
  function Encode(v: nat, n: nat): (b: Bytes)
    ensures |b| == n
  {
    if n == 0 then [] else Encode(v / 256, n - 1) + [v % 256]
  }

  // The number a big-endian byte string stands for.
  function Decode(b: Bytes): (v: nat)
    ensures v < Pow(|b|)
  {
    if |b| == 0 then 0 else Decode(b[..|b| - 1]) * 256 + b[|b| - 1]
  }

  // An Ethereum address.
  type Address = a: Bytes | |a| == 20 witness Encode(0, 20)

  // bytes.Compare(a, b) < 0.
  predicate Less(a: Bytes, b: Bytes) {
    |b| > 0 && (|a| == 0 || a[0] < b[0] || (a[0] == b[0] && Less(a[1..], b[1..])))
  }

  lemma Pow8()
    ensures Pow(8) == U64_LIMIT
  {
    assert Pow(2) == 0x1_0000;
    assert Pow(4) == 0x1_0000_0000;
    assert Pow(6) == 0x1_0000_0000_0000;
  }

  lemma {:induction false} DecodeEncode(v: nat, n: nat)
    requires v < Pow(n)
    ensures Decode(Encode(v, n)) == v
  {
    if n > 0 {
      DecodeEncode(v / 256, n - 1);
      assert Encode(v, n)[..n - 1] == Encode(v / 256, n - 1);
    }
  }

  lemma {:induction false} EncodeDecode(b: Bytes)
    ensures Encode(Decode(b), |b|) == b
  {
    if |b| > 0 {
      EncodeDecode(b[..|b| - 1]);
      var d := Decode(b[..|b| - 1]);
      assert (d * 256 + b[|b| - 1]) / 256 == d;
    }
  }

  lemma ShiftDigit(digit: nat, weight: nat)
    ensures (digit * weight) * 256 == digit * (256 * weight)
  {
  }

  lemma {:induction false} DecodeHead(b: Bytes)
    requires |b| > 0
    ensures Decode(b) == b[0] * Pow(|b| - 1) + Decode(b[1..])
  {
    if |b| > 1 {
      var front := b[..|b| - 1];
      DecodeHead(front);
      assert Decode(b[1..]) == Decode(front[1..]) * 256 + b[|b| - 1] by {
        assert b[1..][..|b| - 2] == front[1..];
      }
      ShiftDigit(b[0], Pow(|b| - 2));
    }
  }

  // A smaller leading digit outweighs any lower digits.
  lemma {:induction false} LeadingDigitDecides(x: nat, y: nat, weight: nat, rest: nat)
    requires x < y && rest < weight
    ensures x * weight + rest < y * weight
  {
    assert y * weight == (y - 1) * weight + weight;
    if x < y - 1 {
      LeadingDigitDecides(x, y - 1, weight, rest);
    }
  }

  lemma {:induction false} LessIsNumericOrder(a: Bytes, b: Bytes)
    requires |a| == |b|
    ensures Less(a, b) <==> Decode(a) < Decode(b)
  {
    if |a| > 0 {
      DecodeHead(a);
      DecodeHead(b);
      LessIsNumericOrder(a[1..], b[1..]);
      if a[0] < b[0] {
        LeadingDigitDecides(a[0], b[0], Pow(|a| - 1), Decode(a[1..]));
      } else if b[0] < a[0] {
        LeadingDigitDecides(b[0], a[0], Pow(|a| - 1), Decode(b[1..]));
      }
    }
  }

  // The uint64 conversion of an int64: two's complement.
  function FromI64(v: I64): (u: U64) {
    if v < 0 then v + U64_LIMIT else v
  }

  // The int64 conversion of a uint64.
  function ToI64(u: U64): (v: I64) {
    if u < 0x8000_0000_0000_0000 then u else u - U64_LIMIT
  }

  /** The uint64 keys are exactly the 8-byte strings, and cursor order on them is numeric order. */
  lemma U64KeysEmbedOrder(x: U64, y: U64, k: Bytes)
    ensures Decode(Encode(x, 8)) == x
    ensures |k| == 8 ==> Decode(k) < U64_LIMIT && Encode(Decode(k), 8) == k
    ensures Less(Encode(x, 8), Encode(y, 8)) <==> x < y
  {
    Pow8();
    DecodeEncode(x, 8);
    DecodeEncode(y, 8);
    LessIsNumericOrder(Encode(x, 8), Encode(y, 8));
    if |k| == 8 { EncodeDecode(k); }
  }

  /** The int64 keys round-trip too, but cursor order follows the numbers only within one sign:
      every negative key sorts after every non-negative one. */
  lemma I64KeysOrderedWithinSign(x: I64, y: I64)
    requires x < y
    ensures ToI64(Decode(Encode(FromI64(x), 8))) == x
    ensures Less(Encode(FromI64(x), 8), Encode(FromI64(y), 8)) <==> (x < 0 <==> y < 0)
  {
    U64KeysEmbedOrder(FromI64(x), FromI64(y), []);
  }

  // Writes the low-order bytes of v into buf[lo..hi], as PutUint64 and FillBytes lay numbers out.
  method WriteBigEndian(buf: array<Byte>, lo: nat, hi: nat, v: nat)
    requires lo <= hi <= buf.Length
    modifies buf
    ensures buf[lo..hi] == Encode(v, hi - lo)
    ensures buf[..lo] == old(buf[..lo]) && buf[hi..] == old(buf[hi..])
  {
    var i, rest := hi, v;
    while i > lo
      invariant lo <= i <= hi
      invariant Encode(v, hi - lo) == Encode(rest, i - lo) + buf[i..hi]
      invariant buf[..lo] == old(buf[..lo]) && buf[hi..] == old(buf[hi..])
    {
      ghost var done := buf[i..hi];
      ghost var digit: Bytes := [rest % 256];
      i := i - 1;
      buf[i] := rest % 256;
      assert buf[i..hi] == digit + done;
      assert Encode(rest, i + 1 - lo) + done == Encode(rest / 256, i - lo) + (digit + done);
      rest := rest / 256;
    }
  }

  /** The byte form a number takes as a store key. */
  method KeyBytes(v: U64) returns (key: array<Byte>)
    ensures fresh(key) && key[..] == Encode(v, 8)
  {
    key := new Byte[8](_ => 0);
    WriteBigEndian(key, 0, 8, v);
    assert key[..] == key[0..8];
  }
}
