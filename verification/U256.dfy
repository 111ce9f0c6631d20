/** Big-endian 256-bit arithmetic by byte loops, proved to be arithmetic modulo 2^256. */
module U256 {
  import opened Bytes

  const TWO_256: nat := 0x1_0000000000000000_0000000000000000_0000000000000000_0000000000000000

  datatype Ordering = Less | Equal | Greater

  /** The number a 256-bit word stands for. */
  function Value(a: Bytes32): nat {
    BigEndian(a)
  }

  lemma Pow256Of32()
    ensures Pow256(32) == TWO_256
  {
    assert Pow256(8) == 0x1_0000000000000000;
    assert Pow256(16) == Pow256(8) * 0x1_0000000000000000 by { Pow256Add(8, 8); }
    assert Pow256(32) == Pow256(16) * Pow256(16) by { Pow256Add(16, 16); }
  }

  lemma {:induction false} Pow256Add(m: nat, n: nat)
    ensures Pow256(m + n) == Pow256(m) * Pow256(n)
  {
    if m > 0 {
      Pow256Add(m - 1, n);
      MulRegroup(256, Pow256(m - 1), Pow256(n));
    }
  }

  lemma MulRegroup(a: nat, b: nat, c: nat)
    ensures a * (b * c) == (a * b) * c
  {
  }

  lemma ValueBound(a: Bytes32)
    ensures Value(a) < TWO_256
  {
    BigEndianBound(a);
    Pow256Of32();
  }

  /** The word holding `n` modulo 2^256. */
  function Word(n: nat): (w: Bytes32)
    ensures Value(w) == n % TWO_256
  {
    Pow256Of32();
    BigEndianOfDigits(n % TWO_256, 32);
    ToBigEndian(n % TWO_256, 32)
  }

  // ----- the carry loops -----

  /** One digit of a carry loop: `digit` and `carry` are the low byte and the rest of `sum`. */
  lemma CarryDigit(out: Bytes, digit: byte, carry: nat, oldCarry: nat, scaled: nat, rest: nat)
    requires scaled + oldCarry == 256 * carry + digit
    requires BigEndian(out) + oldCarry * Pow256(|out|) == rest
    ensures BigEndian([digit] + out) + carry * Pow256(|out| + 1) == scaled * Pow256(|out|) + rest
  {
    assert ([digit] + out)[1..] == out;
    assert BigEndian([digit] + out) == digit * Pow256(|out|) + BigEndian(out);
    CarryAlgebra(Pow256(|out|), digit, carry, oldCarry, scaled);
  }

  lemma CarryAlgebra(p: nat, digit: nat, carry: nat, oldCarry: nat, scaled: nat)
    requires scaled + oldCarry == 256 * carry + digit
    ensures digit * p + carry * (256 * p) == scaled * p + oldCarry * p
  {
    assert (256 * carry + digit) * p == carry * (256 * p) + digit * p;
    assert (scaled + oldCarry) * p == scaled * p + oldCarry * p;
  }

  /** A 32-byte result plus a lost carry is the true value modulo 2^256. */
  lemma DropCarry(out: Bytes32, carry: nat, total: nat)
    requires BigEndian(out) + carry * Pow256(32) == total
    ensures Value(out) == total % TWO_256
  {
    Pow256Of32();
    ValueBound(out);
  }

  /** `out` and `carry` account for the low digits of the sum, from position `i` down to the last. */
  ghost predicate SumFrom(a: Bytes32, b: Bytes32, i: nat, out: Bytes, carry: nat)
    requires i <= 32
  {
    && |out| == 32 - i
    && BigEndian(out) + carry * Pow256(32 - i) == BigEndian(a[i..]) + BigEndian(b[i..])
  }

  lemma SumStep(a: Bytes32, b: Bytes32, i: nat, out: Bytes, oldCarry: nat, digit: byte, carry: nat)
    requires i < 32 && SumFrom(a, b, i + 1, out, oldCarry)
    requires a[i] as nat + b[i] as nat + oldCarry == 256 * carry + digit
    ensures SumFrom(a, b, i, [digit] + out, carry)
  {
    assert a[i..][1..] == a[i + 1..] && b[i..][1..] == b[i + 1..];
    CarryDigit(out, digit, carry, oldCarry, a[i] as nat + b[i] as nat, BigEndian(a[i + 1..]) + BigEndian(b[i + 1..]));
    AddDigits(a[i], b[i], Pow256(31 - i));
  }

  lemma SumDone(a: Bytes32, b: Bytes32, out: Bytes, carry: nat)
    requires SumFrom(a, b, 0, out, carry)
    ensures Value(out) == (Value(a) + Value(b)) % TWO_256
  {
    assert a[0..] == a && b[0..] == b;
    DropCarry(out, carry, Value(a) + Value(b));
  }

  method U256Add(a: Bytes32, b: Bytes32) returns (r: Bytes32)
    ensures Value(r) == (Value(a) + Value(b)) % TWO_256
  {
    var out := new byte[32](_ => 0);
    var carry: nat := 0;
    var i := 32;
    while i > 0
      invariant 0 <= i <= 32 && carry <= 1
      invariant SumFrom(a, b, i, out[i..], carry)
    {
      i := i - 1;
      ghost var done, oldCarry := out[i + 1..], carry;
      var sum: nat := a[i] as nat + b[i] as nat + carry;
      assert sum <= 0xffff;  // fits the source's u16
      out[i] := sum % 256;
      carry := sum / 256;
      SumStep(a, b, i, done, oldCarry, out[i], carry);
      assert out[i..] == [out[i]] + done;
    }
    r := out[..];
    assert out[0..] == out[..];
    SumDone(a, b, r, carry);
  }

  /** The same account for a product by `m`. */
  ghost predicate ProductFrom(a: Bytes32, m: nat, i: nat, out: Bytes, carry: nat)
    requires i <= 32
  {
    && |out| == 32 - i
    && BigEndian(out) + carry * Pow256(32 - i) == BigEndian(a[i..]) * m
  }

  lemma ProductStep(a: Bytes32, m: nat, i: nat, out: Bytes, oldCarry: nat, digit: byte, carry: nat)
    requires i < 32 && ProductFrom(a, m, i + 1, out, oldCarry)
    requires a[i] * m + oldCarry == 256 * carry + digit
    ensures ProductFrom(a, m, i, [digit] + out, carry)
  {
    assert a[i..][1..] == a[i + 1..];
    CarryDigit(out, digit, carry, oldCarry, a[i] * m, BigEndian(a[i + 1..]) * m);
    MulDigit(a[i], Pow256(31 - i), BigEndian(a[i + 1..]), m);
  }

  lemma ProductDone(a: Bytes32, m: nat, out: Bytes, carry: nat)
    requires ProductFrom(a, m, 0, out, carry)
    ensures Value(out) == (Value(a) * m) % TWO_256
  {
    assert a[0..] == a;
    DropCarry(out, carry, Value(a) * m);
  }

  /** A digit times `m` plus a carry of at most `m` carries at most `m` again. */
  lemma CarryBound(d: byte, m: uint64, carry: nat)
    requires carry <= m
    ensures d * m + carry <= 256 * m
    ensures (d * m + carry) / 256 <= m
  {
    MulAtMost(d, 255, m);
  }

  /** One step of the product: the low byte is the digit, the rest is carried. */
  method MulOneDigit(d: byte, m: uint64, carry: nat) returns (digit: byte, next: nat)
    requires carry <= m
    ensures d * m + carry == 256 * next + digit && next <= m
  {
    CarryBound(d, m, carry);
    var prod: nat := d * m + carry;
    assert prod < 0x1_0000000000000000_0000000000000000;  // fits the source's u128
    digit, next := prod % 256, prod / 256;
  }

  method U256MulU64(a: Bytes32, m: uint64) returns (r: Bytes32)
    ensures Value(r) == (Value(a) * m) % TWO_256
  {
    var out := new byte[32](_ => 0);
    var carry: nat := 0;
    var i := 32;
    while i > 0
      invariant 0 <= i <= 32 && carry <= m
      invariant ProductFrom(a, m, i, out[i..], carry)
    {
      i := i - 1;
      ghost var done, oldCarry := out[i + 1..], carry;
      var digit;
      digit, carry := MulOneDigit(a[i], m, carry);
      out[i] := digit;
      ProductStep(a, m, i, done, oldCarry, digit, carry);
      assert out[i..] == [out[i]] + done;
    }
    r := out[..];
    assert out[0..] == out[..];
    ProductDone(a, m, r, carry);
  }

  lemma AddDigits(c: nat, d: nat, p: nat)
    ensures (c + d) * p == c * p + d * p
  {
  }

  lemma MulDigit(d: nat, p: nat, rest: nat, m: nat)
    ensures (d * p + rest) * m == (d * m) * p + rest * m
  {
    assert (d * p + rest) * m == (d * p) * m + rest * m;
    assert (d * p) * m == (d * m) * p;
  }

  // ----- comparison -----

  /** Lexicographic byte comparison, as slices compare. */
  function CompareBytes(a: Bytes, b: Bytes): Ordering
    requires |a| == |b|
  {
    if a == [] then Equal
    else if a[0] < b[0] then Less
    else if a[0] > b[0] then Greater
    else CompareBytes(a[1..], b[1..])
  }

  function U256Cmp(a: Bytes32, b: Bytes32): Ordering {
    CompareBytes(a, b)
  }

  function CompareNumbers(m: nat, n: nat): Ordering {
    if m < n then Less else if m == n then Equal else Greater
  }

  /** Big-endian byte order is numeric order, at any width. */
  lemma {:induction false} CompareBytesIsNumeric(a: Bytes, b: Bytes)
    requires |a| == |b|
    ensures CompareBytes(a, b) == CompareNumbers(BigEndian(a), BigEndian(b))
  {
    if a != [] {
      var p := Pow256(|a| - 1);
      BigEndianBound(a[1..]);
      BigEndianBound(b[1..]);
      if a[0] < b[0] {
        HigherDigitWins(a[0], b[0], p, BigEndian(a[1..]), BigEndian(b[1..]));
      } else if a[0] > b[0] {
        HigherDigitWins(b[0], a[0], p, BigEndian(b[1..]), BigEndian(a[1..]));
      } else {
        CompareBytesIsNumeric(a[1..], b[1..]);
      }
    }
  }

  lemma HigherDigitWins(c: nat, d: nat, p: nat, x: nat, y: nat)
    requires c < d && x < p
    ensures c * p + x < d * p + y
  {
    assert (c + 1) * p == c * p + p;
    MulAtMost(c + 1, d, p);
  }

  lemma U256CmpIsNumeric(a: Bytes32, b: Bytes32)
    ensures U256Cmp(a, b) == CompareNumbers(Value(a), Value(b))
  {
    CompareBytesIsNumeric(a, b);
  }
}
