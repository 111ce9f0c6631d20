/** Bytes, fixed-width words and the two byte orders used on the wire. */
module Bytes {

  type byte = b: int | 0 <= b < 0x100
  type uint32 = n: int | 0 <= n < 0x1_0000_0000
  type uint64 = n: int | 0 <= n < 0x1_0000_0000_0000_0000

  type Bytes = seq<byte>
  type Bytes12 = s: Bytes | |s| == 12 witness seq(12, _ => 0)
  type Bytes20 = s: Bytes | |s| == 20 witness seq(20, _ => 0)
  type Bytes32 = s: Bytes | |s| == 32 witness seq(32, _ => 0)

  datatype Option<+T> = None | Some(value: T)

  datatype Result<+T, +E> = Ok(value: T) | Err(error: E)

  function Zeros(n: nat): (s: Bytes)
    ensures |s| == n
  {
    seq(n, _ => 0)
  }

  function Pow256(n: nat): (p: nat)
    ensures p >= 1
  {
    if n == 0 then 1 else 256 * Pow256(n - 1)
  }

  /** The number whose big-endian digits in base 256 are `s`. */
  function BigEndian(s: Bytes): nat {
    if s == [] then 0 else s[0] * Pow256(|s| - 1) + BigEndian(s[1..])
  }

  /** The number whose little-endian digits in base 256 are `s`. */
  function LittleEndian(s: Bytes): nat {
    if s == [] then 0 else s[0] + 256 * LittleEndian(s[1..])
  }

  function ToBigEndian(n: nat, width: nat): (s: Bytes)
    requires n < Pow256(width)
    ensures |s| == width
  {
    if width == 0 then [] else ToBigEndian(n / 256, width - 1) + [n % 256]
  }

  function Reverse(s: Bytes): (r: Bytes)
    ensures |r| == |s|
    ensures forall i :: 0 <= i < |s| ==> r[i] == s[|s| - 1 - i]
  {
    seq(|s|, i requires 0 <= i < |s| => s[|s| - 1 - i])
  }

  /** `u32::to_le_bytes`, `u64::to_le_bytes`. */
  function ToLittleEndian(n: nat, width: nat): (s: Bytes)
    requires n < Pow256(width)
    ensures |s| == width
  {
    Reverse(ToBigEndian(n, width))
  }

  function Concat(parts: seq<Bytes>): Bytes {
    if parts == [] then [] else parts[0] + Concat(parts[1..])
  }

  lemma {:induction false} BigEndianBound(s: Bytes)
    ensures BigEndian(s) < Pow256(|s|)
  {
    if s != [] {
      BigEndianBound(s[1..]);
      MulAtMost(s[0], 255, Pow256(|s| - 1));
    }
  }

  lemma MulAtMost(a: nat, b: nat, p: nat)
    requires a <= b
    ensures a * p <= b * p
  {
  }

  lemma {:induction false} BigEndianAppend(s: Bytes, b: byte)
    ensures BigEndian(s + [b]) == 256 * BigEndian(s) + b
  {
    if s == [] {
      assert s + [b] == [b];
    } else {
      assert (s + [b])[1..] == s[1..] + [b];
      BigEndianAppend(s[1..], b);
      assert s[0] * Pow256(|s|) == 256 * (s[0] * Pow256(|s| - 1));
    }
  }

  lemma {:induction false} BigEndianOfDigits(n: nat, width: nat)
    requires n < Pow256(width)
    ensures BigEndian(ToBigEndian(n, width)) == n
  {
    if width > 0 {
      BigEndianOfDigits(n / 256, width - 1);
      BigEndianAppend(ToBigEndian(n / 256, width - 1), n % 256);
    }
  }

  lemma LastDigit(q: nat, digit: byte)
    ensures (q * 256 + digit) / 256 == q && (q * 256 + digit) % 256 == digit
  {
  }

  lemma {:induction false} DigitsOfBigEndian(s: Bytes)
    ensures BigEndian(s) < Pow256(|s|)
    ensures ToBigEndian(BigEndian(s), |s|) == s
  {
    BigEndianBound(s);
    if s != [] {
      var front, last := s[..|s| - 1], s[|s| - 1];
      assert s == front + [last];
      BigEndianAppend(front, last);
      DigitsOfBigEndian(front);
      LastDigit(BigEndian(front), last);
    }
  }

  /** Equal-length strings with the same value are the same string. */
  lemma BigEndianInjective(s: Bytes, t: Bytes)
    requires |s| == |t| && BigEndian(s) == BigEndian(t)
    ensures s == t
  {
    DigitsOfBigEndian(s);
    DigitsOfBigEndian(t);
  }

  lemma DigitsInjective(m: nat, n: nat, width: nat)
    requires m < Pow256(width) && n < Pow256(width)
    requires ToBigEndian(m, width) == ToBigEndian(n, width)
    ensures m == n
  {
    BigEndianOfDigits(m, width);
    BigEndianOfDigits(n, width);
  }

  /** Reversing the bytes turns one byte order into the other. */
  lemma {:induction false} LittleEndianOfReverse(s: Bytes)
    ensures LittleEndian(Reverse(s)) == BigEndian(s)
  {
    if s != [] {
      var front, last := s[..|s| - 1], s[|s| - 1];
      assert s == front + [last];
      BigEndianAppend(front, last);
      assert Reverse(s) == [last] + Reverse(front);
      LittleEndianOfReverse(front);
    }
  }

  /** Little-endian digits denote the number they are made from. */
  lemma LittleEndianOfDigits(n: nat, width: nat)
    requires n < Pow256(width)
    ensures LittleEndian(ToLittleEndian(n, width)) == n
  {
    LittleEndianOfReverse(ToBigEndian(n, width));
    BigEndianOfDigits(n, width);
  }

  lemma ReverseInjective(s: Bytes, t: Bytes)
    requires Reverse(s) == Reverse(t)
    ensures s == t
  {
    assert |s| == |t|;
    forall i | 0 <= i < |s| ensures s[i] == t[i] {
      assert Reverse(s)[|s| - 1 - i] == s[i];
    }
  }

  lemma {:induction false} ConcatAppend(xs: seq<Bytes>, ys: seq<Bytes>)
    ensures Concat(xs + ys) == Concat(xs) + Concat(ys)
  {
    if xs == [] {
      assert xs + ys == ys;
    } else {
      assert (xs + ys)[1..] == xs[1..] + ys;
      ConcatAppend(xs[1..], ys);
    }
  }

  /** Splitting a concatenation back at a known length. */
  lemma SplitAt(a: Bytes, b: Bytes, c: Bytes, d: Bytes)
    requires a + b == c + d && |a| == |c|
    ensures a == c && b == d
  {
    assert a == (a + b)[..|a|];
    assert b == (a + b)[|a|..];
    assert c == (c + d)[..|c|];
    assert d == (c + d)[|c|..];
  }

  lemma Regroup<T>(a: seq<T>, b: seq<T>, c: seq<T>)
    ensures (a + b) + c == a + (b + c)
  {
  }
}
