/** 32-bit words as their bits, lowest bit first, with the operators of the program on them. */
module Bits {
  import opened Wire

  type Bits32 = b: seq<bool> | |b| == 32 witness seq(32, _ => false)

  function Zero(): (r: Bits32)
    ensures forall i :: 0 <= i < 32 ==> !r[i]
  {
    seq(32, _ => false)
  }

  function And(a: Bits32, b: Bits32): (r: Bits32)
    ensures forall i :: 0 <= i < 32 ==> r[i] == (a[i] && b[i])
  {
    seq(32, i requires 0 <= i < 32 => a[i] && b[i])
  }

  function Or(a: Bits32, b: Bits32): (r: Bits32)
    ensures forall i :: 0 <= i < 32 ==> r[i] == (a[i] || b[i])
  {
    seq(32, i requires 0 <= i < 32 => a[i] || b[i])
  }

  function Not(a: Bits32): (r: Bits32)
    ensures forall i :: 0 <= i < 32 ==> r[i] == !a[i]
  {
    seq(32, i requires 0 <= i < 32 => !a[i])
  }

  /** a << n: bits pushed past the top are lost. */
  function Shl(a: Bits32, n: nat): (r: Bits32)
    ensures forall i :: 0 <= i < 32 ==> r[i] == (n <= i && a[i - n])
  {
    seq(32, i requires 0 <= i < 32 => n <= i && a[i - n])
  }

  function Shr(a: Bits32, n: nat): (r: Bits32)
    ensures forall i :: 0 <= i < 32 ==> r[i] == (i + n < 32 && a[i + n])
  {
    seq(32, i requires 0 <= i < 32 => i + n < 32 && a[i + n])
  }

  // ----- as numbers -----

  function Pow2(n: nat): (p: nat)
    ensures p > 0
  {
    if n == 0 then 1 else 2 * Pow2(n - 1)
  }

  function Digit(b: bool): nat {
    if b then 1 else 0
  }

  function Value(bs: seq<bool>): (v: nat)
    ensures v < Pow2(|bs|)
  {
    if bs == [] then 0 else Digit(bs[0]) + 2 * Value(bs[1..])
  }

  function Expand(w: nat, n: nat): (bs: seq<bool>)
    ensures |bs| == n
  {
    if n == 0 then [] else [w % 2 == 1] + Expand(w / 2, n - 1)
  }

  lemma {:induction false} ValueExpand(w: nat, n: nat)
    requires w < Pow2(n)
    ensures Value(Expand(w, n)) == w
  {
    if n != 0 {
      ValueExpand(w / 2, n - 1);
    }
  }

  lemma {:induction false} ExpandValue(bs: seq<bool>)
    ensures Expand(Value(bs), |bs|) == bs
  {
    if bs != [] {
      ExpandValue(bs[1..]);
      assert Value(bs) % 2 == Digit(bs[0]) && Value(bs) / 2 == Value(bs[1..]);
    }
  }

  lemma Pow32()
    ensures Pow2(32) == 0x1_0000_0000
  {
    assert Pow2(8) == 0x100;
    assert Pow2(16) == 0x1_0000;
    assert Pow2(24) == 0x100_0000;
  }

  function ToBits(w: Word): Bits32 {
    Expand(w, 32)
  }

  function FromBits(b: Bits32): Word {
    Pow32();
    Value(b)
  }

  lemma WordBits(w: Word, b: Bits32)
    ensures FromBits(ToBits(w)) == w
    ensures ToBits(FromBits(b)) == b
  {
    Pow32();
    ValueExpand(w, 32);
    ExpandValue(b);
  }

  /** Cutting a number to its lowest `n` bits is taking it modulo 2^n. */
  lemma {:induction false} ValueLow(bs: seq<bool>, n: nat)
    requires n <= |bs|
    ensures Value(bs[..n] + seq(|bs| - n, _ => false)) == Value(bs) % Pow2(n)
  {
    var zeros := seq(|bs| - n, _ => false);
    if n == 0 {
      ValueZeros(zeros);
      assert bs[..0] + zeros == zeros;
    } else {
      var tail := bs[1..][..n - 1] + seq(|bs[1..]| - (n - 1), _ => false);
      ValueLow(bs[1..], n - 1);
      assert (bs[..n] + zeros)[1..] == tail;
      ModDouble(Digit(bs[0]), Value(bs[1..]), Pow2(n - 1));
    }
  }

  lemma {:induction false} ValueZeros(bs: seq<bool>)
    requires forall i :: 0 <= i < |bs| ==> !bs[i]
    ensures Value(bs) == 0
  {
    if bs != [] {
      ValueZeros(bs[1..]);
    }
  }

  lemma ModDouble(d: nat, v: nat, p: nat)
    requires d < 2 && p > 0
    ensures (d + 2 * v) % (2 * p) == d + 2 * (v % p)
  {
    var q, r := v / p, v % p;
    assert d + 2 * v == q * (2 * p) + (d + 2 * r) by {
      assert v == q * p + r;
    }
    assert 0 <= d + 2 * r < 2 * p;
    ModUnique(d + 2 * v, 2 * p, q, d + 2 * r);
  }

  lemma MulAtLeast(d: int, m: int)
    requires d >= 1 && m > 0
    ensures d * m >= m
  {
    assert (d - 1) * m >= 0;
  }

  lemma ModUnique(x: nat, m: nat, q: nat, r: nat)
    requires m > 0 && x == q * m + r && r < m
    ensures x % m == r
  {
    var k, s := x / m, x % m;
    assert x == k * m + s;
    assert (k - q) * m == r - s;
    assert (q - k) * m == s - r;
    if k > q {
      MulAtLeast(k - q, m);
    } else if k < q {
      MulAtLeast(q - k, m);
    }
  }
}
