// The proof-of-work difficulty test of internal/pow/difficulty.go, related to
// the client's bit-by-bit form and to a bound on the hash read as a number.
module Difficulty {

  // Bit i of the hash, most significant bit of the first byte first.
  function Bit(hash: seq<bv8>, i: nat): bv8
    requires i < 8 * |hash|
  {
    (hash[i / 8] >> (7 - i % 8)) & 1
  }

  ghost predicate LeadingZeros(hash: seq<bv8>, n: nat)
    requires n <= 8 * |hash|
  {
    forall i :: 0 <= i < n ==> Bit(hash, i) == 0
  }

  function Pow2(n: nat): nat {
    if n == 0 then 1 else 2 * Pow2(n - 1)
  }

  // The hash as a big-endian number.
  function BigEndian(hash: seq<bv8>): nat {
    if hash == [] then 0 else hash[0] as nat * Pow2(8 * (|hash| - 1)) + BigEndian(hash[1..])
  }

  // 0xFF shifted left by k and cut back to a byte.
  function Mask(k: nat): bv8
    requires k <= 8
  {
    0xFF << k
  }

  // The requirement over all integers: none at or below zero, impossible
  // beyond the length of the hash.
  ghost predicate Meets(hash: seq<bv8>, n: int) {
    n <= 0 || (n <= 8 * |hash| && LeadingZeros(hash, n))
  }

  method HasLeadingZeroBits(hash: seq<bv8>, n: int) returns (ok: bool)
    ensures ok <==> Meets(hash, n)
    ensures 0 <= n <= 8 * |hash| ==> (ok <==> BigEndian(hash) < Pow2(8 * |hash| - n))
  {
    MeetsByBytes(hash, n);
    if n <= 0 { return true; }
    if n > 8 * |hash| { return false; }
    var fullBytes, remBits := n / 8, n % 8;
    for i := 0 to fullBytes
      invariant forall j :: 0 <= j < i ==> hash[j] == 0
    {
      if hash[i] != 0 { return false; }
    }
    if remBits > 0 {
      if hash[fullBytes] & Mask(8 - remBits) != 0 { return false; }
    }
    return true;
  }

  function ByteBit(b: bv8, i: nat): bv8
    requires i < 8
  {
    (b >> (7 - i)) & 1
  }

  predicate FirstBitsZero(b: bv8, r: nat)
    requires r <= 8
  {
    r == 0 || (ByteBit(b, r - 1) == 0 && FirstBitsZero(b, r - 1))
  }

  lemma {:induction false} FirstBits(b: bv8, r: nat)
    requires r <= 8
    ensures FirstBitsZero(b, r) <==> forall i :: 0 <= i < r ==> ByteBit(b, i) == 0
  {
    if r > 0 { FirstBits(b, r - 1); }
  }

  // One byte: its first r bits are zero, the mask clears it, and its value
  // is below 2^(8 - r) all at once.
  lemma BitsOfByte(b: bv8, r: nat)
    requires r <= 8
    ensures (forall i :: 0 <= i < r ==> ByteBit(b, i) == 0) <==> b as nat < Pow2(8 - r)
    ensures (forall i :: 0 <= i < r ==> ByteBit(b, i) == 0) <==> b & Mask(8 - r) == 0
  {
    FirstBits(b, r);
    ByteBound(b, r);
  }

  lemma ByteBound(b: bv8, r: nat)
    requires r <= 8
    ensures FirstBitsZero(b, r) <==> b as nat < Pow2(8 - r)
    ensures FirstBitsZero(b, r) <==> b & Mask(8 - r) == 0
  {
    assert Pow2(1) == 2 && Pow2(2) == 4 && Pow2(3) == 8 && Pow2(4) == 16;
    assert Pow2(5) == 32 && Pow2(6) == 64 && Pow2(7) == 128 && Pow2(8) == 256;
    if r == 0 {
    } else if r == 1 {
    } else if r == 2 {
    } else if r == 3 {
    } else if r == 4 {
    } else if r == 5 {
    } else if r == 6 {
    } else if r == 7 {
    } else {
    }
  }

  // Whole bytes first, then the masked one.
  lemma LeadingZerosByBytes(hash: seq<bv8>, n: nat)
    requires n <= 8 * |hash|
    ensures LeadingZeros(hash, n) <==>
      (forall j :: 0 <= j < n / 8 ==> hash[j] == 0) && (n % 8 > 0 ==> hash[n / 8] & Mask(8 - n % 8) == 0)
  {
    forall j | 0 <= j < n / 8
      ensures hash[j] == 0 <==> forall i :: 8 * j <= i < 8 * j + 8 ==> Bit(hash, i) == 0
    {
      ByteAt(hash, j, 8);
    }
    if n % 8 > 0 { ByteAt(hash, n / 8, n % 8); }
  }

  // What the loop and the mask test establish together.
  lemma MeetsByBytes(hash: seq<bv8>, n: int)
    ensures n <= 0 ==> Meets(hash, n)
    ensures n > 8 * |hash| ==> !Meets(hash, n)
    ensures 0 < n <= 8 * |hash| ==>
      (Meets(hash, n) <==>
       (forall j :: 0 <= j < n / 8 ==> hash[j] == 0) && (n % 8 > 0 ==> hash[n / 8] & Mask(8 - n % 8) == 0))
    ensures 0 <= n <= 8 * |hash| ==> (Meets(hash, n) <==> BigEndian(hash) < Pow2(8 * |hash| - n))
  {
    if 0 <= n <= 8 * |hash| {
      BitsMeanBound(hash, n);
      LeadingZerosByBytes(hash, n);
    }
  }

  lemma BitIsByteBit(hash: seq<bv8>, j: nat, i: nat)
    requires j < |hash| && i < 8
    ensures Bit(hash, 8 * j + i) == ByteBit(hash[j], i)
  {
    assert (8 * j + i) / 8 == j && (8 * j + i) % 8 == i;
  }

  lemma FullMask(b: bv8)
    ensures b & Mask(0) == b
  {
  }

  lemma ByteAt(hash: seq<bv8>, j: nat, r: nat)
    requires j < |hash| && 0 < r <= 8
    ensures hash[j] & Mask(8 - r) == 0 <==> forall i :: 8 * j <= i < 8 * j + r ==> Bit(hash, i) == 0
    ensures r == 8 ==> hash[j] & Mask(8 - r) == hash[j]
  {
    BitsOfByte(hash[j], r);
    FullMask(hash[j]);
    BitsAreByteBits(hash, j, r);
  }

  lemma BitsAreByteBits(hash: seq<bv8>, j: nat, r: nat)
    requires j < |hash| && r <= 8
    ensures (forall i :: 8 * j <= i < 8 * j + r ==> Bit(hash, i) == 0) <==> (forall i :: 0 <= i < r ==> ByteBit(hash[j], i) == 0)
  {
    if i :| 0 <= i < r && ByteBit(hash[j], i) != 0 {
      BitIsByteBit(hash, j, i);
    } else {
      forall i | 8 * j <= i < 8 * j + r ensures Bit(hash, i) == 0 { BitIsByteBit(hash, j, i - 8 * j); }
    }
  }

  lemma {:induction false} Pow2Sum(a: nat, b: nat)
    ensures Pow2(a + b) == Pow2(a) * Pow2(b)
  {
    if a > 0 { Pow2Sum(a - 1, b); }
  }

  lemma {:induction false} Pow2Monotone(a: nat, b: nat)
    requires a <= b
    ensures 0 < Pow2(a) <= Pow2(b)
  {
    if b > 0 { if a < b { Pow2Monotone(a, b - 1); } else { Pow2Monotone(a - 1, b - 1); } }
  }

  // b * p + r is below c * p exactly when b is below c.
  lemma LeadingDigit(b: nat, c: nat, p: nat, r: nat)
    requires r < p
    ensures b * p + r < c * p <==> b < c
  {
    if b < c { assert (b + 1) * p <= c * p; } else { assert c * p <= b * p; }
  }

  lemma LeadingZerosFirstByte(hash: seq<bv8>, n: nat)
    requires hash != [] && n <= 8 * |hash|
    ensures n <= 8 ==> (LeadingZeros(hash, n) <==> forall i :: 0 <= i < n ==> ByteBit(hash[0], i) == 0)
    ensures n > 8 ==> (LeadingZeros(hash, n) <==>
                       (forall i :: 0 <= i < 8 ==> ByteBit(hash[0], i) == 0) && LeadingZeros(hash[1..], n - 8))
  {
    assert forall i :: 0 <= i < 8 ==> Bit(hash, i) == ByteBit(hash[0], i);
    forall i | 0 <= i < n - 8 ensures Bit(hash, i + 8) == Bit(hash[1..], i) {
      assert hash[(i + 8) / 8] == hash[1..][i / 8] && (i + 8) % 8 == i % 8;
    }
    if n > 8 && (forall i :: 0 <= i < 8 ==> ByteBit(hash[0], i) == 0) && LeadingZeros(hash[1..], n - 8) {
      forall i | 0 <= i < n ensures Bit(hash, i) == 0 {
        if i >= 8 { assert Bit(hash, (i - 8) + 8) == Bit(hash[1..], i - 8); }
      }
    }
  }

  // A number with leading digit b < 256 and the rest below p, against a
  // power of two.
  lemma HighByte(b: nat, rest: nat, size: nat, n: nat)
    requires b < 256 && size > 0 && n <= 8 * size && rest < Pow2(8 * (size - 1))
    ensures var v := b * Pow2(8 * (size - 1)) + rest;
            if n <= 8 then v < Pow2(8 * size - n) <==> b < Pow2(8 - n)
            else v < Pow2(8 * size - n) <==> b == 0 && rest < Pow2(8 * (size - 1) - (n - 8))
  {
    var p := Pow2(8 * (size - 1));
    if n <= 8 {
      Pow2Sum(8 - n, 8 * (size - 1));
      LeadingDigit(b, Pow2(8 - n), p, rest);
    } else {
      Pow2Monotone(8 * size - n, 8 * (size - 1));
      LeadingDigit(b, 1, p, rest);
    }
  }

  // The first n bits are zero exactly when the hash, read as a number, is
  // below 2^(8L - n).
  lemma {:induction false} BitsMeanBound(hash: seq<bv8>, n: nat)
    requires n <= 8 * |hash|
    ensures LeadingZeros(hash, n) <==> BigEndian(hash) < Pow2(8 * |hash| - n)
  {
    if hash != [] {
      BitsMeanBound(hash[1..], 0);
      LeadingZerosFirstByte(hash, n);
      HighByte(hash[0] as nat, BigEndian(hash[1..]), |hash|, n);
      assert BigEndian(hash[1..]) < Pow2(8 * |hash| - 8);
      if n <= 8 {
        BitsOfByte(hash[0], n);
      } else {
        BitsOfByte(hash[0], 8);
        BitsMeanBound(hash[1..], n - 8);
      }
    }
  }

  // A harder requirement is never met where an easier one fails.
  lemma BoundIsAntitone(hash: seq<bv8>, m: nat, n: nat)
    requires m <= n <= 8 * |hash| && BigEndian(hash) < Pow2(8 * |hash| - n)
    ensures BigEndian(hash) < Pow2(8 * |hash| - m)
  {
    Pow2Monotone(8 * |hash| - n, 8 * |hash| - m);
  }
}
