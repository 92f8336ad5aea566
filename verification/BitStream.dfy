// Bit strings in the order in which DEFLATE sends them (section 3.1.1 of RFC 1951).
module BitStream {
  import opened Bits
  import opened Lz77

  // A field of n bits, least significant bit first.
  function BitsOf(v: nat, n: nat): (r: seq<bool>)
    ensures |r| == n
  {
    if n == 0 then [] else [v % 2 == 1] + BitsOf(v / 2, n - 1)
  }

  // A Huffman code of n bits, most significant bit first.
  function MsbBits(v: nat, n: nat): (r: seq<bool>)
    ensures |r| == n
  {
    if n == 0 then [] else MsbBits(v / 2, n - 1) + [v % 2 == 1]
  }

  function Num(bs: seq<bool>): nat
  {
    if bs == [] then 0 else (if bs[0] then 1 else 0) + 2 * Num(bs[1..])
  }

  // The bits of a byte string.
  function Packed(bytes: seq<Byte>): seq<bool>
  {
    if bytes == [] then [] else Packed(bytes[..|bytes| - 1]) + BitsOf(bytes[|bytes| - 1], 8)
  }

  lemma {:induction false} PackedLength(bytes: seq<Byte>)
    ensures |Packed(bytes)| == 8 * |bytes|
  {
    if bytes != [] { PackedLength(bytes[..|bytes| - 1]); }
  }

  lemma {:induction false} PackedSnoc(bytes: seq<Byte>, b: Byte)
    ensures Packed(bytes + [b]) == Packed(bytes) + BitsOf(b, 8)
  {
    assert (bytes + [b])[..|bytes|] == bytes;
  }

  lemma {:induction false} NumBits(v: nat, n: nat)
    requires v < Pow2(n)
    ensures Num(BitsOf(v, n)) == v
  {
    if n != 0 {
      NumBits(v / 2, n - 1);
      assert BitsOf(v, n)[1..] == BitsOf(v / 2, n - 1);
    }
  }

  lemma {:induction false} BitsSplit(v: nat, a: nat, n: nat)
    ensures BitsOf(v, a + n) == BitsOf(v, a) + BitsOf(Shr(v, a), n)
  {
    if a != 0 {
      BitsSplit(v / 2, a - 1, n);
      var b, x, y := [v % 2 == 1], BitsOf(v / 2, a - 1), BitsOf(Shr(v, a), n);
      assert b + (x + y) == (b + x) + y;
    }
  }

  // Two fields packed into one number.
  lemma {:induction false} BitsAppend(x: nat, k: nat, y: nat, n: nat)
    requires x < Pow2(k)
    ensures BitsOf(x + Shl(y, k), k + n) == BitsOf(x, k) + BitsOf(y, n)
  {
    if k != 0 {
      BitsAppend(x / 2, k - 1, y, n);
      var z := x + Shl(y, k);
      assert z % 2 == x % 2 && z / 2 == x / 2 + Shl(y, k - 1);
      var b, u, w := [x % 2 == 1], BitsOf(x / 2, k - 1), BitsOf(y, n);
      assert b + (u + w) == (b + u) + w;
    }
  }

  lemma {:induction false} BitsOfLow(v: nat, k: nat)
    ensures BitsOf(Low(v, k), k) == BitsOf(v, k)
  {
    if k != 0 {
      BitsOfLow(v / 2, k - 1);
      assert Low(v, k) % 2 == v % 2 && Low(v, k) / 2 == Low(v / 2, k - 1);
    }
  }
}
