// The bit writer of gzip.c: send_bits, bi_windup, copy_block and the output buffer.
module BitWriter {
  import opened Bits
  import opened Lz77
  import opened BitStream

  const OUTBUFSIZ := 8192
  const BUF_SIZE := 16

  class Writer {
    var file: seq<Byte>           // what xwrite has been given
    const outbuf: array<Byte>
    var outcnt: nat
    var biBuf: nat
    var biValid: nat

    ghost predicate Valid()
      reads this, outbuf
    {
      && outbuf.Length == OUTBUFSIZ && outcnt < OUTBUFSIZ
      && biValid <= BUF_SIZE && biBuf < Pow2(biValid)
    }

    // All bytes put out so far.
    ghost function Bytes(): seq<Byte>
      reads this, outbuf
      requires Valid()
    {
      file + outbuf[..outcnt]
    }

    // All bits sent so far, those still in bi_buf included.
    ghost function Sent(): seq<bool>
      reads this, outbuf
      requires Valid()
    {
      Packed(Bytes()) + BitsOf(biBuf, biValid)
    }

    constructor ()
      ensures Valid() && fresh(outbuf) && Bytes() == [] && biValid == 0 && Sent() == []
    {
      file, outcnt, biBuf, biValid := [], 0, 0, 0;
      outbuf := new Byte[OUTBUFSIZ];
    }

    // put_8bit
    method Put8(c: Byte)
      requires Valid()
      modifies this`file, this`outcnt, outbuf
      ensures Valid() && Bytes() == old(Bytes()) + [c]
    {
      outbuf[outcnt] := c;
      outcnt := outcnt + 1;
      if outcnt == OUTBUFSIZ {
        file := file + outbuf[..outcnt];
        outcnt := 0;
      }
    }

    // put_16bit: least significant byte first
    method Put16(w: nat)
      requires Valid() && w < 0x10000
      modifies this`file, this`outcnt, outbuf
      ensures Valid() && Bytes() == old(Bytes()) + [w % 256, w / 256]
      ensures Packed(Bytes()) == old(Packed(Bytes())) + BitsOf(w, 16)
    {
      Packed16(Bytes(), w);
      if outcnt < OUTBUFSIZ - 2 {
        ghost var b := Bytes();
        outbuf[outcnt] := w % 256;
        outbuf[outcnt + 1] := w / 256;
        outcnt := outcnt + 2;
        assert Bytes() == b + [w % 256, w / 256];
      } else {
        ghost var b := Bytes();
        Put8(w % 256);
        Put8(w / 256);
        assert b + [w % 256, w / 256] == b + [w % 256] + [w / 256];
      }
    }

    method SendBits(value: nat, length: nat)
      requires Valid() && length <= BUF_SIZE && value < Pow2(length)
      modifies this`file, this`outcnt, this`biBuf, this`biValid, outbuf
      ensures Valid() && Sent() == old(Sent()) + BitsOf(value, length)
    {
      hide Low, Or, Shl, Shr, BitsOf, Packed, Pow2;
      ghost var p, x, y := Packed(Bytes()), BitsOf(biBuf, biValid), BitsOf(value, length);
      assert (p + x) + y == p + (x + y);
      if biValid + length > BUF_SIZE {
        var a := BUF_SIZE - biValid;
        FieldOverflow(biBuf, biValid, value, length);
        var w := Low(Or(biBuf, Shl(value, biValid)), BUF_SIZE);
        Put16(w);
        biBuf := Shr(value, a);
        biValid := length - a;
        ghost var u, z := BitsOf(w, BUF_SIZE), BitsOf(biBuf, biValid);
        assert (p + u) + z == p + (u + z);
      } else {
        FieldFits(biBuf, biValid, value, length);
        biBuf := Low(Or(biBuf, Shl(value, biValid)), BUF_SIZE);
        biValid := biValid + length;
      }
    }

    // bi_windup: pad with zero bits up to a byte boundary.
    method WindUp()
      requires Valid()
      modifies this`file, this`outcnt, this`biBuf, this`biValid, outbuf
      ensures Valid() && biValid == 0
      ensures exists pad: nat :: pad < 8 && Sent() == old(Sent()) + Zeros(pad)
      ensures Sent() == Packed(Bytes())
    {
      hide Or, Shl, Shr, BitsOf, Packed, Pow2, Low;
      ghost var p, x := Packed(Bytes()), BitsOf(biBuf, biValid);
      ghost var pad: nat := 0;
      if biValid > 8 {
        PadWord(biBuf, biValid, 16);
        Put16(biBuf);
        pad := 16 - biValid;
      } else if biValid > 0 {
        PadWord(biBuf, biValid, 8);
        PackedSnoc(Bytes(), biBuf);
        Put8(biBuf);
        pad := 8 - biValid;
      } else {
        PadWord(biBuf, biValid, 0);
      }
      assert Packed(Bytes()) == p + (x + Zeros(pad));
      assert (p + x) + Zeros(pad) == p + (x + Zeros(pad));
      biBuf, biValid := 0, 0;
      NoBits();
    }
  }

  function Zeros(n: nat): seq<bool>
  {
    seq(n, _ => false)
  }

  lemma {:induction false} NoBits()
    ensures BitsOf(0, 0) == [] && Pow2(0) == 1
  {
  }

  // A short field is the low part of a zero-filled word.
  lemma {:induction false} PadWord(buf: nat, k: nat, word: nat)
    requires buf < Pow2(k) && k <= word <= 16
    ensures BitsOf(buf, word) == BitsOf(buf, k) + Zeros(word - k)
    ensures buf < 0x10000 && (word == 8 ==> buf < 256)
  {
    Pow2Mono(k, word);
    Pow2Mono(word, 16);
    Powers();
    BitsSplit(buf, k, word - k);
    ShrZero(buf, k);
    BitsOfZero(word - k);
  }

  lemma {:induction false} ShrZero(x: nat, k: nat)
    requires x < Pow2(k)
    ensures Shr(x, k) == 0
  {
    if k != 0 { ShrZero(x / 2, k - 1); }
  }

  lemma {:induction false} BitsOfZero(n: nat)
    ensures BitsOf(0, n) == Zeros(n)
  {
    if n != 0 { BitsOfZero(n - 1); }
  }

  lemma {:induction false} Packed16(bytes: seq<Byte>, w: nat)
    requires w < 0x10000
    ensures Packed(bytes + [w % 256, w / 256]) == Packed(bytes) + BitsOf(w, 16)
  {
    hide Packed, BitsOf, Low, Shr;
    PackedSnoc(bytes, w % 256);
    PackedSnoc(bytes + [w % 256], w / 256);
    assert bytes + [w % 256, w / 256] == bytes + [w % 256] + [w / 256];
    LowByte(w);
    BitsOfLow(w, 8);
    BitsSplit(w, 8, 8);
    var p, x, y := Packed(bytes), BitsOf(w % 256, 8), BitsOf(w / 256, 8);
    assert p + (x + y) == (p + x) + y;
  }

  // send_bits when the field fits into bi_buf
  lemma {:induction false} FieldFits(buf: nat, k: nat, v: nat, n: nat)
    requires buf < Pow2(k) && v < Pow2(n) && k + n <= BUF_SIZE
    ensures var r := Low(Or(buf, Shl(v, k)), BUF_SIZE);
            r < Pow2(k + n) && BitsOf(r, k + n) == BitsOf(buf, k) + BitsOf(v, n)
  {
    hide Low, Or, Shl, Pow2, BitsOf;
    OrDisjoint(buf, k, v);
    ShlBound(buf, k, v, n);
    Pow2Mono(k + n, BUF_SIZE);
    LowSmall(buf + Shl(v, k), BUF_SIZE);
    BitsAppend(buf, k, v, n);
  }

  // send_bits when it does not: the first part completes 16 bits, the rest starts the next word
  lemma {:induction false} FieldOverflow(buf: nat, k: nat, v: nat, n: nat)
    requires buf < Pow2(k) && v < Pow2(n) && k <= BUF_SIZE && n <= BUF_SIZE < k + n
    ensures var r, a := Low(Or(buf, Shl(v, k)), BUF_SIZE), BUF_SIZE - k;
            && r < 0x10000 && Shr(v, a) < Pow2(n - a)
            && BitsOf(r, BUF_SIZE) + BitsOf(Shr(v, a), n - a) == BitsOf(buf, k) + BitsOf(v, n)
  {
    hide Low, Or, Shl, Shr, Pow2, BitsOf;
    var a := BUF_SIZE - k;
    WordFilled(buf, k, v);
    BitsSplit(v, a, n - a);
    ShrBound(v, a, n - a);
    var x, y, z := BitsOf(buf, k), BitsOf(v, a), BitsOf(Shr(v, a), n - a);
    assert (x + y) + z == x + (y + z);
  }

  lemma {:induction false} WordFilled(buf: nat, k: nat, v: nat)
    requires buf < Pow2(k) && k <= BUF_SIZE
    ensures var r := Low(Or(buf, Shl(v, k)), BUF_SIZE);
            r < 0x10000 && BitsOf(r, BUF_SIZE) == BitsOf(buf, k) + BitsOf(v, BUF_SIZE - k)
  {
    Powers();
    hide Low, Or, Shl, Shr, Pow2, BitsOf;
    OrDisjoint(buf, k, v);
    LowBound(buf + Shl(v, k), BUF_SIZE);
    BitsOfLow(buf + Shl(v, k), BUF_SIZE);
    BitsAppend(buf, k, v, BUF_SIZE - k);
  }
}
