// The byte layout of LZO1X instructions, in the numbers that lzo1x_d.c computes with.
module LzoLayout {
  import opened Lz77
  import opened LzoFormat
  import opened LzoCode

  // ---- matches ----

  // After a long run: three bytes, at the offsets 2049 to 3072.
  lemma {:induction false} AfterLongRun(x: Byte, y: Byte, rest: seq<Byte>)
    requires x < 16
    ensures ReadHead([x, y] + rest, AfterRun) == MatchHead(2, 2049 + x / 4 + 4 * y, 3, x % 4)
  {
  }

  // After one to three literals: two bytes, at the offsets 1 to 1024.
  lemma {:induction false} AfterFewLiterals(x: Byte, y: Byte, rest: seq<Byte>)
    requires x < 16
    ensures ReadHead([x, y] + rest, AfterLits) == MatchHead(2, 1 + x / 4 + 4 * y, 2, x % 4)
  {
  }

  // From 64 up: three to eight bytes, at the offsets 1 to 2048.
  lemma {:induction false} ShortMatch(x: Byte, y: Byte, rest: seq<Byte>, mode: Mode)
    requires x >= 64 && mode != Start
    ensures ReadHead([x, y] + rest, mode) == MatchHead(2, 1 + x / 4 % 8 + 8 * y, 1 + x / 32, x % 4)
  {
  }

  // From 32 to 63: three to 33 bytes, or more after a number, at the offsets 1 to 16384.
  lemma {:induction false} MiddleMatch(x: Byte, y: Byte, z: Byte, rest: seq<Byte>, mode: Mode)
    requires 33 <= x < 64 && mode != Start
    ensures ReadHead([x, y, z] + rest, mode) == MatchHead(3, 1 + y / 4 + 64 * z, 2 + x % 32, y % 4)
  {
  }

  // From 16 to 31: three to nine bytes, or more after a number, at the offsets 16385 to 49151; offset 16384 is the end.
  lemma {:induction false} FarMatch(x: Byte, y: Byte, z: Byte, rest: seq<Byte>, mode: Mode)
    requires 16 <= x < 32 && x % 8 != 0 && (mode == Start ==> x <= 17)
    ensures var off := (if x % 16 >= 8 then 32768 else 16384) + y / 4 + 64 * z;
            ReadHead([x, y, z] + rest, mode) == if off == 16384 then EndHead(3) else MatchHead(3, off, 2 + x % 8, y % 4)
  {
  }

  lemma {:induction false} EndMarker(mode: Mode, rest: seq<Byte>)
    ensures ReadHead([17, 0, 0] + rest, mode) == EndHead(3)
  {
    FarMatch(17, 0, 0, rest, mode);
  }

  // n zero bytes
  function Zeros(n: nat): (r: seq<Byte>)
    ensures |r| == n
  {
    if n == 0 then [] else [0] + Zeros(n - 1)
  }

  // A number: zero bytes stand for 255 each, and the byte after them is added.
  lemma {:induction false} LongNumber(n: nat, l: Byte, rest: seq<Byte>)
    requires l > 0
    ensures ReadExt(Zeros(n) + [l] + rest) == Some((255 * n + l, n + 1))
  {
    var b := Zeros(n) + [l] + rest;
    if n != 0 {
      LongNumber(n - 1, l, rest);
      assert b[1..] == Zeros(n - 1) + [l] + rest;
    }
  }

  lemma {:induction false} LongMiddleMatch(n: nat, l: Byte, y: Byte, z: Byte, rest: seq<Byte>, mode: Mode)
    requires l > 0 && mode != Start
    ensures ReadHead([32] + (Zeros(n) + [l] + ([y, z] + rest)), mode) == MatchHead(n + 4, 1 + y / 4 + 64 * z, 33 + 255 * n + l, y % 4)
  {
    LongNumber(n, l, [y, z] + rest);
    var b := [32] + (Zeros(n) + [l] + ([y, z] + rest));
    assert b[1..] == Zeros(n) + [l] + ([y, z] + rest);
    assert b[n + 2] == y && b[n + 3] == z;
    hide ReadExt;
  }

  lemma {:induction false} LongFarMatch(x: Byte, n: nat, l: Byte, y: Byte, z: Byte, rest: seq<Byte>, mode: Mode)
    requires (x == 16 || (x == 24 && mode != Start)) && l > 0
    ensures var off := (if x == 24 then 32768 else 16384) + y / 4 + 64 * z;
            ReadHead([x] + (Zeros(n) + [l] + ([y, z] + rest)), mode)
            == if off == 16384 then EndHead(n + 4) else MatchHead(n + 4, off, 9 + 255 * n + l, y % 4)
  {
    hide ReadExt;
    var t := Zeros(n) + [l] + ([y, z] + rest);
    var b := [x] + t;
    LongNumber(n, l, [y, z] + rest);
    assert b[1..] == t && b[n + 2] == y && b[n + 3] == z;
    FarRead(b, n + 2, 255 * n + l);
  }

  lemma {:induction false} FarRead(b: seq<Byte>, size: nat, v: nat)
    requires |b| >= size + 2 && size >= 1 && b[0] < 32 && b[0] >= 16 && b[0] % 8 == 0 && ReadExt(b[1..]) == Some((v, size - 1))
    ensures var y: nat, z: nat := b[size], b[size + 1];
            var off := (if b[0] == 24 then 32768 else 16384) + y / 4 + 64 * z;
            ReadMatch(b) == if off == 16384 then EndHead(size + 2) else MatchHead(size + 2, off, 9 + v, y % 4)
  {
    hide ReadExt;
    assert b[0] == 16 || b[0] == 24;
  }

  // ---- runs ----

  // From 1 to 15, where no match stands: four to 18 literals; after a zero byte a number and 18 more.
  lemma {:induction false} ShortRun(x: Byte, rest: seq<Byte>, mode: Mode)
    requires 0 < x < 16 && (mode == Start || mode == Fresh)
    ensures ReadHead([x] + rest, mode) == RunHead(1, 3 + x)
  {
  }

  lemma {:induction false} LongRun(n: nat, l: Byte, rest: seq<Byte>, mode: Mode)
    requires l > 0 && (mode == Start || mode == Fresh)
    ensures ReadHead([0] + (Zeros(n) + [l] + rest), mode) == RunHead(n + 2, 18 + 255 * n + l)
  {
    LongNumber(n, l, rest);
    var b := [0] + (Zeros(n) + [l] + rest);
    assert b[1..] == Zeros(n) + [l] + rest;
    hide ReadExt;
  }

  // At the very start everything above 17 is a run of one to 238 literals.
  lemma {:induction false} FirstRun(x: Byte, rest: seq<Byte>)
    requires x > 17
    ensures ReadHead([x] + rest, Start) == RunHead(1, x - 17)
  {
  }

  // ---- what is reached, and how often ----

  // Every offset in range is reached, once for each number of literals.
  lemma {:induction false} NearOffsets(off: nat, k: nat) returns (x: Byte, y: Byte)
    requires k < 4 && 1 <= off <= 1024
    ensures x < 16 && off == 1 + x / 4 + 4 * y && k == x % 4
    ensures forall u: Byte, v: Byte | u < 16 && 1 + u / 4 + 4 * v == off && u % 4 == k :: u == x && v == y
  {
    x, y := (off - 1) % 4 * 4 + k, (off - 1) / 4;
  }

  lemma {:induction false} ShortOffsets(off: nat, len: nat, k: nat) returns (x: Byte, y: Byte)
    requires k < 4 && 1 <= off <= 2048 && 3 <= len <= 8
    ensures x >= 64 && off == 1 + x / 4 % 8 + 8 * y && len == 1 + x / 32 && k == x % 4
    ensures forall u: Byte, v: Byte | u >= 64 && 1 + u / 4 % 8 + 8 * v == off && 1 + u / 32 == len && u % 4 == k :: u == x && v == y
  {
    x, y := (len - 1) * 32 + (off - 1) % 8 * 4 + k, (off - 1) / 8;
    ShortFields(len - 1, (off - 1) % 8, k);
    forall u: Byte, v: Byte | u >= 64 && 1 + u / 4 % 8 + 8 * v == off && 1 + u / 32 == len && u % 4 == k ensures u == x && v == y {
      ShortByte(u);
    }
  }

  lemma {:induction false} ShortFields(a: nat, b: nat, c: nat)
    requires a < 8 && b < 8 && c < 4
    ensures var u := a * 32 + b * 4 + c; u < 256 && u / 32 == a && u / 4 % 8 == b && u % 4 == c
  {
  }

  lemma {:induction false} ShortByte(u: nat)
    ensures u == u / 32 * 32 + u / 4 % 8 * 4 + u % 4
  {
    var v := u / 4;
    assert u == 4 * v + u % 4 && v == 8 * (v / 8) + v % 8;
    Thirds(u, v / 8, v % 8 * 4 + u % 4);
  }

  lemma {:induction false} Thirds(u: nat, q: nat, r: nat)
    requires u == 32 * q + r && r < 32
    ensures u / 32 == q
  {
  }

  lemma {:induction false} FarOffsets(off: nat, k: nat) returns (y: Byte, z: Byte)
    requires k < 4 && off < 16384
    ensures off == y / 4 + 64 * z && k == y % 4
    ensures forall u: Byte, v: Byte | u / 4 + 64 * v == off && u % 4 == k :: u == y && v == z
  {
    y, z := off % 64 * 4 + k, off / 64;
  }

  // ---- what an instruction does ----

  // Literals go out as they are; one to three are followed by short matches, four or more by matches of three bytes.
  lemma {:induction false} RunDoes(b: seq<Byte>, mode: Mode, size: nat, c: nat, out: seq<Byte>, cap: nat)
    requires ReadHead(b, mode) == RunHead(size, c) && |out| + c <= cap && size + c < |b|
    ensures Advance(b, mode, out, cap) == Go(size + c, out + b[size..size + c], if c <= 3 then AfterLits else AfterRun)
  {
    hide ReadHead;
    assert c >= 1 by { RunLiterals(b, mode); }
  }

  lemma {:induction false} RunLiterals(b: seq<Byte>, mode: Mode)
    requires ReadHead(b, mode).RunHead?
    ensures ReadHead(b, mode).count >= 1
  {
  }

  // A match copies byte by byte, also what it has just written, and then its literals go out.
  lemma {:induction false} MatchDoes(b: seq<Byte>, mode: Mode, size: nat, off: nat, len: nat, k: nat, out: seq<Byte>, cap: nat) returns (o: seq<Byte>)
    requires ReadHead(b, mode) == MatchHead(size, off, len, k) && 1 <= off <= |out| && |out| + len + k <= cap && size + k < |b| && k < 4
    ensures Advance(b, mode, out, cap) == Go(size + k, o + b[size..size + k], if k == 0 then Fresh else AfterLits)
    ensures |o| == |out| + len && o[..|out|] == out && forall i | |out| <= i < |o| :: o[i] == o[i - off]
  {
    hide ReadHead, CopyBack;
    o := CopyBack(out, off, len);
    CopyMeans(out, off, len);
    assert k == 0 ==> o + b[size..size + k] == o;
  }

  lemma {:induction false} CopyMeans(out: seq<Byte>, off: nat, len: nat)
    requires 1 <= off <= |out|
    ensures var o := CopyBack(out, off, len);
            |o| == |out| + len && o[..|out|] == out && forall i | |out| <= i < |o| :: o[i] == o[i - off]
  {
    if len != 0 { CopyMeans(out, off, len - 1); }
  }

  // ---- what the coders choose ----

  // A match can be coded when it is not too far away; one of two bytes only after one to three literals, and only near.
  lemma {:induction false} CodableMeans(len: nat, off: nat, lit: nat)
    ensures Codable(len, off, lit) <==> len >= 2 && 1 <= off <= 49151 && (len == 2 ==> off <= 1024 && 1 <= lit <= 3)
  {
  }

  // Two bytes for near and short matches, three for middle ones, and one more for each 255 of a greater length.
  lemma {:induction false} CodeSizes(len: nat, off: nat, lit: nat)
    requires len >= 2 && 1 <= off <= 49151 && (len == 2 ==> off <= 1024 && 1 <= lit <= 3)
    ensures |MatchCode(len, off, lit)| ==
            if len == 2 || (len <= 8 && off <= 2048) || (len == 3 && off <= 3072 && lit >= 4) then 2
            else if off <= 16384 then if len <= 33 then 3 else 3 + (len - 33 + 254) / 255
            else if len <= 9 then 3 else 3 + (len - 9 + 254) / 255
  {
    hide MatchCode;
    MatchCodeSize(len, off, lit);
  }
}
