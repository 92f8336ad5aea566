// How LZO1X streams are written: literal runs, the match classes, and the literal count patched into a match.
module LzoCode {
  import opened Lz77
  import opened LzoFormat

  // A number n >= 1 as zero bytes of 255 each and a last byte.
  function ExtBytes(n: nat): (r: seq<Byte>)
    requires n >= 1
    ensures |r| >= 1 && r[|r| - 1] != 0
  {
    if n <= 255 then [n] else [0] + ExtBytes(n - 255)
  }

  lemma {:induction false} ExtExact(n: nat, rest: seq<Byte>)
    requires n >= 1
    ensures ReadExt(ExtBytes(n) + rest) == Some((n, |ExtBytes(n)|))
  {
    if n > 255 {
      ExtExact(n - 255, rest);
      assert (ExtBytes(n) + rest)[1..] == ExtBytes(n - 255) + rest;
    }
  }

  lemma {:induction false} ExtSize(n: nat)
    requires n >= 1
    ensures |ExtBytes(n)| == (n + 254) / 255
  {
    if n > 255 { ExtSize(n - 255); }
  }

  // The head of a run of at least four literals.
  function RunCode(t: nat): (r: seq<Byte>)
    requires t >= 4
    ensures |r| >= 1
  {
    if t <= 18 then [t - 3] else [0] + ExtBytes(t - 18)
  }

  lemma {:induction false} RunExact(t: nat, rest: seq<Byte>, mode: Mode)
    requires t >= 4 && (mode == Start || mode == Fresh)
    ensures ReadHead(RunCode(t) + rest, mode) == RunHead(|RunCode(t)|, t)
  {
    var b := RunCode(t) + rest;
    if t > 18 {
      ExtExact(t - 18, rest);
      assert b[1..] == ExtBytes(t - 18) + rest;
    }
  }

  // The head of a first run.
  lemma {:induction false} FirstExact(t: nat, rest: seq<Byte>)
    requires 1 <= t <= 238
    ensures ReadHead([17 + t] + rest, Start) == RunHead(1, t)
  {
  }

  // ---- matches ----

  // What the match classes can code after lit literals.
  ghost predicate Codable(len: nat, off: nat, lit: nat)
  {
    len >= 2 && 1 <= off <= M4_MAX_OFFSET && (len == 2 ==> off <= M1_MAX_OFFSET && 1 <= lit <= 3)
  }

  function Near(o: nat): (r: seq<Byte>)
    requires o < 0x400
    ensures |r| == 2
  {
    [o % 4 * 4, o / 4]
  }

  function Far(o: nat): (r: seq<Byte>)
    requires o < 0x8000
    ensures |r| == 2
  {
    [o % 64 * 4, o / 64 % 256]
  }

  function M3Len(len: nat): (r: seq<Byte>)
    requires len >= 3
    ensures |r| >= 1
  {
    if len <= M3_MAX_LEN then [32 + (len - 2)] else [32] + ExtBytes(len - M3_MAX_LEN)
  }

  function M4Len(len: nat, o: nat): (r: seq<Byte>)
    requires len >= 3
    ensures |r| >= 1
  {
    var k := if o >= 0x4000 then 8 else 0;
    if len <= M4_MAX_LEN then [16 + k + (len - 2)] else [16 + k] + ExtBytes(len - M4_MAX_LEN)
  }

  // The bytes of a match, with no literals after it yet.
  function MatchCode(len: nat, off: nat, lit: nat): (r: seq<Byte>)
    requires Codable(len, off, lit)
    ensures |r| >= 2
  {
    if len == 2 then Near(off - 1)
    else if len <= M2_MAX_LEN && off <= M2_MAX_OFFSET then [(len - 1) * 32 + (off - 1) % 8 * 4, (off - 1) / 8]
    else if len == M2_MIN_LEN && off <= MX_MAX_OFFSET && lit >= 4 then Near(off - 1 - M2_MAX_OFFSET)
    else if off <= M3_MAX_OFFSET then M3Len(len) + Far(off - 1)
    else M4Len(len, off - 0x4000) + Far(off - 0x4000)
  }

  // A match followed by k literals.
  function Patched(m: seq<Byte>, k: nat): (r: seq<Byte>)
    requires |m| >= 2 && m[|m| - 2] % 4 == 0 && k < 4
    ensures |r| == |m|
  {
    m[|m| - 2 := m[|m| - 2] + k]
  }

  lemma {:induction false} NearExact(o: nat, k: nat, rest: seq<Byte>)
    requires o < 0x400 && k < 4
    ensures Near(o)[0] % 4 == 0
    ensures ReadHead(Patched(Near(o), k) + rest, AfterLits) == MatchHead(2, 1 + o, 2, k)
    ensures ReadHead(Patched(Near(o), k) + rest, AfterRun) == MatchHead(2, 1 + M2_MAX_OFFSET + o, 3, k)
  {
    var b := Patched(Near(o), k) + rest;
    var x: nat, y: nat := o % 4 * 4 + k, o / 4;
    assert b[0] == x && b[1] == y && x / 4 == o % 4 && x % 4 == k;
  }

  lemma {:induction false} M2Exact(len: nat, off: nat, k: nat, rest: seq<Byte>, mode: Mode)
    requires 3 <= len <= 8 && 1 <= off <= M2_MAX_OFFSET && k < 4 && mode != Start
    ensures var m := MatchCode(len, off, 0);
            && |m| == 2 && m[0] % 4 == 0
            && ReadHead(Patched(m, k) + rest, mode) == MatchHead(2, off, len, k)
  {
    var m := MatchCode(len, off, 0);
    var b := Patched(m, k) + rest;
    var o := off - 1;
    var x: nat, y: nat := (len - 1) * 32 + o % 8 * 4 + k, o / 8;
    assert b[0] == x && b[1] == y;
    assert x / 4 == (len - 1) * 8 + o % 8 && x % 4 == k;
    assert x / 32 == len - 1;
  }

  // The offset bytes of a far match.
  lemma {:induction false} FarExact(pre: seq<Byte>, o: nat, k: nat, rest: seq<Byte>, len: nat, base: nat)
    requires o < 0x8000 && k < 4
    ensures var m := pre + Far(o);
            && m[|pre|] % 4 == 0
            && FarHead(Patched(m, k) + rest, |pre|, len, base) == MatchHead(|pre| + 2, base + o % 0x4000, len, k)
  {
    var m := pre + Far(o);
    var b := Patched(m, k) + rest;
    var x: nat, y: nat := o % 64 * 4 + k, o / 64 % 256;
    assert b[|pre|] == x && b[|pre| + 1] == y;
    FarParts(o, k);
  }

  lemma {:induction false} FarParts(o: nat, k: nat)
    requires o < 0x8000 && k < 4
    ensures var x, y := o % 64 * 4 + k, o / 64 % 256;
            x < 256 && x / 4 == o % 64 && x % 4 == k && x / 4 + 64 * y == o % 0x4000
  {
  }

  lemma {:induction false} PatchedFar(pre: seq<Byte>, o: nat, k: nat, rest: seq<Byte>)
    requires o < 0x8000 && k < 4 && |pre| >= 1
    ensures (pre + Far(o))[|pre|] % 4 == 0
    ensures var b := Patched(pre + Far(o), k) + rest;
            b[0] == pre[0] && b[1..] == pre[1..] + ([o % 64 * 4 + k, o / 64 % 256] + rest)
  {
  }

  lemma {:induction false} M3Exact(len: nat, off: nat, k: nat, rest: seq<Byte>, mode: Mode)
    requires len >= 3 && 1 <= off <= M3_MAX_OFFSET && k < 4 && mode != Start
    ensures var m := M3Len(len) + Far(off - 1);
            && m[|m| - 2] % 4 == 0
            && ReadHead(Patched(m, k) + rest, mode) == MatchHead(|m|, off, len, k)
  {
    hide ReadExt, ExtBytes, FarHead, Far, Patched;
    var pre, o := M3Len(len), off - 1;
    PatchedFar(pre, o, k, rest);
    FarExact(pre, o, k, rest, len, 1);
    if len > M3_MAX_LEN {
      ExtExact(len - M3_MAX_LEN, [o % 64 * 4 + k, o / 64 % 256] + rest);
      assert pre[1..] == ExtBytes(len - M3_MAX_LEN);
    }
  }

  lemma {:induction false} M4Exact(len: nat, off: nat, k: nat, rest: seq<Byte>, mode: Mode)
    requires len >= 3 && M3_MAX_OFFSET < off <= M4_MAX_OFFSET && k < 4 && mode != Start
    ensures var m := M4Len(len, off - 0x4000) + Far(off - 0x4000);
            && m[|m| - 2] % 4 == 0
            && ReadHead(Patched(m, k) + rest, mode) == MatchHead(|m|, off, len, k)
  {
    hide ReadExt, ExtBytes, FarHead, Far, Patched;
    var o := off - 0x4000;
    var pre := M4Len(len, o);
    var base := if o >= 0x4000 then 0x4000 else 0;
    PatchedFar(pre, o, k, rest);
    FarExact(pre, o, k, rest, len, base);
    assert base + o % 0x4000 == o;
    if len > M4_MAX_LEN {
      ExtExact(len - M4_MAX_LEN, [o % 64 * 4 + k, o / 64 % 256] + rest);
      assert pre[1..] == ExtBytes(len - M4_MAX_LEN);
    }
  }

  // The decoder, in the mode that lit literals leave behind, reads back every match, also with its literal count patched in.
  lemma {:induction false} MatchExact(len: nat, off: nat, lit: nat, k: nat, rest: seq<Byte>)
    requires Codable(len, off, lit) && k < 4
    ensures var m := MatchCode(len, off, lit);
            && m[|m| - 2] % 4 == 0
            && ReadHead(Patched(m, k) + rest, ModeAfter(lit)) == MatchHead(|m|, off, len, k)
  {
    hide ReadHead, Near, Far, M3Len, M4Len, Patched;
    var mode := ModeAfter(lit);
    if len == 2 { NearExact(off - 1, k, rest); }
    else if len <= M2_MAX_LEN && off <= M2_MAX_OFFSET { M2Exact(len, off, k, rest, mode); }
    else if len == M2_MIN_LEN && off <= MX_MAX_OFFSET && lit >= 4 { NearExact(off - 1 - M2_MAX_OFFSET, k, rest); }
    else if off <= M3_MAX_OFFSET { M3Exact(len, off, k, rest, mode); }
    else { M4Exact(len, off, k, rest, mode); }
  }

  // ---- sizes ----

  lemma {:induction false} M3Size(len: nat)
    requires len >= 3
    ensures |M3Len(len)| == if len <= M3_MAX_LEN then 1 else 1 + (len + 221) / 255
  {
    hide ExtBytes;
    if len > M3_MAX_LEN { ExtSize(len - M3_MAX_LEN); }
  }

  lemma {:induction false} M4Size(len: nat, o: nat)
    requires len >= 3
    ensures |M4Len(len, o)| == if len <= M4_MAX_LEN then 1 else 1 + (len + 245) / 255
  {
    hide ExtBytes;
    if len > M4_MAX_LEN { ExtSize(len - M4_MAX_LEN); }
  }

  // How many bytes each match class takes.
  lemma {:induction false} MatchCodeSize(len: nat, off: nat, lit: nat)
    requires Codable(len, off, lit)
    ensures |MatchCode(len, off, lit)| ==
            if len == 2 || (len <= M2_MAX_LEN && off <= M2_MAX_OFFSET) || (len == M2_MIN_LEN && off <= MX_MAX_OFFSET && lit >= 4) then 2
            else if off <= M3_MAX_OFFSET then if len <= M3_MAX_LEN then 3 else 3 + (len + 221) / 255
            else if len <= M4_MAX_LEN then 3 else 3 + (len + 245) / 255
  {
    hide M3Len, M4Len;
    if len >= 3 {
      M3Size(len);
      if off >= 0x4000 { M4Size(len, off - 0x4000); }
    }
  }
}
