// Changing a valid LZO1X stream in place: which bytes an instruction depends on, and what the peephole optimizer
// knows about the bytes it has passed.
module LzoPatch {
  import opened Lz77
  import opened LzoFormat
  import opened LzoCode
  import opened LzoReach

  // A match without literals after it.
  function Zeroed(m: seq<Byte>): (r: seq<Byte>)
    requires |m| >= 2
    ensures |r| == |m| && r[|r| - 2] % 4 == 0
  {
    m[|m| - 2 := m[|m| - 2] / 4 * 4]
  }

  lemma {:induction false} ExtLocal(b: seq<Byte>, used: nat, rest: seq<Byte>)
    requires ReadExt(b).Some? && used == ReadExt(b).value.1
    ensures ReadExt(b[..used] + rest) == ReadExt(b)
    decreases |b|
  {
    if b[0] == 0 {
      ExtLocal(b[1..], used - 1, rest);
      assert (b[..used] + rest)[1..] == b[1..][..used - 1] + rest;
    }
  }

  // The length of a run depends only on its own head.
  lemma {:induction false} RunLocal(b: seq<Byte>, mode: Mode, size: nat, c: nat, rest: seq<Byte>)
    requires ReadHead(b, mode) == RunHead(size, c) && size <= |b|
    ensures ReadHead(b[..size] + rest, mode) == RunHead(size, c)
  {
    var b' := b[..size] + rest;
    if !(mode == Start && b[0] > 17) && b[0] == 0 {
      ExtLocal(b[1..], size - 1, rest);
      assert b'[1..] == b[1..][..size - 1] + rest;
    }
  }

  // b with the literal count of its match set to k and another tail.
  function Recounted(b: seq<Byte>, size: nat, k: nat, rest: seq<Byte>): seq<Byte>
    requires 2 <= size <= |b| && k < 4
  {
    Patched(Zeroed(b[..size]), k) + rest
  }

  lemma {:induction false} RecountedAt(b: seq<Byte>, size: nat, k: nat, rest: seq<Byte>)
    requires 2 <= size <= |b| && k < 4
    ensures var r := Recounted(b, size, k, rest);
            && |r| == size + |rest| && r[size - 2] == b[size - 2] / 4 * 4 + k
            && r[size - 2] / 4 == b[size - 2] / 4 && r[size - 2] % 4 == k
            && (forall i | 0 <= i < size && i != size - 2 :: r[i] == b[i])
  {
    var x: nat := b[size - 2];
    assert (x / 4 * 4 + k) / 4 == x / 4;
  }

  lemma {:induction false} FarLocal(b: seq<Byte>, pre: nat, len: nat, base: nat, k: nat, rest: seq<Byte>)
    requires FarHead(b, pre, len, base).MatchHead? && k < 4
    ensures FarHead(Recounted(b, pre + 2, k, rest), pre, len, base)
            == MatchHead(pre + 2, FarHead(b, pre, len, base).off, len, k)
  {
    hide Recounted;
    RecountedAt(b, pre + 2, k, rest);
  }

  lemma {:induction false} ExtRecounted(b: seq<Byte>, size: nat, k: nat, rest: seq<Byte>)
    requires k < 4 && 3 <= size <= |b| && ReadExt(b[1..]).Some? && ReadExt(b[1..]).value.1 == size - 3
    ensures ReadExt(Recounted(b, size, k, rest)[1..]) == ReadExt(b[1..])
  {
    var r, used := Recounted(b, size, k, rest), size - 3;
    RecountedAt(b, size, k, rest);
    hide Recounted;
    assert r[1..] == b[1..][..used] + r[1 + used..] by {
      assert forall i | 0 <= i < |r| - 1 :: r[1..][i] == (b[1..][..used] + r[1 + used..])[i];
    }
    ExtLocal(b[1..], used, r[1 + used..]);
  }

  lemma {:induction false} M3Local(b: seq<Byte>, k: nat, rest: seq<Byte>)
    requires b != [] && 32 <= b[0] < 64 && ReadMatch(b).MatchHead? && k < 4
    ensures var h := ReadMatch(b);
            var r := Recounted(b, h.size, k, rest);
            r != [] && r[0] == b[0] && ReadMatch(r) == MatchHead(h.size, h.off, h.len, k)
  {
    hide Recounted, ReadExt;
    var h := ReadMatch(b);
    RecountedAt(b, h.size, k, rest);
    if b[0] % 32 == 0 { ExtRecounted(b, h.size, k, rest); }
    FarLocal(b, h.size - 2, h.len, 1, k, rest);
  }

  lemma {:induction false} M4Local(b: seq<Byte>, k: nat, rest: seq<Byte>)
    requires b != [] && 16 <= b[0] < 32 && ReadMatch(b).MatchHead? && k < 4
    ensures var h := ReadMatch(b);
            var r := Recounted(b, h.size, k, rest);
            r != [] && r[0] == b[0] && ReadMatch(r) == MatchHead(h.size, h.off, h.len, k)
  {
    hide Recounted, ReadExt;
    var h := ReadMatch(b);
    RecountedAt(b, h.size, k, rest);
    if b[0] % 8 == 0 { ExtRecounted(b, h.size, k, rest); }
    FarLocal(b, h.size - 2, h.len, if b[0] / 8 % 2 == 1 then 0x4000 else 0, k, rest);
  }

  // What a match stands for depends only on its own bytes, and not on the literal count among them.
  lemma {:induction false} MatchLocal(b: seq<Byte>, mode: Mode, k: nat, rest: seq<Byte>)
    requires ReadHead(b, mode).MatchHead? && k < 4
    ensures var h := ReadHead(b, mode);
            ReadHead(Recounted(b, h.size, k, rest), mode) == MatchHead(h.size, h.off, h.len, k)
  {
    hide Recounted;
    var h := ReadHead(b, mode);
    RecountedAt(b, h.size, k, rest);
    if 32 <= b[0] < 64 {
      M3Local(b, k, rest);
    } else if 16 <= b[0] < 32 {
      M4Local(b, k, rest);
    } else {
      NearLocal(b, mode, k, rest);
    }
  }

  lemma {:induction false} NearLocal(b: seq<Byte>, mode: Mode, k: nat, rest: seq<Byte>)
    requires ReadHead(b, mode).MatchHead? && k < 4 && !(16 <= b[0] < 64)
    ensures var h := ReadHead(b, mode);
            ReadHead(Recounted(b, h.size, k, rest), mode) == MatchHead(h.size, h.off, h.len, k)
  {
    hide Recounted;
    var h := ReadHead(b, mode);
    RecountedAt(b, h.size, k, rest);
    var r := Recounted(b, 2, k, rest);
    var x: nat, x': nat := b[0], r[0];
    assert x' / 4 == x / 4 && x' / 32 == x / 4 / 8 == x / 32;
  }

  // ---- prefixes of a stream ----

  // The instruction at b is a run.
  lemma {:induction false} PassRun(s: seq<Byte>, mode: Mode, out: seq<Byte>, cap: nat, low: int, b: seq<Byte>, size: nat, c: nat)
    requires Reaches(s, mode, out, cap, low) && ReadHead(b, mode) == RunHead(size, c)
    requires LitsCheck(b, size, c, |out|, cap) == OK
    ensures Reaches(s + b[..size + c], ModeAfter(c), out + b[size..size + c], cap, low)
  {
    hide Reaches, ReadHead;
    var head, lits := b[..size], b[size..size + c];
    assert |head| == size >= 1 && |lits| == c;
    forall rest: seq<Byte> ensures ReadHead(head + rest, mode) == RunHead(|head|, |lits|) {
      RunLocal(b, mode, size, c, rest);
    }
    ExtendRun(s, mode, out, cap, low, head, lits);
    assert head + lits == b[..size + c];
  }

  // The instruction at b is a match.
  lemma {:induction false} PassMatch(s: seq<Byte>, mode: Mode, out: seq<Byte>, cap: nat, low: int, b: seq<Byte>, size: nat, off: nat, len: nat, k: nat)
    requires Reaches(s, mode, out, cap, low) && ReadHead(b, mode) == MatchHead(size, off, len, k)
    requires CopyCheck(off, len, |out|, cap) == OK && low <= |s| + size - |out| - len - 2
    ensures 2 <= size <= |b| && Ready(s + Zeroed(b[..size]), CopyBack(out, off, len), cap, low)
  {
    hide Reaches, ReadHead;
    var m, o := Zeroed(b[..size]), CopyBack(out, off, len);
    assert (s + m)[|s + m| - 2] == m[|m| - 2];
    forall lits: seq<Byte> | |lits| < 4 && |o| + |lits| <= cap
      ensures Reaches(Patched(s + m, |lits|) + lits, ModeAfter(|lits|), o + lits, cap, low) {
      var k' := |lits|;
      var m' := Patched(m, k');
      forall rest: seq<Byte> ensures ReadHead(m' + rest, mode) == MatchHead(|m'|, off, len, k') {
        MatchLocal(b, mode, k', rest);
      }
      ExtendMatch(s, mode, out, cap, low, m', off, len, lits, low);
      PatchAfter(s, m, k');
      assert s + (m' + lits) == Patched(s + m, k') + lits;
    }
  }

  // The prefix s ends with a match and lit < 4 literals; s[litp] holds their number.
  ghost predicate EndsInLits(s: seq<Byte>, out: seq<Byte>, cap: nat, low: int, lit: nat, litp: nat)
  {
    && lit < 4 && lit <= |out| && litp + 2 + lit == |s| && s[litp] % 4 == lit
    && Ready(Zeroed(s[..litp + 2]), out[..|out| - lit], cap, low)
    && s[litp + 2..] == out[|out| - lit..]
  }

  // The prefix s ends with a run of lit literals, whose one-byte head is s[litp].
  ghost predicate EndsInRun(s: seq<Byte>, out: seq<Byte>, cap: nat, low: int, lit: nat, litp: nat)
  {
    && 4 <= lit <= |out| && litp + 1 + lit == |s| && s[litp] == lit - 3
    && (Reaches(s[..litp], Start, out[..|out| - lit], cap, low) || Reaches(s[..litp], Fresh, out[..|out| - lit], cap, low))
    && s[litp + 1..] == out[|out| - lit..]
  }

  // What the optimizer knows about the prefix s. litp is -1 before the first match or long run, lit counts the
  // literals since the last match.
  ghost predicate Passed(s: seq<Byte>, mode: Mode, out: seq<Byte>, cap: nat, low: int, lit: nat, litp: int)
  {
    && |out| <= cap && Reaches(s, mode, out, cap, low)
    && (litp >= 0 ==> mode == ModeAfter(lit))
    && (litp >= 0 && lit < 4 ==> EndsInLits(s, out, cap, low, lit, litp))
    && (litp >= 0 && 4 <= lit <= 18 ==> EndsInRun(s, out, cap, low, lit, litp))
  }

  lemma {:induction false} PassedStart(cap: nat, low: int)
    requires low <= 0
    ensures Passed([], Start, [], cap, low, 0, -1)
  {
    hide Reaches;
    ReachesNothing(cap);
    LowerReach([], Start, [], cap, 0, low);
  }

  lemma {:induction false} LowerReach(s: seq<Byte>, mode: Mode, out: seq<Byte>, cap: nat, low: int, low': int)
    requires Reaches(s, mode, out, cap, low) && low' <= low
    ensures Reaches(s, mode, out, cap, low')
  {
    hide Decode, Room;
  }

  // A long run passed as it is.
  lemma {:induction false} PassedRun(s: seq<Byte>, mode: Mode, out: seq<Byte>, cap: nat, low: int, b: seq<Byte>, size: nat, c: nat)
    requires Reaches(s, mode, out, cap, low) && ReadHead(b, mode) == RunHead(size, c) && (mode == Start || mode == Fresh)
    requires LitsCheck(b, size, c, |out|, cap) == OK && b[0] < 16
    ensures Passed(s + b[..size + c], ModeAfter(c), out + b[size..size + c], cap, low, c, |s|)
  {
    PassRun(s, mode, out, cap, low, b, size, c);
    hide Reaches, ReadExt, ModeAfter;
    var s', o := s + b[..size + c], out + b[size..size + c];
    assert c >= 4;
    if c <= 18 {
      assert size == 1 && b[0] == c - 3;
      assert s'[..|s|] == s && o[..|o| - c] == out;
      assert s'[|s| + 1..] == b[1..1 + c] == o[|o| - c..];
    }
  }

  lemma {:induction false} ZeroedAfter(s: seq<Byte>, m: seq<Byte>)
    requires |m| >= 2
    ensures Zeroed(s + m) == s + Zeroed(m)
  {
  }

  lemma {:induction false} PatchBack(m: seq<Byte>, k: nat)
    requires |m| >= 2 && k == m[|m| - 2] % 4
    ensures Patched(Zeroed(m), k) == m
  {
    var x: nat := m[|m| - 2];
    assert x / 4 * 4 + k == x;
  }

  // The literal count of the match in the middle of s + b.
  lemma {:induction false} Recombine(s: seq<Byte>, b: seq<Byte>, size: nat, k: nat)
    requires 2 <= size && size + k <= |b| && k < 4 && k == b[size - 2] % 4
    ensures var s', litp, z := s + b[..size + k], |s| + size - 2, s + Zeroed(b[..size]);
            && |z| >= 2 && z[|z| - 2] % 4 == 0 && Patched(z, k) + b[size..size + k] == s'
            && s'[litp] % 4 == k && Zeroed(s'[..litp + 2]) == z && s'[litp + 2..] == b[size..size + k]
  {
    hide Zeroed, Patched;
    var m, lits := b[..size], b[size..size + k];
    ZeroedAfter(s, m);
    PatchBack(m, k);
    assert (s + Zeroed(m))[|s| + size - 2] == Zeroed(m)[size - 2];
    PatchAfter(s, Zeroed(m), k);
    assert b[..size + k] == m + lits;
    var s' := s + (m + lits);
    assert s' == (s + m) + lits;
    assert s'[..|s| + size] == s + m;
    assert s'[|s| + size - 2] == m[size - 2];
  }

  // A match and its literals passed as they are.
  lemma {:induction false} PassedMatch(s: seq<Byte>, mode: Mode, out: seq<Byte>, cap: nat, low: int, b: seq<Byte>, size: nat, off: nat, len: nat, k: nat)
    requires Reaches(s, mode, out, cap, low) && ReadHead(b, mode) == MatchHead(size, off, len, k)
    requires CopyCheck(off, len, |out|, cap) == OK && (k > 0 ==> LitsCheck(b, size, k, |out| + len, cap) == OK)
    requires low <= |s| + size - |out| - len - 2
    ensures size + k <= |b|
    ensures Passed(s + b[..size + k], ModeAfter(k), CopyBack(out, off, len) + b[size..size + k], cap, low, k, |s| + size - 2)
  {
    hide Reaches, ReadHead, Zeroed, Patched;
    PassMatch(s, mode, out, cap, low, b, size, off, len, k);
    assert k < 4 && k == b[size - 2] % 4;
    Recombine(s, b, size, k);
    var o, lits := CopyBack(out, off, len), b[size..size + k];
    var z := s + Zeroed(b[..size]);
    assert |lits| == k && Reaches(Patched(z, |lits|) + lits, ModeAfter(k), o + lits, cap, low);
    assert (o + lits)[..|o|] == o && (o + lits)[|o|..] == lits;
    hide Ready, CopyBack;
  }

  // ---- the rewrites ----

  // The match at hand becomes literals of the short run before it.
  lemma {:induction false} JoinLits(s: seq<Byte>, out: seq<Byte>, cap: nat, low: int, lit: nat, litp: nat, mid: seq<Byte>)
    requires EndsInLits(s, out, cap, low, lit, litp) && lit + |mid| == 3 && |out| + |mid| <= cap
    ensures Passed(Patched(Zeroed(s[..litp + 2]), 3) + s[litp + 2..] + mid, AfterLits, out + mid, cap, low, 3, litp)
  {
    hide Reaches, Zeroed;
    var z, lits := Zeroed(s[..litp + 2]), s[litp + 2..];
    var o, all := out[..|out| - lit], lits + mid;
    assert |all| == 3 && Reaches(Patched(z, |all|) + all, ModeAfter(|all|), o + all, cap, low);
    var s' := Patched(z, 3) + lits + mid;
    assert s' == Patched(z, 3) + all;
    assert o + all == out + mid by { assert out == o + lits; }
    assert s'[..litp + 2] == Patched(z, 3) && s'[litp + 2..] == all;
    ZeroedPatched(z, 3);
    assert (out + mid)[..|out + mid| - 3] == o && (out + mid)[|out + mid| - 3..] == all;
  }

  lemma {:induction false} ZeroedPatched(z: seq<Byte>, k: nat)
    requires |z| >= 2 && z[|z| - 2] % 4 == 0 && k < 4
    ensures Zeroed(Patched(z, k)) == z && Patched(z, k)[|z| - 2] % 4 == k
  {
    var x: nat := z[|z| - 2];
    assert (x + k) / 4 * 4 == x;
  }

  // A run of lits, put after a prefix where a run may start.
  lemma {:induction false} NewRun(s: seq<Byte>, mode: Mode, out: seq<Byte>, cap: nat, low: int, lits: seq<Byte>)
    requires Reaches(s, mode, out, cap, low) && (mode == Start || mode == Fresh)
    requires 4 <= |lits| <= 18 && |out| + |lits| <= cap
    ensures Passed(s + [|lits| - 3] + lits, AfterRun, out + lits, cap, low, |lits|, |s|)
  {
    hide Reaches, ReadHead;
    var head: seq<Byte>, c := [|lits| - 3], |lits|;
    forall rest: seq<Byte> ensures ReadHead(head + rest, mode) == RunHead(1, c) {
      RunExact(c, rest, mode);
    }
    ExtendRun(s, mode, out, cap, low, head, lits);
    var s', o := s + head + lits, out + lits;
    assert s' == s + (head + lits);
    assert s'[..|s|] == s && s'[|s|] == c - 3 && s'[|s| + 1..] == lits;
    assert o[..|o| - c] == out && o[|o| - c..] == lits;
  }

  ghost predicate ShortJoined(s: seq<Byte>, out: seq<Byte>, cap: nat, low: int, lit: nat, litp: nat, mid: seq<Byte>, r: seq<Byte>)
    requires litp + 2 + lit == |s| && 4 <= lit + |mid| + |r| <= 18
  {
    Passed(Zeroed(s[..litp + 2]) + [lit + |mid| + |r| - 3] + (s[litp + 2..] + mid + r), AfterRun, out + mid + r, cap, low,
           lit + |mid| + |r|, litp + 2)
  }

  // The short run before the match, the match and the run after it become one run.
  lemma {:induction false} JoinShort(s: seq<Byte>, out: seq<Byte>, cap: nat, low: int, lit: nat, litp: nat, mid: seq<Byte>, r: seq<Byte>)
    requires litp + 2 + lit == |s| && 4 <= lit + |mid| + |r| <= 18 && |out| + |mid| + |r| <= cap
    requires EndsInLits(s, out, cap, low, lit, litp)
    ensures ShortJoined(s, out, cap, low, lit, litp, mid, r)
  {
    hide Reaches, Zeroed, Ready;
    var z, lits, o := Zeroed(s[..litp + 2]), s[litp + 2..], out[..|out| - lit];
    ReadyNow(z, o, cap, low);
    NewRun(z, Fresh, o, cap, low, lits + mid + r);
    assert o + (lits + mid + r) == out + mid + r by { assert out == o + lits; }
  }

  // The long run before the match, the match and the run after it become one run.
  lemma {:induction false} JoinLong(s: seq<Byte>, out: seq<Byte>, cap: nat, low: int, lit: nat, litp: nat, mid: seq<Byte>, r: seq<Byte>)
    requires litp + 1 + lit == |s| && 4 <= lit && lit + |mid| + |r| <= 18 && |out| + |mid| + |r| <= cap
    requires EndsInRun(s, out, cap, low, lit, litp)
    ensures Passed(s[..litp] + [lit + |mid| + |r| - 3] + (s[litp + 1..] + mid + r), AfterRun, out + mid + r, cap, low,
                   lit + |mid| + |r|, litp)
  {
    hide Reaches;
    var lits, o := s[litp + 1..], out[..|out| - lit];
    var mode := if Reaches(s[..litp], Start, o, cap, low) then Start else Fresh;
    NewRun(s[..litp], mode, o, cap, low, lits + mid + r);
    assert o + (lits + mid + r) == out + mid + r by { assert out == o + lits; }
  }
}
