// lzo1x_optimize (lzop.c): the peephole optimizer that rewrites a stream in place.
module LzoOptimize {
  import opened Lz77
  import opened LzoFormat
  import opened LzoCode
  import opened LzoReach
  import opened LzoPatch
  import opened LzoDecoder

  // The bytes that a match of c bytes adds.
  function Mid(out: seq<Byte>, off: nat, c: nat): (r: seq<Byte>)
    requires 1 <= off <= |out|
    ensures |r| == c
  {
    CopyBack(out, off, c)[|out|..]
  }

  lemma {:induction false} MidJoins(out: seq<Byte>, off: nat, c: nat)
    requires 1 <= off <= |out|
    ensures CopyBack(out, off, c) == out + Mid(out, off, c)
  {
    CopyKeeps(out, off, c);
  }

  lemma {:induction false} CopyKeeps(out: seq<Byte>, off: nat, c: nat)
    requires 1 <= off <= |out|
    ensures CopyBack(out, off, c)[..|out|] == out
  {
    if c != 0 { CopyKeeps(out, off, c - 1); }
  }

  // What copy2 and copy3 write.
  lemma {:induction false} MidIs(out: seq<Byte>, off: nat)
    requires 1 <= off <= |out|
    ensures var m := |out| - off;
            && Mid(out, off, 2) == [out[m], if off == 1 then out[m] else out[m + 1]]
            && Mid(out, off, 3) == if off == 1 then [out[m], out[m], out[m]]
                                   else if off == 2 then [out[m], out[m + 1], out[m]]
                                   else [out[m], out[m + 1], out[m + 2]]
  {
    var m := |out| - off;
    var o1 := out + [out[m]];
    assert CopyBack(out, off, 1) == o1;
    var o2 := o1 + [o1[m + 1]];
    assert CopyBack(out, off, 2) == o2;
    assert CopyBack(out, off, 3) == o2 + [o2[m + 2]];
  }

  // copy2(ip, m_pos, off)
  method Copy2(mem: array<Byte>, ip: nat, mPos: nat, off: nat)
    requires 1 <= off && mPos + off <= ip && ip + 2 <= mem.Length
    modifies mem
    ensures mem[ip..ip + 2] == Mid(old(mem[..mPos + off]), off, 2)
    ensures mem[..ip] == old(mem[..ip]) && mem[ip + 2..] == old(mem[ip + 2..])
  {
    MidIs(mem[..mPos + off], off);
    mem[ip] := mem[mPos];
    if off == 1 {
      mem[ip + 1] := mem[mPos];
    } else {
      mem[ip + 1] := mem[mPos + 1];
    }
  }

  // copy3(ip, m_pos, off)
  method Copy3(mem: array<Byte>, ip: nat, mPos: nat, off: nat)
    requires 1 <= off && mPos + off <= ip && ip + 3 <= mem.Length
    modifies mem
    ensures mem[ip..ip + 3] == Mid(old(mem[..mPos + off]), off, 3)
    ensures mem[..ip] == old(mem[..ip]) && mem[ip + 3..] == old(mem[ip + 3..])
  {
    MidIs(mem[..mPos + off], off);
    mem[ip] := mem[mPos];
    if off == 1 {
      mem[ip + 1] := mem[mPos];
      mem[ip + 2] := mem[mPos];
    } else if off == 2 {
      mem[ip + 1] := mem[mPos + 1];
      mem[ip + 2] := mem[mPos];
    } else {
      mem[ip + 1] := mem[mPos + 1];
      mem[ip + 2] := mem[mPos + 2];
    }
  }

  // The replacement of a two or three byte match by the bytes it stands for.
  method CopyOver(mem: array<Byte>, ip: nat, mPos: nat, off: nat, c: nat)
    requires 1 <= off && mPos + off <= ip && ip + c <= mem.Length && 2 <= c <= 3
    modifies mem
    ensures mem[ip..ip + c] == Mid(old(mem[..mPos + off]), off, c)
    ensures mem[..ip] == old(mem[..ip]) && mem[ip + c..] == old(mem[ip + c..])
  {
    if c == 2 {
      Copy2(mem, ip, mPos, off);
    } else {
      Copy3(mem, ip, mPos, off);
    }
  }

  // The stream s after each kind of rewrite; mid are the bytes of the match, h is the head of the new run.
  ghost function LitsText(s: seq<Byte>, litp: nat, mid: seq<Byte>): seq<Byte>
    requires litp + 2 <= |s|
  {
    Patched(Zeroed(s[..litp + 2]), 3) + s[litp + 2..] + mid
  }

  ghost function ShortText(s: seq<Byte>, litp: nat, h: Byte, mid: seq<Byte>): seq<Byte>
    requires litp + 2 <= |s|
  {
    Zeroed(s[..litp + 2]) + [h] + s[litp + 2..] + mid
  }

  ghost function LongText(s: seq<Byte>, litp: nat, h: Byte, mid: seq<Byte>): seq<Byte>
    requires litp < |s|
  {
    s[..litp] + [h] + s[litp + 1..] + mid
  }

  // o_m1_a and o_m3_a: the match before ip becomes literals of the short run before it.
  method EditLits(mem: array<Byte>, at: nat, litp: nat, lit: nat, ip: nat, mPos: nat, off: nat, c: nat)
    requires at + litp + 2 + lit + c == ip <= mem.Length && 1 <= off && mPos + off <= at && 2 <= c <= 3 && lit + c == 3
    modifies mem
    ensures mem[..at] == old(mem[..at]) && mem[ip..] == old(mem[ip..])
    ensures var s := old(mem[at..ip - c]);
            mem[at..ip] == LitsText(s, litp, Mid(old(mem[..mPos + off]), off, c))
  {
    hide Mid, LitsText;
    ghost var m0: seq<Byte> := mem[..];
    mem[at + litp] := mem[at + litp] / 4 * 4 + (lit + c);
    ghost var m1: seq<Byte> := mem[..];
    CopyOver(mem, ip - c, mPos, off, c);
    assert m1 == m0[at + litp := m0[at + litp] / 4 * 4 + 3];
    assert m1[..mPos + off] == m0[..mPos + off];
    LitsEdited(m0, m1, mem[..], at, litp, ip - c, ip);
  }

  lemma {:induction false} LitsEdited(m0: seq<Byte>, m1: seq<Byte>, m: seq<Byte>, at: nat, litp: nat, from: nat, ip: nat)
    requires at + litp + 2 <= from <= ip <= |m0| == |m1| == |m| && m1 == m0[at + litp := m0[at + litp] / 4 * 4 + 3]
    requires m[..from] == m1[..from] && m[ip..] == m1[ip..]
    ensures m[..at] == m0[..at] && m[ip..] == m0[ip..] && m[at..ip] == LitsText(m0[at..from], litp, m[from..ip])
  {
    Slices(m1, m, at, from, ip);
    var s := m0[at..from];
    assert m1[at..from] == s[litp := s[litp] / 4 * 4 + 3];
    Relit(s, litp);
  }

  lemma {:induction false} Relit(s: seq<Byte>, litp: nat)
    requires litp + 2 <= |s|
    ensures Patched(Zeroed(s[..litp + 2]), 3) + s[litp + 2..] == s[litp := s[litp] / 4 * 4 + 3]
  {
  }

  // A change in the middle only.
  lemma {:induction false} Slices(m0: seq<Byte>, m: seq<Byte>, at: nat, from: nat, to: nat)
    requires |m| == |m0| && at <= from <= to <= |m| && m[..from] == m0[..from] && m[to..] == m0[to..]
    ensures m[..at] == m0[..at] && m[at..to] == m0[at..from] + m[from..to]
  {
    assert m[..at] == m[..from][..at] && m0[..at] == m0[..from][..at];
    assert m[at..from] == m[..from][at..] && m0[at..from] == m0[..from][at..];
    assert m[at..to] == m[at..from] + m[from..to];
  }

  // o_m1_b and o_m3_b, with the head h of the run after the match just read: the short run, the match and that run
  // become one run.
  method EditShort(mem: array<Byte>, at: nat, litp: nat, lit: nat, ip: nat, mPos: nat, off: nat, c: nat, h: nat)
    requires at + litp + 2 + lit + c + 1 == ip <= mem.Length && 1 <= off && mPos + off <= at && 2 <= c <= 3 && lit < 4
    requires lit + c + h < 16
    modifies mem
    ensures mem[..at] == old(mem[..at]) && mem[ip..] == old(mem[ip..])
    ensures var s := old(mem[at..ip - c - 1]);
            mem[at..ip] == ShortText(s, litp, lit + c + h, Mid(old(mem[..mPos + off]), off, c))
  {
    hide Mid, ShortText;
    ghost var m0: seq<Byte> := mem[..];
    mem[at + litp] := mem[at + litp] / 4 * 4;
    assert mem[..mPos + off] == m0[..mPos + off];
    ghost var m': seq<Byte> := mem[..];
    CopyOver(mem, ip - c, mPos, off, c);
    ghost var m1: seq<Byte> := mem[..];
    assert m1[..ip - c] == m'[..ip - c] == m0[..ip - c][at + litp := m0[at + litp] / 4 * 4] && m'[ip..] == m0[ip..];
    ShiftUp(mem, at + litp + 2, lit, lit + c + h);
    ShortDone(m0, m1, mem[..], at, litp, lit, ip, c, lit + c + h);
  }

  // Make room for one byte in front of the literals.
  method ShiftUp(mem: array<Byte>, p: nat, lit: nat, h: Byte)
    requires p + lit + 1 <= mem.Length
    modifies mem
    ensures Shifted(old(mem[..]), mem[..], p, lit, h)
  {
    forall i | 0 <= i < lit { mem[p + 1 + i] := mem[p + i]; }
    mem[p] := h;
  }

  ghost predicate Shifted(m1: seq<Byte>, m: seq<Byte>, p: nat, lit: nat, h: Byte)
  {
    && p + lit + 1 <= |m| == |m1| && m[..p] == m1[..p] && m[p] == h
    && m[p + 1..p + 1 + lit] == m1[p..p + lit] && m[p + lit + 1..] == m1[p + lit + 1..]
  }

  lemma {:induction false} ShortDone(m0: seq<Byte>, m1: seq<Byte>, m: seq<Byte>, at: nat, litp: nat, lit: nat, ip: nat, c: nat, h: Byte)
    requires |m1| == |m0| && at + litp + 2 + lit + c + 1 == ip <= |m0|
    requires m1[..ip - c] == m0[..ip - c][at + litp := m0[at + litp] / 4 * 4] && m1[ip..] == m0[ip..]
    requires Shifted(m1, m, at + litp + 2, lit, h)
    ensures m[..at] == m0[..at] && m[ip..] == m0[ip..]
    ensures m[at..ip] == ShortText(m0[at..ip - c - 1], litp, h, m1[ip - c..ip])
  {
    hide Zeroed, ShortText;
    var p, s := at + litp + 2, m0[at..ip - c - 1];
    ShortHead(m0, m1, m, at, litp, ip - c);
    ShortLits(m0, m1, at, litp, lit, ip - c);
    ShortTail(m1, m, ip - c, ip);
    ShortBuilt(m, at, p, lit, ip, s, litp, h, m1[ip - c..ip]);
  }

  lemma {:induction false} ShortHead(m0: seq<Byte>, m1: seq<Byte>, m: seq<Byte>, at: nat, litp: nat, end: nat)
    requires |m| == |m1| == |m0| && at + litp + 3 <= end <= |m|
    requires m1[..end] == m0[..end][at + litp := m0[at + litp] / 4 * 4] && m[..at + litp + 2] == m1[..at + litp + 2]
    ensures m[..at] == m0[..at] && m[at..at + litp + 2] == Zeroed(m0[at..end - 1][..litp + 2])
  {
    forall i | 0 <= i < at + litp + 2 ensures m[i] == m0[..end][at + litp := m0[at + litp] / 4 * 4][i] {
      assert m[i] == m[..at + litp + 2][i] == m1[..at + litp + 2][i] == m1[i] == m1[..end][i];
    }
    assert m0[at..end - 1][..litp + 2] == m0[at..at + litp + 2];
  }

  lemma {:induction false} ShortLits(m0: seq<Byte>, m1: seq<Byte>, at: nat, litp: nat, lit: nat, end: nat)
    requires |m1| == |m0| && at + litp + 3 + lit == end <= |m0|
    requires m1[..end] == m0[..end][at + litp := m0[at + litp] / 4 * 4]
    ensures m1[at + litp + 2..end - 1] == m0[at..end - 1][litp + 2..]
  {
    assert m0[at..end - 1][litp + 2..] == m0[at + litp + 2..end - 1];
    forall i | at + litp + 2 <= i < end ensures m1[i] == m0[i] {
      assert m1[i] == m1[..end][i] == m0[..end][i];
    }
  }

  lemma {:induction false} ShortTail(m1: seq<Byte>, m: seq<Byte>, from: nat, ip: nat)
    requires |m| == |m1| && from <= ip <= |m| && m[from..] == m1[from..]
    ensures m[from..ip] == m1[from..ip] && m[ip..] == m1[ip..]
  {
    SameBehind(m1, m, from, ip);
    SameWithin(m1, m, from, from, ip);
  }

  lemma {:induction false} ShortBuilt(m: seq<Byte>, at: nat, p: nat, lit: nat, ip: nat, s: seq<Byte>, litp: nat, h: Byte, mid: seq<Byte>)
    requires at <= p && p + 1 + lit <= ip <= |m| && litp + 2 <= |s| && m[p] == h
    requires m[at..p] == Zeroed(s[..litp + 2]) && m[p + 1..p + 1 + lit] == s[litp + 2..] && m[p + 1 + lit..ip] == mid
    ensures m[at..ip] == ShortText(s, litp, h, mid)
  {
    hide Zeroed;
    assert m[p..p + 1] == [h];
    Pieces(m, at, p, p + 1, p + 1 + lit, ip);
  }

  lemma {:induction false} Pieces(m: seq<Byte>, a: nat, b: nat, c: nat, d: nat, e: nat)
    requires a <= b <= c <= d <= e <= |m|
    ensures m[a..e] == m[a..b] + m[b..c] + m[c..d] + m[d..e]
  {
    assert m[a..c] == m[a..b] + m[b..c];
    assert m[a..d] == m[a..c] + m[c..d];
    assert m[a..e] == m[a..d] + m[d..e];
  }

  // o_m2, with the head h of the run after the match just read: the long run, the match and that run become one run.
  method EditLong(mem: array<Byte>, at: nat, litp: nat, lit: nat, ip: nat, mPos: nat, off: nat, h: nat)
    requires at + litp + 1 + lit + 3 == ip <= mem.Length && 1 <= off && mPos + off <= at
    requires lit + 3 + h < 16
    modifies mem
    ensures mem[..at] == old(mem[..at]) && mem[ip..] == old(mem[ip..])
    ensures var s := old(mem[at..ip - 3]);
            mem[at..ip] == LongText(s, litp, lit + 3 + h, Mid(old(mem[..mPos + off]), off, 3))
  {
    hide Mid, LongText;
    ghost var m0: seq<Byte> := mem[..];
    Copy3(mem, ip - 3, mPos, off);
    ghost var m1: seq<Byte> := mem[..];
    mem[at + litp] := lit + 3 + h;
    assert mem[..] == m1[at + litp := lit + 3 + h];
    LongEdited(m0, m1, at, litp, ip - 3, ip, lit + 3 + h);
  }

  lemma {:induction false} LongEdited(m0: seq<Byte>, m1: seq<Byte>, at: nat, litp: nat, from: nat, ip: nat, h: Byte)
    requires at + litp < from <= ip <= |m0| == |m1| && m1[..from] == m0[..from] && m1[ip..] == m0[ip..]
    ensures var m := m1[at + litp := h];
            m[..at] == m0[..at] && m[ip..] == m0[ip..] && m[at..ip] == LongText(m0[at..from], litp, h, m1[from..ip])
  {
    var m, s, mid := m1[at + litp := h], m0[at..from], m1[from..ip];
    Slices(m0, m1, at, from, ip);
    assert m[..at] == m1[..at] && m[ip..] == m1[ip..];
    assert m[at..ip] == m1[at..ip][litp := h];
    assert (s + mid)[litp := h] == s[..litp] + [h] + s[litp + 1..] + mid;
  }

  // ---- the instructions of a valid stream ----

  // A stream that decodes to want, also in place with gap bytes from the write to the read pointer.
  ghost predicate Leads(b: seq<Byte>, mode: Mode, out: seq<Byte>, cap: nat, gap: int, want: Outcome)
  {
    Decode(b, mode, out, cap) == want && want.status == OK && Room(b, mode, out, cap, gap)
  }

  // The stream s, as rewritten so far, leads to where the original stream has led, and from there rest leads to want.
  ghost predicate OnTrack(s: seq<Byte>, rest: seq<Byte>, mode: Mode, out: seq<Byte>, cap: nat, low: int, lit: nat, litp: int, want: Outcome)
  {
    Passed(s, mode, out, cap, low, lit, litp) && Leads(rest, mode, out, cap, |s| - |out| - low, want)
  }

  lemma {:induction false} RunGoes(b: seq<Byte>, mode: Mode, out: seq<Byte>, cap: nat, gap: int, want: Outcome, size: nat, c: nat)
    requires ReadHead(b, mode) == RunHead(size, c) && Leads(b, mode, out, cap, gap, want)
    ensures LitsCheck(b, size, c, |out|, cap) == OK
    ensures Leads(b[size + c..], ModeAfter(c), out + b[size..size + c], cap, gap + size, want)
  {
    hide ReadHead, Clear;
  }

  lemma {:induction false} MatchGoes(b: seq<Byte>, mode: Mode, out: seq<Byte>, cap: nat, gap: int, want: Outcome,
                                     size: nat, off: nat, len: nat, k: nat)
    requires ReadHead(b, mode) == MatchHead(size, off, len, k) && Leads(b, mode, out, cap, gap, want)
    ensures CopyCheck(off, len, |out|, cap) == OK && (k > 0 ==> LitsCheck(b, size, k, |out| + len, cap) == OK)
    ensures size + k < |b| && len + 2 <= gap + size
    ensures Leads(b[size + k..], ModeAfter(k), CopyBack(out, off, len) + b[size..size + k], cap, gap + size - len, want)
  {
    hide ReadHead, CopyBack;
    if CopyCheck(off, len, |out|, cap) == OK {
      var o := CopyBack(out, off, len);
      assert k == 0 ==> o + b[size..size + k] == o;
      if k == 0 { NeverEmpty(b[size..], Fresh, o, cap); }
    }
  }

  // A match without literals after it.
  lemma {:induction false} MatchAlone(b: seq<Byte>, mode: Mode, out: seq<Byte>, cap: nat, gap: int, want: Outcome, size: nat, off: nat, len: nat)
    requires ReadHead(b, mode) == MatchHead(size, off, len, 0) && Leads(b, mode, out, cap, gap, want)
    ensures 1 <= off <= |out| && |out| + len <= cap && size < |b| && CopyBack(out, off, len) == out + Mid(out, off, len)
    ensures Leads(b[size..], Fresh, out + Mid(out, off, len), cap, gap + size - len, want)
  {
    hide ReadHead, Leads, CopyBack, Mid;
    MatchGoes(b, mode, out, cap, gap, want, size, off, len, 0);
    MidJoins(out, off, len);
    assert CopyBack(out, off, len) + b[size..size] == CopyBack(out, off, len);
  }

  lemma {:induction false} PassFacts(s: seq<Byte>, mode: Mode, out: seq<Byte>, cap: nat, low: int, lit: nat, litp: int,
                                     b: seq<Byte>, want: Outcome, size: nat, off: nat, len: nat, k: nat)
    requires OnTrack(s, b, mode, out, cap, low, lit, litp, want) && ReadHead(b, mode) == MatchHead(size, off, len, k)
    ensures 1 <= off <= |out| && 2 <= size && k == b[size - 2] % 4 && size + k < |b| && |out| + len + k <= cap
    ensures OnTrack(s + b[..size + k], b[size + k..], ModeAfter(k), CopyBack(out, off, len) + b[size..size + k], cap, low, k, |s| + size - 2, want)
  {
    hide ReadHead, Leads, CopyBack, EndsInLits, EndsInRun, Reaches;
    MatchGoes(b, mode, out, cap, |s| - |out| - low, want, size, off, len, k);
    PassedMatch(s, mode, out, cap, low, b, size, off, len, k);
  }

  lemma {:induction false} RunFacts(s: seq<Byte>, mode: Mode, out: seq<Byte>, cap: nat, low: int, lit: nat, litp: int,
                                    b: seq<Byte>, want: Outcome, size: nat, c: nat, first: bool)
    requires OnTrack(s, b, mode, out, cap, low, lit, litp, want) && ReadHead(b, mode) == RunHead(size, c)
    requires if first then litp < 0 else b[0] < 16 && (mode == Start || mode == Fresh)
    ensures size + c <= |b| && |out| + c <= cap
    ensures OnTrack(s + b[..size + c], b[size + c..], ModeAfter(c), out + b[size..size + c], cap, low,
                    if first then lit else c, if first then litp else |s|, want)
  {
    hide ReadHead, Leads, EndsInLits, EndsInRun, Reaches, LitsCheck;
    RunGoes(b, mode, out, cap, |s| - |out| - low, want, size, c);
    RunFits(b, size, c, |out|, cap);
    if first {
      LzoPatch.PassRun(s, mode, out, cap, low, b, size, c);
    } else {
      PassedRun(s, mode, out, cap, low, b, size, c);
    }
  }

  lemma {:induction false} NeverEmpty(b: seq<Byte>, mode: Mode, out: seq<Byte>, cap: nat)
    requires Decode(b, mode, out, cap).status == OK
    ensures b != []
  {
  }

  class Optimizer {
    const d: Decoder              // the read and write pointers; the output buffer comes before the stream
    const at: nat                 // where the stream starts
    ghost const low: int          // less the gap with which the stream decodes in place
    var litp: int                 // index into the stream, -1 for NULL
    var lit: nat

    ghost predicate Valid()
      reads this, d
    {
      d.Valid() && d.opEnd <= at <= d.ip
    }

    // The part of the stream that has been passed, as it is now.
    ghost function Done(): seq<Byte>
      reads this, d, d.mem
      requires Valid()
    {
      d.mem[at..d.ip]
    }

    // The head of an instruction, size bytes of b, has been read.
    ghost predicate Fetched(s: seq<Byte>, b: seq<Byte>, o: seq<Byte>, size: nat)
      reads this, d, d.mem
      requires Valid()
    {
      size <= |b| && Done() == s + b[..size] && d.Rest() == b[size..] && d.Out() == o
    }

    ghost predicate On(mode: Mode, want: Outcome)
      reads this, d, d.mem
    {
      Valid() && OnTrack(Done(), d.Rest(), mode, d.Out(), d.opEnd, low, lit, litp, want)
    }

    constructor (d: Decoder, ghost gap: int)
      requires d.Valid() && d.opEnd <= d.ip
      ensures this.d == d && at == d.ip && litp == -1 && lit == 0 && low == -gap
    {
      this.d, at, litp, lit, low := d, d.ip, -1, 0, -gap;
    }

    // Literals copied to the output.
    method Lits(c: nat, ghost s: seq<Byte>, ghost b: seq<Byte>, ghost o: seq<Byte>, ghost size: nat)
      requires Valid() && Fetched(s, b, o, size) && size + c <= |b| && |o| + c <= d.opEnd
      modifies d.mem, d`ip, d`op
      ensures Valid() && Fetched(s, b, o + b[size..size + c], size + c) && d.ip == old(d.ip) + c
    {
      ghost var m0: seq<Byte>, ip0 := d.mem[..], d.ip;
      assert |d.Rest()| == |b| - size;
      SubTail(b, size, c);
      d.CopyLits(c);
      ghost var m: seq<Byte> := d.mem[..];
      SameBehind(m0, m, d.op, at);
      LitsDone(m0, m, at, ip0, d.ipEnd, s, b, size, c);
    }

    // The bytes of a match copied to the output.
    method Match(off: nat, len: nat, ghost s: seq<Byte>, ghost b: seq<Byte>, ghost o: seq<Byte>, ghost size: nat)
      requires Valid() && Fetched(s, b, o, size) && 1 <= off <= |o| && |o| + len <= d.opEnd
      modifies d.mem, d`op
      ensures Valid() && Fetched(s, b, CopyBack(o, off, len), size) && d.mem[at..] == old(d.mem[..])[at..]
    {
      ghost var m0: seq<Byte> := d.mem[..];
      d.CopyMatch(off, len);
      SameBehind(m0, d.mem[..], d.op, at);
      SameWithin(m0, d.mem[..], at, at, d.ip);
      SameWithin(m0, d.mem[..], at, d.ip, d.ipEnd);
    }

    // A run passed as it is, its head at index pos of the stream; first says that it is the run at the start with a
    // head above 17.
    method PassRun(first: bool, pos: nat, c: nat, ghost mode: Mode, ghost s: seq<Byte>, ghost b: seq<Byte>, ghost o: seq<Byte>,
                   ghost size: nat, ghost want: Outcome)
      requires Valid() && Fetched(s, b, o, size) && OnTrack(s, b, mode, o, d.opEnd, low, lit, litp, want) && pos == |s|
      requires ReadHead(b, mode) == RunHead(size, c)
      requires if first then litp < 0 else b[0] < 16 && (mode == Start || mode == Fresh)
      modifies this`lit, this`litp, d.mem, d`ip, d`op
      ensures On(ModeAfter(c), want) && d.ip == old(d.ip) + c
    {
      hide ReadHead, OnTrack;
      RunFacts(s, mode, o, d.opEnd, low, lit, litp, b, want, size, c, first);
      if !first {
        litp := pos;
        lit := c;
      }
      Lits(c, s, b, o, size);
    }

    // The literals after a match, whose number is in the second byte before ip.
    method PassLits(ghost s: seq<Byte>, ghost b: seq<Byte>, ghost o: seq<Byte>, ghost size: nat)
      requires Valid() && Fetched(s, b, o, size) && 2 <= size && size + b[size - 2] % 4 <= |b| && |o| + b[size - 2] % 4 <= d.opEnd
      modifies this`lit, this`litp, d.mem, d`ip, d`op
      ensures Valid() && lit == b[size - 2] % 4 && litp == |s| + size - 2
      ensures Fetched(s, b, o + b[size..size + lit], size + lit) && d.ip >= old(d.ip)
    {
      CountByte(d.mem[..], at, d.ip, s, b, size);
      lit := d.mem[d.ip - 2] % 4;
      litp := d.ip - 2 - at;
      if lit != 0 {
        Lits(lit, s, b, o, size);
      } else {
        assert o + b[size..size] == o;
      }
    }

    // A match passed as it is, with the literals whose number is in the second byte before ip.
    method PassMatch(off: nat, len: nat, ghost mode: Mode, ghost s: seq<Byte>, ghost b: seq<Byte>, ghost o: seq<Byte>,
                     ghost size: nat, ghost want: Outcome) returns (mode': Mode)
      requires Valid() && Fetched(s, b, o, size) && OnTrack(s, b, mode, o, d.opEnd, low, lit, litp, want)
      requires var h := ReadHead(b, mode); h.MatchHead? && h.size == size && h.off == off && h.len == len
      modifies this`lit, this`litp, d.mem, d`ip, d`op
      ensures On(mode', want) && d.ip >= old(d.ip)
    {
      hide ReadHead, OnTrack, CopyBack;
      PassFacts(s, mode, o, d.opEnd, low, lit, litp, b, want, size, off, len, ReadHead(b, mode).lits);
      Match(off, len, s, b, o, size);
      PassLits(s, b, CopyBack(o, off, len), size);
      mode' := ModeAfter(lit);
    }

    // o_m1_a and o_m3_a
    method LitsStep(off: nat, c: nat, ghost mode: Mode, ghost s: seq<Byte>, ghost b: seq<Byte>, ghost o: seq<Byte>, ghost want: Outcome)
      requires Valid() && Fetched(s, b, o, c) && litp >= 0 && EndsInLits(s, o, d.opEnd, low, lit, litp) && lit + c == 3 && 2 <= c
      requires Leads(b, mode, o, d.opEnd, |s| - |o| - low, want)
      requires ReadHead(b, mode) == MatchHead(c, off, c, 0) && (|b| > c ==> b[c] >= 16)
      modifies this`lit, d.mem, d`ip, d`op
      ensures On(AfterLits, want) && d.ip == old(d.ip)
    {
      hide ReadHead, Leads, OnTrack, CopyBack, Mid, LitsText, EndsInLits;
      LitsShape(s, o, d.opEnd, low, lit, litp);
      LitsFacts(s, b, mode, o, d.opEnd, low, want, lit, litp, off, c);
      LitsEdit(off, c, s, b, o);
      Nothing(Done(), b[c..]);
      Match(off, c, Done(), b[c..], o, 0);
    }

    method LitsEdit(off: nat, c: nat, ghost s: seq<Byte>, ghost b: seq<Byte>, ghost o: seq<Byte>)
      requires Valid() && Fetched(s, b, o, c) && litp >= 0 && litp + 2 + lit == |s| && lit + c == 3 && 2 <= c && 1 <= off <= |o|
      modifies this`lit, d.mem
      ensures Valid() && lit == 3 && Done() == LitsText(s, litp, Mid(o, off, c)) && d.Rest() == b[c..] && d.Out() == o
    {
      hide Mid, LitsText;
      ghost var m0: seq<Byte> := d.mem[..];
      Before(m0, at, d.ip, s, b, c);
      EditLits(d.mem, at, litp, lit, d.ip, d.op - off, off, c);
      Outside(m0, d.mem[..], at, d.ip, d.op, d.ipEnd);
      lit := lit + c;
    }

    // The bytes of the match and the literals of the run after it, once the stream up to ip has become s.
    method CopyBoth(off: nat, c: nat, t: nat, ghost s: seq<Byte>, ghost b: seq<Byte>, ghost o: seq<Byte>, ghost mode: Mode, ghost want: Outcome)
      requires Valid() && Done() == s && d.Rest() == b && d.Out() == o && t <= |b| && 1 <= off <= |o| && |o| + c + t <= d.opEnd
      requires CopyBack(o, off, c) == o + Mid(o, off, c)
      requires OnTrack(s + b[..t], b[t..], mode, o + Mid(o, off, c) + b[..t], d.opEnd, low, lit, litp, want)
      modifies d.mem, d`ip, d`op
      ensures On(mode, want) && d.ip == old(d.ip) + t
    {
      hide Mid, CopyBack, OnTrack;
      Nothing(s, b);
      Match(off, c, s, b, o, 0);
      Lits(t, s, b, o + Mid(o, off, c), 0);
    }

    // The edits of o_m1_b and o_m3_b, with the head t of the run read.
    method ShortEdit(off: nat, c: nat, ghost s: seq<Byte>, ghost b: seq<Byte>, ghost o: seq<Byte>) returns (t: nat)
      requires Valid() && Fetched(s, b, o, c) && litp >= 0 && litp + 2 + lit == |s| && lit < 4 && 2 <= c <= 3
      requires 1 <= off <= |o| && c < |b| && lit + c + b[c] < 16
      modifies this`lit, this`litp, d.mem, d`ip
      ensures Valid() && d.ip == old(d.ip) + 1 && t == b[c] && litp == old(litp) + 2 && lit == old(lit) + c + t + 3
      ensures Done() == ShortText(s, old(litp), old(lit) + c + t, Mid(o, off, c))
      ensures d.Rest() == b[c + 1..] && d.Out() == o
    {
      hide Mid, ShortText;
      NextByte(d.mem[..], d.ip, d.ipEnd, b, c);
      Before(d.mem[..], at, d.ip, s, b, c);
      t := d.mem[d.ip];
      d.ip := d.ip + 1;
      ghost var m0: seq<Byte> := d.mem[..];
      EditShort(d.mem, at, litp, lit, d.ip, d.op - off, off, c, t);
      Outside(m0, d.mem[..], at, d.ip, d.op, d.ipEnd);
      litp := litp + 2;
      lit := lit + c + t + 3;
    }

    // o_m1_b and o_m3_b
    method ShortStep(off: nat, c: nat, ghost mode: Mode, ghost s: seq<Byte>, ghost b: seq<Byte>, ghost o: seq<Byte>, ghost want: Outcome)
      requires Valid() && Fetched(s, b, o, c) && litp >= 0 && EndsInLits(s, o, d.opEnd, low, lit, litp) && 2 <= c <= 3
      requires Leads(b, mode, o, d.opEnd, |s| - |o| - low, want)
      requires ReadHead(b, mode) == MatchHead(c, off, c, 0) && c < |b| && 0 < b[c] < 16 && lit + c + b[c] < 16
      modifies this`lit, this`litp, d.mem, d`ip, d`op
      ensures On(AfterRun, want) && d.ip > old(d.ip)
    {
      hide ReadHead, Leads, OnTrack, CopyBack, Mid, ShortText, EndsInLits;
      LitsShape(s, o, d.opEnd, low, lit, litp);
      ShortFacts(s, b, mode, o, d.opEnd, low, want, lit, litp, off, c);
      var t := ShortEdit(off, c, s, b, o);
      CopyBoth(off, c, t + 3, Done(), b[c + 1..], o, AfterRun, want);
    }

    // The edits of o_m2, with the head t of the run read.
    method LongEdit(off: nat, ghost s: seq<Byte>, ghost b: seq<Byte>, ghost o: seq<Byte>) returns (t: nat)
      requires Valid() && Fetched(s, b, o, 2) && litp >= 0 && litp + 1 + lit == |s|
      requires 1 <= off <= |o| && 2 < |b| && lit + 3 + b[2] < 16
      modifies this`lit, d.mem, d`ip
      ensures Valid() && d.ip == old(d.ip) + 1 && t == b[2] && lit == old(lit) + 3 + t + 3
      ensures Done() == LongText(s, litp, old(lit) + 3 + t, Mid(o, off, 3))
      ensures d.Rest() == b[3..] && d.Out() == o
    {
      hide Mid, LongText;
      NextByte(d.mem[..], d.ip, d.ipEnd, b, 2);
      Before(d.mem[..], at, d.ip, s, b, 2);
      t := d.mem[d.ip];
      d.ip := d.ip + 1;
      ghost var m0: seq<Byte> := d.mem[..];
      EditLong(d.mem, at, litp, lit, d.ip, d.op - off, off, t);
      Outside(m0, d.mem[..], at, d.ip, d.op, d.ipEnd);
      lit := lit + 3 + t + 3;
    }

    // o_m2
    method LongStep(off: nat, ghost mode: Mode, ghost s: seq<Byte>, ghost b: seq<Byte>, ghost o: seq<Byte>, ghost want: Outcome)
      requires Valid() && Fetched(s, b, o, 2) && litp >= 0 && EndsInRun(s, o, d.opEnd, low, lit, litp)
      requires Leads(b, mode, o, d.opEnd, |s| - |o| - low, want)
      requires ReadHead(b, mode) == MatchHead(2, off, 3, 0) && 2 < |b| && 0 < b[2] < 16 && lit + 3 + b[2] < 16
      modifies this`lit, d.mem, d`ip, d`op
      ensures On(AfterRun, want) && d.ip > old(d.ip)
    {
      hide ReadHead, Leads, OnTrack, CopyBack, Mid, EndsInRun, LongText;
      RunShape(s, o, d.opEnd, low, lit, litp);
      LongFacts(s, b, mode, o, d.opEnd, low, want, lit, litp, off);
      var t := LongEdit(off, s, b, o);
      CopyBoth(off, 3, t + 3, Done(), b[3..], o, AfterRun, want);
    }

    // A match whose first byte is t: one of the five rewrites, or none.
    method OnMatch(t: nat, off: nat, len: nat, mode: Mode, ghost s: seq<Byte>, ghost b: seq<Byte>, ghost o: seq<Byte>,
                   ghost size: nat, ghost want: Outcome) returns (mode': Mode)
      requires Valid() && Fetched(s, b, o, size) && OnTrack(s, b, mode, o, d.opEnd, low, lit, litp, want) && b != [] && b[0] == t
      requires var h := ReadHead(b, mode); h.MatchHead? && h.size == size && h.off == off && h.len == len
      modifies this`lit, this`litp, d.mem, d`ip, d`op
      ensures On(mode', want) && d.ip >= old(d.ip)
    {
      hide ReadHead, Leads, Reaches, EndsInLits, EndsInRun, CopyBack;
      HeadSizes(b, mode);
      CountByte(d.mem[..], at, d.ip, s, b, size);
      var nl := d.mem[d.ip - 2] % 4;
      if litp < 0 || nl != 0 || d.ip == d.ipEnd {
        mode' := PassMatch(off, len, mode, s, b, o, size, want);
        return;
      }
      NextByte(d.mem[..], d.ip, d.ipEnd, b, size);
      var next: nat := d.mem[d.ip];
      if t < 16 && mode == AfterLits && lit == 1 && next >= 16 {
        LitsStep(off, 2, mode, s, b, o, want);
        mode' := AfterLits;
      } else if t < 16 && mode == AfterLits && 0 < next < 16 && lit + 2 + next < 16 {
        ShortStep(off, 2, mode, s, b, o, want);
        mode' := AfterRun;
      } else if t >= 64 && len == 3 && lit > 3 && 0 < next < 16 && lit + 3 + next < 16 {
        LongStep(off, mode, s, b, o, want);
        mode' := AfterRun;
      } else if 16 <= t < 64 && len == 3 && lit == 0 && next >= 16 {
        LitsStep(off, 3, mode, s, b, o, want);
        mode' := AfterLits;
      } else if 16 <= t < 64 && len == 3 && lit <= 3 && 0 < next < 16 && lit + 3 + next < 16 {
        ShortStep(off, 3, mode, s, b, o, want);
        mode' := AfterRun;
      } else {
        mode' := PassMatch(off, len, mode, s, b, o, size, want);
      }
    }

    // One instruction.
    method Step(mode: Mode, ghost want: Outcome) returns (done: bool, mode': Mode)
      requires On(mode, want)
      modifies this`lit, this`litp, d.mem, d`ip, d`op
      ensures !done ==> On(mode', want) && d.ip > old(d.ip)
      ensures done ==> Valid() && d.ip == d.ipEnd && d.Out() == want.out && Leads(Done(), Start, [], d.opEnd, -low, want)
    {
      hide ReadHead, Decode, Room, Reaches, EndsInLits, EndsInRun;
      ghost var s, b, o := Done(), d.Rest(), d.Out();
      NeverEmpty(b, mode, o, d.opEnd);
      var t: nat, pos := d.mem[d.ip], d.ip - at;
      assert b[0] == t;
      HeadKinds(b, mode, o, d.opEnd);
      var i := d.Fetch(mode);
      ghost var size := d.ip - at - pos;
      ReadOn(d.mem[..], at, at + pos, d.ip, d.ipEnd);
      done, mode' := false, mode;
      match i {
        case End =>
          EndReached(s, mode, o, d.opEnd, low, b);
          assert b[..|b|] == b;
          done := true;
        case Run(c) =>
          PassRun(mode == Start && t > 17, pos, c, mode, s, b, o, size, want);
          mode' := ModeAfter(c);
        case Copy(off, len) =>
          mode' := OnMatch(t, off, len, mode, s, b, o, size, want);
        case Fail(st) =>
          assert false;
      }
    }
  }

  // The number of bytes each class of match takes.
  lemma {:induction false} HeadSizes(b: seq<Byte>, mode: Mode)
    requires ReadHead(b, mode).MatchHead?
    ensures var h := ReadHead(b, mode);
            && 2 <= h.size <= |b| && h.lits == b[h.size - 2] % 4
            && (b[0] < 16 ==> h.size == 2 && (mode == AfterLits ==> h.len == 2))
            && (b[0] >= 64 ==> h.size == 2) && (16 <= b[0] < 64 && h.len == 3 ==> h.size == 3)
  {
  }

  lemma {:induction false} CountByte(m: seq<Byte>, at: nat, ip: nat, s: seq<Byte>, b: seq<Byte>, size: nat)
    requires at <= ip <= |m| && 2 <= size <= |b| && m[at..ip] == s + b[..size]
    ensures ip >= 2 && ip - at == |s| + size && m[ip - 2] == b[size - 2]
  {
    assert m[ip - 2] == m[at..ip][|s| + size - 2];
  }

  // What a valid stream goes on with.
  lemma {:induction false} HeadKinds(b: seq<Byte>, mode: Mode, out: seq<Byte>, cap: nat)
    requires Decode(b, mode, out, cap).status == OK && b != []
    ensures var h := ReadHead(b, mode);
            && !h.Stop? && (h.EndHead? ==> h.size == |b| && Decode(b, mode, out, cap) == Outcome(OK, out))
            && (h.RunHead? && !(mode == Start && b[0] > 17) ==> b[0] < 16 && (mode == Start || mode == Fresh))
  {
  }

  lemma {:induction false} EndReached(s: seq<Byte>, mode: Mode, out: seq<Byte>, cap: nat, low: int, b: seq<Byte>)
    requires Reaches(s, mode, out, cap, low) && b != []
    ensures Decode(s + b, Start, [], cap) == Decode(b, mode, out, cap)
    ensures Room(b, mode, out, cap, |s| - |out| - low) ==> Room(s + b, Start, [], cap, -low)
  {
    hide Decode, Room;
  }

  lemma {:induction false} ReadOn(m: seq<Byte>, at: nat, ip0: nat, ip: nat, end: nat)
    requires at <= ip0 <= ip <= end <= |m|
    ensures m[at..ip] == m[at..ip0] + m[ip0..end][..ip - ip0] && m[ip..end] == m[ip0..end][ip - ip0..]
  {
    Sub(m, ip0, end, ip - ip0);
  }

  // lzo1x_optimize: for every valid stream of n bytes at position at, decoding into the cap bytes before it, the
  // rewritten stream decodes to the same bytes, these are the bytes left in the output buffer, and it still decodes
  // in place wherever the stream did.
  method Optimize(mem: array<Byte>, at: nat, n: nat, cap: nat, ghost gap: int) returns (outLen: nat)
    requires cap <= at && at + n <= mem.Length && Decode(mem[at..at + n], Start, [], cap).status == OK
    requires Room(mem[at..at + n], Start, [], cap, gap)
    modifies mem
    ensures Decode(mem[at..at + n], Start, [], cap) == old(Decode(mem[at..at + n], Start, [], cap))
    ensures Room(mem[at..at + n], Start, [], cap, gap)
    ensures outLen <= cap && mem[..outLen] == Decode(mem[at..at + n], Start, [], cap).out
  {
    hide Decode, Room, Passed;
    var d := new Decoder(mem, at, n, cap);
    var z := new Optimizer(d, gap);
    ghost var want := Decode(mem[at..at + n], Start, [], cap);
    RoomGap(mem[at..at + n], cap, gap);
    PassedStart(cap, -gap);
    assert mem[..0] == [] && mem[at..at] == [];
    var mode, done := Start, false;
    while !done
      invariant fresh(d) && fresh(z) && z.d == d && d.mem == mem && d.ipEnd == at + n && z.at == at && d.opEnd == cap && z.low == -gap
      invariant !done ==> z.On(mode, want)
      invariant done ==> z.Valid() && d.ip == d.ipEnd && d.Out() == want.out && Leads(z.Done(), Start, [], cap, gap, want)
      decreases !done, d.ipEnd - d.ip
    {
      done, mode := z.Step(mode, want);
    }
    outLen := d.op;
  }

  lemma {:induction false} RoomGap(b: seq<Byte>, cap: nat, gap: int)
    requires Room(b, Start, [], cap, gap)
    ensures gap >= 0
  {
  }

  lemma {:induction false} LitsFacts(s: seq<Byte>, b: seq<Byte>, mode: Mode, o: seq<Byte>, cap: nat, low: int, want: Outcome,
                                     lit: nat, litp: nat, off: nat, c: nat)
    requires EndsInLits(s, o, cap, low, lit, litp) && lit + c == 3 && 2 <= c && Leads(b, mode, o, cap, |s| - |o| - low, want)
    requires ReadHead(b, mode) == MatchHead(c, off, c, 0) && (|b| > c ==> b[c] >= 16)
    ensures 1 <= off <= |o| && CopyBack(o, off, c) == o + Mid(o, off, c) && |o| + c <= cap && c < |b| && litp + 2 <= |s|
    ensures OnTrack(LitsText(s, litp, Mid(o, off, c)), b[c..], AfterLits, o + Mid(o, off, c), cap, low, 3, litp, want)
  {
    hide ReadHead, Leads, Passed, CopyBack, Mid, EndsInLits, Zeroed, Patched;
    LitsShape(s, o, cap, low, lit, litp);
    MatchAlone(b, mode, o, cap, |s| - |o| - low, want, c, off, c);
    NextMatch(b[c..], o + Mid(o, off, c), cap, |s| - |o| - low, want);
    JoinLits(s, o, cap, low, lit, litp, Mid(o, off, c));
  }

  lemma {:induction false} ShortFacts(s: seq<Byte>, b: seq<Byte>, mode: Mode, o: seq<Byte>, cap: nat, low: int, want: Outcome,
                                      lit: nat, litp: nat, off: nat, c: nat)
    requires EndsInLits(s, o, cap, low, lit, litp) && 2 <= c <= 3 && Leads(b, mode, o, cap, |s| - |o| - low, want)
    requires ReadHead(b, mode) == MatchHead(c, off, c, 0) && c < |b| && 0 < b[c] < 16 && lit + c + b[c] < 16
    ensures 1 <= off <= |o| && CopyBack(o, off, c) == o + Mid(o, off, c) && |o| + c + 3 + b[c] <= cap && c + 4 + b[c] < |b|
    ensures var t, mid, b' := b[c], Mid(o, off, c), b[c + 1..];
            OnTrack(ShortText(s, litp, lit + c + t, mid) + b'[..t + 3], b'[t + 3..], AfterRun, o + mid + b'[..t + 3], cap, low,
                    lit + c + t + 3, litp + 2, want)
  {
    hide ReadHead, Leads, Passed, CopyBack, Mid, Zeroed, EndsInLits;
    LitsShape(s, o, cap, low, lit, litp);
    RunAfter(b, mode, o, cap, |s| - |o| - low, want, c, off, c);
    var t: nat, mid := b[c], Mid(o, off, c);
    var r := b[c + 1..c + 4 + t];
    SubTail(b, c + 1, t + 3);
    JoinShort(s, o, cap, low, lit, litp, mid, r);
    var z, h: seq<Byte>, lits := Zeroed(s[..litp + 2]), [lit + c + t], s[litp + 2..];
    assert z + h + lits + mid + r == z + h + (lits + mid + r);
  }

  lemma {:induction false} LongFacts(s: seq<Byte>, b: seq<Byte>, mode: Mode, o: seq<Byte>, cap: nat, low: int, want: Outcome,
                                     lit: nat, litp: nat, off: nat)
    requires EndsInRun(s, o, cap, low, lit, litp) && Leads(b, mode, o, cap, |s| - |o| - low, want)
    requires ReadHead(b, mode) == MatchHead(2, off, 3, 0) && 2 < |b| && 0 < b[2] < 16 && lit + 3 + b[2] < 16
    ensures 1 <= off <= |o| && CopyBack(o, off, 3) == o + Mid(o, off, 3) && |o| + 6 + b[2] <= cap && 6 + b[2] < |b|
    ensures var t, mid, b' := b[2], Mid(o, off, 3), b[3..];
            OnTrack(LongText(s, litp, lit + 3 + t, mid) + b'[..t + 3], b'[t + 3..], AfterRun, o + mid + b'[..t + 3], cap, low,
                    lit + 3 + t + 3, litp, want)
  {
    hide ReadHead, Leads, Passed, CopyBack, Mid, EndsInRun;
    RunShape(s, o, cap, low, lit, litp);
    RunAfter(b, mode, o, cap, |s| - |o| - low, want, 2, off, 3);
    var t: nat, mid := b[2], Mid(o, off, 3);
    var r := b[3..6 + t];
    SubTail(b, 3, t + 3);
    JoinLong(s, o, cap, low, lit, litp, mid, r);
    var z, h: seq<Byte>, lits := s[..litp], [lit + 3 + t], s[litp + 1..];
    assert z + h + lits + mid + r == z + h + (lits + mid + r);
  }

  // A match without literals, then a run with a one-byte head.
  lemma {:induction false} RunAfter(b: seq<Byte>, mode: Mode, out: seq<Byte>, cap: nat, gap: int, want: Outcome, size: nat, off: nat, len: nat)
    requires ReadHead(b, mode) == MatchHead(size, off, len, 0) && Leads(b, mode, out, cap, gap, want)
    requires size < |b| && 0 < b[size] < 16
    ensures 1 <= off <= |out| && CopyBack(out, off, len) == out + Mid(out, off, len)
    ensures var t, mid := b[size], Mid(out, off, len);
            && size + 4 + t < |b| && |out| + len + 3 + t <= cap
            && Leads(b[size + 4 + t..], AfterRun, out + mid + b[size + 1..size + 4 + t], cap, gap + size - len + 1, want)
  {
    hide Leads, CopyBack, Mid;
    MatchAlone(b, mode, out, cap, gap, want, size, off, len);
    var t: nat, b', o := b[size], b[size..], out + Mid(out, off, len);
    assert ReadHead(b', Fresh) == RunHead(1, t + 3);
    hide ReadHead;
    RunGoes(b', Fresh, o, cap, gap + size - len, want, 1, t + 3);
    SubSub(b, size, 1, t + 4);
  }

  lemma {:induction false} NextByte(m: seq<Byte>, ip: nat, end: nat, b: seq<Byte>, size: nat)
    requires ip <= end <= |m| && size < |b| && m[ip..end] == b[size..]
    ensures ip < end && m[ip] == b[size] && m[ip + 1..end] == b[size + 1..]
  {
    assert m[ip] == m[ip..end][0] && m[ip + 1..end] == m[ip..end][1..];
  }

  lemma {:induction false} RunShape(s: seq<Byte>, out: seq<Byte>, cap: nat, low: int, lit: nat, litp: nat)
    requires EndsInRun(s, out, cap, low, lit, litp)
    ensures 4 <= lit <= |out| && litp + 1 + lit == |s|
  {
  }

  lemma {:induction false} Nothing(s: seq<Byte>, b: seq<Byte>)
    ensures s + b[..0] == s && b[0..] == b
  {
  }

  lemma {:induction false} RunFits(b: seq<Byte>, size: nat, c: nat, n: nat, cap: nat)
    requires LitsCheck(b, size, c, n, cap) == OK
    ensures n + c <= cap && size + c < |b|
  {
  }

  lemma {:induction false} LitsShape(s: seq<Byte>, out: seq<Byte>, cap: nat, low: int, lit: nat, litp: nat)
    requires EndsInLits(s, out, cap, low, lit, litp)
    ensures lit < 4 && lit <= |out| && litp + 2 + lit == |s|
  {
  }

  // A byte of at least 16 means the same in every mode.
  lemma {:induction false} NextMatch(b: seq<Byte>, out: seq<Byte>, cap: nat, gap: int, want: Outcome)
    requires b != [] && b[0] >= 16 && Leads(b, Fresh, out, cap, gap, want)
    ensures Leads(b, AfterLits, out, cap, gap, want)
  {
    assert ReadHead(b, AfterLits) == ReadHead(b, Fresh);
    hide ReadHead;
  }

  lemma {:induction false} Before(m: seq<Byte>, at: nat, ip: nat, s: seq<Byte>, b: seq<Byte>, size: nat)
    requires at <= ip <= |m| && size <= |b| && m[at..ip] == s + b[..size]
    ensures at + |s| + size == ip && m[at..ip - size] == s
  {
    assert m[at..ip - size] == m[at..ip][..|s|];
  }

  // Changes between at and ip leave the output and the rest of the stream alone.
  lemma {:induction false} Outside(m0: seq<Byte>, m: seq<Byte>, at: nat, ip: nat, op: nat, end: nat)
    requires |m| == |m0| && op <= at <= ip <= end <= |m| && m[..at] == m0[..at] && m[ip..] == m0[ip..]
    ensures m[..op] == m0[..op] && m[ip..end] == m0[ip..end]
  {
    assert m[..op] == m[..at][..op] && m0[..op] == m0[..at][..op];
    assert m[ip..end] == m[ip..][..end - ip] && m0[ip..end] == m0[ip..][..end - ip];
  }

  lemma {:induction false} LitsDone(m0: seq<Byte>, m: seq<Byte>, at: nat, ip0: nat, end: nat, s: seq<Byte>, b: seq<Byte>, size: nat, c: nat)
    requires |m| == |m0| && at <= ip0 && ip0 + c <= end <= |m| && m[at..] == m0[at..]
    requires size + c <= |b| && m0[at..ip0] == s + b[..size] && m0[ip0..end] == b[size..]
    ensures m[at..ip0 + c] == s + b[..size + c] && b[size..][..c] == b[size..size + c] && b[size..][c..] == b[size + c..]
  {
    SameWithin(m0, m, at, at, ip0 + c);
    JoinSlices(m0, at, ip0, ip0 + c);
    Sub(m0, ip0, end, c);
    SubTail(b, size, c);
    JoinSlices(b, 0, size, size + c);
    assert s + b[..size] + b[size..size + c] == s + (b[..size] + b[size..size + c]);
  }

  lemma {:induction false} JoinSlices(m: seq<Byte>, x: nat, y: nat, z: nat)
    requires x <= y <= z <= |m|
    ensures m[x..z] == m[x..y] + m[y..z]
  {
  }

  lemma {:induction false} SameBehind(m0: seq<Byte>, m: seq<Byte>, op: nat, at: nat)
    requires |m| == |m0| && op <= at <= |m| && m[op..] == m0[op..]
    ensures m[at..] == m0[at..]
  {
    assert m[at..] == m[op..][at - op..] && m0[at..] == m0[op..][at - op..];
  }

  lemma {:induction false} SameWithin(m0: seq<Byte>, m: seq<Byte>, at: nat, a: nat, b: nat)
    requires |m| == |m0| && at <= a <= b <= |m| && m[at..] == m0[at..]
    ensures m[a..b] == m0[a..b]
  {
    forall i | a <= i < b ensures m[i] == m0[i] {
      assert m[at..][i - at] == m[i] && m0[at..][i - at] == m0[i];
    }
  }

  lemma {:induction false} SubSub(m: seq<Byte>, a: nat, i: nat, j: nat)
    requires i <= j && a + j <= |m|
    ensures m[a..][i..j] == m[a + i..a + j] && m[a..][j..] == m[a + j..]
  {
  }

  lemma {:induction false} SubTail(m: seq<Byte>, a: nat, c: nat)
    requires a + c <= |m|
    ensures m[a..][..c] == m[a..a + c] && m[a..][c..] == m[a + c..]
  {
  }

  lemma {:induction false} Sub(m: seq<Byte>, a: nat, b: nat, c: nat)
    requires a + c <= b <= |m|
    ensures m[a..b][..c] == m[a..a + c] && m[a..b][c..] == m[a + c..b]
  {
  }
}
