// do_compress and DO_COMPRESS of lzo1x_c.c, for any contents of the dictionary.
module LzoCompress {
  import opened Lz77
  import opened LzoFormat
  import opened LzoCode
  import opened LzoReach
  import opened LzoWriter

  // MAX_COMPRESSED_SIZE
  function MaxCompressedSize(n: nat): nat
  {
    n + n / 16 + 64 + 3
  }

  const UINT := 0x1_0000_0000

  // ip repeats what stands off bytes before it, len bytes long.
  ghost predicate Repeats(input: seq<Byte>, ip: nat, off: nat, len: nat)
  {
    1 <= off <= ip && ip + len <= |input| && forall i | ip <= i < ip + len :: input[i] == input[i - off]
  }

  lemma {:induction false} RepeatCopies(input: seq<Byte>, ip: nat, off: nat, len: nat)
    requires Repeats(input, ip, off, len)
    ensures CopyBack(input[..ip], off, len) == input[..ip + len]
  {
    CopyBackRepeats(input, ip, off, len);
  }

  // LZO_CHECK_MPOS_NON_DET: a dictionary entry, as a pointer relative to the input, is any number at all.
  method CheckEntry(entry: int, ip: nat) returns (bad: bool, mOff: nat)
    ensures !bad ==> 1 <= mOff <= M4_MAX_OFFSET && mOff <= ip
    ensures !bad <==> (var d := (ip - entry) % 0x1_0000_0000; 0 < d <= 49151 && d <= ip)
  {
    mOff := (ip - entry) % UINT;
    bad := ip - mOff < 0 || mOff <= 0 || mOff > M4_MAX_OFFSET;
  }

  // A match at ip, found through one or two dictionary slots, with its bytes compared; mOff is 0 if there is none.
  // The slots are any two: only the compression ratio depends on the hash.
  method FindMatch(input: seq<Byte>, ip: nat, dict: array<int>) returns (dindex: nat, mOff: nat)
    requires ip + 4 <= |input| && dict.Length > 0
    ensures dindex < dict.Length
    ensures mOff > 0 ==> mOff <= M4_MAX_OFFSET && Repeats(input, ip, mOff, if mOff <= M2_MAX_OFFSET then 3 else 4)
  {
    dindex :| 0 <= dindex < dict.Length;
    var bad;
    bad, mOff := CheckEntry(dict[dindex], ip);
    if bad {
      return dindex, 0;
    }
    if !(mOff <= M2_MAX_OFFSET || input[ip - mOff + 3] == input[ip + 3]) {
      dindex :| 0 <= dindex < dict.Length;
      bad, mOff := CheckEntry(dict[dindex], ip);
      if bad || !(mOff <= M2_MAX_OFFSET || input[ip - mOff + 3] == input[ip + 3]) {
        return dindex, 0;
      }
    }
    var m := ip - mOff;
    if input[m] != input[ip] || input[m + 1] != input[ip + 1] || input[m + 2] != input[ip + 2] {
      mOff := 0;
    }
  }

  // The length of the match: up to nine bytes one by one, then to the end of the input.
  method MatchLength(input: seq<Byte>, ip: nat, mOff: nat) returns (len: nat)
    requires ip + 9 <= |input| && Repeats(input, ip, mOff, if mOff <= M2_MAX_OFFSET then 3 else 4)
    ensures Repeats(input, ip, mOff, len) && len >= (if mOff <= M2_MAX_OFFSET then 3 else 4)
    ensures ip + len == |input| || input[ip + len] != input[ip + len - mOff]
  {
    len := 3;
    while len < 9 && input[ip - mOff + len] == input[ip + len]
      invariant 3 <= len <= 9 && Repeats(input, ip, mOff, len)
      invariant len == 3 && mOff > M2_MAX_OFFSET ==> input[ip + 3] == input[ip + 3 - mOff]
    {
      len := len + 1;
    }
    if len == 9 {
      while ip + len < |input| && input[ip - mOff + len] == input[ip + len]
        invariant 9 <= len && Repeats(input, ip, mOff, len)
      {
        len := len + 1;
      }
    }
  }

  // The bytes of the match.
  method EmitMatch(op0: seq<Byte>, mLen: nat, mOff: nat, ghost lit: nat) returns (op: seq<Byte>)
    requires Codable(mLen, mOff, lit) && mLen >= (if mOff <= M2_MAX_OFFSET then 3 else 4)
    ensures op == op0 + MatchCode(mLen, mOff, lit)
  {
    hide M3Len, M4Len, Far;
    if mLen <= M2_MAX_LEN {
      if mOff <= M2_MAX_OFFSET {
        var o := mOff - 1;
        op := op0 + [(mLen - 1) * 32 + o % 8 * 4, o / 8];
      } else if mOff <= M3_MAX_OFFSET {
        op := CodeM3(op0, mLen, mOff);
      } else {
        op := CodeM4(op0, mLen, mOff);
      }
    } else if mOff <= M3_MAX_OFFSET {
      op := CodeM3(op0, mLen, mOff);
    } else {
      op := CodeM4(op0, mLen, mOff);
    }
  }

  // ---- size ----

  lemma {:induction false} MatchSize(len: nat, off: nat, lit: nat)
    requires Codable(len, off, lit) && len >= if off <= M2_MAX_OFFSET then 3 else 4
    ensures |MatchCode(len, off, lit)| < len
  {
    hide MatchCode;
    MatchCodeSize(len, off, lit);
  }

  lemma {:induction false} RunSize(t: nat)
    requires t >= 4
    ensures |RunCode(t)| == if t <= 18 then 1 else 1 + (t + 236) / 255
  {
    if t > 18 { ExtSize(t - 18); }
  }

  // The stream so far and the room it needs.
  ghost predicate Small(s: seq<Byte>, low: int, n: nat)
  {
    16 * (|s| - low) <= 17 * n + 32 && low <= 0
  }

  // A run and a match grow the stream by at most a sixteenth more than the input.
  lemma {:induction false} StillSmall(s: seq<Byte>, low: int, n: nat, t: nat, s': seq<Byte>, len: nat, low': int)
    requires Small(s, low, n) && (s == [] ==> low == 0)
    requires |s'| <= |s| + t + len + if t >= 4 then |RunCode(t)| - 1 else if s == [] then 1 else 0
    requires low' == if low <= |s'| - (n + t + len) - 2 then low else |s'| - (n + t + len) - 2
    ensures Small(s', low', n + t + len)
  {
    hide RunCode;
    if t >= 4 { RunSize(t); }
  }

  // Store the run input[ii..ip] and the match after it.
  method StoreMatch(op0: seq<Byte>, input: seq<Byte>, ii: nat, ip: nat, mLen: nat, mOff: nat, ghost low: int)
    returns (op: seq<Byte>, ghost low': int)
    requires ii <= ip && Repeats(input, ip, mOff, mLen) && mOff <= M4_MAX_OFFSET && mLen >= if mOff <= M2_MAX_OFFSET then 3 else 4
    requires Written(op0, input[..ii], |input|, low) && Small(op0, low, ii) && (op0 == [] ==> ip >= 4)
    ensures op != [] && Written(op, input[..ip + mLen], |input|, low') && Small(op, low', ip + mLen)
  {
    hide Reaches, Ready, RunCode, Patched, MatchCode, Small, Repeats;
    op := op0;
    ghost var lit, n := ip - ii, |input|;
    assert 1 <= mOff <= ip && ip + mLen <= n by { RepeatBounds(input, ip, mOff, mLen); }
    if ip > ii {
      var lits := input[ii..ip];
      RunStored(op0, lits, input[..ii], n, low);
      op := StoreHead(op0, ip - ii);
      op := op + lits;
      assert input[..ii] + lits == input[..ip];
    } else {
      assert op0 != [] by { EmptyStart(op0, input[..ii], n, low); }
      ReadyNow(op0, input[..ii], n, low);
    }
    ghost var m := MatchCode(mLen, mOff, lit);
    MatchSize(mLen, mOff, lit);
    low' := if low <= |op| + |m| - (ip + mLen) - 2 then low else |op| + |m| - (ip + mLen) - 2;
    MatchReady(op, lit, input[..ip], n, low, mLen, mOff, low');
    RepeatCopies(input, ip, mOff, mLen);
    op := EmitMatch(op, mLen, mOff, lit);
    StillSmall(op0, low, ii, lit, op, mLen, low');
  }

  lemma {:induction false} RepeatBounds(input: seq<Byte>, ip: nat, off: nat, len: nat)
    requires Repeats(input, ip, off, len)
    ensures 1 <= off <= ip && ip + len <= |input|
  {
  }

  lemma {:induction false} EmptyStart(op: seq<Byte>, out: seq<Byte>, cap: nat, low: int)
    requires Written(op, out, cap, low) && out != []
    ensures op != []
  {
  }

  // do_compress: the stream up to the last match, and the number of input bytes it leaves over.
  method DoCompress(input: seq<Byte>, dict: array<int>) returns (op: seq<Byte>, t: nat, ghost low: int)
    requires |input| > M2_MAX_LEN + 5 && dict.Length > 0
    modifies dict
    ensures t <= |input| && Written(op, input[..|input| - t], |input|, low) && Small(op, low, |input| - t)
  {
    hide Written, Small, Repeats;
    var ipEnd := |input| - M2_MAX_LEN - 5;
    var ip, ii := 4, 0;
    op, low := [], 0;
    NothingWritten(input);
    while true
      invariant ii <= ip && ip + 9 <= |input| && (op == [] ==> ip >= 4)
      invariant Written(op, input[..ii], |input|, low) && Small(op, low, ii)
      decreases |input| - ip
    {
      var dindex, mOff := FindMatch(input, ip, dict);
      dict[dindex] := ip;
      if mOff == 0 {
        ip := ip + 1;
      } else {
        var mLen := MatchLength(input, ip, mOff);
        RepeatBounds(input, ip, mOff, mLen);
        op, low := StoreMatch(op, input, ii, ip, mLen, mOff, low);
        ip := ip + mLen;
        ii := ip;
      }
      if ip >= ipEnd {
        break;
      }
    }
    t := |input| - ii;
  }

  lemma {:induction false} NothingWritten(input: seq<Byte>)
    ensures Written([], input[..0], |input|, 0) && Small([], 0, 0)
  {
  }

  // The whole stream fits, and can be decoded in place from the end of a buffer of MAX_COMPRESSED_SIZE bytes.
  lemma {:induction false} FinalSize(s: seq<Byte>, low: int, n: nat, t: nat, s': seq<Byte>, at: int)
    requires Small(s, low, n)
    requires |s'| <= |s| + t + 3 + if t <= 3 then 1 else 1 + |RunCode(t)|
    ensures |s'| <= MaxCompressedSize(n + t)
    ensures at + |s'| >= MaxCompressedSize(n + t) ==> at + low >= 0
  {
    hide RunCode;
    if t >= 4 { RunSize(t); }
  }

  // DO_COMPRESS: for every input and any contents of the dictionary, the stream decodes to the input in a buffer of
  // exactly its size, is no longer than MAX_COMPRESSED_SIZE, and decodes in place.
  method Compress(input: seq<Byte>, dict: array<int>) returns (op: seq<Byte>)
    requires dict.Length > 0
    modifies dict
    ensures Decode(op, Start, [], |input|) == Outcome(OK, input)
    ensures 3 <= |op| <= MaxCompressedSize(|input|)
    ensures forall at: int :: at + |op| >= MaxCompressedSize(|input|) ==> Room(op, Start, [], |input|, at)
  {
    hide Decode, Room, Reaches, Ready, RunCode, Small;
    op := [];
    ghost var low: int := 0;
    var n := |input|;
    var t := n;
    NothingWritten(input);
    if n > M2_MAX_LEN + 5 {
      op, t, low := DoCompress(input, dict);
    }
    op := StoreLast(op, input, t, low);
  }

  // The last t bytes and the end marker.
  method StoreLast(op0: seq<Byte>, input: seq<Byte>, t: nat, ghost low: int) returns (op: seq<Byte>)
    requires t <= |input| && Written(op0, input[..|input| - t], |input|, low) && Small(op0, low, |input| - t)
    ensures Decode(op, Start, [], |input|) == Outcome(OK, input)
    ensures 3 <= |op| <= MaxCompressedSize(|input|)
    ensures forall at: int :: at + |op| >= MaxCompressedSize(|input|) ==> Room(op, Start, [], |input|, at)
  {
    hide Decode, Room, Reaches, Ready, RunCode, Small;
    op := op0;
    var n := |input|;
    ghost var mode := if op == [] then Start else Fresh;
    if t > 0 {
      assert input[..n - t] + input[n - t..] == input;
      op := StoreRun(op, input[n - t..], input[..n - t], n, low);
      mode := ModeAfter(t);
    } else {
      assert input[..n - t] == input;
      NoRunLeft(op, input, low);
    }
    ghost var s := op;
    op := op + [17, 0, 0];
    forall at: int ensures at + |op| >= MaxCompressedSize(n) ==> Room(op, Start, [], n, at) {
      FinalSize(op0, low, n - t, t, op, at);
      Finish(s, mode, input, n, low, at);
    }
    FinalSize(op0, low, n - t, t, op, 0);
    Finish(s, mode, input, n, low, 0);
  }

  lemma {:induction false} NoRunLeft(op: seq<Byte>, out: seq<Byte>, low: int)
    requires Written(op, out, |out|, low)
    ensures Reaches(op, if op == [] then Start else Fresh, out, |out|, low)
  {
    hide Reaches, Ready;
    if op == [] { ReachesNothing(|out|); } else { ReadyNow(op, out, |out|, low); }
  }
}
