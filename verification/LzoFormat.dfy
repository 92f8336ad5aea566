// The LZO1X stream: what lzo1x_decompress_safe makes of it (lzo1x_d.c), and how runs and matches are coded.
module LzoFormat {
  import opened Lz77

  // What a byte below 16 means: at the very start and after a match without literals it starts a long run,
  // after a long run it is a match of 3 bytes, after one to three literals a match of 2 bytes.
  datatype Mode = Start | Fresh | AfterLits | AfterRun

  datatype Status = OK | InputOverrun | OutputOverrun | LookbehindOverrun | EofNotFound | InputNotConsumed

  // The coded part of the next instruction, size bytes of the stream.
  datatype Head =
    | RunHead(size: nat, count: nat)
    | MatchHead(size: nat, off: nat, len: nat, lits: nat)   // lits literals follow the match
    | EndHead(size: nat)
    | Stop(status: Status)

  const M1_MAX_OFFSET := 0x0400
  const M2_MAX_OFFSET := 0x0800
  const M3_MAX_OFFSET := 0x4000
  const M4_MAX_OFFSET := 0xbfff
  const MX_MAX_OFFSET := M1_MAX_OFFSET + M2_MAX_OFFSET
  const M2_MIN_LEN := 3
  const M2_MAX_LEN := 8
  const M3_MAX_LEN := 33
  const M4_MAX_LEN := 9

  // Zero bytes stand for 255 each; the first other byte ends the number.
  function ReadExt(b: seq<Byte>): (r: Option<(nat, nat)>)
    ensures r.Some? ==> 1 <= r.value.1 <= |b| && r.value.0 >= 1
    decreases |b|
  {
    if b == [] then None
    else if b[0] != 0 then Some((b[0], 1))
    else
      match ReadExt(b[1..])
      case None => None
      case Some((n, used)) => Some((n + 255, used + 1))
  }

  // The two offset bytes after size bytes.
  function FarHead(b: seq<Byte>, size: nat, len: nat, base: nat): Head
  {
    if |b| < size + 2 then Stop(InputOverrun)
    else
      var x: nat, y: nat := b[size], b[size + 1];
      MatchHead(size + 2, base + x / 4 + 64 * y, len, x % 4)
  }

  function M4Head(b: seq<Byte>, size: nat, len: nat, base: nat): Head
  {
    match FarHead(b, size, len, base)
    case MatchHead(s, off, l, k) => if off == 0 then EndHead(s) else MatchHead(s, off + 0x4000, l, k)
    case h => h
  }

  // A match whose first byte is at least 16.
  function ReadMatch(b: seq<Byte>): (h: Head)
    requires b != [] && b[0] >= 16
    ensures !h.RunHead?
    ensures h.MatchHead? ==> 2 <= h.size <= |b| && h.len >= 2 && h.lits == b[h.size - 2] % 4
    ensures h.EndHead? ==> h.size <= |b|
  {
    var t: nat := b[0];
    if t >= 64 then
      if |b| < 2 then Stop(InputOverrun)
      else
        var y: nat := b[1];
        MatchHead(2, 1 + t / 4 % 8 + 8 * y, t / 32 + 1, t % 4)
    else if t >= 32 then
      if t % 32 != 0 then FarHead(b, 1, t % 32 + 2, 1)
      else
        match ReadExt(b[1..])
        case None => Stop(InputOverrun)
        case Some((n, used)) => FarHead(b, 1 + used, n + 33, 1)
    else
      var base := if t / 8 % 2 == 1 then 0x4000 else 0;
      if t % 8 != 0 then M4Head(b, 1, t % 8 + 2, base)
      else
        match ReadExt(b[1..])
        case None => Stop(InputOverrun)
        case Some((n, used)) => M4Head(b, 1 + used, n + 9, base)
  }

  // A run of at least four literals.
  function ReadRun(b: seq<Byte>): Head
    requires b != [] && b[0] < 16
  {
    if b[0] != 0 then RunHead(1, b[0] + 3)
    else
      match ReadExt(b[1..])
      case None => Stop(InputOverrun)
      case Some((n, used)) => RunHead(1 + used, n + 18)
  }

  // A match whose first byte is below 16.
  function NearHead(b: seq<Byte>, base: nat, len: nat): Head
    requires b != []
  {
    if |b| < 2 then Stop(InputOverrun)
    else
      var x: nat, y: nat := b[0], b[1];
      MatchHead(2, 1 + base + x / 4 + 4 * y, len, x % 4)
  }

  function ReadHead(b: seq<Byte>, mode: Mode): (h: Head)
    ensures h.RunHead? ==> h.size >= 1 && h.count >= 1 && (mode != Start ==> h.count >= 4)
    ensures h.MatchHead? ==> 2 <= h.size <= |b| && h.len >= 2 && h.lits < 4 && h.lits == b[h.size - 2] % 4
    ensures h.EndHead? ==> h.size <= |b|
  {
    if b == [] then Stop(EofNotFound)
    else if mode.Start? && b[0] > 17 then RunHead(1, b[0] - 17)
    else if mode.AfterLits? && |b| == 1 then Stop(EofNotFound)
    else if b[0] >= 16 then ReadMatch(b)
    else if mode.AfterRun? then NearHead(b, M2_MAX_OFFSET, 3)
    else if mode.AfterLits? then NearHead(b, 0, 2)
    else ReadRun(b)
  }

  datatype Outcome = Outcome(status: Status, out: seq<Byte>)

  function ModeAfter(lits: nat): Mode
  {
    if lits == 0 then Fresh else if lits < 4 then AfterLits else AfterRun
  }

  // c literals after size bytes, if there is room for them and the stream goes on after them.
  function LitsCheck(b: seq<Byte>, size: nat, c: nat, n: nat, cap: nat): Status
  {
    if n + c > cap then OutputOverrun else if |b| < size + c + 1 then InputOverrun else OK
  }

  function CopyCheck(off: nat, len: nat, n: nat, cap: nat): Status
  {
    if off == 0 || off > n then LookbehindOverrun else if n + len > cap then OutputOverrun else OK
  }

  // One instruction: it stops the decoder, or takes used bytes and leaves out written.
  datatype Step = Halt(outcome: Outcome) | Go(used: nat, out: seq<Byte>, mode: Mode)

  function TakeRun(b: seq<Byte>, size: nat, c: nat, out: seq<Byte>, cap: nat): (s: Step)
    ensures s.Go? ==> s.used == size + c < |b| && |s.out| == |out| + c <= cap
  {
    var st := LitsCheck(b, size, c, |out|, cap);
    if st != OK then Halt(Outcome(st, out)) else Go(size + c, out + b[size..size + c], ModeAfter(c))
  }

  function TakeMatch(b: seq<Byte>, size: nat, off: nat, len: nat, k: nat, out: seq<Byte>, cap: nat): (s: Step)
    requires size <= |b|
    ensures s.Go? ==> size <= s.used <= |b| && |s.out| == |out| + len + (s.used - size) <= cap
  {
    var st := CopyCheck(off, len, |out|, cap);
    if st != OK then Halt(Outcome(st, out))
    else if k == 0 then Go(size, CopyBack(out, off, len), Fresh)
    else TakeRun(b, size, k, CopyBack(out, off, len), cap)
  }

  function Advance(b: seq<Byte>, mode: Mode, out: seq<Byte>, cap: nat): (s: Step)
    ensures s.Go? ==> 1 <= s.used <= |b| && |out| < |s.out| <= cap
  {
    match ReadHead(b, mode)
    case Stop(status) => Halt(Outcome(status, out))
    case EndHead(size) => Halt(Outcome(if |b| == size then OK else InputNotConsumed, out))
    case RunHead(size, c) => TakeRun(b, size, c, out, cap)
    case MatchHead(size, off, len, k) => TakeMatch(b, size, off, len, k, out, cap)
  }

  // The decoder: out has been written, and there is room for cap bytes in all.
  function Decode(b: seq<Byte>, mode: Mode, out: seq<Byte>, cap: nat): Outcome
    decreases |b|
  {
    match Advance(b, mode, out, cap)
    case Halt(outcome) => outcome
    case Go(used, o, m) => Decode(b[used..], m, o, cap)
  }

  // The match at hand, if legal, ends two bytes before the read pointer.
  ghost predicate Clear(b: seq<Byte>, mode: Mode, n: nat, cap: nat, gap: int)
  {
    var h := ReadHead(b, mode);
    h.MatchHead? && CopyCheck(h.off, h.len, n, cap) == OK ==> h.len + 2 <= gap + h.size
  }

  // Decoding into the memory that holds the stream, with gap bytes from the write to the read pointer: no byte is
  // overwritten before it has been read, the second byte before the read pointer included.
  ghost predicate Room(b: seq<Byte>, mode: Mode, out: seq<Byte>, cap: nat, gap: int)
    decreases |b|
  {
    && gap >= 0 && Clear(b, mode, |out|, cap, gap)
    && match Advance(b, mode, out, cap)
       case Halt(_) => true
       case Go(used, o, m) => Room(b[used..], m, o, cap, gap + used - (|o| - |out|))
  }

  // A stream behind the output buffer is never overwritten.
  lemma {:induction false} RoomBehind(b: seq<Byte>, mode: Mode, out: seq<Byte>, cap: nat, gap: int)
    requires |out| + gap >= cap >= |out|
    ensures Room(b, mode, out, cap, gap)
    decreases |b|
  {
    hide ReadHead, Advance;
    match Advance(b, mode, out, cap)
    case Halt(_) =>
    case Go(used, o, m) => RoomBehind(b[used..], m, o, cap, gap + used - (|o| - |out|));
  }

  // A stream that decodes in place also does so further behind.
  lemma {:induction false} RoomGrows(b: seq<Byte>, mode: Mode, out: seq<Byte>, cap: nat, gap: int, gap': int)
    requires Room(b, mode, out, cap, gap) && gap <= gap'
    ensures Room(b, mode, out, cap, gap')
    decreases |b|
  {
    hide ReadHead, Advance;
    match Advance(b, mode, out, cap)
    case Halt(_) =>
    case Go(used, o, m) => RoomGrows(b[used..], m, o, cap, gap + used - (|o| - |out|), gap' + used - (|o| - |out|));
  }
}
