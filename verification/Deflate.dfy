// The LZ77 half of gzip.c: sliding window, hash chains, lazy matching.
module Deflate {
  import opened Lz77
  import opened HashChains

  const WINDOW_SIZE := 2 * WSIZE
  // longest_match may look MAX_MATCH bytes past any string start, so the model's window is padded.
  const PADDED_SIZE := WINDOW_SIZE + MAX_MATCH
  const MAX_CHAIN_LENGTH := 4096
  const MAX_LAZY_MATCH := 258
  const GOOD_MATCH := 32
  const NICE_MATCH := 258
  const TOO_FAR := 4096
  const UINT := 0x1_0000_0000

  // The strings at m and s agree on len bytes, and m lies 1..MAX_DIST before s.
  ghost predicate MatchAt(w: seq<Byte>, s: nat, m: nat, len: nat)
  {
    && m < s <= m + MAX_DIST
    && s + len <= |w|
    && forall i | s <= i < s + len :: w[i] == w[i - (s - m)]
  }

  // limit and the initial chain_length of longest_match
  function Limit(strstart: nat): nat
  {
    if strstart > MAX_DIST then strstart - MAX_DIST else 0
  }

  function ChainLength(prevLength: nat): (n: nat)
    ensures n > 0
  {
    if prevLength >= GOOD_MATCH then MAX_CHAIN_LENGTH / 4 else MAX_CHAIN_LENGTH
  }

  // The candidates that longest_match looks at: cur, and up to n - 1 more, until one is not above limit.
  ghost function Chain(links: seq<nat>, cur: nat, limit: nat, n: nat): seq<nat>
    requires |links| == WSIZE
    decreases n
  {
    var next := links[Slot(cur)];
    [cur] + if next <= limit || n <= 1 then [] else Chain(links, next, limit, n - 1)
  }

  // No candidate agrees with the string at s in more than len bytes.
  ghost predicate NoneLonger(w: seq<Byte>, s: nat, candidates: seq<nat>, len: nat)
  {
    forall m | m in candidates :: !MatchAt(w, s, m, len + 1)
  }

  lemma {:induction false} NoneYet(w: seq<Byte>, s: nat, all: seq<nat>, len: nat)
    ensures NoneLonger(w, s, [], len) && [] + all == all
  {
  }

  lemma {:induction false} MatchShorter(w: seq<Byte>, s: nat, m: nat, len: nat, len': nat)
    requires MatchAt(w, s, m, len') && len <= len'
    ensures MatchAt(w, s, m, len)
  {
  }

  lemma {:induction false} Considered(w: seq<Byte>, s: nat, seen: seq<nat>, cur: nat, best: nat, best': nat)
    requires NoneLonger(w, s, seen, best) && best <= best' && !MatchAt(w, s, cur, best' + 1)
    ensures NoneLonger(w, s, seen + [cur], best')
  {
    hide MatchAt;
    forall m | m in seen + [cur] ensures !MatchAt(w, s, m, best' + 1) {
      if m in seen && MatchAt(w, s, m, best' + 1) { MatchShorter(w, s, m, best + 1, best' + 1); }
    }
  }

  lemma {:induction false} ChainStep(links: seq<nat>, cur: nat, limit: nat, n: nat, seen: seq<nat>)
    requires |links| == WSIZE && n > 0
    ensures var next := links[Slot(cur)];
            seen + Chain(links, cur, limit, n)
            == if next <= limit || n == 1 then seen + [cur] else (seen + [cur]) + Chain(links, next, limit, n - 1)
  {
  }

  // src repeats itself: the len bytes at pos equal those d bytes earlier.
  ghost predicate RepeatsAt(src: seq<Byte>, pos: nat, d: nat, len: nat)
  {
    && 1 <= d <= MAX_DIST && d <= pos
    && pos + len <= |src|
    && forall i | pos <= i < pos + len :: src[i] == src[i - d]
  }

  lemma {:induction false} SlideSynced(w: seq<Byte>, w': seq<Byte>, src: seq<Byte>, base: nat, valid: nat)
    requires Slid(w, w') && WSIZE <= valid <= WINDOW_SIZE && base + valid <= |src|
    requires w[..valid] == src[base..base + valid]
    ensures w'[..valid - WSIZE] == src[base + WSIZE..base + valid]
  {
    forall i | 0 <= i < valid - WSIZE ensures w'[i] == src[base + WSIZE + i] {
      assert w[..valid][i + WSIZE] == src[base..base + valid][i + WSIZE];
    }
  }

  // A match found in the window is a repetition of the input, wherever the window has slid to.
  lemma {:induction false} MatchRepeats(w: seq<Byte>, src: seq<Byte>, base: nat, valid: nat, s: nat, m: nat,
                                        len: nat, found: nat)
    requires len <= found && MatchAt(w, s, m, found) && s + len <= valid <= |w|
    requires base + valid <= |src| && w[..valid] == src[base..base + valid]
    ensures RepeatsAt(src, base + s, (s - m) % UINT, len)
  {
    forall i | base + s <= i < base + s + len
      ensures src[i] == src[i - (s - m)]
    {
      var j := i - base;
      assert w[j] == w[j - (s - m)];
      assert w[..valid][j] == src[base..base + valid][j];
      assert w[..valid][j - (s - m)] == src[base..base + valid][j - (s - m)];
    }
  }

  lemma {:induction false} MatchReplays(src: seq<Byte>, start: nat, ts: seq<Token>, pos: nat, d: nat, len: nat)
    requires start <= pos && RepeatsAt(src, pos, d, len) && MIN_MATCH <= len <= MAX_MATCH
    requires Replays(src[..start], ts, src[..pos])
    ensures Replays(src[..start], ts + [Match(d, len)], src[..pos + len])
  {
    CopyBackRepeats(src, pos, d, len);
    hide CopyBack;
    ReplaysSnoc(src[..start], ts, src[..pos], Match(d, len), src[..pos + len]);
  }

  lemma {:induction false} LiteralReplays(src: seq<Byte>, start: nat, ts: seq<Token>, pos: nat)
    requires start <= pos < |src|
    requires Replays(src[..start], ts, src[..pos])
    ensures Replays(src[..start], ts + [Literal(src[pos])], src[..pos + 1])
  {
    assert src[..pos + 1] == src[..pos] + [src[pos]];
    ReplaysSnoc(src[..start], ts, src[..pos], Literal(src[pos]), src[..pos + 1]);
  }

  class Deflater {
    const src: seq<Byte>          // all that the input descriptor can deliver
    var got: nat                  // bytes read so far
    var failed: bool              // a read has failed
    var eofile: bool
    const window: array<Byte>
    const prev: array<nat>
    const head: array<nat>
    var strstart: nat
    var lookahead: nat
    var blockStart: int
    var insH: nat
    var prevLength: nat
    var matchStart: nat           // unsigned, wraps modulo 2^32
    var tally: seq<Token>         // l_buf, d_buf and flag_buf
    var blocks: seq<Block>        // the flush_block calls so far
    ghost var base: nat           // how far the window has slid

    ghost predicate Shape()
      reads this
    {
      && window.Length == PADDED_SIZE && prev.Length == WSIZE && head.Length == HASH_SIZE
      && prev != head && window as object != prev && window as object != head
    }

    // The window holds the input from base on.
    ghost predicate Synced()
      reads this, window
      requires Shape()
    {
      && strstart + lookahead <= WINDOW_SIZE
      && got == base + strstart + lookahead <= |src|
      && window[..strstart + lookahead] == src[base..got]
    }

    ghost predicate Chained(ins: nat)
      reads this, window, prev, head
      requires Shape()
    {
      && ins <= WINDOW_SIZE
      && HeadsHonest(head[..], window[..], ins)
      && LinksHonest(prev[..], window[..], ins)
      && HashReady(insH, window[..], ins)
    }

    // Reads stop only at the end of the input or at an error.
    ghost predicate Reading()
      reads this
    {
      eofile ==> (got == |src| || failed) && strstart + lookahead <= WINDOW_SIZE - 2
    }

    // The flushed blocks and the tally so far stand for src[..upto].
    ghost predicate Tallied(upto: nat)
      reads this
    {
      && 0 <= base + blockStart <= upto <= |src|
      && Covers(blocks, src, base + blockStart)
      && (forall i | 0 <= i < |blocks| :: !blocks[i].eof)
      && Replays(src[..base + blockStart], tally, src[..upto])
    }

    // INSERT_STRING
    method InsertString(s: nat) returns (hashHead: nat)
      requires Shape() && s < WINDOW_SIZE && Chained(s)
      modifies prev, head, this`insH
      ensures Chained(s + 1)
      ensures LinkHonest(hashHead, window[..], s)
    {
      ghost var w: seq<Byte>, head0: seq<nat>, prev0: seq<nat> := window[..], head[..], prev[..];
      HashReadyNext(insH, w, s);
      InsertHonest(head0, prev0, w, s);
      insH := UpdateHash(insH, window[s + MIN_MATCH - 1]);
      hashHead := head[insH];
      prev[Slot(s)] := hashHead;
      head[insH] := s;
      assert window[..] == w;
      assert prev[..] == prev0[Slot(s) := head0[HashAt(w, s)]];
      assert head[..] == head0[HashAt(w, s) := s];
    }

    // The unrolled comparison of longest_match: it starts at the fourth byte and tests for the end of
    // the longest possible match only at every eighth byte.
    method CompareStrings(s: nat, m: nat) returns (len: nat)
      requires Shape() && m < s < WINDOW_SIZE
      requires forall i | s <= i < s + 3 :: window[i] == window[i - (s - m)]
      ensures 3 <= len <= MAX_MATCH
      ensures forall i | s <= i < s + len :: window[i] == window[i - (s - m)]
      ensures len < MAX_MATCH ==> window[s + len] != window[m + len]
    {
      len := 3;
      while window[s + len] == window[m + len] && !((len - 2) % 8 == 0 && len >= MAX_MATCH)
        invariant 3 <= len <= MAX_MATCH
        invariant forall i | s <= i < s + len :: window[i] == window[i - (s - m)]
        decreases MAX_MATCH - len
      {
        len := len + 1;
      }
    }

    // One candidate of the chain: 0 if the quick test rejects it.
    method TryCandidate(m: nat, bestLen: nat) returns (len: nat)
      requires Shape() && m < strstart < WINDOW_SIZE && strstart <= m + MAX_DIST
      requires HashAt(window[..], m) == HashAt(window[..], strstart)
      requires 1 <= bestLen < NICE_MATCH
      ensures len <= MAX_MATCH
      ensures len > 0 ==> MatchAt(window[..], strstart, m, len)
      ensures len < MAX_MATCH ==> !MatchAt(window[..], strstart, m, if len > bestLen then len + 1 else bestLen + 1)
    {
      hide HashAt;
      ghost var w: seq<Byte> := window[..];
      if window[m + bestLen] == window[strstart + bestLen]
         && window[m + bestLen - 1] == window[strstart + bestLen - 1]
         && window[m] == window[strstart]
         && window[m + 1] == window[strstart + 1]
      {
        ThirdByteAt(w, m, strstart);
        len := CompareStrings(strstart, m);
      } else {
        len := 0;
      }
    }

    method LongestMatch(hashHead: nat) returns (bestLen: nat)
      requires Shape() && Chained(strstart + 1)
      requires 0 < hashHead < strstart <= hashHead + MAX_DIST
      requires LinkHonest(hashHead, window[..], strstart)
      requires 1 <= prevLength < MAX_LAZY_MATCH
      modifies this`matchStart
      ensures prevLength <= bestLen <= MAX_MATCH
      ensures bestLen == prevLength ==> matchStart == old(matchStart)
      ensures bestLen > prevLength ==> MatchAt(window[..], strstart, matchStart, bestLen)
      ensures bestLen < NICE_MATCH ==>
                NoneLonger(window[..], strstart, Chain(prev[..], hashHead, Limit(strstart), ChainLength(prevLength)), bestLen)
    {
      hide MatchAt, HashAt, HashReady, HeadsHonest, Chain, NoneLonger;
      var curMatch := hashHead;
      var chainLength := ChainLength(prevLength);
      bestLen := prevLength;
      var limit := Limit(strstart);
      ghost var w: seq<Byte>, links: seq<nat> := window[..], prev[..];
      ghost var all, seen: seq<nat> := Chain(links, hashHead, limit, chainLength), [];
      NoneYet(w, strstart, all, bestLen);
      while true
        invariant 0 < curMatch < strstart <= curMatch + MAX_DIST
        invariant all == seen + Chain(links, curMatch, limit, chainLength) && NoneLonger(w, strstart, seen, bestLen)
        invariant HashAt(w, curMatch) == HashAt(w, strstart)
        invariant chainLength > 0
        invariant prevLength <= bestLen < NICE_MATCH
        invariant bestLen == prevLength ==> matchStart == old(matchStart)
        invariant bestLen > prevLength ==> MatchAt(w, strstart, matchStart, bestLen)
        decreases curMatch
      {
        var len := TryCandidate(curMatch, bestLen);
        ghost var best := bestLen;
        if len > bestLen {
          matchStart := curMatch;
          bestLen := len;
          if len >= NICE_MATCH {
            return;
          }
        }
        Considered(w, strstart, seen, curMatch, best, bestLen);
        ChainStep(links, curMatch, limit, chainLength, seen);
        seen := seen + [curMatch];
        assert LinkHonest(links[Slot(curMatch)], w, curMatch);
        curMatch := prev[Slot(curMatch)];
        if curMatch <= limit {
          return;
        }
        chainLength := chainLength - 1;
        if chainLength == 0 {
          return;
        }
      }
    }

    // The sliding half of fill_window.
    method Slide()
      requires Shape() && Synced() && Chained(strstart)
      requires WSIZE + MAX_DIST <= strstart && 2 <= lookahead
      modifies window, prev, head, this`strstart, this`matchStart, this`blockStart, this`base
      ensures Synced() && Chained(strstart)
      ensures strstart == old(strstart) - WSIZE && base == old(base) + WSIZE
      ensures blockStart == old(blockStart) - WSIZE
      ensures matchStart == (old(matchStart) - WSIZE) % UINT
    {
      hide HeadsHonest, LinksHonest, HashReady, HashAt, LinkHonest, Lowered, Slid;
      ghost var w: seq<Byte>, head0: seq<nat>, prev0: seq<nat> := window[..], head[..], prev[..];
      MoveDown(window);
      ghost var w' := window[..];
      SlideSynced(w, w', src, base, strstart + lookahead);
      matchStart := (matchStart - WSIZE) % UINT;
      strstart := strstart - WSIZE;
      blockStart := blockStart - WSIZE;
      base := base + WSIZE;
      LowerAll(head);
      LowerAll(prev);
      assert window[..] == w';
      SlideHonest(head0, head[..], prev0, prev[..], insH, w, w', strstart + WSIZE);
    }

    // read() copies n bytes of the input into the window.
    method CopyIn(at: nat, from: nat, n: nat)
      requires at + n <= window.Length && from + n <= |src|
      modifies window
      ensures window[..at] == old(window[..at]) && window[at..at + n] == src[from..from + n]
    {
      forall k | 0 <= k < n {
        window[at + k] := src[from + k];
      }
      assert forall i | at <= i < at + n :: window[i] == src[from + (i - at)];
      assert forall i | 0 <= i < at :: window[i] == old(window[i]);
    }

    // file_read: any positive number of bytes up to size; 0 at the end of the input, -1 on error.
    method FileRead(size: nat) returns (n: int)
      requires Shape() && Synced() && 0 < size <= WINDOW_SIZE - strstart - lookahead
      modifies window, this`got, this`failed
      ensures -1 <= n <= size
      ensures got == old(got) + if n > 0 then n else 0
      ensures got <= |src|
      ensures window[..strstart + lookahead + if n > 0 then n else 0] == src[base..got]
      ensures window[..strstart + lookahead] == old(window[..strstart + lookahead])
      ensures n == 0 ==> got == |src|
      ensures n == -1 ==> failed
    {
      var room := |src| - got;
      var err: bool := *;
      if err {
        failed := true;
        n := -1;
      } else if room == 0 {
        n := 0;
      } else {
        n :| 1 <= n <= size && n <= room;
        var at := strstart + lookahead;
        CopyIn(at, got, n);
        ReadJoins(window[..], old(window[..]), src, base, at, got, n);
        got := got + n;
      }
    }

    method FillWindow()
      requires Shape() && Synced() && !eofile && lookahead < MIN_LOOKAHEAD
      requires strstart > 0 ==> Chained(strstart) && 2 <= lookahead
      modifies window, prev, head, this`strstart, this`lookahead, this`matchStart, this`blockStart, this`base,
               this`got, this`failed, this`eofile
      ensures Synced() && Reading()
      ensures strstart > 0 ==> Chained(strstart)
      ensures strstart == 0 ==> head[..] == old(head[..])
      ensures base + strstart == old(base + strstart) && base + blockStart == old(base + blockStart)
      ensures (strstart == 0) == (old(strstart) == 0) && lookahead >= old(lookahead)
      ensures (strstart - 1 - matchStart) % UINT == old((strstart - 1 - matchStart) % UINT)
      ensures got >= old(got) && (got > old(got) || eofile)
    {
      hide HeadsHonest, LinksHonest, HashReady, HashAt, LinkHonest;
      var more := WINDOW_SIZE - lookahead - strstart;
      if strstart >= WSIZE + MAX_DIST {
        Slide();
        more := more + WSIZE;
      }
      ReadMore(more);
    }

    // The reading half of fill_window.
    method ReadMore(more: nat)
      requires Shape() && Synced() && !eofile
      requires 2 <= more <= WINDOW_SIZE - lookahead - strstart
      requires strstart > 0 ==> Chained(strstart) && 2 <= lookahead
      modifies window, this`lookahead, this`got, this`failed, this`eofile
      ensures Synced() && Reading()
      ensures strstart > 0 ==> Chained(strstart)
      ensures lookahead >= old(lookahead)
      ensures got >= old(got) && (got > old(got) || eofile)
    {
      hide HeadsHonest, LinksHonest, HashReady, HashAt, LinkHonest;
      ghost var w := window[..];
      ghost var valid := strstart + lookahead;
      var n := FileRead(more);
      ghost var w' := window[..];
      if strstart > 0 {
        assert w'[..valid] == w[..valid];
        ReadHonest(head[..], prev[..], insH, w, w', strstart, valid);
      }
      if n == 0 || n == -1 {
        eofile := true;
      } else {
        lookahead := lookahead + n;
      }
    }

    // ct_tally: the block must be flushed when a buffer is full, and may be flushed when a
    // compression estimate, left open here, says so.
    method Tally(dist: nat, lc: nat) returns (flush: bool)
      requires dist == 0 ==> lc < 256
      modifies this`tally
      ensures tally == old(tally) + [if dist == 0 then Literal(lc) else Match(dist, lc + MIN_MATCH)]
      ensures |tally| == LIT_BUFSIZE - 1 ==> flush
    {
      if dist == 0 {
        tally := tally + [Literal(lc)];
      } else {
        tally := tally + [Match(dist, lc + MIN_MATCH)];
      }
      var guess: bool := *;
      flush := (guess && |tally| % 0x1000 == 0) || |tally| == LIT_BUFSIZE - 1;
    }

    // FLUSH_BLOCK
    method FlushBlock(eof: bool)
      requires Shape() && Tallied(base + strstart) && |tally| < LIT_BUFSIZE
      requires strstart <= 65535 && strstart <= got - base && base <= got <= |src|
      requires window[..strstart] == src[base..base + strstart]
      modifies this`tally, this`blocks
      ensures tally == []
      ensures |blocks| == |old(blocks)| + 1 && blocks[..|old(blocks)|] == old(blocks)
      ensures blocks[|old(blocks)|].eof == eof
      ensures Covers(blocks, src, base + strstart)
    {
      var len := strstart - blockStart;
      var stored := None;
      if blockStart >= 0 {
        stored := Some(window[blockStart..strstart]);
        assert window[blockStart..strstart] == window[..strstart][blockStart..];
        assert src[base + blockStart..base + strstart] == src[base..base + strstart][blockStart..];
      }
      var b := Block(tally, len, stored, eof);
      CoversSnoc(blocks, src, base + blockStart, b);
      blocks := blocks + [b];
      tally := [];
    }

    // The match search of one step of deflate.
    method FindMatch(hashHead: nat) returns (matchLength: nat)
      requires Shape() && Synced() && Chained(strstart + 1) && 1 <= lookahead
      requires LinkHonest(hashHead, window[..], strstart)
      requires 1 <= prevLength
      modifies this`matchStart
      ensures 1 <= matchLength <= MAX_MATCH
      ensures matchLength > prevLength && matchLength >= MIN_MATCH ==>
                && matchLength <= lookahead
                && RepeatsAt(src, base + strstart, (strstart - matchStart) % UINT, matchLength)
    {
      hide HeadsHonest, LinksHonest, HashReady, HashAt, MatchAt, RepeatsAt;
      matchLength := MIN_MATCH - 1;
      if hashHead != 0 && prevLength < MAX_LAZY_MATCH && strstart - hashHead <= MAX_DIST {
        matchLength := LongestMatch(hashHead);
        ghost var found := matchLength;
        if matchLength > lookahead {
          matchLength := lookahead;
        }
        if found > prevLength {
          MatchRepeats(window[..], src, base, strstart + lookahead, strstart, matchStart, matchLength, found);
        }
        if matchLength == MIN_MATCH && (strstart - matchStart) % UINT > TOO_FAR {
          matchLength := matchLength - 1;
        }
      }
    }

    // Insert the strings up to the end of an adopted match; strstart ends one past the match.
    method SkipMatch()
      requires Shape() && Synced() && Chained(strstart + 1)
      requires MIN_MATCH <= prevLength <= lookahead + 1
      modifies prev, head, this`insH, this`strstart, this`lookahead, this`prevLength
      ensures Synced() && Chained(strstart)
      ensures strstart == old(strstart + prevLength) - 1 && lookahead == old(lookahead - prevLength) + 1
    {
      hide HeadsHonest, LinksHonest, HashReady, HashAt, LinkHonest;
      lookahead := lookahead - (prevLength - 1);
      prevLength := prevLength - 2;
      while true
        invariant Chained(strstart + 1)
        invariant 0 < prevLength && strstart + prevLength == old(strstart + prevLength) - 2
        invariant lookahead == old(lookahead - prevLength) + 1
        decreases prevLength
      {
        strstart := strstart + 1;
        var hashHead := InsertString(strstart);
        prevLength := prevLength - 1;
        if prevLength == 0 {
          break;
        }
      }
      strstart := strstart + 1;
    }

    // What holds at the head of deflate's loop. The last byte before strstart may still be untallied,
    // and may start a match of length matchLength found one step earlier.
    ghost predicate Ready(matchAvailable: bool, matchLength: nat)
      reads this, window, prev, head
      requires Shape()
    {
      && Synced() && Reading()
      && (lookahead > 0 ==> Chained(strstart))
      && (lookahead >= MIN_LOOKAHEAD || eofile)
      && Pending(matchAvailable, matchLength)
    }

    ghost predicate Pending(matchAvailable: bool, matchLength: nat)
      reads this
    {
      && (matchAvailable ==> strstart > 0)
      && Tallied(base + strstart - if matchAvailable then 1 else 0)
      && |tally| <= LIT_BUFSIZE - 2
      && 1 <= matchLength <= MAX_MATCH
      && (matchLength >= MIN_MATCH ==>
            && matchAvailable && matchLength <= lookahead + 1
            && RepeatsAt(src, base + strstart - 1, (strstart - 1 - matchStart) % UINT, matchLength))
    }

    // while (lookahead < MIN_LOOKAHEAD && !eofile) fill_window();
    method Refill(ghost matchAvailable: bool, ghost matchLength: nat)
      requires Shape() && Synced() && Reading() && Chained(strstart) && strstart > 0
      requires eofile || 2 <= lookahead
      requires Pending(matchAvailable, matchLength)
      modifies window, prev, head, this`strstart, this`lookahead, this`matchStart, this`blockStart, this`base,
               this`got, this`failed, this`eofile
      ensures Ready(matchAvailable, matchLength)
      ensures got >= old(got) && base + strstart == old(base + strstart)
    {
      hide HeadsHonest, LinksHonest, HashReady, HashAt, LinkHonest, RepeatsAt, Covers, Replays;
      while lookahead < MIN_LOOKAHEAD && !eofile
        invariant Synced() && Reading() && Chained(strstart) && strstart > 0
        invariant eofile || 2 <= lookahead
        invariant got >= old(got) && lookahead >= old(lookahead)
        invariant base + strstart == old(base + strstart) && base + blockStart == old(base + blockStart)
        invariant (strstart - 1 - matchStart) % UINT == old((strstart - 1 - matchStart) % UINT)
        decreases |src| - got, !eofile
      {
        FillWindow();
      }
    }

    // The cleared globals of gzip_main, with the buffers allocated.
    constructor (input: seq<Byte>)
      ensures Shape() && fresh(window) && fresh(prev) && fresh(head)
      ensures src == input && got == 0 && !failed && tally == [] && blocks == []
    {
      src, got, failed, eofile := input, 0, false, false;
      window := new Byte[PADDED_SIZE];
      prev := new nat[WSIZE];
      head := new nat[HASH_SIZE];
      strstart, lookahead, blockStart, insH, prevLength, matchStart := 0, 0, 0, 0, 0, 0;
      tally, blocks, base := [], [], 0;
    }

    // The reads of lm_init.
    method FirstReads()
      requires Shape() && strstart == base == lookahead == got == 0 && !eofile
      modifies window, prev, head, this`strstart, this`lookahead, this`matchStart, this`blockStart, this`base,
               this`got, this`failed, this`eofile
      ensures Synced() && Reading() && strstart == base == 0 && blockStart == old(blockStart)
      ensures head[..] == old(head[..])
      ensures lookahead >= MIN_LOOKAHEAD || eofile
    {
      hide HeadsHonest, LinksHonest, HashReady, HashAt, LinkHonest;
      var n := FileRead(WINDOW_SIZE);
      if n == 0 || n == -1 {
        eofile := true;
        return;
      }
      lookahead := n;
      while lookahead < MIN_LOOKAHEAD && !eofile
        invariant Synced() && Reading() && strstart == 0 && lookahead > 0
        invariant base == 0 && blockStart == old(blockStart)
        invariant head[..] == old(head[..])
        decreases |src| - got, !eofile
      {
        FillWindow();
      }
    }

    method ClearHeads()
      requires Shape()
      modifies head
      ensures forall h | 0 <= h < HASH_SIZE :: head[..][h] == 0
    {
      forall h | 0 <= h < HASH_SIZE {
        head[h] := 0;
      }
    }

    // lm_init: an empty hash table, the first reads, and the hash of the first two bytes.
    method LmInit()
      requires Shape() && got == 0 && tally == [] && blocks == []
      modifies window, prev, head, this`strstart, this`lookahead, this`matchStart, this`blockStart, this`base,
               this`got, this`failed, this`eofile, this`insH
      ensures Ready(false, MIN_MATCH - 1)
    {
      hide UpdateHash, HeadsHonest, LinksHonest, HashReady;
      ClearHeads();
      strstart, blockStart, base, lookahead, eofile := 0, 0, 0, 0, false;
      FirstReads();
      if lookahead != 0 {
        insH := UpdateHash(UpdateHash(0, window[0]), window[1]);
        NothingInserted(head[..], prev[..], window[..]);
      }
    }

    // FLUSH_BLOCK(0); block_start = strstart;
    method EndBlock(flush: bool)
      requires Shape() && Synced() && Tallied(base + strstart)
      requires strstart <= 65535
      requires |tally| <= LIT_BUFSIZE - 1 && (|tally| == LIT_BUFSIZE - 1 ==> flush)
      modifies this`tally, this`blocks, this`blockStart
      ensures Tallied(base + strstart) && |tally| <= LIT_BUFSIZE - 2
    {
      hide Covers, Replays;
      if flush {
        assert window[..strstart] == window[..strstart + lookahead][..strstart];
        assert src[base..base + strstart] == src[base..got][..strstart];
        FlushBlock(false);
        blockStart := strstart;
        assert Replays(src[..base + blockStart], tally, src[..base + blockStart]) by {
          ReplayNothing(src[..base + blockStart]);
        }
      }
    }

    // The previous match is adopted.
    method AdoptMatch(prevMatch: nat)
      requires Shape() && Synced() && Chained(strstart + 1)
      requires strstart > 0 && Tallied(base + strstart - 1) && |tally| <= LIT_BUFSIZE - 2
      requires MIN_MATCH <= prevLength <= MAX_MATCH && prevLength <= lookahead + 1
      requires RepeatsAt(src, base + strstart - 1, (strstart - 1 - prevMatch) % UINT, prevLength)
      requires strstart + lookahead <= 65535 || prevLength <= lookahead
      modifies prev, head, this`insH, this`strstart, this`lookahead, this`prevLength,
               this`tally, this`blocks, this`blockStart
      ensures Synced() && Chained(strstart) && strstart > old(strstart)
      ensures lookahead == old(lookahead - prevLength) + 1
      ensures Tallied(base + strstart) && |tally| <= LIT_BUFSIZE - 2
    {
      hide HeadsHonest, LinksHonest, HashReady, HashAt, LinkHonest, RepeatsAt, Covers, Replays;
      MatchReplays(src, base + blockStart, tally, base + strstart - 1, (strstart - 1 - prevMatch) % UINT, prevLength);
      MatchIsReal(src, base + strstart - 1, (strstart - 1 - prevMatch) % UINT, prevLength);
      var flush := Tally((strstart - 1 - prevMatch) % UINT, prevLength - MIN_MATCH);
      assert Tallied(base + strstart - 1 + prevLength);
      SkipMatch();
      EndBlock(flush);
    }

    // The byte before strstart is a literal.
    method TallyLiteral()
      requires Shape() && Synced()
      requires 0 < strstart <= 65535 && Tallied(base + strstart - 1) && |tally| <= LIT_BUFSIZE - 2
      modifies this`tally, this`blocks, this`blockStart
      ensures Tallied(base + strstart) && |tally| <= LIT_BUFSIZE - 2
    {
      hide Covers, Replays;
      var c := window[strstart - 1];
      assert c == src[base + strstart - 1] by {
        assert window[..strstart + lookahead][strstart - 1] == src[base..got][strstart - 1];
      }
      LiteralReplays(src, base + blockStart, tally, base + strstart - 1);
      var flush := Tally(0, c);
      EndBlock(flush);
    }

    // Insert the current string and look for a match longer than the previous one.
    method Search(len: nat) returns (matchLength: nat, prevMatch: nat)
      requires Shape() && Synced() && Chained(strstart) && lookahead > 0 && 1 <= len
      modifies prev, head, this`insH, this`prevLength, this`matchStart
      ensures Synced() && Chained(strstart + 1)
      ensures prevLength == len && prevMatch == old(matchStart)
      ensures 1 <= matchLength <= MAX_MATCH
      ensures matchLength > prevLength && matchLength >= MIN_MATCH ==>
                && matchLength <= lookahead
                && RepeatsAt(src, base + strstart, (strstart - matchStart) % UINT, matchLength)
    {
      hide HeadsHonest, LinksHonest, HashReady, HashAt, LinkHonest, RepeatsAt;
      var hashHead := InsertString(strstart);
      prevLength := len;
      prevMatch := matchStart;
      matchLength := FindMatch(hashHead);
    }

    // One turn of deflate's loop, up to the refill.
    method Step(avail: bool, len: nat) returns (matchAvailable: bool, matchLength: nat)
      requires Shape() && Ready(avail, len) && lookahead > 0
      modifies prev, head, this`insH, this`strstart, this`lookahead, this`prevLength, this`matchStart,
               this`tally, this`blocks, this`blockStart
      ensures Synced() && Reading() && Chained(strstart) && strstart > old(strstart)
      ensures eofile || 2 <= lookahead
      ensures Pending(matchAvailable, matchLength)
    {
      hide HeadsHonest, LinksHonest, HashReady, HashAt, LinkHonest, RepeatsAt, Covers, Replays;
      var prevMatch;
      matchLength, prevMatch := Search(len);
      if prevLength >= MIN_MATCH && matchLength <= prevLength {
        AdoptMatch(prevMatch);
        matchAvailable := false;
        matchLength := MIN_MATCH - 1;
      } else {
        Advance(avail);
        matchAvailable := true;
      }
    }

    // The byte before strstart, if untallied, is a literal; the current one waits for the next step.
    method Advance(avail: bool)
      requires Shape() && Synced() && lookahead > 0 && Chained(strstart + 1)
      requires (avail ==> 0 < strstart) && strstart <= 65535
      requires Tallied(base + strstart - if avail then 1 else 0) && |tally| <= LIT_BUFSIZE - 2
      modifies this`tally, this`blocks, this`blockStart, this`strstart, this`lookahead
      ensures Synced() && Chained(strstart)
      ensures strstart == old(strstart) + 1 && lookahead == old(lookahead) - 1
      ensures Tallied(base + strstart - 1) && |tally| <= LIT_BUFSIZE - 2
    {
      hide HeadsHonest, LinksHonest, HashReady, HashAt, LinkHonest, Covers, Replays;
      if avail {
        TallyLiteral();
      }
      strstart := strstart + 1;
      lookahead := lookahead - 1;
    }

    // deflate, after lm_init: the flushed blocks stand for exactly the bytes read.
    method Deflate()
      requires Shape() && Ready(false, MIN_MATCH - 1)
      modifies window, prev, head, this
      ensures Covers(blocks, src, got)
      ensures got <= |src| && (got == |src| || failed)
      ensures |blocks| > 0 && forall i | 0 <= i < |blocks| :: blocks[i].eof == (i == |blocks| - 1)
    {
      hide HeadsHonest, LinksHonest, HashReady, HashAt, LinkHonest, RepeatsAt, Covers, Replays;
      var matchAvailable: bool, matchLength: nat := false, MIN_MATCH - 1;
      while lookahead != 0
        invariant Ready(matchAvailable, matchLength)
        decreases |src| - base - strstart
      {
        matchAvailable, matchLength := Step(matchAvailable, matchLength);
        Refill(matchAvailable, matchLength);
      }
      if matchAvailable {
        LastLiteral();
      }
      FlushBlock(true);
    }

    method LastLiteral()
      requires Shape() && Synced()
      requires 0 < strstart && Tallied(base + strstart - 1) && |tally| <= LIT_BUFSIZE - 2
      modifies this`tally
      ensures Tallied(base + strstart) && |tally| < LIT_BUFSIZE
    {
      hide Covers, Replays;
      var c := window[strstart - 1];
      assert c == src[base + strstart - 1] by {
        assert window[..strstart + lookahead][strstart - 1] == src[base..got][strstart - 1];
      }
      LiteralReplays(src, base + blockStart, tally, base + strstart - 1);
      var flush := Tally(0, c);
    }
  }

  // The whole LZ77 pass, for every input and every way the reads split it.
  method Compress(input: seq<Byte>) returns (blocks: seq<Block>, taken: nat, failed: bool)
    ensures taken <= |input| && (failed || taken == |input|)
    ensures Covers(blocks, input, taken)
    ensures |blocks| > 0 && forall i | 0 <= i < |blocks| :: blocks[i].eof == (i == |blocks| - 1)
  {
    hide HeadsHonest, LinksHonest, HashReady, HashAt, LinkHonest, RepeatsAt, Covers, Replays;
    var d := new Deflater(input);
    d.LmInit();
    d.Deflate();
    blocks, taken, failed := d.blocks, d.got, d.failed;
  }

  lemma {:induction false} ReplayNothing(out: seq<Byte>)
    ensures Replays(out, [], out)
  {
  }

  lemma {:induction false} MatchIsReal(src: seq<Byte>, pos: nat, d: nat, len: nat)
    requires RepeatsAt(src, pos, d, len)
    ensures d > 0 && pos + len <= |src|
  {
  }

  // memcpy(window, window + WSIZE, WSIZE)
  method MoveDown(window: array<Byte>)
    requires window.Length == PADDED_SIZE
    modifies window
    ensures Slid(old(window[..]), window[..])
  {
    forall i | 0 <= i < WSIZE {
      window[i] := window[i + WSIZE];
    }
  }

  // The two loops of fill_window that move every entry of a table down by WSIZE.
  method LowerAll(a: array<nat>)
    modifies a
    ensures forall n | 0 <= n < a.Length :: a[n] == Lowered(old(a[n]))
  {
    var n := 0;
    while n < a.Length
      invariant n <= a.Length
      invariant forall k | 0 <= k < n :: a[k] == Lowered(old(a[k]))
      invariant forall k | n <= k < a.Length :: a[k] == old(a[k])
    {
      var m := a[n];
      a[n] := if m >= WSIZE then m - WSIZE else 0;
      n := n + 1;
    }
  }

  lemma {:induction false} ReadJoins(w: seq<Byte>, w0: seq<Byte>, src: seq<Byte>, base: nat, at: nat, from: nat, n: nat)
    requires |w| == |w0| && at + n <= |w| && base <= from && from + n <= |src|
    requires w0[..at] == src[base..from] && w[..at] == w0[..at] && w[at..at + n] == src[from..from + n]
    ensures w[..at + n] == src[base..from + n]
  {
    assert w[..at + n] == w[..at] + w[at..at + n];
    assert src[base..from + n] == src[base..from] + src[from..from + n];
  }
}
