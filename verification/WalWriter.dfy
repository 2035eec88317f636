/** A writer that follows sections 4.1 and 4.2 of the SQLite Database File Format, and what the
    scan makes of its output: all of it, or of any part of it that reached the file. */
module WalWriter {
  import opened Bytes
  import opened WalSums
  import opened WalFrames

  function HeaderWords(h: Header, ps: nat, checkpoints: U32): (words: seq<U32>)
    requires IsPageSize(ps)
    ensures |words| == 6
  {
    [if h.big then MAGIC_BIG else MAGIC_LITTLE, FORMAT_VERSION, ps, checkpoints, h.salt1, h.salt2]
  }

  function EncodeHeader(h: Header, ps: nat, checkpoints: U32): (s: seq<Byte>)
    requires IsPageSize(ps)
    ensures |s| == HEADER_BYTES
  {
    var words := HeaderWords(h, ps, checkpoints);
    var sum := Sum(h.big, START, PutWords(words));
    PutWords(words + [sum.s1, sum.s2])
  }

  /** The checksum a frame carries when everything before it sums to `c`. */
  function SumWith(h: Header, c: Checksum, f: Frame): Checksum {
    Sum(h.big, c, PutWords([f.page, f.dbSize]) + f.data)
  }

  function EncodeFrame(h: Header, c: Checksum, f: Frame): (s: seq<Byte>)
    ensures |s| == FRAME_HEADER_BYTES + |f.data|
  {
    var sum := SumWith(h, c, f);
    PutWords([f.page, f.dbSize, h.salt1, h.salt2, sum.s1, sum.s2]) + f.data
  }

  function EncodeFrames(h: Header, c: Checksum, frames: seq<Frame>): seq<Byte>
    decreases |frames|
  {
    if frames == [] then []
    else EncodeFrame(h, c, frames[0]) + EncodeFrames(h, SumWith(h, c, frames[0]), frames[1..])
  }

  function HeaderStart(h: Header, ps: nat, checkpoints: U32): Checksum
    requires IsPageSize(ps)
  {
    Sum(h.big, START, PutWords(HeaderWords(h, ps, checkpoints)))
  }

  function EncodeWal(h: Header, ps: nat, checkpoints: U32, frames: seq<Frame>): seq<Byte>
    requires IsPageSize(ps)
  {
    EncodeHeader(h, ps, checkpoints) + EncodeFrames(h, HeaderStart(h, ps, checkpoints), frames)
  }

  ghost predicate Writable(frames: seq<Frame>, ps: nat) {
    forall f <- frames :: f.page > 0 && |f.data| == ps
  }

  lemma EncodedFrameIsOk(h: Header, c: Checksum, f: Frame)
    requires f.page > 0
    ensures var s := EncodeFrame(h, c, f);
      FrameOk(h, c, s) && ParseFrame(s) == f && FrameSum(h, c, s) == SumWith(h, c, f)
  {
    hide Sum, GetU32, PutU32;
    var s, sum := EncodeFrame(h, c, f), SumWith(h, c, f);
    var words := [f.page, f.dbSize, h.salt1, h.salt2, sum.s1, sum.s2];
    WordAt(words, f.data, 0);
    WordAt(words, f.data, 1);
    WordAt(words, f.data, 2);
    WordAt(words, f.data, 3);
    WordAt(words, f.data, 4);
    WordAt(words, f.data, 5);
    PutWordsConcat([f.page, f.dbSize], words[2..]);
    assert words == [f.page, f.dbSize] + words[2..];
    assert s[24..] == f.data;
    assert CoveredByFrame(s) == PutWords([f.page, f.dbSize]) + f.data;
  }

  lemma EncodedHeaderIsOk(h: Header, ps: nat, checkpoints: U32, rest: seq<Byte>)
    requires IsPageSize(ps)
    ensures var wal := EncodeHeader(h, ps, checkpoints) + rest;
      HeaderOk(wal, ps) && HeaderOf(wal) == h && HeaderSum(wal) == HeaderStart(h, ps, checkpoints)
  {
    hide Sum, GetU32, PutU32;
    var sum := HeaderStart(h, ps, checkpoints);
    var words := HeaderWords(h, ps, checkpoints) + [sum.s1, sum.s2];
    WordAt(words, rest, 0);
    WordAt(words, rest, 1);
    WordAt(words, rest, 2);
    WordAt(words, rest, 4);
    WordAt(words, rest, 5);
    WordAt(words, rest, 6);
    WordAt(words, rest, 7);
    PutWordsConcat(HeaderWords(h, ps, checkpoints), [sum.s1, sum.s2]);
    assert (PutWords(words) + rest)[..24] == PutWords(HeaderWords(h, ps, checkpoints));
  }

  function SumOf(h: Header, c: Checksum, frames: seq<Frame>): Checksum
    decreases |frames|
  {
    if frames == [] then c else SumOf(h, SumWith(h, c, frames[0]), frames[1..])
  }

  lemma OneFrameRoundTrip(h: Header, c: Checksum, ps: nat, f: Frame, rest: seq<Byte>)
    requires f.page > 0 && |f.data| == ps
    ensures FramesFrom(EncodeFrame(h, c, f) + rest, ps, h, c) == [f] + FramesFrom(rest, ps, h, SumWith(h, c, f))
  {
    hide Sum, GetU32, PutU32, PutWords;
    var s := EncodeFrame(h, c, f);
    EncodedFrameIsOk(h, c, f);
    assert (s + rest)[..|s|] == s;
    assert (s + rest)[|s|..] == rest;
  }

  lemma Prepend<T>(x: T, xs: seq<T>, ys: seq<T>)
    ensures [x] + (xs + ys) == ([x] + xs) + ys
  {
  }

  /** The scan accepts what was written frame for frame, then looks at whatever follows. */
  lemma {:induction false} FramesRoundTrip(h: Header, c: Checksum, ps: nat, frames: seq<Frame>, tail: seq<Byte>)
    requires Writable(frames, ps)
    ensures FramesFrom(EncodeFrames(h, c, frames) + tail, ps, h, c)
         == frames + FramesFrom(tail, ps, h, SumOf(h, c, frames))
    decreases |frames|
  {
    hide Sum, GetU32, PutU32, FrameOk;
    if frames == [] {
      assert EncodeFrames(h, c, frames) + tail == tail;
      assert frames + FramesFrom(tail, ps, h, c) == FramesFrom(tail, ps, h, c);
    } else {
      var f, more := frames[0], frames[1..];
      var c' := SumWith(h, c, f);
      var s, others := EncodeFrame(h, c, f), EncodeFrames(h, c', more);
      var rest := FramesFrom(tail, ps, h, SumOf(h, c', more));
      FramesRoundTrip(h, c', ps, more, tail);
      calc {
        FramesFrom(EncodeFrames(h, c, frames) + tail, ps, h, c);
        { assert (s + others) + tail == s + (others + tail); }
        FramesFrom(s + (others + tail), ps, h, c);
        { OneFrameRoundTrip(h, c, ps, f, others + tail); }
        [f] + (more + rest);
        { Prepend(f, more, rest); assert frames == [f] + more; }
        frames + rest;
      }
    }
  }

  /** A log written to the format is accepted frame for frame, whatever stale bytes follow it,
      provided those bytes do not themselves continue the checksum chain. */
  lemma WriterRoundTrip(h: Header, ps: nat, checkpoints: U32, frames: seq<Frame>, stale: seq<Byte>)
    requires IsPageSize(ps) && Writable(frames, ps)
    ensures var end := SumOf(h, HeaderStart(h, ps, checkpoints), frames);
      ValidFrames(EncodeWal(h, ps, checkpoints, frames) + stale, ps) == frames + FramesFrom(stale, ps, h, end)
    ensures ValidFrames(EncodeWal(h, ps, checkpoints, frames), ps) == frames
  {
    WriterThenTail(h, ps, checkpoints, frames, stale);
    WriterThenTail(h, ps, checkpoints, frames, []);
    assert EncodeWal(h, ps, checkpoints, frames) + [] == EncodeWal(h, ps, checkpoints, frames);
    assert frames + [] == frames;
  }

  lemma WriterThenTail(h: Header, ps: nat, checkpoints: U32, frames: seq<Frame>, tail: seq<Byte>)
    requires IsPageSize(ps) && Writable(frames, ps)
    ensures ValidFrames(EncodeWal(h, ps, checkpoints, frames) + tail, ps)
         == frames + FramesFrom(tail, ps, h, SumOf(h, HeaderStart(h, ps, checkpoints), frames))
  {
    var c := HeaderStart(h, ps, checkpoints);
    var header, body := EncodeHeader(h, ps, checkpoints), EncodeFrames(h, c, frames);
    assert (header + body) + tail == header + (body + tail);
    EncodedHeaderIsOk(h, ps, checkpoints, body + tail);
    assert (header + (body + tail))[HEADER_BYTES..] == body + tail;
    FramesRoundTrip(h, c, ps, frames, tail);
  }

  // ---- a log cut short ----

  function Min(a: nat, b: nat): nat {
    if a < b then a else b
  }

  function WholeFrames(n: nat, size: nat): nat
    requires size > 0
  {
    if n < size then 0 else 1 + WholeFrames(n - size, size)
  }

  lemma QuotientStep(n: nat, size: nat)
    requires 0 < size <= n
    ensures n / size == 1 + (n - size) / size
  {
    var q, r := (n - size) / size, (n - size) % size;
    assert n == (q + 1) * size + r;
    QuotientUnique(n, size, q + 1, r);
  }

  lemma QuotientUnique(n: nat, size: nat, q: nat, r: nat)
    requires 0 <= r < size && n == q * size + r
    ensures n / size == q
  {
    SameQuotient(size, q, r, n / size, n % size);
  }

  lemma SameQuotient(size: nat, q: nat, r: nat, d: nat, m: nat)
    requires r < size && m < size && q * size + r == d * size + m
    ensures q == d
  {
    if q < d {
      MulMono(q + 1, d, size);
    } else if d < q {
      MulMono(d + 1, q, size);
    }
  }

  lemma {:induction false} WholeFramesIsQuotient(n: nat, size: nat)
    requires size > 0
    ensures WholeFrames(n, size) == n / size
  {
    if n >= size {
      WholeFramesIsQuotient(n - size, size);
      QuotientStep(n, size);
    }
  }

  lemma {:induction false} FramesFromCut(rest: seq<Byte>, cut: nat, ps: nat, h: Header, c: Checksum)
    requires cut <= |rest|
    ensures var all := FramesFrom(rest, ps, h, c);
      FramesFrom(rest[..cut], ps, h, c) == all[..Min(|all|, WholeFrames(cut, FrameSize(ps)))]
    decreases |rest|
  {
    hide Sum, GetU32;
    var size := FrameSize(ps);
    if cut >= size && FrameOk(h, c, rest[..size]) {
      assert rest[..cut][..size] == rest[..size];
      assert rest[..cut][size..] == rest[size..][..cut - size];
      FramesFromCut(rest[size..], cut - size, ps, h, FrameSum(h, c, rest[..size]));
    } else if cut >= size {
      assert rest[..cut][..size] == rest[..size];
    }
  }

  /** Cutting the log at any byte keeps exactly the accepted frames that lie wholly before the cut. */
  lemma CutKeepsWholeFrames(wal: seq<Byte>, cut: nat, ps: nat)
    requires cut <= |wal|
    ensures var all := ValidFrames(wal, ps);
      ValidFrames(wal[..cut], ps) == all[..Min(|all|, FrameCount(wal[..cut], ps))]
  {
    hide Sum, GetU32;
    var short := wal[..cut];
    if cut >= HEADER_BYTES {
      assert short[..24] == wal[..24];
      HeaderCut(wal, cut, ps);
      if HeaderOk(wal, ps) {
        assert short[HEADER_BYTES..] == wal[HEADER_BYTES..][..cut - HEADER_BYTES];
        FramesFromCut(wal[HEADER_BYTES..], cut - HEADER_BYTES, ps, HeaderOf(wal), HeaderSum(wal));
        WholeFramesIsQuotient(cut - HEADER_BYTES, FrameSize(ps));
      }
    }
  }

  lemma HeaderCut(wal: seq<Byte>, cut: nat, ps: nat)
    requires HEADER_BYTES <= cut <= |wal|
    ensures HeaderOk(wal[..cut], ps) == HeaderOk(wal, ps)
    ensures HeaderOf(wal[..cut]) == HeaderOf(wal) && HeaderSum(wal[..cut]) == HeaderSum(wal)
  {
    hide Sum, GetU32;
    assert wal[..cut] == wal[0..cut];
    assert wal[..cut][..24] == wal[..24];
    GetU32Slice(wal, 0, cut, 0, true);
    GetU32Slice(wal, 0, cut, 4, true);
    GetU32Slice(wal, 0, cut, 8, true);
    GetU32Slice(wal, 0, cut, 16, true);
    GetU32Slice(wal, 0, cut, 20, true);
    GetU32Slice(wal, 0, cut, 24, true);
    GetU32Slice(wal, 0, cut, 28, true);
  }
}
