/** Which frames of a write-ahead log count (SQLite Database File Format, sections 4.1 and 4.2). */
module WalFrames {
  import opened Bytes
  import opened WalSums

  const HEADER_BYTES := 32
  const FRAME_HEADER_BYTES := 24
  const MAGIC_LITTLE := 0x377f_0682
  const MAGIC_BIG := 0x377f_0683
  const FORMAT_VERSION := 3_007_000

  // "SQLite format 3" and its terminating zero
  const FILE_MAGIC: seq<Byte> :=
    [0x53, 0x51, 0x4c, 0x69, 0x74, 0x65, 0x20, 0x66, 0x6f, 0x72, 0x6d, 0x61, 0x74, 0x20, 0x33, 0x00]

  predicate IsPageSize(n: nat) {
    n == 512 || n == 1024 || n == 2048 || n == 4096
    || n == 8192 || n == 16384 || n == 32768 || n == 65536
  }

  /** In their range the page sizes are exactly the numbers that share no bit with their predecessor. */
  lemma PageSizeBitTest(n: nat)
    requires 512 <= n <= 65536
    ensures BitAnd(n, n - 1) == 0 <==> IsPageSize(n)
  {
    hide BitAnd;
    var k := 9;
    assert TwoTo(9) == 512;
    while n >= 2 * TwoTo(k)
      invariant 9 <= k <= 16 && TwoTo(k) <= n
      invariant IsPageSize(TwoTo(k))
      invariant forall m: nat :: IsPageSize(m) && m < 2 * TwoTo(k) ==> m <= TwoTo(k)
      decreases n - TwoTo(k)
    {
      k := k + 1;
    }
    SharesNoBit(n, k);
  }

  lemma PageSizeIsWholeBlocks(ps: nat)
    requires IsPageSize(ps)
    ensures ps >= 512 && WholeBlocks(ps) && WholeBlocks(8) && WholeBlocks(24)
  {
    WholeBlocksExactly(ps);
    WholeBlocksExactly(8);
    WholeBlocksExactly(24);
  }

  datatype Option<+T> = None | Some(value: T)

  /** The page size a database file declares, None for a file that is not one. */
  function PageSize(db: seq<Byte>): (ps: Option<nat>)
    ensures ps.Some? ==> IsPageSize(ps.value) && |db| >= 100
  {
    if |db| < 100 || db[..16] != FILE_MAGIC then None
    else
      var encoded := Word(0, 0, db[16], db[17]);
      var ps := if encoded == 1 then 65536 else encoded;
      if IsPageSize(ps) then Some(ps) else None
  }

  datatype Header = Header(big: bool, salt1: U32, salt2: U32)

  predicate HeaderOk(wal: seq<Byte>, ps: nat) {
    && |wal| >= HEADER_BYTES
    && (GetU32(wal, 0, true) == MAGIC_LITTLE || GetU32(wal, 0, true) == MAGIC_BIG)
    && GetU32(wal, 4, true) == FORMAT_VERSION
    && GetU32(wal, 8, true) == ps
    && Checksum(GetU32(wal, 24, true), GetU32(wal, 28, true)) == HeaderSum(wal)
  }

  function HeaderOf(wal: seq<Byte>): Header
    requires |wal| >= HEADER_BYTES
  {
    Header(GetU32(wal, 0, true) == MAGIC_BIG, GetU32(wal, 16, true), GetU32(wal, 20, true))
  }

  function HeaderSum(wal: seq<Byte>): Checksum
    requires |wal| >= HEADER_BYTES
  {
    Sum(HeaderOf(wal).big, START, wal[..24])
  }

  /** A page image; `dbSize > 0` marks the last frame of a committed transaction. */
  datatype Frame = Frame(page: U32, dbSize: U32, data: seq<Byte>)

  function FrameSize(ps: nat): nat {
    FRAME_HEADER_BYTES + ps
  }

  function ParseFrame(bytes: seq<Byte>): Frame
    requires |bytes| >= FRAME_HEADER_BYTES
  {
    Frame(GetU32(bytes, 0, true), GetU32(bytes, 4, true), bytes[FRAME_HEADER_BYTES..])
  }

  /** The part of a frame its checksum covers: everything but salts and checksum. */
  function CoveredByFrame(bytes: seq<Byte>): seq<Byte>
    requires |bytes| >= FRAME_HEADER_BYTES
  {
    bytes[..8] + bytes[FRAME_HEADER_BYTES..]
  }

  function FrameSum(h: Header, c: Checksum, bytes: seq<Byte>): Checksum
    requires |bytes| >= FRAME_HEADER_BYTES
  {
    Sum(h.big, c, CoveredByFrame(bytes))
  }

  /** `c` is the checksum of everything before this frame. */
  predicate FrameOk(h: Header, c: Checksum, bytes: seq<Byte>)
    requires |bytes| >= FRAME_HEADER_BYTES
  {
    && GetU32(bytes, 0, true) != 0
    && GetU32(bytes, 8, true) == h.salt1
    && GetU32(bytes, 12, true) == h.salt2
    && Checksum(GetU32(bytes, 16, true), GetU32(bytes, 20, true)) == FrameSum(h, c, bytes)
  }

  /** The frames accepted from `rest`, whose prefix so far sums to `c`. */
  function FramesFrom(rest: seq<Byte>, ps: nat, h: Header, c: Checksum): (frames: seq<Frame>)
    ensures forall f <- frames :: f.page > 0 && |f.data| == ps
    decreases |rest|
  {
    var size := FrameSize(ps);
    if |rest| < size || !FrameOk(h, c, rest[..size]) then []
    else [ParseFrame(rest[..size])] + FramesFrom(rest[size..], ps, h, FrameSum(h, c, rest[..size]))
  }

  function ValidFrames(wal: seq<Byte>, ps: nat): (frames: seq<Frame>)
    ensures forall f <- frames :: f.page > 0 && |f.data| == ps
  {
    if HeaderOk(wal, ps) then FramesFrom(wal[HEADER_BYTES..], ps, HeaderOf(wal), HeaderSum(wal)) else []
  }

  /** Everything up to and including the last commit. */
  function CommittedPrefix(frames: seq<Frame>): (log: seq<Frame>)
    ensures log <= frames
    ensures log != [] ==> log[|log| - 1].dbSize > 0
    ensures forall i :: |log| <= i < |frames| ==> frames[i].dbSize == 0
  {
    if frames == [] then []
    else if frames[|frames| - 1].dbSize > 0 then frames
    else CommittedPrefix(frames[..|frames| - 1])
  }

  lemma {:induction false} CommittedPrefixUnique(frames: seq<Frame>, n: nat)
    requires n <= |frames|
    requires n > 0 ==> frames[n - 1].dbSize > 0
    requires forall i :: n <= i < |frames| ==> frames[i].dbSize == 0
    ensures CommittedPrefix(frames) == frames[..n]
  {
    if n == |frames| {
      assert frames[..n] == frames;
    } else {
      var front := frames[..|frames| - 1];
      CommittedPrefixUnique(front, n);
      assert front[..n] == frames[..n];
    }
  }

  /** The committed part of a longer log extends the committed part of a shorter one. */
  lemma CommittedPrefixMonotone(frames: seq<Frame>, k: nat)
    requires k <= |frames|
    ensures CommittedPrefix(frames[..k]) <= CommittedPrefix(frames)
  {
    var a, b := CommittedPrefix(frames[..k]), CommittedPrefix(frames);
    assert a != [] ==> frames[|a| - 1] == a[|a| - 1];
  }

  // ---- the accepted frames, described by position ----

  function FrameOffset(ps: nat, i: nat): (at: nat)
    ensures at >= HEADER_BYTES
  {
    if i == 0 then HEADER_BYTES else FrameOffset(ps, i - 1) + FrameSize(ps)
  }

  lemma {:induction false} FrameOffsetClosed(ps: nat, i: nat)
    ensures FrameOffset(ps, i) == HEADER_BYTES + i * FrameSize(ps)
  {
    if i > 0 {
      FrameOffsetClosed(ps, i - 1);
    }
  }

  function FrameCount(wal: seq<Byte>, ps: nat): nat {
    if |wal| < HEADER_BYTES then 0 else (|wal| - HEADER_BYTES) / FrameSize(ps)
  }

  /** The bytes every checksum up to frame `n` covers, as one string. */
  function CoveredUpTo(wal: seq<Byte>, ps: nat, n: nat): seq<Byte>
    requires HEADER_BYTES <= |wal| && FrameOffset(ps, n) <= |wal|
  {
    if n == 0 then wal[..24]
    else
      var at := FrameOffset(ps, n - 1);
      CoveredUpTo(wal, ps, n - 1) + CoveredByFrame(wal[at..at + FrameSize(ps)])
  }

  /** Frame `i` is complete and carries the header's salts and the checksum of all bytes before and in it. */
  predicate ValidAt(wal: seq<Byte>, ps: nat, i: nat)
    requires HEADER_BYTES <= |wal|
  {
    var at := FrameOffset(ps, i);
    && at + FrameSize(ps) <= |wal|
    && GetU32(wal, at, true) != 0
    && GetU32(wal, at + 8, true) == HeaderOf(wal).salt1
    && GetU32(wal, at + 12, true) == HeaderOf(wal).salt2
    && Checksum(GetU32(wal, at + 16, true), GetU32(wal, at + 20, true))
       == Sum(HeaderOf(wal).big, START, CoveredUpTo(wal, ps, i + 1))
  }

  lemma OffsetFits(wal: seq<Byte>, ps: nat, i: nat)
    requires HEADER_BYTES <= |wal|
    ensures i <= FrameCount(wal, ps) <==> FrameOffset(ps, i) <= |wal|
  {
    FrameOffsetClosed(ps, i);
    var size, room, n := FrameSize(ps), |wal| - HEADER_BYTES, FrameCount(wal, ps);
    assert n * size <= room < n * size + size;
    if i <= n {
      MulMono(i, n, size);
    } else {
      MulMono(n + 1, i, size);
    }
  }

  lemma MulMono(a: nat, b: nat, c: nat)
    requires a <= b
    ensures a * c <= b * c
  {
  }

  lemma {:induction false} CoveredIsWholeBlocks(wal: seq<Byte>, ps: nat, n: nat)
    requires HEADER_BYTES <= |wal| && WholeBlocks(ps) && FrameOffset(ps, n) <= |wal|
    ensures WholeBlocks(|CoveredUpTo(wal, ps, n)|)
  {
    hide Sum, GetU32;
    if n == 0 {
      WholeBlocksExactly(24);
    } else {
      CoveredIsWholeBlocks(wal, ps, n - 1);
      assert WholeBlocks(8);
      WholeBlocksAdd(8, ps);
      WholeBlocksAdd(|CoveredUpTo(wal, ps, n - 1)|, 8 + ps);
    }
  }

  /** The chained sum after frame `n` is one sum over all the bytes covered so far. */
  lemma ChainIsOneChecksum(wal: seq<Byte>, ps: nat, n: nat)
    requires HEADER_BYTES <= |wal| && WholeBlocks(ps) && FrameOffset(ps, n + 1) <= |wal|
    ensures var at := FrameOffset(ps, n); var big := HeaderOf(wal).big;
      Sum(big, START, CoveredUpTo(wal, ps, n + 1))
      == FrameSum(HeaderOf(wal), Sum(big, START, CoveredUpTo(wal, ps, n)), wal[at..at + FrameSize(ps)])
  {
    hide Sum, GetU32;
    CoveredIsWholeBlocks(wal, ps, n);
    var at, big := FrameOffset(ps, n), HeaderOf(wal).big;
    SumConcat(big, START, CoveredUpTo(wal, ps, n), CoveredByFrame(wal[at..at + FrameSize(ps)]));
  }

  lemma FrameOkIsValidAt(wal: seq<Byte>, ps: nat, i: nat)
    requires HEADER_BYTES <= |wal| && WholeBlocks(ps) && FrameOffset(ps, i + 1) <= |wal|
    ensures var at := FrameOffset(ps, i);
      ValidAt(wal, ps, i) <==>
      FrameOk(HeaderOf(wal), Sum(HeaderOf(wal).big, START, CoveredUpTo(wal, ps, i)), wal[at..at + FrameSize(ps)])
  {
    hide Sum, GetU32;
    ChainIsOneChecksum(wal, ps, i);
    var at := FrameOffset(ps, i);
    var to := at + FrameSize(ps);
    GetU32Slice(wal, at, to, 0, true);
    GetU32Slice(wal, at, to, 8, true);
    GetU32Slice(wal, at, to, 12, true);
    GetU32Slice(wal, at, to, 16, true);
    GetU32Slice(wal, at, to, 20, true);
  }

  ghost predicate LongestValidFrom(wal: seq<Byte>, ps: nat, i: nat, frames: seq<Frame>)
    requires HEADER_BYTES <= |wal|
  {
    && FrameOffset(ps, i + |frames|) <= |wal|
    && (forall k :: 0 <= k < |frames| ==> FrameStands(wal, ps, i + k, frames[k]))
    && !ValidAt(wal, ps, i + |frames|)
  }

  /** Frame `i` is valid and decodes to `f`. */
  ghost predicate FrameStands(wal: seq<Byte>, ps: nat, i: nat, f: Frame)
    requires HEADER_BYTES <= |wal|
  {
    && ValidAt(wal, ps, i)
    && f == ParseFrame(wal[FrameOffset(ps, i)..FrameOffset(ps, i + 1)])
  }

  lemma LongestValidCons(wal: seq<Byte>, ps: nat, i: nat, f: Frame, tail: seq<Frame>)
    requires HEADER_BYTES <= |wal|
    requires FrameStands(wal, ps, i, f) && LongestValidFrom(wal, ps, i + 1, tail)
    ensures LongestValidFrom(wal, ps, i, [f] + tail)
  {
    hide Sum, GetU32, ValidAt;
    var frames := [f] + tail;
    assert i + |frames| == i + 1 + |tail|;
    forall k | 0 <= k < |frames| ensures FrameStands(wal, ps, i + k, frames[k]) {
      if k > 0 {
        assert FrameStands(wal, ps, i + 1 + (k - 1), tail[k - 1]);
      }
    }
  }

  lemma {:induction false} FramesFromIsLongest(wal: seq<Byte>, ps: nat, i: nat, h: Header, c: Checksum)
    requires HEADER_BYTES <= |wal| && WholeBlocks(ps) && FrameOffset(ps, i) <= |wal|
    requires h == HeaderOf(wal) && c == Sum(h.big, START, CoveredUpTo(wal, ps, i))
    ensures LongestValidFrom(wal, ps, i, FramesFrom(wal[FrameOffset(ps, i)..], ps, h, c))
    decreases |wal| - FrameOffset(ps, i)
  {
    hide Sum, GetU32, FrameOk;
    var at, size := FrameOffset(ps, i), FrameSize(ps);
    var rest := wal[at..];
    if |rest| >= size {
      assert rest[..size] == wal[at..at + size];
      FrameOkIsValidAt(wal, ps, i);
      if FrameOk(h, c, rest[..size]) {
        ChainIsOneChecksum(wal, ps, i);
        FramesFromIsLongest(wal, ps, i + 1, h, FrameSum(h, c, rest[..size]));
        assert rest[size..] == wal[FrameOffset(ps, i + 1)..];
        LongestValidCons(wal, ps, i, ParseFrame(rest[..size]),
                         FramesFrom(rest[size..], ps, h, FrameSum(h, c, rest[..size])));
      }
    }
  }

  /** The accepted frames are exactly the longest valid run from the header: each is valid
      under one running checksum from byte 0, and the next one, if complete, is not. */
  lemma ValidFramesAreLongestPrefix(wal: seq<Byte>, ps: nat)
    requires HeaderOk(wal, ps) && IsPageSize(ps)
    ensures LongestValidFrom(wal, ps, 0, ValidFrames(wal, ps))
    ensures |ValidFrames(wal, ps)| <= FrameCount(wal, ps)
  {
    PageSizeIsWholeBlocks(ps);
    FramesFromIsLongest(wal, ps, 0, HeaderOf(wal), HeaderSum(wal));
    OffsetFits(wal, ps, |ValidFrames(wal, ps)|);
  }
}
