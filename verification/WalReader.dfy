/** The portable reader's overlay, in place over a fresh buffer, proved against the image it promises. */
module WalReader {
  import opened Bytes
  import opened WalSums
  import opened WalFrames
  import opened WalWriter
  import opened WalImage

  /** The typed-array copy: `count` bytes of `source` from `from`, placed at `at`. */
  method CopyBytes(target: array<Byte>, at: nat, source: array<Byte>, from: nat, count: nat)
    requires target != source
    requires at + count <= target.Length && from + count <= source.Length
    modifies target
    ensures forall j :: 0 <= j < target.Length ==>
      target[j] == if at <= j < at + count then source[from + (j - at)] else old(target[j])
  {
    forall j | at <= j < at + count {
      target[j] := source[from + (j - at)];
    }
  }

  method SqlitePageSize(db: array<Byte>) returns (ps: Option<nat>)
    ensures ps == PageSize(db[..])
  {
    if db.Length < 100 {
      return None;
    }
    if db[0..16] != FILE_MAGIC {
      return None;
    }
    var encoded := Word(0, 0, db[16], db[17]);
    var size := if encoded == 1 then 65536 else encoded;
    if size < 512 || size > 65536 {
      return None;
    }
    PageSizeBitTest(size);
    ps := if BitAnd(size, size - 1) == 0 then Some(size) else None;
  }

  /** Summing a frame's first two words and then its page is summing what the frame covers. */
  lemma SumInTwo(wal: seq<Byte>, at: nat, ps: nat, h: Header, c: Checksum)
    requires at + FrameSize(ps) <= |wal|
    ensures FrameSum(h, c, wal[at..at + FrameSize(ps)])
         == Sum(h.big, Sum(h.big, c, wal[at..at + 8]), wal[at + 24..at + 24 + ps])
  {
    var bytes := wal[at..at + FrameSize(ps)];
    assert bytes[..8] == wal[at..at + 8];
    assert bytes[24..] == wal[at + 24..at + 24 + ps];
    assert WholeBlocks(0);
    SumConcat(h.big, c, bytes[..8], bytes[24..]);
  }

  lemma WordsOfFrame(wal: seq<Byte>, at: nat, ps: nat)
    requires at + FrameSize(ps) <= |wal|
    ensures var bytes := wal[at..at + FrameSize(ps)];
      && GetU32(bytes, 0, true) == GetU32(wal, at, true)
      && GetU32(bytes, 4, true) == GetU32(wal, at + 4, true)
      && GetU32(bytes, 8, true) == GetU32(wal, at + 8, true)
      && GetU32(bytes, 12, true) == GetU32(wal, at + 12, true)
      && GetU32(bytes, 16, true) == GetU32(wal, at + 16, true)
      && GetU32(bytes, 20, true) == GetU32(wal, at + 20, true)
  {
    var to := at + FrameSize(ps);
    GetU32Slice(wal, at, to, 0, true);
    GetU32Slice(wal, at, to, 4, true);
    GetU32Slice(wal, at, to, 8, true);
    GetU32Slice(wal, at, to, 12, true);
    GetU32Slice(wal, at, to, 16, true);
    GetU32Slice(wal, at, to, 20, true);
  }

  lemma CommittedPrefixSnoc(frames: seq<Frame>, f: Frame)
    ensures CommittedPrefix(frames + [f]) == if f.dbSize > 0 then frames + [f] else CommittedPrefix(frames)
  {
    assert (frames + [f])[..|frames|] == frames;
  }

  /** One frame of the scan: accepted with the checksum that now stands, or not. */
  method ScanFrame(wal: array<Byte>, offset: nat, ps: nat, h: Header, before: Checksum)
    returns (accepted: bool, checksum: Checksum, databasePages: U32)
    requires offset + FrameSize(ps) <= wal.Length && WholeBlocks(ps)
    ensures var bytes := wal[offset..offset + FrameSize(ps)];
      && accepted == FrameOk(h, before, bytes)
      && (accepted ==> checksum == FrameSum(h, before, bytes) && databasePages == ParseFrame(bytes).dbSize)
  {
    hide Sum, GetU32;
    ghost var w := wal[..];
    assert w[offset..offset + FrameSize(ps)] == wal[offset..offset + FrameSize(ps)];
    WordsOfFrame(w, offset, ps);
    checksum, databasePages := before, 0;
    var pageNumber := ReadU32(wal, offset, true);
    var salt1 := ReadU32(wal, offset + 8, true);
    var salt2 := ReadU32(wal, offset + 12, true);
    if pageNumber == 0 || salt1 != h.salt1 || salt2 != h.salt2 {
      return false, checksum, databasePages;
    }
    assert WholeBlocks(8);
    checksum := WalChecksum(wal, offset, 8, h.big, checksum);
    checksum := WalChecksum(wal, offset + 24, ps, h.big, checksum);
    SumInTwo(w, offset, ps, h, before);
    var stored1 := ReadU32(wal, offset + 16, true);
    var stored2 := ReadU32(wal, offset + 20, true);
    if stored1 != checksum.s1 || stored2 != checksum.s2 {
      return false, checksum, databasePages;
    }
    databasePages := ReadU32(wal, offset + 4, true);
    accepted := true;
  }

  /** Where the scan stands: the frames seen so far, and the last commit among them. */
  ghost predicate Scanned(all: seq<Frame>, w: seq<Byte>, ps: nat, h: Header, index: nat, checksum: Checksum,
                          lastCommit: int, committedPages: U32)
  {
    && index <= |all| && FrameOffset(ps, index) <= |w|
    && -1 <= lastCommit < index
    && CommittedPrefix(all[..index]) == all[..lastCommit + 1]
    && committedPages == (if lastCommit < 0 then 0 else all[lastCommit].dbSize)
    && all[index..] == FramesFrom(w[FrameOffset(ps, index)..], ps, h, checksum)
  }

  lemma UnfoldFrames(w: seq<Byte>, ps: nat, h: Header, i: nat, c: Checksum)
    requires FrameOffset(ps, i + 1) <= |w|
    ensures var bytes := w[FrameOffset(ps, i)..FrameOffset(ps, i + 1)];
      FramesFrom(w[FrameOffset(ps, i)..], ps, h, c) ==
        if FrameOk(h, c, bytes)
        then [ParseFrame(bytes)] + FramesFrom(w[FrameOffset(ps, i + 1)..], ps, h, FrameSum(h, c, bytes))
        else []
  {
    hide GetU32, Sum, FrameOk, ParseFrame, FrameSum;
    var at, size := FrameOffset(ps, i), FrameSize(ps);
    assert w[at..][..size] == w[at..at + size];
    assert w[at..][size..] == w[at + size..];
  }

  lemma ScannedOneMore(all: seq<Frame>, w: seq<Byte>, ps: nat, h: Header, index: nat, c: Checksum,
                       lastCommit: int, committedPages: U32)
    requires Scanned(all, w, ps, h, index, c, lastCommit, committedPages)
    requires FrameOffset(ps, index + 1) <= |w|
    ensures var bytes := w[FrameOffset(ps, index)..FrameOffset(ps, index + 1)];
      if FrameOk(h, c, bytes) then
        var commits := ParseFrame(bytes).dbSize > 0;
        Scanned(all, w, ps, h, index + 1, FrameSum(h, c, bytes), if commits then index else lastCommit,
                if commits then ParseFrame(bytes).dbSize else committedPages)
      else
        index == |all|
  {
    hide GetU32, Sum, CommittedPrefix, FrameOk, FramesFrom, ParseFrame, FrameSum;
    UnfoldFrames(w, ps, h, index, c);
    var bytes := w[FrameOffset(ps, index)..FrameOffset(ps, index + 1)];
    if FrameOk(h, c, bytes) {
      assert all[index] == ParseFrame(bytes);
      assert all[..index + 1] == all[..index] + [all[index]];
      assert all[index + 1..] == all[index..][1..];
      CommittedPrefixSnoc(all[..index], all[index]);
    }
  }

  /** The scan: the committed part of the accepted frames, by the position of its last frame. */
  method ScanFrames(wal: array<Byte>, ps: nat, h: Header, start: Checksum, ghost all: seq<Frame>)
    returns (lastCommit: int, committedPages: U32)
    requires WholeBlocks(ps) && wal.Length >= 32
    requires all == FramesFrom(wal[HEADER_BYTES..], ps, h, start)
    ensures -1 <= lastCommit < |all|
    ensures CommittedPrefix(all) == all[..lastCommit + 1]
    ensures committedPages == if lastCommit < 0 then 0 else all[lastCommit].dbSize
  {
    hide GetU32, Sum, FrameOk, FrameSum, FramesFrom, ParseFrame;
    ghost var w := wal[..];
    var frameSize := 24 + ps;
    var frameCount := (wal.Length - 32) / frameSize;
    var checksum := start;
    lastCommit, committedPages := -1, 0;
    var index := 0;
    assert all[index..] == all && wal[HEADER_BYTES..] == w[FrameOffset(ps, 0)..];
    while index < frameCount
      invariant 0 <= index && Scanned(all, w, ps, h, index, checksum, lastCommit, committedPages)
    {
      FrameOffsetClosed(ps, index);
      OffsetFits(w, ps, index + 1);
      ScannedOneMore(all, w, ps, h, index, checksum, lastCommit, committedPages);
      var offset := 32 + index * frameSize;
      var accepted, sum, databasePages := ScanFrame(wal, offset, ps, h, checksum);
      assert wal[offset..offset + frameSize] == w[offset..offset + frameSize];
      if !accepted {
        assert all[..index] == all;
        return;
      }
      checksum := sum;
      if databasePages > 0 {
        lastCommit := index;
        committedPages := databasePages;
      }
      index := index + 1;
    }
    ScanEnds(w, ps, index, h, checksum);
    assert all[..index] == all;
  }

  lemma ScanEnds(wal: seq<Byte>, ps: nat, i: nat, h: Header, c: Checksum)
    requires HEADER_BYTES <= |wal| && FrameOffset(ps, i) <= |wal| && i >= FrameCount(wal, ps)
    ensures FramesFrom(wal[FrameOffset(ps, i)..], ps, h, c) == []
  {
    OffsetFits(wal, ps, i + 1);
  }

  /** The log's frames lie one after another from the end of the header. */
  ghost predicate LaidOut(w: seq<Byte>, ps: nat, log: seq<Frame>) {
    && WellFormed(log, ps)
    && forall i :: 0 <= i < |log| ==> FrameLies(w, ps, i, log[i])
  }

  ghost predicate FrameLies(w: seq<Byte>, ps: nat, i: nat, f: Frame) {
    FrameOffset(ps, i + 1) <= |w| && f == ParseFrame(w[FrameOffset(ps, i)..FrameOffset(ps, i + 1)])
  }

  lemma CommittedIsLaidOut(w: seq<Byte>, ps: nat)
    requires HeaderOk(w, ps) && IsPageSize(ps)
    ensures LaidOut(w, ps, CommittedPrefix(ValidFrames(w, ps)))
  {
    hide HeaderOk, ValidAt, CommittedPrefix, ValidFrames, IsPageSize;
    ValidFramesAreLongestPrefix(w, ps);
    var all, log := ValidFrames(w, ps), CommittedPrefix(ValidFrames(w, ps));
    forall i | 0 <= i < |log| ensures FrameLies(w, ps, i, log[i]) {
      assert FrameStands(w, ps, 0 + i, all[i]);
      StandingLies(w, ps, i, all[i]);
    }
  }

  lemma StandingLies(w: seq<Byte>, ps: nat, i: nat, f: Frame)
    requires HEADER_BYTES <= |w| && FrameStands(w, ps, i, f)
    ensures FrameLies(w, ps, i, f)
  {
  }

  lemma SourceSnoc(db: seq<Byte>, log: seq<Frame>, ps: nat, i: nat, j: nat)
    requires WellFormed(log, ps) && i < |log|
    ensures Source(db, log[..i + 1], ps, j) ==
      if Writes(log[i], ps, j) then log[i].data[j - Pages(ps, log[i].page - 1)] else Source(db, log[..i], ps, j)
  {
    assert Front(log[..i + 1]) == log[..i];
  }

  /** Lay the frame over the snapshot, unless its page starts past the end.
      A page that starts inside never runs past it. */
  method OverlayFrame(snapshot: array<Byte>, wal: array<Byte>, ps: nat, index: nat, ghost total: nat, ghost f: Frame)
    requires snapshot != wal && ps > 0 && f.page > 0
    requires FrameLies(wal[..], ps, index, f)
    requires snapshot.Length == Pages(ps, total)
    modifies snapshot
    ensures forall j :: 0 <= j < snapshot.Length ==>
      snapshot[j] == if Writes(f, ps, j) then f.data[j - Pages(ps, f.page - 1)] else old(snapshot[j])
  {
    hide GetU32;
    FrameOffsetClosed(ps, index);
    var offset := 32 + index * (24 + ps);
    GetU32Slice(wal[..], offset, offset + 24 + ps, 0, true);
    var pageNumber := ReadU32(wal, offset, true);
    var destination := (pageNumber - 1) * ps;
    PagesIsProduct(ps, pageNumber - 1);
    if destination < snapshot.Length {
      PageFits(ps, f.page, total);
      CopyBytes(snapshot, destination, wal, offset + 24, ps);
    }
  }

  /** The first `n` frames of the log are laid over the main file's bytes. */
  ghost predicate Drawn(image: seq<Byte>, db: seq<Byte>, log: seq<Frame>, ps: nat, n: nat)
    requires WellFormed(log, ps) && n <= |log|
  {
    forall j :: 0 <= j < |image| ==> image[j] == Source(db, log[..n], ps, j)
  }

  lemma DrawnOneMore(before: seq<Byte>, after: seq<Byte>, db: seq<Byte>, log: seq<Frame>, ps: nat, n: nat)
    requires WellFormed(log, ps) && n < |log| && Drawn(before, db, log, ps, n) && |after| == |before|
    requires forall j :: 0 <= j < |after| ==>
      after[j] == if Writes(log[n], ps, j) then log[n].data[j - Pages(ps, log[n].page - 1)] else before[j]
    ensures Drawn(after, db, log, ps, n + 1)
  {
    forall j | 0 <= j < |after| ensures after[j] == Source(db, log[..n + 1], ps, j) {
      SourceSnoc(db, log, ps, n, j);
    }
  }

  lemma DrawnIsOverlay(image: seq<Byte>, db: seq<Byte>, log: seq<Frame>, ps: nat)
    requires WellFormed(log, ps) && log != [] && |image| == Pages(ps, Last(log).dbSize)
    requires Drawn(image, db, log, ps, |log|)
    ensures image == Overlay(db, log, ps)
  {
    assert log[..|log|] == log;
  }

  /** Lay the committed frames over the copy of the main file, in order. */
  method OverlayFrames(snapshot: array<Byte>, wal: array<Byte>, ps: nat, lastCommit: nat,
                       ghost db: seq<Byte>, ghost log: seq<Frame>)
    requires snapshot != wal && ps > 0
    requires LaidOut(wal[..], ps, log) && |log| == lastCommit + 1
    requires snapshot.Length == Pages(ps, Last(log).dbSize)
    requires forall j :: 0 <= j < snapshot.Length ==> snapshot[j] == ByteOrZero(db, j)
    modifies snapshot
    ensures snapshot[..] == Overlay(db, log, ps)
  {
    hide GetU32, ParseFrame, Pages, Writes, FrameLies, Overlay;
    ghost var w := wal[..];
    var index := 0;
    while index <= lastCommit
      invariant 0 <= index <= lastCommit + 1
      invariant Drawn(snapshot[..], db, log, ps, index)
    {
      hide Drawn, Source;
      assert FrameLies(w, ps, index, log[index]);
      ghost var before := snapshot[..];
      OverlayFrame(snapshot, wal, ps, index, Last(log).dbSize, log[index]);
      DrawnOneMore(before, snapshot[..], db, log, ps, index);
      index := index + 1;
    }
    DrawnIsOverlay(snapshot[..], db, log, ps);
  }

  /** A page that starts inside a whole number of pages ends inside it. */
  lemma PageFits(ps: nat, page: nat, total: nat)
    requires page > 0 && Pages(ps, page - 1) < Pages(ps, total)
    ensures Pages(ps, page) <= Pages(ps, total)
  {
    if page > total {
      PagesMono(ps, total, page - 1);
    } else {
      PagesMono(ps, page, total);
    }
  }

  lemma ShortLogIsEmpty(w: seq<Byte>, ps: nat)
    requires |w| < HEADER_BYTES
    ensures CommittedPrefix(ValidFrames(w, ps)) == []
  {
  }

  /** The header check, and the header's checksum to continue from. */
  method ReadHeader(wal: array<Byte>, ps: nat) returns (ok: bool, h: Header, start: Checksum)
    requires wal.Length >= 32
    ensures ok == HeaderOk(wal[..], ps)
    ensures ok ==> h == HeaderOf(wal[..]) && start == HeaderSum(wal[..])
  {
    hide GetU32, Sum;
    ghost var w := wal[..];
    ok, h, start := false, Header(false, 0, 0), START;
    var magic := ReadU32(wal, 0, true);
    if magic != MAGIC_LITTLE && magic != MAGIC_BIG {
      return;
    }
    var version := ReadU32(wal, 4, true);
    if version != FORMAT_VERSION {
      return;
    }
    var pageSize := ReadU32(wal, 8, true);
    if pageSize != ps {
      return;
    }
    var big := magic == MAGIC_BIG;
    WholeBlocksExactly(24);
    start := WalChecksum(wal, 0, 24, big, START);
    assert wal[0..24] == w[..24];
    var stored1 := ReadU32(wal, 24, true);
    var stored2 := ReadU32(wal, 28, true);
    if stored1 != start.s1 || stored2 != start.s2 {
      return;
    }
    var salt1 := ReadU32(wal, 16, true);
    var salt2 := ReadU32(wal, 20, true);
    ok, h := true, Header(big, salt1, salt2);
  }

  /** Overlay every valid frame through the log's last committed transaction. */
  method ApplyCommittedWal(db: array<Byte>, wal: array<Byte>) returns (snapshot: array<Byte>)
    ensures snapshot == db || fresh(snapshot)
    ensures snapshot[..] == CommittedImage(db[..], wal[..])
  {
    hide GetU32, PageSize, CommittedPrefix, LaidOut, HeaderOk, HeaderOf, HeaderSum, Overlay, FramesFrom, WholeBlocks, Pages, IsPageSize;
    var size := SqlitePageSize(db);
    if size == None {
      return db;
    }
    var ps := size.value;
    ghost var w := wal[..];
    if wal.Length < 32 {
      ShortLogIsEmpty(w, ps);
      return db;
    }
    var ok, h, start := ReadHeader(wal, ps);
    if !ok {
      return db;
    }
    PageSizeIsWholeBlocks(ps);
    ghost var log := CommittedPrefix(ValidFrames(w, ps));
    assert wal[HEADER_BYTES..] == w[HEADER_BYTES..];
    var lastCommit, committedPages := ScanFrames(wal, ps, h, start, ValidFrames(w, ps));
    if lastCommit < 0 || committedPages == 0 {
      return db;
    }
    var frameCount := (wal.Length - 32) / (24 + ps);
    PagesIsProduct(ps, committedPages);
    var targetSize := committedPages * ps;
    if targetSize > MAX_SAFE_INTEGER || targetSize > db.Length + frameCount * ps {
      return db;
    }
    snapshot := new Byte[targetSize](_ => 0);
    CopyBytes(snapshot, 0, db, 0, if targetSize < db.Length then targetSize else db.Length);
    CommittedIsLaidOut(w, ps);
    OverlayFrames(snapshot, wal, ps, lastCommit, db[..], log);
  }
}
