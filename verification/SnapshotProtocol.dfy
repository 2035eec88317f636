/** The reader against a concurrent writer and checkpointer: what it returns is the committed
    database at the instant it read the log (SQLite Database File Format, sections 4.3 and 4.4). */
module SnapshotProtocol {
  import opened Bytes
  import opened WalFrames
  import opened WalSums
  import opened WalWriter
  import opened WalImage

  // ---- the allocation guard ----

  function PagesWritten(log: seq<Frame>): set<nat> {
    set f <- log :: f.page
  }

  lemma {:induction false} AtMostOnePagePerFrame(log: seq<Frame>)
    ensures |PagesWritten(log)| <= |log|
    decreases |log|
  {
    if log != [] {
      AtMostOnePagePerFrame(Front(log));
      assert log == Front(log) + [Last(log)];
      assert PagesWritten(log) == PagesWritten(Front(log)) + {Last(log).page};
    }
  }

  lemma {:induction false} RangeFits(low: nat, high: nat, pages: set<nat>)
    requires low <= high
    requires forall n :: low < n <= high ==> n in pages
    ensures high - low <= |pages|
    decreases high
  {
    if low < high {
      RangeFits(low, high - 1, pages - {high});
    }
  }

  /** Every page of `[low, high)` is written by the log. */
  ghost predicate WritesAll(log: seq<Frame>, low: nat, high: nat) {
    forall n: nat :: low <= n < high ==> WritesPage(log, n)
  }

  /** Page `n`, counting from 0, has a frame. */
  predicate WritesPage(log: seq<Frame>, n: nat) {
    n + 1 in PagesWritten(log)
  }

  /** The guard never trips on a log that writes every page it adds to the main file. */
  lemma GuardAllowsRealGrowth(db: seq<Byte>, wal: seq<Byte>, ps: nat, log: seq<Frame>, pages: nat, target: U32)
    requires IsPageSize(ps) && Pages(ps, pages) <= |db|
    requires |log| <= FrameCount(wal, ps) && WritesAll(log, pages, target)
    ensures !GuardTrips(db, wal, ps, Pages(ps, target))
  {
    if pages < target {
      forall n | pages < n <= target ensures n in PagesWritten(log) {
        assert WritesPage(log, n - 1);
      }
      RangeFits(pages, target, PagesWritten(log));
      AtMostOnePagePerFrame(log);
    }
    PagesIsProduct(ps, pages);
    PagesIsProduct(ps, target);
    GuardArithmetic(ps, pages, target, FrameCount(wal, ps));
  }

  lemma GuardArithmetic(ps: nat, pages: nat, target: U32, frames: nat)
    requires ps <= 65536 && target <= pages + frames
    ensures target * ps <= pages * ps + frames * ps
    ensures target * ps <= MAX_SAFE_INTEGER
  {
    MulMono(target, pages + frames, ps);
    MulMono(ps, 65536, target);
  }

  // ---- a torn append ----

  /** Cut the log at any byte: the image is the main file, or exactly the one of the last commit
      whose frame lies wholly before the cut. Nothing of a torn transaction shows. */
  lemma TornAppendIsInvisible(db: seq<Byte>, wal: seq<Byte>, cut: nat, ps: nat)
    requires cut <= |wal| && PageSize(db) == Some(ps)
    ensures var all := ValidFrames(wal, ps);
      var log := CommittedPrefix(all[..Min(|all|, FrameCount(wal[..cut], ps))]);
      && log <= CommittedPrefix(all)
      && CommittedImage(db, wal[..cut]) ==
         (if log == [] || GuardTrips(db, wal[..cut], ps, Pages(ps, Last(log).dbSize)) then db else Overlay(db, log, ps))
  {
    hide PageSize, ValidFrames, CommittedPrefix, Overlay;
    CutKeepsWholeFrames(wal, cut, ps);
    var all := ValidFrames(wal, ps);
    CommittedPrefixMonotone(all, Min(|all|, FrameCount(wal[..cut], ps)));
  }

  // ---- the writer and the checkpointer ----

  /** `committed` is the logical database: what the last commit made it. `version` stands for the
      file's size and times; every write to the main file moves it forward. */
  datatype Disk = Disk(main: seq<Byte>, version: nat, wal: Option<seq<Byte>>, committed: seq<Byte>)

  /** The log's committed frames. */
  function Log(d: Disk, ps: nat): (log: seq<Frame>)
    ensures WellFormed(log, ps)
  {
    if d.wal == None then [] else CommittedPrefix(ValidFrames(d.wal.value, ps))
  }

  /** One transaction's frames, the last of which commits it. */
  ghost predicate Transaction(txn: seq<Frame>, ps: nat) {
    && txn != [] && WellFormed(txn, ps)
    && Last(txn).dbSize > 0
    && forall i :: 0 <= i < |txn| - 1 ==> txn[i].dbSize == 0
  }

  /** Frames, partial frames or stale bytes reach the log without completing a commit. */
  ghost predicate TouchLog(d: Disk, d': Disk, ps: nat) {
    d' == d.(wal := d'.wal) && Log(d', ps) == Log(d, ps)
  }

  /** A transaction commits: its frames join the log. It writes every page by which it grows
      the database of `pages` pages. */
  ghost predicate Commit(d: Disk, d': Disk, ps: nat, txn: seq<Frame>, pages: nat) {
    && Transaction(txn, ps)
    && |d.committed| == Pages(ps, pages) && WritesAll(txn, pages, Last(txn).dbSize)
    && Log(d', ps) == Log(d, ps) + txn
    && d' == d.(wal := d'.wal, committed := Replay(d.committed, txn, ps))
  }

  /** A checkpoint writes some bytes of pages that the committed log holds; a write may stop
      part way through a page. The file may grow; the bytes that tell the page size stay. */
  ghost predicate Checkpoint(d: Disk, d': Disk, ps: nat) {
    && Log(d, ps) != []
    && d' == d.(main := d'.main, version := d'.version) && d'.version > d.version
    && |d'.main| >= |d.main| && PageSize(d'.main) == Some(ps)
    && forall j: nat :: ByteOrZero(d'.main, j) == ByteOrZero(d.main, j) || WrittenIn(Log(d, ps), ps, j)
  }

  ghost predicate WrittenIn(log: seq<Frame>, ps: nat, j: nat)
    requires WellFormed(log, ps)
  {
    exists f <- log :: Writes(f, ps, j)
  }

  /** A complete checkpoint trims the main file to the committed size. */
  ghost predicate Trim(d: Disk, d': Disk) {
    && |d.main| > |d.committed|
    && d' == d.(main := d.main[..|d.committed|], version := d'.version) && d'.version > d.version
  }

  /** A log that is wholly checkpointed starts over: new salts, truncated, or removed. */
  ghost predicate Reset(d: Disk, d': Disk, ps: nat) {
    && d.main == d.committed
    && d' == d.(wal := d'.wal) && Log(d', ps) == []
  }

  ghost predicate WriterStep(d: Disk, d': Disk, ps: nat) {
    || TouchLog(d, d', ps)
    || (exists txn, pages :: Commit(d, d', ps, txn, pages))
    || Checkpoint(d, d', ps)
    || Trim(d, d')
    || Reset(d, d', ps)
  }

  /** The committed database is the main file overlaid with the committed log, at every moment:
      before, halfway through and after a checkpoint. */
  ghost predicate Consistent(d: Disk, ps: nat, pages: U32) {
    && PageSize(d.main) == Some(ps)
    && pages > 0 && |d.committed| == Pages(ps, pages)
    && (Log(d, ps) == [] ==> d.main == d.committed)
    && (Log(d, ps) != [] ==> Last(Log(d, ps)).dbSize == pages)
    && Shows(d, ps)
    && (forall n: nat :: n < pages ==> Covered(d, ps, n))
  }

  ghost predicate Shows(d: Disk, ps: nat) {
    forall j :: 0 <= j < |d.committed| ==> d.committed[j] == Source(d.main, Log(d, ps), ps, j)
  }

  ghost predicate Covered(d: Disk, ps: nat, n: nat) {
    Pages(ps, n + 1) <= |d.main| || WritesPage(Log(d, ps), n)
  }

  /** The image the reader would build from this disk is the committed database. */
  lemma ImageIsCommitted(d: Disk, ps: nat, pages: U32)
    requires Consistent(d, ps, pages)
    ensures (if d.wal == None then d.main else CommittedImage(d.main, d.wal.value)) == d.committed
  {
    hide PageSize, ValidFrames, CommittedPrefix;
    var log := Log(d, ps);
    if log != [] {
      var wal := d.wal.value;
      var whole := WholePages(d.main, ps, pages);
      forall n: nat | whole <= n < pages ensures WritesPage(log, n) {
        assert Covered(d, ps, n);
        PagesMono(ps, whole + 1, n + 1);
      }
      LogFits(wal, ps);
      GuardAllowsRealGrowth(d.main, wal, ps, log, whole, pages);
      assert d.committed == Overlay(d.main, log, ps);
    }
  }

  lemma LogFits(wal: seq<Byte>, ps: nat)
    requires IsPageSize(ps)
    ensures |CommittedPrefix(ValidFrames(wal, ps))| <= FrameCount(wal, ps)
  {
    if HeaderOk(wal, ps) {
      ValidFramesAreLongestPrefix(wal, ps);
    }
  }

  /** How many of the first `limit` pages the file holds whole. */
  lemma {:induction false} WholePages(db: seq<Byte>, ps: nat, limit: nat) returns (whole: nat)
    ensures whole <= limit && Pages(ps, whole) <= |db|
    ensures whole < limit ==> Pages(ps, whole + 1) > |db|
    decreases limit
  {
    if limit == 0 {
      whole := 0;
    } else {
      whole := WholePages(db, ps, limit - 1);
      if whole == limit - 1 && Pages(ps, limit) <= |db| {
        whole := limit;
      }
    }
  }

  /** Bytes that the new transaction writes, or that already agreed, agree under the longer log. */
  lemma {:induction false} SourceOfLongerLog(main: seq<Byte>, log: seq<Frame>, txn: seq<Frame>, ps: nat,
                                             was: seq<Byte>, j: nat)
    requires WellFormed(log, ps) && WellFormed(txn, ps)
    requires Source(main, log, ps, j) == ByteOrZero(was, j) || WrittenIn(txn, ps, j)
    ensures WellFormed(log + txn, ps)
    ensures Source(main, log + txn, ps, j) == Source(was, txn, ps, j)
    decreases |txn|
  {
    if txn == [] {
      assert log + txn == log;
    } else {
      assert Last(log + txn) == Last(txn) && Front(log + txn) == log + Front(txn);
      assert txn == Front(txn) + [Last(txn)];
      if !Writes(Last(txn), ps, j) {
        SourceOfLongerLog(main, log, Front(txn), ps, was, j);
      }
    }
  }

  lemma {:induction false} OneCommitGrowsFreely(txn: seq<Frame>)
    requires forall i :: 0 <= i < |txn| - 1 ==> txn[i].dbSize == 0
    ensures GrowthIsWritten(txn)
    ensures txn != [] && Last(txn).dbSize == 0 ==> SizeAfter(txn) == None
    decreases |txn|
  {
    if txn != [] {
      OneCommitGrowsFreely(Front(txn));
    }
  }

  lemma PageIsWrittenAt(log: seq<Frame>, ps: nat, n: nat, j: nat)
    requires WellFormed(log, ps) && WritesPage(log, n) && Pages(ps, n) <= j < Pages(ps, n + 1)
    ensures WrittenIn(log, ps, j)
  {
    var f :| f in log && f.page == n + 1;
    assert Writes(f, ps, j);
  }

  lemma CommitKeeps(d: Disk, d': Disk, ps: nat, txn: seq<Frame>, pages: U32)
    requires Consistent(d, ps, pages) && Commit(d, d', ps, txn, pages)
    ensures Consistent(d', ps, Last(txn).dbSize)
  {
    hide PageSize, ValidFrames, CommittedPrefix, Replay, Source;
    var log, target := Log(d, ps), Last(txn).dbSize;
    OneCommitGrowsFreely(txn);
    OnePassIsReplay(d.committed, txn, ps);
    assert d'.committed == Overlay(d.committed, txn, ps);
    forall j | 0 <= j < |d'.committed| ensures d'.committed[j] == Source(d'.main, Log(d', ps), ps, j) {
      if j >= |d.committed| {
        var n := PageHolding(ps, target, j);
        if n < pages {
          PagesMono(ps, n + 1, pages);
        }
        PageIsWrittenAt(txn, ps, n, j);
      }
      SourceOfLongerLog(d.main, log, txn, ps, d.committed, j);
    }
    forall n: nat | n < target ensures Covered(d', ps, n) {
      assert if n < pages then Covered(d, ps, n) else WritesPage(txn, n);
      assert PagesWritten(log + txn) == PagesWritten(log) + PagesWritten(txn);
    }
  }

  lemma {:induction false} SourceIgnoresOverwrittenBytes(main: seq<Byte>, main': seq<Byte>, log: seq<Frame>, ps: nat, j: nat)
    requires WellFormed(log, ps)
    requires ByteOrZero(main', j) == ByteOrZero(main, j) || WrittenIn(log, ps, j)
    ensures Source(main', log, ps, j) == Source(main, log, ps, j)
    decreases |log|
  {
    if log != [] && !Writes(Last(log), ps, j) {
      assert log == Front(log) + [Last(log)];
      SourceIgnoresOverwrittenBytes(main, main', Front(log), ps, j);
    }
  }

  lemma CheckpointKeeps(d: Disk, d': Disk, ps: nat, pages: U32)
    requires Consistent(d, ps, pages) && Checkpoint(d, d', ps)
    ensures Consistent(d', ps, pages)
  {
    hide PageSize, ValidFrames, CommittedPrefix, Source;
    forall j | 0 <= j < |d.committed| ensures d.committed[j] == Source(d'.main, Log(d, ps), ps, j) {
      SourceIgnoresOverwrittenBytes(d.main, d'.main, Log(d, ps), ps, j);
    }
    forall n: nat | n < pages ensures Covered(d', ps, n) {
      assert Covered(d, ps, n);
    }
  }

  /** A checkpoint can always run to its end: one more write makes the main file begin with the
      committed database, after which trimming it allows the log to start over. */
  lemma CheckpointCanFinish(d: Disk, ps: nat, pages: U32) returns (d': Disk)
    requires Consistent(d, ps, pages) && Log(d, ps) != [] && PageSize(d.committed) == Some(ps)
    ensures Checkpoint(d, d', ps) && d'.committed == d.committed <= d'.main
  {
    hide ValidFrames, CommittedPrefix, Source;
    var c := d.committed;
    var main' := c + if |d.main| > |c| then d.main[|c|..] else [];
    d' := d.(main := main', version := d.version + 1);
    assert main'[..16] == c[..16];
    forall j: nat ensures ByteOrZero(main', j) == ByteOrZero(d.main, j) || WrittenIn(Log(d, ps), ps, j) {
      if j < |c| {
        SourceOfUnwritten(d.main, Log(d, ps), ps, j);
      }
    }
  }

  lemma {:induction false} SourceOfUnwritten(main: seq<Byte>, log: seq<Frame>, ps: nat, j: nat)
    requires WellFormed(log, ps)
    ensures WrittenIn(log, ps, j) || Source(main, log, ps, j) == ByteOrZero(main, j)
    decreases |log|
  {
    if log != [] {
      SourceOfUnwritten(main, Front(log), ps, j);
      assert log == Front(log) + [Last(log)];
    }
  }

  lemma TrimKeeps(d: Disk, d': Disk, ps: nat, pages: U32)
    requires Consistent(d, ps, pages) && Trim(d, d')
    ensures Consistent(d', ps, pages)
  {
    hide ValidFrames, CommittedPrefix, Source;
    PagesMono(ps, 1, pages);
    assert Pages(ps, 1) == ps;
    assert d'.main[..16] == d.main[..16];
    forall j | 0 <= j < |d.committed| ensures d.committed[j] == Source(d'.main, Log(d, ps), ps, j) {
      SourceIgnoresOverwrittenBytes(d.main, d'.main, Log(d, ps), ps, j);
    }
    forall n: nat | n < pages ensures Covered(d', ps, n) {
      PagesMono(ps, n + 1, pages);
    }
  }

  lemma WriterKeepsConsistent(d: Disk, d': Disk, ps: nat, pages: U32) returns (pages': U32)
    requires Consistent(d, ps, pages) && WriterStep(d, d', ps)
    ensures Consistent(d', ps, pages')
    ensures d'.version > d.version || (d'.version == d.version && d'.main == d.main)
  {
    hide PageSize, ValidFrames, CommittedPrefix, Source, Replay;
    pages' := pages;
    if TouchLog(d, d', ps) {
      assert Shows(d', ps);
      forall n: nat | n < pages ensures Covered(d', ps, n) {
        assert Covered(d, ps, n);
      }
    } else if Checkpoint(d, d', ps) {
      CheckpointKeeps(d, d', ps, pages);
    } else if Trim(d, d') {
      TrimKeeps(d, d', ps, pages);
    } else if Reset(d, d', ps) {
      ResetKeeps(d, d', ps, pages);
    } else {
      var txn, n :| Commit(d, d', ps, txn, n);
      SamePages(ps, n, pages);
      CommitKeeps(d, d', ps, txn, pages);
      pages' := Last(txn).dbSize;
    }
  }

  lemma ResetKeeps(d: Disk, d': Disk, ps: nat, pages: U32)
    requires Consistent(d, ps, pages) && Reset(d, d', ps)
    ensures Consistent(d', ps, pages)
  {
    hide PageSize, ValidFrames, CommittedPrefix;
    forall n: nat | n < pages ensures Covered(d', ps, n) {
      PagesMono(ps, n + 1, pages);
    }
  }

  lemma {:induction false} PagesStrict(ps: nat, m: nat, n: nat)
    requires ps > 0 && m < n
    ensures Pages(ps, m) < Pages(ps, n)
    decreases n
  {
    if m + 1 < n {
      PagesStrict(ps, m, n - 1);
    }
  }

  lemma SamePages(ps: nat, m: nat, n: nat)
    requires ps > 0 && Pages(ps, m) == Pages(ps, n)
    ensures m == n
  {
    if m < n {
      PagesStrict(ps, m, n);
    } else if n < m {
      PagesStrict(ps, n, m);
    }
  }

  // ---- the reader ----

  /** `before` is the file's version when the attempt began, `bytes` what has been read of the
      main file, `asOf` the committed database at the moment the log was read. */
  datatype Reader =
    | Starting(attempt: nat)
    | ReadingMain(attempt: nat, before: nat, bytes: seq<Byte>)
    | ReadMain(attempt: nat, before: nat, bytes: seq<Byte>)
    | CheckedMain(attempt: nat, before: nat, bytes: seq<Byte>)
    | ReadLog(attempt: nat, before: nat, bytes: seq<Byte>, wal: Option<seq<Byte>>, asOf: seq<Byte>)
    | Returned(image: seq<Byte>, asOf: seq<Byte>)
    | GaveUp

  const ATTEMPTS := 3

  datatype State = State(disk: Disk, reader: Reader)

  /** One file-system call of the reader, or one piece of its read of the main file. */
  ghost predicate ReaderStep(d: Disk, r: Reader, r': Reader) {
    match r
    case Starting(a) =>
      r' == if a < ATTEMPTS then ReadingMain(a, d.version, []) else GaveUp
    case ReadingMain(a, before, bytes) =>
      if |bytes| >= |d.main| then r' == ReadMain(a, before, bytes)
      else exists k :: |bytes| < k <= |d.main| && r' == ReadingMain(a, before, bytes + d.main[|bytes|..k])
    case ReadMain(a, before, bytes) =>
      r' == if d.version == before then CheckedMain(a, before, bytes) else Starting(a + 1)
    case CheckedMain(a, before, bytes) =>
      r' == ReadLog(a, before, bytes, d.wal, d.committed)
    case ReadLog(a, before, bytes, wal, asOf) =>
      r' == if d.version != before then Starting(a + 1)
            else Returned(if wal == None then bytes else CommittedImage(bytes, wal.value), asOf)
    case Returned(_, _) => false
    case GaveUp => false
  }

  ghost predicate Next(s: State, s': State, ps: nat) {
    || (s'.reader == s.reader && WriterStep(s.disk, s'.disk, ps))
    || (s'.disk == s.disk && ReaderStep(s.disk, s.reader, s'.reader))
  }

  /** Any interleaving of the reader with the writer, from any consistent disk. */
  ghost predicate Run(b: seq<State>, ps: nat) {
    && b != [] && b[0].reader == Starting(0)
    && (exists pages :: Consistent(b[0].disk, ps, pages))
    && forall i :: 0 <= i < |b| - 1 ==> Next(b[i], b[i + 1], ps)
  }

  /** As long as the version stands, what has been read is the main file, and the image is the
      committed database the log was read from. `v0` is the version the run began with. */
  ghost predicate ReaderOk(d: Disk, r: Reader, v0: nat) {
    match r
    case Starting(a) => v0 + a <= d.version && a <= ATTEMPTS
    case ReadingMain(a, before, bytes) =>
      && v0 + a <= before <= d.version && a < ATTEMPTS
      && (before == d.version ==> bytes <= d.main)
    case ReadMain(a, before, bytes) =>
      && v0 + a <= before <= d.version && a < ATTEMPTS
      && (before == d.version ==> bytes == d.main)
    case CheckedMain(a, before, bytes) =>
      && v0 + a <= before <= d.version && a < ATTEMPTS
      && (before == d.version ==> bytes == d.main)
    case ReadLog(a, before, bytes, wal, asOf) =>
      && v0 + a <= before <= d.version && a < ATTEMPTS
      && (before == d.version ==> (if wal == None then bytes else CommittedImage(bytes, wal.value)) == asOf)
    case Returned(image, asOf) => image == asOf
    case GaveUp => v0 + ATTEMPTS <= d.version
  }

  lemma StepKeeps(s: State, s': State, ps: nat, pages: U32, v0: nat) returns (pages': U32)
    requires Consistent(s.disk, ps, pages) && ReaderOk(s.disk, s.reader, v0) && Next(s, s', ps)
    ensures Consistent(s'.disk, ps, pages') && ReaderOk(s'.disk, s'.reader, v0)
  {
    hide Consistent, CommittedImage, WriterStep;
    if s'.reader == s.reader && WriterStep(s.disk, s'.disk, ps) {
      pages' := WriterKeepsConsistent(s.disk, s'.disk, ps, pages);
    } else {
      pages' := pages;
      ImageIsCommitted(s.disk, ps, pages);
    }
  }

  lemma {:induction false} RunKeeps(b: seq<State>, ps: nat, i: nat) returns (pages: U32)
    requires Run(b, ps) && i < |b|
    ensures Consistent(b[i].disk, ps, pages) && ReaderOk(b[i].disk, b[i].reader, b[0].disk.version)
  {
    hide Consistent, Next;
    if i == 0 {
      pages :| Consistent(b[0].disk, ps, pages);
    } else {
      pages := RunKeeps(b, ps, i - 1);
      assert Next(b[i - 1], b[i - 1 + 1], ps);
      pages := StepKeeps(b[i - 1], b[i], ps, pages, b[0].disk.version);
    }
  }

  /** The moment the log was read. */
  ghost predicate LogReadAt(b: seq<State>, t: nat, asOf: seq<Byte>) {
    && t + 1 < |b| && b[t].reader.CheckedMain? && b[t + 1].reader.ReadLog?
    && b[t].disk.committed == asOf
  }

  lemma {:induction false} AsOfIsTheLogRead(b: seq<State>, ps: nat, i: nat) returns (t: nat)
    requires Run(b, ps) && i < |b| && (b[i].reader.ReadLog? || b[i].reader.Returned?)
    ensures t < i && LogReadAt(b, t, b[i].reader.asOf)
  {
    hide Consistent, WriterStep, CommittedImage;
    assert i > 0 && Next(b[i - 1], b[i - 1 + 1], ps);
    if b[i - 1].reader.ReadLog? || b[i - 1].reader.Returned? {
      t := AsOfIsTheLogRead(b, ps, i - 1);
    } else {
      t := i - 1;
    }
  }

  /** Over every interleaving with commits, partial checkpoints, trims and resets, a snapshot that
      is returned equals the committed database at the instant the log was read. */
  lemma SnapshotIsTheCommittedDatabase(b: seq<State>, ps: nat, i: nat) returns (t: nat)
    requires Run(b, ps) && i < |b| && b[i].reader.Returned?
    ensures t < i && LogReadAt(b, t, b[i].reader.image)
  {
    var _ := RunKeeps(b, ps, i);
    t := AsOfIsTheLogRead(b, ps, i);
  }

  /** A database with no log is consistent: the place every run can begin. */
  lemma DatabaseWithoutLogIsConsistent(main: seq<Byte>, version: nat, ps: nat, pages: U32)
    requires PageSize(main) == Some(ps) && pages > 0 && |main| == Pages(ps, pages)
    ensures Consistent(Disk(main, version, None, main), ps, pages)
  {
    hide PageSize, ValidFrames, CommittedPrefix;
    var d := Disk(main, version, None, main);
    forall n: nat | n < pages
      ensures Covered(d, ps, n)
    {
      PagesMono(ps, n + 1, pages);
    }
  }

  lemma ReaderMoves(d: Disk)
    requires |d.main| > 0
    requires (if d.wal == None then d.main else CommittedImage(d.main, d.wal.value)) == d.committed
    ensures var v := d.version;
      && ReaderStep(d, Starting(0), ReadingMain(0, v, []))
      && ReaderStep(d, ReadingMain(0, v, []), ReadingMain(0, v, d.main))
      && ReaderStep(d, ReadingMain(0, v, d.main), ReadMain(0, v, d.main))
      && ReaderStep(d, ReadMain(0, v, d.main), CheckedMain(0, v, d.main))
      && ReaderStep(d, CheckedMain(0, v, d.main), ReadLog(0, v, d.main, d.wal, d.committed))
      && ReaderStep(d, ReadLog(0, v, d.main, d.wal, d.committed), Returned(d.committed, d.committed))
  {
    hide CommittedImage;
    assert [] + d.main[0..|d.main|] == d.main;
  }

  /** Left alone, the reader returns the committed database at its first attempt. */
  lemma UndisturbedReadReturns(d: Disk, ps: nat, pages: U32) returns (b: seq<State>)
    requires Consistent(d, ps, pages)
    ensures Run(b, ps) && b[0].disk == d
    ensures b[|b| - 1].reader.Returned? && b[|b| - 1].reader.image == d.committed
  {
    hide Consistent, CommittedImage, WriterStep, ReaderStep;
    ImageIsCommitted(d, ps, pages);
    DatabaseIsNotEmpty(d, ps, pages);
    ReaderMoves(d);
    var v := d.version;
    b := [State(d, Starting(0)), State(d, ReadingMain(0, v, [])), State(d, ReadingMain(0, v, d.main)),
          State(d, ReadMain(0, v, d.main)), State(d, CheckedMain(0, v, d.main)),
          State(d, ReadLog(0, v, d.main, d.wal, d.committed)), State(d, Returned(d.committed, d.committed))];
  }

  lemma DatabaseIsNotEmpty(d: Disk, ps: nat, pages: U32)
    requires Consistent(d, ps, pages)
    ensures |d.main| >= 100
  {
  }

  /** The reader is reading in attempt `a`. */
  predicate InAttempt(r: Reader, a: nat) {
    (r.ReadingMain? || r.ReadMain? || r.CheckedMain? || r.ReadLog?) && r.attempt == a
  }

  /** The main file changed in a step that the reader's attempt `a` was under way in. */
  ghost predicate ChangedIn(b: seq<State>, i: nat, a: nat) {
    exists m: nat :: m < i < |b| && b[m].disk.version < b[m + 1].disk.version && InAttempt(b[m].reader, a)
  }

  /** Every attempt given up on had a change in it; the one under way has if its version is out of date. */
  ghost predicate ChangesSoFar(b: seq<State>, i: nat)
    requires i < |b|
  {
    match b[i].reader
    case Starting(a) => a <= ATTEMPTS && forall x: nat :: x < a ==> ChangedIn(b, i, x)
    case Returned(_, _) => true
    case GaveUp => forall x: nat :: x < ATTEMPTS ==> ChangedIn(b, i, x)
    case r =>
      && (forall x: nat :: x < r.attempt ==> ChangedIn(b, i, x)) && r.attempt < ATTEMPTS
      && r.before <= b[i].disk.version && (r.before < b[i].disk.version ==> ChangedIn(b, i, r.attempt))
  }

  lemma ChangedEarlier(b: seq<State>, i: nat, a: nat)
    requires i + 1 < |b|
    ensures ChangedIn(b, i, a) ==> ChangedIn(b, i + 1, a)
    ensures b[i].disk.version < b[i + 1].disk.version && InAttempt(b[i].reader, a) ==> ChangedIn(b, i + 1, a)
  {
    if m: nat :| m < i && b[m].disk.version < b[m + 1].disk.version && InAttempt(b[m].reader, a) {
      assert ChangedIn(b, i + 1, a);
    }
  }

  lemma ChangesOneMore(b: seq<State>, ps: nat, i: nat, next: nat)
    requires next == i + 1 < |b| && ChangesSoFar(b, i) && Next(b[i], b[next], ps)
    requires b[i].disk.version <= b[next].disk.version
    ensures ChangesSoFar(b, next)
  {
    hide WriterStep, CommittedImage, ChangedIn;
    forall a: nat
      ensures ChangedIn(b, i, a) ==> ChangedIn(b, next, a)
      ensures b[i].disk.version < b[next].disk.version && InAttempt(b[i].reader, a) ==> ChangedIn(b, next, a)
    {
      ChangedEarlier(b, i, a);
    }
    if b[next].reader != b[i].reader {
      AttemptsOneMore(b, i, next);
    }
  }

  lemma AttemptsOneMore(b: seq<State>, i: nat, next: nat)
    requires next == i + 1 < |b| && ChangesSoFar(b, i) && ReaderStep(b[i].disk, b[i].reader, b[next].reader)
    requires b[next].disk == b[i].disk && forall a: nat :: ChangedIn(b, i, a) ==> ChangedIn(b, next, a)
    ensures ChangesSoFar(b, next)
  {
    hide CommittedImage, ChangedIn;
  }

  lemma {:induction false} RunCountsChanges(b: seq<State>, ps: nat, i: nat)
    requires Run(b, ps) && i < |b|
    ensures ChangesSoFar(b, i)
  {
    hide Consistent, Next, ChangesSoFar;
    if i == 0 {
      NoChangesYet(b);
    } else {
      RunCountsChanges(b, ps, i - 1);
      assert Next(b[i - 1], b[i - 1 + 1], ps);
      var pages := RunKeeps(b, ps, i - 1);
      VersionNeverFalls(b[i - 1], b[i], ps, pages);
      ChangesOneMore(b, ps, i - 1, i);
    }
  }

  lemma NoChangesYet(b: seq<State>)
    requires b != [] && b[0].reader == Starting(0)
    ensures ChangesSoFar(b, 0)
  {
  }

  lemma VersionNeverFalls(s: State, s': State, ps: nat, pages: U32)
    requires Consistent(s.disk, ps, pages) && Next(s, s', ps)
    ensures s.disk.version <= s'.disk.version
  {
    hide Consistent, WriterStep, ReaderStep;
    if s'.reader == s.reader && WriterStep(s.disk, s'.disk, ps) {
      var _ := WriterKeepsConsistent(s.disk, s'.disk, ps, pages);
    }
  }

  /** The reader gives up only when the main file changed at least once in each of its three attempts. */
  lemma GivingUpMeansThreeChanges(b: seq<State>, ps: nat, i: nat, a: nat)
    requires Run(b, ps) && i < |b| && b[i].reader == GaveUp && a < 3
    ensures exists m: nat :: m < i && b[m].disk.version < b[m + 1].disk.version && InAttempt(b[m].reader, a)
  {
    hide Run;
    RunCountsChanges(b, ps, i);
    assert ChangedIn(b, i, a);
  }

  /** And it never makes a fourth. */
  lemma AtMostThreeAttempts(b: seq<State>, ps: nat, i: nat, a: nat)
    requires Run(b, ps) && i < |b| && InAttempt(b[i].reader, a)
    ensures a < 3
  {
    var _ := RunKeeps(b, ps, i);
  }

  /** The reader goes on to the log only after it has read the whole main file and found its version unchanged. */
  lemma {:induction false} LogIsReadAfterTheCheck(b: seq<State>, ps: nat, i: nat) returns (c: nat)
    requires Run(b, ps) && i < |b| && (b[i].reader.CheckedMain? || b[i].reader.ReadLog?)
    ensures c + 1 <= i && b[c].reader.ReadMain? && b[c + 1].reader.CheckedMain?
    ensures var r := b[i].reader;
      && (b[c].reader.attempt, b[c].reader.before, b[c].reader.bytes) == (r.attempt, r.before, r.bytes)
      && b[c].disk.version == r.before && b[c].disk.main == r.bytes
  {
    hide Consistent, WriterStep, CommittedImage;
    assert i > 0 && Next(b[i - 1], b[i - 1 + 1], ps);
    if b[i - 1].reader.CheckedMain? || b[i - 1].reader.ReadLog? {
      c := LogIsReadAfterTheCheck(b, ps, i - 1);
    } else {
      c := i - 1;
      var _ := RunKeeps(b, ps, c);
    }
  }

  // ---- a writer that follows the format ----

  /** Bytes too short for a frame, or whose first salt is not the header's, hold no frame. */
  lemma NoFrameHere(rest: seq<Byte>, ps: nat, h: Header, c: Checksum)
    requires |rest| < FrameSize(ps) || GetU32(rest, 8, true) != h.salt1
    ensures FramesFrom(rest, ps, h, c) == []
  {
    hide Sum;
    if |rest| >= FrameSize(ps) {
      GetU32Slice(rest, 0, FrameSize(ps), 8, true);
      assert rest[0..FrameSize(ps)] == rest[..FrameSize(ps)];
    }
  }

  /** A writer moves as the steps above say: a log that ends in a commit and gains the encoded frames
      of one more transaction has committed it. What lies behind the frames, before and after, is
      whatever an earlier use of the file left there, as long as it does not go on with the checksums. */
  lemma AppendingCommits(d: Disk, d': Disk, ps: nat, h: Header, checkpoints: U32,
                         frames: seq<Frame>, txn: seq<Frame>, pages: nat, behind: seq<Byte>, behind': seq<Byte>)
    requires IsPageSize(ps) && Transaction(txn, ps) && WellFormed(frames, ps)
    requires frames != [] ==> Last(frames).dbSize > 0
    requires |d.committed| == Pages(ps, pages) && WritesAll(txn, pages, Last(txn).dbSize)
    requires FramesFrom(behind, ps, h, SumOf(h, HeaderStart(h, ps, checkpoints), frames)) == []
    requires FramesFrom(behind', ps, h, SumOf(h, HeaderStart(h, ps, checkpoints), frames + txn)) == []
    requires d.wal == Some(EncodeWal(h, ps, checkpoints, frames) + behind)
    requires d' == d.(wal := Some(EncodeWal(h, ps, checkpoints, frames + txn) + behind'),
                      committed := Replay(d.committed, txn, ps))
    ensures Commit(d, d', ps, txn, pages)
  {
    hide PageSize, ValidFrames, EncodeWal, Replay, IsPageSize, WritesAll, FramesFrom, SumOf, HeaderStart;
    WriterRoundTrip(h, ps, checkpoints, frames, behind);
    WriterRoundTrip(h, ps, checkpoints, frames + txn, behind');
    assert frames + [] == frames && (frames + txn) + [] == frames + txn;
    assert Last(frames + txn) == Last(txn);
  }

  /** And any part of that append that stops before its last frame is whole has not. `rest` is the
      frame written in part, if any, and what lies behind it. */
  lemma TornAppendTouches(d: Disk, d': Disk, ps: nat, h: Header, checkpoints: U32,
                          frames: seq<Frame>, txn: seq<Frame>, k: nat, behind: seq<Byte>, rest: seq<Byte>)
    requires IsPageSize(ps) && Transaction(txn, ps) && WellFormed(frames, ps) && k < |txn|
    requires frames != [] ==> Last(frames).dbSize > 0
    requires FramesFrom(behind, ps, h, SumOf(h, HeaderStart(h, ps, checkpoints), frames)) == []
    requires FramesFrom(rest, ps, h, SumOf(h, HeaderStart(h, ps, checkpoints), frames + txn[..k])) == []
    requires d.wal == Some(EncodeWal(h, ps, checkpoints, frames) + behind)
    requires d' == d.(wal := Some(EncodeWal(h, ps, checkpoints, frames + txn[..k]) + rest))
    ensures TouchLog(d, d', ps)
  {
    hide PageSize, ValidFrames, EncodeWal, IsPageSize, CommittedPrefix, FramesFrom, SumOf, HeaderStart;
    var kept := frames + txn[..k];
    WriterRoundTrip(h, ps, checkpoints, frames, behind);
    WriterRoundTrip(h, ps, checkpoints, kept, rest);
    assert frames + [] == frames && kept + [] == kept;
    CommittedPrefixUnique(frames, |frames|);
    assert kept[..|frames|] == frames && frames[..|frames|] == frames;
    CommittedPrefixUnique(kept, |frames|);
  }

  /** A wholly checkpointed log starts over when a header with new salts is written over the old one:
      the old frames behind it no longer count. */
  lemma NewSaltsReset(d: Disk, d': Disk, ps: nat, h: Header, checkpoints: U32, behind: seq<Byte>)
    requires IsPageSize(ps) && d.main == d.committed
    requires |behind| < FrameSize(ps) || GetU32(behind, 8, true) != h.salt1
    requires d' == d.(wal := Some(EncodeHeader(h, ps, checkpoints) + behind))
    ensures Reset(d, d', ps)
  {
    hide PageSize, ValidFrames, EncodeHeader, EncodeFrames, IsPageSize, FramesFrom, SumOf, HeaderStart;
    NoFrameHere(behind, ps, h, SumOf(h, HeaderStart(h, ps, checkpoints), []));
    WriterRoundTrip(h, ps, checkpoints, [], behind);
    EmptyLog(h, ps, checkpoints);
    assert [] + FramesFrom(behind, ps, h, SumOf(h, HeaderStart(h, ps, checkpoints), [])) == [];
  }

  lemma EmptyLog(h: Header, ps: nat, checkpoints: U32)
    requires IsPageSize(ps)
    ensures EncodeWal(h, ps, checkpoints, []) == EncodeHeader(h, ps, checkpoints)
  {
    assert EncodeHeader(h, ps, checkpoints) + [] == EncodeHeader(h, ps, checkpoints);
  }
}
