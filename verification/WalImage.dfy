/** The database image a reader builds from the main file and the committed frames
    (SQLite Database File Format, section 4.4), and what it means. */
module WalImage {
  import opened Bytes
  import opened WalFrames

  const MAX_SAFE_INTEGER := 9_007_199_254_740_991

  /** The length of `n` pages. */
  function Pages(ps: nat, n: nat): nat {
    if n == 0 then 0 else Pages(ps, n - 1) + ps
  }

  lemma {:induction false} PagesMono(ps: nat, m: nat, n: nat)
    requires m <= n
    ensures Pages(ps, m) <= Pages(ps, n)
    decreases n
  {
    if m < n {
      PagesMono(ps, m, n - 1);
    }
  }

  lemma {:induction false} PagesIsProduct(ps: nat, n: nat)
    ensures Pages(ps, n) == n * ps
  {
    if n > 0 {
      PagesIsProduct(ps, n - 1);
    }
  }

  ghost predicate WellFormed(frames: seq<Frame>, ps: nat) {
    forall f <- frames :: f.page > 0 && |f.data| == ps
  }

  predicate Writes(f: Frame, ps: nat, j: nat)
    requires f.page > 0
  {
    Pages(ps, f.page - 1) <= j < Pages(ps, f.page)
  }

  function Last(frames: seq<Frame>): Frame
    requires frames != []
  {
    frames[|frames| - 1]
  }

  function Front(frames: seq<Frame>): seq<Frame>
    requires frames != []
  {
    frames[..|frames| - 1]
  }

  /** Byte `j` of the image: from the last frame that writes it, else from the main file, else zero. */
  function Source(db: seq<Byte>, frames: seq<Frame>, ps: nat, j: nat): Byte
    requires WellFormed(frames, ps)
    decreases |frames|
  {
    if frames == [] then ByteOrZero(db, j)
    else
      var f := Last(frames);
      if Writes(f, ps, j) then f.data[j - Pages(ps, f.page - 1)] else Source(db, Front(frames), ps, j)
  }

  /** The image through the log's last commit. */
  function Overlay(db: seq<Byte>, log: seq<Frame>, ps: nat): (image: seq<Byte>)
    requires WellFormed(log, ps) && log != []
    ensures |image| == Pages(ps, Last(log).dbSize)
    ensures forall j :: 0 <= j < |image| ==> image[j] == Source(db, log, ps, j)
  {
    seq(Pages(ps, Last(log).dbSize), j requires 0 <= j => Source(db, log, ps, j))
  }

  /** A corrupt log must not be allowed to request an unbounded allocation. */
  predicate GuardTrips(db: seq<Byte>, wal: seq<Byte>, ps: nat, target: nat) {
    target > MAX_SAFE_INTEGER || target > |db| + FrameCount(wal, ps) * ps
  }

  function CommittedImage(db: seq<Byte>, wal: seq<Byte>): seq<Byte> {
    var size := PageSize(db);
    if size == None then db
    else
      var ps := size.value;
      var log := CommittedPrefix(ValidFrames(wal, ps));
      if log == [] || GuardTrips(db, wal, ps, Pages(ps, Last(log).dbSize)) then db
      else Overlay(db, log, ps)
  }

  // ---- page by page ----

  /** The bytes of page `n` (counting from 0) of an image. */
  function PageOf(image: seq<Byte>, ps: nat, n: nat): seq<Byte>
    requires Pages(ps, n + 1) <= |image|
  {
    image[Pages(ps, n)..Pages(ps, n + 1)]
  }

  lemma WritesItsPage(f: Frame, ps: nat, n: nat, j: nat)
    requires f.page > 0 && Pages(ps, n) <= j < Pages(ps, n + 1)
    ensures Writes(f, ps, j) <==> f.page == n + 1
  {
    if f.page < n + 1 {
      PagesMono(ps, f.page, n);
    } else if f.page > n + 1 {
      PagesMono(ps, n + 1, f.page - 1);
    }
  }

  lemma {:induction false} SourceOfPage(db: seq<Byte>, log: seq<Frame>, ps: nat, n: nat, j: nat, i: int)
    requires WellFormed(log, ps) && Pages(ps, n) <= j < Pages(ps, n + 1)
    requires -1 <= i < |log| && (i >= 0 ==> log[i].page == n + 1)
    requires forall k :: i < k < |log| ==> log[k].page != n + 1
    ensures Source(db, log, ps, j) ==
      if i >= 0 then log[i].data[j - Pages(ps, n)] else ByteOrZero(db, j)
    decreases |log|
  {
    if log != [] {
      WritesItsPage(Last(log), ps, n, j);
      if i < |log| - 1 {
        SourceOfPage(db, Front(log), ps, n, j, i);
      }
    }
  }

  /** Each page of the image is the content of the last committed frame for it; a page with no
      committed frame is the main file's, padded with zeros past the main file's end. */
  lemma EachPageIsItsLastFrame(db: seq<Byte>, log: seq<Frame>, ps: nat, n: nat, i: int)
    requires WellFormed(log, ps) && log != [] && n < Last(log).dbSize
    requires -1 <= i < |log| && (i >= 0 ==> log[i].page == n + 1)
    requires forall k :: i < k < |log| ==> log[k].page != n + 1
    ensures Pages(ps, n) <= Pages(ps, n + 1) <= |Overlay(db, log, ps)|
    ensures PageOf(Overlay(db, log, ps), ps, n) ==
      if i >= 0 then log[i].data else seq(ps, k requires 0 <= k => ByteOrZero(db, Pages(ps, n) + k))
  {
    PagesMono(ps, n + 1, Last(log).dbSize);
    var page := PageOf(Overlay(db, log, ps), ps, n);
    forall k | 0 <= k < ps
      ensures page[k] == if i >= 0 then log[i].data[k] else ByteOrZero(db, Pages(ps, n) + k)
    {
      SourceOfPage(db, log, ps, n, Pages(ps, n) + k, i);
    }
  }

  // ---- transaction by transaction ----

  /** Write one page, growing the file with zeros up to it when it lies past the end. */
  function WritePage(image: seq<Byte>, f: Frame, ps: nat): seq<Byte>
    requires f.page > 0 && |f.data| == ps
  {
    var at := Pages(ps, f.page - 1);
    var grown := if |image| < at + ps then image + Zeros(at + ps - |image|) else image;
    grown[..at] + f.data + grown[at + ps..]
  }

  function Resize(image: seq<Byte>, size: nat): seq<Byte> {
    if |image| >= size then image[..size] else image + Zeros(size - |image|)
  }

  /** Carry the frames into the file in order; a commit frame then sets the file's size. */
  function Replay(db: seq<Byte>, frames: seq<Frame>, ps: nat): seq<Byte>
    requires WellFormed(frames, ps)
    decreases |frames|
  {
    if frames == [] then db
    else
      var f := Last(frames);
      var written := WritePage(Replay(db, Front(frames), ps), f, ps);
      if f.dbSize > 0 then Resize(written, Pages(ps, f.dbSize)) else written
  }

  /** Some commit cut byte `j` off after its last write. */
  predicate CutOff(frames: seq<Frame>, ps: nat, j: nat)
    requires WellFormed(frames, ps)
    decreases |frames|
  {
    frames != [] &&
    var f := Last(frames);
    || (f.dbSize > 0 && Pages(ps, f.dbSize) <= j)
    || (!Writes(f, ps, j) && CutOff(Front(frames), ps, j))
  }

  lemma WritePageByte(image: seq<Byte>, f: Frame, ps: nat, j: nat)
    requires f.page > 0 && |f.data| == ps
    ensures ByteOrZero(WritePage(image, f, ps), j) ==
      if Writes(f, ps, j) then f.data[j - Pages(ps, f.page - 1)] else ByteOrZero(image, j)
  {
  }

  lemma ResizeByte(image: seq<Byte>, size: nat, j: nat)
    ensures ByteOrZero(Resize(image, size), j) == if j < size then ByteOrZero(image, j) else 0
  {
  }

  lemma {:induction false} ReplayByte(db: seq<Byte>, frames: seq<Frame>, ps: nat, j: nat)
    requires WellFormed(frames, ps)
    ensures ByteOrZero(Replay(db, frames, ps), j) ==
      if CutOff(frames, ps, j) then 0 else Source(db, frames, ps, j)
    decreases |frames|
  {
    hide WritePage, Writes, Resize, Pages, ByteOrZero;
    if frames != [] {
      ReplayByte(db, Front(frames), ps, j);
      var f, before := Last(frames), Replay(db, Front(frames), ps);
      WritePageByte(before, f, ps, j);
      ResizeByte(WritePage(before, f, ps), Pages(ps, f.dbSize), j);
    }
  }

  lemma ReplayLength(db: seq<Byte>, log: seq<Frame>, ps: nat)
    requires WellFormed(log, ps) && log != [] && Last(log).dbSize > 0
    ensures |Replay(db, log, ps)| == Pages(ps, Last(log).dbSize)
  {
  }

  /** Bytes of the image that a commit cut off and no later frame rewrote hold zero in their last source. */
  ghost predicate CutBytesAreZero(db: seq<Byte>, log: seq<Frame>, ps: nat)
    requires WellFormed(log, ps) && log != []
  {
    forall j :: 0 <= j < Pages(ps, Last(log).dbSize) && CutOff(log, ps, j) ==> Source(db, log, ps, j) == 0
  }

  /** The one-pass image and the transaction-by-transaction one differ exactly in bytes that a
      commit cut off, that no later frame rewrote, and that were not zero. */
  lemma OnePassVersusReplay(db: seq<Byte>, log: seq<Frame>, ps: nat)
    requires WellFormed(log, ps) && log != [] && Last(log).dbSize > 0
    ensures Overlay(db, log, ps) == Replay(db, log, ps) <==> CutBytesAreZero(db, log, ps)
  {
    var one, two := Overlay(db, log, ps), Replay(db, log, ps);
    ReplayLength(db, log, ps);
    forall j | 0 <= j < |one|
      ensures two[j] == if CutOff(log, ps, j) then 0 else one[j]
    {
      ReplayByte(db, log, ps, j);
    }
    if one == two {
      forall j | 0 <= j < |one| && CutOff(log, ps, j) ensures Source(db, log, ps, j) == 0 {
        assert one[j] == two[j];
      }
    } else {
      var j :| 0 <= j < |one| && one[j] != two[j];
      assert CutOff(log, ps, j) && Source(db, log, ps, j) != 0;
    }
  }

  /** The size in pages set by the last commit, None before the first one. */
  function SizeAfter(frames: seq<Frame>): Option<nat>
    decreases |frames|
  {
    if frames == [] then None
    else if Last(frames).dbSize > 0 then Some(Last(frames).dbSize)
    else SizeAfter(Front(frames))
  }

  /** Page `n` is written by the open transaction at the end of `frames`. */
  predicate WrittenSinceCommit(frames: seq<Frame>, n: nat)
    decreases |frames|
  {
    frames != [] && Last(frames).dbSize == 0
    && (Last(frames).page == n + 1 || WrittenSinceCommit(Front(frames), n))
  }

  /** Every commit that grows the database past the commit before it writes each added page. */
  ghost predicate GrowthIsWritten(frames: seq<Frame>)
    decreases |frames|
  {
    frames != [] ==>
      var f := Last(frames);
      var before := SizeAfter(Front(frames));
      && GrowthIsWritten(Front(frames))
      && (before.Some? ==> forall n {:trigger WrittenSinceCommit(Front(frames), n)} ::
          before.value <= n < f.dbSize ==> f.page == n + 1 || WrittenSinceCommit(Front(frames), n))
  }

  /** A byte below the last committed size, or written since, was never cut off. */
  lemma {:induction false} NothingVisibleIsCutOff(frames: seq<Frame>, ps: nat, n: nat, j: nat)
    requires WellFormed(frames, ps) && GrowthIsWritten(frames)
    requires Pages(ps, n) <= j < Pages(ps, n + 1)
    requires SizeAfter(frames) == None || n < SizeAfter(frames).value || WrittenSinceCommit(frames, n)
    ensures !CutOff(frames, ps, j)
    decreases |frames|
  {
    if frames != [] {
      var f := Last(frames);
      WritesItsPage(f, ps, n, j);
      if f.dbSize > 0 && n < f.dbSize {
        PagesMono(ps, n + 1, f.dbSize);
      }
      if f.page != n + 1 {
        NothingVisibleIsCutOff(Front(frames), ps, n, j);
      }
    }
  }

  lemma {:induction false} PageHolding(ps: nat, total: nat, j: nat) returns (n: nat)
    requires j < Pages(ps, total)
    ensures n < total && Pages(ps, n) <= j < Pages(ps, n + 1)
    decreases total
  {
    if Pages(ps, total - 1) <= j {
      n := total - 1;
    } else {
      n := PageHolding(ps, total - 1, j);
    }
  }

  /** The one pass with its final truncation gives the same bytes as applying the committed
      transactions one at a time, when every growing transaction writes the pages it adds. */
  lemma OnePassIsReplay(db: seq<Byte>, log: seq<Frame>, ps: nat)
    requires WellFormed(log, ps) && log != [] && Last(log).dbSize > 0
    requires GrowthIsWritten(log)
    ensures Overlay(db, log, ps) == Replay(db, log, ps)
  {
    forall j | 0 <= j < Pages(ps, Last(log).dbSize) ensures !CutOff(log, ps, j) {
      var n := PageHolding(ps, Last(log).dbSize, j);
      NothingVisibleIsCutOff(log, ps, n, j);
    }
    OnePassVersusReplay(db, log, ps);
  }
}
