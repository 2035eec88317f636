/** When the one-pass image and the transaction-by-transaction one agree, told from the frame
    headers alone, and a log for which they do not. */
module WalRegrowth {
  import opened Bytes
  import opened WalSums
  import opened WalFrames
  import opened WalImage
  import opened WalWriter

  /** Some commit made the database too small for page `n`, counting from 0, after the page was last written. */
  predicate CutPage(frames: seq<Frame>, n: nat)
    decreases |frames|
  {
    frames != [] &&
    var f := Last(frames);
    (f.dbSize > 0 && f.dbSize <= n) || (f.page != n + 1 && CutPage(Front(frames), n))
  }

  lemma {:induction false} CutByPage(frames: seq<Frame>, ps: nat, n: nat, j: nat)
    requires WellFormed(frames, ps) && ps > 0 && Pages(ps, n) <= j < Pages(ps, n + 1)
    ensures CutOff(frames, ps, j) <==> CutPage(frames, n)
    decreases |frames|
  {
    if frames != [] {
      var f := Last(frames);
      WritesItsPage(f, ps, n, j);
      if f.dbSize <= n {
        PagesMono(ps, f.dbSize, n);
      } else {
        PagesMono(ps, n + 1, f.dbSize);
      }
      CutByPage(Front(frames), ps, n, j);
    }
  }

  /** The same page numbers and commit sizes, whatever the pages hold. */
  ghost predicate SameShape(a: seq<Frame>, b: seq<Frame>) {
    |a| == |b| && forall i :: 0 <= i < |a| ==> a[i].page == b[i].page && a[i].dbSize == b[i].dbSize
  }

  lemma {:induction false} ShapeDecidesCuts(a: seq<Frame>, b: seq<Frame>, n: nat)
    requires SameShape(a, b)
    ensures CutPage(a, n) <==> CutPage(b, n)
    decreases |a|
  {
    if a != [] {
      ShapeDecidesCuts(Front(a), Front(b), n);
    }
  }

  /** No page of the database as last committed was ever cut off and not written again. */
  ghost predicate NothingCut(log: seq<Frame>)
    requires log != []
  {
    forall n: nat :: n < Last(log).dbSize ==> !CutPage(log, n)
  }

  ghost predicate Agree(db: seq<Byte>, log: seq<Frame>, ps: nat) {
    WellFormed(log, ps) && log != [] && Overlay(db, log, ps) == Replay(db, log, ps)
  }

  lemma NothingCutAgrees(db: seq<Byte>, log: seq<Frame>, ps: nat)
    requires WellFormed(log, ps) && ps > 0 && log != [] && Last(log).dbSize > 0 && NothingCut(log)
    ensures Agree(db, log, ps)
  {
    forall j: nat | j < Pages(ps, Last(log).dbSize)
      ensures !CutOff(log, ps, j)
    {
      var n := PageHolding(ps, Last(log).dbSize, j);
      CutByPage(log, ps, n, j);
    }
    OnePassVersusReplay(db, log, ps);
  }

  // ---- contents that show a cut ----

  function Ones(n: nat): (s: seq<Byte>)
    ensures |s| == n && forall i :: 0 <= i < n ==> s[i] == 1
  {
    seq(n, _ => 1 as Byte)
  }

  function Filled(log: seq<Frame>, ps: nat): (filled: seq<Frame>)
    ensures |filled| == |log|
    ensures forall i :: 0 <= i < |log| ==> filled[i] == Frame(log[i].page, log[i].dbSize, Ones(ps))
  {
    seq(|log|, i requires 0 <= i < |log| => Frame(log[i].page, log[i].dbSize, Ones(ps)))
  }

  /** A main file of `n` bytes or more after its header, all ones. */
  function MainOf(ps: nat, n: nat): seq<Byte>
    requires IsPageSize(ps)
  {
    FILE_MAGIC + (if ps == 65536 then [0, 1] else [(ps / 256) as Byte, 0]) + Ones(82 + n)
  }

  lemma MainIsReadable(ps: nat, n: nat)
    requires IsPageSize(ps)
    ensures PageSize(MainOf(ps, n)) == Some(ps)
    ensures forall j :: 18 <= j < 100 + n ==> ByteOrZero(MainOf(ps, n), j) == 1
  {
    var main := MainOf(ps, n);
    assert main[..16] == FILE_MAGIC;
  }

  lemma {:induction false} FilledSource(db: seq<Byte>, log: seq<Frame>, ps: nat, j: nat)
    requires WellFormed(log, ps) && ByteOrZero(db, j) == 1
    ensures WellFormed(Filled(log, ps), ps) && Source(db, Filled(log, ps), ps, j) == 1
    decreases |log|
  {
    FilledFits(log, ps);
    if log != [] {
      FilledSource(db, Front(log), ps, j);
      assert Front(Filled(log, ps)) == Filled(Front(log), ps);
    }
  }

  lemma FilledFits(log: seq<Frame>, ps: nat)
    requires WellFormed(log, ps)
    ensures WellFormed(Filled(log, ps), ps) && SameShape(log, Filled(log, ps))
  {
    forall f <- Filled(log, ps)
      ensures f.page > 0 && |f.data| == ps
    {
      var i :| 0 <= i < |log| && Filled(log, ps)[i] == f;
      assert log[i] in log;
    }
  }

  lemma CutDisagrees(log: seq<Frame>, ps: nat, n: nat) returns (db: seq<Byte>)
    requires WellFormed(log, ps) && IsPageSize(ps) && log != [] && Last(log).dbSize > 0
    requires n < Last(log).dbSize && CutPage(log, n)
    ensures PageSize(db) == Some(ps) && WellFormed(Filled(log, ps), ps) && !Agree(db, Filled(log, ps), ps)
  {
    hide IsPageSize, CutPage, PageSize, MainOf;
    var j := Pages(ps, n);
    db := MainOf(ps, j);
    FirstPageIsNeverCut(log, n);
    PageSizeIsWholeBlocks(ps);
    PagesMono(ps, 1, n);
    PagesMono(ps, n + 1, Last(log).dbSize);
    MainIsReadable(ps, j);
    FilledFits(log, ps);
    FilledSource(db, log, ps, j);
    ShapeDecidesCuts(log, Filled(log, ps), n);
    CutByPage(Filled(log, ps), ps, n, j);
    OnePassVersusReplay(db, Filled(log, ps), ps);
  }

  lemma {:induction false} FirstPageIsNeverCut(log: seq<Frame>, n: nat)
    requires CutPage(log, n)
    ensures n > 0
    decreases |log|
  {
    if !(Last(log).dbSize > 0 && Last(log).dbSize <= n) {
      FirstPageIsNeverCut(Front(log), n);
    }
  }

  /**
   * Over all main files of the page size and all page contents, the one pass gives the bytes of the
   * transaction-by-transaction replay if and only if, by the frame headers, no page of the database
   * as last committed was cut off by an earlier commit and not written again.
   */
  lemma HeadersDecideAgreement(log: seq<Frame>, ps: nat)
    requires WellFormed(log, ps) && IsPageSize(ps) && log != [] && Last(log).dbSize > 0
    ensures (forall db, other :: PageSize(db) == Some(ps) && WellFormed(other, ps) && SameShape(log, other) ==>
               Agree(db, other, ps))
      <==> NothingCut(log)
  {
    hide IsPageSize, PageSize, Agree, CutPage;
    PageSizeIsWholeBlocks(ps);
    if NothingCut(log) {
      forall db, other | PageSize(db) == Some(ps) && WellFormed(other, ps) && SameShape(log, other)
        ensures Agree(db, other, ps)
      {
        forall n: nat | n < Last(other).dbSize
          ensures !CutPage(other, n)
        {
          ShapeDecidesCuts(log, other, n);
        }
        NothingCutAgrees(db, other, ps);
      }
    } else {
      var n: nat :| n < Last(log).dbSize && CutPage(log, n);
      var db := CutDisagrees(log, ps, n);
      FilledFits(log, ps);
    }
  }

  // ---- an input on which they differ ----

  /** Shrink to one page, then grow back without writing the second. */
  function Regrowing(second: seq<Byte>, first: seq<Byte>): seq<Frame> {
    [Frame(2, 2, second), Frame(1, 1, first), Frame(1, 2, first)]
  }

  lemma RegrowingIsRead(db: seq<Byte>, h: Header, checkpoints: U32, second: seq<Byte>, first: seq<Byte>)
    requires PageSize(db) == Some(512) && |second| == |first| == 512
    ensures var log := Regrowing(second, first);
      && WellFormed(log, 512)
      && CommittedImage(db, EncodeWal(h, 512, checkpoints, log)) == Overlay(db, log, 512)
  {
    hide EncodeWal, ValidFrames, PageSize, CommittedPrefix, FrameCount, Overlay, SumOf, HeaderStart;
    var log := Regrowing(second, first);
    var wal := EncodeWal(h, 512, checkpoints, log);
    WriterRoundTrip(h, 512, checkpoints, log, []);
    CommittedPrefixUnique(log, 3);
    assert log[..3] == log;
    AcceptedFramesFit(h, 512, checkpoints, log);
    assert Pages(512, 2) == 1024;
  }

  lemma AcceptedFramesFit(h: Header, ps: nat, checkpoints: U32, log: seq<Frame>)
    requires IsPageSize(ps) && WellFormed(log, ps)
    ensures |log| <= FrameCount(EncodeWal(h, ps, checkpoints, log), ps)
  {
    hide EncodeFrames, EncodeHeader, HeaderOk, ValidFrames, LongestValidFrom, IsPageSize, SumOf, HeaderStart;
    WriterRoundTrip(h, ps, checkpoints, log, []);
    EncodedHeaderIsOk(h, ps, checkpoints, EncodeFrames(h, HeaderStart(h, ps, checkpoints), log));
    ValidFramesAreLongestPrefix(EncodeWal(h, ps, checkpoints, log), ps);
  }

  /**
   * For every readable main file of 512-byte pages: with this log, written to the format, the reader's
   * image brings back the old second page, where carrying the transactions in leaves zeros.
   */
  lemma RegrownPageResurfaces(db: seq<Byte>, h: Header, checkpoints: U32, second: seq<Byte>, first: seq<Byte>)
    requires PageSize(db) == Some(512) && |second| == |first| == 512 && second[0] != 0
    ensures var log := Regrowing(second, first);
      && WellFormed(log, 512)
      && CommittedImage(db, EncodeWal(h, 512, checkpoints, log)) != Replay(db, log, 512)
  {
    hide EncodeWal, CommittedImage, PageSize, Replay;
    var log := Regrowing(second, first);
    RegrowingIsRead(db, h, checkpoints, second, first);
    assert Front(log) == [Frame(2, 2, second), Frame(1, 1, first)];
    assert Front(Front(log)) == [Frame(2, 2, second)];
    assert Pages(512, 1) == 512 && Pages(512, 2) == 1024 && Pages(512, 0) == 0;
    assert CutOff(Front(log), 512, 512);
    assert CutOff(log, 512, 512);
    assert Source(db, log, 512, 512) == second[0] by {
      assert Source(db, log, 512, 512) == Source(db, Front(log), 512, 512);
      assert Source(db, Front(log), 512, 512) == Source(db, Front(Front(log)), 512, 512);
    }
    OnePassVersusReplay(db, log, 512);
  }
}
