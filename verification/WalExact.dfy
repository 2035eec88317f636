/** Byte by byte: which main files and logs the reader uses at all. */
module WalExact {
  import opened Bytes
  import opened WalSums
  import opened WalFrames
  import opened WalImage

  /** Where the bytes of a text stand, most significant first. */
  function Big32(s: seq<Byte>, at: nat): int
    requires at + 4 <= |s|
  {
    var b: seq<int> := s[at..at + 4];
    ((b[0] * 256 + b[1]) * 256 + b[2]) * 256 + b[3]
  }

  lemma Big32IsRead(s: seq<Byte>, at: nat)
    requires at + 4 <= |s|
    ensures Big32(s, at) == GetU32(s, at, true)
  {
  }

  /** The two bytes at 16 are the page size; 1 stands for 65,536, which they cannot hold. */
  lemma PageSizeExactly(db: seq<Byte>, ps: nat)
    ensures PageSize(db) == Some(ps) <==>
      && |db| >= 100
      && db[..16] == [83, 81, 76, 105, 116, 101, 32, 102, 111, 114, 109, 97, 116, 32, 51, 0]
      && var b: seq<int> := db[16..18]; var declared := b[0] * 256 + b[1];
         if declared == 1 then ps == 65536
         else ps == declared && ps in {512, 1024, 2048, 4096, 8192, 16384, 32768}
  {
  }

  /** A log's header counts exactly when it has one of the two magic numbers, this format's version, the
      main file's page size, and behind them the checksum of its first 24 bytes. */
  lemma HeaderExactly(wal: seq<Byte>, ps: nat)
    ensures HeaderOk(wal, ps) <==>
      && |wal| >= 32
      && Big32(wal, 0) in {0x377f0682, 0x377f0683} && Big32(wal, 4) == 3007000 && Big32(wal, 8) == ps
      && exists s1: U32, s2: U32 ::
           && s1 == Big32(wal, 24) && s2 == Big32(wal, 28)
           && IsChecksum(Checksum(s1, s2), START, wal[..24], Big32(wal, 0) == 0x377f0683)
  {
    hide GetU32, Big32, Sum, IsChecksum;
    if |wal| >= 32 {
      Big32IsRead(wal, 0);
      Big32IsRead(wal, 4);
      Big32IsRead(wal, 8);
      Big32IsRead(wal, 24);
      Big32IsRead(wal, 28);
      WholeBlocksExactly(24);
      var big := HeaderOf(wal).big;
      SumIsFibonacci(big, START, wal[..24]);
      var s1: U32, s2: U32 := GetU32(wal, 24, true), GetU32(wal, 28, true);
      if IsChecksum(Checksum(s1, s2), START, wal[..24], big) {
        OneChecksum(Checksum(s1, s2), Sum(big, START, wal[..24]), START, wal[..24], big);
      }
    }
  }

  /** There is one checksum of given bytes. */
  lemma OneChecksum(a: Checksum, b: Checksum, c: Checksum, bytes: seq<Byte>, big: bool)
    requires IsChecksum(a, c, bytes, big) && IsChecksum(b, c, bytes, big)
    ensures a == b
  {
    hide FibonacciSum;
  }

  /** The image may be as long as the main file and one page for every whole frame, and no longer than an exact integer. */
  lemma GuardExactly(db: seq<Byte>, wal: seq<Byte>, ps: nat, pages: nat, frames: nat)
    requires |wal| >= 32 && 32 + frames * (24 + ps) <= |wal| < 32 + (frames + 1) * (24 + ps)
    ensures GuardTrips(db, wal, ps, Pages(ps, pages)) <==> pages * ps > 9007199254740991 || pages * ps > |db| + frames * ps
  {
    PagesIsProduct(ps, pages);
    WholeFrames(|wal| - 32, 24 + ps, frames);
  }

  lemma WholeFrames(room: nat, size: nat, frames: nat)
    requires size > 0 && frames * size <= room < (frames + 1) * size
    ensures room / size == frames
  {
    var q, r := room / size, room % size;
    assert room == q * size + r;
    if q < frames {
      MulMono(q + 1, frames, size);
    } else if q > frames {
      MulMono(frames + 1, q, size);
    }
  }

  /**
   * The main file is used as it is unless it declares a page size, the log's header counts, some
   * accepted frame ends a transaction, and the image those frames ask for passes the guard; then the
   * image is the overlay of the committed frames.
   */
  lemma ImageExactly(db: seq<Byte>, wal: seq<Byte>)
    ensures var used := exists ps: nat, i: nat ::
        PageSize(db) == Some(ps) && HeaderOk(wal, ps) && CommitsAt(ValidFrames(wal, ps), i)
        && !GuardTrips(db, wal, ps, Pages(ps, ValidFrames(wal, ps)[i].dbSize));
      if used then
        && PageSize(db).Some? && CommittedPrefix(ValidFrames(wal, PageSize(db).value)) != []
        && CommittedImage(db, wal) == Overlay(db, CommittedPrefix(ValidFrames(wal, PageSize(db).value)), PageSize(db).value)
      else CommittedImage(db, wal) == db
  {
    hide PageSize, HeaderOk, GuardTrips, FramesFrom, Pages;
    if PageSize(db).Some? {
      var ps := PageSize(db).value;
      var frames := ValidFrames(wal, ps);
      var log := CommittedPrefix(frames);
      if log != [] {
        assert CommitsAt(frames, |log| - 1) && frames[|log| - 1] == Last(log);
      }
      forall i: nat | CommitsAt(frames, i)
        ensures log != [] && i == |log| - 1
      {
        CommittedPrefixUnique(frames, i + 1);
      }
    }
  }

  /** Frame `i` is the last of the frames that ends a transaction. */
  predicate CommitsAt(frames: seq<Frame>, i: nat) {
    i < |frames| && frames[i].dbSize > 0 && forall k :: i < k < |frames| ==> frames[k].dbSize == 0
  }

  /** So no log can ask for more than the main file's length and its own. */
  lemma ImageIsNoLonger(db: seq<Byte>, wal: seq<Byte>)
    ensures |CommittedImage(db, wal)| <= |db| + |wal|
  {
    hide PageSize, HeaderOk, FramesFrom, Source;
    if PageSize(db).Some? && CommittedPrefix(ValidFrames(wal, PageSize(db).value)) != [] {
      FramesAreInTheLog(wal, PageSize(db).value);
    }
  }

  lemma FramesAreInTheLog(wal: seq<Byte>, ps: nat)
    ensures FrameCount(wal, ps) * ps <= |wal|
  {
    if |wal| >= HEADER_BYTES {
      var q := FrameCount(wal, ps);
      assert q * FrameSize(ps) <= |wal| - HEADER_BYTES;
      assert q * (24 + ps) == q * 24 + q * ps;
    }
  }
}
