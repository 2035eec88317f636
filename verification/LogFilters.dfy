/** The two stateful line filters between the dashboard server and the terminal. */
module LogFilters {

  datatype Option<+T> = None | Some(value: T)

  /** How a line reads, colour codes stripped where the filters strip them. */
  datatype Shapes = Shapes(
    skewHead: string -> bool,
    skewContinuation: string -> bool,
    startupNoise: string -> bool,
    readyLine: string -> bool,
    banner: string -> bool,
    portInUse: string -> bool,
    cause: seq<string> -> Option<string>)

  function Last<T>(s: seq<T>): T
    requires s != []
  {
    s[|s| - 1]
  }

  function ButLast<T>(s: seq<T>): seq<T>
    requires s != []
  {
    s[..|s| - 1]
  }

  // ---- the deployment-skew block ----

  /** Whether the filter is inside a block after `line`; a line is kept exactly when it is not. */
  function SkewNext(inBlock: bool, line: string, shapes: Shapes): bool {
    shapes.skewHead(line) || (inBlock && shapes.skewContinuation(line))
  }

  class SkewFilter {
    const shapes: Shapes
    var inSkewBlock: bool

    constructor (shapes: Shapes)
      ensures this.shapes == shapes && !inSkewBlock
    {
      this.shapes := shapes;
      inSkewBlock := false;
    }

    method Keeps(line: string) returns (keep: bool)
      modifies this
      ensures inSkewBlock == SkewNext(old(inSkewBlock), line, shapes)
      ensures keep == !inSkewBlock
    {
      if shapes.skewHead(line) {
        inSkewBlock := true;
        return false;
      }
      if inSkewBlock {
        if shapes.skewContinuation(line) {
          return false;
        }
        inSkewBlock := false;
      }
      return true;
    }
  }

  function InBlock(lines: seq<string>, shapes: Shapes): bool
    decreases |lines|
  {
    lines != [] && SkewNext(InBlock(ButLast(lines), shapes), Last(lines), shapes)
  }

  function SkewKept(lines: seq<string>, shapes: Shapes): seq<string>
    decreases |lines|
  {
    if lines == [] then []
    else SkewKept(ButLast(lines), shapes) + (if InBlock(lines, shapes) then [] else [Last(lines)])
  }

  /** Line `j` opens a block, and everything after it belongs to that block or opens another. */
  ghost predicate BlockFrom(lines: seq<string>, j: nat, shapes: Shapes) {
    && j < |lines| && shapes.skewHead(lines[j])
    && forall k :: j < k < |lines| ==> shapes.skewHead(lines[k]) || shapes.skewContinuation(lines[k])
  }

  /** The last of `lines` is dropped exactly when an unbroken run of block lines leads back to a head. */
  lemma {:induction false} DroppedExactlyInABlock(lines: seq<string>, shapes: Shapes)
    ensures InBlock(lines, shapes) <==> exists j: nat :: BlockFrom(lines, j, shapes)
    decreases |lines|
  {
    if lines != [] {
      var before := ButLast(lines);
      DroppedExactlyInABlock(before, shapes);
      if shapes.skewHead(Last(lines)) {
        assert BlockFrom(lines, |lines| - 1, shapes);
      } else if shapes.skewContinuation(Last(lines)) {
        if j: nat :| BlockFrom(before, j, shapes) {
          assert BlockFrom(lines, j, shapes);
        }
        if j: nat :| BlockFrom(lines, j, shapes) {
          assert BlockFrom(before, j, shapes);
        }
      }
    }
  }

  /** One line more: it passes exactly when no such run of lines ends with it. */
  lemma SkewPassesExactly(lines: seq<string>, line: string, shapes: Shapes)
    ensures SkewKept(lines + [line], shapes)
         == SkewKept(lines, shapes) + (if exists j: nat :: BlockFrom(lines + [line], j, shapes) then [] else [line])
  {
    DroppedExactlyInABlock(lines + [line], shapes);
    assert ButLast(lines + [line]) == lines;
  }

  // ---- Next's own banner ----

  predicate IsReady(line: string, shapes: Shapes) {
    !shapes.startupNoise(line) && shapes.readyLine(line)
  }

  predicate StartupKeeps(listening: bool, line: string, shapes: Shapes) {
    !shapes.startupNoise(line) && (listening || !(shapes.readyLine(line) || shapes.banner(line)))
  }

  class StartupFilter {
    const shapes: Shapes
    var listening: bool

    constructor (shapes: Shapes)
      ensures this.shapes == shapes && !listening
    {
      this.shapes := shapes;
      listening := false;
    }

    /** `ready` stands for the call of the readiness callback. */
    method Keeps(line: string) returns (keep: bool, ready: bool)
      modifies this
      ensures listening == (old(listening) || IsReady(line, shapes))
      ensures keep == StartupKeeps(old(listening), line, shapes)
      ensures ready == (listening && !old(listening))
    {
      if shapes.startupNoise(line) {
        return false, false;
      }
      if listening {
        return true, false;
      }
      if shapes.readyLine(line) {
        listening := true;
        return false, true;
      }
      return !shapes.banner(line), false;
    }
  }

  function Listening(lines: seq<string>, shapes: Shapes): bool
    decreases |lines|
  {
    lines != [] && (Listening(ButLast(lines), shapes) || IsReady(Last(lines), shapes))
  }

  function StartupKept(lines: seq<string>, shapes: Shapes): seq<string>
    decreases |lines|
  {
    if lines == [] then []
    else
      StartupKept(ButLast(lines), shapes)
      + (if StartupKeeps(Listening(ButLast(lines), shapes), Last(lines), shapes) then [Last(lines)] else [])
  }

  function ReadyCalls(lines: seq<string>, shapes: Shapes): nat
    decreases |lines|
  {
    if lines == [] then 0
    else
      ReadyCalls(ButLast(lines), shapes)
      + (if IsReady(Last(lines), shapes) && !Listening(ButLast(lines), shapes) then 1 else 0)
  }

  /** The server is reported ready once, at the first ready line, and never without one. */
  lemma {:induction false} ReadyIsCalledOnce(lines: seq<string>, shapes: Shapes)
    ensures Listening(lines, shapes) <==> exists line <- lines :: IsReady(line, shapes)
    ensures ReadyCalls(lines, shapes) == if exists line <- lines :: IsReady(line, shapes) then 1 else 0
    decreases |lines|
  {
    if lines != [] {
      ReadyIsCalledOnce(ButLast(lines), shapes);
      assert lines == ButLast(lines) + [Last(lines)];
    }
  }

  /** One line more: noise never passes; a ready line or a banner does not until the first ready line is past. */
  lemma StartupPassesExactly(lines: seq<string>, line: string, shapes: Shapes)
    ensures StartupKept(lines + [line], shapes) == StartupKept(lines, shapes) +
      if || shapes.startupNoise(line)
         || ((shapes.readyLine(line) || shapes.banner(line))
             && forall earlier <- lines :: shapes.startupNoise(earlier) || !shapes.readyLine(earlier))
      then [] else [line]
  {
    ReadyIsCalledOnce(lines, shapes);
    assert ButLast(lines + [line]) == lines;
  }
}
