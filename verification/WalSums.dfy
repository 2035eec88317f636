/** The chained two-word checksum of a write-ahead log (SQLite Database File Format, section 4.2). */
module WalSums {
  import opened Bytes

  datatype Checksum = Checksum(s1: U32, s2: U32)

  const START := Checksum(0, 0)

  /** One 8-byte block. Both additions wrap at 2^32. */
  function Absorb(c: Checksum, first: U32, second: U32): Checksum {
    var s1 := Wrap(c.s1 + first + c.s2);
    Checksum(s1, Wrap(c.s2 + second + s1))
  }

  function Sum(big: bool, c: Checksum, bytes: seq<Byte>): Checksum
    decreases |bytes|
  {
    if |bytes| < 8 then c
    else Sum(big, Absorb(c, GetU32(bytes, 0, big), GetU32(bytes, 4, big)), bytes[8..])
  }

  /** A length made of whole 8-byte blocks. */
  ghost predicate WholeBlocks(n: nat) {
    n == 0 || (n >= 8 && WholeBlocks(n - 8))
  }

  lemma {:induction false} WholeBlocksExactly(n: nat)
    ensures WholeBlocks(n) <==> n % 8 == 0
  {
    if n >= 8 {
      WholeBlocksExactly(n - 8);
    }
  }

  lemma {:induction false} WholeBlocksAdd(m: nat, n: nat)
    requires WholeBlocks(m) && WholeBlocks(n)
    ensures WholeBlocks(m + n)
  {
    if m >= 8 {
      WholeBlocksAdd(m - 8, n);
    }
  }

  /** Summing a concatenation is resuming the sum: the chain over the header and
      each frame is one running checksum over all the bytes it covers. */
  lemma {:induction false} SumConcat(big: bool, c: Checksum, a: seq<Byte>, b: seq<Byte>)
    requires WholeBlocks(|a|)
    ensures Sum(big, c, a + b) == Sum(big, Sum(big, c, a), b)
    decreases |a|
  {
    if a == [] {
      assert a + b == b;
    } else {
      assert (a + b)[8..] == a[8..] + b;
      SumConcat(big, Absorb(c, GetU32(a, 0, big), GetU32(a, 4, big)), a[8..], b);
    }
  }

  /** Extending the summed range by one block absorbs that block. */
  lemma SumSnoc(big: bool, c: Checksum, s: seq<Byte>, from: nat, to: nat)
    requires from <= to && to + 8 <= |s| && WholeBlocks(to - from)
    ensures Sum(big, c, s[from..to + 8])
         == Absorb(Sum(big, c, s[from..to]), GetU32(s, to, big), GetU32(s, to + 4, big))
  {
    var block := s[to..to + 8];
    assert s[from..to + 8] == s[from..to] + block;
    SumConcat(big, c, s[from..to], block);
    assert block[8..] == [];
    GetU32Slice(s, to, to + 8, 0, big);
    GetU32Slice(s, to, to + 8, 4, big);
  }

  // ---- what the sum is ----

  function Fib(n: nat): nat {
    if n < 2 then n else Fib(n - 1) + Fib(n - 2)
  }

  /** Word `i` of the bytes: four of them, the most significant one first or last. */
  function WordOf(bytes: seq<Byte>, big: bool, i: nat): nat
    requires 4 * i + 4 <= |bytes|
  {
    var b: seq<int> := bytes[4 * i..4 * i + 4];
    if big then 0x100_0000 * b[0] + 0x1_0000 * b[1] + 0x100 * b[2] + b[3]
    else b[0] + 0x100 * b[1] + 0x1_0000 * b[2] + 0x100_0000 * b[3]
  }

  /** The first `k` words, word `i` weighted by the Fibonacci number of `n - i`. */
  function Weighted(bytes: seq<Byte>, big: bool, n: nat, k: nat): int
    requires k <= n && 4 * k <= |bytes|
  {
    if k == 0 then 0 else Weighted(bytes, big, n, k - 1) + Fib(n - (k - 1)) * WordOf(bytes, big, k - 1)
  }

  /** What `n` words add up to from a given start: the start weighs in like two words ahead of them. */
  function FibonacciSum(c: Checksum, bytes: seq<Byte>, big: bool, n: nat): int
    requires 4 * n <= |bytes|
  {
    Fib(n) * c.s1 + Fib(n + 1) * c.s2 + Weighted(bytes, big, n, n)
  }

  lemma WordIsRead(bytes: seq<Byte>, big: bool, i: nat)
    requires 4 * i + 4 <= |bytes|
    ensures WordOf(bytes, big, i) == GetU32(bytes, 4 * i, big)
  {
  }

  lemma Distributes(a: int, b: int, x: int)
    ensures (a + b) * x == a * x + b * x
  {
  }

  lemma {:induction false} WeightsAdd(bytes: seq<Byte>, big: bool, n: nat, k: nat)
    requires k <= n && 4 * k <= |bytes|
    ensures Weighted(bytes, big, n + 2, k) == Weighted(bytes, big, n + 1, k) + Weighted(bytes, big, n, k)
  {
    hide WordOf, Fib;
    if k > 0 {
      WeightsAdd(bytes, big, n, k - 1);
      FibStep(n - (k - 1));
      Distributes(Fib(n + 1 - (k - 1)), Fib(n - (k - 1)), WordOf(bytes, big, k - 1));
    }
  }

  lemma FibStep(n: nat)
    ensures Fib(n + 2) == Fib(n + 1) + Fib(n)
  {
  }

  lemma LastTwoWeights(bytes: seq<Byte>, big: bool, n: nat)
    requires 4 * n + 8 <= |bytes|
    ensures Weighted(bytes, big, n + 2, n + 2)
         == Weighted(bytes, big, n + 2, n) + WordOf(bytes, big, n) + WordOf(bytes, big, n + 1)
    ensures Weighted(bytes, big, n + 1, n + 1) == Weighted(bytes, big, n + 1, n) + WordOf(bytes, big, n)
  {
    hide WordOf;
    assert Fib(1) == 1 && Fib(2) == 1;
  }

  /** Each word is added to the two sums before it. */
  lemma SumGrows(c: Checksum, bytes: seq<Byte>, big: bool, n: nat)
    requires 4 * n + 8 <= |bytes|
    ensures FibonacciSum(c, bytes, big, n + 2)
         == FibonacciSum(c, bytes, big, n) + WordOf(bytes, big, n + 1) + FibonacciSum(c, bytes, big, n + 1)
  {
    hide WordOf, Weighted, Fib;
    WeightsAdd(bytes, big, n, n);
    LastTwoWeights(bytes, big, n);
    FibStep(n);
    FibStep(n + 1);
    Distributes(Fib(n + 1), Fib(n), c.s1);
    Distributes(Fib(n + 2), Fib(n + 1), c.s2);
  }

  lemma FirstSums(c: Checksum, bytes: seq<Byte>, big: bool)
    requires 4 <= |bytes|
    ensures FibonacciSum(c, bytes, big, 0) == c.s2
    ensures FibonacciSum(c, bytes, big, 1) == c.s1 + WordOf(bytes, big, 0) + c.s2
  {
    hide WordOf;
    assert Fib(0) == 0 && Fib(1) == 1 && Fib(2) == 1;
    assert Weighted(bytes, big, 1, 1) == Weighted(bytes, big, 1, 0) + Fib(1) * WordOf(bytes, big, 0);
  }

  lemma ModAdds(a: int, x: int, b: int)
    ensures (a % TWO_32 + x + b % TWO_32) % TWO_32 == (a + x + b) % TWO_32
  {
  }

  lemma AbsorbIsMod(c: Checksum, first: U32, second: U32)
    ensures var c' := Absorb(c, first, second);
      c'.s1 == (c.s1 + first + c.s2) % TWO_32 && c'.s2 == (c.s2 + second + c'.s1) % TWO_32
  {
    hide Wrap;
    WrapIsMod(c.s1 + first + c.s2);
    WrapIsMod(c.s2 + second + Absorb(c, first, second).s1);
  }

  lemma {:induction false} SumsOfFewer(bytes: seq<Byte>, big: bool, n: nat, k: nat, some: seq<Byte>)
    requires k <= n && 4 * k <= |some| <= |bytes| && some == bytes[..|some|]
    ensures Weighted(some, big, n, k) == Weighted(bytes, big, n, k)
  {
    hide Fib;
    if k > 0 {
      SumsOfFewer(bytes, big, n, k - 1, some);
      var at := 4 * (k - 1);
      assert some[at..at + 4] == bytes[at..at + 4];
      assert WordOf(some, big, k - 1) == WordOf(bytes, big, k - 1);
    }
  }

  /** Both halves are Fibonacci-weighted sums of all the words before them, modulo 2^32; the last word weighs one. */
  ghost predicate IsChecksum(sum: Checksum, c: Checksum, bytes: seq<Byte>, big: bool) {
    var n := |bytes| / 4;
    && |bytes| == 4 * n
    && sum.s2 == FibonacciSum(c, bytes, big, n) % TWO_32
    && sum.s1 == (if n == 0 then c.s1 else FibonacciSum(c, bytes, big, n - 1)) % TWO_32
  }

  /** The sum in closed form, over whole blocks. */
  lemma {:induction false} SumIsFibonacci(big: bool, c: Checksum, bytes: seq<Byte>)
    requires WholeBlocks(|bytes|)
    ensures IsChecksum(Sum(big, c, bytes), c, bytes, big)
    decreases |bytes|
  {
    hide FibonacciSum, Sum, Absorb, IsChecksum, WholeBlocks;
    if bytes == [] {
      NoWords(big, c, bytes);
    } else {
      LastBlockStarts(|bytes|);
      SumIsFibonacci(big, c, bytes[..|bytes| - 8]);
      OneBlockMore(big, c, bytes, |bytes| / 4 - 2);
    }
  }

  lemma LastBlockStarts(n: nat)
    requires WholeBlocks(n) && n > 0
    ensures n >= 8 && n == 4 * (n / 4 - 2) + 8 && WholeBlocks(n - 8) && WholeBlocks(4 * (n / 4 - 2))
  {
    assert n >= 8 && WholeBlocks(n - 8);
    hide WholeBlocks;
    WholeBlocksExactly(n);
    QuarterOf(n / 8, n);
  }

  lemma QuarterOf(q: nat, n: nat)
    requires n == 8 * q
    ensures n / 4 == 2 * q
  {
  }

  lemma OneBlockMore(big: bool, c: Checksum, bytes: seq<Byte>, m: nat)
    requires |bytes| == 4 * m + 8 && WholeBlocks(4 * m)
    requires IsChecksum(Sum(big, c, bytes[..|bytes| - 8]), c, bytes[..|bytes| - 8], big)
    ensures IsChecksum(Sum(big, c, bytes), c, bytes, big)
  {
    hide FibonacciSum, WordOf, GetU32, Sum, Absorb, Wrap;
    var before := bytes[..|bytes| - 8];
    LastBlock(big, c, bytes, m);
    FewerSum(c, bytes, big, m, before);
    SumGrows(c, bytes, big, m);
    if m == 0 {
      FirstSums(c, bytes, big);
    } else {
      FewerSum(c, bytes, big, m - 1, before);
      SumGrows(c, bytes, big, m - 1);
    }
    var a := if m == 0 then c.s1 else FibonacciSum(c, bytes, big, m - 1);
    ModAdds(a, WordOf(bytes, big, m), FibonacciSum(c, bytes, big, m));
    ModAdds(FibonacciSum(c, bytes, big, m), WordOf(bytes, big, m + 1), FibonacciSum(c, bytes, big, m + 1));
  }

  lemma NoWords(big: bool, c: Checksum, bytes: seq<Byte>)
    requires bytes == []
    ensures Sum(big, c, bytes) == c && IsChecksum(c, c, bytes, big)
  {
    assert Fib(0) == 0 && Fib(1) == 1;
  }

  lemma FewerSum(c: Checksum, bytes: seq<Byte>, big: bool, n: nat, some: seq<Byte>)
    requires 4 * n <= |some| <= |bytes| && some == bytes[..|some|]
    ensures FibonacciSum(c, some, big, n) == FibonacciSum(c, bytes, big, n)
  {
    SumsOfFewer(bytes, big, n, n, some);
  }

  lemma LastBlock(big: bool, c: Checksum, bytes: seq<Byte>, m: nat)
    requires |bytes| == 4 * m + 8 && WholeBlocks(4 * m)
    ensures var before, after := Sum(big, c, bytes[..|bytes| - 8]), Sum(big, c, bytes);
      && after.s1 == (before.s1 + WordOf(bytes, big, m) + before.s2) % TWO_32
      && after.s2 == (before.s2 + WordOf(bytes, big, m + 1) + after.s1) % TWO_32
  {
    hide Sum, Absorb, GetU32, WordOf, WholeBlocks;
    assert 4 * m - 0 == 4 * m;
    SumSnoc(big, c, bytes, 0, 4 * m);
    assert bytes[0..4 * m] == bytes[..|bytes| - 8] && bytes[0..4 * m + 8] == bytes;
    WordIsRead(bytes, big, m);
    WordIsRead(bytes, big, m + 1);
    AbsorbIsMod(Sum(big, c, bytes[..|bytes| - 8]), GetU32(bytes, 4 * m, big), GetU32(bytes, 4 * m + 4, big));
  }

  method WalChecksum(bytes: array<Byte>, offset: nat, length: nat, big: bool, initial: Checksum)
    returns (sum: Checksum)
    requires offset + length <= bytes.Length && WholeBlocks(length)
    ensures sum == Sum(big, initial, bytes[offset..offset + length])
    ensures IsChecksum(sum, initial, bytes[offset..offset + length], big)
  {
    hide GetU32, Wrap, IsChecksum, Sum;
    sum := initial;
    assert Sum(big, initial, []) == initial by { NoWords(big, initial, []); }
    ghost var all := bytes[..];
    assert all[offset..offset] == [];
    var cursor := offset;
    while cursor < offset + length
      invariant offset <= cursor <= offset + length
      invariant WholeBlocks(cursor - offset) && WholeBlocks(offset + length - cursor)
      invariant sum == Sum(big, initial, all[offset..cursor])
    {
      var first := ReadU32(bytes, cursor, big);
      var second := ReadU32(bytes, cursor + 4, big);
      SumSnoc(big, initial, all, offset, cursor);
      WholeBlocksAdd(8, cursor - offset);
      var s1 := Wrap(sum.s1 + first + sum.s2);
      sum := Checksum(s1, Wrap(sum.s2 + second + s1));
      cursor := cursor + 8;
    }
    assert all[offset..cursor] == bytes[offset..offset + length];
    SumIsFibonacci(big, initial, bytes[offset..offset + length]);
  }
}
