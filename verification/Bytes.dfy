/** Bytes and the 32-bit words that both wire formats of this project carry. */
module Bytes {

  type Byte = b: int | 0 <= b < 256

  const TWO_32 := 0x1_0000_0000

  type U32 = n: int | 0 <= n < TWO_32

  /** Unsigned 32-bit truncation. */
  function Wrap(n: nat): U32 {
    if n < TWO_32 then n else Wrap(n - TWO_32)
  }

  lemma {:induction false} WrapIsMod(n: nat)
    ensures Wrap(n) == n % TWO_32
  {
    if n >= TWO_32 {
      WrapIsMod(n - TWO_32);
    }
  }

  /** The word at offset `at`, most significant byte first when `big`. */
  function GetU32(s: seq<Byte>, at: nat, big: bool): U32
    requires at + 4 <= |s|
  {
    if big then Word(s[at], s[at + 1], s[at + 2], s[at + 3])
    else Word(s[at + 3], s[at + 2], s[at + 1], s[at])
  }

  function Word(b3: int, b2: int, b1: int, b0: int): U32
    requires 0 <= b3 < 256 && 0 <= b2 < 256 && 0 <= b1 < 256 && 0 <= b0 < 256
  {
    b3 * 0x100_0000 + b2 * 0x1_0000 + b1 * 0x100 + b0
  }

  /** The data view's word read. */
  method ReadU32(bytes: array<Byte>, at: nat, big: bool) returns (word: U32)
    requires at + 4 <= bytes.Length
    ensures word == GetU32(bytes[..], at, big)
  {
    word := if big then Word(bytes[at], bytes[at + 1], bytes[at + 2], bytes[at + 3])
            else Word(bytes[at + 3], bytes[at + 2], bytes[at + 1], bytes[at]);
  }

  function PutU32(n: U32): (s: seq<Byte>)
    ensures |s| == 4
    ensures GetU32(s, 0, true) == n
  {
    var q1 := n / 0x100;
    var q2 := q1 / 0x100;
    [q2 / 0x100, q2 % 0x100, q1 % 0x100, n % 0x100]
  }

  function PutWords(words: seq<U32>): (s: seq<Byte>)
    ensures |s| == 4 * |words|
  {
    if words == [] then [] else PutU32(words[0]) + PutWords(words[1..])
  }

  lemma {:induction false} WordAt(words: seq<U32>, rest: seq<Byte>, i: nat)
    requires i < |words|
    ensures GetU32(PutWords(words) + rest, 4 * i, true) == words[i]
  {
    var s := PutWords(words) + rest;
    if i == 0 {
      assert s[0..4] == PutU32(words[0]);
      GetU32Slice(s, 0, 4, 0, true);
    } else {
      WordAt(words[1..], rest, i - 1);
      assert s[4..|s|] == PutWords(words[1..]) + rest;
      GetU32Slice(s, 4, |s|, 4 * (i - 1), true);
    }
  }

  lemma {:induction false} PutWordsConcat(a: seq<U32>, b: seq<U32>)
    ensures PutWords(a + b) == PutWords(a) + PutWords(b)
  {
    if a == [] {
      assert a + b == b;
    } else {
      assert (a + b)[1..] == a[1..] + b;
      PutWordsConcat(a[1..], b);
    }
  }

  /** A word read from a slice is the word read from the whole. */
  lemma GetU32Slice(s: seq<Byte>, from: nat, to: nat, at: nat, big: bool)
    requires from + at + 4 <= to <= |s|
    ensures GetU32(s[from..to], at, big) == GetU32(s, from + at, big)
  {
  }

  function Zeros(n: nat): (s: seq<Byte>)
    ensures |s| == n && forall i :: 0 <= i < n ==> s[i] == 0
  {
    seq(n, _ => 0)
  }

  /** The byte at `j`, reading zero past the end. */
  function ByteOrZero(s: seq<Byte>, j: nat): Byte {
    if j < |s| then s[j] else 0
  }

  /** The bits two numbers share. */
  function BitAnd(a: nat, b: nat): nat {
    if a == 0 || b == 0 then 0
    else 2 * BitAnd(a / 2, b / 2) + if a % 2 == 1 && b % 2 == 1 then 1 else 0
  }

  function TwoTo(k: nat): (n: nat)
    ensures n > 0
  {
    if k == 0 then 1 else 2 * TwoTo(k - 1)
  }

  lemma {:induction false} SharesWithItself(n: nat)
    ensures BitAnd(n, n) == n
  {
    if n > 0 {
      SharesWithItself(n / 2);
    }
  }

  /** Between one power of two and the next, only that power shares no bit with its predecessor. */
  lemma {:induction false} SharesNoBit(n: nat, k: nat)
    requires TwoTo(k) <= n < 2 * TwoTo(k)
    ensures BitAnd(n, n - 1) == 0 <==> n == TwoTo(k)
  {
    if k > 0 {
      SharesNoBit(n / 2, k - 1);
      if n % 2 == 0 {
        assert (n - 1) / 2 == n / 2 - 1;
      } else {
        assert (n - 1) / 2 == n / 2;
        SharesWithItself(n / 2);
      }
    }
  }
}
