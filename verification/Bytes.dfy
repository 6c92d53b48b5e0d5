// Byte strings, and memcmp of monitor/string.c over them.

module Bytes {
  type Byte = x: int | 0 <= x < 256

  /** What the first different bytes say, the other way round than the C standard has it. */
  function Difference(s1: seq<Byte>, s2: seq<Byte>): int
    requires |s1| == |s2|
  {
    if s1 == [] then 0
    else if s1[0] != s2[0] then s2[0] - s1[0]
    else Difference(s1[1..], s2[1..])
  }

  lemma {:induction false} DifferenceIsZero(s1: seq<Byte>, s2: seq<Byte>)
    requires |s1| == |s2|
    ensures Difference(s1, s2) == 0 <==> s1 == s2
  {
    if s1 != [] {
      DifferenceIsZero(s1[1..], s2[1..]);
      assert s1 == [s1[0]] + s1[1..] && s2 == [s2[0]] + s2[1..];
    }
  }

  /** The first different bytes decide: the second one minus the first one. */
  lemma {:induction false} FirstDifference(s1: seq<Byte>, s2: seq<Byte>, i: nat)
    requires |s1| == |s2| && i < |s1| && s1[..i] == s2[..i] && s1[i] != s2[i]
    ensures Difference(s1, s2) == (s2[i] as int) - (s1[i] as int)
  {
    if i > 0 {
      assert s1[0] == s1[..i][0] && s2[0] == s2[..i][0];
      assert s1[1..][..i - 1] == s1[..i][1..] && s2[1..][..i - 1] == s2[..i][1..];
      FirstDifference(s1[1..], s2[1..], i - 1);
    }
  }

  /** Swapping the arguments swaps the sign. */
  lemma {:induction false} DifferenceSwaps(s1: seq<Byte>, s2: seq<Byte>)
    requires |s1| == |s2|
    ensures Difference(s1, s2) == -Difference(s2, s1)
  {
    if s1 != [] && s1[0] == s2[0] {
      DifferenceSwaps(s1[1..], s2[1..]);
    }
  }

  /** memcmp: the loop stops at the first difference. */
  method Memcmp(s1: seq<Byte>, s2: seq<Byte>, n: nat) returns (r: int)
    requires n <= |s1| && n <= |s2|
    ensures r == Difference(s1[..n], s2[..n])
    ensures r == 0 <==> s1[..n] == s2[..n]
  {
    DifferenceIsZero(s1[..n], s2[..n]);
    var i := 0;
    while i < n
      invariant 0 <= i <= n
      invariant Difference(s1[i..n], s2[i..n]) == Difference(s1[..n], s2[..n])
    {
      var diff := (s2[i] as int) - (s1[i] as int);
      if diff != 0 {
        return diff;
      }
      assert s1[i..n][1..] == s1[i + 1..n] && s2[i..n][1..] == s2[i + 1..n];
      i := i + 1;
    }
    return 0;
  }
}
