/** Bits, bytes and words over GF(2), shared by the decoder modules. */
module Bits {

  /** One `char` of a sample stream. The slicer upstream only produces 0 and 1. */
  type Byte = x: int | 0 <= x < 256

  /** The value of `b & 0x01`. */
  function LowBit(b: Byte): (r: Byte) {
    b % 2
  }

  predicate IsSet(b: Byte) {
    LowBit(b) == 1
  }

  /** The stream bytes seen through the mask `& 0x01`. */
  function LowBits(s: seq<Byte>): (w: seq<bool>)
    ensures |w| == |s|
  {
    seq(|s|, i requires 0 <= i < |s| => IsSet(s[i]))
  }

  /** Addition over GF(2): flips the bits of `a` where `e` is set. */
  function Xor(a: seq<bool>, e: seq<bool>): (r: seq<bool>)
    requires |a| == |e|
    ensures |r| == |a|
  {
    seq(|a|, i requires 0 <= i < |a| => a[i] != e[i])
  }

  function Zeros(n: nat): (r: seq<bool>)
    ensures |r| == n
  {
    seq(n, _ => false)
  }

  /** The number of set bits. */
  function Weight(e: seq<bool>): nat {
    if e == [] then 0 else (if e[0] then 1 else 0) + Weight(e[1..])
  }

  /** The set bits of `e` all lie in the window of `len` positions that starts at `first`. */
  ghost predicate InWindow(e: seq<bool>, first: int, len: nat) {
    forall i :: 0 <= i < |e| && e[i] ==> first <= i < first + len
  }

  /** Delays a word by one position; the last bit falls off. */
  function Delay(e: seq<bool>): (r: seq<bool>)
    requires |e| > 0
    ensures |r| == |e|
  {
    [false] + e[..|e| - 1]
  }

  lemma {:induction false} WeightSplit(a: seq<bool>, b: seq<bool>)
    ensures Weight(a + b) == Weight(a) + Weight(b)
  {
    if a == [] {
      assert a + b == b;
    } else {
      WeightSplit(a[1..], b);
      assert (a + b)[1..] == a[1..] + b;
    }
  }

  /** Clearing a set bit lowers the weight by one. */
  lemma WeightClear(e: seq<bool>, i: nat)
    requires i < |e| && e[i]
    ensures Weight(e[i := false]) == Weight(e) - 1
  {
    var d := e[i := false];
    assert e == e[..i] + ([true] + e[i + 1..]) && d == e[..i] + ([false] + e[i + 1..]);
    WeightSplit(e[..i], [true] + e[i + 1..]);
    WeightSplit(e[..i], [false] + e[i + 1..]);
  }

  lemma {:induction false} WeightZero(e: seq<bool>)
    ensures Weight(e) == 0 <==> e == Zeros(|e|)
  {
    if e != [] {
      WeightZero(e[1..]);
      assert Zeros(|e|)[1..] == Zeros(|e| - 1);
      assert e == [e[0]] + e[1..];
      assert Zeros(|e|) == [false] + Zeros(|e| - 1);
    }
  }
}
