/** The syndrome decoder for single information bits (smartnet_ecc in smartnet_crc.cc). */
module Ecc {
  import opened Bits

  const FRAME := 76 // information and parity bits, alternating
  const INFO := 38  // information bits, the last one a guard bit
  const OUT := 37   // corrected bits

  function Info(f: seq<bool>, k: int): bool
    requires |f| == FRAME && k < INFO
  {
    k >= 0 && f[2 * k]
  }

  function Parity(f: seq<bool>, k: int): bool
    requires |f| == FRAME && 0 <= k < INFO
  {
    f[2 * k + 1]
  }

  /** The received parity bit `k` disagrees with information bits `k` and `k - 1`. */
  predicate Fault(f: seq<bool>, k: int)
    requires |f| == FRAME && 0 <= k < INFO
  {
    (Info(f, k) != Info(f, k - 1)) != Parity(f, k)
  }

  /** `Fault` by the position of the parity bit. */
  predicate FaultAt(f: seq<bool>, i: int)
    requires |f| == FRAME && 0 < i < FRAME
  {
    (f[i - 1] != (i >= 3 && f[i - 3])) != f[i]
  }

  /** An information bit is flipped when both parity bits that cover it disagree. */
  function Corrected(f: seq<bool>): (w: seq<bool>)
    requires |f| == FRAME
    ensures |w| == OUT
  {
    seq(OUT, k requires 0 <= k < OUT => Info(f, k) != (Fault(f, k) && Fault(f, k + 1)))
  }

  /** The output byte: the received byte as it came, or the flipped bit. */
  function CorrectedByte(b: seq<Byte>, k: nat): Byte
    requires |b| == FRAME && k < OUT
  {
    if FaultAt(LowBits(b), 2 * k + 1) && FaultAt(LowBits(b), 2 * k + 3) then (if IsSet(b[2 * k]) then 0 else 1) else b[2 * k]
  }

  lemma CorrectedBit(f: seq<bool>, k: nat)
    requires |f| == FRAME && k < OUT
    ensures Corrected(f)[k] == (f[2 * k] != (FaultAt(f, 2 * k + 1) && FaultAt(f, 2 * k + 3)))
    ensures (2 * k + 1) % 2 == 1 && (2 * k + 3) % 2 == 1
  {
    assert FaultAt(f, 2 * k + 1) == Fault(f, k) && FaultAt(f, 2 * k + 3) == Fault(f, k + 1);
  }

  /** What a sender transmits for 38 information bits: each followed by its parity with the one before. */
  function Encoded(info: seq<bool>): (f: seq<bool>)
    requires |info| == INFO
    ensures |f| == FRAME
    ensures forall k :: 0 <= k < INFO ==> Info(f, k) == info[k] && !Fault(f, k)
  {
    seq(FRAME, i requires 0 <= i < FRAME =>
      if i % 2 == 0 then info[i / 2] else info[i / 2] != (i / 2 > 0 && info[i / 2 - 1]))
  }

  /** The frame as it should be: information bits as received, each followed by the parity they call for. */
  function ExpectedBit(f: seq<bool>, i: nat): bool
    requires |f| == FRAME && i < FRAME
  {
    if i % 2 == 0 then f[i] else f[i - 1] != (i >= 3 && f[i - 3])
  }

  /** The source's `expected` buffer. */
  method ExpectedBits(inp: array<Byte>, mark: nat) returns (expected: array<Byte>)
    requires mark + FRAME <= inp.Length
    ensures fresh(expected) && expected.Length == FRAME
    ensures forall i :: 0 <= i < FRAME ==> expected[i] == if ExpectedBit(LowBits(inp[mark..mark + FRAME]), i) then 1 else 0
  {
    ghost var f := LowBits(inp[mark..mark + FRAME]);
    expected := new Byte[FRAME];
    expected[0] := LowBit(inp[mark]);
    expected[1] := LowBit(inp[mark]);
    var k := 2;
    // The bound in the source is twice the frame length; nothing beyond the frame is used.
    while k < FRAME
      invariant 2 <= k <= FRAME && k % 2 == 0
      invariant forall i :: 0 <= i < k ==> expected[i] == if ExpectedBit(f, i) then 1 else 0
    {
      assert f[k] == IsSet(inp[mark + k]) && f[k - 2] == IsSet(inp[mark + k - 2]);
      expected[k] := LowBit(inp[mark + k]);
      expected[k + 1] := if LowBit(inp[mark + k]) != LowBit(inp[mark + k - 2]) then 1 else 0;
      k := k + 2;
    }
  }

  /** The source's `syndrome` buffer: 1 where the parity bit received is not the one expected, 0 elsewhere. */
  method Syndromes(inp: array<Byte>, mark: nat) returns (syndrome: array<Byte>)
    requires mark + FRAME <= inp.Length
    ensures fresh(syndrome) && syndrome.Length == FRAME
    ensures forall j :: 0 <= j < FRAME ==>
      syndrome[j] == if j % 2 == 1 && FaultAt(LowBits(inp[mark..mark + FRAME]), j) then 1 else 0
  {
    ghost var f := LowBits(inp[mark..mark + FRAME]);
    var expected := ExpectedBits(inp, mark);
    syndrome := new Byte[FRAME];
    for i := 0 to FRAME
      invariant forall j :: 0 <= j < i ==> syndrome[j] == if j % 2 == 1 && FaultAt(f, j) then 1 else 0
      modifies syndrome
    {
      assert f[i] == IsSet(inp[mark + i]);
      syndrome[i] := if expected[i] != LowBit(inp[mark + i]) then 1 else 0;
    }
  }

  method CorrectFrame(out: array<Byte>, inp: array<Byte>, mark: nat)
    requires mark + FRAME <= inp.Length && out.Length == INFO && out != inp
    modifies out
    ensures LowBits(out[..OUT]) == Corrected(LowBits(inp[mark..mark + FRAME]))
    ensures forall k :: 0 <= k < OUT ==> out[k] == CorrectedByte(inp[mark..mark + FRAME], k)
    ensures forall k :: 0 <= k < OUT ==> out[k] == inp[mark + 2 * k] || (out[k] <= 1 && out[k] % 2 != inp[mark + 2 * k] % 2)
    ensures out[OUT] == old(out[OUT]) // the guard bit is never produced
  {
    hide Corrected, FaultAt;
    ghost var b := inp[mark..mark + FRAME];
    ghost var f := LowBits(b);
    var syndrome := Syndromes(inp, mark);
    for k := 0 to OUT
      invariant forall j :: 0 <= j < k ==> IsSet(out[j]) == Corrected(f)[j]
      invariant forall j :: 0 <= j < k ==> out[j] == CorrectedByte(b, j)
      invariant out[OUT] == old(out[OUT])
      modifies out
    {
      CorrectedBit(f, k);
      assert b[2 * k] == inp[mark + 2 * k];
      if syndrome[2 * k + 1] != 0 && syndrome[2 * k + 3] != 0 {
        out[k] := if LowBit(inp[mark + 2 * k]) != 0 then 0 else 1;
      } else {
        out[k] := inp[mark + 2 * k];
      }
    }
  }

  /** Decoding commutes with adding a transmitted frame: what remains of an error does not depend on the message. */
  lemma CorrectedTranslates(info: seq<bool>, e: seq<bool>)
    requires |info| == INFO && |e| == FRAME
    ensures Corrected(Xor(Encoded(info), e)) == Xor(info[..OUT], Corrected(e))
  {
    var f := Xor(Encoded(info), e);
    forall k | 0 <= k < INFO
      ensures Info(f, k) == (info[k] != Info(e, k)) && Fault(f, k) == Fault(e, k)
    {
      assert !Fault(Encoded(info), k);
      assert Info(Encoded(info), k) == info[k];
      assert k > 0 ==> Info(Encoded(info), k - 1) == info[k - 1];
    }
  }

  /** Exactly when output bit `k` is right, for every error pattern. */
  lemma BitRightIff(info: seq<bool>, e: seq<bool>, k: nat)
    requires |info| == INFO && |e| == FRAME && k < OUT
    ensures Corrected(Xor(Encoded(info), e))[k] == info[k] <==>
      if Info(e, k) then Info(e, k - 1) == Parity(e, k) && Info(e, k + 1) == Parity(e, k + 1)
      else Info(e, k - 1) == Parity(e, k) || Info(e, k + 1) == Parity(e, k + 1)
  {
    CorrectedTranslates(info, e);
  }
}
