/** The check of a control-channel word: what it computes, and exactly what it misses. */
module Crc {
  import opened Bits
  import opened Register

  const PAYLOAD := 27 // information bits under the check
  const CHECK := 10   // check bits, sent inverted
  const WORD := 37    // both together

  /** The register `crcop` after `n` steps. */
  function Crcop(n: nat): Reg {
    if n == 0 then CRCOP_START else Step(Crcop(n - 1))
  }

  /** The place value of check bit `j`, most significant bit first. */
  function CheckBit(j: nat): Reg {
    if j == 0 then TOP else CheckBit(j - 1).Shr()
  }

  /** What bit `j` of a word contributes to the comparison when it is set. */
  function Column(j: nat): Reg
    requires j < WORD
  {
    if j < PAYLOAD then Crcop(j + 1) else CheckBit(j - PAYLOAD)
  }

  /** The sum of the columns of the set bits of `w[i..j]`. */
  function Partial(w: seq<bool>, i: nat, j: nat): Reg
    requires |w| == WORD && i <= j <= WORD
    decreases w, j - i
  {
    if i == j then ZERO else Partial(w, i, j - 1).Add(Pick(w[j - 1], Column(j - 1)))
  }

  function Syndrome(w: seq<bool>): Reg
    requires |w| == WORD
  {
    Partial(w, 0, WORD)
  }

  /** The words the receiver lets through: a coset of the code `Syndrome(e) == ZERO`. */
  predicate Accepts(w: seq<bool>)
    requires |w| == WORD
  {
    Syndrome(w) == ACCEPTED
  }

  // ----- the receiver's loop decides the linear form

  lemma {:induction false} PartialSplit(w: seq<bool>, i: nat, j: nat, k: nat)
    requires |w| == WORD && i <= j <= k <= WORD
    ensures Partial(w, i, k) == Partial(w, i, j).Add(Partial(w, j, k))
    decreases k - j
  {
    AddZero(Partial(w, i, j));
    if j < k {
      PartialSplit(w, i, j, k - 1);
      AddAssociative(Partial(w, i, j), Partial(w, j, k - 1), Pick(w[k - 1], Column(k - 1)));
    }
  }

  /** The first `j` inverted check bits read as a number, most significant bit first. */
  function Given(w: seq<bool>, j: nat): Reg
    requires |w| == WORD && j <= CHECK
    decreases w, j
  {
    if j == 0 then ZERO else Given(w, j - 1).Shl().Add(Pick(!w[PAYLOAD + j - 1], ONE))
  }

  /** `x` moved up by `n` places. */
  function Lift(x: Reg, n: nat): Reg
    decreases n
  {
    if n == 0 then x else Lift(x.Shl(), n - 1)
  }

  /** The sum of the first `j` place values. */
  function Ones(j: nat): Reg {
    if j == 0 then ZERO else Ones(j - 1).Add(CheckBit(j - 1))
  }

  lemma ShlLinear(x: Reg, y: Reg)
    ensures x.Add(y).Shl() == x.Shl().Add(y.Shl()) && ZERO.Shl() == ZERO
  {
  }

  lemma {:induction false} LiftLinear(x: Reg, y: Reg, n: nat)
    ensures Lift(x.Add(y), n) == Lift(x, n).Add(Lift(y, n)) && Lift(ZERO, n) == ZERO
    decreases n
  {
    if n > 0 {
      ShlLinear(x, y);
      hide Reg.Add, Reg.Shl;
      LiftLinear(x.Shl(), y.Shl(), n - 1);
    }
  }

  lemma CheckBitLift(j: nat)
    requires j < CHECK
    ensures CheckBit(j) == Lift(ONE, CHECK - 1 - j)
  {
    assert CheckBit(0) == Lift(ONE, 9) && CheckBit(1) == Lift(ONE, 8) && CheckBit(2) == Lift(ONE, 7);
    assert CheckBit(3) == Lift(ONE, 6) && CheckBit(4) == Lift(ONE, 5) && CheckBit(5) == Lift(ONE, 4);
    assert CheckBit(6) == Lift(ONE, 3) && CheckBit(7) == Lift(ONE, 2) && CheckBit(8) == Lift(ONE, 1) && CheckBit(9) == Lift(ONE, 0);
  }

  lemma {:induction false} GivenLift(w: seq<bool>, j: nat)
    requires |w| == WORD && j <= CHECK
    ensures Lift(Given(w, j), CHECK - j) == Ones(j).Add(Partial(w, PAYLOAD, PAYLOAD + j))
    decreases j
  {
    if j == 0 {
      LiftLinear(ZERO, ZERO, CHECK);
      AddZero(ZERO);
    } else {
      var b := w[PAYLOAD + j - 1];
      var place := CheckBit(j - 1);
      GivenLift(w, j - 1);
      LiftLinear(Given(w, j - 1).Shl(), Pick(!b, ONE), CHECK - j);
      CheckBitLift(j - 1);
      assert Lift(Pick(!b, ONE), CHECK - j) == place.Add(Pick(b, place));
      AddRegroup(Ones(j - 1), Partial(w, PAYLOAD, PAYLOAD + j - 1), place, Pick(b, place));
    }
  }

  /** The check computed from the payload. */
  method ExpectedCheck(inp: array<Byte>) returns (crcaccum: Reg)
    requires inp.Length >= WORD
    ensures crcaccum == CRC_START.Add(Partial(LowBits(inp[..WORD]), 0, PAYLOAD))
  {
    ghost var w := LowBits(inp[..WORD]);
    crcaccum := CRC_START;
    var crcop := CRCOP_START;
    for j := 0 to PAYLOAD
      invariant crcop == Crcop(j)
      invariant crcaccum == CRC_START.Add(Partial(w, 0, j))
    {
      ghost var before := crcop;
      if crcop.b0 {
        crcop := crcop.Shr().Add(FEEDBACK);
      } else {
        crcop := crcop.Shr();
      }
      StepIsFeedback(before);
      AddAssociative(CRC_START, Partial(w, 0, j), Pick(w[j], crcop));
      if LowBit(inp[j]) == 1 {
        crcaccum := crcaccum.Add(crcop);
      }
    }
  }

  /** The check the sender gave, inverted back. */
  method GivenCheck(inp: array<Byte>) returns (crcgiven: Reg)
    requires inp.Length >= WORD
    ensures crcgiven == Given(LowBits(inp[..WORD]), CHECK)
  {
    ghost var w := LowBits(inp[..WORD]);
    crcgiven := ZERO;
    for j := 0 to CHECK
      invariant crcgiven == Given(w, j)
    {
      crcgiven := crcgiven.Shl();
      if LowBit(inp[j + PAYLOAD]) == 0 {
        crcgiven := crcgiven.Add(ONE); // the low bit is clear after the shift
      }
    }
  }

  /** The receiver accepts exactly the words whose linear form has the fixed value. */
  method Check(inp: array<Byte>) returns (ok: bool)
    requires inp.Length >= WORD
    ensures ok == Accepts(LowBits(inp[..WORD]))
  {
    var crcaccum := ExpectedCheck(inp);
    var crcgiven := GivenCheck(inp);
    ok := crcgiven == crcaccum;
    AcceptsWhenEqual(LowBits(inp[..WORD]));
  }

  lemma AcceptsWhenEqual(w: seq<bool>)
    requires |w| == WORD
    ensures Accepts(w) <==> Given(w, CHECK) == CRC_START.Add(Partial(w, 0, PAYLOAD))
  {
    var p, q := Partial(w, 0, PAYLOAD), Partial(w, PAYLOAD, WORD);
    PartialSplit(w, 0, PAYLOAD, WORD);
    GivenLift(w, CHECK);
    assert Ones(10) == ALL_ONES;
    CheckRelation(p, q);
  }

  lemma CheckRelation(p: Reg, q: Reg)
    ensures p.Add(q) == ACCEPTED <==> ALL_ONES.Add(q) == CRC_START.Add(p)
  {
  }
}
