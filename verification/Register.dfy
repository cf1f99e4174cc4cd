/** The ten-bit check register of the receiver, as a vector over GF(2). */
module Register {

  /** The value bits of an `unsigned int` below 0x400, most significant first. */
  datatype Reg = Reg(b9: bool, b8: bool, b7: bool, b6: bool, b5: bool, b4: bool, b3: bool, b2: bool, b1: bool, b0: bool) {

    /** `x ^ y` */
    function Add(y: Reg): Reg {
      Reg(b9 != y.b9, b8 != y.b8, b7 != y.b7, b6 != y.b6, b5 != y.b5,
          b4 != y.b4, b3 != y.b3, b2 != y.b2, b1 != y.b1, b0 != y.b0)
    }

    /** `x >> 1` */
    function Shr(): Reg {
      Reg(false, b9, b8, b7, b6, b5, b4, b3, b2, b1)
    }

    /** `x << 1`, the bit that leaves the register is lost */
    function Shl(): Reg {
      Reg(b8, b7, b6, b5, b4, b3, b2, b1, b0, false)
    }
  }

  const ZERO := Reg(false, false, false, false, false, false, false, false, false, false)
  const ONE := Reg(false, false, false, false, false, false, false, false, false, true)
  const TOP := Reg(true, false, false, false, false, false, false, false, false, false)        // 0x0200
  const FEEDBACK := Reg(true, false, false, false, true, false, false, true, false, true)    // 0x0225
  const CRCOP_START := Reg(true, true, false, true, true, false, true, true, true, false) // 0x036E
  const CRC_START := Reg(true, true, true, false, false, true, false, false, true, true)   // 0x0393
  const ALL_ONES := Reg(true, true, true, true, true, true, true, true, true, true)    // 0x03FF
  const ACCEPTED := Reg(false, false, false, true, true, false, true, true, false, false)    // 0x0393 ^ 0x03FF

  /** The register that holds the number `n`. */
  function Hex(n: nat): Reg
    requires n < 0x400
  {
    Reg(n / 512 % 2 == 1, n / 256 % 2 == 1, n / 128 % 2 == 1, n / 64 % 2 == 1, n / 32 % 2 == 1,
        n / 16 % 2 == 1, n / 8 % 2 == 1, n / 4 % 2 == 1, n / 2 % 2 == 1, n % 2 == 1)
  }

  /** One step of the feedback register, written as the linear map that it is. */
  function Step(x: Reg): Reg {
    Reg(x.b0, x.b9, x.b8, x.b7, x.b6 != x.b0, x.b5, x.b4, x.b3 != x.b0, x.b2, x.b1 != x.b0)
  }

  lemma Constants()
    ensures ZERO == Hex(0) && ONE == Hex(1) && FEEDBACK == Hex(0x225) && CRCOP_START == Hex(0x36E) && TOP == Hex(0x200)
    ensures CRC_START == Hex(0x393) && ALL_ONES == Hex(0x3FF)
    ensures ACCEPTED == CRC_START.Add(ALL_ONES)
  {
  }

  /** The map is the shift with conditional feedback 0x0225 of the receiver. */
  lemma StepIsFeedback(x: Reg)
    ensures Step(x) == if x.b0 then x.Shr().Add(FEEDBACK) else x.Shr()
  {
  }

  lemma StepLinear(x: Reg, y: Reg)
    ensures Step(x.Add(y)) == Step(x).Add(Step(y))
  {
  }

  /** The step loses nothing. */
  lemma StepInjective(x: Reg)
    ensures Step(x) == ZERO <==> x == ZERO
  {
    if Step(x) == ZERO {
      assert x.b0 == Step(x).b9;
    }
  }

  function Pick(b: bool, x: Reg): Reg {
    if b then x else ZERO
  }

  lemma AddAssociative(a: Reg, b: Reg, c: Reg)
    ensures a.Add(b).Add(c) == a.Add(b.Add(c))
  {
  }

  lemma AddRegroup(a: Reg, b: Reg, c: Reg, d: Reg)
    ensures a.Add(b).Add(c.Add(d)) == a.Add(c).Add(b.Add(d))
  {
  }

  lemma AddZero(a: Reg)
    ensures a.Add(ZERO) == a && ZERO.Add(a) == a
  {
  }

  lemma AddFields(a: Reg, b: Reg)
    ensures a.Add(b).b9 == (a.b9 != b.b9) && a.Add(b).b8 == (a.b8 != b.b8) && a.Add(b).b7 == (a.b7 != b.b7)
    ensures a.Add(b).b6 == (a.b6 != b.b6) && a.Add(b).b5 == (a.b5 != b.b5) && a.Add(b).b4 == (a.b4 != b.b4)
    ensures a.Add(b).b3 == (a.b3 != b.b3) && a.Add(b).b2 == (a.b2 != b.b2) && a.Add(b).b1 == (a.b1 != b.b1)
    ensures a.Add(b).b0 == (a.b0 != b.b0)
  {
  }

  lemma AddEqual(a: Reg, b: Reg)
    ensures a.Add(b) == ZERO <==> a == b
  {
    AddFields(a, b);
  }
}
