/** Error bursts against the check, and patterns that show the limits are sharp. */
module CrcBurst {
  import opened Bits
  import opened Register
  import opened Crc
  import opened CrcCode
  import opened CrcDistance

  lemma {:induction false} PartialDelay(e: seq<bool>, n: nat)
    requires |e| == WORD && n < WORD
    ensures Partial(Delay(e), 0, n + 1) == Step(Partial(e, 0, n))
  {
    var d := Delay(e);
    if n == 0 {
      assert Partial(d, 0, 0) == ZERO;
    } else {
      PartialDelay(e, n - 1);
      ColumnStep(n - 1);
      StepAccumulate(Partial(d, 0, n), Partial(e, 0, n - 1), e[n - 1], Column(n - 1));
    }
  }

  lemma StepAccumulate(x: Reg, p: Reg, b: bool, c: Reg)
    requires x == Step(p)
    ensures x.Add(Pick(b, Step(c))) == Step(p.Add(Pick(b, c)))
  {
    StepLinear(p, Pick(b, c));
  }

  /** Delaying an error that leaves the last position free does not change whether it is caught. */
  lemma SyndromeDelay(e: seq<bool>)
    requires |e| == WORD && !e[WORD - 1]
    ensures Syndrome(Delay(e)) == Step(Syndrome(e))
    ensures Syndrome(Delay(e)) == ZERO <==> Syndrome(e) == ZERO
  {
    PartialDelay(e, WORD - 1);
    AddZero(Partial(e, 0, WORD - 1));
    StepInjective(Syndrome(e));
  }

  /** Among the check columns only the last one reaches the low end of the register. */
  lemma {:induction false} PartialLowEnd(e: seq<bool>, n: nat)
    requires |e| == WORD && n <= WORD
    requires forall i :: 0 <= i < PAYLOAD ==> !e[i]
    ensures Partial(e, 0, n).b0 == (n == WORD && e[WORD - 1])
  {
    if n > 0 {
      hide Crcop, CheckBit, Column;
      PartialLowEnd(e, n - 1);
      LowEndStep(e, n);
      if n > PAYLOAD {
        ColumnLowEnd(n - 1);
      }
    }
  }

  lemma LowEndStep(e: seq<bool>, n: nat)
    requires |e| == WORD && 0 < n <= WORD
    ensures Partial(e, 0, n).b0 == (Partial(e, 0, n - 1).b0 != (e[n - 1] && Column(n - 1).b0))
  {
    hide Column;
  }

  lemma ColumnLowEnd(j: nat)
    requires PAYLOAD <= j < WORD
    ensures Column(j).b0 == (j == WORD - 1)
  {
    hide CheckBit;
    if j < WORD - 1 {
      CheckBitEven(j - PAYLOAD);
    } else {
      LastCheckBit();
    }
  }

  lemma LastCheckBit()
    ensures CheckBit(CHECK - 1) == ONE
  {
    assert CheckBit(9) == ONE;
  }

  /** A non-empty error burst of at most ten bits has a syndrome: delay it until it ends at the
      last position, where it lies in the check bits alone. */
  lemma {:induction false} BurstSyndrome(e: seq<bool>, first: nat)
    requires |e| == WORD && InWindow(e, first, CHECK) && e != Zeros(WORD)
    ensures Syndrome(e) != ZERO
    decreases WORD - first
  {
    assert exists i :: 0 <= i < WORD && e[i];
    if e[WORD - 1] {
      PartialLowEnd(e, WORD);
    } else {
      var i :| 0 <= i < WORD && e[i];
      var d := Delay(e);
      SyndromeDelay(e);
      assert d[i + 1];
      BurstSyndrome(d, first + 1);
    }
  }

  /** The receiver rejects every change of an accepted word inside ten consecutive bits. */
  lemma BurstRejected(w: seq<bool>, e: seq<bool>, first: nat)
    requires |w| == |e| == WORD && Accepts(w)
    requires InWindow(e, first, CHECK) && e != Zeros(WORD)
    ensures !Accepts(Xor(w, e))
  {
    ErrorAccepted(w, e);
    BurstSyndrome(e, first);
  }

  // ----- both limits are sharp, at every accepted word

  /** `d` is `e` with one more bit set, at position `i`. */
  ghost predicate Sets(e: seq<bool>, i: nat, d: seq<bool>) {
    i < |e| && !e[i] && d == e[i := true]
  }

  /** Setting a clear bit adds its mark. */
  lemma SetAddsMark(e: seq<bool>, i: nat, d: seq<bool>)
    requires Sets(e, i, d)
    ensures Weight(d) == Weight(e) + 1
    ensures forall r :: 0 <= r < 6 ==> NineParity(d, r, |d|) == (NineParity(e, r, |e|) != NineMark(i, r))
    ensures forall r :: 0 <= r < 4 ==> FifteenParity(d, r, |d|) == (FifteenParity(e, r, |e|) != FifteenMark(i, r))
  {
    assert d[i := false] == e;
    WeightClear(d, i);
    ParityClear(d, i, |d|);
  }

  /** The three marks of positions `i`, `k` and `m` in sum. */
  function NineSum(i: nat, k: nat, m: nat, r: nat): bool {
    (NineMark(i, r) != NineMark(k, r)) != NineMark(m, r)
  }

  function FifteenSum(i: nat, k: nat, m: nat, r: nat): bool {
    (FifteenMark(i, r) != FifteenMark(k, r)) != FifteenMark(m, r)
  }

  /** The error with exactly the bits `i`, `k` and `m` set. */
  function Three(i: nat, k: nat, m: nat): (e: seq<bool>)
    requires i < k < m < WORD
    ensures |e| == WORD && forall j :: 0 <= j < WORD ==> e[j] == (j == i || j == k || j == m)
  {
    Zeros(WORD)[i := true][k := true][m := true]
  }

  lemma ThreeParities(i: nat, k: nat, m: nat)
    requires i < k < m < WORD
    ensures Weight(Three(i, k, m)) == 3
    ensures forall r :: 0 <= r < 6 ==> NineParity(Three(i, k, m), r, WORD) == NineSum(i, k, m, r)
    ensures forall r :: 0 <= r < 4 ==> FifteenParity(Three(i, k, m), r, WORD) == FifteenSum(i, k, m, r)
  {
    var e0 := Zeros(WORD);
    WeightZero(e0);
    ParityZeros(WORD, WORD);
    SetAddsMark(e0, i, e0[i := true]);
    SetAddsMark(e0[i := true], k, e0[i := true][k := true]);
    SetAddsMark(e0[i := true][k := true], m, Three(i, k, m));
  }

  lemma FourCancel()
    ensures forall r :: 0 <= r < 6 ==> NineSum(0, 1, 9, r) == NineMark(28, r)
    ensures forall r :: 0 <= r < 4 ==> FifteenSum(0, 1, 9, r) == FifteenMark(28, r)
  {
  }

  lemma FourPattern() returns (e: seq<bool>)
    ensures |e| == WORD && Weight(e) == 4 && Balanced(e)
  {
    hide NineMark, FifteenMark;
    var e3 := Three(0, 1, 9);
    e := e3[28 := true];
    ThreeParities(0, 1, 9);
    SetAddsMark(e3, 28, e);
    FourCancel();
  }

  /** Changing bits 0, 1, 9 and 28 of any accepted word goes unnoticed. */
  lemma DistanceFourIsSharp(w: seq<bool>)
    requires |w| == WORD && Accepts(w)
    ensures exists v :: |v| == WORD && Accepts(v) && Weight(Xor(w, v)) == 4
  {
    var e := FourPattern();
    UndetectedIff(w, e);
    XorTwice(w, e);
  }

  lemma XorTwice(w: seq<bool>, e: seq<bool>)
    requires |w| == |e|
    ensures Xor(w, Xor(w, e)) == e
  {
  }

  lemma FiveCancel()
    ensures forall r :: 0 <= r < 6 ==> NineSum(26, 30, 33, r) == (NineMark(35, r) != NineMark(36, r))
    ensures forall r :: 0 <= r < 4 ==> FifteenSum(26, 30, 33, r) == (FifteenMark(35, r) != FifteenMark(36, r))
  {
  }

  lemma FivePattern() returns (e: seq<bool>)
    ensures |e| == WORD && Balanced(e)
    ensures e[PAYLOAD - 1] && InWindow(e, PAYLOAD - 1, CHECK + 1)
  {
    hide NineMark, FifteenMark, Weight;
    var e3 := Three(26, 30, 33);
    var e4 := e3[35 := true];
    e := e4[36 := true];
    ThreeParities(26, 30, 33);
    SetAddsMark(e3, 35, e4);
    SetAddsMark(e4, 36, e);
    FiveCancel();
  }

  /** Changing bits 26, 30, 33, 35 and 36, a burst of eleven, goes unnoticed as well. */
  lemma TenBitBurstIsSharp(w: seq<bool>)
    requires |w| == WORD && Accepts(w)
    ensures exists v :: |v| == WORD && Accepts(v) && v != w && InWindow(Xor(w, v), PAYLOAD - 1, CHECK + 1)
  {
    var e := FivePattern();
    UndetectedIff(w, e);
    XorTwice(w, e);
    assert Xor(w, e)[PAYLOAD - 1] != w[PAYLOAD - 1];
  }
}
