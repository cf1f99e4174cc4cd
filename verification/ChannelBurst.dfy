/** Error bursts on the channel: what deinterleaver, syndrome decoder and check do together. */
module ChannelBurst {
  import opened Bits
  import opened Register
  import opened Crc
  import opened CrcCode
  import opened CrcBurst
  import opened Ecc
  import opened Channel

  /** The longest burst that is never mistaken for another word. */
  const SAFE_BURST := 14

  /** The wrong flips that information errors cause: between two neighbours that are both hit. */
  function Between(d: seq<bool>): (r: seq<bool>)
    requires |d| == INFO
    ensures |r| == WORD
  {
    seq(WORD, k requires 0 <= k < WORD => k > 0 && d[k - 1] && d[k + 1])
  }

  function InfoErrors(e: seq<bool>): (d: seq<bool>)
    requires |e| == FRAME
    ensures |d| == INFO
  {
    seq(INFO, k requires 0 <= k < INFO => InfoError(e, k))
  }

  /** Every second bit of a window of 27. */
  ghost predicate Comb(d: seq<bool>, first: nat) {
    forall k :: 0 <= k < |d| && d[k] ==> first <= k <= first + 26 && (k - first) % 2 == 0
  }

  /** A short burst leaves exactly the flips between neighbouring information errors. */
  lemma BurstResidual(e: seq<bool>, first: nat, k: nat)
    requires |e| == FRAME && InWindow(e, first, SAFE_BURST) && k < WORD
    ensures Residual(e)[k] == Between(InfoErrors(e))[k]
  {
    ResidualBit(e, k);
    hide Residual;
    var h := k / 2;
    if k % 2 == 0 {
      assert InfoAt(k) == h && InfoAt(k + 1) == h + 38;
      assert k > 0 ==> InfoAt(k - 1) == h - 1 + 38;
    } else {
      assert InfoAt(k) == h + 38 && InfoAt(k + 1) == h + 1 && InfoAt(k - 1) == h;
    }
  }

  /** A short burst hits at most one row of information bits, in neighbouring columns. */
  lemma BurstComb(e: seq<bool>, first: nat)
    requires |e| == FRAME && InWindow(e, first, SAFE_BURST)
    ensures exists start :: Comb(InfoErrors(e), start)
  {
    var d := InfoErrors(e);
    var start := if first < 19 then 2 * first else if first < 38 then 1 else 2 * (first - 38) + 1;
    forall k | 0 <= k < INFO && d[k]
      ensures start <= k <= start + 26 && (k - start) % 2 == 0
    {
      var h := k / 2;
      assert InfoError(e, k);
      if k % 2 == 0 {
        assert k == 2 * h && InfoAt(k) == h;
      } else {
        assert k == 2 * h + 1 && InfoAt(k) == h + 38;
      }
    }
    assert Comb(d, start);
  }

  lemma BetweenDelay(d: seq<bool>)
    requires |d| == INFO && !d[INFO - 1]
    ensures Between(Delay(d)) == Delay(Between(d)) && !Between(d)[WORD - 1]
  {
    var b, c := Between(Delay(d)), Delay(Between(d));
    forall k | 0 <= k < WORD
      ensures b[k] == c[k]
    {
      if k > 1 {
        assert c[k] == Between(d)[k - 1] == (d[k - 2] && d[k]);
      }
    }
  }

  /** Wrong flips on a comb are never balanced: delay them to the end of the word, where ten
      columns at a time are independent and the rest would need a gap that two neighbours close. */
  lemma {:induction false} CombSyndrome(d: seq<bool>, start: nat)
    requires |d| == INFO && Comb(d, start) && Between(d) != Zeros(WORD)
    ensures Syndrome(Between(d)) != ZERO
    decreases INFO - start
  {
    var b := Between(d);
    assert exists k :: 0 <= k < WORD && b[k];
    var k :| 0 <= k < WORD && b[k];
    if d[INFO - 1] {
      LastComb(d, start);
    } else {
      BetweenDelay(d);
      SyndromeDelay(b);
      assert Delay(b)[k + 1];
      CombSyndrome(Delay(d), start + 1);
    }
  }

  /** Bits of a comb that ends at the guard bit, the last first. */
  function Tooth(d: seq<bool>, i: nat): bool
    requires |d| == INFO && i < 14
  {
    d[INFO - 1 - 2 * i]
  }

  function Flip(d: seq<bool>, i: nat): bool
    requires |d| == INFO && i < 13
  {
    Tooth(d, i) && Tooth(d, i + 1)
  }

  /** The parities of the flips on the comb, the first `n` of them. */
  function CombNine(d: seq<bool>, r: nat, n: nat): bool
    requires |d| == INFO && n <= 13
    decreases n
  {
    n > 0 && (CombNine(d, r, n - 1) != (Flip(d, n - 1) && NineMark(WORD - 1 - 2 * (n - 1), r)))
  }

  function CombFifteen(d: seq<bool>, r: nat, n: nat): bool
    requires |d| == INFO && n <= 13
    decreases n
  {
    n > 0 && (CombFifteen(d, r, n - 1) != (Flip(d, n - 1) && FifteenMark(WORD - 1 - 2 * (n - 1), r)))
  }

  lemma {:induction false} CombParity(d: seq<bool>, n: nat)
    requires |d| == INFO && Comb(d, 11) && n <= 13
    ensures forall r :: 0 <= r < 6 ==>
      NineParity(Between(d), r, WORD) == (NineParity(Between(d), r, WORD - 2 * n) != CombNine(d, r, n))
    ensures forall r :: 0 <= r < 4 ==>
      FifteenParity(Between(d), r, WORD) == (FifteenParity(Between(d), r, WORD - 2 * n) != CombFifteen(d, r, n))
  {
    if n > 0 {
      CombParity(d, n - 1);
      var m := WORD - 2 * (n - 1);
      assert Between(d)[m - 1] == Flip(d, n - 1) && !Between(d)[m - 2];
      ParityTwo(Between(d), m);
    }
  }

  /** Two positions back, the second of them clear. */
  lemma ParityTwo(b: seq<bool>, m: nat)
    requires 2 <= m <= |b| && !b[m - 2]
    ensures forall r :: 0 <= r < 6 ==> NineParity(b, r, m) == (NineParity(b, r, m - 2) != (b[m - 1] && NineMark(m - 1, r)))
    ensures forall r :: 0 <= r < 4 ==> FifteenParity(b, r, m) == (FifteenParity(b, r, m - 2) != (b[m - 1] && FifteenMark(m - 1, r)))
  {
  }

  lemma {:induction false} ParityPrefix(b: seq<bool>, n: nat)
    requires n <= |b| && forall k :: 0 <= k < n ==> !b[k]
    ensures forall r :: 0 <= r < 6 ==> !NineParity(b, r, n)
    ensures forall r :: 0 <= r < 4 ==> !FifteenParity(b, r, n)
  {
    if n > 0 {
      ParityPrefix(b, n - 1);
    }
  }

  lemma LastComb(d: seq<bool>, start: nat)
    requires |d| == INFO && Comb(d, start) && d[INFO - 1] && Between(d) != Zeros(WORD)
    ensures Syndrome(Between(d)) != ZERO
  {
    var b := Between(d);
    assert Comb(d, 11);
    CombParity(d, 13);
    ParityPrefix(b, 11);
    if Syndrome(b) == ZERO {
      SyndromeBalanced(b);
      NoFlips(d);
      var k :| 0 <= k < WORD && b[k];
      assert Flip(d, (WORD - 1 - k) / 2);
    }
  }

  // The marks of the comb, row by row.

  lemma NineRowsLow(d: seq<bool>)
    requires |d| == INFO
    ensures CombNine(d, 0, 13) == (((Flip(d, 0) != Flip(d, 3)) != Flip(d, 9)) != Flip(d, 12))
    ensures CombNine(d, 1, 13) == (Flip(d, 4) != Flip(d, 7))
    ensures CombNine(d, 2, 13) == ((Flip(d, 2) != Flip(d, 8)) != Flip(d, 11))
  {
  }

  lemma NineRowsHigh(d: seq<bool>)
    requires |d| == INFO
    ensures CombNine(d, 3, 13) == ((Flip(d, 3) != Flip(d, 6)) != Flip(d, 12))
    ensures CombNine(d, 4, 13) == ((Flip(d, 1) != Flip(d, 7)) != Flip(d, 10))
    ensures CombNine(d, 5, 13) == ((Flip(d, 2) != Flip(d, 5)) != Flip(d, 11))
  {
  }

  lemma FifteenRow0(d: seq<bool>)
    requires |d| == INFO
    ensures CombFifteen(d, 0, 13) == (((((Flip(d, 0) != Flip(d, 1)) != Flip(d, 5)) != Flip(d, 8)) != Flip(d, 9)) != Flip(d, 11))
  {
  }

  lemma FifteenRow1(d: seq<bool>)
    requires |d| == INFO
    ensures CombFifteen(d, 1, 13) == ((((((Flip(d, 1) != Flip(d, 2)) != Flip(d, 4)) != Flip(d, 6)) != Flip(d, 7)) != Flip(d, 8)) != Flip(d, 9))
  {
  }

  lemma FifteenRow2(d: seq<bool>)
    requires |d| == INFO
    ensures CombFifteen(d, 2, 13) == ((((((Flip(d, 0) != Flip(d, 1)) != Flip(d, 2)) != Flip(d, 6)) != Flip(d, 9)) != Flip(d, 10)) != Flip(d, 12))
  {
  }

  lemma FifteenRow3(d: seq<bool>)
    requires |d| == INFO
    ensures CombFifteen(d, 3, 13) == ((((((Flip(d, 2) != Flip(d, 3)) != Flip(d, 5)) != Flip(d, 7)) != Flip(d, 8)) != Flip(d, 9)) != Flip(d, 10))
  {
  }

  lemma NoFlips(d: seq<bool>)
    requires |d| == INFO && Tooth(d, 0)
    requires forall r :: 0 <= r < 6 ==> !CombNine(d, r, 13)
    requires forall r :: 0 <= r < 4 ==> !CombFifteen(d, r, 13)
    ensures forall i :: 0 <= i < 13 ==> !Flip(d, i)
  {
    NineRowsLow(d);
    NineRowsHigh(d);
    FifteenRow0(d);
    FifteenRow1(d);
    FifteenRow2(d);
    FifteenRow3(d);
  }

  /** End to end: a channel burst of up to fourteen bits is either repaired or rejected. */
  lemma BurstRepairedOrRejected(info: seq<bool>, e: seq<bool>, first: nat)
    requires |info| == INFO && |e| == FRAME && Accepts(info[..WORD])
    requires InWindow(e, first, SAFE_BURST)
    ensures
      var w := Received(Xor(Transmitted(info), e));
      w == info[..WORD] || !Accepts(w)
  {
    var d := InfoErrors(e);
    forall k | 0 <= k < WORD
      ensures Residual(e)[k] == Between(d)[k]
    {
      BurstResidual(e, first, k);
    }
    assert Residual(e) == Between(d);
    ReceivedTranslates(info, e);
    if Between(d) == Zeros(WORD) {
      assert Xor(info[..WORD], Zeros(WORD)) == info[..WORD];
    } else {
      BurstComb(e, first);
      var start: nat :| Comb(d, start);
      CombSyndrome(d, start);
      ErrorAccepted(info[..WORD], Between(d));
    }
  }

  // ----- fourteen is the limit

  /** A burst of fifteen channel bits. */
  function LongBurst(): (e: seq<bool>)
    ensures |e| == FRAME && InWindow(e, 42, SAFE_BURST + 1)
  {
    seq(FRAME, i requires 0 <= i < FRAME => 42 <= i < 57 && i != 44 && i != 48 && i != 50 && i != 53)
  }

  /** It hits odd information bits only. */
  lemma LongBurstErrors(k: nat)
    requires k < INFO
    ensures InfoError(LongBurst(), k) == (k in {9, 11, 15, 17, 19, 23, 27, 29, 33, 35, 37}) && !ParityError(LongBurst(), k)
  {
    if k % 2 == 0 {
      assert InfoAt(k) < 19;
    } else {
      assert k == 2 * (k / 2) + 1 && InfoAt(k) == k / 2 + 38;
    }
  }

  lemma LongBurstResidual(k: nat)
    requires k < WORD
    ensures Residual(LongBurst())[k] == (k in {10, 16, 18, 28, 34, 36})
  {
    ResidualBit(LongBurst(), k);
    LongBurstErrors(k);
    LongBurstErrors(k + 1);
    if k > 0 {
      LongBurstErrors(k - 1);
    }
  }

  lemma SixCancel()
    ensures forall r :: 0 <= r < 6 ==> NineSum(10, 16, 18, r) == NineSum(28, 34, 36, r)
    ensures forall r :: 0 <= r < 4 ==> FifteenSum(10, 16, 18, r) == FifteenSum(28, 34, 36, r)
  {
  }

  lemma SixPattern() returns (e: seq<bool>)
    ensures |e| == WORD && Balanced(e)
    ensures forall k :: 0 <= k < WORD ==> e[k] == (k in {10, 16, 18, 28, 34, 36})
  {
    hide NineMark, FifteenMark, Weight;
    var e3 := Three(10, 16, 18);
    var e4 := e3[28 := true];
    var e5 := e4[34 := true];
    e := e5[36 := true];
    assert Balanced(e) by {
      ThreeParities(10, 16, 18);
      SetAddsMark(e3, 28, e4);
      SetAddsMark(e4, 34, e5);
      SetAddsMark(e5, 36, e);
      SixCancel();
    }
  }

  lemma LongBurstBalanced()
    ensures Balanced(Residual(LongBurst()))
  {
    var e := SixPattern();
    forall k | 0 <= k < WORD
      ensures Residual(LongBurst())[k] == e[k]
    {
      LongBurstResidual(k);
    }
    assert Residual(LongBurst()) == e;
  }

  /** A word that passes the check and is not the one that was sent. */
  predicate Misread(info: seq<bool>, w: seq<bool>)
    requires |info| == INFO && |w| == WORD
  {
    w != info[..WORD] && Accepts(w)
  }

  /** The limit is sharp: one burst of fifteen turns every accepted word into another accepted word. */
  lemma BurstLimitIsSharp(info: seq<bool>)
    requires |info| == INFO && Accepts(info[..WORD])
    ensures exists e :: |e| == FRAME && InWindow(e, 42, SAFE_BURST + 1) && Misread(info, Received(Xor(Transmitted(info), e)))
  {
    var e := LongBurst();
    ReceivedTranslates(info, e);
    LongBurstBalanced();
    UndetectedIff(info[..WORD], Residual(e));
    LongBurstResidual(10);
    assert Received(Xor(Transmitted(info), e))[10] != info[..WORD][10];
  }
}
