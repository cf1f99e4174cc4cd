/** Few channel errors, wherever they fall: five are always repaired or rejected, six are too many. */
module FewErrors {
  import opened Bits
  import opened Crc
  import opened CrcCode
  import opened CrcDistance
  import opened CrcBurst
  import opened Ecc
  import opened Interleave
  import opened Channel
  import opened ChannelBurst

  /** The largest number of channel errors that is never mistaken for another word. */
  const SAFE_ERRORS := 5

  // ----- a wrong bit has its price

  /** The frame position `i` decides output bit `k`. */
  predicate Near(k: int, i: int) {
    2 * k - 2 <= i <= 2 * k + 3
  }

  /** Behind every wrong output bit there are two errors that decide it. */
  lemma WrongBitCostsTwo(e: seq<bool>, k: nat) returns (i: nat, j: nat)
    requires |e| == FRAME && k < WORD && Residual(e)[k]
    ensures i < j < FRAME && Near(k, i) && Near(k, j)
    ensures Deinterleaved(e)[i] && Deinterleaved(e)[j]
  {
    var f := Deinterleaved(e);
    assert Info(f, k) != (Fault(f, k) && Fault(f, k + 1));
    if Info(f, k) {
      if Info(f, k - 1) {
        i, j := 2 * k - 2, 2 * k;
      } else if Parity(f, k) {
        i, j := 2 * k, 2 * k + 1;
      } else if Info(f, k + 1) {
        i, j := 2 * k, 2 * k + 2;
      } else {
        i, j := 2 * k, 2 * k + 3;
      }
    } else {
      i := if Info(f, k - 1) then 2 * k - 2 else 2 * k + 1;
      j := if Info(f, k + 1) then 2 * k + 2 else 2 * k + 3;
    }
  }

  /** Frame positions come from different channel positions. */
  lemma SourceInjective(i: nat, j: nat)
    requires i < FRAME && j < FRAME && i != j
    ensures Source(i) < FRAME && Source(i) != Source(j)
  {
    SourceTarget(i);
    SourceTarget(j);
  }

  /** Taking out an error leaves the others. */
  lemma TakeOut(e: seq<bool>, i: nat) returns (d: seq<bool>)
    requires |e| == FRAME && i < FRAME && Deinterleaved(e)[i]
    ensures |d| == FRAME && Weight(d) == Weight(e) - 1
    ensures forall j :: 0 <= j < FRAME && j != i ==> Deinterleaved(d)[j] == Deinterleaved(e)[j]
  {
    SourceTarget(i);
    d := e[Source(i) := false];
    WeightClear(e, Source(i));
    forall j | 0 <= j < FRAME && j != i
      ensures Deinterleaved(d)[j] == Deinterleaved(e)[j]
    {
      SourceInjective(i, j);
    }
  }

  /** Three wrong bits at least three apart take six errors. */
  lemma ThreeWrongBits(e: seq<bool>, k: nat, m: nat, n: nat)
    requires |e| == FRAME && k + 3 <= m && m + 3 <= n < WORD
    requires Residual(e)[k] && Residual(e)[m] && Residual(e)[n]
    ensures Weight(e) >= 6
  {
    var i1, i2 := WrongBitCostsTwo(e, k);
    var i3, i4 := WrongBitCostsTwo(e, m);
    var i5, i6 := WrongBitCostsTwo(e, n);
    hide Deinterleaved, Residual;
    var d1 := TakeOut(e, i1);
    var d2 := TakeOut(d1, i2);
    var d3 := TakeOut(d2, i3);
    var d4 := TakeOut(d3, i4);
    var d5 := TakeOut(d4, i5);
    var d6 := TakeOut(d5, i6);
  }

  // ----- so few errors leave wrong bits in two short windows

  /** All set bits lie in the three positions from `k` on or in the three from `m` on. */
  ghost predicate InTwoWindows(r: seq<bool>, k: nat, m: nat) {
    forall i :: 0 <= i < |r| && r[i] ==> k <= i < k + 3 || m <= i < m + 3
  }

  /** A word without three set bits that are three apart fits into two windows of three. */
  lemma TwoWindows(r: seq<bool>) returns (k: nat, m: nat)
    requires |r| == WORD
    requires forall a, b, c :: 0 <= a && a + 3 <= b && b + 3 <= c < WORD ==> !(r[a] && r[b] && r[c])
    ensures k + 3 <= m <= WORD - 3 && InTwoWindows(r, k, m)
  {
    var a := FirstSet(r, 0);
    var b := FirstSet(r, if a + 3 <= WORD then a + 3 else WORD);
    m := if b <= WORD - 3 then b else WORD - 3;
    k := if a <= m - 3 then a else m - 3;
    forall i | 0 <= i < WORD && r[i]
      ensures k <= i < k + 3 || m <= i < m + 3
    {
      assert a <= i;
      if a + 3 <= i {
        assert b <= i;
        assert forall c :: b + 3 <= c < WORD ==> !(r[a] && r[b] && r[c]);
      }
    }
  }

  /** The first set bit from `at` on, or the length. */
  function FirstSet(r: seq<bool>, at: nat): (k: nat)
    requires at <= |r|
    ensures at <= k <= |r|
    ensures forall i :: at <= i < k ==> !r[i]
    ensures k < |r| ==> r[k]
    decreases |r| - at
  {
    if at == |r| || r[at] then at else FirstSet(r, at + 1)
  }

  // ----- two such windows are never balanced

  function NineTriple(r: seq<bool>, k: nat, c: nat): bool
    requires k + 3 <= |r|
  {
    ((r[k] && NineMark(k, c)) != (r[k + 1] && NineMark(k + 1, c))) != (r[k + 2] && NineMark(k + 2, c))
  }

  function FifteenTriple(r: seq<bool>, k: nat, c: nat): bool
    requires k + 3 <= |r|
  {
    ((r[k] && FifteenMark(k, c)) != (r[k + 1] && FifteenMark(k + 1, c))) != (r[k + 2] && FifteenMark(k + 2, c))
  }

  /** Clear positions do not change a parity. */
  lemma {:induction false} ParityGap(r: seq<bool>, c: nat, from: nat, to: nat)
    requires from <= to <= |r| && forall i :: from <= i < to ==> !r[i]
    ensures NineParity(r, c, to) == NineParity(r, c, from) && FifteenParity(r, c, to) == FifteenParity(r, c, from)
  {
    if from < to {
      ParityGap(r, c, from, to - 1);
    }
  }

  lemma ParityThree(r: seq<bool>, c: nat, k: nat)
    requires k + 3 <= |r|
    ensures NineParity(r, c, k + 3) == (NineParity(r, c, k) != NineTriple(r, k, c))
    ensures FifteenParity(r, c, k + 3) == (FifteenParity(r, c, k) != FifteenTriple(r, k, c))
  {
    assert NineParity(r, c, k + 2) == (NineParity(r, c, k + 1) != (r[k + 1] && NineMark(k + 1, c)));
    assert FifteenParity(r, c, k + 2) == (FifteenParity(r, c, k + 1) != (r[k + 1] && FifteenMark(k + 1, c)));
  }

  /** The parities of a word in two windows are those of its windows. */
  lemma ParityOfWindows(r: seq<bool>, c: nat, k: nat, m: nat)
    requires |r| == WORD && k + 3 <= m <= WORD - 3 && InTwoWindows(r, k, m)
    ensures NineParity(r, c, WORD) == (NineTriple(r, k, c) != NineTriple(r, m, c))
    ensures FifteenParity(r, c, WORD) == (FifteenTriple(r, k, c) != FifteenTriple(r, m, c))
  {
    hide NineMark, FifteenMark, NineTriple, FifteenTriple;
    ParityGap(r, c, 0, k);
    ParityThree(r, c, k);
    ParityGap(r, c, k + 3, m);
    ParityThree(r, c, m);
    ParityGap(r, c, m + 3, WORD);
  }

  /** The position of the window that lies in class `c` modulo 3. */
  function InClass(k: nat, c: nat): (p: nat)
    requires c < 3
    ensures k <= p < k + 3 && p % 3 == c
  {
    k + (c - k) % 3
  }

  /** Of three positions in a row only the one in class `c` has marks of that class. */
  lemma TripleInClass(r: seq<bool>, k: nat, c: nat, mark: nat)
    requires k + 3 <= |r| && c < 3 && (mark == c || mark == c + 3)
    ensures NineTriple(r, k, mark) == (r[InClass(k, c)] && NineMark(InClass(k, c), mark))
  {
    hide NineMark;
    forall p | k <= p < k + 3 && p % 3 != c
      ensures !NineMark(p, mark)
    {
      MarkOfClass(p, mark);
    }
  }

  lemma MarkOfClass(p: nat, mark: nat)
    requires mark < 6 && mark != p % 3 && mark != p % 3 + 3
    ensures !NineMark(p, mark)
  {
    NoMark(p);
  }

  /** The two marks of its class tell a position modulo 9. */
  lemma ClassMarks(p: nat, q: nat, c: nat)
    requires c < 3 && p % 3 == c && q % 3 == c
    requires NineMark(p, c) == NineMark(q, c) && NineMark(p, c + 3) == NineMark(q, c + 3)
    ensures p % 9 == q % 9
  {
    NineThree(p);
    NineThree(q);
    ThreeOf(p % 9);
    ThreeOf(q % 9);
  }

  /** In each class modulo 3 the windows of a balanced word have a bit both or neither, at a distance that is a multiple of 9. */
  lemma Paired(r: seq<bool>, k: nat, m: nat, c: nat)
    requires |r| == WORD && k + 3 <= m <= WORD - 3 && c < 3
    requires NineTriple(r, k, c) == NineTriple(r, m, c) && NineTriple(r, k, c + 3) == NineTriple(r, m, c + 3)
    ensures r[InClass(k, c)] == r[InClass(m, c)]
    ensures r[InClass(k, c)] ==> InClass(k, c) % 9 == InClass(m, c) % 9
  {
    var p, q := InClass(k, c), InClass(m, c);
    TripleInClass(r, k, c, c);
    TripleInClass(r, k, c, c + 3);
    TripleInClass(r, m, c, c);
    TripleInClass(r, m, c, c + 3);
    SomeMark(p);
    SomeMark(q);
    hide NineTriple, NineMark;
    if r[p] && r[q] {
      ClassMarks(p, q, c);
    }
  }

  /** The position of the second window that is paired with position `p` of the first. */
  function Partner(p: nat, m: nat): (q: nat)
    ensures m <= q < m + 3 && q % 3 == p % 3
  {
    InClass(m, p % 3)
  }

  lemma OwnClass(k: nat, i: nat)
    requires i < 3
    ensures InClass(k, (k + i) % 3) == k + i
  {
  }

  /** `Paired`, position by position. */
  lemma PairedAt(r: seq<bool>, k: nat, m: nat, p: nat)
    requires |r| == WORD && k + 3 <= m <= WORD - 3 && k <= p < k + 3 && InTwoWindows(r, k, m) && Balanced(r)
    ensures r[p] == r[Partner(p, m)]
    ensures r[p] ==> p % 9 == Partner(p, m) % 9
  {
    hide InTwoWindows, NineTriple;
    var c := p % 3;
    ParityOfWindows(r, c, k, m);
    ParityOfWindows(r, c + 3, k, m);
    assert !NineParity(r, c, WORD) && !NineParity(r, c + 3, WORD);
    Paired(r, k, m, c);
    OwnClass(k, p - k);
  }

  lemma NineApart(p: nat, q: nat)
    requires p < q < WORD && p % 9 == q % 9
    ensures q - p in {9, 18, 27, 36}
  {
    assert q - p == 9 * (q / 9 - p / 9);
  }

  /** Two distances that are multiples of 9 and differ by at most four are the same. */
  lemma OneDistance(c: int, d: int)
    requires c in {9, 18, 27, 36} && d in {9, 18, 27, 36} && -4 <= c - d <= 4
    ensures c == d
  {
  }

  /** All pairs of a balanced word in two windows are the same multiple of 9 apart. */
  lemma Distance(r: seq<bool>, k: nat, m: nat) returns (d: nat)
    requires |r| == WORD && k + 3 <= m <= WORD - 3 && InTwoWindows(r, k, m) && Balanced(r)
    ensures d in {9, 18, 27, 36}
    ensures forall p :: k <= p < k + 3 && r[p] ==> Partner(p, m) == p + d
  {
    hide InTwoWindows, Balanced, Partner;
    d := 9;
    if i: nat :| k <= i < k + 3 && r[i] {
      PairedAt(r, k, m, i);
      NineApart(i, Partner(i, m));
      d := Partner(i, m) - i;
      forall p | k <= p < k + 3 && r[p]
        ensures Partner(p, m) == p + d
      {
        PairedAt(r, k, m, p);
        NineApart(p, Partner(p, m));
        OneDistance(Partner(p, m) - p, d);
      }
    }
  }

  // ----- the second family

  /** The sequence and its copy `d` places on add up to a third copy, this many places on. */
  function ThirdCopy(d: nat): nat {
    if d == 9 then 2 else if d == 18 then 4 else if d == 27 then 1 else 8
  }

  lemma ShiftAndAdd(j: nat, d: nat)
    requires d in {9, 18, 27, 36}
    ensures (MSequence(j) != MSequence(j + d)) == MSequence(j + ThirdCopy(d))
  {
    hide MSequence;
    Period(j, 0);
    Period(j, d);
    Period(j, ThirdCopy(d));
    ThirdNine(j % 15);
    ThirdEighteen(j % 15);
    ThirdTwentySeven(j % 15);
    ThirdThirtySix(j % 15);
  }

  lemma Period(j: nat, d: nat)
    ensures MSequence(j + d) == MSequence(j % 15 + d)
  {
    assert (j + d) % 15 == (j % 15 + d) % 15;
  }

  lemma ThirdNine(k: nat)
    requires k < 15
    ensures (MSequence(k) != MSequence(k + 9)) == MSequence(k + 2)
  {
  }

  lemma ThirdEighteen(k: nat)
    requires k < 15
    ensures (MSequence(k) != MSequence(k + 18)) == MSequence(k + 4)
  {
  }

  lemma ThirdTwentySeven(k: nat)
    requires k < 15
    ensures (MSequence(k) != MSequence(k + 27)) == MSequence(k + 1)
  {
  }

  lemma ThirdThirtySix(k: nat)
    requires k < 15
    ensures (MSequence(k) != MSequence(k + 36)) == MSequence(k + 8)
  {
  }

  /** Four terms in a row are never all clear. */
  lemma NotAllClear(j: nat)
    ensures MSequence(j) || MSequence(j + 1) || MSequence(j + 2) || MSequence(j + 3)
  {
    var k := j % 15;
    assert (j + 1) % 15 == if k < 14 then k + 1 else k - 14;
    assert (j + 2) % 15 == if k < 13 then k + 2 else k - 13;
    assert (j + 3) % 15 == if k < 12 then k + 3 else k - 12;
  }

  /** The sum of the picked ones of three copies that are one place apart. */
  function CopySum(a: bool, b: bool, c: bool, j: nat): bool {
    ((a && MSequence(j)) != (b && MSequence(j + 1))) != (c && MSequence(j + 2))
  }

  /** Three copies one place apart are independent. */
  lemma CopiesIndependent(a: bool, b: bool, c: bool, j: nat)
    requires !CopySum(a, b, c, j) && !CopySum(a, b, c, j + 1) && !CopySum(a, b, c, j + 2) && !CopySum(a, b, c, j + 3)
    ensures !a && !b && !c
  {
    NotAllClear(j);
    MSequenceRecurrence(j);
    MSequenceRecurrence(j + 1);
    hide MSequence;
  }

  /** What the pair at `p` adds to a parity of the second family. */
  function PairMark(r: seq<bool>, p: nat, m: nat, c: nat): bool
    requires p < |r| && m + 3 <= |r|
  {
    r[Partner(p, m)] && FifteenMark(Partner(p, m), c)
  }

  /** The partners of the three positions of the first window are those of the second. */
  lemma TripleByPartners(r: seq<bool>, k: nat, m: nat, c: nat)
    requires k + 3 <= m && m + 3 <= |r|
    ensures FifteenTriple(r, m, c) == ((PairMark(r, k, m, c) != PairMark(r, k + 1, m, c)) != PairMark(r, k + 2, m, c))
  {
    hide FifteenMark;
    if (m - k) % 3 == 0 {
      assert Partner(k, m) == m && Partner(k + 1, m) == m + 1 && Partner(k + 2, m) == m + 2;
    } else if (m - k) % 3 == 1 {
      assert Partner(k + 1, m) == m && Partner(k + 2, m) == m + 1 && Partner(k, m) == m + 2;
    } else {
      assert Partner(k + 2, m) == m && Partner(k, m) == m + 1 && Partner(k + 1, m) == m + 2;
    }
  }

  /** A parity of the second family, with every pair replaced by one term of the third copy. */
  lemma PairsAsCopies(r: seq<bool>, k: nat, m: nat, d: nat, c: nat)
    requires |r| == WORD && k + 3 <= m <= WORD - 3 && InTwoWindows(r, k, m) && Balanced(r) && c < 4
    requires d in {9, 18, 27, 36} && forall p :: k <= p < k + 3 && r[p] ==> Partner(p, m) == p + d
    ensures !CopySum(r[k], r[k + 1], r[k + 2], k + c + ThirdCopy(d))
  {
    hide InTwoWindows, Partner, MSequence;
    ParityOfWindows(r, c, k, m);
    TripleByPartners(r, k, m, c);
    PairAsCopy(r, k, m, k, d, c);
    PairAsCopy(r, k, m, k + 1, d, c);
    PairAsCopy(r, k, m, k + 2, d, c);
    assert !FifteenParity(r, c, WORD);
    hide FifteenMark, PairMark, FifteenParity, Balanced, ThirdCopy;
  }

  lemma PairAsCopy(r: seq<bool>, k: nat, m: nat, p: nat, d: nat, c: nat)
    requires |r| == WORD && k + 3 <= m <= WORD - 3 && InTwoWindows(r, k, m) && Balanced(r) && k <= p < k + 3
    requires d in {9, 18, 27, 36} && (r[p] ==> Partner(p, m) == p + d)
    ensures ((r[p] && FifteenMark(p, c)) != PairMark(r, p, m, c)) == (r[p] && MSequence(p + c + ThirdCopy(d)))
  {
    hide InTwoWindows, Balanced, Partner, MSequence, ThirdCopy;
    PairedAt(r, k, m, p);
    ShiftAndAdd(p + c, d);
  }

  /** A balanced word never fits into two windows of three, unless it is zero. */
  lemma TwoWindowsUnbalanced(r: seq<bool>, k: nat, m: nat)
    requires |r| == WORD && k + 3 <= m <= WORD - 3 && InTwoWindows(r, k, m) && Balanced(r)
    ensures r == Zeros(WORD)
  {
    hide Balanced, CopySum, ThirdCopy;
    var d := Distance(r, k, m);
    PairsAsCopies(r, k, m, d, 0);
    PairsAsCopies(r, k, m, d, 1);
    PairsAsCopies(r, k, m, d, 2);
    PairsAsCopies(r, k, m, d, 3);
    CopiesIndependent(r[k], r[k + 1], r[k + 2], k + ThirdCopy(d));
    forall i | 0 <= i < WORD
      ensures !r[i]
    {
      if m <= i < m + 3 {
        OwnClass(m, i - m);
        PairedAt(r, k, m, InClass(k, i % 3));
      }
    }
  }

  // ----- end to end

  /** Up to five channel errors, wherever they fall, are either repaired or rejected. */
  lemma FewErrorsRepairedOrRejected(info: seq<bool>, e: seq<bool>)
    requires |info| == INFO && |e| == FRAME && Accepts(info[..WORD]) && Weight(e) <= SAFE_ERRORS
    ensures
      var w := Received(Xor(Transmitted(info), e));
      w == info[..WORD] || !Accepts(w)
  {
    hide Accepts, Transmitted, Received, Weight, Balanced, Residual;
    var r := Residual(e);
    forall a, b, c | 0 <= a && a + 3 <= b && b + 3 <= c < WORD
      ensures !(r[a] && r[b] && r[c])
    {
      if r[a] && r[b] && r[c] {
        ThreeWrongBits(e, a, b, c);
      }
    }
    var k, m := TwoWindows(r);
    ReceivedTranslates(info, e);
    UndetectedIff(info[..WORD], r);
    if Balanced(r) {
      TwoWindowsUnbalanced(r, k, m);
      assert Xor(info[..WORD], Zeros(WORD)) == info[..WORD];
    }
  }

  /** Exactly when a frame is misread: something is left of the error, and what is left is balanced. */
  lemma MisreadIff(info: seq<bool>, e: seq<bool>)
    requires |info| == INFO && |e| == FRAME && Accepts(info[..WORD])
    ensures Misread(info, Received(Xor(Transmitted(info), e))) <==> Residual(e) != Zeros(WORD) && Balanced(Residual(e))
  {
    hide Accepts, Transmitted, Received, Balanced, Residual;
    var w, r := info[..WORD], Residual(e);
    ReceivedTranslates(info, e);
    UndetectedIff(w, r);
    if r != Zeros(WORD) {
      assert exists i :: 0 <= i < WORD && r[i];
      var i :| 0 <= i < WORD && r[i];
      assert Xor(w, r)[i] != w[i];
    } else {
      assert Xor(w, r) == w;
    }
  }

  // ----- five is the limit

  /** Six channel errors. */
  function SixErrors(): (e: seq<bool>)
    ensures |e| == FRAME && forall i :: 0 <= i < FRAME ==> e[i] == (i in {4, 9, 18, 42, 65, 75})
  {
    Zeros(FRAME)[4 := true][9 := true][18 := true][42 := true][65 := true][75 := true]
  }

  lemma SixErrorsWeight()
    ensures Weight(SixErrors()) == 6
  {
    var e := SixErrors();
    hide Weight;
    var e1 := e[75 := false];
    var e2 := e1[65 := false];
    var e3 := e2[42 := false];
    var e4 := e3[18 := false];
    var e5 := e4[9 := false];
    var e6 := e5[4 := false];
    WeightClear(e, 75);
    WeightClear(e1, 65);
    WeightClear(e2, 42);
    WeightClear(e3, 18);
    WeightClear(e4, 9);
    WeightClear(e5, 4);
    assert e6 == Zeros(FRAME);
    WeightZero(e6);
  }

  /** Four of them hit information bits, two parity bits. */
  lemma SixErrorsBits(k: nat)
    requires k < INFO
    ensures InfoError(SixErrors(), k) == (k in {8, 9, 18, 36}) && ParityError(SixErrors(), k) == (k in {17, 37})
  {
    if k % 2 == 0 {
      assert k == 2 * (k / 2) && InfoAt(k) == k / 2;
    } else {
      assert k == 2 * (k / 2) + 1 && InfoAt(k) == k / 2 + 38;
    }
  }

  lemma SixErrorsResidual(k: nat)
    requires k < WORD
    ensures Residual(SixErrors())[k] == (k in {8, 9, 17, 36})
  {
    hide Residual, InfoError, ParityError;
    ResidualBit(SixErrors(), k);
    SixErrorsBits(k);
    SixErrorsBits(k + 1);
    if k > 0 {
      SixErrorsBits(k - 1);
    }
  }

  lemma FourCancelled()
    ensures forall c :: 0 <= c < 6 ==> NineSum(8, 9, 17, c) == NineMark(36, c)
    ensures forall c :: 0 <= c < 4 ==> FifteenSum(8, 9, 17, c) == FifteenMark(36, c)
  {
  }

  lemma SixErrorsBalanced()
    ensures Balanced(Residual(SixErrors()))
  {
    hide NineMark, FifteenMark, Weight, Residual;
    var e3 := Three(8, 9, 17);
    var e4 := e3[36 := true];
    ThreeParities(8, 9, 17);
    SetAddsMark(e3, 36, e4);
    FourCancelled();
    forall k | 0 <= k < WORD
      ensures Residual(SixErrors())[k] == e4[k]
    {
      SixErrorsResidual(k);
    }
    assert Residual(SixErrors()) == e4;
  }

  /** The limit is sharp: six errors turn every accepted word into another accepted word. */
  lemma ErrorLimitIsSharp(info: seq<bool>)
    requires |info| == INFO && Accepts(info[..WORD])
    ensures exists e :: |e| == FRAME && Weight(e) == SAFE_ERRORS + 1 && Misread(info, Received(Xor(Transmitted(info), e)))
  {
    hide Accepts, Transmitted, Received, Weight, Balanced, Residual, SixErrors, Misread;
    SixErrorsWeight();
    SixErrorsBalanced();
    SixErrorsResidual(8);
    assert Residual(SixErrors()) != Zeros(WORD);
    MisreadIff(info, SixErrors());
  }
}
