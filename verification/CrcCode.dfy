/** Exactly which error patterns the check misses. */
module CrcCode {
  import opened Bits
  import opened Register
  import opened Crc

  // ----- two families of parities over the positions of a word

  /** Positions congruent to `r` or to `r + 3` modulo 9. */
  predicate NineMark(j: nat, r: nat) {
    j % 9 == r || j % 9 == r + 3
  }

  /** A maximal-length sequence of period 15: `s(j+4) = s(j+3) + s(j)`. */
  predicate MSequence(j: nat) {
    var k := j % 15;
    k == 3 || k == 4 || k == 5 || k == 6 || k == 8 || k == 10 || k == 11 || k == 14
  }

  predicate FifteenMark(j: nat, r: nat) {
    MSequence(j + r)
  }

  /** The parity of the set bits among the first `n` at positions marked for `r`. */
  function NineParity(e: seq<bool>, r: nat, n: nat): bool
    requires n <= |e|
  {
    n > 0 && (NineParity(e, r, n - 1) != (e[n - 1] && NineMark(n - 1, r)))
  }

  /** The parity of the set bits among the first `n` that meet the sequence, `r` places ahead. */
  function FifteenParity(e: seq<bool>, r: nat, n: nat): bool
    requires n <= |e|
  {
    n > 0 && (FifteenParity(e, r, n - 1) != (e[n - 1] && FifteenMark(n - 1, r)))
  }

  // ----- the same parities, read off the check register

  function NineTap(x: Reg, r: nat): bool
    requires r < 6
  {
    if r == 0 then (x.b0 != x.b6) != x.b9
    else if r == 1 then x.b5 != x.b8
    else if r == 2 then x.b4 != x.b7
    else if r == 3 then x.b3 != x.b6
    else if r == 4 then x.b2 != x.b5
    else x.b1 != x.b4
  }

  function FifteenTap(x: Reg, r: nat): bool
    requires r < 4
  {
    if r == 0 then (x.b0 != x.b1) != ((x.b2 != x.b3) != x.b7)
    else if r == 1 then (x.b1 != x.b2) != ((x.b3 != x.b4) != x.b8)
    else if r == 2 then ((x.b0 != x.b2) != (x.b3 != x.b4)) != (x.b5 != x.b9)
    else (x.b1 != x.b3) != ((x.b4 != x.b5) != x.b6)
  }

  // One lemma for each tap: the solver does not take the ten sums together.

  lemma NineTap0(x: Reg, y: Reg)
    ensures NineTap(x.Add(y), 0) == (NineTap(x, 0) != NineTap(y, 0))
  {
  }

  lemma NineTap1(x: Reg, y: Reg)
    ensures NineTap(x.Add(y), 1) == (NineTap(x, 1) != NineTap(y, 1))
  {
  }

  lemma NineTap2(x: Reg, y: Reg)
    ensures NineTap(x.Add(y), 2) == (NineTap(x, 2) != NineTap(y, 2))
  {
  }

  lemma NineTap3(x: Reg, y: Reg)
    ensures NineTap(x.Add(y), 3) == (NineTap(x, 3) != NineTap(y, 3))
  {
  }

  lemma NineTap4(x: Reg, y: Reg)
    ensures NineTap(x.Add(y), 4) == (NineTap(x, 4) != NineTap(y, 4))
  {
  }

  lemma NineTap5(x: Reg, y: Reg)
    ensures NineTap(x.Add(y), 5) == (NineTap(x, 5) != NineTap(y, 5))
  {
  }

  lemma FifteenTap0(x: Reg, y: Reg)
    ensures FifteenTap(x.Add(y), 0) == (FifteenTap(x, 0) != FifteenTap(y, 0))
  {
    AddFields(x, y);
    hide Reg.Add;
    FiveSums(x.b0, x.b1, x.b2, x.b3, x.b7, y.b0, y.b1, y.b2, y.b3, y.b7);
  }

  lemma FifteenTap1(x: Reg, y: Reg)
    ensures FifteenTap(x.Add(y), 1) == (FifteenTap(x, 1) != FifteenTap(y, 1))
  {
    AddFields(x, y);
    hide Reg.Add;
    FiveSums(x.b1, x.b2, x.b3, x.b4, x.b8, y.b1, y.b2, y.b3, y.b4, y.b8);
  }

  lemma FifteenTap2(x: Reg, y: Reg)
    ensures FifteenTap(x.Add(y), 2) == (FifteenTap(x, 2) != FifteenTap(y, 2))
  {
    AddFields(x, y);
    hide Reg.Add;
    SixSums(x.b0, x.b2, x.b3, x.b4, x.b5, x.b9, y.b0, y.b2, y.b3, y.b4, y.b5, y.b9);
  }

  lemma FifteenTap3(x: Reg, y: Reg)
    ensures FifteenTap(x.Add(y), 3) == (FifteenTap(x, 3) != FifteenTap(y, 3))
  {
    AddFields(x, y);
    hide Reg.Add;
    FiveSums(x.b1, x.b3, x.b4, x.b5, x.b6, y.b1, y.b3, y.b4, y.b5, y.b6);
  }

  lemma FiveSums(a: bool, b: bool, c: bool, d: bool, e: bool, a': bool, b': bool, c': bool, d': bool, e': bool)
    ensures (((a != a') != (b != b')) != (((c != c') != (d != d')) != (e != e')))
         == (((a != b) != ((c != d) != e)) != ((a' != b') != ((c' != d') != e')))
  {
  }

  lemma SixSums(a: bool, b: bool, c: bool, d: bool, e: bool, f: bool, a': bool, b': bool, c': bool, d': bool, e': bool, f': bool)
    ensures ((((a != a') != (b != b')) != ((c != c') != (d != d'))) != ((e != e') != (f != f')))
         == ((((a != b) != (c != d)) != (e != f)) != (((a' != b') != (c' != d')) != (e' != f')))
  {
  }

  lemma NineTapLinear(x: Reg, y: Reg, r: nat)
    requires r < 6
    ensures NineTap(x.Add(y), r) == (NineTap(x, r) != NineTap(y, r))
  {
    hide Reg.Add, NineTap;
    NineTap0(x, y);
    NineTap1(x, y);
    NineTap2(x, y);
    NineTap3(x, y);
    NineTap4(x, y);
    NineTap5(x, y);
  }

  lemma FifteenTapLinear(x: Reg, y: Reg, r: nat)
    requires r < 4
    ensures FifteenTap(x.Add(y), r) == (FifteenTap(x, r) != FifteenTap(y, r))
  {
    hide Reg.Add, FifteenTap;
    FifteenTap0(x, y);
    FifteenTap1(x, y);
    FifteenTap2(x, y);
    FifteenTap3(x, y);
  }

  /** The step of the register only turns the two families round. */
  lemma TapsStep(x: Reg)
    ensures NineTap(Step(x), 1) == NineTap(x, 0) && NineTap(Step(x), 2) == NineTap(x, 1) && NineTap(Step(x), 3) == NineTap(x, 2)
    ensures NineTap(Step(x), 4) == NineTap(x, 3) && NineTap(Step(x), 5) == NineTap(x, 4)
    ensures NineTap(Step(x), 0) == (NineTap(x, 2) != NineTap(x, 5))
    ensures FifteenTap(Step(x), 0) == FifteenTap(x, 1) && FifteenTap(Step(x), 1) == FifteenTap(x, 2) && FifteenTap(Step(x), 2) == FifteenTap(x, 3)
    ensures FifteenTap(Step(x), 3) == (FifteenTap(x, 3) != FifteenTap(x, 0))
  {
  }

  /** The ten parities determine the register. */
  lemma TapsDetermine(x: Reg)
    requires forall r :: 0 <= r < 6 ==> !NineTap(x, r)
    requires forall r :: 0 <= r < 4 ==> !FifteenTap(x, r)
    ensures x == ZERO
  {
    assert !NineTap(x, 0) && !NineTap(x, 1) && !NineTap(x, 2) && !NineTap(x, 3) && !NineTap(x, 4) && !NineTap(x, 5);
    assert !FifteenTap(x, 0) && !FifteenTap(x, 1) && !FifteenTap(x, 2) && !FifteenTap(x, 3);
  }

  /** The register holds what a set bit at position `j` contributes to every parity. */
  ghost predicate Marks(x: Reg, j: nat) {
    && (forall r :: 0 <= r < 6 ==> NineTap(x, r) == NineMark(j, r))
    && (forall r :: 0 <= r < 4 ==> FifteenTap(x, r) == FifteenMark(j, r))
  }

  /** Moving one position on moves the marks one class on. */
  lemma MarkNext(j: nat)
    ensures NineMark(j + 1, 1) == NineMark(j, 0) && NineMark(j + 1, 2) == NineMark(j, 1) && NineMark(j + 1, 3) == NineMark(j, 2)
    ensures NineMark(j + 1, 4) == NineMark(j, 3) && NineMark(j + 1, 5) == NineMark(j, 4)
    ensures NineMark(j + 1, 0) == (NineMark(j, 2) != NineMark(j, 5))
    ensures FifteenMark(j + 1, 0) == FifteenMark(j, 1) && FifteenMark(j + 1, 1) == FifteenMark(j, 2) && FifteenMark(j + 1, 2) == FifteenMark(j, 3)
    ensures FifteenMark(j + 1, 3) == (FifteenMark(j, 3) != FifteenMark(j, 0))
  {
    assert (j + 1) % 9 == if j % 9 == 8 then 0 else j % 9 + 1;
    MSequenceRecurrence(j);
  }

  lemma MSequenceRecurrence(j: nat)
    ensures MSequence(j + 4) == (MSequence(j + 3) != MSequence(j))
  {
    var k := j % 15;
    assert (j + 3) % 15 == if k < 12 then k + 3 else k - 12;
    assert (j + 4) % 15 == if k < 11 then k + 4 else k - 11;
  }

  lemma MarksStep(x: Reg, j: nat)
    requires Marks(x, j)
    ensures Marks(Step(x), j + 1)
  {
    hide Step, NineTap, FifteenTap, NineMark, FifteenMark;
    TapsStep(x);
    MarkNext(j);
  }

  lemma MarksUnique(x: Reg, y: Reg, j: nat)
    requires Marks(x, j) && Marks(y, j)
    ensures x == y
  {
    hide Reg.Add, NineTap, FifteenTap, NineMark, FifteenMark;
    forall r | 0 <= r < 6
      ensures !NineTap(x.Add(y), r)
    {
      NineTapLinear(x, y, r);
    }
    forall r | 0 <= r < 4
      ensures !FifteenTap(x.Add(y), r)
    {
      FifteenTapLinear(x, y, r);
    }
    TapsDetermine(x.Add(y));
    AddEqual(x, y);
  }

  lemma {:induction false} CrcopMarks(n: nat)
    requires n > 0
    ensures Marks(Crcop(n), n - 1)
  {
    if n == 1 {
      FirstColumn();
    } else {
      CrcopMarks(n - 1);
      MarksStep(Crcop(n - 1), n - 2);
    }
  }

  lemma FirstColumn()
    ensures Marks(Crcop(1), 0)
  {
    assert Crcop(1) == Step(Crcop(0));
  }

  lemma TopColumn()
    ensures Marks(TOP, PAYLOAD)
  {
  }

  /** Only the last check bit sits at the low end of the register. */
  lemma CheckBitEven(j: nat)
    requires j < CHECK - 1
    ensures !CheckBit(j).b0
  {
    assert !CheckBit(0).b0 && !CheckBit(1).b0 && !CheckBit(2).b0 && !CheckBit(3).b0 && !CheckBit(4).b0;
    assert !CheckBit(5).b0 && !CheckBit(6).b0 && !CheckBit(7).b0 && !CheckBit(8).b0;
  }

  lemma {:induction false} CheckBitMarks(j: nat)
    requires j < CHECK
    ensures Marks(CheckBit(j), PAYLOAD + j)
  {
    hide Marks, Step;
    if j == 0 {
      TopColumn();
    } else {
      CheckBitMarks(j - 1);
      CheckBitEven(j - 1);
      StepIsFeedback(CheckBit(j - 1));
      MarksStep(CheckBit(j - 1), PAYLOAD + j - 1);
    }
  }

  /** Every column of the check, payload and check bits alike, marks its own position. */
  lemma ColumnMarks(j: nat)
    requires j < WORD
    ensures Marks(Column(j), j)
  {
    if j < PAYLOAD {
      CrcopMarks(j + 1);
    } else {
      CheckBitMarks(j - PAYLOAD);
    }
  }

  /** The columns are successive states of one register: the code is cyclic, shortened. */
  lemma ColumnStep(j: nat)
    requires j + 1 < WORD
    ensures Column(j + 1) == Step(Column(j))
  {
    ColumnMarks(j);
    ColumnMarks(j + 1);
    MarksStep(Column(j), j);
    MarksUnique(Column(j + 1), Step(Column(j)), j + 1);
  }

  // ----- the exact list of undetected errors

  /** All ten parities of the set bits of `e` are even. */
  ghost predicate Balanced(e: seq<bool>) {
    && (forall r :: 0 <= r < 6 ==> !NineParity(e, r, |e|))
    && (forall r :: 0 <= r < 4 ==> !FifteenParity(e, r, |e|))
  }

  lemma PickTaps(b: bool, c: Reg)
    ensures forall r :: 0 <= r < 6 ==> NineTap(Pick(b, c), r) == (b && NineTap(c, r))
    ensures forall r :: 0 <= r < 4 ==> FifteenTap(Pick(b, c), r) == (b && FifteenTap(c, r))
  {
  }

  lemma {:induction false} TapsOfPartial(e: seq<bool>, n: nat)
    requires |e| == WORD && n <= WORD
    ensures forall r :: 0 <= r < 6 ==> NineTap(Partial(e, 0, n), r) == NineParity(e, r, n)
    ensures forall r :: 0 <= r < 4 ==> FifteenTap(Partial(e, 0, n), r) == FifteenParity(e, r, n)
  {
    if n > 0 {
      hide Reg.Add, NineTap, FifteenTap, NineMark, FifteenMark, Column;
      var x, c := Partial(e, 0, n - 1), Pick(e[n - 1], Column(n - 1));
      PickTaps(e[n - 1], Column(n - 1));
      TapsOfPartial(e, n - 1);
      ColumnMarks(n - 1);
      forall r | 0 <= r < 6
        ensures NineTap(x.Add(c), r) == NineParity(e, r, n)
      {
        NineTapLinear(x, c, r);
      }
      forall r | 0 <= r < 4
        ensures FifteenTap(x.Add(c), r) == FifteenParity(e, r, n)
      {
        FifteenTapLinear(x, c, r);
      }
    }
  }

  lemma SyndromeBalanced(e: seq<bool>)
    requires |e| == WORD
    ensures Syndrome(e) == ZERO <==> Balanced(e)
  {
    TapsOfPartial(e, WORD);
    if Balanced(e) {
      TapsDetermine(Syndrome(e));
    }
  }

  lemma {:induction false} PartialLinear(a: seq<bool>, e: seq<bool>, n: nat)
    requires |a| == |e| == WORD && n <= WORD
    ensures Partial(Xor(a, e), 0, n) == Partial(a, 0, n).Add(Partial(e, 0, n))
  {
    if n > 0 {
      PartialLinear(a, e, n - 1);
      var x, p, q, c := Partial(Xor(a, e), 0, n - 1), Partial(a, 0, n - 1), Partial(e, 0, n - 1), Column(n - 1);
      assert Partial(Xor(a, e), 0, n) == x.Add(Pick(a[n - 1] != e[n - 1], c)) == p.Add(Pick(a[n - 1], c)).Add(q.Add(Pick(e[n - 1], c))) by {
        AccumulateLinear(x, p, q, a[n - 1], e[n - 1], c);
      }
    }
  }

  lemma AccumulateLinear(x: Reg, p: Reg, q: Reg, a: bool, b: bool, c: Reg)
    requires x == p.Add(q)
    ensures x.Add(Pick(a != b, c)) == p.Add(Pick(a, c)).Add(q.Add(Pick(b, c)))
  {
    AddRegroup(p, q, Pick(a, c), Pick(b, c));
  }

  /** An error turns an accepted word into an accepted word exactly when its syndrome is zero. */
  lemma ErrorAccepted(w: seq<bool>, e: seq<bool>)
    requires |w| == |e| == WORD && Accepts(w)
    ensures Accepts(Xor(w, e)) <==> Syndrome(e) == ZERO
  {
    PartialLinear(w, e, WORD);
    var x := Syndrome(e);
    CancelAccepted(x);
  }

  lemma CancelAccepted(x: Reg)
    ensures ACCEPTED.Add(x) == ACCEPTED <==> x == ZERO
  {
  }

  /** The check misses a change of an accepted word exactly when the changed positions balance:
      modulo 9 they are even in number over `r` and `r + 3`, for every `r < 6`, and they meet each
      of four shifts of the period-15 sequence an even number of times. */
  lemma UndetectedIff(w: seq<bool>, e: seq<bool>)
    requires |w| == |e| == WORD && Accepts(w)
    ensures Accepts(Xor(w, e)) <==> Balanced(e)
  {
    ErrorAccepted(w, e);
    SyndromeBalanced(e);
  }
}
