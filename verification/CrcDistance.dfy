/** The check detects every change of one, two or three bits. */
module CrcDistance {
  import opened Bits
  import opened Crc
  import opened CrcCode

  /** Clearing a set bit takes its mark out of every parity. */
  lemma {:induction false} ParityClear(e: seq<bool>, i: nat, n: nat)
    requires i < |e| && e[i] && n <= |e|
    ensures forall r :: 0 <= r < 6 ==>
      NineParity(e[i := false], r, n) == (NineParity(e, r, n) != (i < n && NineMark(i, r)))
    ensures forall r :: 0 <= r < 4 ==>
      FifteenParity(e[i := false], r, n) == (FifteenParity(e, r, n) != (i < n && FifteenMark(i, r)))
  {
    if n > 0 {
      ParityClear(e, i, n - 1);
    }
  }

  lemma {:induction false} ParityZeros(size: nat, n: nat)
    requires n <= size
    ensures forall r :: 0 <= r < 6 ==> !NineParity(Zeros(size), r, n)
    ensures forall r :: 0 <= r < 4 ==> !FifteenParity(Zeros(size), r, n)
  {
    if n > 0 {
      ParityZeros(size, n - 1);
    }
  }

  /** Some set bit, when the weight is not zero. */
  lemma SetBit(e: seq<bool>) returns (i: nat)
    requires Weight(e) > 0
    ensures i < |e| && e[i]
  {
    WeightZero(e);
    assert exists k :: 0 <= k < |e| && e[k] != Zeros(|e|)[k];
    i :| 0 <= i < |e| && e[i];
  }

  /** One mark is never balanced. */
  lemma OneMark(i: nat)
    ensures exists r :: 0 <= r < 6 && NineMark(i, r)
  {
    var r := if i % 9 < 6 then i % 9 else i % 9 - 3;
    assert NineMark(i, r);
  }

  /** The second family only sees residues modulo 15. */
  lemma SequenceResidue(j: nat, r: nat)
    ensures FifteenMark(j, r) == FifteenMark(j % 15, r)
  {
    assert (j + r) % 15 == (j % 15 + r) % 15;
  }

  /** Four successive terms of the sequence, as a number, give the residue back. */
  lemma SequenceWindow(k: nat)
    requires k < 15
    ensures k == [0, 0, 12, 1, 13, 7, 9, 2, 14, 11, 6, 8, 10, 5, 4, 3][
      (if FifteenMark(k, 0) then 8 else 0) + (if FifteenMark(k, 1) then 4 else 0)
      + (if FifteenMark(k, 2) then 2 else 0) + (if FifteenMark(k, 3) then 1 else 0)]
  {
  }

  /** Two marks balance only at a distance that is a multiple of 45, more than a word. */
  lemma TwoMarks(i: nat, k: nat)
    requires i < WORD && k < WORD
    requires forall r :: 0 <= r < 6 ==> NineMark(i, r) == NineMark(k, r)
    requires forall r :: 0 <= r < 4 ==> FifteenMark(i, r) == FifteenMark(k, r)
    ensures i == k
  {
    NineResidue(i, k);
    FifteenResidue(i, k);
    hide NineMark, FifteenMark;
    SameResidues(i, k);
  }

  lemma SameResidues(i: nat, k: nat)
    requires i < WORD && k < WORD && i % 9 == k % 9 && i % 15 == k % 15
    ensures i == k
  {
  }

  lemma FifteenResidue(i: nat, k: nat)
    requires forall r :: 0 <= r < 4 ==> FifteenMark(i, r) == FifteenMark(k, r)
    ensures i % 15 == k % 15
  {
    hide FifteenMark;
    SequenceResidue(i, 0); SequenceResidue(i, 1); SequenceResidue(i, 2); SequenceResidue(i, 3);
    SequenceResidue(k, 0); SequenceResidue(k, 1); SequenceResidue(k, 2); SequenceResidue(k, 3);
    SequenceWindow(i % 15);
    SequenceWindow(k % 15);
  }

  lemma NineResidue(i: nat, k: nat)
    requires forall r :: 0 <= r < 6 ==> NineMark(i, r) == NineMark(k, r)
    ensures i % 9 == k % 9
  {
    assert NineMark(i, 0) == NineMark(k, 0) && NineMark(i, 1) == NineMark(k, 1) && NineMark(i, 2) == NineMark(k, 2);
    assert NineMark(i, 3) == NineMark(k, 3) && NineMark(i, 4) == NineMark(k, 4) && NineMark(i, 5) == NineMark(k, 5);
  }

  /** Three marks never balance: the first family makes the positions congruent modulo 3,
      and then the second family has period 5 and only balances all five classes at once. */
  lemma ThreeMarks(i: nat, k: nat, m: nat)
    requires forall r :: 0 <= r < 6 ==> (NineMark(i, r) != NineMark(k, r)) == NineMark(m, r)
    ensures !(forall r :: 0 <= r < 4 ==> (FifteenMark(i, r) != FifteenMark(k, r)) == FifteenMark(m, r))
  {
    hide NineMark, FifteenMark;
    var a, b, c := i % 15, k % 15, m % 15;
    ThreeNineMarks(i, k, m);
    FifteenThree(i);
    FifteenThree(k);
    FifteenThree(m);
    var r := ThreeFifths(a, b, c);
    UnbalancedResidue(i, k, m, r);
    assert (FifteenMark(i, r) != FifteenMark(k, r)) != FifteenMark(m, r);
  }

  lemma FifteenThree(i: nat)
    ensures i % 15 % 3 == i % 3
  {
    assert i == 3 * (5 * (i / 15)) + i % 15;
  }

  lemma UnbalancedResidue(i: nat, k: nat, m: nat, r: nat)
    ensures Unbalanced(i % 15, k % 15, m % 15, r) == Unbalanced(i, k, m, r)
  {
    hide FifteenMark;
    SequenceResidue(i, r);
    SequenceResidue(k, r);
    SequenceResidue(m, r);
  }

  /** Some term of the sequence tells three positions of one class apart from a balance. */
  lemma ThreeFifths(a: nat, b: nat, c: nat) returns (r: nat)
    requires a < 15 && b < 15 && c < 15 && a % 3 == b % 3 == c % 3
    ensures r < 4 && Unbalanced(a, b, c, r)
  {
    if a % 3 == 0 {
      Fifths0(a, b, c);
    } else if a % 3 == 1 {
      Fifths1(a, b, c);
    } else {
      Fifths2(a, b, c);
    }
    hide Unbalanced;
    r := if Unbalanced(a, b, c, 0) then 0 else if Unbalanced(a, b, c, 1) then 1 else if Unbalanced(a, b, c, 2) then 2 else 3;
  }

  predicate Unbalanced(a: nat, b: nat, c: nat, r: nat) {
    (FifteenMark(a, r) != FifteenMark(b, r)) != FifteenMark(c, r)
  }

  lemma Fifths0(a: nat, b: nat, c: nat)
    requires a in {0, 3, 6, 9, 12} && b in {0, 3, 6, 9, 12} && c in {0, 3, 6, 9, 12}
    ensures Unbalanced(a, b, c, 0) || Unbalanced(a, b, c, 1) || Unbalanced(a, b, c, 2) || Unbalanced(a, b, c, 3)
  {
  }

  lemma Fifths1(a: nat, b: nat, c: nat)
    requires a in {1, 4, 7, 10, 13} && b in {1, 4, 7, 10, 13} && c in {1, 4, 7, 10, 13}
    ensures Unbalanced(a, b, c, 0) || Unbalanced(a, b, c, 1) || Unbalanced(a, b, c, 2) || Unbalanced(a, b, c, 3)
  {
  }

  lemma Fifths2(a: nat, b: nat, c: nat)
    requires a in {2, 5, 8, 11, 14} && b in {2, 5, 8, 11, 14} && c in {2, 5, 8, 11, 14}
    ensures Unbalanced(a, b, c, 0) || Unbalanced(a, b, c, 1) || Unbalanced(a, b, c, 2) || Unbalanced(a, b, c, 3)
  {
  }

  lemma ThreeNineMarks(i: nat, k: nat, m: nat)
    requires forall r :: 0 <= r < 6 ==> (NineMark(i, r) != NineMark(k, r)) == NineMark(m, r)
    ensures i % 3 == k % 3 == m % 3
  {
    var u, v, w := i % 3, k % 3, m % 3;
    SomeMark(i);
    SomeMark(k);
    SomeMark(m);
    NoMark(i);
    NoMark(k);
    NoMark(m);
    hide NineMark;
    assert (NineMark(i, u) != NineMark(k, u)) == NineMark(m, u) && (NineMark(i, u + 3) != NineMark(k, u + 3)) == NineMark(m, u + 3);
    assert (NineMark(i, v) != NineMark(k, v)) == NineMark(m, v) && (NineMark(i, v + 3) != NineMark(k, v + 3)) == NineMark(m, v + 3);
    assert (NineMark(i, w) != NineMark(k, w)) == NineMark(m, w) && (NineMark(i, w + 3) != NineMark(k, w + 3)) == NineMark(m, w + 3);
  }

  /** A position has a mark in its class modulo 3 ... */
  lemma SomeMark(i: nat)
    ensures NineMark(i, i % 3) || NineMark(i, i % 3 + 3)
  {
    NineThree(i);
    ThreeOf(i % 9);
  }

  /** ... and none in the others. */
  lemma NoMark(i: nat)
    ensures forall c :: 0 <= c < 3 && c != i % 3 ==> !NineMark(i, c)
    ensures forall c :: 3 <= c < 6 && c != i % 3 + 3 ==> !NineMark(i, c)
  {
    NineThree(i);
    ThreeOf(i % 9);
  }

  lemma NineThree(i: nat)
    ensures i % 9 % 3 == i % 3
  {
    assert i == 3 * (3 * (i / 9)) + i % 9;
  }

  lemma ThreeOf(a: nat)
    requires a < 9
    ensures a == a % 3 || a == a % 3 + 3 || a == a % 3 + 6
  {
  }

  /** No balanced pattern has one, two or three set bits. */
  lemma BalancedWeight(e: seq<bool>)
    requires |e| == WORD && Balanced(e) && e != Zeros(WORD)
    ensures Weight(e) >= 4
  {
    WeightZero(e);
    var i := SetBit(e);
    var e1 := e[i := false];
    WeightClear(e, i);
    ParityClear(e, i, WORD);
    if Weight(e1) == 0 {
      WeightZero(e1);
      ParityZeros(WORD, WORD);
      OneMark(i);
    } else if Weight(e1) < 3 {
      NotCancelled(e1, i);
    }
  }

  /** The parities of `e` are those of the single position `i`. */
  ghost predicate Cancels(e: seq<bool>, i: nat) {
    && (forall r :: 0 <= r < 6 ==> NineParity(e, r, |e|) == NineMark(i, r))
    && (forall r :: 0 <= r < 4 ==> FifteenParity(e, r, |e|) == FifteenMark(i, r))
  }

  /** One mark is not balanced by one or two others. */
  lemma NotCancelled(e: seq<bool>, i: nat)
    requires |e| == WORD && i < WORD && !e[i] && 1 <= Weight(e) <= 2
    ensures !Cancels(e, i)
  {
    hide NineMark, FifteenMark;
    var k := SetBit(e);
    var e2 := e[k := false];
    WeightClear(e, k);
    ParityClear(e, k, WORD);
    ParityZeros(WORD, WORD);
    if Weight(e2) == 0 {
      WeightZero(e2);
      if Cancels(e, i) {
        TwoMarks(i, k);
      }
    } else {
      var m := SetBit(e2);
      WeightClear(e2, m);
      ParityClear(e2, m, WORD);
      WeightZero(e2[m := false]);
      if Cancels(e, i) {
        ThreeMarks(i, k, m);
      }
    }
  }

  /** Two different words that the receiver accepts differ in at least four places. */
  lemma MinimumDistance(u: seq<bool>, v: seq<bool>)
    requires |u| == |v| == WORD && Accepts(u) && Accepts(v) && u != v
    ensures Weight(Xor(u, v)) >= 4
  {
    var e := Xor(u, v);
    assert Xor(u, e) == v;
    UndetectedIff(u, e);
    assert exists i :: 0 <= i < WORD && u[i] != v[i];
    assert e != Zeros(WORD);
    BalancedWeight(e);
  }
}
