/** Channel errors end to end: deinterleaver, syndrome decoder and check together. */
module Channel {
  import opened Bits
  import opened Crc
  import opened Ecc
  import opened Interleave

  /** The 76 channel bits for 37 word bits and a guard bit. */
  function Transmitted(info: seq<bool>): (c: seq<bool>)
    requires |info| == INFO
    ensures |c| == FRAME
  {
    Interleaved(Encoded(info))
  }

  /** What the receiver recovers from 76 channel bits. */
  function Received(c: seq<bool>): (w: seq<bool>)
    requires |c| == FRAME
    ensures |w| == WORD
  {
    Corrected(Deinterleaved(c))
  }

  /** The part of a channel error that survives correction. */
  function Residual(e: seq<bool>): (r: seq<bool>)
    requires |e| == FRAME
    ensures |r| == WORD
  {
    Received(e)
  }

  lemma ReceivedTranslates(info: seq<bool>, e: seq<bool>)
    requires |info| == INFO && |e| == FRAME
    ensures Received(Xor(Transmitted(info), e)) == Xor(info[..WORD], Residual(e))
  {
    DeinterleavedXor(Transmitted(info), e);
    RoundTrip(Encoded(info));
    CorrectedTranslates(info, Deinterleaved(e));
  }

  // ----- where the bits of a frame travel

  /** The channel position of information bit `k`: even bits in row 0, odd bits in row 2. */
  function InfoAt(k: nat): nat {
    k / 2 + k % 2 * 38
  }

  /** Errors on information bit `k`, none before the first. */
  predicate InfoError(e: seq<bool>, k: int)
    requires |e| == FRAME && k < INFO
  {
    k >= 0 && e[InfoAt(k)]
  }

  /** Errors on parity bit `k`: one row after its information bit. */
  predicate ParityError(e: seq<bool>, k: int)
    requires |e| == FRAME && 0 <= k < INFO
  {
    e[InfoAt(k) + COLUMNS]
  }

  lemma SourceOfBits(k: nat)
    requires k < INFO
    ensures Source(2 * k) == InfoAt(k) && Source(2 * k + 1) == InfoAt(k) + COLUMNS
  {
    var h := k / 2;
    if k % 2 == 0 {
      assert k == 2 * h;
      assert (2 * k) / ROWS == h && (2 * k) % ROWS == 0 && (2 * k + 1) / ROWS == h && (2 * k + 1) % ROWS == 1;
    } else {
      assert k == 2 * h + 1;
      assert (2 * k) / ROWS == h && (2 * k) % ROWS == 2 && (2 * k + 1) / ROWS == h && (2 * k + 1) % ROWS == 3;
    }
  }

  /** The residual error in terms of channel positions. */
  lemma ResidualBit(e: seq<bool>, k: nat)
    requires |e| == FRAME && k < WORD
    ensures Residual(e)[k] == (InfoError(e, k) != (
      && ((InfoError(e, k) != InfoError(e, k - 1)) != ParityError(e, k))
      && ((InfoError(e, k + 1) != InfoError(e, k)) != ParityError(e, k + 1))))
  {
    BitsOf(e, k);
    BitsOf(e, k + 1);
    if k > 0 {
      BitsOf(e, k - 1);
    }
    assert Residual(e)[k] == Corrected(Deinterleaved(e))[k];
  }

  lemma BitsOf(e: seq<bool>, k: nat)
    requires |e| == FRAME && k < INFO
    ensures Info(Deinterleaved(e), k) == InfoError(e, k) && Parity(Deinterleaved(e), k) == ParityError(e, k)
  {
    SourceOfBits(k);
  }

  // ----- errors that are always repaired

  /** Errors in columns at least two apart, any number of them. */
  ghost predicate Spread(e: seq<bool>) {
    forall i, j :: 0 <= i < j < |e| && e[i] && e[j] ==> i % COLUMNS - j % COLUMNS >= 2 || j % COLUMNS - i % COLUMNS >= 2
  }

  /** Two positions in the same or in neighbouring columns are not both hit. */
  lemma NotBoth(e: seq<bool>, i: nat, j: nat)
    requires |e| == FRAME && Spread(e) && i < FRAME && j < FRAME && i != j
    requires -1 <= i % COLUMNS - j % COLUMNS <= 1
    ensures !(e[i] && e[j])
  {
    if i > j {
      NotBoth(e, j, i);
    }
  }

  lemma Columns(k: nat)
    requires k < INFO
    ensures InfoAt(k) % COLUMNS == k / 2 && (InfoAt(k) + COLUMNS) % COLUMNS == k / 2
    ensures InfoAt(k) < FRAME - COLUMNS
  {
  }

  /** Of the four received bits from bit `k` on that decide output bit `k`, at most one is hit. */
  lemma SpreadAfter(e: seq<bool>, k: nat)
    requires |e| == FRAME && Spread(e) && k < WORD
    ensures InfoError(e, k) ==> !ParityError(e, k) && !InfoError(e, k + 1) && !ParityError(e, k + 1)
    ensures ParityError(e, k) ==> !InfoError(e, k + 1) && !ParityError(e, k + 1)
    ensures InfoError(e, k + 1) ==> !ParityError(e, k + 1)
  {
    hide Spread;
    Columns(k);
    Columns(k + 1);
    var i, p, j, q := InfoAt(k), InfoAt(k) + COLUMNS, InfoAt(k + 1), InfoAt(k + 1) + COLUMNS;
    assert i != j && i != q && p != j && p != q;
    NotBoth(e, i, p);
    NotBoth(e, i, j);
    NotBoth(e, i, q);
    NotBoth(e, p, j);
    NotBoth(e, p, q);
    NotBoth(e, j, q);
  }

  lemma SpreadBefore(e: seq<bool>, k: nat)
    requires |e| == FRAME && Spread(e) && 0 < k < WORD
    ensures InfoError(e, k - 1) ==>
      !InfoError(e, k) && !ParityError(e, k) && !InfoError(e, k + 1) && !ParityError(e, k + 1)
  {
    hide Spread, InfoAt;
    Columns(k - 1);
    Columns(k);
    Columns(k + 1);
    var h, i, j := InfoAt(k - 1), InfoAt(k), InfoAt(k + 1);
    Distinct(k);
    NotBoth(e, h, i);
    NotBoth(e, h, i + COLUMNS);
    NotBoth(e, h, j);
    NotBoth(e, h, j + COLUMNS);
  }

  lemma Distinct(k: nat)
    requires 0 < k < WORD
    ensures InfoAt(k - 1) != InfoAt(k) && InfoAt(k - 1) != InfoAt(k) + COLUMNS
    ensures InfoAt(k - 1) != InfoAt(k + 1) && InfoAt(k - 1) != InfoAt(k + 1) + COLUMNS
  {
  }

  /** Whatever their number, channel errors whose columns are pairwise two or more apart are all repaired. */
  lemma SpreadRepaired(info: seq<bool>, e: seq<bool>)
    requires |info| == INFO && |e| == FRAME && Spread(e)
    ensures Received(Xor(Transmitted(info), e)) == info[..WORD]
  {
    forall k | 0 <= k < WORD
      ensures !Residual(e)[k]
    {
      ResidualBit(e, k);
      SpreadAfter(e, k);
      if k > 0 {
        SpreadBefore(e, k);
      }
    }
    ReceivedTranslates(info, e);
  }

  /** The error touches parity bits of one row only. */
  ghost predicate InParityRow(e: seq<bool>, row: nat)
    requires |e| == FRAME
  {
    (row == 1 || row == 3) && InWindow(e, row * COLUMNS, COLUMNS)
  }

  /** Any errors within one parity row do no harm. */
  lemma ParityRowHarmless(info: seq<bool>, e: seq<bool>, row: nat)
    requires |info| == INFO && |e| == FRAME && InParityRow(e, row)
    ensures Received(Xor(Transmitted(info), e)) == info[..WORD]
  {
    forall k | 0 <= k < WORD
      ensures !Residual(e)[k]
    {
      ParityRowBit(e, row, k);
    }
    ReceivedTranslates(info, e);
  }

  /** No information bit is hit, and of two neighbouring parity bits at most one. */
  lemma ParityRowBit(e: seq<bool>, row: nat, k: nat)
    requires |e| == FRAME && InParityRow(e, row) && k < WORD
    ensures !Residual(e)[k]
  {
    ResidualBit(e, k);
    assert !InfoError(e, k) && !InfoError(e, k + 1) && !InfoError(e, k - 1);
    assert k % 2 == 0 ==> InfoAt(k) == k / 2 && InfoAt(k + 1) == k / 2 + 38;
    assert k % 2 == 1 ==> InfoAt(k) == k / 2 + 38 && InfoAt(k + 1) == k / 2 + 1;
  }
}
