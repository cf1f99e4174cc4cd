/** The 4 x 19 block interleaver (smartnet_deinterleave.cc). */
module Interleave {
  import opened Bits
  import opened Ecc

  const ROWS := 4
  const COLUMNS := 19

  /** The channel position of frame position `i`. */
  function Source(i: nat): nat
  {
    i / ROWS + i % ROWS * COLUMNS
  }

  /** The frame position of channel position `j`. */
  function Target(j: nat): nat
  {
    j % COLUMNS * ROWS + j / COLUMNS
  }

  lemma SourceTarget(i: nat)
    requires i < FRAME
    ensures Source(i) < FRAME && Target(i) < FRAME
    ensures Target(Source(i)) == i && Source(Target(i)) == i
  {
    ByColumns(i % ROWS, i / ROWS);
    ByRows(i % COLUMNS, i / COLUMNS);
  }

  lemma ByColumns(l: nat, k: nat)
    requires k < COLUMNS
    ensures (k + l * COLUMNS) / COLUMNS == l && (k + l * COLUMNS) % COLUMNS == k
  {
  }

  lemma ByRows(k: nat, l: nat)
    requires l < ROWS
    ensures (k * ROWS + l) / ROWS == k && (k * ROWS + l) % ROWS == l
  {
  }

  function Deinterleaved<T>(c: seq<T>): (f: seq<T>)
    requires |c| == FRAME
    ensures |f| == FRAME
  {
    seq(FRAME, i requires 0 <= i < FRAME => c[Source(i)])
  }

  function Interleaved<T>(f: seq<T>): (c: seq<T>)
    requires |f| == FRAME
    ensures |c| == FRAME
  {
    seq(FRAME, j requires 0 <= j < FRAME => f[Target(j)])
  }

  /** The two permutations undo each other. */
  lemma RoundTrip<T>(s: seq<T>)
    requires |s| == FRAME
    ensures Deinterleaved(Interleaved(s)) == s && Interleaved(Deinterleaved(s)) == s
  {
    forall i | 0 <= i < FRAME
      ensures Deinterleaved(Interleaved(s))[i] == s[i] && Interleaved(Deinterleaved(s))[i] == s[i]
    {
      SourceTarget(i);
    }
  }

  /** The kernel of the block: one frame, taken from the input at `mark`. */
  method DeinterleaveFrame(out: array<Byte>, inp: array<Byte>, mark: nat)
    requires mark + FRAME <= inp.Length && out.Length >= FRAME && out != inp
    modifies out
    ensures out[..FRAME] == Deinterleaved(inp[mark..mark + FRAME])
    ensures out[FRAME..] == old(out[FRAME..])
  {
    ghost var c := inp[mark..mark + FRAME];
    for k := 0 to FRAME / ROWS
      invariant forall i :: 0 <= i < ROWS * k ==> out[i] == c[Source(i)]
      invariant out[FRAME..] == old(out[FRAME..])
    {
      for l := 0 to ROWS
        invariant forall i :: 0 <= i < ROWS * k + l ==> out[i] == c[Source(i)]
        invariant out[FRAME..] == old(out[FRAME..])
      {
        out[k * ROWS + l] := inp[mark + k + l * COLUMNS];
        assert Source(k * ROWS + l) == k + l * COLUMNS;
      }
    }
  }

  lemma DeinterleavedXor(c: seq<bool>, e: seq<bool>)
    requires |c| == |e| == FRAME
    ensures Deinterleaved(Xor(c, e)) == Xor(Deinterleaved(c), Deinterleaved(e))
  {
  }
}
