/** Sample streams, the tags on them, and the frames that start at tags. */
module Streams {
  import opened Bits

  /** The samples of a stream by absolute position, and the positions that carry a tag. */
  type Stream = nat -> Byte
  type Tags = nat -> bool

  /** Every sample is 0 or 1, as a binary slicer delivers them. */
  ghost predicate Sliced(s: Stream) {
    forall i :: s(i) <= 1
  }

  /** Tag positions in `[lo, hi)`, in order. */
  function TagsIn(tags: Tags, lo: nat, hi: nat): (ts: seq<nat>)
    decreases hi
  {
    if hi <= lo then []
    else if tags(hi - 1) then TagsIn(tags, lo, hi - 1) + [hi - 1]
    else TagsIn(tags, lo, hi - 1)
  }

  /** `n` samples from position `at` on. */
  function Window(s: Stream, at: nat, n: nat): (w: seq<Byte>)
    ensures |w| == n
  {
    seq(n, i requires 0 <= i < n => s(at + i))
  }

  lemma {:induction false} TagsSplit(tags: Tags, lo: nat, mid: nat, hi: nat)
    requires lo <= mid <= hi
    ensures TagsIn(tags, lo, hi) == TagsIn(tags, lo, mid) + TagsIn(tags, mid, hi)
    decreases hi
  {
    if mid < hi {
      TagsSplit(tags, lo, mid, hi - 1);
    }
  }

  lemma {:induction false} TagsOrdered(tags: Tags, lo: nat, hi: nat)
    ensures forall i :: 0 <= i < |TagsIn(tags, lo, hi)| ==> lo <= TagsIn(tags, lo, hi)[i] < hi && tags(TagsIn(tags, lo, hi)[i])
    ensures forall i, j :: 0 <= i < j < |TagsIn(tags, lo, hi)| ==> TagsIn(tags, lo, hi)[i] < TagsIn(tags, lo, hi)[j]
    decreases hi
  {
    if lo < hi {
      TagsOrdered(tags, lo, hi - 1);
    }
  }

  /** Every tag in the range is listed. */
  lemma {:induction false} TagListed(tags: Tags, lo: nat, hi: nat, t: nat)
    requires lo <= t < hi && tags(t)
    ensures t in TagsIn(tags, lo, hi)
    decreases hi
  {
    if t < hi - 1 {
      TagListed(tags, lo, hi - 1, t);
    }
  }

  /** Nothing is tagged between the last tag listed and the end of the range. */
  lemma {:induction false} LastTag(tags: Tags, lo: nat, hi: nat)
    requires TagsIn(tags, lo, hi) != []
    ensures forall t: nat :: TagsIn(tags, lo, hi)[|TagsIn(tags, lo, hi)| - 1] < t < hi ==> !tags(t)
    decreases hi
  {
    if !tags(hi - 1) {
      LastTag(tags, lo, hi - 1);
    }
  }

  lemma {:induction false} NoTags(tags: Tags, lo: nat, hi: nat)
    requires forall t: nat :: lo <= t < hi ==> !tags(t)
    ensures TagsIn(tags, lo, hi) == []
    decreases hi
  {
    if lo < hi {
      NoTags(tags, lo, hi - 1);
    }
  }

  /** A stretch of the samples on offer, by its absolute position. */
  lemma Stretch(s: Stream, at: nat, w: seq<Byte>, mark: nat, n: nat)
    requires w == Window(s, at, |w|) && mark + n <= |w|
    ensures w[mark..mark + n] == Window(s, at + mark, n)
  {
  }
}
