/** The deinterleaver block as the scheduler drives it (smartnet_deinterleave::general_work). */
module DeintBlock {
  import opened Bits
  import opened Ecc
  import opened Interleave
  import opened Streams

  const LOOKAHEAD := 84 // a preamble of 8 bits and a frame of 76

  // ----- which preambles are handled, whatever the scheduler does

  /** The preambles that one call with `n` samples handles. */
  function Handled(tags: Tags, read: nat, n: nat): seq<nat> {
    if n <= LOOKAHEAD then [] else TagsIn(tags, read, read + n - LOOKAHEAD)
  }

  /** The read position after that call: past the last frame, or past all untagged samples. */
  function NextRead(tags: Tags, read: nat, n: nat): nat {
    if n <= LOOKAHEAD then read
    else
      var ts := Handled(tags, read, n);
      if ts == [] then read + n - LOOKAHEAD else ts[|ts| - 1] + LOOKAHEAD
  }

  function ReadAfter(tags: Tags, calls: seq<nat>): nat {
    if calls == [] then 0 else NextRead(tags, ReadAfter(tags, calls[..|calls| - 1]), calls[|calls| - 1])
  }

  function HandledAfter(tags: Tags, calls: seq<nat>): seq<nat> {
    if calls == [] then []
    else
      var before := calls[..|calls| - 1];
      HandledAfter(tags, before) + Handled(tags, ReadAfter(tags, before), calls[|calls| - 1])
  }

  /** Preambles leave room for a whole frame and the next preamble. */
  ghost predicate Apart(tags: Tags) {
    forall s: nat, t: nat :: s < t && tags(s) && tags(t) ==> t - s >= LOOKAHEAD
  }

  /** One call handles exactly the preambles between the old and the new read position. */
  lemma CallHandles(tags: Tags, read: nat, n: nat)
    requires Apart(tags)
    ensures NextRead(tags, read, n) >= read
    ensures Handled(tags, read, n) == TagsIn(tags, read, NextRead(tags, read, n))
  {
    if n > LOOKAHEAD {
      var hi := read + n - LOOKAHEAD;
      var ts := Handled(tags, read, n);
      TagsOrdered(tags, read, hi);
      if ts != [] {
        var last := ts[|ts| - 1];
        var next := last + LOOKAHEAD;
        if hi <= next {
          TagsSplit(tags, read, hi, next);
          NoTags(tags, hi, next);
        } else {
          TagsSplit(tags, read, next, hi);
          LastTag(tags, read, hi);
          NoTags(tags, next, hi);
        }
      }
    } else {
      NoTags(tags, read, read);
    }
  }

  /** What a call does, from the tags alone: up to 84 samples are left alone; of more, all but 84 are searched. Without
      a preamble among those they are all skipped, otherwise the call goes on 84 samples behind the last one. */
  lemma CallExact(tags: Tags, read: nat, n: nat)
    ensures n <= 84 ==> Handled(tags, read, n) == [] && NextRead(tags, read, n) == read
    ensures n > 84 ==>
      forall t: nat :: t in Handled(tags, read, n) <==> read <= t < read + n - 84 && tags(t)
    ensures n > 84 && (forall t: nat :: read <= t < read + n - 84 ==> !tags(t)) ==> NextRead(tags, read, n) == read + n - 84
    ensures forall t: nat :: read <= t < read + n - 84 && tags(t) && (forall u: nat :: t < u < read + n - 84 ==> !tags(u)) ==>
      NextRead(tags, read, n) == t + 84
  {
    if n > LOOKAHEAD {
      var hi := read + n - LOOKAHEAD;
      var ts := Handled(tags, read, n);
      TagsOrdered(tags, read, hi);
      forall t: nat | read <= t < hi && tags(t)
        ensures t in ts
      {
        TagListed(tags, read, hi, t);
      }
      if ts != [] {
        LastTag(tags, read, hi);
      }
    }
  }

  lemma CallParts(tags: Tags, read: nat, n: nat)
    ensures n <= LOOKAHEAD ==> Handled(tags, read, n) == [] && NextRead(tags, read, n) == read
    ensures n > LOOKAHEAD ==>
      var ts := TagsIn(tags, read, read + n - LOOKAHEAD);
      && Handled(tags, read, n) == ts
      && NextRead(tags, read, n) == if ts == [] then read + n - LOOKAHEAD else ts[|ts| - 1] + LOOKAHEAD
  {
  }

  /** A call with more than 84 samples always moves the read position. */
  lemma CallMoves(tags: Tags, read: nat, n: nat)
    ensures NextRead(tags, read, n) >= read
    ensures NextRead(tags, read, n) > read <==> n > 84
  {
    if n > LOOKAHEAD {
      TagsOrdered(tags, read, read + n - LOOKAHEAD);
    }
  }

  lemma {:induction false} ReadGrows(tags: Tags, calls: seq<nat>)
    requires forall i :: 0 <= i < |calls| ==> calls[i] > 84
    ensures ReadAfter(tags, calls) >= |calls|
  {
    if calls != [] {
      var before := calls[..|calls| - 1];
      ReadGrows(tags, before);
      CallMoves(tags, ReadAfter(tags, before), calls[|calls| - 1]);
    }
  }

  /** Progress: after enough calls with more than 84 samples each, every preamble has been handled. */
  lemma EveryPreambleHandled(tags: Tags, calls: seq<nat>, t: nat)
    requires Apart(tags) && tags(t)
    requires |calls| > t && forall i :: 0 <= i < |calls| ==> calls[i] > 84
    ensures t in HandledAfter(tags, calls)
  {
    ReadGrows(tags, calls);
    ExactlyOnce(tags, calls);
    TagListed(tags, 0, ReadAfter(tags, calls), t);
  }

  /** With preambles that far apart, every schedule handles each preamble below the read position once, in order. */
  lemma {:induction false} ExactlyOnce(tags: Tags, calls: seq<nat>)
    requires Apart(tags)
    ensures HandledAfter(tags, calls) == TagsIn(tags, 0, ReadAfter(tags, calls))
  {
    if calls != [] {
      var before := calls[..|calls| - 1];
      ExactlyOnce(tags, before);
      CallHandles(tags, ReadAfter(tags, before), calls[|calls| - 1]);
      TagsSplit(tags, 0, ReadAfter(tags, before), ReadAfter(tags, calls));
    }
  }

  /** A call that just reaches the first of two close preambles skips the second. */
  lemma TooClose(tags: Tags, s: nat, t: nat)
    requires s < t < s + LOOKAHEAD && tags(s) && tags(t)
    ensures HandledAfter(tags, [s + 1 + LOOKAHEAD]) != TagsIn(tags, 0, ReadAfter(tags, [s + 1 + LOOKAHEAD]))
  {
    var calls := [s + 1 + LOOKAHEAD];
    var ts := Handled(tags, 0, calls[0]);
    assert calls[..0] == [];
    assert ts == TagsIn(tags, 0, s) + [s];
    assert HandledAfter(tags, calls) == [] + ts == ts;
    TagsOrdered(tags, 0, s + 1);
    TagListed(tags, 0, s + LOOKAHEAD, t);
  }

  /** Exactly then: with two preambles closer together, some schedule skips one. */
  lemma ExactlyOnceIff(tags: Tags)
    ensures Apart(tags) <==> forall calls :: HandledAfter(tags, calls) == TagsIn(tags, 0, ReadAfter(tags, calls))
  {
    hide HandledAfter, ReadAfter;
    if Apart(tags) {
      forall calls
        ensures HandledAfter(tags, calls) == TagsIn(tags, 0, ReadAfter(tags, calls))
      {
        ExactlyOnce(tags, calls);
      }
    } else {
      var s: nat, t: nat :| s < t && tags(s) && tags(t) && t - s < LOOKAHEAD;
      TooClose(tags, s, t);
    }
  }

  /** Even with preambles closer together, none is handled twice or out of order. */
  lemma {:induction false} NeverTwice(tags: Tags, calls: seq<nat>)
    ensures forall i, j :: 0 <= i < j < |HandledAfter(tags, calls)| ==> HandledAfter(tags, calls)[i] < HandledAfter(tags, calls)[j]
    ensures forall i :: 0 <= i < |HandledAfter(tags, calls)| ==> HandledAfter(tags, calls)[i] < ReadAfter(tags, calls)
  {
    if calls != [] {
      var before, n := calls[..|calls| - 1], calls[|calls| - 1];
      NeverTwice(tags, before);
      if n > LOOKAHEAD {
        TagsOrdered(tags, ReadAfter(tags, before), ReadAfter(tags, before) + n - LOOKAHEAD);
      }
    }
  }

  // ----- where the frames of one call are put

  /** The frame behind the preamble at `t`. */
  function FrameAt(s: Stream, t: nat): (f: seq<Byte>)
    ensures |f| == FRAME
  {
    Deinterleaved(Window(s, t, FRAME))
  }

  /** The output buffer after the loop: every frame is written to its start. */
  function Overwritten(s: Stream, ts: seq<nat>, buffer: seq<Byte>): (out: seq<Byte>)
    requires |buffer| >= FRAME
    ensures |out| == |buffer|
  {
    if ts == [] then buffer else FrameAt(s, ts[|ts| - 1]) + buffer[FRAME..]
  }

  /** Sample `i` of a frame, by rows and columns. */
  lemma FrameSample(s: Stream, t: nat, i: nat)
    requires i < 76
    ensures FrameAt(s, t)[i] == s(t + i / 4 + i % 4 * 19)
  {
    SourceTarget(i);
    assert Window(s, t, FRAME)[Source(i)] == s(t + Source(i));
  }

  /** What the buffer holds: the frame of the last preamble, and behind it what was there. */
  lemma LastFrameStays(s: Stream, ts: seq<nat>, buffer: seq<Byte>)
    requires |buffer| >= 76
    ensures ts == [] ==> Overwritten(s, ts, buffer) == buffer
    ensures ts != [] ==> Overwritten(s, ts, buffer)[76..] == buffer[76..]
    ensures ts != [] ==> forall i :: 0 <= i < 76 ==> Overwritten(s, ts, buffer)[i] == s(ts[|ts| - 1] + i / 4 + i % 4 * 19)
  {
    hide FrameAt;
    if ts != [] {
      forall i | 0 <= i < 76
        ensures Overwritten(s, ts, buffer)[i] == s(ts[|ts| - 1] + i / 4 + i % 4 * 19)
      {
        FrameSample(s, ts[|ts| - 1], i);
      }
    }
  }

  lemma NothingWritten(s: Stream, buffer: seq<Byte>)
    requires |buffer| >= FRAME
    ensures Overwritten(s, [], buffer) == buffer
  {
  }

  /** A buffer that the scheduler may offer: whole frames, as many as the call writes or more. */
  predicate Fits(ts: seq<nat>, buffer: seq<Byte>) {
    |buffer| >= FRAME && |buffer| % FRAME == 0 && FRAME * |ts| <= |buffer|
  }

  /** Input positions moved to the output stream. */
  function Shifted(ts: seq<nat>, shift: int): (r: seq<int>)
    ensures |r| == |ts|
  {
    seq(|ts|, i requires 0 <= i < |ts| => ts[i] + shift)
  }

  class DeintBlock {
    ghost const stream: Stream
    const tags: Tags
    var nitemsRead: nat
    var nitemsWritten: nat
    var frameTags: seq<int> // absolute output positions

    constructor (ghost stream: Stream, tags: Tags)
      ensures this.stream == stream && this.tags == tags
      ensures nitemsRead == 0 && nitemsWritten == 0 && frameTags == []
    {
      this.stream := stream;
      this.tags := tags;
      nitemsRead := 0;
      nitemsWritten := 0;
      frameTags := [];
    }

    /** One call of the scheduler: `inp` holds the samples from the read position on. */
    method GeneralWork(inp: array<Byte>, out: array<Byte>) returns (outlen: nat)
      requires inp[..] == Window(stream, nitemsRead, inp.Length)
      requires out.Length >= FRAME && inp != out
      modifies this, out
      ensures nitemsRead == NextRead(tags, old(nitemsRead), inp.Length)
      ensures nitemsRead > old(nitemsRead) <==> inp.Length > 84
      ensures inp.Length <= 84 ==> outlen == 0 && out[..] == old(out[..]) && frameTags == old(frameTags)
      ensures inp.Length > 84 ==>
        var ts := TagsIn(tags, old(nitemsRead), old(nitemsRead) + inp.Length - 84);
        && outlen == 76 * |ts| && |frameTags| == |old(frameTags)| + |ts|
        && nitemsRead == (if ts == [] then old(nitemsRead) + inp.Length - 84 else ts[|ts| - 1] + 84)
        && (forall i :: 0 <= i < |ts| ==> frameTags[|old(frameTags)| + i] == old(nitemsWritten) + (ts[i] - old(nitemsRead)))
      ensures var ts := Handled(tags, old(nitemsRead), inp.Length);
        && outlen == FRAME * |ts|
        && nitemsWritten == old(nitemsWritten) + outlen
        && out[..] == Overwritten(stream, ts, old(out[..]))
        && frameTags == old(frameTags) + Shifted(ts, old(nitemsWritten) - old(nitemsRead))
    {
      hide Handled, NextRead, TagsIn, Overwritten, Window;
      CallMoves(tags, nitemsRead, inp.Length);
      CallParts(tags, nitemsRead, inp.Length);
      NothingWritten(stream, out[..]);
      outlen := 0;
      var size := inp.Length - LOOKAHEAD;
      if size <= 0 {
        return; // nothing can be looked at until more than 84 samples are on offer
      }
      var preambleTags := TagsIn(tags, nitemsRead, nitemsRead + size);
      if |preambleTags| == 0 {
        nitemsRead := nitemsRead + size;
        return;
      }
      TagsOrdered(tags, nitemsRead, nitemsRead + size);
      outlen := PlaceFrames(inp, out, preambleTags);
      nitemsRead := preambleTags[|preambleTags| - 1] + LOOKAHEAD;
      nitemsWritten := nitemsWritten + outlen;
    }

    /** The loop over the preambles of one call. */
    method PlaceFrames(inp: array<Byte>, out: array<Byte>, ts: seq<nat>) returns (outlen: nat)
      requires inp[..] == Window(stream, nitemsRead, inp.Length)
      requires out.Length >= FRAME && inp != out
      requires forall i :: 0 <= i < |ts| ==> nitemsRead <= ts[i] <= nitemsRead + inp.Length - FRAME
      modifies `frameTags, out
      ensures outlen == FRAME * |ts|
      ensures out[..] == Overwritten(stream, ts, old(out[..]))
      ensures frameTags == old(frameTags) + Shifted(ts, nitemsWritten - nitemsRead)
    {
      hide FrameAt;
      outlen := 0;
      for i := 0 to |ts|
        invariant outlen == FRAME * i
        invariant out[..] == Overwritten(stream, ts[..i], old(out[..]))
        invariant frameTags == old(frameTags) + Shifted(ts[..i], nitemsWritten - nitemsRead)
      {
        PlaceFrame(inp, out, ts[i]);
        outlen := outlen + FRAME;
        assert ts[..i + 1][i] == ts[i];
      }
      assert ts[..|ts|] == ts;
    }

    /** The frame behind one preamble goes to the start of the buffer, its tag to where the preamble stood. */
    method PlaceFrame(inp: array<Byte>, out: array<Byte>, t: nat)
      requires inp[..] == Window(stream, nitemsRead, inp.Length)
      requires out.Length >= FRAME && inp != out
      requires nitemsRead <= t <= nitemsRead + inp.Length - FRAME
      modifies `frameTags, out
      ensures out[..] == FrameAt(stream, t) + old(out[..])[FRAME..]
      ensures frameTags == old(frameTags) + [t + (nitemsWritten - nitemsRead)]
    {
      hide Deinterleaved;
      var mark := t - nitemsRead;
      Stretch(stream, nitemsRead, inp[..], mark, FRAME);
      assert inp[mark..mark + FRAME] == inp[..][mark..mark + FRAME];
      DeinterleaveFrame(out, inp, mark);
      frameTags := frameTags + [nitemsWritten + mark];
      assert out[..] == out[..FRAME] + out[FRAME..];
    }
  }

  /** Every tag that a call emits points at the frame it stands for, in the output of that call. */
  ghost predicate TagsPointAtFrames(s: Stream, read: nat, ts: seq<nat>, out: seq<Byte>) {
    forall i | 0 <= i < |ts| :: PointsAt(s, ts[i] - read, ts[i], out)
  }

  ghost predicate PointsAt(s: Stream, mark: int, t: nat, out: seq<Byte>) {
    0 <= mark && mark + FRAME <= |out| && out[mark..mark + FRAME] == FrameAt(s, t)
  }

  /** For every output buffer with enough room the tags of a call point at their frames. */
  ghost predicate PlacedRight(s: Stream, read: nat, ts: seq<nat>) {
    forall buffer: seq<Byte> | Fits(ts, buffer) :: TagsPointAtFrames(s, read, ts, Overwritten(s, ts, buffer))
  }

  /** The block is meant to lay frames out one after another and tag each start. It does so
      exactly when a call finds one preamble, at its very first sample. */
  lemma PlacementIff(s: Stream, read: nat, ts: seq<nat>)
    requires ts != []
    requires forall i, j :: 0 <= i < j < |ts| ==> ts[i] < ts[j]
    ensures PlacedRight(s, read, ts) <==> ts == [read]
  {
    hide Deinterleaved;
    var last := ts[|ts| - 1];
    if last > read {
      var buffer: seq<Byte> := seq(FRAME * |ts|, _ => if FrameAt(s, last)[FRAME - 1] == 0 then 1 else 0);
      var out := Overwritten(s, ts, buffer);
      if last - read + FRAME <= |out| {
        assert out[last - read..last - read + FRAME][FRAME - 1] == out[last - read + FRAME - 1] == buffer[last - read + FRAME - 1];
      }
      assert !PointsAt(s, last - read, last, out);
      assert Fits(ts, buffer) && !TagsPointAtFrames(s, read, ts, out);
    } else if ts[0] < read {
      var buffer: seq<Byte> := seq(FRAME * |ts|, _ => 0);
      assert Fits(ts, buffer) && !TagsPointAtFrames(s, read, ts, Overwritten(s, ts, buffer));
    } else {
      assert ts == [read];
      forall buffer: seq<Byte> | Fits(ts, buffer)
        ensures TagsPointAtFrames(s, read, ts, Overwritten(s, ts, buffer))
      {
        assert Overwritten(s, ts, buffer)[..FRAME] == FrameAt(s, read);
      }
    }
  }
}
