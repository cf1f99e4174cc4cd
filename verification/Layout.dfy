/** What the deinterleaver block produces over a whole schedule, and when that is what it is meant to produce. */
module Layout {
  import opened Bits
  import opened Ecc
  import opened Streams
  import opened DeintBlock

  // A schedule: how many samples each call is offered, and the buffer it is given to write to.

  /** Every call of the schedule has room for what it writes. */
  predicate AllFit(tags: Tags, offers: seq<nat>, buffers: seq<seq<Byte>>)
    requires |offers| == |buffers|
  {
    offers == [] ||
      var k := |offers| - 1;
      AllFit(tags, offers[..k], buffers[..k]) && Fits(Handled(tags, ReadAfter(tags, offers[..k]), offers[k]), buffers[k])
  }

  /** What one call leaves in the part of its buffer that it reports as written. */
  function CallOutput(s: Stream, ts: seq<nat>, buffer: seq<Byte>): (out: seq<Byte>)
    requires Fits(ts, buffer)
    ensures |out| == FRAME * |ts|
  {
    Overwritten(s, ts, buffer)[..FRAME * |ts|]
  }

  /** The samples that the calls produce. */
  function Produced(s: Stream, tags: Tags, offers: seq<nat>, buffers: seq<seq<Byte>>): (out: seq<Byte>)
    requires |offers| == |buffers| && AllFit(tags, offers, buffers)
    ensures |out| == FRAME * |HandledAfter(tags, offers)|
  {
    if offers == [] then []
    else
      var k := |offers| - 1;
      Produced(s, tags, offers[..k], buffers[..k])
      + CallOutput(s, Handled(tags, ReadAfter(tags, offers[..k]), offers[k]), buffers[k])
  }

  /** The positions of the tags that the calls put on them. */
  function Emitted(tags: Tags, offers: seq<nat>): (ps: seq<int>)
    ensures |ps| == |HandledAfter(tags, offers)|
  {
    if offers == [] then []
    else
      var k := |offers| - 1;
      var read := ReadAfter(tags, offers[..k]);
      Emitted(tags, offers[..k]) + Shifted(Handled(tags, read, offers[k]), FRAME * |HandledAfter(tags, offers[..k])| - read)
  }

  lemma {:induction false} PrefixFits(tags: Tags, offers: seq<nat>, buffers: seq<seq<Byte>>, k: nat)
    requires |offers| == |buffers| && AllFit(tags, offers, buffers) && k <= |offers|
    ensures AllFit(tags, offers[..k], buffers[..k])
    ensures k < |offers| ==> Fits(Handled(tags, ReadAfter(tags, offers[..k]), offers[k]), buffers[k])
  {
    var n := |offers| - 1;
    if k == |offers| {
      assert offers[..k] == offers && buffers[..k] == buffers;
    } else if k < n {
      PrefixFits(tags, offers[..n], buffers[..n], k);
      assert offers[..n][..k] == offers[..k] && buffers[..n][..k] == buffers[..k];
    }
  }

  /** One call of the scheduler to a block on the stream `s`. */
  method Call(block: DeintBlock, s: Stream, n: nat, buffer: seq<Byte>) returns (samples: seq<Byte>)
    requires block.stream == s && Fits(Handled(block.tags, block.nitemsRead, n), buffer)
    modifies block
    ensures var ts := Handled(block.tags, old(block.nitemsRead), n);
      && samples == CallOutput(s, ts, buffer)
      && block.nitemsRead == NextRead(block.tags, old(block.nitemsRead), n)
      && block.nitemsWritten == old(block.nitemsWritten) + |samples|
      && block.frameTags == old(block.frameTags) + Shifted(ts, old(block.nitemsWritten) - old(block.nitemsRead))
  {
    hide Overwritten, Handled, NextRead, Shifted;
    var read := block.nitemsRead;
    var inp := new Byte[n](i requires 0 <= i < n => s(read + i));
    var out := new Byte[|buffer|](i requires 0 <= i < |buffer| => buffer[i]);
    assert inp[..] == Window(s, read, n) && out[..] == buffer;
    var outlen := block.GeneralWork(inp, out);
    samples := out[..outlen];
    assert samples == out[..][..outlen];
  }

  /** The scheduler, driving the block from the start of a stream. */
  method Drive(s: Stream, tags: Tags, offers: seq<nat>, buffers: seq<seq<Byte>>) returns (produced: seq<Byte>, frameTags: seq<int>)
    requires |offers| == |buffers| && AllFit(tags, offers, buffers)
    ensures produced == Produced(s, tags, offers, buffers)
    ensures frameTags == Emitted(tags, offers)
  {
    hide Handled, NextRead, Fits, CallOutput, Shifted;
    var block := new DeintBlock(s, tags);
    produced := [];
    for k := 0 to |offers|
      invariant fresh(block) && block.stream == s && block.tags == tags
      invariant block.nitemsRead == ReadAfter(tags, offers[..k])
      invariant block.nitemsWritten == FRAME * |HandledAfter(tags, offers[..k])|
      invariant AllFit(tags, offers[..k], buffers[..k])
      invariant produced == Produced(s, tags, offers[..k], buffers[..k])
      invariant block.frameTags == Emitted(tags, offers[..k])
    {
      PrefixFits(tags, offers, buffers, k);
      PrefixFits(tags, offers, buffers, k + 1);
      assert offers[..k + 1][..k] == offers[..k] && buffers[..k + 1][..k] == buffers[..k];
      var samples := Call(block, s, offers[k], buffers[k]);
      produced := produced + samples;
    }
    assert offers[..|offers|] == offers && buffers[..|buffers|] == buffers;
    frameTags := block.frameTags;
  }

  // ----- the layout that is meant: frame after frame, a tag at the start of each

  function Laid(s: Stream, ts: seq<nat>): (out: seq<Byte>)
    ensures |out| == FRAME * |ts|
  {
    if ts == [] then [] else Laid(s, ts[..|ts| - 1]) + FrameAt(s, ts[|ts| - 1])
  }

  /** The first `k` frame starts. */
  function Multiples(k: nat): (m: seq<nat>)
    ensures |m| == k && forall j :: 0 <= j < k ==> m[j] == j * FRAME
  {
    seq(k, j requires 0 <= j < k => j * FRAME)
  }

  /** Every call that finds a preamble finds one, at its first sample. */
  predicate OneAtStart(tags: Tags, offers: seq<nat>) {
    offers == [] ||
      var k := |offers| - 1;
      var read := ReadAfter(tags, offers[..k]);
      var ts := Handled(tags, read, offers[k]);
      OneAtStart(tags, offers[..k]) && (ts == [] || ts == [read])
  }

  lemma {:induction false} LaidAppend(s: Stream, a: seq<nat>, b: seq<nat>)
    ensures Laid(s, a + b) == Laid(s, a) + Laid(s, b)
    decreases |b|
  {
    hide FrameAt;
    if b == [] {
      assert a + b == a;
    } else {
      assert (a + b)[..|a + b| - 1] == a + b[..|b| - 1];
      LaidAppend(s, a, b[..|b| - 1]);
    }
  }

  /** Frame `j` is where it is meant to be. */
  lemma {:induction false} LaidAt(s: Stream, ts: seq<nat>, j: nat)
    requires j < |ts|
    ensures j * FRAME + FRAME <= |Laid(s, ts)| && Laid(s, ts)[j * FRAME..j * FRAME + FRAME] == FrameAt(s, ts[j])
  {
    hide FrameAt;
    var at, before := j * FRAME, Laid(s, ts[..|ts| - 1]);
    if j < |ts| - 1 {
      LaidAt(s, ts[..|ts| - 1], j);
      assert Laid(s, ts)[..|before|] == before;
      assert before[at..at + FRAME] == Laid(s, ts)[at..at + FRAME];
    } else {
      assert Laid(s, ts)[|before|..] == FrameAt(s, ts[j]);
    }
  }

  lemma MultiplesNext(k: nat)
    ensures Multiples(k + 1) == Multiples(k) + [k * FRAME]
  {
  }

  /** What was produced and tagged is frame after frame, for the given buffers. */
  ghost predicate LaidOut(s: Stream, tags: Tags, offers: seq<nat>, buffers: seq<seq<Byte>>)
    requires |offers| == |buffers| && AllFit(tags, offers, buffers)
  {
    var ts := HandledAfter(tags, offers);
    Produced(s, tags, offers, buffers) == Laid(s, ts) && Emitted(tags, offers) == Multiples(|ts|)
  }

  lemma OneFrame(s: Stream, read: nat, buffer: seq<Byte>)
    requires Fits([read], buffer)
    ensures CallOutput(s, [read], buffer) == Laid(s, [read])
  {
    hide FrameAt;
    assert [read][..0] == [];
  }

  lemma {:induction false} OneAtStartProduces(s: Stream, tags: Tags, offers: seq<nat>, buffers: seq<seq<Byte>>)
    requires |offers| == |buffers| && AllFit(tags, offers, buffers) && OneAtStart(tags, offers)
    ensures Produced(s, tags, offers, buffers) == Laid(s, HandledAfter(tags, offers))
  {
    hide Handled, NextRead, CallOutput, Fits;
    if offers != [] {
      var k := |offers| - 1;
      var read := ReadAfter(tags, offers[..k]);
      OneAtStartProduces(s, tags, offers[..k], buffers[..k]);
      LaidAppend(s, HandledAfter(tags, offers[..k]), Handled(tags, read, offers[k]));
      if Handled(tags, read, offers[k]) == [read] {
        OneFrame(s, read, buffers[k]);
      }
    }
  }

  lemma {:induction false} OneAtStartEmits(tags: Tags, offers: seq<nat>)
    requires OneAtStart(tags, offers)
    ensures Emitted(tags, offers) == Multiples(|HandledAfter(tags, offers)|)
  {
    hide Handled, NextRead, Multiples;
    if offers != [] {
      var k := |offers| - 1;
      OneAtStartEmits(tags, offers[..k]);
      MultiplesNext(|HandledAfter(tags, offers[..k])|);
    }
  }

  // ----- a call that finds more, or finds it elsewhere, spoils the layout

  /** Room for every call, filled with anything. */
  function SomeBuffers(tags: Tags, offers: seq<nat>): (buffers: seq<seq<Byte>>)
    ensures |buffers| == |offers| && AllFit(tags, offers, buffers)
  {
    if offers == [] then []
    else
      var k := |offers| - 1;
      SomeBuffers(tags, offers[..k]) + [Filled(Handled(tags, ReadAfter(tags, offers[..k]), offers[k]), 0)]
  }

  /** A buffer with room for one frame more than the call writes. */
  function Filled(ts: seq<nat>, value: Byte): (buffer: seq<Byte>)
    ensures Fits(ts, buffer) && |buffer| == FRAME * (|ts| + 1)
    ensures forall i :: 0 <= i < |buffer| ==> buffer[i] == value
  {
    seq(FRAME * (|ts| + 1), _ => value)
  }

  /** Of two or more frames only the last is left, and the rest of the buffer is what it was. */
  lemma TwoFrames(s: Stream, ts: seq<nat>) returns (buffer: seq<Byte>)
    requires |ts| >= 2
    ensures Fits(ts, buffer) && CallOutput(s, ts, buffer) != Laid(s, ts)
  {
    hide FrameAt;
    buffer := Filled(ts, if Laid(s, ts)[FRAME] == 0 then 1 else 0);
    assert CallOutput(s, ts, buffer)[FRAME] == buffer[FRAME];
  }

  lemma SplitEqual<T>(a: seq<T>, b: seq<T>, c: seq<T>, d: seq<T>)
    requires |a| == |c| && a + b == c + d
    ensures a == c && b == d
  {
    assert (a + b)[..|a|] == a && (c + d)[..|a|] == c;
    assert (a + b)[|a|..] == b && (c + d)[|a|..] == d;
  }

  /** What is laid out up to the end was laid out before the last call, and that call kept to it. */
  lemma LaidOutBefore(s: Stream, tags: Tags, offers: seq<nat>, buffers: seq<seq<Byte>>)
    requires |offers| == |buffers| > 0 && AllFit(tags, offers, buffers) && LaidOut(s, tags, offers, buffers)
    ensures LaidOut(s, tags, offers[..|offers| - 1], buffers[..|offers| - 1])
    ensures
      var k := |offers| - 1;
      var read := ReadAfter(tags, offers[..k]);
      var ts := Handled(tags, read, offers[k]);
      CallOutput(s, ts, buffers[k]) == Laid(s, ts) && (ts != [] ==> ts[0] == read)
  {
    hide Handled, NextRead, CallOutput, Fits, Multiples, Shifted, Laid;
    var k := |offers| - 1;
    var read := ReadAfter(tags, offers[..k]);
    var before, ts := HandledAfter(tags, offers[..k]), Handled(tags, read, offers[k]);
    LaidAppend(s, before, ts);
    SplitEqual(Produced(s, tags, offers[..k], buffers[..k]), CallOutput(s, ts, buffers[k]), Laid(s, before), Laid(s, ts));
    TagsBefore(Emitted(tags, offers[..k]), before, ts, read);
  }

  /** Tags at multiples of 76 were so before the last call, and its first tag is for its first sample. */
  lemma TagsBefore(emitted: seq<int>, before: seq<nat>, ts: seq<nat>, read: nat)
    requires |emitted| == |before|
    requires emitted + Shifted(ts, FRAME * |before| - read) == Multiples(|before + ts|)
    ensures emitted == Multiples(|before|)
    ensures ts != [] ==> ts[0] == read
  {
    var all := emitted + Shifted(ts, FRAME * |before| - read);
    assert emitted == all[..|before|] == Multiples(|before|);
    if ts != [] {
      assert all[|before|] == ts[0] + (FRAME * |before| - read);
    }
  }

  lemma {:induction false} OtherwiseSpoiled(s: Stream, tags: Tags, offers: seq<nat>) returns (buffers: seq<seq<Byte>>)
    requires !OneAtStart(tags, offers)
    ensures |buffers| == |offers| && AllFit(tags, offers, buffers) && !LaidOut(s, tags, offers, buffers)
  {
    hide Handled, NextRead, CallOutput, Fits, LaidOut;
    var k := |offers| - 1;
    var ts := Handled(tags, ReadAfter(tags, offers[..k]), offers[k]);
    var last := Filled(ts, 0);
    if OneAtStart(tags, offers[..k]) {
      buffers := SomeBuffers(tags, offers[..k]);
      if |ts| >= 2 {
        last := TwoFrames(s, ts);
      }
    } else {
      buffers := OtherwiseSpoiled(s, tags, offers[..k]);
    }
    ghost var first := buffers;
    buffers := buffers + [last];
    assert buffers[..k] == first;
    if LaidOut(s, tags, offers, buffers) {
      LaidOutBefore(s, tags, offers, buffers);
    }
  }

  /** The block lays its frames out one after another, each with a tag at its start, whatever its buffers held,
      exactly when every call that finds a preamble finds one, at its first sample. */
  lemma LaidOutIff(s: Stream, tags: Tags, offers: seq<nat>)
    ensures OneAtStart(tags, offers) <==>
            forall buffers | |buffers| == |offers| && AllFit(tags, offers, buffers) :: LaidOut(s, tags, offers, buffers)
  {
    hide OneAtStart, AllFit, LaidOut;
    if OneAtStart(tags, offers) {
      forall buffers | |buffers| == |offers| && AllFit(tags, offers, buffers)
        ensures LaidOut(s, tags, offers, buffers)
      {
        OneAtStartLaidOut(s, tags, offers, buffers);
      }
    } else {
      var buffers := OtherwiseSpoiled(s, tags, offers);
    }
  }

  lemma OneAtStartLaidOut(s: Stream, tags: Tags, offers: seq<nat>, buffers: seq<seq<Byte>>)
    requires |offers| == |buffers| && AllFit(tags, offers, buffers) && OneAtStart(tags, offers)
    ensures LaidOut(s, tags, offers, buffers)
  {
    OneAtStartProduces(s, tags, offers, buffers);
    OneAtStartEmits(tags, offers);
  }

  // ----- how long an offer may be

  lemma {:induction false} TagsApart(tags: Tags, lo: nat, hi: nat, i: nat)
    requires Apart(tags) && i < |TagsIn(tags, lo, hi)|
    ensures TagsIn(tags, lo, hi)[i] >= lo + LOOKAHEAD * i
  {
    TagsOrdered(tags, lo, hi);
    if i > 0 {
      TagsApart(tags, lo, hi, i - 1);
    }
  }

  /** A preamble every 84 samples. */
  function BackToBack(): Tags {
    t => t % LOOKAHEAD == 0
  }

  lemma {:induction false} BackToBackCount(h: nat)
    ensures LOOKAHEAD * |TagsIn(BackToBack(), 0, h)| >= h
  {
    if h > 0 {
      BackToBackCount(h - 1);
    }
  }

  /** Room for so many frames is enough for every stream exactly when offers stop short of one preamble more:
      with room for one frame and 169 samples on offer a call may report 152 samples written. */
  lemma OutputFitsIff(n: nat, frames: nat)
    ensures (forall tags: Tags, read: nat :: Apart(tags) ==> |Handled(tags, read, n)| <= frames) <==> n <= LOOKAHEAD * (frames + 1)
  {
    if n <= LOOKAHEAD * (frames + 1) {
      forall tags: Tags, read: nat | Apart(tags)
        ensures |Handled(tags, read, n)| <= frames
      {
        var ts := Handled(tags, read, n);
        if ts != [] {
          TagsApart(tags, read, read + n - LOOKAHEAD, |ts| - 1);
          TagsOrdered(tags, read, read + n - LOOKAHEAD);
        }
      }
    } else {
      BackToBackCount(n - LOOKAHEAD);
      assert Apart(BackToBack());
      assert |Handled(BackToBack(), 0, n)| > frames;
    }
  }

  /** The only preamble in the range is at its start. */
  lemma OnlyFirst(tags: Tags, lo: nat, hi: nat)
    requires lo < hi && tags(lo) && forall t: nat :: lo < t < hi ==> !tags(t)
    ensures TagsIn(tags, lo, hi) == [lo]
  {
    TagsSplit(tags, lo, lo + 1, hi);
    NoTags(tags, lo + 1, hi);
    assert TagsIn(tags, lo, lo) == [];
  }

  lemma SecondInRange(tags: Tags, read: nat, n: nat)
    requires tags(read) && tags(read + LOOKAHEAD) && forall t: nat :: read < t < read + LOOKAHEAD ==> !tags(t)
    ensures Handled(tags, read, n) in {[], [read]} <==> n <= 2 * LOOKAHEAD
  {
    if LOOKAHEAD < n <= 2 * LOOKAHEAD {
      OnlyFirst(tags, read, read + n - LOOKAHEAD);
    } else if n > 2 * LOOKAHEAD {
      TagListed(tags, read, read + n - LOOKAHEAD, read + LOOKAHEAD);
      assert read + LOOKAHEAD in Handled(tags, read, n);
    }
  }

  lemma BackToBackCall(read: nat, n: nat)
    requires read % LOOKAHEAD == 0
    ensures NextRead(BackToBack(), read, n) % LOOKAHEAD == 0
  {
    if n > LOOKAHEAD {
      TagsOrdered(BackToBack(), read, read + n - LOOKAHEAD);
      TagListed(BackToBack(), read, read + n - LOOKAHEAD, read);
      hide TagsIn;
      NextMultiple(Handled(BackToBack(), read, n)[|Handled(BackToBack(), read, n)| - 1]);
    }
  }

  lemma BackToBackTags(read: nat)
    requires read % LOOKAHEAD == 0
    ensures BackToBack()(read) && BackToBack()(read + LOOKAHEAD)
    ensures forall t: nat :: read < t < read + LOOKAHEAD ==> !BackToBack()(t)
  {
    NextMultiple(read);
  }

  lemma NextMultiple(t: nat)
    ensures (t + LOOKAHEAD) % LOOKAHEAD == t % LOOKAHEAD
    ensures forall u: nat :: t < u < t + LOOKAHEAD && t % LOOKAHEAD == 0 ==> u % LOOKAHEAD != 0
  {
  }

  /** On frames that follow one another without a gap the layout holds exactly for offers of at most 168 samples. */
  lemma {:induction false} BackToBackIff(offers: seq<nat>)
    ensures ReadAfter(BackToBack(), offers) % LOOKAHEAD == 0
    ensures OneAtStart(BackToBack(), offers) <==> forall i :: 0 <= i < |offers| ==> offers[i] <= 2 * LOOKAHEAD
  {
    hide Handled, NextRead, BackToBack;
    if offers != [] {
      var k := |offers| - 1;
      BackToBackIff(offers[..k]);
      var read := ReadAfter(BackToBack(), offers[..k]);
      BackToBackCall(read, offers[k]);
      BackToBackTags(read);
      SecondInRange(BackToBack(), read, offers[k]);
    }
  }
}
