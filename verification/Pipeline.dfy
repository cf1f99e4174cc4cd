/** The blocks in a row: from the tagged bit stream to messages, and from a sent frame to the recorder. */
module Pipeline {
  import opened Wrappers
  import opened Bits
  import opened Ecc
  import opened Interleave
  import opened Streams
  import opened Channel
  import opened ChannelBurst
  import opened FewErrors
  import opened Text
  import opened Receiver
  import opened CrcBlock
  import opened Layout
  import DeintBlock
  import Allocator

  // ----- both blocks under any two schedules

  /** Samples and tags that one block has produced, as the stream that the next one reads. */
  function AsStream(samples: seq<Byte>): Stream {
    (i: nat) => if i < |samples| then samples[i] else 0
  }

  function AsTags(positions: seq<int>): Tags {
    (i: nat) => i in positions
  }

  /** The messages of the frames behind the given preambles, in order. */
  function Delivered(s: Stream, ts: seq<nat>): seq<string> {
    if ts == [] then []
    else
      var rest := Delivered(s, ts[..|ts| - 1]);
      match FrameMessage(DeintBlock.FrameAt(s, ts[|ts| - 1]))
      case Some(text) => rest + [text]
      case None => rest
  }

  /** No call is offered more than there is. */
  predicate Available(tags: Tags, calls: seq<nat>, total: nat) {
    calls == [] ||
      var k := |calls| - 1;
      Available(tags, calls[..k], total) && ReadAfter(tags, calls[..k]) + calls[k] <= total
  }

  lemma {:induction false} ReadAvailable(tags: Tags, calls: seq<nat>, total: nat)
    requires Available(tags, calls, total)
    ensures ReadAfter(tags, calls) <= total
  {
  }

  lemma InMultiples(n: nat, i: nat)
    ensures AsTags(Multiples(n))(i) <==> i % FRAME == 0 && i / FRAME < n
  {
    if i % FRAME == 0 && i / FRAME < n {
      assert Multiples(n)[i / FRAME] == i;
    }
  }

  /** The number of frames that start below position `r`. */
  function Starts(r: nat): nat {
    (r + FRAME - 1) / FRAME
  }

  lemma {:induction false} StartsBelow(n: nat, r: nat)
    requires r <= n * FRAME
    ensures TagsIn(AsTags(Multiples(n)), 0, r) == Multiples(Starts(r)) && Starts(r) <= n
    decreases r
  {
    if r > 0 {
      hide Multiples, AsTags;
      StartsBelow(n, r - 1);
      InMultiples(n, r - 1);
      if (r - 1) % FRAME == 0 {
        assert Starts(r - 1) * FRAME == r - 1 && Starts(r) == Starts(r - 1) + 1;
        MultiplesNext(Starts(r - 1));
      } else {
        assert Starts(r) == Starts(r - 1);
      }
    }
  }

  /** A frame of the layout, as the second block reads it. */
  lemma FrameOfLayout(s: Stream, ts: seq<nat>, j: nat)
    requires j < |ts|
    ensures FrameText(AsStream(Laid(s, ts)), j * FRAME) == FrameMessage(DeintBlock.FrameAt(s, ts[j]))
  {
    hide FrameMessage, DeintBlock.FrameAt, Laid, AsStream, Window;
    var at := j * FRAME;
    LaidAt(s, ts, j);
    StretchOf(Laid(s, ts), at, FRAME);
  }

  lemma StretchOf(samples: seq<Byte>, at: nat, n: nat)
    requires at + n <= |samples|
    ensures Window(AsStream(samples), at, n) == samples[at..at + n]
  {
  }

  lemma {:induction false} TextsOfLayout(s: Stream, ts: seq<nat>, k: nat)
    requires k <= |ts|
    ensures Texts(AsStream(Laid(s, ts)), Multiples(k)) == Delivered(s, ts[..k])
  {
    if k > 0 {
      hide FrameText, FrameMessage, DeintBlock.FrameAt, AsStream;
      TextsOfLayout(s, ts, k - 1);
      FrameOfLayout(s, ts, k - 1);
      MultiplesNext(k - 1);
      assert Multiples(k)[..k - 1] == Multiples(k - 1);
      assert ts[..k][..k - 1] == ts[..k - 1];
    }
  }

  /** Both blocks on the stream that the first really produces, each under any schedule that keeps the layout and offers
      the second only what is there: the queue holds the messages of the first preambles of the bit stream, each once
      and in order, as many as the second block has reached. */
  lemma EveryPreambleOnce(s: Stream, tags: Tags, offers: seq<nat>, buffers: seq<seq<Byte>>, crcCalls: seq<nat>)
    requires |offers| == |buffers| && AllFit(tags, offers, buffers)
    requires DeintBlock.Apart(tags) && OneAtStart(tags, offers)
    requires Available(AsTags(Emitted(tags, offers)), crcCalls, |Produced(s, tags, offers, buffers)|)
    ensures
      var produced, marks := AsStream(Produced(s, tags, offers, buffers)), AsTags(Emitted(tags, offers));
      var preambles := TagsIn(tags, 0, DeintBlock.ReadAfter(tags, offers));
      var k := Starts(ReadAfter(marks, crcCalls));
      k <= |preambles| && QueueAfter(produced, marks, crcCalls) == Delivered(s, preambles[..k])
  {
    hide Texts, Delivered, AsStream, AsTags, Starts;
    var ts := DeintBlock.HandledAfter(tags, offers);
    DeintBlock.ExactlyOnce(tags, offers);
    OneAtStartLaidOut(s, tags, offers, buffers);
    var produced, marks := AsStream(Laid(s, ts)), AsTags(Multiples(|ts|));
    assert AsTags(Emitted(tags, offers)) == marks;
    ExactlyOnce(produced, marks, crcCalls);
    ReadAvailable(marks, crcCalls, FRAME * |ts|);
    StartsBelow(|ts|, ReadAfter(marks, crcCalls));
    TextsOfLayout(s, ts, Starts(ReadAfter(marks, crcCalls)));
  }

  // ----- from the air to the queue

  /** On a sliced stream a frame yields the message of the bits received. */
  lemma SlicedMessage(s: Stream, t: nat)
    requires Sliced(s)
    ensures FrameMessage(DeintBlock.FrameAt(s, t)) == DecodeWord(Received(LowBits(Window(s, t, FRAME))))
  {
    hide FrameMessage, DecodeWord, Corrected, FaultAt;
    var w, f := Window(s, t, FRAME), DeintBlock.FrameAt(s, t);
    assert LowBits(f) == Deinterleaved(LowBits(w));
    assert f[32] <= 1;
    MessageOfBitsIff(f);
  }

  /** A message on the air, with the errors that it meets there. */
  datatype Sending = Sending(message: Fields, guard: bool, errors: seq<bool>)

  /** The samples from position `t` on are the channel bits of that message, with its errors. */
  ghost predicate Carries(s: Stream, t: nat, x: Sending) {
    && 0 <= x.message.address < 0x10000 && 0 <= x.message.groupflag <= 1 && 0 <= x.message.command < 0x400
    && |x.errors| == FRAME
    && LowBits(Window(s, t, FRAME)) == Xor(Sent(x.message, x.guard), x.errors)
  }

  ghost predicate AllCarry(s: Stream, ts: seq<nat>, xs: seq<Sending>) {
    |ts| == |xs| && forall j :: 0 <= j < |ts| ==> Carries(s, ts[j], xs[j])
  }

  /** Few errors, or a short burst, or spread errors. */
  ghost predicate NeverMisread(e: seq<bool>) {
    Weight(e) <= SAFE_ERRORS || (exists first: nat :: InWindow(e, first, SAFE_BURST)) || Spread(e)
  }

  /** The texts are those of some of the messages, in order. */
  ghost predicate SomeOf(texts: seq<string>, xs: seq<Sending>) {
    if xs == [] then texts == []
    else
      var k := |xs| - 1;
      || SomeOf(texts, xs[..k])
      || (texts != [] && Delivers(Some(texts[|texts| - 1]), xs[k].message) && SomeOf(texts[..|texts| - 1], xs[..k]))
  }

  lemma OneCarried(s: Stream, t: nat, x: Sending)
    requires Sliced(s) && Carries(s, t, x)
    ensures
      var r := FrameMessage(DeintBlock.FrameAt(s, t));
      (NeverMisread(x.errors) ==> r.None? || Delivers(r, x.message)) && (Spread(x.errors) ==> Delivers(r, x.message))
  {
    hide FrameMessage, DecodeWord, Received, Sent, Delivers, DeintBlock.FrameAt, Spread, Weight, InWindow;
    SlicedMessage(s, t);
    if Spread(x.errors) {
      DeliveredThroughSpreadErrors(x.message, x.guard, x.errors);
    } else if Weight(x.errors) <= SAFE_ERRORS {
      NeverMisreadWithFewErrors(x.message, x.guard, x.errors);
    } else if first: nat :| InWindow(x.errors, first, SAFE_BURST) {
      NeverMisreadInBurst(x.message, x.guard, x.errors, first);
    }
  }

  lemma {:induction false} NothingFalse(s: Stream, ts: seq<nat>, xs: seq<Sending>)
    requires Sliced(s) && AllCarry(s, ts, xs) && forall j :: 0 <= j < |xs| ==> NeverMisread(xs[j].errors)
    ensures SomeOf(Delivered(s, ts), xs)
  {
    hide FrameMessage, Delivers, DeintBlock.FrameAt, NeverMisread, Carries;
    if ts != [] {
      var k := |ts| - 1;
      NothingFalse(s, ts[..k], xs[..k]);
      OneCarried(s, ts[k], xs[k]);
    }
  }

  lemma {:induction false} NothingLost(s: Stream, ts: seq<nat>, xs: seq<Sending>)
    requires Sliced(s) && AllCarry(s, ts, xs) && forall j :: 0 <= j < |xs| ==> Spread(xs[j].errors)
    ensures |Delivered(s, ts)| == |xs| && forall j :: 0 <= j < |xs| ==> Delivers(Some(Delivered(s, ts)[j]), xs[j].message)
  {
    hide FrameMessage, Delivers, DeintBlock.FrameAt, Spread, Carries;
    if ts != [] {
      var k := |ts| - 1;
      NothingLost(s, ts[..k], xs[..k]);
      OneCarried(s, ts[k], xs[k]);
      assert FrameMessage(DeintBlock.FrameAt(s, ts[k])).Some? by {
        DeliversSome(FrameMessage(DeintBlock.FrameAt(s, ts[k])), xs[k].message);
      }
    }
  }

  lemma DeliversSome(r: Option<string>, m: Fields)
    requires Delivers(r, m)
    ensures r.Some?
  {
  }

  /** From the air through both blocks: as long as no frame meets more errors than the code can tell, the queue holds
      nothing but messages that were sent, in the order they were sent; and it holds every one of them, as far as the
      second block has come, when the errors of each are spread. */
  lemma QueueFaithful(s: Stream, tags: Tags, offers: seq<nat>, buffers: seq<seq<Byte>>, crcCalls: seq<nat>, xs: seq<Sending>)
    requires |offers| == |buffers| && AllFit(tags, offers, buffers)
    requires DeintBlock.Apart(tags) && OneAtStart(tags, offers)
    requires Available(AsTags(Emitted(tags, offers)), crcCalls, |Produced(s, tags, offers, buffers)|)
    requires Sliced(s) && AllCarry(s, TagsIn(tags, 0, DeintBlock.ReadAfter(tags, offers)), xs)
    requires forall j :: 0 <= j < |xs| ==> NeverMisread(xs[j].errors)
    ensures
      var marks := AsTags(Emitted(tags, offers));
      var queue := QueueAfter(AsStream(Produced(s, tags, offers, buffers)), marks, crcCalls);
      var k := Starts(ReadAfter(marks, crcCalls));
      && k <= |xs| && SomeOf(queue, xs[..k])
      && ((forall j :: 0 <= j < k ==> Spread(xs[j].errors)) ==>
            |queue| == k && forall j :: 0 <= j < k ==> Delivers(Some(queue[j]), xs[j].message))
  {
    hide Delivered, AsStream, AsTags, Starts, Carries, NeverMisread, Spread, Delivers, SomeOf, QueueAfter, ReadAfter,
      AllFit, OneAtStart, Produced, Emitted, TagsIn, Available, DeintBlock.Apart, DeintBlock.ReadAfter, Sliced;
    EveryPreambleOnce(s, tags, offers, buffers, crcCalls);
    var preambles := TagsIn(tags, 0, DeintBlock.ReadAfter(tags, offers));
    var k := Starts(ReadAfter(AsTags(Emitted(tags, offers)), crcCalls));
    NothingFalse(s, preambles[..k], xs[..k]);
    if forall j :: 0 <= j < k ==> Spread(xs[j].errors) {
      NothingLost(s, preambles[..k], xs[..k]);
    }
  }

  // ----- from a sent frame to the recorder's state

  /** What the recorder does with what the decoder makes of a frame. */
  function Handle(setup: Allocator.Setup, st: Allocator.State, r: Option<string>, now: int): Allocator.State {
    if r.Some? && |Split(r.value)| >= 3 then
      var f := ReadFields(r.value);
      Allocator.Step(setup, st, MaskAddress(f.address), f.command, now)
    else st
  }

  /** A frame hit by a burst of up to fourteen bits does to the recorder what the sent message does, or nothing. */
  lemma BurstMovesNothingElse(setup: Allocator.Setup, st: Allocator.State, now: int, m: Fields, guard: bool, e: seq<bool>, first: nat)
    requires 0 <= m.address < 0x10000 && 0 <= m.groupflag <= 1 && 0 <= m.command < 0x400
    requires |e| == FRAME && InWindow(e, first, SAFE_BURST)
    ensures
      var after := Handle(setup, st, DecodeWord(Received(Xor(Sent(m, guard), e))), now);
      after == st || after == Allocator.Step(setup, st, MaskAddress(m.address), m.command, now)
  {
    hide DecodeWord, Received, Sent, Split, ReadFields;
    NeverMisreadInBurst(m, guard, e, first);
  }

  /** The same for up to five errors anywhere in the frame. */
  lemma FewErrorsMoveNothingElse(setup: Allocator.Setup, st: Allocator.State, now: int, m: Fields, guard: bool, e: seq<bool>)
    requires 0 <= m.address < 0x10000 && 0 <= m.groupflag <= 1 && 0 <= m.command < 0x400
    requires |e| == FRAME && Weight(e) <= SAFE_ERRORS
    ensures
      var after := Handle(setup, st, DecodeWord(Received(Xor(Sent(m, guard), e))), now);
      after == st || after == Allocator.Step(setup, st, MaskAddress(m.address), m.command, now)
  {
    hide DecodeWord, Received, Sent, Split, ReadFields;
    NeverMisreadWithFewErrors(m, guard, e);
  }

  /** Spread errors, however many, change nothing at all. */
  lemma SpreadErrorsHarmless(setup: Allocator.Setup, st: Allocator.State, now: int, m: Fields, guard: bool, e: seq<bool>)
    requires 0 <= m.address < 0x10000 && 0 <= m.groupflag <= 1 && 0 <= m.command < 0x400
    requires |e| == FRAME && Spread(e)
    ensures Handle(setup, st, DecodeWord(Received(Xor(Sent(m, guard), e))), now)
         == Allocator.Step(setup, st, MaskAddress(m.address), m.command, now)
  {
    hide DecodeWord, Received, Sent, Split, ReadFields;
    DeliveredThroughSpreadErrors(m, guard, e);
  }
}
