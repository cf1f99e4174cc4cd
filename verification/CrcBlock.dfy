/** The CRC block as the scheduler drives it (smartnet_crc::work). */
module CrcBlock {
  import opened Wrappers
  import opened Bits
  import opened Crc
  import opened Ecc
  import opened Packet
  import opened Text
  import opened Receiver
  import opened Streams

  /** `noutput_items` is always a multiple of this. */
  const OUTPUT_MULTIPLE := 38

  /** The message that the bytes of a frame yield. The group flag is the one field that looks at a whole byte. */
  function FrameMessage(b: seq<Byte>): Option<string>
    requires |b| == FRAME
  {
    var w := Corrected(LowBits(b));
    if Accepts(w) then Some(Message(Parsed(w).(groupflag := CorrectedByte(b, 16) == 0))) else None
  }

  /** The bits of a frame alone decide its message, unless an accepted frame has a positive even byte at the group flag
      that is not corrected. The slicer produces none. */
  lemma MessageOfBitsIff(b: seq<Byte>)
    requires |b| == FRAME
    ensures
      var w := Corrected(LowBits(b));
      FrameMessage(b) == DecodeWord(w) <==> !Accepts(w) || CorrectedByte(b, 16) == 0 || IsSet(CorrectedByte(b, 16))
  {
    hide Accepts, FaultAt, Message, Parsed, Corrected;
    var w := Corrected(LowBits(b));
    CorrectedBit(LowBits(b), 16);
    GroupflagOf(w);
    var p := Parsed(w);
    var q := p.(groupflag := CorrectedByte(b, 16) == 0);
    if Message(p) == Message(q) {
      GroupflagShown(p, q);
    }
  }

  /** The text shows the group flag. */
  lemma GroupflagShown(p: Packet, q: Packet)
    requires Message(p) == Message(q)
    ensures p.groupflag == q.groupflag
  {
    hide Message, Split;
    MessageRoundTrip(p);
    MessageRoundTrip(q);
  }

  lemma GroupflagOf(w: seq<bool>)
    requires |w| == WORD
    ensures Parsed(w).groupflag == !w[16]
  {
  }

  /** The message that the frame at a tag yields. */
  function FrameText(s: Stream, at: nat): Option<string> {
    FrameMessage(Window(s, at, FRAME))
  }

  /** The messages of the frames at the given tags, in order. */
  function Texts(s: Stream, ts: seq<nat>): seq<string> {
    if ts == [] then []
    else
      var rest := Texts(s, ts[..|ts| - 1]);
      match FrameText(s, ts[|ts| - 1])
      case Some(text) => rest + [text]
      case None => rest
  }

  /** What one call with `n` samples available consumes. */
  function Consumed(tags: Tags, read: nat, n: nat): nat {
    if n <= FRAME || TagsIn(tags, read, read + n - FRAME) == [] then 0 else n - FRAME
  }

  /** From the tags alone: a call with a tag in reach leaves exactly 76 of its samples, any other consumes none. */
  lemma ConsumedExact(tags: Tags, read: nat, n: nat)
    ensures Consumed(tags, read, n) != 0 ==> n - Consumed(tags, read, n) == 76
    ensures Consumed(tags, read, n) != 0 <==> exists t: nat :: read <= t < read + n - 76 && tags(t)
  {
    if n > FRAME {
      var ts := TagsIn(tags, read, read + n - FRAME);
      TagsOrdered(tags, read, read + n - FRAME);
      if t: nat :| read <= t < read + n - 76 && tags(t) {
        TagListed(tags, read, read + n - FRAME, t);
      }
      if ts != [] {
        assert tags(ts[0]);
      }
    }
  }

  lemma CallTexts(s: Stream, tags: Tags, read: nat, n: nat)
    ensures Consumed(tags, read, n) == if n > FRAME && TagsIn(tags, read, read + n - FRAME) != [] then n - FRAME else 0
    ensures Texts(s, TagsIn(tags, read, read + Consumed(tags, read, n)))
         == if n > FRAME then Texts(s, TagsIn(tags, read, read + n - FRAME)) else []
    ensures Texts(s, []) == []
  {
    hide FrameText;
    NoTags(tags, read, read);
  }

  /** The samples read after a series of calls, given how many were available to each. */
  function ReadAfter(tags: Tags, calls: seq<nat>): nat {
    if calls == [] then 0
    else
      var read := ReadAfter(tags, calls[..|calls| - 1]);
      read + Consumed(tags, read, calls[|calls| - 1])
  }

  /** The queue after those calls. */
  function QueueAfter(s: Stream, tags: Tags, calls: seq<nat>): seq<string> {
    if calls == [] then []
    else
      var before := calls[..|calls| - 1];
      QueueAfter(s, tags, before) + Texts(s, TagsIn(tags, ReadAfter(tags, before), ReadAfter(tags, calls)))
  }

  /** Correct, check and parse one frame. */
  method DecodeFrame(inp: array<Byte>, mark: nat) returns (text: Option<string>)
    requires mark + FRAME <= inp.Length
    ensures text == FrameMessage(inp[mark..mark + FRAME])
  {
    hide Accepts, Corrected, CorrectedByte, Parsed;
    var databits := new Byte[INFO];
    CorrectFrame(databits, inp, mark);
    text := DecodeBits(databits);
  }

  method DecodeBits(databits: array<Byte>) returns (text: Option<string>)
    requires databits.Length >= WORD
    ensures
      var w := LowBits(databits[..WORD]);
      text == if Accepts(w) then Some(Message(Parsed(w).(groupflag := databits[16] == 0))) else None
  {
    var ok := Check(databits);
    if !ok {
      return None;
    }
    var pkt := Parse(databits);
    text := Some(Message(pkt));
  }

  class CrcBlock {
    ghost const stream: Stream
    const tags: Tags
    var nitemsRead: nat
    var queue: seq<string>

    /** Every frame tagged below the read position has been handled once, in order; no other has. */
    ghost predicate Valid()
      reads this
    {
      queue == Texts(stream, TagsIn(tags, 0, nitemsRead))
    }

    constructor (ghost stream: Stream, tags: Tags)
      ensures Valid() && this.stream == stream && this.tags == tags
      ensures nitemsRead == 0 && queue == []
    {
      this.stream := stream;
      this.tags := tags;
      nitemsRead := 0;
      queue := [];
    }

    /** One call of the scheduler: `inp` holds the samples from the read position on. */
    method Work(inp: array<Byte>) returns (consumed: nat)
      requires Valid()
      requires inp[..] == Window(stream, nitemsRead, inp.Length)
      modifies this
      ensures Valid()
      ensures consumed == Consumed(tags, old(nitemsRead), inp.Length)
      ensures consumed != 0 ==> inp.Length - consumed == 76
      ensures consumed != 0 <==> exists t: nat :: old(nitemsRead) <= t < old(nitemsRead) + inp.Length - 76 && tags(t)
      ensures inp.Length <= 76 ==> queue == old(queue)
      ensures inp.Length > 76 ==>
        queue == old(queue) + Texts(stream, TagsIn(tags, old(nitemsRead), old(nitemsRead) + inp.Length - 76))
      ensures nitemsRead == old(nitemsRead) + consumed
      ensures queue == old(queue) + Texts(stream, TagsIn(tags, old(nitemsRead), nitemsRead))
    {
      hide Consumed, TagsIn, Texts, Window;
      ConsumedExact(tags, nitemsRead, inp.Length);
      CallTexts(stream, tags, nitemsRead, inp.Length);
      var size := inp.Length - FRAME;
      if size <= 0 {
        return 0; // nothing can be looked at until more than a frame is on offer
      }
      var frameTags := TagsIn(tags, nitemsRead, nitemsRead + size);
      if |frameTags| == 0 {
        return 0;
      }
      TagsOrdered(tags, nitemsRead, nitemsRead + size);
      HandleFrames(inp, frameTags);
      TextsSplit(stream, tags, nitemsRead, nitemsRead + size);
      consumed := size;
      nitemsRead := nitemsRead + consumed;
    }

    /** The loop over the tags of one call. */
    method HandleFrames(inp: array<Byte>, frameTags: seq<nat>)
      requires inp[..] == Window(stream, nitemsRead, inp.Length)
      requires forall i :: 0 <= i < |frameTags| ==> nitemsRead <= frameTags[i] <= nitemsRead + inp.Length - FRAME
      modifies `queue
      ensures queue == old(queue) + Texts(stream, frameTags)
    {
      hide FrameMessage;
      for i := 0 to |frameTags|
        invariant queue == old(queue) + Texts(stream, frameTags[..i])
      {
        var mark := frameTags[i] - nitemsRead;
        Stretch(stream, nitemsRead, inp[..], mark, FRAME);
        assert inp[mark..mark + FRAME] == inp[..][mark..mark + FRAME];
        var text := DecodeFrame(inp, mark);
        assert frameTags[..i + 1][..i] == frameTags[..i];
        if text.Some? {
          queue := queue + [text.value];
        }
      }
      assert frameTags[..|frameTags|] == frameTags;
    }
  }

  lemma {:induction false} TextsAppend(s: Stream, a: seq<nat>, b: seq<nat>)
    ensures Texts(s, a + b) == Texts(s, a) + Texts(s, b)
    decreases |b|
  {
    if b == [] {
      assert a + b == a;
    } else {
      assert (a + b)[..|a + b| - 1] == a + b[..|b| - 1];
      TextsAppend(s, a, b[..|b| - 1]);
    }
  }

  lemma TextsSplit(s: Stream, tags: Tags, mid: nat, hi: nat)
    requires mid <= hi
    ensures Texts(s, TagsIn(tags, 0, hi)) == Texts(s, TagsIn(tags, 0, mid)) + Texts(s, TagsIn(tags, mid, hi))
  {
    TagsSplit(tags, 0, mid, hi);
    TextsAppend(s, TagsIn(tags, 0, mid), TagsIn(tags, mid, hi));
  }

  /** However the scheduler cuts the stream into calls, the queue holds the messages of the frames
      tagged below the read position, each once and in order: it depends on that position alone. */
  lemma {:induction false} ExactlyOnce(s: Stream, tags: Tags, calls: seq<nat>)
    ensures QueueAfter(s, tags, calls) == Texts(s, TagsIn(tags, 0, ReadAfter(tags, calls)))
  {
    if calls != [] {
      var before := calls[..|calls| - 1];
      ExactlyOnce(s, tags, before);
      TextsSplit(s, tags, ReadAfter(tags, before), ReadAfter(tags, calls));
    }
  }

  /** With at most `room` samples ever on offer, a block at `read` can never move again exactly when none of the
      positions that its longest offer lets it look at carries a tag: untagged samples are not skipped. */
  lemma StuckIff(tags: Tags, read: nat, room: nat)
    ensures (forall n: nat :: n <= room && n % OUTPUT_MULTIPLE == 0 ==> Consumed(tags, read, n) == 0) <==>
            (forall t: nat :: read <= t < read + room / OUTPUT_MULTIPLE * OUTPUT_MULTIPLE - FRAME ==> !tags(t))
  {
    var longest := room / OUTPUT_MULTIPLE * OUTPUT_MULTIPLE;
    if forall t: nat :: read <= t < read + longest - FRAME ==> !tags(t) {
      forall n: nat | n <= room && n % OUTPUT_MULTIPLE == 0
        ensures Consumed(tags, read, n) == 0
      {
        if n > FRAME {
          NoTags(tags, read, read + n - FRAME);
        }
      }
    } else {
      var t: nat :| read <= t < read + longest - FRAME && tags(t);
      TagListed(tags, read, read + longest - FRAME, t);
      assert Consumed(tags, read, longest) != 0;
    }
  }
}
