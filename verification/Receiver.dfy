/** The decoder from channel bits to message text, and what it delivers over a noisy channel. */
module Receiver {
  import opened Wrappers
  import opened Bits
  import opened Crc
  import opened Ecc
  import opened Channel
  import opened ChannelBurst
  import opened FewErrors
  import opened Packet
  import opened Text

  /** The message that a corrected word yields, if the check lets it through. */
  function DecodeWord(w: seq<bool>): Option<string>
    requires |w| == WORD
  {
    if Accepts(w) then Some(Message(Parsed(w))) else None
  }

  /** The channel bits for a message: its word, a guard bit, parity bits, interleaved. */
  function Sent(m: Fields, guard: bool): (c: seq<bool>)
    requires 0 <= m.address < 0x10000 && 0 <= m.groupflag <= 1 && 0 <= m.command < 0x400
    ensures |c| == FRAME
  {
    Transmitted(Composed(m.address, m.groupflag == 1, m.command) + [guard])
  }

  /** The recorder ends up with message `m`. */
  ghost predicate Delivers(r: Option<string>, m: Fields) {
    r.Some? && |Split(r.value)| == 3 && ReadFields(r.value) == m
  }

  lemma RightWordDelivers(m: Fields)
    requires 0 <= m.address < 0x10000 && 0 <= m.groupflag <= 1 && 0 <= m.command < 0x400
    ensures Delivers(DecodeWord(Composed(m.address, m.groupflag == 1, m.command)), m)
  {
    ComposedParses(m.address, m.groupflag == 1, m.command);
    MessageRoundTrip(Parsed(Composed(m.address, m.groupflag == 1, m.command)));
  }

  /** Every message arrives, whatever the number of channel errors, as long as their columns are pairwise two apart. */
  lemma DeliveredThroughSpreadErrors(m: Fields, guard: bool, e: seq<bool>)
    requires 0 <= m.address < 0x10000 && 0 <= m.groupflag <= 1 && 0 <= m.command < 0x400
    requires |e| == FRAME && Spread(e)
    ensures Delivers(DecodeWord(Received(Xor(Sent(m, guard), e))), m)
  {
    var w := Composed(m.address, m.groupflag == 1, m.command);
    assert (w + [guard])[..WORD] == w;
    SpreadRepaired(w + [guard], e);
    RightWordDelivers(m);
  }

  /** Through a channel burst of up to fourteen bits a message arrives as it was sent or not at all. */
  lemma NeverMisreadInBurst(m: Fields, guard: bool, e: seq<bool>, first: nat)
    requires 0 <= m.address < 0x10000 && 0 <= m.groupflag <= 1 && 0 <= m.command < 0x400
    requires |e| == FRAME && InWindow(e, first, SAFE_BURST)
    ensures
      var r := DecodeWord(Received(Xor(Sent(m, guard), e)));
      r.None? || Delivers(r, m)
  {
    var w := Composed(m.address, m.groupflag == 1, m.command);
    assert (w + [guard])[..WORD] == w;
    ComposedParses(m.address, m.groupflag == 1, m.command);
    BurstRepairedOrRejected(w + [guard], e, first);
    RightWordDelivers(m);
  }

  /** With up to five channel errors anywhere a message arrives as it was sent or not at all. */
  lemma NeverMisreadWithFewErrors(m: Fields, guard: bool, e: seq<bool>)
    requires 0 <= m.address < 0x10000 && 0 <= m.groupflag <= 1 && 0 <= m.command < 0x400
    requires |e| == FRAME && Weight(e) <= SAFE_ERRORS
    ensures
      var r := DecodeWord(Received(Xor(Sent(m, guard), e)));
      r.None? || Delivers(r, m)
  {
    var w := Composed(m.address, m.groupflag == 1, m.command);
    assert (w + [guard])[..WORD] == w;
    ComposedParses(m.address, m.groupflag == 1, m.command);
    FewErrorsRepairedOrRejected(w + [guard], e);
    RightWordDelivers(m);
  }
}
