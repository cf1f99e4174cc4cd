/** From a checked word to a packet and back (parse in smartnet_crc.cc, smartnet_types.h). */
module Packet {
  import opened Bits
  import opened Numbers
  import opened Register
  import opened Crc

  datatype Packet = Packet(address: nat, groupflag: bool, command: nat, crc: nat)

  const ADDRESS_MASK := 0x33C7
  const COMMAND_MASK := 0x032A

  /** The fields of a word, each sent inverted. */
  function Parsed(w: seq<bool>): Packet
    requires |w| == WORD
  {
    Packet(XorNumber(Number(Inverted(w[..16])), ADDRESS_MASK),
           !w[16],
           XorNumber(Number(Inverted(w[17..27])), COMMAND_MASK),
           Number(Inverted(w[27..37])))
  }

  /** A field of `width` inverted bits from position `at`, added up bit by bit. */
  method ReadField(inp: array<Byte>, at: nat, width: nat) returns (field: nat)
    requires at + width <= inp.Length
    ensures field == Number(Inverted(LowBits(inp[at..at + width])))
  {
    ghost var s := Inverted(LowBits(inp[at..at + width]));
    field := 0;
    var k := width;
    while k > 0
      invariant 0 <= k <= width
      invariant field == Number(s[..width - k]) * Pow2(k)
    {
      k := k - 1;
      ghost var i := width - k;
      assert s[..i][..i - 1] == s[..i - 1];
      assert s[i - 1] == (LowBit(inp[at + i - 1]) == 0);
      DoubleShift(Number(s[..i - 1]), Pow2(k), if s[i - 1] then 1 else 0);
      field := field + (if LowBit(inp[at + width - 1 - k]) == 0 then Pow2(k) else 0);
    }
    assert s[..width] == s;
  }

  lemma DoubleShift(n: nat, p: nat, b: nat)
    requires b <= 1
    ensures (2 * n + b) * p == n * (2 * p) + (if b == 1 then p else 0)
  {
  }

  /** The group flag alone is read without the mask `& 0x01`. */
  method Parse(inp: array<Byte>) returns (pkt: Packet)
    requires inp.Length >= WORD
    ensures forall k :: 0 <= k < 16 ==> Digits(pkt.address, 16)[k] == ((inp[k] % 2 == 0) != Digits(0x33C7, 16)[k])
    ensures forall k :: 0 <= k < 10 ==> Digits(pkt.command, 10)[k] == ((inp[17 + k] % 2 == 0) != Digits(0x032A, 10)[k])
    ensures forall k :: 0 <= k < 10 ==> Digits(pkt.crc, 10)[k] == (inp[27 + k] % 2 == 0)
    ensures pkt.address < 0x10000 && pkt.command < 0x400 && pkt.crc < 0x400 && pkt.groupflag == (inp[16] == 0)
    ensures pkt == Parsed(LowBits(inp[..WORD])).(groupflag := inp[16] == 0)
    ensures pkt == Parsed(LowBits(inp[..WORD])) <==> inp[16] == 0 || IsSet(inp[16])
  {
    hide Number, Digits, XorNumber, Inverted;
    ghost var w := LowBits(inp[..WORD]);
    var address := ReadField(inp, 0, 16);
    var command := ReadField(inp, 17, 10);
    var crc := ReadField(inp, 27, 10);
    assert LowBits(inp[0..16]) == w[..16] && LowBits(inp[17..27]) == w[17..27] && LowBits(inp[27..37]) == w[27..37];
    pkt := Packet(XorNumber(address, ADDRESS_MASK), inp[16] == 0, XorNumber(command, COMMAND_MASK), crc);
    Widths();
    FieldDigits(w[..16], ADDRESS_MASK);
    FieldDigits(w[17..27], COMMAND_MASK);
    PlainDigits(w[27..37]);
  }

  /** The digits of a field are the inverse of its bits, added to the mask. */
  lemma FieldDigits(s: seq<bool>, mask: nat)
    requires mask < Pow2(|s|)
    ensures XorNumber(Number(Inverted(s)), mask) < Pow2(|s|)
    ensures forall k :: 0 <= k < |s| ==>
      Digits(XorNumber(Number(Inverted(s)), mask), |s|)[k] == (!s[k] != Digits(mask, |s|)[k])
  {
    hide XorNumber;
    var n := Number(Inverted(s));
    PlainDigits(s);
    XorNumberBound(n, mask, |s|);
    forall k | 0 <= k < |s|
      ensures Digits(XorNumber(n, mask), |s|)[k] == (!s[k] != Digits(mask, |s|)[k])
    {
      XorDigits(n, mask, |s|, k);
    }
  }

  lemma PlainDigits(s: seq<bool>)
    ensures Number(Inverted(s)) < Pow2(|s|)
    ensures forall k :: 0 <= k < |s| ==> Digits(Number(Inverted(s)), |s|)[k] == !s[k]
  {
    NumberBound(Inverted(s));
    DigitsOfNumber(Inverted(s));
  }

  // ----- the sender's side, and that the two are inverse

  /** The 27 payload bits for a message. */
  function Payload(address: nat, groupflag: bool, command: nat): (p: seq<bool>)
    ensures |p| == PAYLOAD
  {
    Inverted(Digits(XorNumber(address, ADDRESS_MASK), 16)) + [!groupflag] + Inverted(Digits(XorNumber(command, COMMAND_MASK), 10))
  }

  /** The inverted bits of a register, most significant first. */
  function CheckBits(x: Reg): (c: seq<bool>)
    ensures |c| == CHECK
  {
    seq(CHECK, k requires 0 <= k < CHECK => !BitOf(x, CHECK - 1 - k))
  }

  /** The check register for a payload. */
  function Expected(p: seq<bool>): Reg
    requires |p| == PAYLOAD
  {
    CRC_START.Add(Partial(p + Zeros(CHECK), 0, PAYLOAD))
  }

  function Composed(address: nat, groupflag: bool, command: nat): (w: seq<bool>)
    ensures |w| == WORD
  {
    var p := Payload(address, groupflag, command);
    p + CheckBits(Expected(p))
  }

  lemma {:induction false} PartialPrefix(w: seq<bool>, v: seq<bool>, n: nat)
    requires |w| == |v| == WORD && n <= WORD && w[..n] == v[..n]
    ensures Partial(w, 0, n) == Partial(v, 0, n)
  {
    if n > 0 {
      assert w[..n][..n - 1] == w[..n - 1] && v[..n][..n - 1] == v[..n - 1];
      assert w[n - 1] == w[..n][n - 1] == v[n - 1];
      PartialPrefix(w, v, n - 1);
    }
  }

  function BitOf(x: Reg, i: nat): bool
    requires i < CHECK
  {
    if i == 0 then x.b0 else if i == 1 then x.b1 else if i == 2 then x.b2 else if i == 3 then x.b3 else if i == 4 then x.b4
    else if i == 5 then x.b5 else if i == 6 then x.b6 else if i == 7 then x.b7 else if i == 8 then x.b8 else x.b9
  }

  /** `(x << 1) + b` */
  function Push(x: Reg, b: bool): Reg {
    Reg(x.b8, x.b7, x.b6, x.b5, x.b4, x.b3, x.b2, x.b1, x.b0, b)
  }

  lemma PushIsShift(x: Reg, b: bool)
    ensures x.Shl().Add(Pick(b, ONE)) == Push(x, b)
  {
  }

  lemma PushBit(x: Reg, b: bool, i: nat)
    requires i < CHECK
    ensures BitOf(Push(x, b), i) == if i == 0 then b else BitOf(x, i - 1)
  {
  }

  lemma ZeroBit(i: nat)
    requires i < CHECK
    ensures !BitOf(ZERO, i)
  {
  }

  /** Bit `i` of the number read so far is the inverse of the bit `i` places back. */
  lemma {:induction false} GivenBit(w: seq<bool>, j: nat, i: nat)
    requires |w| == WORD && j <= CHECK && i < CHECK
    ensures BitOf(Given(w, j), i) == (i < j && !w[PAYLOAD + j - 1 - i])
  {
    if j == 0 {
      ZeroBit(i);
    } else {
      var g, b := Given(w, j - 1), !w[PAYLOAD + j - 1];
      assert BitOf(Given(w, j), i) == if i == 0 then b else BitOf(g, i - 1) by {
        PushIsShift(g, b);
        PushBit(g, b, i);
      }
      if i > 0 {
        GivenBit(w, j - 1, i - 1);
      }
    }
  }

  lemma GivenIsRest(w: seq<bool>)
    requires |w| == WORD
    ensures w[PAYLOAD..] == CheckBits(Given(w, CHECK))
  {
    var c := CheckBits(Given(w, CHECK));
    forall k | 0 <= k < CHECK
      ensures c[k] == w[PAYLOAD..][k]
    {
      GivenBit(w, CHECK, CHECK - 1 - k);
    }
  }

  /** The payload of an accepted word determines its check bits, and any payload has them. */
  lemma AcceptedIffChecked(w: seq<bool>)
    requires |w| == WORD
    ensures Accepts(w) <==> w[PAYLOAD..] == CheckBits(Expected(w[..PAYLOAD]))
  {
    var x, g := Expected(w[..PAYLOAD]), Given(w, CHECK);
    var v := w[..PAYLOAD] + Zeros(CHECK);
    assert Accepts(w) <==> g == x by {
      AcceptsWhenEqual(w);
      assert v[..PAYLOAD] == w[..PAYLOAD];
      PartialPrefix(w, v, PAYLOAD);
    }
    GivenIsRest(w);
    if w[PAYLOAD..] == CheckBits(x) {
      CheckBitsInjective(x, g);
    }
  }

  lemma CheckBitsInjective(x: Reg, y: Reg)
    requires CheckBits(x) == CheckBits(y)
    ensures x == y
  {
    forall i | 0 <= i < CHECK
      ensures BitOf(x, i) == BitOf(y, i)
    {
      assert CheckBits(x)[CHECK - 1 - i] == CheckBits(y)[CHECK - 1 - i];
    }
    assert BitOf(x, 0) == BitOf(y, 0) && BitOf(x, 1) == BitOf(y, 1) && BitOf(x, 2) == BitOf(y, 2) && BitOf(x, 3) == BitOf(y, 3) && BitOf(x, 4) == BitOf(y, 4);
    assert BitOf(x, 5) == BitOf(y, 5) && BitOf(x, 6) == BitOf(y, 6) && BitOf(x, 7) == BitOf(y, 7) && BitOf(x, 8) == BitOf(y, 8) && BitOf(x, 9) == BitOf(y, 9);
  }

  /** Every message has a word that the receiver accepts and reads back as that message. */
  lemma ComposedParses(address: nat, groupflag: bool, command: nat)
    requires address < 0x10000 && command < 0x400
    ensures
      var w := Composed(address, groupflag, command);
      Accepts(w) && Parsed(w).address == address && Parsed(w).groupflag == groupflag && Parsed(w).command == command
  {
    hide Accepts, Number, Digits, XorNumber, Inverted, CheckBits, Expected;
    var p, w := Payload(address, groupflag, command), Composed(address, groupflag, command);
    assert Accepts(w) by {
      assert w[..PAYLOAD] == p && w[PAYLOAD..] == CheckBits(Expected(p));
      AcceptedIffChecked(w);
    }
    Widths();
    FieldRoundTrip(address, ADDRESS_MASK, 16);
    FieldRoundTrip(command, COMMAND_MASK, 10);
    assert w[..16] == Inverted(Digits(XorNumber(address, ADDRESS_MASK), 16));
    assert w[17..27] == Inverted(Digits(XorNumber(command, COMMAND_MASK), 10));
  }

  lemma FieldRoundTrip(n: nat, mask: nat, width: nat)
    requires (width == 16 || width == 10) && n < Pow2(width) && mask < Pow2(width)
    ensures XorNumber(Number(Inverted(Inverted(Digits(XorNumber(n, mask), width)))), mask) == n
  {
    InvertedTwice(Digits(XorNumber(n, mask), width));
    XorNumberBound(n, mask, width);
    NumberOfDigits(XorNumber(n, mask), width);
    XorNumberTwice(n, mask);
  }

  /** Every accepted word is the word of the message it is read as: together with the above, a bijection. */
  lemma ParsedComposes(w: seq<bool>)
    requires |w| == WORD && Accepts(w)
    ensures
      var p := Parsed(w);
      p.address < 0x10000 && p.command < 0x400 && Composed(p.address, p.groupflag, p.command) == w
  {
    hide Accepts, Number, Digits, XorNumber, Inverted, CheckBits, Expected;
    var p := Parsed(w);
    Widths();
    FieldDetermined(w[..16], ADDRESS_MASK);
    FieldDetermined(w[17..27], COMMAND_MASK);
    var q := Payload(p.address, p.groupflag, p.command);
    assert w[..PAYLOAD] == w[..16] + [w[16]] + w[17..27] == q;
    assert w == w[..PAYLOAD] + w[PAYLOAD..] == Composed(p.address, p.groupflag, p.command) by {
      AcceptedIffChecked(w);
    }
  }

  lemma FieldDetermined(s: seq<bool>, mask: nat)
    requires (|s| == 16 || |s| == 10) && mask < Pow2(|s|)
    ensures
      var n := XorNumber(Number(Inverted(s)), mask);
      n < Pow2(|s|) && Inverted(Digits(XorNumber(n, mask), |s|)) == s
  {
    NumberBound(Inverted(s));
    XorNumberBound(Number(Inverted(s)), mask, |s|);
    XorNumberTwice(Number(Inverted(s)), mask);
    DigitsOfNumber(Inverted(s));
    InvertedTwice(s);
  }
}
