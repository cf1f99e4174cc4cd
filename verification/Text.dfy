/** The message text between the decoder and the recorder: printed in smartnet_crc.cc, read back in smartnet.cc. */
module Text {
  import opened Bits
  import opened Numbers
  import opened Packet

  // ----- printing

  function DigitChar(d: nat): char
    requires d < 10
  {
    ['0', '1', '2', '3', '4', '5', '6', '7', '8', '9'][d]
  }

  /** An unsigned integer on an output stream. */
  function Decimal(n: nat): (s: string)
    ensures s != []
  {
    if n < 10 then [DigitChar(n)] else Decimal(n / 10) + [DigitChar(n % 10)]
  }

  /** The payload of one queue message. */
  function Message(p: Packet): string {
    Decimal(p.address) + "," + Decimal(if p.groupflag then 1 else 0) + "," + Decimal(p.command)
  }

  /** The message of talkgroup 1616 on command 776, as it is printed. */
  lemma PrintedMessage(crc: nat)
    ensures Message(Packet(1616, true, 776, crc)) == "1616,1,776"
  {
    assert Decimal(16) == "16" && Decimal(161) == "161" && Decimal(1616) == "1616";
    assert Decimal(77) == "77" && Decimal(776) == "776";
  }

  // ----- reading

  predicate IsDigit(c: char) {
    '0' <= c <= '9'
  }

  function DigitValue(c: char): nat
    requires IsDigit(c)
  {
    c as int - '0' as int
  }

  predicate IsSpace(c: char) {
    c in {' ', '\t', '\n', '\r'} || c == 11 as char || c == 12 as char
  }

  /** The leading digits of `s`, continued from `acc`. */
  function ReadDigits(s: string, acc: nat): nat {
    if s != [] && IsDigit(s[0]) then ReadDigits(s[1..], 10 * acc + DigitValue(s[0])) else acc
  }

  /** `atoi`: optional white space and sign, then digits; 0 when there are none. Overflow is not modelled. */
  function Atoi(s: string): int {
    if s == [] then 0
    else if IsSpace(s[0]) then Atoi(s[1..])
    else if s[0] == '-' then 0 - ReadDigits(s[1..], 0)
    else if s[0] == '+' then ReadDigits(s[1..], 0)
    else ReadDigits(s, 0)
  }

  /** The first position from `i` on where a comma stands (or, for `!comma`, something else), or the end. */
  function NextComma(s: string, i: nat, comma: bool): (j: nat)
    requires i <= |s|
    ensures i <= j <= |s|
    ensures forall k :: i <= k < j ==> (s[k] == ',') != comma
    ensures j < |s| ==> (s[j] == ',') == comma
    decreases |s| - i
  {
    if i == |s| || (s[i] == ',') == comma then i else NextComma(s, i + 1, comma)
  }

  /** The pieces of `s` between runs of commas (`split` with token compression). */
  function Split(s: string): (x: seq<string>)
    ensures x != []
    decreases |s|
  {
    var i := NextComma(s, 0, true);
    if i == |s| then [s] else [s[..i]] + Split(s[NextComma(s, i, false)..])
  }

  datatype Fields = Fields(address: int, groupflag: int, command: int)

  /** The three numbers the recorder reads, when there are three to read. */
  function ReadFields(s: string): Fields
    requires |Split(s)| >= 3
  {
    var x := Split(s);
    Fields(Atoi(x[0]), Atoi(x[1]), Atoi(x[2]))
  }

  /** `address & 0xFFF0`, on negative numbers as well (two's complement). */
  function MaskAddress(address: int): (t: nat)
    ensures t % 16 == 0 && t < 0x10000
  {
    address % 0x10000 / 16 * 16
  }

  /** The mask keeps twelve binary digits of the low sixteen and clears the last four. */
  lemma MaskClearsLowDigits(address: int)
    ensures Digits(MaskAddress(address), 16) == Digits(address % 0x10000, 16)[..12] + Zeros(4)
  {
    hide Digits;
    var n := address % 0x10000;
    LowDigits(n, 12);
    LowDigits(n / 16 * 16, 12);
    MultipleOfSixteen(n / 16);
  }

  lemma MultipleOfSixteen(q: nat)
    ensures q * 16 / 16 == q && q * 16 / 8 % 2 == 0 && q * 16 / 4 % 2 == 0 && q * 16 / 2 % 2 == 0 && q * 16 % 2 == 0
  {
    assert q * 16 / 8 == 2 * q && q * 16 / 4 == 4 * q && q * 16 / 2 == 8 * q;
  }

  /** The last four digits come off at a division by sixteen. */
  lemma LowDigits(n: nat, width: nat)
    ensures Digits(n, width + 4) == Digits(n / 16, width) + [n / 8 % 2 == 1, n / 4 % 2 == 1, n / 2 % 2 == 1, n % 2 == 1]
  {
    assert n / 2 / 2 == n / 4 && n / 4 / 2 == n / 8 && n / 8 / 2 == n / 16;
    assert Digits(n, width + 4) == Digits(n / 2, width + 3) + [n % 2 == 1];
    assert Digits(n / 2, width + 3) == Digits(n / 4, width + 2) + [n / 2 % 2 == 1];
    assert Digits(n / 4, width + 2) == Digits(n / 8, width + 1) + [n / 4 % 2 == 1];
    assert Digits(n / 8, width + 1) == Digits(n / 16, width) + [n / 8 % 2 == 1];
  }

  // ----- reading undoes printing

  ghost predicate AllDigits(s: string) {
    forall i :: 0 <= i < |s| ==> IsDigit(s[i])
  }

  lemma {:induction false} DecimalDigits(n: nat)
    ensures AllDigits(Decimal(n))
  {
    if n >= 10 {
      DecimalDigits(n / 10);
    }
  }

  lemma {:induction false} ReadDigitsAppend(s: string, c: char, acc: nat)
    requires AllDigits(s) && IsDigit(c)
    ensures ReadDigits(s + [c], acc) == 10 * ReadDigits(s, acc) + DigitValue(c)
  {
    if s == [] {
      assert s + [c] == [c];
      assert ReadDigits([c], acc) == ReadDigits([c][1..], 10 * acc + DigitValue(c));
    } else {
      assert (s + [c])[1..] == s[1..] + [c];
      ReadDigitsAppend(s[1..], c, 10 * acc + DigitValue(s[0]));
    }
  }

  lemma {:induction false} ReadDecimal(n: nat)
    ensures ReadDigits(Decimal(n), 0) == n
  {
    if n < 10 {
      ReadDigitsAppend([], DigitChar(n), 0);
      assert [] + [DigitChar(n)] == [DigitChar(n)];
    } else {
      DecimalDigits(n / 10);
      ReadDecimal(n / 10);
      ReadDigitsAppend(Decimal(n / 10), DigitChar(n % 10), 0);
    }
  }

  lemma AtoiDecimal(n: nat)
    ensures Atoi(Decimal(n)) == n
  {
    DecimalDigits(n);
    ReadDecimal(n);
    assert IsDigit(Decimal(n)[0]);
  }

  /** A piece without commas in front of a comma that starts no run is split off whole. */
  lemma SplitFirst(a: string, rest: string)
    requires AllDigits(a) && rest != [] && rest[0] != ','
    ensures Split(a + "," + rest) == [a] + Split(rest)
  {
    var s := a + "," + rest;
    assert s[|a|] == ',' && s[|a| + 1] == rest[0];
    assert forall k :: 0 <= k < |a| ==> s[k] == a[k];
    assert NextComma(s, 0, true) == |a|;
    assert NextComma(s, |a|, false) == |a| + 1;
    assert s[..|a|] == a && s[|a| + 1..] == rest;
  }

  lemma SplitLast(a: string)
    requires AllDigits(a)
    ensures Split(a) == [a]
  {
  }

  /** The recorder reads exactly the three numbers that the decoder printed. */
  lemma MessageRoundTrip(p: Packet)
    ensures |Split(Message(p))| == 3
    ensures ReadFields(Message(p)) == Fields(p.address, if p.groupflag then 1 else 0, p.command)
  {
    var a, g, c := Decimal(p.address), Decimal(if p.groupflag then 1 else 0), Decimal(p.command);
    DecimalDigits(p.address);
    DecimalDigits(if p.groupflag then 1 else 0);
    DecimalDigits(p.command);
    assert Message(p) == a + "," + (g + "," + c);
    SplitFirst(g, c);
    SplitFirst(a, g + "," + c);
    SplitLast(c);
    AtoiDecimal(p.address);
    AtoiDecimal(if p.groupflag then 1 else 0);
    AtoiDecimal(p.command);
  }
}
