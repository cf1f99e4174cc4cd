/** RIFF headers and samples on a file (smartnet_wavfile.cc), for a little-endian host. */
module WavFile {
  import opened Wrappers
  import opened Bits

  const HEADER_LENGTH := 44
  const UINT16 := 0x1_0000
  const UINT32 := 0x1_0000_0000

  /** An open file: its bytes and the position of the next access. */
  class File {
    const name: string
    var data: seq<Byte>
    var pos: nat

    constructor (name: string, data: seq<Byte>)
      ensures this.name == name && this.data == data && pos == 0
    {
      this.name := name;
      this.data := data;
      pos := 0;
    }

    method Seek(to: nat)
      modifies `pos
      ensures pos == to
    {
      pos := to;
    }

    method SeekEnd()
      modifies `pos
      ensures pos == |data|
    {
      pos := |data|;
    }

    method Write(bytes: seq<Byte>)
      modifies this
      ensures data == Put(old(data), old(pos), bytes) && pos == old(pos) + |bytes|
    {
      data := Put(data, pos, bytes);
      pos := pos + |bytes|;
    }

    /** At most `n` bytes; fewer at the end of the file. */
    method Read(n: nat) returns (bytes: seq<Byte>)
      modifies `pos
      ensures bytes == Stretch(data, old(pos), n) && pos == old(pos) + |bytes|
    {
      bytes := Stretch(data, pos, n);
      pos := pos + |bytes|;
    }
  }

  /** `data` with `bytes` written from position `at` on; a gap before it is filled with zeros. */
  function Put(data: seq<Byte>, at: nat, bytes: seq<Byte>): (r: seq<Byte>)
    ensures at <= |data| ==> |r| == if at + |bytes| > |data| then at + |bytes| else |data|
  {
    var base := if |data| < at then data + seq(at - |data|, _ => 0) else data;
    base[..at] + bytes + (if at + |bytes| < |base| then base[at + |bytes|..] else [])
  }

  function Stretch(data: seq<Byte>, at: nat, n: nat): seq<Byte> {
    if at >= |data| then [] else if at + n <= |data| then data[at..at + n] else data[at..]
  }

  // ----- little-endian numbers

  function Le16(n: nat): (b: seq<Byte>)
    ensures |b| == 2
  {
    [n % 256, n / 256 % 256]
  }

  function Le32(n: nat): (b: seq<Byte>)
    ensures |b| == 4
  {
    [n % 256, n / 256 % 256, n / 65536 % 256, n / 16777216 % 256]
  }

  function U16(b: seq<Byte>): nat
    requires |b| == 2
  {
    b[0] as int + 256 * b[1] as int
  }

  function U32(b: seq<Byte>): nat
    requires |b| == 4
  {
    b[0] as int + 256 * b[1] as int + 65536 * b[2] as int + 16777216 * b[3] as int
  }

  lemma LittleEndian16(n: nat)
    requires n < UINT16
    ensures U16(Le16(n)) == n
  {
  }

  lemma LittleEndian32(n: nat)
    requires n < UINT32
    ensures U32(Le32(n)) == n
  {
    var a, b, c := n / 256, n / 65536, n / 16777216;
    assert b == a / 256 && c == b / 256;
  }

  // ----- the header

  const RIFF: seq<Byte> := [82, 73, 70, 70]
  const WAVE_FMT: seq<Byte> := [87, 65, 86, 69, 102, 109, 116, 32]
  const DATA: seq<Byte> := [100, 97, 116, 97]

  /** What the format of a file is. */
  datatype Format = Format(rate: nat, nchans: nat, bytesPerSample: nat) {
    predicate Valid() {
      rate < UINT32 && 0 < nchans < UINT16 && (bytesPerSample == 1 || bytesPerSample == 2)
    }

    function FrameSize(): nat {
      bytesPerSample * nchans
    }

    /** How many whole frames fill `size` bytes. */
    function Frames(size: nat): nat {
      if FrameSize() == 0 then 0 else size / FrameSize()
    }
  }

  /** The 44 header bytes for a format, a RIFF chunk size and a data chunk size. */
  function Header(f: Format, riff: nat, size: nat): (h: seq<Byte>)
    ensures |h| == HEADER_LENGTH
  {
    RIFF + Le32(riff) + WAVE_FMT + Le32(16) + Le16(1) + Le16(f.nchans) + Le32(f.rate)
    + Le32(f.rate * (f.FrameSize() % UINT16)) + Le16(f.FrameSize()) + Le16(f.bytesPerSample * 8) + DATA + Le32(size)
  }

  /** `memcpy` into a fixed buffer. */
  method CopyTo(buffer: array<Byte>, at: nat, bytes: seq<Byte>)
    requires at + |bytes| <= buffer.Length
    modifies buffer
    ensures buffer[..] == Put(old(buffer[..]), at, bytes)
  {
    for i := 0 to |bytes|
      invariant forall k :: 0 <= k < i ==> buffer[at + k] == bytes[k]
      invariant forall k :: 0 <= k < buffer.Length && !(at <= k < at + i) ==> buffer[k] == old(buffer[k])
    {
      buffer[at + i] := bytes[i];
    }
    assert buffer[..] == old(buffer[..])[..at] + bytes + old(buffer[..])[at + |bytes|..];
  }

  /** Overwriting a stretch in the middle. */
  lemma PutMiddle(a: seq<Byte>, x: seq<Byte>, c: seq<Byte>, y: seq<Byte>)
    requires |x| == |y|
    ensures Put(a + x + c, |a|, y) == a + y + c
  {
  }

  /** The header buffer before the fields are copied in. */
  function Template(): (t: seq<Byte>)
    ensures |t| == HEADER_LENGTH
  {
    RIFF + [0, 0, 0, 0] + WAVE_FMT + [0, 0, 0, 0] + [0, 0] + [0, 0] + [0, 0, 0, 0] + [0, 0, 0, 0] + [0, 0] + [0, 0] + DATA + [0, 0, 0, 0]
  }

  /** The five copies turn the template into the header. */
  lemma HeaderSteps(f: Format)
    ensures
      var t0 := Template()[16 := 0x10][20 := 0x01];
      var t1 := Put(t0, 22, Le16(f.nchans));
      var t2 := Put(t1, 24, Le32(f.rate));
      var t3 := Put(t2, 28, Le32(f.rate * (f.FrameSize() % UINT16)));
      var t4 := Put(t3, 32, Le16(f.FrameSize()));
      Put(t4, 34, Le16(f.bytesPerSample * 8)) == Header(f, 0, 0)
  {
    hide Le16, Put;
    var z2: seq<Byte>, z4: seq<Byte> := [0, 0], [0, 0, 0, 0];
    var a0 := RIFF + z4 + WAVE_FMT + [0x10, 0, 0, 0] + [1, 0];
    var a1 := a0 + Le16(f.nchans);
    var a2 := a1 + Le32(f.rate);
    var a3 := a2 + Le32(f.rate * (f.FrameSize() % UINT16));
    var a4 := a3 + Le16(f.FrameSize());
    var c4 := DATA + z4;
    var c3 := z2 + c4;
    var c2 := z2 + c3;
    var c1 := z4 + c2;
    var c0 := z4 + c1;
    assert Template()[16 := 0x10][20 := 0x01] == a0 + z2 + c0;
    PutMiddle(a0, z2, c0, Le16(f.nchans));
    assert a0 + Le16(f.nchans) + c0 == a1 + z4 + c1;
    PutMiddle(a1, z4, c1, Le32(f.rate));
    assert a1 + Le32(f.rate) + c1 == a2 + z4 + c2;
    PutMiddle(a2, z4, c2, Le32(f.rate * (f.FrameSize() % UINT16)));
    assert a2 + Le32(f.rate * (f.FrameSize() % UINT16)) + c2 == a3 + z2 + c3;
    PutMiddle(a3, z2, c3, Le16(f.FrameSize()));
    assert a3 + Le16(f.FrameSize()) + c3 == a4 + z2 + c4;
    PutMiddle(a4, z2, c4, Le16(f.bytesPerSample * 8));
    SmallNumbers();
    assert Header(f, 0, 0) == a4 + Le16(f.bytesPerSample * 8) + c4;
  }

  lemma SmallNumbers()
    ensures Le32(0) == [0, 0, 0, 0] && Le32(16) == [0x10, 0, 0, 0] && Le16(1) == [1, 0]
  {
  }

  /** The header with its two sizes left blank. */
  method HeaderWrite(fp: File, f: Format)
    modifies fp
    ensures fp.data == Put(old(fp.data), old(fp.pos), Header(f, 0, 0)) && fp.pos == old(fp.pos) + HEADER_LENGTH
  {
    hide Put, Le16, Le32, Header, Template;
    var template := Template();
    var wavHdr := new Byte[HEADER_LENGTH](i requires 0 <= i < HEADER_LENGTH => template[i]);
    assert wavHdr[..] == template;
    wavHdr[16] := 0x10; // no extra bytes
    wavHdr[20] := 0x01; // no compression
    assert wavHdr[..] == template[16 := 0x10][20 := 0x01];
    CopyTo(wavHdr, 22, Le16(f.nchans));
    CopyTo(wavHdr, 24, Le32(f.rate));
    CopyTo(wavHdr, 28, Le32(f.rate * (f.FrameSize() % UINT16)));
    CopyTo(wavHdr, 32, Le16(f.FrameSize()));
    CopyTo(wavHdr, 34, Le16(f.bytesPerSample * 8));
    HeaderSteps(f);
    fp.Write(wavHdr[..]);
  }

  /** Fills in the two sizes; the position is left behind the first of them. */
  method HeaderComplete(fp: File, byteCount: nat)
    requires byteCount < UINT32
    modifies fp
    ensures fp.data == Put(Put(old(fp.data), 40, Le32(byteCount)), 4, Le32((byteCount + 36) % UINT32))
  {
    fp.Seek(40);
    fp.Write(Le32(byteCount));
    fp.Seek(4);
    fp.Write(Le32((byteCount + 36) % UINT32));
  }

  /** Completing the header of a file changes the two sizes and nothing else. */
  lemma Completed(f: Format, riff: nat, size: nat, body: seq<Byte>, riff': nat, size': nat)
    ensures Put(Put(Header(f, riff, size) + body, 40, Le32(size')), 4, Le32(riff')) == Header(f, riff', size') + body
  {
    hide Put, Le16, Le32;
    var middle := WAVE_FMT + Le32(16) + Le16(1) + Le16(f.nchans) + Le32(f.rate)
      + Le32(f.rate * (f.FrameSize() % UINT16)) + Le16(f.FrameSize()) + Le16(f.bytesPerSample * 8) + DATA;
    var a := RIFF + Le32(riff) + middle;
    var c := middle + Le32(size') + body;
    assert Header(f, riff, size) + body == a + Le32(size) + body;
    PutMiddle(a, Le32(size), body, Le32(size'));
    assert a + Le32(size') + body == RIFF + Le32(riff) + c;
    PutMiddle(RIFF, Le32(riff), c, Le32(riff'));
    assert RIFF + Le32(riff') + c == Header(f, riff', size') + body;
  }

  // ----- reading a header back

  datatype Info = Info(format: Format, firstSample: nat, samplesPerChan: nat)

  /** Field accesses, where the file is long enough. */
  function Short(data: seq<Byte>, at: nat): nat
    requires at + 2 <= |data|
  {
    U16(data[at..at + 2])
  }

  function Word(data: seq<Byte>, at: nat): nat
    requires at + 4 <= |data|
  {
    U32(data[at..at + 4])
  }

  /** Where the data chunk starts: extra bytes of the format chunk are skipped, the length taken modulo 2^32. */
  function DataAt(data: seq<Byte>): nat
    requires |data| >= 36
  {
    36 + (Word(data, 16) - 16) % UINT32
  }

  /** The format that the first 36 bytes name, if the program reads it. */
  function FormatOf(data: seq<Byte>): (r: Option<Format>)
    ensures r.Some? ==> |data| >= 36
  {
    if |data| < 36 || data[0..4] != RIFF || data[8..16] != WAVE_FMT then None else ChunkOf(data)
  }

  /** The format that the fields of the format chunk name: not compressed, 8 or 16 bits. */
  function ChunkOf(data: seq<Byte>): Option<Format>
    requires |data| >= 36
  {
    if Short(data, 20) != 1 || (Short(data, 34) != 8 && Short(data, 34) != 16) then None
    else Some(Format(Word(data, 24), Short(data, 22), Short(data, 34) / 8))
  }

  /** What a header says, if it is one that the program reads. */
  function Parsed(data: seq<Byte>): Option<Info> {
    var f := FormatOf(data);
    if f.None? then None
    else
      var d := DataAt(data);
      if |data| < d + 8 || data[d..d + 4] != DATA || f.value.nchans == 0 then None
      else Some(Info(f.value, d + 8, f.value.Frames(Word(data, d + 4))))
  }

  /** The header parser, field by field from the start of the file. */
  method HeaderParse(fp: File) returns (r: Option<Info>)
    requires fp.pos == 0
    modifies fp`pos
    ensures r == Parsed(fp.data)
  {
    hide U16, U32, Format.Frames, Format.FrameSize, FormatOf;
    var f, skip := FormatParse(fp);
    if f.None? {
      return None;
    }
    if skip != 0 {
      fp.Seek(fp.pos + skip);
    }
    var strBuf := fp.Read(4);
    if strBuf != DATA {
      return None;
    }
    var chunkSize := fp.Read(4);
    if |chunkSize| != 4 || f.value.nchans == 0 {
      return None;
    }
    r := Some(Info(f.value, fp.pos, f.value.Frames(U32(chunkSize))));
  }

  /** The RIFF header and the format chunk; `skip` is the number of extra bytes in the chunk. */
  method FormatParse(fp: File) returns (f: Option<Format>, skip: nat)
    requires fp.pos == 0
    modifies fp`pos
    ensures f == FormatOf(fp.data)
    ensures f.Some? ==> fp.pos == 36 && fp.pos + skip == DataAt(fp.data)
  {
    hide U16, U32, ChunkOf;
    skip := 0;
    var strBuf := fp.Read(4);
    if |strBuf| != 4 || strBuf != RIFF {
      return None, 0;
    }
    var fileSize := fp.Read(4);
    strBuf := fp.Read(8);
    if |strBuf| != 8 || strBuf != WAVE_FMT {
      return None, 0;
    }
    f, skip := ChunkParse(fp);
  }

  /** The fields of the format chunk, behind its name. */
  method ChunkParse(fp: File) returns (f: Option<Format>, skip: nat)
    requires fp.pos == 16
    modifies fp`pos
    ensures f == if |fp.data| < 36 then None else ChunkOf(fp.data)
    ensures f.Some? ==> fp.pos == 36 && fp.pos + skip == DataAt(fp.data)
  {
    hide U16, U32;
    skip := 0;
    var fmtHdrSkip := fp.Read(4);
    var compressionType := fp.Read(2);
    var nchans := fp.Read(2);
    var sampleRate := fp.Read(4);
    var avgBytesPerSec := fp.Read(4);
    var blockAlign := fp.Read(2);
    var bitsPerSample := fp.Read(2);
    if |bitsPerSample| != 2 || U16(compressionType) != 1 {
      return None, 0; // the file ends inside its header, or is compressed
    }
    if U16(bitsPerSample) != 8 && U16(bitsPerSample) != 16 {
      return None, 0;
    }
    skip := (U32(fmtHdrSkip) - 16) % UINT32;
    f := Some(Format(U32(sampleRate), U16(nchans), U16(bitsPerSample) / 8));
  }

  /** The fields of a header that the program may meet: `extra` are the bytes beyond 16 in the format chunk. */
  datatype Fields = Fields(riff: nat, compression: nat, nchans: nat, rate: nat, avg: nat, align: nat, bits: nat,
                           extra: seq<Byte>, size: nat) {
    predicate Fit() {
      && riff < UINT32 && compression < UINT16 && nchans < UINT16 && rate < UINT32 && avg < UINT32 && align < UINT16
      && bits < UINT16 && |extra| < UINT32 && size < UINT32
    }

    function Named(): Format {
      Format(rate, nchans, bits / 8)
    }
  }

  /** The first 36 bytes of such a header. */
  function Front(h: Fields): (b: seq<Byte>)
    ensures |b| == 36
  {
    RIFF + Le32(h.riff) + WAVE_FMT + Le32((16 + |h.extra|) % UINT32) + Le16(h.compression) + Le16(h.nchans) + Le32(h.rate)
    + Le32(h.avg) + Le16(h.align) + Le16(h.bits)
  }

  function AnyHeader(h: Fields): (b: seq<Byte>)
    ensures |b| == HEADER_LENGTH + |h.extra|
  {
    Front(h) + h.extra + DATA + Le32(h.size)
  }

  lemma FrontReads(h: Fields, rest: seq<Byte>)
    requires h.Fit()
    ensures
      var d := Front(h) + rest;
      && d[0..4] == RIFF && d[8..16] == WAVE_FMT
      && Word(d, 4) == h.riff && Word(d, 16) == (16 + |h.extra|) % UINT32 && Short(d, 20) == h.compression && Short(d, 22) == h.nchans
      && Word(d, 24) == h.rate && Word(d, 28) == h.avg && Short(d, 32) == h.align && Short(d, 34) == h.bits
  {
    hide Le16, Le32, U16, U32;
    var d := Front(h) + rest;
    assert d[4..8] == Le32(h.riff) && d[16..20] == Le32((16 + |h.extra|) % UINT32) && d[20..22] == Le16(h.compression);
    assert d[22..24] == Le16(h.nchans) && d[24..28] == Le32(h.rate) && d[28..32] == Le32(h.avg);
    assert d[32..34] == Le16(h.align) && d[34..36] == Le16(h.bits);
    LittleEndian32(h.riff);
    LittleEndian32((16 + |h.extra|) % UINT32);
    LittleEndian16(h.compression);
    LittleEndian16(h.nchans);
    LittleEndian32(h.rate);
    LittleEndian32(h.avg);
    LittleEndian16(h.align);
    LittleEndian16(h.bits);
  }

  /** Exactly the headers with compression type 1, 8 or 16 bits and at least one channel are read; the extra bytes of
      the format chunk, however many, are skipped. */
  lemma AnyHeaderParses(h: Fields, body: seq<Byte>)
    requires h.Fit()
    ensures Parsed(AnyHeader(h) + body) ==
      if h.compression == 1 && (h.bits == 8 || h.bits == 16) && h.nchans > 0 then
        Some(Info(h.Named(), 44 + |h.extra|, h.Named().Frames(h.size)))
      else None
  {
    hide Le16, Le32, U16, U32, Front, Format.Frames, Format.FrameSize;
    var rest := h.extra + DATA + Le32(h.size) + body;
    var d := AnyHeader(h) + body;
    assert d == Front(h) + rest;
    FrontReads(h, rest);
    var at := 36 + |h.extra|;
    assert d[at..at + 4] == DATA && d[at + 4..at + 8] == Le32(h.size);
    LittleEndian32(h.size);
  }

  lemma Bytes32(b: seq<Byte>)
    requires |b| == 4
    ensures U32(b) < UINT32 && Le32(U32(b)) == b
  {
    var c0: int, c1: int, c2: int, c3: int := b[0], b[1], b[2], b[3];
    Digits256(c0, c1 + 256 * c2 + 65536 * c3);
    Digits256(c1, c2 + 256 * c3);
    Digits256(c2, c3);
    QuotientTwice(U32(b));
  }

  lemma Digits256(low: nat, high: nat)
    requires low < 256
    ensures (low + 256 * high) % 256 == low && (low + 256 * high) / 256 == high
  {
  }

  lemma QuotientTwice(n: nat)
    ensures n / 65536 == n / 256 / 256 && n / 16777216 == n / 256 / 256 / 256
  {
  }

  lemma Bytes16(b: seq<Byte>)
    requires |b| == 2
    ensures U16(b) < UINT16 && Le16(U16(b)) == b
  {
  }

  /** Conversely whatever is read has that form. */
  lemma ParsedForm(d: seq<Byte>) returns (h: Fields, body: seq<Byte>)
    requires Parsed(d).Some?
    ensures h.Fit() && d == AnyHeader(h) + body
  {
    hide Le16, Le32, U16, U32, Format.Frames, Format.FrameSize;
    var at := DataAt(d);
    h := Fields(Word(d, 4), Short(d, 20), Short(d, 22), Word(d, 24), Word(d, 28), Short(d, 32), Short(d, 34), d[36..at], Word(d, at + 4));
    body := d[at + 8..];
    Bytes32(d[4..8]);
    Bytes32(d[16..20]);
    Bytes16(d[20..22]);
    Bytes16(d[22..24]);
    Bytes32(d[24..28]);
    Bytes32(d[28..32]);
    Bytes16(d[32..34]);
    Bytes16(d[34..36]);
    Bytes32(d[at + 4..at + 8]);
    FormatLength(Word(d, 16));
    Pieces(d, at);
  }

  lemma FormatLength(n: nat)
    requires n < UINT32
    ensures (16 + (n - 16) % UINT32) % UINT32 == n
  {
  }

  lemma Pieces(d: seq<Byte>, at: nat)
    requires 36 <= at && at + 8 <= |d|
    ensures d == d[0..4] + d[4..8] + d[8..16] + d[16..20] + d[20..22] + d[22..24] + d[24..28] + d[28..32] + d[32..34] + d[34..36]
                 + d[36..at] + d[at..at + 4] + d[at + 4..at + 8] + d[at + 8..]
  {
  }

  /** A written and completed header is read back as it was meant. */
  lemma HeaderRoundTrip(f: Format, riff: nat, size: nat, body: seq<Byte>)
    requires f.Valid() && riff < UINT32 && size < UINT32
    ensures Parsed(Header(f, riff, size) + body) == Some(Info(f, HEADER_LENGTH, f.Frames(size)))
  {
    hide Le16, Le32, Parsed, Format.Frames;
    var h := Fields(riff, 1, f.nchans, f.rate, f.rate * (f.FrameSize() % UINT16) % UINT32, f.FrameSize() % UINT16,
      f.bytesPerSample * 8, [], size);
    Le32Wraps(f.rate * (f.FrameSize() % UINT16));
    Le16Wraps(f.FrameSize());
    AnyHeaderParses(h, body);
    assert h.Named() == f;
    assert AnyHeader(h) == Header(f, riff, size);
  }

  lemma Le32Wraps(n: nat)
    ensures Le32(n % UINT32) == Le32(n)
  {
    var m, q := n % UINT32, n / UINT32;
    assert n == m + UINT32 * q;
    SameDigit(m, 16777216 * q);
    QuotientTwice(m);
    QuotientTwice(n);
    SameDigit(m / 256, 65536 * q);
    SameDigit(m / 256 / 256, 256 * q);
    SameDigit(m / 256 / 256 / 256, q);
  }

  lemma SameDigit(m: nat, k: nat)
    ensures (m + 256 * k) % 256 == m % 256 && (m + 256 * k) / 256 == m / 256 + k
  {
  }

  lemma Le16Wraps(n: nat)
    ensures Le16(n % UINT16) == Le16(n)
  {
    var m, q := n % UINT16, n / UINT16;
    assert n == UINT16 * q + m;
    assert n / 256 == 256 * q + m / 256;
  }

  /** Every byte of the header that is written: "RIFF", "WAVEfmt ", a chunk of 16 bytes, no compression, "data". */
  lemma HeaderBytes(f: Format, riff: nat, size: nat)
    ensures
      var align := f.bytesPerSample * f.nchans % 0x1_0000;
      Header(f, riff, size) == [82, 73, 70, 70] + Le32(riff) + [87, 65, 86, 69, 102, 109, 116, 32] + [16, 0, 0, 0] + [1, 0]
        + Le16(f.nchans) + Le32(f.rate) + Le32(f.rate * align) + Le16(align) + Le16(8 * f.bytesPerSample)
        + [100, 97, 116, 97] + Le32(size)
  {
    hide Le16, Le32;
    SmallNumbers();
    Le16Wraps(f.FrameSize());
  }

  /** Numbers are written with the least significant byte first. */
  lemma Value16(n: nat)
    requires n < UINT16
    ensures Le16(n)[0] as int + 256 * Le16(n)[1] as int == n
  {
  }

  lemma Value32(n: nat)
    requires n < UINT32
    ensures Le32(n)[0] as int + 256 * Le32(n)[1] as int + 65536 * Le32(n)[2] as int + 16777216 * Le32(n)[3] as int == n
  {
    LittleEndian32(n);
  }

  // ----- samples

  /** The bytes of one sample: 8 bit unsigned or 16 bit two's complement. */
  function SampleBytes(sample: int, bytesPerSample: nat): (b: seq<Byte>)
  {
    if bytesPerSample == 1 then [sample % 256] else Le16(sample % UINT16)
  }

  /** One unsigned byte, or two with the least significant first. */
  lemma SampleEndian(sample: int)
    ensures SampleBytes(sample, 1) == [sample % 256]
    ensures |SampleBytes(sample, 2)| == 2 && SampleBytes(sample, 2)[0] as int + 256 * SampleBytes(sample, 2)[1] as int == sample % 0x1_0000
  {
    Value16(sample % UINT16);
  }

  method WriteSample(fp: File, sample: int, bytesPerSample: nat)
    modifies fp
    ensures fp.data == Put(old(fp.data), old(fp.pos), SampleBytes(sample, bytesPerSample))
    ensures fp.pos == old(fp.pos) + |SampleBytes(sample, bytesPerSample)|
  {
    if bytesPerSample == 1 {
      var buf8bit: Byte := sample % 256;
      fp.Write([buf8bit]);
    } else {
      var buf16bit := sample % UINT16;
      fp.Write(Le16(buf16bit));
    }
  }

  /** The value of the bytes of a sample: a short, of which 8-bit samples fill the low byte. */
  function SampleValue(b: seq<Byte>): int
    requires |b| <= 2
  {
    var n := if |b| == 0 then 0 else if |b| == 1 then b[0] as int else U16(b);
    if n >= 0x8000 then n - UINT16 else n
  }

  /** Reads one sample; what the end of the file leaves out counts as zero. */
  method ReadSample(fp: File, bytesPerSample: nat) returns (sample: int)
    requires 1 <= bytesPerSample <= 2
    modifies fp`pos
    ensures sample == SampleValue(Stretch(fp.data, old(fp.pos), bytesPerSample))
    ensures fp.pos == old(fp.pos) + |Stretch(fp.data, old(fp.pos), bytesPerSample)|
    ensures old(fp.pos) >= |fp.data| ==> sample == 0 && fp.pos == old(fp.pos)
    ensures old(fp.pos) + bytesPerSample <= |fp.data| ==>
      sample == SampleValue(fp.data[old(fp.pos)..old(fp.pos) + bytesPerSample]) && fp.pos == old(fp.pos) + bytesPerSample
  {
    var buf := fp.Read(bytesPerSample);
    sample := if |buf| == 0 then 0 else if |buf| == 1 then buf[0] as int else U16(buf);
    if sample >= 0x8000 {
      sample := sample - UINT16;
    }
  }

  /** A sample in range is read back as it was written. */
  lemma SampleRoundTrip(sample: int, bytesPerSample: nat)
    requires (bytesPerSample == 1 && 0 <= sample <= 0xFF) || (bytesPerSample == 2 && -0x8000 <= sample <= 0x7FFF)
    ensures |SampleBytes(sample, bytesPerSample)| == bytesPerSample
    ensures SampleValue(SampleBytes(sample, bytesPerSample)) == sample
  {
    LittleEndian16(sample % UINT16);
  }
}
