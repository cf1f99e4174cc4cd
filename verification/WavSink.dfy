/** The WAV sink that appends to existing files (smartnet_wavsink.cc). */
module WavSink {
  import opened Wrappers
  import opened Bits
  import opened WavFile

  /** Bytes of audio that the 32-bit data size of a header cannot count any more. */
  const LIMIT := UINT32

  /** A finished file: a header of this format whose data size is the length of what follows, in whole frames. */
  predicate Sound(f: Format, d: seq<Byte>) {
    && HasHeader(f, d, |d| - HEADER_LENGTH)
    && |d| - HEADER_LENGTH < LIMIT
    && Whole(f, |d| - HEADER_LENGTH)
  }

  /** So many bytes are whole frames. */
  predicate Whole(f: Format, size: nat) {
    f.FrameSize() > 0 && size % f.FrameSize() == 0
  }

  /** The file starts with a header of this format that gives the data size as `size`. */
  predicate HasHeader(f: Format, d: seq<Byte>, size: int) {
    |d| >= HEADER_LENGTH && 0 <= size && d[..HEADER_LENGTH] == Header(f, U32(d[4..8]), size)
  }

  /** The audio in a file. */
  function Body(d: seq<Byte>): seq<Byte> {
    if |d| >= HEADER_LENGTH then d[HEADER_LENGTH..] else []
  }

  /** A finished file is read back with this format, audio from byte 44 on, and as many frames as there are. */
  lemma SoundParses(f: Format, d: seq<Byte>)
    requires f.Valid() && Sound(f, d)
    ensures Parsed(d) == Some(Info(f, HEADER_LENGTH, f.Frames(|Body(d)|)))
    ensures f.Frames(|Body(d)|) * f.FrameSize() == |Body(d)|
  {
    var riff := U32(d[4..8]);
    assert d == Header(f, riff, |Body(d)|) + Body(d);
    U32Bound(d[4..8]);
    HeaderRoundTrip(f, riff, |Body(d)|, Body(d));
    FramePositive(f);
    WholeFrames(|Body(d)|, f.FrameSize());
  }

  lemma U32Bound(b: seq<Byte>)
    requires |b| == 4
    ensures U32(b) < UINT32
  {
  }

  lemma FramePositive(f: Format)
    requires f.Valid()
    ensures f.FrameSize() > 0
  {
  }

  lemma WholeFrames(n: nat, frame: nat)
    requires frame > 0 && n % frame == 0
    ensures n / frame * frame == n
  {
  }

  // ----- what one call of the block writes

  /** Sample `c` of frame `i`; channels without an input are silent. */
  function SampleAt(inputs: seq<seq<int>>, i: nat, c: nat): int {
    if c < |inputs| && i < |inputs[c]| then inputs[c][i] else 0
  }

  /** The first `c` samples of frame `i`. */
  function FrameBytes(f: Format, inputs: seq<seq<int>>, i: nat, c: nat): seq<Byte> {
    if c == 0 then [] else FrameBytes(f, inputs, i, c - 1) + SampleBytes(SampleAt(inputs, i, c - 1), f.bytesPerSample)
  }

  /** The first `n` frames, interleaved. */
  function AudioBytes(f: Format, inputs: seq<seq<int>>, n: nat): seq<Byte> {
    if n == 0 then [] else AudioBytes(f, inputs, n - 1) + FrameBytes(f, inputs, n - 1, f.nchans)
  }

  lemma {:induction false} FrameBytesLength(f: Format, inputs: seq<seq<int>>, i: nat, c: nat)
    requires f.Valid()
    ensures |FrameBytes(f, inputs, i, c)| == f.bytesPerSample * c
  {
    if c > 0 {
      FrameBytesLength(f, inputs, i, c - 1);
      assert f.bytesPerSample * c == f.bytesPerSample * (c - 1) + f.bytesPerSample;
    }
  }

  lemma {:induction false} AudioBytesLength(f: Format, inputs: seq<seq<int>>, n: nat)
    requires f.Valid()
    ensures |AudioBytes(f, inputs, n)| == f.FrameSize() * n
  {
    if n > 0 {
      AudioBytesLength(f, inputs, n - 1);
      FrameBytesLength(f, inputs, n - 1, f.nchans);
      assert f.FrameSize() * n == f.FrameSize() * (n - 1) + f.FrameSize();
    }
  }

  // ----- and how it is read back

  predicate InRange(f: Format, sample: int) {
    if f.bytesPerSample == 1 then 0 <= sample <= 0xFF else -0x8000 <= sample <= 0x7FFF
  }

  /** In the audio that starts at byte `at`, the bytes for frame `i` and channel `c` are read back as the sample of the
      input, or as 0 where there is none. */
  ghost predicate SamplePlays(f: Format, d: seq<Byte>, at: nat, inputs: seq<seq<int>>, i: nat, c: nat) {
    var p := at + (i * f.nchans + c) * f.bytesPerSample;
    && f.bytesPerSample <= 2 && p + f.bytesPerSample <= |d|
    && if c < |inputs| && i < |inputs[c]| then
         InRange(f, inputs[c][i]) ==> SampleValue(d[p..p + f.bytesPerSample]) == inputs[c][i]
       else
         SampleValue(d[p..p + f.bytesPerSample]) == 0
  }

  /** From byte `at` on the file plays `n` frames of the inputs. */
  ghost predicate Plays(f: Format, d: seq<Byte>, at: nat, n: nat, inputs: seq<seq<int>>) {
    forall i: nat, c: nat :: i < n && c < f.nchans ==> SamplePlays(f, d, at, inputs, i, c)
  }

  lemma StretchOfPrefix(a: seq<Byte>, b: seq<Byte>, p: nat, n: nat)
    requires p + n <= |a|
    ensures (a + b)[p..p + n] == a[p..p + n]
  {
  }

  lemma StretchOfMiddle(a: seq<Byte>, b: seq<Byte>, c: seq<Byte>, p: nat, n: nat)
    requires p + n <= |b|
    ensures (a + b + c)[|a| + p..|a| + p + n] == b[p..p + n]
  {
  }

  lemma StretchOfStretch(d: seq<Byte>, at: nat, m: nat, p: nat, n: nat, from: nat)
    requires at + m <= |d| && p + n <= m && from == at + p
    ensures from + n <= |d| && d[at..at + m][p..p + n] == d[from..from + n]
  {
    StretchOfMiddle(d[..at], d[at..at + m], d[at + m..], p, n);
    assert d == d[..at] + d[at..at + m] + d[at + m..];
  }

  lemma {:induction false} SampleInFrame(f: Format, inputs: seq<seq<int>>, i: nat, c: nat, m: nat)
    requires f.Valid() && c < m
    ensures f.bytesPerSample * c + f.bytesPerSample <= |FrameBytes(f, inputs, i, m)|
    ensures FrameBytes(f, inputs, i, m)[f.bytesPerSample * c..f.bytesPerSample * c + f.bytesPerSample]
         == SampleBytes(SampleAt(inputs, i, c), f.bytesPerSample)
  {
    var before, last := FrameBytes(f, inputs, i, m - 1), SampleBytes(SampleAt(inputs, i, m - 1), f.bytesPerSample);
    FrameBytesLength(f, inputs, i, m - 1);
    if c < m - 1 {
      SampleInFrame(f, inputs, i, c, m - 1);
      StretchOfPrefix(before, last, f.bytesPerSample * c, f.bytesPerSample);
    }
  }

  lemma {:induction false} FrameInAudio(f: Format, inputs: seq<seq<int>>, n: nat, i: nat)
    requires f.Valid() && i < n
    ensures f.FrameSize() * i + f.FrameSize() <= |AudioBytes(f, inputs, n)|
    ensures AudioBytes(f, inputs, n)[f.FrameSize() * i..f.FrameSize() * i + f.FrameSize()] == FrameBytes(f, inputs, i, f.nchans)
  {
    hide FrameBytes, Format.FrameSize;
    var before, last := AudioBytes(f, inputs, n - 1), FrameBytes(f, inputs, n - 1, f.nchans);
    AudioBytesLength(f, inputs, n - 1);
    FrameLength(f, inputs, n - 1);
    if i < n - 1 {
      FrameInAudio(f, inputs, n - 1, i);
      StretchOfPrefix(before, last, f.FrameSize() * i, f.FrameSize());
    }
  }

  lemma FrameLength(f: Format, inputs: seq<seq<int>>, i: nat)
    requires f.Valid()
    ensures |FrameBytes(f, inputs, i, f.nchans)| == f.FrameSize()
  {
    FrameBytesLength(f, inputs, i, f.nchans);
  }

  lemma Positions(f: Format, i: nat, c: nat)
    requires c < f.nchans
    ensures (i * f.nchans + c) * f.bytesPerSample == f.FrameSize() * i + f.bytesPerSample * c
    ensures f.bytesPerSample * c + f.bytesPerSample <= f.FrameSize()
  {
    var b, m := f.bytesPerSample, f.nchans;
    assert (i * m + c) * b == (i * m) * b + c * b;
    assert (i * m) * b == (m * b) * i;
    LessEqual(b, c + 1, m);
    assert b * (c + 1) == b * c + b;
  }

  lemma AudioSample(f: Format, inputs: seq<seq<int>>, n: nat, i: nat, c: nat)
    requires f.Valid() && i < n && c < f.nchans
    ensures
      var p := (i * f.nchans + c) * f.bytesPerSample;
      p + f.bytesPerSample <= |AudioBytes(f, inputs, n)|
      && AudioBytes(f, inputs, n)[p..p + f.bytesPerSample] == SampleBytes(SampleAt(inputs, i, c), f.bytesPerSample)
  {
    hide AudioBytes, FrameBytes, Format.FrameSize, SampleBytes, SampleAt;
    Positions(f, i, c);
    FrameInAudio(f, inputs, n, i);
    SampleInFrame(f, inputs, i, c, f.nchans);
    StretchOfStretch(AudioBytes(f, inputs, n), f.FrameSize() * i, f.FrameSize(), f.bytesPerSample * c, f.bytesPerSample,
      (i * f.nchans + c) * f.bytesPerSample);
  }

  /** The audio of a call plays its inputs, wherever it is written. */
  lemma AudioPlays(f: Format, before: seq<Byte>, n: nat, inputs: seq<seq<int>>, after: seq<Byte>)
    requires f.Valid()
    ensures Plays(f, before + AudioBytes(f, inputs, n) + after, |before|, n, inputs)
  {
    hide SamplePlays;
    forall i: nat, c: nat | i < n && c < f.nchans
      ensures SamplePlays(f, before + AudioBytes(f, inputs, n) + after, |before|, inputs, i, c)
    {
      OneSamplePlays(f, before, n, inputs, after, i, c);
    }
  }

  lemma OneSamplePlays(f: Format, before: seq<Byte>, n: nat, inputs: seq<seq<int>>, after: seq<Byte>, i: nat, c: nat)
    requires f.Valid() && i < n && c < f.nchans
    ensures SamplePlays(f, before + AudioBytes(f, inputs, n) + after, |before|, inputs, i, c)
  {
    hide AudioBytes, SampleBytes, SampleValue;
    AudioSample(f, inputs, n, i, c);
    var sample := SampleAt(inputs, i, c);
    StretchOfMiddle(before, AudioBytes(f, inputs, n), after, (i * f.nchans + c) * f.bytesPerSample, f.bytesPerSample);
    if InRange(f, sample) {
      SampleReadBack(f, sample);
    }
  }

  lemma SampleReadBack(f: Format, sample: int)
    requires f.Valid() && InRange(f, sample)
    ensures SampleValue(SampleBytes(sample, f.bytesPerSample)) == sample
  {
    SampleRoundTrip(sample, f.bytesPerSample);
  }

  /** Completing the header of a file with the length of its audio finishes it. */
  lemma CompletedSound(f: Format, d: seq<Byte>)
    requires |d| >= HEADER_LENGTH && HasHeader(f, d, U32(d[40..44]))
    requires |Body(d)| < LIMIT && Whole(f, |Body(d)|)
    ensures
      var done := Put(Put(d, 40, Le32(|Body(d)|)), 4, Le32((|Body(d)| + 36) % UINT32));
      Sound(f, done) && Body(done) == Body(d) && U32(done[4..8]) == (|done| - 8) % 0x1_0000_0000
  {
    hide Put, Le32, U32, Header;
    var n := |Body(d)|;
    var riff, size := U32(d[4..8]), U32(d[40..44]);
    assert d == Header(f, riff, size) + Body(d);
    Completed(f, riff, size, Body(d), (n + 36) % UINT32, n);
    HeaderSound(f, (n + 36) % UINT32, Body(d));
  }

  /** With the sizes that the 32-bit counters hold, a closed file is read back with all its frames exactly when its audio
      is shorter than 2^32 bytes. */
  lemma SizeLimitIff(f: Format, d: seq<Byte>)
    requires f.Valid() && |d| >= HEADER_LENGTH && HasHeader(f, d, U32(d[40..44])) && Whole(f, |Body(d)|)
    ensures
      var n := |Body(d)|;
      var done := Put(Put(d, 40, Le32(n % UINT32)), 4, Le32((n + 36) % UINT32));
      && Parsed(done).Some? && Body(done) == Body(d)
      && (Parsed(done).value.samplesPerChan == f.Frames(n) <==> n < LIMIT)
  {
    hide Put, Le32, U32, Header, Parsed, Format.Frames;
    var n := |Body(d)|;
    var riff, size := U32(d[4..8]), U32(d[40..44]);
    assert d == Header(f, riff, size) + Body(d);
    Completed(f, riff, size, Body(d), (n + 36) % UINT32, n % UINT32);
    HeaderRoundTrip(f, (n + 36) % UINT32, n % UINT32, Body(d));
    if n >= LIMIT {
      FewerFrames(f, n % UINT32, n);
    }
  }

  lemma FewerFrames(f: Format, m: nat, n: nat)
    requires f.Valid() && m + UINT16 * 2 <= n
    ensures f.Frames(m) < f.Frames(n)
  {
    FramePositive(f);
    var frame := f.FrameSize();
    assert frame < UINT16 * 2;
    QuotientLess(m, n, frame);
  }

  lemma QuotientLess(m: nat, n: nat, frame: nat)
    requires frame > 0 && m + frame <= n
    ensures m / frame < n / frame
  {
    assert n == frame * (n / frame) + n % frame && m == frame * (m / frame) + m % frame;
    if m / frame >= n / frame {
      LessEqual(frame, n / frame, m / frame);
    }
  }

  lemma HeaderSound(f: Format, riff: nat, body: seq<Byte>)
    requires riff < UINT32 && |body| < LIMIT && Whole(f, |body|)
    ensures Sound(f, Header(f, riff, |body|) + body) && Body(Header(f, riff, |body|) + body) == body
    ensures U32((Header(f, riff, |body|) + body)[4..8]) == riff
  {
    var d := Header(f, riff, |body|) + body;
    hide Le32, U32, Le16;
    assert d[4..8] == Le32(riff);
    LittleEndian32(riff);
    assert d[..HEADER_LENGTH] == Header(f, riff, |body|);
  }

  /** A header just written is a finished file without audio. */
  lemma FreshSound(f: Format)
    requires f.Valid()
    ensures Sound(f, Put([], 0, Header(f, 0, 0))) && Body(Put([], 0, Header(f, 0, 0))) == []
    ensures |Put([], 0, Header(f, 0, 0))| == HEADER_LENGTH
  {
    FramePositive(f);
    HeaderSound(f, 0, []);
    PutEnd([], Header(f, 0, 0));
    assert [] + Header(f, 0, 0) == Header(f, 0, 0) + [] == Header(f, 0, 0);
  }

  /** A finished file also has a header that says so. */
  lemma SoundHasHeader(f: Format, d: seq<Byte>)
    requires Sound(f, d)
    ensures |d| >= HEADER_LENGTH && HasHeader(f, d, U32(d[40..44]))
  {
    hide Le32, U32, Le16;
    var n := |d| - HEADER_LENGTH;
    assert d[40..44] == d[..HEADER_LENGTH][40..44] == Le32(n);
    LittleEndian32(n);
  }

  /** A header is where it was after audio is written behind it. */
  lemma AppendHasHeader(f: Format, d: seq<Byte>, b: seq<Byte>)
    requires |d| >= HEADER_LENGTH && HasHeader(f, d, U32(d[40..44]))
    ensures |d + b| >= HEADER_LENGTH && HasHeader(f, d + b, U32((d + b)[40..44])) && Body(d + b) == Body(d) + b
  {
    hide U32, Header;
    assert (d + b)[4..8] == d[4..8] && (d + b)[40..44] == d[40..44] && (d + b)[..HEADER_LENGTH] == d[..HEADER_LENGTH];
  }

  lemma EmptyNotSound(f: Format)
    ensures !Sound(f, [])
  {
  }

  lemma PutEnd(d: seq<Byte>, b: seq<Byte>)
    ensures Put(d, |d|, b) == d + b
  {
  }

  // ----- the sink

  datatype OpenResult = Opened | CannotOpen | NotWav | Incompatible

  /** The audio of the managed files, the other files on the disk, the file being written and the one that waits
      for the next call of the block. */
  datatype Session = Session(bodies: map<string, seq<Byte>>, others: map<string, seq<Byte>>,
                             current: Option<string>, pending: Option<string>) {

    function Opening(name: string, body: seq<Byte>): Session {
      Session(bodies[name := body], others - {name}, current, Some(name))
    }

    /** A known file goes on where it ended, a new one starts empty. */
    function Reopening(name: string): Session {
      Opening(name, if name in bodies then bodies[name] else [])
    }

    /** The waiting file takes over. */
    function Updated(): Session {
      if pending.Some? then Session(bodies, others, pending, None) else this
    }

    /** The audio in the current file so far. */
    function Size(): nat {
      if current.Some? && current.value in bodies then |bodies[current.value]| else 0
    }

    /** Audio goes to the end of the current file; without one it is dropped. */
    function Worked(audio: seq<Byte>): Session {
      var s := Updated();
      if s.current.Some? && s.current.value in bodies then
        s.(bodies := bodies[s.current.value := bodies[s.current.value] + audio])
      else s
    }

    function Closed(): Session {
      this.(current := None)
    }
  }

  class WavSink {
    const format: Format
    var disk: map<string, seq<Byte>>
    var fp: File?
    var newFp: File?
    var updated: bool
    var newAppend: bool
    var newSamplesPerChan: nat
    var sampleCount: nat

    /** Files that this sink has opened, or found finished. */
    ghost var managed: set<string>

    ghost predicate IsOpen(name: string)
      reads this, fp, newFp
    {
      (fp != null && fp.name == name) || (newFp != null && newFp.name == name)
    }

    /** The file being written: any header of the format, then audio, counted in samples. */
    ghost predicate CurrentOk()
      reads `fp, `sampleCount, fp
    {
      fp != null ==>
        && |fp.data| >= HEADER_LENGTH && HasHeader(format, fp.data, U32(fp.data[40..44]))
        && fp.pos == |fp.data|
        && |Body(fp.data)| == sampleCount * format.bytesPerSample
        && Whole(format, |Body(fp.data)|)
        && |Body(fp.data)| < LIMIT
    }

    /** The file that waits to be installed: finished, or fresh and empty. */
    ghost predicate PendingOk()
      reads `updated, `newFp, `newAppend, `newSamplesPerChan, newFp
    {
      && (updated <==> newFp != null)
      && (newFp != null ==>
        && Sound(format, newFp.data)
        && newFp.pos == |newFp.data|
        && (if newAppend then newSamplesPerChan == format.Frames(|Body(newFp.data)|) else Body(newFp.data) == []))
    }

    ghost predicate Valid()
      reads this, fp, newFp
    {
      && format.Valid() && format.FrameSize() > 0
      && CurrentOk()
      && PendingOk()
      && (fp != null ==> fp.name in managed)
      && (newFp != null ==> newFp.name in managed)
      && (fp != null && newFp != null ==> fp != newFp && fp.name != newFp.name)
      && (forall n :: n in managed && !IsOpen(n) ==> n in disk && Sound(format, disk[n]))
      && (forall n :: n in disk && Sound(format, disk[n]) ==> n in managed)
    }

    /** The audio of every managed file, wherever it is at the moment. */
    ghost function BodyOf(name: string): seq<Byte>
      reads this, fp, newFp
    {
      if fp != null && fp.name == name then Body(fp.data)
      else if newFp != null && newFp.name == name then Body(newFp.data)
      else if name in disk then Body(disk[name])
      else []
    }

    ghost function Bodies(): map<string, seq<Byte>>
      reads this, fp, newFp
    {
      map n | n in managed :: BodyOf(n)
    }

    /** Files on the disk that are not the sink's. */
    ghost function Others(): map<string, seq<Byte>>
      reads this
    {
      map n | n in disk && n !in managed :: disk[n]
    }

    ghost function View(): Session
      reads this, fp, newFp
    {
      Session(Bodies(), Others(), if fp == null then None else Some(fp.name), if newFp == null then None else Some(newFp.name))
    }

    /** Every file that the sink manages and has not open is complete on the disk: it parses, is 44 bytes
        longer than its audio, and holds the audio recorded for it. */
    lemma ClosedFilesComplete(name: string)
      requires Valid() && name in managed && !IsOpen(name)
      ensures name in disk && Parsed(disk[name]) == Some(Info(format, HEADER_LENGTH, format.Frames(|Bodies()[name]|)))
      ensures |disk[name]| == HEADER_LENGTH + |Bodies()[name]| && disk[name][HEADER_LENGTH..] == Bodies()[name]
    {
      SoundParses(format, disk[name]);
    }

    /** A sink for a format, on a disk; the files that are finished are managed from the start. */
    constructor (format: Format, disk: map<string, seq<Byte>>)
      requires format.Valid()
      ensures Valid() && this.format == format && this.disk == disk
      ensures fp == null && newFp == null
      ensures managed == set n | n in disk && Sound(format, disk[n])
    {
      this.format := format;
      this.disk := disk;
      fp := null;
      newFp := null;
      updated := false;
      newAppend := false;
      newSamplesPerChan := 0;
      sampleCount := 0;
      managed := set n | n in disk && Sound(format, disk[n]);
      new;
      FramePositive(format);
    }

    /** `fclose`: what was written reaches the disk. */
    method CloseFile(f: File)
      modifies `disk
      ensures disk == old(disk)[f.name := f.data]
    {
      disk := disk[f.name := f.data];
    }

    /** Closes the current file and completes its header. */
    method CloseWav()
      requires Valid() && fp != null
      modifies this, fp
      ensures Valid() && fp == null && newFp == old(newFp)
      ensures View() == old(View()).Closed()
      ensures old(fp.name) in disk && Sound(format, disk[old(fp.name)]) && Body(disk[old(fp.name)]) == old(Body(fp.data))
      ensures |disk[old(fp.name)]| == old(|fp.data|) && U32(disk[old(fp.name)][4..8]) == (old(|fp.data|) - 8) % 0x1_0000_0000
    {
      hide Put, Header, U32, Le32, Sound, HasHeader;
      ghost var was := View();
      var byteCount := sampleCount * format.bytesPerSample;
      CompletedSound(format, fp.data);
      HeaderComplete(fp, byteCount);
      CloseFile(fp);
      fp := null;
      assert View().bodies == was.bodies && View().others == was.others;
    }

    /** Closes the current file; a file that only waits to be installed is left waiting. */
    method Close()
      requires Valid()
      modifies this, fp
      ensures Valid() && View() == old(View()).Closed()
      ensures fp == null && newFp == old(newFp)
    {
      if fp == null {
        return;
      }
      CloseWav();
    }

    /** Installs a waiting file, closing the one before it. */
    method DoUpdate()
      requires Valid()
      modifies this, fp
      ensures Valid() && View() == old(View()).Updated() && newFp == null
      ensures old(newFp) != null ==> fp == old(newFp)
      ensures old(newFp) == null ==> fp == old(fp)
    {
      if !updated {
        return;
      }
      if fp != null {
        CloseWav();
      }
      Install();
    }

    method Install()
      requires Valid() && fp == null && newFp != null
      modifies this
      ensures Valid() && fp == old(newFp) && newFp == null
      ensures View() == old(View()).Updated()
    {
      hide Put, Header, U32, Le32, HasHeader;
      ghost var was := View();
      SoundHasHeader(format, newFp.data);
      fp := newFp;
      newFp := null;
      if newAppend {
        SampleCountOf(format, |Body(fp.data)|);
        sampleCount := newSamplesPerChan * format.nchans;
      } else {
        sampleCount := 0;
      }
      updated := false;
      assert View().bodies == was.bodies && View().others == was.others;
    }

    /** One call of the block with `n` frames: samples of all channels of the file, silence where there is no input. */
    method Work(n: nat, inputs: seq<seq<int>>) returns (nwritten: nat)
      requires Valid()
      requires View().Updated().Size() + format.FrameSize() * n < LIMIT
      modifies this, fp, newFp
      ensures Valid() && nwritten == n
      ensures newFp == null && fp == (if old(newFp) != null then old(newFp) else old(fp))
      ensures View() == old(View()).Worked(AudioBytes(format, inputs, n))
      ensures fp != null ==> Plays(format, fp.data, HEADER_LENGTH + old(View().Updated().Size()), n, inputs)
    {
      DoUpdate();
      nwritten := n;
      if fp == null {
        return; // no valid file open: the samples are dropped
      }
      WriteFrames(n, inputs);
    }

    method WriteFrames(n: nat, inputs: seq<seq<int>>)
      requires Valid() && fp != null && newFp == null
      requires |Body(fp.data)| + format.FrameSize() * n < LIMIT
      modifies `sampleCount, fp
      ensures Valid() && View() == old(View()).Worked(AudioBytes(format, inputs, n))
      ensures Plays(format, fp.data, |old(fp.data)|, n, inputs)
    {
      hide Put, Header, U32, Le32;
      ghost var start, count := fp.data, sampleCount;
      ghost var was := View();
      for i := 0 to n
        invariant fp.data == start + AudioBytes(format, inputs, i) && fp.pos == |fp.data|
        invariant sampleCount == count + format.nchans * i
      {
        WriteFrame(i, inputs);
        assert format.nchans * (i + 1) == format.nchans * i + format.nchans;
      }
      AudioBytesLength(format, inputs, n);
      AppendHasHeader(format, start, AudioBytes(format, inputs, n));
      AudioPlays(format, start, n, inputs, []);
      assert start + AudioBytes(format, inputs, n) + [] == fp.data;
      MoreFrames(format, count, n, |Body(start)|);
      assert View().bodies == was.bodies[fp.name := was.bodies[fp.name] + AudioBytes(format, inputs, n)];
    }

    method WriteFrame(i: nat, inputs: seq<seq<int>>)
      requires fp != null && fp.pos == |fp.data|
      modifies `sampleCount, fp
      ensures fp.data == old(fp.data) + FrameBytes(format, inputs, i, format.nchans) && fp.pos == |fp.data|
      ensures sampleCount == old(sampleCount) + format.nchans
    {
      ghost var start := fp.data;
      for chan := 0 to format.nchans
        invariant fp.data == start + FrameBytes(format, inputs, i, chan) && fp.pos == |fp.data|
        invariant sampleCount == old(sampleCount) + chan
      {
        var sample := if chan < |inputs| && i < |inputs[chan]| then inputs[chan][i] else 0;
        PutEnd(fp.data, SampleBytes(sample, format.bytesPerSample));
        WriteSample(fp, sample, format.bytesPerSample);
        sampleCount := sampleCount + 1;
      }
    }

    /** A file that was waiting gives way. */
    method DropPending()
      requires Valid()
      modifies this
      ensures Valid() && newFp == null && fp == old(fp) && View() == old(View()).(pending := None)
      ensures forall n :: n in old(disk) && !old(IsOpen(n)) ==> n in disk && disk[n] == old(disk)[n]
      ensures disk.Keys <= old(disk).Keys + (if old(newFp) != null then {old(newFp).name} else {})
      ensures managed == old(managed)
    {
      hide Put, Header, U32, Le32, HasHeader, Sound, Body;
      ghost var was := View();
      if newFp != null {
        CloseFile(newFp);
        newFp := null;
        updated := false;
      }
      assert View().bodies == was.bodies && View().others == was.others;
    }

    /** Makes a file the waiting one. */
    method Adopt(f: File, append: bool, samplesPerChan: nat)
      requires Valid() && newFp == null && f != fp && !IsOpen(f.name)
      requires Sound(format, f.data) && f.pos == |f.data|
      requires if append then samplesPerChan == format.Frames(|Body(f.data)|) else Body(f.data) == []
      modifies this
      ensures Valid() && fp == old(fp) && newFp == f
      ensures View() == old(View()).Opening(f.name, Body(f.data))
    {
      hide Put, Header, U32, Le32, Sound, Body, Valid;
      ghost var was := View();
      Wait(f, append, samplesPerChan);
      assert View().bodies == was.bodies[f.name := Body(f.data)] && View().others == was.others - {f.name};
    }

    method Wait(f: File, append: bool, samplesPerChan: nat)
      requires Valid() && newFp == null && f != fp && !IsOpen(f.name)
      requires Sound(format, f.data) && f.pos == |f.data|
      requires if append then samplesPerChan == format.Frames(|Body(f.data)|) else Body(f.data) == []
      modifies this
      ensures Valid() && fp == old(fp) && newFp == f && disk == old(disk) && managed == old(managed) + {f.name}
    {
      hide Put, Header, U32, Le32, Sound, Body, CurrentOk;
      newFp := f;
      updated := true;
      newAppend := append;
      if append {
        newSamplesPerChan := samplesPerChan;
      }
      managed := managed + {f.name};
    }

    /** The branch for a file that is not there, or empty. */
    method OpenNew(filename: string)
      requires Valid() && !IsOpen(filename) && (filename !in disk || disk[filename] == [])
      modifies this
      ensures Valid() && fp == old(fp) && newFp != null && fresh(newFp)
      ensures View() == old(View()).Reopening(filename)
    {
      hide Put, Header, U32, Le32, HasHeader, Sound, Body, CurrentOk, PendingOk;
      Truncate(filename);
      DropPending();
      var f := NewFile(filename);
      Adopt(f, false, 0);
    }

    method NewFile(filename: string) returns (f: File)
      requires format.Valid()
      ensures fresh(f) && f.name == filename && f.pos == |f.data|
      ensures Sound(format, f.data) && Body(f.data) == []
    {
      f := new File(filename, []);
      HeaderWrite(f, format);
      FreshSound(format);
    }

    method Truncate(filename: string)
      requires Valid() && !IsOpen(filename) && (filename !in disk || disk[filename] == [])
      modifies `disk
      ensures Valid() && fp == old(fp) && newFp == old(newFp) && filename !in managed
      ensures View() == old(View()).(others := View().others) && View().others - {filename} == old(View()).others - {filename}
    {
      hide Put, Header, U32, Le32, CurrentOk, PendingOk, Sound, Body;
      ghost var was := View();
      EmptyNotSound(format);
      disk := disk[filename := []];
      assert View().bodies == was.bodies && View().others - {filename} == was.others - {filename};
    }

    /** Opens a file on the disk, parses its header and goes to its end. */
    method ReadHeader(filename: string) returns (f: File, info: Option<Info>)
      requires filename in disk
      ensures fresh(f) && f.name == filename && f.data == disk[filename] && f.pos == |f.data|
      ensures info == Parsed(f.data)
    {
      f := new File(filename, disk[filename]);
      info := HeaderParse(f);
      f.SeekEnd();
    }

    /** The branch for a file with contents. */
    method OpenAppend(filename: string) returns (r: OpenResult)
      requires Valid() && !IsOpen(filename) && filename in disk && disk[filename] != []
      requires CompatibleIsSound(format, disk[filename])
      modifies this
      ensures r == AppendResult(format, old(disk)[filename])
      ensures r.Opened? ==> Valid() && fp == old(fp) && newFp != null && fresh(newFp)
      ensures r.Opened? ==> View() == old(View()).Reopening(filename)
    {
      hide Put, Header, U32, Le32, HasHeader, Sound, Parsed, CurrentOk, PendingOk;
      ghost var bytes := disk[filename];
      DropPending();
      var f, info := ReadHeader(filename);
      if info.None? {
        newFp, updated := f, true;
        return NotWav;
      }
      if info.value.format != format {
        newFp, updated := f, true;
        return Incompatible;
      }
      SoundParses(format, bytes);
      Adopt(f, true, info.value.samplesPerChan);
      r := Opened;
    }

    /** Opens a file for appending, or a new one, and leaves it waiting for the next call of the block.
        A file must be closed before it is opened again; a compatible file on the disk must be finished. */
    method Open(filename: string, canOpen: bool) returns (r: OpenResult)
      requires Valid() && !IsOpen(filename)
      requires filename in disk ==> CompatibleIsSound(format, disk[filename])
      modifies this
      ensures r == (if !canOpen then CannotOpen else AppendResult(format, if filename in old(disk) then old(disk)[filename] else []))
      ensures r.CannotOpen? <==> !canOpen
      ensures canOpen && (filename !in old(disk) || old(disk)[filename] == []) ==> r.Opened?
      ensures canOpen && filename in old(disk) && old(disk)[filename] != [] ==>
        var p := Parsed(old(disk)[filename]);
        && (r.NotWav? <==> p.None?)
        && (r.Incompatible? <==> p.Some? && p.value.format != format)
        && (r.Opened? <==> p.Some? && p.value.format == format)
      ensures r.CannotOpen? ==> Valid() && View() == old(View()) && disk == old(disk)
      ensures r.Opened? ==> Valid() && fp == old(fp) && newFp != null && fresh(newFp)
      ensures r.Opened? ==> View() == old(View()).Reopening(filename)
    {
      if filename in disk && |disk[filename]| != 0 {
        if !canOpen {
          return CannotOpen;
        }
        r := OpenAppend(filename);
      } else {
        if !canOpen {
          return CannotOpen;
        }
        OpenNew(filename);
        r := Opened;
      }
    }
  }

  /** A file that the sink would append to is finished: it was closed after it was last written. */
  predicate CompatibleIsSound(f: Format, d: seq<Byte>) {
    Parsed(d).Some? && Parsed(d).value.format == f ==> Sound(f, d)
  }

  /** What opening a file with this content comes to. */
  function AppendResult(f: Format, d: seq<Byte>): OpenResult {
    if d == [] then Opened
    else if Parsed(d).None? then NotWav
    else if Parsed(d).value.format != f then Incompatible
    else Opened
  }

  lemma SampleCountOf(f: Format, size: nat)
    requires f.Valid() && Whole(f, size)
    ensures f.Frames(size) * f.nchans * f.bytesPerSample == size
  {
    WholeFrames(size, f.FrameSize());
  }

  lemma MoreFrames(f: Format, count: nat, n: nat, size: nat)
    requires f.Valid() && Whole(f, size) && size == count * f.bytesPerSample
    ensures Whole(f, size + f.FrameSize() * n)
    ensures (count + f.nchans * n) * f.bytesPerSample == size + f.FrameSize() * n
  {
    AddMultiple(size, f.FrameSize(), n);
  }

  lemma AddMultiple(size: nat, frame: nat, n: nat)
    requires frame > 0 && size % frame == 0
    ensures (size + frame * n) % frame == 0
  {
    var q := size / frame;
    assert size == frame * q;
    assert size + frame * n == frame * (q + n);
    Multiple(frame, q + n);
  }

  lemma Multiple(frame: nat, k: nat)
    requires frame > 0
    ensures frame * k % frame == 0
  {
    var q, r := frame * k / frame, frame * k % frame;
    assert frame * k == frame * q + r;
    assert frame * k == frame * q + frame * (k - q);
    if k > q {
      AtLeast(frame, k - q);
    } else {
      LessEqual(frame, k, q);
    }
  }

  lemma {:induction false} AtLeast(frame: nat, d: nat)
    requires d >= 1
    ensures frame * d >= frame
  {
    if d > 1 {
      AtLeast(frame, d - 1);
      assert frame * d == frame * (d - 1) + frame;
    }
  }

  lemma LessEqual(frame: nat, k: nat, q: nat)
    requires k <= q
    ensures frame * k <= frame * q
  {
    assert frame * q == frame * k + frame * (q - k);
  }
}
