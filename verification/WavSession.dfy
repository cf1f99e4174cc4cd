/** Whole sessions of the WAV sink: where every frame goes. */
module WavSession {
  import opened Wrappers
  import opened Bits
  import opened WavFile
  import opened WavSink

  datatype Op = Open(name: string) | Work(audio: seq<Byte>) | Close

  function Apply(s: Session, op: Op): Session {
    match op
    case Open(name) => s.Reopening(name)
    case Work(audio) => s.Worked(audio)
    case Close => s.Closed()
  }

  function Run(s: Session, ops: seq<Op>): Session {
    if ops == [] then s else Apply(Run(s, ops[..|ops| - 1]), ops[|ops| - 1])
  }

  // ----- the same, from the history alone

  /** The last file opened has not had a call of the block since. */
  predicate Waiting(ops: seq<Op>) {
    ops != [] && match ops[|ops| - 1]
      case Open(_) => true
      case Work(_) => false
      case Close => Waiting(ops[..|ops| - 1])
  }

  /** Where the audio of the next call goes: to the file opened last, unless that was closed after it had
      been written to. Closing before the first call of the block does not stop a file from being installed. */
  function Target(ops: seq<Op>): Option<string> {
    if ops == [] then None
    else
      var before := ops[..|ops| - 1];
      match ops[|ops| - 1]
      case Open(name) => Some(name)
      case Work(_) => Target(before)
      case Close => if Waiting(before) then Target(before) else None
  }

  /** The audio sent to one file, call after call. */
  function SentTo(ops: seq<Op>, name: string): seq<Byte> {
    if ops == [] then []
    else
      var before, op := ops[..|ops| - 1], ops[|ops| - 1];
      if op.Work? && Target(before) == Some(name) then SentTo(before, name) + op.audio else SentTo(before, name)
  }

  /** The audio that finds no file. */
  function Dropped(ops: seq<Op>): seq<Byte> {
    if ops == [] then []
    else
      var before, op := ops[..|ops| - 1], ops[|ops| - 1];
      if op.Work? && Target(before).None? then Dropped(before) + op.audio else Dropped(before)
  }

  function AudioIn(ops: seq<Op>): nat {
    if ops == [] then 0
    else AudioIn(ops[..|ops| - 1]) + (if ops[|ops| - 1].Work? then |ops[|ops| - 1].audio| else 0)
  }

  ghost predicate Fresh(s: Session) {
    s.current.None? && s.pending.None?
  }

  /** The session is where the history says. */
  lemma {:induction false} TargetOfRun(s: Session, ops: seq<Op>)
    requires Fresh(s)
    ensures
      var r := Run(s, ops);
      && (r.pending.Some? <==> Waiting(ops))
      && Target(ops) == (if r.pending.Some? then r.pending else r.current)
      && (r.pending.Some? ==> r.pending.value in r.bodies)
      && (r.current.Some? ==> r.current.value in r.bodies)
    decreases |ops|
  {
    if ops != [] {
      TargetOfRun(s, ops[..|ops| - 1]);
    }
  }

  lemma {:induction false} WaitingHasTarget(ops: seq<Op>)
    requires Waiting(ops)
    ensures Target(ops).Some?
  {
    if ops[|ops| - 1].Close? {
      WaitingHasTarget(ops[..|ops| - 1]);
    }
  }

  /** Closing stops the audio that follows exactly when no file was waiting: one opened since the last call of the block
      is installed all the same, and the audio goes to it. */
  lemma CloseDropsIff(ops: seq<Op>, audio: seq<Byte>)
    requires audio != []
    ensures Dropped(ops + [Close, Work(audio)]) == (if Waiting(ops) then Dropped(ops) else Dropped(ops) + audio)
    ensures Dropped(ops + [Close, Work(audio)]) == Dropped(ops) + audio <==> !Waiting(ops)
    ensures forall name :: SentTo(ops + [Close, Work(audio)], name)
                        == if Waiting(ops) && Target(ops) == Some(name) then SentTo(ops, name) + audio else SentTo(ops, name)
  {
    var closed := ops + [Close];
    var all := ops + [Close, Work(audio)];
    assert closed[..|closed| - 1] == ops && all[..|all| - 1] == closed;
    if Waiting(ops) {
      WaitingHasTarget(ops);
    }
  }

  /** Each file holds what it held before, followed by exactly the audio sent to it, in order. */
  lemma {:induction false} ContentsOfRun(s: Session, ops: seq<Op>, name: string)
    requires Fresh(s)
    ensures
      var r := Run(s, ops);
      (if name in r.bodies then r.bodies[name] else []) == (if name in s.bodies then s.bodies[name] else []) + SentTo(ops, name)
    decreases |ops|
  {
    if ops != [] {
      var before := ops[..|ops| - 1];
      ContentsOfRun(s, before, name);
      TargetOfRun(s, before);
    }
  }

  // ----- nothing is lost or stored twice

  /** The length of all files together. */
  ghost function Stored(m: map<string, seq<Byte>>): nat
    decreases |m|
  {
    if m == map[] then 0
    else
      var n :| n in m;
      |m[n]| + Stored(m - {n})
  }

  /** Any file may be counted first. */
  lemma {:induction false} StoredWithout(m: map<string, seq<Byte>>, name: string)
    requires name in m
    ensures Stored(m) == |m[name]| + Stored(m - {name})
    decreases |m|
  {
    var n :| n in m && Stored(m) == |m[n]| + Stored(m - {n});
    if n != name {
      StoredWithout(m - {n}, name);
      StoredWithout(m - {name}, n);
      assert m - {n} - {name} == m - {name} - {n};
    }
  }

  lemma StoredUpdate(m: map<string, seq<Byte>>, name: string, d: seq<Byte>)
    ensures Stored(m[name := d]) + (if name in m then |m[name]| else 0) == Stored(m) + |d|
  {
    StoredWithout(m[name := d], name);
    assert m[name := d] - {name} == m - {name};
    if name in m {
      StoredWithout(m, name);
    } else {
      assert m - {name} == m;
    }
  }

  /** Every frame that comes in is either stored once, in one file, or dropped. */
  lemma {:induction false} Conservation(s: Session, ops: seq<Op>)
    requires Fresh(s)
    ensures Stored(Run(s, ops).bodies) + |Dropped(ops)| == Stored(s.bodies) + AudioIn(ops)
    decreases |ops|
  {
    if ops != [] {
      var before, op := ops[..|ops| - 1], ops[|ops| - 1];
      var r := Run(s, before);
      Conservation(s, before);
      TargetOfRun(s, before);
      match op {
        case Open(name) =>
          StoredUpdate(r.bodies, name, if name in r.bodies then r.bodies[name] else []);
        case Work(audio) =>
          var u := r.Updated();
          if u.current.Some? {
            StoredUpdate(u.bodies, u.current.value, u.bodies[u.current.value] + audio);
          }
        case Close =>
      }
    }
  }

  // ----- a sink driven through a session

  /** What the recorder asks of the sink. */
  datatype Request = OpenFile(name: string) | WriteItems(n: nat, inputs: seq<seq<int>>) | CloseFile

  function OpOf(f: Format, q: Request): Op {
    match q
    case OpenFile(name) => Open(name)
    case WriteItems(n, inputs) => Work(AudioBytes(f, inputs, n))
    case CloseFile => Close
  }

  function OpsOf(f: Format, qs: seq<Request>): (ops: seq<Op>)
    ensures |ops| == |qs|
  {
    seq(|qs|, i requires 0 <= i < |qs| => OpOf(f, qs[i]))
  }

  /** The request suits the session: a file that is opened is not open already, and is the sink's or absent or empty;
      the audio of the file written to stays within what its header can count. */
  predicate Suits(f: Format, s: Session, q: Request) {
    match q
    case OpenFile(name) =>
      && s.current != Some(name) && s.pending != Some(name)
      && (name in s.bodies || name !in s.others || s.others[name] == [])
    case WriteItems(n, _) => s.Updated().Size() + f.FrameSize() * n < LIMIT
    case CloseFile => true
  }

  /** Every request suits the session that the ones before it have led to. */
  predicate Legal(f: Format, s: Session, qs: seq<Request>) {
    qs == [] ||
      var k := |qs| - 1;
      Legal(f, s, qs[..k]) && Suits(f, Run(s, OpsOf(f, qs[..k])), qs[k])
  }

  lemma {:induction false} LegalPrefix(f: Format, s: Session, qs: seq<Request>, k: nat)
    requires Legal(f, s, qs) && k <= |qs|
    ensures Legal(f, s, qs[..k])
    ensures k < |qs| ==> Suits(f, Run(s, OpsOf(f, qs[..k])), qs[k])
  {
    var n := |qs| - 1;
    if k == |qs| {
      assert qs[..k] == qs;
    } else if k < n {
      LegalPrefix(f, s, qs[..n], k);
      assert qs[..n][..k] == qs[..k];
    }
  }

  /** One request, done by the sink's own methods. */
  method Perform(sink: WavSink, q: Request)
    requires sink.Valid() && Suits(sink.format, sink.View(), q)
    modifies sink, sink.fp, sink.newFp
    ensures sink.Valid() && sink.View() == Apply(old(sink.View()), OpOf(sink.format, q))
    ensures sink.fp == null || sink.fp == old(sink.fp) || sink.fp == old(sink.newFp) || fresh(sink.fp)
    ensures sink.newFp == null || sink.newFp == old(sink.newFp) || fresh(sink.newFp)
  {
    match q
    case OpenFile(name) =>
      OpenAllowed(sink, name);
      var r := sink.Open(name, true);
    case WriteItems(n, inputs) =>
      var nwritten := sink.Work(n, inputs);
    case CloseFile =>
      sink.Close();
  }

  /** A suitable file opens. */
  lemma OpenAllowed(sink: WavSink, name: string)
    requires sink.Valid() && Suits(sink.format, sink.View(), OpenFile(name))
    ensures !sink.IsOpen(name)
    ensures name in sink.disk ==> CompatibleIsSound(sink.format, sink.disk[name])
    ensures AppendResult(sink.format, if name in sink.disk then sink.disk[name] else []).Opened?
  {
    if name in sink.managed {
      SoundParses(sink.format, sink.disk[name]);
    } else if name in sink.disk {
      assert sink.View().others[name] == sink.disk[name];
    }
  }

  /** The sink's files after a session are those it had and those it opened; the others are left alone. */
  lemma {:induction false} FilesOfRun(s: Session, ops: seq<Op>, name: string)
    ensures
      var r := Run(s, ops);
      && (name in r.bodies <==> name in s.bodies || Open(name) in ops)
      && (name in r.others <==> name in s.others && Open(name) !in ops)
      && (name in r.others ==> r.others[name] == s.others[name])
    decreases |ops|
  {
    if ops != [] {
      var k := |ops| - 1;
      FilesOfRun(s, ops[..k], name);
      assert Open(name) in ops <==> Open(name) in ops[..k] || ops[k] == Open(name);
    }
  }

  /** A complete file: it parses, is 44 bytes longer than its audio, and holds exactly that. */
  ghost predicate Holds(f: Format, d: seq<Byte>, audio: seq<Byte>) {
    && |d| == HEADER_LENGTH + |audio| && d[HEADER_LENGTH..] == audio
    && Parsed(d) == Some(Info(f, HEADER_LENGTH, f.Frames(|audio|)))
  }

  lemma NoOps(f: Format, s: Session)
    ensures Run(s, OpsOf(f, [])) == s
  {
  }

  lemma NextOp(f: Format, s: Session, qs: seq<Request>, k: nat)
    requires k < |qs|
    ensures Run(s, OpsOf(f, qs[..k + 1])) == Apply(Run(s, OpsOf(f, qs[..k])), OpOf(f, qs[k]))
  {
    hide OpOf, Apply;
    var ops := OpsOf(f, qs[..k + 1]);
    assert ops[..|ops| - 1] == OpsOf(f, qs[..k]) && ops[|ops| - 1] == OpOf(f, qs[k]);
  }

  /** The requests of a session one after another, on a sink with no file open. */
  method Drive(sink: WavSink, qs: seq<Request>)
    requires sink.Valid() && sink.fp == null && sink.newFp == null && Legal(sink.format, sink.View(), qs)
    modifies sink
    ensures sink.Valid() && sink.View() == Run(old(sink.View()), OpsOf(sink.format, qs))
  {
    hide *;
    ghost var start := sink.View();
    NoOps(sink.format, start);
    for k := 0 to |qs|
      invariant sink.Valid() && sink.View() == Run(start, OpsOf(sink.format, qs[..k]))
      invariant sink.fp == null || fresh(sink.fp)
      invariant sink.newFp == null || fresh(sink.newFp)
    {
      LegalPrefix(sink.format, start, qs, k);
      NextOp(sink.format, start, qs, k);
      Perform(sink, qs[k]);
    }
    assert qs[..|qs|] == qs;
  }

  lemma OpenedInOps(f: Format, qs: seq<Request>, name: string)
    ensures Open(name) in OpsOf(f, qs) <==> OpenFile(name) in qs
  {
    var ops := OpsOf(f, qs);
    if OpenFile(name) in qs {
      var i :| 0 <= i < |qs| && qs[i] == OpenFile(name);
      assert ops[i] == Open(name);
    }
    if Open(name) in ops {
      var i :| 0 <= i < |ops| && ops[i] == Open(name);
      assert qs[i] == OpenFile(name);
    }
  }

  /** What one file holds after a session. */
  lemma FileAfter(sink: WavSink, start: Session, ops: seq<Op>, name: string)
    requires sink.Valid() && Fresh(start) && sink.View() == Run(start, ops)
    ensures name in sink.managed <==> name in start.bodies || Open(name) in ops
    ensures name in sink.managed && !sink.IsOpen(name) ==> name in sink.disk
    ensures name in sink.managed && !sink.IsOpen(name) ==>
      Holds(sink.format, sink.disk[name], (if name in start.bodies then start.bodies[name] else []) + SentTo(ops, name))
    ensures name in start.others && name !in sink.managed ==> name in sink.disk && sink.disk[name] == start.others[name]
  {
    hide Run, SentTo, WavSink.Valid, WavSink.BodyOf, Parsed, WavSink.IsOpen;
    FilesOfRun(start, ops, name);
    assert name in sink.managed <==> name in sink.View().bodies;
    assert name in sink.View().others ==> name in sink.disk && sink.View().others[name] == sink.disk[name];
    if name in sink.managed && !sink.IsOpen(name) {
      ContentsOfRun(start, ops, name);
      sink.ClosedFilesComplete(name);
    }
  }

  /** The audio of a file that is the sink's and on the disk. */
  function Held(disk: map<string, seq<Byte>>, managed: set<string>, name: string): seq<Byte> {
    if name in managed && name in disk then Body(disk[name]) else []
  }

  /** What has been sent to a file stays in front of what is sent later. */
  lemma {:induction false} SentBefore(ops: seq<Op>, k: nat, name: string)
    requires k <= |ops|
    ensures |SentTo(ops[..k], name)| <= |SentTo(ops, name)|
    ensures SentTo(ops, name)[..|SentTo(ops[..k], name)|] == SentTo(ops[..k], name)
  {
    if k == |ops| {
      assert ops[..k] == ops;
    } else {
      var n := |ops| - 1;
      SentBefore(ops[..n], k, name);
      assert ops[..n][..k] == ops[..k];
    }
  }

  /** What is sent to a file, around one call. */
  lemma SentAround(ops: seq<Op>, k: nat, name: string) returns (later: seq<Byte>)
    requires k < |ops| && ops[k].Work? && Target(ops[..k]) == Some(name)
    ensures SentTo(ops, name) == SentTo(ops[..k], name) + ops[k].audio + later
  {
    hide Target;
    assert ops[..k + 1][..k] == ops[..k];
    SentBefore(ops, k + 1, name);
    later := SentTo(ops, name)[|SentTo(ops[..k + 1], name)|..];
  }

  /** If call `k` finds `name` to write to, the file plays its inputs, behind what it held and what was sent before. */
  ghost predicate Recorded(f: Format, qs: seq<Request>, k: nat, name: string, held: nat, d: seq<Byte>)
    requires k < |qs|
  {
    qs[k].WriteItems? && Target(OpsOf(f, qs[..k])) == Some(name) ==>
      Plays(f, d, 44 + held + |SentTo(OpsOf(f, qs[..k]), name)|, qs[k].n, qs[k].inputs)
  }

  lemma AllRecorded(f: Format, qs: seq<Request>, k: nat, name: string, held: seq<Byte>, d: seq<Byte>)
    requires f.Valid() && k < |qs| && Holds(f, d, held + SentTo(OpsOf(f, qs), name))
    ensures Recorded(f, qs, k, name, |held|, d)
  {
    hide Plays, AudioBytes, Target, SentTo, Parsed;
    var ops := OpsOf(f, qs);
    if qs[k].WriteItems? && Target(OpsOf(f, qs[..k])) == Some(name) {
      assert OpsOf(f, qs[..k]) == ops[..k];
      var later := SentAround(ops, k, name);
      var before := d[..44] + held + SentTo(ops[..k], name);
      assert d == before + AudioBytes(f, qs[k].inputs, qs[k].n) + later;
      AudioPlays(f, before, qs[k].n, qs[k].inputs, later);
    }
  }

  /** On a sink with nothing open every file's audio is on the disk. */
  lemma AllOnDisk(sink: WavSink, name: string)
    requires sink.Valid() && sink.fp == null && sink.newFp == null
    ensures Fresh(sink.View())
    ensures name in sink.managed <==> name in sink.View().bodies
    ensures (if name in sink.View().bodies then sink.View().bodies[name] else []) == Held(sink.disk, sink.managed, name)
    ensures name in sink.disk && name !in sink.managed ==> name in sink.View().others && sink.View().others[name] == sink.disk[name]
  {
    hide Sound, Body;
  }

  /** What a session leaves on the disk: each of the sink's files that is not open is complete and holds what it held
      before, followed by exactly the audio sent to it; files that are not the sink's are as they were; and when the
      history leaves nothing to be written to, nothing is open. */
  method RecordSession(sink: WavSink, qs: seq<Request>)
    requires sink.Valid() && sink.fp == null && sink.newFp == null && Legal(sink.format, sink.View(), qs)
    modifies sink
    ensures sink.Valid()
    ensures forall name :: name in sink.managed <==> name in old(sink.managed) || OpenFile(name) in qs
    ensures forall name :: name in sink.managed && !sink.IsOpen(name) ==> name in sink.disk
    ensures forall name :: name in sink.managed && !sink.IsOpen(name) ==>
      Holds(sink.format, sink.disk[name], Held(old(sink.disk), old(sink.managed), name) + SentTo(OpsOf(sink.format, qs), name))
    ensures forall name, k: nat :: k < |qs| && name in sink.managed && !sink.IsOpen(name) ==>
      Recorded(sink.format, qs, k, name, |Held(old(sink.disk), old(sink.managed), name)|, sink.disk[name])
    ensures forall name :: name in old(sink.disk) && name !in sink.managed ==>
      name in sink.disk && sink.disk[name] == old(sink.disk)[name]
    ensures Target(OpsOf(sink.format, qs)).None? ==> sink.fp == null && sink.newFp == null
  {
    hide *;
    ghost var start, ops, disk, managed := sink.View(), OpsOf(sink.format, qs), sink.disk, sink.managed;
    AllOnDisk(sink, "");
    forall name
      ensures name in managed <==> name in start.bodies
      ensures (if name in start.bodies then start.bodies[name] else []) == Held(disk, managed, name)
      ensures name in disk && name !in managed ==> name in start.others && start.others[name] == disk[name]
    {
      AllOnDisk(sink, name);
    }
    Drive(sink, qs);
    forall name
      ensures name in sink.managed <==> name in managed || OpenFile(name) in qs
      ensures name in sink.managed && !sink.IsOpen(name) ==> name in sink.disk
      ensures name in sink.managed && !sink.IsOpen(name) ==>
        Holds(sink.format, sink.disk[name], Held(disk, managed, name) + SentTo(ops, name))
      ensures name in disk && name !in sink.managed ==> name in sink.disk && sink.disk[name] == disk[name]
    {
      FileAfter(sink, start, ops, name);
      OpenedInOps(sink.format, qs, name);
    }
    ValidFormat(sink);
    forall name, k: nat | k < |qs| && name in sink.managed && !sink.IsOpen(name)
      ensures Recorded(sink.format, qs, k, name, |Held(disk, managed, name)|, sink.disk[name])
    {
      AllRecorded(sink.format, qs, k, name, Held(disk, managed, name), sink.disk[name]);
    }
    NothingOpen(sink, start, ops);
  }

  lemma ValidFormat(sink: WavSink)
    requires sink.Valid()
    ensures sink.format.Valid()
  {
  }

  lemma NothingOpen(sink: WavSink, start: Session, ops: seq<Op>)
    requires Fresh(start) && sink.View() == Run(start, ops)
    ensures Target(ops).None? ==> sink.fp == null && sink.newFp == null
  {
    hide Run, Target;
    TargetOfRun(start, ops);
  }
}
