/** One logger: its call data and its part of the flowgraph (logging_receiver_dsd.cc). */
module LogDsd {
  import opened Wrappers
  import opened Allocator

  /** Hertz in a frequency unit of 12.5 kHz. */
  const UNIT := 12500

  /** What the name of a recording is printed from; the directory is that of the day of `stamp`. */
  datatype FileName = FileName(talkgroup: int, stamp: int, freq: int)

  /** The blocks that a logger connects, `Self` being its own input. */
  datatype Block = Self | NullSink | Prefilter | DownsampleSig | Demod | SymFilter | Levels | Dsd | WavSink

  datatype Edge = Edge(from: Block, to: Block)

  /** Samples are dropped. */
  const IDLE: set<Edge> := {Edge(Self, NullSink)}

  /** Samples go through the whole chain to the file. */
  const RECORDING: set<Edge> :=
    {Edge(Self, Prefilter), Edge(Prefilter, DownsampleSig), Edge(DownsampleSig, Demod), Edge(Demod, SymFilter),
     Edge(SymFilter, Levels), Edge(Levels, Dsd), Edge(Dsd, WavSink)}

  /** Samples flow from block to block along the edges. */
  ghost predicate Path(edges: set<Edge>, p: seq<Block>) {
    |p| > 0 && forall i :: 0 <= i < |p| - 1 ==> Linked(edges, p, i)
  }

  ghost predicate Linked(edges: set<Edge>, p: seq<Block>, i: nat)
    requires i < |p| - 1
  {
    Edge(p[i], p[i + 1]) in edges
  }

  ghost predicate Flows(edges: set<Edge>, from: Block, to: Block) {
    exists p :: Path(edges, p) && p[0] == from && p[|p| - 1] == to
  }

  /** While recording there is one way from the input to the file, through the whole chain, and none to the null sink. */
  lemma RecordingFlows(p: seq<Block>)
    requires Path(RECORDING, p) && p[0] == Self
    ensures p[|p| - 1] == WavSink ==> p == [Self, Prefilter, DownsampleSig, Demod, SymFilter, Levels, Dsd, WavSink]
    ensures p[|p| - 1] != NullSink
  {
    forall i | 0 <= i < |p| - 1
      ensures p[i] != WavSink
    {
      assert Linked(RECORDING, p, i);
    }
    assert |p| > 1 ==> Linked(RECORDING, p, 0);
    assert |p| > 2 ==> Linked(RECORDING, p, 1);
    assert |p| > 3 ==> Linked(RECORDING, p, 2);
    assert |p| > 4 ==> Linked(RECORDING, p, 3);
    assert |p| > 5 ==> Linked(RECORDING, p, 4);
    assert |p| > 6 ==> Linked(RECORDING, p, 5);
    assert |p| > 7 ==> Linked(RECORDING, p, 6);
    assert |p| <= 8;
  }

  /** While idle the samples go nowhere but to the null sink. */
  lemma IdleFlows(p: seq<Block>)
    requires Path(IDLE, p) && p[0] == Self
    ensures p == [Self] || p == [Self, NullSink]
  {
    forall i | 0 <= i < |p| - 1
      ensures p[i] == Self
    {
      assert Linked(IDLE, p, i);
    }
    assert |p| > 1 ==> Linked(IDLE, p, 0);
    assert |p| <= 2;
  }

  class LogDsd {
    const center: int // Hz
    var active: bool
    var talkgroup: int
    var freq: int
    var timestamp: int
    var starttime: int
    var num: nat
    var edges: set<Edge>
    var prefilterCenter: int // Hz
    var file: Option<FileName> // what the sink was told to open, until it is told to close

    /** The flowgraph is in one of its two shapes, the one that `active` names; the prefilter is tuned to the channel;
        and an active logger has a file open that is named for its call. */
    ghost predicate Valid()
      reads this
    {
      && edges == (if active then RECORDING else IDLE)
      && prefilterCenter == center - UNIT * freq
      && (active ==> file.Some? && file.value.talkgroup == talkgroup && file.value.stamp == starttime)
    }

    function View(): Slot
      reads this
    {
      Slot(active, talkgroup, freq, timestamp, starttime, num)
    }

    /** In every valid state the file gets the samples exactly while the logger is active, and the null sink exactly while not. */
    lemma FlowsIff()
      requires Valid()
      ensures Flows(edges, Self, WavSink) <==> active
      ensures Flows(edges, Self, NullSink) <==> !active
    {
      if active {
        var chain := [Self, Prefilter, DownsampleSig, Demod, SymFilter, Levels, Dsd, WavSink];
        assert Path(edges, chain) && chain[|chain| - 1] == WavSink;
        forall p | Path(edges, p) && p[0] == Self
          ensures p[|p| - 1] != NullSink
        {
          RecordingFlows(p);
        }
      } else {
        assert Path(edges, [Self, NullSink]);
        forall p | Path(edges, p) && p[0] == Self
          ensures p[|p| - 1] != WavSink
        {
          IdleFlows(p);
        }
      }
    }

    /** A new logger is idle; its sink already has a file open. */
    constructor (f: int, c: int, t: int, n: nat, now: int)
      ensures Valid() && View() == Slot(false, t, f, now, now, n)
      ensures center == c && prefilterCenter == c - 12500 * f && file == Some(FileName(t, now, f))
    {
      freq := f;
      center := c;
      talkgroup := t;
      num := n;
      active := false;
      timestamp := now;
      starttime := now;
      prefilterCenter := c - UNIT * f;
      file := Some(FileName(t, now, f));
      edges := {};
      new;
      Connect(Self, NullSink);
    }

    /** The framework refuses a connection to an input that is already taken. */
    method Connect(from: Block, to: Block)
      requires forall e :: e in edges ==> e.to != to
      modifies `edges
      ensures edges == old(edges) + {Edge(from, to)}
    {
      edges := edges + {Edge(from, to)};
    }

    /** The framework refuses to take away an edge that is not there. */
    method Disconnect(from: Block, to: Block)
      requires Edge(from, to) in edges
      modifies `edges
      ensures edges == old(edges) - {Edge(from, to)}
    {
      edges := edges - {Edge(from, to)};
    }

    method Unmute(now: int)
      modifies `timestamp
      ensures timestamp == now
    {
      timestamp := now;
    }

    /** Silencing an intruder is left undone. */
    method Mute()
    {
    }

    /** The file keeps the name it was opened with. */
    method TuneOffset(f: int)
      requires Valid()
      modifies `freq, `prefilterCenter
      ensures Valid() && freq == f && prefilterCenter == center - 12500 * f
    {
      freq := f;
      prefilterCenter := center - UNIT * f;
    }

    /** Seconds since the last message of the call. */
    function LastUpdate(now: int): int
      reads this
    {
      now - timestamp
    }

    /** Legal on an active logger; closes its file and leaves the call data as they are. */
    method Deactivate()
      requires Valid() && active
      modifies `active, `edges, `file
      ensures Valid() && View() == old(View()).(active := false) && file == None
    {
      file := None;
      Disconnect(Self, Prefilter);
      Connect(Self, NullSink);
      DisconnectChain();
      active := false;
    }

    method DisconnectChain()
      requires edges == RECORDING - {Edge(Self, Prefilter)} + IDLE
      modifies `edges
      ensures edges == IDLE
    {
      Disconnect(Prefilter, DownsampleSig);
      Disconnect(DownsampleSig, Demod);
      Disconnect(Demod, SymFilter);
      Disconnect(SymFilter, Levels);
      Disconnect(Levels, Dsd);
      Disconnect(Dsd, WavSink);
    }

    /** Legal on an idle logger. */
    method Activate(f: int, t: int, n: nat, now: int)
      requires Valid() && !active
      modifies this
      ensures Valid() && View() == Slot(true, t, f, now, now, n)
      ensures prefilterCenter == center - 12500 * f && file == Some(FileName(t, now, f))
    {
      timestamp := now;
      starttime := now;
      talkgroup := t;
      freq := f;
      num := n;
      prefilterCenter := center - UNIT * f;
      file := Some(FileName(t, now, f));
      Disconnect(Self, NullSink);
      ConnectChain();
      active := true;
    }

    method ConnectChain()
      requires edges == {}
      modifies `edges
      ensures edges == RECORDING
    {
      Connect(Self, Prefilter);
      Connect(Prefilter, DownsampleSig);
      Connect(DownsampleSig, Demod);
      Connect(Demod, SymFilter);
      Connect(SymFilter, Levels);
      Connect(Levels, Dsd);
      Connect(Dsd, WavSink);
    }
  }
}
