/** The recorder with its loggers in place (smartnet.cc): the loops of parse_message against the value-level step. */
module Recorder {
  import opened Allocator
  import opened Invariant
  import opened Runs
  import opened LogDsd
  import opened Text

  /** Frequency units in a megahertz. */
  const PER_MEGAHERTZ := 80

  class Recorder {
    const loggers: seq<LogDsd>
    const setup: Setup
    var numLoggers: nat
    var activeTg: seq<Talkgroup>
    var lastCmd: int
    var lastAddress: int

    /** The loggers are separate objects and every flowgraph is in order. */
    ghost predicate Valid()
      reads loggers
    {
      && (forall i, j :: 0 <= i < j < |loggers| ==> loggers[i] != loggers[j])
      && (forall i :: 0 <= i < |loggers| ==> loggers[i].Valid())
    }

    ghost function Slots(): (s: seq<Slot>)
      reads loggers
      ensures |s| == |loggers|
    {
      seq(|loggers|, i requires 0 <= i < |loggers| reads loggers => loggers[i].View())
    }

    ghost function View(): State
      reads this, loggers
    {
      State(Slots(), numLoggers, activeTg)
    }

    /** `init_loggers`: six idle loggers. The center frequency is given in hertz both as the center and as the channel,
        where a logger takes megahertz. */
    constructor (setup: Setup, centerFreq: int, now: int)
      ensures Valid() && fresh(loggers) && this.setup == setup
      ensures |loggers| == MAX_LOGGERS && numLoggers == 0 && activeTg == []
      ensures forall i :: 0 <= i < |loggers| ==> loggers[i].View() == Slot(false, 0, PER_MEGAHERTZ * centerFreq, now, now, i)
      ensures Inv(setup, View()) && NotBefore(View(), now)
    {
      this.setup := setup;
      numLoggers := 0;
      activeTg := [];
      lastCmd := 0;
      lastAddress := 0;
      var made: seq<LogDsd> := [];
      for i := 0 to MAX_LOGGERS
        invariant |made| == i
        invariant forall k :: 0 <= k < i ==> fresh(made[k]) && made[k].Valid()
        invariant forall k :: 0 <= k < i ==> made[k].View() == Slot(false, 0, PER_MEGAHERTZ * centerFreq, now, now, k)
        invariant forall j, k :: 0 <= j < k < i ==> made[j] != made[k]
      {
        var log := new LogDsd(PER_MEGAHERTZ * centerFreq, centerFreq, 0, i, now);
        made := made + [log];
      }
      loggers := made;
      new;
      InitialInv(setup, Slots());
    }

    /** One control message. The text has at least three fields, as the decoder prints them. */
    method ParseMessage(s: string, now: int) returns (retfreq: int)
      requires Valid() && |Split(s)| >= 3
      modifies this, loggers
      ensures Valid()
      ensures var f := ReadFields(s);
        && View() == Step(setup, old(View()), MaskAddress(f.address), f.command, now)
        && retfreq == RetFreq(MaskAddress(f.address), f.command)
        && lastAddress == MaskAddress(f.address) && lastCmd == f.command
      ensures old(Inv(setup, View()) && NotBefore(View(), now)) ==> Inv(setup, View()) && NotBefore(View(), now)
    {
      ghost var st := View();
      if Inv(setup, st) && NotBefore(st, now) {
        StepKeeps(setup, st, MaskAddress(ReadFields(s).address), ReadFields(s).command, now);
      }
      hide Inv, NotBefore;
      retfreq := 0;
      var x := Split(s);
      var address: int := MaskAddress(Atoi(x[0]));
      var command := Atoi(x[2]);
      if command < 0x2d0 {
        if lastCmd == 0x308 {
          // channel grant
          if address != 56016 && address != 8176 {
            retfreq := GetFreq(command);
          }
        } else {
          // call continuation
          if address != 56016 && address != 8176 {
            retfreq := GetFreq(command);
          }
        }
      }
      if retfreq != 0 {
        Assign(address, retfreq, now);
      }
      lastAddress := address;
      lastCmd := command;
    }

    method Assign(address: int, retfreq: int, now: int)
      requires Valid()
      modifies this`numLoggers, this`activeTg, loggers
      ensures Valid() && View() == Assigned(setup, old(View()), address, retfreq, now)
    {
      Reap(now);
      var rxfound := Refresh(address, retfreq, now);
      if !rxfound {
        Admit(address, retfreq, now);
      }
    }

    /** The first loop: close calls that fell silent. */
    method Reap(now: int)
      requires Valid()
      modifies this`numLoggers, this`activeTg, loggers
      ensures Valid() && View() == Reaped(setup, old(View()), |loggers|, now)
    {
      hide Valid, EraseFirst;
      ghost var st := View();
      for k := 0 to |loggers|
        invariant Valid() && View() == Reaped(setup, st, k, now)
      {
        var rx := loggers[k];
        assert Slots()[k] == rx.View();
        if rx.active && rx.LastUpdate(now) > TIMEOUT {
          if setup.console {
            EraseShown(rx.talkgroup);
          }
          CloseLogger(k);
          numLoggers := Decrement(numLoggers);
        }
      }
    }

    method CloseLogger(k: nat)
      requires Valid() && k < |loggers| && loggers[k].active
      modifies loggers[k]
      ensures Valid() && Slots() == old(Slots())[k := old(Slots())[k].(active := false)]
    {
      loggers[k].Deactivate();
      forall i | 0 <= i < |loggers| && i != k
        ensures loggers[i].Valid() && loggers[i].View() == old(loggers[i].View())
      {
        assert loggers[i] != loggers[k];
      }
    }

    /** Takes the first entry with the given number off the display list. */
    method EraseShown(number: int)
      modifies this`activeTg
      ensures activeTg == EraseFirst(old(activeTg), number)
    {
      var i := 0;
      while i < |activeTg|
        invariant 0 <= i <= |activeTg| && activeTg == old(activeTg)
        invariant EraseFirst(activeTg, number) == activeTg[..i] + EraseFirst(activeTg[i..], number)
      {
        if activeTg[i].number == number {
          activeTg := activeTg[..i] + activeTg[i + 1..];
          return;
        }
        assert activeTg[..i + 1] == activeTg[..i] + [activeTg[i]];
        i := i + 1;
      }
    }

    /** The second loop: retune and refresh the logger of the talkgroup. */
    method Refresh(address: int, retfreq: int, now: int) returns (rxfound: bool)
      requires Valid()
      modifies loggers
      ensures Valid() && Slots() == Refreshed(old(Slots()), address, retfreq, now)
      ensures rxfound == Served(old(Slots()), address)
    {
      hide Valid;
      rxfound := false;
      ghost var was := Slots();
      for k := 0 to |loggers|
        invariant Valid()
        invariant forall i :: 0 <= i < k ==> Slots()[i] == Refreshed(was, address, retfreq, now)[i]
        invariant forall i :: k <= i < |loggers| ==> Slots()[i] == was[i]
        invariant rxfound == exists i :: 0 <= i < k && Serves(was[i], address)
      {
        var rx := loggers[k];
        assert Slots()[k] == rx.View();
        if rx.active {
          if rx.talkgroup == address {
            TouchLogger(k, retfreq, now);
            rxfound := true;
          } else if rx.freq == retfreq {
            rx.Mute();
          }
        }
      }
    }

    method TouchLogger(k: nat, retfreq: int, now: int)
      requires Valid() && k < |loggers|
      modifies loggers[k]
      ensures Valid() && Slots() == old(Slots())[k := old(Slots())[k].(freq := retfreq, stamp := now)]
    {
      var rx := loggers[k];
      if rx.freq != retfreq {
        rx.TuneOffset(retfreq);
      }
      rx.Unmute(now);
      forall i | 0 <= i < |loggers| && i != k
        ensures loggers[i].Valid() && loggers[i].View() == old(loggers[i].View())
      {
        assert loggers[i] != loggers[k];
      }
    }

    /** A new call: look the talkgroup up, check its priority, put it on the first idle logger. */
    method Admit(address: int, retfreq: int, now: int)
      requires Valid()
      modifies this`numLoggers, this`activeTg, loggers
      ensures Valid() && View() == Admitted(setup, old(View()), address, retfreq, now)
      ensures (forall i :: 0 <= i < |setup.talkgroups| ==> setup.talkgroups[i].number != address) ==> View() == old(View())
      ensures forall i, k :: FirstWith(setup.talkgroups, address, i) && FirstFree(old(Slots()), k) ==>
        ListedCall(setup, old(View()), View(), address, retfreq, now, i, k)
    {
      hide Started, Find, Valid, ListedCall;
      ghost var st := View();
      if forall i :: 0 <= i < |setup.talkgroups| ==> setup.talkgroups[i].number != address {
        UnknownIgnored(setup, st, address, retfreq, now);
      }
      forall i, k | FirstWith(setup.talkgroups, address, i) && FirstFree(st.slots, k)
        ensures ListedCall(setup, st, Admitted(setup, st, address, retfreq, now), address, retfreq, now, i, k)
      {
        ListedCallStarts(setup, st, address, retfreq, now, i, k);
      }
      var rxTalkgroup := FindTalkgroup(address);
      var recordTg := false;
      if rxTalkgroup.Known? {
        var p := rxTalkgroup.talkgroup.priority;
        if (p == 1 && numLoggers < MAX_LOGGERS) || (p == 2 && numLoggers < 4) || (p == 3 && numLoggers < 2) {
          recordTg := true;
          if setup.console {
            activeTg := activeTg + [rxTalkgroup.talkgroup];
          }
        }
      }
      if recordTg {
        StartLogger(address, retfreq, now);
      }
    }

    method FindTalkgroup(address: int) returns (r: Lookup)
      ensures r == Find(setup.talkgroups, address)
    {
      for i := 0 to |setup.talkgroups|
        invariant Find(setup.talkgroups, address) == Find(setup.talkgroups[i..], address)
      {
        if setup.talkgroups[i].number == address {
          return Known(setup.talkgroups[i]);
        }
      }
      r := Unknown;
    }

    method StartLogger(address: int, retfreq: int, now: int)
      requires Valid()
      modifies this`numLoggers, loggers
      ensures Valid() && View() == Started(old(View()), address, retfreq, now)
    {
      ghost var was := Slots();
      for k := 0 to |loggers|
        invariant Valid() && Slots() == was && numLoggers == old(numLoggers)
        invariant forall i :: 0 <= i < k ==> was[i].active
      {
        assert Slots()[k] == loggers[k].View();
        if !loggers[k].active {
          assert FirstIdle(was) == k;
          numLoggers := (numLoggers + 1) % UNSIGNED;
          ActivateLogger(k, retfreq, address, now);
          return;
        }
      }
      assert FirstIdle(was) == |was|;
    }

    method ActivateLogger(k: nat, retfreq: int, address: int, now: int)
      requires Valid() && k < |loggers| && !loggers[k].active
      modifies loggers[k]
      ensures Valid() && Slots() == old(Slots())[k := Slot(true, address, retfreq, now, now, numLoggers)]
    {
      loggers[k].Activate(retfreq, address, numLoggers, now);
      forall i | 0 <= i < |loggers| && i != k
        ensures loggers[i].Valid() && loggers[i].View() == old(loggers[i].View())
      {
        assert loggers[i] != loggers[k];
      }
    }

    /** No two calls are recorded to one file. */
    lemma FilesDistinct(i: nat, j: nat)
      requires Valid() && Inv(setup, View()) && i < j < |loggers| && loggers[i].active && loggers[j].active
      ensures loggers[i].file.Some? && loggers[j].file.Some? && loggers[i].file != loggers[j].file
    {
      assert Slots()[i] == loggers[i].View() && Slots()[j] == loggers[j].View();
    }
  }
}
