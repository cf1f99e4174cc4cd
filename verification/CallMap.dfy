/** The recorder as a map from talkgroups to calls, and that the loggers implement it. */
module CallMap {
  import opened Allocator
  import opened Invariant

  datatype Call = Call(freq: int, stamp: int, start: int)

  type Calls = map<int, Call>

  function CallOf(s: Slot): Call {
    Call(s.freq, s.stamp, s.start)
  }

  /** The first logger that serves a talkgroup, or the number of loggers. */
  function SlotOf(slots: seq<Slot>, number: int): (k: nat)
    ensures k <= |slots|
    ensures k < |slots| ==> Serves(slots[k], number)
    ensures forall i :: 0 <= i < k ==> !Serves(slots[i], number)
  {
    if slots == [] || Serves(slots[0], number) then 0 else 1 + SlotOf(slots[1..], number)
  }

  /** What the loggers are recording. */
  function Abs(slots: seq<Slot>): Calls {
    map t | t in ActiveSet(slots) :: CallOf(slots[SlotOf(slots, t)])
  }

  /** A call that was heard within the timeout goes on. */
  function Kept(m: Calls, now: int): Calls {
    map t | t in m && now - m[t].stamp <= TIMEOUT :: m[t]
  }

  /** An effective message on the map: drop silent calls; then refresh the call, or open it if there is room for its priority. */
  function CallStep(setup: Setup, m: Calls, address: int, freq: int, now: int): Calls {
    var k := Kept(m, now);
    if address in k then k[address := Call(freq, now, k[address].start)]
    else if Records(setup, address, |k|) then k[address := Call(freq, now, now)]
    else k
  }

  // ----- the abstraction is well defined

  lemma AbsAt(slots: seq<Slot>, k: nat)
    requires k < |slots| && slots[k].active && Distinct(slots)
    ensures slots[k].talkgroup in Abs(slots) && Abs(slots)[slots[k].talkgroup] == CallOf(slots[k])
  {
    var t := slots[k].talkgroup;
    assert t in ActiveSet(slots);
    assert Serves(slots[k], t);
    assert SlotOf(slots, t) == k;
  }

  /** A map that agrees with every active logger and has no other keys is the abstraction. */
  lemma AbsUnique(slots: seq<Slot>, m: Calls)
    requires Distinct(slots) && m.Keys == ActiveSet(slots)
    requires forall k :: 0 <= k < |slots| && slots[k].active && slots[k].talkgroup in m ==> m[slots[k].talkgroup] == CallOf(slots[k])
    ensures m == Abs(slots)
  {
    forall t | t in m
      ensures m[t] == Abs(slots)[t]
    {
      var k :| 0 <= k < |slots| && slots[k].active && slots[k].talkgroup == t;
      AbsAt(slots, k);
    }
  }

  lemma {:induction false} ActiveSetSize(slots: seq<Slot>)
    requires Distinct(slots)
    ensures |ActiveSet(slots)| == Count(slots)
  {
    if slots != [] {
      var init, last := slots[..|slots| - 1], slots[|slots| - 1];
      ActiveSetSize(init);
      assert forall i :: 0 <= i < |init| ==> init[i] == slots[i];
      if last.active {
        assert last.talkgroup !in ActiveSet(init);
        assert ActiveSet(slots) == ActiveSet(init) + {last.talkgroup};
      } else {
        assert ActiveSet(slots) == ActiveSet(init);
      }
    }
  }

  lemma AbsSize(slots: seq<Slot>)
    requires Distinct(slots)
    ensures |Abs(slots)| == Count(slots)
  {
    ActiveSetSize(slots);
    assert Abs(slots).Keys == ActiveSet(slots);
  }

  // ----- each stage on the loggers is the stage on the map

  lemma ReapedAbs(setup: Setup, st: State, now: int)
    requires Inv(setup, st)
    ensures Inv(setup, Reaped(setup, st, |st.slots|, now))
    ensures Abs(Reaped(setup, st, |st.slots|, now).slots) == Kept(Abs(st.slots), now)
  {
    ReapedSlots(setup, st, |st.slots|, now);
    ClosedAbs(st.slots, Reaped(setup, st, |st.slots|, now).slots, now);
  }

  lemma ClosedAbs(slots: seq<Slot>, r: seq<Slot>, now: int)
    requires Distinct(slots) && |r| == |slots|
    requires forall k :: 0 <= k < |slots| ==> r[k] == if Expired(slots[k], now) then slots[k].(active := false) else slots[k]
    ensures Abs(r) == Kept(Abs(slots), now)
  {
    hide Abs, CallOf;
    var m := Kept(Abs(slots), now);
    AbsKeys(slots);
    forall k | 0 <= k < |r| && slots[k].active
      ensures r[k].active <==> slots[k].talkgroup in m
      ensures r[k].active ==> r[k] == slots[k] && m[r[k].talkgroup] == CallOf(r[k])
    {
      AbsAt(slots, k);
      assert CallOf(slots[k]).stamp == slots[k].stamp by {
        CallStamp(slots[k]);
      }
    }
    assert m.Keys == ActiveSet(r) by {
      forall t | t in m
        ensures t in ActiveSet(r)
      {
        var k :| 0 <= k < |r| && slots[k].active && slots[k].talkgroup == t;
        assert r[k].active;
      }
    }
    AbsUnique(r, m);
  }

  lemma CallStamp(s: Slot)
    ensures CallOf(s).stamp == s.stamp
  {
  }

  lemma RefreshedAbs(setup: Setup, st: State, address: int, freq: int, now: int)
    requires Inv(setup, st) && NotBefore(st, now)
    ensures
      var m := Abs(st.slots);
      Abs(Refreshed(st.slots, address, freq, now)) == if address in m then m[address := Call(freq, now, m[address].start)] else m
  {
    var m := Abs(st.slots);
    var r := Refreshed(st.slots, address, freq, now);
    var m' := if address in m then m[address := Call(freq, now, m[address].start)] else m;
    RefreshedKeeps(setup, st, address, freq, now);
    forall k | 0 <= k < |r| && r[k].active
      ensures m'[r[k].talkgroup] == CallOf(r[k])
    {
      AbsAt(st.slots, k);
    }
    assert m'.Keys == ActiveSet(r);
    AbsUnique(r, m');
  }

  lemma AdmittedAbs(setup: Setup, st: State, address: int, freq: int, now: int)
    requires Inv(setup, st) && address !in ActiveSet(st.slots)
    ensures
      var m := Abs(st.slots);
      Abs(Admitted(setup, st, address, freq, now).slots)
        == if Records(setup, address, |m|) then m[address := Call(freq, now, now)] else m
  {
    hide Abs, Inv, CallOf, Records;
    AbsSizeInv(setup, st);
    if Records(setup, address, st.numLoggers) {
      RoomForRecording(setup, st, address);
      var s := Slot(true, address, freq, now, now, st.numLoggers + 1);
      DistinctInv(setup, st);
      AbsOn(st.slots, FirstIdle(st.slots), s);
    }
  }

  lemma AbsOn(slots: seq<Slot>, k: nat, s: Slot)
    requires Distinct(slots)
    requires k < |slots| && !slots[k].active && s.active && s.talkgroup !in ActiveSet(slots)
    ensures Abs(slots[k := s]) == Abs(slots)[s.talkgroup := Call(s.freq, s.stamp, s.start)]
  {
    var r := slots[k := s];
    var m := Abs(slots)[s.talkgroup := Call(s.freq, s.stamp, s.start)];
    hide Abs;
    ActiveSetOn(slots, k, s);
    AbsKeys(slots);
    forall i | 0 <= i < |r| && r[i].active
      ensures m[r[i].talkgroup] == CallOf(r[i])
    {
      if i != k {
        AbsAt(slots, i);
      }
    }
    AbsUnique(r, m);
  }

  /** Refinement: on every state that keeps the invariant, the loops over the loggers, the counter and
      the display list do together what the map step does, and the counter is the size of the map. */
  lemma StepRefines(setup: Setup, st: State, address: int, command: int, now: int)
    requires Inv(setup, st) && NotBefore(st, now)
    ensures Abs(Step(setup, st, address, command, now).slots)
         == if Effective(address, command) then CallStep(setup, Abs(st.slots), address, GetFreq(command), now) else Abs(st.slots)
    ensures |Abs(st.slots)| == st.numLoggers
  {
    hide Abs, CallOf, Refreshed, Admitted, Records, Inv, Kept;
    AbsSizeInv(setup, st);
    FrequenciesNameChannels(address, command, command);
    if Effective(address, command) {
      var freq := GetFreq(command);
      var reaped := Reaped(setup, st, |st.slots|, now);
      ReapedAbs(setup, st, now);
      StillNotBefore(setup, st, now);
      RefreshedAbs(setup, reaped, address, freq, now);
      ServedIff(reaped.slots, address);
      AbsKeys(reaped.slots);
      if !Served(reaped.slots, address) {
        var refreshed := reaped.(slots := Refreshed(reaped.slots, address, freq, now));
        KeepsForAdmission(setup, reaped, address, freq, now);
        AdmittedAbs(setup, refreshed, address, freq, now);
      }
    }
  }

  lemma AbsKeys(slots: seq<Slot>)
    ensures Abs(slots).Keys == ActiveSet(slots)
  {
  }

  lemma DistinctInv(setup: Setup, st: State)
    requires Inv(setup, st)
    ensures Distinct(st.slots)
  {
  }

  lemma AbsSizeInv(setup: Setup, st: State)
    requires Inv(setup, st)
    ensures |Abs(st.slots)| == st.numLoggers
  {
    AbsSize(st.slots);
  }

  lemma StillNotBefore(setup: Setup, st: State, now: int)
    requires Inv(setup, st) && NotBefore(st, now)
    ensures NotBefore(Reaped(setup, st, |st.slots|, now), now)
  {
    ReapedSlots(setup, st, |st.slots|, now);
  }

  lemma KeepsForAdmission(setup: Setup, st: State, address: int, freq: int, now: int)
    requires Inv(setup, st) && NotBefore(st, now)
    ensures Inv(setup, st.(slots := Refreshed(st.slots, address, freq, now)))
    ensures ActiveSet(Refreshed(st.slots, address, freq, now)) == ActiveSet(st.slots)
  {
    RefreshedKeeps(setup, st, address, freq, now);
  }
}
