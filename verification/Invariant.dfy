/** What every message keeps: the counter counts, talkgroups are served once, the display mirrors the loggers. */
module Invariant {
  import opened Allocator

  /** The number of active loggers. */
  function Count(slots: seq<Slot>): nat {
    if slots == [] then 0 else Count(slots[..|slots| - 1]) + (if slots[|slots| - 1].active then 1 else 0)
  }

  /** No two active loggers serve the same talkgroup. */
  ghost predicate Distinct(slots: seq<Slot>) {
    forall i, j :: 0 <= i < j < |slots| && slots[i].active && slots[j].active ==> slots[i].talkgroup != slots[j].talkgroup
  }

  /** The talkgroups being recorded. */
  function ActiveSet(slots: seq<Slot>): set<int> {
    set k | 0 <= k < |slots| && slots[k].active :: slots[k].talkgroup
  }

  function Numbers(tgs: seq<Talkgroup>): set<int> {
    set i | 0 <= i < |tgs| :: tgs[i].number
  }

  ghost predicate NoRepeats(tgs: seq<Talkgroup>) {
    forall i, j :: 0 <= i < j < |tgs| ==> tgs[i].number != tgs[j].number
  }

  /** The display list holds the active talkgroups, each once; without a console it is not kept. */
  ghost predicate Mirrors(setup: Setup, st: State) {
    if setup.console then NoRepeats(st.activeTg) && Numbers(st.activeTg) == ActiveSet(st.slots)
    else st.activeTg == []
  }

  ghost predicate Inv(setup: Setup, st: State) {
    && |st.slots| == MAX_LOGGERS
    && Distinct(st.slots)
    && st.numLoggers == Count(st.slots)
    && Mirrors(setup, st)
    && (forall k :: 0 <= k < |st.slots| && st.slots[k].active ==> st.slots[k].start <= st.slots[k].stamp)
  }

  // ----- counting

  lemma {:induction false} CountSplit(a: seq<Slot>, b: seq<Slot>)
    ensures Count(a + b) == Count(a) + Count(b)
  {
    if b == [] {
      assert a + b == a;
    } else {
      assert (a + b)[..|a + b| - 1] == a + b[..|b| - 1];
      CountSplit(a, b[..|b| - 1]);
    }
  }

  /** Changing one logger changes the count by what changed there. */
  lemma CountUpdate(slots: seq<Slot>, k: nat, s: Slot)
    requires k < |slots|
    ensures Count(slots[k := s]) == Count(slots) - (if slots[k].active then 1 else 0) + (if s.active then 1 else 0)
  {
    CountSplit(slots[..k], [slots[k]]);
    CountSplit(slots[..k] + [slots[k]], slots[k + 1..]);
    CountSplit(slots[..k], [s]);
    CountSplit(slots[..k] + [s], slots[k + 1..]);
    assert slots == slots[..k] + [slots[k]] + slots[k + 1..];
    assert slots[k := s] == slots[..k] + [s] + slots[k + 1..];
  }

  /** Pigeonhole: when all loggers are active they are all counted. */
  lemma {:induction false} CountFull(slots: seq<Slot>)
    ensures Count(slots) <= |slots|
    ensures Count(slots) == |slots| <==> FirstIdle(slots) == |slots|
  {
    if slots != [] {
      var init := slots[..|slots| - 1];
      CountFull(init);
      assert FirstIdle(slots) == |slots| ==> forall i :: 0 <= i < |slots| ==> slots[i].active;
      assert FirstIdle(init) < |init| ==> !slots[FirstIdle(init)].active;
    }
  }

  lemma {:induction false} CountPositive(slots: seq<Slot>, k: nat)
    requires k < |slots| && slots[k].active
    ensures Count(slots) > 0
  {
    if k < |slots| - 1 {
      CountPositive(slots[..|slots| - 1], k);
    }
  }

  // ----- the display list

  lemma NumbersCons(tg: Talkgroup, rest: seq<Talkgroup>)
    ensures Numbers([tg] + rest) == {tg.number} + Numbers(rest)
    ensures NoRepeats([tg] + rest) <==> tg.number !in Numbers(rest) && NoRepeats(rest)
  {
    var r := [tg] + rest;
    assert r[0] == tg;
    assert forall i :: 0 <= i < |rest| ==> rest[i] == r[i + 1] && rest[i].number in Numbers(rest);
    assert forall i :: 0 < i < |r| ==> r[i] == rest[i - 1];
  }

  lemma {:induction false} EraseKeeps(tgs: seq<Talkgroup>, number: int)
    requires NoRepeats(tgs)
    ensures NoRepeats(EraseFirst(tgs, number))
    ensures Numbers(EraseFirst(tgs, number)) == Numbers(tgs) - {number}
  {
    hide NoRepeats, Numbers;
    if tgs == [] {
      assert Numbers([]) == {} by { NumbersEmpty(); }
    } else {
      assert tgs == [tgs[0]] + tgs[1..];
      NumbersCons(tgs[0], tgs[1..]);
      if tgs[0].number != number {
        EraseKeeps(tgs[1..], number);
        NumbersCons(tgs[0], EraseFirst(tgs[1..], number));
      }
    }
  }

  lemma NumbersEmpty()
    ensures Numbers([]) == {}
  {
  }

  lemma AppendNumber(tgs: seq<Talkgroup>, tg: Talkgroup)
    requires NoRepeats(tgs) && tg.number !in Numbers(tgs)
    ensures NoRepeats(tgs + [tg]) && Numbers(tgs + [tg]) == Numbers(tgs) + {tg.number}
  {
    var r := tgs + [tg];
    assert forall i :: 0 <= i < |tgs| ==> r[i] == tgs[i] && tgs[i].number in Numbers(tgs);
    assert r[|tgs|] == tg;
  }

  // ----- the three stages of a message keep the invariant

  lemma ActiveSetOff(slots: seq<Slot>, k: nat)
    requires k < |slots| && slots[k].active && Distinct(slots)
    ensures ActiveSet(slots[k := slots[k].(active := false)]) == ActiveSet(slots) - {slots[k].talkgroup}
    ensures Distinct(slots[k := slots[k].(active := false)])
  {
    var r := slots[k := slots[k].(active := false)];
    forall t
      ensures t in ActiveSet(r) <==> t in ActiveSet(slots) - {slots[k].talkgroup}
    {
      if t in ActiveSet(slots) && t != slots[k].talkgroup {
        var i :| 0 <= i < |slots| && slots[i].active && slots[i].talkgroup == t;
        assert r[i] == slots[i];
      }
    }
  }

  lemma ActiveSetOn(slots: seq<Slot>, k: nat, s: Slot)
    requires k < |slots| && !slots[k].active && s.active && Distinct(slots) && s.talkgroup !in ActiveSet(slots)
    ensures ActiveSet(slots[k := s]) == ActiveSet(slots) + {s.talkgroup}
    ensures Distinct(slots[k := s])
  {
    var r := slots[k := s];
    assert r[k] == s;
    forall i | 0 <= i < |slots| && slots[i].active
      ensures r[i] == slots[i] && slots[i].talkgroup in ActiveSet(slots)
    {
    }
  }

  lemma ReapOneKeeps(setup: Setup, st: State, k: nat, now: int)
    requires Inv(setup, st) && k < |st.slots|
    ensures Inv(setup, ReapOne(setup, st, k, now))
  {
    if Expired(st.slots[k], now) {
      ActiveSetOff(st.slots, k);
      CountUpdate(st.slots, k, st.slots[k].(active := false));
      CountPositive(st.slots, k);
      if setup.console {
        EraseKeeps(st.activeTg, st.slots[k].talkgroup);
      }
    }
  }

  /** After the first loop exactly the expired loggers are off, and nothing else about a logger has changed. */
  lemma {:induction false} ReapedSlots(setup: Setup, st: State, n: nat, now: int)
    requires Inv(setup, st) && n <= |st.slots|
    ensures Inv(setup, Reaped(setup, st, n, now))
    ensures forall k :: 0 <= k < |st.slots| ==>
      Reaped(setup, st, n, now).slots[k] ==
        if k < n && st.slots[k].active && now - st.slots[k].stamp > 4 then st.slots[k].(active := false) else st.slots[k]
  {
    if n > 0 {
      ReapedSlots(setup, st, n - 1, now);
      ReapOneKeeps(setup, Reaped(setup, st, n - 1, now), n - 1, now);
    }
  }

  lemma {:induction false} CountSame(a: seq<Slot>, b: seq<Slot>)
    requires |a| == |b| && forall k :: 0 <= k < |a| ==> a[k].active == b[k].active
    ensures Count(a) == Count(b)
  {
    if a != [] {
      CountSame(a[..|a| - 1], b[..|b| - 1]);
    }
  }

  lemma RefreshedKeeps(setup: Setup, st: State, address: int, freq: int, now: int)
    requires Inv(setup, st)
    requires forall k :: 0 <= k < |st.slots| && st.slots[k].active ==> st.slots[k].stamp <= now
    ensures Inv(setup, st.(slots := Refreshed(st.slots, address, freq, now)))
    ensures ActiveSet(Refreshed(st.slots, address, freq, now)) == ActiveSet(st.slots)
  {
    var r := Refreshed(st.slots, address, freq, now);
    assert forall k :: 0 <= k < |r| ==> r[k].active == st.slots[k].active && r[k].talkgroup == st.slots[k].talkgroup;
    CountSame(r, st.slots);
    assert ActiveSet(r) == ActiveSet(st.slots);
  }

  /** Whenever a call is to be recorded there is an idle logger for it. */
  lemma RoomForRecording(setup: Setup, st: State, number: int)
    requires Inv(setup, st) && Records(setup, number, st.numLoggers)
    ensures FirstIdle(st.slots) < |st.slots| && st.numLoggers + 1 < UNSIGNED
  {
    CountFull(st.slots);
  }

  lemma AdmittedKeeps(setup: Setup, st: State, address: int, freq: int, now: int)
    requires Inv(setup, st) && address !in ActiveSet(st.slots)
    ensures Inv(setup, Admitted(setup, st, address, freq, now))
  {
    if Records(setup, address, st.numLoggers) {
      RoomForRecording(setup, st, address);
      var k := FirstIdle(st.slots);
      var s := Slot(true, address, freq, now, now, st.numLoggers + 1);
      ActiveSetOn(st.slots, k, s);
      CountUpdate(st.slots, k, s);
      if setup.console {
        AppendNumber(st.activeTg, Find(setup.talkgroups, address).talkgroup);
      }
    }
  }

  lemma ServedIff(slots: seq<Slot>, address: int)
    ensures Served(slots, address) <==> address in ActiveSet(slots)
  {
  }

  /** The clock has not gone back since any call was last heard. */
  ghost predicate NotBefore(st: State, now: int) {
    forall k :: 0 <= k < |st.slots| && st.slots[k].active ==> st.slots[k].stamp <= now
  }

  /** Every message keeps the invariant. */
  lemma StepKeeps(setup: Setup, st: State, address: int, command: int, now: int)
    requires Inv(setup, st) && NotBefore(st, now)
    ensures Inv(setup, Step(setup, st, address, command, now))
    ensures NotBefore(Step(setup, st, address, command, now), now)
  {
    var freq := RetFreq(address, command);
    if freq != 0 {
      var reaped := Reaped(setup, st, |st.slots|, now);
      ReapedSlots(setup, st, |st.slots|, now);
      RefreshedKeeps(setup, reaped, address, freq, now);
      var refreshed := reaped.(slots := Refreshed(reaped.slots, address, freq, now));
      ServedIff(reaped.slots, address);
      if !Served(reaped.slots, address) {
        AdmittedKeeps(setup, refreshed, address, freq, now);
      }
    }
  }
}
