/** The recorder's state and what one control message does to it (parse_message in smartnet.cc), on values. */
module Allocator {

  const MAX_LOGGERS := 6

  /** Seconds without a message after which a call is closed (strictly more than). */
  const TIMEOUT := 4

  /** An `unsigned int` counts modulo this. */
  const UNSIGNED := 0x1_0000_0000

  /** A known talkgroup: priority 1 is the highest, 3 the lowest. */
  datatype Talkgroup = Talkgroup(number: int, priority: int)

  /** One logger. An idle logger keeps the data of its last call. */
  datatype Slot = Slot(active: bool, talkgroup: int, freq: int, stamp: int, start: int, num: nat)

  datatype State = State(slots: seq<Slot>, numLoggers: nat, activeTg: seq<Talkgroup>)

  /** What does not change while the recorder runs. */
  datatype Setup = Setup(talkgroups: seq<Talkgroup>, console: bool)

  // ----- reading a message

  /** Channel frequency in units of 12.5 kHz; 0 for commands that name no channel. */
  function GetFreq(command: int): int {
    if command < 0x1b8 then 68081 + 2 * command
    else if command < 0x230 then 67202 + 2 * command
    else 0
  }

  /** The frequency a message assigns, or 0 when the recorder ignores it. */
  function RetFreq(address: int, command: int): int {
    if command < 0x2d0 && address != 56016 && address != 8176 then GetFreq(command) else 0
  }

  predicate Effective(address: int, command: int) {
    command < 0x230 && address != 56016 && address != 8176
  }

  /** Different channels have different frequencies, so the retune test on frequencies compares
      channels, and no channel has frequency 0, so the test `if (retfreq)` selects the effective messages. */
  lemma FrequenciesNameChannels(address: int, command: int, other: int)
    ensures RetFreq(address, command) != 0 <==> Effective(address, command)
    ensures RetFreq(address, command) != 0 <==> command < 0x230 && address != 56016 && address != 8176
    ensures RetFreq(address, command) != 0 ==> RetFreq(address, command) == GetFreq(command)
    ensures command < 0x230 && other < 0x230 && GetFreq(command) == GetFreq(other) ==> command == other
  {
  }

  /** The units are right: 851.0125 MHz and 25 kHz a channel, 10.9875 MHz lower in the upper block. */
  lemma FrequencyInMegahertz(command: int)
    ensures command < 0x1b8 ==> GetFreq(command) as real * 0.0125 == command as real * 0.025 + 851.0125
    ensures 0x1b8 <= command < 0x230 ==> GetFreq(command) as real * 0.0125 == command as real * 0.025 + 851.0125 - 10.9875
  {
  }

  // ----- closing calls that fell silent

  predicate Expired(s: Slot, now: int) {
    s.active && now - s.stamp > TIMEOUT
  }

  /** Removes the first entry with the given number. */
  function EraseFirst(tgs: seq<Talkgroup>, number: int): seq<Talkgroup> {
    if tgs == [] then []
    else if tgs[0].number == number then tgs[1..]
    else [tgs[0]] + EraseFirst(tgs[1..], number)
  }

  /** Entry `i` is the first in the list with the given number. */
  ghost predicate FirstWith(tgs: seq<Talkgroup>, number: int, i: int) {
    0 <= i < |tgs| && tgs[i].number == number && forall j :: 0 <= j < i ==> tgs[j].number != number
  }

  /** Only the first entry with the number goes. */
  lemma {:induction false} ErasesFirst(tgs: seq<Talkgroup>, number: int, i: int)
    requires FirstWith(tgs, number, i)
    ensures EraseFirst(tgs, number) == tgs[..i] + tgs[i + 1..]
  {
    if i > 0 {
      assert forall j :: 0 <= j < i ==> tgs[1..][j] == tgs[j + 1];
      ErasesFirst(tgs[1..], number, i - 1);
    }
  }

  lemma {:induction false} ErasesNone(tgs: seq<Talkgroup>, number: int)
    requires forall i :: 0 <= i < |tgs| ==> tgs[i].number != number
    ensures EraseFirst(tgs, number) == tgs
  {
    if tgs != [] {
      ErasesNone(tgs[1..], number);
    }
  }

  function Decrement(n: nat): nat {
    if n == 0 then UNSIGNED - 1 else n - 1
  }

  /** What the first loop does to logger `k`. */
  function ReapOne(setup: Setup, st: State, k: nat, now: int): (r: State)
    requires k < |st.slots|
    ensures |r.slots| == |st.slots|
  {
    if !Expired(st.slots[k], now) then st
    else State(st.slots[k := st.slots[k].(active := false)],
               Decrement(st.numLoggers),
               if setup.console then EraseFirst(st.activeTg, st.slots[k].talkgroup) else st.activeTg)
  }

  /** The state after the first loop has passed `n` loggers. */
  function Reaped(setup: Setup, st: State, n: nat, now: int): (r: State)
    requires n <= |st.slots|
    ensures |r.slots| == |st.slots|
  {
    if n == 0 then st else ReapOne(setup, Reaped(setup, st, n - 1, now), n - 1, now)
  }

  // ----- calls that go on

  predicate Serves(s: Slot, address: int) {
    s.active && s.talkgroup == address
  }

  predicate Served(slots: seq<Slot>, address: int) {
    exists k :: 0 <= k < |slots| && Serves(slots[k], address)
  }

  /** Retunes and refreshes every logger on the talkgroup. */
  function Refreshed(slots: seq<Slot>, address: int, freq: int, now: int): (r: seq<Slot>)
    ensures |r| == |slots|
  {
    seq(|slots|, k requires 0 <= k < |slots| =>
      if Serves(slots[k], address) then slots[k].(freq := freq, stamp := now) else slots[k])
  }

  // ----- new calls

  datatype Lookup = Unknown | Known(talkgroup: Talkgroup)

  /** The first talkgroup in the list with the given number. */
  function Find(tgs: seq<Talkgroup>, number: int): (r: Lookup)
    ensures r.Known? ==> r.talkgroup.number == number
  {
    if tgs == [] then Unknown
    else if tgs[0].number == number then Known(tgs[0])
    else Find(tgs[1..], number)
  }

  /** The lookup finds an entry exactly when there is one with the number ... */
  lemma {:induction false} FindIff(tgs: seq<Talkgroup>, number: int)
    ensures Find(tgs, number).Known? <==> exists i :: 0 <= i < |tgs| && tgs[i].number == number
  {
    if tgs != [] && tgs[0].number != number {
      FindIff(tgs[1..], number);
      if i :| 0 <= i < |tgs| && tgs[i].number == number {
        assert tgs[1..][i - 1] == tgs[i];
      }
    }
  }

  /** ... and then the first of them. */
  lemma {:induction false} FindFirst(tgs: seq<Talkgroup>, number: int, i: nat)
    requires FirstWith(tgs, number, i)
    ensures Find(tgs, number) == Known(tgs[i])
  {
    if i > 0 {
      assert forall j :: 0 <= j < i ==> tgs[1..][j] == tgs[j + 1];
      FindFirst(tgs[1..], number, i - 1);
    }
  }

  /** Fewer loggers are open to lower priorities. */
  predicate Admissible(priority: int, numLoggers: nat) {
    || (priority == 1 && numLoggers < MAX_LOGGERS)
    || (priority == 2 && numLoggers < 4)
    || (priority == 3 && numLoggers < 2)
  }

  predicate Records(setup: Setup, number: int, numLoggers: nat) {
    var r := Find(setup.talkgroups, number);
    r.Known? && Admissible(r.talkgroup.priority, numLoggers)
  }

  /** The first idle logger, or the number of loggers. */
  function FirstIdle(slots: seq<Slot>): (k: nat)
    ensures k <= |slots|
    ensures k < |slots| ==> !slots[k].active
    ensures forall i :: 0 <= i < k ==> slots[i].active
  {
    if slots == [] || !slots[0].active then 0 else 1 + FirstIdle(slots[1..])
  }

  /** Puts a talkgroup on the first idle logger, if there is one. */
  function Started(st: State, address: int, freq: int, now: int): (r: State)
    ensures |r.slots| == |st.slots|
  {
    var k := FirstIdle(st.slots);
    if k == |st.slots| then st
    else
      var n := (st.numLoggers + 1) % UNSIGNED;
      st.(slots := st.slots[k := Slot(true, address, freq, now, now, n)], numLoggers := n)
  }

  /** Shows and starts a talkgroup that is to be recorded. */
  function Admitted(setup: Setup, st: State, address: int, freq: int, now: int): (r: State)
    ensures |r.slots| == |st.slots|
  {
    if !Records(setup, address, st.numLoggers) then st
    else
      var shown := if setup.console then st.activeTg + [Find(setup.talkgroups, address).talkgroup] else st.activeTg;
      Started(st.(activeTg := shown), address, freq, now)
  }

  /** A talkgroup that is not in the list is ignored. */
  lemma UnknownIgnored(setup: Setup, st: State, address: int, freq: int, now: int)
    requires forall i :: 0 <= i < |setup.talkgroups| ==> setup.talkgroups[i].number != address
    ensures Admitted(setup, st, address, freq, now) == st
  {
    FindIff(setup.talkgroups, address);
  }

  /** Logger `k` is the first that is idle. */
  ghost predicate FirstFree(slots: seq<Slot>, k: int) {
    0 <= k < |slots| && !slots[k].active && forall j :: 0 <= j < k ==> slots[j].active
  }

  /** From `st` to `r` a new call of the listed talkgroup `i` starts on logger `k`, if its priority lets it; else nothing changes. */
  ghost predicate ListedCall(setup: Setup, st: State, r: State, address: int, freq: int, now: int, i: int, k: int)
    requires 0 <= i < |setup.talkgroups| && 0 <= k < |st.slots|
  {
    var tg, n := setup.talkgroups[i], st.numLoggers;
    if (tg.priority == 1 && n < 6) || (tg.priority == 2 && n < 4) || (tg.priority == 3 && n < 2) then
      && r.numLoggers == (n + 1) % 0x1_0000_0000
      && r.slots == st.slots[k := Slot(true, address, freq, now, now, r.numLoggers)]
      && r.activeTg == (if setup.console then st.activeTg + [tg] else st.activeTg)
    else
      r == st
  }

  /** That is what happens, with the first entry that has the number and the first idle logger. */
  lemma ListedCallStarts(setup: Setup, st: State, address: int, freq: int, now: int, i: int, k: int)
    requires FirstWith(setup.talkgroups, address, i) && FirstFree(st.slots, k)
    ensures ListedCall(setup, st, Admitted(setup, st, address, freq, now), address, freq, now, i, k)
  {
    FindFirst(setup.talkgroups, address, i);
    assert FirstIdle(st.slots) == k;
  }

  // ----- one message

  /** What an effective message for `address` on `freq` does. */
  function Assigned(setup: Setup, st: State, address: int, freq: int, now: int): (r: State)
    ensures |r.slots| == |st.slots|
  {
    var reaped := Reaped(setup, st, |st.slots|, now);
    var refreshed := reaped.(slots := Refreshed(reaped.slots, address, freq, now));
    if Served(reaped.slots, address) then refreshed else Admitted(setup, refreshed, address, freq, now)
  }

  function Step(setup: Setup, st: State, address: int, command: int, now: int): (r: State)
    ensures |r.slots| == |st.slots|
  {
    var freq := RetFreq(address, command);
    if freq != 0 then Assigned(setup, st, address, freq, now) else st
  }
}
