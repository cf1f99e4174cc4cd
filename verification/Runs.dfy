/** The recorder over whole runs of messages. */
module Runs {
  import opened Allocator
  import opened Invariant
  import opened CallMap

  /** A message and the time at which it is handled. */
  datatype Event = Event(address: int, command: int, now: int) {
    predicate IsEffective() {
      Effective(address, command)
    }
  }

  /** Times never go back, from `from` on. */
  ghost predicate Monotone(es: seq<Event>, from: int) {
    es == [] || (from <= es[0].now && Monotone(es[1..], es[0].now))
  }

  function Initial(slots: seq<Slot>): State {
    State(slots, 0, [])
  }

  /** The state after the messages `es`. */
  function Run(setup: Setup, st: State, es: seq<Event>): State
    decreases |es|
  {
    if es == [] then st else Run(setup, Step(setup, st, es[0].address, es[0].command, es[0].now), es[1..])
  }

  function MapStep(setup: Setup, m: Calls, e: Event): Calls {
    if e.IsEffective() then CallStep(setup, m, e.address, GetFreq(e.command), e.now) else m
  }

  /** The calls after the messages `es`. */
  function RunCalls(setup: Setup, m: Calls, es: seq<Event>): Calls
    decreases |es|
  {
    if es == [] then m else RunCalls(setup, MapStep(setup, m, es[0]), es[1..])
  }

  // ----- safety and refinement over every run

  lemma InitialInv(setup: Setup, slots: seq<Slot>)
    requires |slots| == MAX_LOGGERS && forall k :: 0 <= k < |slots| ==> !slots[k].active
    ensures Inv(setup, Initial(slots)) && Abs(slots) == map[]
  {
    NoneCounted(slots);
    assert ActiveSet(slots) == {};
  }

  lemma {:induction false} NoneCounted(slots: seq<Slot>)
    requires forall k :: 0 <= k < |slots| ==> !slots[k].active
    ensures Count(slots) == 0
  {
    if slots != [] {
      NoneCounted(slots[..|slots| - 1]);
    }
  }

  lemma NotBeforeLater(st: State, now: int, later: int)
    requires NotBefore(st, now) && now <= later
    ensures NotBefore(st, later)
  {
  }

  /** After any run the counter is the number of calls, no talkgroup is recorded twice, the display
      mirrors the loggers, and what is being recorded is what the map run says. */
  lemma {:induction false} RunRefines(setup: Setup, st: State, es: seq<Event>, from: int)
    requires Inv(setup, st) && NotBefore(st, from) && Monotone(es, from)
    ensures Inv(setup, Run(setup, st, es))
    ensures Abs(Run(setup, st, es).slots) == RunCalls(setup, Abs(st.slots), es)
    ensures Run(setup, st, es).numLoggers == |RunCalls(setup, Abs(st.slots), es)|
    decreases |es|
  {
    hide Inv, NotBefore, Abs, Step, CallStep;
    if es == [] {
      AbsSizeInv(setup, st);
    } else {
      var e := es[0];
      NotBeforeLater(st, from, e.now);
      StepKeeps(setup, st, e.address, e.command, e.now);
      StepRefines(setup, st, e.address, e.command, e.now);
      RunRefines(setup, Step(setup, st, e.address, e.command, e.now), es[1..], e.now);
    }
  }

  // ----- loggers kept free for higher priorities

  function Priority(setup: Setup, number: int): int {
    var r := Find(setup.talkgroups, number);
    if r.Known? then r.talkgroup.priority else 0
  }

  /** The talkgroups being recorded whose priority is `p` or lower. */
  function AtMost(setup: Setup, m: Calls, p: int): set<int> {
    set t | t in m && Priority(setup, t) >= p
  }

  ghost predicate Reserved(setup: Setup, m: Calls) {
    && (forall t :: t in m ==> 1 <= Priority(setup, t) <= 3)
    && |AtMost(setup, m, 3)| <= 2
    && |AtMost(setup, m, 2)| <= 4
    && |m| <= MAX_LOGGERS
  }

  lemma SubsetSize(a: set<int>, b: set<int>)
    requires a <= b
    ensures |a| <= |b|
  {
    assert b == a + (b - a);
  }

  lemma KeptReserved(setup: Setup, m: Calls, now: int)
    requires Reserved(setup, m)
    ensures Reserved(setup, Kept(m, now))
  {
    var k := Kept(m, now);
    SubsetSize(AtMost(setup, k, 3), AtMost(setup, m, 3));
    SubsetSize(AtMost(setup, k, 2), AtMost(setup, m, 2));
    SubsetSize(k.Keys, m.Keys);
    assert |k| == |k.Keys| && |m| == |m.Keys|;
  }

  lemma AtMostInsert(setup: Setup, m: Calls, t: int, c: Call, p: int)
    ensures AtMost(setup, m[t := c], p) == AtMost(setup, m, p) + if Priority(setup, t) >= p then {t} else {}
    ensures |AtMost(setup, m, p)| <= |m|
  {
    SubsetSize(AtMost(setup, m, p), m.Keys);
    assert |m| == |m.Keys|;
  }

  lemma CallStepReserved(setup: Setup, m: Calls, address: int, freq: int, now: int)
    requires Reserved(setup, m)
    ensures Reserved(setup, CallStep(setup, m, address, freq, now))
  {
    var k := Kept(m, now);
    KeptReserved(setup, m, now);
    hide Reserved;
    if address in k {
      RefreshReserved(setup, k, address, Call(freq, now, k[address].start));
    } else if Records(setup, address, |k|) {
      AdmitReserved(setup, k, address, Call(freq, now, now));
    }
  }

  lemma RefreshReserved(setup: Setup, k: Calls, address: int, c: Call)
    requires Reserved(setup, k) && address in k
    ensures Reserved(setup, k[address := c])
  {
    assert AtMost(setup, k[address := c], 3) == AtMost(setup, k, 3);
    assert AtMost(setup, k[address := c], 2) == AtMost(setup, k, 2);
    assert k[address := c].Keys == k.Keys;
  }

  lemma AdmitReserved(setup: Setup, k: Calls, address: int, c: Call)
    requires Reserved(setup, k) && address !in k && Records(setup, address, |k|)
    ensures Reserved(setup, k[address := c])
  {
    hide AtMost;
    AtMostInsert(setup, k, address, c, 3);
    AtMostInsert(setup, k, address, c, 2);
    assert k[address := c].Keys == k.Keys + {address};
  }

  /** In every run at most two loggers serve priority 3, at most four serve priorities 2 and 3
      together, and at most six are busy, although admission only ever looks at the total. */
  lemma {:induction false} RunReserved(setup: Setup, m: Calls, es: seq<Event>)
    requires Reserved(setup, m)
    ensures Reserved(setup, RunCalls(setup, m, es))
    decreases |es|
  {
    if es != [] {
      if es[0].IsEffective() {
        CallStepReserved(setup, m, es[0].address, GetFreq(es[0].command), es[0].now);
      }
      RunReserved(setup, MapStep(setup, m, es[0]), es[1..]);
    }
  }

  /** From the start, over every run: the invariant and the reservation hold of the loggers themselves. */
  lemma RecorderSafe(setup: Setup, slots: seq<Slot>, es: seq<Event>, from: int)
    requires |slots| == MAX_LOGGERS && forall i :: 0 <= i < |slots| ==> !slots[i].active
    requires Monotone(es, from)
    ensures
      var r := Run(setup, Initial(slots), es);
      Inv(setup, r) && Reserved(setup, Abs(r.slots)) && r.numLoggers == |Abs(r.slots)| <= MAX_LOGGERS
  {
    InitialInv(setup, slots);
    RunRefines(setup, Initial(slots), es, from);
    assert AtMost(setup, map[], 2) == {} && AtMost(setup, map[], 3) == {};
    RunReserved(setup, map[], es);
  }

  /** When a new call of known priority is refused: priority 1 exactly when all six loggers are busy, and then two
      of them or more serve priority 1; priority 2 exactly when four are busy, two or more of them with
      priority 1 or 2; priority 3 exactly when two are. */
  lemma RefusedIff(setup: Setup, m: Calls, address: int, freq: int, now: int)
    requires Reserved(setup, m) && address !in Kept(m, now)
    ensures
      var busy, p := Kept(m, now), Priority(setup, address);
      var refused := address !in CallStep(setup, m, address, freq, now);
      && (p == 1 ==> (refused <==> |busy| == 6) && (refused ==> |busy.Keys - AtMost(setup, busy, 2)| >= 2))
      && (p == 2 ==> (refused <==> |busy| >= 4) && (refused ==> |busy.Keys - AtMost(setup, busy, 3)| >= 2))
      && (p == 3 ==> (refused <==> |busy| >= 2))
      && (p < 1 || p > 3 ==> refused)
  {
    var busy := Kept(m, now);
    KeptReserved(setup, m, now);
    assert |busy| == |busy.Keys|;
    RestSize(busy.Keys, AtMost(setup, busy, 2));
    RestSize(busy.Keys, AtMost(setup, busy, 3));
  }

  lemma RestSize(a: set<int>, b: set<int>)
    requires b <= a
    ensures |a - b| == |a| - |b|
  {
    assert a == b + (a - b);
  }

  // ----- what a call's data is, in terms of the whole trace

  datatype Heard = Never | Last(e: Event)

  /** The last effective message for a talkgroup. */
  function LastHeard(es: seq<Event>, number: int): Heard {
    if es == [] then Never
    else
      var later := LastHeard(es[1..], number);
      if later.Last? then later
      else if es[0].IsEffective() && es[0].address == number then Last(es[0])
      else Never
  }

  /** A call is tuned to, and was last seen at, the last effective message for its talkgroup in the whole trace. */
  lemma {:induction false} CallsFollowTrace(setup: Setup, m: Calls, es: seq<Event>, t: int)
    requires t in RunCalls(setup, m, es)
    ensures
      var c, h := RunCalls(setup, m, es)[t], LastHeard(es, t);
      if h.Last? then c.freq == GetFreq(h.e.command) && c.stamp == h.e.now
      else t in m && c == m[t]
    decreases |es|
  {
    if es != [] {
      CallsFollowTrace(setup, MapStep(setup, m, es[0]), es[1..], t);
    }
  }

  /** The same on the loggers, from the start, and down to the channel: the frequency names it. */
  lemma LoggersFollowTrace(setup: Setup, slots: seq<Slot>, es: seq<Event>, from: int, k: nat, command: int)
    requires |slots| == MAX_LOGGERS && forall i :: 0 <= i < |slots| ==> !slots[i].active
    requires Monotone(es, from)
    requires k < |Run(setup, Initial(slots), es).slots| && Run(setup, Initial(slots), es).slots[k].active
    requires command < 0x230
    ensures
      var s := Run(setup, Initial(slots), es).slots[k];
      var h := LastHeard(es, s.talkgroup);
      h.Last? && s.stamp == h.e.now && (s.freq == GetFreq(command) <==> h.e.command == command)
  {
    InitialInv(setup, slots);
    RunRefines(setup, Initial(slots), es, from);
    var r := Run(setup, Initial(slots), es).slots;
    AbsAt(r, k);
    CallsFollowTrace(setup, map[], es, r[k].talkgroup);
    LastIsEffective(es, r[k].talkgroup);
    var h := LastHeard(es, r[k].talkgroup);
    FrequenciesNameChannels(0, h.e.command, command);
  }

  lemma {:induction false} LastIsEffective(es: seq<Event>, t: int)
    ensures LastHeard(es, t).Last? ==> LastHeard(es, t).e.IsEffective()
  {
    if es != [] {
      LastIsEffective(es[1..], t);
    }
  }

  // ----- how long a call lasts

  /** Right after an effective message no logger is left on a call that has been silent for longer than the timeout. */
  lemma NoStaleLoggers(setup: Setup, st: State, e: Event, k: nat)
    requires Inv(setup, st) && NotBefore(st, e.now) && e.IsEffective()
    requires k < |st.slots| && Step(setup, st, e.address, e.command, e.now).slots[k].active
    ensures e.now - Step(setup, st, e.address, e.command, e.now).slots[k].stamp <= 4
  {
    var r := Step(setup, st, e.address, e.command, e.now);
    hide Step, Inv, Abs, CallStep, NotBefore;
    StepKeeps(setup, st, e.address, e.command, e.now);
    StepRefines(setup, st, e.address, e.command, e.now);
    DistinctInv(setup, r);
    AbsAt(r.slots, k);
    CallStepFresh(setup, Abs(st.slots), e.address, GetFreq(e.command), e.now, r.slots[k].talkgroup);
  }

  lemma CallStepFresh(setup: Setup, m: Calls, address: int, freq: int, now: int, t: int)
    requires t in CallStep(setup, m, address, freq, now)
    ensures now - CallStep(setup, m, address, freq, now)[t].stamp <= TIMEOUT
  {
  }

  /** From a last message at `stamp`, no effective message of any talkgroup comes more than the timeout after the latest one for `t`. */
  ghost predicate Unbroken(es: seq<Event>, t: int, stamp: int) {
    es == [] ||
    if es[0].IsEffective() then es[0].now - stamp <= TIMEOUT && Unbroken(es[1..], t, if es[0].address == t then es[0].now else stamp)
    else Unbroken(es[1..], t, stamp)
  }

  /** A call starts when it is opened and cannot have been heard before, nor later than now. */
  ghost predicate Timely(m: Calls, now: int) {
    forall t :: t in m ==> m[t].start <= m[t].stamp <= now
  }

  lemma MapStepTimely(setup: Setup, m: Calls, e: Event, from: int)
    requires Timely(m, from) && from <= e.now
    ensures Timely(MapStep(setup, m, e), e.now)
  {
  }

  /** A call that has once been closed never comes back with its old start. */
  lemma {:induction false} StaysLater(setup: Setup, m: Calls, es: seq<Event>, t: int, start: int, from: int)
    requires Timely(m, from) && Monotone(es, from) && start < from
    requires t in m ==> m[t].start > start
    ensures t in RunCalls(setup, m, es) ==> RunCalls(setup, m, es)[t].start > start
    decreases |es|
  {
    if es != [] {
      MapStepTimely(setup, m, es[0], from);
      StaysLater(setup, MapStep(setup, m, es[0]), es[1..], t, start, es[0].now);
    }
  }

  /** A call goes on without a break, with the start it had, exactly while its silences at effective messages stay within the timeout. */
  lemma {:induction false} ContinuesIff(setup: Setup, m: Calls, es: seq<Event>, t: int, from: int)
    requires t in m && Timely(m, from) && Monotone(es, from)
    ensures Unbroken(es, t, m[t].stamp) <==>
            t in RunCalls(setup, m, es) && RunCalls(setup, m, es)[t].start == m[t].start
    decreases |es|
  {
    if es != [] {
      var e := es[0];
      var next := MapStep(setup, m, e);
      MapStepTimely(setup, m, e, from);
      if e.IsEffective() && e.now - m[t].stamp > TIMEOUT {
        StaysLater(setup, next, es[1..], t, m[t].start, e.now);
      } else {
        ContinuesIff(setup, next, es[1..], t, e.now);
      }
    }
  }

  /** An unbroken call stays on the logger where it began. */
  lemma {:induction false} StaysOnLogger(setup: Setup, st: State, es: seq<Event>, from: int, k: nat)
    requires Inv(setup, st) && NotBefore(st, from) && Monotone(es, from)
    requires k < |st.slots| && st.slots[k].active && Unbroken(es, st.slots[k].talkgroup, st.slots[k].stamp)
    ensures
      var r := Run(setup, st, es).slots;
      |r| == |st.slots| && r[k].active && r[k].talkgroup == st.slots[k].talkgroup && r[k].start == st.slots[k].start && r[k].num == st.slots[k].num
    decreases |es|
  {
    if es != [] {
      var e := es[0];
      hide Inv, NotBefore, Step;
      NotBeforeLater(st, from, e.now);
      StepKeeps(setup, st, e.address, e.command, e.now);
      StepStays(setup, st, e, k);
      StaysOnLogger(setup, Step(setup, st, e.address, e.command, e.now), es[1..], e.now, k);
    }
  }

  lemma StepStays(setup: Setup, st: State, e: Event, k: nat)
    requires Inv(setup, st) && NotBefore(st, e.now) && k < |st.slots| && st.slots[k].active
    requires e.IsEffective() ==> e.now - st.slots[k].stamp <= TIMEOUT
    ensures
      var s, r := st.slots[k], Step(setup, st, e.address, e.command, e.now).slots[k];
      r == if e.IsEffective() && e.address == s.talkgroup then s.(freq := GetFreq(e.command), stamp := e.now) else s
  {
    FrequenciesNameChannels(e.address, e.command, e.command);
    ReapedSlots(setup, st, |st.slots|, e.now);
  }
}
