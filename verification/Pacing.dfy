/** When the capture thread starts its reads. Times are nanoseconds of a clock
    that never runs backwards. */
module Pacing {

  const SECOND := 1_000_000_000

  /** The frames per second asked for; 0 means 30. */
  function Wanted(fps: nat): nat {
    if fps == 0 then 30 else fps
  }

  /** The frame period: the longest whole number of nanoseconds of which the
      wanted number fits into a second. */
  function Period(fps: nat): (period: nat)
    requires fps < 256
    ensures period * Wanted(fps) <= SECOND < (period + 1) * Wanted(fps)
    ensures fps > 0 ==> period * fps <= SECOND < (period + 1) * fps
    ensures period > 0 && (fps == 0 ==> period == 33_333_333)
  {
    var rate := Wanted(fps);
    FloorDivision(SECOND, rate);
    SECOND / rate
  }

  lemma FloorDivision(n: nat, d: nat)
    requires d > 0
    ensures (n / d) * d <= n < (n / d + 1) * d
    ensures n >= d ==> n / d > 0
  {
    assert n == (n / d) * d + n % d;
    assert (n / d + 1) * d == (n / d) * d + d;
  }

  /** The deadline after the one at `previous`, met at `now`. */
  function Advance(previous: int, now: int, period: int): int {
    var next := previous + period;
    if next < now - period then now else next
  }

  /** A read was so late that its next deadline restarts at the present. */
  predicate Stalled(previous: int, now: int, period: int) {
    now > previous + 2 * period
  }

  /** One advance keeps the phase or, after a stall, restarts at `now`; either
      way at least a period passes and at most one period is owed. */
  lemma AdvanceBounds(previous: int, now: int, period: int)
    requires period > 0
    ensures var next := Advance(previous, now, period);
      && next >= previous + period
      && next >= now - period
      && (Stalled(previous, now, period) ==> next == now)
      && (!Stalled(previous, now, period) ==> (next - previous) % period == 0 && next == previous + period)
  {
    assert (previous + period - previous) % period == 0;
  }

  /** The pacing fields of the worker (`period`, `deadline`, `fps_changed` and
      the rate in `params`), guarded by its lock. */
  class Pacer {
    var fps: nat
    var period: nat
    var deadline: int
    var fpsChanged: bool

    ghost predicate Valid()
      reads this
    {
      fps < 256 && period > 0
    }

    ghost function Value(): Schedule
      reads this
    {
      Schedule(fps, period, deadline, fpsChanged)
    }

    /** nk_capture_start: the first read is one period from now. */
    constructor (fps: nat, now: int)
      requires fps < 256
      ensures Valid() && Value() == Started(fps, now)
    {
      this.fps, period, deadline, fpsChanged := fps, Period(fps), now + Period(fps), false;
    }

    method Start(fps: nat, now: int)
      requires fps < 256
      modifies this
      ensures Valid() && Value() == Started(fps, now)
    {
      this.fps, period, deadline, fpsChanged := fps, Period(fps), now + Period(fps), false;
    }

    /** nk_capture_update: a changed rate applies at the next read. */
    method Update(fps: nat)
      requires Valid() && fps < 256
      modifies this
      ensures Valid() && Value() == Apply(old(Value()), Rate(fps))
      ensures fps != old(this.fps) ==> forall now {:trigger ReadAt(now)} ::
                Apply(Value(), ReadAt(now)) == Schedule(fps, Period(fps), now + Period(fps), false)
    {
      if fps != this.fps {
        fpsChanged := true;
      }
      this.fps := fps;
    }

    /** The clock test of capture_main: whether the read starts now. */
    method TryRead(now: int) returns (due: bool)
      requires Valid()
      modifies this
      ensures Valid() && due == (now >= old(deadline))
      ensures Value() == if due then Apply(old(Value()), ReadAt(now)) else old(Value())
    {
      if now < deadline {
        return false;
      }
      if fpsChanged {
        fpsChanged := false;
        period := Period(fps);
        deadline := now + period;
      } else {
        deadline := Advance(deadline, now, period);
      }
      return true;
    }
  }

  // ------------------------------------------------------------- whole runs

  datatype Schedule = Schedule(fps: nat, period: nat, deadline: int, fpsChanged: bool)

  /** What happens to a schedule: a read at `now`, a new rate, a new start. */
  datatype Event = ReadAt(now: int) | Rate(fps: nat) | StartAt(rate: nat, at: int)

  function Started(fps: nat, now: int): Schedule
    requires fps < 256
  {
    Schedule(fps, Period(fps), now + Period(fps), false)
  }

  predicate Possible(s: Schedule, e: Event) {
    match e
    case ReadAt(now) => now >= s.deadline && s.fps < 256
    case Rate(fps) => fps < 256
    case StartAt(rate, _) => rate < 256
  }

  function Apply(s: Schedule, e: Event): Schedule
    requires e.ReadAt? && s.fpsChanged ==> s.fps < 256
    requires e.StartAt? ==> e.rate < 256
  {
    match e
    case ReadAt(now) =>
      if s.fpsChanged then Schedule(s.fps, Period(s.fps), now + Period(s.fps), false)
      else s.(deadline := Advance(s.deadline, now, s.period))
    case Rate(fps) => s.(fps := fps, fpsChanged := s.fpsChanged || fps != s.fps)
    case StartAt(rate, at) => Started(rate, at)
  }

  /** A run of the schedule; the clock never runs backwards. */
  ghost predicate IsRun(states: seq<Schedule>, events: seq<Event>) {
    && |states| == |events| + 1 && states[0].fps < 256 && states[0].period > 0
    && forall i :: 0 <= i < |events| ==> Possible(states[i], events[i]) && states[i + 1] == Apply(states[i], events[i])
  }

  /** The number of reads among the first `n` events. */
  function Reads(events: seq<Event>, n: nat): nat
    requires n <= |events|
  {
    if n == 0 then 0 else Reads(events, n - 1) + if events[n - 1].ReadAt? then 1 else 0
  }

  predicate OnlyReads(events: seq<Event>) {
    forall i :: 0 <= i < |events| ==> events[i].ReadAt?
  }

  /** At a fixed period the k-th read starts no earlier than the first deadline
      plus k periods. */
  lemma {:induction false} CadenceFixed(states: seq<Schedule>, events: seq<Event>, k: nat)
    requires IsRun(states, events) && OnlyReads(events) && !states[0].fpsChanged && k < |events|
    ensures events[k].now >= states[k].deadline >= states[0].deadline + k * states[0].period
    ensures states[k].period == states[0].period && !states[k].fpsChanged
  {
    if k > 0 {
      CadenceFixed(states, events, k - 1);
      AdvanceBounds(states[k - 1].deadline, events[k - 1].now, states[0].period);
      assert states[k] == Apply(states[k - 1], events[k - 1]);
    }
  }

  /** No read of the first `n` stalled. */
  ghost predicate NoStall(states: seq<Schedule>, events: seq<Event>, n: nat)
    requires IsRun(states, events) && OnlyReads(events) && n <= |events|
  {
    forall i :: 0 <= i < n ==> !Stalled(states[i].deadline, events[i].now, states[0].period)
  }

  /** Without a stall the k-th deadline is exactly k periods after the first;
      the phase moves only at a stall, and then to the time of that read. */
  lemma {:induction false} PhaseKept(states: seq<Schedule>, events: seq<Event>, k: nat)
    requires IsRun(states, events) && OnlyReads(events) && !states[0].fpsChanged && k <= |events|
    ensures NoStall(states, events, k) ==> states[k].deadline == states[0].deadline + k * states[0].period
    ensures k > 0 && Stalled(states[k - 1].deadline, events[k - 1].now, states[0].period) ==>
      states[k].deadline == events[k - 1].now
  {
    if k > 0 {
      PhaseKept(states, events, k - 1);
      CadenceFixed(states, events, k - 1);
      assert states[k] == Apply(states[k - 1], events[k - 1]);
      AdvanceBounds(states[k - 1].deadline, events[k - 1].now, states[0].period);
    }
  }

  /** The clock is read at the event, and never runs backwards. */
  ghost predicate ClockForward(events: seq<Event>) {
    forall i, j :: 0 <= i < j < |events| && events[i].ReadAt? ==>
      && (events[j].ReadAt? ==> events[i].now <= events[j].now)
      && (events[j].StartAt? ==> events[i].now <= events[j].at)
  }

  /** No period in the run is shorter than `least`. */
  ghost predicate PeriodsAtLeast(states: seq<Schedule>, least: nat) {
    forall i :: 0 <= i < |states| ==> states[i].fps < 256 && states[i].period >= least && Period(states[i].fps) >= least
  }

  /** A changed rate applies at the next read: the read after it starts a new
      phase with the period of the latest rate. */
  lemma {:induction false} RateApplies(states: seq<Schedule>, events: seq<Event>, i: nat, j: nat)
    requires IsRun(states, events) && i < j < |events|
    requires events[i].Rate? && events[i].fps != states[i].fps && events[j].ReadAt?
    requires forall k :: i < k < j ==> events[k].Rate?
    ensures var fps := states[j].fps;
      fps < 256 && states[j + 1] == Schedule(fps, Period(fps), events[j].now + Period(fps), false)
  {
    RatePending(states, events, i, j);
    assert Possible(states[j], events[j]) && states[j + 1] == Apply(states[j], events[j]);
  }

  lemma {:induction false} RatePending(states: seq<Schedule>, events: seq<Event>, i: nat, j: nat)
    requires IsRun(states, events) && i < j <= |events|
    requires events[i].Rate? && events[i].fps != states[i].fps
    requires forall k :: i < k < j ==> events[k].Rate?
    ensures states[j].fpsChanged && events[j - 1].Rate? && states[j].fps == events[j - 1].fps
  {
    if i + 1 < j {
      RatePending(states, events, i, j - 1);
    }
    assert states[j] == Apply(states[j - 1], events[j - 1]);
  }

  /** After every read and every start the period is that of the rate asked
      for last; a rate asked for since then is flagged. */
  lemma {:induction false} PeriodFollowsRate(states: seq<Schedule>, events: seq<Event>, k: nat)
    requires IsRun(states, events) && k < |states|
    requires !states[0].fpsChanged ==> states[0].period == Period(states[0].fps)
    ensures states[k].fps < 256 && (!states[k].fpsChanged ==> states[k].period == Period(states[k].fps))
    ensures k > 0 && !events[k - 1].Rate? ==> states[k].period == Period(states[k].fps) && !states[k].fpsChanged
  {
    if k > 0 {
      PeriodFollowsRate(states, events, k - 1);
      assert Possible(states[k - 1], events[k - 1]) && states[k] == Apply(states[k - 1], events[k - 1]);
    }
  }

  /** The earliest time `count` reads after one that started at `now`. */
  function Earliest(now: int, period: int, least: int, count: int): int {
    now - period + (count - 1) * least
  }

  lemma EarliestStep(now: int, period: int, least: int, count: int)
    ensures Earliest(now, period, least, count + 1) == Earliest(now, period, least, count) + least
  {
    assert count * least == (count - 1) * least + least;
  }

  /** `count` reads after the one at `i`, the deadline and the latest read, at
      `lastNow`, are late enough. */
  ghost predicate Paced(s: Schedule, lastNow: int, now: int, period: int, least: int, count: int) {
    && count >= 1
    && s.deadline >= Earliest(now, period, least, count)
    && lastNow >= Earliest(now, period, least, count - 1)
  }

  /** One event keeps the bound; only a read counts. */
  lemma PacedStep(s: Schedule, e: Event, lastNow: int, now: int, period: int, least: nat, count: int)
    requires Possible(s, e) && s.fps < 256 && s.period >= least && s.period > 0
    requires Apply(s, e).fps < 256 && Apply(s, e).period >= least && Period(Apply(s, e).fps) >= least
    requires Paced(s, lastNow, now, period, least, count)
    requires e.ReadAt? ==> lastNow <= e.now
    requires e.StartAt? ==> lastNow <= e.at
    ensures Paced(Apply(s, e), if e.ReadAt? then e.now else lastNow, now, period, least,
                  if e.ReadAt? then count + 1 else count)
  {
    EarliestStep(now, period, least, count);
    EarliestStep(now, period, least, count - 1);
    if e.ReadAt? {
      AdvanceBounds(s.deadline, e.now, s.period);
    }
  }

  lemma {:induction false} PeriodPositive(states: seq<Schedule>, events: seq<Event>, i: nat)
    requires IsRun(states, events) && i < |states|
    ensures states[i].period > 0 && states[i].fps < 256
  {
    if i > 0 {
      PeriodPositive(states, events, i - 1);
      assert Possible(states[i - 1], events[i - 1]);
    }
  }

  /** The read itself starts the bound. */
  lemma FirstPaced(s: Schedule, now: int, period: int, least: nat)
    requires s.period == period >= least && period > 0 && s.fps < 256
    ensures Paced(Apply(s, ReadAt(now)), now, now, period, least, 1)
  {
    AdvanceBounds(s.deadline, now, period);
    EarliestStep(now, period, least, 0);
  }

  /** The bound holds `m` events into a run, after the read at `i`. */
  lemma {:induction false} BurstInv(states: seq<Schedule>, events: seq<Event>, least: nat, i: nat, m: nat, last: nat)
    requires IsRun(states, events) && ClockForward(events) && PeriodsAtLeast(states, least)
    requires i <= last < m <= |events| && events[i].ReadAt? && events[last].ReadAt?
    requires forall j :: last < j < m ==> !events[j].ReadAt?
    ensures Paced(states[m], events[last].now, events[i].now, states[i].period, least,
                  Reads(events, m) - Reads(events, i))
    decreases m
  {
    var e, now, period := events[m - 1], events[i].now, states[i].period;
    assert states[m] == Apply(states[m - 1], e) && Possible(states[m - 1], e);
    PeriodPositive(states, events, m - 1);
    if m == i + 1 {
      FirstPaced(states[i], now, period, least);
    } else {
      var previous := last;
      if e.ReadAt? {
        previous := LastRead(events, i, m - 1);
      }
      BurstInv(states, events, least, i, m - 1, previous);
      PacedStep(states[m - 1], e, events[previous].now, now, period, least, Reads(events, m - 1) - Reads(events, i));
    }
  }

  /** The last read before event `m`, there being one at `i`. */
  lemma {:induction false} LastRead(events: seq<Event>, i: nat, m: nat) returns (last: nat)
    requires i < m <= |events| && events[i].ReadAt?
    ensures i <= last < m && events[last].ReadAt? && forall j :: last < j < m ==> !events[j].ReadAt?
  {
    if events[m - 1].ReadAt? {
      last := m - 1;
    } else {
      last := LastRead(events, i, m - 1);
    }
  }

  /** Reads never bunch up, across rate changes and restarts: a read that comes
      `count` reads after another is at least `count - 1` of the shortest
      periods later, less the one period that the first of them may owe. */
  lemma {:induction false} NoBurst(states: seq<Schedule>, events: seq<Event>, least: nat, i: nat, j: nat)
    requires IsRun(states, events) && ClockForward(events) && PeriodsAtLeast(states, least)
    requires i < j < |events| && events[i].ReadAt? && events[j].ReadAt?
    ensures var count := Reads(events, j) - Reads(events, i);
      events[j].now >= events[i].now - states[i].period + (count - 1) * least
  {
    var last := LastRead(events, i, j);
    BurstInv(states, events, least, i, j, last);
    assert Possible(states[j], events[j]);
  }
}
