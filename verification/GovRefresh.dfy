/** makeSyncRunner of lib/gov-refresh.js, on every run. */
module GovRefresh {
  // Runs of one sync never overlap, rest between runs, and fold the triggers that arrive meanwhile into one more run.
  // A call of fn either starts work that settles later, or throws before it returns. The clock never goes back, and a
  // sleep lasts at least as long as asked.

  import opened Util

  // Where the loop of a slot is: not there, in its sleep until `wake`, or in fn. Stuck: the
  // loop has left, but `running` was assigned after its `finally` cleared it.
  datatype Phase = Idle | Sleeping(wake: int) | Running | Stuck

  // The slot's fields; `running` is null exactly when the phase is Idle.
  datatype Slot = Slot(phase: Phase, again: bool, ended: Option<int>)

  const NewSlot := Slot(Idle, false, None)

  // What happens to a slot, at a time. throws: fn throws at once, should it be called here.
  datatype Action = Trigger(at: int, throws: bool) | Woken(at: int, throws: bool) | Completed(at: int, throws: bool)

  datatype Event = Asked(at: int) | Started(at: int) | Ended(at: int)

  datatype Track = Track(slot: Slot, log: seq<Event>)

  // fn is called. first: still inside run(), before its promise is assigned to `running`.
  function Start(t: Track, now: int, throws: bool, first: bool): Track {
    if !throws then Track(Slot(Running, false, t.slot.ended), t.log + [Started(now)])
    else Track(Slot(if first then Stuck else Idle, false, Some(now)), t.log + [Started(now)] + [Ended(now)])
  }

  // The top of the loop: wait out the rest of the gap, or start at once.
  function Enter(gap: nat, t: Track, now: int, throws: bool, first: bool): Track {
    var wait := if t.slot.ended.None? then 0 else t.slot.ended.value + gap - now;
    if wait > 0 then t.(slot := t.slot.(phase := Sleeping(now + wait))) else Start(t, now, throws, first)
  }

  function Step(gap: nat, t: Track, a: Action): Track {
    match a
    case Trigger(at, throws) =>
      var asked := t.(log := t.log + [Asked(at)]);
      if t.slot.phase.Idle? then Enter(gap, asked, at, throws, true) else asked.(slot := t.slot.(again := true))
    case Woken(at, throws) => Start(t, at, throws, false)
    case Completed(at, throws) =>
      var over := Track(t.slot.(ended := Some(at)), t.log + [Ended(at)]);
      if t.slot.again then Enter(gap, over, at, throws, false) else over.(slot := over.slot.(phase := Idle))
  }

  predicate Enabled(t: Track, a: Action, clock: int) {
    a.at >= clock &&
    match a
    case Trigger(_, _) => true
    case Woken(at, _) => t.slot.phase.Sleeping? && at >= t.slot.phase.wake
    case Completed(_, _) => t.slot.phase.Running?
  }

  // Runs the environment can produce, from a track at a time.
  ghost predicate Leads(gap: nat, t: Track, clock: int, actions: seq<Action>, r: Track)
    decreases |actions|
  {
    if actions == [] then r == t
    else Enabled(t, actions[0], clock) && Leads(gap, Step(gap, t, actions[0]), actions[0].at, actions[1..], r)
  }

  // ---- what the log shows -----------------------------------------------------------------

  // True while a run is on.
  function InRun(log: seq<Event>): bool {
    if log == [] then false
    else match log[|log| - 1]
      case Asked(_) => InRun(log[..|log| - 1])
      case Started(_) => true
      case Ended(_) => false
  }

  // Runs do not overlap: a start finds no run on, an end finds one.
  ghost predicate Alternates(log: seq<Event>) {
    forall k :: 0 <= k < |log| ==> (log[k].Started? ==> !InRun(log[..k])) && (log[k].Ended? ==> InRun(log[..k]))
  }

  // The end of the latest run.
  function LastEnd(log: seq<Event>): Option<int> {
    if log == [] then None
    else if log[|log| - 1].Ended? then Some(log[|log| - 1].at) else LastEnd(log[..|log| - 1])
  }

  // Every start comes at least the gap after the end before it.
  ghost predicate Rested(gap: nat, log: seq<Event>) {
    forall k :: 0 <= k < |log| && log[k].Started? && LastEnd(log[..k]).Some? ==> log[k].at >= LastEnd(log[..k]).value + gap
  }

  // Has something been asked for that no run has started after?
  function Owed(log: seq<Event>): bool {
    if log == [] then false
    else match log[|log| - 1]
      case Asked(_) => true
      case Started(_) => false
      case Ended(_) => Owed(log[..|log| - 1])
  }

  // Every start answers a trigger newer than the start before it: triggers fold into one
  // run, and no run is made up.
  ghost predicate Justified(log: seq<Event>) {
    forall k :: 0 <= k < |log| && log[k].Started? ==> Owed(log[..k])
  }

  ghost predicate InTime(log: seq<Event>, clock: int) {
    (forall k :: 0 <= k < |log| ==> log[k].at <= clock) && (forall j, k :: 0 <= j < k < |log| ==> log[j].at <= log[k].at)
  }

  ghost predicate Safe(gap: nat, log: seq<Event>, clock: int) {
    Alternates(log) && Rested(gap, log) && Justified(log) && InTime(log, clock)
  }

  // The slot says what the log says: nothing is owed unless a run is coming.
  ghost predicate Consistent(gap: nat, t: Track, clock: int) {
    && Safe(gap, t.log, clock)
    && (t.slot.phase.Running? <==> InRun(t.log))
    && t.slot.ended == LastEnd(t.log)
    && (Owed(t.log) <==> t.slot.phase.Sleeping? || (!t.slot.phase.Idle? && t.slot.again))
    && (t.slot.phase.Sleeping? ==> t.slot.ended.Some? && t.slot.phase.wake == t.slot.ended.value + gap)
    && (t.slot.phase.Idle? ==> !t.slot.again)
  }

  lemma Logged(gap: nat, log: seq<Event>, e: Event, clock: int)
    requires Safe(gap, log, clock) && clock <= e.at
    requires e.Started? ==> !InRun(log) && Owed(log) && (LastEnd(log).Some? ==> e.at >= LastEnd(log).value + gap)
    requires e.Ended? ==> InRun(log)
    ensures Safe(gap, log + [e], e.at) && (log + [e])[..|log|] == log
  {
    var more := log + [e];
    assert more[..|log|] == log;
    forall k | 0 <= k < |log| ensures more[..k] == log[..k] {
    }
  }

  lemma StartConsistent(gap: nat, t: Track, clock: int, now: int, throws: bool, first: bool)
    requires Safe(gap, t.log, clock) && clock <= now && !InRun(t.log) && Owed(t.log) && t.slot.ended == LastEnd(t.log)
    requires t.slot.ended.Some? ==> now >= t.slot.ended.value + gap
    ensures Consistent(gap, Start(t, now, throws, first), now)
  {
    Logged(gap, t.log, Started(now), clock);
    if throws {
      Logged(gap, t.log + [Started(now)], Ended(now), now);
    }
  }

  lemma EnterConsistent(gap: nat, t: Track, clock: int, now: int, throws: bool, first: bool)
    requires Safe(gap, t.log, clock) && clock <= now && !InRun(t.log) && Owed(t.log) && t.slot.ended == LastEnd(t.log)
    ensures Consistent(gap, Enter(gap, t, now, throws, first), now)
  {
    var wait := if t.slot.ended.None? then 0 else t.slot.ended.value + gap - now;
    if wait <= 0 {
      StartConsistent(gap, t, clock, now, throws, first);
    } else {
      assert InTime(t.log, now);
    }
  }

  // SAFETY, one step: no overlap, rest between runs, no run without a trigger, and
  // whatever was asked for is still coming.
  lemma StepConsistent(gap: nat, t: Track, a: Action, clock: int)
    requires Consistent(gap, t, clock) && Enabled(t, a, clock)
    ensures Consistent(gap, Step(gap, t, a), a.at)
  {
    match a
    case Trigger(at, throws) => TriggerConsistent(gap, t, at, throws, clock);
    case Woken(at, throws) => StartConsistent(gap, t, clock, at, throws, false);
    case Completed(at, throws) => CompletedConsistent(gap, t, at, throws, clock);
  }

  lemma TriggerConsistent(gap: nat, t: Track, at: int, throws: bool, clock: int)
    requires Consistent(gap, t, clock) && clock <= at
    ensures Consistent(gap, Step(gap, t, Trigger(at, throws)), at)
  {
    Logged(gap, t.log, Asked(at), clock);
    if t.slot.phase.Idle? {
      EnterConsistent(gap, t.(log := t.log + [Asked(at)]), at, at, throws, true);
    }
  }

  lemma CompletedConsistent(gap: nat, t: Track, at: int, throws: bool, clock: int)
    requires Consistent(gap, t, clock) && clock <= at && t.slot.phase.Running?
    ensures Consistent(gap, Step(gap, t, Completed(at, throws)), at)
  {
    Logged(gap, t.log, Ended(at), clock);
    if t.slot.again {
      EnterConsistent(gap, Track(t.slot.(ended := Some(at)), t.log + [Ended(at)]), at, at, throws, false);
    }
  }

  // SAFETY, every interleaving of triggers, wake-ups and completions.
  lemma {:induction false} EveryRunSafe(gap: nat, t: Track, clock: int, actions: seq<Action>, r: Track)
    requires Consistent(gap, t, clock) && Leads(gap, t, clock, actions, r)
    ensures Consistent(gap, r, if actions == [] then clock else actions[|actions| - 1].at)
    decreases |actions|
  {
    if actions != [] {
      StepConsistent(gap, t, actions[0], clock);
      EveryRunSafe(gap, Step(gap, t, actions[0]), actions[0].at, actions[1..], r);
    }
  }

  lemma NewSlotConsistent(gap: nat, clock: int)
    ensures Consistent(gap, Track(NewSlot, []), clock)
  {
  }

  // ---- every trigger is served ---------------------------------------------------------------

  ghost predicate ServedAfter(log: seq<Event>, k: nat)
    requires k < |log|
  {
    exists j :: k < j < |log| && log[j].Started? && log[j].at >= log[k].at
  }

  // Nothing owed: every trigger has a run that started at or after it.
  lemma {:induction false} NotOwedIsServed(log: seq<Event>, clock: int, k: nat)
    requires InTime(log, clock) && !Owed(log) && k < |log| && log[k].Asked?
    ensures ServedAfter(log, k)
  {
    var last := |log| - 1;
    if log[last].Started? {
      assert k < last;
    } else {
      NotOwedIsServed(log[..last], clock, k);
      var j :| k < j < |log[..last]| && log[..last][j].Started? && log[..last][j].at >= log[..last][k].at;
      assert log[j].Started?;
    }
  }

  // The wake-ups and completions after which the next run has started.
  function ToStart(s: Slot): nat {
    match s.phase
    case Idle => 0
    case Sleeping(_) => 1
    case Running => 2
    case Stuck => 0
  }

  // The wake-ups and completions among some actions.
  function Turns(actions: seq<Action>): nat {
    if actions == [] then 0 else (if actions[0].Trigger? then 0 else 1) + Turns(actions[1..])
  }

  // The log only grows, so what is served stays served.
  lemma StepAppends(gap: nat, t: Track, a: Action)
    ensures t.log <= Step(gap, t, a).log
  {
  }

  lemma ServedStays(log: seq<Event>, more: seq<Event>, k: nat)
    requires k < |log| && log <= more && ServedAfter(log, k)
    ensures ServedAfter(more, k)
  {
    var j :| k < j < |log| && log[j].Started? && log[j].at >= log[k].at;
    assert more[j] == log[j] && more[k] == log[k];
  }

  // A start serves everything asked for before it.
  lemma StartServes(t: Track, now: int, throws: bool, first: bool, k: nat)
    requires k < |t.log| && t.log[k].at <= now
    ensures ServedAfter(Start(t, now, throws, first).log, k)
  {
    assert Start(t, now, throws, first).log[|t.log|] == Started(now);
  }

  // A trigger leaves the wait of an unserved one as it is; any other step shortens it.
  lemma StepServesSooner(gap: nat, t: Track, clock: int, a: Action, k: nat)
    requires Consistent(gap, t, clock) && Enabled(t, a, clock) && !t.slot.phase.Stuck?
    requires k < |t.log| && t.log[k].Asked? && !ServedAfter(t.log, k)
    ensures
      var t' := Step(gap, t, a);
      || (k < |t'.log| && ServedAfter(t'.log, k))
      || (!t'.slot.phase.Stuck? && ToStart(t'.slot) + Turns([a]) <= ToStart(t.slot))
  {
    if !Owed(t.log) {
      NotOwedIsServed(t.log, clock, k);
    } else {
      match a
      case Trigger(_, _) =>
      case Woken(at, throws) => StartServes(t, at, throws, false, k);
      case Completed(at, throws) =>
        StartServes(Track(t.slot.(ended := Some(at)), t.log + [Ended(at)]), at, throws, false, k);
    }
  }

  // SERVICE, main: a trigger waits for two wake-ups or completions at most, however many
  // others arrive meanwhile; then a run has started at or after it.
  lemma {:induction false} ServedWithinTwoTurns(gap: nat, t: Track, clock: int, actions: seq<Action>, r: Track, k: nat)
    requires Consistent(gap, t, clock) && !t.slot.phase.Stuck? && Leads(gap, t, clock, actions, r)
    requires k < |t.log| && t.log[k].Asked? && Turns(actions) >= ToStart(t.slot)
    ensures ToStart(t.slot) <= 2
    ensures t.log <= r.log && ServedAfter(r.log, k)
    decreases |actions|
  {
    if ServedAfter(t.log, k) {
      LeadsAppends(gap, t, clock, actions, r);
      ServedStays(t.log, r.log, k);
    } else if actions == [] {
      NotOwedIsServed(t.log, clock, k);
    } else {
      var a, t' := actions[0], Step(gap, t, actions[0]);
      StepConsistent(gap, t, a, clock);
      StepServesSooner(gap, t, clock, a, k);
      StepAppends(gap, t, a);
      if ServedAfter(t'.log, k) {
        LeadsAppends(gap, t', a.at, actions[1..], r);
        ServedStays(t'.log, r.log, k);
      } else {
        ServedWithinTwoTurns(gap, t', a.at, actions[1..], r, k);
      }
    }
  }

  lemma {:induction false} LeadsAppends(gap: nat, t: Track, clock: int, actions: seq<Action>, r: Track)
    requires Leads(gap, t, clock, actions, r)
    ensures t.log <= r.log
    decreases |actions|
  {
    if actions != [] {
      StepAppends(gap, t, actions[0]);
      LeadsAppends(gap, Step(gap, t, actions[0]), actions[0].at, actions[1..], r);
    }
  }

  // The wake-ups and completions left to do.
  function WorkLeft(s: Slot): nat {
    match s.phase
    case Idle => 0
    case Sleeping(_) => 2
    case Running => if s.again then 3 else 1
    case Stuck => 0
  }

  // PROGRESS: a slot that is asleep or running always has a next step, and each step brings
  // it closer to idle, so a slot left alone settles within three.
  lemma SettlesSoon(gap: nat, t: Track, clock: int, a: Action)
    requires Consistent(gap, t, clock) && Enabled(t, a, clock) && !a.Trigger?
    ensures WorkLeft(Step(gap, t, a).slot) < WorkLeft(t.slot)
    ensures !Step(gap, t, a).slot.phase.Stuck?
  {
  }

  lemma NeverBlocked(gap: nat, t: Track, clock: int)
    requires t.slot.phase.Sleeping? || t.slot.phase.Running?
    ensures exists a: Action :: !a.Trigger? && Enabled(t, a, clock)
  {
    var late := if t.slot.phase.Sleeping? then Max(clock, t.slot.phase.wake) else clock;
    var a := if t.slot.phase.Sleeping? then Woken(late, false) else Completed(late, false);
    assert Enabled(t, a, clock);
  }

  function Starts(log: seq<Event>): nat {
    if log == [] then 0 else Starts(log[..|log| - 1]) + if log[|log| - 1].Started? then 1 else 0
  }

  // FOLDING: without further triggers, what is owed costs exactly one more run, however many
  // triggers owed it; and the settled slot has served every trigger.
  lemma {:induction false} OwedCostsOneRun(gap: nat, t: Track, clock: int, actions: seq<Action>, r: Track)
    requires Consistent(gap, t, clock) && !t.slot.phase.Stuck? && Leads(gap, t, clock, actions, r)
    requires (forall k :: 0 <= k < |actions| ==> !actions[k].Trigger?) && r.slot.phase.Idle?
    ensures Starts(r.log) == Due(t.log)
    ensures |actions| <= 3
    ensures forall k: nat :: k < |r.log| && r.log[k].Asked? ==> ServedAfter(r.log, k)
    decreases |actions|
  {
    if actions == [] {
      forall k: nat | k < |r.log| && r.log[k].Asked? ensures ServedAfter(r.log, k) {
        NotOwedIsServed(r.log, clock, k);
      }
    } else {
      var a := actions[0];
      var t' := Step(gap, t, a);
      StepConsistent(gap, t, a, clock);
      SettlesSoon(gap, t, clock, a);
      StepStarts(gap, t, a, clock);
      OwedCostsOneRun(gap, t', a.at, actions[1..], r);
      BoundedByWork(gap, t, clock, actions, r);
    }
  }

  // Runs started or owed.
  function Due(log: seq<Event>): nat {
    Starts(log) + if Owed(log) then 1 else 0
  }

  lemma DueAppended(log: seq<Event>, e: Event)
    ensures e.Ended? ==> Due(log + [e]) == Due(log) && Owed(log + [e]) == Owed(log)
    ensures e.Started? && Owed(log) ==> Due(log + [e]) == Due(log) && !Owed(log + [e])
  {
    assert (log + [e])[..|log + [e]| - 1] == log;
  }

  lemma StartDue(t: Track, now: int, throws: bool, first: bool)
    requires Owed(t.log)
    ensures Due(Start(t, now, throws, first).log) == Due(t.log)
  {
    DueAppended(t.log, Started(now));
    DueAppended(t.log + [Started(now)], Ended(now));
  }

  lemma StepStarts(gap: nat, t: Track, a: Action, clock: int)
    requires Consistent(gap, t, clock) && Enabled(t, a, clock) && !a.Trigger?
    ensures Due(Step(gap, t, a).log) == Due(t.log)
  {
    match a
    case Woken(at, throws) => StartDue(t, at, throws, false);
    case Completed(at, throws) =>
      DueAppended(t.log, Ended(at));
      if t.slot.again {
        StartDue(Track(t.slot.(ended := Some(at)), t.log + [Ended(at)]), at, throws, false);
      }
  }

  lemma {:induction false} BoundedByWork(gap: nat, t: Track, clock: int, actions: seq<Action>, r: Track)
    requires Consistent(gap, t, clock) && Leads(gap, t, clock, actions, r)
    requires forall k :: 0 <= k < |actions| ==> !actions[k].Trigger?
    ensures |actions| <= WorkLeft(t.slot)
    decreases |actions|
  {
    if actions != [] {
      StepConsistent(gap, t, actions[0], clock);
      SettlesSoon(gap, t, clock, actions[0]);
      BoundedByWork(gap, Step(gap, t, actions[0]), actions[0].at, actions[1..], r);
    }
  }

  // ---- the one way to lose a trigger -------------------------------------------------------------

  // A slot gets stuck exactly when fn throws at once on the first pass of an idle slot that
  // need not wait.
  lemma StuckExactlyWhen(gap: nat, t: Track, a: Action, clock: int)
    requires Consistent(gap, t, clock) && Enabled(t, a, clock) && !t.slot.phase.Stuck?
    ensures Step(gap, t, a).slot.phase.Stuck? <==>
      a.Trigger? && a.throws && t.slot.phase.Idle? && (t.slot.ended.None? || a.at >= t.slot.ended.value + gap)
  {
  }

  // A stuck slot serves no trigger ever again.
  lemma {:induction false} StuckForever(gap: nat, t: Track, clock: int, actions: seq<Action>, r: Track)
    requires t.slot.phase.Stuck? && Leads(gap, t, clock, actions, r)
    ensures r.slot.phase.Stuck? && Starts(r.log) == Starts(t.log)
    ensures actions != [] ==> Owed(r.log)
    decreases |actions|
  {
    if actions != [] {
      var t' := Step(gap, t, actions[0]);
      assert t'.log[..|t.log|] == t.log;
      StuckForever(gap, t', actions[0].at, actions[1..], r);
    }
  }

  // It happens: a new slot's first call throws at once, and a later trigger has no run after it.
  lemma StuckHappens(gap: nat)
    ensures exists r :: Leads(gap, Track(NewSlot, []), 0, [Trigger(0, true), Trigger(1, false)], r)
              && r.slot.phase.Stuck? && |r.log| == 4 && r.log[3] == Asked(1) && !ServedAfter(r.log, 3)
  {
    var t0 := Track(NewSlot, []);
    var t1 := Step(gap, t0, Trigger(0, true));
    NewSlotConsistent(gap, 0);
    StuckExactlyWhen(gap, t0, Trigger(0, true), 0);
    var t2 := Step(gap, t1, Trigger(1, false));
    assert t2.log == [Asked(0), Started(0), Ended(0), Asked(1)];
    assert [Trigger(0, true), Trigger(1, false)][1..] == [Trigger(1, false)] && [Trigger(1, false)][1..] == [];
    assert Leads(gap, t2, 1, [], t2);
    assert Leads(gap, t1, 0, [Trigger(1, false)], t2);
  }

  // ---- the runner ----------------------------------------------------------------------------------

  // One slot per name. Each method is one turn of the event loop; the log is what it did.
  class SyncRunner {
    const gap: nat
    var slots: map<string, Slot>
    ghost var logs: map<string, seq<Event>>

    constructor (gap: nat)
      ensures this.gap == gap && forall name :: TrackOf(name) == Track(NewSlot, [])
    {
      this.gap := gap;
      slots, logs := map[], map[];
    }

    ghost function TrackOf(name: string): Track
      reads this
    {
      Track(if name in slots then slots[name] else NewSlot, if name in logs then logs[name] else [])
    }

    ghost predicate Others(name: string, slots0: map<string, Slot>, logs0: map<string, seq<Event>>)
      reads this
    {
      slots - {name} == slots0 - {name} && logs - {name} == logs0 - {name}
    }

    method SlotOf(name: string) returns (s: Slot)
      modifies this`slots
      ensures s == TrackOf(name).slot && forall n :: TrackOf(n) == old(TrackOf(n))
      ensures slots == old(slots)[name := s]
    {
      if name !in slots {
        slots := slots[name := NewSlot];
      }
      s := slots[name];
    }

    // The loop clears `again` and calls fn; should fn throw, `finally` notes the end.
    method Begin(name: string, s0: Slot, now: int, throws: bool, first: bool)
      modifies this
      ensures TrackOf(name) == Start(Track(s0, old(TrackOf(name)).log), now, throws, first)
      ensures Others(name, old(slots), old(logs))
    {
      var s := s0.(again := false);
      ghost var log := TrackOf(name).log + [Started(now)];
      if throws {
        log := log + [Ended(now)];
        s := s.(ended := Some(now), phase := if first then Stuck else Idle);
      } else {
        s := s.(phase := Running);
      }
      slots := slots[name := s];
      logs := logs[name := log];
    }

    // The part of the loop from its top to the next await, or to its end.
    method Loop(name: string, s: Slot, now: int, throws: bool, first: bool)
      modifies this
      ensures TrackOf(name) == Enter(gap, Track(s, old(TrackOf(name)).log), now, throws, first)
      ensures Others(name, old(slots), old(logs))
    {
      var wait := if s.ended.None? then 0 else s.ended.value + gap - now;
      if wait > 0 {
        ghost var log := TrackOf(name).log;
        slots := slots[name := s.(phase := Sleeping(now + wait))];
        logs := logs[name := log];
      } else {
        Begin(name, s, now, throws, first);
      }
    }

    // run(name, fn): true when it had to start the loop.
    method Run(name: string, now: int, throws: bool) returns (started: bool)
      modifies this
      ensures TrackOf(name) == Step(gap, old(TrackOf(name)), Trigger(now, throws))
      ensures Others(name, old(slots), old(logs))
      ensures started <==> old(TrackOf(name)).slot.phase.Idle?
    {
      var s := SlotOf(name);
      logs := logs[name := TrackOf(name).log + [Asked(now)]];
      if !s.phase.Idle? {
        slots := slots[name := s.(again := true)];
        return false;
      }
      Loop(name, s, now, throws, true);
      return true;
    }

    // The sleep is over.
    method Woken(name: string, now: int, throws: bool)
      requires TrackOf(name).slot.phase.Sleeping?
      modifies this
      ensures TrackOf(name) == Step(gap, old(TrackOf(name)), Action.Woken(now, throws))
      ensures Others(name, old(slots), old(logs))
    {
      var s := SlotOf(name);
      Begin(name, s, now, throws, false);
    }

    // fn settled.
    method Settled(name: string, now: int, throws: bool)
      requires TrackOf(name).slot.phase.Running?
      modifies this
      ensures TrackOf(name) == Step(gap, old(TrackOf(name)), Completed(now, throws))
      ensures Others(name, old(slots), old(logs))
    {
      var s := SlotOf(name);
      s := s.(ended := Some(now));
      logs := logs[name := TrackOf(name).log + [Ended(now)]];
      if s.again {
        Loop(name, s, now, throws, false);
      } else {
        slots := slots[name := s.(phase := Idle)];
      }
    }

    method Busy(name: string) returns (busy: bool)
      ensures busy <==> !TrackOf(name).slot.phase.Idle?
    {
      busy := name in slots && !slots[name].phase.Idle?;
    }
  }
}
