/** Which hole the repair pass works on. */
module GapScheduling {
  // lib/gap-scheduling.js. Newest and oldest live hole in turn, with a memory of failures per hole start: below any
  // stored height every hole ends up filled or out of attempts, whatever keeps appearing above it.

  import opened Util
  import opened BlockGaps

  // attempts.get(gapKey(g)) || 0: the key is the hole's start.
  function Failures(attempts: map<int, nat>, start: int): nat {
    if start in attempts then attempts[start] else 0
  }

  function Live(gaps: seq<Gap>, attempts: map<int, nat>, maxAttempts: nat): seq<Gap> {
    if gaps == [] then []
    else (if Failures(attempts, gaps[0].start) < maxAttempts then [gaps[0]] else []) + Live(gaps[1..], attempts, maxAttempts)
  }

  // gaps are newest first: index 0 is the newest, the last is the oldest.
  function ChooseGap(gaps: seq<Gap>, attempts: map<int, nat>, tick: nat, maxAttempts: nat): Option<Gap> {
    var live := Live(gaps, attempts, maxAttempts);
    if live == [] then None else if tick % 2 == 0 then Some(live[0]) else Some(live[|live| - 1])
  }

  function Recorded(attempts: map<int, nat>, g: Gap, filled: nat): map<int, nat> {
    if filled > 0 then attempts - {g.start} else attempts[g.start := Failures(attempts, g.start) + 1]
  }

  // The attempts Map that one process keeps.
  class Memory {
    var attempts: map<int, nat>

    constructor ()
      ensures attempts == map[]
    {
      attempts := map[];
    }

    // recordAttempt: any progress clears the count, none adds one; no hole, no change.
    method RecordAttempt(gap: Option<Gap>, filled: nat)
      modifies this
      ensures attempts == if gap.None? then old(attempts) else Recorded(old(attempts), gap.value, filled)
    {
      if gap.None? {
        return;
      }
      var key := gap.value.start;
      if filled > 0 {
        attempts := attempts - {key};
      } else {
        attempts := attempts[key := (if key in attempts then attempts[key] else 0) + 1];
      }
    }

    // One repair tick: choose, fill, record.
    method Tick(gaps: seq<Gap>, tick: nat, maxAttempts: nat, filled: nat) returns (chosen: Option<Gap>)
      modifies this
      ensures chosen == ChooseGap(gaps, old(attempts), tick, maxAttempts)
      ensures attempts == if chosen.None? then old(attempts) else Recorded(old(attempts), chosen.value, filled)
    {
      chosen := ChooseGap(gaps, attempts, tick, maxAttempts);
      RecordAttempt(chosen, filled);
    }
  }

  // ---- the choice ----------------------------------------------------

  lemma {:induction false} LiveMembers(gaps: seq<Gap>, attempts: map<int, nat>, maxAttempts: nat, g: Gap)
    ensures g in Live(gaps, attempts, maxAttempts) <==> g in gaps && Failures(attempts, g.start) < maxAttempts
  {
    if gaps != [] {
      LiveMembers(gaps[1..], attempts, maxAttempts, g);
    }
  }

  ghost predicate NewestFirst(gaps: seq<Gap>) {
    forall i, j :: 0 <= i < j < |gaps| ==> gaps[i].start > gaps[j].start
  }

  lemma {:induction false} LiveOrder(gaps: seq<Gap>, attempts: map<int, nat>, maxAttempts: nat)
    requires NewestFirst(gaps)
    ensures NewestFirst(Live(gaps, attempts, maxAttempts))
  {
    if gaps != [] {
      LiveOrder(gaps[1..], attempts, maxAttempts);
      var rest := Live(gaps[1..], attempts, maxAttempts);
      forall i | 0 <= i < |rest| ensures rest[i].start < gaps[0].start {
        LiveMembers(gaps[1..], attempts, maxAttempts, rest[i]);
        var k :| 0 <= k < |gaps[1..]| && gaps[1..][k] == rest[i];
        assert gaps[k + 1] == rest[i];
      }
    }
  }

  // CHOICE: null exactly when every hole is out of attempts; else a live hole, on an even tick the newest live one,
  // on an odd tick the oldest.
  lemma ChoiceIs(gaps: seq<Gap>, attempts: map<int, nat>, tick: nat, maxAttempts: nat)
    requires NewestFirst(gaps)
    ensures match ChooseGap(gaps, attempts, tick, maxAttempts)
            case None => forall g :: g in gaps ==> Failures(attempts, g.start) >= maxAttempts
            case Some(c) =>
              && c in gaps && Failures(attempts, c.start) < maxAttempts
              && forall g :: g in gaps && Failures(attempts, g.start) < maxAttempts ==>
                   if tick % 2 == 0 then g.start <= c.start else g.start >= c.start
  {
    var live := Live(gaps, attempts, maxAttempts);
    LiveOrder(gaps, attempts, maxAttempts);
    forall g | g in gaps ensures g in live <==> Failures(attempts, g.start) < maxAttempts {
      LiveMembers(gaps, attempts, maxAttempts, g);
    }
    if live != [] {
      LiveMembers(gaps, attempts, maxAttempts, live[0]);
      LiveMembers(gaps, attempts, maxAttempts, live[|live| - 1]);
    }
  }

  // ---- a run ---------------------------------------------------------

  // rows: the stored heights; attempts: the memory.
  datatype State = State(rows: seq<nat>, attempts: map<int, nat>)

  // What a scan of the whole table hands over: its holes, newest first, up to a row limit if there is one.
  function Handed(rows: seq<nat>, limit: Option<nat>): seq<Gap> {
    if limit.Some? then GetBlockGaps(rows, limit.value, None, None) else AllInWindow(rows, None, None)
  }

  function ChoiceOf(s: State, limit: Option<nat>, tick: nat, maxAttempts: nat): Option<Gap> {
    ChooseGap(Handed(s.rows, limit), s.attempts, tick, maxAttempts)
  }

  // One tick: the chosen hole gains any of its heights, and the head moves on, leaving holes or not.
  ghost predicate Step(s: State, limit: Option<nat>, tick: nat, maxAttempts: nat, filled: set<nat>, t: State) {
    var chosen := ChoiceOf(s, limit, tick, maxAttempts);
    && s.rows != [] && Ascending(s.rows) && Ascending(t.rows)
    && (chosen.None? ==> filled == {} && t.attempts == s.attempts)
    && (chosen.Some? ==>
          && (forall h :: h in filled ==> InGap(h, chosen.value))
          && t.attempts == Recorded(s.attempts, chosen.value, |filled|))
    && (forall h :: h in s.rows || h in filled ==> h in t.rows)
    && (forall h :: h in t.rows && h <= s.rows[|s.rows| - 1] ==> h in s.rows || h in filled)
  }

  ghost predicate Run(states: seq<State>, limit: Option<nat>, fills: seq<set<nat>>, tick: nat, maxAttempts: nat) {
    && |states| == |fills| + 1
    && forall i :: 0 <= i < |fills| ==> Step(states[i], limit, tick + i, maxAttempts, fills[i], states[i + 1])
  }

  // Failures are remembered only for heights whose predecessor is stored.
  ghost predicate Valid(s: State) {
    s.rows != [] && Ascending(s.rows) && forall k :: k in s.attempts ==> k > 0 && k - 1 in s.rows
  }

  // Every hole below `mark` is out of attempts.
  ghost predicate Settled(s: State, mark: nat, maxAttempts: nat) {
    forall g: Gap :: Hole(s.rows, g) && g.end < mark ==> Failures(s.attempts, g.start) >= maxAttempts
  }

  // Every hole below `mark` that is handed over is out of attempts.
  ghost predicate HandedSettled(s: State, limit: Option<nat>, mark: nat, maxAttempts: nat) {
    forall g :: g in Handed(s.rows, limit) && g.end < mark ==> Failures(s.attempts, g.start) >= maxAttempts
  }

  // ---- the measure ---------------------------------------------------

  // What is left to try at a height: nothing once stored, else one fill and the failures still allowed there.
  function Credit(s: State, maxAttempts: nat, h: nat): nat {
    if h in s.rows then 0
    else 1 + maxAttempts - Min(Failures(s.attempts, h), maxAttempts)
  }

  function Measure(s: State, maxAttempts: nat, mark: nat): nat {
    if mark == 0 then 0 else Measure(s, maxAttempts, mark - 1) + Credit(s, maxAttempts, mark - 1)
  }

  // maxAttempts failures and one fill for each missing height below the mark.
  function Allowance(rows: seq<nat>, maxAttempts: nat, mark: nat): nat {
    if mark == 0 then 0
    else Allowance(rows, maxAttempts, mark - 1) + if mark - 1 in rows then 0 else maxAttempts + 1
  }

  lemma {:induction false} MeasureBound(s: State, maxAttempts: nat, mark: nat)
    ensures Measure(s, maxAttempts, mark) <= Allowance(s.rows, maxAttempts, mark)
  {
    if mark > 0 {
      MeasureBound(s, maxAttempts, mark - 1);
    }
  }

  lemma {:induction false} MeasureCovers(s: State, maxAttempts: nat, mark: nat, h: nat)
    requires h < mark
    ensures Measure(s, maxAttempts, mark) >= Credit(s, maxAttempts, h)
  {
    if h < mark - 1 {
      MeasureCovers(s, maxAttempts, mark - 1, h);
    }
  }

  function Change(s: State, t: State, maxAttempts: nat, mark: nat, h: nat): int {
    if h < mark then Credit(t, maxAttempts, h) - Credit(s, maxAttempts, h) else 0
  }

  // When the credit grows at no height but two, the measure grows by no more than the change at those.
  lemma {:induction false} MeasureChange(s: State, t: State, maxAttempts: nat, mark: nat, a: nat, b: nat)
    requires forall h: nat :: h < mark && h != a && h != b ==> Credit(t, maxAttempts, h) <= Credit(s, maxAttempts, h)
    ensures Measure(t, maxAttempts, mark)
            <= Measure(s, maxAttempts, mark) + Change(s, t, maxAttempts, mark, a)
               + (if a == b then 0 else Change(s, t, maxAttempts, mark, b))
  {
    if mark > 0 {
      MeasureChange(s, t, maxAttempts, mark - 1, a, b);
    }
  }

  // ---- one tick ------------------------------------------------------

  lemma GapsAreHoles(rows: seq<nat>, limit: Option<nat>)
    requires Ascending(rows)
    ensures NewestFirst(Handed(rows, limit))
    ensures forall g :: g in Handed(rows, limit) ==> Hole(rows, g)
    ensures limit.None? ==> forall g :: Hole(rows, g) ==> g in Handed(rows, limit)
  {
    AllGapsAreHoles(rows);
    var all, gaps := AllInWindow(rows, None, None), Handed(rows, limit);
    assert forall i :: 0 <= i < |gaps| ==> gaps[i] == all[i] && gaps[i] in all;
  }

  lemma AllGapsAreHoles(rows: seq<nat>)
    requires Ascending(rows)
    ensures NewestFirst(AllInWindow(rows, None, None))
    ensures forall g :: g in AllInWindow(rows, None, None) <==> Hole(rows, g)
  {
    AllRowsBetween(rows);
    LeadIsHoles(rows);
    var gaps := AllInWindow(rows, None, None);
    forall i, j | 0 <= i < j < |gaps| ensures gaps[i].start > gaps[j].start {
      assert gaps[j] in gaps && Hole(rows, gaps[j]);
    }
  }

  lemma HandedSettledIsSettled(s: State, mark: nat, maxAttempts: nat)
    requires Ascending(s.rows)
    ensures HandedSettled(s, None, mark, maxAttempts) <==> Settled(s, mark, maxAttempts)
  {
    GapsAreHoles(s.rows, None);
  }

  lemma StoredIsNotInHole(rows: seq<nat>, g: Gap, mark: nat)
    requires Hole(rows, g) && mark in rows
    ensures g.end < mark || g.start > mark
  {
  }

  lemma StepValid(s: State, limit: Option<nat>, tick: nat, maxAttempts: nat, filled: set<nat>, t: State)
    requires Valid(s) && Step(s, limit, tick, maxAttempts, filled, t)
    ensures Valid(t)
  {
    GapsAreHoles(s.rows, limit);
    ChoiceIs(Handed(s.rows, limit), s.attempts, tick, maxAttempts);
    assert s.rows[0] in t.rows;
  }

  // Without a live hole to fill below the mark, nothing below it changes.
  ghost predicate SameBelow(s: State, t: State, mark: nat) {
    && (forall h: nat :: h < mark ==> (h in s.rows <==> h in t.rows))
    && (forall h: nat :: h < mark ==> Failures(s.attempts, h) == Failures(t.attempts, h))
  }

  lemma ChoiceAboveKeepsBelow(s: State, limit: Option<nat>, tick: nat, maxAttempts: nat, filled: set<nat>, t: State, mark: nat)
    requires Valid(s) && mark in s.rows && Step(s, limit, tick, maxAttempts, filled, t)
    requires var c := ChoiceOf(s, limit, tick, maxAttempts); c.None? || c.value.start > mark
    ensures SameBelow(s, t, mark)
  {
    LastIsHighest(s.rows, mark);
    assert forall h :: h in filled ==> h > mark;
    forall h: nat | h < mark ensures h in s.rows <==> h in t.rows {
      assert h <= s.rows[|s.rows| - 1];
    }
  }

  lemma LastIsHighest(rows: seq<nat>, h: nat)
    requires Ascending(rows) && h in rows
    ensures h <= rows[|rows| - 1]
  {
  }

  lemma {:induction false} SameMeasure(s: State, t: State, maxAttempts: nat, mark: nat)
    requires SameBelow(s, t, mark)
    ensures Measure(t, maxAttempts, mark) == Measure(s, maxAttempts, mark)
  {
    if mark > 0 {
      SameMeasure(s, t, maxAttempts, mark - 1);
    }
  }

  // A tick spent on a hole below the mark lowers the measure: a failure by one, a fill by what the filled heights held
  // less what clearing the count gives back.
  lemma ChoiceBelowLowers(s: State, limit: Option<nat>, tick: nat, maxAttempts: nat, filled: set<nat>, t: State, mark: nat, g: Gap)
    requires Valid(s) && mark in s.rows && Step(s, limit, tick, maxAttempts, filled, t)
    requires ChoiceOf(s, limit, tick, maxAttempts) == Some(g)
    requires Hole(s.rows, g) && g.end < mark && Failures(s.attempts, g.start) < maxAttempts
    ensures Measure(t, maxAttempts, mark) < Measure(s, maxAttempts, mark)
  {
    var i :| 0 <= i < |s.rows| && s.rows[i] == mark;
    assert s.rows[|s.rows| - 1] >= mark;
    WorkLowers(s, maxAttempts, filled, t, mark, g);
  }

  lemma WorkLowers(s: State, maxAttempts: nat, filled: set<nat>, t: State, mark: nat, g: Gap)
    requires Valid(s) && Hole(s.rows, g) && g.end < mark && Failures(s.attempts, g.start) < maxAttempts
    requires forall h :: h in filled ==> InGap(h, g)
    requires t.attempts == Recorded(s.attempts, g, |filled|)
    requires forall h :: h in s.rows || h in filled ==> h in t.rows
    requires forall h :: h in t.rows && h < mark ==> h in s.rows || h in filled
    ensures Measure(t, maxAttempts, mark) < Measure(s, maxAttempts, mark)
  {
    var b: nat := g.start;
    assert b !in s.rows;
    if filled == {} {
      assert b !in t.rows;
    } else {
      if g.start !in filled {
        b :| b in filled;
        assert InGap(b, g) && b - 1 !in s.rows;
      }
      assert b in t.rows;
      assert |filled| > 0 by {
        assert |filled - {b}| + 1 == |filled|;
      }
    }
    forall h: nat | h < mark && h != g.start && h != b ensures Credit(t, maxAttempts, h) <= Credit(s, maxAttempts, h) {
      assert Failures(t.attempts, h) == Failures(s.attempts, h);
    }
    MeasureChange(s, t, maxAttempts, mark, g.start, b);
  }

  lemma SettledStays(s: State, tick: nat, maxAttempts: nat, filled: set<nat>, t: State, mark: nat)
    requires Valid(s) && mark in s.rows && Step(s, None, tick, maxAttempts, filled, t) && Settled(s, mark, maxAttempts)
    ensures Settled(t, mark, maxAttempts)
  {
    GapsAreHoles(s.rows, None);
    ChoiceIs(Handed(s.rows, None), s.attempts, tick, maxAttempts);
    var c := ChoiceOf(s, None, tick, maxAttempts);
    if c.Some? {
      StoredIsNotInHole(s.rows, c.value, mark);
    }
    ChoiceAboveKeepsBelow(s, None, tick, maxAttempts, filled, t, mark);
    SettledBelow(s, t, maxAttempts, mark);
  }

  lemma SettledBelow(s: State, t: State, maxAttempts: nat, mark: nat)
    requires SameBelow(s, t, mark) && mark in s.rows && Settled(s, mark, maxAttempts)
    ensures Settled(t, mark, maxAttempts)
  {
    forall g: Gap | Hole(t.rows, g) && g.end < mark ensures Failures(t.attempts, g.start) >= maxAttempts {
      assert g.start - 1 in s.rows;
      assert g.end + 1 == mark || g.end + 1 in s.rows;
      assert Hole(s.rows, g);
    }
  }

  // Every tick keeps or lowers the measure; an odd tick that is handed a live hole below the mark lowers it.
  lemma TickLowers(s: State, limit: Option<nat>, tick: nat, maxAttempts: nat, filled: set<nat>, t: State, mark: nat)
    requires Valid(s) && mark in s.rows && Step(s, limit, tick, maxAttempts, filled, t)
    ensures Valid(t) && mark in t.rows
    ensures Measure(t, maxAttempts, mark) <= Measure(s, maxAttempts, mark)
    ensures tick % 2 == 1 && !HandedSettled(s, limit, mark, maxAttempts) ==> Measure(t, maxAttempts, mark) < Measure(s, maxAttempts, mark)
  {
    StepValid(s, limit, tick, maxAttempts, filled, t);
    GapsAreHoles(s.rows, limit);
    ChoiceIs(Handed(s.rows, limit), s.attempts, tick, maxAttempts);
    var c := ChoiceOf(s, limit, tick, maxAttempts);
    if c.Some? && c.value.end < mark {
      ChoiceBelowLowers(s, limit, tick, maxAttempts, filled, t, mark, c.value);
    } else {
      if c.Some? {
        StoredIsNotInHole(s.rows, c.value, mark);
      }
      ChoiceAboveKeepsBelow(s, limit, tick, maxAttempts, filled, t, mark);
      SameMeasure(s, t, maxAttempts, mark);
    }
  }

  lemma UnsettledHasMeasure(s: State, maxAttempts: nat, mark: nat)
    requires !Settled(s, mark, maxAttempts)
    ensures Measure(s, maxAttempts, mark) > 0
  {
    var g: Gap :| Hole(s.rows, g) && g.end < mark && Failures(s.attempts, g.start) < maxAttempts;
    assert g.start !in s.rows;
    MeasureCovers(s, maxAttempts, mark, g.start);
  }

  // ---- every run -----------------------------------------------------

  // What one tick does to the budget: a settled state stays settled; an unsettled one has a measure, which an odd tick
  // lowers.
  lemma TickBudget(s: State, tick: nat, maxAttempts: nat, filled: set<nat>, t: State, mark: nat)
    requires Valid(s) && mark in s.rows && Step(s, None, tick, maxAttempts, filled, t)
    ensures Valid(t) && mark in t.rows
    ensures Settled(s, mark, maxAttempts) ==> Settled(t, mark, maxAttempts)
    ensures Measure(t, maxAttempts, mark) <= Measure(s, maxAttempts, mark)
    ensures tick % 2 == 1 && !Settled(s, mark, maxAttempts) ==> Measure(t, maxAttempts, mark) < Measure(s, maxAttempts, mark)
  {
    TickLowers(s, None, tick, maxAttempts, filled, t, mark);
    HandedSettledIsSettled(s, mark, maxAttempts);
    if Settled(s, mark, maxAttempts) {
      SettledStays(s, tick, maxAttempts, filled, t, mark);
    }
  }

  // A record of a run: what is left before each tick, and whether the holes are settled.
  datatype Mark = Mark(left: nat, settled: bool)

  predicate MarkStep(a: Mark, b: Mark, tick: nat) {
    && (a.settled ==> b.settled) && b.left <= a.left
    && (!a.settled ==> a.left > 0 && (tick % 2 == 1 ==> b.left < a.left))
  }

  ghost predicate Marks(marks: seq<Mark>, tick: nat) {
    forall i :: 0 <= i < |marks| - 1 ==> MarkStep(marks[i], marks[i + 1], tick + i)
  }

  // Two ticks for each unit left, less one when an odd tick comes first, always suffice.
  lemma {:induction false} MarksSettle(marks: seq<Mark>, tick: nat)
    requires marks != [] && Marks(marks, tick)
    requires marks[0].settled || |marks| - 1 >= 2 * marks[0].left - tick % 2
    requires !marks[|marks| - 1].settled ==> marks[|marks| - 1].left > 0
    ensures marks[|marks| - 1].settled
  {
    if |marks| > 1 {
      assert MarkStep(marks[0], marks[1], tick + 0);
      forall i | 0 <= i < |marks[1..]| - 1 ensures MarkStep(marks[1..][i], marks[1..][i + 1], tick + 1 + i) {
        assert MarkStep(marks[i + 1], marks[i + 2], tick + (i + 1));
      }
      MarksSettle(marks[1..], tick + 1);
    }
  }

  ghost function MarkOf(s: State, maxAttempts: nat, mark: nat): Mark {
    Mark(Measure(s, maxAttempts, mark), Settled(s, mark, maxAttempts))
  }

  lemma {:induction false} RunKeepsValid(states: seq<State>, fills: seq<set<nat>>, tick: nat, maxAttempts: nat, mark: nat, k: nat)
    requires Run(states, None, fills, tick, maxAttempts) && Valid(states[0]) && mark in states[0].rows && k <= |fills|
    ensures Valid(states[k]) && mark in states[k].rows
  {
    if k > 0 {
      RunKeepsValid(states, fills, tick, maxAttempts, mark, k - 1);
      assert Step(states[k - 1], None, tick + (k - 1), maxAttempts, fills[k - 1], states[k - 1 + 1]);
      TickBudget(states[k - 1], tick + (k - 1), maxAttempts, fills[k - 1], states[k], mark);
    }
  }

  lemma MarksOfRun(states: seq<State>, fills: seq<set<nat>>, tick: nat, maxAttempts: nat, mark: nat, i: nat)
    requires Run(states, None, fills, tick, maxAttempts) && Valid(states[0]) && mark in states[0].rows && i < |fills|
    ensures MarkStep(MarkOf(states[i], maxAttempts, mark), MarkOf(states[i + 1], maxAttempts, mark), tick + i)
  {
    RunKeepsValid(states, fills, tick, maxAttempts, mark, i);
    assert Step(states[i], None, tick + i, maxAttempts, fills[i], states[i + 1]);
    TickBudget(states[i], tick + i, maxAttempts, fills[i], states[i + 1], mark);
    if !Settled(states[i], mark, maxAttempts) {
      UnsettledHasMeasure(states[i], maxAttempts, mark);
    }
  }

  lemma SettlesWithin(states: seq<State>, fills: seq<set<nat>>, tick: nat, maxAttempts: nat, mark: nat, n: nat)
    requires Run(states, None, fills, tick, maxAttempts) && Valid(states[0]) && mark in states[0].rows
    requires 2 * Measure(states[0], maxAttempts, mark) <= n <= |fills|
    ensures Settled(states[n], mark, maxAttempts)
  {
    ghost var marks := seq(n + 1, i requires 0 <= i <= n && n < |states| => MarkOf(states[i], maxAttempts, mark));
    forall i | 0 <= i < n ensures MarkStep(marks[i], marks[i + 1], tick + i) {
      MarksOfRun(states, fills, tick, maxAttempts, mark, i);
    }
    if !Settled(states[n], mark, maxAttempts) {
      UnsettledHasMeasure(states[n], maxAttempts, mark);
    }
    MarksSettle(marks, tick);
  }

  // FAIR, full scans: from any reachable memory, within 2 * (maxAttempts + 1) ticks per missing height, every hole below a
  // stored height is filled or out of attempts, however many holes the head opens meanwhile, and it stays so.
  lemma NoHoleStarves(states: seq<State>, fills: seq<set<nat>>, tick: nat, maxAttempts: nat, mark: nat, n: nat)
    requires Run(states, None, fills, tick, maxAttempts) && Valid(states[0]) && mark in states[0].rows
    requires 2 * Allowance(states[0].rows, maxAttempts, mark) <= n <= |fills|
    ensures Settled(states[n], mark, maxAttempts)
  {
    MeasureBound(states[0], maxAttempts, mark);
    SettlesWithin(states, fills, tick, maxAttempts, mark, n);
  }

  // The ticks among the first n that chose the hole at k and filled nothing.
  function FailedTries(states: seq<State>, limit: Option<nat>, fills: seq<set<nat>>, tick: nat, maxAttempts: nat, k: int, n: nat): nat
    requires n <= |fills| && n < |states|
  {
    if n == 0 then 0
    else
      var c := ChoiceOf(states[n - 1], limit, tick + n - 1, maxAttempts);
      FailedTries(states, limit, fills, tick, maxAttempts, k, n - 1)
      + if c.Some? && c.value.start == k && fills[n - 1] == {} then 1 else 0
  }

  // COUNTED: no hole is given up on before it was tried: its count never exceeds the failed tries made at it.
  lemma {:induction false} FailuresAreTries(states: seq<State>, limit: Option<nat>, fills: seq<set<nat>>, tick: nat, maxAttempts: nat, k: int, n: nat)
    requires Run(states, limit, fills, tick, maxAttempts) && n <= |fills|
    ensures Failures(states[n].attempts, k)
         <= Failures(states[0].attempts, k) + FailedTries(states, limit, fills, tick, maxAttempts, k, n)
  {
    if n > 0 {
      var i := n - 1;
      FailuresAreTries(states, limit, fills, tick, maxAttempts, k, i);
      assert Step(states[i], limit, tick + i, maxAttempts, fills[i], states[i + 1]);
      if fills[i] != {} {
        var h :| h in fills[i];
        assert |fills[i] - {h}| + 1 == |fills[i]|;
      }
    }
  }

  // ---- under a row limit ---------------------------------------------

  function OddTicks(tick: nat, n: nat): nat {
    if n == 0 then 0 else OddTicks(tick, n - 1) + (tick + n - 1) % 2
  }

  lemma {:induction false} HalfAreOdd(tick: nat, n: nat)
    ensures n - 1 <= 2 * OddTicks(tick, n) <= n + 1
    ensures n % 2 == 0 ==> 2 * OddTicks(tick, n) == n
    ensures n % 2 == 1 ==> 2 * OddTicks(tick, n) == n + if tick % 2 == 1 then 1 else -1
  {
    if n > 0 {
      HalfAreOdd(tick, n - 1);
    }
  }

  lemma TickTakes(s: State, limit: Option<nat>, tick: nat, maxAttempts: nat, filled: set<nat>, t: State, mark: nat)
    requires Valid(s) && mark in s.rows && Step(s, limit, tick, maxAttempts, filled, t)
    requires !HandedSettled(s, limit, mark, maxAttempts)
    ensures Valid(t) && mark in t.rows && Measure(t, maxAttempts, mark) + tick % 2 <= Measure(s, maxAttempts, mark)
  {
    TickLowers(s, limit, tick, maxAttempts, filled, t, mark);
  }

  // While each tick is handed a live hole below the mark, each odd one lowers the measure.
  lemma {:induction false} OddTicksLower(states: seq<State>, limit: Option<nat>, fills: seq<set<nat>>, tick: nat, maxAttempts: nat, mark: nat, n: nat)
    requires Run(states, limit, fills, tick, maxAttempts) && Valid(states[0]) && mark in states[0].rows && n <= |fills|
    requires forall i :: 0 <= i < n ==> !HandedSettled(states[i], limit, mark, maxAttempts)
    ensures Valid(states[n]) && mark in states[n].rows
    ensures Measure(states[n], maxAttempts, mark) + OddTicks(tick, n) <= Measure(states[0], maxAttempts, mark)
  {
    if n > 0 {
      var k := n - 1;
      OddTicksLower(states, limit, fills, tick, maxAttempts, mark, k);
      assert Step(states[k], limit, tick + k, maxAttempts, fills[k], states[k + 1]);
      TickTakes(states[k], limit, tick + k, maxAttempts, fills[k], states[k + 1], mark);
    }
  }

  // FAIR, whatever is handed over: under any row limit, within the same ticks and two more there is one at which every
  // hole below a stored height that the scan hands over is out of attempts, however many holes the head opens.
  lemma HandedHolesSettle(states: seq<State>, limit: Option<nat>, fills: seq<set<nat>>, tick: nat, maxAttempts: nat, mark: nat, n: nat)
    requires Run(states, limit, fills, tick, maxAttempts) && Valid(states[0]) && mark in states[0].rows
    requires 2 * Allowance(states[0].rows, maxAttempts, mark) + 2 <= n <= |fills|
    ensures exists i :: 0 <= i < n && HandedSettled(states[i], limit, mark, maxAttempts)
  {
    if forall i :: 0 <= i < n ==> !HandedSettled(states[i], limit, mark, maxAttempts) {
      OddTicksLower(states, limit, fills, tick, maxAttempts, mark, n);
      HalfAreOdd(tick, n);
      MeasureBound(states[0], maxAttempts, mark);
    }
  }

  // Every hole handed over is out of attempts.
  ghost predicate Exhausted(s: State, limit: nat, maxAttempts: nat) {
    forall g :: g in Handed(s.rows, Some(limit)) ==> Failures(s.attempts, g.start) >= maxAttempts
  }

  // The head adds rows without leaving a hole.
  ghost predicate QuietHead(s: State, t: State) {
    s.rows != [] && forall g: Gap :: Hole(t.rows, g) ==> g.start <= s.rows[|s.rows| - 1]
  }

  ghost predicate Quiet(states: seq<State>) {
    forall i :: 0 <= i < |states| - 1 ==> QuietHead(states[i], states[i + 1])
  }

  // A tick makes an attempt unless the newest `limit` holes are all out of attempts; the older ones do not count.
  lemma AttemptsUnlessExhausted(s: State, limit: nat, tick: nat, maxAttempts: nat)
    requires Ascending(s.rows)
    ensures ChoiceOf(s, Some(limit), tick, maxAttempts).None? <==> Exhausted(s, limit, maxAttempts)
  {
    GapsAreHoles(s.rows, Some(limit));
    ChoiceIs(Handed(s.rows, Some(limit)), s.attempts, tick, maxAttempts);
  }

  lemma TailIsOlder(a: seq<Gap>)
    requires NewestFirst(a) && a != []
    ensures NewestFirst(a[1..]) && a == [a[0]] + a[1..]
    ensures forall g :: g in a[1..] <==> g in a && g != a[0]
    ensures forall g :: g in a ==> g.start <= a[0].start
  {
    var rest := a[1..];
    assert forall k :: 0 <= k < |rest| ==> rest[k] == a[k + 1] && rest[k].start < a[0].start;
  }

  lemma {:induction false} DescendingUnique(a: seq<Gap>, b: seq<Gap>)
    requires NewestFirst(a) && NewestFirst(b) && forall g :: g in a <==> g in b
    ensures a == b
    decreases |a|
  {
    if a == [] {
      HasFirst(b);
    } else {
      assert a[0] in b;
      TailIsOlder(a);
      TailIsOlder(b);
      assert b[0] in a;
      FirstIsShared(a, b);
      DescendingUnique(a[1..], b[1..]);
    }
  }

  lemma HasFirst(gaps: seq<Gap>)
    ensures gaps == [] || exists g :: g in gaps
  {
    assert gaps != [] ==> gaps[0] in gaps;
  }

  lemma FirstIsShared(a: seq<Gap>, b: seq<Gap>)
    requires a != [] && b != [] && NewestFirst(a) && NewestFirst(b) && a[0] in b && b[0] in a
    ensures a[0] == b[0]
  {
    var i :| 0 <= i < |b| && b[i] == a[0];
    var j :| 0 <= j < |a| && a[j] == b[0];
    assert b[i].start <= b[0].start && a[j].start <= a[0].start;
  }

  // With nothing attempted and a quiet head, the next scan hands over the same holes.
  lemma QuietTickKeepsHoles(s: State, limit: nat, tick: nat, maxAttempts: nat, filled: set<nat>, t: State)
    requires Step(s, Some(limit), tick, maxAttempts, filled, t) && QuietHead(s, t) && Exhausted(s, limit, maxAttempts)
    ensures filled == {} && t.attempts == s.attempts && Ascending(t.rows)
    ensures forall g: Gap :: Hole(t.rows, g) <==> Hole(s.rows, g)
    ensures Handed(t.rows, Some(limit)) == Handed(s.rows, Some(limit))
  {
    AttemptsUnlessExhausted(s, limit, tick, maxAttempts);
    var last := s.rows[|s.rows| - 1];
    assert forall h :: h in s.rows ==> h <= last && h in t.rows;
    forall g: Gap ensures Hole(t.rows, g) <==> Hole(s.rows, g) {
      if Hole(t.rows, g) {
        assert g.end < last by {
          assert last in t.rows;
        }
      }
    }
    GapsAreHoles(s.rows, None);
    GapsAreHoles(t.rows, None);
    DescendingUnique(Handed(s.rows, None), Handed(t.rows, None));
  }

  // STARVED: once the newest `limit` holes are out of attempts and the head leaves no new ones, no tick attempts anything
  // again: a live hole below them keeps its failures and its missing heights for ever.
  lemma {:induction false} OlderHolesStarve(states: seq<State>, limit: nat, fills: seq<set<nat>>, tick: nat, maxAttempts: nat, n: nat)
    requires Run(states, Some(limit), fills, tick, maxAttempts) && Quiet(states) && Ascending(states[0].rows) && n <= |fills|
    requires Exhausted(states[0], limit, maxAttempts)
    ensures Ascending(states[n].rows) && Exhausted(states[n], limit, maxAttempts) && states[n].attempts == states[0].attempts
    ensures ChoiceOf(states[n], Some(limit), tick + n, maxAttempts).None?
    ensures forall g: Gap :: Hole(states[n].rows, g) <==> Hole(states[0].rows, g)
  {
    if n > 0 {
      OlderHolesStarve(states, limit, fills, tick, maxAttempts, n - 1);
      assert Step(states[n - 1], Some(limit), tick + (n - 1), maxAttempts, fills[n - 1], states[n - 1 + 1]);
      assert QuietHead(states[n - 1], states[n - 1 + 1]);
      QuietTickKeepsHoles(states[n - 1], limit, tick + (n - 1), maxAttempts, fills[n - 1], states[n]);
    }
    AttemptsUnlessExhausted(states[n], limit, tick + n, maxAttempts);
  }

  // Such a state: two holes, the newer one out of attempts, and a limit of one.
  lemma OlderHoleStarves(maxAttempts: nat, tick: nat)
    requires maxAttempts > 0
    ensures
      var s := State([1, 3, 5], map[4 := maxAttempts]);
      && Hole(s.rows, Gap(2, 2)) && Failures(s.attempts, 2) < maxAttempts
      && ChoiceOf(s, Some(1), tick, maxAttempts) == None && ChoiceOf(s, None, tick, maxAttempts) == Some(Gap(2, 2))
  {
    TwoHoles();
    OnlyOlderIsLive(map[4 := maxAttempts], maxAttempts);
  }

  lemma OnlyOlderIsLive(attempts: map<int, nat>, maxAttempts: nat)
    requires Failures(attempts, 4) == maxAttempts && Failures(attempts, 2) < maxAttempts
    ensures Live([Gap(4, 4)], attempts, maxAttempts) == []
    ensures Live([Gap(4, 4), Gap(2, 2)], attempts, maxAttempts) == [Gap(2, 2)]
  {
    LiveCons(Gap(2, 2), [], attempts, maxAttempts);
    LiveCons(Gap(4, 4), [], attempts, maxAttempts);
    LiveCons(Gap(4, 4), [Gap(2, 2)], attempts, maxAttempts);
    assert [Gap(4, 4)] + [] == [Gap(4, 4)] && [Gap(4, 4)] + [Gap(2, 2)] == [Gap(4, 4), Gap(2, 2)];
  }

  lemma LiveCons(g: Gap, rest: seq<Gap>, attempts: map<int, nat>, maxAttempts: nat)
    ensures Live([g] + rest, attempts, maxAttempts)
         == (if Failures(attempts, g.start) < maxAttempts then [g] else []) + Live(rest, attempts, maxAttempts)
  {
    assert ([g] + rest)[1..] == rest;
  }

  lemma TwoHoles()
    ensures Hole([1, 3, 5], Gap(2, 2))
    ensures Handed([1, 3, 5], None) == [Gap(4, 4), Gap(2, 2)] && Handed([1, 3, 5], Some(1)) == [Gap(4, 4)]
  {
    AllRowsBetween([1, 3, 5]);
    assert [3, 5][1..] == [5] && [1, 3, 5][1..] == [3, 5];
    assert Lead([3, 5]) == [] + [Gap(4, 4)] && Lead([1, 3, 5]) == [Gap(4, 4)] + [Gap(2, 2)];
  }
}
