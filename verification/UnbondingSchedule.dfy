/**
 When unbonding stake is released (unbondingSchedule in lib/lock-actions.js): each chunk is
 either withdrawable or pending with its date, nothing is lost between the two, and time
 only moves chunks one way, exactly those whose era has come.
 */
module UnbondingSchedule {
  import opened Util
  import opened Sorting

  datatype Chunk = Chunk(value: nat, era: int)

  datatype Pending = Pending(value: nat, era: int, erasLeft: Option<int>, eta: Option<int>)

  // The clock: both eras and the start may be unknown; eraMs is 0 when the era length is.
  datatype Clock = Clock(currentEra: Option<int>, activeEra: Option<int>, activeEraStart: Option<int>, eraMs: int, now: int)

  datatype Schedule = Schedule(withdrawable: nat, readyCount: nat, pending: seq<Pending>)

  function EraNow(c: Clock): Option<int> {
    if c.currentEra.Some? then c.currentEra else c.activeEra
  }

  predicate Ready(chunk: Chunk, c: Clock) {
    EraNow(c).Some? && chunk.era <= EraNow(c).value
  }

  // The date: from the active era's start when known, else so many eras from now.
  function Eta(era: int, c: Clock): Option<int> {
    if c.eraMs <= 0 then None
    else if c.activeEra.Some? && c.activeEraStart.Some? then Some(c.activeEraStart.value + (era - c.activeEra.value) * c.eraMs)
    else if EraNow(c).Some? then Some(c.now + (era - EraNow(c).value) * c.eraMs)
    else None
  }

  function Waiting(chunk: Chunk, c: Clock): Pending {
    Pending(chunk.value, chunk.era, if EraNow(c).Some? then Some(chunk.era - EraNow(c).value) else None, Eta(chunk.era, c))
  }

  predicate Sooner(a: Pending, b: Pending) {
    a.era < b.era
  }

  function ReadySum(chunks: seq<Chunk>, c: Clock): nat {
    if chunks == [] then 0
    else
      var last := chunks[|chunks| - 1];
      ReadySum(chunks[..|chunks| - 1], c) + (if Ready(last, c) then last.value else 0)
  }

  function ReadyCount(chunks: seq<Chunk>, c: Clock): nat {
    if chunks == [] then 0
    else ReadyCount(chunks[..|chunks| - 1], c) + (if Ready(chunks[|chunks| - 1], c) then 1 else 0)
  }

  function WaitingList(chunks: seq<Chunk>, c: Clock): seq<Pending> {
    if chunks == [] then []
    else
      var last := chunks[|chunks| - 1];
      WaitingList(chunks[..|chunks| - 1], c) + (if Ready(last, c) then [] else [Waiting(last, c)])
  }

  function ScheduleOf(chunks: seq<Chunk>, c: Clock): Schedule {
    Schedule(ReadySum(chunks, c), ReadyCount(chunks, c), Sort(WaitingList(chunks, c), Sooner))
  }

  // unbondingSchedule.
  method Unbonding(chunks: seq<Chunk>, c: Clock) returns (s: Schedule)
    ensures s == ScheduleOf(chunks, c)
  {
    var eraNow := if c.currentEra.Some? then c.currentEra else c.activeEra;
    var withdrawable, readyCount, pending := 0, 0, [];
    for i := 0 to |chunks|
      invariant withdrawable == ReadySum(chunks[..i], c) && readyCount == ReadyCount(chunks[..i], c)
      invariant pending == WaitingList(chunks[..i], c)
    {
      var chunk := chunks[i];
      assert chunks[..i + 1][..i] == chunks[..i];
      if eraNow.Some? && chunk.era <= eraNow.value {
        withdrawable, readyCount := withdrawable + chunk.value, readyCount + 1;
      } else {
        var erasLeft := if eraNow.Some? then Some(chunk.era - eraNow.value) else None;
        var eta: Option<int> := None;
        if c.eraMs > 0 {
          if c.activeEra.Some? && c.activeEraStart.Some? {
            eta := Some(c.activeEraStart.value + (chunk.era - c.activeEra.value) * c.eraMs);
          } else if erasLeft.Some? {
            eta := Some(c.now + erasLeft.value * c.eraMs);
          }
        }
        pending := pending + [Pending(chunk.value, chunk.era, erasLeft, eta)];
      }
    }
    assert chunks[..|chunks|] == chunks;
    s := Schedule(withdrawable, readyCount, Sort(pending, Sooner));
  }

  // ---- conservation --------------------------------------------------

  function Total(chunks: seq<Chunk>): nat {
    if chunks == [] then 0 else Total(chunks[..|chunks| - 1]) + chunks[|chunks| - 1].value
  }

  function PendingSum(pending: seq<Pending>): nat {
    if pending == [] then 0 else pending[0].value + PendingSum(pending[1..])
  }

  lemma {:induction false} PendingPush(pending: seq<Pending>, x: Pending)
    ensures PendingSum(pending + [x]) == PendingSum(pending) + x.value
  {
    if pending == [] {
      assert pending + [x] == [x];
    } else {
      assert (pending + [x])[1..] == pending[1..] + [x];
      PendingPush(pending[1..], x);
    }
  }

  lemma {:induction false} PendingInsert(x: Pending, s: seq<Pending>)
    ensures PendingSum(Insert(x, s, Sooner)) == x.value + PendingSum(s)
  {
    if s == [] || !Sooner(s[0], x) {
      assert ([x] + s)[1..] == s;
    } else {
      PendingInsert(x, s[1..]);
      assert ([s[0]] + Insert(x, s[1..], Sooner))[1..] == Insert(x, s[1..], Sooner);
    }
  }

  lemma {:induction false} PendingSort(s: seq<Pending>)
    ensures PendingSum(Sort(s, Sooner)) == PendingSum(s)
  {
    if s != [] {
      PendingSort(s[1..]);
      PendingInsert(s[0], Sort(s[1..], Sooner));
    }
  }

  lemma {:induction false} SplitsTotal(chunks: seq<Chunk>, c: Clock)
    ensures ReadySum(chunks, c) + PendingSum(WaitingList(chunks, c)) == Total(chunks)
    ensures ReadyCount(chunks, c) + |WaitingList(chunks, c)| == |chunks|
  {
    if chunks != [] {
      var front, last := chunks[..|chunks| - 1], chunks[|chunks| - 1];
      SplitsTotal(front, c);
      PendingPush(WaitingList(front, c), Waiting(last, c));
      assert WaitingList(front, c) + [] == WaitingList(front, c);
    }
  }

  // CONSERVED: what is withdrawable and what is pending add up to what is unbonding, in value and in number.
  lemma NothingIsLost(chunks: seq<Chunk>, c: Clock)
    ensures var s := ScheduleOf(chunks, c);
            s.withdrawable + PendingSum(s.pending) == Total(chunks) && s.readyCount + |s.pending| == |chunks|
  {
    SplitsTotal(chunks, c);
    PendingSort(WaitingList(chunks, c));
    SortPermutes(WaitingList(chunks, c), Sooner);
  }

  // ---- order and dates -----------------------------------------------

  lemma {:induction false} WaitingMembers(chunks: seq<Chunk>, c: Clock)
    ensures forall p :: p in WaitingList(chunks, c) <==> exists chunk :: chunk in chunks && !Ready(chunk, c) && p == Waiting(chunk, c)
  {
    if chunks != [] {
      var front, last := chunks[..|chunks| - 1], chunks[|chunks| - 1];
      WaitingMembers(front, c);
      assert chunks == front + [last];
      forall p ensures p in WaitingList(chunks, c) <==> exists chunk :: chunk in chunks && !Ready(chunk, c) && p == Waiting(chunk, c) {
        if p in WaitingList(front, c) {
          var chunk :| chunk in front && !Ready(chunk, c) && p == Waiting(chunk, c);
          assert chunk in chunks;
        }
      }
    }
  }

  lemma ErasToDates(a: int, b: int, c: Clock)
    requires a <= b && Eta(a, c).Some?
    ensures Eta(b, c).Some? && Eta(a, c).value <= Eta(b, c).value
  {
    var base := if c.activeEra.Some? && c.activeEraStart.Some? then c.activeEra.value else EraNow(c).value;
  }

  // ORDER: pending chunks come soonest first, their dates never decrease, and either all are dated or none.
  lemma DatesNeverDecrease(chunks: seq<Chunk>, c: Clock, i: nat, j: nat)
    requires i < j < |ScheduleOf(chunks, c).pending|
    ensures var p := ScheduleOf(chunks, c).pending;
            && p[i].era <= p[j].era && (p[i].eta.Some? <==> p[j].eta.Some?)
            && (p[i].eta.Some? ==> p[i].eta.value <= p[j].eta.value)
  {
    var p := ScheduleOf(chunks, c).pending;
    SortSorts(WaitingList(chunks, c), Sooner);
    SortMembers(WaitingList(chunks, c), Sooner);
    WaitingMembers(chunks, c);
    assert p[i] in p && p[j] in p && !Sooner(p[j], p[i]);
    assert p[i].eta == Eta(p[i].era, c) && p[j].eta == Eta(p[j].era, c);
    if p[i].eta.Some? {
      ErasToDates(p[i].era, p[j].era, c);
    }
  }

  // ---- on the clock's own fields -------------------------------------

  // The chunks whose era is not past this one.
  function DueBy(chunks: seq<Chunk>, era: int): nat {
    if chunks == [] then 0
    else DueBy(chunks[..|chunks| - 1], era) + (if chunks[|chunks| - 1].era <= era then chunks[|chunks| - 1].value else 0)
  }

  // DUE: with the current era known, or else the active one, exactly the chunks up to it are withdrawable and every
  // pending one counts the eras left from it; with neither, nothing is.
  lemma {:induction false} SplitByEra(chunks: seq<Chunk>, c: Clock, era: int)
    requires c.currentEra == Some(era) || (c.currentEra.None? && c.activeEra == Some(era))
    ensures var s := ScheduleOf(chunks, c);
            s.withdrawable == DueBy(chunks, era) && forall p :: p in s.pending ==> p.era > era && p.erasLeft == Some(p.era - era)
  {
    SortMembers(WaitingList(chunks, c), Sooner);
    WaitingMembers(chunks, c);
    SumByEra(chunks, c, era);
  }

  lemma {:induction false} SumByEra(chunks: seq<Chunk>, c: Clock, era: int)
    requires c.currentEra == Some(era) || (c.currentEra.None? && c.activeEra == Some(era))
    ensures ReadySum(chunks, c) == DueBy(chunks, era)
  {
    if chunks != [] {
      SumByEra(chunks[..|chunks| - 1], c, era);
    }
  }

  lemma {:induction false} NothingWithoutEra(chunks: seq<Chunk>, c: Clock)
    requires c.currentEra.None? && c.activeEra.None?
    ensures ScheduleOf(chunks, c).withdrawable == 0 && ScheduleOf(chunks, c).readyCount == 0
    ensures forall p :: p in ScheduleOf(chunks, c).pending ==> p.erasLeft.None? && p.eta.None?
  {
    SortMembers(WaitingList(chunks, c), Sooner);
    WaitingMembers(chunks, c);
    if chunks != [] {
      NothingWithoutEra(chunks[..|chunks| - 1], c);
    }
  }

  // DATED: from the active era's start where it is known, else from now by the eras left; not at all without a length.
  lemma DatesAre(chunks: seq<Chunk>, c: Clock, p: Pending)
    requires p in ScheduleOf(chunks, c).pending
    ensures exists chunk :: chunk in chunks && chunk.era == p.era && chunk.value == p.value
    ensures c.eraMs <= 0 ==> p.eta.None?
    ensures c.eraMs > 0 && c.activeEra.Some? && c.activeEraStart.Some? ==>
      p.eta == Some(c.activeEraStart.value + (p.era - c.activeEra.value) * c.eraMs)
    ensures c.eraMs > 0 && (c.activeEra.None? || c.activeEraStart.None?) && p.erasLeft.Some? ==>
      p.eta == Some(c.now + p.erasLeft.value * c.eraMs)
  {
    SortMembers(WaitingList(chunks, c), Sooner);
    WaitingMembers(chunks, c);
    var chunk :| chunk in chunks && !Ready(chunk, c) && p == Waiting(chunk, c);
  }

  // ---- as eras pass --------------------------------------------------

  // The value of the chunks that come due in (from, to].
  function DueBetween(chunks: seq<Chunk>, from: int, to: int): nat {
    if chunks == [] then 0
    else
      var last := chunks[|chunks| - 1];
      DueBetween(chunks[..|chunks| - 1], from, to) + (if from < last.era <= to then last.value else 0)
  }

  // RELEASE: between two clocks, what becomes withdrawable is exactly the chunks whose era came in between.
  lemma {:induction false} ReleasesWhatIsDue(chunks: seq<Chunk>, c: Clock, later: Clock)
    requires EraNow(c).Some? && EraNow(later).Some? && EraNow(c).value <= EraNow(later).value
    ensures ScheduleOf(chunks, later).withdrawable
            == ScheduleOf(chunks, c).withdrawable + DueBetween(chunks, EraNow(c).value, EraNow(later).value)
  {
    if chunks != [] {
      ReleasesWhatIsDue(chunks[..|chunks| - 1], c, later);
    }
  }
}
