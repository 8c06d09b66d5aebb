/**
 Which events are new enough to mail (lib/email-events.js): a watermark over ranks with a
 freshness cutoff and a cap, and, for things that finish out of order, a bounded memory of
 what was announced.
 */
module EmailEvents {
  import opened Util
  import opened Sorting

  // rank: rankOf, None when it is not a finite number; time: timeOf, None when unknown.
  datatype Item = Item(rank: Option<int>, time: Option<int>)

  datatype Ranked = Ranked(item: Item, rank: int)

  // The selector's other inputs at one tick; an age limit that is no number is None.
  datatype Policy = Policy(now: int, maxAge: Option<int>, limit: int)

  datatype Selection = Selection(dispatch: seq<Item>, nextBaseline: Option<int>, firstRun: bool, suppressed: int)

  predicate IsFresh(time: Option<int>, p: Policy) {
    && time.Some? && time.value > 0
    && p.maxAge.Some? && p.maxAge.value > 0
    && 0 <= p.now - time.value <= p.maxAge.value
  }

  predicate RankBefore(a: Ranked, b: Ranked) {
    a.rank < b.rank
  }

  function RankedItems(items: seq<Item>): seq<Ranked> {
    if items == [] then []
    else
      var last := items[|items| - 1];
      RankedItems(items[..|items| - 1]) + (if last.rank.Some? then [Ranked(last, last.rank.value)] else [])
  }

  function Highest(ranked: seq<Ranked>): Option<int> {
    if ranked == [] then None
    else
      var front, last := Highest(ranked[..|ranked| - 1]), ranked[|ranked| - 1].rank;
      if front.None? || last > front.value then Some(last) else front
  }

  function Items(ranked: seq<Ranked>): seq<Item> {
    seq(|ranked|, i requires 0 <= i < |ranked| => ranked[i].item)
  }

  // ranked above the mark, oldest first.
  function Above(items: seq<Item>, mark: int): seq<Ranked> {
    Sort(Filter(RankedItems(items), (r: Ranked) => r.rank > mark), RankBefore)
  }

  function Fresh(items: seq<Item>, mark: int, p: Policy): seq<Ranked> {
    Filter(Above(items, mark), (r: Ranked) => IsFresh(r.item.time, p))
  }

  // slice(0, Math.max(0, limit)).
  function Slice<T>(rows: seq<T>, limit: int): seq<T> {
    Take(rows, Max(0, limit))
  }

  function Capped(items: seq<Item>, mark: int, p: Policy): seq<Ranked> {
    Slice(Fresh(items, mark, p), p.limit)
  }

  // Past everything considered: the last one sent when the cap cut, else the last one above the mark.
  function NextMark(items: seq<Item>, mark: int, p: Policy): int {
    Max(mark, Considered(Above(items, mark), Fresh(items, mark, p), Capped(items, mark, p), mark))
  }

  function Considered(above: seq<Ranked>, recent: seq<Ranked>, capped: seq<Ranked>, mark: int): int {
    if |capped| < |recent| then (if capped != [] then capped[|capped| - 1].rank else mark)
    else if above != [] then above[|above| - 1].rank else mark
  }

  function Select(items: seq<Item>, baseline: Option<int>, p: Policy): Selection {
    if baseline.None? then Selection([], Highest(RankedItems(items)), true, |RankedItems(items)|)
    else
      var mark := baseline.value;
      Selection(Items(Capped(items, mark, p)), Some(NextMark(items, mark, p)), false, |Above(items, mark)| - |Capped(items, mark, p)|)
  }

  // selectDispatchable.
  method SelectDispatchable(items: seq<Item>, baseline: Option<int>, p: Policy) returns (s: Selection)
    ensures s == Select(items, baseline, p)
  {
    var ranked: seq<Ranked> := [];
    var highest: Option<int> := None;
    for i := 0 to |items|
      invariant ranked == RankedItems(items[..i]) && highest == Highest(ranked)
    {
      assert items[..i + 1][..i] == items[..i];
      if items[i].rank.Some? {
        var rank := items[i].rank.value;
        if highest.None? || rank > highest.value {
          highest := Some(rank);
        }
        assert (ranked + [Ranked(items[i], rank)])[..|ranked|] == ranked;
        ranked := ranked + [Ranked(items[i], rank)];
      }
    }
    assert items[..|items|] == items;
    if baseline.None? {
      return Selection([], highest, true, |ranked|);
    }
    var mark := baseline.value;
    var above := Sort(Filter(ranked, (r: Ranked) => r.rank > mark), RankBefore);
    var recent := Filter(above, (r: Ranked) => IsFresh(r.item.time, p));
    var capped := Slice(recent, p.limit);
    var considered := mark;
    if |capped| < |recent| {
      if capped != [] {
        considered := capped[|capped| - 1].rank;
      }
    } else if above != [] {
      considered := above[|above| - 1].rank;
    }
    s := Selection(Items(capped), Some(Max(mark, considered)), false, |above| - |capped|);
  }

  // ---- one tick ------------------------------------------------------

  lemma {:induction false} RankedMembers(items: seq<Item>)
    ensures forall r :: r in RankedItems(items) <==> r.item in items && r.item.rank == Some(r.rank)
  {
    if items != [] {
      RankedMembers(items[..|items| - 1]);
      assert items == items[..|items| - 1] + [items[|items| - 1]];
    }
  }

  ghost predicate Ascending(rows: seq<Ranked>) {
    forall i, j :: 0 <= i < j < |rows| ==> rows[i].rank <= rows[j].rank
  }

  lemma {:induction false} FilterAscends(rows: seq<Ranked>, keep: Ranked -> bool)
    requires Ascending(rows)
    ensures Ascending(Filter(rows, keep))
  {
    if rows != [] {
      FilterAscends(rows[1..], keep);
      FilterMembers(rows[1..], keep);
      var rest := Filter(rows[1..], keep);
      forall i | 0 <= i < |rest| ensures rows[0].rank <= rest[i].rank {
        assert rest[i] in rows[1..];
        var k :| 0 <= k < |rows[1..]| && rows[1..][k] == rest[i];
        assert rows[k + 1] == rest[i];
      }
    }
  }

  lemma AboveIs(items: seq<Item>, mark: int)
    ensures Ascending(Above(items, mark))
    ensures forall r :: r in Above(items, mark) <==> r.item in items && r.item.rank == Some(r.rank) && r.rank > mark
  {
    var some := Filter(RankedItems(items), (r: Ranked) => r.rank > mark);
    RankedMembers(items);
    FilterMembers(RankedItems(items), (r: Ranked) => r.rank > mark);
    SortMembers(some, RankBefore);
    SortSorts(some, RankBefore);
    var s := Above(items, mark);
    assert forall i, j :: 0 <= i < j < |s| ==> !RankBefore(s[j], s[i]);
  }

  lemma FreshIs(items: seq<Item>, mark: int, p: Policy)
    ensures Ascending(Fresh(items, mark, p))
    ensures forall r :: r in Fresh(items, mark, p) <==> r in Above(items, mark) && IsFresh(r.item.time, p)
  {
    AboveIs(items, mark);
    FilterAscends(Above(items, mark), (r: Ranked) => IsFresh(r.item.time, p));
    FilterMembers(Above(items, mark), (r: Ranked) => IsFresh(r.item.time, p));
  }

  // No two items of a tick share a rank.
  ghost predicate DistinctRanks(items: seq<Item>) {
    forall i, j :: 0 <= i < j < |items| && items[i].rank.Some? ==> items[i].rank != items[j].rank
  }

  lemma ItemsMembers(ranked: seq<Ranked>, item: Item)
    ensures item in Items(ranked) <==> exists r :: r in ranked && r.item == item
  {
    if item in Items(ranked) {
      var i :| 0 <= i < |ranked| && Items(ranked)[i] == item;
      assert ranked[i] in ranked && ranked[i].item == item;
    }
    if r :| r in ranked && r.item == item {
      var i :| 0 <= i < |ranked| && ranked[i] == r;
      assert Items(ranked)[i] == item;
    }
  }

  // Of a known time that is not in the future and not more than the age limit ago.
  ghost predicate RecentEnough(time: Option<int>, p: Policy) {
    time.Some? && p.maxAge.Some? && p.maxAge.value > 0 && 0 < time.value <= p.now <= time.value + p.maxAge.value
  }

  lemma FreshMeansRecent(time: Option<int>, p: Policy)
    ensures IsFresh(time, p) <==> RecentEnough(time, p)
  {
  }

  // Eligible: above the mark and fresh.
  ghost predicate Eligible(items: seq<Item>, mark: int, p: Policy, item: Item) {
    item in items && item.rank.Some? && item.rank.value > mark && RecentEnough(item.time, p)
  }

  lemma FreshDistinct(items: seq<Item>, mark: int, p: Policy)
    requires DistinctRanks(items)
    ensures Distinct(Fresh(items, mark, p))
  {
    RankedDistinct(items);
    var ranked := RankedItems(items);
    FilterDistinct(ranked, (r: Ranked) => r.rank > mark);
    SortDistinct(Filter(ranked, (r: Ranked) => r.rank > mark));
    FilterDistinct(Above(items, mark), (r: Ranked) => IsFresh(r.item.time, p));
  }

  ghost predicate Distinct(rows: seq<Ranked>) {
    forall i, j :: 0 <= i < j < |rows| ==> rows[i].rank != rows[j].rank
  }

  lemma {:induction false} RankedDistinct(items: seq<Item>)
    requires DistinctRanks(items)
    ensures Distinct(RankedItems(items))
  {
    if items != [] {
      var front, last := items[..|items| - 1], items[|items| - 1];
      RankedDistinct(front);
      RankedMembers(front);
      assert items == front + [last];
      forall i | 0 <= i < |RankedItems(front)| && last.rank.Some? ensures RankedItems(front)[i].rank != last.rank.value {
        var r := RankedItems(front)[i];
        var k :| 0 <= k < |front| && front[k] == r.item;
        assert items[k].rank != items[|front|].rank;
      }
    }
  }

  lemma {:induction false} FilterDistinct(rows: seq<Ranked>, keep: Ranked -> bool)
    requires Distinct(rows)
    ensures Distinct(Filter(rows, keep))
  {
    if rows != [] {
      FilterDistinct(rows[1..], keep);
      FilterMembers(rows[1..], keep);
      var rest := Filter(rows[1..], keep);
      forall i | 0 <= i < |rest| ensures rest[i].rank != rows[0].rank {
        assert rest[i] in rest;
        var k :| 0 <= k < |rows[1..]| && rows[1..][k] == rest[i];
        assert rows[k + 1] == rest[i];
      }
    }
  }

  lemma {:induction false} InsertDistinct(x: Ranked, rows: seq<Ranked>)
    requires Distinct(rows) && forall r :: r in rows ==> r.rank != x.rank
    ensures Distinct(Insert(x, rows, RankBefore))
  {
    if rows != [] && RankBefore(rows[0], x) {
      InsertDistinct(x, rows[1..]);
      InsertPermutes(x, rows[1..], RankBefore);
      var rest := Insert(x, rows[1..], RankBefore);
      forall i | 0 <= i < |rest| ensures rest[i].rank != rows[0].rank {
        assert rest[i] in multiset(rest);
        if rest[i] != x {
          assert rest[i] in rows[1..];
        }
      }
    }
  }

  lemma {:induction false} SortDistinct(rows: seq<Ranked>)
    requires Distinct(rows)
    ensures Distinct(Sort(rows, RankBefore))
  {
    if rows != [] {
      SortDistinct(rows[1..]);
      SortMembers(rows[1..], RankBefore);
      InsertDistinct(rows[0], Sort(rows[1..], RankBefore));
    }
  }

  lemma CutAt(above: seq<Ranked>, recent: seq<Ranked>, limit: int, mark: int, k: nat)
    requires Ascending(above) && Ascending(recent) && Distinct(recent) && k < |recent|
    requires recent[k] in above && recent[k].rank > mark
    ensures var capped := Slice(recent, limit);
            recent[k] in capped <==> recent[k].rank <= Max(mark, Considered(above, recent, capped, mark))
  {
    var capped := Slice(recent, limit);
    assert forall i :: 0 <= i < |capped| ==> capped[i] == recent[i];
    if k < |capped| {
      assert capped[k] in capped;
    } else {
      assert recent[k] !in capped;
    }
    var m :| 0 <= m < |above| && above[m] == recent[k];
  }

  lemma CappedCut(items: seq<Item>, mark: int, p: Policy, r: Ranked)
    requires DistinctRanks(items) && r in Fresh(items, mark, p)
    ensures r in Capped(items, mark, p) <==> r.rank <= NextMark(items, mark, p)
  {
    FreshIs(items, mark, p);
    AboveIs(items, mark);
    FreshDistinct(items, mark, p);
    var k :| 0 <= k < |Fresh(items, mark, p)| && Fresh(items, mark, p)[k] == r;
    CutAt(Above(items, mark), Fresh(items, mark, p), p.limit, mark, k);
  }

  // EXACT: after the first run a tick sends exactly the eligible items up to the new watermark. Every other eligible
  // item stays above it, and there is one only when the cap is full.
  lemma SendsUpToMark(items: seq<Item>, mark: int, p: Policy, item: Item)
    requires DistinctRanks(items)
    ensures var s := Select(items, Some(mark), p);
            && s.nextBaseline.value >= mark
            && (item in s.dispatch <==> Eligible(items, mark, p, item) && item.rank.value <= s.nextBaseline.value)
            && (Eligible(items, mark, p, item) && item !in s.dispatch ==> |s.dispatch| == Max(0, p.limit))
  {
    var capped := Capped(items, mark, p);
    FreshIs(items, mark, p);
    AboveIs(items, mark);
    FreshMeansRecent(item.time, p);
    ItemsMembers(capped, item);
    assert forall r :: r in capped ==> r in Fresh(items, mark, p);
    if item.rank.Some? {
      var r := Ranked(item, item.rank.value);
      if r in Fresh(items, mark, p) {
        CappedCut(items, mark, p, r);
        assert r in capped ==> item in Items(capped);
        if r !in capped {
          assert |capped| == Max(0, p.limit);
        }
      }
    }
    if item in Items(capped) {
      var r :| r in capped && r.item == item;
      CappedCut(items, mark, p, r);
    }
  }

  // FIRST: the first run sends nothing and adopts a mark no stored rank exceeds.
  lemma {:induction false} FirstRunAdopts(items: seq<Item>, p: Policy)
    ensures var s := Select(items, None, p);
            && s.dispatch == []
            && forall item :: item in items && item.rank.Some? ==> s.nextBaseline.Some? && item.rank.value <= s.nextBaseline.value
  {
    RankedMembers(items);
    HighestIs(RankedItems(items));
    forall item | item in items && item.rank.Some?
      ensures Highest(RankedItems(items)).Some? && item.rank.value <= Highest(RankedItems(items)).value
    {
      assert Ranked(item, item.rank.value) in RankedItems(items);
    }
  }

  lemma {:induction false} HighestIs(ranked: seq<Ranked>)
    ensures forall r :: r in ranked ==> Highest(ranked).Some? && r.rank <= Highest(ranked).value
  {
    if ranked != [] {
      HighestIs(ranked[..|ranked| - 1]);
      assert ranked == ranked[..|ranked| - 1] + [ranked[|ranked| - 1]];
    }
  }

  // MARK: the new watermark is the old one or the rank of one of the items, and the first one is a stored rank; there is
  // none only while nothing has a rank.
  lemma MarkIsARank(items: seq<Item>, baseline: Option<int>, p: Policy)
    ensures var next := Select(items, baseline, p).nextBaseline;
            && (next.Some? && next != baseline ==> exists item :: item in items && item.rank == next)
            && (next.None? ==> baseline.None? && forall item :: item in items ==> item.rank.None?)
  {
    RankedMembers(items);
    if baseline.None? {
      HighestIs(RankedItems(items));
      HighestIsOne(RankedItems(items));
      FirstRunAdopts(items, p);
    } else {
      AboveIs(items, baseline.value);
      FreshIs(items, baseline.value, p);
      LastOf(Above(items, baseline.value));
      LastOf(Capped(items, baseline.value, p));
    }
  }

  // PAST: when no eligible item is held back, the new watermark is at or above every rank of the tick.
  lemma MarkPassesAll(items: seq<Item>, mark: int, p: Policy, item: Item)
    requires DistinctRanks(items) && item in items && item.rank.Some?
    requires forall x :: Eligible(items, mark, p, x) ==> x in Select(items, Some(mark), p).dispatch
    ensures item.rank.value <= NextMark(items, mark, p)
  {
    AboveIs(items, mark);
    if |Capped(items, mark, p)| < |Fresh(items, mark, p)| {
      HeldBackExists(items, mark, p);
    } else if item.rank.value > mark {
      assert Ranked(item, item.rank.value) in Above(items, mark);
    }
  }

  lemma HeldBackExists(items: seq<Item>, mark: int, p: Policy)
    requires DistinctRanks(items) && |Capped(items, mark, p)| < |Fresh(items, mark, p)|
    ensures exists x :: Eligible(items, mark, p, x) && x !in Select(items, Some(mark), p).dispatch
  {
    var recent, capped := Fresh(items, mark, p), Capped(items, mark, p);
    var r := recent[|capped|];
    AboveIs(items, mark);
    FreshIs(items, mark, p);
    FreshDistinct(items, mark, p);
    FreshMeansRecent(r.item.time, p);
    assert r in recent && Eligible(items, mark, p, r.item);
    assert forall q :: q in recent ==> q.item.rank == Some(q.rank);
    PrefixLacksNext(recent, |capped|);
    assert capped == recent[..|capped|];
  }

  lemma PrefixLacksNext(rows: seq<Ranked>, n: nat)
    requires Distinct(rows) && n < |rows| && forall r :: r in rows ==> r.item.rank == Some(r.rank)
    ensures rows[n].item !in Items(rows[..n])
  {
    forall k | 0 <= k < n ensures rows[k].item != rows[n].item {
      assert rows[k] in rows && rows[n] in rows && rows[k].rank != rows[n].rank;
    }
  }

  lemma LastOf(rows: seq<Ranked>)
    ensures rows != [] ==> rows[|rows| - 1] in rows
  {
  }

  lemma {:induction false} HighestIsOne(ranked: seq<Ranked>)
    ensures Highest(ranked).Some? ==> exists r :: r in ranked && r.rank == Highest(ranked).value
  {
    if ranked != [] {
      var front, last := ranked[..|ranked| - 1], ranked[|ranked| - 1];
      HighestIsOne(front);
      assert ranked == front + [last] && last in ranked;
      if Highest(front).Some? && Highest(ranked) == Highest(front) {
        var r :| r in front && r.rank == Highest(front).value;
        assert r in ranked;
      }
    }
  }

  // REST: what is above the mark is sent or counted as suppressed; on the first run everything with a rank is.
  lemma SuppressedAreTheRest(items: seq<Item>, baseline: Option<int>, p: Policy)
    requires DistinctRanks(items)
    ensures var s := Select(items, baseline, p);
            && s.firstRun == baseline.None?
            && |s.dispatch| + s.suppressed == |set r | r in RanksOf(items) && (baseline.Some? ==> r > baseline.value)|
  {
    RankedMembers(items);
    RankedDistinct(items);
    var rows := RankedItems(items);
    if baseline.Some? {
      rows := Above(items, baseline.value);
      AboveIs(items, baseline.value);
      FilterDistinct(RankedItems(items), (r: Ranked) => r.rank > baseline.value);
      SortDistinct(Filter(RankedItems(items), (r: Ranked) => r.rank > baseline.value));
    }
    DistinctRankCount(rows);
    forall x ensures x in (set r | r in rows :: r.rank) <==> x in RanksOf(items) && (baseline.Some? ==> x > baseline.value) {
      if x in RanksOf(items) && (baseline.Some? ==> x > baseline.value) {
        var item :| item in items && item.rank == Some(x);
        assert Ranked(item, x) in rows;
      }
    }
    assert (set r | r in rows :: r.rank) == set r | r in RanksOf(items) && (baseline.Some? ==> r > baseline.value);
  }

  // ---- every run -----------------------------------------------------

  datatype Tick = Tick(items: seq<Item>, policy: Policy)

  // marks[i] is the stored watermark before tick i.
  ghost predicate Run(marks: seq<Option<int>>, ticks: seq<Tick>) {
    && |marks| == |ticks| + 1
    && (forall i :: 0 <= i < |ticks| ==> DistinctRanks(ticks[i].items))
    && forall i :: 0 <= i < |ticks| ==> marks[i + 1] == Select(ticks[i].items, marks[i], ticks[i].policy).nextBaseline
  }

  function Sent(marks: seq<Option<int>>, ticks: seq<Tick>, i: nat): seq<Item>
    requires i < |ticks| && i < |marks|
  {
    Select(ticks[i].items, marks[i], ticks[i].policy).dispatch
  }

  // RISING: once adopted, the watermark never falls and never disappears.
  lemma {:induction false} MarkNeverFalls(marks: seq<Option<int>>, ticks: seq<Tick>, i: nat, j: nat)
    requires Run(marks, ticks) && i <= j < |marks| && marks[i].Some?
    ensures marks[j].Some? && marks[i].value <= marks[j].value
    decreases j - i
  {
    if i < j {
      assert marks[i + 1].value >= marks[i].value;
      MarkNeverFalls(marks, ticks, i + 1, j);
    }
  }

  // ONCE: over any run, what a tick sends lies above every rank sent before, and above the first mark adopted.
  lemma NeverTwice(marks: seq<Option<int>>, ticks: seq<Tick>, i: nat, j: nat, a: Item, b: Item)
    requires Run(marks, ticks) && i < j < |ticks|
    requires a in Sent(marks, ticks, i) && b in Sent(marks, ticks, j)
    ensures a.rank.Some? && b.rank.Some? && a.rank.value < b.rank.value
  {
    FirstRunAdopts(ticks[i].items, ticks[i].policy);
    FirstRunAdopts(ticks[j].items, ticks[j].policy);
    SendsUpToMark(ticks[i].items, marks[i].value, ticks[i].policy, a);
    MarkNeverFalls(marks, ticks, i + 1, j);
    SendsUpToMark(ticks[j].items, marks[j].value, ticks[j].policy, b);
  }

  // HISTORY: what was stored when the first mark was adopted is never sent.
  lemma HistoryIsNeverSent(marks: seq<Option<int>>, ticks: seq<Tick>, i: nat, j: nat, past: Item, sent: Item)
    requires Run(marks, ticks) && i < j < |ticks| && marks[i].None?
    requires past in ticks[i].items && past.rank.Some? && sent in Sent(marks, ticks, j)
    ensures sent.rank.Some? && sent.rank.value > past.rank.value
  {
    FirstRunAdopts(ticks[i].items, ticks[i].policy);
    MarkNeverFalls(marks, ticks, i + 1, j);
    SendsUpToMark(ticks[j].items, marks[j].value, ticks[j].policy, sent);
  }

  // The ranks a tick could still send before this one.
  function Ahead(ranks: set<int>, mark: int, rank: int): set<int> {
    set r | r in ranks && mark < r < rank
  }

  function RanksOf(items: seq<Item>): set<int> {
    set item | item in items && item.rank.Some? :: item.rank.value
  }

  lemma {:induction false} DistinctRankCount(ranked: seq<Ranked>)
    requires Distinct(ranked)
    ensures |set r | r in ranked :: r.rank| == |ranked|
  {
    if ranked != [] {
      var front, last := ranked[..|ranked| - 1], ranked[|ranked| - 1];
      DistinctRankCount(front);
      assert ranked == front + [last];
      var before := set r | r in front :: r.rank;
      assert (set r | r in ranked :: r.rank) == before + {last.rank};
      assert last.rank !in before;
    }
  }

  ghost predicate RanksWithin(t: Tick, ranks: set<int>) {
    RanksOf(t.items) <= ranks
  }

  // The sent ones are distinct ranks below the one held back.
  lemma HeldBackMovesUp(t: Tick, mark: int, item: Item, ranks: set<int>)
    requires DistinctRanks(t.items) && RanksWithin(t, ranks) && Eligible(t.items, mark, t.policy, item)
    requires var s := Select(t.items, Some(mark), t.policy); item !in s.dispatch
    ensures var next := NextMark(t.items, mark, t.policy);
            && next < item.rank.value
            && |Ahead(ranks, next, item.rank.value)| + Max(0, t.policy.limit) <= |Ahead(ranks, mark, item.rank.value)|
  {
    var rank, next, capped := item.rank.value, NextMark(t.items, mark, t.policy), Capped(t.items, mark, t.policy);
    SendsUpToMark(t.items, mark, t.policy, item);
    FreshDistinct(t.items, mark, t.policy);
    DistinctRankCount(capped);
    var sent := set r | r in capped :: r.rank;
    forall r | r in capped ensures r.rank in Ahead(ranks, mark, rank) && r.rank <= next {
      ItemsMembers(capped, r.item);
      SendsUpToMark(t.items, mark, t.policy, r.item);
      FreshIs(t.items, mark, t.policy);
      AboveIs(t.items, mark);
      assert r in Fresh(t.items, mark, t.policy);
      assert r.rank in RanksOf(t.items);
    }
    SubsetCount(sent + Ahead(ranks, next, rank), Ahead(ranks, mark, rank));
    assert sent !! Ahead(ranks, next, rank);
  }

  ghost predicate StaysEligible(marks: seq<Option<int>>, ticks: seq<Tick>, from: nat, item: Item, ranks: set<int>) {
    forall k :: from <= k < |ticks| ==>
      && item in ticks[k].items && RecentEnough(item.time, ticks[k].policy)
      && ticks[k].policy.limit > 0 && RanksWithin(ticks[k], ranks)
  }

  // SERVED: an item above the mark that stays stored and fresh is sent within as many ticks as there are ranks between
  // the mark and it, plus one.
  lemma {:induction false} FreshItemIsSent(marks: seq<Option<int>>, ticks: seq<Tick>, from: nat, item: Item, ranks: set<int>)
    requires Run(marks, ticks) && from <= |ticks| && marks[from].Some?
    requires item.rank.Some? && item.rank.value > marks[from].value
    requires StaysEligible(marks, ticks, from, item, ranks)
    requires |ticks| - from > |Ahead(ranks, marks[from].value, item.rank.value)|
    ensures exists k :: from <= k < |ticks| && item in Sent(marks, ticks, k)
    decreases |ticks| - from
  {
    var mark := marks[from].value;
    if item !in Sent(marks, ticks, from) {
      HeldBackMovesUp(ticks[from], mark, item, ranks);
      FreshItemIsSent(marks, ticks, from + 1, item, ranks);
    }
  }

  // Nothing stored before tick `from` reaches this rank.
  ghost predicate NewAt(marks: seq<Option<int>>, ticks: seq<Tick>, from: nat, rank: int) {
    && (|marks| > 0 && marks[0].Some? ==> marks[0].value < rank)
    && forall i, item :: 0 <= i < from && i < |ticks| && item in ticks[i].items && item.rank.Some? ==> item.rank.value < rank
  }

  lemma {:induction false} MarkStaysBelow(marks: seq<Option<int>>, ticks: seq<Tick>, from: nat, rank: int)
    requires Run(marks, ticks) && from <= |ticks| && NewAt(marks, ticks, from, rank)
    ensures marks[from].Some? ==> marks[from].value < rank
  {
    if from > 0 {
      MarkStaysBelow(marks, ticks, from - 1, rank);
      MarkIsARank(ticks[from - 1].items, marks[from - 1], ticks[from - 1].policy);
      assert marks[from] == Select(ticks[from - 1].items, marks[from - 1], ticks[from - 1].policy).nextBaseline;
    }
  }

  // ARRIVAL: on any run, an item that arrives above every rank stored so far, once a mark is adopted, and stays stored
  // and fresh is sent within as many ticks as there are ranks between the mark and it, plus one.
  lemma ArrivalIsSent(marks: seq<Option<int>>, ticks: seq<Tick>, from: nat, item: Item, ranks: set<int>)
    requires Run(marks, ticks) && from <= |ticks| && marks[from].Some?
    requires item.rank.Some? && NewAt(marks, ticks, from, item.rank.value)
    requires StaysEligible(marks, ticks, from, item, ranks)
    requires |ticks| - from > |Ahead(ranks, marks[from].value, item.rank.value)|
    ensures exists k :: from <= k < |ticks| && item in Sent(marks, ticks, k)
  {
    MarkStaysBelow(marks, ticks, from, item.rank.value);
    FreshItemIsSent(marks, ticks, from, item, ranks);
  }
}
