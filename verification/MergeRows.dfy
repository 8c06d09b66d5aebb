/**
 Folding a polled snapshot into a locally held list (lib/merge-rows.js): live rows the
 snapshot has not reached survive, rows it covers are its own, and polling the same
 snapshot twice changes nothing.
 */
module MergeRows {
  import opened Util
  import opened Sorting

  // key: keyOf; identity: identityOf, None for a null one or when no identityOf is given; rank: rankOf, None when it
  // is not a finite number.
  datatype Row = Row(key: int, identity: Option<int>, rank: Option<int>, unconfirmed: bool, data: int)

  // The comparator: a NaN difference counts as equal.
  predicate Before(a: Row, b: Row) {
    && a.rank.Some? && b.rank.Some?
    && (a.rank.value > b.rank.value || (a.rank.value == b.rank.value && a.unconfirmed && !b.unconfirmed))
  }

  function Keys(rows: seq<Row>): set<int> {
    set row | row in rows :: row.key
  }

  function Identities(rows: seq<Row>): set<int> {
    set row | row in rows && row.identity.Some? :: row.identity.value
  }

  function Ranks(rows: seq<Row>): set<int> {
    set row | row in rows && row.rank.Some? :: row.rank.value
  }

  predicate IsNewest(n: int, ranks: set<int>) {
    n in ranks && forall r :: r in ranks ==> r <= n
  }

  predicate IsOldest(n: int, ranks: set<int>) {
    n in ranks && forall r :: r in ranks ==> r >= n
  }

  // The snapshot holds this row, under its id or as the same transfer.
  predicate Twinned(row: Row, snapshot: seq<Row>) {
    row.key in Keys(snapshot) || (row.identity.Some? && row.identity.value in Identities(snapshot))
  }

  // Rules 2, 2b and 3: not in the snapshot, and not inside the range it fully covers.
  predicate Keeps(snapshot: seq<Row>, row: Row) {
    && !Twinned(row, snapshot)
    && row.rank.Some?
    && ((forall r :: r in Ranks(snapshot) ==> row.rank.value >= r) || (forall r :: r in Ranks(snapshot) ==> row.rank.value <= r))
  }

  function Kept(snapshot: seq<Row>, rows: seq<Row>): seq<Row> {
    Filter(rows, row => Keeps(snapshot, row))
  }

  // cap ? rows.slice(0, cap) : rows.
  function Cut(rows: seq<Row>, cap: nat): seq<Row> {
    if cap > 0 then Take(rows, cap) else rows
  }

  function MergeRows(local: seq<Row>, snapshot: seq<Row>, cap: nat): seq<Row> {
    if snapshot == [] then Cut(local, cap)
    else if Ranks(snapshot) == {} then Cut(snapshot, cap)
    else Cut(Sort(snapshot + Kept(snapshot, local), Before), cap)
  }

  ghost predicate Finite(rows: seq<Row>) {
    forall row :: row in rows ==> row.rank.Some?
  }

  // ---- the order -----------------------------------------------------

  // The comparator on finite ranks, extended to a weak order on every row.
  function RankOr(row: Row): int {
    if row.rank.Some? then row.rank.value else 0
  }

  predicate Total(a: Row, b: Row) {
    RankOr(a) > RankOr(b) || (RankOr(a) == RankOr(b) && a.unconfirmed && !b.unconfirmed)
  }

  lemma TotalIsWeakOrder()
    ensures WeakOrder(Total)
  {
  }

  lemma {:induction false} InsertTotal(x: Row, s: seq<Row>)
    requires x.rank.Some? && Finite(s)
    ensures Insert(x, s, Before) == Insert(x, s, Total)
  {
    if s != [] && Before(s[0], x) {
      InsertTotal(x, s[1..]);
    }
  }

  lemma {:induction false} SortTotal(s: seq<Row>)
    requires Finite(s)
    ensures Sort(s, Before) == Sort(s, Total)
  {
    if s != [] {
      SortTotal(s[1..]);
      SortMembers(s[1..], Total);
      InsertTotal(s[0], Sort(s[1..], Total));
    }
  }

  // ---- the rows kept -------------------------------------------------

  lemma KeptMembers(snapshot: seq<Row>, rows: seq<Row>)
    ensures forall row :: row in Kept(snapshot, rows) <==> row in rows && Keeps(snapshot, row)
    ensures Finite(Kept(snapshot, rows))
  {
    FilterMembers(rows, row => Keeps(snapshot, row));
  }

  ghost function Uncut(local: seq<Row>, snapshot: seq<Row>): seq<Row> {
    Sort(snapshot + Kept(snapshot, local), Before)
  }

  lemma UncutIs(local: seq<Row>, snapshot: seq<Row>)
    requires Finite(snapshot)
    ensures Finite(snapshot + Kept(snapshot, local))
    ensures Uncut(local, snapshot) == Merge(Sort(snapshot, Total), Sort(Kept(snapshot, local), Total), Total)
    ensures Uncut(local, snapshot) == Sort(snapshot + Kept(snapshot, local), Total)
  {
    KeptMembers(snapshot, local);
    SortTotal(snapshot + Kept(snapshot, local));
    TotalIsWeakOrder();
    SortOfConcat(snapshot, Kept(snapshot, local), Total);
  }

  lemma FiniteRanks(snapshot: seq<Row>)
    requires Finite(snapshot) && snapshot != []
    ensures Ranks(snapshot) != {}
  {
    assert snapshot[0].rank.value in Ranks(snapshot);
  }

  // The cap is full of rows that sort no later than this one.
  ghost predicate CutOff(merged: seq<Row>, cap: nat, row: Row) {
    cap > 0 && |merged| == cap && forall m :: m in merged ==> !Before(row, m)
  }

  lemma UncutMembers(local: seq<Row>, snapshot: seq<Row>, row: Row)
    ensures row in Uncut(local, snapshot) <==> row in snapshot || (row in local && Keeps(snapshot, row))
  {
    KeptMembers(snapshot, local);
    SortMembers(snapshot + Kept(snapshot, local), Before);
  }

  lemma CutLeavesLast(all: seq<Row>, cap: nat, row: Row)
    requires Sorted(all, Before) && row in all
    ensures row in Cut(all, cap) || CutOff(Cut(all, cap), cap, row)
  {
    var k :| 0 <= k < |all| && all[k] == row;
    var cut := Cut(all, cap);
    assert forall i :: 0 <= i < |cut| ==> cut[i] == all[i];
    if k >= |cut| {
      forall m | m in cut ensures !Before(row, m) {
        var i :| 0 <= i < |cut| && cut[i] == m;
      }
    } else {
      assert cut[k] == row;
    }
  }

  lemma KeptOrCut(local: seq<Row>, snapshot: seq<Row>, cap: nat, row: Row)
    requires Finite(snapshot) && snapshot != []
    ensures
      var merged := MergeRows(local, snapshot, cap);
      if row in snapshot || (row in local && Keeps(snapshot, row)) then row in merged || CutOff(merged, cap, row) else row !in merged
  {
    FiniteRanks(snapshot);
    UncutMembers(local, snapshot, row);
    var all := Uncut(local, snapshot);
    assert row in Cut(all, cap) ==> row in all;
    if row in all {
      UncutIsSorted(local, snapshot);
      CutLeavesLast(all, cap, row);
    }
  }

  // The same row under its id, or the same transfer.
  predicate Twins(row: Row, twin: Row) {
    twin.key == row.key || (row.identity.Some? && twin.identity == row.identity)
  }

  lemma TwinnedIs(row: Row, snapshot: seq<Row>)
    ensures Twinned(row, snapshot) <==> exists twin :: twin in snapshot && Twins(row, twin)
  {
    if twin :| twin in snapshot && Twins(row, twin) {
      assert twin.key in Keys(snapshot);
    }
  }

  // MEMBERS: the merged list holds the snapshot's rows and, of the local ones, exactly those that share no name with one
  // of these and lie at or above the newest of their ranks, or at or below the oldest; only a cap full of rows no later
  // leaves one of all these out.
  lemma MergedMembers(local: seq<Row>, snapshot: seq<Row>, cap: nat, row: Row, newest: int, oldest: int)
    requires Finite(snapshot) && snapshot != []
    requires IsNewest(newest, Ranks(snapshot)) && IsOldest(oldest, Ranks(snapshot))
    ensures
      var merged := MergeRows(local, snapshot, cap);
      var outside := row.rank.Some? && (row.rank.value >= newest || row.rank.value <= oldest);
      if row in snapshot || (row in local && outside && forall twin :: twin in snapshot ==> !Twins(row, twin)) then
        row in merged || CutOff(merged, cap, row)
      else row !in merged
  {
    TwinnedIs(row, snapshot);
    KeptOrCut(local, snapshot, cap, row);
  }

  lemma UncutIsSorted(local: seq<Row>, snapshot: seq<Row>)
    requires Finite(snapshot)
    ensures Finite(Uncut(local, snapshot)) && Sorted(Uncut(local, snapshot), Before)
  {
    UncutIs(local, snapshot);
    TotalIsWeakOrder();
    SortSorts(snapshot + Kept(snapshot, local), Total);
    SortMembers(snapshot + Kept(snapshot, local), Total);
    var all := Uncut(local, snapshot);
    assert forall i :: 0 <= i < |all| ==> all[i] in all;
    forall i, j | 0 <= i < j < |all| ensures !Before(all[j], all[i]) {
      assert !Total(all[j], all[i]);
    }
  }

  // SORTED: newest first, unconfirmed rows on top of their rank.
  lemma MergedIsSorted(local: seq<Row>, snapshot: seq<Row>, cap: nat)
    requires Finite(snapshot) && snapshot != []
    ensures Finite(MergeRows(local, snapshot, cap))
    ensures var merged := MergeRows(local, snapshot, cap);
            forall i, j :: 0 <= i < j < |merged| ==>
              && merged[i].rank.value >= merged[j].rank.value
              && (merged[i].rank == merged[j].rank && merged[j].unconfirmed ==> merged[i].unconfirmed)
    ensures cap > 0 ==> |MergeRows(local, snapshot, cap)| <= cap
  {
    FiniteRanks(snapshot);
    UncutIsSorted(local, snapshot);
    var all, merged := Uncut(local, snapshot), MergeRows(local, snapshot, cap);
    assert forall i :: 0 <= i < |merged| ==> merged[i] == all[i];
    assert forall row :: row in merged ==> row in all;
  }

  // ---- no duplicates -------------------------------------------------

  function Count(rows: seq<Row>, p: Row -> bool): nat {
    if rows == [] then 0 else (if p(rows[0]) then 1 else 0) + Count(rows[1..], p)
  }

  lemma {:induction false} CountConcat(a: seq<Row>, b: seq<Row>, p: Row -> bool)
    ensures Count(a + b, p) == Count(a, p) + Count(b, p)
  {
    if a == [] {
      assert a + b == b;
    } else {
      assert (a + b)[1..] == a[1..] + b;
      CountConcat(a[1..], b, p);
    }
  }

  lemma {:induction false} CountInsert(x: Row, s: seq<Row>, p: Row -> bool)
    ensures Count(Insert(x, s, Before), p) == Count(s, p) + if p(x) then 1 else 0
  {
    if s != [] && Before(s[0], x) {
      CountInsert(x, s[1..], p);
      assert ([s[0]] + Insert(x, s[1..], Before))[1..] == Insert(x, s[1..], Before);
    } else {
      assert ([x] + s)[1..] == s;
    }
  }

  lemma {:induction false} CountSort(s: seq<Row>, p: Row -> bool)
    ensures Count(Sort(s, Before), p) == Count(s, p)
  {
    if s != [] {
      CountSort(s[1..], p);
      CountInsert(s[0], Sort(s[1..], Before), p);
    }
  }

  lemma {:induction false} CountNone(rows: seq<Row>, p: Row -> bool)
    requires forall row :: row in rows ==> !p(row)
    ensures Count(rows, p) == 0
  {
    if rows != [] {
      CountNone(rows[1..], p);
    }
  }

  ghost predicate NamedBySnapshot(snapshot: seq<Row>, p: Row -> bool) {
    forall row :: p(row) ==> exists twin :: twin in snapshot && Twins(row, twin)
  }

  // ONCE: of the rows that share a snapshot row's id or identity, the merged list holds the snapshot's own and no
  // other: as many as the snapshot does, fewer only where the cap cuts.
  lemma SnapshotRowsAreNotRepeated(local: seq<Row>, snapshot: seq<Row>, cap: nat, p: Row -> bool)
    requires Finite(snapshot) && snapshot != [] && NamedBySnapshot(snapshot, p)
    ensures Count(MergeRows(local, snapshot, cap), p) <= Count(snapshot, p)
    ensures Count(MergeRows(local, snapshot, 0), p) == Count(snapshot, p)
  {
    FiniteRanks(snapshot);
    UncutCount(local, snapshot, p);
    CutCount(Uncut(local, snapshot), cap, p);
  }

  lemma UncutCount(local: seq<Row>, snapshot: seq<Row>, p: Row -> bool)
    requires NamedBySnapshot(snapshot, p)
    ensures Count(Uncut(local, snapshot), p) == Count(snapshot, p)
  {
    KeptMembers(snapshot, local);
    forall row | row in Kept(snapshot, local) ensures !p(row) {
      TwinnedIs(row, snapshot);
    }
    CountSort(snapshot + Kept(snapshot, local), p);
    CountConcat(snapshot, Kept(snapshot, local), p);
    CountNone(Kept(snapshot, local), p);
  }

  lemma CutCount(rows: seq<Row>, cap: nat, p: Row -> bool)
    ensures Count(Cut(rows, cap), p) <= Count(rows, p)
  {
    if cap > 0 && |rows| > cap {
      CountConcat(rows[..cap], rows[cap..], p);
      assert rows == rows[..cap] + rows[cap..];
    }
  }

  // ---- polling twice -------------------------------------------------

  // How many rows of b are among the first c of the merge.
  function FromRight(a: seq<Row>, b: seq<Row>, c: nat): (n: nat)
    ensures n <= |b|
    decreases c
  {
    if c == 0 || b == [] then 0
    else if a == [] then Min(c, |b|)
    else if Total(b[0], a[0]) then 1 + FromRight(a, b[1..], c - 1)
    else FromRight(a[1..], b, c - 1)
  }

  lemma FilterCons(x: Row, rows: seq<Row>, keep: Row -> bool)
    ensures Filter([x] + rows, keep) == (if keep(x) then [x] else []) + Filter(rows, keep)
  {
    assert ([x] + rows)[1..] == rows;
  }

  lemma {:induction false} FilterAll(rows: seq<Row>, keep: Row -> bool)
    requires forall row :: row in rows ==> keep(row)
    ensures Filter(rows, keep) == rows
  {
    if rows != [] {
      FilterAll(rows[1..], keep);
    }
  }

  lemma {:induction false} FilterNone(rows: seq<Row>, keep: Row -> bool)
    requires forall row :: row in rows ==> !keep(row)
    ensures Filter(rows, keep) == []
  {
    if rows != [] {
      FilterNone(rows[1..], keep);
    }
  }

  lemma TakeCons(x: Row, rows: seq<Row>, c: nat)
    requires c > 0
    ensures Take([x] + rows, c) == [x] + Take(rows, c - 1)
  {
  }

  lemma FilterTakeCons(x: Row, rows: seq<Row>, c: nat, keep: Row -> bool)
    requires c > 0
    ensures Filter(Take([x] + rows, c), keep) == (if keep(x) then [x] else []) + Filter(Take(rows, c - 1), keep)
  {
    TakeCons(x, rows, c);
    FilterCons(x, Take(rows, c - 1), keep);
  }

  lemma FilterOfTakeRight(a: seq<Row>, b: seq<Row>, c: nat, keep: Row -> bool)
    requires c > 0 && a != [] && b != [] && Total(b[0], a[0]) && keep(b[0])
    requires Filter(Take(Merge(a, b[1..], Total), c - 1), keep) == b[1..][..FromRight(a, b[1..], c - 1)]
    ensures Filter(Take(Merge(a, b, Total), c), keep) == b[..FromRight(a, b, c)]
  {
    var rest, n := Merge(a, b[1..], Total), FromRight(a, b[1..], c - 1);
    FilterTakeCons(b[0], rest, c, keep);
    assert b[..1 + n] == [b[0]] + b[1..][..n];
  }

  // The kept rows among the first c of a merge are the first few of the kept rows.
  lemma {:induction false} FilterOfTake(a: seq<Row>, b: seq<Row>, c: nat, keep: Row -> bool)
    requires (forall row :: row in a ==> !keep(row)) && (forall row :: row in b ==> keep(row))
    ensures Filter(Take(Merge(a, b, Total), c), keep) == b[..FromRight(a, b, c)]
    decreases c
  {
    if c == 0 {
      assert Take(Merge(a, b, Total), c) == [];
    } else if b == [] {
      FilterNone(Take(a, c), keep);
    } else if a == [] {
      FilterAll(Take(b, c), keep);
    } else if Total(b[0], a[0]) {
      FilterOfTake(a, b[1..], c - 1, keep);
      FilterOfTakeRight(a, b, c, keep);
    } else {
      FilterOfTake(a[1..], b, c - 1, keep);
      FilterTakeCons(a[0], Merge(a[1..], b, Total), c, keep);
    }
  }

  // Those few are all the merge's first c rows need.
  lemma {:induction false} TakeNeedsFew(a: seq<Row>, b: seq<Row>, c: nat)
    ensures Take(Merge(a, b[..FromRight(a, b, c)], Total), c) == Take(Merge(a, b, Total), c)
    decreases c
  {
    var few := b[..FromRight(a, b, c)];
    if c == 0 {
    } else if b == [] || a == [] {
    } else if Total(b[0], a[0]) {
      TakeNeedsFew(a, b[1..], c - 1);
      assert few[1..] == b[1..][..FromRight(a, b[1..], c - 1)];
      TakeCons(b[0], Merge(a, b[1..], Total), c);
      TakeCons(b[0], Merge(a, few[1..], Total), c);
    } else {
      TakeNeedsFew(a[1..], b, c - 1);
      TakeCons(a[0], Merge(a[1..], b, Total), c);
      TakeCons(a[0], Merge(a[1..], few, Total), c);
    }
  }

  lemma MergedAs(local: seq<Row>, snapshot: seq<Row>, cap: nat)
    requires Finite(snapshot) && snapshot != []
    ensures MergeRows(local, snapshot, cap) == Cut(Merge(Sort(snapshot, Total), Sort(Kept(snapshot, local), Total), Total), cap)
  {
    FiniteRanks(snapshot);
    UncutIs(local, snapshot);
  }

  lemma SortKeeps(rows: seq<Row>)
    ensures Sorted(Sort(rows, Total), Total) && forall row :: row in Sort(rows, Total) <==> row in rows
  {
    TotalIsWeakOrder();
    SortSorts(rows, Total);
    SortMembers(rows, Total);
  }

  lemma PrefixIsSorted(few: seq<Row>, rows: seq<Row>)
    requires few <= rows && Sorted(rows, Total)
    ensures Sort(few, Total) == few
  {
    TotalIsWeakOrder();
    SortedIsFixed(few, Total);
  }

  // IDEMPOTENT: polling the same snapshot again changes nothing, with or without a cap.
  lemma MergeTwice(local: seq<Row>, snapshot: seq<Row>, cap: nat)
    requires Finite(snapshot)
    ensures MergeRows(MergeRows(local, snapshot, cap), snapshot, cap) == MergeRows(local, snapshot, cap)
  {
    if snapshot != [] {
      var once := MergeRows(local, snapshot, cap);
      var a, b := Sort(snapshot, Total), Sort(Kept(snapshot, local), Total);
      MergedAs(local, snapshot, cap);
      MergedAs(once, snapshot, cap);
      SortKeeps(snapshot);
      SortKeeps(Kept(snapshot, local));
      KeptMembers(snapshot, local);
      SnapshotIsNotKept(snapshot);
      MergeKeepsFew(a, b, cap, row => Keeps(snapshot, row));
      PrefixIsSorted(Kept(snapshot, once), b);
    }
  }

  // The kept rows of a merge cut at the cap are the first few of b, and b's others made no difference.
  lemma MergeKeepsFew(a: seq<Row>, b: seq<Row>, cap: nat, keep: Row -> bool)
    requires (forall row :: row in a ==> !keep(row)) && (forall row :: row in b ==> keep(row))
    ensures var few := Filter(Cut(Merge(a, b, Total), cap), keep);
            few <= b && Cut(Merge(a, few, Total), cap) == Cut(Merge(a, b, Total), cap)
  {
    var c := if cap == 0 then |Merge(a, b, Total)| else cap;
    FilterOfTake(a, b, c, keep);
    TakeNeedsFew(a, b, c);
    MergeLength(a, b);
    MergeLength(a, b[..FromRight(a, b, c)]);
  }

  lemma {:induction false} MergeLength(a: seq<Row>, b: seq<Row>)
    ensures |Merge(a, b, Total)| == |a| + |b|
    decreases |a| + |b|
  {
    if a != [] && b != [] {
      if Total(b[0], a[0]) {
        MergeLength(a, b[1..]);
      } else {
        MergeLength(a[1..], b);
      }
    }
  }

  lemma SnapshotIsNotKept(snapshot: seq<Row>)
    ensures forall row :: row in snapshot ==> !Keeps(snapshot, row)
  {
    forall row | row in snapshot ensures !Keeps(snapshot, row) {
      assert row.key in Keys(snapshot);
    }
  }

  // ---- live rows -----------------------------------------------------

  // Not below anything the snapshot has reached.
  predicate Live(row: Row, snapshot: seq<Row>) {
    row.rank.Some? && forall r :: r in Ranks(snapshot) ==> row.rank.value >= r
  }

  // LIVE: a local row at or above the snapshot's newest rank stays in view, unless the snapshot has its twin (which is
  // then in view in its place) or the cap is full of rows above it.
  lemma LiveRowStays(local: seq<Row>, snapshot: seq<Row>, cap: nat, row: Row)
    requires Finite(snapshot) && snapshot != [] && row in local && Live(row, snapshot)
    ensures
      var merged := MergeRows(local, snapshot, cap);
      if Twinned(row, snapshot) then exists twin :: twin in snapshot && Twins(row, twin) && (twin in merged || CutOff(merged, cap, twin))
      else row in merged || CutOff(merged, cap, row)
  {
    if Twinned(row, snapshot) {
      TwinnedIs(row, snapshot);
      var twin :| twin in snapshot && Twins(row, twin);
      KeptOrCut(local, snapshot, cap, twin);
    } else {
      assert Keeps(snapshot, row);
      KeptOrCut(local, snapshot, cap, row);
    }
  }

  // OLDER: a local row at or below the snapshot's oldest rank, which the page shows below it, stays in view unless the
  // snapshot shares a name with it or the cap is full of rows above it.
  lemma OlderRowStays(local: seq<Row>, snapshot: seq<Row>, cap: nat, row: Row)
    requires Finite(snapshot) && snapshot != [] && row in local && row.rank.Some?
    requires forall s :: s in snapshot ==> row.rank.value <= s.rank.value && !Twins(row, s)
    ensures var merged := MergeRows(local, snapshot, cap);
            row in merged || (cap > 0 && |merged| == cap && forall m :: m in merged && m.rank.Some? ==> m.rank.value >= row.rank.value)
  {
    TwinnedIs(row, snapshot);
    KeptOrCut(local, snapshot, cap, row);
  }

  datatype Poll = Poll(snapshot: seq<Row>, cap: nat)

  // The list after some polls.
  ghost function Polled(local: seq<Row>, polls: seq<Poll>): seq<Row> {
    if polls == [] then local
    else
      var last := polls[|polls| - 1];
      MergeRows(Polled(local, polls[..|polls| - 1]), last.snapshot, last.cap)
  }

  // The rows that may stand for a row: itself and what the polls brought.
  ghost predicate Brought(row: Row, polls: seq<Poll>, v: Row) {
    v == row || exists i :: 0 <= i < |polls| && v in polls[i].snapshot
  }

  // A name is used for one transfer: whatever shares one with the row, or with a row that does, is this row's twin,
  // in its block.
  ghost predicate OneTransfer(row: Row, polls: seq<Poll>) {
    forall i, v, twin :: 0 <= i < |polls| && Brought(row, polls, v) && Twins(row, v) && twin in polls[i].snapshot && Twins(v, twin) ==>
      Twins(row, twin) && twin.rank == row.rank
  }

  // In view: the row, or a twin of it, at its rank.
  ghost predicate Visible(row: Row, polls: seq<Poll>, list: seq<Row>) {
    exists v :: v in list && StandsFor(row, polls, v)
  }

  ghost predicate StandsFor(row: Row, polls: seq<Poll>, v: Row) {
    Brought(row, polls, v) && Twins(row, v) && v.rank == row.rank
  }

  // The last poll left the row, or its twin, out for the cap: the list is full, of rows that sort no later when they
  // come from a merge, of the first ones held when the poll was empty.
  ghost predicate CutByLast(row: Row, polls: seq<Poll>, before: seq<Row>, list: seq<Row>)
    requires polls != []
  {
    var last := polls[|polls| - 1];
    exists v :: StandsFor(row, polls, v) && v !in list
      && if last.snapshot == [] then v in before && 0 < last.cap < |before| && list == before[..last.cap] else CutOff(list, last.cap, v)
  }

  ghost predicate CutBy(row: Row, local: seq<Row>, polls: seq<Poll>, n: nat)
    requires 0 < n <= |polls|
  {
    CutByLast(row, polls[..n], Polled(local, polls[..n - 1]), Polled(local, polls[..n]))
  }

  lemma PollKeepsInView(list: seq<Row>, polls: seq<Poll>, row: Row)
    requires polls != [] && OneTransfer(row, polls)
    requires var last := polls[|polls| - 1]; Finite(last.snapshot) && Live(row, last.snapshot)
    requires Visible(row, polls[..|polls| - 1], list)
    ensures
      var last := polls[|polls| - 1];
      var next := MergeRows(list, last.snapshot, last.cap);
      Visible(row, polls, next) || CutByLast(row, polls, list, next)
  {
    var last := polls[|polls| - 1];
    var next := MergeRows(list, last.snapshot, last.cap);
    var v :| v in list && StandsFor(row, polls[..|polls| - 1], v);
    assert StandsFor(row, polls, v);
    if last.snapshot != [] {
      LiveRowStays(list, last.snapshot, last.cap, v);
      if Twinned(v, last.snapshot) {
        var twin :| twin in last.snapshot && Twins(v, twin) && (twin in next || CutOff(next, last.cap, twin));
        assert StandsFor(row, polls, twin);
      }
    }
  }

  // POLLS: through any polls that do not pass it, with any caps, a live row or its twin stays in view at its rank,
  // until a poll cuts it with the list at the cap.
  lemma {:induction false} LiveRowSurvivesPolls(local: seq<Row>, polls: seq<Poll>, row: Row)
    requires row in local && row.rank.Some? && OneTransfer(row, polls)
    requires forall i :: 0 <= i < |polls| ==> Finite(polls[i].snapshot) && Live(row, polls[i].snapshot)
    ensures Visible(row, polls, Polled(local, polls)) || exists n :: 0 < n <= |polls| && CutBy(row, local, polls, n)
    decreases |polls|
  {
    if polls == [] {
      assert StandsFor(row, polls, row);
    } else {
      var front := polls[..|polls| - 1];
      FewerPolls(row, polls);
      LiveRowSurvivesPolls(local, front, row);
      if Visible(row, front, Polled(local, front)) {
        PollKeepsInView(Polled(local, front), polls, row);
        assert polls[..|polls|] == polls;
        assert CutByLast(row, polls, Polled(local, front), Polled(local, polls)) ==> CutBy(row, local, polls, |polls|);
      } else {
        var n :| 0 < n <= |front| && CutBy(row, local, front, n);
        assert polls[..n] == front[..n] && polls[..n - 1] == front[..n - 1];
        assert CutBy(row, local, polls, n);
      }
    }
  }

  lemma FewerPolls(row: Row, polls: seq<Poll>)
    requires polls != [] && OneTransfer(row, polls)
    ensures OneTransfer(row, polls[..|polls| - 1])
  {
    var front := polls[..|polls| - 1];
    forall i, v, twin | 0 <= i < |front| && Brought(row, front, v) && Twins(row, v) && twin in front[i].snapshot && Twins(v, twin)
      ensures Twins(row, twin) && twin.rank == row.rank
    {
      assert Brought(row, polls, v);
      assert twin in polls[i].snapshot;
    }
  }

  // Without caps nothing is ever cut.
  lemma NothingCutsWithoutCap(row: Row, local: seq<Row>, polls: seq<Poll>, n: nat)
    requires 0 < n <= |polls| && polls[n - 1].cap == 0
    ensures !CutBy(row, local, polls, n)
  {
    assert polls[..n][n - 1] == polls[n - 1];
  }

  // GONE: a local row inside the covered range that the snapshot does not hold is dropped.
  lemma CoveredRowIsDropped(local: seq<Row>, snapshot: seq<Row>, cap: nat, row: Row, newest: int, oldest: int)
    requires Finite(snapshot) && snapshot != [] && row !in snapshot
    requires IsNewest(newest, Ranks(snapshot)) && IsOldest(oldest, Ranks(snapshot))
    requires row.rank.Some? && oldest < row.rank.value < newest
    ensures row !in MergeRows(local, snapshot, cap)
  {
    KeptOrCut(local, snapshot, cap, row);
  }
}
