/** Gap detection over the blocks table (getBlockGaps and getEdgeGaps in db.js). */
module BlockGaps {
  // The table is the ascending list of its primary keys. A windowed scan first snaps its bounds outward to stored rows,
  // then reads the holes between consecutive rows of the window.

  import opened Util

  datatype Gap = Gap(start: int, end: int) {
    function Size(): int {
      end - start + 1
    }
  }

  datatype Edge = Prefix(gap: Gap) | Suffix(gap: Gap)

  ghost predicate Ascending(rows: seq<nat>) {
    forall i, j :: 0 <= i < j < |rows| ==> rows[i] < rows[j]
  }

  // SELECT MAX(number) WHERE number < n, and MIN(number) WHERE number > n.
  function MaxBelow(rows: seq<nat>, n: nat): Option<nat> {
    if rows == [] then None
    else if rows[|rows| - 1] < n then Some(rows[|rows| - 1])
    else MaxBelow(rows[..|rows| - 1], n)
  }

  function MinAbove(rows: seq<nat>, n: nat): Option<nat> {
    if rows == [] then None else if rows[0] > n then Some(rows[0]) else MinAbove(rows[1..], n)
  }

  // The snapped bounds: the next stored row outside, where there is one.
  function SnapDown(rows: seq<nat>, since: Option<nat>): Option<nat> {
    if since.None? || MaxBelow(rows, since.value).None? then since else MaxBelow(rows, since.value)
  }

  function SnapUp(rows: seq<nat>, until: Option<nat>): Option<nat> {
    if until.None? || MinAbove(rows, until.value).None? then until else MinAbove(rows, until.value)
  }

  predicate Within(n: nat, since: Option<nat>, until: Option<nat>) {
    (since.Some? ==> n >= since.value) && (until.Some? ==> n <= until.value)
  }

  // The rows of the window.
  function Between(rows: seq<nat>, since: Option<nat>, until: Option<nat>): seq<nat> {
    if rows == [] then []
    else (if Within(rows[0], since, until) then [rows[0]] else []) + Between(rows[1..], since, until)
  }

  // LEAD(number) OVER (ORDER BY number), the pairs with a hole between them, ORDER BY number DESC.
  function Lead(rows: seq<nat>): seq<Gap>
  {
    if |rows| < 2 then []
    else Lead(rows[1..]) + (if rows[1] > rows[0] + 1 then [Gap(rows[0] + 1, rows[1] - 1)] else [])
  }

  function AllInWindow(rows: seq<nat>, since: Option<nat>, until: Option<nat>): seq<Gap> {
    Lead(Between(rows, SnapDown(rows, since), SnapUp(rows, until)))
  }

  function GetBlockGaps(rows: seq<nat>, limit: nat, since: Option<nat>, until: Option<nat>): seq<Gap> {
    Take(AllInWindow(rows, since, until), limit)
  }

  function GetEdgeGaps(rows: seq<nat>, oldestClaimed: Option<nat>, latestClaimed: Option<nat>): seq<Edge> {
    if rows == [] then []
    else
      var lo, hi := rows[0], rows[|rows| - 1];
      (if oldestClaimed.Some? && oldestClaimed.value > 0 && lo > oldestClaimed.value
       then [Prefix(Gap(oldestClaimed.value, lo - 1))] else [])
      + (if latestClaimed.Some? && hi < latestClaimed.value then [Suffix(Gap(hi + 1, latestClaimed.value))] else [])
  }

  // ---- what a hole is ------------------------------------------------

  // A maximal run of missing heights between two stored ones.
  ghost predicate Hole(rows: seq<nat>, g: Gap) {
    && g.start <= g.end && g.start > 0
    && g.start - 1 in rows && g.end + 1 in rows
    && forall h :: g.start <= h <= g.end ==> h !in rows
  }

  // The window reaches the hole, or a row beside it.
  ghost predicate Touches(g: Gap, since: Option<nat>, until: Option<nat>) {
    (since.Some? ==> g.end + 1 >= since.value) && (until.Some? ==> g.start <= until.value + 1)
  }

  ghost predicate Meets(g: Gap, since: Option<nat>, until: Option<nat>) {
    exists h: nat :: g.start <= h <= g.end && Within(h, since, until)
  }

  // ---- the bounds ----------------------------------------------------

  lemma {:induction false} MaxBelowIs(rows: seq<nat>, n: nat)
    requires Ascending(rows)
    ensures match MaxBelow(rows, n)
            case None => forall r :: r in rows ==> r >= n
            case Some(m) => m in rows && m < n && forall r :: r in rows && r < n ==> r <= m
  {
    if rows != [] && rows[|rows| - 1] >= n {
      var front := rows[..|rows| - 1];
      MaxBelowIs(front, n);
      assert rows == front + [rows[|rows| - 1]];
    }
  }

  lemma {:induction false} MinAboveIs(rows: seq<nat>, n: nat)
    requires Ascending(rows)
    ensures match MinAbove(rows, n)
            case None => forall r :: r in rows ==> r <= n
            case Some(m) => m in rows && m > n && forall r :: r in rows && r > n ==> r >= m
  {
    if rows != [] && rows[0] <= n {
      MinAboveIs(rows[1..], n);
      assert rows == [rows[0]] + rows[1..];
    }
  }

  lemma TailIsAbove(rows: seq<nat>)
    requires Ascending(rows) && rows != []
    ensures Ascending(rows[1..]) && rows == [rows[0]] + rows[1..]
    ensures forall r :: r in rows[1..] ==> r > rows[0] && r >= rows[1..][0]
  {
  }

  lemma {:induction false} BetweenIs(rows: seq<nat>, since: Option<nat>, until: Option<nat>)
    requires Ascending(rows)
    ensures Ascending(Between(rows, since, until))
    ensures forall r :: r in Between(rows, since, until) <==> r in rows && Within(r, since, until)
  {
    if rows != [] {
      TailIsAbove(rows);
      BetweenIs(rows[1..], since, until);
      PushFront(rows[0], Between(rows[1..], since, until));
    }
  }

  lemma PushFront(x: nat, rest: seq<nat>)
    requires Ascending(rest) && forall r :: r in rest ==> r > x
    ensures Ascending([x] + rest)
  {
    assert forall i :: 0 <= i < |rest| ==> rest[i] in rest;
  }

  // ---- LEAD ----------------------------------------------------------

  lemma HoleBeyondFirst(rows: seq<nat>, g: Gap)
    requires Ascending(rows) && |rows| > 1
    ensures Hole(rows, g) <==> Hole(rows[1..], g) || (rows[1] > rows[0] + 1 && g == Gap(rows[0] + 1, rows[1] - 1))
  {
    var tail := rows[1..];
    TailIsAbove(rows);
    assert forall h: int :: h in rows <==> h == rows[0] || h in tail;
    assert rows[1] == tail[0] && tail[0] in tail;
    if Hole(rows, g) {
      if g.start - 1 == rows[0] {
        assert g.end + 1 in tail;
        assert tail[0] >= g.start;
        assert tail[0] == g.end + 1;
      } else {
        assert Hole(tail, g);
      }
    }
    if Hole(tail, g) {
      assert Hole(rows, g);
    }
    if rows[1] > rows[0] + 1 && g == Gap(rows[0] + 1, rows[1] - 1) {
      assert Hole(rows, g);
    }
  }

  // The pairs of consecutive rows are exactly the holes, newest first.
  lemma {:induction false} LeadIsHoles(rows: seq<nat>)
    requires Ascending(rows)
    ensures forall g: Gap :: g in Lead(rows) <==> Hole(rows, g)
    ensures forall i, j :: 0 <= i < j < |Lead(rows)| ==> Lead(rows)[i].start > Lead(rows)[j].end
  {
    if |rows| < 2 {
      assert forall r, t :: r in rows && t in rows ==> r == t;
    } else {
      LeadIsHoles(rows[1..]);
      forall g: Gap ensures g in Lead(rows) <==> Hole(rows, g) {
        HoleBeyondFirst(rows, g);
      }
      forall i | 0 <= i < |Lead(rows[1..])| ensures Lead(rows[1..])[i].start > rows[1] {
        var g := Lead(rows[1..])[i];
        assert Hole(rows[1..], g);
        var k :| 0 <= k < |rows[1..]| && rows[1..][k] == g.start - 1;
        assert rows[k + 1] == g.start - 1;
      }
    }
  }

  // ---- windows -------------------------------------------------------

  lemma SnappedLow(rows: seq<nat>, since: Option<nat>, g: Gap)
    requires Ascending(rows) && Hole(rows, g)
    ensures Within(g.start - 1, SnapDown(rows, since), None) <==> (since.Some? ==> g.end + 1 >= since.value)
  {
    if since.Some? {
      MaxBelowIs(rows, since.value);
    }
  }

  lemma SnappedHigh(rows: seq<nat>, until: Option<nat>, g: Gap)
    requires Ascending(rows) && Hole(rows, g)
    ensures Within(g.end + 1, None, SnapUp(rows, until)) <==> (until.Some? ==> g.start <= until.value + 1)
  {
    if until.Some? {
      MinAboveIs(rows, until.value);
    }
  }

  // A hole of the rows between two bounds is a hole of the table.
  lemma HolesOfInterval(rows: seq<nat>, since: Option<nat>, until: Option<nat>, g: Gap)
    requires Ascending(rows)
    ensures Hole(Between(rows, since, until), g)
            <==> Hole(rows, g) && Within(g.start - 1, since, until) && Within(g.end + 1, since, until)
  {
    var some := Between(rows, since, until);
    BetweenIs(rows, since, until);
    if Hole(some, g) {
      forall h | g.start <= h <= g.end ensures h !in rows {
        assert Within(h, since, until);
      }
    }
  }

  // WINDOW: without a row limit a scan returns exactly the real, maximal holes its window reaches.
  lemma WindowIsExact(rows: seq<nat>, since: Option<nat>, until: Option<nat>, g: Gap)
    requires Ascending(rows)
    ensures g in AllInWindow(rows, since, until) <==> Hole(rows, g) && Touches(g, since, until)
  {
    var lo, hi := SnapDown(rows, since), SnapUp(rows, until);
    BetweenIs(rows, lo, hi);
    LeadIsHoles(Between(rows, lo, hi));
    HolesOfInterval(rows, lo, hi, g);
    if Hole(rows, g) {
      SnappedLow(rows, since, g);
      SnappedHigh(rows, until, g);
      assert Within(g.start - 1, lo, hi) && Within(g.end + 1, lo, hi)
             <==> Within(g.start - 1, lo, None) && Within(g.end + 1, None, hi);
    }
  }

  // With a row limit: the newest of them, newest first, none twice.
  lemma LimitKeepsNewest(rows: seq<nat>, limit: nat, since: Option<nat>, until: Option<nat>)
    requires Ascending(rows)
    ensures var got := GetBlockGaps(rows, limit, since, until);
            && (forall g :: g in got ==> Hole(rows, g) && Touches(g, since, until))
            && (forall i, j :: 0 <= i < j < |got| ==> got[i].start > got[j].end)
            && (forall g :: Hole(rows, g) && Touches(g, since, until) && g !in got
                  ==> |got| == limit && forall n :: n in got ==> n.start > g.end)
  {
    var all := AllInWindow(rows, since, until);
    var got := GetBlockGaps(rows, limit, since, until);
    BetweenIs(rows, SnapDown(rows, since), SnapUp(rows, until));
    LeadIsHoles(Between(rows, SnapDown(rows, since), SnapUp(rows, until)));
    assert forall m :: 0 <= m < |got| ==> got[m] == all[m];
    forall g | g in got ensures Hole(rows, g) && Touches(g, since, until) {
      assert g in all;
      WindowIsExact(rows, since, until, g);
    }
    forall g | Hole(rows, g) && Touches(g, since, until) && g !in got
      ensures |got| == limit && forall n :: n in got ==> n.start > g.end
    {
      WindowIsExact(rows, since, until, g);
      LeftOutIsOlder(all, limit, g);
    }
  }

  lemma LeftOutIsOlder(all: seq<Gap>, limit: nat, g: Gap)
    requires g in all && g !in Take(all, limit)
    requires forall i, j :: 0 <= i < j < |all| ==> all[i].start > all[j].end
    ensures |Take(all, limit)| == limit && forall n :: n in Take(all, limit) ==> n.start > g.end
  {
    var k :| 0 <= k < |all| && all[k] == g;
    var got := Take(all, limit);
    assert forall m :: 0 <= m < |got| ==> got[m] == all[m] && got[m] in got;
  }

  datatype Window = Window(since: Option<nat>, until: Option<nat>)

  ghost predicate Covers(windows: seq<Window>, h: nat) {
    exists i :: 0 <= i < |windows| && Within(h, windows[i].since, windows[i].until)
  }

  ghost predicate FoundBy(rows: seq<nat>, windows: seq<Window>, g: Gap) {
    exists i :: 0 <= i < |windows| && g in AllInWindow(rows, windows[i].since, windows[i].until)
  }

  // TILING: scans whose windows cover every missing height between the first and the last row find every hole of the
  // table, and nothing else; a hole no window reaches is not found.
  lemma TilingFindsAll(rows: seq<nat>, windows: seq<Window>, g: Gap)
    requires Ascending(rows)
    requires forall h :: Hole(rows, g) && g.start <= h <= g.end ==> Covers(windows, h)
    ensures FoundBy(rows, windows, g) <==> g in AllInWindow(rows, None, None)
  {
    WindowIsExact(rows, None, None, g);
    if Hole(rows, g) {
      assert Covers(windows, g.start);
      var i :| 0 <= i < |windows| && Within(g.start, windows[i].since, windows[i].until);
      assert Meets(g, windows[i].since, windows[i].until);
      WindowIsExact(rows, windows[i].since, windows[i].until, g);
    }
    if FoundBy(rows, windows, g) {
      var i :| 0 <= i < |windows| && g in AllInWindow(rows, windows[i].since, windows[i].until);
      WindowIsExact(rows, windows[i].since, windows[i].until, g);
    }
  }

  // ---- the whole claimed range ---------------------------------------

  ghost predicate InGap(h: nat, g: Gap) {
    g.start <= h <= g.end
  }

  ghost predicate InInterior(rows: seq<nat>, h: nat) {
    exists g :: g in AllInWindow(rows, None, None) && InGap(h, g)
  }

  ghost predicate InEdge(rows: seq<nat>, oldest: nat, latest: nat, h: nat) {
    exists e :: e in GetEdgeGaps(rows, Some(oldest), Some(latest)) && InGap(h, e.gap)
  }

  lemma HoleIsInside(rows: seq<nat>, g: Gap)
    requires Ascending(rows) && Hole(rows, g)
    ensures rows[0] < g.start && g.end < rows[|rows| - 1]
  {
    var i :| 0 <= i < |rows| && rows[i] == g.start - 1;
    var j :| 0 <= j < |rows| && rows[j] == g.end + 1;
  }

  // The hole around a missing height.
  lemma HoleAround(rows: seq<nat>, h: nat) returns (g: Gap)
    requires Ascending(rows) && rows != [] && rows[0] < h < rows[|rows| - 1] && h !in rows
    ensures Hole(rows, g) && InGap(h, g)
  {
    MaxBelowIs(rows, h);
    MinAboveIs(rows, h);
    assert rows[0] in rows && rows[|rows| - 1] in rows;
    g := Gap(MaxBelow(rows, h).value + 1, MinAbove(rows, h).value - 1);
  }

  // A missing height between the first and the last row lies in a hole, and only there.
  lemma {:induction false} InteriorIsMissing(rows: seq<nat>, h: nat)
    requires Ascending(rows) && rows != []
    ensures InInterior(rows, h) <==> rows[0] < h < rows[|rows| - 1] && h !in rows
  {
    if InInterior(rows, h) {
      var g :| g in AllInWindow(rows, None, None) && InGap(h, g);
      WindowIsExact(rows, None, None, g);
      HoleIsInside(rows, g);
    }
    if rows[0] < h < rows[|rows| - 1] && h !in rows {
      var g := HoleAround(rows, h);
      WindowIsExact(rows, None, None, g);
    }
  }

  ghost predicate Reported(rows: seq<nat>, oldest: nat, latest: nat, h: nat) {
    InInterior(rows, h) || InEdge(rows, oldest, latest, h)
  }

  ghost predicate MissingIn(rows: seq<nat>, oldest: nat, latest: nat, h: nat) {
    oldest <= h <= latest && h !in rows
  }

  ghost predicate ReportsExactly(rows: seq<nat>, oldest: nat, latest: nat) {
    forall h: nat :: Reported(rows, oldest, latest, h) <==> MissingIn(rows, oldest, latest, h)
  }

  // EDGES: a non-empty table inside the claimed range. The interior and edge gaps together are exactly its missing
  // heights, except in one family: a claim from block 0 with block 0 missing, whose prefix is never reported.
  lemma ReportsExactlyWhen(rows: seq<nat>, oldest: nat, latest: nat)
    requires Ascending(rows) && rows != [] && oldest <= rows[0] && rows[|rows| - 1] <= latest
    ensures ReportsExactly(rows, oldest, latest) <==> !(oldest == 0 && rows[0] > 0)
  {
    forall h: nat
      ensures Reported(rows, oldest, latest, h) ==> MissingIn(rows, oldest, latest, h)
      ensures MissingIn(rows, oldest, latest, h) ==> Reported(rows, oldest, latest, h) || (oldest == 0 && h < rows[0])
      ensures oldest == 0 && h < rows[0] ==> !Reported(rows, oldest, latest, h) && MissingIn(rows, oldest, latest, h)
    {
      InteriorIsMissing(rows, h);
    }
    if oldest == 0 && rows[0] > 0 {
      assert !Reported(rows, oldest, latest, 0) && MissingIn(rows, oldest, latest, 0);
    }
  }

  // The failing family is real: blocks 1 and 2 stored, 0..2 claimed.
  lemma GenesisHoleIsUnreported()
    ensures GetBlockGaps([1, 2], 50, None, None) == [] && GetEdgeGaps([1, 2], Some(0), Some(2)) == []
    ensures MissingIn([1, 2], 0, 2, 0) && !ReportsExactly([1, 2], 0, 2)
  {
    assert Lead([1, 2]) == Lead([2]) + [];
    assert Between([1, 2], None, None) == [1] + Between([2], None, None) && Between([2], None, None) == [2] + Between([], None, None);
    ReportsExactlyWhen([1, 2], 0, 2);
  }

  function Sum(gaps: seq<Gap>): int {
    if gaps == [] then 0 else gaps[|gaps| - 1].Size() + Sum(gaps[..|gaps| - 1])
  }

  lemma {:induction false} SumOfLead(rows: seq<nat>)
    requires Ascending(rows) && rows != []
    ensures Sum(Lead(rows)) + |rows| == rows[|rows| - 1] - rows[0] + 1
  {
    if |rows| > 1 {
      SumOfLead(rows[1..]);
      var rest := Lead(rows[1..]);
      if rows[1] > rows[0] + 1 {
        var g := Gap(rows[0] + 1, rows[1] - 1);
        assert (rest + [g])[..|rest|] == rest;
      } else {
        assert rest + [] == rest;
      }
    }
  }

  function SumOfEdges(edges: seq<Edge>): int {
    if edges == [] then 0 else edges[0].gap.Size() + SumOfEdges(edges[1..])
  }

  lemma {:induction false} AllRowsBetween(rows: seq<nat>)
    ensures Between(rows, None, None) == rows
  {
    if rows != [] {
      AllRowsBetween(rows[1..]);
    }
  }

  // CONSERVED: stored rows and reported sizes add up to the claimed range, unless the prefix of block 0 is missing:
  // then they fall short by exactly that prefix.
  lemma SizesAddUp(rows: seq<nat>, oldest: nat, latest: nat)
    requires Ascending(rows) && rows != [] && oldest <= rows[0] && rows[|rows| - 1] <= latest
    ensures |rows| + Sum(AllInWindow(rows, None, None)) + SumOfEdges(GetEdgeGaps(rows, Some(oldest), Some(latest)))
            == latest - oldest + 1 - (if oldest == 0 then rows[0] else 0)
  {
    AllRowsBetween(rows);
    SumOfLead(rows);
    var lo, hi := rows[0], rows[|rows| - 1];
    var a: seq<Edge> := if oldest > 0 && lo > oldest then [Prefix(Gap(oldest, lo - 1))] else [];
    var b: seq<Edge> := if hi < latest then [Suffix(Gap(hi + 1, latest))] else [];
    assert GetEdgeGaps(rows, Some(oldest), Some(latest)) == a + b;
    assert SumOfEdges(a) == if oldest > 0 then lo - oldest else 0;
    assert SumOfEdges(b) == latest - hi;
    if a != [] {
      assert (a + b)[0] == a[0] && (a + b)[1..] == b && a[1..] == [];
    } else {
      assert a + b == b;
    }
  }
}
