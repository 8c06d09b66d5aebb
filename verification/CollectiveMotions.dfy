/** Attribution of resolving events to collective motions (lib/collective-motions.js). */
module CollectiveMotions {
  // Events carry only the call hash; a hash can have been proposed several times.

  import opened Util
  import opened Sorting

  type Hash = string

  // Other stands for a kind outside the ranked table.
  datatype Kind = Closed | Approved | Disapproved | Executed | Other

  // A stored motion. block and eventIndex are where it was proposed, when known.
  datatype Motion = Motion(
    index: nat, hash: Hash, block: Option<nat>, eventIndex: Option<nat>,
    leftStorage: bool, liveAyes: Option<nat>, liveNays: Option<nat>)

  // A stored resolving event; eventIndex is -1 when unknown.
  datatype Event = Event(
    hash: Hash, block: nat, eventIndex: int, kind: Kind, ayes: Option<nat>, nays: Option<nat>, at: Option<nat>)

  datatype Status = Proposed | LeftStorage | Ended(kind: Kind)

  datatype Row = Row(
    index: nat, hash: Hash, status: Status, ayes: Option<nat>, nays: Option<nat>,
    resolvedBlock: Option<nat>, resolvedAt: Option<nat>)

  function EventRank(k: Kind): nat {
    match k
    case Closed => 2
    case Approved => 3
    case Disapproved => 3
    case Executed => 4
    case Other => 0
  }

  // The primary key of the motions table; it stands for the identity of a motion object.
  ghost predicate DistinctIndices(motions: seq<Motion>) {
    forall i, j :: 0 <= i < j < |motions| ==> motions[i].index != motions[j].index
  }

  // The comparator of the per-hash lists; an unknown position sorts as Infinity.
  predicate MotionBefore(a: Motion, b: Motion) {
    if a.block != b.block then a.block.Some? && (b.block.None? || a.block.value < b.block.value)
    else if a.eventIndex != b.eventIndex then a.eventIndex.Some? && (b.eventIndex.None? || a.eventIndex.value < b.eventIndex.value)
    else a.index < b.index
  }

  // before(posOf(motion), posOf(event)), for a motion with a known block.
  predicate AtOrBefore(m: Motion, e: Event)
    requires m.block.Some?
  {
    m.block.value < e.block || (m.block.value == e.block && m.eventIndex.Some? && m.eventIndex.value <= e.eventIndex)
  }

  // The motions with this hash, in list order.
  function Group(motions: seq<Motion>, h: Hash): seq<Motion> {
    if motions == [] then []
    else
      var front, m := motions[..|motions| - 1], motions[|motions| - 1];
      if m.hash == h then Group(front, h) + [m] else Group(front, h)
  }

  function SortedGroup(motions: seq<Motion>, h: Hash): seq<Motion> {
    Sort(Group(motions, h), MotionBefore)
  }

  // The owner loop over a sorted list.
  function Walk(list: seq<Motion>, e: Event, owner: Option<Motion>): Option<Motion> {
    if list == [] then owner
    else if list[0].block.None? then Walk(list[1..], e, owner)
    else if AtOrBefore(list[0], e) then Walk(list[1..], e, Some(list[0]))
    else owner
  }

  function OwnerIn(list: seq<Motion>, e: Event): Option<Motion> {
    var owner := Walk(list, e, None);
    if owner.None? && |list| == 1 then Some(list[0]) else owner
  }

  // Index of the motion an event goes to, when it goes to one.
  function Owner(motions: seq<Motion>, e: Event): Option<nat> {
    if e.kind == Other then None
    else match OwnerIn(SortedGroup(motions, e.hash), e)
      case None => None
      case Some(m) => Some(m.index)
  }

  // The events given to the motion with index i, in input order.
  function EventsOf(motions: seq<Motion>, events: seq<Event>, i: nat): seq<Event> {
    if events == [] then []
    else
      var front, e := events[..|events| - 1], events[|events| - 1];
      if Owner(motions, e) == Some(i) then EventsOf(motions, front, i) + [e] else EventsOf(motions, front, i)
  }

  // The first event of the highest rank.
  function Top(evs: seq<Event>): Event
    requires evs != []
  {
    var last := evs[|evs| - 1];
    if |evs| == 1 then last
    else
      var top := Top(evs[..|evs| - 1]);
      if EventRank(last.kind) > EventRank(top.kind) then last else top
  }

  function FirstWith(evs: seq<Event>, p: Event -> bool): Option<Event> {
    if evs == [] then None else if p(evs[0]) then Some(evs[0]) else FirstWith(evs[1..], p)
  }

  // evs.reduce to the latest block, the first of equals.
  function Latest(evs: seq<Event>): Event
    requires evs != []
  {
    var last := evs[|evs| - 1];
    if |evs| == 1 then last
    else
      var best := Latest(evs[..|evs| - 1]);
      if last.block > best.block then last else best
  }

  const IsClosed := (e: Event) => e.kind == Closed
  const HasTally := (e: Event) => e.ayes.Some? || e.nays.Some?

  function RowOf(m: Motion, evs: seq<Event>): Row {
    if evs == [] then
      Row(m.index, m.hash, if m.leftStorage then LeftStorage else Proposed, m.liveAyes, m.liveNays, None, None)
    else
      var closed := FirstWith(evs, IsClosed);
      var resolver := if closed.Some? then closed.value else Latest(evs);
      var tally := if closed.Some? then closed else FirstWith(evs, HasTally);
      Row(m.index, m.hash, Ended(Top(evs).kind),
          if tally.Some? then tally.value.ayes else None, if tally.Some? then tally.value.nays else None,
          Some(resolver.block), resolver.at)
  }

  // The rows of some listed motions, attributed among all of motions.
  function RowsFor(listed: seq<Motion>, motions: seq<Motion>, events: seq<Event>): seq<Row> {
    seq(|listed|, i requires 0 <= i < |listed| => RowOf(listed[i], EventsOf(motions, events, listed[i].index)))
  }

  // attributeMotionEvents, row by row.
  function Attribute(motions: seq<Motion>, events: seq<Event>): seq<Row> {
    RowsFor(motions, motions, events)
  }

  // ---- the loops ----------------------------------------------------------------

  method GroupByHash(motions: seq<Motion>) returns (byHash: map<Hash, seq<Motion>>)
    ensures forall h :: h in byHash <==> Group(motions, h) != []
    ensures forall h :: h in byHash ==> byHash[h] == SortedGroup(motions, h)
  {
    byHash := map[];
    for i := 0 to |motions|
      invariant forall h :: h in byHash <==> Group(motions[..i], h) != []
      invariant forall h :: h in byHash ==> byHash[h] == Group(motions[..i], h)
    {
      var m := motions[i];
      assert motions[..i + 1][..i] == motions[..i];
      if m.hash !in byHash {
        byHash := byHash[m.hash := []];
      }
      byHash := byHash[m.hash := byHash[m.hash] + [m]];
    }
    assert motions[..|motions|] == motions;
    byHash := map h | h in byHash :: Sort(byHash[h], MotionBefore);
  }

  method FindOwner(list: seq<Motion>, e: Event) returns (owner: Option<Motion>)
    ensures owner == OwnerIn(list, e)
  {
    owner := None;
    var i := 0;
    while i < |list|
      invariant 0 <= i <= |list|
      invariant Walk(list[i..], e, owner) == Walk(list, e, None)
    {
      assert list[i..][1..] == list[i + 1..];
      var m := list[i];
      if m.block.Some? {
        if AtOrBefore(m, e) {
          owner := Some(list[i]);
        } else {
          break;
        }
      }
      i := i + 1;
    }
    if owner.None? && |list| == 1 {
      owner := Some(list[0]);
    }
  }

  method AssignEvents(motions: seq<Motion>, events: seq<Event>) returns (given: map<nat, seq<Event>>)
    ensures forall i: nat :: i in given <==> EventsOf(motions, events, i) != []
    ensures forall i: nat :: i in given ==> given[i] == EventsOf(motions, events, i)
  {
    var byHash := GroupByHash(motions);
    given := map[];
    for k := 0 to |events|
      invariant forall i: nat :: i in given <==> EventsOf(motions, events[..k], i) != []
      invariant forall i: nat :: i in given ==> given[i] == EventsOf(motions, events[..k], i)
    {
      var e := events[k];
      assert events[..k + 1][..k] == events[..k];
      if e.kind != Other {
        if e.hash in byHash {
          var owner := FindOwner(byHash[e.hash], e);
          if owner.Some? {
            var at := owner.value.index;
            if at !in given {
              given := given[at := []];
            }
            given := given[at := given[at] + [e]];
          }
        } else {
          assert SortedGroup(motions, e.hash) == [];
        }
      }
    }
    assert events[..|events|] == events;
  }

  method TopEvent(evs: seq<Event>) returns (top: Event)
    requires evs != []
    ensures top == Top(evs)
  {
    top := evs[0];
    for j := 1 to |evs|
      invariant top == Top(evs[..j])
    {
      assert evs[..j + 1][..j] == evs[..j];
      if EventRank(evs[j].kind) > EventRank(top.kind) {
        top := evs[j];
      }
    }
    assert evs[..|evs|] == evs;
  }

  method AttributeMotionEvents(motions: seq<Motion>, events: seq<Event>) returns (rows: seq<Row>)
    requires DistinctIndices(motions)
    ensures rows == Attribute(motions, events)
  {
    var given := AssignEvents(motions, events);
    rows := [];
    for i := 0 to |motions|
      invariant rows == Attribute(motions, events)[..i]
    {
      var m := motions[i];
      var evs := if m.index in given then given[m.index] else [];
      var row := Row(m.index, m.hash, if m.leftStorage then LeftStorage else Proposed, m.liveAyes, m.liveNays, None, None);
      if |evs| > 0 {
        var top := TopEvent(evs);
        var closed := FirstWith(evs, IsClosed);
        var resolver := if closed.Some? then closed.value else Latest(evs);
        var tally := if closed.Some? then closed else FirstWith(evs, HasTally);
        row := Row(m.index, m.hash, Ended(top.kind),
                   if tally.Some? then tally.value.ayes else None, if tally.Some? then tally.value.nays else None,
                   Some(resolver.block), resolver.at);
      }
      rows := rows + [row];
    }
  }

  // ---- what the owner is -----------------------------------------------------------

  lemma {:induction false} GroupMembers(motions: seq<Motion>, h: Hash)
    ensures forall m :: m in Group(motions, h) <==> m in motions && m.hash == h
  {
    if motions != [] {
      GroupMembers(motions[..|motions| - 1], h);
    }
  }

  lemma SortedGroupMembers(motions: seq<Motion>, h: Hash)
    ensures forall m :: m in SortedGroup(motions, h) <==> m in motions && m.hash == h
    ensures Sorted(SortedGroup(motions, h), MotionBefore)
  {
    GroupMembers(motions, h);
    SortMembers(Group(motions, h), MotionBefore);
    SortSorts(Group(motions, h), MotionBefore);
  }

  // m was proposed at or before e, at a known block.
  predicate Candidate(m: Motion, e: Event) {
    && m.block.Some?
    && (m.block.value < e.block || (m.block.value == e.block && m.eventIndex.Some? && m.eventIndex.value <= e.eventIndex))
  }

  // The walk ends on a candidate that no other candidate is after, if there is one.
  lemma {:induction false} WalkFindsLast(list: seq<Motion>, e: Event, owner: Option<Motion>)
    requires Sorted(list, MotionBefore)
    ensures var w := Walk(list, e, owner);
            if exists m :: m in list && Candidate(m, e)
            then w.Some? && w.value in list && Candidate(w.value, e)
                 && forall m :: m in list && Candidate(m, e) ==> !MotionBefore(w.value, m)
            else w == owner
  {
    if list != [] {
      var m0, rest := list[0], list[1..];
      assert forall m :: m in list <==> m == m0 || m in rest;
      forall m | m in rest ensures !MotionBefore(m, m0) {
        var j :| 0 <= j < |rest| && rest[j] == m;
        assert !MotionBefore(list[j + 1], list[0]);
      }
      if m0.block.None? || AtOrBefore(m0, e) {
        WalkFindsLast(rest, e, if m0.block.None? then owner else Some(m0));
      }
    }
  }

  // An event goes to the latest motion with its hash proposed at or before it.
  lemma OwnerIsLatest(motions: seq<Motion>, e: Event, m: Motion)
    requires e.kind != Other && m in motions && m.hash == e.hash && Candidate(m, e)
    requires forall n :: n in motions && n != m && n.hash == e.hash && Candidate(n, e) ==> MotionBefore(n, m)
    ensures Owner(motions, e) == Some(m.index)
  {
    var list := SortedGroup(motions, e.hash);
    SortedGroupMembers(motions, e.hash);
    WalkFindsLast(list, e, None);
    assert m in list;
  }

  // An event with no candidate goes to the motion of its hash only when there is just one, and else to none.
  lemma OwnerWithoutCandidate(motions: seq<Motion>, e: Event)
    requires e.kind != Other && forall m :: m in motions && m.hash == e.hash ==> !Candidate(m, e)
    ensures Owner(motions, e).Some? <==> |Group(motions, e.hash)| == 1
    ensures Owner(motions, e).Some? ==> exists m :: m in motions && m.hash == e.hash && Owner(motions, e) == Some(m.index)
  {
    var list := SortedGroup(motions, e.hash);
    SortedGroupMembers(motions, e.hash);
    SortPermutes(Group(motions, e.hash), MotionBefore);
    WalkFindsLast(list, e, None);
    if |list| == 1 {
      assert list[0] in list;
    }
  }

  // ---- what a row shows ----------------------------------------------------------------

  lemma {:induction false} EventsOfMembers(motions: seq<Motion>, events: seq<Event>, i: nat)
    ensures forall e :: e in EventsOf(motions, events, i) <==> e in events && Owner(motions, e) == Some(i)
  {
    if events != [] {
      EventsOfMembers(motions, events[..|events| - 1], i);
    }
  }

  lemma {:induction false} TopIsHighest(evs: seq<Event>)
    requires evs != []
    ensures Top(evs) in evs
    ensures forall e :: e in evs ==> EventRank(e.kind) <= EventRank(Top(evs).kind)
    ensures exists k :: 0 <= k < |evs| && evs[k] == Top(evs) && forall j :: 0 <= j < k ==> EventRank(evs[j].kind) < EventRank(evs[k].kind)
  {
    if |evs| > 1 {
      TopIsHighest(evs[..|evs| - 1]);
    }
  }

  lemma {:induction false} LatestIsOne(evs: seq<Event>)
    requires evs != []
    ensures Latest(evs) in evs
    ensures forall e :: e in evs ==> e.block <= Latest(evs).block
    ensures exists k :: 0 <= k < |evs| && evs[k] == Latest(evs) && forall j :: 0 <= j < k ==> evs[j].block < evs[k].block
  {
    if |evs| > 1 {
      LatestIsOne(evs[..|evs| - 1]);
    }
  }

  lemma {:induction false} FirstWithIsOne(evs: seq<Event>, p: Event -> bool)
    ensures FirstWith(evs, p).Some? ==> FirstWith(evs, p).value in evs && p(FirstWith(evs, p).value)
    ensures FirstWith(evs, p).None? ==> forall e :: e in evs ==> !p(e)
  {
    if evs != [] && !p(evs[0]) {
      FirstWithIsOne(evs[1..], p);
    }
  }

  // The event e is given to the motion m.
  predicate GivenTo(motions: seq<Motion>, events: seq<Event>, m: Motion, e: Event) {
    e in events && Owner(motions, e) == Some(m.index)
  }

  ghost predicate AnyGiven(motions: seq<Motion>, events: seq<Event>, m: Motion, p: Event -> bool) {
    exists e :: GivenTo(motions, events, m, e) && p(e)
  }

  // The outcome its events tell: executed, else decided, else closed.
  ghost predicate ShowsOutcome(motions: seq<Motion>, events: seq<Event>, m: Motion, r: Row) {
    && r.status.Ended? && AnyGiven(motions, events, m, (e: Event) => e.kind == r.status.kind)
    && (AnyGiven(motions, events, m, (e: Event) => e.kind == Executed) ==> r.status.kind == Executed)
    && (AnyGiven(motions, events, m, (e: Event) => e.kind in {Approved, Disapproved}) ==> r.status.kind != Closed)
  }

  // The block and the time of its Closed event, or else of one in its latest block.
  ghost predicate ShowsResolver(motions: seq<Motion>, events: seq<Event>, m: Motion, r: Row) {
    exists e :: GivenTo(motions, events, m, e) && r.resolvedBlock == Some(e.block) && r.resolvedAt == e.at
      && if AnyGiven(motions, events, m, (x: Event) => x.kind == Closed) then e.kind == Closed
         else forall x :: GivenTo(motions, events, m, x) ==> x.block <= e.block
  }

  // The tally of its Closed event, or else of one that has a tally, or none.
  ghost predicate ShowsTally(motions: seq<Motion>, events: seq<Event>, m: Motion, r: Row) {
    if AnyGiven(motions, events, m, (x: Event) => x.kind == Closed) then
      AnyGiven(motions, events, m, (e: Event) => e.kind == Closed && r.ayes == e.ayes && r.nays == e.nays)
    else if AnyGiven(motions, events, m, (x: Event) => x.ayes.Some? || x.nays.Some?) then
      AnyGiven(motions, events, m, (e: Event) => (e.ayes.Some? || e.nays.Some?) && r.ayes == e.ayes && r.nays == e.nays)
    else r.ayes == None && r.nays == None
  }

  // A motion without events: still proposed, or gone from storage, with the live tally.
  predicate ShowsOpen(m: Motion, r: Row) {
    && r.status == (if m.leftStorage then LeftStorage else Proposed)
    && r.ayes == m.liveAyes && r.nays == m.liveNays && r.resolvedBlock == None && r.resolvedAt == None
  }

  // ROWS: what the row of each motion shows, from the stored motion and the events given to it.
  lemma RowShows(motions: seq<Motion>, events: seq<Event>, k: nat)
    requires k < |motions|
    ensures
      var (m, r) := (motions[k], Attribute(motions, events)[k]);
      && r.index == m.index && r.hash == m.hash
      && if AnyGiven(motions, events, m, (e: Event) => true)
         then ShowsOutcome(motions, events, m, r) && ShowsResolver(motions, events, m, r) && ShowsTally(motions, events, m, r)
         else ShowsOpen(m, r)
  {
    var m, evs := motions[k], EventsOf(motions, events, motions[k].index);
    EventsOfMembers(motions, events, m.index);
    assert forall e :: e in evs <==> GivenTo(motions, events, m, e);
    if evs != [] {
      assert GivenTo(motions, events, m, evs[0]);
      EventsShowOutcome(motions, events, m, evs);
      EventsShowResolver(motions, events, m, evs);
      EventsShowTally(motions, events, m, evs);
    }
  }

  lemma EventsShowOutcome(motions: seq<Motion>, events: seq<Event>, m: Motion, evs: seq<Event>)
    requires evs != [] && forall e :: e in evs <==> GivenTo(motions, events, m, e)
    ensures ShowsOutcome(motions, events, m, RowOf(m, evs))
  {
    TopIsHighest(evs);
    var top := Top(evs);
    assert GivenTo(motions, events, m, top) && top.kind != Other;
    assert forall e :: GivenTo(motions, events, m, e) ==> EventRank(e.kind) <= EventRank(top.kind);
  }

  lemma EventsShowResolver(motions: seq<Motion>, events: seq<Event>, m: Motion, evs: seq<Event>)
    requires evs != [] && forall e :: e in evs <==> GivenTo(motions, events, m, e)
    ensures ShowsResolver(motions, events, m, RowOf(m, evs))
  {
    FirstWithIsOne(evs, IsClosed);
    LatestIsOne(evs);
    var closed := FirstWith(evs, IsClosed);
    assert GivenTo(motions, events, m, if closed.Some? then closed.value else Latest(evs));
  }

  lemma EventsShowTally(motions: seq<Motion>, events: seq<Event>, m: Motion, evs: seq<Event>)
    requires evs != [] && forall e :: e in evs <==> GivenTo(motions, events, m, e)
    ensures ShowsTally(motions, events, m, RowOf(m, evs))
  {
    FirstWithIsOne(evs, IsClosed);
    FirstWithIsOne(evs, HasTally);
    var closed, tally := FirstWith(evs, IsClosed), FirstWith(evs, HasTally);
    assert closed.Some? ==> GivenTo(motions, events, m, closed.value);
    assert tally.Some? ==> GivenTo(motions, events, m, tally.value);
    assert closed.None? ==> forall e :: GivenTo(motions, events, m, e) ==> e.kind != Closed;
    assert tally.None? ==> forall e :: GivenTo(motions, events, m, e) ==> e.ayes.None? && e.nays.None?;
  }

  // ---- the order of a read does not matter ---------------------------------------------

  lemma {:induction false} SortedIsUnique(a: seq<Motion>, b: seq<Motion>)
    requires Sorted(a, MotionBefore) && Sorted(b, MotionBefore) && (forall m :: m in a <==> m in b)
    requires DistinctIndices(a) && DistinctIndices(b)
    ensures a == b
    decreases |a|
  {
    if a == [] {
      NoneInEmpty(b);
    } else {
      assert a[0] in b;
      FirstIsSame(a, b);
      RestOf(a);
      RestOf(b);
      SortedIsUnique(a[1..], b[1..]);
      assert a == [a[0]] + a[1..] && b == [b[0]] + b[1..];
    }
  }

  lemma NoneInEmpty(b: seq<Motion>)
    ensures b == [] || exists m :: m in b
  {
    assert b != [] ==> b[0] in b;
  }

  lemma RestOf(a: seq<Motion>)
    requires a != [] && DistinctIndices(a) && Sorted(a, MotionBefore)
    ensures DistinctIndices(a[1..]) && Sorted(a[1..], MotionBefore) && forall m :: m in a[1..] <==> m in a && m != a[0]
  {
    var rest := a[1..];
    assert forall k :: 0 <= k < |rest| ==> rest[k] == a[k + 1] && rest[k].index != a[0].index;
  }

  lemma FirstIsSame(a: seq<Motion>, b: seq<Motion>)
    requires a != [] && b != [] && Sorted(a, MotionBefore) && Sorted(b, MotionBefore) && (forall m :: m in a <==> m in b)
    requires DistinctIndices(a) && DistinctIndices(b)
    ensures a[0] == b[0]
  {
    assert a[0] in a && b[0] in b;
    assert forall k :: 0 < k < |b| ==> b[k].index != b[0].index;
    var i :| 0 <= i < |b| && b[i] == a[0];
    var j :| 0 <= j < |a| && a[j] == b[0];
    assert !MotionBefore(b[i], b[0]) && !MotionBefore(a[j], a[0]);
    assert a[0].index == b[0].index;
  }

  lemma GroupIsDistinct(motions: seq<Motion>, h: Hash)
    requires DistinctIndices(motions)
    ensures DistinctIndices(SortedGroup(motions, h))
  {
    GroupDistinct(motions, h);
    SortKeepsDistinct(Group(motions, h));
  }

  lemma {:induction false} GroupDistinct(motions: seq<Motion>, h: Hash)
    requires DistinctIndices(motions)
    ensures DistinctIndices(Group(motions, h))
  {
    if motions != [] {
      var front, m := motions[..|motions| - 1], motions[|motions| - 1];
      GroupDistinct(front, h);
      GroupMembers(front, h);
      forall k | 0 <= k < |Group(front, h)| ensures Group(front, h)[k].index != m.index {
        assert Group(front, h)[k] in front;
        var i :| 0 <= i < |front| && front[i] == Group(front, h)[k];
        assert motions[i].index != motions[|front|].index;
      }
    }
  }

  lemma {:induction false} InsertKeepsDistinct(x: Motion, s: seq<Motion>)
    requires DistinctIndices(s) && forall m :: m in s ==> m.index != x.index
    ensures DistinctIndices(Insert(x, s, MotionBefore))
  {
    if s != [] && MotionBefore(s[0], x) {
      InsertKeepsDistinct(x, s[1..]);
      var rest := Insert(x, s[1..], MotionBefore);
      forall k | 0 <= k < |rest| ensures rest[k].index != s[0].index {
        InsertPermutes(x, s[1..], MotionBefore);
        assert rest[k] in multiset(rest);
        assert rest[k] == x || rest[k] in s[1..];
      }
    }
  }

  lemma {:induction false} SortKeepsDistinct(s: seq<Motion>)
    requires DistinctIndices(s)
    ensures DistinctIndices(Sort(s, MotionBefore))
  {
    if s != [] {
      SortKeepsDistinct(s[1..]);
      SortMembers(s[1..], MotionBefore);
      InsertKeepsDistinct(s[0], Sort(s[1..], MotionBefore));
    }
  }

  // ANY ORDER: to whom an event goes does not depend on the order in which the motions were read.
  lemma OwnerInAnyOrder(motions: seq<Motion>, other: seq<Motion>, e: Event)
    requires DistinctIndices(motions) && DistinctIndices(other) && forall m :: m in motions <==> m in other
    ensures Owner(motions, e) == Owner(other, e)
  {
    SortedGroupMembers(motions, e.hash);
    SortedGroupMembers(other, e.hash);
    GroupIsDistinct(motions, e.hash);
    GroupIsDistinct(other, e.hash);
    SortedIsUnique(SortedGroup(motions, e.hash), SortedGroup(other, e.hash));
  }

  // ---- one hash at a time ------------------------------------------------------------

  // The rows a query for some hashes reads.
  function MotionsWhere(motions: seq<Motion>, p: Hash -> bool): seq<Motion> {
    if motions == [] then []
    else
      var front, m := motions[..|motions| - 1], motions[|motions| - 1];
      if p(m.hash) then MotionsWhere(front, p) + [m] else MotionsWhere(front, p)
  }

  function EventsWhere(events: seq<Event>, p: Hash -> bool): seq<Event> {
    if events == [] then []
    else
      var front, e := events[..|events| - 1], events[|events| - 1];
      if p(e.hash) then EventsWhere(front, p) + [e] else EventsWhere(front, p)
  }

  function RowsWhere(rows: seq<Row>, p: Hash -> bool): seq<Row> {
    if rows == [] then []
    else
      var front, r := rows[..|rows| - 1], rows[|rows| - 1];
      if p(r.hash) then RowsWhere(front, p) + [r] else RowsWhere(front, p)
  }

  lemma {:induction false} GroupOfSlice(motions: seq<Motion>, p: Hash -> bool, h: Hash)
    ensures Group(MotionsWhere(motions, p), h) == if p(h) then Group(motions, h) else []
  {
    if motions != [] {
      var front, m := motions[..|motions| - 1], motions[|motions| - 1];
      GroupOfSlice(front, p, h);
      var part := MotionsWhere(front, p);
      assert (part + [m])[..|part|] == part;
    }
  }

  lemma {:induction false} EventsOfSlice(motions: seq<Motion>, events: seq<Event>, p: Hash -> bool, m: Motion)
    requires DistinctIndices(motions) && m in motions && p(m.hash)
    ensures EventsOf(MotionsWhere(motions, p), EventsWhere(events, p), m.index) == EventsOf(motions, events, m.index)
  {
    if events != [] {
      var front, e := events[..|events| - 1], events[|events| - 1];
      EventsOfSlice(motions, front, p, m);
      GroupOfSlice(motions, p, e.hash);
      var part := EventsWhere(front, p);
      assert (part + [e])[..|part|] == part;
      if !p(e.hash) {
        OwnerHasHash(motions, e);
        assert Owner(motions, e) != Some(m.index);
      }
    }
  }

  lemma OwnerHasHash(motions: seq<Motion>, e: Event)
    ensures Owner(motions, e).Some? ==> exists n :: n in motions && n.hash == e.hash && n.index == Owner(motions, e).value
  {
    SortedGroupMembers(motions, e.hash);
    WalkFindsLast(SortedGroup(motions, e.hash), e, None);
  }

  // SLICE: reading some hashes only gives those hashes' part of the full list.
  lemma {:induction false} OneHashReadIsSlice(motions: seq<Motion>, events: seq<Event>, p: Hash -> bool)
    requires DistinctIndices(motions)
    ensures Attribute(MotionsWhere(motions, p), EventsWhere(events, p)) == RowsWhere(Attribute(motions, events), p)
  {
    SlicePrefix(motions, motions, events, p);
  }

  lemma RowsSnoc(front: seq<Motion>, m: Motion, motions: seq<Motion>, events: seq<Event>)
    ensures RowsFor(front + [m], motions, events) == RowsFor(front, motions, events) + [RowOf(m, EventsOf(motions, events, m.index))]
  {
  }

  lemma {:induction false} SlicePrefix(all: seq<Motion>, motions: seq<Motion>, events: seq<Event>, p: Hash -> bool)
    requires DistinctIndices(all) && motions <= all
    ensures RowsFor(MotionsWhere(motions, p), MotionsWhere(all, p), EventsWhere(events, p)) == RowsWhere(RowsFor(motions, all, events), p)
  {
    if motions != [] {
      var front, m := motions[..|motions| - 1], motions[|motions| - 1];
      assert all[|front|] == m;
      SlicePrefix(all, front, events, p);
      RowsSnoc(front, m, all, events);
      assert motions == front + [m];
      var rows := RowsFor(front, all, events) + [RowOf(m, EventsOf(all, events, m.index))];
      assert rows[..|rows| - 1] == RowsFor(front, all, events);
      if p(m.hash) {
        EventsOfSlice(all, events, p, m);
        RowsSnoc(MotionsWhere(front, p), m, MotionsWhere(all, p), EventsWhere(events, p));
      }
    }
  }
}
