/**
 Announcing what has finished (selectNewlyResolved in lib/email-events.js). Ids resolve in
 any order, so a watermark will not do: the announced ones are remembered, up to a bound,
 and an id is announced once as long as everything that resolves fits in it.
 */
module NewlyResolved {
  import opened Util
  import opened Sorting
  import opened Mail = EmailEvents

  // id: idOf, None when it is not a finite number.
  datatype Entry = Entry(id: Option<int>, resolved: bool)

  // dispatch: the ids of the items announced, in order.
  datatype Announcement = Announcement(dispatch: seq<int>, nextSeen: seq<int>, firstRun: bool)

  predicate Lower(a: int, b: int) {
    a < b
  }

  predicate Higher(a: int, b: int) {
    a > b
  }

  function ResolvedIds(items: seq<Entry>): seq<int> {
    if items == [] then []
    else
      var last := items[|items| - 1];
      ResolvedIds(items[..|items| - 1]) + (if last.id.Some? && last.resolved then [last.id.value] else [])
  }

  function Dedup(ids: seq<int>): seq<int> {
    if ids == [] then []
    else
      var front := Dedup(ids[..|ids| - 1]);
      if ids[|ids| - 1] in front then front else front + [ids[|ids| - 1]]
  }

  function Without(ids: seq<int>, known: seq<int>): seq<int> {
    Filter(ids, (id: int) => id !in known)
  }

  // The highest `remember` ids, at least one.
  function Bound(ids: seq<int>, remember: int): seq<int> {
    Slice(Sort(ids, Higher), Max(1, remember))
  }

  function Announced(items: seq<Entry>, seen: seq<int>, limit: int): seq<int> {
    Slice(Sort(Without(ResolvedIds(items), Dedup(seen)), Lower), limit)
  }

  function SelectNew(items: seq<Entry>, seen: Option<seq<int>>, limit: int, remember: int): Announcement {
    if seen.None? then Announcement([], Bound(ResolvedIds(items), remember), true)
    else
      var sent := Announced(items, seen.value, limit);
      Announcement(sent, Bound(Dedup(seen.value) + sent, remember), false)
  }

  lemma {:induction false} FilterPush(ids: seq<int>, x: int, keep: int -> bool)
    ensures Filter(ids + [x], keep) == Filter(ids, keep) + if keep(x) then [x] else []
  {
    if ids == [] {
      assert ids + [x] == [x];
      assert [x][1..] == [];
    } else {
      var rest := Filter(ids[1..], keep);
      assert (ids + [x])[0] == ids[0] && (ids + [x])[1..] == ids[1..] + [x];
      FilterPush(ids[1..], x, keep);
      assert Filter(ids + [x], keep) == (if keep(ids[0]) then [ids[0]] else []) + (rest + if keep(x) then [x] else []);
    }
  }

  // selectNewlyResolved.
  method SelectNewlyResolved(items: seq<Entry>, seen: Option<seq<int>>, limit: int, remember: int) returns (a: Announcement)
    ensures a == SelectNew(items, seen, limit, remember)
  {
    var resolvedIds: seq<int> := [];
    for i := 0 to |items|
      invariant resolvedIds == ResolvedIds(items[..i])
    {
      assert items[..i + 1][..i] == items[..i];
      if items[i].id.Some? && items[i].resolved {
        resolvedIds := resolvedIds + [items[i].id.value];
      }
    }
    assert items[..|items|] == items;
    if seen.None? {
      return Announcement([], Bound(resolvedIds, remember), true);
    }
    var known := Dedup(seen.value);
    var unsent: seq<int> := [];
    for i := 0 to |items|
      invariant unsent == Without(ResolvedIds(items[..i]), known)
    {
      assert items[..i + 1][..i] == items[..i];
      if items[i].id.Some? && items[i].resolved {
        FilterPush(ResolvedIds(items[..i]), items[i].id.value, (id: int) => id !in known);
        if items[i].id.value !in known {
          unsent := unsent + [items[i].id.value];
        }
      } else {
        assert ResolvedIds(items[..i + 1]) == ResolvedIds(items[..i]);
      }
    }
    var capped := Slice(Sort(unsent, Lower), limit);
    a := Announcement(capped, Bound(known + capped, remember), false);
  }

  // ---- lists of ids as sets ------------------------------------------

  function Elements(ids: seq<int>): set<int> {
    set id | id in ids
  }

  ghost predicate NoRepeats(ids: seq<int>) {
    |Elements(ids)| == |ids|
  }

  lemma {:induction false} RepeatFree(ids: seq<int>)
    ensures |Elements(ids)| <= |ids|
    ensures NoRepeats(ids) <==> forall i, j :: 0 <= i < j < |ids| ==> ids[i] != ids[j]
  {
    if ids != [] {
      var front, last := ids[..|ids| - 1], ids[|ids| - 1];
      RepeatFree(front);
      assert Elements(ids) == Elements(front) + {last};
      assert last in front ==> Elements(front) + {last} == Elements(front);
      if last in front {
        var k :| 0 <= k < |front| && front[k] == last;
        assert ids[k] == ids[|ids| - 1];
      }
    }
  }

  lemma SortKeepsIds(ids: seq<int>, before: (int, int) -> bool)
    ensures Elements(Sort(ids, before)) == Elements(ids) && |Sort(ids, before)| == |ids|
  {
    SortPermutes(ids, before);
    SortMembers(ids, before);
  }

  lemma {:induction false} DedupIds(ids: seq<int>)
    ensures Elements(Dedup(ids)) == Elements(ids) && NoRepeats(Dedup(ids))
  {
    if ids != [] {
      var front, last := ids[..|ids| - 1], ids[|ids| - 1];
      DedupIds(front);
      assert Elements(ids) == Elements(front) + {last};
      assert Elements(Dedup(front) + [last]) == Elements(Dedup(front)) + {last};
      assert last in Dedup(front) <==> last in Elements(Dedup(front));
      assert last in Dedup(front) ==> Elements(front) + {last} == Elements(front);
    }
  }

  lemma {:induction false} WithoutIds(ids: seq<int>, known: seq<int>)
    requires NoRepeats(ids)
    ensures Elements(Without(ids, known)) == Elements(ids) - Elements(known) && NoRepeats(Without(ids, known))
  {
    FilterMembers(ids, (id: int) => id !in known);
    RepeatFree(ids);
    FilterRepeatFree(ids, (id: int) => id !in known);
    RepeatFree(Without(ids, known));
  }

  lemma {:induction false} FilterRepeatFree(ids: seq<int>, keep: int -> bool)
    requires forall i, j :: 0 <= i < j < |ids| ==> ids[i] != ids[j]
    ensures forall i, j :: 0 <= i < j < |Filter(ids, keep)| ==> Filter(ids, keep)[i] != Filter(ids, keep)[j]
  {
    if ids != [] {
      FilterRepeatFree(ids[1..], keep);
      FilterMembers(ids[1..], keep);
      var rest := Filter(ids[1..], keep);
      forall i | 0 <= i < |rest| ensures rest[i] != ids[0] {
        assert rest[i] in rest;
        var k :| 0 <= k < |ids[1..]| && ids[1..][k] == rest[i];
        assert ids[k + 1] == rest[i];
      }
    }
  }

  lemma PrefixIds(ids: seq<int>, k: nat)
    requires NoRepeats(ids) && k <= |ids|
    ensures Elements(ids[..k]) <= Elements(ids) && NoRepeats(ids[..k])
  {
    RepeatFree(ids);
    RepeatFree(ids[..k]);
    assert forall id :: id in ids[..k] ==> id in ids;
  }

  // BOUND: the memory keeps every id exactly when they fit; otherwise it keeps the highest ones.
  lemma BoundKeeps(ids: seq<int>, remember: int)
    requires NoRepeats(ids)
    ensures NoRepeats(Bound(ids, remember)) && Elements(Bound(ids, remember)) <= Elements(ids)
    ensures Elements(Bound(ids, remember)) == Elements(ids) <==> |ids| <= Max(1, remember)
    ensures forall kept, lost :: kept in Bound(ids, remember) && lost in ids && lost !in Bound(ids, remember) ==> kept > lost
  {
    var s, b := Sort(ids, Higher), Bound(ids, remember);
    SortKeepsIds(ids, Higher);
    SortSorts(ids, Higher);
    assert b == s[..|b|];
    PrefixIds(s, |b|);
    RepeatFree(s);
    assert forall i :: 0 <= i < |b| ==> b[i] == s[i] && s[i] in b;
    forall kept, lost | kept in b && lost in ids && lost !in b ensures kept > lost {
      assert lost in Elements(s);
      var i :| 0 <= i < |b| && b[i] == kept;
      var j :| 0 <= j < |s| && s[j] == lost;
      assert !Higher(s[j], s[i]) && s[i] != s[j];
    }
  }

  // ---- one tick ------------------------------------------------------

  ghost predicate DistinctIds(items: seq<Entry>) {
    NoRepeats(ResolvedIds(items))
  }

  // LOWEST: a tick announces, lowest id first, resolved ids it does not remember; one it leaves out is higher than
  // all it announced, and only a full cap leaves one out.
  lemma AnnouncesLowest(items: seq<Entry>, seen: seq<int>, limit: int)
    requires DistinctIds(items)
    ensures var sent, open := Announced(items, seen, limit), Elements(ResolvedIds(items)) - Elements(seen);
            && NoRepeats(sent) && Elements(sent) <= open
            && forall id :: id in open && id !in sent ==> |sent| == Max(0, limit) && forall s :: s in sent ==> s < id
  {
    var known := Dedup(seen);
    var open := Without(ResolvedIds(items), known);
    var s, sent := Sort(open, Lower), Announced(items, seen, limit);
    DedupIds(seen);
    WithoutIds(ResolvedIds(items), known);
    SortKeepsIds(open, Lower);
    SortSorts(open, Lower);
    assert sent == s[..|sent|];
    PrefixIds(s, |sent|);
    RepeatFree(s);
    assert forall i :: 0 <= i < |sent| ==> sent[i] == s[i] && s[i] in sent;
    forall id | id in Elements(open) && id !in sent ensures |sent| == Max(0, limit) && forall x :: x in sent ==> x < id {
      assert id in Elements(s);
      var j :| 0 <= j < |s| && s[j] == id;
      forall x | x in sent ensures x < id {
        var i :| 0 <= i < |sent| && sent[i] == x;
        assert !Lower(s[j], s[i]) && s[i] != s[j];
      }
    }
  }

  // What the next tick remembers, while everything fits.
  lemma RemembersAll(items: seq<Entry>, seen: seq<int>, limit: int, remember: int, ids: set<int>)
    requires DistinctIds(items) && Elements(ResolvedIds(items)) <= ids && Elements(seen) <= ids && |ids| <= Max(1, remember)
    ensures Elements(SelectNew(items, Some(seen), limit, remember).nextSeen) == Elements(seen) + Elements(Announced(items, seen, limit))
  {
    var sent, known := Announced(items, seen, limit), Dedup(seen);
    AnnouncesLowest(items, seen, limit);
    DedupIds(seen);
    assert Elements(known + sent) == Elements(known) + Elements(sent);
    SubsetCount(Elements(known) + Elements(sent), ids);
    assert Elements(known) !! Elements(sent);
    BoundKeeps(known + sent, remember);
  }

  // ---- every run -----------------------------------------------------

  datatype Poll = Poll(items: seq<Entry>, limit: int)

  ghost predicate Polled(seen: seq<Option<seq<int>>>, polls: seq<Poll>, remember: int) {
    && |seen| == |polls| + 1
    && (forall i :: 0 <= i < |polls| ==> DistinctIds(polls[i].items))
    && forall i :: 0 <= i < |polls| ==> seen[i + 1] == Some(SelectNew(polls[i].items, seen[i], polls[i].limit, remember).nextSeen)
  }

  // Everything that ever resolves fits in the memory.
  ghost predicate Fits(polls: seq<Poll>, remember: int, ids: set<int>) {
    |ids| <= Max(1, remember) && forall i :: 0 <= i < |polls| ==> Elements(ResolvedIds(polls[i].items)) <= ids
  }

  function SentAt(seen: seq<Option<seq<int>>>, polls: seq<Poll>, remember: int, i: nat): seq<int>
    requires i < |polls| && i < |seen|
  {
    SelectNew(polls[i].items, seen[i], polls[i].limit, remember).dispatch
  }

  ghost predicate Remembered(seen: Option<seq<int>>, ids: set<int>) {
    seen.Some? ==> Elements(seen.value) <= ids
  }

  lemma FirstPollRemembers(p: Poll, remember: int, ids: set<int>)
    requires DistinctIds(p.items) && Elements(ResolvedIds(p.items)) <= ids && |ids| <= Max(1, remember)
    ensures Elements(SelectNew(p.items, None, p.limit, remember).nextSeen) == Elements(ResolvedIds(p.items))
  {
    SubsetCount(Elements(ResolvedIds(p.items)), ids);
    BoundKeeps(ResolvedIds(p.items), remember);
  }

  lemma {:induction false} SeenStaysWithin(seen: seq<Option<seq<int>>>, polls: seq<Poll>, remember: int, ids: set<int>, i: nat)
    requires Polled(seen, polls, remember) && Fits(polls, remember, ids) && seen[0].None? && i < |seen|
    ensures Remembered(seen[i], ids) && (i > 0 ==> seen[i].Some?)
  {
    if i > 0 {
      SeenStaysWithin(seen, polls, remember, ids, i - 1);
      var p := polls[i - 1];
      if seen[i - 1].None? {
        FirstPollRemembers(p, remember, ids);
      } else {
        RemembersAll(p.items, seen[i - 1].value, p.limit, remember, ids);
        AnnouncesLowest(p.items, seen[i - 1].value, p.limit);
      }
    }
  }

  lemma {:induction false} SeenGrows(seen: seq<Option<seq<int>>>, polls: seq<Poll>, remember: int, ids: set<int>, i: nat, j: nat)
    requires Polled(seen, polls, remember) && Fits(polls, remember, ids) && seen[0].None? && 0 < i <= j < |seen|
    ensures seen[i].Some? && seen[j].Some? && Elements(seen[i].value) <= Elements(seen[j].value)
    decreases j
  {
    SeenStaysWithin(seen, polls, remember, ids, j);
    if i < j {
      SeenGrows(seen, polls, remember, ids, i, j - 1);
      SeenStaysWithin(seen, polls, remember, ids, j - 1);
      RemembersAll(polls[j - 1].items, seen[j - 1].value, polls[j - 1].limit, remember, ids);
    }
  }

  // ONCE: from an empty memory, while all that ever resolves fits in it, no id is announced by two ticks, and none
  // that was resolved at the first tick is announced at all.
  lemma AnnouncedOnce(seen: seq<Option<seq<int>>>, polls: seq<Poll>, remember: int, ids: set<int>, i: nat, j: nat)
    requires Polled(seen, polls, remember) && Fits(polls, remember, ids) && seen[0].None? && i < j < |polls|
    ensures Elements(SentAt(seen, polls, remember, i)) !! Elements(SentAt(seen, polls, remember, j))
    ensures Elements(ResolvedIds(polls[0].items)) !! Elements(SentAt(seen, polls, remember, j))
  {
    FirstPollRemembers(polls[0], remember, ids);
    SeenGrows(seen, polls, remember, ids, 1, j);
    SeenGrows(seen, polls, remember, ids, i + 1, j);
    AnnouncesLowest(polls[j].items, seen[j].value, polls[j].limit);
    if i > 0 {
      SeenStaysWithin(seen, polls, remember, ids, i);
      RemembersAll(polls[i].items, seen[i].value, polls[i].limit, remember, ids);
    }
  }

  ghost predicate StaysResolved(polls: seq<Poll>, from: nat, id: int) {
    forall k :: from <= k < |polls| ==> id in ResolvedIds(polls[k].items) && polls[k].limit > 0
  }

  // SERVED: a resolved id not yet announced is announced within as many ticks as there are ids not yet announced.
  lemma {:induction false} ResolvedIsAnnounced(seen: seq<Option<seq<int>>>, polls: seq<Poll>, remember: int, ids: set<int>, from: nat, id: int)
    requires Polled(seen, polls, remember) && Fits(polls, remember, ids) && seen[0].None? && 0 < from <= |polls|
    requires seen[from].Some? && id !in seen[from].value && StaysResolved(polls, from, id) && id in ids
    requires |polls| - from >= |ids - Elements(seen[from].value)|
    ensures exists k :: from <= k < |polls| && id in SentAt(seen, polls, remember, k)
    decreases |polls| - from
  {
    SubsetCount({id}, ids - Elements(seen[from].value));
    SeenStaysWithin(seen, polls, remember, ids, from);
    if id !in SentAt(seen, polls, remember, from) {
      PollShrinks(polls[from], seen[from].value, remember, ids, id);
      ResolvedIsAnnounced(seen, polls, remember, ids, from + 1, id);
    }
  }

  lemma PollShrinks(p: Poll, seen: seq<int>, remember: int, ids: set<int>, id: int)
    requires DistinctIds(p.items) && Elements(ResolvedIds(p.items)) <= ids && Elements(seen) <= ids && |ids| <= Max(1, remember)
    requires id in ResolvedIds(p.items) && id !in seen && p.limit > 0 && id !in Announced(p.items, seen, p.limit)
    ensures var next := SelectNew(p.items, Some(seen), p.limit, remember).nextSeen;
            id !in next && |ids - Elements(next)| < |ids - Elements(seen)|
  {
    var sent, next := Announced(p.items, seen, p.limit), SelectNew(p.items, Some(seen), p.limit, remember).nextSeen;
    AnnouncesLowest(p.items, seen, p.limit);
    RemembersAll(p.items, seen, p.limit, remember, ids);
    assert id in Elements(ResolvedIds(p.items)) - Elements(seen);
    FewerLeft(ids, Elements(seen), Elements(next), sent[0]);
  }

  lemma FewerLeft(ids: set<int>, seen: set<int>, next: set<int>, x: int)
    requires seen <= next && x in next && x in ids && x !in seen
    ensures |ids - next| < |ids - seen|
  {
    SubsetCount((ids - next) + {x}, ids - seen);
  }

  // FIRST: the first run announces nothing and remembers what is resolved; later ones say so and remember what they knew
  // and what they announced.
  lemma FirstRunIsSilent(items: seq<Entry>, seen: Option<seq<int>>, limit: int, remember: int)
    ensures var a := SelectNew(items, seen, limit, remember);
            && a.firstRun == seen.None? && (seen.None? ==> a.dispatch == [])
            && forall id :: id in a.nextSeen ==>
                 if seen.None? then id in ResolvedIds(items) else id in seen.value || id in a.dispatch
  {
    var from := if seen.None? then ResolvedIds(items) else Dedup(seen.value) + Announced(items, seen.value, limit);
    SortMembers(from, Higher);
    var s, b := Sort(from, Higher), Bound(from, remember);
    assert forall id :: id in b ==> id in s;
    if seen.Some? {
      DedupIds(seen.value);
      assert forall id :: id in Dedup(seen.value) ==> id in Elements(Dedup(seen.value));
    }
  }

  // ---- when an id is announced twice ---------------------------------

  ghost predicate Disjoint(a: seq<int>, b: seq<int>) {
    Elements(a) !! Elements(b)
  }

  // Every poll finds the same table, and announces at most `limit`.
  ghost predicate Fixed(polls: seq<Poll>, items: seq<Entry>, limit: int) {
    forall i :: 0 <= i < |polls| ==> polls[i] == Poll(items, limit)
  }

  ghost predicate NeverTwiceOn(seen: seq<Option<seq<int>>>, polls: seq<Poll>, remember: int)
    requires |seen| >= |polls|
  {
    forall i, j :: 0 <= i < j < |polls| ==> Disjoint(SentAt(seen, polls, remember, i), SentAt(seen, polls, remember, j))
  }

  lemma MemoryIsBounded(items: seq<Entry>, seen: Option<seq<int>>, limit: int, remember: int)
    ensures |Elements(SelectNew(items, seen, limit, remember).nextSeen)| <= Max(1, remember)
  {
    RepeatFree(SelectNew(items, seen, limit, remember).nextSeen);
  }

  lemma OneMore(a: set<int>, b: set<int>) returns (x: int)
    requires |a| > |b|
    ensures x in a && x !in b
  {
    if forall y :: y in a ==> y in b {
      SubsetCount(a, b);
    }
    x :| x in a && x !in b;
  }

  // Past the bound something resolved is always forgotten, so a tick has something to announce.
  lemma ForgettingAnnounces(items: seq<Entry>, seen: seq<int>, limit: int, remember: int)
    requires DistinctIds(items) && limit > 0
    requires |Elements(seen)| <= Max(1, remember) < |ResolvedIds(items)|
    ensures Announced(items, seen, limit) != []
    ensures Elements(Announced(items, seen, limit)) <= Elements(ResolvedIds(items))
  {
    AnnouncesLowest(items, seen, limit);
    var id := OneMore(Elements(ResolvedIds(items)), Elements(seen));
    assert id in Elements(ResolvedIds(items)) - Elements(seen);
  }

  lemma TickAnnounces(seen: seq<Option<seq<int>>>, polls: seq<Poll>, items: seq<Entry>, limit: int, remember: int, i: nat)
    requires Polled(seen, polls, remember) && Fixed(polls, items, limit) && 0 < i < |polls|
    requires DistinctIds(items) && limit > 0 && |ResolvedIds(items)| > Max(1, remember)
    ensures var sent := SentAt(seen, polls, remember, i); sent != [] && Elements(sent) <= Elements(ResolvedIds(items))
  {
    assert polls[i - 1] == Poll(items, limit) && polls[i] == Poll(items, limit);
    MemoryIsBounded(items, seen[i - 1], limit, remember);
    assert seen[(i - 1) + 1].Some?;
    ForgettingAnnounces(items, seen[i].value, limit, remember);
  }

  lemma Pigeonhole(list: seq<int>, ids: set<int>) returns (i: nat, j: nat)
    requires |list| > |ids| && Elements(list) <= ids
    ensures i < j < |list| && list[i] == list[j]
  {
    SubsetCount(Elements(list), ids);
    RepeatFree(list);
    i, j :| 0 <= i < j < |list| && list[i] == list[j];
  }

  // The first id each of the ticks 1, 2, ... announces.
  function Firsts(sent: seq<seq<int>>): seq<int>
    requires forall k :: 0 <= k < |sent| ==> sent[k] != []
  {
    seq(|sent|, k requires 0 <= k < |sent| => sent[k][0])
  }

  lemma FirstsWithin(sent: seq<seq<int>>, ids: set<int>) returns (i: nat, j: nat)
    requires forall k :: 0 <= k < |sent| ==> sent[k] != [] && Elements(sent[k]) <= ids
    requires |sent| > |ids|
    ensures i < j < |sent| && !Disjoint(sent[i], sent[j])
  {
    forall x | x in Elements(Firsts(sent)) ensures x in ids {
      var k :| 0 <= k < |sent| && Firsts(sent)[k] == x;
      assert x in Elements(sent[k]);
    }
    i, j := Pigeonhole(Firsts(sent), ids);
    assert sent[i][0] in Elements(sent[i]) && sent[j][0] in Elements(sent[j]);
  }

  function SentLater(seen: seq<Option<seq<int>>>, polls: seq<Poll>, remember: int): (sent: seq<seq<int>>)
    requires |seen| > |polls| > 0
    ensures |sent| == |polls| - 1
    ensures forall k :: 0 <= k < |sent| ==> sent[k] == SentAt(seen, polls, remember, k + 1)
  {
    seq(|polls| - 1, k requires 0 <= k < |polls| - 1 => SentAt(seen, polls, remember, k + 1))
  }

  lemma TwoOverlap(seen: seq<Option<seq<int>>>, polls: seq<Poll>, items: seq<Entry>, limit: int, remember: int)
    requires Polled(seen, polls, remember) && Fixed(polls, items, limit)
    requires DistinctIds(items) && limit > 0 && |ResolvedIds(items)| > Max(1, remember)
    requires |polls| >= |ResolvedIds(items)| + 2
    ensures !NeverTwiceOn(seen, polls, remember)
  {
    var sent := SentLater(seen, polls, remember);
    forall k | 0 <= k < |sent| ensures sent[k] != [] && Elements(sent[k]) <= Elements(ResolvedIds(items)) {
      TickAnnounces(seen, polls, items, limit, remember, k + 1);
    }
    var i, j := FirstsWithin(sent, Elements(ResolvedIds(items)));
    assert !Disjoint(SentAt(seen, polls, remember, i + 1), SentAt(seen, polls, remember, j + 1));
  }

  // FORGOTTEN, every run: a table of more resolved ids than are remembered is announced from at every tick after the
  // first, and within two polls more than it has ids some id was announced twice.
  lemma ForgottenRepeats(seen: seq<Option<seq<int>>>, polls: seq<Poll>, items: seq<Entry>, limit: int, remember: int)
    requires Polled(seen, polls, remember) && Fixed(polls, items, limit)
    requires DistinctIds(items) && limit > 0 && |ResolvedIds(items)| > Max(1, remember)
    ensures forall i: nat :: 0 < i < |polls| ==> SentAt(seen, polls, remember, i) != []
    ensures |polls| >= |ResolvedIds(items)| + 2 ==> !NeverTwiceOn(seen, polls, remember)
  {
    forall i: nat | 0 < i < |polls| ensures SentAt(seen, polls, remember, i) != [] {
      TickAnnounces(seen, polls, items, limit, remember, i);
    }
    if |polls| >= |ResolvedIds(items)| + 2 {
      TwoOverlap(seen, polls, items, limit, remember);
    }
  }

  // The memory after n polls of one table.
  function SeenAfter(items: seq<Entry>, limit: int, remember: int, n: nat): Option<seq<int>> {
    if n == 0 then None else Some(SelectNew(items, SeenAfter(items, limit, remember, n - 1), limit, remember).nextSeen)
  }

  lemma AnnouncesNothing(items: seq<Entry>, seen: Option<seq<int>>, limit: int, remember: int)
    requires limit <= 0
    ensures SelectNew(items, seen, limit, remember).dispatch == []
  {
  }

  lemma RunOf(items: seq<Entry>, limit: int, remember: int, n: nat) returns (seen: seq<Option<seq<int>>>, polls: seq<Poll>)
    requires DistinctIds(items)
    ensures |polls| == n && Polled(seen, polls, remember) && Fixed(polls, items, limit) && seen[0].None?
  {
    polls := seq(n, _ => Poll(items, limit));
    seen := seq(n + 1, i requires 0 <= i => SeenAfter(items, limit, remember, i));
  }

  lemma OnceWhileItFits(seen: seq<Option<seq<int>>>, polls: seq<Poll>, items: seq<Entry>, limit: int, remember: int)
    requires Polled(seen, polls, remember) && Fixed(polls, items, limit) && seen[0].None? && DistinctIds(items)
    requires |ResolvedIds(items)| <= Max(1, remember) || limit <= 0
    ensures NeverTwiceOn(seen, polls, remember)
  {
    forall i, j | 0 <= i < j < |polls| ensures Disjoint(SentAt(seen, polls, remember, i), SentAt(seen, polls, remember, j)) {
      if limit <= 0 {
        AnnouncesNothing(items, seen[i], limit, remember);
      } else {
        assert Fits(polls, remember, Elements(ResolvedIds(items)));
        AnnouncedOnce(seen, polls, remember, Elements(ResolvedIds(items)), i, j);
      }
    }
  }

  // TWICE, exactly when: on the runs of a table from an empty memory no id is announced twice if and only if all its
  // resolved ids fit in the memory, or nothing may be announced.
  lemma NeverTwiceExactlyWhen(items: seq<Entry>, limit: int, remember: int)
    requires DistinctIds(items)
    ensures (forall seen: seq<Option<seq<int>>>, polls: seq<Poll> | Polled(seen, polls, remember) && Fixed(polls, items, limit) && seen[0].None? :: NeverTwiceOn(seen, polls, remember))
      <==> |ResolvedIds(items)| <= Max(1, remember) || limit <= 0
  {
    if |ResolvedIds(items)| <= Max(1, remember) || limit <= 0 {
      forall seen: seq<Option<seq<int>>>, polls: seq<Poll> | Polled(seen, polls, remember) && Fixed(polls, items, limit) && seen[0].None?
        ensures NeverTwiceOn(seen, polls, remember)
      {
        OnceWhileItFits(seen, polls, items, limit, remember);
      }
    } else {
      var seen, polls := RunOf(items, limit, remember, |ResolvedIds(items)| + 2);
      TwoOverlap(seen, polls, items, limit, remember);
    }
  }

  // One such tick: two ids resolved, a memory of one.
  lemma ForgottenCase()
    ensures SelectNew([Entry(Some(1), true), Entry(Some(2), true)], Some([2]), 25, 1) == Announcement([1], [2], false)
  {
    var items := [Entry(Some(1), true), Entry(Some(2), true)];
    assert items[..1] == [Entry(Some(1), true)] && items[..1][..0] == [];
    assert ResolvedIds(items) == [1, 2] by {
      assert ResolvedIds(items[..1]) == ResolvedIds(items[..1][..0]) + [1];
    }
    assert [2][..0] == [] && Dedup([2]) == [2];
    assert [1, 2][1..] == [2];
    assert Filter([2], (id: int) => id !in [2]) == [];
    assert Without([1, 2], [2]) == [1];
    assert Sort([1], Lower) == [1];
    assert [2, 1][1..] == [1];
    assert Sort([1], Higher) == [1];
    assert Sort([2] + [1], Higher) == [2, 1];
  }
}
