/**
 The referendum feed of lib/democracy-live.js: which referenda it watches, and that its
 subscription is replaced whenever that set changes.
 */
module DemocracyLive {
  import opened Util
  import opened LiveFeeds

  const MAX_WATCHED_REFERENDA: nat := 64
  const INFO: nat := 0   // the slot of referendumInfoOf.multi

  // ---- the watched set ------------------------------------------------------------------

  // The first index taken from the chain's own counters.
  function FirstOpen(count: nat, lowestUnbaked: Option<nat>, restCount: nat): nat {
    var from := if lowestUnbaked.None? then restCount else lowestUnbaked.value;
    Max(Max(0, count - MAX_WATCHED_REFERENDA), from)
  }

  // Every index there is a reason to watch: counted, within the last MAX_WATCHED_REFERENDA and not below the chain's lowest
  // unbaked one (REST's count where that is unknown), or named.
  predicate Wanted(i: nat, count: nat, lowestUnbaked: Option<nat>, known: seq<nat>, held: seq<nat>, restCount: nat) {
    || (i < count <= i + MAX_WATCHED_REFERENDA && (match lowestUnbaked case Some(low) => low <= i case None => restCount <= i))
    || i in known || i in held
  }

  predicate Ascending(s: seq<nat>) {
    forall i, j :: 0 <= i < j < |s| ==> s[i] < s[j]
  }

  method Least(xs: set<nat>) returns (least: nat)
    requires xs != {}
    ensures least in xs && forall x :: x in xs ==> least <= x
  {
    least :| least in xs;
    var rest := xs;
    while rest != {}
      invariant rest <= xs && least in xs
      invariant forall x :: x in xs ==> x in rest || least <= x
      decreases |rest|
    {
      var x :| x in rest;
      if x < least {
        least := x;
      }
      rest := rest - {x};
    }
  }

  // Array.from(set).sort, for numbers.
  method SortedSet(xs: set<nat>) returns (s: seq<nat>)
    ensures Ascending(s) && |s| == |xs| && forall x :: x in s <==> x in xs
  {
    s := [];
    var left := xs;
    while left != {}
      invariant left <= xs && Ascending(s) && |s| + |left| == |xs|
      invariant forall x :: x in s <==> x in xs && x !in left
      invariant forall p, y :: 0 <= p < |s| && y in left ==> s[p] < y
      decreases |left|
    {
      var least := Least(left);
      s := s + [least];
      left := left - {least};
    }
  }

  lemma AscendingCut(all: seq<nat>, cut: nat, i: nat, j: nat)
    requires Ascending(all) && cut <= |all| && i in all && i !in all[cut..] && j in all[cut..]
    ensures i < j
  {
    var p :| 0 <= p < |all| && all[p] == i;
    var q :| 0 <= q < |all| - cut && all[cut..][q] == j;
    assert forall r :: cut <= r < |all| ==> all[cut..][r - cut] == all[r] && all[r] in all[cut..];
    assert all[cut + q] == j;
  }

  // sort().slice(-MAX_WATCHED_REFERENDA).
  method Newest(chosen: set<nat>) returns (newest: seq<nat>)
    ensures Ascending(newest) && |newest| <= MAX_WATCHED_REFERENDA
    ensures forall i :: i in newest ==> i in chosen
    ensures forall i, j :: i in chosen && i !in newest && j in newest ==> i < j
    ensures forall i :: i in chosen && i !in newest ==> |newest| == MAX_WATCHED_REFERENDA
  {
    var all := SortedSet(chosen);
    var cut := Max(0, |all| - MAX_WATCHED_REFERENDA);
    newest := all[cut..];
    forall i, j | i in chosen && i !in newest && j in newest ensures i < j {
      AscendingCut(all, cut, i, j);
    }
    assert cut == 0 ==> newest == all;
    assert forall i :: i in newest ==> i in all;
  }

  // The indexes the chain's own counters ask for.
  method CountedIndexes(count: nat, lowestUnbaked: Option<nat>, restCount: nat) returns (chosen: set<nat>)
    ensures forall i: nat :: i in chosen <==> FirstOpen(count, lowestUnbaked, restCount) <= i < count
  {
    chosen := {};
    var i := FirstOpen(count, lowestUnbaked, restCount);
    while i < count
      invariant forall x: nat :: x in chosen <==> FirstOpen(count, lowestUnbaked, restCount) <= x < Min(i, Max(count, FirstOpen(count, lowestUnbaked, restCount)))
    {
      chosen := chosen + {i};
      i := i + 1;
    }
  }

  // watchedReferenda: the newest of the wanted indexes, in order.
  method WatchedReferenda(count: nat, lowestUnbaked: Option<nat>, known: seq<nat>, held: seq<nat>, restCount: nat)
    returns (watched: seq<nat>)
    ensures Ascending(watched) && |watched| <= MAX_WATCHED_REFERENDA
    ensures forall i :: i in watched ==> Wanted(i, count, lowestUnbaked, known, held, restCount)
    ensures forall i: nat :: Wanted(i, count, lowestUnbaked, known, held, restCount) && i !in watched ==>
      |watched| == MAX_WATCHED_REFERENDA && forall j :: j in watched ==> i < j
  {
    var chosen := CountedIndexes(count, lowestUnbaked, restCount);
    chosen := chosen + (set i | i in known) + (set i | i in held);
    assert forall i: nat :: Wanted(i, count, lowestUnbaked, known, held, restCount) <==> i in chosen;
    watched := Newest(chosen);
  }

  // ---- the feed ------------------------------------------------------------------------------

  // One referendum as delivered: still ongoing, or over. None: gone from storage.
  type Status = Option<bool>

  class Feed {
    const holder: Holder
    var hasLowest: bool
    var count: Option<nat>
    var lowestUnbaked: Option<nat>
    var watched: seq<nat>
    var ongoing: map<nat, bool>   // state.refs: is its status Ongoing
    var asked: map<nat, seq<nat>>   // the list each info subscription was made for

    constructor (hasLowest: bool)
      ensures Valid() && fresh(holder) && !holder.stopped && watched == [] && ongoing == map[]
    {
      holder := new Holder(Guarded, [INFO]);
      this.hasLowest, count, lowestUnbaked, watched, ongoing, asked := hasLowest, None, None, [], map[], map[];
      new;
      NewFeedValid(Guarded, [INFO]);
      assert holder.Contents().stoppers[0] == DropSlot(INFO);
    }

    // The live info subscription is for the watched list, and there is one exactly while
    // something is watched.
    ghost predicate Valid()
      reads this, holder
    {
      && LiveFeeds.Valid(holder.Contents()) && holder.CurInRange() && holder.shape.Guarded?
      && (holder.stopped || DropSlot(INFO) in holder.stoppers)
      && (!holder.stopped ==> (INFO in holder.cur <==> watched != []))
      && (!holder.stopped && INFO in holder.cur ==> holder.cur[INFO] in asked && asked[holder.cur[INFO]] == watched)
    }

    predicate Ready()
      reads this, holder
    {
      !holder.stopped && count.Some? && (hasLowest ==> lowestUnbaked.Some?)
    }

    // Not stopped, and the chain's counters known: the count, and the lowest unbaked index where the runtime has one.
    ghost predicate Informed()
      reads this, holder
    {
      if holder.stopped || count == None then false else hasLowest ==> lowestUnbaked != None
    }

    function Lowest(): Option<nat>
      reads this
    {
      if hasLowest then lowestUnbaked else None
    }

    method HeldIndexes() returns (held: seq<nat>)
      ensures forall i :: i in held <==> i in ongoing && ongoing[i]
    {
      held := SortedSet(set i | i in ongoing && ongoing[i]);
    }

    // The holder and the lists asked for after the watched list became `next`.
    ghost predicate Switched(was: LiveFeeds.Feed, watched0: seq<nat>, asked0: map<nat, seq<nat>>)
      reads this, holder
    {
      if watched == watched0 then holder.Contents() == was && asked == asked0
      else if watched == [] then holder.Contents() == Dropped(was, INFO, false) && asked == asked0
      else holder.Contents() == Replaced(was, INFO, false) && asked == asked0[|was.subs| := watched]
    }

    // Whatever the old subscription's function throws is caught in the drop.
    method Watch(next: seq<nat>)
      requires Valid() && !holder.stopped && next != watched
      modifies this`watched, this`asked, holder
      ensures Valid() && !holder.stopped && watched == next
      ensures Switched(old(holder.Contents()), old(watched), old(asked))
    {
      watched := next;
      var throws := *;
      if next == [] {
        DropOk(holder.Contents(), holder.stoppers, INFO, throws);
        var _ := holder.Drop(INFO, throws);
      } else {
        NextValid(holder.Contents(), INFO, throws);
        var id := holder.Next(INFO, throws);
        asked := asked[id.value := next];
      }
    }

    // resync(): afterwards the watched list is up to date and subscribed to; until the counters are known, and when the
    // list is as before, nothing changes.
    method Resync(known: seq<nat>, restCount: nat)
      requires Valid()
      modifies this`watched, this`asked, holder
      ensures Valid() && holder.stopped == old(holder.stopped)
      ensures Informed() ==> Ascending(watched) && UpToDate(known, restCount)
      ensures !Informed() ==> watched == old(watched)
      ensures Switched(old(holder.Contents()), old(watched), old(asked))
    {
      if !Ready() {
        return;
      }
      var held := HeldIndexes();
      var next := WatchedReferenda(count.value, Lowest(), known, held, restCount);
      if next != watched {
        Watch(next);
      }
    }

    // A referendum is watched if the chain, the REST data or the feed itself says it is
    // open, unless the newest MAX_WATCHED_REFERENDA are all newer.
    ghost predicate UpToDate(known: seq<nat>, restCount: nat)
      requires count.Some?
      reads this
    {
      var low := if !hasLowest then None else lowestUnbaked;
      && (forall i :: i in watched ==>
            Wanted(i, count.value, low, known, [], restCount) || (i in ongoing && ongoing[i]))
      && (forall i: nat :: i !in watched && (Wanted(i, count.value, low, known, [], restCount) || (i in ongoing && ongoing[i])) ==>
            |watched| == MAX_WATCHED_REFERENDA && forall j :: j in watched ==> i < j)
    }

    // The info subscription delivers. A subscription that is over changes nothing.
    method OnInfo(id: nat, list: seq<Status>, known: seq<nat>, restCount: nat)
      requires Valid() && id in asked && id < |holder.subs| && holder.subs[id].slot == Some(INFO)
      modifies this`watched, this`asked, this`ongoing, holder
      ensures Valid() && holder.stopped == old(holder.stopped)
      ensures !old(Live(holder.Contents(), id)) ==>
        ongoing == old(ongoing) && watched == old(watched) && asked == old(asked) && holder.Contents() == old(holder.Contents())
      ensures Switched(old(holder.Contents()), old(watched), old(asked))
      ensures old(Live(holder.Contents(), id)) && Informed() ==> UpToDate(known, restCount)
      ensures !Informed() ==> watched == old(watched)
      ensures old(Live(holder.Contents(), id)) ==> ongoing == Applied(old(ongoing), old(asked[id]), list, known)
    {
      if holder.stopped || holder.subs[id].dead {
        return;
      }
      var mine := asked[id];
      for k := 0 to |list|
        modifies this`ongoing
        invariant Applied(ongoing, mine[Min(k, |mine|)..], list[k..], known) == Applied(old(ongoing), mine, list, known)
      {
        if k < |mine| {
          assert mine[k..][1..] == mine[k + 1..] && list[k..][1..] == list[k + 1..];
          AppliedStep(ongoing, mine[k..], list[k..], known);
          var i := mine[k];
          if list[k].Some? {
            ongoing := ongoing[i := list[k].value];
          } else if (if i in ongoing then ongoing[i] else i in known) {
            ongoing := ongoing[i := false];
          }
        }
      }
      Resync(known, restCount);
    }

    // referendumCount delivers.
    method OnCount(n: nat, known: seq<nat>, restCount: nat)
      requires Valid()
      modifies this`count, this`watched, this`asked, holder
      ensures Valid() && holder.stopped == old(holder.stopped)
      ensures count == if old(holder.stopped) then old(count) else Some(n)
      ensures old(holder.stopped) || old(count) == Some(n) || !Informed() ==> watched == old(watched)
      ensures !old(holder.stopped) && old(count) != Some(n) && Informed() ==> UpToDate(known, restCount)
      ensures Switched(old(holder.Contents()), old(watched), old(asked))
    {
      if holder.stopped || count == Some(n) {
        return;
      }
      count := Some(n);
      Resync(known, restCount);
    }

    // lowestUnbaked delivers, or its subscription failed.
    method OnLowest(n: Option<nat>, known: seq<nat>, restCount: nat)
      requires Valid()
      modifies this`lowestUnbaked, this`hasLowest, this`watched, this`asked, holder
      ensures Valid() && holder.stopped == old(holder.stopped)
      ensures lowestUnbaked == if n.Some? && !holder.stopped then n else old(lowestUnbaked)
      ensures hasLowest == (n.Some? && old(hasLowest))
      ensures !Informed() ==> watched == old(watched)
      ensures !old(holder.stopped) && Informed() ==> UpToDate(known, restCount)
      ensures Switched(old(holder.Contents()), old(watched), old(asked))
    {
      if n.Some? {
        if holder.stopped {
          return;
        }
        lowestUnbaked := n;
      } else {
        hasLowest := false;
      }
      Resync(known, restCount);
    }
  }

  lemma AppliedStep(ongoing: map<nat, bool>, indexes: seq<nat>, list: seq<Status>, known: seq<nat>)
    requires indexes != [] && list != []
    ensures
      var i := indexes[0];
      var next := if list[0].Some? then ongoing[i := list[0].value]
                  else if (if i in ongoing then ongoing[i] else i in known) then ongoing[i := false] else ongoing;
      Applied(ongoing, indexes, list, known) == Applied(next, indexes[1..], list[1..], known)
  {
  }

  ghost predicate DistinctIndexes(s: seq<nat>) {
    forall i, j :: 0 <= i < j < |s| ==> s[i] != s[j]
  }

  // DELIVERED: each index of the delivered list takes the status delivered; one gone from storage is over if it was open,
  // or known to be while never seen; every other index stays.
  lemma {:induction false} AppliedIs(ongoing: map<nat, bool>, indexes: seq<nat>, list: seq<Status>, known: seq<nat>, i: nat)
    requires DistinctIndexes(indexes)
    ensures
      var now := Applied(ongoing, indexes, list, known);
      if k :| 0 <= k < |indexes| && k < |list| && indexes[k] == i then
        match list[k]
        case Some(open) => i in now && now[i] == open
        case None =>
          if i in ongoing then i in now && now[i] == false
          else if i in known then i in now && now[i] == false else i !in now
      else (i in now <==> i in ongoing) && (i in now ==> now[i] == ongoing[i])
    decreases |list|
  {
    if indexes != [] && list != [] {
      var first := indexes[0];
      var next := if list[0].Some? then ongoing[first := list[0].value]
                  else if (if first in ongoing then ongoing[first] else first in known) then ongoing[first := false] else ongoing;
      assert forall k :: 0 <= k < |indexes[1..]| ==> indexes[1..][k] == indexes[k + 1];
      assert forall k :: 0 <= k < |list[1..]| ==> list[1..][k] == list[k + 1];
      AppliedIs(next, indexes[1..], list[1..], known, i);
    }
  }

  // The statuses after a delivery: what was seen, and what is gone while it was open.
  function Applied(ongoing: map<nat, bool>, indexes: seq<nat>, list: seq<Status>, known: seq<nat>): map<nat, bool>
    decreases |list|
  {
    if indexes == [] || list == [] then ongoing
    else
      var i := indexes[0];
      var next := if list[0].Some? then ongoing[i := list[0].value]
                  else if (if i in ongoing then ongoing[i] else i in known) then ongoing[i := false] else ongoing;
      Applied(next, indexes[1..], list[1..], known)
  }
}
