/** The life of discussion threads under lagging reads (lib/discussion-threads.js). */
module DiscussionThreads {
  // One thread per proposal, motion, external proposal and referendum, opened, closed and reopened from reads of nodes
  // that may lag. Guards decide which reads may close and reopen.

  import opened Util

  datatype Kind = Proposal | Motion | External | Referendum

  // A thread id is the kind's prefix and the item's key.
  datatype Id = Id(kind: Kind, key: string)

  datatype Outcome = Passed | Failed | Cancelled

  // Standard: AUTO_CLOSE_REASON[kind]; Launched: externalLaunchedReason; Ended: REFERENDUM_CLOSE_REASON.
  datatype Reason = Standard(kind: Kind) | Launched(refIndex: nat) | Ended(outcome: Outcome) | Other(text: string)

  datatype Status = Open | Closed(reason: Option<Reason>)

  // refKey: the numeric index, when the key is one; hash: the proposal hash, once known.
  datatype Thread = Thread(refKey: Option<int>, status: Status, hash: Option<string>)

  datatype Item = Item(key: string, refKey: Option<int>, hash: Option<string>)

  datatype Seen = Ongoing | Over(outcome: Outcome) | Unclear

  datatype RefRead = RefRead(item: Item, state: Seen)

  type Threads = map<Id, Thread>

  predicate IsAutoClose(kind: Kind, reason: Option<Reason>) {
    reason.Some? && (
      || reason.value == Standard(kind)
      || (kind == External && reason.value.Launched?)
      || (kind == Referendum && reason.value.Ended?))
  }

  // ---- trust ---------------------------------------------------------

  function NextHighWater(prev: int, block: Option<int>): int {
    if block.None? then prev else Max(prev, block.value)
  }

  predicate BlockCheck(block: Option<int>, highWater: int) {
    block.Some? && block.value >= highWater
  }

  // The counter a read reports: none on this runtime, one that is no number, or a number.
  datatype Counter = NoCounter | Garbled | Counter(n: int)

  function Highest(refKeys: seq<Option<int>>): int {
    if refKeys == [] then -1
    else
      var rest := Highest(refKeys[..|refKeys| - 1]);
      if refKeys[|refKeys| - 1].Some? then Max(rest, refKeys[|refKeys| - 1].value) else rest
  }

  predicate CountCheck(count: Counter, block: Option<int>, highWater: int, refKeys: seq<Option<int>>) {
    && BlockCheck(block, highWater)
    && (count.NoCounter? || (count.Counter? && Highest(refKeys) < count.n))
  }

  // One read of one kind: its block, its counter, whether the list was read whole, what it lists, and the mark of the
  // other kinds it must not be behind (the democracy kinds share theirs).
  datatype Read = Read(kind: Kind, block: Option<int>, count: Counter, listTrusted: bool, floor: int,
                       items: seq<Item>, referenda: seq<RefRead>, closeReasons: map<Id, Reason>)

  // proposalReadTrusted, referendumReadTrusted, motionReadTrusted, externalReadTrusted.
  predicate Trusted(read: Read, mark: int, refKeys: seq<Option<int>>) {
    match read.kind
    case Motion => read.listTrusted && BlockCheck(read.block, Max(mark, read.floor))
    case External => BlockCheck(read.block, Max(mark, read.floor))
    case _ => CountCheck(read.count, read.block, Max(mark, read.floor), refKeys)
  }

  // ---- one item, one list --------------------------------------------

  function Annotated(t: Thread, item: Item): Thread {
    if t.hash.None? then t.(hash := item.hash) else t
  }

  function Healed(t: Thread, kind: Kind, trusted: bool): Thread {
    if trusted && t.status.Closed? && IsAutoClose(kind, t.status.reason) then t.(status := Open) else t
  }

  function Visit(threads: Threads, kind: Kind, item: Item, trusted: bool): Threads {
    var id := Id(kind, item.key);
    if id !in threads then threads[id := Thread(item.refKey, Open, item.hash)]
    else threads[id := Healed(Annotated(threads[id], item), kind, trusted)]
  }

  function Visited(threads: Threads, kind: Kind, items: seq<Item>, trusted: bool): Threads {
    if items == [] then threads
    else Visit(Visited(threads, kind, items[..|items| - 1], trusted), kind, items[|items| - 1], trusted)
  }

  function ActiveIds(kind: Kind, items: seq<Item>): set<Id> {
    set item | item in items :: Id(kind, item.key)
  }

  // The ids a pass over the list opens, and those it heals, in order.
  function CreatedIds(threads: Threads, kind: Kind, items: seq<Item>, trusted: bool): seq<Id> {
    if items == [] then []
    else
      var front, id := items[..|items| - 1], Id(kind, items[|items| - 1].key);
      CreatedIds(threads, kind, front, trusted) + if id in Visited(threads, kind, front, trusted) then [] else [id]
  }

  function ReopenedIds(threads: Threads, kind: Kind, items: seq<Item>, trusted: bool): seq<Id> {
    if items == [] then []
    else
      var front, item := items[..|items| - 1], items[|items| - 1];
      var id, mid := Id(kind, item.key), Visited(threads, kind, front, trusted);
      ReopenedIds(threads, kind, front, trusted)
      + if id in mid && Visit(mid, kind, item, trusted)[id].status != mid[id].status then [id] else []
  }

  lemma PassStep(threads: Threads, kind: Kind, items: seq<Item>, i: nat, trusted: bool)
    requires i < |items|
    ensures var (mid, item) := (Visited(threads, kind, items[..i], trusted), items[i]);
            var id, next := Id(kind, item.key), Visit(mid, kind, item, trusted);
            && Visited(threads, kind, items[..i + 1], trusted) == next
            && ActiveIds(kind, items[..i + 1]) == ActiveIds(kind, items[..i]) + {id}
            && CreatedIds(threads, kind, items[..i + 1], trusted)
               == CreatedIds(threads, kind, items[..i], trusted) + (if id !in mid then [id] else [])
            && ReopenedIds(threads, kind, items[..i + 1], trusted)
               == ReopenedIds(threads, kind, items[..i], trusted) + (if id in mid && mid[id].status != next[id].status then [id] else [])
  {
    assert items[..i + 1][..i] == items[..i];
    assert items[..i + 1] == items[..i] + [items[i]];
    ReopenedStep(threads, kind, items[..i + 1], trusted);
  }

  lemma ReopenedStep(threads: Threads, kind: Kind, items: seq<Item>, trusted: bool)
    requires items != []
    ensures var (front, item) := (items[..|items| - 1], items[|items| - 1]);
            var id, mid := Id(kind, item.key), Visited(threads, kind, front, trusted);
            ReopenedIds(threads, kind, items, trusted) == ReopenedIds(threads, kind, front, trusted)
              + if id in mid && mid[id].status != Visit(mid, kind, item, trusted)[id].status then [id] else []
  {
  }

  function CloseReason(reasons: map<Id, Reason>, id: Id): Reason {
    if id in reasons then reasons[id] else Standard(id.kind)
  }

  function CloseMissing(threads: Threads, kind: Kind, active: set<Id>, reasons: map<Id, Reason>): Threads {
    map id | id in threads ::
      if id.kind == kind && threads[id].status.Open? && id !in active
      then threads[id].(status := Closed(Some(CloseReason(reasons, id))))
      else threads[id]
  }

  function Reconciled(threads: Threads, kind: Kind, items: seq<Item>, trusted: bool, reasons: map<Id, Reason>): Threads {
    var seen := Visited(threads, kind, items, trusted);
    if trusted then CloseMissing(seen, kind, ActiveIds(kind, items), reasons) else seen
  }

  function VisitRef(threads: Threads, r: RefRead, trusted: bool): Threads {
    var id := Id(Referendum, r.item.key);
    match r.state
    case Ongoing => Visit(threads, Referendum, r.item, trusted)
    case Over(outcome) =>
      if trusted && id in threads && threads[id].status.Open?
      then threads[id := threads[id].(status := Closed(Some(Ended(outcome))))]
      else threads
    case Unclear => threads
  }

  function VisitedRefs(threads: Threads, list: seq<RefRead>, trusted: bool): Threads {
    if list == [] then threads
    else VisitRef(VisitedRefs(threads, list[..|list| - 1], trusted), list[|list| - 1], trusted)
  }

  // ---- the stored threads --------------------------------------------

  class Board {
    var threads: Threads
    var marks: map<Kind, int>

    constructor ()
      ensures threads == map[] && marks == map[]
    {
      threads, marks := map[], map[];
    }

    // createThreadIfMissing.
    method CreateThreadIfMissing(id: Id, item: Item) returns (created: bool)
      modifies this`threads
      ensures created == (id !in old(threads))
      ensures threads == if created then old(threads)[id := Thread(item.refKey, Open, item.hash)] else old(threads)
    {
      created := id !in threads;
      if created {
        threads := threads[id := Thread(item.refKey, Open, item.hash)];
      }
    }

    // closeThread.
    method CloseThread(id: Id, reason: Reason)
      requires id in threads && threads[id].status.Open?
      modifies this`threads
      ensures threads == old(threads)[id := old(threads)[id].(status := Closed(Some(reason)))]
    {
      threads := threads[id := threads[id].(status := Closed(Some(reason)))];
    }

    // One listed item: open its thread, or annotate and heal it.
    method VisitItem(kind: Kind, item: Item, trusted: bool) returns (created: bool, reopened: bool)
      modifies this`threads
      ensures threads == Visit(old(threads), kind, item, trusted)
      ensures created == (Id(kind, item.key) !in old(threads))
      ensures reopened == (!created && old(threads)[Id(kind, item.key)].status != threads[Id(kind, item.key)].status)
    {
      var id := Id(kind, item.key);
      reopened := false;
      created := CreateThreadIfMissing(id, item);
      if !created {
        var t := Annotated(threads[id], item);
        threads := threads[id := t];
        if trusted && t.status.Closed? && IsAutoClose(kind, t.status.reason) {
          threads := threads[id := t.(status := Open)];
          reopened := true;
        }
      }
    }

    // The first loop of reconcileThreads: open what is new, heal what was closed automatically.
    method VisitItems(kind: Kind, items: seq<Item>, trusted: bool)
      returns (created: seq<Id>, reopened: seq<Id>, activeIds: set<Id>)
      modifies this`threads
      ensures threads == Visited(old(threads), kind, items, trusted)
      ensures activeIds == ActiveIds(kind, items)
      ensures created == CreatedIds(old(threads), kind, items, trusted)
      ensures reopened == ReopenedIds(old(threads), kind, items, trusted)
    {
      created, reopened, activeIds := [], [], {};
      ghost var before := threads;
      for i := 0 to |items|
        invariant threads == Visited(before, kind, items[..i], trusted)
        invariant created == CreatedIds(before, kind, items[..i], trusted)
        invariant reopened == ReopenedIds(before, kind, items[..i], trusted)
        invariant activeIds == ActiveIds(kind, items[..i])
      {
        var it := items[i];
        PassStep(before, kind, items, i, trusted);
        activeIds := activeIds + {Id(kind, it.key)};
        var isNew, healed := VisitItem(kind, it, trusted);
        created := created + if isNew then [Id(kind, it.key)] else [];
        reopened := reopened + if healed then [Id(kind, it.key)] else [];
      }
      assert items[..|items|] == items;
    }

    // Its second loop: close the kind's open threads that the list does not name.
    method CloseMissingThreads(kind: Kind, activeIds: set<Id>, reasons: map<Id, Reason>) returns (closed: seq<Id>)
      modifies this`threads
      ensures threads == CloseMissing(old(threads), kind, activeIds, reasons)
      ensures forall id :: id in closed <==> id in old(threads) && old(threads)[id].status.Open? && threads[id].status.Closed?
    {
      closed := [];
      ghost var seen, target := threads, CloseMissing(threads, kind, activeIds, reasons);
      var openIds := set id | id in threads && id.kind == kind && threads[id].status.Open?;
      while openIds != {}
        invariant threads.Keys == seen.Keys
        invariant forall id :: id in openIds ==> id in seen && threads[id] == seen[id] && id.kind == kind && seen[id].status.Open?
        invariant forall id :: id in seen && id !in openIds ==> threads[id] == target[id]
        invariant forall id :: id in closed <==> id in seen && seen[id].status.Open? && threads[id].status.Closed?
      {
        var openId :| openId in openIds;
        openIds := openIds - {openId};
        if openId !in activeIds {
          CloseThread(openId, CloseReason(reasons, openId));
          closed := closed + [openId];
        }
      }
      assert threads == target;
    }

    // reconcileThreads.
    method ReconcileThreads(kind: Kind, items: seq<Item>, trusted: bool, reasons: map<Id, Reason>)
      returns (created: seq<Id>, reopened: seq<Id>, closed: seq<Id>)
      modifies this`threads
      ensures threads == Reconciled(old(threads), kind, items, trusted, reasons)
      ensures Logged(old(threads), threads, created, reopened, closed)
    {
      closed := [];
      ghost var before := threads;
      var activeIds: set<Id>;
      created, reopened, activeIds := VisitItems(kind, items, trusted);
      LogsPass(before, kind, items, trusted);
      if trusted {
        VisitedActive(before, kind, items, trusted);
        closed := CloseMissingThreads(kind, activeIds, reasons);
      }
    }

    // reconcileReferendumThreads.
    method ReconcileReferendumThreads(list: seq<RefRead>, trusted: bool)
      modifies this`threads
      ensures threads == VisitedRefs(old(threads), list, trusted)
    {
      ghost var before := threads;
      for i := 0 to |list|
        invariant threads == VisitedRefs(before, list[..i], trusted)
      {
        ghost var mid := threads;
        var r := list[i];
        var id := Id(Referendum, r.item.key);
        assert list[..i + 1][..i] == list[..i];
        match r.state {
          case Ongoing =>
            var isNew, healed := VisitItem(Referendum, r.item, trusted);
          case Over(outcome) =>
            if trusted && id in threads && threads[id].status.Open? {
              CloseThread(id, Ended(outcome));
            }
          case Unclear =>
        }
        assert threads == VisitRef(mid, r, trusted);
      }
      assert list[..|list|] == list;
    }

    // One read: decide its trust against the stored marks and keys, reconcile, and move the mark of a trusted read.
    method Observe(read: Read, refKeys: seq<Option<int>>)
      requires KeysOf(threads, read.kind, refKeys)
      modifies this
      ensures State(threads, marks) == Step(State(old(threads), old(marks)), read, refKeys)
    {
      var mark := if read.kind in marks then marks[read.kind] else 0;
      var trusted := Trusted(read, mark, refKeys);
      if read.kind == Referendum {
        ReconcileReferendumThreads(read.referenda, trusted);
      } else {
        var created, reopened, closed := ReconcileThreads(read.kind, read.items, trusted, read.closeReasons);
      }
      if trusted {
        marks := marks[read.kind := NextHighWater(mark, read.block)];
      }
    }
  }

  // What a pass has logged so far.
  ghost predicate Progress(before: Threads, now: Threads, created: seq<Id>, reopened: seq<Id>) {
    && (forall id :: id in before ==> id in now)
    && (forall id :: id in created <==> id !in before && id in now)
    && (forall id :: id in reopened <==> id in before && id in now && before[id].status.Closed? && now[id].status.Open?)
    && (forall id :: id in before && before[id].status.Open? ==> now[id].status.Open?)
    && (forall id :: id !in before && id in now ==> now[id].status.Open?)
  }

  lemma ProgressStep(before: Threads, mid: Threads, created: seq<Id>, reopened: seq<Id>, kind: Kind, item: Item, trusted: bool)
    requires Progress(before, mid, created, reopened)
    ensures var id, now := Id(kind, item.key), Visit(mid, kind, item, trusted);
            Progress(before, now, if id in mid then created else created + [id],
                     if id in mid && now[id].status != mid[id].status then reopened + [id] else reopened)
  {
  }

  lemma {:induction false} LogsPass(threads: Threads, kind: Kind, items: seq<Item>, trusted: bool)
    ensures Progress(threads, Visited(threads, kind, items, trusted),
                     CreatedIds(threads, kind, items, trusted), ReopenedIds(threads, kind, items, trusted))
  {
    if items != [] {
      var front, last := items[..|items| - 1], items[|items| - 1];
      var mid := Visited(threads, kind, front, trusted);
      var created, reopened := CreatedIds(threads, kind, front, trusted), ReopenedIds(threads, kind, front, trusted);
      LogsPass(threads, kind, front, trusted);
      ProgressStep(threads, mid, created, reopened, kind, last, trusted);
      assert created + [] == created && reopened + [] == reopened;
    }
  }

  // The three lists a pass returns.
  ghost predicate Logged(before: Threads, now: Threads, created: seq<Id>, reopened: seq<Id>, closed: seq<Id>) {
    && (forall id :: id in created <==> id !in before && id in now)
    && (forall id :: id in reopened <==> id in before && id in now && before[id].status.Closed? && now[id].status.Open?)
    && (forall id :: id in closed <==> id in before && id in now && before[id].status.Open? && now[id].status.Closed?)
  }

  // ---- the system ----------------------------------------------------

  datatype State = State(threads: Threads, marks: map<Kind, int>)

  function MarkOf(s: State, kind: Kind): int {
    if kind in s.marks then s.marks[kind] else 0
  }

  // getThreadRefKeys: the keys of the kind's threads, open or closed, in some order.
  ghost predicate KeysOf(threads: Threads, kind: Kind, refKeys: seq<Option<int>>) {
    && (forall id :: id in threads && id.kind == kind ==> threads[id].refKey in refKeys)
    && (forall k :: k in refKeys ==> exists id :: id in threads && id.kind == kind && threads[id].refKey == k)
  }

  function Step(s: State, read: Read, refKeys: seq<Option<int>>): State {
    var mark := MarkOf(s, read.kind);
    var trusted := Trusted(read, mark, refKeys);
    State(
      if read.kind == Referendum then VisitedRefs(s.threads, read.referenda, trusted)
      else Reconciled(s.threads, read.kind, read.items, trusted, read.closeReasons),
      if trusted then s.marks[read.kind := NextHighWater(mark, read.block)] else s.marks)
  }

  datatype Event = Event(read: Read, refKeys: seq<Option<int>>)

  ghost predicate IsTrusted(s: State, e: Event) {
    Trusted(e.read, MarkOf(s, e.read.kind), e.refKeys)
  }

  ghost predicate Run(states: seq<State>, events: seq<Event>) {
    && |states| == |events| + 1
    && forall i :: 0 <= i < |events| ==>
         && KeysOf(states[i].threads, events[i].read.kind, events[i].refKeys)
         && states[i + 1] == Step(states[i], events[i].read, events[i].refKeys)
  }

  // ---- one list, pointwise -------------------------------------------

  // Closed by someone else: a reason this module does not give to this kind.
  predicate Foreign(kind: Kind, t: Thread) {
    match t.status
    case Open => false
    case Closed(Some(Standard(k))) => k != kind
    case Closed(Some(Launched(_))) => kind != External
    case Closed(Some(Ended(_))) => kind != Referendum
    case Closed(_) => true
  }

  // What visiting a list of items does to one thread.
  ghost predicate AfterVisit(threads: Threads, kind: Kind, items: seq<Item>, trusted: bool, now: Threads, id: Id) {
    && (id !in threads ==> (id in now <==> id in ActiveIds(kind, items)) && (id in now ==> now[id].status == Open))
    && (id in threads ==>
          && id in now && now[id].refKey == threads[id].refKey
          && (threads[id].hash.Some? ==> now[id].hash == threads[id].hash)
          && now[id].status == if id in ActiveIds(kind, items) then Healed(threads[id], kind, trusted).status else threads[id].status)
  }

  lemma {:induction false} VisitedIs(threads: Threads, kind: Kind, items: seq<Item>, trusted: bool, id: Id)
    ensures AfterVisit(threads, kind, items, trusted, Visited(threads, kind, items, trusted), id)
  {
    if items != [] {
      var front, last := items[..|items| - 1], items[|items| - 1];
      VisitedIs(threads, kind, front, trusted, id);
      assert items == front + [last];
    }
  }

  // What was not stored before, or was healed, is active.
  lemma VisitedActive(threads: Threads, kind: Kind, items: seq<Item>, trusted: bool)
    ensures var now := Visited(threads, kind, items, trusted);
            forall id :: id in now && id !in ActiveIds(kind, items) ==> id in threads && now[id].status == threads[id].status
  {
    var now := Visited(threads, kind, items, trusted);
    forall id | id in now && id !in ActiveIds(kind, items) ensures id in threads && now[id].status == threads[id].status {
      VisitedIs(threads, kind, items, trusted, id);
    }
  }

  // TRUSTED: after a trusted read, a thread of its kind that no one else closed is open exactly when its item is in
  // the read's list; the threads of other kinds, and the foreign closes, are as they were.
  lemma TrustedReadDecides(threads: Threads, kind: Kind, items: seq<Item>, reasons: map<Id, Reason>, id: Id)
    ensures var now := Reconciled(threads, kind, items, true, reasons);
            && (id in now <==> id in threads || id in ActiveIds(kind, items))
            && (id in now && id.kind == kind && !(id in threads && Foreign(kind, threads[id])) ==>
                  (now[id].status.Open? <==> id in ActiveIds(kind, items)))
            && (id in threads && (id.kind != kind || Foreign(kind, threads[id])) ==> now[id].status == threads[id].status)
  {
    VisitedIs(threads, kind, items, true, id);
  }

  // LAGGING: an untrusted read opens what is new and changes no status.
  lemma UntrustedReadOnlyCreates(threads: Threads, kind: Kind, items: seq<Item>, reasons: map<Id, Reason>, id: Id)
    ensures var now := Reconciled(threads, kind, items, false, reasons);
            && (id in now <==> id in threads || id in ActiveIds(kind, items))
            && (id in now ==> now[id].status == if id in threads then threads[id].status else Open)
  {
    VisitedIs(threads, kind, items, false, id);
  }

  // ---- referenda, pointwise ------------------------------------------

  ghost predicate DistinctReads(list: seq<RefRead>) {
    forall i, j :: 0 <= i < j < |list| ==> list[i].item.key != list[j].item.key
  }

  ghost predicate Mentions(list: seq<RefRead>, id: Id) {
    id.kind == Referendum && exists i :: 0 <= i < |list| && list[i].item.key == id.key
  }

  lemma {:induction false} UnreadIsUntouched(threads: Threads, list: seq<RefRead>, trusted: bool, id: Id)
    requires !Mentions(list, id)
    ensures var now := VisitedRefs(threads, list, trusted);
            (id in now <==> id in threads) && (id in threads ==> now[id] == threads[id])
  {
    if list != [] {
      var front := list[..|list| - 1];
      assert forall i :: 0 <= i < |front| ==> front[i] == list[i];
      assert !Mentions(front, id);
      UnreadIsUntouched(threads, front, trusted, id);
    }
  }

  // The status a referendum thread has after the one read of its index; None: there is no thread.
  function StatusAfter(threads: Threads, r: RefRead, trusted: bool): Option<Status> {
    var id := Id(Referendum, r.item.key);
    if id !in threads then if r.state == Ongoing then Some(Open) else None
    else match (r.state, threads[id].status)
      case (Ongoing, Closed(Some(Standard(Referendum)))) => Some(if trusted then Open else threads[id].status)
      case (Ongoing, Closed(Some(Ended(_)))) => Some(if trusted then Open else threads[id].status)
      case (Over(outcome), Open) => Some(if trusted then Closed(Some(Ended(outcome))) else Open)
      case _ => Some(threads[id].status)
  }

  // EVIDENCE: a referendum thread follows the one read of its index: opened or healed while ongoing, closed by a
  // trusted read that saw it end, otherwise (and when the index could not be read) left alone.
  lemma ReferendumFollowsItsRead(threads: Threads, list: seq<RefRead>, trusted: bool, k: nat)
    requires DistinctReads(list) && k < |list|
    ensures var id, now := Id(Referendum, list[k].item.key), VisitedRefs(threads, list, trusted);
            (if id in now then Some(now[id].status) else None) == StatusAfter(threads, list[k], trusted)
  {
    OneReadCounts(threads, list, trusted, k);
  }

  lemma {:induction false} OneReadCounts(threads: Threads, list: seq<RefRead>, trusted: bool, k: nat)
    requires DistinctReads(list) && k < |list|
    ensures var id, now := Id(Referendum, list[k].item.key), VisitedRefs(threads, list, trusted);
            var only := VisitRef(threads, list[k], trusted);
            (id in now <==> id in only) && (id in now ==> now[id] == only[id])
  {
    var front, last := list[..|list| - 1], list[|list| - 1];
    var id := Id(Referendum, list[k].item.key);
    if k < |list| - 1 {
      assert front[k] == list[k];
      OneReadCounts(threads, front, trusted, k);
      assert last.item.key != id.key;
    } else {
      assert forall i :: 0 <= i < |front| ==> front[i] == list[i] && front[i].item.key != id.key;
      UnreadIsUntouched(threads, front, trusted, id);
    }
  }

  // What one referendum read can do to a status, whatever else the list says.
  lemma {:induction false} ReferendumStatus(threads: Threads, list: seq<RefRead>, trusted: bool, id: Id)
    requires id in threads
    ensures var now := VisitedRefs(threads, list, trusted);
            && id in now && now[id].refKey == threads[id].refKey
            && (now[id].status != threads[id].status ==> trusted && id.kind == Referendum)
            && (Foreign(id.kind, threads[id]) ==> now[id].status == threads[id].status)
            && (threads[id].hash.Some? ==> now[id].hash == threads[id].hash)
  {
    if list != [] {
      ReferendumStatus(threads, list[..|list| - 1], trusted, id);
    }
  }

  // ---- trust, on the read's fields ------------------------------------

  // TRUST: a read is trusted exactly when it has a block not behind the marks and: a motion list was read whole; for
  // proposals and referenda, a counter there is is a number past every stored index.
  lemma TrustedExactlyWhen(read: Read, mark: int, refKeys: seq<Option<int>>)
    ensures Trusted(read, mark, refKeys) <==>
      && read.block.Some? && read.block.value >= mark && read.block.value >= read.floor
      && (read.kind == Motion ==> read.listTrusted)
      && (read.kind in {Proposal, Referendum} ==>
            || read.count == NoCounter
            || (read.count.Counter? && read.count.n >= 0 && forall k :: k in refKeys && k.Some? ==> k.value < read.count.n))
  {
    HighestBounds(refKeys);
    HighestIsOne(refKeys);
  }

  lemma {:induction false} HighestIsOne(refKeys: seq<Option<int>>)
    ensures Highest(refKeys) == -1 || Some(Highest(refKeys)) in refKeys
    ensures Highest(refKeys) >= -1
  {
    if refKeys != [] {
      HighestIsOne(refKeys[..|refKeys| - 1]);
    }
  }

  // ---- one step ------------------------------------------------------

  lemma {:induction false} HighestBounds(refKeys: seq<Option<int>>)
    ensures forall k :: k in refKeys && k.Some? ==> k.value <= Highest(refKeys)
  {
    if refKeys != [] {
      var front := refKeys[..|refKeys| - 1];
      HighestBounds(front);
      assert refKeys == front + [refKeys[|refKeys| - 1]];
    }
  }

  // MARKS: a trusted read sets its kind's mark to its block, an untrusted one leaves it, and no read moves another's; a read
  // without a block moves none.
  lemma MarksFollowTrust(s: State, e: Event, kind: Kind)
    ensures MarkOf(Step(s, e.read, e.refKeys), kind)
         == if IsTrusted(s, e) && kind == e.read.kind && e.read.block.Some? then e.read.block.value else MarkOf(s, kind)
    ensures forall mark :: NextHighWater(mark, None) == mark
  {
  }

  // What any read does to a stored thread.
  lemma StepStatus(s: State, e: Event, id: Id)
    requires id in s.threads
    ensures var t := Step(s, e.read, e.refKeys);
            && id in t.threads && t.threads[id].refKey == s.threads[id].refKey
            && (t.threads[id].status != s.threads[id].status ==> IsTrusted(s, e) && id.kind == e.read.kind)
            && (Foreign(id.kind, s.threads[id]) ==> t.threads[id].status == s.threads[id].status)
            && (s.threads[id].hash.Some? ==> t.threads[id].hash == s.threads[id].hash)
  {
    var trusted := IsTrusted(s, e);
    if e.read.kind == Referendum {
      ReferendumStatus(s.threads, e.read.referenda, trusted, id);
    } else {
      VisitedIs(s.threads, e.read.kind, e.read.items, trusted, id);
    }
  }

  ghost predicate ChangesStatus(s: State, e: Event, id: Id)
    requires id in s.threads
  {
    var t := Step(s, e.read, e.refKeys);
    id in t.threads && t.threads[id].status != s.threads[id].status
  }

  // CURRENT: a proposal or referendum thread changes status only on a read whose counter, where it has one, is past
  // the indexes of all stored threads of the kind: a node that has not seen the item yet closes nothing.
  lemma CounterCoversChanges(s: State, e: Event, id: Id)
    requires KeysOf(s.threads, e.read.kind, e.refKeys) && id in s.threads
    requires e.read.kind in {Proposal, Referendum} && e.read.count != NoCounter
    requires ChangesStatus(s, e, id)
    ensures e.read.count.Counter?
    ensures forall other :: other in s.threads && other.kind == e.read.kind && s.threads[other].refKey.Some?
              ==> s.threads[other].refKey.value < e.read.count.n
  {
    StepStatus(s, e, id);
    HighestBounds(e.refKeys);
  }

  // ---- runs ----------------------------------------------------------

  lemma {:induction false} MarksRise(states: seq<State>, events: seq<Event>, i: nat, j: nat, kind: Kind)
    requires Run(states, events) && i <= j < |states|
    ensures MarkOf(states[i], kind) <= MarkOf(states[j], kind)
    decreases j - i
  {
    if i < j {
      MarksRise(states, events, i + 1, j, kind);
    }
  }

  // FORWARD: over any run, the blocks of a kind's trusted reads never go backwards.
  lemma TrustedBlocksRise(states: seq<State>, events: seq<Event>, i: nat, j: nat)
    requires Run(states, events) && i < j < |events| && events[i].read.kind == events[j].read.kind
    requires IsTrusted(states[i], events[i]) && IsTrusted(states[j], events[j])
    ensures events[i].read.block.Some? && events[j].read.block.Some?
    ensures events[i].read.block.value <= events[j].read.block.value
  {
    MarksRise(states, events, i + 1, j, events[i].read.kind);
  }

  // KEPT: over any run no thread is lost, and a close made for a foreign reason is never undone or reworded.
  lemma {:induction false} ForeignCloseIsFinal(states: seq<State>, events: seq<Event>, i: nat, j: nat, id: Id)
    requires Run(states, events) && i <= j < |states| && id in states[i].threads
    ensures id in states[j].threads
    ensures Foreign(id.kind, states[i].threads[id]) ==> states[j].threads[id].status == states[i].threads[id].status
    ensures states[i].threads[id].hash.Some? ==> states[j].threads[id].hash == states[i].threads[id].hash
    decreases j - i
  {
    if i < j {
      StepStatus(states[i], events[i], id);
      ForeignCloseIsFinal(states, events, i + 1, j, id);
    }
  }

  ghost predicate NoTrustedReadOf(states: seq<State>, events: seq<Event>, i: nat, j: nat, kind: Kind)
    requires |states| == |events| + 1
  {
    forall m :: i <= m < j && m < |events| ==> events[m].read.kind != kind || !IsTrusted(states[m], events[m])
  }

  lemma {:induction false} StatusWaitsForTrust(states: seq<State>, events: seq<Event>, i: nat, j: nat, id: Id)
    requires Run(states, events) && i <= j < |states| && id in states[i].threads
    requires NoTrustedReadOf(states, events, i, j, id.kind)
    ensures id in states[j].threads && states[j].threads[id].status == states[i].threads[id].status
    decreases j - i
  {
    if i < j {
      StepStatus(states[i], events[i], id);
      StatusWaitsForTrust(states, events, i + 1, j, id);
    }
  }

  // LATEST: at every moment of a run, a thread known at the kind's last trusted read and not closed by someone else
  // is open exactly when that read listed its item, whatever lagging nodes said since.
  lemma StatusIsLastTrustedRead(states: seq<State>, events: seq<Event>, i: nat, j: nat, id: Id)
    requires Run(states, events) && i < j < |states| && id.kind != Referendum
    requires events[i].read.kind == id.kind && IsTrusted(states[i], events[i])
    requires NoTrustedReadOf(states, events, i + 1, j, id.kind)
    requires id in states[i + 1].threads && !(id in states[i].threads && Foreign(id.kind, states[i].threads[id]))
    ensures id in states[j].threads
    ensures states[j].threads[id].status.Open? <==> id in ActiveIds(id.kind, events[i].read.items)
  {
    var read := events[i].read;
    TrustedReadDecides(states[i].threads, id.kind, read.items, read.closeReasons, id);
    StatusWaitsForTrust(states, events, i + 1, j, id);
  }
}
