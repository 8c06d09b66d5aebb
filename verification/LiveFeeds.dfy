/** Who calls an unsubscribe function, and when: live feeds and the node link. */
module LiveFeeds {
  // hold, replaceable and stop in lib/democracy-live.js; hold, dropVoting, stop and liveWhileConnected in
  // lib/collective-live.js. An unsubscribe function may arrive late, after its slot was replaced or the page left.

  import opened Util

  // A subscription. slot: the replaceable slot it was opened for, if any. received: its
  // promise has resolved to an unsubscribe function. stored: the slot object keeps that function.
  datatype Sub = Sub(slot: Option<nat>, dead: bool, received: bool, stored: bool)

  // What stop() runs: a slot's drop, or one unsubscribe function.
  datatype Stopper = DropSlot(slot: nat) | Unsubscribe(id: nat)

  // What a subscription delivered.
  datatype Delivery = Delivery(id: nat, value: int)

  // Who catches what an unsubscribe function throws when its slot is dropped: the drop itself (lib/democracy-live.js), or
  // nobody before stop's own loop (lib/collective-live.js).
  datatype Shape = Guarded | Unguarded

  // calls: the unsubscribe functions called so far, each named by its subscription. applied: the deliveries the state
  // was built from, in order.
  datatype Feed = Feed(shape: Shape, stopped: bool, subs: seq<Sub>, cur: map<nat, nat>, stoppers: seq<Stopper>, calls: seq<nat>, applied: seq<Delivery>)

  // The replaceable slots are set up before anything else.
  function NewFeed(shape: Shape, slots: seq<nat>): Feed {
    Feed(shape, false, [], map[], seq(|slots|, i requires 0 <= i < |slots| => DropSlot(slots[i])), [], [])
  }

  // The function in the slot is called and throws, and the rest of the drop is skipped.
  predicate Aborts(f: Feed, k: nat, throws: bool) {
    throws && f.shape.Unguarded? && k in f.cur && f.cur[k] < |f.subs| && f.subs[f.cur[k]].stored
  }

  // throws: the slot's function throws, should it be called.
  function Dropped(f: Feed, k: nat, throws: bool): Feed {
    if k in f.cur && f.cur[k] < |f.subs| then
      var id := f.cur[k];
      f.(subs := f.subs[id := f.subs[id].(dead := true)],
         cur := if Aborts(f, k, throws) then f.cur else f.cur - {k},
         calls := if f.subs[id].stored then f.calls + [id] else f.calls)
    else f
  }

  // A new subscription in a slot, instead of the one there; none when the drop throws.
  function Replaced(f: Feed, k: nat, throws: bool): Feed {
    var d := Dropped(f, k, throws);
    if Aborts(f, k, throws) then d
    else d.(cur := d.cur[k := |d.subs|], subs := d.subs + [Sub(Some(k), false, false, false)])
  }

  function Subscribed(f: Feed): Feed {
    f.(subs := f.subs + [Sub(None, false, false, false)])
  }

  // The promise of a subscription resolves to its unsubscribe function.
  function Received(f: Feed, id: nat): Feed
    requires id < |f.subs|
  {
    var s := f.subs[id];
    if f.stopped || s.dead then f.(subs := f.subs[id := s.(received := true)], calls := f.calls + [id])
    else if s.slot.Some? then f.(subs := f.subs[id := s.(received := true, stored := true)])
    else f.(subs := f.subs[id := s.(received := true)], stoppers := f.stoppers + [Unsubscribe(id)])
  }

  // A subscription's callback: it returns at once when stopped or when its slot is dead.
  function Delivered(f: Feed, d: Delivery): Feed
    requires d.id < |f.subs|
  {
    if f.stopped || f.subs[d.id].dead then f else f.(applied := f.applied + [d])
  }

  // throwing: the slots whose functions throw; the loop catches it and goes on.
  function RunStopper(f: Feed, s: Stopper, throwing: set<nat>): Feed {
    match s
    case DropSlot(k) => Dropped(f, k, k in throwing)
    case Unsubscribe(id) => f.(calls := f.calls + [id])
  }

  function RunStoppers(f: Feed, list: seq<Stopper>, throwing: set<nat>): Feed
    decreases |list|
  {
    if list == [] then f else RunStoppers(RunStopper(f, list[0], throwing), list[1..], throwing)
  }

  function Stopped(f: Feed, throwing: set<nat>): Feed {
    if f.stopped then f else RunStoppers(f.(stopped := true, stoppers := []), f.stoppers, throwing)
  }

  // ---- exactly once, and not before ------------------------------------------------------------

  // The subscription still delivers.
  predicate Live(f: Feed, id: nat)
    requires id < |f.subs|
  {
    !f.stopped && !f.subs[id].dead
  }

  function Count(ids: seq<nat>, id: nat): nat {
    if ids == [] then 0 else Count(ids[..|ids| - 1], id) + if ids[|ids| - 1] == id then 1 else 0
  }

  function Times(stoppers: seq<Stopper>, id: nat): nat {
    if stoppers == [] then 0 else Times(stoppers[1..], id) + if stoppers[0] == Unsubscribe(id) then 1 else 0
  }

  // How often the function of a subscription has to have been called: once it is received
  // and the subscription is over, once; until then, not at all.
  function CallsDue(f: Feed, id: nat): nat
    requires id < |f.subs|
  {
    if f.subs[id].received && !Live(f, id) then 1 else 0
  }

  // With `list` still to run: what was called, and what the list will call.
  ghost predicate SubOk(f: Feed, list: seq<Stopper>, id: nat)
    requires id < |f.subs|
  {
    var s := f.subs[id];
    && (s.stored ==> s.received && s.slot.Some?)
    && (s.slot.None? ==>
          && !s.dead && Count(f.calls, id) + Times(list, id) == (if s.received then 1 else 0)
          && (!f.stopped ==> Count(f.calls, id) == 0))
    && (s.slot.Some? ==>
          && Times(list, id) == 0
          && Count(f.calls, id) == (if s.received && (s.dead || !s.stored) then 1 else 0)
          && (!s.dead ==> s.slot.value in f.cur && f.cur[s.slot.value] == id)
          && (s.dead && s.slot.value in f.cur && f.cur[s.slot.value] == id ==>
                f.stopped && f.shape.Unguarded? && DropSlot(s.slot.value) !in list)
          && (!s.dead && s.stored ==> DropSlot(s.slot.value) in list)
          && (s.received && !s.stored ==> s.dead || f.stopped))
  }

  ghost predicate CurOk(f: Feed, list: seq<Stopper>, k: nat)
    requires k in f.cur
  {
    f.cur[k] < |f.subs| && f.subs[f.cur[k]].slot == Some(k) && (f.stopped || DropSlot(k) in list)
  }

  ghost predicate Ok(f: Feed, list: seq<Stopper>) {
    && (forall id: nat :: id < |f.subs| ==> SubOk(f, list, id))
    && (forall id: nat :: id >= |f.subs| ==> Count(f.calls, id) == 0 && Times(list, id) == 0)
    && (forall k :: k in f.cur ==> CurOk(f, list, k))
  }

  // Each unguarded slot is dropped by one stopper.
  ghost predicate OneDropEach(f: Feed) {
    f.shape.Unguarded? ==> NoDropTwice(f.stoppers)
  }

  ghost predicate NoDropTwice(list: seq<Stopper>) {
    forall i, j :: 0 <= i < j < |list| && list[i].DropSlot? ==> list[i] != list[j]
  }

  ghost predicate Valid(f: Feed) {
    Ok(f, f.stoppers) && OneDropEach(f) && (f.stopped ==> f.stoppers == [])
  }

  lemma CountSnoc(ids: seq<nat>, x: nat, id: nat)
    ensures Count(ids + [x], id) == Count(ids, id) + if x == id then 1 else 0
  {
    assert (ids + [x])[..|ids + [x]| - 1] == ids;
  }

  lemma {:induction false} TimesSnoc(list: seq<Stopper>, x: Stopper, id: nat)
    ensures Times(list + [x], id) == Times(list, id) + if x == Unsubscribe(id) then 1 else 0
  {
    if list == [] {
      assert [] + [x] == [x] && [x][1..] == [];
    } else {
      assert (list + [x])[1..] == list[1..] + [x];
      TimesSnoc(list[1..], x, id);
    }
  }

  lemma {:induction false} NoUnsubscribes(slots: seq<nat>, list: seq<Stopper>, id: nat)
    requires forall s :: s in list ==> s.DropSlot?
    ensures Times(list, id) == 0
  {
    if list != [] {
      assert list[0] in list && list[0].DropSlot?;
      NoUnsubscribes(slots, list[1..], id);
    }
  }

  // A drop that is not cut short calls the stored function of the current subscription, once.
  lemma DropOk(f: Feed, list: seq<Stopper>, k: nat, throws: bool)
    requires Ok(f, list) && !Aborts(f, k, throws)
    requires f.shape.Guarded? || !f.stopped || DropSlot(k) in list
    ensures Ok(Dropped(f, k, throws), list) && k !in Dropped(f, k, throws).cur
    ensures |Dropped(f, k, throws).subs| == |f.subs|
  {
    if k in f.cur {
      assert CurOk(f, list, k);
      var d, at := Dropped(f, k, throws), f.cur[k];
      DropCounts(f, k, throws);
      forall id: nat | id < |d.subs| ensures SubOk(d, list, id) {
        assert SubOk(f, list, id) && SubOk(f, list, at);
      }
      forall j | j in d.cur ensures CurOk(d, list, j) {
        assert CurOk(f, list, j);
      }
    }
  }

  lemma DropCounts(f: Feed, k: nat, throws: bool)
    requires k in f.cur && f.cur[k] < |f.subs|
    ensures forall id: nat :: Count(Dropped(f, k, throws).calls, id)
              == Count(f.calls, id) + if id == f.cur[k] && f.subs[id].stored then 1 else 0
  {
    forall id: nat {
      CountSnoc(f.calls, f.cur[k], id);
    }
  }

  // A drop that is cut short during stop calls it once as well; its slot is not dropped again.
  lemma AbortOk(f: Feed, list: seq<Stopper>, k: nat)
    requires f.stopped && list != [] && list[0] == DropSlot(k) && Ok(f, list) && DropSlot(k) !in list[1..]
    requires Aborts(f, k, true)
    ensures Ok(Dropped(f, k, true), list[1..])
  {
    var d, at, rest := Dropped(f, k, true), f.cur[k], list[1..];
    assert CurOk(f, list, k);
    DropCounts(f, k, true);
    forall id: nat ensures Times(rest, id) == Times(list, id) {
    }
    forall id: nat | id < |d.subs| ensures SubOk(d, rest, id) {
      assert SubOk(f, list, id) && SubOk(f, list, at);
    }
    forall j | j in d.cur ensures CurOk(d, rest, j) {
      assert CurOk(f, list, j);
    }
  }

  lemma NextValid(f: Feed, k: nat, throws: bool)
    requires Valid(f) && (f.stopped || DropSlot(k) in f.stoppers) && !Aborts(f, k, throws) && (f.stopped ==> f.shape.Guarded?)
    ensures Valid(Replaced(f, k, throws)) && Replaced(f, k, throws).cur[k] == |f.subs|
  {
    DropOk(f, f.stoppers, k, throws);
    var d, n := Dropped(f, k, throws), Replaced(f, k, throws);
    forall id: nat | id < |n.subs| ensures SubOk(n, n.stoppers, id) {
      if id < |d.subs| {
        assert SubOk(d, d.stoppers, id);
        assert d.subs[id].slot == Some(k) ==> d.subs[id].dead;
      }
    }
    forall j | j in n.cur ensures CurOk(n, n.stoppers, j) {
      if j != k {
        assert CurOk(d, d.stoppers, j);
      }
    }
  }

  lemma SubscribeValid(f: Feed)
    requires Valid(f)
    ensures Valid(Subscribed(f))
  {
    var n := Subscribed(f);
    forall id: nat | id < |n.subs| ensures SubOk(n, n.stoppers, id) {
      if id < |f.subs| {
        assert SubOk(f, f.stoppers, id);
      }
    }
    forall j | j in n.cur ensures CurOk(n, n.stoppers, j) {
      assert CurOk(f, f.stoppers, j);
    }
  }

  lemma ReceiveValid(f: Feed, id: nat)
    requires Valid(f) && id < |f.subs| && !f.subs[id].received
    ensures Valid(Received(f, id))
  {
    var n := Received(f, id);
    assert SubOk(f, f.stoppers, id);
    forall i: nat
      ensures Count(n.calls, i) == Count(f.calls, i) + if i == id && !Live(f, id) then 1 else 0
      ensures Times(n.stoppers, i) == Times(f.stoppers, i) + if i == id && Live(f, id) && f.subs[id].slot.None? then 1 else 0
    {
      CountSnoc(f.calls, id, i);
      TimesSnoc(f.stoppers, Unsubscribe(id), i);
    }
    forall i: nat | i < |n.subs| ensures SubOk(n, n.stoppers, i) {
      assert SubOk(f, f.stoppers, i);
      if i == id && Live(f, id) && f.subs[id].slot.Some? {
        assert CurOk(f, f.stoppers, f.subs[id].slot.value);
      }
    }
    forall j | j in n.cur ensures CurOk(n, n.stoppers, j) {
      assert CurOk(f, f.stoppers, j);
    }
  }

  lemma DeliverValid(f: Feed, d: Delivery)
    requires Valid(f) && d.id < |f.subs|
    ensures Valid(Delivered(f, d))
  {
    var n := Delivered(f, d);
    forall id: nat | id < |n.subs| ensures SubOk(n, n.stoppers, id) {
      assert SubOk(f, f.stoppers, id);
    }
    forall j | j in n.cur ensures CurOk(n, n.stoppers, j) {
      assert CurOk(f, f.stoppers, j);
    }
  }

  lemma UnsubscribeOk(f: Feed, list: seq<Stopper>, at: nat)
    requires f.stopped && list != [] && list[0] == Unsubscribe(at) && Ok(f, list)
    ensures Ok(f.(calls := f.calls + [at]), list[1..])
  {
    var n, rest := f.(calls := f.calls + [at]), list[1..];
    assert at < |f.subs| by {
      assert Times(list, at) > 0;
    }
    forall id: nat
      ensures Count(n.calls, id) == Count(f.calls, id) + if id == at then 1 else 0
      ensures Times(list, id) == Times(rest, id) + if id == at then 1 else 0
    {
      CountSnoc(f.calls, at, id);
    }
    forall id: nat | id < |n.subs| ensures SubOk(n, rest, id) {
      assert SubOk(f, list, id);
    }
    forall j | j in n.cur ensures CurOk(n, rest, j) {
      assert CurOk(f, list, j);
    }
  }

  lemma DropFirstOk(f: Feed, list: seq<Stopper>, k: nat, throws: bool)
    requires f.stopped && list != [] && list[0] == DropSlot(k) && Ok(f, list)
    requires f.shape.Unguarded? ==> NoDropTwice(list)
    ensures Ok(Dropped(f, k, throws), list[1..])
  {
    var d, rest := Dropped(f, k, throws), list[1..];
    if Aborts(f, k, throws) {
      AbortOk(f, list, k);
    } else {
      DropOk(f, list, k, throws);
      forall id: nat ensures Times(rest, id) == Times(list, id) {
      }
      forall id: nat | id < |d.subs| ensures SubOk(d, rest, id) {
        assert SubOk(d, list, id);
      }
      forall j | j in d.cur ensures CurOk(d, rest, j) {
        assert CurOk(d, list, j);
      }
    }
  }

  lemma {:induction false} RunStoppersOk(f: Feed, list: seq<Stopper>, throwing: set<nat>)
    requires f.stopped && Ok(f, list) && (f.shape.Unguarded? ==> NoDropTwice(list))
    ensures Ok(RunStoppers(f, list, throwing), [])
    decreases |list|
  {
    if list != [] {
      match list[0] {
        case DropSlot(k) => DropFirstOk(f, list, k, k in throwing);
        case Unsubscribe(id) => UnsubscribeOk(f, list, id);
      }
      RunStoppersOk(RunStopper(f, list[0], throwing), list[1..], throwing);
    }
  }

  lemma {:induction false} RunStoppersKeeps(f: Feed, list: seq<Stopper>, throwing: set<nat>)
    ensures var r := RunStoppers(f, list, throwing);
            && |r.subs| == |f.subs| && r.stopped == f.stopped && r.applied == f.applied
            && r.stoppers == f.stoppers && r.shape == f.shape && f.calls <= r.calls
    decreases |list|
  {
    if list != [] {
      RunStoppersKeeps(RunStopper(f, list[0], throwing), list[1..], throwing);
    }
  }

  lemma StopValid(f: Feed, throwing: set<nat>)
    requires Valid(f)
    ensures Valid(Stopped(f, throwing))
  {
    if !f.stopped {
      var s := f.(stopped := true, stoppers := []);
      forall id: nat | id < |s.subs| ensures SubOk(s, f.stoppers, id) {
        assert SubOk(f, f.stoppers, id);
      }
      forall j | j in s.cur ensures CurOk(s, f.stoppers, j) {
        assert CurOk(f, f.stoppers, j);
      }
      RunStoppersOk(s, f.stoppers, throwing);
      RunStoppersKeeps(s, f.stoppers, throwing);
    }
  }

  // ---- every order of events -----------------------------------------------------------------------

  datatype Action =
    | Open(slot: nat, throws: bool) | Close(slot: nat, throws: bool) | OpenForGood | Arrive(id: nat)
    | Deliver(d: Delivery) | Leave(throwing: set<nat>)

  // The only drops of an unguarded slot before stop come from a callback that does nothing once stopped.
  predicate Enabled(f: Feed, a: Action) {
    match a
    case Open(k, _) => if f.shape.Unguarded? then !f.stopped && DropSlot(k) in f.stoppers else f.stopped || DropSlot(k) in f.stoppers
    case Close(k, _) => f.shape.Unguarded? ==> !f.stopped && DropSlot(k) in f.stoppers
    case Arrive(id) => id < |f.subs| && !f.subs[id].received
    case Deliver(d) => d.id < |f.subs|
    case _ => true
  }

  function Step(f: Feed, a: Action): Feed
    requires Enabled(f, a)
  {
    match a
    case Open(k, throws) => Replaced(f, k, throws)
    case Close(k, throws) => Dropped(f, k, throws)
    case OpenForGood => Subscribed(f)
    case Arrive(id) => Received(f, id)
    case Deliver(d) => Delivered(f, d)
    case Leave(throwing) => Stopped(f, throwing)
  }

  ghost predicate Leads(f: Feed, actions: seq<Action>, r: Feed)
    decreases |actions|
  {
    if actions == [] then r == f else Enabled(f, actions[0]) && Leads(Step(f, actions[0]), actions[1..], r)
  }

  // A stored function throws at a replacement or a drop before stop, and nothing catches it there.
  predicate ThrowsAt(f: Feed, a: Action) {
    (a.Open? || a.Close?) && Aborts(f, a.slot, a.throws)
  }

  predicate EverThrows(f: Feed, actions: seq<Action>)
    decreases |actions|
  {
    actions != [] && Enabled(f, actions[0]) && (ThrowsAt(f, actions[0]) || EverThrows(Step(f, actions[0]), actions[1..]))
  }

  lemma StepValid(f: Feed, a: Action)
    requires Valid(f) && Enabled(f, a) && !ThrowsAt(f, a)
    ensures Valid(Step(f, a))
  {
    match a
    case Open(k, throws) => NextValid(f, k, throws);
    case Close(k, throws) => DropOk(f, f.stoppers, k, throws);
    case OpenForGood => SubscribeValid(f);
    case Arrive(id) => ReceiveValid(f, id);
    case Deliver(d) => DeliverValid(f, d);
    case Leave(throwing) => StopValid(f, throwing);
  }

  lemma StepKeepsShape(f: Feed, a: Action)
    requires Enabled(f, a)
    ensures Step(f, a).shape == f.shape && |Step(f, a).subs| >= |f.subs| && f.calls <= Step(f, a).calls
  {
    if a.Leave? && !f.stopped {
      RunStoppersKeeps(f.(stopped := true, stoppers := []), f.stoppers, a.throwing);
    }
  }

  lemma {:induction false} LeadsValid(f: Feed, actions: seq<Action>, r: Feed)
    requires Valid(f) && Leads(f, actions, r) && (f.shape.Guarded? || !EverThrows(f, actions))
    ensures Valid(r)
    decreases |actions|
  {
    if actions != [] {
      StepValid(f, actions[0]);
      StepKeepsShape(f, actions[0]);
      LeadsValid(Step(f, actions[0]), actions[1..], r);
    }
  }

  // The slots of an unguarded feed: one drop each.
  ghost predicate SlotsFor(shape: Shape, slots: seq<nat>) {
    shape.Unguarded? ==> forall i, j :: 0 <= i < j < |slots| ==> slots[i] != slots[j]
  }

  lemma NewFeedValid(shape: Shape, slots: seq<nat>)
    requires SlotsFor(shape, slots)
    ensures Valid(NewFeed(shape, slots))
  {
    forall id: nat ensures Times(NewFeed(shape, slots).stoppers, id) == 0 {
      NoUnsubscribes(slots, NewFeed(shape, slots).stoppers, id);
    }
  }

  // ONCE, where drops are guarded: whatever the order of opening, replacing, arriving and leaving, and whichever of the
  // functions throw, each has been called exactly once if it has arrived and its subscription is over, and not at all
  // before.
  lemma EachCalledOnce(slots: seq<nat>, actions: seq<Action>, f: Feed, id: nat)
    requires Leads(NewFeed(Guarded, slots), actions, f) && id < |f.subs|
    ensures Count(f.calls, id) == CallsDue(f, id)
  {
    NewFeedValid(Guarded, slots);
    LeadsValid(NewFeed(Guarded, slots), actions, f);
    assert SubOk(f, f.stoppers, id);
  }

  // ---- drops that are not guarded ------------------------------------------------------------------

  // A function thrown out of a drop: called already, and still in its slot.
  ghost predicate Jammed(f: Feed, id: nat) {
    && f.shape.Unguarded? && !f.stopped && id < |f.subs|
    && f.subs[id].stored && f.subs[id].received && f.subs[id].slot.Some? && f.subs[id].dead
    && f.subs[id].slot.value in f.cur && f.cur[f.subs[id].slot.value] == id && DropSlot(f.subs[id].slot.value) in f.stoppers
    && Count(f.calls, id) >= 1
  }

  lemma ThrowJams(f: Feed, a: Action)
    requires Valid(f) && f.shape.Unguarded? && Enabled(f, a) && ThrowsAt(f, a)
    ensures Jammed(Step(f, a), f.cur[a.slot])
  {
    assert CurOk(f, f.stoppers, a.slot) && SubOk(f, f.stoppers, f.cur[a.slot]);
    CountSnoc(f.calls, f.cur[a.slot], f.cur[a.slot]);
  }

  lemma {:induction false} CountGrows(a: seq<nat>, b: seq<nat>, id: nat)
    requires a <= b
    ensures Count(a, id) <= Count(b, id)
  {
    if |a| < |b| {
      CountGrows(a, b[..|b| - 1], id);
    } else {
      assert a == b;
    }
  }

  // Stop calls the jammed function once more.
  lemma {:induction false} StopCallsAgain(f: Feed, list: seq<Stopper>, throwing: set<nat>, k: nat, id: nat)
    requires id < |f.subs| && f.subs[id].stored && k in f.cur && f.cur[k] == id && DropSlot(k) in list
    ensures Count(RunStoppers(f, list, throwing).calls, id) >= Count(f.calls, id) + 1
    decreases |list|
  {
    var n, rest := RunStopper(f, list[0], throwing), list[1..];
    RunStoppersKeeps(n, rest, throwing);
    CountGrows(n.calls, RunStoppers(f, list, throwing).calls, id);
    if list[0] == DropSlot(k) {
      CountSnoc(f.calls, id, id);
    } else {
      StopCallsAgain(n, rest, throwing, k, id);
      CountGrows(f.calls, n.calls, id);
    }
  }

  lemma JamStays(f: Feed, a: Action, id: nat)
    requires Jammed(f, id) && Enabled(f, a)
    ensures Jammed(Step(f, a), id) || Count(Step(f, a).calls, id) >= 2
  {
    var k := f.subs[id].slot.value;
    StepKeepsShape(f, a);
    CountGrows(f.calls, Step(f, a).calls, id);
    if a.Leave? {
      StopCallsAgain(f.(stopped := true, stoppers := []), f.stoppers, a.throwing, k, id);
    } else if (a.Open? || a.Close?) && a.slot == k {
      CountSnoc(f.calls, id, id);
    }
  }

  lemma {:induction false} CalledTwiceStays(f: Feed, actions: seq<Action>, r: Feed, id: nat)
    requires Leads(f, actions, r) && id < |f.subs| && (Jammed(f, id) || Count(f.calls, id) >= 2)
    ensures id < |r.subs| && (Jammed(r, id) || Count(r.calls, id) >= 2)
    decreases |actions|
  {
    if actions != [] {
      var n := Step(f, actions[0]);
      StepKeepsShape(f, actions[0]);
      if Jammed(f, id) {
        JamStays(f, actions[0], id);
      } else {
        CountGrows(f.calls, n.calls, id);
      }
      CalledTwiceStays(n, actions[1..], r, id);
    }
  }

  lemma {:induction false} ThrowCallsTwice(f: Feed, actions: seq<Action>, r: Feed) returns (id: nat)
    requires Valid(f) && f.shape.Unguarded? && Leads(f, actions, r) && EverThrows(f, actions)
    ensures id < |r.subs| && (Jammed(r, id) || Count(r.calls, id) >= 2)
    decreases |actions|
  {
    var a, n := actions[0], Step(f, actions[0]);
    if ThrowsAt(f, a) {
      ThrowJams(f, a);
      id := f.cur[a.slot];
      CalledTwiceStays(n, actions[1..], r, id);
    } else {
      StepValid(f, a);
      StepKeepsShape(f, a);
      id := ThrowCallsTwice(n, actions[1..], r);
    }
  }

  ghost predicate AllCalledOnce(f: Feed) {
    forall id: nat :: id < |f.subs| ==> Count(f.calls, id) == CallsDue(f, id)
  }

  // ONCE, where drops are not guarded: once stopped, every function was called exactly as often as it had to be if and
  // only if none threw at a replacement before.
  lemma UnguardedCalledOnceWhen(slots: seq<nat>, actions: seq<Action>, f: Feed)
    requires SlotsFor(Unguarded, slots) && Leads(NewFeed(Unguarded, slots), actions, f) && f.stopped
    ensures AllCalledOnce(f) <==> !EverThrows(NewFeed(Unguarded, slots), actions)
  {
    NewFeedValid(Unguarded, slots);
    if EverThrows(NewFeed(Unguarded, slots), actions) {
      var id := ThrowCallsTwice(NewFeed(Unguarded, slots), actions, f);
      assert CallsDue(f, id) <= 1;
    } else {
      LeadsValid(NewFeed(Unguarded, slots), actions, f);
      forall id: nat | id < |f.subs| ensures Count(f.calls, id) == CallsDue(f, id) {
        assert SubOk(f, f.stoppers, id);
      }
    }
  }

  lemma LeadsCons(f: Feed, a: Action, rest: seq<Action>, r: Feed)
    requires Enabled(f, a) && Leads(Step(f, a), rest, r)
    ensures Leads(f, [a] + rest, r)
  {
    assert ([a] + rest)[1..] == rest;
  }

  // Such a run: a subscription arrives, its function throws when the slot is dropped, and stop calls it again.
  lemma ThrownIsCalledTwice()
    ensures exists f :: Leads(NewFeed(Unguarded, [0]), [Open(0, false), Arrive(0), Close(0, true), Leave({})], f) && Count(f.calls, 0) == 2
  {
    assert NewFeed(Unguarded, [0]).stoppers == [DropSlot(0)];
    var f1 := Step(NewFeed(Unguarded, [0]), Open(0, false));
    assert f1 == Feed(Unguarded, false, [Sub(Some(0), false, false, false)], map[0 := 0], [DropSlot(0)], [], []);
    var f2 := Step(f1, Arrive(0));
    var f3 := Step(f2, Close(0, true));
    var jammed := Sub(Some(0), true, true, true);
    assert f3 == Feed(Unguarded, false, [jammed], map[0 := 0], [DropSlot(0)], [0], []);
    var f4 := Step(f3, Leave({}));
    assert f4.calls == [0, 0] by {
      assert [DropSlot(0)][1..] == [];
    }
    assert [0, 0][..1] == [0] && [0][..0] == [];
    LeadsCons(f3, Leave({}), [], f4);
    LeadsCons(f2, Close(0, true), [Leave({})], f4);
    LeadsCons(f1, Arrive(0), [Close(0, true), Leave({})], f4);
    LeadsCons(NewFeed(Unguarded, [0]), Open(0, false), [Arrive(0), Close(0, true), Leave({})], f4);
  }

  // A replacement that throws leaves its slot without a live subscription.
  lemma ThrowLeavesNone(f: Feed, k: nat, id: nat)
    requires Valid(f) && Aborts(f, k, true) && id < |f.subs| && f.subs[id].slot == Some(k)
    ensures |Replaced(f, k, true).subs| == |f.subs| && !Live(Replaced(f, k, true), id)
  {
    assert SubOk(f, f.stoppers, id);
  }

  // ---- deliveries ----------------------------------------------------------------------------------

  // The deliveries of one subscription among those applied.
  function AppliedOf(applied: seq<Delivery>, id: nat): seq<Delivery> {
    Filter(applied, (d: Delivery) => d.id == id)
  }

  lemma {:induction false} AppliedOfSnoc(applied: seq<Delivery>, d: Delivery, id: nat)
    ensures AppliedOf(applied + [d], id) == AppliedOf(applied, id) + if d.id == id then [d] else []
  {
    if applied == [] {
      assert applied + [d] == [d] && [d][1..] == [];
    } else {
      var rest := applied[1..];
      assert (applied + [d])[0] == applied[0] && (applied + [d])[1..] == rest + [d];
      AppliedOfSnoc(rest, d, id);
      assert AppliedOf(applied, id) == (if applied[0].id == id then [applied[0]] else []) + AppliedOf(rest, id);
    }
  }

  // One step leaves a subscription that is over so, and applies nothing of it.
  lemma OverStaysOver(f: Feed, a: Action, id: nat)
    requires Enabled(f, a) && id < |f.subs| && !Live(f, id)
    ensures id < |Step(f, a).subs| && !Live(Step(f, a), id)
    ensures AppliedOf(Step(f, a).applied, id) == AppliedOf(f.applied, id)
  {
    if a.Leave? && !f.stopped {
      RunStoppersKeeps(f.(stopped := true, stoppers := []), f.stoppers, a.throwing);
    } else if a.Deliver? {
      AppliedOfSnoc(f.applied, a.d, id);
    }
  }

  // What a subscription delivered while the feed was not stopped and its slot not replaced.
  function DeliveredAlive(f: Feed, actions: seq<Action>, id: nat): seq<Delivery>
    decreases |actions|
  {
    if actions == [] || !Enabled(f, actions[0]) then []
    else
      (if actions[0].Deliver? && actions[0].d.id == id && !f.stopped && !f.subs[id].dead then [actions[0].d] else [])
      + DeliveredAlive(Step(f, actions[0]), actions[1..], id)
  }

  lemma StepApplies(f: Feed, a: Action, id: nat)
    requires Enabled(f, a)
    ensures AppliedOf(Step(f, a).applied, id)
         == AppliedOf(f.applied, id) + if a.Deliver? && a.d.id == id && !f.stopped && !f.subs[id].dead then [a.d] else []
  {
    if a.Leave? && !f.stopped {
      RunStoppersKeeps(f.(stopped := true, stoppers := []), f.stoppers, a.throwing);
    } else if a.Deliver? {
      AppliedOfSnoc(f.applied, a.d, id);
    }
  }

  // APPLIED, every order of events: of each subscription exactly what it delivered while it was live is applied, in
  // order.
  lemma {:induction false} LiveIsApplied(f: Feed, actions: seq<Action>, r: Feed, id: nat)
    requires Leads(f, actions, r)
    ensures AppliedOf(r.applied, id) == AppliedOf(f.applied, id) + DeliveredAlive(f, actions, id)
    decreases |actions|
  {
    if actions != [] {
      StepApplies(f, actions[0], id);
      LiveIsApplied(Step(f, actions[0]), actions[1..], r, id);
    }
  }

  // OVER, every order of events: once a subscription is over nothing it delivers is ever applied, whenever it comes;
  // such a delivery leaves everything as it is.
  lemma {:induction false} OverIsForGood(f: Feed, actions: seq<Action>, r: Feed, id: nat)
    requires Leads(f, actions, r) && id < |f.subs| && !Live(f, id)
    ensures id < |r.subs| && !Live(r, id)
    ensures AppliedOf(r.applied, id) == AppliedOf(f.applied, id)
    ensures forall value :: Delivered(r, Delivery(id, value)) == r
    decreases |actions|
  {
    if actions != [] {
      OverStaysOver(f, actions[0], id);
      OverIsForGood(Step(f, actions[0]), actions[1..], r, id);
    }
  }

  // A live subscription of a slot is the slot's current one.
  ghost predicate LiveIsCurrent(f: Feed) {
    && (forall id: nat :: id < |f.subs| && f.subs[id].slot.Some? && !f.subs[id].dead ==>
          f.subs[id].slot.value in f.cur && f.cur[f.subs[id].slot.value] == id)
    && (forall k :: k in f.cur ==> f.cur[k] < |f.subs| && f.subs[f.cur[k]].slot == Some(k))
  }

  lemma {:induction false} RunStoppersKeepsCurrent(f: Feed, list: seq<Stopper>, throwing: set<nat>)
    requires LiveIsCurrent(f)
    ensures LiveIsCurrent(RunStoppers(f, list, throwing))
    decreases |list|
  {
    if list != [] {
      RunStoppersKeepsCurrent(RunStopper(f, list[0], throwing), list[1..], throwing);
    }
  }

  lemma ReplacedKeepsCurrent(f: Feed, k: nat, throws: bool)
    requires LiveIsCurrent(f)
    ensures LiveIsCurrent(Dropped(f, k, throws)) && LiveIsCurrent(Replaced(f, k, throws))
  {
    var d := Dropped(f, k, throws);
    assert LiveIsCurrent(d);
    assert forall id: nat :: id < |d.subs| && d.subs[id].slot == Some(k) ==> d.subs[id].dead;
  }

  lemma StepKeepsCurrent(f: Feed, a: Action)
    requires LiveIsCurrent(f) && Enabled(f, a)
    ensures LiveIsCurrent(Step(f, a))
  {
    match a
    case Open(k, throws) => ReplacedKeepsCurrent(f, k, throws);
    case Close(k, throws) => ReplacedKeepsCurrent(f, k, throws);
    case Leave(throwing) => RunStoppersKeepsCurrent(f.(stopped := true, stoppers := []), f.stoppers, throwing);
    case _ =>
  }

  lemma {:induction false} LeadsKeepsCurrent(f: Feed, actions: seq<Action>, r: Feed)
    requires LiveIsCurrent(f) && Leads(f, actions, r)
    ensures LiveIsCurrent(r)
    decreases |actions|
  {
    if actions != [] {
      StepKeepsCurrent(f, actions[0]);
      LeadsKeepsCurrent(Step(f, actions[0]), actions[1..], r);
    }
  }

  // At most one subscription of a slot is live, whatever throws.
  lemma OneLivePerSlot(shape: Shape, slots: seq<nat>, actions: seq<Action>, f: Feed, i: nat, j: nat)
    requires Leads(NewFeed(shape, slots), actions, f) && i < |f.subs| && j < |f.subs|
    requires Live(f, i) && Live(f, j) && f.subs[i].slot.Some? && f.subs[i].slot == f.subs[j].slot
    ensures i == j
  {
    LeadsKeepsCurrent(NewFeed(shape, slots), actions, f);
  }

  // ---- the same, on fields ------------------------------------------------------------------------

  class Holder {
    const shape: Shape
    var stopped: bool
    var subs: seq<Sub>
    var cur: map<nat, nat>
    var stoppers: seq<Stopper>
    var applied: seq<Delivery>
    ghost var calls: seq<nat>

    constructor (shape: Shape, slots: seq<nat>)
      ensures this.shape == shape && Contents() == NewFeed(shape, slots)
    {
      this.shape := shape;
      stopped, subs, cur, applied, calls := false, [], map[], [], [];
      stoppers := seq(|slots|, i requires 0 <= i < |slots| => DropSlot(slots[i]));
    }

    ghost function Contents(): Feed
      reads this
    {
      Feed(shape, stopped, subs, cur, stoppers, calls, applied)
    }

    ghost predicate CurInRange()
      reads this
    {
      forall k :: k in cur ==> cur[k] < |subs|
    }

    // thrown: the function of the slot threw through the drop.
    method Drop(k: nat, throws: bool) returns (thrown: bool)
      requires CurInRange()
      modifies this`subs, this`cur, this`calls
      ensures CurInRange() && Contents() == Dropped(old(Contents()), k, throws)
      ensures thrown == Aborts(old(Contents()), k, throws)
    {
      if k in cur {
        var s := subs[cur[k]];
        subs := subs[cur[k] := s.(dead := true)];
        if s.stored {
          calls := calls + [cur[k]];
          if throws && shape.Unguarded? {
            return true;
          }
        }
        cur := cur - {k};
      }
      return false;
    }

    method Next(k: nat, throws: bool) returns (id: Option<nat>)
      requires CurInRange()
      modifies this`subs, this`cur, this`calls
      ensures CurInRange() && Contents() == Replaced(old(Contents()), k, throws)
      ensures id == if Aborts(old(Contents()), k, throws) then None else Some(|old(subs)|)
    {
      var thrown := Drop(k, throws);
      if thrown {
        return None;
      }
      id := Some(|subs|);
      cur := cur[k := |subs|];
      subs := subs + [Sub(Some(k), false, false, false)];
    }

    method Hold(id: nat)
      requires CurInRange() && id < |subs|
      modifies this`subs, this`stoppers, this`calls
      ensures CurInRange() && Contents() == Received(old(Contents()), id)
    {
      var s := subs[id];
      if stopped || s.dead {
        subs := subs[id := s.(received := true)];
        calls := calls + [id];
      } else if s.slot.Some? {
        subs := subs[id := s.(received := true, stored := true)];
      } else {
        subs := subs[id := s.(received := true)];
        stoppers := stoppers + [Unsubscribe(id)];
      }
    }

    // A callback with `if (stopped || slot.dead) return`.
    method Deliver(d: Delivery)
      requires CurInRange() && d.id < |subs|
      modifies this`applied
      ensures CurInRange() && Contents() == Delivered(old(Contents()), d)
    {
      if stopped || subs[d.id].dead {
        return;
      }
      applied := applied + [d];
    }

    method Stop(throwing: set<nat>)
      requires CurInRange()
      modifies this
      ensures CurInRange() && Contents() == Stopped(old(Contents()), throwing)
    {
      if stopped {
        return;
      }
      stopped := true;
      var list := stoppers;
      stoppers := [];
      ghost var start := Contents();
      for i := 0 to |list|
        invariant CurInRange() && RunStoppers(Contents(), list[i..], throwing) == RunStoppers(start, list, throwing)
      {
        assert list[i..][1..] == list[i + 1..];
        match list[i]
        case DropSlot(k) => var _ := Drop(k, k in throwing);
        case Unsubscribe(id) => calls := calls + [id];
      }
    }
  }

  // ---- liveWhileConnected -------------------------------------------------------------------------

  // up: the link; listening: the handlers are registered. started and ended: the feeds
  // made and stopped so far, by number.
  class Link {
    var up: bool
    var feed: Option<nat>
    var wanted: bool
    var listening: bool
    var started: nat
    ghost var ended: set<nat>

    constructor (up: bool)
      ensures Valid() && feed == None && !wanted && this.up == up && listening
    {
      this.up, feed, wanted, listening, started, ended := up, None, false, true, 0, {};
    }

    // At most one feed is alive, and only while wanted: every other one was stopped. While
    // the handlers are registered, it is there exactly when wanted with the link up.
    ghost predicate Valid()
      reads this
    {
      && ended == (set n: nat | n < started && feed != Some(n))
      && (feed.Some? ==> feed.value < started && wanted)
      && (listening ==> (feed.Some? <==> wanted && up))
    }

    method Begin()
      requires feed == None
      modifies this`feed, this`started
      ensures feed == Some(old(started)) && started == old(started) + 1
    {
      feed := Some(started);
      started := started + 1;
    }

    method Drop()
      requires feed.Some? ==> feed.value < started
      requires ended == (set n: nat | n < started && feed != Some(n))
      modifies this`feed, this`ended
      ensures feed == None && ended == old(ended) + (if old(feed).Some? then {old(feed).value} else {})
    {
      if feed.Some? {
        ended := ended + {feed.value};
        feed := None;
      }
    }

    method Start()
      requires Valid()
      modifies this
      ensures Valid() && wanted && up == old(up) && listening == old(listening)
      ensures feed.Some? == (old(feed).Some? || up) && (old(feed).Some? ==> feed == old(feed))
    {
      wanted := true;
      if feed.None? && up {
        Begin();
      }
    }

    method Stop()
      requires Valid()
      modifies this
      ensures Valid() && !wanted && feed == None && started == old(started) && up == old(up) && listening == old(listening)
    {
      wanted := false;
      Drop();
    }

    method Dispose()
      requires Valid()
      modifies this
      ensures Valid() && !wanted && feed == None && started == old(started) && !listening && up == old(up)
    {
      wanted := false;
      Drop();
      listening := false;
    }

    // The link goes down or comes back; the handlers run if they are registered.
    method LinkChanged(nowUp: bool)
      requires Valid()
      modifies this
      ensures Valid() && up == nowUp && wanted == old(wanted) && listening == old(listening)
      ensures started == old(started) + (if listening && nowUp && wanted && old(feed).None? then 1 else 0)
      ensures !listening || (nowUp && old(feed).Some?) ==> feed == old(feed)
    {
      up := nowUp;
      if listening {
        if !nowUp {
          Drop();
        } else if wanted && feed.None? {
          Begin();
        }
      }
    }

    // What the page sees: the one feed that was started and not stopped, and nothing while the link is down.
    method Current() returns (current: Option<nat>)
      requires Valid()
      ensures current.Some? ==> current.value < started
      ensures up ==> forall n: nat :: n < started ==> (current == Some(n) <==> n !in ended)
      ensures !up ==> current.None?
      ensures listening ==> (current.Some? <==> wanted && up)
    {
      current := if feed.Some? && up then feed else None;
    }
  }
}
