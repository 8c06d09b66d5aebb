/** The democracy unlock planner, against running its batch. */
module LockActions {
  // The planner is democracyActions and the "democracy-unlock" button of lib/lock-actions.js; the independent date panel
  // is democracyLockPlan of lib/balance-locks.js. Both for an account that votes directly.

  import opened Util
  import opened DemocracyPallet

  // lockAmount: the "democrac" lock read from balances.locks, when there is one.
  datatype Snapshot = Snapshot(env: Env, votes: seq<Vote>, prior: Prior, block: nat, lockAmount: Option<nat>)

  datatype RemoveItem = RemoveItem(index: nat, finished: bool, lockUntil: Option<nat>)
  datatype CancelItem = CancelItem(index: nat, end: nat)

  datatype Plan = Plan(
    remove: seq<RemoveItem>, cancel: seq<CancelItem>, waitFor: seq<nat>, rejigFirst: bool, unlock: bool,
    lockNow: nat, lockAfter: nat, freed: nat, lockedUntil: Option<nat>)

  // ---- what the plan should be ------------------------------------------------

  function Kept(env: Env, votes: seq<Vote>): seq<Vote> {
    if votes == [] then []
    else if Removable(env, votes[0]) then Kept(env, votes[1..])
    else [votes[0]] + Kept(env, votes[1..])
  }

  // The removable votes that leave their balance behind in the prior lock at this block.
  function Carried(env: Env, block: nat, votes: seq<Vote>): seq<Vote> {
    if votes == [] then []
    else if LockEnd(env, votes[0]) > block then [votes[0]] + Carried(env, block, votes[1..])
    else Carried(env, block, votes[1..])
  }

  function AccumulateAll(env: Env, p: Prior, vs: seq<Vote>): Prior
    decreases |vs|
  {
    if vs == [] then p else AccumulateAll(env, Accumulate(p, LockEnd(env, vs[0]), vs[0].balance), vs[1..])
  }

  function RemoveItemOf(env: Env, block: nat, v: Vote): RemoveItem
    requires Removable(env, v)
  {
    RemoveItem(v.index, env.refs[v.index].Finished?, if LockEnd(env, v) > block then Some(LockEnd(env, v)) else None)
  }

  function RemoveItems(env: Env, block: nat, votes: seq<Vote>): seq<RemoveItem> {
    if votes == [] then []
    else if Removable(env, votes[0]) then [RemoveItemOf(env, block, votes[0])] + RemoveItems(env, block, votes[1..])
    else RemoveItems(env, block, votes[1..])
  }

  function CancelItems(env: Env, votes: seq<Vote>): seq<CancelItem> {
    if votes == [] then []
    else if votes[0].index in env.refs && env.refs[votes[0].index].Ongoing?
    then [CancelItem(votes[0].index, env.refs[votes[0].index].end)] + CancelItems(env, votes[1..])
    else CancelItems(env, votes[1..])
  }

  function Indices(votes: seq<Vote>): seq<nat> {
    if votes == [] then [] else [votes[0].index] + Indices(votes[1..])
  }

  function LockNow(snap: Snapshot): nat {
    if snap.lockAmount.Some? && snap.lockAmount.value > 0 then snap.lockAmount.value
    else Max(MaxBalance(snap.votes), snap.prior.amount)
  }

  // The pallet state the snapshot was read from.
  function StateOf(snap: Snapshot): State {
    State(snap.votes, snap.prior, LockNow(snap))
  }

  function RejigFirst(snap: Snapshot): bool {
    Carried(snap.env, snap.block, snap.votes) != [] && 0 < snap.prior.until <= snap.block
  }

  function PriorAfter(snap: Snapshot): Prior {
    var start := if RejigFirst(snap) then Prior(0, 0) else snap.prior;
    Rejig(AccumulateAll(snap.env, start, Carried(snap.env, snap.block, snap.votes)), snap.block)
  }

  function LockAfter(snap: Snapshot): nat {
    Max(MaxBalance(Kept(snap.env, snap.votes)), PriorAfter(snap).amount)
  }

  // ---- the planner ------------------------------------------------------------

  // What one pass over the votes collects.
  datatype Scan = Scan(
    remove: seq<RemoveItem>, cancel: seq<CancelItem>, waitFor: seq<nat>, added: seq<Prior>, ongoingMax: nat, votesMax: nat)

  function ScanOf(env: Env, block: nat, votes: seq<Vote>): Scan {
    Scan(RemoveItems(env, block, votes), CancelItems(env, votes), Indices(Kept(env, votes)),
         Priors(env, Carried(env, block, votes)), MaxBalance(Kept(env, votes)), MaxBalance(votes))
  }

  function Priors(env: Env, vs: seq<Vote>): seq<Prior> {
    if vs == [] then [] else [Prior(LockEnd(env, vs[0]), vs[0].balance)] + Priors(env, vs[1..])
  }

  // The scan so far, followed by the scan of what is left.
  function Joined(a: Scan, b: Scan): Scan {
    Scan(a.remove + b.remove, a.cancel + b.cancel, a.waitFor + b.waitFor, a.added + b.added,
         Max(a.ongoingMax, b.ongoingMax), Max(a.votesMax, b.votesMax))
  }

  // What one vote contributes to the scan.
  function ScanVote(env: Env, block: nat, v: Vote): Scan {
    if v.index in env.refs && env.refs[v.index].Ongoing? then
      Scan([], [CancelItem(v.index, env.refs[v.index].end)], [v.index], [], v.balance, v.balance)
    else if v.index in env.refs then
      Scan([RemoveItemOf(env, block, v)], [], [], if LockEnd(env, v) > block then [Prior(LockEnd(env, v), v.balance)] else [], 0, v.balance)
    else
      Scan([], [], [v.index], [], v.balance, v.balance)
  }

  lemma ScanVoteStep(env: Env, block: nat, votes: seq<Vote>)
    requires votes != []
    ensures ScanOf(env, block, votes) == Joined(ScanVote(env, block, votes[0]), ScanOf(env, block, votes[1..]))
  {
    var v, back := votes[0], votes[1..];
    var kept, carried := Kept(env, back), Carried(env, block, back);
    assert ([v] + kept)[1..] == kept && ([v] + carried)[1..] == carried;
  }

  lemma JoinedAssociative(a: Scan, b: Scan, c: Scan)
    ensures Joined(Joined(a, b), c) == Joined(a, Joined(b, c))
  {
    assert (a.remove + b.remove) + c.remove == a.remove + (b.remove + c.remove);
    assert (a.cancel + b.cancel) + c.cancel == a.cancel + (b.cancel + c.cancel);
    assert (a.waitFor + b.waitFor) + c.waitFor == a.waitFor + (b.waitFor + c.waitFor);
    assert (a.added + b.added) + c.added == a.added + (b.added + c.added);
  }

  // One vote's branch of the loop.
  method ScanOneVote(snap: Snapshot, v: Vote, a: Scan) returns (r: Scan)
    ensures r == Joined(a, ScanVote(snap.env, snap.block, v))
  {
    var env := snap.env;
    r := a.(votesMax := Max(a.votesMax, v.balance));
    if v.index in env.refs && env.refs[v.index].Ongoing? {
      r := r.(cancel := r.cancel + [CancelItem(v.index, env.refs[v.index].end)],
              waitFor := r.waitFor + [v.index], ongoingMax := Max(r.ongoingMax, v.balance));
    } else if v.index in env.refs && env.refs[v.index].Finished? {
      var info := env.refs[v.index];
      var won := v.aye.Some? && v.aye.value == info.approved;
      var until := if won then info.end + Periods(v.conviction) * env.period else 0;
      var lockUntil := if until > snap.block then Some(until) else None;
      if lockUntil.Some? {
        r := r.(added := r.added + [Prior(until, v.balance)]);
      }
      r := r.(remove := r.remove + [RemoveItem(v.index, true, lockUntil)]);
    } else if v.index in env.refs {
      r := r.(remove := r.remove + [RemoveItem(v.index, false, None)]);
    } else {
      r := r.(waitFor := r.waitFor + [v.index], ongoingMax := Max(r.ongoingMax, v.balance));
    }
    assert r.added == Joined(a, ScanVote(env, snap.block, v)).added;
  }

  // The first loop of democracyActions.
  method ScanVotes(snap: Snapshot) returns (r: Scan)
    ensures r == ScanOf(snap.env, snap.block, snap.votes)
  {
    var votes, env, block := snap.votes, snap.env, snap.block;
    r := Scan([], [], [], [], 0, 0);
    assert votes[0..] == votes;
    for i := 0 to |votes|
      invariant Joined(r, ScanOf(env, block, votes[i..])) == ScanOf(env, block, votes)
    {
      assert votes[i..][1..] == votes[i + 1..];
      ScanVoteStep(env, block, votes[i..]);
      JoinedAssociative(r, ScanVote(env, block, votes[i]), ScanOf(env, block, votes[i + 1..]));
      r := ScanOneVote(snap, votes[i], r);
    }
    assert votes[|votes|..] == [];
    assert Joined(r, Scan([], [], [], [], 0, 0)) == r;
  }

  lemma {:induction false} CarriedAreRemoved(env: Env, block: nat, votes: seq<Vote>)
    ensures Carried(env, block, votes) != [] ==> RemoveItems(env, block, votes) != []
  {
    if votes != [] {
      CarriedAreRemoved(env, block, votes[1..]);
    }
  }

  // democracyActions for a direct voter.
  method DemocracyActions(snap: Snapshot) returns (plan: Plan)
    ensures plan.remove == RemoveItems(snap.env, snap.block, snap.votes)
    ensures plan.cancel == CancelItems(snap.env, snap.votes)
    ensures plan.waitFor == Indices(Kept(snap.env, snap.votes))
    ensures plan.rejigFirst == RejigFirst(snap)
    ensures plan.lockNow == LockNow(snap) && plan.lockAfter == LockAfter(snap)
    ensures plan.unlock == (plan.lockAfter < plan.lockNow)
    ensures plan.freed == if plan.unlock then plan.lockNow - plan.lockAfter else 0
    ensures plan.lockedUntil == if PriorAfter(snap).until > snap.block then Some(PriorAfter(snap).until) else None
  {
    var block := snap.block;
    var scan := ScanVotes(snap);
    var added := scan.added;
    var lockNow := if snap.lockAmount.Some? && snap.lockAmount.value > 0 then snap.lockAmount.value
                   else Max(scan.votesMax, snap.prior.amount);
    var rejigFirst := |scan.remove| > 0 && |added| > 0 && snap.prior.until > 0 && snap.prior.until <= block;
    ghost var carried := Carried(snap.env, block, snap.votes);
    CarriedAreRemoved(snap.env, block, snap.votes);
    assert rejigFirst == RejigFirst(snap);
    var p := if rejigFirst then Prior(0, 0) else snap.prior;
    ghost var start := p;
    assert added[0..] == added && carried[0..] == carried;
    for i := 0 to |added|
      invariant i <= |carried| && added[i..] == Priors(snap.env, carried[i..])
      invariant AccumulateAll(snap.env, p, carried[i..]) == AccumulateAll(snap.env, start, carried)
    {
      assert added[i..][1..] == added[i + 1..] && carried[i..][1..] == carried[i + 1..];
      assert added[i] == added[i..][0];
      p := Prior(Max(p.until, added[i].until), Max(p.amount, added[i].amount));
    }
    if p.until <= block {
      p := Prior(0, 0);
    }
    var lockAfter := Max(scan.ongoingMax, p.amount);
    plan := Plan(scan.remove, scan.cancel, scan.waitFor, rejigFirst, lockAfter < lockNow, lockNow, lockAfter,
                 if lockNow > lockAfter then lockNow - lockAfter else 0,
                 if p.until > block then Some(p.until) else None);
  }

  // ---- the plan's lists, on the votes and referenda -----------------------------

  // The vote is on the winning side with a conviction that holds its balance past the block.
  predicate HoldsPast(env: Env, v: Vote, block: nat) {
    && v.index in env.refs && env.refs[v.index].Finished? && v.aye.Some? && v.aye.value == env.refs[v.index].approved
    && env.refs[v.index].end + Periods(v.conviction) * env.period > block
  }

  ghost predicate RemovesVote(env: Env, block: nat, v: Vote, item: RemoveItem) {
    && v.index in env.refs && !env.refs[v.index].Ongoing?
    && item.index == v.index && item.finished == env.refs[v.index].Finished?
    && item.lockUntil == if HoldsPast(env, v, block) then Some(env.refs[v.index].end + Periods(v.conviction) * env.period) else None
  }

  ghost predicate CancelsVote(env: Env, v: Vote, item: CancelItem) {
    v.index in env.refs && env.refs[v.index].Ongoing? && item == CancelItem(v.index, env.refs[v.index].end)
  }

  ghost predicate Awaited(env: Env, votes: seq<Vote>, i: nat) {
    exists v :: v in votes && AwaitsVote(env, v, i)
  }

  predicate AwaitsVote(env: Env, v: Vote, i: nat) {
    v.index == i && (v.index in env.refs ==> env.refs[v.index].Ongoing?)
  }

  // LISTED: the plan removes exactly the votes whose referendum is known and over, offers to cancel exactly those still
  // going, and waits for these and the unknown ones.
  lemma {:induction false} PlanLists(env: Env, block: nat, votes: seq<Vote>)
    ensures forall item :: item in RemoveItems(env, block, votes) <==> exists v :: v in votes && RemovesVote(env, block, v, item)
    ensures forall item :: item in CancelItems(env, votes) <==> exists v :: v in votes && CancelsVote(env, v, item)
    ensures forall i :: i in Indices(Kept(env, votes)) <==> Awaited(env, votes, i)
  {
    if votes != [] {
      var v, rest := votes[0], votes[1..];
      PlanLists(env, block, rest);
      assert v in votes && forall u :: u in votes <==> u == v || u in rest;
      RemovableFirst(env, block, votes);
      CancelsFirst(env, votes);
      WaitsFirst(env, votes);
    }
  }

  lemma RemovableFirst(env: Env, block: nat, votes: seq<Vote>)
    requires votes != []
    ensures forall item ::
      item in RemoveItems(env, block, votes) <==> (RemovesVote(env, block, votes[0], item) || item in RemoveItems(env, block, votes[1..]))
  {
  }

  lemma CancelsFirst(env: Env, votes: seq<Vote>)
    requires votes != []
    ensures forall item :: item in CancelItems(env, votes) <==> CancelsVote(env, votes[0], item) || item in CancelItems(env, votes[1..])
  {
  }

  lemma WaitsFirst(env: Env, votes: seq<Vote>)
    requires votes != []
    ensures forall i :: i in Indices(Kept(env, votes)) <==> AwaitsVote(env, votes[0], i) || i in Indices(Kept(env, votes[1..]))
  {
    if !Removable(env, votes[0]) {
      var kept := Kept(env, votes[1..]);
      assert ([votes[0]] + kept)[1..] == kept;
    }
  }

  lemma HeldFirst(env: Env, block: nat, votes: seq<Vote>)
    requires votes != []
    ensures Carried(env, block, votes) != [] <==> HoldsPast(env, votes[0], block) || Carried(env, block, votes[1..]) != []
  {
  }

  lemma {:induction false} CarriesWhen(env: Env, block: nat, votes: seq<Vote>)
    ensures Carried(env, block, votes) != [] <==> exists v :: v in votes && HoldsPast(env, v, block)
  {
    if votes != [] {
      CarriesWhen(env, block, votes[1..]);
      HeldFirst(env, block, votes);
      assert votes[0] in votes && forall u :: u in votes <==> u == votes[0] || u in votes[1..];
    }
  }

  // FIRST: the batch starts with an unlock exactly when a prior lock has expired and some removed vote would carry it on.
  lemma LeadingUnlockWhen(snap: Snapshot)
    ensures RejigFirst(snap) <==>
      snap.prior.until != 0 && snap.prior.until <= snap.block && exists v :: v in snap.votes && HoldsPast(snap.env, v, snap.block)
  {
    CarriesWhen(snap.env, snap.block, snap.votes);
  }

  // NOW: the lock is the one read from the balances, else the largest of the votes and the prior.
  lemma LockNowIs(snap: Snapshot)
    ensures snap.lockAmount.Some? && snap.lockAmount.value != 0 ==> LockNow(snap) == snap.lockAmount.value
    ensures snap.lockAmount.None? || snap.lockAmount.value == 0 ==>
      && LockNow(snap) >= snap.prior.amount && (forall v :: v in snap.votes ==> LockNow(snap) >= v.balance)
      && (LockNow(snap) == snap.prior.amount || exists v :: v in snap.votes && LockNow(snap) == v.balance)
  {
    forall v | v in snap.votes ensures MaxBalance(snap.votes) >= v.balance {
      MaxBalanceCovers(snap.votes, v);
    }
    MaxBalanceIsOne(snap.votes);
  }

  lemma {:induction false} MaxBalanceIsOne(votes: seq<Vote>)
    ensures MaxBalance(votes) == 0 || exists v :: v in votes && v.balance == MaxBalance(votes)
  {
    if votes != [] {
      MaxBalanceIsOne(votes[1..]);
      assert votes[0] in votes;
      if v :| v in votes[1..] && v.balance == MaxBalance(votes[1..]) {
        assert v in votes;
      }
    }
  }

  // The calls a removal list stands for.
  function Removes(items: seq<RemoveItem>): seq<Call> {
    if items == [] then [] else [RemoveVote(items[0].index)] + Removes(items[1..])
  }

  datatype Caption = UnlockOnly | RemoveAndUnlock | RemoveFinished
  datatype Offer = Refused(connectWallet: bool) | Offered(caption: Caption, calls: seq<Call>)

  // The "democracy-unlock" branch of lockActionSpec.
  method DemocracyUnlockSpec(plan: Plan, own: bool) returns (offer: Offer)
    ensures offer.Refused? <==> (plan.remove == [] && !plan.unlock) || !own
    ensures offer.Refused? ==> (offer.connectWallet <==> plan.remove != [] || plan.unlock)
    ensures offer.Offered? ==>
      && offer.calls == (if plan.rejigFirst then [Unlock] else []) + Removes(plan.remove) + (if plan.unlock then [Unlock] else [])
      && (offer.caption == UnlockOnly <==> plan.remove == [])
      && (offer.caption != RemoveFinished <==> plan.unlock)
  {
    if |plan.remove| == 0 && !plan.unlock {
      return Refused(false);
    }
    if !own {
      return Refused(true);
    }
    var caption := if |plan.remove| == 0 then UnlockOnly else if plan.unlock then RemoveAndUnlock else RemoveFinished;
    var calls: seq<Call> := [];
    if plan.rejigFirst {
      calls := calls + [Unlock];
    }
    ghost var front := calls;
    for i := 0 to |plan.remove|
      invariant calls + Removes(plan.remove[i..]) == front + Removes(plan.remove)
    {
      assert plan.remove[i..][1..] == plan.remove[i + 1..];
      calls := calls + [RemoveVote(plan.remove[i].index)];
    }
    assert plan.remove[|plan.remove|..] == [] && plan.remove[0..] == plan.remove;
    assert calls + Removes([]) == calls;
    if plan.unlock {
      calls := calls + [Unlock];
    }
    offer := Offered(caption, calls);
  }

  // The batch signed for a snapshot.
  function Batch(snap: Snapshot): seq<Call> {
    (if RejigFirst(snap) then [Unlock] else [])
    + Removes(RemoveItems(snap.env, snap.block, snap.votes))
    + (if LockAfter(snap) < LockNow(snap) then [Unlock] else [])
  }

  // The button over a snapshot: the calls it offers to sign are the batch of that snapshot.
  method UnlockButton(snap: Snapshot, own: bool) returns (plan: Plan, offer: Offer)
    ensures offer.Offered? <==> own && (RemoveItems(snap.env, snap.block, snap.votes) != [] || LockAfter(snap) < LockNow(snap))
    ensures offer.Offered? ==> offer.calls == Batch(snap)
    ensures offer.Offered? && WellFormed(StateOf(snap)) ==>
      var r := RunBatch(snap.env, snap.block, StateOf(snap), offer.calls);
      r.Some? && r.value.lock == plan.lockAfter && plan.freed == plan.lockNow - r.value.lock
  {
    plan := DemocracyActions(snap);
    offer := DemocracyUnlockSpec(plan, own);
    if WellFormed(StateOf(snap)) {
      BatchIsExact(snap);
    }
  }

  // ---- running the batch ------------------------------------------------------

  lemma {:induction false} RunBatchConcat(env: Env, block: nat, s: State, a: seq<Call>, b: seq<Call>)
    ensures RunBatch(env, block, s, a + b) ==
            match RunBatch(env, block, s, a) { case None => None case Some(m) => RunBatch(env, block, m, b) }
    decreases |a|
  {
    if a == [] {
      assert a + b == b;
    } else {
      assert (a + b)[0] == a[0] && (a + b)[1..] == a[1..] + b;
      var m := Step(env, block, s, a[0]);
      if m.Some? {
        RunBatchConcat(env, block, m.value, a[1..], b);
      }
    }
  }

  lemma {:induction false} FindAfterPrefix(front: seq<Vote>, v: Vote, back: seq<Vote>)
    requires forall u :: u in front ==> u.index != v.index
    ensures Find(front + [v] + back, v.index) == |front|
  {
    var all := front + [v] + back;
    assert all[|front|] == v;
    var k := Find(all, v.index);
    assert forall i :: 0 <= i < |front| ==> all[i] == front[i] && front[i] in front;
  }

  function PriorWith(env: Env, block: nat, prior: Prior, v: Vote): Prior {
    if LockEnd(env, v) > block then Accumulate(prior, LockEnd(env, v), v.balance) else prior
  }

  // Removing the vote after a prefix.
  lemma RemoveAfterPrefix(env: Env, block: nat, front: seq<Vote>, v: Vote, back: seq<Vote>, prior: Prior, lock: nat)
    requires OneVotePerReferendum(front + [v] + back) && Removable(env, v)
    ensures OneVotePerReferendum(front + back)
    ensures Step(env, block, State(front + [v] + back, prior, lock), RemoveVote(v.index))
         == Some(State(front + back, PriorWith(env, block, prior, v), lock))
  {
    var all := front + [v] + back;
    assert all[|front|] == v;
    forall u | u in front ensures u.index != v.index {
      var i :| 0 <= i < |front| && front[i] == u;
      assert all[i] == u;
    }
    FindAfterPrefix(front, v, back);
    assert all[..|front|] + all[|front| + 1..] == front + back;
    RemoveAtMembers(all, |front|);
  }

  lemma RunFirst(env: Env, block: nat, s: State, call: Call, calls: seq<Call>)
    requires Step(env, block, s, call).Some?
    ensures RunBatch(env, block, s, [call] + calls) == RunBatch(env, block, Step(env, block, s, call).value, calls)
  {
    assert ([call] + calls)[1..] == calls;
  }

  // Removing every removable vote succeeds at any block, leaves the kept ones in
  // order, and folds the carried ones into the prior.
  lemma {:induction false} RunRemoves(env: Env, planned: nat, block: nat, front: seq<Vote>, rest: seq<Vote>, prior: Prior, lock: nat)
    requires OneVotePerReferendum(front + rest)
    ensures RunBatch(env, block, State(front + rest, prior, lock), Removes(RemoveItems(env, planned, rest)))
         == Some(State(front + Kept(env, rest), AccumulateAll(env, prior, Carried(env, block, rest)), lock))
    decreases |rest|
  {
    if rest == [] {
      assert front + rest == front;
    } else {
      var v, back := rest[0], rest[1..];
      assert front + rest == front + [v] + back;
      if Removable(env, v) {
        RemoveAfterPrefix(env, block, front, v, back, prior, lock);
        var p := PriorWith(env, block, prior, v);
        RemovesFirst(env, planned, rest);
        RunFirst(env, block, State(front + rest, prior, lock), RemoveVote(v.index), Removes(RemoveItems(env, planned, back)));
        RunRemoves(env, planned, block, front, back, p, lock);
        CarriedFirst(env, block, rest, prior);
      } else {
        assert front + rest == (front + [v]) + back;
        RunRemoves(env, planned, block, front + [v], back, prior, lock);
        assert (front + [v]) + Kept(env, back) == front + Kept(env, rest);
      }
    }
  }

  lemma RemovesFirst(env: Env, planned: nat, rest: seq<Vote>)
    requires rest != [] && Removable(env, rest[0])
    ensures Removes(RemoveItems(env, planned, rest)) == [RemoveVote(rest[0].index)] + Removes(RemoveItems(env, planned, rest[1..]))
  {
    var items := RemoveItems(env, planned, rest);
    assert items == [RemoveItemOf(env, planned, rest[0])] + RemoveItems(env, planned, rest[1..]);
    assert items[1..] == RemoveItems(env, planned, rest[1..]);
  }

  lemma CarriedFirst(env: Env, block: nat, rest: seq<Vote>, prior: Prior)
    requires rest != [] && Removable(env, rest[0])
    ensures AccumulateAll(env, prior, Carried(env, block, rest))
         == AccumulateAll(env, PriorWith(env, block, prior, rest[0]), Carried(env, block, rest[1..]))
  {
    var carried, back := Carried(env, block, rest), Carried(env, block, rest[1..]);
    if LockEnd(env, rest[0]) > block {
      assert carried == [rest[0]] + back && carried[1..] == back;
    } else {
      assert carried == back;
    }
  }

  // The whole planned batch, run at any block, as one state.
  function Outcome(snap: Snapshot, block: nat): State {
    var start := if RejigFirst(snap) then Rejig(snap.prior, block) else snap.prior;
    var lock := if RejigFirst(snap) then Max(MaxBalance(snap.votes), start.amount) else LockNow(snap);
    var p := AccumulateAll(snap.env, start, Carried(snap.env, block, snap.votes));
    var kept := Kept(snap.env, snap.votes);
    if LockAfter(snap) < LockNow(snap) then State(kept, Rejig(p, block), Max(MaxBalance(kept), Rejig(p, block).amount))
    else State(kept, p, lock)
  }

  // No call of the batch fails, at the planned block or later.
  lemma BatchRuns(snap: Snapshot, block: nat)
    requires OneVotePerReferendum(snap.votes)
    ensures RunBatch(snap.env, block, StateOf(snap), Batch(snap)) == Some(Outcome(snap, block))
  {
    var env, s := snap.env, StateOf(snap);
    var first := if RejigFirst(snap) then [Unlock] else [];
    var removes := Removes(RemoveItems(env, snap.block, snap.votes));
    var last := if LockAfter(snap) < LockNow(snap) then [Unlock] else [];
    var start := if RejigFirst(snap) then Rejig(snap.prior, block) else snap.prior;
    var lock := if RejigFirst(snap) then Max(MaxBalance(snap.votes), start.amount) else LockNow(snap);
    RunUnlockIf(env, block, s, RejigFirst(snap));
    assert RunBatch(env, block, s, first) == Some(State(snap.votes, start, lock));
    assert [] + snap.votes == snap.votes && [] + Kept(env, snap.votes) == Kept(env, snap.votes);
    RunRemoves(env, snap.block, block, [], snap.votes, start, lock);
    RunBatchConcat(env, block, s, first, removes);
    RunBatchConcat(env, block, s, first + removes, last);
    RunUnlockIf(env, block, RunBatch(env, block, s, first + removes).value, LockAfter(snap) < LockNow(snap));
  }

  lemma RunUnlockIf(env: Env, block: nat, s: State, unlock: bool)
    ensures RunBatch(env, block, s, if unlock then [Unlock] else []) == if unlock then Step(env, block, s, Unlock) else Some(s)
  {
    if unlock {
      assert [Unlock][1..] == [];
      assert RunBatch(env, block, Step(env, block, s, Unlock).value, []) == Step(env, block, s, Unlock);
    }
  }

  function MaxLockEnd(env: Env, vs: seq<Vote>): nat {
    if vs == [] then 0 else Max(LockEnd(env, vs[0]), MaxLockEnd(env, vs[1..]))
  }

  lemma {:induction false} AccumulateAllIsMax(env: Env, p: Prior, vs: seq<Vote>)
    ensures AccumulateAll(env, p, vs) == Prior(Max(p.until, MaxLockEnd(env, vs)), Max(p.amount, MaxBalance(vs)))
    decreases |vs|
  {
    if vs != [] {
      AccumulateAllIsMax(env, Accumulate(p, LockEnd(env, vs[0]), vs[0].balance), vs[1..]);
    }
  }

  // Later on, fewer votes are carried, none for longer.
  lemma {:induction false} CarriedShrinks(env: Env, block: nat, later: nat, votes: seq<Vote>)
    requires block <= later
    ensures MaxBalance(Carried(env, later, votes)) <= MaxBalance(Carried(env, block, votes)) <= MaxBalance(votes)
    ensures MaxBalance(Kept(env, votes)) <= MaxBalance(votes)
    ensures Carried(env, later, votes) != [] ==> Carried(env, block, votes) != []
    ensures Carried(env, block, votes) != [] <==> MaxLockEnd(env, Carried(env, block, votes)) > block
  {
    if votes != [] {
      var rest := Carried(env, block, votes[1..]);
      CarriedShrinks(env, block, later, votes[1..]);
      assert ([votes[0]] + rest)[1..] == rest;
      assert ([votes[0]] + Carried(env, later, votes[1..]))[1..] == Carried(env, later, votes[1..]);
      assert ([votes[0]] + Kept(env, votes[1..]))[1..] == Kept(env, votes[1..]);
    }
  }

  // EXACT: run at the planned block, the batch leaves locked what the plan says and frees what it says.
  lemma BatchIsExact(snap: Snapshot)
    requires WellFormed(StateOf(snap))
    ensures var r := RunBatch(snap.env, snap.block, StateOf(snap), Batch(snap));
            && r.Some?
            && r.value.lock == LockAfter(snap)
            && LockAfter(snap) <= LockNow(snap)
  {
    BatchRuns(snap, snap.block);
    CarriedShrinks(snap.env, snap.block, snap.block, snap.votes);
    var start := if RejigFirst(snap) then Prior(0, 0) else snap.prior;
    AccumulateAllIsMax(snap.env, start, Carried(snap.env, snap.block, snap.votes));
  }

  // LATER: included at any later block, with the same referendum outcomes, the
  // batch still succeeds and leaves at most the promised lock.
  lemma BatchLaterKeepsPromise(snap: Snapshot, later: nat)
    requires WellFormed(StateOf(snap)) && snap.block <= later
    ensures var r := RunBatch(snap.env, later, StateOf(snap), Batch(snap));
            r.Some? && r.value.lock <= LockAfter(snap)
  {
    BatchRuns(snap, later);
    BatchIsExact(snap);
    var env := snap.env;
    CarriedShrinks(env, snap.block, later, snap.votes);
    CarriedShrinks(env, later, later, snap.votes);
    var start := if RejigFirst(snap) then Prior(0, 0) else snap.prior;
    AccumulateAllIsMax(env, start, Carried(env, snap.block, snap.votes));
    var start' := if RejigFirst(snap) then Rejig(snap.prior, later) else snap.prior;
    AccumulateAllIsMax(env, start', Carried(env, later, snap.votes));
  }

  // ---- no other order does better -----------------------------------------------

  // A call over the removable votes.
  predicate Allowed(env: Env, c: Call) {
    c.RemoveVote? ==> c.index in env.refs && !env.refs[c.index].Ongoing?
  }

  // What no sequence of allowed calls at this block can undo.
  ghost predicate Held(snap: Snapshot, s: State) {
    && OneVotePerReferendum(s.votes)
    && (forall v :: v in s.votes ==> v in snap.votes)
    && (forall v :: v in snap.votes && !Removable(snap.env, v) ==> v in s.votes)
    && (forall v :: v in snap.votes && LockEnd(snap.env, v) > snap.block ==>
          v in s.votes || (s.prior.until > snap.block && s.prior.amount >= v.balance))
    && (snap.prior.until > snap.block ==> s.prior.until > snap.block && s.prior.amount >= snap.prior.amount)
    && s.lock >= MaxBalance(s.votes) && s.lock >= s.prior.amount
  }

  lemma StepKeepsHeld(snap: Snapshot, s: State, c: Call)
    requires Held(snap, s) && Allowed(snap.env, c)
    requires Step(snap.env, snap.block, s, c).Some?
    ensures Held(snap, Step(snap.env, snap.block, s, c).value)
  {
    if c.RemoveVote? {
      var k := Find(s.votes, c.index);
      RemoveAtMembers(s.votes, k);
      MaxBalanceCovers(s.votes, s.votes[k]);
    }
  }

  lemma {:induction false} RunEachKeepsHeld(snap: Snapshot, s: State, calls: seq<Call>)
    requires Held(snap, s) && forall c :: c in calls ==> Allowed(snap.env, c)
    ensures Held(snap, RunEach(snap.env, snap.block, s, calls))
    decreases |calls|
  {
    if calls != [] {
      var r := Step(snap.env, snap.block, s, calls[0]);
      if r.Some? {
        StepKeepsHeld(snap, s, calls[0]);
        RunEachKeepsHeld(snap, r.value, calls[1..]);
      } else {
        RunEachKeepsHeld(snap, s, calls[1..]);
      }
    }
  }

  lemma {:induction false} MaxBalanceBounded(votes: seq<Vote>, bound: nat)
    requires forall v :: v in votes ==> v.balance <= bound
    ensures MaxBalance(votes) <= bound
  {
    if votes != [] {
      MaxBalanceBounded(votes[1..], bound);
    }
  }

  lemma {:induction false} KeptCarriedMembers(env: Env, block: nat, votes: seq<Vote>)
    ensures forall v :: v in Kept(env, votes) ==> v in votes && !Removable(env, v)
    ensures forall v :: v in Carried(env, block, votes) ==> v in votes && LockEnd(env, v) > block
  {
    if votes != [] {
      KeptCarriedMembers(env, block, votes[1..]);
    }
  }

  // OPTIMAL: no sequence of unlock and removeVote calls over the removable votes,
  // in any order and number, leaves less locked at this block.
  lemma PlanIsOptimal(snap: Snapshot, calls: seq<Call>)
    requires WellFormed(StateOf(snap))
    requires forall c :: c in calls ==> Allowed(snap.env, c)
    ensures RunEach(snap.env, snap.block, StateOf(snap), calls).lock >= LockAfter(snap)
  {
    RunEachKeepsHeld(snap, StateOf(snap), calls);
    var s := RunEach(snap.env, snap.block, StateOf(snap), calls);
    var kept, carried := Kept(snap.env, snap.votes), Carried(snap.env, snap.block, snap.votes);
    KeptCarriedMembers(snap.env, snap.block, snap.votes);
    forall v: Vote | v in kept || v in carried ensures v.balance <= s.lock {
      if v in s.votes {
        MaxBalanceCovers(s.votes, v);
      }
    }
    MaxBalanceBounded(kept, s.lock);
    MaxBalanceBounded(carried, s.lock);
    CarriedShrinks(snap.env, snap.block, snap.block, snap.votes);
    AccumulateAllIsMax(snap.env, if RejigFirst(snap) then Prior(0, 0) else snap.prior, carried);
  }

  // When the button is not offered, nothing an allowed call does would lower the lock.
  lemma RefusedMeansNothingToFree(snap: Snapshot, calls: seq<Call>)
    requires WellFormed(StateOf(snap)) && LockAfter(snap) >= LockNow(snap)
    requires forall c :: c in calls ==> Allowed(snap.env, c)
    ensures RunEach(snap.env, snap.block, StateOf(snap), calls).lock >= LockNow(snap)
  {
    PlanIsOptimal(snap, calls);
  }

  // The leading unlock is what makes the plan optimal: with an expired prior larger
  // than a vote that is carried, the same removes without it leave more locked.
  lemma LeadingUnlockMatters()
    ensures exists snap: Snapshot, s: State ::
      && WellFormed(StateOf(snap)) && RejigFirst(snap)
      && RunBatch(snap.env, snap.block, StateOf(snap), Batch(snap)[1..]) == Some(s)
      && s.lock > LockAfter(snap)
  {
    var snap := ExpiredPrior();
    ExpiredPriorBatch(snap);
    var s2 := ExpiredPriorRun(snap.env, StateOf(snap));
    assert Batch(snap)[1..] == [RemoveVote(4), Unlock];
  }

  // A vote of 10 that is carried, and a prior of 50 that expired.
  function ExpiredPrior(): Snapshot {
    Snapshot(Env(map[4 := Finished(90, true)], 20), [Vote(4, Some(true), Locked1x, 10)], Prior(50, 50), 100, Some(50))
  }

  lemma ExpiredPriorBatch(snap: Snapshot)
    requires snap == ExpiredPrior()
    ensures RejigFirst(snap) && LockAfter(snap) == 10 && Batch(snap) == [Unlock, RemoveVote(4), Unlock]
  {
    var v := Vote(4, Some(true), Locked1x, 10);
    assert Carried(snap.env, 100, snap.votes) == [v];
    assert Kept(snap.env, snap.votes) == [];
    assert AccumulateAll(snap.env, Prior(0, 0), [v]) == Prior(110, 10) by {
      AccumulateAllIsMax(snap.env, Prior(0, 0), [v]);
    }
    assert RemoveItems(snap.env, 100, snap.votes) == [RemoveItemOf(snap.env, 100, v)];
    var item := RemoveItemOf(snap.env, 100, v);
    assert [item][1..] == [] && Removes([item]) == [RemoveVote(4)] + Removes([]);
  }

  lemma ExpiredPriorRun(env: Env, s0: State) returns (s2: State)
    requires env == ExpiredPrior().env && s0 == StateOf(ExpiredPrior())
    ensures RunBatch(env, 100, s0, [RemoveVote(4), Unlock]) == Some(s2) && s2.lock == 50
  {
    var s1 := Step(env, 100, s0, RemoveVote(4)).value;
    assert s1 == State([], Prior(110, 50), 50);
    s2 := Step(env, 100, s1, Unlock).value;
    assert [RemoveVote(4), Unlock][1..] == [Unlock] && [Unlock][1..] == [];
    assert RunBatch(env, 100, s2, []) == Some(s2);
    assert RunBatch(env, 100, s1, [Unlock]) == Some(s2);
  }

  // ---- the date panel -----------------------------------------------------------

  datatype LockPlan = LockPlan(unlockAt: nat, ongoing: bool, canUnlockNow: bool)

  // The block at which one finished vote stops holding the lock (0 when not finished).
  function VoteEnd(env: Env, v: Vote): nat {
    if v.index in env.refs && env.refs[v.index].Finished?
    then env.refs[v.index].end + (if v.aye == Some(env.refs[v.index].approved) then Periods(v.conviction) * env.period else 0)
    else 0
  }

  // democracyLockPlan for a direct voter, at the snapshot's block.
  method DemocracyLockPlan(snap: Snapshot) returns (r: LockPlan)
    ensures r.unlockAt >= snap.prior.until
    ensures forall v :: v in snap.votes ==> r.unlockAt >= VoteEnd(snap.env, v)
    ensures r.unlockAt == snap.prior.until || exists v :: v in snap.votes && r.unlockAt == VoteEnd(snap.env, v)
    ensures r.ongoing <==> exists v :: v in snap.votes && v.index in snap.env.refs && snap.env.refs[v.index].Ongoing?
    ensures r.canUnlockNow <==>
      && (forall v :: v in snap.votes ==> v.index in snap.env.refs && snap.env.refs[v.index].Finished?)
      && r.unlockAt <= snap.block
    ensures r.canUnlockNow ==> LockAfter(snap) == 0
  {
    var env := snap.env;
    var unlockAt, ongoing, unknown := snap.prior.until, false, false;
    for i := 0 to |snap.votes|
      invariant unlockAt >= snap.prior.until
      invariant forall v :: v in snap.votes[..i] ==> unlockAt >= VoteEnd(env, v)
      invariant unlockAt == snap.prior.until || exists v :: v in snap.votes && unlockAt == VoteEnd(env, v)
      invariant ongoing <==> exists v :: v in snap.votes[..i] && v.index in env.refs && env.refs[v.index].Ongoing?
      invariant !ongoing && !unknown <==> forall v :: v in snap.votes[..i] ==> v.index in env.refs && env.refs[v.index].Finished?
    {
      var v := snap.votes[i];
      assert snap.votes[..i + 1] == snap.votes[..i] + [v];
      if v.index in env.refs && env.refs[v.index].Ongoing? {
        ongoing := true;
      } else if v.index in env.refs && env.refs[v.index].Finished? {
        var info := env.refs[v.index];
        var won := if v.aye.None? then false else if info.approved then v.aye.value else !v.aye.value;
        var periods := if won then Periods(v.conviction) else 0;
        unlockAt := Max(unlockAt, info.end + periods * env.period);
        assert unlockAt >= VoteEnd(env, v);
      } else {
        unknown := true;
      }
    }
    assert snap.votes[..|snap.votes|] == snap.votes;
    r := LockPlan(unlockAt, ongoing, !ongoing && !unknown && unlockAt <= snap.block);
    if r.canUnlockNow {
      CanUnlockNowFreesAll(snap);
    }
  }

  // AGREE: when the panel says everything can come off now, so does the planner.
  lemma CanUnlockNowFreesAll(snap: Snapshot)
    requires forall v :: v in snap.votes ==>
      && v.index in snap.env.refs && snap.env.refs[v.index].Finished?
      && VoteEnd(snap.env, v) <= snap.block
    requires snap.prior.until <= snap.block
    ensures LockAfter(snap) == 0
  {
    KeptCarriedMembers(snap.env, snap.block, snap.votes);
    var kept, carried := Kept(snap.env, snap.votes), Carried(snap.env, snap.block, snap.votes);
    assert forall v: Vote :: VoteEnd(snap.env, v) >= LockEnd(snap.env, v);
    assert forall v :: v !in kept;
    assert forall v :: v !in carried;
  }
}
