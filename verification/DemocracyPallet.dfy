/** Part of pallet-democracy: how much a direct voter's "democrac" lock holds. */
module DemocracyPallet {
  // A step machine over removeVote and unlock, by the rules stated at lib/lock-actions.js:19-24.

  import opened Util

  datatype Conviction = NoConviction | Locked1x | Locked2x | Locked3x | Locked4x | Locked5x | Locked6x

  function Periods(c: Conviction): nat {
    match c
    case NoConviction => 0
    case Locked1x => 1
    case Locked2x => 2
    case Locked3x => 4
    case Locked4x => 8
    case Locked5x => 16
    case Locked6x => 32
  }

  // aye is None for a split vote, which never carries a conviction lock.
  datatype Vote = Vote(index: nat, aye: Option<bool>, conviction: Conviction, balance: nat)

  datatype Referendum = Ongoing(end: nat) | Finished(end: nat, approved: bool) | Cancelled

  datatype Prior = Prior(until: nat, amount: nat)

  // What the calls read and do not change. A referendum missing from refs is
  // one whose information could not be read.
  datatype Env = Env(refs: map<nat, Referendum>, period: nat)

  datatype State = State(votes: seq<Vote>, prior: Prior, lock: nat)

  datatype Call = Unlock | RemoveVote(index: nat)

  predicate Removable(env: Env, v: Vote) {
    v.index in env.refs && !env.refs[v.index].Ongoing?
  }

  // The block up to which removing v leaves its balance in the prior lock; 0 when it leaves nothing.
  function LockEnd(env: Env, v: Vote): nat {
    if v.index in env.refs && env.refs[v.index].Finished? && v.aye == Some(env.refs[v.index].approved)
    then env.refs[v.index].end + Periods(v.conviction) * env.period
    else 0
  }

  function Accumulate(p: Prior, until: nat, amount: nat): Prior {
    Prior(Max(p.until, until), Max(p.amount, amount))
  }

  function Rejig(p: Prior, block: nat): Prior {
    if p.until <= block then Prior(0, 0) else p
  }

  function MaxBalance(votes: seq<Vote>): nat {
    if votes == [] then 0 else Max(votes[0].balance, MaxBalance(votes[1..]))
  }

  predicate OneVotePerReferendum(votes: seq<Vote>) {
    forall i, j :: 0 <= i < j < |votes| ==> votes[i].index != votes[j].index
  }

  function Find(votes: seq<Vote>, index: nat): (k: nat)
    ensures k <= |votes|
    ensures k < |votes| ==> votes[k].index == index
    ensures forall i :: 0 <= i < k ==> votes[i].index != index
  {
    if votes == [] || votes[0].index == index then 0 else 1 + Find(votes[1..], index)
  }

  // One call at a block. None: the call fails (no such vote, or its referendum is unreadable).
  function Step(env: Env, block: nat, s: State, call: Call): Option<State> {
    match call
    case Unlock =>
      var p := Rejig(s.prior, block);
      Some(State(s.votes, p, Max(MaxBalance(s.votes), p.amount)))
    case RemoveVote(index) =>
      var k := Find(s.votes, index);
      if k == |s.votes| || index !in env.refs then None
      else
        var v := s.votes[k];
        var p := if LockEnd(env, v) > block then Accumulate(s.prior, LockEnd(env, v), v.balance) else s.prior;
        Some(State(s.votes[..k] + s.votes[k + 1..], p, s.lock))
  }

  // utility.batchAll: every call succeeds, or nothing happens.
  function RunBatch(env: Env, block: nat, s: State, calls: seq<Call>): Option<State>
    decreases |calls|
  {
    if calls == [] then Some(s)
    else match Step(env, block, s, calls[0])
      case None => None
      case Some(s') => RunBatch(env, block, s', calls[1..])
  }

  // Calls submitted one by one: a failing call changes nothing and the rest go on.
  function RunEach(env: Env, block: nat, s: State, calls: seq<Call>): State
    decreases |calls|
  {
    if calls == [] then s
    else match Step(env, block, s, calls[0])
      case None => RunEach(env, block, s, calls[1..])
      case Some(s') => RunEach(env, block, s', calls[1..])
  }

  // What the pallet maintains: the lock covers every recorded vote and the prior,
  // and a prior without an end holds nothing.
  ghost predicate WellFormed(s: State) {
    && OneVotePerReferendum(s.votes)
    && s.lock >= MaxBalance(s.votes)
    && s.lock >= s.prior.amount
    && (s.prior.until == 0 ==> s.prior.amount == 0)
  }

  lemma {:induction false} MaxBalanceConcat(a: seq<Vote>, b: seq<Vote>)
    ensures MaxBalance(a + b) == Max(MaxBalance(a), MaxBalance(b))
  {
    if a == [] {
      assert a + b == b;
    } else {
      assert (a + b)[1..] == a[1..] + b;
      MaxBalanceConcat(a[1..], b);
    }
  }

  lemma {:induction false} MaxBalanceCovers(votes: seq<Vote>, v: Vote)
    requires v in votes
    ensures v.balance <= MaxBalance(votes)
  {
    if v != votes[0] {
      MaxBalanceCovers(votes[1..], v);
    }
  }

  lemma MaxBalanceWithout(a: seq<Vote>, v: Vote, b: seq<Vote>)
    ensures MaxBalance(a + b) <= MaxBalance(a + ([v] + b))
  {
    MaxBalanceConcat(a, [v] + b);
    MaxBalanceConcat([v], b);
    MaxBalanceConcat(a, b);
  }

  // Removing a vote takes out that vote only.
  lemma RemoveAtMembers(votes: seq<Vote>, k: nat)
    requires k < |votes| && OneVotePerReferendum(votes)
    ensures var rest := votes[..k] + votes[k + 1..];
            && OneVotePerReferendum(rest)
            && MaxBalance(rest) <= MaxBalance(votes)
            && forall v :: v in rest <==> v in votes && v != votes[k]
  {
    var rest := votes[..k] + votes[k + 1..];
    assert votes == votes[..k] + ([votes[k]] + votes[k + 1..]);
    MaxBalanceWithout(votes[..k], votes[k], votes[k + 1..]);
    assert forall i :: 0 <= i < |rest| ==> rest[i] == votes[if i < k then i else i + 1];
    forall v | v in votes && v != votes[k] ensures v in rest {
      var i :| 0 <= i < |votes| && votes[i] == v;
      assert v == if i < k then rest[i] else rest[i - 1];
    }
  }

  // Every call keeps the pallet's invariant.
  lemma StepKeepsWellFormed(env: Env, block: nat, s: State, call: Call)
    requires WellFormed(s) && Step(env, block, s, call).Some?
    ensures WellFormed(Step(env, block, s, call).value)
  {
    if call.RemoveVote? {
      var k := Find(s.votes, call.index);
      RemoveAtMembers(s.votes, k);
      MaxBalanceCovers(s.votes, s.votes[k]);
    }
  }
}
