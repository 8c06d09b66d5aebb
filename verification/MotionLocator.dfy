/** The two bisections of lib/collective-motions.js that place a motion on the chain. */
module MotionLocator {
  // The node's answers are functions of the block; None is a read that failed.

  import opened Util

  function Pow2(n: nat): nat {
    if n == 0 then 1 else 2 * Pow2(n - 1)
  }

  const MAX_PROBES: nat := 64

  // asked: how many blocks the node was asked about, at most.

  // ---- where a motion was proposed ------------------------------------------------

  predicate Below(countAt: nat -> Option<nat>, target: nat, b: nat) {
    countAt(b).Some? && countAt(b).value < target
  }

  predicate Reached(countAt: nat -> Option<nat>, target: nat, b: nat) {
    countAt(b).Some? && countAt(b).value >= target
  }

  // ProposalCount never goes down; blocks the node cannot read say nothing.
  ghost predicate Monotone(countAt: nat -> Option<nat>) {
    forall a, b :: 0 <= a <= b && countAt(a).Some? && countAt(b).Some? ==> countAt(a).value <= countAt(b).value
  }

  ghost predicate Answers(countAt: nat -> Option<nat>, head: nat) {
    forall b :: 0 <= b <= head ==> countAt(b).Some?
  }

  // The least block in [0, head] whose count reaches the target.
  ghost predicate FirstReached(countAt: nat -> Option<nat>, target: nat, b: nat) {
    && countAt(b).Some? && countAt(b).value >= target
    && forall a :: 0 <= a < b && countAt(a).Some? ==> countAt(a).value < target
  }

  // The hints that survive their check.
  predicate LowHint(countAt: nat -> Option<nat>, target: nat, head: nat, lo: Option<int>) {
    lo.Some? && 0 <= lo.value < head && Below(countAt, target, lo.value)
  }

  predicate HighHint(countAt: nat -> Option<nat>, target: nat, head: nat, above: nat, hi: Option<int>) {
    hi.Some? && above < hi.value <= head && Reached(countAt, target, hi.value)
  }

  // findProposalBlock. With a node that answers, the result is the block the motion was
  // proposed in, or None when the head has not reached it, whatever the hints say.
  // When some reads fail it is still that block or None, with one exception: an
  // unreadable block 0, with no low hint to start from, is itself the answer.
  method FindProposalBlock(index: nat, countAt: nat -> Option<nat>, head: nat, lo: Option<int>, hi: Option<int>)
    returns (found: Option<nat>, ghost asked: nat)
    requires Monotone(countAt)
    ensures asked <= MAX_PROBES + 4
    ensures Answers(countAt, head) && head <= Pow2(MAX_PROBES) ==> (found.None? <==> countAt(head).value < index + 1)
    ensures found.Some? && !(found.value == 0 && countAt(0).None?) ==>
      found.value <= head && FirstReached(countAt, index + 1, found.value)
    ensures found == Some(0) && countAt(0).None? <==>
      && countAt(0).None? && !LowHint(countAt, index + 1, head, lo)
      && (Reached(countAt, index + 1, head) || HighHint(countAt, index + 1, head, 0, hi))
  {
    // The two hints, the head and block 0.
    asked := 4;
    var target := index + 1;
    var L: nat := if LowHint(countAt, target, head, lo) then lo.value else 0;
    var H: nat := if HighHint(countAt, target, head, L, hi) then hi.value else head;
    if H == head && !Reached(countAt, target, head) {
      found := None;
      return;
    }
    if L == 0 && !Below(countAt, target, 0) {
      found := Some(0);
      return;
    }
    var probes: nat := 0;
    while H - L > 1
      invariant L < H <= head && probes <= MAX_PROBES && asked == 4 + probes
      invariant Below(countAt, target, L) && Reached(countAt, target, H)
      invariant head <= Pow2(MAX_PROBES) ==> H - L <= Pow2(MAX_PROBES - probes)
      decreases H - L
    {
      probes := probes + 1;
      if probes > MAX_PROBES {
        found := None;
        return;
      }
      var mid := (L + H) / 2;
      var c := countAt(mid);
      asked := asked + 1;
      if c.None? {
        found := None;
        return;
      }
      if c.value >= target {
        H := mid;
      } else {
        L := mid;
      }
    }
    found := Some(H);
  }

  // The exception, met: block 0 cannot be read, the first motion was proposed in block 5, and the answer is 0.
  method UnreadableGenesisIsAnswered() returns (countAt: nat -> Option<nat>, found: Option<nat>)
    ensures Monotone(countAt) && countAt(0).None? && FirstReached(countAt, 1, 5)
    ensures found == Some(0)
  {
    countAt := b => if b == 0 then None else if b < 5 then Some(0) else Some(1);
    ghost var asked;
    found, asked := FindProposalBlock(0, countAt, 10, None, None);
  }

  // ---- where a motion left storage -------------------------------------------------

  predicate IsOpen(openAt: nat -> Option<bool>, b: nat) {
    openAt(b) == Some(true)
  }

  predicate IsGone(openAt: nat -> Option<bool>, b: nat) {
    openAt(b) == Some(false)
  }

  // Open from its proposal up to closed, gone from there to until. Later re-proposals
  // of the hash are above until.
  ghost predicate OneInterval(openAt: nat -> Option<bool>, proposed: nat, closed: nat, until: nat) {
    && proposed <= closed <= until
    && (forall b :: proposed <= b < closed ==> IsOpen(openAt, b))
    && (forall b :: closed <= b <= until ==> IsGone(openAt, b))
  }

  // findCloseBlock. On any answers, a found block is gone with the block before it open
  // (or is the proposal block itself, gone); a motion open on one interval is placed exactly.
  method FindCloseBlock(proposedBlock: nat, openAt: nat -> Option<bool>, until: nat) returns (found: Option<nat>, ghost asked: nat)
    ensures asked <= MAX_PROBES + 2
    ensures found.Some? ==>
      && proposedBlock <= found.value <= until && IsGone(openAt, found.value)
      && (found.value > proposedBlock ==> IsOpen(openAt, found.value - 1))
    ensures found.Some? ==> until > proposedBlock
    ensures proposedBlock < until && until - proposedBlock <= Pow2(MAX_PROBES) ==>
      forall closed: nat :: OneInterval(openAt, proposedBlock, closed, until) ==> found == Some(closed)
  {
    // At the proposal and at the end.
    asked := 2;
    found := None;
    var L, H := proposedBlock, until;
    if H <= L {
      return;
    }
    var atProposal := openAt(L);
    if atProposal.None? {
      assert forall closed: nat :: !OneInterval(openAt, proposedBlock, closed, until) by {
        assert !IsOpen(openAt, L) && !IsGone(openAt, L);
      }
      return;
    }
    if !atProposal.value {
      assert forall closed: nat :: OneInterval(openAt, proposedBlock, closed, until) && closed != L ==> IsOpen(openAt, L);
      found := Some(L);
      return;
    }
    if openAt(H) != Some(false) {
      assert forall closed: nat :: OneInterval(openAt, proposedBlock, closed, until) ==> IsGone(openAt, H);
      return;
    }
    var probes: nat := 0;
    while H - L > 1
      invariant proposedBlock <= L < H <= until && probes <= MAX_PROBES && asked == 2 + probes && found == None
      invariant IsOpen(openAt, L) && IsGone(openAt, H)
      invariant until - proposedBlock <= Pow2(MAX_PROBES) ==> H - L <= Pow2(MAX_PROBES - probes)
      decreases H - L
    {
      probes := probes + 1;
      if probes > MAX_PROBES {
        return;
      }
      var mid := (L + H) / 2;
      var open := openAt(mid);
      asked := asked + 1;
      if open.None? {
        forall closed: nat ensures !OneInterval(openAt, proposedBlock, closed, until) {
          assert !IsOpen(openAt, mid) && !IsGone(openAt, mid);
        }
        return;
      }
      if open.value {
        L := mid;
      } else {
        H := mid;
      }
    }
    forall closed: nat | OneInterval(openAt, proposedBlock, closed, until) ensures closed == H {
      assert !IsGone(openAt, L) && !IsOpen(openAt, H);
    }
    found := Some(H);
  }
}
