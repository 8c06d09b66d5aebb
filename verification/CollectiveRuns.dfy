/** Runs of a collective, their crawl, and the rows read back. */
module CollectiveRuns {
  // Runs are proposals, re-proposals of the same call, resolutions and removals. The crawler writes the two tables of
  // db.js in any order and with any repetition. The rows read back are true, tallies included, exactly when no two
  // motions of one call hash were decided alike, or both closed, in one block.

  import opened Util
  import opened CollectiveMotions

  // ---- the chain ------------------------------------------------------------------

  datatype Pos = Pos(block: nat, idx: nat)

  predicate Before(a: Pos, b: Pos) {
    a.block < b.block || (a.block == b.block && a.idx < b.idx)
  }

  // The votes a motion closed with.
  datatype Tally = Tally(ayes: nat, nays: nat)

  datatype Emitted = Emitted(at: Pos, kind: Kind, tally: Option<Tally>)

  // Resolve emits its events while the hash is still open; Drop leaves storage with no event.
  datatype Op = Propose(hash: Hash, at: Pos) | Resolve(hash: Hash, passed: bool, emitted: seq<Emitted>) | Drop(hash: Hash)

  datatype Fate = Open | Passed | Rejected | Dropped
  datatype TrueMotion = TrueMotion(hash: Hash, at: Pos, fate: Fate)
  datatype TrueEvent = TrueEvent(hash: Hash, at: Pos, kind: Kind, owner: nat, tally: Option<Tally>)

  // A motion's index is its position in motions. now: the position of the latest event.
  datatype Chain = Chain(open: map<Hash, nat>, motions: seq<TrueMotion>, log: set<TrueEvent>, now: Option<Pos>)

  const Genesis := Chain(map[], [], {}, None)

  predicate Follows(now: Option<Pos>, at: Pos) {
    now.None? || Before(now.value, at)
  }

  // What one resolution can emit, in one block: Closed with the tally (not always), then what it decided.
  ghost predicate Emits(passed: bool, emitted: seq<Emitted>) {
    && emitted != []
    && (forall i, j :: 0 <= i < j < |emitted| ==>
          Before(emitted[i].at, emitted[j].at) && emitted[i].at.block == emitted[j].at.block && emitted[i].kind != emitted[j].kind)
    && (forall i :: 0 <= i < |emitted| ==> emitted[i].kind in (if passed then {Closed, Approved, Executed} else {Closed, Disapproved}))
    && (forall i :: 0 <= i < |emitted| ==> (emitted[i].tally.Some? <==> emitted[i].kind == Closed))
    && (exists i :: 0 <= i < |emitted| && emitted[i].kind == Deciding(passed))
  }

  function Deciding(passed: bool): Kind {
    if passed then Executed else Disapproved
  }

  ghost predicate Enabled(c: Chain, op: Op) {
    match op
    case Propose(h, at) => h != "" && h !in c.open && Follows(c.now, at)
    case Resolve(h, passed, emitted) => h in c.open && Emits(passed, emitted) && Follows(c.now, emitted[0].at)
    case Drop(h) => h in c.open
  }

  ghost predicate OpenBounded(c: Chain) {
    forall h :: h in c.open ==> c.open[h] < |c.motions|
  }

  ghost function Apply(c: Chain, op: Op): Chain
    requires Enabled(c, op)
    requires OpenBounded(c)
  {
    match op
    case Propose(h, at) =>
      Chain(c.open[h := |c.motions|], c.motions + [TrueMotion(h, at, Open)], c.log, Some(at))
    case Resolve(h, passed, emitted) =>
      var i := c.open[h];
      Chain(c.open - {h}, c.motions[i := c.motions[i].(fate := if passed then Passed else Rejected)],
            c.log + (set k | 0 <= k < |emitted| :: TrueEvent(h, emitted[k].at, emitted[k].kind, i, emitted[k].tally)),
            Some(emitted[|emitted| - 1].at))
    case Drop(h) =>
      var i := c.open[h];
      c.(open := c.open - {h}, motions := c.motions[i := c.motions[i].(fate := Dropped)])
  }

  // Every chain some run of the collective leads to.
  ghost predicate Reaches(ops: seq<Op>, c: Chain)
  {
    if ops == [] then c == Genesis
    else exists b :: Reaches(ops[..|ops| - 1], b) && OpenBounded(b) && Enabled(b, ops[|ops| - 1]) && c == Apply(b, ops[|ops| - 1])
  }

  // An open hash names its newest motion, which is open.
  ghost predicate OpenNewest(c: Chain)
    requires OpenBounded(c)
  {
    && (forall h :: h in c.open ==> c.motions[c.open[h]].hash == h && c.motions[c.open[h]].fate == Open)
    && (forall h, j :: h in c.open && c.open[h] < j < |c.motions| ==> c.motions[j].hash != h)
  }

  // An open motion's hash is open.
  ghost predicate OpenListed(c: Chain)
    requires OpenBounded(c)
  {
    forall i :: 0 <= i < |c.motions| && c.motions[i].fate == Open ==> c.motions[i].hash in c.open && c.open[c.motions[i].hash] == i
  }

  ghost predicate InOrder(c: Chain) {
    && (forall i, j :: 0 <= i < j < |c.motions| ==> Before(c.motions[i].at, c.motions[j].at))
    && (forall i :: 0 <= i < |c.motions| ==> c.motions[i].hash != "" && c.now.Some? && !Before(c.now.value, c.motions[i].at))
  }

  ghost predicate MotionsConsistent(c: Chain) {
    OpenBounded(c) && OpenNewest(c) && OpenListed(c) && InOrder(c)
  }

  // An event lies between the proposal of its motion and the next proposal of the hash.
  ghost predicate Placed(c: Chain, e: TrueEvent) {
    && e.owner < |c.motions| && c.motions[e.owner].hash == e.hash && Before(c.motions[e.owner].at, e.at)
    && (forall j :: e.owner < j < |c.motions| && c.motions[j].hash == e.hash ==> Before(e.at, c.motions[j].at))
    && c.now.Some? && !Before(c.now.value, e.at)
  }

  ghost predicate LogPlaced(c: Chain) {
    forall e :: e in c.log ==> Placed(c, e)
  }

  // The kinds a motion of each fate emits; Closed alone has the tally.
  ghost predicate KindFits(c: Chain, e: TrueEvent) {
    e.owner < |c.motions| && (e.tally.Some? <==> e.kind == Closed) &&
    match c.motions[e.owner].fate
    case Passed => e.kind in {Closed, Approved, Executed}
    case Rejected => e.kind in {Closed, Disapproved}
    case _ => false
  }

  ghost predicate Decided(c: Chain, i: nat, kind: Kind) {
    exists e :: e in c.log && e.owner == i && e.kind == kind
  }

  // Events of one motion share a block, and each kind occurs once.
  predicate Agree(e: TrueEvent, f: TrueEvent) {
    e.owner == f.owner ==> e.at.block == f.at.block && (e.kind == f.kind ==> e == f)
  }

  ghost predicate LogAgrees(c: Chain) {
    forall e, f :: e in c.log && f in c.log ==> Agree(e, f)
  }

  ghost predicate FatesLogged(c: Chain) {
    && (forall i :: 0 <= i < |c.motions| && c.motions[i].fate == Passed ==> Decided(c, i, Executed))
    && (forall i :: 0 <= i < |c.motions| && c.motions[i].fate == Rejected ==> Decided(c, i, Disapproved))
  }

  // The log of one motion tells its fate.
  ghost predicate LogTellsFate(c: Chain) {
    (forall e :: e in c.log ==> KindFits(c, e)) && LogAgrees(c) && FatesLogged(c)
  }

  lemma EmittedInOrder(passed: bool, emitted: seq<Emitted>, k: nat)
    requires Emits(passed, emitted) && k < |emitted|
    ensures !Before(emitted[k].at, emitted[0].at) && !Before(emitted[|emitted| - 1].at, emitted[k].at)
    ensures emitted[k].at.block == emitted[0].at.block
  {
    assert k == 0 || Before(emitted[0].at, emitted[k].at);
    assert k == |emitted| - 1 || Before(emitted[k].at, emitted[|emitted| - 1].at);
  }

  lemma ApplyKeepsNewest(c: Chain, op: Op)
    requires OpenBounded(c) && OpenNewest(c) && Enabled(c, op)
    requires forall h, g :: h in c.open && g in c.open && h != g ==> c.open[h] != c.open[g]
    ensures OpenBounded(Apply(c, op)) && OpenNewest(Apply(c, op))
  {
  }

  lemma ApplyKeepsListed(c: Chain, op: Op)
    requires OpenBounded(c) && OpenNewest(c) && OpenListed(c) && Enabled(c, op) && OpenBounded(Apply(c, op))
    ensures OpenListed(Apply(c, op))
  {
  }

  lemma ApplyKeepsOrder(c: Chain, op: Op)
    requires OpenBounded(c) && InOrder(c) && Enabled(c, op)
    ensures InOrder(Apply(c, op))
  {
    if op.Resolve? {
      EmittedInOrder(op.passed, op.emitted, |op.emitted| - 1);
    }
  }

  lemma ApplyKeepsMotions(c: Chain, op: Op)
    requires MotionsConsistent(c) && Enabled(c, op)
    ensures MotionsConsistent(Apply(c, op))
  {
    ApplyKeepsNewest(c, op);
    ApplyKeepsListed(c, op);
    ApplyKeepsOrder(c, op);
  }

  lemma ResolveKeepsPlaced(c: Chain, op: Op, e: TrueEvent)
    requires MotionsConsistent(c) && LogPlaced(c) && Enabled(c, op) && op.Resolve? && e in Apply(c, op).log
    ensures Placed(Apply(c, op), e)
  {
    EmittedInOrder(op.passed, op.emitted, 0);
    if e in c.log {
      assert Placed(c, e);
    } else {
      var k :| 0 <= k < |op.emitted| && e == TrueEvent(op.hash, op.emitted[k].at, op.emitted[k].kind, c.open[op.hash], op.emitted[k].tally);
      EmittedInOrder(op.passed, op.emitted, k);
    }
  }

  lemma ApplyKeepsPlaced(c: Chain, op: Op)
    requires MotionsConsistent(c) && LogPlaced(c) && Enabled(c, op)
    ensures LogPlaced(Apply(c, op))
  {
    var d := Apply(c, op);
    forall e | e in d.log ensures Placed(d, e) {
      if op.Resolve? {
        ResolveKeepsPlaced(c, op, e);
      } else {
        assert Placed(c, e);
      }
    }
  }

  // A motion still open has no event yet.
  lemma OpenHasNoEvent(c: Chain, h: Hash, e: TrueEvent)
    requires MotionsConsistent(c) && LogTellsFate(c) && h in c.open && e in c.log
    ensures e.owner != c.open[h]
  {
    assert KindFits(c, e);
  }

  lemma ApplyKeepsKinds(c: Chain, op: Op)
    requires MotionsConsistent(c) && LogTellsFate(c) && Enabled(c, op)
    ensures forall e :: e in Apply(c, op).log ==> KindFits(Apply(c, op), e)
  {
    var d := Apply(c, op);
    forall e | e in d.log ensures KindFits(d, e) {
      if e in c.log {
        assert KindFits(c, e);
        if !op.Propose? {
          OpenHasNoEvent(c, op.hash, e);
        }
      }
    }
  }

  lemma ResolveKeepsAgreement(c: Chain, op: Op, e: TrueEvent, f: TrueEvent)
    requires MotionsConsistent(c) && LogTellsFate(c) && Enabled(c, op) && op.Resolve?
    requires e in Apply(c, op).log && f in Apply(c, op).log
    ensures Agree(e, f)
  {
    var i := c.open[op.hash];
    if e in c.log {
      OpenHasNoEvent(c, op.hash, e);
    } else {
      var k :| 0 <= k < |op.emitted| && e == TrueEvent(op.hash, op.emitted[k].at, op.emitted[k].kind, i, op.emitted[k].tally);
      EmittedInOrder(op.passed, op.emitted, k);
      if f in c.log {
        OpenHasNoEvent(c, op.hash, f);
      } else {
        var l :| 0 <= l < |op.emitted| && f == TrueEvent(op.hash, op.emitted[l].at, op.emitted[l].kind, i, op.emitted[l].tally);
        EmittedInOrder(op.passed, op.emitted, l);
      }
    }
  }

  lemma ApplyKeepsAgreement(c: Chain, op: Op)
    requires MotionsConsistent(c) && LogTellsFate(c) && Enabled(c, op)
    ensures LogAgrees(Apply(c, op))
  {
    if op.Resolve? {
      forall e, f | e in Apply(c, op).log && f in Apply(c, op).log ensures Agree(e, f) {
        ResolveKeepsAgreement(c, op, e, f);
      }
    }
  }

  lemma StillDecided(c: Chain, d: Chain, i: nat, kind: Kind)
    requires Decided(c, i, kind) && c.log <= d.log
    ensures Decided(d, i, kind)
  {
    var e :| e in c.log && e.owner == i && e.kind == kind;
    assert e in d.log;
  }

  lemma ApplyKeepsFatesLogged(c: Chain, op: Op)
    requires MotionsConsistent(c) && FatesLogged(c) && Enabled(c, op)
    ensures FatesLogged(Apply(c, op))
  {
    var d := Apply(c, op);
    forall n: nat | n < |d.motions| && d.motions[n].fate in {Passed, Rejected}
      ensures Decided(d, n, Deciding(d.motions[n].fate == Passed))
    {
      if op.Resolve? && n == c.open[op.hash] {
        var w :| 0 <= w < |op.emitted| && op.emitted[w].kind == Deciding(op.passed);
        assert TrueEvent(op.hash, op.emitted[w].at, op.emitted[w].kind, n, op.emitted[w].tally) in d.log;
      } else {
        StillDecided(c, d, n, Deciding(d.motions[n].fate == Passed));
      }
    }
  }

  // Every reachable chain is consistent.
  lemma {:induction false} ReachableConsistent(ops: seq<Op>, c: Chain)
    requires Reaches(ops, c)
    ensures MotionsConsistent(c) && LogPlaced(c) && LogTellsFate(c)
  {
    if ops != [] {
      var b :| Reaches(ops[..|ops| - 1], b) && OpenBounded(b) && Enabled(b, ops[|ops| - 1]) && c == Apply(b, ops[|ops| - 1]);
      ReachableConsistent(ops[..|ops| - 1], b);
      ApplyKeepsMotions(b, ops[|ops| - 1]);
      ApplyKeepsPlaced(b, ops[|ops| - 1]);
      ApplyKeepsKinds(b, ops[|ops| - 1]);
      ApplyKeepsAgreement(b, ops[|ops| - 1]);
      ApplyKeepsFatesLogged(b, ops[|ops| - 1]);
    }
  }

  // ---- the tables -------------------------------------------------------------------

  datatype Key = Key(hash: Hash, block: nat, kind: Kind)

  // One write of the crawler or of the live sync. open: seen in chain storage right now; SawLive: all the motions open at
  // a read, as of a block.
  datatype Seen = SawMotion(motion: Motion, open: bool) | SawEvent(event: Event) | SawLive(live: set<nat>, asOf: Option<nat>)

  datatype Tables = Tables(motions: map<nat, Motion>, events: map<Key, Event>)

  function Coalesce<T>(new_: Option<T>, old_: Option<T>): Option<T> {
    if new_.Some? then new_ else old_
  }

  function KeyOf(e: Event): Key {
    Key(e.hash, e.block, e.kind)
  }

  // INSERT ... ON CONFLICT(collective, motion_index) DO UPDATE.
  function UpsertMotion(t: map<nat, Motion>, m: Motion, open: bool): map<nat, Motion> {
    if m.hash == "" then t
    else if m.index !in t then t[m.index := m.(leftStorage := false)]
    else
      var o := t[m.index];
      t[m.index := Motion(m.index, m.hash, Coalesce(m.block, o.block), Coalesce(m.eventIndex, o.eventIndex),
                          if open then false else o.leftStorage, Coalesce(m.liveAyes, o.liveAyes), Coalesce(m.liveNays, o.liveNays))]
  }

  // INSERT ... ON CONFLICT(collective, hash, block, kind) DO UPDATE.
  function UpsertEvent(t: map<Key, Event>, e: Event): map<Key, Event> {
    if e.hash == "" || e.kind == Other then t
    else if KeyOf(e) !in t then t[KeyOf(e) := e]
    else
      var o := t[KeyOf(e)];
      t[KeyOf(e) := Event(e.hash, e.block, if e.eventIndex >= 0 then e.eventIndex else o.eventIndex, e.kind,
                          Coalesce(e.ayes, o.ayes), Coalesce(e.nays, o.nays), Coalesce(e.at, o.at))]
  }

  // A motion the live read can judge and does not list.
  predicate Missing(m: Motion, live: set<nat>, asOf: Option<nat>) {
    m.index !in live && (asOf.None? || m.block.None? || m.block.value <= asOf.value)
  }

  predicate ShownProposed(rows: seq<Row>, i: nat) {
    exists k :: 0 <= k < |rows| && rows[k].index == i && rows[k].status == Proposed
  }

  // UPDATE ... SET left_storage_at, for what the rows show as proposed and the read does not list.
  function Marked(t: map<nat, Motion>, rows: seq<Row>, live: set<nat>, asOf: Option<nat>): map<nat, Motion> {
    map i | i in t :: if Missing(t[i], live, asOf) && ShownProposed(rows, i) then t[i].(leftStorage := true) else t[i]
  }

  ghost predicate Writes(t: Tables, s: Seen, t': Tables) {
    match s
    case SawMotion(m, open) => t' == t.(motions := UpsertMotion(t.motions, m, open))
    case SawEvent(e) => t' == t.(events := UpsertEvent(t.events, e))
    case SawLive(live, asOf) =>
      exists motions, events ::
        Reads(motions, events, t) && t' == t.(motions := Marked(t.motions, Attribute(motions, events), live, asOf))
  }

  const NoRows := Tables(map[], map[])

  // The tables before and after each of some writes, in any order and repetition.
  ghost predicate Crawled(seen: seq<Seen>, tables: seq<Tables>) {
    && |tables| == |seen| + 1 && tables[0] == NoRows
    && forall k :: 0 <= k < |seen| ==> Writes(tables[k], seen[k], tables[k + 1])
  }

  // upsertCollectiveMotion, insertCollectiveMotionEvent and resolveMissingCollectiveMotions, for one collective.
  class CollectiveStore {
    var motions: map<nat, Motion>
    var events: map<Key, Event>

    constructor ()
      ensures Valid() && Contents() == NoRows
    {
      motions, events := map[], map[];
    }

    // Rows are stored under their own keys.
    ghost predicate Valid()
      reads this
    {
      (forall i :: i in motions ==> motions[i].index == i) && (forall k :: k in events ==> KeyOf(events[k]) == k)
    }

    ghost function Contents(): Tables
      reads this
    {
      Tables(motions, events)
    }

    method UpsertCollectiveMotion(m: Motion, open: bool) returns (written: bool)
      requires Valid()
      modifies this
      ensures Valid() && Writes(old(Contents()), SawMotion(m, open), Contents())
      ensures written <==> m.hash != ""
    {
      if m.hash == "" {
        return false;
      }
      if m.index in motions {
        var o := motions[m.index];
        motions := motions[m.index := Motion(
          m.index, m.hash,
          if m.block.Some? then m.block else o.block,
          if m.eventIndex.Some? then m.eventIndex else o.eventIndex,
          if open then false else o.leftStorage,
          if m.liveAyes.Some? then m.liveAyes else o.liveAyes,
          if m.liveNays.Some? then m.liveNays else o.liveNays)];
      } else {
        motions := motions[m.index := m.(leftStorage := false)];
      }
      return true;
    }

    method InsertCollectiveMotionEvent(e: Event) returns (written: bool)
      requires Valid()
      modifies this
      ensures Valid() && Writes(old(Contents()), SawEvent(e), Contents())
      ensures written <==> e.hash != "" && e.kind != Other
    {
      if e.hash == "" || e.kind == Other {
        return false;
      }
      var key := Key(e.hash, e.block, e.kind);
      if key in events {
        var o := events[key];
        events := events[key := Event(
          e.hash, e.block, if e.eventIndex >= 0 then e.eventIndex else o.eventIndex, e.kind,
          if e.ayes.Some? then e.ayes else o.ayes,
          if e.nays.Some? then e.nays else o.nays,
          if e.at.Some? then e.at else o.at)];
      } else {
        events := events[key := e];
      }
      return true;
    }

    // SELECT ... FROM collective_motions, and FROM collective_motion_events.
    method ReadTables() returns (ms: seq<Motion>, es: seq<Event>)
      requires Valid()
      ensures Reads(ms, es, Contents())
    {
      ms, es := [], [];
      var left := motions.Keys;
      while left != {}
        invariant left <= motions.Keys && DistinctIndices(ms)
        invariant forall m :: m in ms <==> m.index in motions && m.index !in left && motions[m.index] == m
      {
        var i :| i in left;
        left := left - {i};
        assert forall k :: 0 <= k < |ms| ==> ms[k] in ms;
        ms := ms + [motions[i]];
      }
      var keys := events.Keys;
      while keys != {}
        invariant keys <= events.Keys
        invariant forall e :: e in es <==> KeyOf(e) in events && KeyOf(e) !in keys && events[KeyOf(e)] == e
      {
        var k :| k in keys;
        keys := keys - {k};
        es := es + [events[k]];
      }
    }

    // resolveMissingCollectiveMotions: refused unless the caller vouches for the live set.
    method ResolveMissingCollectiveMotions(live: set<nat>, trusted: bool, asOf: Option<nat>)
      requires Valid()
      modifies this
      ensures Valid() && events == old(events)
      ensures if trusted then Writes(old(Contents()), SawLive(live, asOf), Contents()) else Contents() == old(Contents())
    {
      if !trusted {
        return;
      }
      var ms, es := ReadTables();
      var rows := AttributeMotionEvents(ms, es);
      var gone := GoneMotions(ms, rows, live, asOf);
      MarkedAre(Contents(), ms, es, rows, live, asOf, gone);
      motions := map i | i in motions :: if i in gone then motions[i].(leftStorage := true) else motions[i];
    }
  }

  lemma MarkedAre(t: Tables, ms: seq<Motion>, es: seq<Event>, rows: seq<Row>, live: set<nat>, asOf: Option<nat>, gone: set<nat>)
    requires Reads(ms, es, t) && rows == Attribute(ms, es) && forall i :: i in t.motions ==> t.motions[i].index == i
    requires forall i :: i in gone <==> OneGone(ms, rows, live, asOf, i, |ms|)
    ensures (map i | i in t.motions :: if i in gone then t.motions[i].(leftStorage := true) else t.motions[i])
         == Marked(t.motions, rows, live, asOf)
  {
    forall i | i in t.motions ensures i in gone <==> Missing(t.motions[i], live, asOf) && ShownProposed(rows, i) {
      assert t.motions[i] in ms;
      GoneAre(ms, rows, live, asOf, t.motions[i]);
    }
  }

  ghost predicate OneGone(ms: seq<Motion>, rows: seq<Row>, live: set<nat>, asOf: Option<nat>, i: nat, n: nat)
    requires n <= |ms| == |rows|
  {
    exists k :: 0 <= k < n && ms[k].index == i && rows[k].status == Proposed && Missing(ms[k], live, asOf)
  }

  // The motions shown as proposed that the live read can judge and does not list.
  method GoneMotions(ms: seq<Motion>, rows: seq<Row>, live: set<nat>, asOf: Option<nat>) returns (gone: set<nat>)
    requires |ms| == |rows|
    ensures forall i :: i in gone <==> OneGone(ms, rows, live, asOf, i, |ms|)
  {
    gone := {};
    for k := 0 to |ms|
      invariant forall i :: i in gone <==> OneGone(ms, rows, live, asOf, i, k)
    {
      var m := ms[k];
      if rows[k].status == Proposed && m.index !in live && (asOf.None? || m.block.None? || m.block.value <= asOf.value) {
        gone := gone + {m.index};
      }
    }
  }

  lemma GoneAre(ms: seq<Motion>, rows: seq<Row>, live: set<nat>, asOf: Option<nat>, m: Motion)
    requires DistinctIndices(ms) && |ms| == |rows| && m in ms
    requires forall j :: 0 <= j < |rows| ==> rows[j].index == ms[j].index
    ensures OneGone(ms, rows, live, asOf, m.index, |ms|) <==> Missing(m, live, asOf) && ShownProposed(rows, m.index)
  {
    var k :| 0 <= k < |ms| && ms[k] == m;
    OwnRow(ms, rows, k);
    assert forall j :: 0 <= j < |ms| && ms[j].index == m.index ==> j == k;
  }

  // The row of a motion is the only one with its index.
  lemma OwnRow(motions: seq<Motion>, rows: seq<Row>, k: nat)
    requires DistinctIndices(motions) && k < |motions| && |rows| == |motions|
    requires forall j :: 0 <= j < |rows| ==> rows[j].index == motions[j].index
    ensures ShownProposed(rows, motions[k].index) <==> rows[k].status == Proposed
  {
  }

  // ---- a truthful, complete crawl -----------------------------------------------------

  ghost predicate MotionFits(m: Motion, c: Chain) {
    && m.index < |c.motions|
    && m.hash == c.motions[m.index].hash
    && (m.block.Some? ==> m.block.value == c.motions[m.index].at.block)
    && (m.eventIndex.Some? ==> m.eventIndex.value == c.motions[m.index].at.idx)
  }

  // e is in the place of the true event te, its position inside the block perhaps unknown.
  ghost predicate PlaceIs(e: Event, te: TrueEvent) {
    e.hash == te.hash && e.block == te.at.block && e.kind == te.kind && (e.eventIndex >= 0 ==> e.eventIndex == te.at.idx)
  }

  // What e says of the tally is so.
  ghost predicate TallyIs(e: Event, te: TrueEvent) {
    && (e.ayes.Some? ==> te.tally.Some? && e.ayes.value == te.tally.value.ayes)
    && (e.nays.Some? ==> te.tally.Some? && e.nays.value == te.tally.value.nays)
  }

  ghost predicate EventIs(e: Event, te: TrueEvent) {
    PlaceIs(e, te) && TallyIs(e, te)
  }

  ghost predicate EventFits(e: Event, c: Chain) {
    exists te :: te in c.log && PlaceIs(e, te)
  }

  ghost predicate Truthful(s: Seen, c: Chain) {
    match s
    case SawMotion(m, _) => MotionFits(m, c)
    case SawEvent(e) => exists te :: te in c.log && EventIs(e, te)
    case SawLive(live, asOf) => forall i: nat :: i < |c.motions| && c.motions[i].fate == Open ==> LiveOrNewer(c, i, live, asOf)
  }

  // An open motion was listed, or proposed after the read.
  ghost predicate LiveOrNewer(c: Chain, i: nat, live: set<nat>, asOf: Option<nat>)
    requires i < |c.motions|
  {
    i in live || (asOf.Some? && c.motions[i].at.block > asOf.value)
  }

  // Every motion's place, every event and every tally was seen at least once, in whichever writes.
  ghost predicate Complete(seen: seq<Seen>, c: Chain) {
    && (forall i: nat :: i < |c.motions| ==> BlockSeen(seen, i) && IndexSeen(seen, i))
    && (forall te :: te in c.log ==> EventSeen(seen, te) && (te.tally.Some? ==> TallySeen(seen, te)))
  }

  ghost predicate BlockSeen(seen: seq<Seen>, i: nat) {
    exists k :: 0 <= k < |seen| && seen[k].SawMotion? && seen[k].motion.index == i && seen[k].motion.block.Some?
  }

  ghost predicate IndexSeen(seen: seq<Seen>, i: nat) {
    exists k :: 0 <= k < |seen| && seen[k].SawMotion? && seen[k].motion.index == i && seen[k].motion.eventIndex.Some?
  }

  ghost predicate EventSeen(seen: seq<Seen>, te: TrueEvent) {
    exists k :: 0 <= k < |seen| && seen[k].SawEvent? && PlaceIs(seen[k].event, te) && seen[k].event.eventIndex >= 0
  }

  ghost predicate TallySeen(seen: seq<Seen>, te: TrueEvent) {
    exists k :: 0 <= k < |seen| && seen[k].SawEvent? && EventIs(seen[k].event, te) && seen[k].event.ayes.Some? && seen[k].event.nays.Some?
  }

  ghost predicate HashesKnown(c: Chain) {
    && (forall i :: 0 <= i < |c.motions| ==> c.motions[i].hash != "")
    && (forall te :: te in c.log ==> te.hash != "" && te.kind != Other)
  }

  // What the tables hold is true, and what was seen with its position is there with one.
  ghost predicate TablesFit(t: Tables, seen: seq<Seen>, c: Chain) {
    && (forall i :: i in t.motions ==> t.motions[i].index == i && MotionFits(t.motions[i], c))
    && (forall k :: k in t.events ==> KeyOf(t.events[k]) == k && EventFits(t.events[k], c))
    && (forall k :: 0 <= k < |seen| && seen[k].SawMotion? ==>
          var m := seen[k].motion;
          && m.index in t.motions
          && (m.block.Some? ==> t.motions[m.index].block.Some?)
          && (m.eventIndex.Some? ==> t.motions[m.index].eventIndex.Some?))
    && (forall k :: 0 <= k < |seen| && seen[k].SawEvent? ==>
          && KeyOf(seen[k].event) in t.events
          && (seen[k].event.eventIndex >= 0 ==> t.events[KeyOf(seen[k].event)].eventIndex >= 0))
  }

  lemma WriteFits(t: Tables, seen: seq<Seen>, s: Seen, t': Tables, c: Chain)
    requires HashesKnown(c) && TablesFit(t, seen, c) && Truthful(s, c) && Writes(t, s, t')
    ensures TablesFit(t', seen + [s], c)
  {
    match s
    case SawEvent(e) => WriteEventFits(t, seen, e, c);
    case SawMotion(m, open) => WriteMotionFits(t, seen, m, open, c);
    case SawLive(live, asOf) =>
      var motions, events :| Reads(motions, events, t) && t' == t.(motions := Marked(t.motions, Attribute(motions, events), live, asOf));
      WriteLiveFits(t, seen, s, Attribute(motions, events), c);
  }

  lemma WriteEventFits(t: Tables, seen: seq<Seen>, e: Event, c: Chain)
    requires HashesKnown(c) && TablesFit(t, seen, c) && EventFits(e, c)
    ensures TablesFit(t.(events := UpsertEvent(t.events, e)), seen + [SawEvent(e)], c)
  {
    WrittenEventFits(t, seen, e, c);
  }

  lemma WriteMotionFits(t: Tables, seen: seq<Seen>, m: Motion, open: bool, c: Chain)
    requires HashesKnown(c) && TablesFit(t, seen, c) && MotionFits(m, c)
    ensures TablesFit(t.(motions := UpsertMotion(t.motions, m, open)), seen + [SawMotion(m, open)], c)
  {
  }

  lemma WriteLiveFits(t: Tables, seen: seq<Seen>, s: Seen, rows: seq<Row>, c: Chain)
    requires TablesFit(t, seen, c) && s.SawLive?
    ensures TablesFit(t.(motions := Marked(t.motions, rows, s.live, s.asOf)), seen + [s], c)
  {
  }

  lemma WrittenEventFits(t: Tables, seen: seq<Seen>, e: Event, c: Chain)
    requires HashesKnown(c) && TablesFit(t, seen, c) && EventFits(e, c)
    ensures KeyOf(e) in UpsertEvent(t.events, e)
    ensures EventFits(UpsertEvent(t.events, e)[KeyOf(e)], c)
  {
    var te :| te in c.log && PlaceIs(e, te);
    var written := UpsertEvent(t.events, e)[KeyOf(e)];
    if e.eventIndex >= 0 || KeyOf(e) !in t.events {
      assert PlaceIs(written, te);
    } else {
      var tf :| tf in c.log && PlaceIs(t.events[KeyOf(e)], tf);
      assert PlaceIs(written, tf);
    }
  }

  ghost predicate TruthfulCrawl(seen: seq<Seen>, tables: seq<Tables>, c: Chain) {
    Crawled(seen, tables) && forall k :: 0 <= k < |seen| ==> Truthful(seen[k], c)
  }

  lemma {:induction false} CrawlFits(seen: seq<Seen>, tables: seq<Tables>, c: Chain, n: nat)
    requires HashesKnown(c) && TruthfulCrawl(seen, tables, c) && n <= |seen|
    ensures TablesFit(tables[n], seen[..n], c)
  {
    if n > 0 {
      CrawlFits(seen, tables, c, n - 1);
      assert Writes(tables[n - 1], seen[n - 1], tables[n - 1 + 1]) && Truthful(seen[n - 1], c);
      WriteFits(tables[n - 1], seen[..n - 1], seen[n - 1], tables[n], c);
      assert seen[..n - 1] + [seen[n - 1]] == seen[..n];
    }
  }

  // A number of ayes, or of nays, that an event of this key really closed with.
  ghost predicate AyesOf(c: Chain, k: Key, n: nat) {
    exists te :: te in c.log && TrueKey(te) == k && te.tally.Some? && te.tally.value.ayes == n
  }

  ghost predicate NaysOf(c: Chain, k: Key, n: nat) {
    exists te :: te in c.log && TrueKey(te) == k && te.tally.Some? && te.tally.value.nays == n
  }

  function TrueKey(te: TrueEvent): Key {
    Key(te.hash, te.at.block, te.kind)
  }

  ghost predicate TallyFits(e: Event, c: Chain) {
    (e.ayes.Some? ==> AyesOf(c, KeyOf(e), e.ayes.value)) && (e.nays.Some? ==> NaysOf(c, KeyOf(e), e.nays.value))
  }

  // The tallies the table holds were really reached, and those seen are there.
  ghost predicate TalliesFit(t: map<Key, Event>, seen: seq<Seen>, c: Chain) {
    && (forall k :: k in t ==> KeyOf(t[k]) == k && TallyFits(t[k], c))
    && (forall k :: 0 <= k < |seen| && seen[k].SawEvent? ==> TallyKept(t, seen[k].event))
  }

  ghost predicate TallyKept(t: map<Key, Event>, e: Event) {
    && KeyOf(e) in t
    && (e.ayes.Some? ==> t[KeyOf(e)].ayes.Some?)
    && (e.nays.Some? ==> t[KeyOf(e)].nays.Some?)
  }

  lemma WriteTallies(t: map<Key, Event>, seen: seq<Seen>, e: Event, te: TrueEvent, c: Chain)
    requires HashesKnown(c) && TalliesFit(t, seen, c) && te in c.log && EventIs(e, te)
    ensures TalliesFit(UpsertEvent(t, e), seen + [SawEvent(e)], c)
  {
    var t' := UpsertEvent(t, e);
    assert TrueKey(te) == KeyOf(e) && TallyFits(e, c);
    assert TallyFits(t'[KeyOf(e)], c);
    forall k | 0 <= k < |seen| && seen[k].SawEvent? ensures TallyKept(t', seen[k].event) {
      assert TallyKept(t, seen[k].event);
    }
    assert TallyKept(t', e);
  }

  lemma {:induction false} CrawlTallies(seen: seq<Seen>, tables: seq<Tables>, c: Chain, n: nat)
    requires HashesKnown(c) && TruthfulCrawl(seen, tables, c) && n <= |seen|
    ensures TalliesFit(tables[n].events, seen[..n], c)
  {
    if n > 0 {
      var s := seen[n - 1];
      CrawlTallies(seen, tables, c, n - 1);
      assert Writes(tables[n - 1], s, tables[n - 1 + 1]) && Truthful(s, c);
      assert seen[..n - 1] + [s] == seen[..n];
      if s.SawEvent? {
        var te :| te in c.log && EventIs(s.event, te);
        WriteTallies(tables[n - 1].events, seen[..n - 1], s.event, te, c);
      }
    }
  }

  // ---- reading them back ---------------------------------------------------------------

  // A read returns each row once, in no particular order.
  ghost predicate Reads(motions: seq<Motion>, events: seq<Event>, t: Tables) {
    && DistinctIndices(motions)
    && (forall m :: m in motions <==> m.index in t.motions && t.motions[m.index] == m)
    && (forall e :: e in events <==> KeyOf(e) in t.events && t.events[KeyOf(e)] == e)
  }

  ghost predicate Listed(motions: seq<Motion>, i: nat) {
    exists m :: m in motions && m.index == i
  }

  ghost predicate Stored(events: seq<Event>, k: Key) {
    exists e :: e in events && KeyOf(e) == k
  }

  // All motions and events are in, at known positions.
  ghost predicate Indexed(motions: seq<Motion>, events: seq<Event>, c: Chain) {
    && DistinctIndices(motions)
    && (forall m :: m in motions ==> MotionFits(m, c) && m.block.Some? && m.eventIndex.Some?)
    && (forall i: nat :: i < |c.motions| ==> Listed(motions, i))
    && (forall e :: e in events ==> e.eventIndex >= 0 && EventFits(e, c))
    && (forall te :: te in c.log ==> Stored(events, Key(te.hash, te.at.block, te.kind)))
    && (forall e, f :: e in events && f in events && KeyOf(e) == KeyOf(f) ==> e == f)
  }

  lemma MotionsIndexed(seen: seq<Seen>, c: Chain, motions: seq<Motion>, events: seq<Event>, t: Tables, i: nat)
    requires TablesFit(t, seen, c) && Complete(seen, c) && Reads(motions, events, t) && i < |c.motions|
    ensures i in t.motions && t.motions[i].block.Some? && t.motions[i].eventIndex.Some?
    ensures Listed(motions, i)
  {
    assert BlockSeen(seen, i) && IndexSeen(seen, i);
    var k :| 0 <= k < |seen| && seen[k].SawMotion? && seen[k].motion.index == i && seen[k].motion.block.Some?;
    var l :| 0 <= l < |seen| && seen[l].SawMotion? && seen[l].motion.index == i && seen[l].motion.eventIndex.Some?;
    assert t.motions[i] in motions;
  }

  lemma EventsIndexed(seen: seq<Seen>, c: Chain, motions: seq<Motion>, events: seq<Event>, t: Tables, te: TrueEvent)
    requires TablesFit(t, seen, c) && Complete(seen, c) && Reads(motions, events, t) && te in c.log
    ensures var k := Key(te.hash, te.at.block, te.kind);
            k in t.events && t.events[k].eventIndex >= 0 && Stored(events, k)
  {
    assert EventSeen(seen, te);
    var k :| 0 <= k < |seen| && seen[k].SawEvent? && PlaceIs(seen[k].event, te) && seen[k].event.eventIndex >= 0;
    assert KeyOf(seen[k].event) == Key(te.hash, te.at.block, te.kind);
    assert t.events[Key(te.hash, te.at.block, te.kind)] in events;
  }

  // What is read of the tallies is true, and nothing of them is missing.
  ghost predicate Tallied(events: seq<Event>, c: Chain) {
    && (forall e :: e in events ==> TallyFits(e, c))
    && (forall e, te :: e in events && te in c.log && te.tally.Some? && KeyOf(e) == TrueKey(te) ==> e.ayes.Some? && e.nays.Some?)
  }

  lemma ReadIsTallied(seen: seq<Seen>, tables: seq<Tables>, c: Chain, motions: seq<Motion>, events: seq<Event>)
    requires HashesKnown(c) && TruthfulCrawl(seen, tables, c) && Complete(seen, c)
    requires Reads(motions, events, tables[|seen|])
    ensures Tallied(events, c)
  {
    CrawlTallies(seen, tables, c, |seen|);
    assert seen[..|seen|] == seen;
    var t := tables[|seen|].events;
    forall e, te | e in events && te in c.log && te.tally.Some? && KeyOf(e) == TrueKey(te) ensures e.ayes.Some? && e.nays.Some? {
      assert TallySeen(seen, te);
      var k :| 0 <= k < |seen| && seen[k].SawEvent? && EventIs(seen[k].event, te) && seen[k].event.ayes.Some? && seen[k].event.nays.Some?;
      assert TallyKept(t, seen[k].event) && KeyOf(seen[k].event) == KeyOf(e);
    }
  }

  lemma ReadIsIndexed(seen: seq<Seen>, tables: seq<Tables>, c: Chain, motions: seq<Motion>, events: seq<Event>)
    requires HashesKnown(c) && TruthfulCrawl(seen, tables, c) && Complete(seen, c)
    requires Reads(motions, events, tables[|seen|])
    ensures Indexed(motions, events, c)
  {
    CrawlFits(seen, tables, c, |seen|);
    assert seen[..|seen|] == seen;
    var t := tables[|seen|];
    forall i: nat | i < |c.motions| ensures Listed(motions, i) {
      MotionsIndexed(seen, c, motions, events, t, i);
    }
    forall m | m in motions ensures MotionFits(m, c) && m.block.Some? && m.eventIndex.Some? {
      MotionsIndexed(seen, c, motions, events, t, m.index);
    }
    forall te | te in c.log ensures Stored(events, Key(te.hash, te.at.block, te.kind)) {
      EventsIndexed(seen, c, motions, events, t, te);
    }
    forall e | e in events ensures e.eventIndex >= 0 && EventFits(e, c) {
      assert EventFits(t.events[KeyOf(e)], c);
      var te :| te in c.log && PlaceIs(e, te);
      EventsIndexed(seen, c, motions, events, t, te);
    }
  }

  // ---- the theorems --------------------------------------------------------------------

  // Each stored event goes to the motion it really resolved.
  lemma EventGoesHome(c: Chain, motions: seq<Motion>, events: seq<Event>, e: Event, te: TrueEvent)
    requires MotionsConsistent(c) && LogPlaced(c) && HashesKnown(c) && Indexed(motions, events, c)
    requires e in events && te in c.log && PlaceIs(e, te)
    ensures Owner(motions, e) == Some(te.owner)
  {
    assert Listed(motions, te.owner);
    var m :| m in motions && m.index == te.owner;
    forall n | n in motions && n != m && n.hash == e.hash && Candidate(n, e)
      ensures MotionBefore(n, m)
    {
      var i :| 0 <= i < |motions| && motions[i] == n;
      var j :| 0 <= j < |motions| && motions[j] == m;
      assert n.index != m.index;
      assert n.index < te.owner;
      assert Before(c.motions[n.index].at, c.motions[te.owner].at);
    }
    OwnerIsLatest(motions, e, m);
  }

  ghost predicate ResolvedIn(c: Chain, i: nat, block: nat) {
    exists te :: te in c.log && te.owner == i && te.at.block == block
  }

  // The row shows what really became of the motion.
  ghost predicate RowIsTrue(c: Chain, r: Row) {
    && r.index < |c.motions|
    && match c.motions[r.index].fate
       case Passed => r.status == Ended(Executed) && r.resolvedBlock.Some? && ResolvedIn(c, r.index, r.resolvedBlock.value)
       case Rejected => r.status == Ended(Disapproved) && r.resolvedBlock.Some? && ResolvedIn(c, r.index, r.resolvedBlock.value)
       case _ => !r.status.Ended? && r.resolvedBlock.None?
  }

  ghost predicate ClosedAs(c: Chain, i: nat, te: TrueEvent) {
    te in c.log && te.owner == i && te.kind == Closed && te.tally.Some?
  }

  // The row of a decided motion shows the votes it closed with, or none if it did not close.
  ghost predicate TallyIsTrue(c: Chain, r: Row) {
    && (forall te :: ClosedAs(c, r.index, te) ==> r.ayes == Some(te.tally.value.ayes) && r.nays == Some(te.tally.value.nays))
    && (r.index < |c.motions| && c.motions[r.index].fate in {Passed, Rejected} && !Decided(c, r.index, Closed) ==>
          r.ayes == None && r.nays == None)
  }

  predicate Clashing(e: TrueEvent, f: TrueEvent) {
    e.kind in {Executed, Disapproved} && e.hash == f.hash && e.kind == f.kind && e.at.block == f.at.block
  }

  // Two motions of one hash decided the same way in one block share a row of the event table.
  ghost predicate NoClash(c: Chain) {
    forall e, f :: e in c.log && f in c.log && Clashing(e, f) ==> e.owner == f.owner
  }

  // Two motions of one hash closed in one block share a row as well, and with it a tally.
  predicate SharesTally(e: TrueEvent, f: TrueEvent) {
    e.kind == Closed && f.kind == Closed && e.hash == f.hash && e.at.block == f.at.block
  }

  ghost predicate NoSharedTally(c: Chain) {
    forall e, f :: e in c.log && f in c.log && SharesTally(e, f) ==> e.owner == f.owner
  }

  // What is attributed to a motion is part of what it really emitted.
  lemma AttributedAreOwn(c: Chain, motions: seq<Motion>, events: seq<Event>, i: nat, e: Event)
    requires MotionsConsistent(c) && LogPlaced(c) && HashesKnown(c) && Indexed(motions, events, c)
    requires e in EventsOf(motions, events, i)
    ensures exists te :: te in c.log && te.owner == i && PlaceIs(e, te)
  {
    EventsOfMembers(motions, events, i);
    assert EventFits(e, c);
    var te :| te in c.log && PlaceIs(e, te);
    EventGoesHome(c, motions, events, e, te);
  }

  // The deciding event of a decided motion is among those attributed to it.
  lemma DecidingEventArrives(c: Chain, motions: seq<Motion>, events: seq<Event>, te: TrueEvent)
    requires MotionsConsistent(c) && LogPlaced(c) && HashesKnown(c) && Indexed(motions, events, c)
    requires NoClash(c) && te in c.log && te.kind in {Executed, Disapproved}
    ensures exists e :: e in EventsOf(motions, events, te.owner) && e.kind == te.kind
  {
    assert Stored(events, Key(te.hash, te.at.block, te.kind));
    var e :| e in events && KeyOf(e) == Key(te.hash, te.at.block, te.kind);
    assert EventFits(e, c);
    var tf :| tf in c.log && PlaceIs(e, tf);
    assert Clashing(te, tf);
    EventGoesHome(c, motions, events, e, tf);
    EventsOfMembers(motions, events, te.owner);
  }

  // All of evs were really emitted by motion i.
  ghost predicate OwnEvents(c: Chain, i: nat, evs: seq<Event>) {
    forall e :: e in evs ==> OwnEvent(c, i, e)
  }

  ghost predicate OwnEvent(c: Chain, i: nat, e: Event) {
    exists te :: te in c.log && te.owner == i && PlaceIs(e, te)
  }

  ghost predicate HasKind(evs: seq<Event>, kind: Kind) {
    exists e :: e in evs && e.kind == kind
  }

  // The resolved block of a row is the block of one of its events.
  lemma ResolverIsOwn(c: Chain, m: Motion, evs: seq<Event>)
    requires OwnEvents(c, m.index, evs) && evs != []
    ensures RowOf(m, evs).resolvedBlock.Some? && ResolvedIn(c, m.index, RowOf(m, evs).resolvedBlock.value)
  {
    var closed := FirstWith(evs, IsClosed);
    FirstWithIsOne(evs, IsClosed);
    LatestIsOne(evs);
    var resolver := if closed.Some? then closed.value else Latest(evs);
    assert OwnEvent(c, m.index, resolver);
  }

  // A row with events shows the highest kind among them.
  lemma StatusIsTopKind(m: Motion, evs: seq<Event>)
    requires evs != []
    ensures RowOf(m, evs).status.Ended? && HasKind(evs, RowOf(m, evs).status.kind)
    ensures forall e :: e in evs ==> EventRank(e.kind) <= EventRank(RowOf(m, evs).status.kind)
  {
    TopIsHighest(evs);
  }

  // The kinds of a motion's own events fit its fate.
  lemma OwnKindsFit(c: Chain, i: nat, evs: seq<Event>, kind: Kind)
    requires LogTellsFate(c) && OwnEvents(c, i, evs) && HasKind(evs, kind)
    ensures i < |c.motions|
    ensures match c.motions[i].fate
            case Passed => kind in {Closed, Approved, Executed}
            case Rejected => kind in {Closed, Disapproved}
            case _ => false
  {
    var e :| e in evs && e.kind == kind;
    assert OwnEvent(c, i, e);
    var te :| te in c.log && te.owner == i && PlaceIs(e, te);
    assert KindFits(c, te);
  }

  lemma RowTrueFromEvents(c: Chain, m: Motion, evs: seq<Event>)
    requires LogTellsFate(c) && OwnEvents(c, m.index, evs) && m.index < |c.motions|
    requires c.motions[m.index].fate == Passed ==> HasKind(evs, Executed)
    requires c.motions[m.index].fate == Rejected ==> HasKind(evs, Disapproved)
    ensures RowIsTrue(c, RowOf(m, evs))
  {
    if evs != [] {
      StatusIsTopKind(m, evs);
      OwnKindsFit(c, m.index, evs, RowOf(m, evs).status.kind);
      ResolverIsOwn(c, m, evs);
    }
  }

  lemma RowTrueWithoutClash(c: Chain, motions: seq<Motion>, events: seq<Event>, m: Motion)
    requires MotionsConsistent(c) && LogPlaced(c) && LogTellsFate(c) && HashesKnown(c) && Indexed(motions, events, c)
    requires NoClash(c) && m in motions
    ensures RowIsTrue(c, RowOf(m, EventsOf(motions, events, m.index)))
  {
    var i := m.index;
    var evs := EventsOf(motions, events, i);
    assert MotionFits(m, c);
    forall e | e in evs ensures OwnEvent(c, i, e) {
      AttributedAreOwn(c, motions, events, i, e);
    }
    var fate := c.motions[i].fate;
    if fate == Passed || fate == Rejected {
      assert Decided(c, i, Deciding(fate == Passed));
      var te :| te in c.log && te.owner == i && te.kind == Deciding(fate == Passed);
      DecidingEventArrives(c, motions, events, te);
      assert HasKind(evs, te.kind);
    }
    RowTrueFromEvents(c, m, evs);
  }

  // The motion that does not get the shared row has no event of the deciding kind.
  lemma LoserMissesKind(c: Chain, motions: seq<Motion>, events: seq<Event>, row: Event, loser: TrueEvent, x: Event)
    requires MotionsConsistent(c) && LogPlaced(c) && LogTellsFate(c) && HashesKnown(c) && Indexed(motions, events, c)
    requires row in events && KeyOf(row) == Key(loser.hash, loser.at.block, loser.kind)
    requires loser in c.log && Owner(motions, row) != Some(loser.owner)
    requires x in EventsOf(motions, events, loser.owner)
    ensures x.kind != loser.kind
  {
    EventsOfMembers(motions, events, loser.owner);
    AttributedAreOwn(c, motions, events, loser.owner, x);
    var tx :| tx in c.log && tx.owner == loser.owner && PlaceIs(x, tx);
    assert Agree(tx, loser) && tx.hash == loser.hash by {
      assert Placed(c, tx) && Placed(c, loser);
    }
    assert x.kind == loser.kind ==> KeyOf(x) == KeyOf(row);
  }

  // With a clash, the shared row goes to one of the two motions; the other one's row is wrong.
  lemma ClashMakesOneWrong(c: Chain, motions: seq<Motion>, events: seq<Event>, e: TrueEvent, f: TrueEvent)
    requires MotionsConsistent(c) && LogPlaced(c) && LogTellsFate(c) && HashesKnown(c) && Indexed(motions, events, c)
    requires e in c.log && f in c.log && Clashing(e, f) && e.owner != f.owner
    ensures exists m :: m in motions && !RowIsTrue(c, RowOf(m, EventsOf(motions, events, m.index)))
  {
    var key := Key(e.hash, e.at.block, e.kind);
    assert Stored(events, key);
    var row :| row in events && KeyOf(row) == key;
    var loser := if Owner(motions, row) == Some(e.owner) then f else e;
    assert Placed(c, loser) && KindFits(c, loser);
    assert Listed(motions, loser.owner);
    var m :| m in motions && m.index == loser.owner;
    var evs := EventsOf(motions, events, m.index);
    forall x | x in evs ensures x.kind != loser.kind {
      LoserMissesKind(c, motions, events, row, loser, x);
    }
    if evs != [] {
      TopIsHighest(evs);
    }
    assert !RowIsTrue(c, RowOf(m, evs));
  }

  // ---- tallies -------------------------------------------------------------------------

  ghost predicate Known(c: Chain, motions: seq<Motion>, events: seq<Event>) {
    && MotionsConsistent(c) && LogPlaced(c) && LogTellsFate(c) && HashesKnown(c)
    && Indexed(motions, events, c) && Tallied(events, c)
  }

  // Where no other motion shares it, an event's tally is the one that was closed with.
  lemma TallyIsOwn(c: Chain, events: seq<Event>, e: Event, te: TrueEvent)
    requires LogTellsFate(c) && Tallied(events, c) && NoSharedTally(c)
    requires e in events && te in c.log && te.kind == Closed && KeyOf(e) == TrueKey(te)
    ensures te.tally.Some? && e.ayes == Some(te.tally.value.ayes) && e.nays == Some(te.tally.value.nays)
  {
    assert KindFits(c, te) && TallyFits(e, c);
    forall tf | tf in c.log && TrueKey(tf) == KeyOf(e) ensures tf == te {
      assert SharesTally(te, tf);
      assert Agree(te, tf);
    }
  }

  // Only Closed events carry a tally.
  lemma OthersHaveNoTally(c: Chain, e: Event)
    requires LogTellsFate(c) && TallyFits(e, c) && e.kind != Closed
    ensures !HasTally(e)
  {
    forall te | te in c.log && TrueKey(te) == KeyOf(e) ensures te.tally.None? {
      assert KindFits(c, te);
    }
  }

  // Without a Closed event a row has no tally.
  lemma NoTallyWithoutClosed(c: Chain, m: Motion, evs: seq<Event>)
    requires LogTellsFate(c) && evs != [] && forall e :: e in evs ==> e.kind != Closed && TallyFits(e, c)
    ensures RowOf(m, evs).ayes == None && RowOf(m, evs).nays == None
  {
    FirstWithIsOne(evs, IsClosed);
    FirstWithIsOne(evs, HasTally);
    forall e | e in evs ensures !HasTally(e) {
      OthersHaveNoTally(c, e);
    }
  }

  // The Closed event of a motion is among those attributed to it.
  lemma ClosedArrives(c: Chain, motions: seq<Motion>, events: seq<Event>, te: TrueEvent)
    requires Known(c, motions, events) && NoSharedTally(c) && te in c.log && te.kind == Closed
    ensures HasKind(EventsOf(motions, events, te.owner), Closed)
  {
    assert Stored(events, TrueKey(te));
    var e :| e in events && KeyOf(e) == TrueKey(te);
    assert EventFits(e, c);
    var tf :| tf in c.log && PlaceIs(e, tf);
    assert SharesTally(te, tf);
    EventGoesHome(c, motions, events, e, tf);
    EventsOfMembers(motions, events, te.owner);
  }

  lemma ClosedShowsTally(c: Chain, motions: seq<Motion>, events: seq<Event>, m: Motion, te: TrueEvent)
    requires Known(c, motions, events) && NoSharedTally(c) && te in c.log && te.kind == Closed && te.owner == m.index
    ensures var r := RowOf(m, EventsOf(motions, events, m.index));
            te.tally.Some? && r.ayes == Some(te.tally.value.ayes) && r.nays == Some(te.tally.value.nays)
  {
    var evs := EventsOf(motions, events, m.index);
    ClosedArrives(c, motions, events, te);
    FirstWithIsOne(evs, IsClosed);
    var x := FirstWith(evs, IsClosed).value;
    AttributedAreOwn(c, motions, events, m.index, x);
    var tx :| tx in c.log && tx.owner == m.index && PlaceIs(x, tx);
    assert Agree(tx, te);
    EventsOfMembers(motions, events, m.index);
    TallyIsOwn(c, events, x, te);
  }

  // A decided motion has an event of the deciding kind among its own.
  lemma DecidedHasEvents(c: Chain, motions: seq<Motion>, events: seq<Event>, i: nat)
    requires Known(c, motions, events) && NoClash(c) && i < |c.motions| && c.motions[i].fate in {Passed, Rejected}
    ensures EventsOf(motions, events, i) != []
  {
    assert Decided(c, i, Deciding(c.motions[i].fate == Passed));
    var te :| te in c.log && te.owner == i && te.kind == Deciding(c.motions[i].fate == Passed);
    DecidingEventArrives(c, motions, events, te);
  }

  lemma TallyTrueWithoutClash(c: Chain, motions: seq<Motion>, events: seq<Event>, m: Motion)
    requires Known(c, motions, events) && NoClash(c) && NoSharedTally(c) && m in motions
    ensures TallyIsTrue(c, RowOf(m, EventsOf(motions, events, m.index)))
  {
    var i, evs := m.index, EventsOf(motions, events, m.index);
    forall te | ClosedAs(c, i, te)
      ensures var r := RowOf(m, evs); r.ayes == Some(te.tally.value.ayes) && r.nays == Some(te.tally.value.nays)
    {
      ClosedShowsTally(c, motions, events, m, te);
    }
    if i < |c.motions| && c.motions[i].fate in {Passed, Rejected} && !Decided(c, i, Closed) {
      DecidedHasEvents(c, motions, events, i);
      forall e | e in evs ensures e.kind != Closed && TallyFits(e, c) {
        AttributedAreOwn(c, motions, events, i, e);
        EventsOfMembers(motions, events, i);
      }
      NoTallyWithoutClosed(c, m, evs);
    }
  }

  // With a shared Closed row, the motion that does not get it shows no tally.
  lemma SharedTallyMakesOneWrong(c: Chain, motions: seq<Motion>, events: seq<Event>, e: TrueEvent, f: TrueEvent)
    requires Known(c, motions, events) && NoClash(c)
    requires e in c.log && f in c.log && SharesTally(e, f) && e.owner != f.owner
    ensures exists m :: m in motions && !TallyIsTrue(c, RowOf(m, EventsOf(motions, events, m.index)))
  {
    assert Stored(events, TrueKey(e));
    var row :| row in events && KeyOf(row) == TrueKey(e);
    var loser := if Owner(motions, row) == Some(e.owner) then f else e;
    assert Placed(c, loser) && KindFits(c, loser);
    assert Listed(motions, loser.owner);
    var m :| m in motions && m.index == loser.owner;
    var evs := EventsOf(motions, events, m.index);
    DecidedHasEvents(c, motions, events, m.index);
    forall x | x in evs ensures x.kind != Closed && TallyFits(x, c) {
      LoserMissesKind(c, motions, events, row, loser, x);
      EventsOfMembers(motions, events, m.index);
    }
    NoTallyWithoutClosed(c, m, evs);
    assert ClosedAs(c, m.index, loser);
    assert !TallyIsTrue(c, RowOf(m, evs));
  }

  ghost predicate AllTrue(c: Chain, rows: seq<Row>) {
    forall r :: r in rows ==> RowIsTrue(c, r)
  }

  ghost predicate AllTallied(c: Chain, rows: seq<Row>) {
    forall r :: r in rows ==> TallyIsTrue(c, r)
  }

  // MAIN: after any crawl that tells the truth and misses nothing, in any order and with any repetition, every
  // motion's outcome is true exactly when no two motions of one hash were decided the same way in one block; and its
  // tally too exactly when, besides, no two of them closed in one block.
  lemma CrawledRowsAreTrue(ops: seq<Op>, c: Chain, seen: seq<Seen>, tables: seq<Tables>, motions: seq<Motion>, events: seq<Event>)
    requires Reaches(ops, c) && TruthfulCrawl(seen, tables, c) && Complete(seen, c)
    requires Reads(motions, events, tables[|seen|])
    ensures AllTrue(c, Attribute(motions, events)) <==> NoClash(c)
    ensures AllTrue(c, Attribute(motions, events)) && AllTallied(c, Attribute(motions, events)) <==> NoClash(c) && NoSharedTally(c)
    ensures forall e, te :: e in events && te in c.log && PlaceIs(e, te) ==> Owner(motions, e) == Some(te.owner)
  {
    ReachableConsistent(ops, c);
    LoggedKindsKnown(c);
    ReadIsIndexed(seen, tables, c, motions, events);
    ReadIsTallied(seen, tables, c, motions, events);
    forall e, te | e in events && te in c.log && PlaceIs(e, te) ensures Owner(motions, e) == Some(te.owner) {
      EventGoesHome(c, motions, events, e, te);
    }
    RowsTrueWhen(c, motions, events);
    if NoClash(c) {
      TalliesTrueWhen(c, motions, events);
    }
  }

  lemma TalliesTrueWhen(c: Chain, motions: seq<Motion>, events: seq<Event>)
    requires Known(c, motions, events) && NoClash(c)
    ensures AllTallied(c, Attribute(motions, events)) <==> NoSharedTally(c)
  {
    if NoSharedTally(c) {
      TalliesTrue(c, motions, events);
    } else {
      var e, f :| e in c.log && f in c.log && SharesTally(e, f) && e.owner != f.owner;
      SharedTallyMakesOneWrong(c, motions, events, e, f);
      WrongTallyShows(c, motions, events);
    }
  }

  lemma TalliesTrue(c: Chain, motions: seq<Motion>, events: seq<Event>)
    requires Known(c, motions, events) && NoClash(c) && NoSharedTally(c)
    ensures AllTallied(c, Attribute(motions, events))
  {
    var rows := Attribute(motions, events);
    forall r | r in rows ensures TallyIsTrue(c, r) {
      var k :| 0 <= k < |rows| && rows[k] == r;
      TallyTrueWithoutClash(c, motions, events, motions[k]);
    }
  }

  lemma WrongTallyShows(c: Chain, motions: seq<Motion>, events: seq<Event>)
    requires exists m :: m in motions && !TallyIsTrue(c, RowOf(m, EventsOf(motions, events, m.index)))
    ensures !AllTallied(c, Attribute(motions, events))
  {
    var rows := Attribute(motions, events);
    var m :| m in motions && !TallyIsTrue(c, RowOf(m, EventsOf(motions, events, m.index)));
    var k :| 0 <= k < |motions| && motions[k] == m;
    assert rows[k] in rows;
  }

  lemma RowsTrueWhen(c: Chain, motions: seq<Motion>, events: seq<Event>)
    requires MotionsConsistent(c) && LogPlaced(c) && LogTellsFate(c) && HashesKnown(c) && Indexed(motions, events, c)
    ensures AllTrue(c, Attribute(motions, events)) <==> NoClash(c)
  {
    var rows := Attribute(motions, events);
    if NoClash(c) {
      forall r | r in rows ensures RowIsTrue(c, r) {
        var k :| 0 <= k < |rows| && rows[k] == r;
        RowTrueWithoutClash(c, motions, events, motions[k]);
      }
    } else {
      var e, f :| e in c.log && f in c.log && Clashing(e, f) && e.owner != f.owner;
      ClashMakesOneWrong(c, motions, events, e, f);
      var m :| m in motions && !RowIsTrue(c, RowOf(m, EventsOf(motions, events, m.index)));
      var k :| 0 <= k < |motions| && motions[k] == m;
      assert rows[k] == RowOf(m, EventsOf(motions, events, m.index));
      assert rows[k] in rows;
    }
  }

  // ---- motions without an outcome --------------------------------------------------------

  // UNDECIDED: after a truthful crawl that missed nothing, a motion that is open or was dropped shows as proposed exactly
  // while its stored row has not left storage, else as gone, with the stored live tally.
  lemma UndecidedRowShows(ops: seq<Op>, c: Chain, seen: seq<Seen>, tables: seq<Tables>, motions: seq<Motion>, events: seq<Event>, k: nat)
    requires Reaches(ops, c) && TruthfulCrawl(seen, tables, c) && Complete(seen, c)
    requires Reads(motions, events, tables[|seen|]) && k < |motions|
    requires motions[k].index < |c.motions| && c.motions[motions[k].index].fate in {Open, Dropped}
    ensures var (m, r) := (motions[k], Attribute(motions, events)[k]);
            && r.index == m.index && r.status == (if m.leftStorage then LeftStorage else Proposed)
            && r.ayes == m.liveAyes && r.nays == m.liveNays && r.resolvedBlock == None && r.resolvedAt == None
  {
    ReachableConsistent(ops, c);
    LoggedKindsKnown(c);
    ReadIsIndexed(seen, tables, c, motions, events);
    RowShows(motions, events, k);
    forall e ensures !GivenTo(motions, events, motions[k], e) {
      UndecidedHasNone(c, motions, events, motions[k], e);
    }
  }

  lemma UndecidedHasNone(c: Chain, motions: seq<Motion>, events: seq<Event>, m: Motion, e: Event)
    requires MotionsConsistent(c) && LogPlaced(c) && LogTellsFate(c) && HashesKnown(c) && Indexed(motions, events, c)
    requires m.index < |c.motions| && c.motions[m.index].fate in {Open, Dropped}
    ensures !GivenTo(motions, events, m, e)
  {
    EventsOfMembers(motions, events, m.index);
    forall te | te in c.log ensures te.owner != m.index {
      assert KindFits(c, te);
    }
    if GivenTo(motions, events, m, e) {
      AttributedAreOwn(c, motions, events, m.index, e);
    }
  }

  // What some read of the tables shows as proposed; every read shows the same.
  ghost predicate ShownOpen(t: Tables, i: nat) {
    exists motions, events :: Reads(motions, events, t) && ShownProposed(Attribute(motions, events), i)
  }

  lemma ShownInEveryRead(t: Tables, i: nat, motions: seq<Motion>, events: seq<Event>)
    requires Reads(motions, events, t) && ShownOpen(t, i)
    ensures ShownProposed(Attribute(motions, events), i)
  {
    var ms, es :| Reads(ms, es, t) && ShownProposed(Attribute(ms, es), i);
    var rows := Attribute(ms, es);
    var k :| 0 <= k < |rows| && rows[k].index == i && rows[k].status == Proposed;
    var m := ms[k];
    RowShows(ms, es, k);
    assert m in ms && m in motions;
    var l :| 0 <= l < |motions| && motions[l] == m;
    RowShows(motions, events, l);
    forall e ensures !GivenTo(motions, events, m, e) {
      OwnerInAnyOrder(motions, ms, e);
      assert GivenTo(motions, events, m, e) ==> GivenTo(ms, es, m, e);
    }
    assert Attribute(motions, events)[l].status == Proposed;
  }

  // A live read marks the motion: shown as proposed, judged, and not listed.
  ghost predicate Marks(t: Tables, s: Seen, i: nat) {
    s.SawLive? && i in t.motions && Missing(t.motions[i], s.live, s.asOf) && ShownOpen(t, i)
  }

  predicate Reopens(s: Seen, i: nat) {
    s.SawMotion? && s.open && s.motion.index == i && s.motion.hash != ""
  }

  lemma WriteMarks(t: Tables, s: Seen, t': Tables, i: nat)
    requires Writes(t, s, t') && i in t.motions && forall j :: j in t.motions ==> t.motions[j].index == j
    ensures i in t'.motions
    ensures t'.motions[i].leftStorage <==> Marks(t, s, i) || (t.motions[i].leftStorage && !Reopens(s, i))
  {
    if s.SawLive? {
      var motions, events :|
        Reads(motions, events, t) && t' == t.(motions := Marked(t.motions, Attribute(motions, events), s.live, s.asOf));
      if ShownOpen(t, i) {
        ShownInEveryRead(t, i, motions, events);
      }
    }
  }

  ghost predicate MarkedAt(seen: seq<Seen>, tables: seq<Tables>, i: nat, j: nat, n: nat)
    requires j < n <= |seen| && |tables| == |seen| + 1
  {
    Marks(tables[j], seen[j], i) && forall k :: j < k < n ==> !Reopens(seen[k], i)
  }

  // The last live read that marked the motion was after every write that saw it open.
  ghost predicate LastMarked(seen: seq<Seen>, tables: seq<Tables>, i: nat, n: nat)
    requires n <= |seen| && |tables| == |seen| + 1
  {
    exists j :: 0 <= j < n && MarkedAt(seen, tables, i, j, n)
  }

  // LEFT: a stored motion has left storage exactly when some live read marked it and no later write saw it open.
  lemma {:induction false} LeftStorageMeans(seen: seq<Seen>, tables: seq<Tables>, i: nat, n: nat)
    requires Crawled(seen, tables) && n <= |seen| && i in tables[n].motions
    requires forall k :: 0 <= k < n ==> KeyedRows(tables[k])
    ensures tables[n].motions[i].leftStorage <==> LastMarked(seen, tables, i, n)
  {
    assert n > 0;
    var p := n - 1;
    assert Writes(tables[p], seen[p], tables[p + 1]) && KeyedRows(tables[p]);
    LastMarkedStep(seen, tables, i, p);
    if i in tables[p].motions {
      LeftStorageMeans(seen, tables, i, p);
      WriteMarks(tables[p], seen[p], tables[n], i);
    } else {
      NotYetStored(seen, tables, i, p);
      assert !LastMarked(seen, tables, i, p) && !Marks(tables[p], seen[p], i);
      FirstIsUnmarked(tables[p], seen[p], tables[n], i);
    }
  }

  lemma FirstIsUnmarked(t: Tables, s: Seen, t': Tables, i: nat)
    requires Writes(t, s, t') && i !in t.motions && i in t'.motions
    ensures !t'.motions[i].leftStorage
  {
  }

  lemma LastMarkedStep(seen: seq<Seen>, tables: seq<Tables>, i: nat, p: nat)
    requires p < |seen| && |tables| == |seen| + 1
    ensures LastMarked(seen, tables, i, p + 1) <==>
      Marks(tables[p], seen[p], i) || (LastMarked(seen, tables, i, p) && !Reopens(seen[p], i))
  {
    if LastMarked(seen, tables, i, p) && !Reopens(seen[p], i) {
      var j :| 0 <= j < p && MarkedAt(seen, tables, i, j, p);
      assert MarkedAt(seen, tables, i, j, p + 1);
    }
    if Marks(tables[p], seen[p], i) {
      assert MarkedAt(seen, tables, i, p, p + 1);
    }
    if LastMarked(seen, tables, i, p + 1) && !Marks(tables[p], seen[p], i) {
      var j :| 0 <= j < p + 1 && MarkedAt(seen, tables, i, j, p + 1);
      assert MarkedAt(seen, tables, i, j, p);
    }
  }

  ghost predicate KeyedRows(t: Tables) {
    forall i :: i in t.motions ==> t.motions[i].index == i
  }

  // Motions are never removed.
  lemma {:induction false} NotYetStored(seen: seq<Seen>, tables: seq<Tables>, i: nat, n: nat)
    requires Crawled(seen, tables) && n <= |seen| && i !in tables[n].motions
    ensures forall j :: 0 <= j <= n ==> i !in tables[j].motions
  {
    if n > 0 {
      assert Writes(tables[n - 1], seen[n - 1], tables[n - 1 + 1]);
      NotYetStored(seen, tables, i, n - 1);
    }
  }

  lemma {:induction false} TruthKeepsKeys(seen: seq<Seen>, tables: seq<Tables>, c: Chain, n: nat)
    requires HashesKnown(c) && TruthfulCrawl(seen, tables, c) && n <= |seen|
    ensures KeyedRows(tables[n])
  {
    CrawlFits(seen, tables, c, n);
  }

  // OPEN: a motion that is still open shows as gone only if a live read from before its proposal judged it while its block
  // was not known.
  lemma OpenIsNotMarked(ops: seq<Op>, c: Chain, seen: seq<Seen>, tables: seq<Tables>, i: nat)
    requires Reaches(ops, c) && TruthfulCrawl(seen, tables, c)
    requires i < |c.motions| && c.motions[i].fate == Open && i in tables[|seen|].motions && tables[|seen|].motions[i].leftStorage
    ensures exists j :: 0 <= j < |seen| && Marks(tables[j], seen[j], i) && tables[j].motions[i].block.None?
              && seen[j].asOf.Some? && seen[j].asOf.value < c.motions[i].at.block
  {
    ReachableConsistent(ops, c);
    LoggedKindsKnown(c);
    forall k | 0 <= k < |seen| ensures KeyedRows(tables[k]) {
      TruthKeepsKeys(seen, tables, c, k);
    }
    LeftStorageMeans(seen, tables, i, |seen|);
    var j :| 0 <= j < |seen| && MarkedAt(seen, tables, i, j, |seen|);
    CrawlFits(seen, tables, c, j);
    MarkedOpenHasNoBlock(c, tables[j], seen[j], i);
  }

  lemma MarkedOpenHasNoBlock(c: Chain, t: Tables, s: Seen, i: nat)
    requires Truthful(s, c) && Marks(t, s, i) && MotionFits(t.motions[i], c) && t.motions[i].index == i
    requires i < |c.motions| && c.motions[i].fate == Open
    ensures t.motions[i].block.None? && s.asOf.Some? && s.asOf.value < c.motions[i].at.block
  {
    assert LiveOrNewer(c, i, s.live, s.asOf);
  }

  // It happens: a motion stored without its block, and then judged by a read of block 0 from before its proposal.
  lemma OpenMayBeMarked()
    ensures exists ops: seq<Op>, c: Chain, seen: seq<Seen>, tables: seq<Tables> ::
      && Reaches(ops, c) && TruthfulCrawl(seen, tables, c) && |c.motions| == 1 && c.motions[0].fate == Open
      && 0 in tables[|seen|].motions && tables[|seen|].motions[0].leftStorage
  {
    var ops, c := OneOpenMotion();
    var seen, tables := BlocklessIsMarked();
    assert Truthful(seen[0], c);
    assert LiveOrNewer(c, 0, {}, Some(0)) && Truthful(seen[1], c);
    assert TruthfulCrawl(seen, tables, c);
  }

  lemma OneOpenMotion() returns (ops: seq<Op>, c: Chain)
    ensures Reaches(ops, c) && c.motions == [TrueMotion("call", Pos(5, 0), Open)]
  {
    ReachStep([], Genesis, Propose("call", Pos(5, 0)));
    ops, c := [] + [Propose("call", Pos(5, 0))], Apply(Genesis, Propose("call", Pos(5, 0)));
  }

  lemma BlocklessIsMarked() returns (seen: seq<Seen>, tables: seq<Tables>)
    ensures seen == [SawMotion(Motion(0, "call", None, None, false, None, None), true), SawLive({}, Some(0))]
    ensures Crawled(seen, tables) && 0 in tables[|seen|].motions && tables[|seen|].motions[0].leftStorage
  {
    var m := Motion(0, "call", None, None, false, None, None);
    seen := [SawMotion(m, true), SawLive({}, Some(0))];
    var before := Tables(map[0 := m], map[]);
    var rows := Attribute([m], []);
    RowShows([m], [], 0);
    assert rows[0].index == 0 && rows[0].status == Proposed;
    ProposedIsMarked(before.motions, rows, seen[1], 0, 0);
    assert Reads([m], [], before);
    tables := [NoRows, before, before.(motions := Marked(before.motions, rows, {}, Some(0)))];
    assert Writes(tables[0], seen[0], tables[1]) && Writes(tables[1], seen[1], tables[2]);
  }

  // GONE: once everything is stored, a live read that can judge an undecided motion and does not list it marks it.
  lemma MissingIsMarked(ops: seq<Op>, c: Chain, seen: seq<Seen>, tables: seq<Tables>, s: Seen, t: Tables, i: nat)
    requires Reaches(ops, c) && TruthfulCrawl(seen, tables, c) && Complete(seen, c)
    requires s.SawLive? && Writes(tables[|seen|], s, t)
    requires i < |c.motions| && c.motions[i].fate in {Open, Dropped}
    requires i !in s.live && (s.asOf.None? || c.motions[i].at.block <= s.asOf.value)
    ensures i in t.motions && t.motions[i].leftStorage
  {
    var last := tables[|seen|];
    var motions, events :| Reads(motions, events, last) && t == last.(motions := Marked(last.motions, Attribute(motions, events), s.live, s.asOf));
    ReachableConsistent(ops, c);
    LoggedKindsKnown(c);
    ReadIsIndexed(seen, tables, c, motions, events);
    CrawlFits(seen, tables, c, |seen|);
    assert Listed(motions, i);
    var m: Motion :| m in motions && m.index == i;
    var k :| 0 <= k < |motions| && motions[k] == m;
    UndecidedRowShows(ops, c, seen, tables, motions, events, k);
    assert last.motions[i] == m && MotionFits(m, c);
    ProposedIsMarked(last.motions, Attribute(motions, events), s, k, i);
  }

  lemma ProposedIsMarked(t: map<nat, Motion>, rows: seq<Row>, s: Seen, k: nat, i: nat)
    requires s.SawLive? && i in t && Missing(t[i], s.live, s.asOf) && k < |rows|
    requires rows[k].index == i && rows[k].status == (if t[i].leftStorage then LeftStorage else Proposed)
    ensures Marked(t, rows, s.live, s.asOf)[i].leftStorage
  {
  }

  // ---- what the upserts leave ------------------------------------------------------------

  // The last value that some writes give.
  function LastOf<T>(seen: seq<Seen>, value: Seen -> Option<T>): Option<T> {
    if seen == [] then None
    else
      var last := value(seen[|seen| - 1]);
      if last.Some? then last else LastOf(seen[..|seen| - 1], value)
  }

  predicate WritesMotion(s: Seen, i: nat) {
    s.SawMotion? && s.motion.index == i && s.motion.hash != ""
  }

  predicate WritesEvent(s: Seen, k: Key) {
    s.SawEvent? && KeyOf(s.event) == k && k.hash != "" && k.kind != Other
  }

  lemma LastOfSnoc<T>(seen: seq<Seen>, s: Seen, value: Seen -> Option<T>)
    ensures LastOf(seen + [s], value) == if value(s).Some? then value(s) else LastOf(seen, value)
  {
    assert (seen + [s])[..|seen + [s]| - 1] == seen;
  }

  lemma {:induction false} LastOfNone<T>(seen: seq<Seen>, value: Seen -> Option<T>)
    requires forall k :: 0 <= k < |seen| ==> value(seen[k]).None?
    ensures LastOf(seen, value).None?
  {
    if seen != [] {
      LastOfNone(seen[..|seen| - 1], value);
    }
  }

  // What a write says of a column of motion i, or of the event with a key.
  function HashBy(i: nat): Seen -> Option<Hash> {
    s => if WritesMotion(s, i) then Some(s.motion.hash) else None
  }

  function BlockBy(i: nat): Seen -> Option<nat> {
    s => if WritesMotion(s, i) then s.motion.block else None
  }

  function IndexBy(i: nat): Seen -> Option<nat> {
    s => if WritesMotion(s, i) then s.motion.eventIndex else None
  }

  function LiveAyesBy(i: nat): Seen -> Option<nat> {
    s => if WritesMotion(s, i) then s.motion.liveAyes else None
  }

  function LiveNaysBy(i: nat): Seen -> Option<nat> {
    s => if WritesMotion(s, i) then s.motion.liveNays else None
  }

  function AyesBy(k: Key): Seen -> Option<nat> {
    s => if WritesEvent(s, k) then s.event.ayes else None
  }

  function NaysBy(k: Key): Seen -> Option<nat> {
    s => if WritesEvent(s, k) then s.event.nays else None
  }

  function TimeBy(k: Key): Seen -> Option<nat> {
    s => if WritesEvent(s, k) then s.event.at else None
  }

  function PositionBy(k: Key): Seen -> Option<int> {
    s => if WritesEvent(s, k) && s.event.eventIndex >= 0 then Some(s.event.eventIndex) else None
  }

  ghost predicate MotionIsLast(seen: seq<Seen>, t: map<nat, Motion>, i: nat) {
    && (i in t <==> exists k :: 0 <= k < |seen| && WritesMotion(seen[k], i))
    && (i in t ==>
          && t[i].index == i && Some(t[i].hash) == LastOf(seen, HashBy(i))
          && t[i].block == LastOf(seen, BlockBy(i)) && t[i].eventIndex == LastOf(seen, IndexBy(i))
          && t[i].liveAyes == LastOf(seen, LiveAyesBy(i)) && t[i].liveNays == LastOf(seen, LiveNaysBy(i)))
  }

  ghost predicate EventIsLast(seen: seq<Seen>, t: map<Key, Event>, k: Key) {
    && (k in t <==> exists j :: 0 <= j < |seen| && WritesEvent(seen[j], k))
    && (k in t ==>
          && KeyOf(t[k]) == k && t[k].ayes == LastOf(seen, AyesBy(k)) && t[k].nays == LastOf(seen, NaysBy(k))
          && t[k].at == LastOf(seen, TimeBy(k))
          && (if t[k].eventIndex >= 0 then Some(t[k].eventIndex) else None) == LastOf(seen, PositionBy(k)))
  }

  lemma WrittenSnoc(seen: seq<Seen>, s: Seen, i: nat, key: Key)
    ensures (exists k :: 0 <= k < |seen + [s]| && WritesMotion((seen + [s])[k], i))
            <==> WritesMotion(s, i) || exists k :: 0 <= k < |seen| && WritesMotion(seen[k], i)
    ensures (exists k :: 0 <= k < |seen + [s]| && WritesEvent((seen + [s])[k], key))
            <==> WritesEvent(s, key) || exists k :: 0 <= k < |seen| && WritesEvent(seen[k], key)
  {
    var more := seen + [s];
    assert more[|seen|] == s && forall k :: 0 <= k < |seen| ==> more[k] == seen[k];
  }

  lemma MotionStep(seen: seq<Seen>, t: Tables, s: Seen, t': Tables, i: nat)
    requires MotionIsLast(seen, t.motions, i) && Writes(t, s, t')
    ensures MotionIsLast(seen + [s], t'.motions, i)
  {
    WrittenSnoc(seen, s, i, Key("", 0, Other));
    LastOfSnoc(seen, s, HashBy(i));
    LastOfSnoc(seen, s, BlockBy(i));
    LastOfSnoc(seen, s, IndexBy(i));
    LastOfSnoc(seen, s, LiveAyesBy(i));
    LastOfSnoc(seen, s, LiveNaysBy(i));
    if i !in t.motions {
      LastOfNone(seen, BlockBy(i));
      LastOfNone(seen, IndexBy(i));
      LastOfNone(seen, LiveAyesBy(i));
      LastOfNone(seen, LiveNaysBy(i));
    }
  }

  // UPSERTED: a stored motion holds, column by column, the last value that was written and known.
  lemma {:induction false} StoredMotionIsLast(seen: seq<Seen>, tables: seq<Tables>, i: nat, n: nat)
    requires Crawled(seen, tables) && n <= |seen|
    ensures MotionIsLast(seen[..n], tables[n].motions, i)
  {
    if n > 0 {
      StoredMotionIsLast(seen, tables, i, n - 1);
      assert Writes(tables[n - 1], seen[n - 1], tables[n - 1 + 1]);
      MotionStep(seen[..n - 1], tables[n - 1], seen[n - 1], tables[n], i);
      assert seen[..n] == seen[..n - 1] + [seen[n - 1]];
    }
  }

  lemma EventStep(seen: seq<Seen>, t: Tables, s: Seen, t': Tables, k: Key)
    requires EventIsLast(seen, t.events, k) && Writes(t, s, t')
    ensures EventIsLast(seen + [s], t'.events, k)
  {
    WrittenSnoc(seen, s, 0, k);
    LastOfSnoc(seen, s, AyesBy(k));
    LastOfSnoc(seen, s, NaysBy(k));
    LastOfSnoc(seen, s, TimeBy(k));
    LastOfSnoc(seen, s, PositionBy(k));
    if k !in t.events {
      LastOfNone(seen, AyesBy(k));
      LastOfNone(seen, NaysBy(k));
      LastOfNone(seen, TimeBy(k));
      LastOfNone(seen, PositionBy(k));
    }
  }

  // UPSERTED: so does a stored event.
  lemma {:induction false} StoredEventIsLast(seen: seq<Seen>, tables: seq<Tables>, k: Key, n: nat)
    requires Crawled(seen, tables) && n <= |seen|
    ensures EventIsLast(seen[..n], tables[n].events, k)
  {
    if n > 0 {
      StoredEventIsLast(seen, tables, k, n - 1);
      assert Writes(tables[n - 1], seen[n - 1], tables[n - 1 + 1]);
      EventStep(seen[..n - 1], tables[n - 1], seen[n - 1], tables[n], k);
      assert seen[..n] == seen[..n - 1] + [seen[n - 1]];
    }
  }

  lemma LoggedKindsKnown(c: Chain)
    requires MotionsConsistent(c) && LogPlaced(c) && LogTellsFate(c)
    ensures HashesKnown(c)
  {
  }

  lemma ReachStep(ops: seq<Op>, b: Chain, op: Op)
    requires Reaches(ops, b) && OpenBounded(b) && Enabled(b, op)
    ensures Reaches(ops + [op], Apply(b, op))
  {
    assert (ops + [op])[..|ops + [op]| - 1] == ops;
  }

  // The events of one resolution, as they are logged for motion i.
  ghost predicate LoggedFor(e: TrueEvent, h: Hash, i: nat, emitted: seq<Emitted>) {
    exists k :: 0 <= k < |emitted| && e == TrueEvent(h, emitted[k].at, emitted[k].kind, i, emitted[k].tally)
  }

  // One proposal of a hash and its resolution, later in the block.
  lemma ProposeAndResolve(ops: seq<Op>, c: Chain, h: Hash, at: Pos, passed: bool, emitted: seq<Emitted>) returns (ops': seq<Op>, c': Chain)
    requires Reaches(ops, c) && OpenBounded(c) && h != "" && h !in c.open
    requires Follows(c.now, at) && Emits(passed, emitted) && Before(at, emitted[0].at)
    ensures Reaches(ops', c') && OpenBounded(c') && h !in c'.open && c'.now == Some(emitted[|emitted| - 1].at)
    ensures |c'.motions| == |c.motions| + 1
    ensures forall e :: e in c'.log <==> e in c.log || LoggedFor(e, h, |c.motions|, emitted)
  {
    var b := ProposeOpens(c, h, at);
    ReachStep(ops, c, Propose(h, at));
    ResolveLogs(b, h, passed, emitted);
    ReachStep(ops + [Propose(h, at)], b, Resolve(h, passed, emitted));
    ops', c' := ops + [Propose(h, at)] + [Resolve(h, passed, emitted)], Apply(b, Resolve(h, passed, emitted));
  }

  lemma ProposeOpens(c: Chain, h: Hash, at: Pos) returns (b: Chain)
    requires OpenBounded(c) && h != "" && h !in c.open && Follows(c.now, at)
    ensures b == Apply(c, Propose(h, at)) && OpenBounded(b)
    ensures h in b.open && b.open[h] == |c.motions| && b.now == Some(at) && b.log == c.log && |b.motions| == |c.motions| + 1
  {
    b := Apply(c, Propose(h, at));
  }

  lemma ResolveLogs(b: Chain, h: Hash, passed: bool, emitted: seq<Emitted>)
    requires OpenBounded(b) && Enabled(b, Resolve(h, passed, emitted))
    ensures
      var c := Apply(b, Resolve(h, passed, emitted));
      && OpenBounded(c) && h !in c.open && c.now == Some(emitted[|emitted| - 1].at) && |c.motions| == |b.motions|
      && forall e :: e in c.log <==> e in b.log || LoggedFor(e, h, b.open[h], emitted)
  {
  }

  // The same hash proposed and resolved twice in one block.
  lemma ResolvedTwice(firstPassed: bool, first: seq<Emitted>, secondPassed: bool, second: seq<Emitted>) returns (ops: seq<Op>, c: Chain)
    requires Emits(firstPassed, first) && Emits(secondPassed, second)
    requires first[0].at == Pos(1, 1) && first[|first| - 1].at == Pos(1, 2)
    requires second[0].at == Pos(1, 4)
    ensures Reaches(ops, c)
    ensures forall e :: e in c.log <==> LoggedFor(e, "call", 0, first) || LoggedFor(e, "call", 1, second)
  {
    var ops1, c1 := ProposeAndResolve([], Genesis, "call", Pos(1, 0), firstPassed, first);
    ops, c := ProposeAndResolve(ops1, c1, "call", Pos(1, 3), secondPassed, second);
  }

  function Resolution(at: nat, passed: bool, tally: Tally): (emitted: seq<Emitted>)
    ensures Emits(passed, emitted)
  {
    var emitted := [Emitted(Pos(1, at), Closed, Some(tally)), Emitted(Pos(1, at + 1), Deciding(passed), None)];
    assert emitted[1].kind == Deciding(passed);
    emitted
  }

  lemma ResolutionLogs(i: nat, at: nat, passed: bool, tally: Tally)
    ensures LoggedFor(TrueEvent("call", Pos(1, at), Closed, i, Some(tally)), "call", i, Resolution(at, passed, tally))
    ensures LoggedFor(TrueEvent("call", Pos(1, at + 1), Deciding(passed), i, None), "call", i, Resolution(at, passed, tally))
    ensures forall e :: LoggedFor(e, "call", i, Resolution(at, passed, tally)) ==> e.owner == i && e.kind in {Closed, Deciding(passed)}
  {
    var emitted := Resolution(at, passed, tally);
    assert emitted[0].kind == Closed && emitted[1].kind == Deciding(passed);
  }

  // Such a clash is possible: the same call proposed and executed twice in one block.
  lemma ClashHappens()
    ensures exists ops, c :: Reaches(ops, c) && !NoClash(c)
  {
    var first, second := Resolution(1, true, Tally(3, 1)), Resolution(4, true, Tally(3, 1));
    var ops, c := ResolvedTwice(true, first, true, second);
    ResolutionLogs(0, 1, true, Tally(3, 1));
    ResolutionLogs(1, 4, true, Tally(3, 1));
    var e, f := TrueEvent("call", Pos(1, 2), Executed, 0, None), TrueEvent("call", Pos(1, 5), Executed, 1, None);
    assert e in c.log && f in c.log && Clashing(e, f);
  }

  // So is a shared tally alone: rejected, proposed again and executed in one block.
  lemma SharedTallyHappens()
    ensures exists ops, c :: Reaches(ops, c) && NoClash(c) && !NoSharedTally(c)
  {
    var first, second := Resolution(1, false, Tally(1, 3)), Resolution(4, true, Tally(3, 1));
    var ops, c := ResolvedTwice(false, first, true, second);
    ResolutionLogs(0, 1, false, Tally(1, 3));
    ResolutionLogs(1, 4, true, Tally(3, 1));
    var e, f := TrueEvent("call", Pos(1, 1), Closed, 0, Some(Tally(1, 3))), TrueEvent("call", Pos(1, 4), Closed, 1, Some(Tally(3, 1)));
    assert e in c.log && f in c.log && SharesTally(e, f);
    NoClashBetween(c, first, second);
  }

  // Rejected once and passed once: nothing is decided alike.
  lemma NoClashBetween(c: Chain, first: seq<Emitted>, second: seq<Emitted>)
    requires forall e :: e in c.log ==> LoggedFor(e, "call", 0, first) || LoggedFor(e, "call", 1, second)
    requires forall e :: LoggedFor(e, "call", 0, first) ==> e.owner == 0 && e.kind in {Closed, Disapproved}
    requires forall e :: LoggedFor(e, "call", 1, second) ==> e.owner == 1 && e.kind in {Closed, Executed}
    ensures NoClash(c)
  {
  }
}
