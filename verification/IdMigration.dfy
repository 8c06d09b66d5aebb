/** The hash-keyed id migration of lib/id-migration.js, stopped and resumed anywhere. */
module IdMigration {
  // An id rewrite that drops the duplicates it meets, then a fork delete in chunks of heights with a saved cursor. A run
  // may stop between any two of its committed steps and be started again.

  import opened Util

  // Keyed: the new ids, block_hash and event_index. EventNumber: "event-..." ids that
  // are not keyed by a hash. Opaque: anything else.
  datatype Id = Keyed(hash: string, index: nat) | EventNumber(text: string) | Opaque(text: string)

  datatype Row = Row(id: Id, block: Option<nat>, blockHash: Option<string>, eventIndex: Option<nat>, derived: bool)

  datatype Table = Transactions | Rewards

  // LIKE '0x%'.
  predicate Usable(h: Option<string>) {
    h.Some? && |h.value| >= 2 && h.value[0] == '0' && h.value[1] in "xX"
  }

  // The WHERE of the rewrite: a legacy id, and columns to make the new one from.
  predicate Candidate(table: Table, r: Row) {
    && Usable(r.blockHash) && r.eventIndex.Some?
    && (if table == Transactions then r.derived && r.id.EventNumber? else !r.id.Keyed?)
  }

  function NewId(r: Row): Id
    requires r.blockHash.Some? && r.eventIndex.Some?
  {
    Keyed(r.blockHash.value, r.eventIndex.value)
  }

  predicate HasId(rows: seq<Row>, id: Id) {
    exists k :: 0 <= k < |rows| && rows[k].id == id
  }

  ghost predicate UniqueIds(rows: seq<Row>) {
    forall i, j :: 0 <= i < j < |rows| ==> rows[i].id != rows[j].id
  }

  // UPDATE OR IGNORE, from row k on: a row whose new id is taken keeps its old one.
  function UpdateFrom(table: Table, rows: seq<Row>, k: nat): (r: seq<Row>)
    requires k <= |rows|
    ensures |r| == |rows|
    decreases |rows| - k
  {
    if k == |rows| then rows
    else if Candidate(table, rows[k]) && !HasId(rows, NewId(rows[k])) then
      UpdateFrom(table, rows[k := rows[k].(id := NewId(rows[k]))], k + 1)
    else UpdateFrom(table, rows, k + 1)
  }

  function Keep(rows: seq<Row>, p: Row -> bool): seq<Row> {
    if rows == [] then []
    else if p(rows[0]) then [rows[0]] + Keep(rows[1..], p) else Keep(rows[1..], p)
  }

  // The rewrite of one table: update, then delete what still looks legacy.
  function Rewrite(table: Table, rows: seq<Row>): seq<Row> {
    Keep(UpdateFrom(table, rows, 0), r => !Candidate(table, r))
  }

  // ---- the rewrite loses no event and doubles none ----------------------------------------

  // A row that stands for the event (hash, index): legacy with usable columns, or keyed.
  predicate StandsFor(table: Table, r: Row, hash: string, index: nat) {
    (Candidate(table, r) || r.id.Keyed?) && r.blockHash == Some(hash) && r.eventIndex == Some(index)
  }

  // Keyed rows are keyed by their own columns.
  ghost predicate KeyedByColumns(rows: seq<Row>) {
    forall k :: 0 <= k < |rows| && rows[k].id.Keyed? ==>
      rows[k].blockHash == Some(rows[k].id.hash) && rows[k].eventIndex == Some(rows[k].id.index)
  }

  ghost predicate HasEvent(table: Table, rows: seq<Row>, hash: string, index: nat) {
    exists k :: 0 <= k < |rows| && StandsFor(table, rows[k], hash, index)
  }

  // b is a with some legacy rows given their new id.
  ghost predicate Rekeyed(table: Table, a: Row, b: Row) {
    b == a || (Candidate(table, a) && b == a.(id := NewId(a)))
  }

  // One step of the update at row k.
  function UpdateOne(table: Table, rows: seq<Row>, k: nat): seq<Row>
    requires k < |rows|
  {
    if Candidate(table, rows[k]) && !HasId(rows, NewId(rows[k])) then rows[k := rows[k].(id := NewId(rows[k]))] else rows
  }

  lemma UpdateOneIds(table: Table, rows: seq<Row>, k: nat, id: Id)
    requires k < |rows| && id.Keyed? && (HasId(rows, id) || (Candidate(table, rows[k]) && id == NewId(rows[k])))
    ensures HasId(UpdateOne(table, rows, k), id)
  {
    var next := UpdateOne(table, rows, k);
    if HasId(rows, id) {
      var i :| 0 <= i < |rows| && rows[i].id == id;
      assert next[i].id == id;
    } else {
      assert next[k].id == id;
    }
  }

  lemma {:induction false} UpdateKeepsKeys(table: Table, rows: seq<Row>, k: nat)
    requires k <= |rows| && UniqueIds(rows) && KeyedByColumns(rows)
    ensures UniqueIds(UpdateFrom(table, rows, k)) && KeyedByColumns(UpdateFrom(table, rows, k))
    decreases |rows| - k
  {
    if k < |rows| {
      UpdateKeepsKeys(table, UpdateOne(table, rows, k), k + 1);
    }
  }

  lemma {:induction false} UpdateRekeys(table: Table, rows: seq<Row>, k: nat, i: nat)
    requires k <= |rows| && i < |rows|
    ensures Rekeyed(table, rows[i], UpdateFrom(table, rows, k)[i])
    ensures i < k ==> UpdateFrom(table, rows, k)[i] == rows[i]
    decreases |rows| - k
  {
    if k < |rows| {
      UpdateRekeys(table, UpdateOne(table, rows, k), k + 1, i);
    }
  }

  lemma {:induction false} UpdateKeepsId(table: Table, rows: seq<Row>, k: nat, id: Id)
    requires k <= |rows| && id.Keyed? && HasId(rows, id)
    ensures HasId(UpdateFrom(table, rows, k), id)
    decreases |rows| - k
  {
    if k < |rows| {
      UpdateOneIds(table, rows, k, id);
      UpdateKeepsId(table, UpdateOne(table, rows, k), k + 1, id);
    }
  }

  lemma {:induction false} UpdateMintsId(table: Table, rows: seq<Row>, k: nat, i: nat)
    requires k <= i < |rows| && Candidate(table, rows[i])
    ensures HasId(UpdateFrom(table, rows, k), NewId(rows[i]))
    decreases |rows| - k
  {
    var next := UpdateOne(table, rows, k);
    if i == k {
      UpdateOneIds(table, rows, k, NewId(rows[k]));
      UpdateKeepsId(table, next, k + 1, NewId(rows[k]));
    } else {
      UpdateMintsId(table, next, k + 1, i);
    }
  }

  lemma {:induction false} KeepMembers(rows: seq<Row>, p: Row -> bool)
    ensures forall r :: r in Keep(rows, p) <==> r in rows && p(r)
    ensures UniqueIds(rows) ==> UniqueIds(Keep(rows, p))
  {
    if rows != [] {
      KeepMembers(rows[1..], p);
      if UniqueIds(rows) {
        var rest := Keep(rows[1..], p);
        forall j | 0 <= j < |rest| ensures rest[j].id != rows[0].id {
          assert rest[j] in rows[1..];
        }
      }
    }
  }

  lemma {:induction false} KeepAll(rows: seq<Row>, p: Row -> bool)
    requires forall r :: r in rows ==> p(r)
    ensures Keep(rows, p) == rows
  {
    if rows != [] {
      KeepAll(rows[1..], p);
    }
  }

  lemma {:induction false} UpdateNothing(table: Table, rows: seq<Row>, k: nat)
    requires k <= |rows| && forall r :: r in rows ==> !Candidate(table, r)
    ensures UpdateFrom(table, rows, k) == rows
    decreases |rows| - k
  {
    if k < |rows| {
      assert rows[k] in rows;
      UpdateNothing(table, rows, k + 1);
    }
  }

  lemma RewriteMembers(table: Table, rows: seq<Row>)
    requires UniqueIds(rows) && KeyedByColumns(rows)
    ensures var t := Rewrite(table, rows);
      && UniqueIds(t) && KeyedByColumns(t)
      && (forall r :: r in t ==> !Candidate(table, r))
      && (forall r :: r in rows && !Candidate(table, r) ==> r in t)
  {
    var u, t := UpdateFrom(table, rows, 0), Rewrite(table, rows);
    UpdateKeepsKeys(table, rows, 0);
    KeepMembers(u, r => !Candidate(table, r));
    forall k | 0 <= k < |t| && t[k].id.Keyed? ensures t[k].blockHash == Some(t[k].id.hash) && t[k].eventIndex == Some(t[k].id.index) {
      assert t[k] in u;
    }
    forall r | r in rows && !Candidate(table, r) ensures r in t {
      var i :| 0 <= i < |rows| && rows[i] == r;
      UpdateRekeys(table, rows, 0, i);
      assert u[i] == r;
    }
  }

  lemma RewriteFindsEvent(table: Table, rows: seq<Row>, hash: string, index: nat)
    requires UniqueIds(rows) && KeyedByColumns(rows) && HasEvent(table, rows, hash, index)
    ensures HasEvent(table, Rewrite(table, rows), hash, index)
  {
    var u, t := UpdateFrom(table, rows, 0), Rewrite(table, rows);
    var k :| 0 <= k < |rows| && StandsFor(table, rows[k], hash, index);
    if rows[k].id.Keyed? {
      UpdateKeepsId(table, rows, 0, Keyed(hash, index));
    } else {
      UpdateMintsId(table, rows, 0, k);
    }
    var i :| 0 <= i < |u| && u[i].id == Keyed(hash, index);
    UpdateKeepsKeys(table, rows, 0);
    KeepMembers(u, r => !Candidate(table, r));
    assert u[i] in t;
    var j :| 0 <= j < |t| && t[j] == u[i];
    assert StandsFor(table, t[j], hash, index);
  }

  lemma RewriteMakesUpNone(table: Table, rows: seq<Row>, hash: string, index: nat)
    requires HasEvent(table, Rewrite(table, rows), hash, index)
    ensures HasEvent(table, rows, hash, index)
  {
    var u, t := UpdateFrom(table, rows, 0), Rewrite(table, rows);
    KeepMembers(u, r => !Candidate(table, r));
    var j :| 0 <= j < |t| && StandsFor(table, t[j], hash, index);
    assert t[j] in u;
    var i :| 0 <= i < |u| && u[i] == t[j];
    UpdateRekeys(table, rows, 0, i);
    assert StandsFor(table, rows[i], hash, index);
  }

  // REWRITE: every event of the table is still there, by exactly one row; nothing looks
  // legacy any more, and rows that stood for no event are untouched.
  lemma RewriteKeepsEvents(table: Table, rows: seq<Row>, hash: string, index: nat)
    requires UniqueIds(rows) && KeyedByColumns(rows)
    ensures var t := Rewrite(table, rows);
      && (HasEvent(table, t, hash, index) <==> HasEvent(table, rows, hash, index))
      && (forall i, j :: 0 <= i < |t| && 0 <= j < |t| && StandsFor(table, t[i], hash, index) && StandsFor(table, t[j], hash, index) ==> i == j)
      && (forall r :: r in t ==> !Candidate(table, r))
      && (forall r :: r in rows && !Candidate(table, r) ==> r in t)
  {
    var t := Rewrite(table, rows);
    RewriteMembers(table, rows);
    if HasEvent(table, rows, hash, index) {
      RewriteFindsEvent(table, rows, hash, index);
    }
    if HasEvent(table, t, hash, index) {
      RewriteMakesUpNone(table, rows, hash, index);
    }
    forall i, j | 0 <= i < |t| && 0 <= j < |t| && StandsFor(table, t[i], hash, index) && StandsFor(table, t[j], hash, index)
      ensures i == j
    {
      assert t[i] in t && t[j] in t;
      assert t[i].id == t[j].id;
    }
  }

  lemma RewriteTwice(table: Table, rows: seq<Row>)
    ensures forall r :: r in Rewrite(table, rows) ==> !Candidate(table, r)
    ensures Rewrite(table, Rewrite(table, rows)) == Rewrite(table, rows)
  {
    var t := Rewrite(table, rows);
    KeepMembers(UpdateFrom(table, rows, 0), r => !Candidate(table, r));
    RewriteClean(table, t);
  }

  lemma RewriteClean(table: Table, rows: seq<Row>)
    requires forall r :: r in rows ==> !Candidate(table, r)
    ensures Rewrite(table, rows) == rows
  {
    UpdateNothing(table, rows, 0);
    KeepAll(rows, r => !Candidate(table, r));
  }

  // ---- the whole database -------------------------------------------------------------------

  // blocks: the stored hash of each height.
  type Blocks = map<nat, Option<string>>

  datatype Db = Db(tx: seq<Row>, rewards: seq<Row>, events: seq<Row>)

  // forkWhere: the row's hash disagrees with the stored hash of its height.
  predicate Fork(blocks: Blocks, r: Row) {
    && Usable(r.blockHash) && r.block.Some? && r.block.value in blocks
    && Usable(blocks[r.block.value]) && blocks[r.block.value] != r.blockHash
  }

  predicate Within(r: Row, from: nat, to: int) {
    r.block.Some? && from <= r.block.value <= to
  }

  function RewriteDb(d: Db): Db {
    Db(Rewrite(Transactions, d.tx), Rewrite(Rewards, d.rewards), d.events)
  }

  function DeleteRange(blocks: Blocks, rows: seq<Row>, from: nat, to: int): seq<Row> {
    Keep(rows, r => !(Fork(blocks, r) && Within(r, from, to)))
  }

  function DeleteChunk(blocks: Blocks, d: Db, from: nat, to: int): Db {
    Db(DeleteRange(blocks, d.tx, from, to), DeleteRange(blocks, d.rewards, from, to), DeleteRange(blocks, d.events, from, to))
  }

  function DeleteForks(blocks: Blocks, rows: seq<Row>): seq<Row> {
    Keep(rows, r => !Fork(blocks, r))
  }

  // One atomic rewrite and one global fork delete.
  function Goal(blocks: Blocks, d: Db): Db {
    var w := RewriteDb(d);
    Db(DeleteForks(blocks, w.tx), DeleteForks(blocks, w.rewards), DeleteForks(blocks, w.events))
  }

  predicate InDb(d: Db, r: Row) {
    r in d.tx || r in d.rewards || r in d.events
  }

  ghost predicate Clean(d: Db) {
    (forall r :: r in d.tx ==> !Candidate(Transactions, r)) && (forall r :: r in d.rewards ==> !Candidate(Rewards, r))
  }

  // No fork row below a height.
  ghost predicate ClearBelow(blocks: Blocks, d: Db, height: int) {
    forall r :: InDb(d, r) && Fork(blocks, r) && r.block.Some? ==> r.block.value >= height
  }

  lemma {:induction false} KeepTwice(rows: seq<Row>, p: Row -> bool, q: Row -> bool)
    requires forall r :: q(r) ==> p(r)
    ensures Keep(Keep(rows, p), q) == Keep(rows, q)
  {
    if rows != [] {
      KeepTwice(rows[1..], p, q);
      if p(rows[0]) {
        assert ([rows[0]] + Keep(rows[1..], p))[1..] == Keep(rows[1..], p);
      }
    }
  }

  lemma DeleteRangeMembers(blocks: Blocks, rows: seq<Row>, from: nat, to: int)
    ensures forall r :: r in DeleteRange(blocks, rows, from, to) <==> r in rows && !(Fork(blocks, r) && Within(r, from, to))
    ensures DeleteForks(blocks, DeleteRange(blocks, rows, from, to)) == DeleteForks(blocks, rows)
  {
    KeepMembers(rows, r => !(Fork(blocks, r) && Within(r, from, to)));
    KeepTwice(rows, r => !(Fork(blocks, r) && Within(r, from, to)), r => !Fork(blocks, r));
  }

  lemma CleanStays(blocks: Blocks, d: Db)
    requires Clean(d)
    ensures RewriteDb(d) == d
  {
    RewriteClean(Transactions, d.tx);
    RewriteClean(Rewards, d.rewards);
  }

  lemma RewriteStep(blocks: Blocks, d: Db)
    ensures Clean(RewriteDb(d)) && RewriteDb(RewriteDb(d)) == RewriteDb(d)
    ensures Goal(blocks, RewriteDb(d)) == Goal(blocks, d)
  {
    RewriteTwice(Transactions, d.tx);
    RewriteTwice(Rewards, d.rewards);
  }

  // A chunk delete leaves the goal as it was and moves the clear height up.
  lemma ChunkStep(blocks: Blocks, d: Db, from: nat, to: nat)
    requires Clean(d) && ClearBelow(blocks, d, from) && from <= to + 1
    ensures var d' := DeleteChunk(blocks, d, from, to);
      && Clean(d') && Goal(blocks, d') == Goal(blocks, d) && ClearBelow(blocks, d', to + 1)
      && (forall r :: InDb(d', r) ==> InDb(d, r))
  {
    DeleteRangeMembers(blocks, d.tx, from, to);
    DeleteRangeMembers(blocks, d.rewards, from, to);
    DeleteRangeMembers(blocks, d.events, from, to);
    CleanStays(blocks, d);
    CleanStays(blocks, DeleteChunk(blocks, d, from, to));
  }

  // Clean and without forks is where the migration ends.
  lemma ClearIsGoal(blocks: Blocks, d: Db)
    requires Clean(d) && forall r :: InDb(d, r) ==> !Fork(blocks, r)
    ensures Goal(blocks, d) == d
  {
    CleanStays(blocks, d);
    KeepAll(d.tx, r => !Fork(blocks, r));
    KeepAll(d.rewards, r => !Fork(blocks, r));
    KeepAll(d.events, r => !Fork(blocks, r));
  }

  // ---- what the migration does, column by column ---------------------------------------------

  // SQL's LIKE '0x%', on the characters.
  predicate Hex(h: string) {
    "0x" <= h || "0X" <= h
  }

  // A row that no fork delete touches: its own hash is unusable, it has no height, its height has no stored or usable
  // hash, or the two hashes agree.
  predicate Agrees(blocks: Blocks, r: Row) {
    || r.blockHash.None? || !Hex(r.blockHash.value)
    || r.block.None? || r.block.value !in blocks
    || blocks[r.block.value].None? || !Hex(blocks[r.block.value].value)
    || blocks[r.block.value].value == r.blockHash.value
  }

  // An id of the old scheme, on a row that has what the new one is made of.
  predicate Legacy(table: Table, r: Row) {
    && r.blockHash.Some? && Hex(r.blockHash.value) && r.eventIndex.Some?
    && match table
       case Transactions => r.derived && r.id.EventNumber?
       case Rewards => r.id.EventNumber? || r.id.Opaque?
  }

  // Of the rows before, those that were not legacy, and one of each legacy row's new id; nothing else.
  ghost predicate RewrittenAs(table: Table, before: seq<Row>, after: seq<Row>) {
    && (forall r :: r in before && !Legacy(table, r) ==> r in after)
    && (forall r :: r in before && Legacy(table, r) ==> HasId(after, Keyed(r.blockHash.value, r.eventIndex.value)))
    && (forall r :: r in after ==> FromRow(table, before, r))
  }

  ghost predicate FromRow(table: Table, before: seq<Row>, r: Row) {
    exists o :: o in before
      && if Legacy(table, o) then r == o.(id := Keyed(o.blockHash.value, o.eventIndex.value)) else r == o
  }

  lemma CandidateIsLegacy(table: Table, r: Row)
    ensures Candidate(table, r) <==> Legacy(table, r)
  {
  }

  // COLUMNS, rewrite: the rows of a rewritten table, from the rows before.
  lemma RewriteOnColumns(table: Table, rows: seq<Row>)
    ensures RewrittenAs(table, rows, Rewrite(table, rows))
  {
    var u, t := UpdateFrom(table, rows, 0), Rewrite(table, rows);
    KeepMembers(u, r => !Candidate(table, r));
    forall r | r in rows
      ensures !Legacy(table, r) ==> r in t
      ensures Legacy(table, r) ==> HasId(t, Keyed(r.blockHash.value, r.eventIndex.value))
    {
      var i :| 0 <= i < |rows| && rows[i] == r;
      CandidateIsLegacy(table, r);
      UpdateRekeys(table, rows, 0, i);
      assert u[i] in u;
      if Legacy(table, r) {
        UpdateMintsId(table, rows, 0, i);
        KeyedIsKept(table, u, NewId(r));
      }
    }
    forall r | r in t ensures FromRow(table, rows, r) {
      var i :| 0 <= i < |u| && u[i] == r;
      UpdateRekeys(table, rows, 0, i);
      CandidateIsLegacy(table, rows[i]);
      assert rows[i] in rows;
    }
  }

  lemma KeyedIsKept(table: Table, rows: seq<Row>, id: Id)
    requires id.Keyed? && HasId(rows, id)
    ensures HasId(Keep(rows, r => !Candidate(table, r)), id)
  {
    KeepMembers(rows, r => !Candidate(table, r));
    var i :| 0 <= i < |rows| && rows[i].id == id;
    assert rows[i] in Keep(rows, r => !Candidate(table, r));
  }

  ghost predicate AgreeingOf(blocks: Blocks, before: seq<Row>, after: seq<Row>) {
    forall r :: r in after <==> r in before && Agrees(blocks, r)
  }

  // The finished database: the rewritten tables, less the rows that disagree with the stored hash of their height.
  ghost predicate Finished(blocks: Blocks, before: Db, after: Db) {
    exists w: Db ::
      && RewrittenAs(Transactions, before.tx, w.tx) && RewrittenAs(Rewards, before.rewards, w.rewards) && w.events == before.events
      && AgreeingOf(blocks, w.tx, after.tx) && AgreeingOf(blocks, w.rewards, after.rewards) && AgreeingOf(blocks, w.events, after.events)
  }

  lemma DeleteKeepsAgreeing(blocks: Blocks, rows: seq<Row>)
    ensures AgreeingOf(blocks, rows, DeleteForks(blocks, rows))
  {
    KeepMembers(rows, r => !Fork(blocks, r));
    assert forall r :: Fork(blocks, r) <==> !Agrees(blocks, r);
  }

  // COLUMNS, the whole: what is in each table at the end, from the columns alone.
  lemma GoalOnColumns(blocks: Blocks, d: Db)
    ensures Finished(blocks, d, Goal(blocks, d))
  {
    var w := RewriteDb(d);
    RewriteOnColumns(Transactions, d.tx);
    RewriteOnColumns(Rewards, d.rewards);
    DeleteKeepsAgreeing(blocks, w.tx);
    DeleteKeepsAgreeing(blocks, w.rewards);
    DeleteKeepsAgreeing(blocks, w.events);
  }

  // At the goal a chunk delete finds nothing.
  lemma GoalHasNoForks(blocks: Blocks, d: Db, from: nat, to: int)
    requires d == Goal(blocks, d)
    ensures RewriteDb(d) == d && DeleteChunk(blocks, d, from, to) == d
  {
    var w := RewriteDb(d);
    RewriteStep(blocks, d);
    KeepMembers(w.tx, r => !Fork(blocks, r));
    KeepMembers(w.rewards, r => !Fork(blocks, r));
    KeepMembers(w.events, r => !Fork(blocks, r));
    CleanStays(blocks, d);
    KeepAll(d.tx, r => !(Fork(blocks, r) && Within(r, from, to)));
    KeepAll(d.rewards, r => !(Fork(blocks, r) && Within(r, from, to)));
    KeepAll(d.events, r => !(Fork(blocks, r) && Within(r, from, to)));
  }

  // The goal is a fixed point: migrating twice changes nothing.
  lemma GoalTwice(blocks: Blocks, d: Db)
    ensures Goal(blocks, Goal(blocks, d)) == Goal(blocks, d)
  {
    RewriteStep(blocks, d);
    var w := RewriteDb(d);
    KeepMembers(w.tx, r => !Fork(blocks, r));
    KeepMembers(w.rewards, r => !Fork(blocks, r));
    KeepMembers(w.events, r => !Fork(blocks, r));
    ClearIsGoal(blocks, Goal(blocks, d));
  }

  // MIN(block) and MAX(block); rows without a height do not count.
  function MinBlock(rows: seq<Row>): Option<nat> {
    if rows == [] then None
    else
      var rest := MinBlock(rows[1..]);
      if rows[0].block.None? || (rest.Some? && rest.value < rows[0].block.value) then rest else rows[0].block
  }

  function MaxBlock(rows: seq<Row>): Option<nat> {
    if rows == [] then None
    else
      var rest := MaxBlock(rows[1..]);
      if rows[0].block.None? || (rest.Some? && rest.value > rows[0].block.value) then rest else rows[0].block
  }

  // The lowest and the highest height any table has; Number(null) is 0.
  function Lo(d: Db): nat {
    var lo := MinBlock(d.events + d.tx + d.rewards);
    if lo.Some? then lo.value else 0
  }

  function Hi(d: Db): nat {
    var hi := MaxBlock(d.events + d.tx + d.rewards);
    if hi.Some? then hi.value else 0
  }

  lemma {:induction false} BlocksBounded(rows: seq<Row>)
    ensures forall r :: r in rows && r.block.Some? ==>
      && MinBlock(rows).Some? && MinBlock(rows).value <= r.block.value
      && MaxBlock(rows).Some? && r.block.value <= MaxBlock(rows).value
  {
    if rows != [] {
      BlocksBounded(rows[1..]);
    }
  }

  lemma HeightsBounded(d: Db)
    ensures forall r :: InDb(d, r) && r.block.Some? ==> Lo(d) <= r.block.value <= Hi(d)
  {
    BlocksBounded(d.events + d.tx + d.rewards);
    assert forall r :: InDb(d, r) ==> r in d.events + d.tx + d.rewards;
  }

  // The database and the saved progress (the kv key forkDeleteCursor).
  lemma {:induction false} MaxBlockWithin(rows: seq<Row>, hi: nat)
    requires forall r :: r in rows && r.block.Some? ==> r.block.value <= hi
    ensures MaxBlock(rows).Some? ==> MaxBlock(rows).value <= hi
  {
    if rows != [] {
      MaxBlockWithin(rows[1..], hi);
    }
  }

  lemma HeightsWithin(d: Db, hi: nat)
    requires Clean(d) && RewriteDb(d) == d && forall r :: InDb(d, r) && r.block.Some? ==> r.block.value <= hi
    ensures Hi(RewriteDb(d)) <= hi
  {
    MaxBlockWithin(d.events + d.tx + d.rewards, hi);
  }

  // The height from which the next run goes on.
  function Saved(cursor: Option<nat>): nat {
    if cursor.Some? then cursor.value else 0
  }

  class Migration {
    const blocks: Blocks
    var db: Db
    var cursor: Option<nat>

    constructor (blocks: Blocks, db: Db)
      ensures this.blocks == blocks && this.db == db && cursor == None && Valid()
    {
      this.blocks, this.db, this.cursor := blocks, db, None;
    }

    // The saved cursor is past only what was cleared.
    ghost predicate Valid()
      reads this
    {
      cursor.Some? ==> ClearBelow(blocks, RewriteDb(db), cursor.value)
    }

    // One chunk: the fork rows of its heights, deleted in one transaction.
    method CommitChunk(at: nat, end: nat, ghost hi: nat, ghost start: Db)
      requires Valid() && Clean(db) && ClearBelow(blocks, db, at) && at <= end
      requires start == Goal(blocks, start) ==> db == start
      requires forall r :: InDb(db, r) && r.block.Some? ==> r.block.value <= hi
      modifies this`db
      ensures Valid() && Clean(db) && Goal(blocks, db) == Goal(blocks, old(db)) && ClearBelow(blocks, db, end + 1)
      ensures start == Goal(blocks, start) ==> db == start
      ensures forall r :: InDb(db, r) && r.block.Some? ==> r.block.value <= hi
      ensures RewriteDb(db) == db && Hi(db) <= hi
    {
      CleanStays(blocks, db);
      ChunkStep(blocks, db, at, end);
      if start == Goal(blocks, start) {
        GoalHasNoForks(blocks, db, at, end);
      }
      db := DeleteChunk(blocks, db, at, end);
      CleanStays(blocks, db);
      HeightsWithin(db, hi);
    }

    // migrateHashKeyedIds, stopped after `budget` committed writes if it has not finished:
    // the rewrite, each chunk and each saving of the cursor commit on their own.
    method Migrate(chunkBlocks: nat, budget: nat) returns (done: bool)
      requires chunkBlocks >= 1 && Valid()
      modifies this`db, this`cursor
      ensures Valid() && Goal(blocks, db) == Goal(blocks, old(db))
      ensures done ==> db == Goal(blocks, old(db)) && Finished(blocks, old(db), db)
      ensures old(db) == Goal(blocks, old(db)) ==> db == old(db)
      ensures done <== budget >= 1 + 2 * (Hi(RewriteDb(old(db))) + 1)
      ensures Hi(RewriteDb(db)) <= Hi(RewriteDb(old(db)))
      ensures done <== budget >= 1 && Saved(old(cursor)) > Hi(RewriteDb(old(db)))
      ensures budget >= 3 && !done ==> Saved(cursor) > Saved(old(cursor))
      ensures Saved(cursor) >= Saved(old(cursor))
    {
      if budget == 0 {
        return false;
      }
      var left: nat := budget - 1;
      RewriteStep(blocks, db);
      ghost var goal := Goal(blocks, db);
      if db == goal {
        GoalHasNoForks(blocks, db, 0, 0);
      }
      db := RewriteDb(db);
      var lo, hi := Lo(db), Hi(db);
      HeightsBounded(db);
      CleanStays(blocks, db);
      var at: nat := lo;
      if cursor.Some? && cursor.value > at {
        at := cursor.value;
      }
      ghost var from := at;
      while at <= hi
        invariant Clean(db) && Goal(blocks, db) == goal && Valid()
        invariant ClearBelow(blocks, db, at) && from <= at
        invariant forall r :: InDb(db, r) && r.block.Some? ==> r.block.value <= hi
        invariant old(db) == Goal(blocks, old(db)) ==> db == old(db)
        invariant left + 2 * at >= budget - 1
        invariant at == from ==> left == budget - 1 && cursor == old(cursor)
        invariant at > from ==> cursor == Some(at)
        invariant RewriteDb(db) == db && Hi(db) <= hi
        decreases hi - at
      {
        var end := Min(at + chunkBlocks - 1, hi);
        if left == 0 {
          return false;
        }
        left := left - 1;
        CommitChunk(at, end, hi, old(db));
        at := end + 1;
        if left == 0 {
          return false;
        }
        left := left - 1;
        cursor := Some(at);
      }
      ClearIsGoal(blocks, db);
      GoalOnColumns(blocks, old(db));
      done := true;
    }

    // Any schedule of interrupted runs, each with its own chunk size, ends at the goal of the database it started from as
    // soon as one run finishes; later runs change nothing. One finishes once there are more runs than heights, each long
    // enough to save one chunk: a run goes on where the last one stopped.
    method RunSchedule(schedule: seq<(nat, nat)>) returns (done: bool)
      requires Valid() && forall k :: 0 <= k < |schedule| ==> schedule[k].0 >= 1
      modifies this`db, this`cursor
      ensures Valid() && Goal(blocks, db) == Goal(blocks, old(db))
      ensures done ==> db == Goal(blocks, old(db))
      ensures old(db) == Goal(blocks, old(db)) && done ==> db == old(db)
      ensures |schedule| > Hi(RewriteDb(old(db))) + 1 && (forall k :: 0 <= k < |schedule| ==> schedule[k].1 >= 3) ==> done
    {
      done := false;
      for k := 0 to |schedule|
        invariant Valid() && Goal(blocks, db) == Goal(blocks, old(db))
        invariant done ==> db == Goal(blocks, old(db))
        invariant Hi(RewriteDb(db)) <= Hi(RewriteDb(old(db)))
        invariant (forall j :: 0 <= j < k ==> schedule[j].1 >= 3) ==> done || Saved(cursor) >= k
        invariant k > Hi(RewriteDb(old(db))) + 1 && (forall j :: 0 <= j < k ==> schedule[j].1 >= 3) ==> done
      {
        var finished := Migrate(schedule[k].0, schedule[k].1);
        GoalTwice(blocks, old(db));
        done := done || finished;
      }
    }

    // deleteForkRows: at one height, keep only what carries the canonical hash.
    method DeleteForkRows(n: nat, canonical: string) returns (skipped: bool)
      modifies this`db
      ensures skipped <==> !("0x" <= canonical)
      ensures skipped ==> db == old(db)
      ensures !skipped ==>
        && (forall r :: r in db.tx <==> r in old(db).tx && (r.block == Some(n) ==> r.blockHash == Some(canonical)))
        && (forall r :: r in db.rewards <==> r in old(db).rewards && (r.block == Some(n) ==> r.blockHash == Some(canonical)))
        && (forall r :: r in db.events <==> r in old(db).events && (r.block == Some(n) ==> r.blockHash == Some(canonical)))
    {
      if !("0x" <= canonical) {
        return true;
      }
      var keep := (r: Row) => r.block != Some(n) || r.blockHash == Some(canonical);
      KeepMembers(db.tx, keep);
      KeepMembers(db.rewards, keep);
      KeepMembers(db.events, keep);
      db := Db(Keep(db.tx, keep), Keep(db.rewards, keep), Keep(db.events, keep));
      return false;
    }
  }
}
