/**
 Storing events with their account links (insertEvents in db.js): an event already stored
 keeps its row, and its links are keyed by that row. Storing again changes nothing, and the
 join the account page reads by never drops a link.
 */
module EventTable {
  import opened Util

  datatype Row = Row(rowId: nat, block: Option<nat>)

  datatype Link = Link(account: string, block: nat, rowId: nat, hash: string)

  // hash: None for a falsy one.
  datatype Event = Event(hash: Option<string>, block: Option<nat>, accounts: seq<string>)

  // events by hash; top: the largest row id given out.
  datatype Db = Db(events: map<string, Row>, links: set<Link>, top: nat)

  // linkEvent.
  function LinksOf(e: Event, hash: string, rowId: nat): set<Link> {
    if e.block.None? then {} else set a | a in e.accounts :: Link(a, e.block.value, rowId, hash)
  }

  function Stored(db: Db, e: Event): Db {
    if e.hash.None? then db
    else if e.hash.value in db.events then db.(links := db.links + LinksOf(e, e.hash.value, db.events[e.hash.value].rowId))
    else Db(db.events[e.hash.value := Row(db.top + 1, e.block)], db.links + LinksOf(e, e.hash.value, db.top + 1), db.top + 1)
  }

  function StoredAll(db: Db, list: seq<Event>): Db {
    if list == [] then db else Stored(StoredAll(db, list[..|list| - 1]), list[|list| - 1])
  }

  class Table {
    var events: map<string, Row>
    var links: set<Link>
    var top: nat

    ghost function Value(): Db
      reads this
    {
      Db(events, links, top)
    }

    // insertEvents: one transaction.
    method InsertEvents(list: seq<Event>)
      modifies this
      ensures Value() == StoredAll(old(Value()), list)
    {
      for i := 0 to |list|
        invariant Value() == StoredAll(old(Value()), list[..i])
      {
        assert list[..i + 1][..i] == list[..i];
        var e := list[i];
        if e.hash.Some? {
          var hash := e.hash.value;
          var rowId: nat;
          if hash in events {
            rowId := events[hash].rowId;
          } else {
            top := top + 1;
            rowId := top;
            events := events[hash := Row(rowId, e.block)];
          }
          if e.block.Some? {
            links := links + set a | a in e.accounts :: Link(a, e.block.value, rowId, hash);
          }
        }
      }
      assert list[..|list|] == list;
    }
  }

  // ---- storing again -------------------------------------------------

  // What is stored stays: rows are never changed or moved, links never removed.
  lemma {:induction false} StoringOnlyAdds(db: Db, list: seq<Event>)
    ensures var after := StoredAll(db, list);
            && (forall h :: h in db.events ==> h in after.events && after.events[h] == db.events[h])
            && db.links <= after.links && db.top <= after.top
  {
    if list != [] {
      StoringOnlyAdds(db, list[..|list| - 1]);
    }
  }

  // This event is in the table with all its links.
  ghost predicate Holds(db: Db, e: Event) {
    e.hash.Some? ==> e.hash.value in db.events && LinksOf(e, e.hash.value, db.events[e.hash.value].rowId) <= db.links
  }

  lemma {:induction false} StoredHolds(db: Db, list: seq<Event>)
    ensures forall e :: e in list ==> Holds(StoredAll(db, list), e)
  {
    if list != [] {
      var front, last := list[..|list| - 1], list[|list| - 1];
      StoredHolds(db, front);
      forall e | e in list ensures Holds(StoredAll(db, list), e) {
        assert e in front || e == last;
      }
    }
  }

  lemma {:induction false} HeldChangesNothing(db: Db, list: seq<Event>)
    requires forall e :: e in list ==> Holds(db, e)
    ensures StoredAll(db, list) == db
  {
    if list != [] {
      HeldChangesNothing(db, list[..|list| - 1]);
      assert Holds(db, list[|list| - 1]);
      if list[|list| - 1].hash.Some? {
        var e := list[|list| - 1];
        assert db.links + LinksOf(e, e.hash.value, db.events[e.hash.value].rowId) == db.links;
      }
    }
  }

  // AGAIN: storing any of a list's events again, in any order and number, changes nothing.
  lemma StoringAgainIsIdle(db: Db, list: seq<Event>, again: seq<Event>)
    requires forall e :: e in again ==> e in list
    ensures StoredAll(StoredAll(db, list), again) == StoredAll(db, list)
  {
    StoredHolds(db, list);
    HeldChangesNothing(StoredAll(db, list), again);
  }

  // LINKED: storing a list adds exactly one link for each account of each of its events that has a hash and a block, keyed
  // by the row the table holds for the hash.
  lemma {:induction false} LinksAreAccounts(db: Db, list: seq<Event>, l: Link)
    ensures var after := StoredAll(db, list);
            l in after.links <==> l in db.links || exists e :: e in list && NamesLink(e, after, l)
  {
    if list != [] {
      var front, last := list[..|list| - 1], list[|list| - 1];
      var mid, after := StoredAll(db, front), StoredAll(db, list);
      LinksAreAccounts(db, front, l);
      StoringOnlyAdds(mid, [last]);
      assert [last][..0] == [];
      RowsOfStored(db, front);
      assert list == front + [last];
      assert forall e :: e in front ==> (NamesLink(e, after, l) <==> NamesLink(e, mid, l));
      assert last in list;
    }
  }

  ghost predicate NamesLink(e: Event, db: Db, l: Link) {
    && e.hash == Some(l.hash) && e.block == Some(l.block) && l.account in e.accounts
    && l.hash in db.events && l.rowId == db.events[l.hash].rowId
  }

  lemma {:induction false} RowsOfStored(db: Db, list: seq<Event>)
    ensures forall e :: e in list && e.hash.Some? ==> e.hash.value in StoredAll(db, list).events
  {
    if list != [] {
      RowsOfStored(db, list[..|list| - 1]);
    }
  }

  // ---- the join ------------------------------------------------------

  // event_accounts JOIN events ON rowid AND hash keeps every link; rows are numbered apart.
  ghost predicate Joins(db: Db) {
    && (forall l :: l in db.links ==> l.hash in db.events && db.events[l.hash].rowId == l.rowId)
    && (forall h :: h in db.events ==> db.events[h].rowId <= db.top)
    && (forall g, h :: g in db.events && h in db.events && g != h ==> db.events[g].rowId != db.events[h].rowId)
  }

  // JOIN: over any sequence of inserts the join loses no link, no two events share a row, and rows are numbered without
  // gaps.
  lemma {:induction false} InsertsKeepJoin(db: Db, list: seq<Event>)
    requires Joins(db)
    ensures Joins(StoredAll(db, list))
    ensures db.top == |db.events| ==> StoredAll(db, list).top == |StoredAll(db, list).events|
  {
    if list != [] {
      InsertsKeepJoin(db, list[..|list| - 1]);
    }
  }

  // A hash names one event of one block.
  ghost predicate OneBlockEach(list: seq<Event>) {
    forall d, e :: d in list && e in list && d.hash.Some? && d.hash == e.hash ==> d.block == e.block
  }

  ghost predicate LinkBlocksAgree(db: Db) {
    forall l :: l in db.links && l.hash in db.events ==> db.events[l.hash].block == Some(l.block)
  }

  // ORDER: while a hash names one block, a link's own block, which orders and pages the linked branch, is its event's.
  lemma {:induction false} LinksCarryTheirBlock(list: seq<Event>)
    requires OneBlockEach(list)
    ensures var db := StoredAll(Db(map[], {}, 0), list);
            LinkBlocksAgree(db) && RowsAreFrom(db, list)
  {
    if list != [] {
      var front, last := list[..|list| - 1], list[|list| - 1];
      LinksCarryTheirBlock(front);
      InsertsKeepJoin(Db(map[], {}, 0), front);
      assert list == front + [last];
      OneMoreCarries(StoredAll(Db(map[], {}, 0), front), front, last);
    }
  }

  ghost predicate RowsAreFrom(db: Db, list: seq<Event>) {
    forall h :: h in db.events ==> exists e :: e in list && e.hash == Some(h) && e.block == db.events[h].block
  }

  lemma OneMoreCarries(db: Db, front: seq<Event>, last: Event)
    requires OneBlockEach(front + [last]) && LinkBlocksAgree(db) && RowsAreFrom(db, front)
    requires forall l :: l in db.links ==> l.hash in db.events
    ensures LinkBlocksAgree(Stored(db, last)) && RowsAreFrom(Stored(db, last), front + [last])
  {
    var after, list := Stored(db, last), front + [last];
    assert last in list;
    forall h | h in after.events ensures exists e :: e in list && e.hash == Some(h) && e.block == after.events[h].block {
      if h in db.events {
        var e :| e in front && e.hash == Some(h) && e.block == db.events[h].block;
        assert e in list;
      }
    }
    forall l | l in after.links && l.hash in after.events ensures after.events[l.hash].block == Some(l.block) {
      if l !in db.links {
        var e :| e in list && e.hash == Some(l.hash) && e.block == after.events[l.hash].block;
        assert last.hash == Some(l.hash);
      }
    }
  }
}
