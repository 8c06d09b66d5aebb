/** Paging through an account's events (db.js): everything, once, newest first. */
module EventPages {
  // accountEventsQuery, countEventsByAddress and the cursor of olderThan: each page merges two limited reads, and the next
  // page starts below its last row.

  import opened Util

  // An event's place in the listing: its block, then its rowid.
  datatype Place = Place(block: nat, rowId: nat)

  // ORDER BY block DESC, rowid DESC.
  predicate Newer(a: Place, b: Place) {
    a.block > b.block || (a.block == b.block && a.rowId > b.rowId)
  }

  // olderThan: block <= b AND (block < b OR rowid < r).
  predicate Below(p: Place, before: Option<Place>) {
    before.Some? ==> p.block <= before.value.block && (p.block < before.value.block || p.rowId < before.value.rowId)
  }

  // signed: the places of the events the account signed; named: of those linked to it.
  datatype Store = Store(signed: set<Place>, named: set<Place>) {
    function All(): set<Place> {
      signed + named
    }
  }

  ghost predicate Descending(s: seq<Place>) {
    forall i, j :: 0 <= i < j < |s| ==> Newer(s[i], s[j])
  }

  ghost predicate Tops(p: Place, rows: set<Place>) {
    p in rows && forall q :: q in rows && q != p ==> Newer(p, q)
  }

  lemma {:induction false} NewestExists(rows: set<Place>)
    requires rows != {}
    ensures exists p :: Tops(p, rows)
  {
    var p :| p in rows;
    if rows == {p} {
      assert Tops(p, rows);
    } else {
      NewestExists(rows - {p});
      var q :| Tops(q, rows - {p});
      var best := if Newer(p, q) then p else q;
      forall r | r in rows && r != best ensures Newer(best, r) {
        assert r == p || r == q || (r in rows - {p} && Newer(q, r));
      }
      assert Tops(best, rows);
    }
  }

  ghost function Elements(s: seq<Place>): set<Place> {
    set p | p in s
  }

  ghost predicate Lists(s: seq<Place>, rows: set<Place>) {
    Descending(s) && Elements(s) == rows
  }

  lemma {:induction false} ListingExists(rows: set<Place>)
    ensures exists s :: Lists(s, rows)
  {
    if rows == {} {
      assert Lists([], rows);
    } else {
      NewestExists(rows);
      var p :| Tops(p, rows);
      ListingExists(rows - {p});
      var t :| Lists(t, rows - {p});
      assert Elements([p] + t) == {p} + Elements(t);
      assert forall i :: 0 <= i < |t| ==> t[i] in Elements(t);
      assert Lists([p] + t, rows);
    }
  }

  // The rows in listing order, all of them.
  ghost function Listing(rows: set<Place>): (s: seq<Place>)
    ensures Lists(s, rows)
  {
    ListingExists(rows);
    var s :| Lists(s, rows);
    s
  }

  ghost function Older(rows: set<Place>, before: Option<Place>): set<Place> {
    set p | p in rows && Below(p, before)
  }

  // One branch: its newest `limit` rows below the cursor.
  ghost function Branch(rows: set<Place>, before: Option<Place>, limit: nat): set<Place> {
    Elements(Take(Listing(Older(rows, before)), limit))
  }

  // The page query: the UNION of both branches, and again its newest `limit`.
  ghost function Page(st: Store, before: Option<Place>, limit: nat): seq<Place> {
    Take(Listing(Branch(st.signed, before, limit) + Branch(st.named, before, limit)), limit)
  }

  // Following the cursor: each page is read from the store as it is at that time, below the last row of the page
  // before; an empty page ends it.
  ghost function Follow(stores: seq<Store>, before: Option<Place>, limit: nat): seq<Place> {
    if stores == [] then []
    else
      var page := Page(stores[0], before, limit);
      if page == [] then [] else page + Follow(stores[1..], Some(page[|page| - 1]), limit)
  }

  // ---- a listing is unique -------------------------------------------

  lemma ListTail(s: seq<Place>, rows: set<Place>)
    requires Lists(s, rows) && s != []
    ensures Tops(s[0], rows) && Lists(s[1..], rows - {s[0]})
  {
    assert s[0] in Elements(s);
    forall p | p in rows && p != s[0] ensures p in s[1..] && Newer(s[0], p) {
      assert p in Elements(s);
      var k :| 0 <= k < |s| && s[k] == p;
      assert s[1..][k - 1] == p;
    }
    forall p | p in s[1..] ensures p in rows && p != s[0] {
      var k :| 0 <= k < |s[1..]| && s[1..][k] == p;
      assert s[k + 1] == p && p in Elements(s);
    }
    assert Elements(s[1..]) == rows - {s[0]};
  }

  lemma ListsNone(s: seq<Place>, rows: set<Place>)
    requires Lists(s, rows)
    ensures s == [] <==> rows == {}
  {
    assert s != [] ==> s[0] in Elements(s);
  }

  lemma {:induction false} ListsUnique(a: seq<Place>, b: seq<Place>, rows: set<Place>)
    requires Lists(a, rows) && Lists(b, rows)
    ensures a == b
  {
    ListsNone(a, rows);
    ListsNone(b, rows);
    if rows != {} {
      ListTail(a, rows);
      ListTail(b, rows);
      assert a[0] == b[0];
      ListsUnique(a[1..], b[1..], rows - {a[0]});
    }
  }

  lemma {:induction false} ListsCount(s: seq<Place>, rows: set<Place>)
    requires Lists(s, rows)
    ensures |s| == |rows|
  {
    if s == [] {
      assert rows == {};
    } else {
      ListTail(s, rows);
      ListsCount(s[1..], rows - {s[0]});
    }
  }

  lemma JoinLists(a: seq<Place>, b: seq<Place>, newer: set<Place>, older: set<Place>)
    requires Lists(a, newer) && Lists(b, older)
    requires forall p, q :: p in newer && q in older ==> Newer(p, q)
    ensures Lists(a + b, newer + older)
  {
    forall i, j | 0 <= i < j < |a + b| ensures Newer((a + b)[i], (a + b)[j]) {
      assert i < |a| ==> a[i] in Elements(a);
      assert j >= |a| ==> b[j - |a|] in Elements(b);
    }
    assert Elements(a + b) == Elements(a) + Elements(b);
  }

  // ---- one page ------------------------------------------------------

  // The newest `limit` rows, as a set: inside the rows, newer than the others, as many as there can be.
  ghost predicate Newest(top: set<Place>, rows: set<Place>, limit: nat) {
    && top <= rows
    && (forall p, q :: p in top && q in rows - top ==> Newer(p, q))
    && (|top| == limit || (top == rows && |top| <= limit))
  }

  lemma TakeIsNewest(rows: set<Place>, limit: nat)
    ensures Newest(Elements(Take(Listing(rows), limit)), rows, limit)
    ensures Lists(Take(Listing(rows), limit), Elements(Take(Listing(rows), limit)))
  {
    var s := Listing(rows);
    var k := |Take(s, limit)|;
    assert Take(s, limit) == s[..k];
    ListsCount(s[..k], Elements(s[..k]));
  }

  lemma NewestUnique(a: set<Place>, b: set<Place>, rows: set<Place>, limit: nat)
    requires Newest(a, rows, limit) && Newest(b, rows, limit)
    ensures a == b
  {
    SubsetCount(a, rows);
    SubsetCount(b, rows);
    if a <= b {
      SubsetCount(a, b);
    } else {
      var p :| p in a && p !in b;
      forall q | q in b ensures q in a {
        assert q !in a ==> Newer(p, q) && Newer(q, p);
      }
      SubsetCount(b, a);
    }
  }

  // A row among the newest of the whole is among the newest of its branch.
  lemma NewestOfPart(whole: set<Place>, rows: set<Place>, part: set<Place>, top: set<Place>, limit: nat)
    requires rows <= whole && Newest(top, whole, limit) && Newest(part, rows, limit)
    ensures top * rows <= part
  {
    if p :| p in top * rows && p !in part {
      forall q | q in part ensures q in top {
        assert Newer(q, p);
        assert q !in top ==> Newer(p, q);
      }
      SubsetCount(part + {p}, top);
    }
  }

  // MERGE: two limited reads lose nothing: the page is the newest `limit` rows of both sources below the cursor.
  lemma PageIsNewest(st: Store, before: Option<Place>, limit: nat)
    ensures Newest(Elements(Page(st, before, limit)), Older(st.All(), before), limit)
    ensures Page(st, before, limit) == Take(Listing(Older(st.All(), before)), limit)
  {
    var a, b, all := Older(st.signed, before), Older(st.named, before), Older(st.All(), before);
    var topA, topB := Branch(st.signed, before, limit), Branch(st.named, before, limit);
    var top := Elements(Take(Listing(all), limit));
    var page := Elements(Page(st, before, limit));
    TakeIsNewest(a, limit);
    TakeIsNewest(b, limit);
    TakeIsNewest(all, limit);
    TakeIsNewest(topA + topB, limit);
    assert all == a + b;
    NewestOfPart(all, a, topA, top, limit);
    NewestOfPart(all, b, topB, top, limit);
    assert top <= topA + topB <= all;
    assert Newest(top, topA + topB, limit) by {
      if |top| != limit {
        assert topA + topB == all;
      }
    }
    NewestUnique(page, top, topA + topB, limit);
    ListsUnique(Page(st, before, limit), Take(Listing(all), limit), top);
  }

  // ---- every page ----------------------------------------------------

  ghost predicate Growing(stores: seq<Store>) {
    forall i, j :: 0 <= i < j < |stores| ==> stores[i].All() <= stores[j].All()
  }

  lemma GrowingTail(stores: seq<Store>)
    requires Growing(stores) && stores != []
    ensures Growing(stores[1..])
    ensures |stores| > 1 ==> stores[0].All() <= stores[1..][0].All() && stores[1..][|stores| - 2] == stores[|stores| - 1]
  {
  }

  ghost function Last(page: seq<Place>): Option<Place>
    requires page != []
  {
    Some(page[|page| - 1])
  }

  // The page and what lies below its last row split what lies below the cursor.
  ghost predicate Splits(page: seq<Place>, view: set<Place>, rest: set<Place>) {
    && page != [] && Lists(page, Elements(page))
    && Elements(page) <= view && rest == view - Elements(page)
    && forall p, q :: p in Elements(page) && q in rest ==> Newer(p, q)
  }

  lemma LastIsOldest(page: seq<Place>, p: Place)
    requires Descending(page) && page != [] && Below(p, Last(page))
    ensures forall q :: q in Elements(page) ==> Newer(q, p)
  {
    forall q | q in Elements(page) ensures Newer(q, p) {
      var i :| 0 <= i < |page| && page[i] == q;
      assert i < |page| - 1 ==> Newer(q, page[|page| - 1]);
    }
  }

  lemma PageSplits(st: Store, before: Option<Place>, limit: nat)
    requires limit > 0
    ensures var page, view := Page(st, before, limit), Older(st.All(), before);
            && Descending(page)
            && (page == [] <==> view == {})
            && (page != [] ==> Splits(page, view, Older(st.All(), Last(page))))
  {
    var page, view := Page(st, before, limit), Older(st.All(), before);
    PageIsNewest(st, before, limit);
    TakeIsNewest(view, limit);
    if page != [] {
      var last := page[|page| - 1];
      assert last in Elements(page);
      var rest := Older(st.All(), Last(page));
      forall p ensures p in rest <==> p in view - Elements(page) {
        if p in rest {
          LastIsOldest(page, p);
          assert p in Elements(page) ==> Newer(p, p);
        }
        if p in view - Elements(page) {
          assert Newer(last, p);
        }
      }
      assert rest == view - Elements(page);
    }
    ListsNone(page, Elements(page));
    ListsNone(Listing(view), view);
  }

  // ONCE: whatever is inserted between pages, no row is listed twice, the order is strictly newest first, and every
  // row listed was stored by the end.
  lemma {:induction false} FollowDescends(stores: seq<Store>, before: Option<Place>, limit: nat)
    requires limit > 0 && Growing(stores) && stores != []
    ensures Descending(Follow(stores, before, limit))
    ensures Elements(Follow(stores, before, limit)) <= Older(stores[|stores| - 1].All(), before)
  {
    var page, end := Page(stores[0], before, limit), stores[|stores| - 1];
    FirstPageStaysBelow(stores, before, limit);
    if page != [] {
      var rest := if |stores| > 1 then Follow(stores[1..], Last(page), limit) else [];
      if |stores| > 1 {
        GrowingTail(stores);
        FollowDescends(stores[1..], Last(page), limit);
      }
      JoinBelow(page, rest, end, before);
      assert Follow(stores, before, limit) == page + rest;
    }
  }

  lemma FirstPageStaysBelow(stores: seq<Store>, before: Option<Place>, limit: nat)
    requires limit > 0 && Growing(stores) && stores != []
    ensures var page := Page(stores[0], before, limit);
            Descending(page) && Elements(page) <= Older(stores[|stores| - 1].All(), before)
  {
    PageSplits(stores[0], before, limit);
    assert stores[0].All() <= stores[|stores| - 1].All();
  }

  lemma JoinBelow(page: seq<Place>, rest: seq<Place>, end: Store, before: Option<Place>)
    requires page != [] && Descending(page) && Descending(rest)
    requires Elements(page) <= Older(end.All(), before)
    requires Elements(rest) <= Older(end.All(), Last(page))
    ensures Descending(page + rest) && Elements(page + rest) <= Older(end.All(), before)
  {
    assert page[|page| - 1] in Elements(page);
    forall p | p in Elements(rest) ensures (forall q :: q in Elements(page) ==> Newer(q, p)) && Below(p, before) {
      LastIsOldest(page, p);
    }
    JoinLists(page, rest, Elements(page), Elements(rest));
    assert Elements(page + rest) == Elements(page) + Elements(rest);
  }

  // COMPLETE: when more pages were read than rows lie below the cursor in the last store (so the last page came
  // back empty), every row that was stored before the first page is listed.
  lemma {:induction false} FollowIsComplete(stores: seq<Store>, before: Option<Place>, limit: nat)
    requires limit > 0 && Growing(stores) && stores != []
    requires |stores| > |Older(stores[|stores| - 1].All(), before)|
    ensures Older(stores[0].All(), before) <= Elements(Follow(stores, before, limit))
  {
    var st, end := stores[0], stores[|stores| - 1];
    var page := Page(st, before, limit);
    PageSplits(st, before, limit);
    if page != [] {
      var next := Last(page);
      GrowingTail(stores);
      ViewShrinks(page, end, before);
      SubsetCount({}, Older(end.All(), next));
      FollowIsComplete(stores[1..], next, limit);
      FollowElements(stores, before, limit);
      assert Older(st.All(), before) <= Elements(page) + Older(st.All(), next);
    }
  }

  lemma FollowElements(stores: seq<Store>, before: Option<Place>, limit: nat)
    requires stores != [] && Page(stores[0], before, limit) != []
    ensures var page := Page(stores[0], before, limit);
            Elements(Follow(stores, before, limit)) == Elements(page) + Elements(Follow(stores[1..], Last(page), limit))
  {
    var page := Page(stores[0], before, limit);
    var rest := Follow(stores[1..], Last(page), limit);
    assert Elements(page + rest) == Elements(page) + Elements(rest);
  }

  // There is less below a page's last row than below its cursor, and so another page to read.
  lemma ViewShrinks(page: seq<Place>, end: Store, before: Option<Place>)
    requires page != [] && Descending(page) && Elements(page) <= Older(end.All(), before)
    ensures |Older(end.All(), Last(page))| < |Older(end.All(), before)|
  {
    var newest, last := page[0], page[|page| - 1];
    assert newest in Elements(page) && last in Elements(page);
    forall p | p in Older(end.All(), Last(page)) ensures p in Older(end.All(), before) && p != newest {
      LastIsOldest(page, p);
    }
    SubsetCount(Older(end.All(), Last(page)) + {newest}, Older(end.All(), before));
  }

  ghost predicate SameView(stores: seq<Store>, before: Option<Place>, view: set<Place>) {
    forall i :: 0 <= i < |stores| ==> Older(stores[i].All(), before) == view
  }

  lemma SameViewTail(stores: seq<Store>, before: Option<Place>, view: set<Place>, page: seq<Place>)
    requires stores != [] && SameView(stores, before, view)
    requires page != [] && Below(page[|page| - 1], before)
    ensures SameView(stores[1..], Last(page), Older(stores[0].All(), Last(page)))
  {
    forall i | 0 <= i < |stores[1..]| ensures Older(stores[1..][i].All(), Last(page)) == Older(stores[0].All(), Last(page)) {
      SameViewDeeper(stores[i + 1], stores[0], before, page);
    }
  }

  lemma RestIsSmaller(page: seq<Place>, view: set<Place>, rest: set<Place>)
    requires Splits(page, view, rest)
    ensures |rest| < |view|
  {
    assert page[0] in Elements(page);
    SubsetCount(rest + {page[0]}, view);
  }

  // EXACT: while nothing appears below the cursor, the pages spell out the listing of the rows that were there.
  lemma {:induction false} FollowIsListing(stores: seq<Store>, before: Option<Place>, limit: nat, view: set<Place>)
    requires limit > 0 && SameView(stores, before, view) && |stores| > |view|
    ensures Follow(stores, before, limit) == Listing(view)
  {
    var page := Page(stores[0], before, limit);
    PageSplits(stores[0], before, limit);
    if page != [] {
      var rest := Older(stores[0].All(), Last(page));
      assert page[|page| - 1] in Elements(page);
      SameViewTail(stores, before, view, page);
      RestIsSmaller(page, view, rest);
      FollowIsListing(stores[1..], Last(page), limit, rest);
      ListingOfSplit(page, view, rest);
    } else {
      ListsNone(Listing(view), view);
    }
  }

  lemma ListingOfSplit(page: seq<Place>, view: set<Place>, rest: set<Place>)
    requires Splits(page, view, rest)
    ensures Listing(view) == page + Listing(rest)
  {
    assert view == Elements(page) + rest;
    JoinLists(page, Listing(rest), Elements(page), rest);
    ListsUnique(Listing(view), page + Listing(rest), view);
  }

  lemma SameViewDeeper(a: Store, b: Store, before: Option<Place>, page: seq<Place>)
    requires Older(a.All(), before) == Older(b.All(), before)
    requires page != [] && Below(page[|page| - 1], before)
    ensures Older(a.All(), Last(page)) == Older(b.All(), Last(page))
  {
    forall p ensures p in Older(a.All(), Last(page)) <==> p in Older(b.All(), Last(page)) {
      if Below(p, Last(page)) {
        assert p in Older(a.All(), before) <==> p in Older(b.All(), before);
      }
    }
  }

  // What was stored after the first page is newer than everything that was stored before it.
  ghost predicate OnlyNewer(before: set<Place>, after: set<Place>) {
    before <= after && forall p, q :: p in after - before && q in before ==> Newer(p, q)
  }

  lemma NewerIsAbove(rows: set<Place>, later: set<Place>, last: Place)
    requires OnlyNewer(rows, later) && last in rows
    ensures Older(later, Some(last)) == Older(rows, Some(last))
  {
    forall p | p in Older(later, Some(last)) ensures p in rows {
      assert p !in rows ==> p in later - rows && Newer(p, last);
    }
  }

  lemma RestIsSame(stores: seq<Store>, page: seq<Place>)
    requires stores != [] && page != [] && Elements(page) <= stores[0].All()
    requires forall i :: 0 <= i < |stores| ==> OnlyNewer(stores[0].All(), stores[i].All())
    ensures SameView(stores[1..], Last(page), Older(stores[0].All(), Last(page)))
  {
    assert page[|page| - 1] in Elements(page);
    forall i | 0 <= i < |stores[1..]| ensures Older(stores[1..][i].All(), Last(page)) == Older(stores[0].All(), Last(page)) {
      NewerIsAbove(stores[0].All(), stores[i + 1].All(), page[|page| - 1]);
    }
  }

  // HEAD: while the store only gains rows newer than all it had (the indexer at the head), the pages spell out
  // exactly what was stored when the reader started.
  lemma NewRowsDoNotDisturb(stores: seq<Store>, limit: nat)
    requires limit > 0 && stores != [] && |stores| > |stores[0].All()|
    requires forall i :: 0 <= i < |stores| ==> OnlyNewer(stores[0].All(), stores[i].All())
    ensures Follow(stores, None, limit) == Listing(stores[0].All())
  {
    var st := stores[0];
    var page := Page(st, None, limit);
    PageSplits(st, None, limit);
    assert Older(st.All(), None) == st.All();
    if page != [] {
      var rest := Older(st.All(), Last(page));
      RestIsSame(stores, page);
      RestIsSmaller(page, st.All(), rest);
      FollowIsListing(stores[1..], Last(page), limit, rest);
      ListingOfSplit(page, st.All(), rest);
    } else {
      ListsNone(Listing(st.All()), st.All());
    }
  }

  // ---- the total -----------------------------------------------------

  // countEventsByAddress: two index counts, added.
  function CountEvents(st: Store): nat {
    |st.signed| + |st.named|
  }

  lemma UnionCount(a: set<Place>, b: set<Place>)
    ensures |a| + |b| == |a + b| + |a * b|
  {
    assert a + b == a + (b - a) && b == (b - a) + a * b;
  }

  // TOTAL: the sum exceeds the number of rows listed by the rows that are both signed and linked: it is exact if and
  // only if there are none.
  lemma CountIsTotal(st: Store)
    ensures CountEvents(st) == |Listing(st.All())| + |st.signed * st.named|
    ensures CountEvents(st) == |Listing(st.All())| <==> st.signed !! st.named
  {
    ListsCount(Listing(st.All()), st.All());
    UnionCount(st.signed, st.named);
    if st.signed !! st.named {
      assert st.signed * st.named == {};
    } else {
      var p :| p in st.signed && p in st.named;
      SubsetCount({p}, st.signed * st.named);
    }
  }
}
