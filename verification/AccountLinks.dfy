/** The accounts an event names, and the backfill of their links (lib/account-links.js). */
module AccountLinks {
  // The backfill gives old events their links chunk by chunk, through crashes, while new blocks arrive. It ends with the
  // links one pass over everything would give.

  import opened Util
  import Pages = EventPages

  datatype Kind = PayoutStarted | Rewarded | Reward | Deposit | Locked | TransactionPayment | SomeOffline | Other

  // named: the address-shaped strings of the decoded data; offline: the validators of an imOnline.SomeOffline;
  // accounts: what attachAccounts sets.
  datatype Event = Event(rowId: nat, block: nat, extrinsicIndex: Option<nat>, signer: Option<string>, kind: Kind,
                         named: seq<string>, offline: seq<string>, accounts: seq<string>)

  // normalize is None where the source's throws or is falsy.
  datatype Rules = Rules(normalize: string -> Option<string>, treasury: Option<string>)

  // An extrinsic, by its block and index.
  type Extrinsic = (nat, Option<nat>)

  function ExtrinsicOf(e: Event): Extrinsic {
    (e.block, e.extrinsicIndex)
  }

  predicate IsPayout(kind: Kind) {
    kind in {PayoutStarted, Rewarded, Reward}
  }

  predicate IsReward(e: Event) {
    e.extrinsicIndex.Some? && e.kind in {Rewarded, Reward}
  }

  predicate Signed(e: Event) {
    e.extrinsicIndex.Some? && e.signer.Some? && e.signer.value != "" && e.signer.value != "System"
  }

  // The extrinsics that pay a reward.
  function Payouts(events: seq<Event>): set<Extrinsic> {
    set e | e in events && IsReward(e) :: ExtrinsicOf(e)
  }

  // Rules 2 and 3: events no account is linked to.
  predicate Skipped(e: Event, payouts: set<Extrinsic>) {
    || IsPayout(e.kind)
    || (Signed(e) && e.kind == TransactionPayment)
    || (e.kind in {Deposit, Locked} && ExtrinsicOf(e) in payouts)
  }

  // Rules 1 and 2: the accounts never linked to this event.
  function Dropped(e: Event, rules: Rules): set<string> {
    (if Signed(e) && rules.normalize(e.signer.value).Some? then {rules.normalize(e.signer.value).value} else {})
    + (if Signed(e) && e.kind == Deposit && rules.treasury.Some? && rules.normalize(rules.treasury.value).Some?
       then {rules.normalize(rules.treasury.value).value} else {})
  }

  function Strings(e: Event, payouts: set<Extrinsic>): seq<string> {
    if Skipped(e, payouts) then [] else if e.kind == SomeOffline then e.offline else e.named
  }

  // The normalised accounts, each once, without the dropped ones.
  function Collect(strings: seq<string>, dropped: set<string>, rules: Rules): seq<string> {
    if strings == [] then []
    else
      var front := Collect(strings[..|strings| - 1], dropped, rules);
      var a := rules.normalize(strings[|strings| - 1]);
      if a.Some? && a.value !in dropped && a.value !in front then front + [a.value] else front
  }

  function AccountsOf(e: Event, payouts: set<Extrinsic>, rules: Rules): seq<string> {
    Collect(Strings(e, payouts), Dropped(e, rules), rules)
  }

  function Attached(events: seq<Event>, rules: Rules): seq<Event> {
    seq(|events|, i requires 0 <= i < |events| => events[i].(accounts := AccountsOf(events[i], Payouts(events), rules)))
  }

  // ---- attachAccounts ------------------------------------------------

  ghost predicate Remembers(memo: map<string, Option<string>>, rules: Rules) {
    forall s :: s in memo ==> memo[s] == rules.normalize(s)
  }

  // canon: normalize, remembered.
  method Canon(s: string, memo: map<string, Option<string>>, rules: Rules)
    returns (a: Option<string>, seen: map<string, Option<string>>)
    requires Remembers(memo, rules)
    ensures a == rules.normalize(s) && Remembers(seen, rules)
  {
    seen := if s in memo then memo else memo[s := rules.normalize(s)];
    a := seen[s];
  }

  method CollectAccounts(strings: seq<string>, dropped: set<string>, memo: map<string, Option<string>>, rules: Rules)
    returns (accounts: seq<string>, seen: map<string, Option<string>>)
    requires Remembers(memo, rules)
    ensures accounts == Collect(strings, dropped, rules) && Remembers(seen, rules)
  {
    accounts, seen := [], memo;
    for i := 0 to |strings|
      invariant accounts == Collect(strings[..i], dropped, rules) && Remembers(seen, rules)
    {
      assert strings[..i + 1][..i] == strings[..i];
      var a: Option<string>;
      a, seen := Canon(strings[i], seen, rules);
      if a.Some? && a.value !in dropped && a.value !in accounts {
        accounts := accounts + [a.value];
      }
    }
    assert strings[..|strings|] == strings;
  }

  method PayoutExtrinsics(events: array<Event>) returns (payouts: set<Extrinsic>)
    ensures payouts == Payouts(events[..])
  {
    payouts := {};
    for i := 0 to events.Length
      invariant payouts == Payouts(events[..i])
    {
      assert events[..i + 1] == events[..i] + [events[i]];
      if IsReward(events[i]) {
        payouts := payouts + {ExtrinsicOf(events[i])};
      }
    }
    assert events[..events.Length] == events[..];
  }

  // attachAccounts: sets the accounts of every event, in place.
  method AttachAccounts(events: array<Event>, rules: Rules)
    modifies events
    ensures events[..] == Attached(old(events[..]), rules)
  {
    var payouts := PayoutExtrinsics(events);
    var seen: map<string, Option<string>> := map[];
    ghost var was := events[..];
    for i := 0 to events.Length
      invariant Remembers(seen, rules)
      invariant events[..i] == Attached(was, rules)[..i] && events[i..] == was[i..]
    {
      var e := events[i];
      assert e == was[i];
      var accounts: seq<string>;
      accounts, seen := CollectAccounts(Strings(e, payouts), Dropped(e, rules), seen, rules);
      events[i] := e.(accounts := accounts);
      assert events[..i + 1] == events[..i] + [events[i]];
    }
  }

  // ---- what is linked ------------------------------------------------

  lemma {:induction false} CollectMembers(strings: seq<string>, dropped: set<string>, rules: Rules)
    ensures var got := Collect(strings, dropped, rules);
            && (forall a :: a in got ==> a !in dropped && exists s :: s in strings && rules.normalize(s) == Some(a))
            && (forall s :: s in strings && rules.normalize(s).Some? && rules.normalize(s).value !in dropped ==> rules.normalize(s).value in got)
            && (forall i, j :: 0 <= i < j < |got| ==> got[i] != got[j])
  {
    if strings != [] {
      var front, last := strings[..|strings| - 1], strings[|strings| - 1];
      CollectMembers(front, dropped, rules);
      assert strings == front + [last];
      forall a | a in Collect(strings, dropped, rules) ensures exists s :: s in strings && rules.normalize(s) == Some(a) {
        if a in Collect(front, dropped, rules) {
          var s :| s in front && rules.normalize(s) == Some(a);
          assert s in strings;
        } else {
          assert last in strings && rules.normalize(last) == Some(a);
        }
      }
    }
  }

  // ---- which accounts an event is linked to, on its columns -----------

  predicate OfSignedExtrinsic(e: Event) {
    e.extrinsicIndex.Some? && e.signer.Some? && e.signer.value !in {"", "System"}
  }

  ghost predicate InPayingExtrinsic(e: Event, events: seq<Event>) {
    exists f :: f in events && f.kind in {Rewarded, Reward}
      && f.block == e.block && f.extrinsicIndex.Some? && f.extrinsicIndex == e.extrinsicIndex
  }

  ghost predicate Names(strings: seq<string>, rules: Rules, a: string) {
    exists s :: s in strings && rules.normalize(s) == Some(a)
  }

  // The four rules: fee plumbing, payouts, the signer, the fee's deposit.
  ghost predicate Excluded(e: Event, events: seq<Event>, rules: Rules, a: string) {
    || e.kind in {PayoutStarted, Rewarded, Reward}
    || (e.kind == TransactionPayment && OfSignedExtrinsic(e))
    || (e.kind in {Deposit, Locked} && InPayingExtrinsic(e, events))
    || (OfSignedExtrinsic(e) && rules.normalize(e.signer.value) == Some(a))
    || (OfSignedExtrinsic(e) && e.kind == Deposit && rules.treasury.Some? && rules.normalize(rules.treasury.value) == Some(a))
  }

  lemma PayoutsAre(e: Event, events: seq<Event>)
    ensures ExtrinsicOf(e) in Payouts(events) <==> InPayingExtrinsic(e, events)
  {
    if ExtrinsicOf(e) in Payouts(events) {
      var f :| f in events && IsReward(f) && ExtrinsicOf(f) == ExtrinsicOf(e);
      assert f.block == e.block && f.extrinsicIndex == e.extrinsicIndex;
    }
    if f :| f in events && f.kind in {Rewarded, Reward} && f.block == e.block && f.extrinsicIndex.Some? && f.extrinsicIndex == e.extrinsicIndex {
      assert IsReward(f) && ExtrinsicOf(f) == ExtrinsicOf(e);
    }
  }

  // LINKED, exactly when: some string the event names (an offline validator, for a report of them) is the account in
  // normal form, and no rule excludes it.
  lemma LinkedExactlyWhen(e: Event, events: seq<Event>, rules: Rules, a: string)
    ensures a in AccountsOf(e, Payouts(events), rules)
      <==> Names(if e.kind == SomeOffline then e.offline else e.named, rules, a) && !Excluded(e, events, rules, a)
  {
    CollectMembers(Strings(e, Payouts(events)), Dropped(e, rules), rules);
    PayoutsAre(e, events);
  }

  // SIGNER: a signed event never links its own signer.
  lemma SignerIsNeverLinked(e: Event, payouts: set<Extrinsic>, rules: Rules)
    requires Signed(e) && rules.normalize(e.signer.value).Some?
    ensures rules.normalize(e.signer.value).value !in AccountsOf(e, payouts, rules)
  {
    CollectMembers(Strings(e, payouts), Dropped(e, rules), rules);
  }

  // A batch holds a block whole: the events of that block among all events, and no others.
  ghost predicate HoldsBlock(batch: seq<Event>, all: seq<Event>, block: nat) {
    forall e: Event :: e.block == block ==> (e in batch <==> e in all)
  }

  // LOCAL: what an event links to depends on the events of its own block only.
  lemma LocalToBlock(e: Event, batch: seq<Event>, all: seq<Event>, rules: Rules)
    requires HoldsBlock(batch, all, e.block)
    ensures AccountsOf(e, Payouts(batch), rules) == AccountsOf(e, Payouts(all), rules)
  {
    assert ExtrinsicOf(e) in Payouts(batch) <==> ExtrinsicOf(e) in Payouts(all) by {
      if x :| x in batch && IsReward(x) && ExtrinsicOf(x) == ExtrinsicOf(e) {
        assert x in all && ExtrinsicOf(x) in Payouts(all);
      }
      if x :| x in all && IsReward(x) && ExtrinsicOf(x) == ExtrinsicOf(e) {
        assert x in batch && ExtrinsicOf(x) in Payouts(batch);
      }
    }
  }

  // ---- the account page's total --------------------------------------

  function PlaceOf(e: Event): Pages.Place {
    Pages.Place(e.block, e.rowId)
  }

  // The page's two sources for one account, over a linked table.
  function StoreOf(events: seq<Event>, rules: Rules, account: string): Pages.Store {
    Pages.Store(set e | e in events && e.signer == Some(account) :: PlaceOf(e),
                set e | e in events && account in AccountsOf(e, Payouts(events), rules) :: PlaceOf(e))
  }

  ghost predicate DistinctPlaces(events: seq<Event>) {
    forall a, b :: a in events && b in events && PlaceOf(a) == PlaceOf(b) ==> a == b
  }

  // ORDER: an account's page lists its events newest block first, and within a block the later row first.
  lemma ListedByBlock(events: seq<Event>, rules: Rules, account: string, a: Event, b: Event, i: nat, j: nat)
    requires var list := Pages.Listing(StoreOf(events, rules, account).All());
             i < j < |list| && list[i] == PlaceOf(a) && list[j] == PlaceOf(b)
    ensures a.block > b.block || (a.block == b.block && a.rowId > b.rowId)
  {
    var all := StoreOf(events, rules, account).All();
    assert Pages.Lists(Pages.Listing(all), all);
  }

  // An account in normal form; neither is an address.
  predicate IsAccount(account: string, rules: Rules) {
    rules.normalize(account) == Some(account) && account != "" && account != "System"
  }

  // An event outside every extrinsic that carries the account as its signer and names it in its data.
  ghost predicate NamesItsUnsignedSigner(e: Event, rules: Rules, account: string) {
    && e.extrinsicIndex.None? && e.signer == Some(account) && !IsPayout(e.kind)
    && exists s :: s in (if e.kind == SomeOffline then e.offline else e.named) && rules.normalize(s) == Some(account)
  }

  // Outside an extrinsic no rule takes an account away, payouts apart.
  lemma UnsignedLinks(e: Event, events: seq<Event>, rules: Rules, account: string)
    requires IsAccount(account, rules) && e.signer == Some(account)
    ensures account in AccountsOf(e, Payouts(events), rules) <==> NamesItsUnsignedSigner(e, rules, account)
  {
    CollectMembers(Strings(e, Payouts(events)), Dropped(e, rules), rules);
    if Signed(e) {
      SignerIsNeverLinked(e, Payouts(events), rules);
    } else {
      assert ExtrinsicOf(e) !in Payouts(events);
    }
  }

  // TOTAL, exactly when: for any table, countEventsByAddress is the number of events listed, except where an event
  // outside an extrinsic carries the account as its signer and names it too: that one counts twice.
  lemma TotalIsExactWhen(events: seq<Event>, rules: Rules, account: string)
    requires DistinctPlaces(events) && IsAccount(account, rules)
    ensures var st := StoreOf(events, rules, account);
            Pages.CountEvents(st) == |Pages.Listing(st.All())|
            <==> forall e :: e in events ==> !NamesItsUnsignedSigner(e, rules, account)
  {
    var st := StoreOf(events, rules, account);
    Pages.CountIsTotal(st);
    if !(st.signed !! st.named) {
      var p :| p in st.signed && p in st.named;
      var e :| e in events && e.signer == Some(account) && PlaceOf(e) == p;
      var f :| f in events && account in AccountsOf(f, Payouts(events), rules) && PlaceOf(f) == p;
      assert e == f;
      UnsignedLinks(e, events, rules, account);
    }
    if e :| e in events && NamesItsUnsignedSigner(e, rules, account) {
      UnsignedLinks(e, events, rules, account);
      assert PlaceOf(e) in st.signed && PlaceOf(e) in st.named;
    }
  }

  // What the scanner writes: no signer, or "System", outside an extrinsic.
  ghost predicate Scanned(events: seq<Event>) {
    forall e :: e in events && e.extrinsicIndex.None? ==> e.signer.None? || e.signer.value == "System"
  }

  // TOTAL, main: over what the scanner writes the total is the number of events listed, for every account.
  lemma TotalIsListing(events: seq<Event>, rules: Rules, account: string)
    requires DistinctPlaces(events) && Scanned(events) && IsAccount(account, rules)
    ensures var st := StoreOf(events, rules, account);
            Pages.CountEvents(st) == |Pages.Listing(st.All())|
  {
    TotalIsExactWhen(events, rules, account);
  }

  // The writer's rule is needed: a signer outside an extrinsic whose event names it counts twice.
  lemma UnsignedSignerCountsTwice(rules: Rules)
    requires rules.normalize("a") == Some("a")
    ensures var e := Event(0, 1, None, Some("a"), Other, ["a"], [], []);
            var st := StoreOf([e], rules, "a");
            Pages.CountEvents(st) > |Pages.Listing(st.All())|
  {
    var e := Event(0, 1, None, Some("a"), Other, ["a"], [], []);
    var st := StoreOf([e], rules, "a");
    assert "a" in ["a"];
    assert e in [e] && NamesItsUnsignedSigner(e, rules, "a");
    TotalIsExactWhen([e], rules, "a");
    Pages.CountIsTotal(st);
  }

  // ---- the backfill --------------------------------------------------

  datatype Link = Link(place: Pages.Place, account: string)

  // LINKS_STATE in sync_state.
  datatype Progress = Progress(complete: bool, cursor: Option<int>, floor: int)

  datatype Db = Db(events: seq<Event>, links: set<Link>, state: Progress)

  const START := Progress(false, None, 0)

  function LinksOf(events: seq<Event>, rules: Rules): set<Link> {
    set e, a | e in events && a in AccountsOf(e, Payouts(events), rules) :: Link(PlaceOf(e), a)
  }

  // SELECT ... WHERE block >= lo AND block <= hi.
  function Range(events: seq<Event>, lo: int, hi: int): seq<Event> {
    if events == [] then []
    else (if lo <= events[0].block <= hi then [events[0]] else []) + Range(events[1..], lo, hi)
  }

  function MinBlock(events: seq<Event>): (m: int)
    requires events != []
    ensures forall e :: e in events ==> m <= e.block
    ensures exists e :: e in events && m == e.block
  {
    if |events| == 1 then events[0].block
    else
      var rest := MinBlock(events[1..]);
      if events[0].block < rest then events[0].block else rest
  }

  function MaxBlock(events: seq<Event>): (m: int)
    requires events != []
    ensures forall e :: e in events ==> m >= e.block
    ensures exists e :: e in events && m == e.block
  {
    if |events| == 1 then events[0].block
    else
      var rest := MaxBlock(events[1..]);
      if events[0].block > rest then events[0].block else rest
  }

  // The span still to do: the store's on the first tick, then down from the cursor; None when the table is empty.
  function Span(db: Db): Option<(int, int)> {
    if db.state.cursor.Some? then Some((db.state.floor, db.state.cursor.value))
    else if db.events == [] then None
    else Some((MinBlock(db.events), MaxBlock(db.events)))
  }

  function ChunkLow(span: (int, int), chunk: nat): int {
    Max(span.0, span.1 - chunk + 1)
  }

  // What a tick reads, and the state it stores in the end.
  function TickRows(db: Db, chunk: nat): seq<Event> {
    var span := Span(db);
    if db.state.complete || span.None? || span.value.1 < span.value.0 then []
    else Range(db.events, ChunkLow(span.value, chunk), span.value.1)
  }

  function TickState(db: Db, chunk: nat): Progress {
    var span := Span(db);
    if db.state.complete then db.state
    else if span.None? || span.value.1 < span.value.0 then db.state.(complete := true)
    else
      var lo := ChunkLow(span.value, chunk);
      Progress(lo <= span.value.0, Some(lo - 1), span.value.0)
  }

  // The blocks left to link: from the floor up to the cursor, or all stored ones before the first tick.
  ghost predicate LeftToLink(db: Db, lo: int, hi: int) {
    if db.state.cursor.Some? then lo == db.state.floor && hi == db.state.cursor.value
    else
      && (exists e :: e in db.events && e.block == lo) && (exists e :: e in db.events && e.block == hi)
      && forall e :: e in db.events ==> lo <= e.block <= hi
  }

  // CHUNK: a tick links exactly the events of the newest `chunk` blocks left, saves the block below them, and is the last
  // one exactly when it reaches the lowest block.
  lemma TickLinksAChunk(db: Db, chunk: nat, lo: int, hi: int, e: Event)
    requires !db.state.complete && LeftToLink(db, lo, hi) && lo <= hi
    ensures e in TickRows(db, chunk) <==> e in db.events && lo <= e.block <= hi && e.block > hi - chunk
    ensures TickState(db, chunk) == Progress(hi - chunk < lo, Some(if hi - chunk < lo then lo - 1 else hi - chunk), lo)
      || chunk == 0
  {
    assert db.state.cursor.None? ==> db.events != [];
    RangeMembers(db.events, ChunkLow((lo, hi), chunk), hi);
  }

  class Index {
    var events: seq<Event>
    var links: set<Link>
    var state: Progress

    ghost function Value(): Db
      reads this
    {
      Db(events, links, state)
    }

    // insertEventAccounts: INSERT OR IGNORE of each row's accounts.
    method InsertEventAccounts(rows: array<Event>)
      modifies this`links
      ensures links == old(links) + (set e, a | e in rows[..] && a in e.accounts :: Link(PlaceOf(e), a))
    {
      for i := 0 to rows.Length
        modifies this`links
        invariant links == old(links) + set e, a | e in rows[..i] && a in e.accounts :: Link(PlaceOf(e), a)
      {
        assert rows[..i + 1] == rows[..i] + [rows[i]];
        links := links + set a | a in rows[i].accounts :: Link(PlaceOf(rows[i]), a);
      }
      assert rows[..rows.Length] == rows[..];
    }

    // backfillAccountLinks: one tick.
    method BackfillTick(rules: Rules, chunk: nat)
      modifies this`links, this`state
      ensures Value() == Ticked(old(Value()), chunk, rules)
    {
      if state.complete {
        return;
      }
      ghost var before := Value();
      var span := if state.cursor.Some? then Some((state.floor, state.cursor.value))
                  else if events == [] then None
                  else Some((MinBlock(events), MaxBlock(events)));
      var next := state.(complete := true);
      if span.Some? && span.value.1 >= span.value.0 {
        var lo := ChunkLow(span.value, chunk);
        var range := Range(events, lo, span.value.1);
        var rows := new Event[|range|](i requires 0 <= i < |range| => range[i]);
        assert rows[..] == range;
        AttachAccounts(rows, rules);
        next := Progress(lo <= span.value.0, Some(lo - 1), span.value.0);
        InsertEventAccounts(rows);
        AttachedLinks(range, rules);
      }
      state := next;
      assert TickRows(before, chunk) == [] ==> LinksOf(TickRows(before, chunk), rules) == {};
    }
  }

  lemma AttachedLinks(range: seq<Event>, rules: Rules)
    ensures (set e, a | e in Attached(range, rules) && a in e.accounts :: Link(PlaceOf(e), a)) == LinksOf(range, rules)
  {
    var attached := set e, a | e in Attached(range, rules) && a in e.accounts :: Link(PlaceOf(e), a);
    forall l ensures l in attached <==> l in LinksOf(range, rules) {
      if l in attached {
        var e, a :| e in Attached(range, rules) && a in e.accounts && l == Link(PlaceOf(e), a);
        var i :| 0 <= i < |range| && Attached(range, rules)[i] == e;
        assert range[i] in range && a in AccountsOf(range[i], Payouts(range), rules);
      }
      if l in LinksOf(range, rules) {
        var e, a :| e in range && a in AccountsOf(e, Payouts(range), rules) && l == Link(PlaceOf(e), a);
        var i :| 0 <= i < |range| && range[i] == e;
        assert Attached(range, rules)[i] in Attached(range, rules);
      }
    }
  }

  function Ticked(db: Db, chunk: nat, rules: Rules): Db {
    Db(db.events, db.links + LinksOf(TickRows(db, chunk), rules), TickState(db, chunk))
  }

  // ---- every run -----------------------------------------------------

  // Done: a tick; Crashed: one that died before storing its state, having written some of its links; Arrived: a block
  // scanned by the indexer, stored with its links.
  datatype Action = Done(chunk: nat) | Crashed(chunk: nat, written: set<Link>) | Arrived(added: seq<Event>)

  ghost predicate Allowed(db: Db, act: Action, rules: Rules) {
    match act
    case Done(chunk) => chunk > 0
    case Crashed(chunk, written) => chunk > 0 && written <= LinksOf(TickRows(db, chunk), rules)
    case Arrived(added) =>
      && (forall e, f :: e in added && f in added ==> e.block == f.block)
      && (forall e, f :: e in added && f in db.events ==> e.block != f.block)
  }

  function Next(db: Db, act: Action, rules: Rules): Db {
    match act
    case Done(chunk) => Ticked(db, chunk, rules)
    case Crashed(chunk, written) => db.(links := db.links + written)
    case Arrived(added) => db.(events := db.events + added, links := db.links + LinksOf(added, rules))
  }

  // This event's links are in the table.
  ghost predicate Linked(db: Db, e: Event, rules: Rules) {
    forall a :: a in AccountsOf(e, Payouts(db.events), rules) ==> Link(PlaceOf(e), a) in db.links
  }

  // Still ahead of the cursor.
  ghost predicate Pending(db: Db, e: Event) {
    !db.state.complete && (db.state.cursor.Some? ==> db.state.floor <= e.block <= db.state.cursor.value)
  }

  ghost predicate Valid(db: Db, rules: Rules) {
    && db.links <= LinksOf(db.events, rules)
    && forall e :: e in db.events ==> Linked(db, e, rules) || Pending(db, e)
  }

  lemma {:induction false} RangeMembers(events: seq<Event>, lo: int, hi: int)
    ensures forall e: Event :: e in Range(events, lo, hi) <==> e in events && lo <= e.block <= hi
  {
    if events != [] {
      RangeMembers(events[1..], lo, hi);
    }
  }

  // A chunk gives its events the links one pass gives them.
  lemma ChunkLinks(db: Db, chunk: nat, rules: Rules)
    ensures LinksOf(TickRows(db, chunk), rules) <= LinksOf(db.events, rules)
    ensures forall e, a :: e in TickRows(db, chunk) && a in AccountsOf(e, Payouts(db.events), rules)
              ==> Link(PlaceOf(e), a) in LinksOf(TickRows(db, chunk), rules)
  {
    var rows := TickRows(db, chunk);
    forall e | e in rows ensures e in db.events && AccountsOf(e, Payouts(rows), rules) == AccountsOf(e, Payouts(db.events), rules) {
      var span := Span(db).value;
      RangeMembers(db.events, ChunkLow(span, chunk), span.1);
      LocalToBlock(e, rows, db.events, rules);
    }
  }

  lemma TickValid(db: Db, chunk: nat, rules: Rules)
    requires Valid(db, rules) && chunk > 0
    ensures Valid(Ticked(db, chunk, rules), rules)
  {
    var after := Ticked(db, chunk, rules);
    ChunkLinks(db, chunk, rules);
    forall e | e in after.events ensures Linked(after, e, rules) || Pending(after, e) {
      if !Linked(db, e, rules) {
        assert Pending(db, e);
        var span := Span(db).value;
        assert span.0 <= e.block <= span.1;
        var lo := ChunkLow(span, chunk);
        RangeMembers(db.events, lo, span.1);
        assert e.block >= lo ==> e in TickRows(db, chunk);
      }
    }
  }

  lemma ArrivalValid(db: Db, added: seq<Event>, rules: Rules)
    requires Valid(db, rules) && Allowed(db, Arrived(added), rules)
    ensures Valid(Next(db, Arrived(added), rules), rules)
  {
    var after := Next(db, Arrived(added), rules);
    forall e | e in db.events ensures AccountsOf(e, Payouts(after.events), rules) == AccountsOf(e, Payouts(db.events), rules) {
      LocalToBlock(e, db.events, after.events, rules);
    }
    forall e | e in added ensures AccountsOf(e, Payouts(after.events), rules) == AccountsOf(e, Payouts(added), rules) {
      LocalToBlock(e, added, after.events, rules);
    }
    forall l | l in after.links ensures l in LinksOf(after.events, rules) {
      if l in LinksOf(added, rules) {
        var e, a :| e in added && a in AccountsOf(e, Payouts(added), rules) && l == Link(PlaceOf(e), a);
        assert e in after.events;
      } else {
        var e, a :| e in db.events && a in AccountsOf(e, Payouts(db.events), rules) && l == Link(PlaceOf(e), a);
        assert e in after.events;
      }
    }
    forall e | e in after.events ensures Linked(after, e, rules) || Pending(after, e) {
      if e in added {
        assert Linked(after, e, rules);
      } else if Linked(db, e, rules) {
        assert Linked(after, e, rules);
      }
    }
  }

  lemma NextValid(db: Db, act: Action, rules: Rules)
    requires Valid(db, rules) && Allowed(db, act, rules)
    ensures Valid(Next(db, act, rules), rules)
  {
    match act {
      case Done(chunk) => TickValid(db, chunk, rules);
      case Crashed(chunk, written) =>
        ChunkLinks(db, chunk, rules);
        forall e | e in db.events ensures Linked(Next(db, act, rules), e, rules) || Pending(Next(db, act, rules), e) {
          assert Linked(db, e, rules) || Pending(db, e);
        }
      case Arrived(added) => ArrivalValid(db, added, rules);
    }
  }

  ghost predicate Run(dbs: seq<Db>, acts: seq<Action>, rules: Rules) {
    && |dbs| == |acts| + 1
    && forall i :: 0 <= i < |acts| ==> Allowed(dbs[i], acts[i], rules) && dbs[i + 1] == Next(dbs[i], acts[i], rules)
  }

  lemma {:induction false} RunValid(dbs: seq<Db>, acts: seq<Action>, rules: Rules, k: nat)
    requires Run(dbs, acts, rules) && Valid(dbs[0], rules) && k <= |acts|
    ensures Valid(dbs[k], rules)
  {
    if k > 0 {
      RunValid(dbs, acts, rules, k - 1);
      NextValid(dbs[k - 1], acts[k - 1], rules);
    }
  }

  // ONE PASS: whatever the chunk sizes, the crashes and the blocks that arrived meanwhile, a table that says it is
  // complete holds exactly the links one pass over all its events gives.
  lemma CompleteIsOnePass(dbs: seq<Db>, acts: seq<Action>, rules: Rules, k: nat)
    requires Run(dbs, acts, rules) && k <= |acts|
    requires dbs[0].links == {} && dbs[0].state == START
    requires dbs[k].state.complete
    ensures dbs[k].links == LinksOf(dbs[k].events, rules)
  {
    assert Valid(dbs[0], rules);
    RunValid(dbs, acts, rules, k);
    forall l | l in LinksOf(dbs[k].events, rules) ensures l in dbs[k].links {
      var e, a :| e in dbs[k].events && a in AccountsOf(e, Payouts(dbs[k].events), rules) && l == Link(PlaceOf(e), a);
      assert Linked(dbs[k], e, rules);
    }
  }

  // ---- and it ends ---------------------------------------------------

  function Left(db: Db): int {
    if db.state.complete then 0
    else if db.state.cursor.Some? then Max(db.state.cursor.value - db.state.floor + 1, 1)
    else if db.events == [] then 1
    else MaxBlock(db.events) - MinBlock(db.events) + 1
  }

  function DoneCount(acts: seq<Action>): nat {
    if acts == [] then 0 else (if acts[0].Done? then 1 else 0) + DoneCount(acts[1..])
  }

  // ENDS: once the first tick fixed the span, the backfill completes within one stored tick per block of it, however
  // many crash in between and however many blocks arrive.
  lemma {:induction false} BackfillEnds(dbs: seq<Db>, acts: seq<Action>, rules: Rules)
    requires Run(dbs, acts, rules) && (dbs[0].state.cursor.Some? || dbs[0].state.complete)
    requires DoneCount(acts) >= Left(dbs[0])
    ensures dbs[|acts|].state.complete
    decreases |acts|
  {
    if acts != [] {
      assert dbs[1] == Next(dbs[0], acts[0], rules);
      forall i | 0 <= i < |acts[1..]|
        ensures Allowed(dbs[1..][i], acts[1..][i], rules) && dbs[1..][i + 1] == Next(dbs[1..][i], acts[1..][i], rules)
      {
        assert Allowed(dbs[i + 1], acts[i + 1], rules) && dbs[i + 2] == Next(dbs[i + 1], acts[i + 1], rules);
      }
      assert Left(dbs[1]) <= Left(dbs[0]) - (if acts[0].Done? && Left(dbs[0]) > 0 then 1 else 0);
      BackfillEnds(dbs[1..], acts[1..], rules);
    }
  }
}
