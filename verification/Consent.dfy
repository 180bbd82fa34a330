/** User agreements: versions are published by bump or patched in place, users accept
    versions, and whoever has not accepted the current one has it pending. */
module Consent {
  import opened Common

  datatype Agreement = Agreement(
    slug: string, scope: string, egg: Option<int>,
    requireRegister: bool, requirePurchase: bool, enabled: bool,
    sortOrder: int, currentVersion: int)

  datatype VersionRow = VersionRow(version: int, body: string)

  datatype Item = Item(agreement: int, version: int)

  datatype Acceptance = Acceptance(user: int, agreement: int, version: int, slug: string)

  /** `versions` groups the version rows by agreement, in insertion order; `tickets` holds the validated lists
      that unfinished registrations carry until their user exists. */
  datatype State = State(
    agreements: map<int, Agreement>,
    versions: map<int, seq<VersionRow>>,
    acceptances: seq<Acceptance>,
    tickets: map<int, seq<Item>>)

  datatype Context = Register | Reconsent | Purchase(egg: Option<int>)

  // ----- What is required -----

  predicate Demands(a: Agreement, c: Context) {
    && a.enabled && a.currentVersion > 0
    && match c
       case Register => a.requireRegister
       case Reconsent => a.requireRegister
       case Purchase(egg) =>
         a.requirePurchase && (a.scope == "global" || (egg.Some? && a.scope == "egg" && a.egg == egg))
  }

  predicate Required(s: State, c: Context, id: int) {
    id in s.agreements && Demands(s.agreements[id], c)
  }

  predicate Before(s: State, x: int, y: int)
    requires x in s.agreements && y in s.agreements
  {
    var a, b := s.agreements[x].sortOrder, s.agreements[y].sortOrder;
    a < b || (a == b && x < y)
  }

  /** `ORDER BY sort_order, id` of the required rows: each once, in order. */
  ghost predicate Listing(s: State, c: Context, ids: seq<int>) {
    && (forall id :: id in ids <==> Required(s, c, id))
    && (forall i :: 0 <= i < |ids| ==> ids[i] in s.agreements)
    && forall i, j :: 0 <= i < j < |ids| ==> ids[i] != ids[j] && Before(s, ids[i], ids[j])
  }

  /** In ascending sort order, and by id where that is equal; each id once. */
  predicate Sorted(s: State, ids: seq<int>)
    requires forall i :: 0 <= i < |ids| ==> ids[i] in s.agreements
  {
    forall i, j :: 0 <= i < j < |ids| ==>
      var a, b := s.agreements[ids[i]].sortOrder, s.agreements[ids[j]].sortOrder;
      a <= b && (a == b ==> ids[i] < ids[j])
  }

  ghost predicate SortedSame(s: State, a: seq<int>, b: seq<int>) {
    && (forall i :: 0 <= i < |a| ==> a[i] in s.agreements)
    && (forall i :: 0 <= i < |b| ==> b[i] in s.agreements)
    && Sorted(s, a) && Sorted(s, b) && forall id :: id in a <==> id in b
  }

  lemma SameLeast(s: State, a: seq<int>, b: seq<int>)
    requires SortedSame(s, a, b) && a != [] && b != []
    ensures a[0] == b[0]
  {
    assert a[0] in a && b[0] in b;
    var i :| 0 <= i < |b| && b[i] == a[0];
    var j :| 0 <= j < |a| && a[j] == b[0];
  }

  lemma FilledToo(a: seq<int>, b: seq<int>)
    requires a != [] && forall id :: id in a ==> id in b
    ensures b != []
  {
    assert a[0] in a;
    var i :| 0 <= i < |b| && b[i] == a[0];
  }

  lemma OthersAre(s: State, a: seq<int>)
    requires a != [] && (forall i :: 0 <= i < |a| ==> a[i] in s.agreements) && Sorted(s, a)
    ensures forall id :: id in a[1..] <==> id in a && id != a[0]
    ensures forall i :: 0 <= i < |a[1..]| ==> a[1..][i] in s.agreements
    ensures Sorted(s, a[1..])
  {
  }

  lemma {:induction false} SortedIsUnique(s: State, a: seq<int>, b: seq<int>)
    requires SortedSame(s, a, b)
    ensures a == b
    decreases |a|
  {
    if b != [] {
      FilledToo(b, a);
    }
    if a != [] {
      FilledToo(a, b);
      SameLeast(s, a, b);
      OthersAre(s, a);
      OthersAre(s, b);
      SortedIsUnique(s, a[1..], b[1..]);
      assert a == [a[0]] + a[1..] && b == [b[0]] + b[1..];
    }
  }

  /** A list is sorted, so there is just one. */
  lemma ListingIsSorted(s: State, c: Context, ids: seq<int>, others: seq<int>)
    requires Listing(s, c, ids) && Listing(s, c, others)
    ensures Sorted(s, ids) && ids == others
  {
    forall i, j | 0 <= i < j < |ids|
      ensures s.agreements[ids[i]].sortOrder <= s.agreements[ids[j]].sortOrder
      ensures s.agreements[ids[i]].sortOrder == s.agreements[ids[j]].sortOrder ==> ids[i] < ids[j]
    {
      assert Before(s, ids[i], ids[j]);
    }
    forall i, j | 0 <= i < j < |others|
      ensures s.agreements[others[i]].sortOrder <= s.agreements[others[j]].sortOrder
      ensures s.agreements[others[i]].sortOrder == s.agreements[others[j]].sortOrder ==> others[i] < others[j]
    {
      assert Before(s, others[i], others[j]);
    }
    SortedIsUnique(s, ids, others);
  }

  // ----- Validation -----

  datatype Error = MissingItem(id: int) | WrongVersion(id: int)

  /** `{item.agreement_id: item for item in items}`: the last item for an id. */
  function LastItem(items: seq<Item>, id: int): (r: Option<Item>)
    ensures r.Some? ==> r.value in items && r.value.agreement == id
    ensures r.None? ==> forall x :: x in items ==> x.agreement != id
  {
    if items == [] then None
    else if items[|items| - 1].agreement == id then Some(items[|items| - 1])
    else LastItem(items[..|items| - 1], id)
  }

  /** Item `k` is the last one of the agreement. */
  predicate IsLast(items: seq<Item>, id: int, k: int) {
    && 0 <= k < |items| && items[k].agreement == id
    && forall j :: k < j < |items| ==> items[j].agreement != id
  }

  /** The last item of the agreement accepts this version. */
  ghost predicate LastNames(items: seq<Item>, id: int, version: int) {
    exists k :: IsLast(items, id, k) && items[k].version == version
  }

  lemma {:induction false} LastItemIs(items: seq<Item>, id: int)
    ensures LastItem(items, id).Some? <==> exists k :: IsLast(items, id, k)
    ensures forall k :: IsLast(items, id, k) ==> LastItem(items, id) == Some(items[k])
  {
    if items == [] {
    } else {
      var n := |items| - 1;
      LastItemIs(items[..n], id);
      if items[n].agreement == id {
        assert IsLast(items, id, n);
      } else {
        assert forall k :: IsLast(items, id, k) <==> IsLast(items[..n], id, k);
      }
    }
  }

  lemma LastNamesIff(items: seq<Item>, id: int, version: int)
    ensures LastNames(items, id, version) <==> LastItem(items, id).Some? && LastItem(items, id).value.version == version
    ensures LastNames(items, id, version) ==> Item(id, version) in items
  {
    LastItemIs(items, id);
  }

  /** The server's own list: one item per required agreement, at its current version. */
  function Canonical(s: State, listing: seq<int>): (r: seq<Item>)
    requires forall i :: 0 <= i < |listing| ==> listing[i] in s.agreements
    ensures |r| == |listing|
    ensures forall i :: 0 <= i < |r| ==> r[i] == Item(listing[i], s.agreements[listing[i]].currentVersion)
  {
    seq(|listing|, i requires 0 <= i < |listing| => Item(listing[i], s.agreements[listing[i]].currentVersion))
  }

  ghost predicate Accepts(s: State, items: seq<Item>, listing: seq<int>)
    requires forall i :: 0 <= i < |listing| ==> listing[i] in s.agreements
  {
    forall i :: 0 <= i < |listing| ==> LastNames(items, listing[i], s.agreements[listing[i]].currentVersion)
  }

  // ----- Recording -----

  predicate HasRow(rows: seq<Acceptance>, user: int, x: Item) {
    exists i :: 0 <= i < |rows| && rows[i].user == user && rows[i].agreement == x.agreement
                && rows[i].version == x.version
  }

  /** UNIQUE(user_id, agreement_id, version). */
  predicate UniqueRows(rows: seq<Acceptance>) {
    forall i, j :: 0 <= i < j < |rows| ==>
      !(rows[i].user == rows[j].user && rows[i].agreement == rows[j].agreement && rows[i].version == rows[j].version)
  }

  function SlugOf(s: State, id: int): string {
    if id in s.agreements then s.agreements[id].slug else ""
  }

  /** The row added for one item: none if it has one yet. The existence check sees the rows stored before
      the call, not those the call has added. */
  function NewRow(s: State, user: int, x: Item): seq<Acceptance> {
    if HasRow(s.acceptances, user, x) then [] else [Acceptance(user, x.agreement, x.version, SlugOf(s, x.agreement))]
  }

  function NewRows(s: State, user: int, items: seq<Item>): seq<Acceptance> {
    if items == [] then [] else NewRow(s, user, items[0]) + NewRows(s, user, items[1..])
  }

  /** A commit that violates the unique key is rolled back. */
  function Recorded(s: State, user: int, items: seq<Item>): State {
    var rows := s.acceptances + NewRows(s, user, items);
    if UniqueRows(rows) then s.(acceptances := rows) else s
  }

  lemma HasRowCons(first: Acceptance, rest: seq<Acceptance>, user: int, x: Item)
    ensures HasRow([first] + rest, user, x)
       <==> || (first.user == user && first.agreement == x.agreement && first.version == x.version)
            || HasRow(rest, user, x)
  {
    var all := [first] + rest;
    if HasRow(rest, user, x) {
      var i :| 0 <= i < |rest| && rest[i].user == user && rest[i].agreement == x.agreement
               && rest[i].version == x.version;
      assert all[i + 1] == rest[i];
    }
    if first.user == user && first.agreement == x.agreement && first.version == x.version {
      assert all[0] == first;
    }
  }

  /** A row of the call's is the user's, for a listed item, and new. */
  predicate IsNewRow(s: State, user: int, items: seq<Item>, r: Acceptance) {
    && r.user == user && Item(r.agreement, r.version) in items && r.slug == SlugOf(s, r.agreement)
    && !HasRow(s.acceptances, user, Item(r.agreement, r.version))
  }

  predicate IsCovered(s: State, user: int, rows: seq<Acceptance>, x: Item) {
    HasRow(s.acceptances, user, x) || HasRow(rows, user, x)
  }

  lemma {:induction false} NewRowsAreNew(s: State, user: int, items: seq<Item>)
    ensures |NewRows(s, user, items)| <= |items|
    ensures forall r :: r in NewRows(s, user, items) ==> IsNewRow(s, user, items, r)
  {
    if items == [] {
    } else {
      var rest := items[1..];
      NewRowsAreNew(s, user, rest);
      forall r | r in NewRows(s, user, items) ensures IsNewRow(s, user, items, r) {
        if r in NewRows(s, user, rest) {
          assert IsNewRow(s, user, rest, r);
        }
      }
    }
  }

  lemma RowsAppend(a: seq<Acceptance>, b: seq<Acceptance>, user: int, x: Item)
    ensures HasRow(a + b, user, x) <==> HasRow(a, user, x) || HasRow(b, user, x)
  {
    if HasRow(a, user, x) {
      var i :| 0 <= i < |a| && a[i].user == user && a[i].agreement == x.agreement && a[i].version == x.version;
      assert (a + b)[i] == a[i];
    }
    if HasRow(b, user, x) {
      var i :| 0 <= i < |b| && b[i].user == user && b[i].agreement == x.agreement && b[i].version == x.version;
      assert (a + b)[|a| + i] == b[i];
    }
  }

  lemma {:induction false} NewRowsCover(s: State, user: int, items: seq<Item>, x: Item)
    requires x in items && !HasRow(s.acceptances, user, x)
    ensures HasRow(NewRows(s, user, items), user, x)
  {
    var rest := NewRows(s, user, items[1..]);
    assert NewRows(s, user, items) == NewRow(s, user, items[0]) + rest;
    if x == items[0] {
      assert NewRow(s, user, x) + rest == [NewRow(s, user, x)[0]] + rest;
      HasRowCons(NewRow(s, user, x)[0], rest, user, x);
    } else {
      assert x in items[1..];
      NewRowsCover(s, user, items[1..], x);
      RowsAppend(NewRow(s, user, items[0]), rest, user, x);
    }
  }

  lemma NewRowsAre(s: State, user: int, items: seq<Item>)
    ensures |NewRows(s, user, items)| <= |items|
    ensures forall k :: 0 <= k < |NewRows(s, user, items)| ==> IsNewRow(s, user, items, NewRows(s, user, items)[k])
    ensures forall i :: 0 <= i < |items| ==> IsCovered(s, user, NewRows(s, user, items), items[i])
  {
    NewRowsAreNew(s, user, items);
    forall i | 0 <= i < |items| ensures IsCovered(s, user, NewRows(s, user, items), items[i]) {
      if !HasRow(s.acceptances, user, items[i]) {
        NewRowsCover(s, user, items, items[i]);
      }
    }
  }

  /** Items of one call that are not yet stored are pairwise different. */
  predicate NewItemsDiffer(s: State, user: int, items: seq<Item>) {
    forall i, j :: 0 <= i < j < |items| && items[i] == items[j] ==> HasRow(s.acceptances, user, items[i])
  }

  lemma ItemsDifferCons(s: State, user: int, items: seq<Item>)
    requires items != []
    ensures NewItemsDiffer(s, user, items)
       <==> NewItemsDiffer(s, user, items[1..]) && (items[0] in items[1..] ==> HasRow(s.acceptances, user, items[0]))
  {
    var rest := items[1..];
    if NewItemsDiffer(s, user, items) {
      forall i, j | 0 <= i < j < |rest| && rest[i] == rest[j] ensures HasRow(s.acceptances, user, rest[i]) {
        assert items[i + 1] == items[j + 1];
      }
      if items[0] in rest {
        var j :| 0 <= j < |rest| && rest[j] == items[0];
        assert items[0] == items[j + 1];
      }
    } else {
      var i, j :| 0 <= i < j < |items| && items[i] == items[j] && !HasRow(s.acceptances, user, items[i]);
      assert items[j] == rest[j - 1];
      assert i > 0 ==> items[i] == rest[i - 1];
    }
  }

  lemma UniqueCons(first: Acceptance, rest: seq<Acceptance>)
    ensures UniqueRows([first] + rest)
       <==> UniqueRows(rest) && !HasRow(rest, first.user, Item(first.agreement, first.version))
  {
    var all := [first] + rest;
    assert forall i :: 0 <= i < |rest| ==> all[i + 1] == rest[i];
    if UniqueRows(all) {
      forall i, j | 0 <= i < j < |rest|
        ensures !(rest[i].user == rest[j].user && rest[i].agreement == rest[j].agreement
                  && rest[i].version == rest[j].version)
      {
        assert all[i + 1] == rest[i] && all[j + 1] == rest[j];
      }
      forall k | 0 <= k < |rest|
        ensures !(rest[k].user == first.user && rest[k].agreement == first.agreement
                  && rest[k].version == first.version)
      {
        assert all[0] == first && all[k + 1] == rest[k];
      }
    } else {
      var i, j :| 0 <= i < j < |all| && all[i].user == all[j].user && all[i].agreement == all[j].agreement
                  && all[i].version == all[j].version;
      assert all[j] == rest[j - 1];
      assert i > 0 ==> all[i] == rest[i - 1];
    }
  }

  lemma {:induction false} NewRowsUniqueIff(s: State, user: int, items: seq<Item>)
    ensures UniqueRows(NewRows(s, user, items)) <==> NewItemsDiffer(s, user, items)
  {
    if items == [] {
    } else {
      var x, rest := items[0], items[1..];
      var q := NewRows(s, user, rest);
      NewRowsUniqueIff(s, user, rest);
      NewRowsAre(s, user, rest);
      ItemsDifferCons(s, user, items);
      UniqueCons(Acceptance(user, x.agreement, x.version, SlugOf(s, x.agreement)), q);
      if HasRow(s.acceptances, user, x) {
        assert NewRows(s, user, items) == q;
      } else if x in rest {
        var j :| 0 <= j < |rest| && rest[j] == x;
        assert HasRow(q, user, rest[j]);
      }
    }
  }

  /** Recording keeps the rows unique exactly when no item that is new occurs twice in the call. */
  lemma RecordUniqueIff(s: State, user: int, items: seq<Item>)
    requires UniqueRows(s.acceptances)
    ensures UniqueRows(s.acceptances + NewRows(s, user, items)) <==> NewItemsDiffer(s, user, items)
  {
    var stored, r := s.acceptances, NewRows(s, user, items);
    NewRowsUniqueIff(s, user, items);
    NewRowsAre(s, user, items);
    forall k | 0 <= k < |r| ensures !HasRow(stored, user, Item(r[k].agreement, r[k].version)) && r[k].user == user {
    }
    UniqueTogether(stored, r);
  }

  predicate SameKey(x: Acceptance, y: Acceptance) {
    x.user == y.user && x.agreement == y.agreement && x.version == y.version
  }

  lemma UniqueTogether(stored: seq<Acceptance>, r: seq<Acceptance>)
    requires UniqueRows(stored)
    requires forall k :: 0 <= k < |r| ==> !HasRow(stored, r[k].user, Item(r[k].agreement, r[k].version))
    ensures UniqueRows(stored + r) <==> UniqueRows(r)
  {
    var all := stored + r;
    if UniqueRows(all) {
      forall i, j | 0 <= i < j < |r| ensures !SameKey(r[i], r[j]) {
        assert all[|stored| + i] == r[i] && all[|stored| + j] == r[j];
      }
    }
    if UniqueRows(r) {
      forall i, j | 0 <= i < j < |all| ensures !SameKey(all[i], all[j]) {
        if i < |stored| <= j {
          var k := j - |stored|;
          assert !HasRow(stored, r[k].user, Item(r[k].agreement, r[k].version));
        }
      }
    }
  }

  // ----- Pending -----

  /** The highest version a user has accepted, 0 if none. */
  function MaxAccepted(rows: seq<Acceptance>, user: int, id: int): (m: int)
    ensures m >= 0
    ensures forall i :: 0 <= i < |rows| && rows[i].user == user && rows[i].agreement == id ==> rows[i].version <= m
    ensures m > 0 ==> HasRow(rows, user, Item(id, m))
  {
    if rows == [] then 0
    else
      var last, rest := rows[|rows| - 1], rows[..|rows| - 1];
      var m := MaxAccepted(rest, user, id);
      if last.user == user && last.agreement == id && last.version > m then last.version
      else
        assert m > 0 ==> exists i :: 0 <= i < |rest| && rows[i] == rest[i] && rows[i].user == user
                                     && rows[i].agreement == id && rows[i].version == m;
        m
  }

  predicate Pending(s: State, user: int, id: int) {
    Required(s, Reconsent, id) && MaxAccepted(s.acceptances, user, id) < s.agreements[id].currentVersion
  }

  function PendingList(s: State, user: int, listing: seq<int>): seq<int> {
    if listing == [] then []
    else (if Pending(s, user, listing[0]) then [listing[0]] else []) + PendingList(s, user, listing[1..])
  }

  lemma {:induction false} PendingListHolds(s: State, user: int, listing: seq<int>)
    ensures forall id :: id in PendingList(s, user, listing) <==> id in listing && Pending(s, user, id)
  {
    if listing == [] {
    } else {
      PendingListHolds(s, user, listing[1..]);
      assert forall id :: id in listing <==> id == listing[0] || id in listing[1..];
    }
  }

  /** One round of a loop that collects into `out`. */
  lemma PendingListStep(s: State, user: int, listing: seq<int>, i: nat, out: seq<int>)
    requires i < |listing|
    ensures Pending(s, user, listing[i]) ==>
              (out + [listing[i]]) + PendingList(s, user, listing[i + 1..]) == out + PendingList(s, user, listing[i..])
    ensures !Pending(s, user, listing[i]) ==>
              PendingList(s, user, listing[i + 1..]) == PendingList(s, user, listing[i..])
  {
    assert listing[i..][1..] == listing[i + 1..];
  }

  // ----- Histories -----

  datatype Upsert = Upsert(slug: string, scope: string, egg: Option<int>, requireRegister: bool,
                           requirePurchase: bool, enabled: bool, sortOrder: int)

  datatype Event =
    | Created(id: int, form: Upsert)
    | Updated(id: int, form: Upsert)
    | Disabled(id: int)
    | Published(id: int, bump: bool, body: string)
    /** A registration form: validated, and kept until the address is verified. */
    | Registered(ticket: int, items: seq<Item>, listing: seq<int>)
    | Verified(ticket: int, user: int)

  function MaxVersion(rows: seq<VersionRow>): int {
    if rows == [] then 0
    else
      var m, v := MaxVersion(rows[..|rows| - 1]), rows[|rows| - 1].version;
      if |rows| == 1 || v > m then v else m
  }

  /** Index of the row of a version, or the number of rows. */
  function FindVersion(rows: seq<VersionRow>, v: int): (i: nat)
    ensures i <= |rows| && (i < |rows| ==> rows[i].version == v)
    ensures forall k :: 0 <= k < i ==> rows[k].version != v
  {
    if rows == [] || rows[0].version == v then 0 else 1 + FindVersion(rows[1..], v)
  }

  function Bumped(s: State, id: int, body: string): State
    requires id in s.agreements
  {
    var rows := GetOr(s.versions, id, []);
    var next := MaxVersion(rows) + 1;
    s.(versions := s.versions[id := rows + [VersionRow(next, body)]],
       agreements := s.agreements[id := s.agreements[id].(currentVersion := next)])
  }

  function Patched(s: State, id: int, body: string): State
    requires id in s.agreements
  {
    var rows := GetOr(s.versions, id, []);
    var current := s.agreements[id].currentVersion;
    var i := FindVersion(rows, current);
    if current <= 0 || i == |rows| then s
    else s.(versions := s.versions[id := rows[i := VersionRow(current, body)]])
  }

  /** The query's order is unique, so an event names the listing it saw. */
  ghost predicate Enabled(s: State, e: Event) {
    match e
    case Created(id, _) => id !in s.agreements
    case Registered(ticket, _, listing) => ticket !in s.tickets && Listing(s, Register, listing)
    case Verified(ticket, _) => ticket in s.tickets
    case _ => true
  }

  predicate SlugFree(s: State, slug: string) {
    forall id :: id in s.agreements ==> s.agreements[id].slug != slug
  }

  ghost function Next(s: State, e: Event): State
    requires Enabled(s, e)
  {
    match e
    case Created(id, f) =>
      if (f.scope == "egg" && f.egg == None) || !SlugFree(s, f.slug) then s
      else s.(agreements := s.agreements[id := Agreement(f.slug, f.scope, f.egg, f.requireRegister, f.requirePurchase,
                                                         f.enabled, f.sortOrder, 0)],
              versions := s.versions[id := []])
    case Updated(id, f) =>
      if id !in s.agreements || (f.scope == "egg" && f.egg == None) then s
      else s.(agreements := s.agreements[id := s.agreements[id].(
                scope := f.scope, egg := f.egg, requireRegister := f.requireRegister,
                requirePurchase := f.requirePurchase, enabled := f.enabled, sortOrder := f.sortOrder)])
    case Disabled(id) =>
      if id !in s.agreements then s
      else s.(agreements := s.agreements[id := s.agreements[id].(enabled := false)])
    case Published(id, bump, body) =>
      if id !in s.agreements then s
      else if bump then Bumped(s, id, body) else Patched(s, id, body)
    case Registered(ticket, items, listing) =>
      if Accepts(s, items, listing) then s.(tickets := s.tickets[ticket := Canonical(s, listing)]) else s
    case Verified(ticket, user) =>
      Recorded(s, user, s.tickets[ticket]).(tickets := s.tickets - {ticket})
  }

  ghost predicate Run(s: State, events: seq<Event>, s': State)
    decreases |events|
  {
    if events == [] then s == s'
    else Enabled(s, events[0]) && Run(Next(s, events[0]), events[1..], s')
  }

  /** The migration: two register agreements without a version, and for every existing user a
      version-1 row of each. */
  function Backfill(users: seq<int>): seq<Acceptance> {
    if users == [] then []
    else [Acceptance(users[0], 1, 1, "tos"), Acceptance(users[0], 2, 1, "privacy")] + Backfill(users[1..])
  }

  function Migrated(users: seq<int>): State {
    State(map[1 := Agreement("tos", "global", None, true, false, true, 0, 0),
              2 := Agreement("privacy", "global", None, true, false, true, 1, 0)],
          map[1 := [], 2 := []], Backfill(users), map[])
  }

  /** The published versions of an agreement are exactly 1 up to its current version. */
  predicate VersionsExact(s: State, id: int)
    requires id in s.agreements
  {
    && id in s.versions
    && |s.versions[id]| == s.agreements[id].currentVersion
    && forall i :: 0 <= i < |s.versions[id]| ==> s.versions[id][i].version == i + 1
  }

  /** Accepted versions exist; only the first may have been accepted before its publication. */
  predicate AcceptedVersionSound(s: State, r: Acceptance) {
    && r.agreement in s.agreements
    && 1 <= r.version
    && (r.version == 1 || r.version <= s.agreements[r.agreement].currentVersion)
  }

  predicate TicketSound(s: State, items: seq<Item>) {
    && (forall i, j :: 0 <= i < j < |items| ==> items[i].agreement != items[j].agreement)
    && forall i :: 0 <= i < |items| ==>
         items[i].agreement in s.agreements && 1 <= items[i].version <= s.agreements[items[i].agreement].currentVersion
  }

  predicate Invariant(s: State) {
    && s.versions.Keys == s.agreements.Keys
    && (forall id :: id in s.agreements ==> VersionsExact(s, id))
    && UniqueRows(s.acceptances)
    && (forall i :: 0 <= i < |s.acceptances| ==> AcceptedVersionSound(s, s.acceptances[i]))
    && (forall k :: k in s.tickets ==> TicketSound(s, s.tickets[k]))
  }

  lemma BackfillUnfolds(users: seq<int>)
    requires users != []
    ensures var rest := Backfill(users[1..]);
            Backfill(users) == [Acceptance(users[0], 1, 1, "tos")] + ([Acceptance(users[0], 2, 1, "privacy")] + rest)
  {
  }

  lemma {:induction false} BackfillRows(users: seq<int>)
    ensures forall r :: r in Backfill(users) ==>
              r.version == 1 && (r.agreement == 1 || r.agreement == 2) && r.user in users
  {
    if users == [] {
    } else {
      BackfillUnfolds(users);
      BackfillRows(users[1..]);
    }
  }

  lemma {:induction false} BackfillIsUnique(users: seq<int>)
    requires Distinct(users)
    ensures UniqueRows(Backfill(users))
  {
    if users == [] {
    } else {
      var u, rest := users[0], Backfill(users[1..]);
      var tos, privacy := Acceptance(u, 1, 1, "tos"), Acceptance(u, 2, 1, "privacy");
      BackfillUnfolds(users);
      BackfillIsUnique(users[1..]);
      BackfillRows(users[1..]);
      assert u !in users[1..];
      UniqueCons(privacy, rest);
      HasRowCons(privacy, rest, u, Item(1, 1));
      UniqueCons(tos, [privacy] + rest);
    }
  }

  /** Every user of the time counts as having accepted version 1 of both. */
  lemma {:induction false} BackfillHas(users: seq<int>, u: int, id: int)
    requires u in users && (id == 1 || id == 2)
    ensures HasRow(Backfill(users), u, Item(id, 1))
  {
    var first, rest := users[0], Backfill(users[1..]);
    var tos, privacy := Acceptance(first, 1, 1, "tos"), Acceptance(first, 2, 1, "privacy");
    if u == first {
    } else {
      BackfillHas(users[1..], u, id);
    }
    BackfillUnfolds(users);
    HasRowCons(privacy, rest, u, Item(id, 1));
    HasRowCons(tos, [privacy] + rest, u, Item(id, 1));
  }

  lemma MigrationIsSound(users: seq<int>)
    requires Distinct(users)
    ensures Invariant(Migrated(users))
    ensures forall u, id :: u in users && (id == 1 || id == 2) ==> HasRow(Migrated(users).acceptances, u, Item(id, 1))
  {
    BackfillRows(users);
    BackfillIsUnique(users);
    forall u, id | u in users && (id == 1 || id == 2) ensures HasRow(Backfill(users), u, Item(id, 1)) {
      BackfillHas(users, u, id);
    }
  }

  lemma {:induction false} MaxOfExact(rows: seq<VersionRow>)
    requires forall i :: 0 <= i < |rows| ==> rows[i].version == i + 1
    ensures MaxVersion(rows) == |rows|
  {
    if rows == [] {
    } else {
      MaxOfExact(rows[..|rows| - 1]);
    }
  }

  lemma ValidatedListIsSound(s: State, c: Context, listing: seq<int>)
    requires Listing(s, c, listing)
    ensures TicketSound(s, Canonical(s, listing))
  {
    forall i | 0 <= i < |listing| ensures Required(s, c, listing[i]) {
      assert listing[i] in listing;
    }
  }

  /** A validated list never violates the unique key, and leaves a row for each of its items. */
  lemma ValidatedListRecords(s: State, user: int, items: seq<Item>)
    requires UniqueRows(s.acceptances)
    requires forall i, j :: 0 <= i < j < |items| ==> items[i].agreement != items[j].agreement
    ensures var s' := Recorded(s, user, items);
            && s'.acceptances == s.acceptances + NewRows(s, user, items)
            && UniqueRows(s'.acceptances)
            && (forall i :: 0 <= i < |items| ==> HasRow(s'.acceptances, user, items[i]))
            && NewRows(s', user, items) == []
  {
    RecordUniqueIff(s, user, items);
    NewRowsAre(s, user, items);
    var s' := Recorded(s, user, items);
    forall i | 0 <= i < |items| ensures HasRow(s'.acceptances, user, items[i]) {
      RowsAppend(s.acceptances, NewRows(s, user, items), user, items[i]);
    }
    NothingNew(s', user, items);
  }

  lemma {:induction false} NothingNew(s: State, user: int, items: seq<Item>)
    requires forall i :: 0 <= i < |items| ==> HasRow(s.acceptances, user, items[i])
    ensures NewRows(s, user, items) == []
  {
    if items == [] {
    } else {
      NothingNew(s, user, items[1..]);
    }
  }

  lemma PublishKeepsInvariant(s: State, id: int, bump: bool, body: string)
    requires Invariant(s) && id in s.agreements
    ensures Invariant(if bump then Bumped(s, id, body) else Patched(s, id, body))
  {
    assert VersionsExact(s, id);
    MaxOfExact(s.versions[id]);
    var s' := if bump then Bumped(s, id, body) else Patched(s, id, body);
    forall x | x in s'.agreements ensures VersionsExact(s', x) {
      assert VersionsExact(s, x);
    }
    forall i | 0 <= i < |s'.acceptances| ensures AcceptedVersionSound(s', s'.acceptances[i]) {
      assert AcceptedVersionSound(s, s.acceptances[i]);
    }
    forall k | k in s'.tickets ensures TicketSound(s', s'.tickets[k]) {
      assert TicketSound(s, s.tickets[k]);
    }
  }

  lemma NewRowsAreSound(s: State, user: int, items: seq<Item>)
    requires TicketSound(s, items)
    ensures forall k :: 0 <= k < |NewRows(s, user, items)| ==> AcceptedVersionSound(s, NewRows(s, user, items)[k])
  {
    NewRowsAre(s, user, items);
    var r := NewRows(s, user, items);
    forall k | 0 <= k < |r| ensures AcceptedVersionSound(s, r[k]) {
      assert IsNewRow(s, user, items, r[k]);
      var i :| 0 <= i < |items| && items[i] == Item(r[k].agreement, r[k].version);
    }
  }

  /** More sound and different acceptances, and fewer tickets. */
  lemma MoreAcceptances(s: State, more: seq<Acceptance>, ticket: int)
    requires Invariant(s) && UniqueRows(s.acceptances + more)
    requires forall k :: 0 <= k < |more| ==> AcceptedVersionSound(s, more[k])
    ensures Invariant(s.(acceptances := s.acceptances + more, tickets := s.tickets - {ticket}))
  {
    var s' := s.(acceptances := s.acceptances + more, tickets := s.tickets - {ticket});
    forall x | x in s'.agreements ensures VersionsExact(s', x) {
      assert VersionsExact(s, x);
    }
    forall i | 0 <= i < |s'.acceptances| ensures AcceptedVersionSound(s', s'.acceptances[i]) {
      assert AcceptedVersionSound(s, if i < |s.acceptances| then s.acceptances[i] else more[i - |s.acceptances|]);
    }
    forall k | k in s'.tickets ensures TicketSound(s', s'.tickets[k]) {
      assert TicketSound(s, s.tickets[k]);
    }
  }

  lemma VerifyKeepsInvariant(s: State, ticket: int, user: int)
    requires Invariant(s) && ticket in s.tickets
    ensures Invariant(Next(s, Verified(ticket, user)))
  {
    var items := s.tickets[ticket];
    assert TicketSound(s, items);
    ValidatedListRecords(s, user, items);
    NewRowsAreSound(s, user, items);
    MoreAcceptances(s, NewRows(s, user, items), ticket);
  }

  lemma RegisteredKeepsInvariant(s: State, ticket: int, items: seq<Item>, listing: seq<int>)
    requires Invariant(s) && Enabled(s, Registered(ticket, items, listing))
    ensures Invariant(Next(s, Registered(ticket, items, listing)))
  {
    var s' := Next(s, Registered(ticket, items, listing));
    ValidatedListIsSound(s, Register, listing);
    forall x | x in s'.agreements ensures VersionsExact(s', x) {
      assert VersionsExact(s, x);
    }
    forall i | 0 <= i < |s'.acceptances| ensures AcceptedVersionSound(s', s'.acceptances[i]) {
      assert AcceptedVersionSound(s, s.acceptances[i]);
    }
    forall k | k in s'.tickets ensures TicketSound(s', s'.tickets[k]) {
      assert k in s.tickets ==> TicketSound(s, s.tickets[k]);
    }
  }

  /** Creating, updating and disabling an agreement. */
  lemma TermsKeepInvariant(s: State, e: Event)
    requires Invariant(s) && Enabled(s, e) && (e.Created? || e.Updated? || e.Disabled?)
    ensures Invariant(Next(s, e))
  {
    var s' := Next(s, e);
    forall x | x in s'.agreements ensures VersionsExact(s', x) {
      assert x in s.agreements ==> VersionsExact(s, x);
    }
    forall i | 0 <= i < |s'.acceptances| ensures AcceptedVersionSound(s', s'.acceptances[i]) {
      assert AcceptedVersionSound(s, s.acceptances[i]);
    }
    forall k | k in s'.tickets ensures TicketSound(s', s'.tickets[k]) {
      assert TicketSound(s, s.tickets[k]);
    }
  }

  lemma StepKeepsInvariant(s: State, e: Event)
    requires Invariant(s) && Enabled(s, e)
    ensures Invariant(Next(s, e))
  {
    match e
    case Published(id, bump, body) =>
      if id in s.agreements {
        PublishKeepsInvariant(s, id, bump, body);
      }
    case Registered(ticket, items, listing) => RegisteredKeepsInvariant(s, ticket, items, listing);
    case Verified(ticket, user) => VerifyKeepsInvariant(s, ticket, user);
    case _ => TermsKeepInvariant(s, e);
  }

  /** In every reachable state published versions are exactly 1 to current, acceptance rows are unique, and
      nobody has accepted an unpublished version other than the first. */
  lemma {:induction false} InvariantAlwaysHolds(s: State, events: seq<Event>, s': State)
    requires Invariant(s) && Run(s, events, s')
    ensures Invariant(s')
    decreases |events|
  {
    if events == [] {
    } else {
      StepKeepsInvariant(s, events[0]);
      InvariantAlwaysHolds(Next(s, events[0]), events[1..], s');
    }
  }

  // ----- Re-consent -----

  /** Events that publish no version and change no agreement's terms. */
  predicate Quiet(e: Event) {
    match e
    case Published(_, bump, _) => !bump
    case Updated(_, _) => false
    case _ => true
  }

  lemma {:induction false} MaxAcceptedGrows(rows: seq<Acceptance>, more: seq<Acceptance>, user: int, id: int)
    ensures MaxAccepted(rows, user, id) <= MaxAccepted(rows + more, user, id)
  {
    var m := MaxAccepted(rows, user, id);
    if m > 0 {
      RowsAppend(rows, more, user, Item(id, m));
    }
  }

  lemma RecordingAddsNothingPending(s: State, other: int, items: seq<Item>, user: int, id: int)
    ensures Pending(Recorded(s, other, items), user, id) ==> Pending(s, user, id)
  {
    MaxAcceptedGrows(s.acceptances, NewRows(s, other, items), user, id);
  }

  lemma QuietStepAddsNothingPending(s: State, e: Event, user: int, id: int)
    requires Invariant(s) && Enabled(s, e) && Quiet(e) && !Pending(s, user, id)
    ensures !Pending(Next(s, e), user, id)
  {
    if e.Verified? {
      RecordingAddsNothingPending(s, e.user, s.tickets[e.ticket], user, id);
    }
  }

  /** What is not pending stays so until a later bump or an admin update. */
  lemma {:induction false} NothingPendingUntilLoud(s: State, events: seq<Event>, s': State, user: int, id: int)
    requires Invariant(s) && Run(s, events, s') && !Pending(s, user, id)
    requires forall i :: 0 <= i < |events| ==> Quiet(events[i])
    ensures !Pending(s', user, id)
    decreases |events|
  {
    if events == [] {
    } else {
      QuietStepAddsNothingPending(s, events[0], user, id);
      StepKeepsInvariant(s, events[0]);
      NothingPendingUntilLoud(Next(s, events[0]), events[1..], s', user, id);
    }
  }

  /** A bump of a register agreement makes it pending for exactly the users without a row of the new version:
      for everybody past the first bump, and at the first for all but those backfilled with version 1. */
  lemma BumpMakesPending(s: State, id: int, body: string, user: int)
    requires Invariant(s) && id in s.agreements
    requires s.agreements[id].enabled && s.agreements[id].requireRegister
    ensures var s' := Bumped(s, id, body);
            var v := s.agreements[id].currentVersion + 1;
            && s'.agreements[id].currentVersion == v
            && s'.versions == s.versions[id := s.versions[id] + [VersionRow(v, body)]]
            && (v > 1 ==> Pending(s', user, id))
            && (v == 1 ==> (Pending(s', user, id) <==> !HasRow(s.acceptances, user, Item(id, 1))))
  {
    assert VersionsExact(s, id);
    MaxOfExact(s.versions[id]);
    var m := MaxAccepted(s.acceptances, user, id);
    if m > 0 {
      var i :| 0 <= i < |s.acceptances| && s.acceptances[i].user == user && s.acceptances[i].agreement == id
               && s.acceptances[i].version == m;
      assert AcceptedVersionSound(s, s.acceptances[i]);
    }
  }

  /** A patch in place replaces the body of the current version, and changes nothing that is required,
      accepted or pending for anybody. */
  lemma PatchChangesNobodysPending(s: State, id: int, body: string)
    requires Invariant(s) && id in s.agreements
    ensures var s' := Patched(s, id, body);
            && s'.agreements == s.agreements && s'.acceptances == s.acceptances
            && (forall user, x :: Pending(s', user, x) <==> Pending(s, user, x))
            && (s.agreements[id].currentVersion > 0 ==>
                  var v := s.agreements[id].currentVersion;
                  s'.versions == s.versions[id := s.versions[id][v - 1 := VersionRow(v, body)]])
  {
    assert VersionsExact(s, id);
    var v := s.agreements[id].currentVersion;
    if v > 0 {
      assert s.versions[id][v - 1].version == v;
      assert FindVersion(s.versions[id], v) == v - 1;
    }
  }

  // ----- The service -----

  class AgreementService {
    var state: State

    constructor (s: State)
      ensures state == s
    {
      state := s;
    }

    /** `listing` is the result of the query; the dict of items and the walk over the required rows. */
    method ValidateAcceptance(items: seq<Item>, ghost c: Context, listing: seq<int>)
      returns (r: Result<seq<Item>, Error>)
      requires Listing(state, c, listing)
      ensures r.Ok? <==> Accepts(state, items, listing)
      ensures r.Ok? ==> r.value == Canonical(state, listing)
      ensures r.Ok? ==> forall i :: 0 <= i < |r.value| ==> r.value[i] in items
      ensures r.Err? ==>
                exists n :: 0 <= n < |listing| && listing[n] == r.error.id && Accepts(state, items, listing[..n])
      ensures r.Err? ==>
                !LastNames(items, r.error.id, state.agreements[r.error.id].currentVersion)
                && (r.error.MissingItem? <==> forall k :: 0 <= k < |items| ==> items[k].agreement != r.error.id)
    {
      var byId: map<int, Item> := map[];
      for i := 0 to |items|
        invariant forall id :: id in byId <==> LastItem(items[..i], id).Some?
        invariant forall id :: id in byId ==> Some(byId[id]) == LastItem(items[..i], id)
      {
        assert items[..i + 1][..i] == items[..i];
        byId := byId[items[i].agreement := items[i]];
      }
      assert items[..|items|] == items;
      var validated: seq<Item> := [];
      for i := 0 to |listing|
        invariant validated == Canonical(state, listing)[..i]
        invariant forall j :: 0 <= j < i ==>
          LastNames(items, listing[j], state.agreements[listing[j]].currentVersion)
        invariant forall j :: 0 <= j < i ==> validated[j] in items
      {
        var id := listing[i];
        LastNamesIff(items, id, state.agreements[id].currentVersion);
        assert Accepts(state, items, listing[..i]);
        if id !in byId {
          return Err(MissingItem(id));
        }
        var current := state.agreements[id].currentVersion;
        if byId[id].version != current {
          return Err(WrongVersion(id));
        }
        validated := validated + [Item(id, current)];
      }
      r := Ok(validated);
    }

    /** One existence check per item against the stored rows, additions kept aside until the commit. */
    method Record(user: int, items: seq<Item>) returns (r: Option<nat>)
      modifies this
      ensures state == Recorded(old(state), user, items)
      ensures r.Some? <==> UniqueRows(old(state).acceptances + NewRows(old(state), user, items))
      ensures r.Some? ==> r.value == |NewRows(old(state), user, items)|
    {
      var added: seq<Acceptance> := [];
      var inserted: nat := 0;
      assert items[0..] == items;
      for i := 0 to |items|
        invariant state == old(state)
        invariant added + NewRows(state, user, items[i..]) == NewRows(state, user, items)
        invariant inserted == |added|
      {
        var x := items[i];
        assert items[i..][1..] == items[i + 1..];
        if !HasRow(state.acceptances, user, x) {
          added := added + [Acceptance(user, x.agreement, x.version, SlugOf(state, x.agreement))];
          inserted := inserted + 1;
        }
      }
      assert added == NewRows(state, user, items) by {
        assert items[|items|..] == [];
      }
      var rows := state.acceptances + added;
      if !UniqueRows(rows) {
        return None;
      }
      state := state.(acceptances := rows);
      r := Some(inserted);
    }

    /** The accepted map: the highest version per agreement of the listing. */
    method HighestAccepted(user: int, listing: seq<int>) returns (accepted: map<int, int>)
      ensures forall id :: id in listing ==>
                (if id in accepted && accepted[id] > 0 then accepted[id] else 0)
                == MaxAccepted(state.acceptances, user, id)
    {
      accepted := map[];
      var rows := state.acceptances;
      for i := 0 to |rows|
        invariant forall id :: id in listing ==>
          (if id in accepted && accepted[id] > 0 then accepted[id] else 0) == MaxAccepted(rows[..i], user, id)
      {
        assert rows[..i + 1][..i] == rows[..i];
        var row := rows[i];
        if row.user == user && row.agreement in listing {
          if row.agreement !in accepted || row.version > accepted[row.agreement] {
            accepted := accepted[row.agreement := row.version];
          }
        }
      }
      assert rows[..|rows|] == rows;
    }

    /** The required agreements whose current version exceeds the user's highest. */
    method PendingForUser(user: int, listing: seq<int>) returns (out: seq<int>)
      requires Listing(state, Reconsent, listing)
      ensures out == PendingList(state, user, listing)
      ensures forall id :: id in out <==> Pending(state, user, id)
    {
      var accepted := HighestAccepted(user, listing);
      out := [];
      assert listing[0..] == listing;
      for i := 0 to |listing|
        invariant out + PendingList(state, user, listing[i..]) == PendingList(state, user, listing)
      {
        var id := listing[i];
        assert id in listing;
        assert Required(state, Reconsent, id);
        PendingListStep(state, user, listing, i, out);
        if (if id in accepted then accepted[id] else 0) < state.agreements[id].currentVersion {
          out := out + [id];
        }
      }
      PendingListHolds(state, user, listing);
    }

    /** Insert and advance, or overwrite in place; false for the conflicts and the missing agreement. */
    method Publish(id: int, bump: bool, body: string) returns (ok: bool)
      requires Invariant(state)
      modifies this
      ensures state == Next(old(state), Published(id, bump, body))
      ensures ok <==> id in old(state).agreements && (bump || old(state).agreements[id].currentVersion > 0)
    {
      if id !in state.agreements {
        return false;
      }
      assert VersionsExact(state, id);
      var rows := GetOr(state.versions, id, []);
      if bump {
        var next := MaxVersion(rows) + 1;
        state := state.(versions := state.versions[id := rows + [VersionRow(next, body)]]);
        state := state.(agreements := state.agreements[id := state.agreements[id].(currentVersion := next)]);
        return true;
      }
      var current := state.agreements[id].currentVersion;
      if current <= 0 {
        return false;
      }
      var i := FindVersion(rows, current);
      assert rows[current - 1].version == current;
      if i == |rows| {
        return false;
      }
      state := state.(versions := state.versions[id := rows[i := VersionRow(current, body)]]);
      ok := true;
    }
  }
}
