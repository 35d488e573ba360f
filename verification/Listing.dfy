/** Listing: filter, order, cut into pages. */
module Listing {
  import opened Model
  import Sorting
  import StoreSpec

  datatype Page = Page(limit: int, offset: int)

  function NormPage(p: Page): Page {
    Page(if p.limit <= 0 || p.limit > 200 then 20 else p.limit, if p.offset < 0 then 0 else p.offset)
  }

  function PageOf<T>(items: seq<T>, page: Page): seq<T> {
    var p := NormPage(page);
    if p.offset >= |items| then []
    else if p.offset + p.limit > |items| then items[p.offset..]
    else items[p.offset..p.offset + p.limit]
  }

  datatype AuthFilter = AuthFilter(
    building: string,
    plate: PlateText,
    areaId: Id,
    status: Option<AuthStatus>,
    validOn: Option<Time>,
    validOnNow: Option<Time>,
    startFrom: Option<Time>,
    startTo: Option<Time>,
    endingBefore: Option<Time>,
    page: Page)

  datatype RecordFilter = RecordFilter(areaId: Id, status: Option<RecordStatus>, plate: PlateText, page: Page)

  predicate LivesIn(s: State, residentId: Id, building: string) {
    exists k | k in s.residents ::
      s.residents[k].id == residentId && s.residents[k].archivedAt.None? && s.residents[k].building == building
  }

  predicate AuthMatches(s: State, f: AuthFilter, a: Authorization) {
    && a.archivedAt.None?
    && (f.plate != [] ==> a.plate == f.plate)
    && (f.areaId != "" ==> a.areaId == f.areaId)
    && (if f.status.Some? then StoreSpec.DeriveStatus(a, f.validOnNow) == f.status.value
        else f.validOn.Some? ==> a.start < f.validOn.value < a.end)
    && (f.startFrom.Some? ==> f.startFrom.value < a.start)
    && (f.startTo.Some? ==> a.start < f.startTo.value)
    && (f.endingBefore.Some? ==> a.end < f.endingBefore.value)
    && (f.building != "" ==> LivesIn(s, a.residentId, f.building))
  }

  predicate RecordMatches(f: RecordFilter, r: Record) {
    && (f.areaId != "" ==> r.areaId == f.areaId)
    && (f.status.Some? ==> r.status == f.status.value)
    && (f.plate != [] ==> r.plate == f.plate)
  }

  function MatchingAuths(s: State, f: AuthFilter): set<Id> {
    set k | k in s.auths && AuthMatches(s, f, s.auths[k])
  }

  function MatchingRecords(s: State, f: RecordFilter): set<Id> {
    set r | r in s.records && RecordMatches(f, s.records[r])
  }

  ghost predicate Distinct(ids: seq<Id>) {
    forall i, j | 0 <= i < j < |ids| :: ids[i] != ids[j]
  }

  /** Each of the ids once, in some order that never goes up in the key. */
  ghost predicate Arranges(order: seq<Id>, ids: set<Id>, key: map<Id, Time>) {
    && (forall k :: k in order <==> k in ids)
    && Distinct(order)
    && ids <= key.Keys
    && forall i, j | 0 <= i < j < |order| :: key[order[i]] >= key[order[j]]
  }

  function StartTimes(s: State): (r: map<Id, Time>)
    ensures r.Keys == s.auths.Keys
  {
    map k | k in s.auths :: s.auths[k].start
  }

  function EntryTimes(s: State): (r: map<Id, Time>)
    ensures r.Keys == s.records.Keys
  {
    map r | r in s.records :: s.records[r].entryTime
  }

  function Rows<T>(table: map<Id, T>, order: seq<Id>): (r: seq<T>)
    requires forall k | k in order :: k in table
    ensures |r| == |order| && forall i | 0 <= i < |r| :: r[i] == table[order[i]]
  {
    seq(|order|, i requires 0 <= i < |order| => table[order[i]])
  }

  /** The ids listed once each, with their keys beside them. */
  ghost predicate Collects<K>(ids: seq<Id>, keys: seq<K>, matching: set<Id>, key: map<Id, K>) {
    Walked({}, ids, keys, matching, key)
  }

  /** The same for a walk over a table that still has some ids before it. */
  ghost predicate Walked<K>(left: set<Id>, ids: seq<Id>, keys: seq<K>, matching: set<Id>, key: map<Id, K>) {
    && |keys| == |ids|
    && (forall k :: k in ids <==> k in matching && k !in left)
    && Distinct(ids)
    && (forall i | 0 <= i < |ids| :: ids[i] in key && keys[i] == key[ids[i]])
  }

  lemma WalkStarts<K>(left: set<Id>, matching: set<Id>, key: map<Id, K>)
    requires matching <= left
    ensures Walked(left, [], [], matching, key)
  {
  }

  lemma WalkEnds<K>(ids: seq<Id>, keys: seq<K>, matching: set<Id>, key: map<Id, K>)
    requires Walked({}, ids, keys, matching, key)
    ensures Collects(ids, keys, matching, key) && |ids| == |keys|
  {
  }

  lemma WalkSkips<K>(left: set<Id>, k: Id, ids: seq<Id>, keys: seq<K>, matching: set<Id>, key: map<Id, K>)
    requires Walked(left, ids, keys, matching, key) && k !in matching
    ensures Walked(left - {k}, ids, keys, matching, key)
  {
    hide Distinct;
  }

  lemma WalkTakes<K>(left: set<Id>, k: Id, ids: seq<Id>, keys: seq<K>, matching: set<Id>, key: map<Id, K>)
    requires Walked(left, ids, keys, matching, key) && k in left && k in matching && k in key
    ensures Walked(left - {k}, ids + [k], keys + [key[k]], matching, key)
  {
    var longer := ids + [k];
    forall i, j | 0 <= i < j < |longer| ensures longer[i] != longer[j] {
      assert longer[i] in ids;
    }
    hide Distinct;
    forall j ensures j in longer <==> j in matching && j !in left - {k} {
    }
  }

  lemma SortedCollectionArranges(ids: seq<Id>, keys: seq<Time>, matching: set<Id>, key: map<Id, Time>, order: seq<nat>)
    requires Collects(ids, keys, matching, key)
    requires Sorting.Descending(Sorting.Reals(keys), order) && |order| == |keys| && forall n ::
             n in order <==> 0 <= n < |keys|
    ensures Arranges(Sorting.Permuted(ids, order), matching, key) && |order| == |matching|
  {
    var arranged := Sorting.Permuted(ids, order);
    forall k ensures k in arranged <==> k in matching {
      if k in matching {
        var n :| 0 <= n < |ids| && ids[n] == k;
        assert n in order;
        var i :| 0 <= i < |order| && order[i] == n;
        assert arranged[i] == k;
      }
    }
    forall k | k in matching ensures k in key {
      assert k in ids;
    }
    forall i, j | 0 <= i < j < |arranged| ensures arranged[i] != arranged[j] && key[arranged[i]] >= key[arranged[j]] {
      assert keys[order[i]] >= keys[order[j]] && order[i] != order[j];
    }
    ArrangedCount(arranged, matching);
  }

  lemma WalkSizes<K>(ids: seq<Id>, keys: seq<K>, matching: set<Id>, key: map<Id, K>)
    requires Collects(ids, keys, matching, key)
    ensures |ids| == |keys|
  {
  }

  lemma ArrangedRows<T>(table: map<Id, T>, order: seq<Id>, ids: set<Id>, key: map<Id, Time>)
    requires Arranges(order, ids, key) && key.Keys == table.Keys
    ensures forall k | k in order :: k in table
  {
  }

  // ---- Paging

  /** The service normalises the page and the store does it again; the second time changes nothing. */
  lemma NormPageOnce<T>(items: seq<T>, p: Page)
    ensures NormPage(NormPage(p)) == NormPage(p)
    ensures PageOf(items, NormPage(p)) == PageOf(items, p)
  {
  }

  function PageStart(total: nat, page: Page): nat {
    var p := NormPage(page);
    if p.offset >= total then 0 else p.offset
  }

  function PageLength(total: nat, page: Page): nat {
    var p := NormPage(page);
    if p.offset >= total then 0 else if p.offset + p.limit > total then total - p.offset else p.limit
  }

  /** Where a page lies depends on how many items there are, not on what they are. */
  lemma PageAt<T>(items: seq<T>, page: Page)
    ensures |PageOf(items, page)| == PageLength(|items|, page)
    ensures PageStart(|items|, page) + PageLength(|items|, page) <= |items|
    ensures forall i | 0 <= i < |PageOf(items, page)| :: PageOf(items, page)[i] == items[PageStart(|items|, page) + i]
  {
  }

  function AtMost(n: int, bound: nat): int {
    if n < bound then n else bound
  }

  /** A page is at most 200 items from the offset on; an odd limit means 20 and a negative offset means the start. */
  lemma PageIs<T>(items: seq<T>, page: Page)
    ensures var from, size := if page.offset < 0 then 0 else page.offset, if 1 <= page.limit <= 200
            then page.limit else 20;
            PageOf(items, page) == items[AtMost(from, |items|)..AtMost(from + size, |items|)]
  {
  }

  /**
   * The pages at an offset and every later multiple of the limit, one after the other, until one starts past the end.
   */
  function Pages<T>(items: seq<T>, limit: int, offset: nat): seq<T>
    requires 1 <= limit <= 200
    decreases |items| - offset
  {
    if offset >= |items| then [] else PageOf(items, Page(limit, offset)) + Pages(items, limit, offset + limit)
  }

  /** Paging loses nothing and repeats nothing. */
  lemma {:induction false} PagesCover<T>(items: seq<T>, limit: int, offset: nat)
    requires 1 <= limit <= 200 && offset <= |items|
    ensures Pages(items, limit, offset) == items[offset..]
    decreases |items| - offset
  {
    if offset + limit < |items| {
      PagesCover(items, limit, offset + limit);
    }
  }

  lemma {:induction false} ArrangedCount(order: seq<Id>, ids: set<Id>)
    requires (forall k :: k in order <==> k in ids) && Distinct(order)
    ensures |order| == |ids|
    decreases |order|
  {
    if order != [] {
      var rest := order[1..];
      assert forall k :: k in order <==> k == order[0] || k in rest;
      assert order[0] !in rest;
      ArrangedCount(rest, ids - {order[0]});
    } else {
      assert ids == {};
    }
  }

  lemma RowsCover<T>(table: map<Id, T>, order: seq<Id>, ids: set<Id>)
    requires ids <= table.Keys && (forall k :: k in order <==> k in ids)
    ensures forall k | k in ids :: table[k] in Rows(table, order)
  {
    forall k | k in ids ensures table[k] in Rows(table, order) {
      var i :| 0 <= i < |order| && order[i] == k;
      assert Rows(table, order)[i] == table[k];
    }
  }

  /**
   * With one fixed order, the pages at offsets 0, L, 2L and so on give every matching authorization exactly once, by
   * start time from the latest on, and their count is the total.
   */
  lemma ListingIsComplete(s: State, f: AuthFilter, order: seq<Id>, limit: int)
    requires Arranges(order, MatchingAuths(s, f), StartTimes(s)) && 1 <= limit <= 200
    ensures var all := Pages(Rows(s.auths, order), limit, 0);
            && |all| == |order| == |MatchingAuths(s, f)|
            && (forall i | 0 <= i < |all| :: order[i] in MatchingAuths(s, f) && all[i] == s.auths[order[i]])
            && (forall k | k in MatchingAuths(s, f) :: s.auths[k] in all)
            && (forall i, j | 0 <= i < j < |all| :: all[i].start >= all[j].start && order[i] != order[j])
  {
    var ids, rows := MatchingAuths(s, f), Rows(s.auths, order);
    PagesCover(rows, limit, 0);
    ArrangedCount(order, ids);
    RowsCover(s.auths, order, ids);
    assert forall i | 0 <= i < |order| :: StartTimes(s)[order[i]] == s.auths[order[i]].start;
    hide AuthMatches, MatchingAuths, PageOf, Pages;
  }

  /** The same for records: every matching record exactly once, by entry time from the latest on. */
  lemma RecordListingIsComplete(s: State, f: RecordFilter, order: seq<Id>, limit: int)
    requires Arranges(order, MatchingRecords(s, f), EntryTimes(s)) && 1 <= limit <= 200
    ensures var all := Pages(Rows(s.records, order), limit, 0);
            && |all| == |order| == |MatchingRecords(s, f)|
            && (forall i | 0 <= i < |all| :: order[i] in MatchingRecords(s, f) && all[i] == s.records[order[i]])
            && (forall r | r in MatchingRecords(s, f) :: s.records[r] in all)
            && (forall i, j | 0 <= i < j < |all| :: all[i].entryTime >= all[j].entryTime && order[i] != order[j])
  {
    var ids, rows := MatchingRecords(s, f), Rows(s.records, order);
    PagesCover(rows, limit, 0);
    ArrangedCount(order, ids);
    RowsCover(s.records, order, ids);
    assert forall i | 0 <= i < |order| :: EntryTimes(s)[order[i]] == s.records[order[i]].entryTime;
    hide RecordMatches, MatchingRecords, PageOf, Pages;
  }

  /** The records a listing shows: each filter that is given must agree, and only those. */
  lemma RecordShownIff(s: State, f: RecordFilter, r: Id)
    ensures r in MatchingRecords(s, f)
            <==> && r in s.records
                 && (f.areaId == "" || s.records[r].areaId == f.areaId)
                 && (f.status == None || f.status == Some(s.records[r].status))
                 && (f.plate == [] || s.records[r].plate == f.plate)
  {
  }

  /** The answer to a query on an area's use; the utilization is the exact quotient. */
  datatype AreaUse = AreaUse(areaId: Id, name: string, code: string, capacity: int, occupied: int, available: int,
    utilization: real)

  function UseOf(s: State, a: Area): AreaUse {
    var occupied := |StoreSpec.Occupants(s, a.id)|;
    AreaUse(a.id, a.name, a.code, a.capacity, occupied,
            if a.capacity - occupied > 0 then a.capacity - occupied else 0,
            if a.capacity > 0 then occupied as real / a.capacity as real else 0.0)
  }

  function LiveAreas(s: State): set<Id> {
    set k | k in s.areas && s.areas[k].archivedAt.None?
  }

  /** The use of each live area once, the most utilized first. */
  ghost predicate ArrangesUses(s: State, order: seq<Id>, uses: seq<AreaUse>)
    requires |uses| == |order|
  {
    && (forall k :: k in order <==> k in LiveAreas(s))
    && Distinct(order)
    && (forall i | 0 <= i < |order| :: order[i] in s.areas && uses[i] == UseOf(s, s.areas[order[i]]))
    && forall i, j | 0 <= i < j < |uses| :: uses[i].utilization >= uses[j].utilization
  }

  /** The use of every area. */
  function Uses(s: State): map<Id, AreaUse> {
    map k | k in s.areas :: UseOf(s, s.areas[k])
  }

  function Rates(uses: seq<AreaUse>): (r: seq<real>)
    ensures |r| == |uses| && forall i | 0 <= i < |r| :: r[i] == uses[i].utilization
  {
    seq(|uses|, i requires 0 <= i < |uses| => uses[i].utilization)
  }

  lemma UsesArranged(s: State, ids: seq<Id>, uses: seq<AreaUse>, perm: seq<nat>)
    requires Collects(ids, uses, LiveAreas(s), Uses(s)) && |perm| == |uses|
    requires Sorting.Descending(Rates(uses), perm) && forall n :: n in perm <==> 0 <= n < |uses|
    ensures ArrangesUses(s, Sorting.Permuted(ids, perm), Sorting.Permuted(uses, perm))
  {
    hide UseOf;
    var order := Sorting.Permuted(ids, perm);
    forall k ensures k in order <==> k in LiveAreas(s) {
      if k in LiveAreas(s) {
        var n :| 0 <= n < |ids| && ids[n] == k;
        assert n in perm;
        var i :| 0 <= i < |perm| && perm[i] == n;
        assert order[i] == k;
      }
    }
  }

  /** The entered records of a named area, or of all areas if none is named. */
  function CarsInside(s: State, area: Id): set<Id> {
    if area != "" then StoreSpec.Occupants(s, area) else set r | r in s.records && s.records[r].status == Entered
  }

  /** The record listing for the entered status holds exactly the cars inside. */
  lemma CurrentVehiclesAreInside(s: State, area: Id, page: Page)
    ensures MatchingRecords(s, RecordFilter(area, Some(Entered), [], page)) == CarsInside(s, area)
  {
  }
}
