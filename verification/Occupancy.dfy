/** Counted capacity: who is inside an area, how the counts move, and how high they can go. */
module Occupancy {
  import opened Model
  import opened ServiceSpec
  import opened Interleaving
  import opened Lifecycle
  import opened History
  import Listing
  import StoreSpec

  // ---- Counting the same cars in two ways

  lemma {:induction false} InjectiveMapSizes<A, B>(f: map<A, B>)
    requires forall p, q | p in f && q in f && p != q :: f[p] != f[q]
    ensures |f.Keys| == |f.Values|
    decreases |f|
  {
    if f.Keys != {} {
      var k :| k in f;
      var g := f - {k};
      InjectiveMapSizes(g);
      assert g.Keys == f.Keys - {k};
      forall v | v in f.Values && v != f[k] ensures v in g.Values {
        var q :| q in f && f[q] == v;
        assert q in g && g[q] == v;
      }
      assert g.Values == f.Values - {f[k]};
    } else {
      assert f.Values == {};
    }
  }

  /** The active authorizations of an area, archived ones included. */
  function ActiveIn(s: State, area: Id): set<Id> {
    set k | k in s.auths && s.auths[k].areaId == area && s.auths[k].status == Active
  }

  lemma OccupantsAreActive(s: State, area: Id)
    requires Corresponds(s)
    ensures |StoreSpec.Occupants(s, area)| == |ActiveIn(s, area)|
  {
    var f := map r | r in StoreSpec.Occupants(s, area) :: s.records[r].authId;
    assert f.Keys == StoreSpec.Occupants(s, area);
    forall k | k in ActiveIn(s, area) ensures k in f.Values {
      RecordsByStatus(s, k);
      var r :| RecordsOf(s, k) == {r} && s.records[r].status == Entered;
      assert r in RecordsOf(s, k) && InStep(s, r);
      assert r in f && f[r] == k;
    }
    forall k | k in f.Values ensures k in ActiveIn(s, area) {
      var r :| r in f && f[r] == k;
      assert InStep(s, r);
    }
    assert f.Values == ActiveIn(s, area);
    InjectiveMapSizes(f);
  }

  /**
   * Four ways to see how full a live area is: the total of the current vehicles, the occupied figure of the
   * statistics, the gate's count, and the active authorizations. Room is reported exactly when the gate has room.
   */
  lemma ViewsAgree(s: State, area: Id, page: Listing.Page)
    requires Corresponds(s) && area != "" && StoreSpec.AreaLive(s, area) && s.areas[area].id == area
    ensures |Listing.MatchingRecords(s, Listing.RecordFilter(area, Some(Entered), [], page))|
            == Listing.UseOf(s, s.areas[area]).occupied
            == |StoreSpec.Occupants(s, area)|
            == |ActiveIn(s, area)|
    ensures Listing.UseOf(s, s.areas[area]).available > 0 <==> |ActiveIn(s, area)| < s.areas[area].capacity
  {
    Listing.CurrentVehiclesAreInside(s, area, page);
    OccupantsAreActive(s, area);
  }

  function Max(a: int, b: int): int {
    if a > b then a else b
  }

  lemma CrossMultiplied(a: int, b: int, c: int, d: int, u: real, v: real)
    requires b > 0 && d > 0 && u == a as real / b as real && v == c as real / d as real && u >= v
    ensures a * d >= c * b
  {
    assert u * b as real == a as real && v * d as real == c as real;
    assert (u - v) * (b as real * d as real) >= 0.0;
    assert (a * d) as real == u * b as real * d as real && (c * b) as real == v * d as real * b as real;
  }

  /** The figures of one live area: its own fields, the active authorizations, the places left and their quotient. */
  ghost predicate FiguresOf(s: State, k: Id, use: Listing.AreaUse)
    requires k in s.areas
  {
    var a := s.areas[k];
    && (use.areaId, use.name, use.code, use.capacity) == (k, a.name, a.code, a.capacity)
    && use.occupied == |ActiveIn(s, k)|
    && use.available >= 0 && use.occupied + use.available == Max(a.capacity, use.occupied)
    && (if a.capacity > 0 then use.utilization * a.capacity as real == use.occupied as real else use.utilization == 0.0)
  }

  lemma FiguresHold(s: State, k: Id)
    requires Corresponds(s) && k in s.areas && s.areas[k].id == k
    ensures FiguresOf(s, k, Listing.UseOf(s, s.areas[k]))
  {
    OccupantsAreActive(s, k);
    hide Corresponds, ActiveIn, StoreSpec.Occupants;
    var use := Listing.UseOf(s, s.areas[k]);
    if s.areas[k].capacity > 0 {
      assert use.utilization == use.occupied as real / s.areas[k].capacity as real;
    }
  }

  lemma OrderOf(u: Listing.AreaUse, v: Listing.AreaUse)
    requires v.capacity > 0 && u.utilization >= v.utilization
    requires v.utilization == v.occupied as real / v.capacity as real && v.occupied >= 0
    requires u.utilization == if u.capacity > 0 then u.occupied as real / u.capacity as real else 0.0
    ensures u.capacity > 0 ==> u.occupied * v.capacity >= v.occupied * u.capacity
    ensures u.capacity <= 0 ==> v.occupied == 0
  {
    if u.capacity > 0 {
      CrossMultiplied(u.occupied, u.capacity, v.occupied, v.capacity, u.utilization, v.utilization);
    } else {
      assert v.utilization * v.capacity as real == v.occupied as real;
    }
  }

  /**
   * The occupancy statistics: one entry for each live area, with its figures, and the fuller areas first, compared by
   * cross-multiplied counts.
   */
  lemma StatisticsAnswer(s: State, order: seq<Id>, uses: seq<Listing.AreaUse>)
    requires Corresponds(s) && (forall k | k in s.areas :: s.areas[k].id == k)
    requires |uses| == |order| && Listing.ArrangesUses(s, order, uses)
    ensures forall k :: k in order <==> k in s.areas && s.areas[k].archivedAt.None?
    ensures forall i, j | 0 <= i < j < |order| :: order[i] != order[j]
    ensures forall i | 0 <= i < |uses| :: order[i] in s.areas && FiguresOf(s, order[i], uses[i])
    ensures forall i, j | 0 <= i < j < |uses| && uses[i].capacity > 0 && uses[j].capacity > 0 ::
              uses[i].occupied * uses[j].capacity >= uses[j].occupied * uses[i].capacity
    ensures forall i, j | 0 <= i < j < |uses| && uses[i].capacity <= 0 && uses[j].capacity > 0 :: uses[j].occupied == 0
  {
    hide Corresponds, FiguresOf;
    forall i | 0 <= i < |uses| ensures FiguresOf(s, order[i], uses[i]) {
      FiguresHold(s, order[i]);
    }
    forall i, j | 0 <= i < j < |uses| && uses[j].capacity > 0
      ensures uses[i].capacity > 0 ==> uses[i].occupied * uses[j].capacity >= uses[j].occupied * uses[i].capacity
      ensures uses[i].capacity <= 0 ==> uses[j].occupied == 0
    {
      OrderOf(uses[i], uses[j]);
    }
  }

  /**
   * The gate opens exactly for a live pending authorization in its window, for a live area with fewer active ones
   * than places.
   */
  lemma GateOpensIff(s: State, id: Id, now: Time, recId: Id)
    requires Corresponds(s)
    ensures StoreSpec.EnterVehicle(s, id, now, recId).Ok?
            <==> StoreSpec.AuthLive(s, id) && s.auths[id].status == Pending
                 && s.auths[id].start <= now < s.auths[id].end
                 && StoreSpec.AreaLive(s, s.auths[id].areaId)
                 && |ActiveIn(s, s.auths[id].areaId)| < s.areas[s.auths[id].areaId].capacity
  {
    if id in s.auths {
      OccupantsAreActive(s, s.auths[id].areaId);
    }
  }

  // ---- How a step moves the count

  predicate EntersArea(lock: Lock, x: Sys, l: Label, area: Id) {
    l.Enter? && Succeeds(lock, x, l) && x.store.auths[l.id].areaId == area
  }

  predicate ExitsArea(lock: Lock, x: Sys, l: Label, area: Id) {
    l.Exit? && Succeeds(lock, x, l) && x.store.records[l.found.value].areaId == area
  }

  lemma OpenRecordAddsOne(s: State, s': State, recId: Id, rec: Record, area: Id)
    requires recId !in s.records && s'.records == s.records[recId := rec] && rec.status == Entered
    ensures |StoreSpec.Occupants(s', area)| == |StoreSpec.Occupants(s, area)| + (if rec.areaId == area then 1 else 0)
  {
    assert StoreSpec.Occupants(s', area)
        == if rec.areaId == area then StoreSpec.Occupants(s, area) + {recId} else StoreSpec.Occupants(s, area);
  }

  lemma EntryAddsOne(s: State, id: Id, now: Time, recId: Id, area: Id)
    requires recId !in s.records && StoreSpec.EnterVehicle(s, id, now, recId).Ok?
    ensures var s' := StoreSpec.EnterVehicle(s, id, now, recId).value.0;
            if s.auths[id].areaId == area
            then |StoreSpec.Occupants(s', area)| == |StoreSpec.Occupants(s, area)| + 1
                 && StoreSpec.AreaLive(s, area) && |StoreSpec.Occupants(s, area)| < s.areas[area].capacity
            else |StoreSpec.Occupants(s', area)| == |StoreSpec.Occupants(s, area)|
  {
    hide StoreSpec.Occupants;
    var (s', rec) := StoreSpec.EnterVehicle(s, id, now, recId).value;
    OpenRecordAddsOne(s, s', recId, rec, area);
  }

  lemma ExitRemovesOne(s: State, id: Id, now: Time, operator: string, note: string, found: Option<Id>, area: Id)
    requires StoreSpec.ScanFinds(s, id, found) && StoreSpec.ExitVehicle(s, id, now, operator, note, found).Ok?
    ensures var s' := StoreSpec.ExitVehicle(s, id, now, operator, note, found).value.0;
            |StoreSpec.Occupants(s', area)|
            == |StoreSpec.Occupants(s, area)| - (if s.records[found.value].areaId == area then 1 else 0)
  {
    var s' := StoreSpec.ExitVehicle(s, id, now, operator, note, found).value.0;
    assert StoreSpec.Occupants(s', area) == StoreSpec.Occupants(s, area) - {found.value};
  }

  lemma OthersKeepRecords(lock: Lock, x: Sys, l: Label)
    requires Enabled(x, l) && !(Succeeds(lock, x, l) && (l.Enter? || l.Exit?))
    ensures Next(lock, x, l).store.records == x.store.records
  {
  }

  /**
   * The count of an area moves by one, up with an entry that found room and down with an exit, and with nothing else.
   */
  lemma StepMovesCount(lock: Lock, x: Sys, l: Label, area: Id)
    requires Enabled(x, l)
    ensures var before, after := StoreSpec.Occupants(x.store, area), StoreSpec.Occupants(Next(lock, x, l).store, area);
            && |after| == |before|
               + (if EntersArea(lock, x, l, area) then 1 else 0) - (if ExitsArea(lock, x, l, area) then 1 else 0)
            && (EntersArea(lock, x, l, area) ==>
               StoreSpec.AreaLive(x.store, area) && |before| < x.store.areas[area].capacity)
  {
    hide StoreSpec.EnterVehicle, StoreSpec.ExitVehicle, StoreSpec.CreateAuthorization, CommitUpdate;
    if Succeeds(lock, x, l) && l.Enter? {
      EntryAddsOne(x.store, l.id, l.now, l.recId, area);
    } else if Succeeds(lock, x, l) && l.Exit? {
      ExitRemovesOne(x.store, l.id, l.now, TrimSpace(l.operator), l.note, l.found, area);
    } else {
      OthersKeepRecords(lock, x, l);
      assert StoreSpec.Occupants(Next(lock, x, l).store, area) == StoreSpec.Occupants(x.store, area);
    }
  }

  /** Occupied is what was occupied at the start, plus the entries, minus the exits. */
  lemma {:induction false} EntriesMinusExits(lock: Lock, x: Sys, ls: seq<Label>, area: Id)
    requires Run(lock, x, ls)
    ensures |StoreSpec.Occupants(Final(lock, x, ls).store, area)|
            == |StoreSpec.Occupants(x.store, area)|
               + Count(lock, x, ls, (y, l) => EntersArea(lock, y, l, area))
               - Count(lock, x, ls, (y, l) => ExitsArea(lock, y, l, area))
    decreases |ls|
  {
    if ls != [] {
      StepMovesCount(lock, x, ls[0], area);
      EntriesMinusExits(lock, Next(lock, x, ls[0]), ls[1..], area);
    }
  }

  // ---- How high the count can go

  function CapacityOf(s: State, area: Id): int {
    if area in s.areas then s.areas[area].capacity else 0
  }

  /** The largest capacity the area has in any state of the run. */
  function Peak(lock: Lock, x: Sys, ls: seq<Label>, area: Id): int
    requires Run(lock, x, ls)
    decreases |ls|
  {
    Max(CapacityOf(x.store, area), if ls == [] then 0 else Peak(lock, Next(lock, x, ls[0]), ls[1..], area))
  }

  /**
   * Under any interleaving, lowered capacities included, an area never holds more cars than its largest capacity so
   * far.
   */
  lemma {:induction false} NeverAbovePeak(lock: Lock, x: Sys, ls: seq<Label>, area: Id)
    requires Run(lock, x, ls)
    ensures |StoreSpec.Occupants(Final(lock, x, ls).store, area)|
            <= Max(|StoreSpec.Occupants(x.store, area)|, Peak(lock, x, ls, area))
    decreases |ls|
  {
    if ls != [] {
      StepMovesCount(lock, x, ls[0], area);
      NeverAbovePeak(lock, Next(lock, x, ls[0]), ls[1..], area);
    }
  }

  predicate KeepsCapacity(lock: Lock, x: Sys, l: Label, area: Id) {
    Enabled(x, l) && CapacityOf(x.store, area) <= CapacityOf(Next(lock, x, l).store, area)
  }

  ghost predicate Fits(s: State, area: Id) {
    |StoreSpec.Occupants(s, area)| <= CapacityOf(s, area)
  }

  /** With a capacity that is never lowered, an area that fits keeps fitting. */
  lemma NeverOverCapacity(lock: Lock, x: Sys, ls: seq<Label>, area: Id)
    requires Fits(x.store, area) && Run(lock, x, ls) && Along(lock, x, ls, (y, l) => KeepsCapacity(lock, y, l, area))
    ensures Fits(Final(lock, x, ls).store, area)
  {
    var ok := (y, l) => KeepsCapacity(lock, y, l, area);
    forall y: Sys, l | Fits(y.store, area) && ok(y, l) && Enabled(y, l) ensures Fits(Next(lock, y, l).store, area) {
      StepMovesCount(lock, y, l, area);
    }
    Invariance(lock, x, ls, (y: Sys) => Fits(y.store, area), ok);
  }

  lemma AreasStep(lock: Lock, x: Sys, l: Label)
    requires Enabled(x, l)
    ensures Next(lock, x, l).store.areas
            == if l.SetArea? then x.store.areas[l.area.id := l.area] else x.store.areas
  {
  }

  /** A write to the area leaves it at least as many places as cars are inside. */
  ghost predicate LeavesRoom(x: Sys, l: Label, area: Id) {
    l.SetArea? && l.area.id == area ==> |StoreSpec.Occupants(x.store, area)| <= l.area.capacity
  }

  ghost predicate StaysFit(lock: Lock, x: Sys, l: Label, area: Id) {
    Enabled(x, l) && Fits(Next(lock, x, l).store, area)
  }

  /**
   * Under any interleaving: an area is within its capacity after every step exactly when every write to it leaves
   * room for the cars inside.
   */
  lemma FitsThroughoutIff(lock: Lock, x: Sys, ls: seq<Label>, area: Id)
    requires Fits(x.store, area) && Run(lock, x, ls)
    ensures Along(lock, x, ls, (y, l) => StaysFit(lock, y, l, area))
            <==> Along(lock, x, ls, (y, l) => LeavesRoom(y, l, area))
  {
    var p, q := (y, l) => StaysFit(lock, y, l, area), (y, l) => LeavesRoom(y, l, area);
    var inv := (y: Sys) => Fits(y.store, area);
    forall y, l | inv(y) && Enabled(y, l) ensures (p(y, l) <==> q(y, l)) && (p(y, l) ==> inv(Next(lock, y, l))) {
      StepMovesCount(lock, y, l, area);
      AreasStep(lock, y, l);
      hide Next, Enabled;
    }
    AlongIff(lock, x, ls, inv, p, q);
  }

  /**
   * An area update makes no occupancy check: it leaves an area that fits exactly when the cars inside fit the
   * capacity it asks for.
   */
  lemma AreaUpdateFitsIff(s: State, id: Id, req: AreaRequest, now: Time)
    requires UpdateParkingArea(s, id, req, now).Ok? && s.areas[id].id == id
    ensures var s' := UpdateParkingArea(s, id, req, now).value.0;
            Fits(s', id) <==> |StoreSpec.Occupants(s, id)| <= (if req.capacity > 0
              then req.capacity else s.areas[id].capacity)
  {
    var s' := UpdateParkingArea(s, id, req, now).value.0;
    assert StoreSpec.Occupants(s', id) == StoreSpec.Occupants(s, id);
  }

  // ---- Draining

  function Inside(s: State): set<Id> {
    set r | r in s.records && s.records[r].status == Entered
  }

  /**
   * Exiting these authorizations one after the other never errs, lets out exactly one car each time, and leaves no
   * car inside.
   */
  ghost predicate Drains(s: State, order: seq<Id>, nows: seq<Time>, operator: string, note: string)
    requires |nows| == |order|
    decreases |order|
  {
    if order == [] then Inside(s) == {}
    else
      forall found | StoreSpec.ScanFinds(s, order[0], found) ::
        var exit := StoreSpec.ExitVehicle(s, order[0], nows[0], operator, note, found);
        && exit.Ok?
        && |Inside(exit.value.0)| == |Inside(s)| - 1
        && Drains(exit.value.0, order[1..], nows[1..], operator, note)
  }

  /** The authorizations that are active, each listed once, in any order. */
  ghost predicate ListsActive(s: State, order: seq<Id>) {
    && (forall k :: k in order <==> k in s.auths && s.auths[k].status == Active)
    && forall i, j | 0 <= i < j < |order| :: order[i] != order[j]
  }

  ghost predicate NoneArchived(s: State, order: seq<Id>) {
    forall k | k in order :: StoreSpec.AuthLive(s, k)
  }

  lemma ListTail(s: State, s': State, order: seq<Id>)
    requires order != [] && ListsActive(s, order) && s'.auths.Keys == s.auths.Keys
    requires order[0] in s.auths && s.auths[order[0]].archivedAt.None? && s'.auths[order[0]].status != Active
    requires forall k | k in s.auths && k != order[0] :: s'.auths[k] == s.auths[k]
    ensures ListsActive(s', order[1..]) && (NoneArchived(s, order) <==> NoneArchived(s', order[1..]))
  {
    assert forall k :: k in order <==> k == order[0] || k in order[1..];
    assert forall k | k in order[1..] :: k != order[0];
  }

  lemma ClosingLetsOneOut(s: State, s': State, r: Id, rec: Record)
    requires r in s.records && s.records[r].status == Entered && rec.status != Entered
             && s'.records == s.records[r := rec]
    ensures |Inside(s')| == |Inside(s)| - 1
  {
    assert Inside(s') == Inside(s) - {r} && r in Inside(s);
  }

  lemma ExitLetsOneOut(s: State, order: seq<Id>, now: Time, operator: string, note: string, found: Option<Id>)
    requires Corresponds(s) && order != [] && ListsActive(s, order) && StoreSpec.ScanFinds(s, order[0], found)
    requires StoreSpec.AuthLive(s, order[0])
    ensures var exit := StoreSpec.ExitVehicle(s, order[0], now, operator, note, found);
            && exit.Ok?
            && |Inside(exit.value.0)| == |Inside(s)| - 1
            && Corresponds(exit.value.0)
            && ListsActive(exit.value.0, order[1..])
            && (NoneArchived(s, order) <==> NoneArchived(exit.value.0, order[1..]))
  {
    assert order[0] in order;
    ExitFindsItsRecord(s, order[0], found);
    hide Corresponds, ListsActive, NoneArchived;
    var exit := StoreSpec.ExitVehicle(s, order[0], now, operator, note, found);
    ExitKeeps(s, order[0], now, operator, note, found);
    ListTail(s, exit.value.0, order);
    ClosingLetsOneOut(s, exit.value.0, found.value, exit.value.1);
  }

  /** Every active car can be let out, in any order, exactly when no active authorization has been archived. */
  lemma {:induction false} DrainsExactlyWhenNoneArchived(
      s: State, order: seq<Id>, nows: seq<Time>, operator: string, note: string)
    requires Corresponds(s) && ListsActive(s, order) && |nows| == |order|
    ensures Drains(s, order, nows, operator, note) <==> NoneArchived(s, order)
    decreases |order|
  {
    if order == [] {
      assert forall r | r in s.records :: InStep(s, r);
    } else {
      ScanFindsSome(s, order[0]);
      assert order[0] in order;
      forall found | StoreSpec.ScanFinds(s, order[0], found) && StoreSpec.AuthLive(s, order[0])
        ensures var exit := StoreSpec.ExitVehicle(s, order[0], nows[0], operator, note, found);
                && exit.Ok? && |Inside(exit.value.0)| == |Inside(s)| - 1
                && (Drains(exit.value.0, order[1..], nows[1..], operator, note) <==> NoneArchived(s, order))
      {
        ExitLetsOneOut(s, order, nows[0], operator, note, found);
        var exit := StoreSpec.ExitVehicle(s, order[0], nows[0], operator, note, found);
        DrainsExactlyWhenNoneArchived(exit.value.0, order[1..], nows[1..], operator, note);
      }
    }
  }

  lemma ScanFindsSome(s: State, id: Id)
    ensures exists found :: StoreSpec.ScanFinds(s, id, found)
  {
    if r :| r in s.records && StoreSpec.IsInsideFor(s, id, r) {
      assert StoreSpec.ScanFinds(s, id, Some(r));
    } else {
      assert StoreSpec.ScanFinds(s, id, None);
    }
  }

  lemma StepKeepsArchivedCar(lock: Lock, x: Sys, l: Label, id: Id, r: Id)
    requires Enabled(x, l) && id in x.store.auths && x.store.auths[id].archivedAt.Some?
    requires r in x.store.records && StoreSpec.IsInsideFor(x.store, id, r)
    ensures r in Next(lock, x, l).store.records && Next(lock, x, l).store.records[r] == x.store.records[r]
  {
    RecordStep(lock, x, l, r);
    hide Next;
  }

  /**
   * The car of an authorization that is archived while it is inside: under any interleaving its record stays open and
   * never changes again, and its place stays taken.
   */
  lemma {:induction false} ArchivedCarStaysInside(lock: Lock, x: Sys, ls: seq<Label>, id: Id, r: Id)
    requires Run(lock, x, ls) && id in x.store.auths && x.store.auths[id].archivedAt.Some?
    requires r in x.store.records && StoreSpec.IsInsideFor(x.store, id, r)
    ensures var s := Final(lock, x, ls).store;
            r in s.records && s.records[r] == x.store.records[r]
            && r in StoreSpec.Occupants(s, x.store.records[r].areaId)
    decreases |ls|
  {
    if ls != [] {
      StepKeepsArchived(lock, x, ls[0], id);
      StepKeepsArchivedCar(lock, x, ls[0], id, r);
      hide Next;
      ArchivedCarStaysInside(lock, Next(lock, x, ls[0]), ls[1..], id, r);
    }
  }
}
