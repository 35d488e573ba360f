/** Runs from the empty store, with valid requests, to states in which the service falls short of what one expects. */
module Witnesses {
  import opened Model
  import opened ServiceSpec
  import opened Interleaving
  import opened Lifecycle
  import opened Locking
  import opened Utf8
  import Calls
  import Journal
  import Listing
  import Occupancy
  import Plate
  import StoreSpec
  import Windows

  // ---- Reachable states

  /** A state between steps of some run of the code as written, one call at a time and with clock readings in order. */
  ghost predicate Reached(x: Sys) {
    exists ls ::
      && Run(AsWritten, INITIAL, ls) && Along(AsWritten, INITIAL, ls, OneAtATime)
      && Along(AsWritten, INITIAL, ls, InClockOrder) && Final(AsWritten, INITIAL, ls) == x
  }

  lemma ReachedFurther(x: Sys, l: Label)
    requires Reached(x) && Enabled(x, l) && OneAtATime(x, l) && InClockOrder(x, l)
    ensures Reached(Next(AsWritten, x, l))
  {
    var ls :| Run(AsWritten, INITIAL, ls) && Along(AsWritten, INITIAL, ls, OneAtATime)
              && Along(AsWritten, INITIAL, ls, InClockOrder) && Final(AsWritten, INITIAL, ls) == x;
    hide Next, Enabled, OneAtATime, InClockOrder;
    assert [l] + [] == [l];
    RunCons(AsWritten, x, l, [], OneAtATime);
    RunCons(AsWritten, x, l, [], InClockOrder);
    RunConcat(AsWritten, INITIAL, ls, [l], OneAtATime);
    RunConcat(AsWritten, INITIAL, ls, [l], InClockOrder);
  }

  /** A state between calls. */
  ghost predicate ReachedAtRest(x: Sys) {
    Reached(x) && x.calls == map[]
  }

  lemma ReachedIsConsistent(x: Sys)
    requires Reached(x)
    ensures Consistent(x) && Journal.Kept(x, true)
  {
    var ls :| Run(AsWritten, INITIAL, ls) && Along(AsWritten, INITIAL, ls, OneAtATime)
              && Along(AsWritten, INITIAL, ls, InClockOrder) && Final(AsWritten, INITIAL, ls) == x;
    hide OneAtATime, InClockOrder, Next, Enabled;
    SequentialRunsAreSafe(AsWritten, INITIAL, ls);
    OverPendingIsMild(AsWritten, INITIAL, ls);
    RunsCorrespond(AsWritten, INITIAL, ls);
    Journal.RunsKeepJournal(AsWritten, INITIAL, ls, true);
  }

  lemma EntryWritten(x: Sys, t: Tid, entry: Entry, logId: Id) returns (y: Sys)
    requires Reached(x) && x.calls == map[t := Owing(entry)] && logId !in x.store.logs
    ensures ReachedAtRest(y) && y.clock == x.clock
    ensures y.store == x.store.(logs := y.store.logs) && y.store.logs.Keys == x.store.logs.Keys + {logId}
  {
    hide Reached;
    y := Next(AsWritten, x, WriteLog(t, logId, x.clock));
    ReachedFurther(x, WriteLog(t, logId, x.clock));
    assert y.calls == map[];
  }

  /** The call of one step that succeeds, with its journal entry written at the same clock reading. */
  lemma CallReaches(x: Sys, l: Label, logId: Id) returns (y: Sys)
    requires ReachedAtRest(x) && Succeeds(AsWritten, x, l) && logId !in x.store.logs && x.clock <= l.now
    ensures ReachedAtRest(y) && y.clock == l.now
    ensures y.store == Attempt(AsWritten, x, l).value.0.(logs := y.store.logs)
    ensures y.store.logs.Keys == x.store.logs.Keys + {logId}
  {
    hide Reached;
    Calls.MutationEffect(AsWritten, x, l);
    assert OneAtATime(x, l) && InClockOrder(x, l) && Next(AsWritten, x, l).clock == l.now;
    hide Attempt;
    ReachedFurther(x, l);
    hide Next, Enabled;
    y := EntryWritten(Next(AsWritten, x, l), l.t, Attempt(AsWritten, x, l).value.1, logId);
  }

  // ---- A small service

  const LODGER := Resident("r", "", EnabledResident, None)
  const LOT := Area("p", "", "", 2, None, 5, 5)

  function RunesOf(d: int): seq<Rune>
    requires 0 <= d < 10
  {
    [0x4EAC, 'A' as int, '1' as int, '2' as int, '3' as int, '4' as int, '0' as int + d]
  }

  /** A number plate that ends in the digit. */
  function PlateOf(d: int): PlateText
    requires 0 <= d < 10
  {
    Encode(RunesOf(d))
  }

  lemma PlateIsValid(d: int)
    requires 0 <= d < 10
    ensures Plate.Normalized(PlateOf(d)) == PlateOf(d) && Plate.Valid(PlateOf(d)) && Decode(PlateOf(d)) == RunesOf(d)
  {
    var rs := RunesOf(d);
    DecodeEncode(rs);
    Plate.FoldedFixed(rs);
    assert Plate.WellFormed(rs) by {
      assert Plate.PROVINCES[0] as int == rs[0];
    }
    hide Encode, Decode, RunesOf, Plate.WellFormed, Plate.Folded;
  }

  function Asked(d: int, start: Time, end: Time): CreateRequest
    requires 0 <= d < 10
  {
    CreateRequest("r", PlateOf(d), "p", start, end, "", "")
  }

  function Visit(id: Id, d: int, start: Time, end: Time): Authorization
    requires 0 <= d < 10
  {
    Authorization(id, "r", PlateOf(d), "p", start, end, Pending, "", "system", None, 5, 5)
  }

  ghost predicate Open(s: State) {
    "r" in s.residents && s.residents["r"] == LODGER && "p" in s.areas && s.areas["p"] == LOT
  }

  /** The service with a resident and an area of two places, at time 5. */
  lemma OpenService() returns (x: Sys)
    ensures ReachedAtRest(x) && Open(x.store) && x.clock <= 5
    ensures x.store.auths == map[] && x.store.records == map[] && x.store.logs == map[]
  {
    assert Final(AsWritten, INITIAL, []) == INITIAL;
    assert Reached(INITIAL) by {
      assert Run(AsWritten, INITIAL, []) && Along(AsWritten, INITIAL, [], OneAtATime)
             && Along(AsWritten, INITIAL, [], InClockOrder);
    }
    ReachedFurther(INITIAL, SetResident(LODGER));
    var y := Next(AsWritten, INITIAL, SetResident(LODGER));
    ReachedFurther(y, SetArea(LOT));
    x := Next(AsWritten, y, SetArea(LOT));
  }

  lemma Authorized(x: Sys, id: Id, d: int, start: Time, end: Time, logId: Id) returns (y: Sys)
    requires ReachedAtRest(x) && Open(x.store) && x.clock <= 5 && id !in x.store.auths && logId !in x.store.logs
    requires 0 <= d < 10 && 5 <= start < end <= start + MAX_AUTH_DURATION
    requires !StoreSpec.Clashes(x.store, Visit(id, d, start, end))
    ensures ReachedAtRest(y) && y.clock == 5
    ensures y.store == x.store.(auths := x.store.auths[id := Visit(id, d, start, end)], logs := y.store.logs)
    ensures y.store.logs.Keys == x.store.logs.Keys + {logId}
  {
    PlateIsValid(d);
    hide Plate.Valid, Plate.Normalized, PlateOf, StoreSpec.Clashes, Reached;
    assert Requested(Asked(d, start, end), id, 5) == Ok(Visit(id, d, start, end));
    y := CallReaches(x, Create(0, Asked(d, start, end), id, 5), logId);
  }

  // ---- Updates

  /** A current token is refused one tick after the row was stamped. */
  lemma CurrentTokenRefused()
    ensures exists x: Sys, id: Id, req: UpdateRequest, now: Time ::
              && ReachedAtRest(x) && x.clock <= now
              && StoreSpec.AuthLive(x.store, id) && x.store.auths[id].status == Pending
              && req.updatedAt == x.store.auths[id].updatedAt && WindowAllowed(x.store.auths[id], req, now)
              && UpdateAuthorization(AsWritten, x.store, id, req, now) == Err(ConcurrentModify)
  {
    hide ReachedAtRest, PlateOf;
    var x := OpenService();
    var y := Authorized(x, "a", 1, 10, 20, "1");
    var req := UpdateRequest("", 8, 20, "", 5);
    assert y.store.auths["a"] == Visit("a", 1, 10, 20);
    assert UpdateAuthorization(AsWritten, y.store, "a", req, 6) == Err(ConcurrentModify);
  }

  /** A morning visit is moved over the afternoon visit of the same plate. */
  lemma UpdateCanOverlap()
    ensures exists x: Sys, id: Id, req: UpdateRequest, now: Time ::
              && ReachedAtRest(x) && x.clock <= now && Windows.NoOverlap(x.store)
              && UpdateAuthorization(AsWritten, x.store, id, req, now).Ok?
              && !Windows.NoOverlap(UpdateAuthorization(AsWritten, x.store, id, req, now).value.0)
  {
    hide ReachedAtRest, PlateOf;
    var x := OpenService();
    var y := Authorized(x, "a", 1, 10, 20, "1");
    DistinctIds("a", "b");
    DistinctIds("1", "2");
    assert !StoreSpec.Clashes(y.store, Visit("b", 1, 20, 30));
    var z := Authorized(y, "b", 1, 20, 30, "2");
    var req := UpdateRequest("", 15, 25, "", 5);
    assert z.store.auths == map["a" := Visit("a", 1, 10, 20), "b" := Visit("b", 1, 20, 30)];
    var (s, row) := UpdateAuthorization(AsWritten, z.store, "a", req, 5).value;
    assert "b" in s.auths && StoreSpec.Overlaps(s.auths["a"], s.auths["b"]);
    assert Windows.NoOverlap(z.store) && !Windows.NoOverlap(s);
  }

  lemma DistinctIds(a: Id, b: Id)
    requires |a| == |b| == 1 && a[0] != b[0]
    ensures a != b
  {
  }

  lemma DistinctPlates(c: int, d: int)
    requires 0 <= c < d < 10
    ensures PlateOf(c) != PlateOf(d)
  {
    PlateIsValid(c);
    PlateIsValid(d);
    assert RunesOf(c)[6] != RunesOf(d)[6];
  }

  // ---- Entries

  lemma Admitted(x: Sys, id: Id, now: Time, recId: Id, logId: Id) returns (y: Sys)
    requires ReachedAtRest(x) && x.clock <= now && recId !in x.store.records && logId !in x.store.logs
    requires StoreSpec.EnterVehicle(x.store, id, now, recId).Ok?
    ensures ReachedAtRest(y) && y.clock == now
    ensures y.store == StoreSpec.EnterVehicle(x.store, id, now, recId).value.0.(logs := y.store.logs)
    ensures y.store.logs.Keys == x.store.logs.Keys + {logId}
  {
    hide StoreSpec.EnterVehicle, Reached;
    y := CallReaches(x, Enter(0, id, now, recId), logId);
  }

  /** The first visit of the day: its car is inside, alone. */
  lemma FirstCarInside(end: Time) returns (x: Sys)
    requires 5 < end <= 5 + MAX_AUTH_DURATION
    ensures ReachedAtRest(x) && Open(x.store) && x.clock == 5
    ensures x.store.auths == map["a" := Visit("a", 1, 5, end).(status := Active)]
    ensures x.store.records == map["v" := StoreSpec.NewRecord("a", Visit("a", 1, 5, end), "v", 5)]
    ensures x.store.logs.Keys == {"1", "2"}
  {
    hide ReachedAtRest, PlateOf;
    var y := OpenService();
    y := Authorized(y, "a", 1, 5, end, "1");
    DistinctIds("1", "2");
    assert StoreSpec.Occupants(y.store, "p") == {};
    x := Admitted(y, "a", 5, "v", "2");
  }

  lemma OneInside(s: State, a: Authorization)
    requires a.areaId == "p" && s.records == map["v" := StoreSpec.NewRecord("a", a, "v", 5)]
    ensures StoreSpec.Occupants(s, "p") == {"v"}
  {
  }

  /** Two cars inside, the capacity lowered to one. */
  lemma AreaCanOverflow()
    ensures exists x: Sys, id: Id, req: AreaRequest, now: Time ::
              && ReachedAtRest(x) && x.clock <= now && Occupancy.Fits(x.store, id)
              && UpdateParkingArea(x.store, id, req, now).Ok?
              && !Occupancy.Fits(UpdateParkingArea(x.store, id, req, now).value.0, id)
  {
    hide ReachedAtRest, PlateOf;
    var x := TwoCarsInside();
    var req := AreaRequest("", "", 1, 5);
    assert UpdateParkingArea(x.store, "p", req, 5).Ok?;
    Occupancy.AreaUpdateFitsIff(x.store, "p", req, 5);
    assert Occupancy.Fits(x.store, "p");
  }

  lemma TwoCarsInside() returns (x: Sys)
    ensures ReachedAtRest(x) && Open(x.store) && x.clock == 5 && |StoreSpec.Occupants(x.store, "p")| == 2
  {
    hide ReachedAtRest, PlateOf;
    var y := FirstCarInside(20);
    DistinctIds("a", "b");
    DistinctIds("v", "w");
    DistinctIds("1", "3");
    DistinctIds("2", "3");
    DistinctIds("1", "4");
    DistinctIds("2", "4");
    DistinctIds("3", "4");
    DistinctPlates(1, 2);
    assert !StoreSpec.Clashes(y.store, Visit("b", 2, 5, 20));
    y := Authorized(y, "b", 2, 5, 20, "3");
    OneInside(y.store, Visit("a", 1, 5, 20));
    assert y.store.auths["b"] == Visit("b", 2, 5, 20);
    var before := StoreSpec.Occupants(y.store, "p");
    assert |before| == 1;
    x := Admitted(y, "b", 5, "w", "4");
    assert StoreSpec.Occupants(x.store, "p")
           == StoreSpec.Occupants(StoreSpec.EnterVehicle(y.store, "b", 5, "w").value.0, "p");
    Occupancy.EntryAddsOne(y.store, "b", 5, "w", "p");
  }

  // ---- The same plate twice

  /** Two cars of one plate are inside; neither of the excuses holds for the second one's authorization. */
  ghost predicate SamePlateTwice(x: Sys, q: Id, r: Id) {
    && q in x.store.records && r in x.store.records && q != r
    && x.store.records[q].status == Entered && x.store.records[r].status == Entered
    && x.store.records[q].plate == x.store.records[r].plate
    && x.store.records[q].authId in x.store.auths && x.store.records[r].authId in x.store.auths
    && !Windows.PastOrArchived(x.store.auths[x.store.records[r].authId], x.clock)
  }

  lemma SecondCarInside(x: Sys, first: Authorization, start: Time) returns (y: Sys)
    requires ReachedAtRest(x) && Open(x.store) && x.clock == 5 && 5 <= start < 20
    requires first.id == "a" && first.areaId == "p" && first.plate == PlateOf(1) && x.store.auths == map["a" := first]
    requires StoreSpec.Blocking(first) ==> first.end <= start
    requires x.store.records == map["v" := StoreSpec.NewRecord("a", first, "v", 5)]
    requires "4" !in x.store.logs && "5" !in x.store.logs
    ensures ReachedAtRest(y) && y.clock == start && SamePlateTwice(y, "v", "w")
    ensures y.store.records["v"].authId == "a" && y.store.auths["a"] == first
  {
    hide ReachedAtRest, PlateOf;
    DistinctIds("a", "b");
    DistinctIds("v", "w");
    DistinctIds("4", "5");
    assert !StoreSpec.Clashes(x.store, Visit("b", 1, start, 20));
    var z := Authorized(x, "b", 1, start, 20, "4");
    OneInside(z.store, first);
    assert z.store.auths["b"] == Visit("b", 1, start, 20);
    y := Admitted(z, "b", start, "w", "5");
  }

  /** One car overstays its window, and the next visit of the same plate begins. */
  lemma TwiceInsideByOverstay()
    ensures exists x: Sys, q: Id, r: Id ::
              ReachedAtRest(x) && SamePlateTwice(x, q, r)
              && var a := x.store.auths[x.store.records[q].authId]; a.archivedAt.None? && a.end <= x.clock
  {
    hide ReachedAtRest, PlateOf;
    var x := FirstCarInside(10);
    var first := Visit("a", 1, 5, 10).(status := Active);
    assert StoreSpec.NewRecord("a", first, "v", 5) == StoreSpec.NewRecord("a", Visit("a", 1, 5, 10), "v", 5);
    FreshLogs();
    var y := SecondCarInside(x, first, 10);
  }

  /** The authorization of a car inside is archived, so another one for the same plate and time can be made and used. */
  lemma TwiceInsideByArchiving()
    ensures exists x: Sys, q: Id, r: Id ::
              ReachedAtRest(x) && SamePlateTwice(x, q, r)
              && var a := x.store.auths[x.store.records[q].authId]; a.archivedAt.Some? && x.clock < a.end
  {
    hide Reached, PlateOf;
    var x := FirstCarInside(20);
    var first := Visit("a", 1, 5, 20).(status := Active, archivedAt := Some(5));
    assert StoreSpec.NewRecord("a", first, "v", 5) == StoreSpec.NewRecord("a", Visit("a", 1, 5, 20), "v", 5);
    FreshLogs();
    var y := CallReaches(x, Archive(0, "a", 5), "3");
    var z := SecondCarInside(y, first, 5);
  }

  lemma FreshLogs()
    ensures "3" !in {"1", "2"} && "4" !in {"1", "2", "3"} && "5" !in {"1", "2", "3"}
  {
    DistinctIds("1", "3");
    DistinctIds("2", "3");
    DistinctIds("1", "4");
    DistinctIds("2", "4");
    DistinctIds("3", "4");
    DistinctIds("1", "5");
    DistinctIds("2", "5");
    DistinctIds("3", "5");
  }

  // ---- Listing

  /** A visit that is over is still listed, days later, among the authorizations that expire soon. */
  lemma FinishedVisitExpiresSoon(page: Listing.Page, midnight: Time)
    ensures exists x: Sys, id: Id, now: Time ::
              && ReachedAtRest(x) && x.clock <= now && id in x.store.auths
              && x.store.auths[id].status == Completed && x.store.auths[id].end + 24 * HOUR < now
              && Listing.AuthMatches(
                   x.store, FilterOf(ListRequest("", [], "", None, None, false, true, page), now, midnight),
                     x.store.auths[id])
  {
    hide Reached, PlateOf;
    var x := FirstCarInside(10);
    assert StoreSpec.ScanFinds(x.store, "a", Some("v"));
    DistinctIds("1", "3");
    DistinctIds("2", "3");
    var y := CallReaches(x, Exit(0, "a", 9, "", "", Some("v")), "3");
    assert y.store.auths["a"] == Visit("a", 1, 5, 10).(status := Completed, updatedAt := 9);
    Windows.ExpiringSoonIff(y.store, y.store.auths["a"], 48 * HOUR, midnight, page);
  }

  // ---- Interleaving

  const MOVE := UpdateRequest("", 8, 20, "", 5)

  /** A visit with nobody inside, as the update fetches it. */
  ghost predicate AboutToMove(x: Sys) {
    && ReachedAtRest(x) && Open(x.store) && x.clock == 5 && x.store.auths == map["a" := Visit("a", 1, 5, 20)]
    && x.store.records == map[]
  }

  lemma VisitToMove() returns (x: Sys)
    ensures AboutToMove(x)
  {
    hide ReachedAtRest, PlateOf;
    x := OpenService();
    x := Authorized(x, "a", 1, 5, 20, "1");
  }

  /** The state once the update has fetched its row, and the one a step after it leaves for the commit. */
  ghost function Fetched(x: Sys): Sys {
    x.(calls := map[0 := Updating(Visit("a", 1, 5, 20), MOVE)])
  }

  ghost function BeforeCommit(x: Sys, gate: Label): Sys
    requires Enabled(Fetched(x), gate)
  {
    Next(AsWritten, Fetched(x), gate)
  }

  /** The row was stamped at 7 by the step between fetch and commit. */
  ghost predicate Stamped(z: Sys, status: AuthStatus) {
    && z.clock == 7 && "a" in z.store.auths
    && z.store.auths["a"] == Visit("a", 1, 5, 20).(status := status, updatedAt := 7)
    && 0 in z.calls && z.calls[0] == Updating(Visit("a", 1, 5, 20), MOVE)
  }

  lemma FetchToMove(x: Sys)
    requires AboutToMove(x)
    ensures Enabled(x, Fetch(0, "a", MOVE))
    ensures Next(AsWritten, x, Fetch(0, "a", MOVE)) == Fetched(x)
  {
    hide PlateOf, Reached;
  }

  lemma ThenEnter(x: Sys)
    requires AboutToMove(x)
    ensures Enabled(Fetched(x), Enter(1, "a", 7, "v")) && GateStampsLater(AsWritten, Fetched(x), Enter(1, "a", 7, "v"))
    ensures var z := BeforeCommit(x, Enter(1, "a", 7, "v"));
            Stamped(z, Active) && z.store.records == map["v" := StoreSpec.NewRecord("a", Visit("a", 1, 5, 20), "v", 7)]
  {
    hide PlateOf, Reached;
    assert StoreSpec.Occupants(x.store, "p") == {};
  }

  lemma ThenRevoke(x: Sys)
    requires AboutToMove(x)
    ensures Enabled(Fetched(x), Revoke(1, "a", 7, "")) && GateStampsLater(AsWritten, Fetched(x), Revoke(1, "a", 7, ""))
    ensures var z := BeforeCommit(x, Revoke(1, "a", 7, ""));
            Stamped(z, Cancelled) && 1 in z.calls && z.calls[1] == Owing(Revoked("a", ""))
  {
    hide PlateOf, Reached;
  }

  /** The update commits at clock 7: the row is pending again, with the new window. */
  lemma ThenCommit(z: Sys, status: AuthStatus)
    requires Stamped(z, status)
    ensures Succeeds(AsWritten, z, Commit(0, 7)) && Enabled(z, Commit(0, 7))
    ensures InClockOrder(z, Commit(0, 7)) && GateStampsLater(AsWritten, z, Commit(0, 7))
    ensures OverUnused(AsWritten, z, Commit(0, 7)) <==> status == Pending || status == Cancelled
    ensures OverUncancelled(AsWritten, z, Commit(0, 7)) <==> status != Cancelled
    ensures var y := Next(AsWritten, z, Commit(0, 7));
            && y.store.records == z.store.records && "a" in y.store.auths
            && y.store.auths["a"].status == Pending && y.store.auths["a"].start == 8
            && forall t | t in z.calls && t != 0 :: t in y.calls && y.calls[t] == z.calls[t]
  {
    hide PlateOf;
    CommitSucceedsIff(z.store, Visit("a", 1, 5, 20), MOVE, 7);
  }

  /** Three steps whose clock readings are in order and whose gate steps stamp later times. */
  ghost predicate InOrderAndLater(x: Sys, ls: seq<Label>) {
    && Run(AsWritten, x, ls) && Along(AsWritten, x, ls, InClockOrder)
    && Along(AsWritten, x, ls, (y, l) => GateStampsLater(AsWritten, y, l))
  }

  lemma ThreeSteps(x: Sys, a: Label, b: Label, c: Label)
    requires Enabled(x, a) && InClockOrder(x, a) && GateStampsLater(AsWritten, x, a)
    requires var y := Next(AsWritten, x, a); Enabled(y, b) && InClockOrder(y, b) && GateStampsLater(AsWritten, y, b)
    requires var z := Next(AsWritten, Next(AsWritten, x, a), b);
             Enabled(z, c) && InClockOrder(z, c) && GateStampsLater(AsWritten, z, c)
    ensures InOrderAndLater(x, [a, b, c])
    ensures Final(AsWritten, x, [a, b, c]) == Next(AsWritten, Next(AsWritten, Next(AsWritten, x, a), b), c)
  {
    hide Next, Enabled, InClockOrder, GateStampsLater;
    RunOfThree(x, a, b, c, InClockOrder);
    RunOfThree(x, a, b, c, (y, l) => GateStampsLater(AsWritten, y, l));
  }

  lemma RunOfThree(x: Sys, a: Label, b: Label, c: Label, ok: (Sys, Label) -> bool)
    requires Enabled(x, a) && Enabled(Next(AsWritten, x, a), b)
    requires var z := Next(AsWritten, Next(AsWritten, x, a), b);
             Enabled(z, c) && ok(x, a) && ok(Next(AsWritten, x, a), b) && ok(z, c)
    ensures Run(AsWritten, x, [a, b, c]) && Along(AsWritten, x, [a, b, c], ok)
    ensures Final(AsWritten, x, [a, b, c]) == Next(AsWritten, Next(AsWritten, Next(AsWritten, x, a), b), c)
  {
    hide Next, Enabled;
    var y := Next(AsWritten, x, a);
    var z := Next(AsWritten, y, b);
    RunCons(AsWritten, z, c, [], ok);
    RunCons(AsWritten, y, b, [c], ok);
    RunCons(AsWritten, x, a, [b, c], ok);
    assert [c] + [] == [c] && [b] + [c] == [b, c] && [a] + [b, c] == [a, b, c];
  }

  /** What holds of reached states holds until the update commits. */
  lemma SoundUntilCommit(x: Sys, fetch: Label, gate: Label)
    requires Reached(x) && fetch.Fetch? && !gate.Commit? && Enabled(x, fetch)
             && Enabled(Next(AsWritten, x, fetch), gate)
    ensures var z := Next(AsWritten, Next(AsWritten, x, fetch), gate);
            Consistent(z) && Filed(z) && Journal.Kept(z, true)
  {
    ReachedIsConsistent(x);
    hide Next, Consistent, Filed, Reached, Journal.Kept, Enabled;
    var y := Next(AsWritten, x, fetch);
    ConsistentIsFiled(x);
    StepKeepsConsistent(AsWritten, x, fetch);
    Journal.StepKeepsJournal(AsWritten, x, fetch, true);
    ConsistentIsFiled(y);
    StepKeepsConsistent(AsWritten, y, gate);
    Journal.StepKeepsJournal(AsWritten, y, gate, true);
    ConsistentIsFiled(Next(AsWritten, y, gate));
  }

  lemma FetchGateCommit(x: Sys, gate: Label, status: AuthStatus)
    requires AboutToMove(x) && (gate.Enter? || gate.Revoke?) && gate.now == 7
    requires Enabled(Fetched(x), gate) && GateStampsLater(AsWritten, Fetched(x), gate)
             && Stamped(BeforeCommit(x, gate), status)
    ensures var z, ls := BeforeCommit(x, gate), [Fetch(0, "a", MOVE), gate, Commit(0, 7)];
            && Enabled(z, Commit(0, 7)) && InOrderAndLater(x, ls)
            && Final(AsWritten, x, ls) == Next(AsWritten, z, Commit(0, 7))
            && Consistent(z) && Filed(z) && Journal.Kept(z, true)
  {
    FetchToMove(x);
    var fetch, commit, z := Fetch(0, "a", MOVE), Commit(0, 7), BeforeCommit(x, gate);
    assert Reached(x) && InClockOrder(x, fetch) && GateStampsLater(AsWritten, x, fetch)
           && InClockOrder(Fetched(x), gate);
    assert z == Next(AsWritten, Next(AsWritten, x, fetch), gate);
    hide *;
    ThenCommit(z, status);
    SoundUntilCommit(x, fetch, gate);
    ThreeSteps(x, fetch, gate, commit);
  }

  lemma MovedPastItsEntry(s: State)
    requires s.records == map["v" := StoreSpec.NewRecord("a", Visit("a", 1, 5, 20), "v", 7)]
    requires "a" in s.auths && s.auths["a"].start == 8
    ensures !Windows.AllCameInWindow(s)
  {
    assert !Windows.CameInWindow(s, "v");
  }

  /** The run leaves a car inside whose row is pending and has a window that starts after the car came. */
  ghost predicate LosesEntry(x: Sys, ls: seq<Label>) {
    && ReachedAtRest(x) && InOrderAndLater(x, ls)
    && !Corresponds(Final(AsWritten, x, ls).store) && !Windows.AllCameInWindow(Final(AsWritten, x, ls).store)
  }

  lemma EntryIsOverwritten(x: Sys)
    requires AboutToMove(x)
    ensures LosesEntry(x, [Fetch(0, "a", MOVE), Enter(1, "a", 7, "v"), Commit(0, 7)])
  {
    assert ReachedAtRest(x);
    var enter, commit := Enter(1, "a", 7, "v"), Commit(0, 7);
    hide AboutToMove, ReachedAtRest, BeforeCommit, Stamped, Enabled, Next, Corresponds, Visit, Filed, Journal.Kept,
         Run, Final;
    ThenEnter(x);
    FetchGateCommit(x, enter, Active);
    ThenCommit(BeforeCommit(x, enter), Active);
    CommitKeepsIff(AsWritten, BeforeCommit(x, enter), commit);
    MovedPastItsEntry(Next(AsWritten, BeforeCommit(x, enter), commit).store);
  }

  /**
   * An entry between fetch and commit is overwritten when both read the same clock value: the car is inside, the row is
   * pending, and its new window starts after the car came.
   */
  lemma EntryCanBeOverwritten()
    ensures exists x: Sys, ls: seq<Label> :: LosesEntry(x, ls)
  {
    hide *;
    var x := VisitToMove();
    EntryIsOverwritten(x);
  }

  /** The run leaves a pending row whose revocation a call is about to report. */
  ghost predicate LosesRevocation(x: Sys, ls: seq<Label>, id: Id) {
    && ReachedAtRest(x) && InOrderAndLater(x, ls)
    && id in Final(AsWritten, x, ls).store.auths && Final(AsWritten, x, ls).store.auths[id].status == Pending
    && Journal.Owed(Final(AsWritten, x, ls), AuthRevoke, id) && !Journal.Kept(Final(AsWritten, x, ls), true)
  }

  lemma StillOwed(y: Sys)
    requires 1 in y.calls && y.calls[1] == Owing(Revoked("a", ""))
    ensures Journal.Owed(y, AuthRevoke, "a")
  {
    assert Journal.Owes(y.calls[1], AuthRevoke, "a");
  }

  lemma RevocationIsUndone(x: Sys)
    requires AboutToMove(x)
    ensures LosesRevocation(x, [Fetch(0, "a", MOVE), Revoke(1, "a", 7, ""), Commit(0, 7)], "a")
  {
    assert ReachedAtRest(x);
    var revoke, commit := Revoke(1, "a", 7, ""), Commit(0, 7);
    hide AboutToMove, ReachedAtRest, BeforeCommit, Stamped, Enabled, Next, Visit, Filed, Journal.Kept, Journal.Owed,
         Run, Final;
    ThenRevoke(x);
    FetchGateCommit(x, revoke, Cancelled);
    ThenCommit(BeforeCommit(x, revoke), Cancelled);
    Journal.UndoingBreaksJournal(AsWritten, BeforeCommit(x, revoke), commit);
    StillOwed(Next(AsWritten, BeforeCommit(x, revoke), commit));
  }

  /** In the same way a revocation is undone: the journal is about to report it, and the row is pending. */
  lemma RevocationCanBeUndone()
    ensures exists x: Sys, ls: seq<Label>, id: Id :: LosesRevocation(x, ls, id)
  {
    hide *;
    var x := VisitToMove();
    RevocationIsUndone(x);
  }
}
