/** Time windows over whole runs: no two usable authorizations of a plate overlap, and every instant is in order. */
module Windows {
  import opened Model
  import opened ServiceSpec
  import opened Interleaving
  import opened Lifecycle
  import Listing
  import Plate
  import PlateFormat
  import StoreSpec
  import Utf8

  // ---- No overlap

  ghost predicate NoOverlap(s: State) {
    forall j, k | j in s.auths && k in s.auths && j != k
                  && StoreSpec.Blocking(s.auths[j]) && StoreSpec.Blocking(s.auths[k])
                  && s.auths[j].plate == s.auths[k].plate ::
      !StoreSpec.Overlaps(s.auths[j], s.auths[k])
  }

  /** No other usable authorization of the plate has a window that meets this one. */
  ghost predicate WindowFree(s: State, id: Id, plate: PlateText, start: Time, end: Time) {
    forall k | k in s.auths && k != id && StoreSpec.Blocking(s.auths[k]) && s.auths[k].plate == plate ::
      !(start < s.auths[k].end && s.auths[k].start < end)
  }

  /** The window a request asks for, with what it leaves out taken from the row it was made for, is free. */
  ghost predicate AsksForFreeWindow(s: State, cur: Authorization, req: UpdateRequest) {
    WindowFree(s, cur.id, cur.plate, FilledIn(cur, req).start, FilledIn(cur, req).end)
  }

  /** An update that commits moves its row to a free window. */
  ghost predicate FitsAmongOthers(lock: Lock, x: Sys, l: Label) {
    l.Commit? && Succeeds(lock, x, l) ==> AsksForFreeWindow(x.store, x.calls[l.t].fetched, x.calls[l.t].req)
  }

  /** An update that commits replaces a usable row and keeps inside its window. */
  ghost predicate Shrinks(lock: Lock, x: Sys, l: Label) {
    l.Commit? && Succeeds(lock, x, l) ==>
      var (cur, req) := (x.calls[l.t].fetched, x.calls[l.t].req);
      && cur.id in x.store.auths && StoreSpec.Blocking(x.store.auths[cur.id])
      && x.store.auths[cur.id].start <= FilledIn(cur, req).start && FilledIn(cur, req).end <= x.store.auths[cur.id].end
  }

  lemma NewRowKeepsNoOverlap(s: State, s': State, a: Authorization)
    requires NoOverlap(s) && s'.auths == s.auths[a.id := a] && a.id !in s.auths && !StoreSpec.Clashes(s, a)
    ensures NoOverlap(s')
  {
    assert forall k | k in s.auths :: !StoreSpec.ClashesWith(s, a, k);
  }

  lemma ReplacedRowKeepsNoOverlap(s: State, s': State, id: Id, a: Authorization)
    requires NoOverlap(s) && id in s.auths && s'.auths == s.auths[id := a]
    requires StoreSpec.Blocking(a)
             ==> StoreSpec.Blocking(s.auths[id]) && a.plate == s.auths[id].plate
                 && s.auths[id].start <= a.start && a.end <= s.auths[id].end
    ensures NoOverlap(s')
  {
  }

  lemma MovedRowKeepsNoOverlapIff(s: State, s': State, id: Id, a: Authorization)
    requires NoOverlap(s) && id in s.auths && s'.auths == s.auths[id := a] && StoreSpec.Blocking(a)
    ensures NoOverlap(s') <==> WindowFree(s, id, a.plate, a.start, a.end)
  {
    if NoOverlap(s') {
      forall k | k in s.auths && k != id && StoreSpec.Blocking(s.auths[k]) && s.auths[k].plate == a.plate
        ensures !(a.start < s.auths[k].end && s.auths[k].start < a.end)
      {
        assert s'.auths[k] == s.auths[k] && s'.auths[id] == a;
      }
    }
  }

  /**
   * An update makes no overlap check. Whatever steps came between its fetch and its commit, and under either lock, it
   * keeps the windows apart exactly when the window asked for is free.
   */
  lemma CommitKeepsNoOverlapIff(lock: Lock, s: State, fetched: Authorization, req: UpdateRequest, now: Time)
    requires NoOverlap(s) && FetchedFrom(s, fetched) && CommitUpdate(lock, s, fetched, req, now).Ok?
    ensures NoOverlap(CommitUpdate(lock, s, fetched, req, now).value.0) <==> AsksForFreeWindow(s, fetched, req)
  {
    hide NoOverlap, WindowFree;
    var (s', row) := CommitUpdate(lock, s, fetched, req, now).value;
    MovedRowKeepsNoOverlapIff(s, s', fetched.id, row);
  }

  /** The same for a whole update with nothing in between, on the stored row. */
  lemma UpdateKeepsNoOverlapIff(lock: Lock, s: State, id: Id, req: UpdateRequest, now: Time)
    requires NoOverlap(s) && id in s.auths && s.auths[id].id == id && UpdateAuthorization(lock, s, id, req, now).Ok?
    ensures NoOverlap(UpdateAuthorization(lock, s, id, req, now).value.0) <==> AsksForFreeWindow(s, s.auths[id], req)
  {
    hide NoOverlap, WindowFree, CommitUpdate;
    CommitKeepsNoOverlapIff(lock, s, s.auths[id], req, now);
  }

  lemma GateStepKeepsNoOverlap(lock: Lock, x: Sys, l: Label)
    requires NoOverlap(x.store) && Succeeds(lock, x, l) && (l.Enter? || l.Exit? || l.Revoke? || l.Archive?)
    ensures NoOverlap(Attempt(lock, x, l).value.0)
  {
    hide NoOverlap, StoreSpec.Occupants, StoreSpec.ScanFinds;
    var s' := Attempt(lock, x, l).value.0;
    ReplacedRowKeepsNoOverlap(x.store, s', l.id, s'.auths[l.id]);
  }

  lemma CreateKeepsNoOverlap(lock: Lock, x: Sys, l: Label)
    requires NoOverlap(x.store) && Succeeds(lock, x, l) && l.Create?
    ensures NoOverlap(Attempt(lock, x, l).value.0)
  {
    hide NoOverlap, StoreSpec.Clashes;
    NewRowKeepsNoOverlap(x.store, Attempt(lock, x, l).value.0, Requested(l.create, l.id, l.now).value);
  }

  ghost predicate StaysApart(lock: Lock, x: Sys, l: Label) {
    Enabled(x, l) && NoOverlap(Next(lock, x, l).store)
  }

  lemma StepKeepsNoOverlapIff(lock: Lock, x: Sys, l: Label)
    requires Filed(x) && NoOverlap(x.store) && Enabled(x, l)
    ensures StaysApart(lock, x, l) <==> FitsAmongOthers(lock, x, l)
  {
    StoreAfter(lock, x, l);
    hide Next, NoOverlap, AsksForFreeWindow, CommitUpdate;
    if Succeeds(lock, x, l) {
      if l.Commit? {
        CommitKeepsNoOverlapIff(lock, x.store, x.calls[l.t].fetched, x.calls[l.t].req, l.now);
      } else if l.Create? {
        CreateKeepsNoOverlap(lock, x, l);
      } else {
        hide Attempt;
        GateStepKeepsNoOverlap(lock, x, l);
      }
    } else {
      SameRowsSameOverlap(x.store, Next(lock, x, l).store);
    }
  }

  lemma SameRowsSameOverlap(s: State, s': State)
    requires NoOverlap(s) && s'.auths == s.auths
    ensures NoOverlap(s')
  {
  }

  /**
   * Under any interleaving and either lock: no two usable authorizations of a plate share an instant after any step,
   * exactly when every update that commits asks for a free window. All other steps keep the windows apart.
   */
  lemma ApartThroughoutIff(lock: Lock, x: Sys, ls: seq<Label>)
    requires Filed(x) && NoOverlap(x.store) && Run(lock, x, ls)
    ensures Along(lock, x, ls, (y, l) => StaysApart(lock, y, l))
            <==> Along(lock, x, ls, (y, l) => FitsAmongOthers(lock, y, l))
  {
    var p, q := (y, l) => StaysApart(lock, y, l), (y, l) => FitsAmongOthers(lock, y, l);
    var inv := (y: Sys) => Filed(y) && NoOverlap(y.store);
    forall y, l | inv(y) && Enabled(y, l) ensures (p(y, l) <==> q(y, l)) && (p(y, l) ==> inv(Next(lock, y, l))) {
      StepKeepsNoOverlapIff(lock, y, l);
      StepKeepsFiled(lock, y, l);
    }
    AlongIff(lock, x, ls, inv, p, q);
  }

  /** With updates that ask for free windows, no two usable authorizations of a plate ever share an instant. */
  lemma RunsKeepNoOverlap(lock: Lock, x: Sys, ls: seq<Label>)
    requires Filed(x) && NoOverlap(x.store) && Run(lock, x, ls)
    requires Along(lock, x, ls, (y, l) => FitsAmongOthers(lock, y, l))
    ensures NoOverlap(Final(lock, x, ls).store)
  {
    var ok := (y, l) => FitsAmongOthers(lock, y, l);
    var inv := (y: Sys) => Filed(y) && NoOverlap(y.store);
    forall y, l | inv(y) && ok(y, l) && Enabled(y, l) ensures inv(Next(lock, y, l)) {
      StepKeepsNoOverlapIff(lock, y, l);
      StepKeepsFiled(lock, y, l);
    }
    Invariance(lock, x, ls, inv, ok);
  }

  /** An update that keeps inside the stored window always asks for a free one. */
  lemma ShrinkingFits(lock: Lock, x: Sys, l: Label)
    requires Filed(x) && NoOverlap(x.store) && Enabled(x, l) && Shrinks(lock, x, l)
    ensures FitsAmongOthers(lock, x, l)
  {
    hide Succeeds;
  }

  /** At any instant at most one usable authorization of a plate passes the gate's time check. */
  lemma OnePassesTheGate(s: State, j: Id, k: Id, now: Time)
    requires NoOverlap(s) && j in s.auths && k in s.auths && s.auths[j].plate == s.auths[k].plate
    requires StoreSpec.Blocking(s.auths[j]) && s.auths[j].start <= now < s.auths[j].end
    requires StoreSpec.Blocking(s.auths[k]) && s.auths[k].start <= now < s.auths[k].end
    ensures j == k
  {
  }

  // ---- Packing

  /** How much of the interval [t0, t1) a window covers. */
  function Clip(a: Authorization, t0: Time, t1: Time): Time {
    var from := if a.start < t0 then t0 else a.start;
    var to := if a.end < t1 then a.end else t1;
    if from < to then to - from else 0
  }

  ghost function Covered(s: State, ids: set<Id>, t0: Time, t1: Time): Time
    requires ids <= s.auths.Keys
    decreases |ids|
  {
    if ids == {} then 0
    else
      var k :| k in ids;
      Clip(s.auths[k], t0, t1) + Covered(s, ids - {k}, t0, t1)
  }

  lemma {:induction false} CoveredSplit(s: State, ids: set<Id>, k: Id, t0: Time, t1: Time)
    requires ids <= s.auths.Keys && k in ids
    ensures Covered(s, ids, t0, t1) == Clip(s.auths[k], t0, t1) + Covered(s, ids - {k}, t0, t1)
    decreases |ids|
  {
    var j :| j in ids && Covered(s, ids, t0, t1) == Clip(s.auths[j], t0, t1) + Covered(s, ids - {j}, t0, t1);
    if j != k {
      CoveredSplit(s, ids - {j}, k, t0, t1);
      CoveredSplit(s, ids - {k}, j, t0, t1);
      assert ids - {j} - {k} == ids - {k} - {j};
    }
  }

  lemma {:induction false} CoveredBefore(s: State, ids: set<Id>, t0: Time, cut: Time, t1: Time)
    requires ids <= s.auths.Keys && t0 <= cut <= t1 && forall k | k in ids :: s.auths[k].end <= cut
    ensures Covered(s, ids, t0, t1) == Covered(s, ids, t0, cut)
    decreases |ids|
  {
    if ids != {} {
      var k :| k in ids;
      CoveredSplit(s, ids, k, t0, t1);
      CoveredSplit(s, ids, k, t0, cut);
      CoveredBefore(s, ids - {k}, t0, cut, t1);
    }
  }

  lemma {:induction false} LatestStart(s: State, ids: set<Id>) returns (k: Id)
    requires ids <= s.auths.Keys && ids != {}
    ensures k in ids && forall j | j in ids :: s.auths[j].start <= s.auths[k].start
    decreases |ids|
  {
    k :| k in ids;
    if ids != {k} {
      var j := LatestStart(s, ids - {k});
      assert ids == (ids - {k}) + {k};
      if s.auths[k].start < s.auths[j].start {
        k := j;
      }
    }
  }

  lemma {:induction false} Packs(s: State, ids: set<Id>, t0: Time, t1: Time)
    requires ids <= s.auths.Keys && t0 <= t1
    requires forall j, k | j in ids && k in ids && j != k :: !StoreSpec.Overlaps(s.auths[j], s.auths[k])
    ensures Covered(s, ids, t0, t1) <= t1 - t0
    decreases |ids|
  {
    if ids != {} {
      var k := LatestStart(s, ids);
      CoveredSplit(s, ids, k, t0, t1);
      if Clip(s.auths[k], t0, t1) == 0 {
        Packs(s, ids - {k}, t0, t1);
      } else {
        var cut := if s.auths[k].start < t0 then t0 else s.auths[k].start;
        CoveredBefore(s, ids - {k}, t0, cut, t1);
        Packs(s, ids - {k}, t0, cut);
      }
    }
  }

  function UsableFor(s: State, plate: PlateText): set<Id> {
    set k | k in s.auths && s.auths[k].plate == plate && StoreSpec.Blocking(s.auths[k])
  }

  /** The usable windows of a plate never cover more of an interval than its length. */
  lemma PackingBound(lock: Lock, ls: seq<Label>, plate: PlateText, t0: Time, t1: Time)
    requires Run(lock, INITIAL, ls) && t0 <= t1
    requires Along(lock, INITIAL, ls, (y, l) => FitsAmongOthers(lock, y, l))
    ensures var s := Final(lock, INITIAL, ls).store;
            Covered(s, UsableFor(s, plate), t0, t1) <= t1 - t0
  {
    RunsKeepNoOverlap(lock, INITIAL, ls);
    var s := Final(lock, INITIAL, ls).store;
    Packs(s, UsableFor(s, plate), t0, t1);
  }

  // ---- Expiry

  /**
   * For a live pending authorization whose start has passed, the gate refuses on time exactly when readers see it as
   * expired.
   */
  lemma GateAgreesWithExpiry(s: State, id: Id, now: Time, recId: Id)
    requires StoreSpec.AuthLive(s, id) && s.auths[id].status == Pending && s.auths[id].start <= now
    ensures StoreSpec.EnterVehicle(s, id, now, recId) == Err(OutOfTimeWindow)
            <==> StoreSpec.DeriveStatus(s.auths[id], Some(now)) == Expired
  {
  }

  /** What is seen as expired at some instant blocks no creation the service accepts from then on. */
  lemma ExpiredBlocksNoCreation(s: State, k: Id, seen: Time, req: CreateRequest, id: Id, now: Time)
    requires k in s.auths && StoreSpec.DeriveStatus(s.auths[k], Some(seen)) == Expired && seen <= now
    requires Stored(s.auths[k].status) && Requested(req, id, now).Ok?
    ensures !StoreSpec.ClashesWith(s, Requested(req, id, now).value, k)
  {
  }

  /** An authorization the service lists as expired is refused at the gate from then on. */
  lemma ListedAsExpiredIsRefused(s: State, k: Id, req: ListRequest, listed: Time, midnight: Time, now: Time, recId: Id)
    requires k in s.auths && s.auths[k].status != Expired && req.status == Some(Expired) && listed <= now
    requires Listing.AuthMatches(s, FilterOf(req, listed, midnight), s.auths[k])
    ensures StoreSpec.EnterVehicle(s, k, now, recId) == Err(OutOfTimeWindow)
  {
  }

  /**
   * The expiring-soon listing has a cutoff and nothing else: used, revoked and long finished authorizations are in it
   * too.
   */
  lemma ExpiringSoonIff(s: State, a: Authorization, now: Time, midnight: Time, page: Listing.Page)
    ensures Listing.AuthMatches(s, FilterOf(ListRequest("", [], "", None, None, false, true, page), now, midnight), a)
            <==> a.archivedAt.None? && a.end < now + EXPIRING_SOON_WINDOW
  {
    assert Plate.Normalized([]) == [];
  }

  predicate Leaves(lock: Lock, x: Sys, l: Label, id: Id) {
    !(l.Commit? && Succeeds(lock, x, l) && x.calls[l.t].fetched.id == id)
  }

  predicate NeverEntered(x: Sys, id: Id, end: Time) {
    && id in x.store.auths
    && x.store.auths[id].end == end <= x.clock
    && (x.store.auths[id].status == Pending || x.store.auths[id].status == Cancelled)
  }

  lemma StepKeepsNeverEntered(lock: Lock, x: Sys, l: Label, id: Id, end: Time)
    requires NeverEntered(x, id, end) && Enabled(x, l) && InClockOrder(x, l) && Leaves(lock, x, l, id)
    ensures NeverEntered(Next(lock, x, l), id, end)
  {
    RowStep(lock, x, l, id);
    ClockStep(lock, x, l);
    hide Next, Attempt, Prepared;
  }

  /**
   * Once seen as expired, and with no update to it, an authorization never becomes active and is never seen
   * otherwise.
   */
  lemma ExpiredStaysExpired(lock: Lock, x: Sys, ls: seq<Label>, id: Id, seen: Time)
    requires id in x.store.auths && Stored(x.store.auths[id].status) && seen <= x.clock
    requires StoreSpec.DeriveStatus(x.store.auths[id], Some(seen)) == Expired
    requires Run(lock, x, ls) && Along(lock, x, ls, (y, l) => InClockOrder(y, l) && Leaves(lock, y, l, id))
    ensures var y := Final(lock, x, ls);
            && id in y.store.auths
            && forall now | now >= seen ::
                 var st := StoreSpec.DeriveStatus(y.store.auths[id], Some(now));
                 st == Expired || st == Cancelled
  {
    var end := x.store.auths[id].end;
    var ok := (y, l) => InClockOrder(y, l) && Leaves(lock, y, l, id);
    forall y, l | NeverEntered(y, id, end) && ok(y, l) && Enabled(y, l)
      ensures NeverEntered(Next(lock, y, l), id, end)
    {
      StepKeepsNeverEntered(lock, y, l, id, end);
    }
    Invariance(lock, x, ls, y => NeverEntered(y, id, end), ok);
  }

  // ---- Instants in order

  ghost predicate AuthTimes(x: Sys, k: Id)
    requires k in x.store.auths
  {
    var a := x.store.auths[k];
    a.createdAt <= a.start < a.end <= a.start + MAX_AUTH_DURATION && a.createdAt <= x.clock
  }

  /** A record is not entered in the future and not left before it was entered. */
  ghost predicate RecordTimes(x: Sys, r: Id)
    requires r in x.store.records
  {
    var rec := x.store.records[r];
    rec.entryTime <= x.clock && (rec.exitTime.Some? ==> rec.entryTime <= rec.exitTime.value)
  }

  ghost predicate InOrder(x: Sys) {
    && (forall k | k in x.store.auths :: AuthTimes(x, k))
    && (forall r | r in x.store.records :: RecordTimes(x, r))
  }

  lemma StepKeepsAuthTimes(lock: Lock, x: Sys, l: Label, k: Id)
    requires Filed(x) && Enabled(x, l) && InClockOrder(x, l)
    requires k in x.store.auths ==> AuthTimes(x, k)
    ensures k in Next(lock, x, l).store.auths ==> AuthTimes(Next(lock, x, l), k)
  {
    ClockStep(lock, x, l);
    RowStep(lock, x, l, k);
    hide Next, Attempt;
  }

  lemma ClockStep(lock: Lock, x: Sys, l: Label)
    requires Enabled(x, l) && InClockOrder(x, l)
    ensures Next(lock, x, l).clock == if Reading(l).Some? then Reading(l).value else x.clock
  {
  }

  lemma StepKeepsRecordTimes(lock: Lock, x: Sys, l: Label, r: Id)
    requires Enabled(x, l) && InClockOrder(x, l) && (r in x.store.records ==> RecordTimes(x, r))
    ensures r in Next(lock, x, l).store.records ==> RecordTimes(Next(lock, x, l), r)
  {
    ClockStep(lock, x, l);
    RecordStep(lock, x, l, r);
    hide Next, Attempt;
  }

  lemma StepKeepsOrder(lock: Lock, x: Sys, l: Label)
    requires Filed(x) && InOrder(x) && Enabled(x, l) && InClockOrder(x, l)
    ensures InOrder(Next(lock, x, l))
  {
    hide Next, AuthTimes, RecordTimes, Filed, InClockOrder;
    var y := Next(lock, x, l);
    forall k | k in y.store.auths ensures AuthTimes(y, k) {
      StepKeepsAuthTimes(lock, x, l, k);
    }
    forall r | r in y.store.records ensures RecordTimes(y, r) {
      StepKeepsRecordTimes(lock, x, l, r);
    }
  }

  /**
   * Under any interleaving with clock readings in commit order, and either lock: every authorization is created before
   * it starts and lasts at most seven days, and no car leaves before it came.
   */
  lemma RunsKeepOrder(lock: Lock, x: Sys, ls: seq<Label>)
    requires Filed(x) && InOrder(x) && Run(lock, x, ls) && Along(lock, x, ls, InClockOrder)
    ensures InOrder(Final(lock, x, ls))
  {
    var inv := y => Filed(y) && InOrder(y);
    forall y, l | inv(y) && InClockOrder(y, l) && Enabled(y, l) ensures inv(Next(lock, y, l)) {
      StepKeepsFiled(lock, y, l);
      StepKeepsOrder(lock, y, l);
    }
    Invariance(lock, x, ls, inv, InClockOrder);
  }

  // ---- Entries in their windows

  /** The car came within the window its authorization has now. */
  ghost predicate CameInWindow(s: State, r: Id)
    requires r in s.records
  {
    var rec := s.records[r];
    rec.authId in s.auths && s.auths[rec.authId].start <= rec.entryTime < s.auths[rec.authId].end
  }

  ghost predicate AllCameInWindow(s: State) {
    forall r | r in s.records :: CameInWindow(s, r)
  }

  /** A row that has a record is never given another window, unless an update replaces it. */
  lemma StepKeepsUsedWindow(lock: Lock, x: Sys, l: Label, id: Id)
    requires Enabled(x, l) && OverUnused(lock, x, l) && id in x.store.auths
    requires x.store.auths[id].status != Pending && x.store.auths[id].status != Cancelled
    ensures var s := Next(lock, x, l).store;
            id in s.auths && s.auths[id].start == x.store.auths[id].start && s.auths[id].end == x.store.auths[id].end
  {
    RowStep(lock, x, l, id);
    hide Next, Attempt, Prepared;
  }

  lemma EntryIsInWindow(lock: Lock, x: Sys, l: Label, r: Id)
    requires Enabled(x, l) && r !in x.store.records && r in Next(lock, x, l).store.records
    ensures CameInWindow(Next(lock, x, l).store, r)
  {
    RecordStep(lock, x, l, r);
    RowStep(lock, x, l, l.id);
    hide Next, Attempt;
  }

  /**
   * The window a request asks for, completed from the row it was made for, holds the entry times of all its records.
   */
  ghost predicate AsksForWindowOfEntries(s: State, cur: Authorization, req: UpdateRequest) {
    forall r | r in s.records && s.records[r].authId == cur.id ::
      FilledIn(cur, req).start <= s.records[r].entryTime < FilledIn(cur, req).end
  }

  ghost predicate HoldsEntries(lock: Lock, x: Sys, l: Label) {
    l.Commit? && Succeeds(lock, x, l) ==> AsksForWindowOfEntries(x.store, x.calls[l.t].fetched, x.calls[l.t].req)
  }

  lemma CommitKeepsEntriesIff(lock: Lock, s: State, fetched: Authorization, req: UpdateRequest, now: Time)
    requires AllCameInWindow(s) && CommitUpdate(lock, s, fetched, req, now).Ok?
    ensures AllCameInWindow(CommitUpdate(lock, s, fetched, req, now).value.0)
            <==> AsksForWindowOfEntries(s, fetched, req)
  {
    var (s', row) := CommitUpdate(lock, s, fetched, req, now).value;
    assert row.start == FilledIn(fetched, req).start && row.end == FilledIn(fetched, req).end;
    assert s' == s.(auths := s.auths[fetched.id := row]);
    hide CommitUpdate, FilledIn;
    if AsksForWindowOfEntries(s, fetched, req) {
      forall r | r in s'.records ensures CameInWindow(s', r) {
        assert CameInWindow(s, r);
      }
    } else {
      var r :| r in s.records && s.records[r].authId == fetched.id && !(row.start <= s.records[r].entryTime < row.end);
      assert !CameInWindow(s', r);
    }
  }

  lemma OthersKeepEntryInWindow(lock: Lock, x: Sys, l: Label, r: Id)
    requires Enabled(x, l) && !(l.Commit? && Succeeds(lock, x, l)) && r in x.store.records && CameInWindow(x.store, r)
    ensures r in Next(lock, x, l).store.records && CameInWindow(Next(lock, x, l).store, r)
  {
    RowStep(lock, x, l, x.store.records[r].authId);
    RecordStep(lock, x, l, r);
    hide Next, Attempt;
  }

  ghost predicate StaysInWindow(lock: Lock, x: Sys, l: Label) {
    Enabled(x, l) && AllCameInWindow(Next(lock, x, l).store)
  }

  lemma StepKeepsEntriesIff(lock: Lock, x: Sys, l: Label)
    requires AllCameInWindow(x.store) && Enabled(x, l)
    ensures StaysInWindow(lock, x, l) <==> HoldsEntries(lock, x, l)
  {
    StoreAfter(lock, x, l);
    hide Next, CommitUpdate, AsksForWindowOfEntries, CameInWindow;
    if l.Commit? && Succeeds(lock, x, l) {
      CommitKeepsEntriesIff(lock, x.store, x.calls[l.t].fetched, x.calls[l.t].req, l.now);
    } else {
      hide Attempt;
      forall r | r in Next(lock, x, l).store.records ensures CameInWindow(Next(lock, x, l).store, r) {
        if r in x.store.records {
          OthersKeepEntryInWindow(lock, x, l, r);
        } else {
          EntryIsInWindow(lock, x, l, r);
        }
      }
    }
  }

  /**
   * Under any interleaving and either lock: every car has come within the window of its authorization after every step,
   * exactly when every update that commits asks for a window that holds the entries made.
   */
  lemma EntriesInWindowThroughoutIff(lock: Lock, x: Sys, ls: seq<Label>)
    requires AllCameInWindow(x.store) && Run(lock, x, ls)
    ensures Along(lock, x, ls, (y, l) => StaysInWindow(lock, y, l))
            <==> Along(lock, x, ls, (y, l) => HoldsEntries(lock, y, l))
  {
    var p, q := (y, l) => StaysInWindow(lock, y, l), (y, l) => HoldsEntries(lock, y, l);
    var inv := (y: Sys) => AllCameInWindow(y.store);
    forall y, l | inv(y) && Enabled(y, l) ensures (p(y, l) <==> q(y, l)) && (p(y, l) ==> inv(Next(lock, y, l))) {
      StepKeepsEntriesIff(lock, y, l);
    }
    AlongIff(lock, x, ls, inv, p, q);
  }

  /**
   * With updates that ask for windows that hold the entries made, every car has come within the window of its
   * authorization.
   */
  lemma RunsKeepEntriesInWindow(lock: Lock, x: Sys, ls: seq<Label>)
    requires AllCameInWindow(x.store) && Run(lock, x, ls) && Along(lock, x, ls, (y, l) => HoldsEntries(lock, y, l))
    ensures AllCameInWindow(Final(lock, x, ls).store)
  {
    var ok, inv := (y, l) => HoldsEntries(lock, y, l), (y: Sys) => AllCameInWindow(y.store);
    forall y, l | inv(y) && ok(y, l) && Enabled(y, l) ensures inv(Next(lock, y, l)) {
      StepKeepsEntriesIff(lock, y, l);
    }
    Invariance(lock, x, ls, inv, ok);
  }

  /** An update of an unused row has no entries to hold. */
  lemma UnusedHoldsEntries(lock: Lock, x: Sys, l: Label)
    requires Consistent(x) && OverUnused(lock, x, l)
    ensures HoldsEntries(lock, x, l)
  {
    if l.Commit? && Succeeds(lock, x, l) {
      var id := x.calls[l.t].fetched.id;
      RecordsByStatus(x.store, id);
      assert forall r | r in x.store.records && x.store.records[r].authId == id :: r in RecordsOf(x.store, id);
    }
  }

  lemma UnusedHoldsEntriesThroughout(lock: Lock, x: Sys, ls: seq<Label>)
    requires Consistent(x) && Run(lock, x, ls) && Along(lock, x, ls, (y, l) => OverUnused(lock, y, l))
    ensures Along(lock, x, ls, (y, l) => HoldsEntries(lock, y, l))
  {
    var unused, any, q := (y, l) => OverUnused(lock, y, l), (y: Sys, l: Label) => true,
      (y, l) => HoldsEntries(lock, y, l);
    forall y, l | Consistent(y) && Enabled(y, l) && unused(y, l) ensures q(y, l) && Consistent(Next(lock, y, l)) {
      UnusedHoldsEntries(lock, y, l);
      StepKeepsConsistent(lock, y, l);
    }
    AlongAny(lock, x, ls);
    AlongIffGiven(lock, x, ls, Consistent, unused, any, q);
  }

  // ---- The same plate twice

  /** What makes it possible: the window of the authorization is over, or it was archived while its car was inside. */
  predicate PastOrArchived(a: Authorization, now: Time) {
    a.end <= now || a.archivedAt.Some?
  }

  /**
   * Two cars of one plate are inside at once only if one of the two has overstayed its window or lost its
   * authorization.
   */
  lemma TwiceInsideMeansPastOrArchived(x: Sys, q: Id, r: Id)
    requires Corresponds(x.store) && NoOverlap(x.store) && InOrder(x) && AllCameInWindow(x.store)
    requires q in x.store.records && r in x.store.records && q != r
    requires x.store.records[q].status == Entered && x.store.records[r].status == Entered
    requires x.store.records[q].plate == x.store.records[r].plate
    ensures PastOrArchived(x.store.auths[x.store.records[q].authId], x.clock)
            || PastOrArchived(x.store.auths[x.store.records[r].authId], x.clock)
  {
    assert InStep(x.store, q) && InStep(x.store, r) && RecordTimes(x, q) && RecordTimes(x, r);
    assert CameInWindow(x.store, q) && CameInWindow(x.store, r);
  }

  /** No plate is inside twice. */
  ghost predicate OncePerPlate(s: State) {
    forall q, r | q in s.records && r in s.records && q != r && s.records[q].status == Entered
      && s.records[r].status == Entered ::
      s.records[q].plate != s.records[r].plate
  }

  ghost predicate NoneInsideWith(s: State, plate: PlateText) {
    forall r | r in s.records && s.records[r].status == Entered :: s.records[r].plate != plate
  }

  /** No active authorization, archived ones included, has the plate. */
  ghost predicate NoneActiveWith(s: State, plate: PlateText) {
    forall k | k in s.auths && s.auths[k].status == Active :: s.auths[k].plate != plate
  }

  /** No active authorization of the plate is past its end or archived. */
  ghost predicate NoneLeftOver(s: State, plate: PlateText, now: Time) {
    forall k | k in s.auths && s.auths[k].status == Active && s.auths[k].plate == plate ::
      !PastOrArchived(s.auths[k], now)
  }

  lemma RecordKeepsOnceIff(s: State, s': State, recId: Id, rec: Record)
    requires OncePerPlate(s) && recId !in s.records && s'.records == s.records[recId := rec] && rec.status == Entered
    ensures OncePerPlate(s') <==> NoneInsideWith(s, rec.plate)
  {
    if OncePerPlate(s') {
      forall r | r in s.records && s.records[r].status == Entered ensures s.records[r].plate != rec.plate {
        assert s'.records[r] == s.records[r] && s'.records[recId] == rec;
      }
    }
  }

  lemma InsideIsActive(s: State, plate: PlateText)
    requires Corresponds(s)
    ensures NoneInsideWith(s, plate) <==> NoneActiveWith(s, plate)
  {
    if NoneInsideWith(s, plate) {
      forall k | k in s.auths && s.auths[k].status == Active ensures s.auths[k].plate != plate {
        assert HasRecord(s, k);
        var r :| r in s.records && s.records[r].authId == k;
        assert InStep(s, r);
      }
    } else {
      var r :| r in s.records && s.records[r].status == Entered && s.records[r].plate == plate;
      assert InStep(s, r);
    }
  }

  /**
   * An entry keeps every plate inside at most once exactly when no active authorization, archived ones included, has
   * its plate.
   */
  lemma EntryKeepsOnceIff(s: State, id: Id, now: Time, recId: Id)
    requires Corresponds(s) && OncePerPlate(s) && recId !in s.records && StoreSpec.EnterVehicle(s, id, now, recId).Ok?
    ensures OncePerPlate(StoreSpec.EnterVehicle(s, id, now, recId).value.0) <==> NoneActiveWith(s, s.auths[id].plate)
  {
    InsideIsActive(s, s.auths[id].plate);
    hide Corresponds, OncePerPlate, NoneInsideWith, NoneActiveWith, StoreSpec.Occupants;
    var (s', rec) := StoreSpec.EnterVehicle(s, id, now, recId).value;
    RecordKeepsOnceIff(s, s', recId, rec);
  }

  /**
   * With windows apart and instants in order, an active authorization of the plate at the gate is past its end or
   * archived.
   */
  lemma ActiveAtTheGateIsLeftOver(x: Sys, id: Id, now: Time, recId: Id, k: Id)
    requires Corresponds(x.store) && NoOverlap(x.store) && InOrder(x) && AllCameInWindow(x.store) && x.clock <= now
    requires StoreSpec.EnterVehicle(x.store, id, now, recId).Ok?
    requires k in x.store.auths && x.store.auths[k].status == Active
             && x.store.auths[k].plate == x.store.auths[id].plate
    ensures PastOrArchived(x.store.auths[k], now)
  {
    assert HasRecord(x.store, k);
    var r :| r in x.store.records && x.store.records[r].authId == k;
    assert RecordTimes(x, r) && CameInWindow(x.store, r);
  }

  /**
   * With windows apart and instants in order, an entry brings in a second car of its plate exactly when some active
   * authorization of the plate is past its end or archived.
   */
  lemma SecondCarEntersIff(x: Sys, id: Id, now: Time, recId: Id)
    requires Corresponds(x.store) && NoOverlap(x.store) && InOrder(x) && AllCameInWindow(x.store) && x.clock <= now
    requires OncePerPlate(x.store) && recId !in x.store.records && StoreSpec.EnterVehicle(x.store, id, now, recId).Ok?
    ensures !OncePerPlate(StoreSpec.EnterVehicle(x.store, id, now, recId).value.0)
            <==> !NoneLeftOver(x.store, x.store.auths[id].plate, now)
  {
    EntryKeepsOnceIff(x.store, id, now, recId);
    hide Corresponds, NoOverlap, InOrder, AllCameInWindow, OncePerPlate, StoreSpec.EnterVehicle, PastOrArchived;
    forall k | k in x.store.auths && x.store.auths[k].status == Active
      && x.store.auths[k].plate == x.store.auths[id].plate
      ensures PastOrArchived(x.store.auths[k], now)
    {
      ActiveAtTheGateIsLeftOver(x, id, now, recId, k);
    }
  }

  // ---- The same plate twice, on whole runs

  ghost predicate StaysOnce(lock: Lock, x: Sys, l: Label) {
    Enabled(x, l) && OncePerPlate(Next(lock, x, l).store)
  }

  /** An entry that succeeds finds no car of its plate inside. */
  ghost predicate EntersAlone(lock: Lock, x: Sys, l: Label) {
    l.Enter? && Succeeds(lock, x, l) ==> l.id in x.store.auths && NoneInsideWith(x.store, x.store.auths[l.id].plate)
  }

  /** An entry that succeeds finds no active authorization of its plate. */
  ghost predicate FindsNoneActive(lock: Lock, x: Sys, l: Label) {
    l.Enter? && Succeeds(lock, x, l) ==> l.id in x.store.auths && NoneActiveWith(x.store, x.store.auths[l.id].plate)
  }

  /** An entry that succeeds finds no active authorization of its plate that is past its end or archived. */
  ghost predicate FindsNoneLeftOver(lock: Lock, x: Sys, l: Label) {
    l.Enter? && Succeeds(lock, x, l) ==>
      l.id in x.store.auths && NoneLeftOver(x.store, x.store.auths[l.id].plate, l.now)
  }

  lemma OthersKeepOnce(lock: Lock, x: Sys, l: Label)
    requires OncePerPlate(x.store) && Enabled(x, l) && !(l.Enter? && Succeeds(lock, x, l))
    ensures OncePerPlate(Next(lock, x, l).store)
  {
    hide Next, Attempt;
    forall r | r in Next(lock, x, l).store.records
      ensures r in x.store.records
      ensures Next(lock, x, l).store.records[r].plate == x.store.records[r].plate
      ensures Next(lock, x, l).store.records[r].status == Entered ==> x.store.records[r].status == Entered
    {
      RecordStep(lock, x, l, r);
    }
  }

  lemma EntryStep(lock: Lock, x: Sys, l: Label)
    requires l.Enter? && Succeeds(lock, x, l)
    ensures Next(lock, x, l).store == StoreSpec.EnterVehicle(x.store, l.id, l.now, l.recId).value.0
    ensures l.recId !in x.store.records && StoreSpec.EnterVehicle(x.store, l.id, l.now, l.recId).Ok?
            && l.id in x.store.auths
  {
  }

  lemma StepKeepsOnceIff(lock: Lock, x: Sys, l: Label)
    requires OncePerPlate(x.store) && Enabled(x, l)
    ensures StaysOnce(lock, x, l) <==> EntersAlone(lock, x, l)
  {
    if l.Enter? && Succeeds(lock, x, l) {
      EntryStep(lock, x, l);
      hide Next, OncePerPlate, NoneInsideWith, StoreSpec.Occupants;
      var (s', rec) := StoreSpec.EnterVehicle(x.store, l.id, l.now, l.recId).value;
      RecordKeepsOnceIff(x.store, s', l.recId, rec);
    } else {
      hide OncePerPlate;
      OthersKeepOnce(lock, x, l);
    }
  }

  /**
   * Under any interleaving and either lock: no plate is ever inside twice exactly when every entry finds no car of
   * its plate inside.
   */
  lemma OnceThroughoutIff(lock: Lock, x: Sys, ls: seq<Label>)
    requires OncePerPlate(x.store) && Run(lock, x, ls)
    ensures Along(lock, x, ls, (y, l) => StaysOnce(lock, y, l))
            <==> Along(lock, x, ls, (y, l) => EntersAlone(lock, y, l))
  {
    var p, q := (y, l) => StaysOnce(lock, y, l), (y, l) => EntersAlone(lock, y, l);
    var inv := (y: Sys) => OncePerPlate(y.store);
    forall y, l | inv(y) && Enabled(y, l) ensures (p(y, l) <==> q(y, l)) && (p(y, l) ==> inv(Next(lock, y, l))) {
      StepKeepsOnceIff(lock, y, l);
    }
    AlongIff(lock, x, ls, inv, p, q);
  }

  lemma StepKeepsOnceIffNoneActive(lock: Lock, x: Sys, l: Label)
    requires Corresponds(x.store) && OncePerPlate(x.store) && Enabled(x, l)
    ensures StaysOnce(lock, x, l) <==> FindsNoneActive(lock, x, l)
  {
    StepKeepsOnceIff(lock, x, l);
    hide Corresponds, OncePerPlate, NoneInsideWith, NoneActiveWith, StaysOnce, Succeeds;
    if l.Enter? && l.id in x.store.auths {
      InsideIsActive(x.store, x.store.auths[l.id].plate);
    }
  }

  /**
   * On runs whose updates replace pending or cancelled rows: no plate is ever inside twice exactly when every entry
   * finds no active authorization of its plate.
   */
  lemma OnceThroughoutIffNoneActive(lock: Lock, x: Sys, ls: seq<Label>)
    requires Consistent(x) && OncePerPlate(x.store) && Run(lock, x, ls)
             && Along(lock, x, ls, (y, l) => OverUnused(lock, y, l))
    ensures Along(lock, x, ls, (y, l) => StaysOnce(lock, y, l))
            <==> Along(lock, x, ls, (y, l) => FindsNoneActive(lock, y, l))
  {
    var p, q, given := (y, l) => StaysOnce(lock, y, l), (y, l) => FindsNoneActive(lock, y, l),
      (y, l) => OverUnused(lock, y, l);
    var inv := (y: Sys) => Consistent(y) && OncePerPlate(y.store);
    forall y, l | inv(y) && Enabled(y, l) && given(y, l)
      ensures (p(y, l) <==> q(y, l)) && (p(y, l) ==> inv(Next(lock, y, l)))
    {
      StepKeepsOnceIffNoneActive(lock, y, l);
      StepKeepsConsistent(lock, y, l);
    }
    AlongIffGiven(lock, x, ls, inv, given, p, q);
  }

  /** The windows are apart, the instants in order, and every car came within its window. */
  ghost predicate WellTimed(x: Sys) {
    Consistent(x) && NoOverlap(x.store) && InOrder(x) && AllCameInWindow(x.store)
  }

  ghost predicate KeepsTimes(lock: Lock, x: Sys, l: Label) {
    OverUnused(lock, x, l) && FitsAmongOthers(lock, x, l) && InClockOrder(x, l)
  }

  lemma StepKeepsWellTimed(lock: Lock, x: Sys, l: Label)
    requires WellTimed(x) && Enabled(x, l) && KeepsTimes(lock, x, l)
    ensures WellTimed(Next(lock, x, l))
  {
    ConsistentIsFiled(x);
    hide Next, Consistent, NoOverlap, InOrder, AllCameInWindow, OverUnused, FitsAmongOthers, InClockOrder,
         HoldsEntries, Filed;
    StepKeepsConsistent(lock, x, l);
    StepKeepsNoOverlapIff(lock, x, l);
    StepKeepsOrder(lock, x, l);
    UnusedHoldsEntries(lock, x, l);
    StepKeepsEntriesIff(lock, x, l);
  }

  lemma StepKeepsOnceIffNoneLeftOver(lock: Lock, x: Sys, l: Label)
    requires WellTimed(x) && OncePerPlate(x.store) && Enabled(x, l) && InClockOrder(x, l)
    ensures StaysOnce(lock, x, l) <==> FindsNoneLeftOver(lock, x, l)
  {
    if l.Enter? && Succeeds(lock, x, l) {
      EntryStep(lock, x, l);
      hide Next, OncePerPlate, Corresponds, NoOverlap, InOrder, AllCameInWindow, NoneLeftOver, StoreSpec.EnterVehicle;
      SecondCarEntersIff(x, l.id, l.now, l.recId);
    } else {
      hide OncePerPlate, WellTimed;
      OthersKeepOnce(lock, x, l);
    }
  }

  /**
   * On runs that also keep the windows apart and the readings in order: no plate is ever inside twice exactly when
   * every entry finds no active authorization of its plate that is past its end or archived.
   */
  lemma OnceThroughoutIffNoneLeftOver(lock: Lock, x: Sys, ls: seq<Label>)
    requires WellTimed(x) && OncePerPlate(x.store) && Run(lock, x, ls)
             && Along(lock, x, ls, (y, l) => KeepsTimes(lock, y, l))
    ensures Along(lock, x, ls, (y, l) => StaysOnce(lock, y, l))
            <==> Along(lock, x, ls, (y, l) => FindsNoneLeftOver(lock, y, l))
  {
    var p, q, given := (y, l) => StaysOnce(lock, y, l), (y, l) => FindsNoneLeftOver(lock, y, l),
      (y, l) => KeepsTimes(lock, y, l);
    var inv := (y: Sys) => WellTimed(y) && OncePerPlate(y.store);
    forall y, l | inv(y) && Enabled(y, l) && given(y, l)
      ensures (p(y, l) <==> q(y, l)) && (p(y, l) ==> inv(Next(lock, y, l)))
    {
      StepKeepsOnceIffNoneLeftOver(lock, y, l);
      StepKeepsWellTimed(lock, y, l);
    }
    AlongIffGiven(lock, x, ls, inv, given, p, q);
  }

  // ---- Canonical plates

  predicate Canonical(p: PlateText) {
    Plate.Valid(p) && Plate.Normalized(p) == p
  }

  ghost predicate PlatesCanonical(x: Sys) {
    && (forall k | k in x.store.auths :: Canonical(x.store.auths[k].plate))
    && (forall r | r in x.store.records :: Canonical(x.store.records[r].plate))
    && (forall t | t in x.calls && x.calls[t].Updating? :: Canonical(x.calls[t].fetched.plate))
  }

  lemma RequestedIsCanonical(req: CreateRequest, id: Id, now: Time)
    requires Requested(req, id, now).Ok?
    ensures Canonical(Requested(req, id, now).value.plate)
  {
    Plate.NormalizedIdempotent(req.plate);
  }

  lemma StepKeepsPlates(lock: Lock, x: Sys, l: Label)
    requires PlatesCanonical(x) && Enabled(x, l)
    ensures PlatesCanonical(Next(lock, x, l))
  {
    hide Canonical, Next, Attempt;
    var y := Next(lock, x, l);
    forall k | k in y.store.auths ensures Canonical(y.store.auths[k].plate) {
      RowStep(lock, x, l, k);
      if k !in x.store.auths {
        RequestedIsCanonical(l.create, k, l.now);
      }
    }
    forall r | r in y.store.records ensures Canonical(y.store.records[r].plate) {
      RecordStep(lock, x, l, r);
    }
    forall t | t in y.calls && y.calls[t].Updating? ensures Canonical(y.calls[t].fetched.plate) {
      CallStep(lock, x, l, t);
    }
  }

  /**
   * Under any interleaving, every stored plate is a valid fixed point of normalising, so comparing stored plates
   * compares plates.
   */
  lemma RunsKeepPlatesCanonical(lock: Lock, x: Sys, ls: seq<Label>)
    requires PlatesCanonical(x) && Run(lock, x, ls)
    ensures PlatesCanonical(Final(lock, x, ls))
  {
    forall y, l | PlatesCanonical(y) && Enabled(y, l) ensures PlatesCanonical(Next(lock, y, l)) {
      StepKeepsPlates(lock, y, l);
    }
    AlongAny(lock, x, ls);
    Invariance(lock, x, ls, PlatesCanonical, (y, l) => true);
  }

  /** From the empty store on, whatever happens. */
  lemma StoredPlatesAreCanonical(lock: Lock, ls: seq<Label>)
    requires Run(lock, INITIAL, ls)
    ensures var s := Final(lock, INITIAL, ls).store;
            && (forall k | k in s.auths :: Canonical(s.auths[k].plate))
            && (forall r | r in s.records :: Canonical(s.records[r].plate))
  {
    RunsKeepPlatesCanonical(lock, INITIAL, ls);
  }

  /** A creation clashes with a stored window exactly when the typed plate is the stored one up to case and blanks. */
  lemma ClashIsBySamePlate(s: State, req: CreateRequest, id: Id, now: Time, k: Id)
    requires k in s.auths && Canonical(s.auths[k].plate) && Requested(req, id, now).Ok?
    ensures var a := Requested(req, id, now).value;
            StoreSpec.ClashesWith(s, a, k)
            <==> StoreSpec.Blocking(s.auths[k]) && StoreSpec.Overlaps(a, s.auths[k])
                 && Plate.SamePlate(req.plate, s.auths[k].plate)
  {
    Plate.NormalizedEqualIff(req.plate, s.auths[k].plate);
  }

  /** Another usable authorization of the same plate, read up to case and blanks, shares an instant with the request. */
  ghost predicate Taken(s: State, req: CreateRequest) {
    exists k | k in s.auths ::
      && s.auths[k].archivedAt.None? && s.auths[k].status != Completed && s.auths[k].status != Cancelled
      && s.auths[k].start < req.end && req.start < s.auths[k].end
      && Plate.SamePlate(req.plate, s.auths[k].plate)
  }

  /**
   * What a successful creation leaves behind: fetching the new id gives the requested visit, pending and unused, on a
   * plate that is the typed one up to case and blanks; every other id answers as before; the same request again
   * clashes.
   */
  lemma CreateThenFetch(s: State, req: CreateRequest, id: Id, now: Time, again: Id, other: Id)
    requires CreateAuthorization(s, req, id, now).Ok? && other != id
    ensures var (s', a) := CreateAuthorization(s, req, id, now).value;
            && StoreSpec.GetAuthorization(s', id) == Ok(a)
            && StoreSpec.GetAuthorization(s', other) == StoreSpec.GetAuthorization(s, other)
            && s' == s.(auths := s'.auths)
            && (a.id, a.residentId, a.areaId, a.start, a.end) == (id, req.residentId, req.areaId, req.start, req.end)
            && a.purpose == TrimSpace(req.purpose)
            && a.createdBy == (if req.createdBy == "" then "system" else req.createdBy)
            && a.status == Pending && a.archivedAt.None? && a.createdAt == a.updatedAt == now
            && Plate.SamePlate(a.plate, req.plate) && Canonical(a.plate)
            && CreateAuthorization(s', req, again, now) == Err(Conflict)
  {
    hide Plate.SamePlate, Plate.Valid, Plate.Normalized;
    var (s', a) := CreateAuthorization(s, req, id, now).value;
    Plate.NormalizedIdempotent(req.plate);
    Plate.NormalizedEqualIff(a.plate, req.plate);
    assert StoreSpec.ClashesWith(s', a.(id := again), id);
  }

  /** The rules for a new authorization, all of them and no others; seven days are written out in nanoseconds. */
  lemma CreationAllowedIff(s: State, req: CreateRequest, id: Id, now: Time)
    requires forall k | k in s.auths :: Canonical(s.auths[k].plate)
    ensures CreateAuthorization(s, req, id, now).Ok?
            <==> && StoreSpec.ResidentKnown(s, req.residentId) && s.residents[req.residentId].status == EnabledResident
                 && StoreSpec.AreaLive(s, req.areaId)
                 && PlateFormat.Matches(PlateFormat.PLATE, Plate.Folded(Utf8.Decode(req.plate)))
                 && req.start != ZERO_TIME && req.end != ZERO_TIME
                 && now <= req.start < req.end <= req.start + 604_800_000_000_000
                 && !Taken(s, req)
  {
    Plate.NormalizedIdempotent(req.plate);
    PlateFormat.ValidMatches(req.plate);
    hide Canonical, Plate.Normalized, Plate.SamePlate, PlateFormat.Matches, Utf8.Decode;
    if Requested(req, id, now).Ok? {
      var a := Requested(req, id, now).value;
      forall k | k in s.auths
        ensures StoreSpec.ClashesWith(s, a, k)
                <==> StoreSpec.Blocking(s.auths[k]) && StoreSpec.Overlaps(a, s.auths[k])
                     && Plate.SamePlate(req.plate, s.auths[k].plate)
      {
        ClashIsBySamePlate(s, req, id, now, k);
      }
    }
  }
}
