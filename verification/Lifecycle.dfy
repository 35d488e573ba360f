/**
 * The two-object lifecycle. An authorization goes pending, active, completed or pending, cancelled, and its record
 * is created by the entry and closed by the exit; the two stay in step on every run whose updates replace pending rows.
 */
module Lifecycle {
  import opened Model
  import opened ServiceSpec
  import opened Interleaving
  import StoreSpec

  predicate Stored(st: AuthStatus) {
    st == Pending || st == Active || st == Completed || st == Cancelled
  }

  /** The record agrees with its authorization, and is open exactly while the authorization is active. */
  ghost predicate InStep(s: State, r: Id)
    requires r in s.records
  {
    var rec := s.records[r];
    && rec.id == r
    && rec.authId in s.auths
    && rec.plate == s.auths[rec.authId].plate
    && rec.areaId == s.auths[rec.authId].areaId
    && ((rec.status == Entered && rec.exitTime.None? && s.auths[rec.authId].status == Active)
        || (rec.status == Exited && rec.exitTime.Some? && s.auths[rec.authId].status == Completed))
  }

  ghost predicate HasRecord(s: State, id: Id) {
    exists r | r in s.records :: s.records[r].authId == id
  }

  ghost predicate Corresponds(s: State) {
    && (forall k | k in s.auths :: s.auths[k].id == k && Stored(s.auths[k].status))
    && (forall r | r in s.records :: InStep(s, r))
    && (forall q, r | q in s.records && r in s.records && q != r :: s.records[q].authId != s.records[r].authId)
    && (forall k | k in s.auths && (s.auths[k].status == Active || s.auths[k].status == Completed) :: HasRecord(s, k))
  }

  /** A fetched row still names the same authorization: id, resident, plate and creation never change. */
  ghost predicate FetchedFrom(s: State, a: Authorization) {
    && a.id in s.auths
    && a.archivedAt.None?
    && var cur := s.auths[a.id];
       cur.residentId == a.residentId && cur.plate == a.plate && cur.createdAt == a.createdAt
       && cur.createdBy == a.createdBy
  }

  ghost predicate Consistent(x: Sys) {
    && Corresponds(x.store)
    && forall t | t in x.calls && x.calls[t].Updating? :: FetchedFrom(x.store, x.calls[t].fetched)
  }

  /**
   * Rows and records are filed under their own ids, and a fetched row names a stored one. Nothing at all breaks this.
   */
  ghost predicate Filed(x: Sys) {
    && (forall k | k in x.store.auths :: x.store.auths[k].id == k)
    && (forall r | r in x.store.records :: x.store.records[r].id == r)
    && (forall t | t in x.calls && x.calls[t].Updating? :: FetchedFrom(x.store, x.calls[t].fetched))
  }

  lemma ConsistentIsFiled(x: Sys)
    requires Consistent(x)
    ensures Filed(x)
  {
    assert forall r | r in x.store.records :: InStep(x.store, r);
  }

  /** An update that commits replaces a row that has no record: one that is pending or cancelled. */
  predicate OverUnused(lock: Lock, x: Sys, l: Label) {
    l.Commit? && Succeeds(lock, x, l) ==>
      var id := x.calls[l.t].fetched.id;
      id in x.store.auths && (x.store.auths[id].status == Pending || x.store.auths[id].status == Cancelled)
  }

  /** An update that commits replaces a row that is not cancelled. */
  predicate OverUncancelled(lock: Lock, x: Sys, l: Label) {
    l.Commit? && Succeeds(lock, x, l) ==>
      var id := x.calls[l.t].fetched.id;
      id in x.store.auths && x.store.auths[id].status != Cancelled
  }

  // ---- Each step keeps the correspondence

  lemma CreateKeeps(s: State, a: Authorization)
    requires Corresponds(s) && a.id !in s.auths && a.status == Pending && StoreSpec.CreateAuthorization(s, a).Ok?
    ensures Corresponds(StoreSpec.CreateAuthorization(s, a).value)
  {
    var s' := StoreSpec.CreateAuthorization(s, a).value;
    forall k | k in s'.auths && (s'.auths[k].status == Active || s'.auths[k].status == Completed)
      ensures HasRecord(s', k)
    {
      assert HasRecord(s, k);
    }
    assert forall r | r in s'.records :: InStep(s, r);
  }

  /** A record of a new authorization joins the others, which keep what they depend on. */
  ghost predicate Opens(s: State, s': State, id: Id, recId: Id) {
    && id in s.auths && s.auths[id].status == Pending && recId !in s.records && id in s'.auths && recId in s'.records
    && s'.auths == s.auths[id := s'.auths[id]] && s'.records == s.records[recId := s'.records[recId]]
    && s'.auths[id].id == id && s'.auths[id].status == Active
    && var rec := s'.records[recId];
       && rec.id == recId && rec.authId == id && rec.plate == s'.auths[id].plate && rec.areaId == s'.auths[id].areaId
       && rec.status == Entered && rec.exitTime.None?
  }

  lemma OpeningKeepsRecord(s: State, s': State, id: Id, recId: Id, r: Id)
    requires Corresponds(s) && Opens(s, s', id, recId) && r in s'.records
    ensures InStep(s', r) && (r != recId ==> s'.records[r].authId != id)
  {
    if r != recId {
      assert InStep(s, r);
    }
  }

  lemma OpeningKeepsRow(s: State, s': State, id: Id, recId: Id, k: Id)
    requires Corresponds(s) && Opens(s, s', id, recId) && k in s'.auths
             && (s'.auths[k].status == Active || s'.auths[k].status == Completed)
    ensures HasRecord(s', k)
  {
    if k == id {
      assert s'.records[recId].authId == id;
    } else {
      assert HasRecord(s, k);
      var r :| r in s.records && s.records[r].authId == k;
      assert s'.records[r].authId == k;
    }
  }

  lemma OpeningKeeps(s: State, s': State, id: Id, recId: Id)
    requires Corresponds(s) && Opens(s, s', id, recId)
    ensures Corresponds(s')
  {
    hide InStep, HasRecord;
    forall r | r in s'.records ensures InStep(s', r) && (r != recId ==> s'.records[r].authId != id) {
      OpeningKeepsRecord(s, s', id, recId, r);
    }
    forall k | k in s'.auths && (s'.auths[k].status == Active || s'.auths[k].status == Completed)
      ensures HasRecord(s', k)
    {
      OpeningKeepsRow(s, s', id, recId, k);
    }
  }

  lemma EnterKeeps(s: State, id: Id, now: Time, recId: Id)
    requires Corresponds(s) && recId !in s.records && StoreSpec.EnterVehicle(s, id, now, recId).Ok?
    ensures Corresponds(StoreSpec.EnterVehicle(s, id, now, recId).value.0)
  {
    hide InStep, HasRecord, StoreSpec.Occupants;
    OpeningKeeps(s, StoreSpec.EnterVehicle(s, id, now, recId).value.0, id, recId);
  }

  lemma ExitKeeps(s: State, id: Id, now: Time, operator: string, note: string, found: Option<Id>)
    requires Corresponds(s) && StoreSpec.ScanFinds(s, id, found)
    requires StoreSpec.ExitVehicle(s, id, now, operator, note, found).Ok?
    ensures Corresponds(StoreSpec.ExitVehicle(s, id, now, operator, note, found).value.0)
  {
    var s' := StoreSpec.ExitVehicle(s, id, now, operator, note, found).value.0;
    assert forall r | r in s.records :: InStep(s, r);
    forall k | k in s'.auths && (s'.auths[k].status == Active || s'.auths[k].status == Completed)
      ensures HasRecord(s', k)
    {
      assert HasRecord(s, k);
      var r :| r in s.records && s.records[r].authId == k;
      assert s'.records[r].authId == k;
    }
  }

  /** A row may be replaced if what its records depend on stays, or if it has no record and the new one needs none. */
  ghost predicate Replaceable(a: Authorization, b: Authorization) {
    if a.status == Pending || a.status == Cancelled then b.status == Pending || b.status == Cancelled
    else b.status == a.status && b.plate == a.plate && b.areaId == a.areaId
  }

  lemma ReplacedRowKeepsRecord(s: State, id: Id, a: Authorization, r: Id)
    requires Corresponds(s) && id in s.auths && Replaceable(s.auths[id], a) && r in s.records
    ensures InStep(s.(auths := s.auths[id := a]), r)
  {
    assert InStep(s, r);
  }

  lemma ReplaceKeeps(s: State, id: Id, a: Authorization)
    requires Corresponds(s) && id in s.auths && a.id == id && Replaceable(s.auths[id], a)
    ensures Corresponds(s.(auths := s.auths[id := a]))
  {
    var s' := s.(auths := s.auths[id := a]);
    hide InStep;
    forall r | r in s'.records ensures InStep(s', r) {
      ReplacedRowKeepsRecord(s, id, a, r);
    }
    forall k | k in s'.auths && (s'.auths[k].status == Active || s'.auths[k].status == Completed)
      ensures HasRecord(s', k)
    {
      assert HasRecord(s, k);
    }
  }

  lemma MutationKeeps(lock: Lock, x: Sys, l: Label)
    requires Consistent(x) && Succeeds(lock, x, l) && OverUnused(lock, x, l)
    ensures Corresponds(Attempt(lock, x, l).value.0)
  {
    match l
    case Create(_, req, id, now) => CreateKeeps(x.store, Requested(req, id, now).value);
    case Enter(_, id, now, recId) => EnterKeeps(x.store, id, now, recId);
    case Exit(_, id, now, operator, note, found) => ExitKeeps(x.store, id, now, TrimSpace(operator), note, found);
    case Revoke(_, id, now, _) => ReplaceKeeps(x.store, id, StoreSpec.RevokeAuthorization(x.store, id, now).value.1);
    case Archive(_, id, now) =>
      ReplaceKeeps(x.store, id, x.store.auths[id].(archivedAt := Some(now), updatedAt := now));
    case Commit(t, now) =>
      var row := Prepared(x.calls[t].fetched, x.calls[t].req, now).value;
      ReplaceKeeps(x.store, row.id, row);
  }

  /** No step drops an authorization or changes what identifies it. */
  lemma StepKeepsIdentity(lock: Lock, x: Sys, l: Label, a: Authorization)
    requires Enabled(x, l) && FetchedFrom(x.store, a)
    requires l.Commit? ==> FetchedFrom(x.store, x.calls[l.t].fetched)
    ensures FetchedFrom(Next(lock, x, l).store, a)
  {
    RowStep(lock, x, l, a.id);
    hide Next, Succeeds;
  }

  lemma StepKeepsConsistent(lock: Lock, x: Sys, l: Label)
    requires Consistent(x) && Enabled(x, l) && OverUnused(lock, x, l)
    ensures Consistent(Next(lock, x, l))
  {
    var y := Next(lock, x, l);
    StoreAfter(lock, x, l);
    hide Next, Attempt, Corresponds, FetchedFrom;
    if Succeeds(lock, x, l) {
      MutationKeeps(lock, x, l);
    } else {
      SameCorrespondence(x.store, y.store);
    }
    forall t | t in y.calls && y.calls[t].Updating? ensures FetchedFrom(y.store, y.calls[t].fetched) {
      CallStep(lock, x, l, t);
      if l.Fetch? && y.store == x.store {
        ConsistentIsFiled(x);
        FetchedIsStored(lock, x, l, t);
      } else {
        StepKeepsIdentity(lock, x, l, x.calls[t].fetched);
      }
    }
  }

  lemma FetchedIsStored(lock: Lock, x: Sys, l: Label, t: Tid)
    requires Filed(x) && Enabled(x, l) && l.Fetch? && t in Next(lock, x, l).calls && Next(lock, x, l).calls[t].Updating?
    ensures FetchedFrom(Next(lock, x, l).store, Next(lock, x, l).calls[t].fetched)
  {
  }

  lemma SameCorrespondence(s: State, s': State)
    requires Corresponds(s) && s.auths == s'.auths && s.records == s'.records
    ensures Corresponds(s')
  {
    assert forall r | r in s.records :: InStep(s, r);
    forall k | k in s'.auths && (s'.auths[k].status == Active || s'.auths[k].status == Completed)
      ensures HasRecord(s', k)
    {
      assert HasRecord(s, k);
    }
  }

  lemma StepKeepsFiled(lock: Lock, x: Sys, l: Label)
    requires Filed(x) && Enabled(x, l)
    ensures Filed(Next(lock, x, l))
  {
    hide Next, Attempt, FetchedFrom, Prepared, Requested;
    var y := Next(lock, x, l);
    forall k | k in y.store.auths ensures y.store.auths[k].id == k {
      StepKeepsRowId(lock, x, l, k);
    }
    forall r | r in y.store.records ensures y.store.records[r].id == r {
      RecordStep(lock, x, l, r);
    }
    forall t | t in y.calls && y.calls[t].Updating? ensures FetchedFrom(y.store, y.calls[t].fetched) {
      CallStep(lock, x, l, t);
      if l.Fetch? && y.store == x.store {
        FetchedIsStored(lock, x, l, t);
      } else {
        StepKeepsIdentity(lock, x, l, x.calls[t].fetched);
      }
    }
  }

  lemma StepKeepsRowId(lock: Lock, x: Sys, l: Label, k: Id)
    requires Enabled(x, l) && (k in x.store.auths ==> x.store.auths[k].id == k)
    ensures k in Next(lock, x, l).store.auths ==> Next(lock, x, l).store.auths[k].id == k
  {
    RowStep(lock, x, l, k);
    hide Next, Attempt;
  }

  lemma RunsKeepFiled(lock: Lock, x: Sys, ls: seq<Label>)
    requires Filed(x) && Run(lock, x, ls)
    ensures Filed(Final(lock, x, ls))
  {
    forall y, l | Filed(y) && Enabled(y, l) ensures Filed(Next(lock, y, l)) {
      StepKeepsFiled(lock, y, l);
    }
    AlongAny(lock, x, ls);
    Invariance(lock, x, ls, Filed, (y, l) => true);
  }

  // ---- When an update breaks the correspondence

  /** A commit keeps the two objects in step exactly when the row it replaces has no record. */
  lemma CommitKeepsIff(lock: Lock, x: Sys, l: Label)
    requires Consistent(x) && l.Commit? && Succeeds(lock, x, l)
    ensures Corresponds(Next(lock, x, l).store) <==> OverUnused(lock, x, l)
  {
    if OverUnused(lock, x, l) {
      StepKeepsConsistent(lock, x, l);
    } else {
      var id := x.calls[l.t].fetched.id;
      RowStep(lock, x, l, id);
      assert HasRecord(x.store, id);
      var r :| r in x.store.records && x.store.records[r].authId == id;
      RecordStep(lock, x, l, r);
      assert InStep(x.store, r) && Next(lock, x, l).store.auths[id].status == Pending;
      hide Next, Attempt;
      assert !InStep(Next(lock, x, l).store, r);
    }
  }

  ghost predicate StaysInStep(lock: Lock, x: Sys, l: Label) {
    Enabled(x, l) && Corresponds(Next(lock, x, l).store)
  }

  /**
   * Under any interleaving: the two objects are in step after every step exactly when every commit replaces an unused
   * row.
   */
  lemma InStepThroughoutIff(lock: Lock, x: Sys, ls: seq<Label>)
    requires Consistent(x) && Run(lock, x, ls)
    ensures Along(lock, x, ls, (y, l) => StaysInStep(lock, y, l))
            <==> Along(lock, x, ls, (y, l) => OverUnused(lock, y, l))
  {
    var p, q := (y, l) => OverUnused(lock, y, l), (y, l) => StaysInStep(lock, y, l);
    forall y, l | Consistent(y) && Enabled(y, l)
      ensures (p(y, l) <==> q(y, l)) && (p(y, l) ==> Consistent(Next(lock, y, l)))
    {
      if p(y, l) {
        StepKeepsConsistent(lock, y, l);
      } else {
        CommitKeepsIff(lock, y, l);
      }
    }
    AlongIff(lock, x, ls, Consistent, p, q);
  }

  /** On every run whose updates replace pending or cancelled rows, records and authorizations stay in step. */
  lemma RunsCorrespond(lock: Lock, x: Sys, ls: seq<Label>)
    requires Consistent(x) && Run(lock, x, ls) && Along(lock, x, ls, (y, l) => OverUnused(lock, y, l))
    ensures Consistent(Final(lock, x, ls))
  {
    var ok := (y, l) => OverUnused(lock, y, l);
    forall y, l | Consistent(y) && ok(y, l) && Enabled(y, l) ensures Consistent(Next(lock, y, l)) {
      StepKeepsConsistent(lock, y, l);
    }
    Invariance(lock, x, ls, Consistent, ok);
  }

  /** Pending rows are unused, and not cancelled. */
  lemma OverPendingIsMild(lock: Lock, x: Sys, ls: seq<Label>)
    requires Run(lock, x, ls) && Along(lock, x, ls, (y, l) => OverPending(lock, y, l))
    ensures Along(lock, x, ls, (y, l) => OverUnused(lock, y, l))
    ensures Along(lock, x, ls, (y, l) => OverUncancelled(lock, y, l))
  {
    var pending := (y, l) => OverPending(lock, y, l);
    AlongBoth(lock, x, ls, pending, pending, (y, l) => OverUnused(lock, y, l));
    AlongBoth(lock, x, ls, pending, pending, (y, l) => OverUncancelled(lock, y, l));
  }

  // ---- What the correspondence says

  function RecordsOf(s: State, id: Id): set<Id> {
    set r | r in s.records && s.records[r].authId == id
  }

  /** No record before entry or after revocation, one open record while active, one closed record after exit. */
  lemma RecordsByStatus(s: State, id: Id)
    requires Corresponds(s) && id in s.auths
    ensures s.auths[id].status == Pending || s.auths[id].status == Cancelled <==> RecordsOf(s, id) == {}
    ensures s.auths[id].status == Active
            <==> exists r :: RecordsOf(s, id) == {r} && s.records[r].status == Entered && s.records[r].exitTime.None?
    ensures s.auths[id].status == Completed
            <==> exists r :: RecordsOf(s, id) == {r} && s.records[r].status == Exited && s.records[r].exitTime.Some?
  {
    forall r | r in RecordsOf(s, id) ensures InStep(s, r) && RecordsOf(s, id) == {r} {
      assert forall q | q in s.records && q != r :: s.records[q].authId != s.records[r].authId;
    }
    if s.auths[id].status == Active || s.auths[id].status == Completed {
      assert HasRecord(s, id);
      var r :| r in s.records && s.records[r].authId == id;
      assert r in RecordsOf(s, id);
    }
  }

  /** The exit branch for an active authorization without an open record is never taken. */
  lemma ExitFindsItsRecord(s: State, id: Id, found: Option<Id>)
    requires Corresponds(s) && id in s.auths && StoreSpec.ScanFinds(s, id, found)
    ensures found.Some? <==> s.auths[id].status == Active
    ensures found.Some? ==> RecordsOf(s, id) == {found.value}
  {
    RecordsByStatus(s, id);
    if s.auths[id].status == Active {
      var r :| RecordsOf(s, id) == {r} && s.records[r].status == Entered;
      assert r in RecordsOf(s, id);
      assert StoreSpec.IsInsideFor(s, id, r);
    }
    if found.Some? {
      assert InStep(s, found.value) && found.value in RecordsOf(s, id);
    }
  }

  /** A live authorization can be exited exactly when it is active, whatever the search of the records comes upon. */
  lemma ExitSucceedsIff(s: State, id: Id, now: Time, operator: string, note: string, found: Option<Id>)
    requires Corresponds(s) && StoreSpec.ScanFinds(s, id, found)
    ensures StoreSpec.ExitVehicle(s, id, now, operator, note, found).Ok?
            <==> StoreSpec.AuthLive(s, id) && s.auths[id].status == Active
  {
    if id in s.auths {
      ExitFindsItsRecord(s, id, found);
    }
  }

  /**
   * A live authorization that is completed or cancelled refuses every later operation but archiving; an active one
   * refuses everything but its exit; whatever the instant, the request and the search.
   */
  lemma StatusRefuses(
      lock: Lock, s: State, id: Id, now: Time, recId: Id, found: Option<Id>, operator: string, note: string,
        req: UpdateRequest)
    requires Corresponds(s) && StoreSpec.AuthLive(s, id) && StoreSpec.ScanFinds(s, id, found)
             && s.auths[id].status != Pending
    ensures StoreSpec.EnterVehicle(s, id, now, recId)
            == Err(if s.auths[id].status == Active then AlreadyEntered else StatusTransition)
    ensures StoreSpec.RevokeAuthorization(s, id, now) == Err(StatusTransition)
    ensures UpdateAuthorization(lock, s, id, req, now) == Err(StatusTransition)
    ensures match StoreSpec.ExitVehicle(s, id, now, operator, note, found)
            case Ok(_) => s.auths[id].status == Active
            case Err(e) => (s.auths[id].status == Completed && e == AlreadyExited)
                           || (s.auths[id].status == Cancelled && e == StatusTransition)
  {
    ExitFindsItsRecord(s, id, found);
  }

  /**
   * An entry and the exit after it: the search finds the new record, which then tells the whole visit; the
   * authorization is completed; every area is as full as before and nothing else has changed.
   */
  lemma EnterThenExit(s: State, id: Id, came: Time, recId: Id, left: Time, operator: string, note: string,
    found: Option<Id>)
    requires Corresponds(s) && recId !in s.records && StoreSpec.EnterVehicle(s, id, came, recId).Ok?
    requires StoreSpec.ScanFinds(StoreSpec.EnterVehicle(s, id, came, recId).value.0, id, found)
    ensures var exit :=
            StoreSpec.ExitVehicle(StoreSpec.EnterVehicle(s, id, came, recId).value.0, id, left, operator, note, found);
            && exit.Ok?
            && var (s', rec) := exit.value;
               && rec == Record(recId, id, s.auths[id].plate, s.auths[id].areaId, came, Some(left), operator, note,
                  Exited, came, left)
               && s' == s.(records := s.records[recId := rec],
                           auths := s.auths[id := s.auths[id].(status := Completed, updatedAt := left)])
               && forall area :: StoreSpec.Occupants(s', area) == StoreSpec.Occupants(s, area)
  {
    hide Corresponds, StoreSpec.Occupants, StoreSpec.ScanFinds;
    var (s1, open) := StoreSpec.EnterVehicle(s, id, came, recId).value;
    EnterKeeps(s, id, came, recId);
    ExitFindsItsRecord(s1, id, found);
    assert recId in RecordsOf(s1, id);
    var (s', rec) := StoreSpec.ExitVehicle(s1, id, left, operator, note, found).value;
    ClosedRecordIsOutside(s, s', recId, rec);
  }

  lemma ClosedRecordIsOutside(s: State, s': State, recId: Id, rec: Record)
    requires recId !in s.records && s'.records == s.records[recId := rec] && rec.status == Exited
    ensures forall area :: StoreSpec.Occupants(s', area) == StoreSpec.Occupants(s, area)
  {
    forall area ensures StoreSpec.Occupants(s', area) == StoreSpec.Occupants(s, area) {
    }
  }
}
