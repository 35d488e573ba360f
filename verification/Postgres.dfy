/**
 * The relational store. A table maps its primary key to a row; each transaction body runs as one atomic program of
 * queries, inserts and updates, with the constraints of the schema checked on every write, and returns before it has
 * written anything whenever it returns an error. Each body is proved against what the in-memory store does.
 */
module Postgres {
  import opened Model
  import opened ServiceSpec
  import opened Interleaving
  import opened Lifecycle
  import StoreSpec

  /** The columns an update sets; the others stay as they are in the stored row. */
  function WithColumns(stored: Authorization, a: Authorization): Authorization {
    stored.(start := a.start, end := a.end, status := a.status, purpose := a.purpose, areaId := a.areaId,
      updatedAt := a.updatedAt)
  }

  /** A positive capacity, and a code that no other live area has. */
  predicate AreaRowAllowed(s: State, a: Area) {
    && a.capacity > 0
    && (a.archivedAt.None? ==> forall k | k in s.areas && k != a.id && s.areas[k].archivedAt.None? ::
       s.areas[k].code != a.code)
  }

  class Database {
    var residents: map<Id, Resident>
    var areas: map<Id, Area>
    var auths: map<Id, Authorization>
    var records: map<Id, Record>
    var logs: map<Id, AuditLog>

    constructor ()
      ensures Contents() == EMPTY
    {
      residents, areas, auths, records, logs := map[], map[], map[], map[], map[];
    }

    /** What the tables hold, as the in-memory store would show it. */
    ghost function Contents(): State
      reads this
    {
      State(residents, areas, auths, records, logs)
    }

    /** The tables of a run are in step; in particular no stored status is anything but the four of the lifecycle. */
    ghost predicate Valid()
      reads this
    {
      Corresponds(Contents())
    }

    // ---- Queries

    /** The unarchived pending and active authorizations of the plate whose windows meet the new one. */
    function Overlapping(a: Authorization): set<Id>
      reads this
    {
      set k | k in auths
              && auths[k].plate == a.plate && auths[k].archivedAt.None?
              && (auths[k].status == Pending || auths[k].status == Active)
              && auths[k].start < a.end && auths[k].end > a.start
    }

    function EnteredIn(area: Id): set<Id>
      reads this
    {
      set r | r in records && records[r].areaId == area && records[r].status == Entered
    }

    /** The rows a query for the open record of an authorization may return first. */
    function OpenRecords(id: Id): set<Id>
      reads this
    {
      set r | r in records && records[r].authId == id && records[r].status == Entered
    }

    lemma NoneOverlapsIff(a: Authorization)
      requires Valid()
      ensures |Overlapping(a)| > 0 <==> StoreSpec.Clashes(Contents(), a)
    {
      forall k | k in auths ensures StoreSpec.ClashesWith(Contents(), a, k) <==> k in Overlapping(a) {
        assert Stored(auths[k].status);
      }
      hide Corresponds;
      if Overlapping(a) != {} {
        var k :| k in Overlapping(a);
        assert StoreSpec.ClashesWith(Contents(), a, k) && |Overlapping(a)| > 0;
      }
    }

    lemma NoneOpenBeforeEntry(id: Id)
      requires Valid() && id in auths && auths[id].status == Pending
      ensures OpenRecords(id) == {}
    {
      RecordsByStatus(Contents(), id);
      hide Corresponds;
      assert OpenRecords(id) <= RecordsOf(Contents(), id);
    }

    // ---- Statements

    /** Primary key, foreign keys, and an end after the start. */
    method InsertAuthorization(a: Authorization) returns (err: Option<Error>)
      modifies this`auths
      ensures if a.id !in old(auths) && a.residentId in residents && a.areaId in areas && a.end > a.start
              then err == None && auths == old(auths)[a.id := a]
              else err == Some(DriverError) && auths == old(auths)
    {
      if a.id in auths || a.residentId !in residents || a.areaId !in areas || !(a.end > a.start) {
        return Some(DriverError);
      }
      auths := auths[a.id := a];
      return None;
    }

    /** Primary key, foreign key, and one open record per authorization. */
    method InsertRecord(r: Record) returns (err: Option<Error>)
      modifies this`records
      ensures if r.id !in old(records) && r.authId in auths
              && (r.status == Entered ==> old(OpenRecords(r.authId)) == {})
              then err == None && records == old(records)[r.id := r]
              else err == Some(DriverError) && records == old(records)
    {
      if r.id in records || r.authId !in auths || (r.status == Entered && OpenRecords(r.authId) != {}) {
        return Some(DriverError);
      }
      records := records[r.id := r];
      return None;
    }

    /** Status and stamp of every row with the id. */
    method SetStatus(id: Id, status: AuthStatus, now: Time)
      modifies this`auths
      ensures auths == if id in old(auths)
              then old(auths)[id := old(auths)[id].(status := status, updatedAt := now)] else old(auths)
    {
      var rows := auths;
      auths := map k | k in rows :: if k == id then rows[k].(status := status, updatedAt := now) else rows[k];
    }

    method CloseRecord(r: Id, now: Time, operator: string, note: string)
      modifies this`records
      ensures records == if r in old(records)
              then old(records)[r := StoreSpec.Closed(old(records)[r], now, operator, note)] else old(records)
    {
      var rows := records;
      records := map q | q in rows ::
        if q == r then rows[q].(exitTime := Some(now), exitOperator := operator, exitNote := note, status := Exited,
          updatedAt := now)
        else rows[q];
    }

    // ---- Transactions

    /**
     * What the memory store does, unless the id is taken or the window is empty; then the schema refuses the row. An
     * area that is not there reads as not found.
     */
    method CreateAuthorization(a: Authorization) returns (err: Option<Error>)
      requires Valid()
      modifies this
      ensures match StoreSpec.CreateAuthorization(old(Contents()), a)
              case Err(e) =>
                && Contents() == old(Contents())
                && err == Some(if e == AreaArchived && a.areaId !in areas then NotFound else e)
              case Ok(s) =>
                if a.id !in old(auths) && a.start < a.end then err == None && Contents() == s
                else err == Some(DriverError) && Contents() == old(Contents())
    {
      NoneOverlapsIff(a);
      hide Valid, StoreSpec.Clashes;
      if a.residentId !in residents || residents[a.residentId].archivedAt.Some? {
        return Some(NotFound);
      }
      if residents[a.residentId].status != EnabledResident {
        return Some(ResidentDisabled);
      }
      if a.areaId !in areas {
        return Some(NotFound);
      }
      if areas[a.areaId].archivedAt.Some? {
        return Some(AreaArchived);
      }
      var n := |Overlapping(a)|;
      if n > 0 {
        return Some(Conflict);
      }
      err := InsertAuthorization(a);
    }

    method GetAuthorization(id: Id) returns (res: Result<Authorization>)
      ensures res == StoreSpec.GetAuthorization(Contents(), id)
    {
      var picked := set k | k in auths && k == id && auths[k].archivedAt.None?;
      assert StoreSpec.AuthLive(Contents(), id) <==> id in picked;
      if picked == {} {
        return Err(NotFound);
      }
      assert id in picked;
      return Ok(auths[id]);
    }

    /**
     * One conditional update: it sets its columns where the memory store replaces the row. A row that is gone and a row
     * with another stamp are told apart by nothing, and only here must the area exist.
     */
    method UpdateAuthorization(a: Authorization) returns (err: Option<Error>)
      modifies this
      ensures match StoreSpec.UpdateAuthorization(old(Contents()), a)
              case Err(e) => err == Some(ConcurrentModify) && (e == ConcurrentModify || e == NotFound)
                && Contents() == old(Contents())
              case Ok(s) =>
                if a.areaId in areas && a.start < a.end
                then err == None && Contents() == s.(auths := s.auths[a.id := WithColumns(old(auths)[a.id], a)])
                else err == Some(DriverError) && Contents() == old(Contents())
    {
      var rows := auths;
      var picked := set k | k in rows && k == a.id && rows[k].archivedAt.None? && rows[k].updatedAt == a.updatedAt;
      if picked != {} && (a.areaId !in areas || !(a.end > a.start)) {
        return Some(DriverError);
      }
      auths := map k | k in rows :: if k in picked then WithColumns(rows[k], a) else rows[k];
      if |picked| == 0 {
        assert auths == rows;
        return Some(ConcurrentModify);
      }
      assert auths == rows[a.id := WithColumns(rows[a.id], a)];
      return None;
    }

    method ArchiveAuthorization(id: Id, now: Time) returns (err: Option<Error>)
      modifies this
      ensures match StoreSpec.ArchiveAuthorization(old(Contents()), id, now)
              case Err(e) => err == Some(e) && Contents() == old(Contents())
              case Ok(s) => err == None && Contents() == s
    {
      var rows := auths;
      var picked := set k | k in rows && k == id && rows[k].archivedAt.None?;
      auths := map k | k in rows ::
        if k in picked then rows[k].(archivedAt := Some(now), updatedAt := now) else rows[k];
      if |picked| == 0 {
        assert auths == rows;
        return Some(NotFound);
      }
      assert auths == rows[id := rows[id].(archivedAt := Some(now), updatedAt := now)];
      return None;
    }

    /**
     * What the memory store does; the constraint of one open record per authorization is never the reason for an
     * error.
     */
    method EnterVehicle(id: Id, now: Time, recId: Id) returns (res: Result<Record>)
      requires Valid()
      modifies this
      ensures match StoreSpec.EnterVehicle(old(Contents()), id, now, recId)
              case Err(e) =>
                Contents() == old(Contents()) && res == Err(if e == AreaArchived then NotFound else e)
              case Ok((s, rec)) =>
                if recId !in old(records) then res == Ok(rec) && Contents() == s
                else res == Err(DriverError) && Contents() == old(Contents())
    {
      if id !in auths || auths[id].archivedAt.Some? {
        return Err(NotFound);
      }
      var a := auths[id];
      var plate, areaId, start, end, status := a.plate, a.areaId, a.start, a.end, a.status;
      if status != Pending {
        if status == Active {
          return Err(AlreadyEntered);
        }
        return Err(StatusTransition);
      }
      NoneOpenBeforeEntry(id);
      hide Valid;
      if now < start || !(now < end) {
        return Err(OutOfTimeWindow);
      }
      if areaId !in areas || areas[areaId].archivedAt.Some? {
        return Err(NotFound);
      }
      var capacity, occupied := areas[areaId].capacity, |EnteredIn(areaId)|;
      assert EnteredIn(areaId) == StoreSpec.Occupants(Contents(), areaId);
      if occupied >= capacity {
        return Err(NoCapacity);
      }
      var rec := Record(recId, id, plate, areaId, now, None, "", "", Entered, now, now);
      var err := InsertRecord(rec);
      if err.Some? {
        return Err(err.value);
      }
      SetStatus(id, Active, now);
      return Ok(rec);
    }

    /** What the memory store does, whichever open record either of them comes upon first. */
    method ExitVehicle(id: Id, now: Time, operator: string, note: string) returns (res: Result<Record>)
      requires Valid()
      modifies this
      ensures forall found | StoreSpec.ScanFinds(old(Contents()), id, found) ::
                match StoreSpec.ExitVehicle(old(Contents()), id, now, operator, note, found)
                case Err(e) => res == Err(e) && Contents() == old(Contents())
                case Ok((s, rec)) => res == Ok(rec) && Contents() == s
    {
      if id !in auths || auths[id].archivedAt.Some? {
        return Err(NotFound);
      }
      var status := auths[id].status;
      if status == Completed {
        return Err(AlreadyExited);
      }
      if status != Active {
        return Err(StatusTransition);
      }
      OneOpenRecord(id);
      hide Valid;
      var open := OpenRecords(id);
      if open == {} {
        return Err(NotFound);
      }
      var recId :| recId in open;
      CloseRecord(recId, now, operator, note);
      SetStatus(id, Completed, now);
      return Ok(records[recId]);
    }

    lemma OneOpenRecord(id: Id)
      requires Valid() && id in auths && auths[id].status == Active
      ensures OpenRecords(id) != {}
      ensures forall found | StoreSpec.ScanFinds(Contents(), id, found) ::
                found.Some? && forall r | r in OpenRecords(id) :: found == Some(r)
    {
      RecordsByStatus(Contents(), id);
      var r :| RecordsOf(Contents(), id) == {r} && records[r].status == Entered;
      hide Corresponds;
      assert OpenRecords(id) <= {r};
      assert r in RecordsOf(Contents(), id) && r in OpenRecords(id) && StoreSpec.IsInsideFor(Contents(), id, r);
      forall found | StoreSpec.ScanFinds(Contents(), id, found) ensures found == Some(r) {
        if found.Some? {
          assert found.value in OpenRecords(id);
        }
      }
    }

    method RevokeAuthorization(id: Id, now: Time) returns (res: Result<Authorization>)
      modifies this
      ensures match StoreSpec.RevokeAuthorization(old(Contents()), id, now)
              case Err(e) => res == Err(e) && Contents() == old(Contents())
              case Ok((s, a)) => res == Ok(a) && Contents() == s
    {
      if id !in auths || auths[id].archivedAt.Some? {
        return Err(NotFound);
      }
      var status := auths[id].status;
      if status == Active {
        return Err(StatusTransition);
      }
      if status != Pending {
        return Err(StatusTransition);
      }
      SetStatus(id, Cancelled, now);
      return Ok(auths[id]);
    }

    // ---- The other tables

    /** An area inserted or replaced, if the schema allows the row. */
    method WriteArea(a: Area) returns (err: Option<Error>)
      modifies this
      ensures if AreaRowAllowed(old(Contents()), a)
              then err == None && Contents() == old(Contents()).(areas := old(areas)[a.id := a])
              else err == Some(DriverError) && Contents() == old(Contents())
    {
      var sameCode := set k | k in areas && k != a.id && areas[k].archivedAt.None? && areas[k].code == a.code;
      if a.capacity <= 0 || (a.archivedAt.None? && sameCode != {}) {
        assert a.capacity > 0 ==> exists k :: k in sameCode;
        return Some(DriverError);
      }
      assert a.archivedAt.None? ==> forall k | k in areas && k != a.id && areas[k].archivedAt.None? :: k !in sameCode;
      areas := areas[a.id := a];
      return None;
    }

    method WriteResident(r: Resident)
      modifies this
      ensures Contents() == old(Contents()).(residents := old(residents)[r.id := r])
    {
      residents := residents[r.id := r];
    }

    method CreateAuditLog(l: AuditLog)
      modifies this
      ensures Contents() == StoreSpec.CreateAuditLog(old(Contents()), l)
    {
      logs := logs[l.id := l];
    }
  }

  // ---- Simulation

  /**
   * The rows the program writes are rows the schema allows: updates name known areas, areas have places and codes of
   * their own.
   */
  predicate SchemaAllows(x: Sys, l: Label) {
    && (l.Commit? && Succeeds(AsWritten, x, l) ==>
          Prepared(x.calls[l.t].fetched, x.calls[l.t].req, l.now).value.areaId in x.store.areas)
    && (l.SetArea? ==> AreaRowAllowed(x.store, l.area))
  }

  lemma RequestedRow(req: CreateRequest, id: Id, now: Time)
    requires Requested(req, id, now).Ok?
    ensures var a := Requested(req, id, now).value; a.id == id && a.start < a.end
  {
  }

  lemma PreparedRow(s: State, fetched: Authorization, req: UpdateRequest, now: Time)
    requires Corresponds(s) && FetchedFrom(s, fetched) && Prepared(fetched, req, now).Ok?
    ensures var row := Prepared(fetched, req, now).value;
            && row.id == fetched.id && row.start < row.end
            && (s.auths[row.id].archivedAt.None? ==> WithColumns(s.auths[row.id], row) == row)
  {
  }

  /** A call of one transaction, with the clock reading and the checks of the service before it. */
  method Mutate(db: Database, l: Label, ghost x: Sys) returns (res: Result<Entry>)
    requires db.Valid() && db.Contents() == x.store && l.Mutates() && !l.Commit? && Enabled(x, l)
    modifies db
    ensures match Attempt(AsWritten, x, l)
            case Err(_) => res.Err? && db.Contents() == x.store
            case Ok((s, entry)) => res == Ok(entry) && db.Contents() == s
  {
    hide Database.Valid, StoreSpec.CreateAuthorization, StoreSpec.EnterVehicle, StoreSpec.ExitVehicle,
         StoreSpec.ScanFinds,
         StoreSpec.RevokeAuthorization, StoreSpec.ArchiveAuthorization, Requested;
    match l {
      case Create(_, req, id, now) =>
        var a := Requested(req, id, now);
        if a.Err? {
          return Err(a.error);
        }
        RequestedRow(req, id, now);
        var err := db.CreateAuthorization(a.value);
        return if err.Some? then Err(err.value) else Ok(Created(a.value));
      case Enter(_, id, now, recId) =>
        var r := db.EnterVehicle(id, now, recId);
        return if r.Err? then Err(r.error) else Ok(EnteredBy(r.value));
      case Exit(_, id, now, operator, note, _) =>
        var r := db.ExitVehicle(id, now, TrimSpace(operator), note);
        return if r.Err? then Err(r.error) else Ok(ExitedBy(r.value, operator));
      case Revoke(_, id, now, operator) =>
        var r := db.RevokeAuthorization(id, now);
        return if r.Err? then Err(r.error) else Ok(Revoked(id, operator));
      case Archive(_, id, now) =>
        var err := db.ArchiveAuthorization(id, now);
        return if err.Some? then Err(err.value) else Ok(Archived(id));
    }
  }

  /** The second half of an update: the new row computed from the fetched one, and the conditional update. */
  method CommitRow(db: Database, fetched: Authorization, req: UpdateRequest, now: Time) returns (res: Result<Entry>)
    requires db.Valid() && FetchedFrom(db.Contents(), fetched)
    requires CommitUpdate(AsWritten, db.Contents(), fetched, req, now).Ok? ==>
             Prepared(fetched, req, now).value.areaId in db.areas
    modifies db
    ensures match CommitUpdate(AsWritten, old(db.Contents()), fetched, req, now)
            case Err(_) => res.Err? && db.Contents() == old(db.Contents())
            case Ok((s, row)) => res == Ok(Updated(row.id)) && db.Contents() == s
  {
    var row := Prepared(fetched, req, now);
    if row.Err? {
      return Err(row.error);
    }
    PreparedRow(db.Contents(), fetched, req, now);
    hide Database.Valid, Prepared, FetchedFrom, WithColumns;
    var err := db.UpdateAuthorization(row.value);
    return if err.Some? then Err(err.value) else Ok(Updated(row.value.id));
  }

  /** A step that changes no authorization and no record. */
  method Attend(db: Database, calls: map<Tid, Phase>, l: Label, ghost x: Sys) returns (calls': map<Tid, Phase>)
    requires Enabled(x, l) && SchemaAllows(x, l) && !l.Mutates() && db.Contents() == x.store && calls == x.calls
    modifies db
    ensures db.Contents() == Next(AsWritten, x, l).store && calls' == Next(AsWritten, x, l).calls
  {
    hide AreaRowAllowed, Attempt;
    calls' := calls;
    match l {
      case Fetch(t, id, req) =>
        var res := db.GetAuthorization(id);
        if res.Ok? {
          calls' := calls[t := Updating(res.value, req)];
        }
      case WriteLog(t, logId, at) =>
        var e := calls[t].entry;
        db.CreateAuditLog(AuditLog(logId, e.action, e.entityType, e.entityId, DefaultText(e.operator, "system"), at));
        calls' := calls - {t};
      case SetResident(r) =>
        db.WriteResident(r);
      case SetArea(a) =>
        var _ := db.WriteArea(a);
      case OtherLog(log) =>
        db.CreateAuditLog(log);
    }
  }

  /** One step of the interleaved calls, taken against the database, with the calls in progress kept by the program. */
  method Step(db: Database, calls: map<Tid, Phase>, l: Label, ghost x: Sys) returns (calls': map<Tid, Phase>)
    requires Consistent(x) && Enabled(x, l) && SchemaAllows(x, l) && db.Contents() == x.store && calls == x.calls
    modifies db
    ensures db.Contents() == Next(AsWritten, x, l).store && calls' == Next(AsWritten, x, l).calls
  {
    hide Consistent, Attempt, SchemaAllows, Enabled;
    if l.Mutates() {
      var res := Change(db, calls, l, x);
      calls' := if res.Ok? then calls[l.t := Owing(res.value)] else calls - {l.t};
    } else {
      calls' := Attend(db, calls, l, x);
    }
  }

  method Change(db: Database, calls: map<Tid, Phase>, l: Label, ghost x: Sys) returns (res: Result<Entry>)
    requires Consistent(x) && Enabled(x, l) && SchemaAllows(x, l) && l.Mutates() && db.Contents() == x.store
             && calls == x.calls
    modifies db
    ensures match Attempt(AsWritten, x, l)
            case Err(_) => res.Err? && db.Contents() == x.store
            case Ok((s, entry)) => res == Ok(entry) && db.Contents() == s
  {
    hide Corresponds, FetchedFrom, Prepared, CommitUpdate;
    if l.Commit? {
      res := CommitRow(db, calls[l.t].fetched, calls[l.t].req, l.now);
    } else {
      hide Attempt;
      res := Mutate(db, l, x);
    }
  }

  /**
   * The same interleaved calls made to a database and to the in-memory store, side by side: whenever the rows written
   * are ones the schema allows and updates replace pending or cancelled rows, every call gets the same answer from
   * both, and the tables always hold what the maps hold.
   */
  method Replay(db: Database, calls: map<Tid, Phase>, ls: seq<Label>, ghost x: Sys) returns (calls': map<Tid, Phase>)
    requires Consistent(x) && Run(AsWritten, x, ls) && db.Contents() == x.store && calls == x.calls
    requires Along(AsWritten, x, ls, (y, l) => OverUnused(AsWritten, y, l)) && Along(AsWritten, x, ls, SchemaAllows)
    modifies db
    ensures db.Contents() == Final(AsWritten, x, ls).store && calls' == Final(AsWritten, x, ls).calls
    decreases |ls|
  {
    calls' := calls;
    if ls != [] {
      calls' := Step(db, calls, ls[0], x);
      StepKeepsConsistent(AsWritten, x, ls[0]);
      calls' := Replay(db, calls', ls[1..], Next(AsWritten, x, ls[0]));
    }
  }
}
