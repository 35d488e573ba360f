/**
 * Sequences of service calls on a live store, one at a time: each ends where a sequential run of the step model ends,
 * so what is proved of those runs holds of the objects in memory.
 */
module Sessions {
  import opened Model
  import opened ServiceSpec
  import opened Interleaving
  import opened Lifecycle
  import opened Locking
  import opened Calls
  import Memory
  import Service
  import StoreSpec

  datatype Request =
    | AddResident(resident: Resident)
    | AddArea(area: Area)
    | EditArea(areaId: Id, edit: AreaRequest)
    | Authorize(create: CreateRequest)
    | Change(id: Id, update: UpdateRequest)
    | Discard(id: Id)
    | Arrive(id: Id)
    | Depart(id: Id, operator: string, note: string)
    | Withdraw(id: Id, operator: string)

  /** A request with the two clock readings its call makes. */
  datatype Call = Call(request: Request, now: Time, at: Time)

  /** Some id that is not in use. */
  method NewId(used: set<Id>) returns (id: Id)
    ensures id !in used
  {
    var longest, left := 0, used;
    while left != {}
      invariant 0 <= longest && left <= used
      invariant forall u | u in used && u !in left :: |u| <= longest
      decreases |left|
    {
      var u :| u in left;
      left := left - {u};
      longest := if |u| > longest then |u| else longest;
    }
    id := seq(longest + 1, _ => '0');
  }

  /** The run leads from a state between calls to a state between calls, one call at a time. */
  ghost predicate Leads(x: Sys, ls: seq<Label>, s: State) {
    && Run(AsWritten, x, ls) && Along(AsWritten, x, ls, OneAtATime)
    && Final(AsWritten, x, ls).calls == map[] && Final(AsWritten, x, ls).store == s
  }

  /** One step at the call's first reading and, if it succeeds, its journal entry at the second. */
  ghost predicate OneStepAndEntry(c: Call, x: Sys, ls: seq<Label>) {
    && 1 <= |ls| <= 2 && ls[0].Mutates() && ls[0].t == 0 && ls[0].now == c.now
    && (|ls| == 2 <==> Succeeds(AsWritten, x, ls[0]))
    && (|ls| == 2 ==> ls[1].WriteLog? && ls[1].t == 0 && ls[1].at == c.at)
  }

  /** The steps are those of the request, with new ids of the service's choice. */
  ghost predicate Asks(c: Call, x: Sys, ls: seq<Label>) {
    match c.request
    case AddResident(r) => ls == if r.id in x.store.residents then [] else [SetResident(r)]
    case AddArea(a) => ls == if a.id in x.store.areas then [] else [SetArea(a)]
    case EditArea(id, edit) =>
      (match ServiceSpec.UpdateParkingArea(x.store, id, edit, c.now)
       case Err(_) => ls == []
       case Ok((_, row)) =>
         exists logId :: ls
           == [SetArea(row), OtherLog(AuditLog(logId, AreaUpdate, "parking_area", id, "system", c.at))])
    case Authorize(req) => OneStepAndEntry(c, x, ls) && ls[0].Create? && ls[0].create == req
    case Change(id, update) => exists logId :: ls == UpdateScript(x, 0, id, update, c.now, logId, c.at)
    case Discard(id) => OneStepAndEntry(c, x, ls) && ls[0].Archive? && ls[0].id == id
    case Arrive(id) => OneStepAndEntry(c, x, ls) && ls[0].Enter? && ls[0].id == id
    case Depart(id, operator, note) =>
      && OneStepAndEntry(c, x, ls) && ls[0].Exit?
      && (ls[0].id, ls[0].operator, ls[0].note) == (id, operator, note)
    case Withdraw(id, operator) =>
      OneStepAndEntry(c, x, ls) && ls[0].Revoke? && (ls[0].id, ls[0].operator) == (id, operator)
  }

  /** The run serves the calls of the script one after the other. */
  ghost predicate Serves(script: seq<Call>, x: Sys, ls: seq<Label>)
    decreases |script|
  {
    if script == [] then ls == []
    else
      exists k ::
        && 0 <= k <= |ls| && Asks(script[0], x, ls[..k]) && Run(AsWritten, x, ls[..k])
        && Serves(script[1..], Final(AsWritten, x, ls[..k]), ls[k..])
  }

  lemma NoStep(x: Sys)
    requires x.calls == map[]
    ensures Leads(x, [], x.store)
  {
  }

  lemma AreaEditIsRun(x: Sys, area: Area, log: AuditLog)
    requires x.calls == map[] && log.id !in x.store.logs && !Tracked(log.action)
    ensures Leads(x, [SetArea(area), OtherLog(log)],
            x.store.(areas := x.store.areas[area.id := area], logs := x.store.logs[log.id := log]))
  {
    var y := Next(AsWritten, x, SetArea(area));
    RunCons(AsWritten, y, OtherLog(log), [], OneAtATime);
    RunCons(AsWritten, x, SetArea(area), [OtherLog(log)], OneAtATime);
    assert [SetArea(area)] + [OtherLog(log)] == [SetArea(area), OtherLog(log)]
           && [OtherLog(log)] + [] == [OtherLog(log)];
  }

  lemma SettingIsRun(x: Sys, l: Label)
    requires x.calls == map[] && (l.SetResident? || l.SetArea?)
    ensures Leads(x, [l], Next(AsWritten, x, l).store)
  {
    RunCons(AsWritten, x, l, [], OneAtATime);
    assert [l] + [] == [l];
  }

  method NewArea(row: Area) returns (a: Memory.ParkingArea)
    ensures a.Value() == row && fresh(a.Parts())
  {
    var p: Memory.Instant? := null;
    if row.archivedAt.Some? {
      p := new Memory.Instant(row.archivedAt.value);
    }
    a := new Memory.ParkingArea(row.id, row.name, row.code, row.capacity, p, row.createdAt, row.updatedAt);
  }

  method NewUpdate(req: UpdateRequest) returns (a: Memory.Auth)
    ensures Service.RequestIn(a) == req && fresh(a)
  {
    a := new Memory.Auth("", "", [], req.areaId, req.start, req.end, Pending, req.purpose, "", null, ZERO_TIME,
      req.updatedAt);
  }

  /** The requests about residents and areas. */
  method ServeSetting(svc: Service.Service, c: Call, ghost x: Sys) returns (ghost ls: seq<Label>)
    requires svc.store.Valid() && svc.store.View == x.store && x.calls == map[] && Filed(x)
    requires c.request.AddResident? || c.request.AddArea? || c.request.EditArea?
    modifies svc.store.Repr
    ensures svc.store.Valid() && fresh(svc.store.Repr - old(svc.store.Repr))
    ensures Leads(x, ls, svc.store.View) && Asks(c, x, ls)
  {
    hide Memory.Store.Valid, Leads;
    ls := [];
    NoStep(x);
    match c.request {
      case AddResident(r) =>
        var err := svc.store.CreateResident(r);
        if err.None? {
          ls := [SetResident(r)];
          SettingIsRun(x, ls[0]);
        }
      case AddArea(row) =>
        var a := NewArea(row);
        var err := svc.store.CreateParkingArea(a);
        if err.None? {
          ls := [SetArea(row)];
          SettingIsRun(x, ls[0]);
        }
      case EditArea(id, req) =>
        assert x.store.logs == svc.store.View.logs;
        var logId := NewLogId(svc.store);
        var res := svc.UpdateParkingArea(id, req, c.now, logId, c.at);
        if res.Ok? {
          ghost var row := ServiceSpec.UpdateParkingArea(x.store, id, req, c.now).value.1;
          ghost var log := AuditLog(logId, AreaUpdate, "parking_area", id, "system", c.at);
          ls := [SetArea(row), OtherLog(log)];
          AreaEditIsRun(x, row, log);
        }
    }
  }

  method NewLogId(m: Memory.Store) returns (id: Id)
    requires m.Valid()
    ensures id !in m.View.logs
  {
    id := NewId(m.logs.Keys);
  }

  method NewAuthId(m: Memory.Store) returns (id: Id)
    requires m.Valid()
    ensures id !in m.View.auths
  {
    id := NewId(m.auths.Keys);
  }

  method NewRecordId(m: Memory.Store) returns (id: Id)
    requires m.Valid()
    ensures id !in m.View.records
  {
    id := NewId(m.records.Keys);
  }

  lemma CallLeads(x: Sys, l: Label, logId: Id, at: Time)
    requires x.calls == map[] && l.Mutates() && Enabled(x, l) && logId !in x.store.logs
    ensures Leads(x, if Succeeds(AsWritten, x, l) then [l, WriteLog(l.t, logId, at)] else [l],
                  After(x.store, Attempt(AsWritten, x, l), logId, at))
  {
    hide Attempt;
    OneStepCallIsRun(x, l, logId, at);
  }

  method ServeCreation(svc: Service.Service, req: CreateRequest, c: Call, ghost x: Sys) returns (ghost ls: seq<Label>)
    requires svc.store.Valid() && svc.store.View == x.store && x.calls == map[]
    modifies svc.store.Repr
    ensures svc.store.Valid() && fresh(svc.store.Repr - old(svc.store.Repr))
    ensures Leads(x, ls, svc.store.View) && OneStepAndEntry(c, x, ls) && ls[0].Create? && ls[0].create == req
  {
    hide Memory.Store.Valid, StoreSpec.CreateAuthorization, Requested, Leads;
    var logId := NewLogId(svc.store);
    var id := NewAuthId(svc.store);
    ghost var l := Create(0, req, id, c.now);
    var res := svc.CreateAuthorization(req, c.now, id, logId, c.at);
    assert svc.store.View == After(x.store, Attempt(AsWritten, x, l), logId, c.at);
    CallLeads(x, l, logId, c.at);
    ls := if Succeeds(AsWritten, x, l) then [l, WriteLog(l.t, logId, c.at)] else [l];
  }

  /** The step the request asks for, whatever the service chooses of its own. */
  ghost predicate AsksFor(c: Call, l: Label) {
    l.Mutates() && !l.Commit? && l.t == 0 && l.now == c.now
    && match c.request
       case Discard(id) => l.Archive? && l.id == id
       case Arrive(id) => l.Enter? && l.id == id
       case Depart(id, operator, note) => l.Exit? && (l.id, l.operator, l.note) == (id, operator, note)
       case Withdraw(id, operator) => l.Revoke? && (l.id, l.operator) == (id, operator)
       case _ => false
  }

  lemma OneStepServes(c: Call, x: Sys, l: Label, logId: Id)
    requires AsksFor(c, l)
    ensures Asks(c, x, if Succeeds(AsWritten, x, l) then [l, WriteLog(l.t, logId, c.at)] else [l])
  {
    hide Succeeds;
  }

  /** The requests at the gate. */
  method ServeGate(svc: Service.Service, c: Call, ghost x: Sys) returns (ghost ls: seq<Label>)
    requires svc.store.Valid() && svc.store.View == x.store && x.calls == map[]
    requires c.request.Arrive? || c.request.Depart?
    modifies svc.store.Repr
    ensures svc.store.Valid() && fresh(svc.store.Repr - old(svc.store.Repr))
    ensures Leads(x, ls, svc.store.View) && Asks(c, x, ls)
  {
    hide Memory.Store.Valid, StoreSpec.EnterVehicle, StoreSpec.ExitVehicle, StoreSpec.ScanFinds, Leads, Asks;
    var logId := NewLogId(svc.store);
    ghost var l: Label;
    match c.request {
      case Arrive(id) =>
        var recId := NewRecordId(svc.store);
        l := Enter(0, id, c.now, recId);
        var res := svc.EnterVehicle(id, c.now, recId, logId, c.at);
      case Depart(id, operator, note) =>
        var res, found := svc.ExitVehicle(id, operator, note, c.now, logId, c.at);
        l := Exit(0, id, c.now, operator, note, found);
    }
    assert AsksFor(c, l) && Enabled(x, l) && svc.store.View == After(x.store, Attempt(AsWritten, x, l), logId, c.at);
    hide Attempt, Enabled, After;
    CallLeads(x, l, logId, c.at);
    OneStepServes(c, x, l, logId);
    ls := if Succeeds(AsWritten, x, l) then [l, WriteLog(l.t, logId, c.at)] else [l];
  }

  /** The requests that end an authorization. */
  method ServeEnding(svc: Service.Service, c: Call, ghost x: Sys) returns (ghost ls: seq<Label>)
    requires svc.store.Valid() && svc.store.View == x.store && x.calls == map[]
    requires c.request.Discard? || c.request.Withdraw?
    modifies svc.store.Repr
    ensures svc.store.Valid() && fresh(svc.store.Repr - old(svc.store.Repr))
    ensures Leads(x, ls, svc.store.View) && Asks(c, x, ls)
  {
    hide Memory.Store.Valid, StoreSpec.RevokeAuthorization, StoreSpec.ArchiveAuthorization, Leads, Asks;
    var logId := NewLogId(svc.store);
    ghost var l: Label;
    match c.request {
      case Discard(id) =>
        l := Archive(0, id, c.now);
        var err := svc.ArchiveAuthorization(id, c.now, logId, c.at);
      case Withdraw(id, operator) =>
        l := Revoke(0, id, c.now, operator);
        var res := svc.Revoke(id, operator, c.now, logId, c.at);
    }
    assert AsksFor(c, l) && Enabled(x, l) && svc.store.View == After(x.store, Attempt(AsWritten, x, l), logId, c.at);
    hide Attempt, Enabled, After;
    CallLeads(x, l, logId, c.at);
    OneStepServes(c, x, l, logId);
    ls := if Succeeds(AsWritten, x, l) then [l, WriteLog(l.t, logId, c.at)] else [l];
  }

  /** One request, as the steps it takes. */
  method Serve(svc: Service.Service, c: Call, ghost x: Sys) returns (ghost ls: seq<Label>)
    requires svc.store.Valid() && svc.store.View == x.store && x.calls == map[] && Filed(x)
    modifies svc.store.Repr
    ensures svc.store.Valid() && fresh(svc.store.Repr - old(svc.store.Repr))
    ensures Leads(x, ls, svc.store.View) && Asks(c, x, ls)
  {
    hide Memory.Store.Valid, Leads;
    match c.request {
      case Authorize(req) => ls := ServeCreation(svc, req, c, x);
      case Change(id, req) => ls := ServeUpdate(svc, id, req, c, x);
      case AddResident(_) => ls := ServeSetting(svc, c, x);
      case AddArea(_) => ls := ServeSetting(svc, c, x);
      case EditArea(_, _) => ls := ServeSetting(svc, c, x);
      case Arrive(_) => ls := ServeGate(svc, c, x);
      case Depart(_, _, _) => ls := ServeGate(svc, c, x);
      case _ => ls := ServeEnding(svc, c, x);
    }
  }

  method ServeUpdate(svc: Service.Service, id: Id, req: UpdateRequest, c: Call, ghost x: Sys)
    returns (ghost ls: seq<Label>)
    requires svc.store.Valid() && svc.store.View == x.store && x.calls == map[] && Filed(x)
    requires c.request == Change(id, req)
    modifies svc.store.Repr
    ensures svc.store.Valid() && fresh(svc.store.Repr - old(svc.store.Repr))
    ensures Leads(x, ls, svc.store.View) && Asks(c, x, ls)
  {
    hide Memory.Store.Valid;
    var logId := NewLogId(svc.store);
    var a := NewUpdate(req);
    var res := svc.UpdateAuthorization(id, a, c.now, logId, c.at);
    ls := UpdateScript(x, 0, id, req, c.now, logId, c.at);
    UpdateCallIsRun(x, 0, id, req, c.now, logId, c.at);
    hide UpdateAuthorization;
  }

  /** Any requests, one after the other, from a state between calls. */
  method ServeAll(svc: Service.Service, script: seq<Call>, ghost x: Sys) returns (ghost ls: seq<Label>)
    requires svc.store.Valid() && svc.store.View == x.store && x.calls == map[] && Filed(x)
    modifies svc.store.Repr
    ensures svc.store.Valid() && fresh(svc.store.Repr - old(svc.store.Repr))
    ensures Leads(x, ls, svc.store.View) && Serves(script, x, ls)
    decreases |script|
  {
    hide Memory.Store.Valid;
    if script == [] {
      ls := [];
      NoStep(x);
    } else {
      ghost var first := Serve(svc, script[0], x);
      ghost var y := Final(AsWritten, x, first);
      RunsKeepFiled(AsWritten, x, first);
      ghost var rest := ServeAll(svc, script[1..], y);
      ls := first + rest;
      RunConcat(AsWritten, x, first, rest, OneAtATime);
      assert ls[..|first|] == first && ls[|first|..] == rest;
    }
  }

  /** Whatever is asked of a new service, its store ends where a run of just those calls, one at a time, ends. */
  method Session(script: seq<Call>) returns (svc: Service.Service, ghost ls: seq<Label>)
    ensures svc.store.Valid() && Sequential(ls) && Serves(script, INITIAL, ls)
    ensures Final(AsWritten, INITIAL, ls).store == svc.store.View && Final(AsWritten, INITIAL, ls).calls == map[]
  {
    var m := new Memory.Store();
    svc := new Service.Service(m);
    ls := ServeAll(svc, script, INITIAL);
  }
}
