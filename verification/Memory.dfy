/**
 * The in-memory store: maps of mutable objects, changed in place. Objects are copied on the way in and on the way
 * out, so the store never shares one with a caller. Each method stands for one critical section of the mutex.
 */
module Memory {
  import opened Model
  import Listing
  import Sorting
  import StoreSpec

  /** A time behind a pointer. */
  class Instant {
    var at: Time

    constructor (at: Time)
      ensures this.at == at
    {
      this.at := at;
    }
  }

  ghost function Pointee(p: Instant?): set<object> {
    if p == null then {} else {p}
  }

  ghost function TimeAt(p: Instant?): Option<Time>
    reads p
  {
    if p == null then None else Some(p.at)
  }

  method ClonePtr(p: Instant?) returns (c: Instant?)
    ensures TimeAt(c) == TimeAt(p) && fresh(Pointee(c))
  {
    if p == null {
      c := null;
    } else {
      c := new Instant(p.at);
    }
  }

  lemma CountOneMore(counted: set<Id>, left: set<Id>, r: Id)
    requires r in left
    ensures |counted - (left - {r})| == |counted - left| + (if r in counted then 1 else 0)
  {
    if r in counted {
      assert counted - (left - {r}) == (counted - left) + {r};
    } else {
      assert counted - (left - {r}) == counted - left;
    }
  }

  class Auth {
    var id: Id
    var residentId: Id
    var plate: PlateText
    var areaId: Id
    var start: Time
    var end: Time
    var status: AuthStatus
    var purpose: string
    var createdBy: string
    var archivedAt: Instant?
    var createdAt: Time
    var updatedAt: Time

    ghost function Value(): Authorization
      reads this, archivedAt
    {
      Authorization(id, residentId, plate, areaId, start, end, status, purpose, createdBy, TimeAt(archivedAt),
        createdAt, updatedAt)
    }

    ghost function Parts(): set<object>
      reads this
    {
      {this} + Pointee(archivedAt)
    }

    constructor (id: Id, residentId: Id, plate: PlateText, areaId: Id, start: Time, end: Time, status: AuthStatus,
                 purpose: string, createdBy: string, archivedAt: Instant?, createdAt: Time, updatedAt: Time)
      ensures this.archivedAt == archivedAt
      ensures Value() == Authorization(id, residentId, plate, areaId, start, end, status, purpose, createdBy,
                                       TimeAt(archivedAt), createdAt, updatedAt)
    {
      this.id, this.residentId, this.plate, this.areaId := id, residentId, plate, areaId;
      this.start, this.end, this.status, this.purpose := start, end, status, purpose;
      this.createdBy, this.archivedAt, this.createdAt, this.updatedAt := createdBy, archivedAt, createdAt, updatedAt;
    }

    method Clone() returns (c: Auth)
      ensures c.Value() == Value() && c.id == id && c.start == start && fresh(c.Parts())
    {
      var p := ClonePtr(archivedAt);
      c := new Auth(id, residentId, plate, areaId, start, end, status, purpose, createdBy, p, createdAt, updatedAt);
    }
  }

  /** The record of an entry. */
  method NewRec(a: Auth, id: Id, recId: Id, now: Time) returns (rec: Rec)
    ensures rec.Value() == StoreSpec.NewRecord(id, a.Value(), recId, now) && rec.id == recId && fresh(rec.Parts())
  {
    rec := new Rec(recId, id, a.plate, a.areaId, now, null, "", "", Entered, now, now);
  }

  class Rec {
    var id: Id
    var authId: Id
    var plate: PlateText
    var areaId: Id
    var entryTime: Time
    var exitTime: Instant?
    var exitOperator: string
    var exitNote: string
    var status: RecordStatus
    var createdAt: Time
    var updatedAt: Time

    ghost function Value(): Record
      reads this, exitTime
    {
      Record(id, authId, plate, areaId, entryTime, TimeAt(exitTime), exitOperator, exitNote, status, createdAt,
        updatedAt)
    }

    ghost function Parts(): set<object>
      reads this
    {
      {this} + Pointee(exitTime)
    }

    constructor (id: Id, authId: Id, plate: PlateText, areaId: Id, entryTime: Time, exitTime: Instant?,
                 exitOperator: string, exitNote: string, status: RecordStatus, createdAt: Time, updatedAt: Time)
      ensures this.exitTime == exitTime
      ensures Value() == Record(id, authId, plate, areaId, entryTime, TimeAt(exitTime), exitOperator, exitNote, status,
                                createdAt, updatedAt)
    {
      this.id, this.authId, this.plate, this.areaId := id, authId, plate, areaId;
      this.entryTime, this.exitTime, this.exitOperator, this.exitNote := entryTime, exitTime, exitOperator, exitNote;
      this.status, this.createdAt, this.updatedAt := status, createdAt, updatedAt;
    }

    /** Closed in place. */
    method Leave(et: Instant, operator: string, note: string)
      modifies this
      ensures Value() == StoreSpec.Closed(old(Value()), et.at, operator, note) && exitTime == et && id == old(id)
    {
      exitTime := et;
      exitOperator := operator;
      exitNote := note;
      status := Exited;
      updatedAt := et.at;
    }

    method Clone() returns (c: Rec)
      ensures c.Value() == Value() && c.id == id && c.entryTime == entryTime && fresh(c.Parts())
    {
      var p := ClonePtr(exitTime);
      c := new Rec(id, authId, plate, areaId, entryTime, p, exitOperator, exitNote, status, createdAt, updatedAt);
    }
  }

  class ParkingArea {
    var id: Id
    var name: string
    var code: string
    var capacity: int
    var archivedAt: Instant?
    var createdAt: Time
    var updatedAt: Time

    ghost function Value(): Area
      reads this, archivedAt
    {
      Area(id, name, code, capacity, TimeAt(archivedAt), createdAt, updatedAt)
    }

    ghost function Parts(): set<object>
      reads this
    {
      {this} + Pointee(archivedAt)
    }

    constructor (id: Id, name: string, code: string, capacity: int, archivedAt: Instant?, createdAt: Time,
      updatedAt: Time)
      ensures this.archivedAt == archivedAt
      ensures Value() == Area(id, name, code, capacity, TimeAt(archivedAt), createdAt, updatedAt)
    {
      this.id, this.name, this.code, this.capacity := id, name, code, capacity;
      this.archivedAt, this.createdAt, this.updatedAt := archivedAt, createdAt, updatedAt;
    }

    method Clone() returns (c: ParkingArea)
      ensures c.Value() == Value() && c.id == id && fresh(c.Parts())
    {
      var p := ClonePtr(archivedAt);
      c := new ParkingArea(id, name, code, capacity, p, createdAt, updatedAt);
    }
  }

  class Store {
    var residents: map<Id, Resident>
    var areas: map<Id, ParkingArea>
    var auths: map<Id, Auth>
    var records: map<Id, Rec>
    var logs: map<Id, AuditLog>
    ghost var Repr: set<object>
    ghost var View: State

    /**
     * Each object is filed under its own id, belongs to the store with the time it points to, and has the value
     * shown.
     */
    ghost predicate AreaFiled(k: Id)
      reads this, Repr
    {
      k in areas && k in View.areas && areas[k] in Repr && areas[k].Parts() <= Repr
      && areas[k].id == k && areas[k].Value() == View.areas[k]
    }

    ghost predicate AuthFiled(k: Id)
      reads this, Repr
    {
      k in auths && k in View.auths && auths[k] in Repr && auths[k].Parts() <= Repr
      && auths[k].id == k && auths[k].Value() == View.auths[k]
    }

    ghost predicate RecordFiled(r: Id)
      reads this, Repr
    {
      r in records && r in View.records && records[r] in Repr && records[r].Parts() <= Repr
      && records[r].id == r && records[r].Value() == View.records[r]
    }

    ghost predicate AreasFiled()
      reads this, Repr
    {
      forall k | k in areas :: AreaFiled(k)
    }

    ghost predicate AuthsFiled()
      reads this, Repr
    {
      forall k | k in auths :: AuthFiled(k)
    }

    ghost predicate RecordsFiled()
      reads this, Repr
    {
      forall r | r in records :: RecordFiled(r)
    }

    /** The maps hold what the view shows, and nothing in them is reachable from outside the store. */
    ghost predicate Valid()
      reads this, Repr
      ensures Valid() ==> this in Repr
    {
      && this in Repr
      && residents == View.residents && logs == View.logs
      && areas.Keys == View.areas.Keys && auths.Keys == View.auths.Keys && records.Keys == View.records.Keys
      && AreasFiled() && AuthsFiled() && RecordsFiled()
    }

    /** What an id is filed under. */
    lemma LookUp(id: Id)
      requires Valid()
      ensures id in auths ==> AuthFiled(id)
      ensures id in areas ==> AreaFiled(id)
      ensures id in records ==> RecordFiled(id)
    {
    }

    lemma Held(id: Id)
      requires Valid() && id in auths
      ensures this in Repr && auths[id] in Repr && auths[id].id == id
      ensures auths[id].Value() == View.auths[id] && auths[id].start == View.auths[id].start
              && auths[id].residentId == View.auths[id].residentId
    {
      LookUp(id);
    }

    lemma HeldRecord(r: Id)
      requires Valid() && r in records
      ensures records[r] in Repr && records[r].Parts() <= Repr && records[r].id == r
              && records[r].Value() == View.records[r]
      ensures records[r].entryTime == View.records[r].entryTime
    {
      LookUp(r);
    }

    // ---- What a change in place leaves alone

    twostate lemma AreasKept(touched: set<object>)
      requires old(AreasFiled()) && areas == old(areas) && View.areas == old(View.areas) && old(Repr) <= Repr
      requires forall o | o in touched :: !(o is ParkingArea) && !(o is Instant)
      requires forall o | o in old(Repr) && o !in touched && o != this :: unchanged(o)
      ensures AreasFiled()
    {
      forall k | k in areas ensures AreaFiled(k) {
        assert old(AreaFiled(k)) && areas[k] in old(Repr) && old(areas[k].Parts()) <= old(Repr);
      }
    }

    twostate lemma AreaFiledAnew(id: Id)
      requires old(AreasFiled()) && old(Repr) <= Repr
      requires id in areas && areas == old(areas)[id := areas[id]] && areas[id].id == id && areas[id].Parts() <= Repr
      requires View.areas == old(View.areas)[id := areas[id].Value()]
      requires forall o | o in old(Repr) && o != this :: unchanged(o)
      ensures AreasFiled()
    {
      forall k | k in areas ensures AreaFiled(k) {
        if k != id {
          assert old(AreaFiled(k)) && areas[k] in old(Repr) && old(areas[k].Parts()) <= old(Repr);
        }
      }
    }

    twostate lemma AuthsKept(touched: set<object>)
      requires old(AuthsFiled()) && auths == old(auths) && View.auths == old(View.auths) && old(Repr) <= Repr
      requires forall o | o in touched :: !(o is Auth) && !(o is Instant)
      requires forall o | o in old(Repr) && o !in touched && o != this :: unchanged(o)
      ensures AuthsFiled()
    {
      forall k | k in auths ensures AuthFiled(k) {
        assert old(AuthFiled(k)) && auths[k] in old(Repr) && old(auths[k].Parts()) <= old(Repr);
      }
    }

    twostate lemma RecordsKept(touched: set<object>)
      requires old(RecordsFiled()) && records == old(records) && View.records == old(View.records) && old(Repr) <= Repr
      requires forall o | o in touched :: !(o is Rec) && !(o is Instant)
      requires forall o | o in old(Repr) && o !in touched && o != this :: unchanged(o)
      ensures RecordsFiled()
    {
      forall r | r in records ensures RecordFiled(r) {
        assert old(RecordFiled(r)) && records[r] in old(Repr) && old(records[r].Parts()) <= old(Repr);
      }
    }

    /** One authorization object is filed anew; of the old ones, only the one it replaces may have been changed. */
    twostate lemma AuthFiledAnew(touched: set<object>, new id: Id)
      requires old(AuthsFiled()) && old(Repr) <= Repr
      requires id in auths && auths == old(auths)[id := auths[id]] && auths[id].id == id && auths[id].Parts() <= Repr
      requires View.auths == old(View.auths)[id := auths[id].Value()]
      requires forall o | o in touched :: !(o is Instant) && (o is Auth ==> id in old(auths) && o == old(auths[id]))
      requires forall o | o in old(Repr) && o !in touched && o != this :: unchanged(o)
      ensures AuthsFiled()
    {
      forall k | k in auths ensures AuthFiled(k) {
        if k != id {
          assert old(AuthFiled(k)) && auths[k] in old(Repr) && old(auths[k].Parts()) <= old(Repr);
          if id in old(auths) {
            assert old(AuthFiled(id));
          }
        }
      }
    }

    twostate lemma RecordFiledAnew(touched: set<object>, new id: Id)
      requires old(RecordsFiled()) && old(Repr) <= Repr
      requires id in records && records == old(records)[id := records[id]] && records[id].id == id
               && records[id].Parts() <= Repr
      requires View.records == old(View.records)[id := records[id].Value()]
      requires forall o | o in touched :: !(o is Instant) && (o is Rec ==> id in old(records) && o == old(records[id]))
      requires forall o | o in old(Repr) && o !in touched && o != this :: unchanged(o)
      ensures RecordsFiled()
    {
      forall k | k in records ensures RecordFiled(k) {
        if k != id {
          assert old(RecordFiled(k)) && records[k] in old(Repr) && old(records[k].Parts()) <= old(Repr);
          if id in old(records) {
            assert old(RecordFiled(id));
          }
        }
      }
    }

    constructor ()
      ensures Valid() && fresh(Repr) && View == EMPTY
    {
      residents, areas, auths, records, logs := map[], map[], map[], map[], map[];
      Repr, View := {this}, EMPTY;
    }

    // ---- The elementary writes

    method FileAuth(c: Auth)
      requires Valid()
      modifies this
      ensures Valid() && Repr == old(Repr) + c.Parts()
      ensures View == old(View).(auths := old(View).auths[c.id := c.Value()])
      ensures auths == old(auths)[c.id := c]
    {
      hide AreasFiled, AuthsFiled, RecordsFiled;
      auths := auths[c.id := c];
      Repr, View := Repr + c.Parts(), View.(auths := View.auths[c.id := c.Value()]);
      AreasKept({});
      AuthFiledAnew({}, c.id);
      RecordsKept({});
    }

    method FileRecord(c: Rec)
      requires Valid()
      modifies this
      ensures Valid() && Repr == old(Repr) + c.Parts()
      ensures View == old(View).(records := old(View).records[c.id := c.Value()])
      ensures auths == old(auths)
    {
      hide AreasFiled, AuthsFiled, RecordsFiled;
      records := records[c.id := c];
      Repr, View := Repr + c.Parts(), View.(records := View.records[c.id := c.Value()]);
      AreasKept({});
      AuthsKept({});
      RecordFiledAnew({}, c.id);
    }

    method FileArea(c: ParkingArea)
      requires Valid()
      modifies this
      ensures Valid() && Repr == old(Repr) + c.Parts()
      ensures View == old(View).(areas := old(View).areas[c.id := c.Value()])
    {
      hide AreasFiled, AuthsFiled, RecordsFiled;
      areas := areas[c.id := c];
      Repr, View := Repr + c.Parts(), View.(areas := View.areas[c.id := c.Value()]);
      AreaFiledAnew(c.id);
      AuthsKept({});
      RecordsKept({});
    }

    /** Residents and journal entries hold no pointers and are never changed in place, so they are kept as values. */
    method FileResident(r: Resident)
      requires Valid()
      modifies this
      ensures Valid() && Repr == old(Repr) && View == old(View).(residents := old(View).residents[r.id := r])
    {
      hide AreasFiled, AuthsFiled, RecordsFiled;
      residents := residents[r.id := r];
      View := View.(residents := residents);
      AreasKept({});
      AuthsKept({});
      RecordsKept({});
    }

    method CreateAuditLog(l: AuditLog)
      requires Valid()
      modifies this
      ensures Valid() && Repr == old(Repr) && View == StoreSpec.CreateAuditLog(old(View), l)
    {
      hide AreasFiled, AuthsFiled, RecordsFiled;
      logs := logs[l.id := l];
      View := View.(logs := logs);
      AreasKept({});
      AuthsKept({});
      RecordsKept({});
    }

    /** Status and stamp changed in place. */
    method MarkAuth(id: Id, status: AuthStatus, now: Time)
      requires Valid() && id in auths
      modifies this, auths[id]
      ensures Valid() && Repr == old(Repr) && auths == old(auths)
      ensures View == old(View).(auths :=
              old(View).auths[id := old(View).auths[id].(status := status, updatedAt := now)])
    {
      hide AreasFiled, AuthsFiled, RecordsFiled;
      LookUp(id);
      var a := auths[id];
      a.status := status;
      a.updatedAt := now;
      View := View.(auths := View.auths[id := a.Value()]);
      AreasKept({a});
      AuthFiledAnew({a}, id);
      RecordsKept({a});
    }

    /** A record closed in place. */
    method MarkRecord(r: Id, now: Time, operator: string, note: string)
      requires Valid() && r in records
      modifies this, records[r]
      ensures Valid() && records == old(records) && auths == old(auths)
      ensures old(Repr) <= Repr && fresh(Repr - old(Repr))
      ensures View == old(View).(records :=
              old(View).records[r := StoreSpec.Closed(old(View).records[r], now, operator, note)])
    {
      hide AreasFiled, AuthsFiled, RecordsFiled;
      HeldRecord(r);
      var rec := records[r];
      var et := new Instant(now);
      rec.Leave(et, operator, note);
      Repr, View := Repr + {et}, View.(records := View.records[r := rec.Value()]);
      AreasKept({rec});
      AuthsKept({rec});
      RecordFiledAnew({rec}, r);
    }

    /** The record changed in place, filed again as a copy, and copied once more for the caller. */
    method CloseRecord(r: Id, now: Time, operator: string, note: string) returns (out: Rec)
      requires Valid() && r in records
      modifies this, records[r]
      ensures Valid() && auths == old(auths) && fresh(Repr - old(Repr))
      ensures out.Value() == StoreSpec.Closed(old(View).records[r], now, operator, note)
      ensures fresh(out.Parts()) && out.Parts() !! Repr
      ensures View == old(View).(records := old(View).records[r := out.Value()])
    {
      hide AreasFiled, AuthsFiled, RecordsFiled, AuthFiled, RecordFiled, Auth.Value, Rec.Value;
      HeldRecord(r);
      MarkRecord(r, now, operator, note);
      HeldRecord(r);
      var rec := records[r];
      var stored := rec.Clone();
      FileRecord(stored);
      out := rec.Clone();
    }

    /** The authorization changed in place, then filed again as a copy. */
    method Advance(id: Id, status: AuthStatus, now: Time)
      requires Valid() && id in auths
      modifies this, auths[id]
      ensures Valid() && fresh(Repr - old(Repr)) && id in auths
      ensures View == old(View).(auths :=
              old(View).auths[id := old(View).auths[id].(status := status, updatedAt := now)])
    {
      hide AreasFiled, AuthsFiled, RecordsFiled, AuthFiled, RecordFiled, Auth.Value, Rec.Value;
      Held(id);
      MarkAuth(id, status, now);
      Held(id);
      var c := auths[id].Clone();
      FileAuth(c);
    }

    // ---- Authorizations

    method FindClash(a: Auth) returns (clash: bool)
      requires Valid()
      ensures clash <==> StoreSpec.Clashes(View, a.Value())
    {
      hide AreasFiled, AuthsFiled, RecordsFiled;
      ghost var v := a.Value();
      var ks := auths.Keys;
      while ks != {}
        invariant ks <= auths.Keys
        invariant forall k | k in View.auths && k !in ks :: !StoreSpec.ClashesWith(View, v, k)
        decreases |ks|
      {
        var k :| k in ks;
        ks := ks - {k};
        LookUp(k);
        var ex := auths[k];
        if ex.archivedAt != null || ex.plate != a.plate {
          continue;
        }
        if ex.status == Completed || ex.status == Cancelled {
          continue;
        }
        if a.start < ex.end && ex.start < a.end {
          assert StoreSpec.ClashesWith(View, v, k);
          return true;
        }
      }
      return false;
    }

    method CreateAuthorization(a: Auth) returns (err: Option<Error>)
      requires Valid()
      modifies Repr
      ensures Valid() && fresh(Repr - old(Repr))
      ensures match StoreSpec.CreateAuthorization(old(View), old(a.Value()))
              case Err(e) => err == Some(e) && View == old(View)
              case Ok(s) => err == None && View == s
    {
      hide AreasFiled, AuthsFiled, RecordsFiled;
      LookUp(a.areaId);
      if a.residentId !in residents || residents[a.residentId].archivedAt.Some? {
        return Some(NotFound);
      }
      if residents[a.residentId].status != EnabledResident {
        return Some(ResidentDisabled);
      }
      if a.areaId !in areas || areas[a.areaId].archivedAt != null {
        return Some(AreaArchived);
      }
      var clash := FindClash(a);
      if clash {
        return Some(Conflict);
      }
      var c := a.Clone();
      FileAuth(c);
      return None;
    }

    method GetAuthorization(id: Id) returns (res: Result<Auth>)
      requires Valid()
      ensures match StoreSpec.GetAuthorization(View, id)
              case Err(e) => res == Err(e)
              case Ok(v) => res.Ok? && res.value.Value() == v && fresh(res.value.Parts())
    {
      if id !in auths || auths[id].archivedAt != null {
        return Err(NotFound);
      }
      var c := auths[id].Clone();
      return Ok(c);
    }

    method UpdateAuthorization(a: Auth) returns (err: Option<Error>)
      requires Valid()
      modifies Repr
      ensures Valid() && fresh(Repr - old(Repr))
      ensures match StoreSpec.UpdateAuthorization(old(View), old(a.Value()))
              case Err(e) => err == Some(e) && View == old(View)
              case Ok(s) => err == None && View == s
    {
      hide AreasFiled, AuthsFiled, RecordsFiled;
      LookUp(a.id);
      if a.id !in auths || auths[a.id].archivedAt != null {
        return Some(NotFound);
      }
      if auths[a.id].updatedAt != a.updatedAt {
        return Some(ConcurrentModify);
      }
      var c := a.Clone();
      FileAuth(c);
      return None;
    }

    method ArchiveAuthorization(id: Id, now: Time) returns (err: Option<Error>)
      requires Valid()
      modifies Repr
      ensures Valid() && fresh(Repr - old(Repr))
      ensures match StoreSpec.ArchiveAuthorization(old(View), id, now)
              case Err(e) => err == Some(e) && View == old(View)
              case Ok(s) => err == None && View == s
    {
      hide AreasFiled, AuthsFiled, RecordsFiled;
      LookUp(id);
      if id !in auths || auths[id].archivedAt != null {
        return Some(NotFound);
      }
      var a := auths[id];
      var p := new Instant(now);
      a.archivedAt := p;
      a.updatedAt := now;
      Repr, View := Repr + {p}, View.(auths := View.auths[id := a.Value()]);
      AreasKept({a});
      AuthFiledAnew({a}, id);
      RecordsKept({a});
      return None;
    }

    // ---- The gate

    lemma IsOccupant(r: Id, area: Id)
      requires Valid() && r in records
      ensures r in StoreSpec.Occupants(View, area) <==> records[r].areaId == area && records[r].status == Entered
    {
      HeldRecord(r);
    }

    method CountInside(area: Id) returns (occupied: int)
      requires Valid()
      ensures occupied == |StoreSpec.Occupants(View, area)|
    {
      hide *;
      ghost var inside := StoreSpec.Occupants(View, area);
      OccupantsAreFiled(area);
      occupied := 0;
      var rs := records.Keys;
      while rs != {}
        invariant rs <= records.Keys
        invariant occupied == |inside - rs|
        decreases |rs|
      {
        var r :| r in rs;
        IsOccupant(r, area);
        CountOneMore(inside, rs, r);
        rs := rs - {r};
        if records[r].areaId == area && records[r].status == Entered {
          occupied := occupied + 1;
        }
      }
      assert inside - {} == inside;
    }

    lemma OccupantsAreFiled(area: Id)
      requires Valid()
      ensures |StoreSpec.Occupants(View, area) - records.Keys| == 0
    {
      assert StoreSpec.Occupants(View, area) - records.Keys == {};
    }

    method EnterVehicle(id: Id, now: Time, recId: Id) returns (res: Result<Rec>)
      requires Valid()
      modifies Repr
      ensures Valid() && fresh(Repr - old(Repr))
      ensures match StoreSpec.EnterVehicle(old(View), id, now, recId)
              case Err(e) => res == Err(e) && View == old(View)
              case Ok((s, rec)) =>
                res.Ok? && res.value.Value() == rec && View == s
                && fresh(res.value.Parts()) && res.value.Parts() !! Repr
    {
      hide AreasFiled, AuthsFiled, RecordsFiled;
      LookUp(id);
      if id !in auths || auths[id].archivedAt != null {
        return Err(NotFound);
      }
      var a := auths[id];
      if a.status != Pending {
        if a.status == Active {
          return Err(AlreadyEntered);
        }
        return Err(StatusTransition);
      }
      if now < a.start || !(now < a.end) {
        return Err(OutOfTimeWindow);
      }
      LookUp(a.areaId);
      if a.areaId !in areas || areas[a.areaId].archivedAt != null {
        return Err(AreaArchived);
      }
      var area := areas[a.areaId];
      var occupied := CountInside(area.id);
      if occupied >= area.capacity {
        return Err(NoCapacity);
      }
      var rec := Admit(id, now, recId);
      return Ok(rec);
    }

    /** The writes of an entry. */
    method Admit(id: Id, now: Time, recId: Id) returns (rec: Rec)
      requires Valid() && id in auths
      modifies Repr
      ensures Valid() && fresh(Repr - old(Repr))
      ensures rec.Value() == StoreSpec.NewRecord(id, old(View).auths[id], recId, now)
      ensures fresh(rec.Parts()) && rec.Parts() !! Repr
      ensures View == old(View).(records := old(View).records[recId := rec.Value()],
                                 auths := old(View).auths[id :=
                                   old(View).auths[id].(status := Active, updatedAt := now)])
    {
      hide AreasFiled, AuthsFiled, RecordsFiled, AuthFiled, RecordFiled, Auth.Value, Rec.Value;
      Held(id);
      rec := NewRec(auths[id], id, recId, now);
      var stored := rec.Clone();
      FileRecord(stored);
      Held(id);
      Advance(id, Active, now);
    }

    method FindInside(id: Id) returns (found: Option<Id>)
      requires Valid()
      ensures StoreSpec.ScanFinds(View, id, found)
    {
      hide AreasFiled, AuthsFiled, RecordsFiled;
      var rs := records.Keys;
      while rs != {}
        invariant rs <= records.Keys
        invariant forall r | r in records && r !in rs :: !StoreSpec.IsInsideFor(View, id, r)
        decreases |rs|
      {
        var r :| r in rs;
        rs := rs - {r};
        HeldRecord(r);
        if records[r].authId == id && records[r].status == Entered {
          return Some(r);
        }
      }
      return None;
    }

    /** The record found is returned as a ghost: any entered record of the authorization will do. */
    method ExitVehicle(id: Id, now: Time, operator: string, note: string)
      returns (res: Result<Rec>, ghost found: Option<Id>)
      requires Valid()
      modifies Repr
      ensures Valid() && fresh(Repr - old(Repr))
      ensures StoreSpec.ScanFinds(old(View), id, found)
      ensures match StoreSpec.ExitVehicle(old(View), id, now, operator, note, found)
              case Err(e) => res == Err(e) && View == old(View)
              case Ok((s, rec)) =>
                res.Ok? && res.value.Value() == rec && View == s
                && fresh(res.value.Parts()) && res.value.Parts() !! Repr
    {
      hide AreasFiled, AuthsFiled, RecordsFiled;
      LookUp(id);
      var scan := FindInside(id);
      found := scan;
      if id !in auths || auths[id].archivedAt != null {
        return Err(NotFound), found;
      }
      var a := auths[id];
      if a.status == Completed {
        return Err(AlreadyExited), found;
      }
      if a.status != Active {
        return Err(StatusTransition), found;
      }
      if scan == None {
        return Err(StatusTransition), found;
      }
      var out := Close(id, scan.value, now, operator, note);
      return Ok(out), found;
    }

    /** The writes of an exit. */
    method Close(id: Id, r: Id, now: Time, operator: string, note: string) returns (out: Rec)
      requires Valid() && id in auths && r in records
      modifies Repr
      ensures Valid() && fresh(Repr - old(Repr))
      ensures out.Value() == StoreSpec.Closed(old(View).records[r], now, operator, note)
      ensures fresh(out.Parts()) && out.Parts() !! Repr
      ensures View == old(View).(records := old(View).records[r := out.Value()],
                                 auths := old(View).auths[id :=
                                   old(View).auths[id].(status := Completed, updatedAt := now)])
    {
      hide AreasFiled, AuthsFiled, RecordsFiled, AuthFiled, RecordFiled, Auth.Value, Rec.Value;
      Held(id);
      HeldRecord(r);
      out := CloseRecord(r, now, operator, note);
      Held(id);
      Advance(id, Completed, now);
    }

    method RevokeAuthorization(id: Id, now: Time) returns (res: Result<Auth>)
      requires Valid()
      modifies Repr
      ensures Valid() && fresh(Repr - old(Repr))
      ensures match StoreSpec.RevokeAuthorization(old(View), id, now)
              case Err(e) => res == Err(e) && View == old(View)
              case Ok((s, v)) =>
                res.Ok? && res.value.Value() == v && View == s
                && fresh(res.value.Parts()) && res.value.Parts() !! Repr
    {
      hide AreasFiled, AuthsFiled, RecordsFiled;
      LookUp(id);
      if id !in auths || auths[id].archivedAt != null {
        return Err(NotFound);
      }
      var a := auths[id];
      if a.status == Active {
        return Err(StatusTransition);
      }
      if a.status != Pending {
        return Err(StatusTransition);
      }
      Advance(id, Cancelled, now);
      LookUp(id);
      var out := auths[id].Clone();
      return Ok(out);
    }

    // ---- Residents and areas

    method CreateResident(r: Resident) returns (err: Option<Error>)
      requires Valid()
      modifies Repr
      ensures Valid() && fresh(Repr - old(Repr))
      ensures match StoreSpec.CreateResident(old(View), r)
              case Err(e) => err == Some(e) && View == old(View)
              case Ok(s) => err == None && View == s
    {
      if r.id in residents {
        return Some(Conflict);
      }
      FileResident(r);
      return None;
    }

    method CreateParkingArea(a: ParkingArea) returns (err: Option<Error>)
      requires Valid()
      modifies Repr
      ensures Valid() && fresh(Repr - old(Repr))
      ensures match StoreSpec.CreateParkingArea(old(View), old(a.Value()))
              case Err(e) => err == Some(e) && View == old(View)
              case Ok(s) => err == None && View == s
    {
      hide AreasFiled, AuthsFiled, RecordsFiled;
      if a.id in areas {
        return Some(Conflict);
      }
      var c := a.Clone();
      FileArea(c);
      return None;
    }

    method GetParkingArea(id: Id) returns (res: Result<ParkingArea>)
      requires Valid()
      ensures match StoreSpec.GetParkingArea(View, id)
              case Err(e) => res == Err(e)
              case Ok(v) => res.Ok? && res.value.Value() == v && fresh(res.value.Parts())
    {
      hide AreasFiled, AuthsFiled, RecordsFiled;
      LookUp(id);
      if id !in areas || areas[id].archivedAt != null {
        return Err(NotFound);
      }
      var c := areas[id].Clone();
      return Ok(c);
    }

    method UpdateParkingArea(a: ParkingArea) returns (err: Option<Error>)
      requires Valid()
      modifies Repr
      ensures Valid() && fresh(Repr - old(Repr))
      ensures match StoreSpec.UpdateParkingArea(old(View), old(a.Value()))
              case Err(e) => err == Some(e) && View == old(View)
              case Ok(s) => err == None && View == s
    {
      hide AreasFiled, AuthsFiled, RecordsFiled;
      LookUp(a.id);
      if a.id !in areas || areas[a.id].archivedAt != null {
        return Some(NotFound);
      }
      if areas[a.id].updatedAt != a.updatedAt {
        return Some(ConcurrentModify);
      }
      var c := a.Clone();
      FileArea(c);
      return None;
    }

    // ---- Listings

    method Residing(building: string) returns (ids: set<Id>)
      requires Valid()
      ensures forall id :: id in ids <==> Listing.LivesIn(View, id, building)
    {
      hide AreasFiled, AuthsFiled, RecordsFiled;
      ids := {};
      var ks := residents.Keys;
      while ks != {}
        invariant ks <= residents.Keys
        invariant forall id :: id in ids
                    <==> exists k | k in residents && k !in ks ::
                           residents[k].id == id && residents[k].archivedAt.None? && residents[k].building == building
        decreases |ks|
      {
        var k :| k in ks;
        ks := ks - {k};
        if residents[k].archivedAt.None? && residents[k].building == building {
          ids := ids + {residents[k].id};
        }
      }
    }

    method DeriveStatus(a: Auth, now: Option<Time>) returns (st: AuthStatus)
      ensures st == StoreSpec.DeriveStatus(a.Value(), now)
    {
      if a.status == Pending && now.Some? && !(a.end > now.value) {
        return Expired;
      }
      return a.status;
    }

    /** The filters one after the other; the residing ids are those of the building, if one is asked for. */
    method Passes(f: Listing.AuthFilter, residing: set<Id>, a: Auth) returns (passes: bool)
      requires Valid()
      requires f.building != "" ==> (a.residentId in residing <==> Listing.LivesIn(View, a.residentId, f.building))
      ensures passes <==> Listing.AuthMatches(View, f, a.Value())
    {
      hide Valid, Listing.LivesIn;
      if a.archivedAt != null || (f.plate != [] && a.plate != f.plate) || (f.areaId != "" && a.areaId != f.areaId) {
        return false;
      }
      if f.status.Some? {
        var st := DeriveStatus(a, f.validOnNow);
        if st != f.status.value {
          return false;
        }
      } else if f.validOn.Some? && !(a.start < f.validOn.value && a.end > f.validOn.value) {
        return false;
      }
      if f.startFrom.Some? && !(a.start > f.startFrom.value) {
        return false;
      }
      if f.startTo.Some? && !(a.start < f.startTo.value) {
        return false;
      }
      if f.endingBefore.Some? && !(a.end < f.endingBefore.value) {
        return false;
      }
      return !(f.building != "" && a.residentId !in residing);
    }

    /** Copies of the matching authorizations in the order the map is walked. */
    method CollectAuths(f: Listing.AuthFilter) returns (out: seq<Auth>, starts: seq<Time>, ghost ids: seq<Id>)
      requires Valid()
      ensures |out| == |ids| && Listing.Collects(ids, starts, Listing.MatchingAuths(View, f), Listing.StartTimes(View))
      ensures forall i | 0 <= i < |out| ::
              fresh(out[i].Parts()) && ids[i] in View.auths && out[i].Value() == View.auths[ids[i]]
    {
      hide *;
      var residing: set<Id> := {};
      if f.building != "" {
        residing := Residing(f.building);
      }
      ghost var view, matching, key := View, Listing.MatchingAuths(View, f), Listing.StartTimes(View);
      Matched(f);
      out, starts, ids := [], [], [];
      var ks := auths.Keys;
      Listing.WalkStarts(ks, matching, key);
      while ks != {}
        invariant ks <= auths.Keys && |out| == |ids|
        invariant Listing.Walked(ks, ids, starts, matching, key)
        invariant forall i | 0 <= i < |out| ::
                  fresh(out[i].Parts()) && ids[i] in view.auths && out[i].Value() == view.auths[ids[i]]
        decreases |ks|
      {
        var k :| k in ks;
        Held(k);
        var a := auths[k];
        var passes := Passes(f, residing, a);
        if passes {
          var c := a.Clone();
          Listing.WalkTakes(ks, k, ids, starts, matching, key);
          out, starts, ids := out + [c], starts + [c.start], ids + [k];
        } else {
          Listing.WalkSkips(ks, k, ids, starts, matching, key);
        }
        ks := ks - {k};
      }
      Listing.WalkEnds(ids, starts, matching, key);
    }

    lemma Matched(f: Listing.AuthFilter)
      requires Valid()
      ensures auths.Keys == View.auths.Keys && Listing.MatchingAuths(View, f) <= auths.Keys
      ensures forall k | k in View.auths ::
                && (k in Listing.MatchingAuths(View, f) <==> Listing.AuthMatches(View, f, View.auths[k]))
                && k in Listing.StartTimes(View) && Listing.StartTimes(View)[k] == View.auths[k].start
    {
      hide Listing.AuthMatches;
    }

    /** The items come with the ghost order of all matching ids that the page is cut from. */
    method ListAuthorizations(f: Listing.AuthFilter) returns (items: seq<Auth>, total: int, ghost order: seq<Id>)
      requires Valid()
      ensures Listing.Arranges(order, Listing.MatchingAuths(View, f), Listing.StartTimes(View))
      ensures total == |Listing.MatchingAuths(View, f)|
      ensures |items| == |Listing.PageOf(Listing.Rows(View.auths, order), f.page)|
      ensures forall i | 0 <= i < |items| ::
                fresh(items[i].Parts())
                && items[i].Value() == Listing.PageOf(Listing.Rows(View.auths, order), f.page)[i]
    {
      hide *;
      var out, starts, ids := CollectAuths(f);
      ghost var view := View;
      var perm := Sorting.SortOrder(Sorting.Reals(starts));
      Listing.WalkSizes(ids, starts, Listing.MatchingAuths(view, f), Listing.StartTimes(view));
      Listing.SortedCollectionArranges(ids, starts, Listing.MatchingAuths(view, f), Listing.StartTimes(view), perm);
      order := Sorting.Permuted(ids, perm);
      Listing.ArrangedRows(view.auths, order, Listing.MatchingAuths(view, f), Listing.StartTimes(view));
      var sorted := Sorting.Permuted(out, perm);
      Listing.PageAt(sorted, f.page);
      Listing.PageAt(Listing.Rows(view.auths, order), f.page);
      items := Listing.PageOf(sorted, f.page);
      total := |sorted|;
    }

    method CollectRecords(f: Listing.RecordFilter) returns (out: seq<Rec>, entries: seq<Time>, ghost ids: seq<Id>)
      requires Valid()
      ensures |out| == |ids|
              && Listing.Collects(ids, entries, Listing.MatchingRecords(View, f), Listing.EntryTimes(View))
      ensures forall i | 0 <= i < |out| ::
              fresh(out[i].Parts()) && ids[i] in View.records && out[i].Value() == View.records[ids[i]]
    {
      hide *;
      ghost var view, matching, key := View, Listing.MatchingRecords(View, f), Listing.EntryTimes(View);
      MatchedRecords(f);
      out, entries, ids := [], [], [];
      var rs := records.Keys;
      Listing.WalkStarts(rs, matching, key);
      while rs != {}
        invariant rs <= records.Keys && |out| == |ids|
        invariant Listing.Walked(rs, ids, entries, matching, key)
        invariant forall i | 0 <= i < |out| ::
                  fresh(out[i].Parts()) && ids[i] in view.records && out[i].Value() == view.records[ids[i]]
        decreases |rs|
      {
        var r :| r in rs;
        HeldRecord(r);
        var rec := records[r];
        var passes := PassesRecord(f, rec);
        if passes {
          var c := rec.Clone();
          Listing.WalkTakes(rs, r, ids, entries, matching, key);
          out, entries, ids := out + [c], entries + [c.entryTime], ids + [r];
        } else {
          Listing.WalkSkips(rs, r, ids, entries, matching, key);
        }
        rs := rs - {r};
      }
      Listing.WalkEnds(ids, entries, matching, key);
    }

    method PassesRecord(f: Listing.RecordFilter, rec: Rec) returns (passes: bool)
      ensures passes <==> Listing.RecordMatches(f, rec.Value())
    {
      if f.areaId != "" && rec.areaId != f.areaId {
        return false;
      }
      if f.status.Some? && rec.status != f.status.value {
        return false;
      }
      return !(f.plate != [] && rec.plate != f.plate);
    }

    lemma MatchedRecords(f: Listing.RecordFilter)
      requires Valid()
      ensures records.Keys == View.records.Keys && Listing.MatchingRecords(View, f) <= records.Keys
      ensures forall r | r in View.records ::
                && (r in Listing.MatchingRecords(View, f) <==> Listing.RecordMatches(f, View.records[r]))
                && r in Listing.EntryTimes(View) && Listing.EntryTimes(View)[r] == View.records[r].entryTime
    {
      hide Listing.RecordMatches;
    }

    method ListRecords(f: Listing.RecordFilter) returns (items: seq<Rec>, total: int, ghost order: seq<Id>)
      requires Valid()
      ensures Listing.Arranges(order, Listing.MatchingRecords(View, f), Listing.EntryTimes(View))
      ensures total == |Listing.MatchingRecords(View, f)|
      ensures |items| == |Listing.PageOf(Listing.Rows(View.records, order), f.page)|
      ensures forall i | 0 <= i < |items| ::
                fresh(items[i].Parts())
                && items[i].Value() == Listing.PageOf(Listing.Rows(View.records, order), f.page)[i]
    {
      hide *;
      var out, entries, ids := CollectRecords(f);
      ghost var view := View;
      var perm := Sorting.SortOrder(Sorting.Reals(entries));
      Listing.WalkSizes(ids, entries, Listing.MatchingRecords(view, f), Listing.EntryTimes(view));
      Listing.SortedCollectionArranges(ids, entries, Listing.MatchingRecords(view, f), Listing.EntryTimes(view), perm);
      order := Sorting.Permuted(ids, perm);
      Listing.ArrangedRows(view.records, order, Listing.MatchingRecords(view, f), Listing.EntryTimes(view));
      var sorted := Sorting.Permuted(out, perm);
      Listing.PageAt(sorted, f.page);
      Listing.PageAt(Listing.Rows(view.records, order), f.page);
      items := Listing.PageOf(sorted, f.page);
      total := |sorted|;
    }

    method ListCurrentVehicles(area: Id, page: Listing.Page) returns (items: seq<Rec>, total: int, ghost order: seq<Id>)
      requires Valid()
      ensures Listing.Arranges(order, Listing.CarsInside(View, area), Listing.EntryTimes(View))
      ensures total == |Listing.CarsInside(View, area)|
      ensures |items| == |Listing.PageOf(Listing.Rows(View.records, order), page)|
      ensures forall i | 0 <= i < |items| ::
                fresh(items[i].Parts())
                && items[i].Value() == Listing.PageOf(Listing.Rows(View.records, order), page)[i]
    {
      Listing.CurrentVehiclesAreInside(View, area, page);
      hide Valid, Rec.Value, Listing.CarsInside, Listing.MatchingRecords;
      items, total, order := ListRecords(Listing.RecordFilter(area, Some(Entered), [], page));
    }

    /** One entry for each live area, in the order the map is walked. */
    method CollectUses() returns (uses: seq<Listing.AreaUse>, ghost ids: seq<Id>)
      requires Valid()
      ensures Listing.Collects(ids, uses, Listing.LiveAreas(View), Listing.Uses(View))
    {
      hide *;
      ghost var live, key := Listing.LiveAreas(View), Listing.Uses(View);
      LiveAreasAreFiled();
      uses, ids := [], [];
      var ks := areas.Keys;
      Listing.WalkStarts(ks, live, key);
      while ks != {}
        invariant ks <= areas.Keys && Listing.Walked(ks, ids, uses, live, key)
        decreases |ks|
      {
        var k :| k in ks;
        HeldArea(k);
        if areas[k].archivedAt == null {
          var use := UseOf(k);
          Listing.WalkTakes(ks, k, ids, uses, live, key);
          uses, ids := uses + [use], ids + [k];
        } else {
          Listing.WalkSkips(ks, k, ids, uses, live, key);
        }
        ks := ks - {k};
      }
      Listing.WalkEnds(ids, uses, live, key);
    }

    lemma LiveAreasAreFiled()
      requires Valid()
      ensures Listing.LiveAreas(View) <= areas.Keys
    {
    }

    lemma HeldArea(k: Id)
      requires Valid() && k in areas
      ensures k in Listing.LiveAreas(View) <==> areas[k].archivedAt == null
      ensures k in View.areas && k in Listing.Uses(View) && Listing.Uses(View)[k] == Listing.UseOf(View, View.areas[k])
      ensures areas[k].id == k && areas[k].Value() == View.areas[k]
    {
      LookUp(k);
    }

    method UseOf(k: Id) returns (use: Listing.AreaUse)
      requires Valid() && k in areas
      ensures k in View.areas && use == Listing.UseOf(View, View.areas[k])
    {
      hide Valid, StoreSpec.Occupants;
      HeldArea(k);
      var a := areas[k];
      var occupied := CountInside(a.id);
      var util := 0.0;
      if a.capacity > 0 {
        util := occupied as real / a.capacity as real;
      }
      var available := if a.capacity - occupied > 0 then a.capacity - occupied else 0;
      use := Listing.AreaUse(a.id, a.name, a.code, a.capacity, occupied, available, util);
    }

    /** One entry for each live area, the most utilized first. */
    method AreaOccupancy() returns (uses: seq<Listing.AreaUse>)
      requires Valid()
      ensures exists order: seq<Id> :: |order| == |uses| && Listing.ArrangesUses(View, order, uses)
    {
      hide Valid, Listing.UseOf;
      var out, ids := CollectUses();
      var perm := Sorting.SortOrder(Listing.Rates(out));
      uses := Sorting.Permuted(out, perm);
      Listing.UsesArranged(View, ids, out, perm);
    }
  }
}
