/** Each store operation as a function from the stored values to an error or the new stored values. */
module StoreSpec {
  import opened Model

  predicate Blocking(a: Authorization) {
    a.archivedAt.None? && a.status != Completed && a.status != Cancelled
  }

  /** Half-open windows that share an instant. */
  predicate Overlaps(a: Authorization, b: Authorization) {
    a.start < b.end && b.start < a.end
  }

  predicate ClashesWith(s: State, a: Authorization, k: Id)
    requires k in s.auths
  {
    Blocking(s.auths[k]) && s.auths[k].plate == a.plate && Overlaps(a, s.auths[k])
  }

  predicate Clashes(s: State, a: Authorization) {
    exists k | k in s.auths :: ClashesWith(s, a, k)
  }

  predicate ResidentKnown(s: State, id: Id) {
    id in s.residents && s.residents[id].archivedAt.None?
  }

  predicate AreaLive(s: State, id: Id) {
    id in s.areas && s.areas[id].archivedAt.None?
  }

  predicate AuthLive(s: State, id: Id) {
    id in s.auths && s.auths[id].archivedAt.None?
  }

  function CreateAuthorization(s: State, a: Authorization): Result<State> {
    if !ResidentKnown(s, a.residentId) then Err(NotFound)
    else if s.residents[a.residentId].status != EnabledResident then Err(ResidentDisabled)
    else if !AreaLive(s, a.areaId) then Err(AreaArchived)
    else if Clashes(s, a) then Err(Conflict)
    else Ok(s.(auths := s.auths[a.id := a]))
  }

  function GetAuthorization(s: State, id: Id): Result<Authorization> {
    if !AuthLive(s, id) then Err(NotFound) else Ok(s.auths[id])
  }

  /** Replaces the row if its stamp is the expected one. */
  function CompareAndStore(s: State, a: Authorization, expected: Time): Result<State> {
    if !AuthLive(s, a.id) then Err(NotFound)
    else if s.auths[a.id].updatedAt != expected then Err(ConcurrentModify)
    else Ok(s.(auths := s.auths[a.id := a]))
  }

  /** As written: the stored stamp is compared with the stamp of the new row. */
  function UpdateAuthorization(s: State, a: Authorization): Result<State> {
    CompareAndStore(s, a, a.updatedAt)
  }

  function ArchiveAuthorization(s: State, id: Id, now: Time): Result<State> {
    if !AuthLive(s, id) then Err(NotFound)
    else Ok(s.(auths := s.auths[id := s.auths[id].(archivedAt := Some(now), updatedAt := now)]))
  }

  predicate Inside(s: State, r: Id, area: Id)
    requires r in s.records
  {
    s.records[r].areaId == area && s.records[r].status == Entered
  }

  /** The entered records of an area. */
  function Occupants(s: State, area: Id): set<Id> {
    set r | r in s.records && Inside(s, r, area)
  }

  function NewRecord(id: Id, a: Authorization, recId: Id, now: Time): Record {
    Record(recId, id, a.plate, a.areaId, now, None, "", "", Entered, now, now)
  }

  function EnterVehicle(s: State, id: Id, now: Time, recId: Id): Result<(State, Record)> {
    if !AuthLive(s, id) then Err(NotFound)
    else
      var a := s.auths[id];
      if a.status == Active then Err(AlreadyEntered)
      else if a.status != Pending then Err(StatusTransition)
      else if now < a.start || a.end <= now then Err(OutOfTimeWindow)
      else if !AreaLive(s, a.areaId) then Err(AreaArchived)
      else if |Occupants(s, a.areaId)| >= s.areas[a.areaId].capacity then Err(NoCapacity)
      else
        var rec := NewRecord(id, a, recId, now);
        Ok((s.(records := s.records[recId := rec],
               auths := s.auths[id := a.(status := Active, updatedAt := now)]),
            rec))
  }

  predicate IsInsideFor(s: State, id: Id, r: Id)
    requires r in s.records
  {
    s.records[r].authId == id && s.records[r].status == Entered
  }

  /** What the scan of the records map may find: some entered record of the authorization, or none if there is none. */
  predicate ScanFinds(s: State, id: Id, found: Option<Id>) {
    match found
    case Some(r) => r in s.records && IsInsideFor(s, id, r)
    case None => forall r | r in s.records :: !IsInsideFor(s, id, r)
  }

  function Closed(r: Record, now: Time, operator: string, note: string): Record {
    r.(exitTime := Some(now), exitOperator := operator, exitNote := note, status := Exited, updatedAt := now)
  }

  function ExitVehicle(s: State, id: Id, now: Time, operator: string, note: string, found: Option<Id>)
    : Result<(State, Record)>
    requires ScanFinds(s, id, found)
  {
    if !AuthLive(s, id) then Err(NotFound)
    else
      var a := s.auths[id];
      if a.status == Completed then Err(AlreadyExited)
      else if a.status != Active || found.None? then Err(StatusTransition)
      else
        var rec := Closed(s.records[found.value], now, operator, note);
        Ok((s.(records := s.records[found.value := rec],
               auths := s.auths[id := a.(status := Completed, updatedAt := now)]),
            rec))
  }

  function RevokeAuthorization(s: State, id: Id, now: Time): Result<(State, Authorization)> {
    if !AuthLive(s, id) then Err(NotFound)
    else if s.auths[id].status != Pending then Err(StatusTransition)
    else
      var a := s.auths[id].(status := Cancelled, updatedAt := now);
      Ok((s.(auths := s.auths[id := a]), a))
  }

  function CreateParkingArea(s: State, a: Area): Result<State> {
    if a.id in s.areas then Err(Conflict) else Ok(s.(areas := s.areas[a.id := a]))
  }

  function GetParkingArea(s: State, id: Id): Result<Area> {
    if !AreaLive(s, id) then Err(NotFound) else Ok(s.areas[id])
  }

  function UpdateParkingArea(s: State, a: Area): Result<State> {
    if !AreaLive(s, a.id) then Err(NotFound)
    else if s.areas[a.id].updatedAt != a.updatedAt then Err(ConcurrentModify)
    else Ok(s.(areas := s.areas[a.id := a]))
  }

  function CreateResident(s: State, r: Resident): Result<State> {
    if r.id in s.residents then Err(Conflict) else Ok(s.(residents := s.residents[r.id := r]))
  }

  function CreateAuditLog(s: State, l: AuditLog): State {
    s.(logs := s.logs[l.id := l])
  }

  /** The status a reader sees at an instant: a pending authorization whose window has passed reads as expired. */
  function DeriveStatus(a: Authorization, now: Option<Time>): AuthStatus {
    if a.status == Pending && now.Some? && a.end <= now.value then Expired else a.status
  }
}
