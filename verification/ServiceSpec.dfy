/** What the service decides before and around a store operation. */
module ServiceSpec {
  import opened Model
  import Listing
  import Plate
  import StoreSpec

  datatype CreateRequest = CreateRequest(
    residentId: Id,
    plate: PlateText,
    areaId: Id,
    start: Time,
    end: Time,
    purpose: string,
    createdBy: string)

  /** The fields of an update request the service reads. */
  datatype UpdateRequest = UpdateRequest(areaId: Id, start: Time, end: Time, purpose: string, updatedAt: Time)

  /** The fields of an area update the service reads; the code arrives in upper case. */
  datatype AreaRequest = AreaRequest(name: string, code: string, capacity: int, updatedAt: Time)

  function DefaultText(text: string, default: string): string {
    if text == "" then default else text
  }

  /** The Unicode white space that trimming removes. */
  predicate Space(c: char) {
    || '\t' <= c <= '\r' || c == ' ' || c == '\U{85}' || c == '\U{A0}' || c == '\U{1680}'
    || '\U{2000}' <= c <= '\U{200A}' || c == '\U{2028}' || c == '\U{2029}' || c == '\U{202F}'
    || c == '\U{205F}' || c == '\U{3000}'
  }

  /** The same as a table of code points. */
  lemma SpaceIs(c: char)
    ensures Space(c) <==> c as int in {0x09, 0x0A, 0x0B, 0x0C, 0x0D, 0x20, 0x85, 0xA0, 0x1680, 0x2028, 0x2029, 0x202F,
                                       0x205F, 0x3000} || 0x2000 <= c as int <= 0x200A
  {
  }

  function TrimSpace(text: string): string {
    if text == "" then ""
    else if Space(text[0]) then TrimSpace(text[1..])
    else if Space(text[|text| - 1]) then TrimSpace(text[..|text| - 1])
    else text
  }

  predicate Blank(text: string) {
    forall i | 0 <= i < |text| :: Space(text[i])
  }

  lemma BlankLonger(c: char, text: string)
    requires Space(c) && Blank(text)
    ensures Blank([c] + text) && Blank(text + [c])
  {
  }

  /** Trimming takes white space off both ends, all of it and nothing else. */
  lemma {:induction false} TrimSpaceTrims(text: string) returns (left: string, right: string)
    ensures text == left + TrimSpace(text) + right && Blank(left) && Blank(right)
    ensures TrimSpace(text) != [] ==> !Space(TrimSpace(text)[0]) && !Space(TrimSpace(text)[|TrimSpace(text)| - 1])
    decreases |text|
  {
    hide Space;
    left, right := [], [];
    if text != [] && Space(text[0]) {
      left, right := TrimSpaceTrims(text[1..]);
      assert text == [text[0]] + text[1..];
      BlankLonger(text[0], left);
      left := [text[0]] + left;
    } else if text != [] && Space(text[|text| - 1]) {
      var last := |text| - 1;
      left, right := TrimSpaceTrims(text[..last]);
      assert text == text[..last] + [text[last]];
      BlankLonger(text[last], right);
      right := right + [text[last]];
    } else {
      assert text == [] + text + [];
    }
  }

  /** The window rules shared by creation and update; the first one that fails names the error. */
  function CheckWindow(start: Time, end: Time, now: Time): Option<Error> {
    if start < now then Some(InvalidField("start_time"))
    else if end <= start then Some(InvalidField("end_time"))
    else if end - start > MAX_AUTH_DURATION then Some(InvalidField("end_time"))
    else None
  }

  /** The authorization a creation request asks for, or the field error. */
  function Requested(req: CreateRequest, id: Id, now: Time): Result<Authorization> {
    if !Plate.Valid(Plate.Normalized(req.plate)) then Err(InvalidField("plate"))
    else if req.start == ZERO_TIME || req.end == ZERO_TIME then Err(InvalidField("start_time"))
    else
      match CheckWindow(req.start, req.end, now)
      case Some(e) => Err(e)
      case None =>
        Ok(Authorization(id, req.residentId, Plate.Normalized(req.plate), req.areaId, req.start, req.end, Pending,
                         TrimSpace(req.purpose), DefaultText(req.createdBy, "system"), None, now, now))
  }

  function CreateAuthorization(s: State, req: CreateRequest, id: Id, now: Time): Result<(State, Authorization)> {
    match Requested(req, id, now)
    case Err(e) => Err(e)
    case Ok(a) =>
      match StoreSpec.CreateAuthorization(s, a)
      case Err(e) => Err(e)
      case Ok(s') => Ok((s', a))
  }

  /** The request with its missing times taken from the current row. */
  function FilledIn(cur: Authorization, req: UpdateRequest): UpdateRequest {
    req.(start := if req.start == ZERO_TIME then cur.start else req.start,
         end := if req.end == ZERO_TIME then cur.end else req.end)
  }

  /** The new row an update computes from the row it fetched. */
  function Prepared(cur: Authorization, req: UpdateRequest, now: Time): Result<Authorization> {
    if cur.status != Pending then Err(StatusTransition)
    else if req.updatedAt != cur.updatedAt then Err(ConcurrentModify)
    else
      var full := FilledIn(cur, req);
      match CheckWindow(full.start, full.end, now)
      case Some(e) => Err(e)
      case None =>
        Ok(cur.(start := full.start,
                end := full.end,
                purpose := if req.purpose != "" then req.purpose else cur.purpose,
                areaId := if req.areaId != "" then req.areaId else cur.areaId,
                updatedAt := now))
  }

  /** Which stamp the store compares the stored row with: the new row's own, or the token the caller read. */
  datatype Lock = AsWritten | Meant

  /** The second half of an update: compute the new row from the fetched one and store it. */
  function CommitUpdate(lock: Lock, s: State, cur: Authorization, req: UpdateRequest, now: Time)
    : Result<(State, Authorization)>
  {
    match Prepared(cur, req, now)
    case Err(e) => Err(e)
    case Ok(row) =>
      match StoreSpec.CompareAndStore(s, row, if lock.Meant? then req.updatedAt else row.updatedAt)
      case Err(e) => Err(e)
      case Ok(s') => Ok((s', row))
  }

  /** A whole update with nothing in between. */
  function UpdateAuthorization(lock: Lock, s: State, id: Id, req: UpdateRequest, now: Time)
    : Result<(State, Authorization)>
  {
    match StoreSpec.GetAuthorization(s, id)
    case Err(e) => Err(e)
    case Ok(cur) => CommitUpdate(lock, s, cur, req, now)
  }

  function UpdateParkingArea(s: State, id: Id, req: AreaRequest, now: Time): Result<(State, Area)> {
    if req.updatedAt == ZERO_TIME then Err(InvalidField("updated_at"))
    else
      match StoreSpec.GetParkingArea(s, id)
      case Err(e) => Err(e)
      case Ok(cur) =>
        if req.updatedAt != cur.updatedAt then Err(ConcurrentModify)
        else
          var row := cur.(name := if req.name != "" then req.name else cur.name,
                          code := if req.code != "" then req.code else cur.code,
                          capacity := if req.capacity > 0 then req.capacity else cur.capacity,
                          updatedAt := now);
          match StoreSpec.UpdateParkingArea(s, row)
          case Err(e) => Err(e)
          case Ok(s') => Ok((s', row))
  }

  /** The journal entry a call writes once its change is committed. */
  datatype Entry = Entry(action: Action, entityType: string, entityId: Id, operator: string)

  function Logged(s: State, e: Entry, logId: Id, at: Time): State {
    StoreSpec.CreateAuditLog(s,
      AuditLog(logId, e.action, e.entityType, e.entityId, DefaultText(e.operator, "system"), at))
  }

  function Created(a: Authorization): Entry { Entry(AuthCreate, "authorization", a.id, a.createdBy) }
  function Updated(id: Id): Entry { Entry(AuthUpdate, "authorization", id, "system") }
  function Archived(id: Id): Entry { Entry(AuthArchive, "authorization", id, "system") }
  function Revoked(id: Id, operator: string): Entry { Entry(AuthRevoke, "authorization", id, operator) }
  function EnteredBy(rec: Record): Entry { Entry(EntryRecord, "record", rec.id, "gate") }
  function ExitedBy(rec: Record, operator: string): Entry {
    Entry(ExitRecord, "record", rec.id, DefaultText(operator, "system"))
  }
  function AreaUpdated(id: Id): Entry { Entry(AreaUpdate, "parking_area", id, "system") }

  // ---- Listing

  /** A listing request; its date is parsed and the day's midnight is found outside the model. */
  datatype ListRequest = ListRequest(
    building: string,
    plate: PlateText,
    areaId: Id,
    status: Option<AuthStatus>,
    validOn: Option<Time>,
    today: bool,
    expiringSoon: bool,
    page: Listing.Page)

  function FilterOf(req: ListRequest, now: Time, midnight: Time): Listing.AuthFilter {
    Listing.AuthFilter(
      req.building, Plate.Normalized(req.plate), req.areaId, req.status, req.validOn, Some(now),
      if req.today then Some(midnight) else None,
      if req.today then Some(midnight + 24 * HOUR) else None,
      if req.expiringSoon then Some(now + EXPIRING_SOON_WINDOW) else None,
      Listing.NormPage(req.page))
  }
}
