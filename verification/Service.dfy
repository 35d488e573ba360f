/**
 * The service over the in-memory store. Clock readings and new ids are arguments: the first reading decides the call,
 * the second one stamps its journal entry.
 */
module Service {
  import opened Model
  import opened ServiceSpec
  import Listing
  import ListRules
  import Memory
  import Plate
  import StoreSpec

  /** What a caller's authorization object asks of an update. */
  ghost function RequestIn(a: Memory.Auth): UpdateRequest
    reads a
  {
    UpdateRequest(a.areaId, a.start, a.end, a.purpose, a.updatedAt)
  }

  /** The window checks of creation and update. */
  method WindowError(start: Time, end: Time, now: Time) returns (bad: Option<Error>)
    ensures bad.None? <==> now <= start < end <= start + MAX_AUTH_DURATION
    ensures bad == Some(InvalidField("start_time")) <==> start < now
    ensures bad.Some? && now <= start ==> bad == Some(InvalidField("end_time"))
  {
    if start < now {
      return Some(InvalidField("start_time"));
    }
    if !(end > start) {
      return Some(InvalidField("end_time"));
    }
    if end - start > MAX_AUTH_DURATION {
      return Some(InvalidField("end_time"));
    }
    return None;
  }

  class Service {
    const store: Memory.Store

    constructor (store: Memory.Store)
      ensures this.store == store
    {
      this.store := store;
    }

    method Audit(e: Entry, logId: Id, at: Time)
      requires store.Valid()
      modifies store
      ensures store.Valid() && store.Repr == old(store.Repr) && store.View == Logged(old(store.View), e, logId, at)
    {
      store.CreateAuditLog(
        AuditLog(logId, e.action, e.entityType, e.entityId, DefaultText(e.operator, "system"), at));
    }

    method CreateAuthorization(req: CreateRequest, now: Time, id: Id, logId: Id, at: Time)
      returns (res: Result<Memory.Auth>)
      requires store.Valid()
      modifies store.Repr
      ensures store.Valid() && fresh(store.Repr - old(store.Repr))
      ensures match ServiceSpec.CreateAuthorization(old(store.View), req, id, now)
              case Err(e) => res == Err(e) && store.View == old(store.View)
              case Ok((s, a)) =>
                res.Ok? && res.value.Value() == a && store.View == Logged(s, Created(a), logId, at)
                && fresh(res.value.Parts()) && res.value.Parts() !! store.Repr
    {
      hide Memory.Store.Valid, Plate.Valid, Plate.Normalized, StoreSpec.CreateAuthorization;
      var p := Plate.Normalize(req.plate);
      if !Plate.Valid(p) {
        return Err(InvalidField("plate"));
      }
      if req.start == ZERO_TIME || req.end == ZERO_TIME {
        return Err(InvalidField("start_time"));
      }
      var bad := WindowError(req.start, req.end, now);
      if bad.Some? {
        return Err(bad.value);
      }
      var a := new Memory.Auth(id, req.residentId, p, req.areaId, req.start, req.end, Pending, TrimSpace(req.purpose),
                               DefaultText(req.createdBy, "system"), null, now, now);
      var err := store.CreateAuthorization(a);
      if err.Some? {
        return Err(err.value);
      }
      Audit(Entry(AuthCreate, "authorization", a.id, a.createdBy), logId, at);
      return Ok(a);
    }

    /** The request object is the caller's: missing times are filled into it on the way. */
    method UpdateAuthorization(id: Id, req: Memory.Auth, now: Time, logId: Id, at: Time)
      returns (res: Result<Memory.Auth>)
      requires store.Valid() && req !in store.Repr
      modifies store.Repr, req
      ensures store.Valid() && fresh(store.Repr - old(store.Repr))
      ensures match ServiceSpec.UpdateAuthorization(AsWritten, old(store.View), id, old(RequestIn(req)), now)
              case Err(e) => res == Err(e) && store.View == old(store.View)
              case Ok((s, row)) =>
                res.Ok? && res.value.Value() == row && store.View == Logged(s, Updated(id), logId, at)
                && fresh(res.value.Parts()) && res.value.Parts() !! store.Repr
                && RequestIn(req) == FilledIn(old(store.View).auths[id], old(RequestIn(req)))
    {
      hide Memory.Store.Valid, StoreSpec.CompareAndStore, Prepared;
      var got := store.GetAuthorization(id);
      if got.Err? {
        return Err(got.error);
      }
      var cur := got.value;
      var bad := Prepare(cur, req, now);
      if bad.Some? {
        return Err(bad.value);
      }
      var err := store.UpdateAuthorization(cur);
      if err.Some? {
        return Err(err.value);
      }
      Audit(Updated(id), logId, at);
      return Ok(cur);
    }

    /** The times a request leaves out. */
    static method FillIn(cur: Memory.Auth, req: Memory.Auth)
      requires cur != req
      modifies req
      ensures RequestIn(req) == FilledIn(cur.Value(), old(RequestIn(req)))
    {
      if req.start == ZERO_TIME {
        req.start := cur.start;
      }
      if req.end == ZERO_TIME {
        req.end := cur.end;
      }
    }

    /** The checks of an update, and the fetched copy changed field by field into the new row. */
    static method Prepare(cur: Memory.Auth, req: Memory.Auth, now: Time) returns (bad: Option<Error>)
      requires cur != req
      modifies cur, req
      ensures cur.archivedAt == old(cur.archivedAt)
      ensures match Prepared(old(cur.Value()), old(RequestIn(req)), now)
              case Err(e) => bad == Some(e)
              case Ok(row) =>
                bad == None && cur.Value() == row && RequestIn(req) == FilledIn(old(cur.Value()), old(RequestIn(req)))
    {
      if cur.status != Pending {
        return Some(StatusTransition);
      }
      if req.updatedAt != cur.updatedAt {
        return Some(ConcurrentModify);
      }
      FillIn(cur, req);
      bad := WindowError(req.start, req.end, now);
      if bad.Some? {
        return;
      }
      cur.start := req.start;
      cur.end := req.end;
      if req.purpose != "" {
        cur.purpose := req.purpose;
      }
      if req.areaId != "" {
        cur.areaId := req.areaId;
      }
      cur.updatedAt := now;
    }

    method ArchiveAuthorization(id: Id, now: Time, logId: Id, at: Time) returns (err: Option<Error>)
      requires store.Valid()
      modifies store.Repr
      ensures store.Valid() && fresh(store.Repr - old(store.Repr))
      ensures match StoreSpec.ArchiveAuthorization(old(store.View), id, now)
              case Err(e) => err == Some(e) && store.View == old(store.View)
              case Ok(s) => err == None && store.View == Logged(s, Archived(id), logId, at)
    {
      hide Memory.Store.Valid;
      err := store.ArchiveAuthorization(id, now);
      if err.None? {
        Audit(Archived(id), logId, at);
      }
    }

    method EnterVehicle(id: Id, now: Time, recId: Id, logId: Id, at: Time) returns (res: Result<Memory.Rec>)
      requires store.Valid()
      modifies store.Repr
      ensures store.Valid() && fresh(store.Repr - old(store.Repr))
      ensures match StoreSpec.EnterVehicle(old(store.View), id, now, recId)
              case Err(e) => res == Err(e) && store.View == old(store.View)
              case Ok((s, rec)) =>
                res.Ok? && res.value.Value() == rec && store.View == Logged(s, EnteredBy(rec), logId, at)
                && fresh(res.value.Parts()) && res.value.Parts() !! store.Repr
    {
      hide Memory.Store.Valid, StoreSpec.EnterVehicle;
      res := store.EnterVehicle(id, now, recId);
      if res.Ok? {
        Audit(Entry(EntryRecord, "record", res.value.id, "gate"), logId, at);
      }
    }

    method ExitVehicle(id: Id, operator: string, note: string, now: Time, logId: Id, at: Time)
      returns (res: Result<Memory.Rec>, ghost found: Option<Id>)
      requires store.Valid()
      modifies store.Repr
      ensures store.Valid() && fresh(store.Repr - old(store.Repr))
      ensures StoreSpec.ScanFinds(old(store.View), id, found)
      ensures match StoreSpec.ExitVehicle(old(store.View), id, now, TrimSpace(operator), note, found)
              case Err(e) => res == Err(e) && store.View == old(store.View)
              case Ok((s, rec)) =>
                res.Ok? && res.value.Value() == rec && store.View == Logged(s, ExitedBy(rec, operator), logId, at)
                && fresh(res.value.Parts()) && res.value.Parts() !! store.Repr
    {
      hide Memory.Store.Valid, StoreSpec.ExitVehicle, StoreSpec.ScanFinds;
      res, found := store.ExitVehicle(id, now, TrimSpace(operator), note);
      if res.Ok? {
        Audit(Entry(ExitRecord, "record", res.value.id, DefaultText(operator, "system")), logId, at);
      }
    }

    method Revoke(id: Id, operator: string, now: Time, logId: Id, at: Time) returns (res: Result<Memory.Auth>)
      requires store.Valid()
      modifies store.Repr
      ensures store.Valid() && fresh(store.Repr - old(store.Repr))
      ensures match StoreSpec.RevokeAuthorization(old(store.View), id, now)
              case Err(e) => res == Err(e) && store.View == old(store.View)
              case Ok((s, a)) =>
                res.Ok? && res.value.Value() == a && store.View == Logged(s, Revoked(id, operator), logId, at)
                && fresh(res.value.Parts()) && res.value.Parts() !! store.Repr
    {
      hide Memory.Store.Valid, StoreSpec.RevokeAuthorization;
      res := store.RevokeAuthorization(id, now);
      if res.Ok? {
        Audit(Revoked(id, operator), logId, at);
      }
    }

    method UpdateParkingArea(id: Id, req: AreaRequest, now: Time, logId: Id, at: Time)
      returns (res: Result<Memory.ParkingArea>)
      requires store.Valid()
      modifies store.Repr
      ensures store.Valid() && fresh(store.Repr - old(store.Repr))
      ensures match ServiceSpec.UpdateParkingArea(old(store.View), id, req, now)
              case Err(e) => res == Err(e) && store.View == old(store.View)
              case Ok((s, a)) =>
                res.Ok? && res.value.Value() == a && store.View == Logged(s, AreaUpdated(id), logId, at)
                && fresh(res.value.Parts()) && res.value.Parts() !! store.Repr
    {
      hide Memory.Store.Valid, StoreSpec.UpdateParkingArea;
      if req.updatedAt == ZERO_TIME {
        return Err(InvalidField("updated_at"));
      }
      var got := store.GetParkingArea(id);
      if got.Err? {
        return Err(got.error);
      }
      var cur := got.value;
      if req.updatedAt != cur.updatedAt {
        return Err(ConcurrentModify);
      }
      if req.name != "" {
        cur.name := req.name;
      }
      if req.code != "" {
        cur.code := req.code;
      }
      if req.capacity > 0 {
        cur.capacity := req.capacity;
      }
      cur.updatedAt := now;
      var err := store.UpdateParkingArea(cur);
      if err.Some? {
        return Err(err.value);
      }
      Audit(AreaUpdated(id), logId, at);
      return Ok(cur);
    }

    method ListAuthorizations(req: ListRequest, now: Time, midnight: Time)
      returns (items: seq<Memory.Auth>, total: int, ghost order: seq<Id>)
      requires store.Valid()
      ensures Listing.Arranges(order, ListRules.AllShown(store.View, req, now, midnight),
              Listing.StartTimes(store.View))
      ensures total == |ListRules.AllShown(store.View, req, now, midnight)|
      ensures |items| == |Listing.PageOf(Listing.Rows(store.View.auths, order), req.page)|
      ensures forall i | 0 <= i < |items| ::
                items[i].Value() == Listing.PageOf(Listing.Rows(store.View.auths, order), req.page)[i]
    {
      hide Memory.Store.Valid, Listing.Arranges, Listing.MatchingAuths, Plate.Normalized;
      var p := Plate.Normalize(req.plate);
      var f := Listing.AuthFilter(
        req.building, p, req.areaId, req.status, req.validOn, Some(now),
        if req.today then Some(midnight) else None,
        if req.today then Some(midnight + 24 * HOUR) else None,
        if req.expiringSoon then Some(now + EXPIRING_SOON_WINDOW) else None,
        Listing.NormPage(req.page));
      items, total, order := store.ListAuthorizations(f);
      ListRules.AllShownAreMatching(store.View, req, now, midnight);
      ArrangedIn(store.View, f, order);
      Listing.NormPageOnce(Listing.Rows(store.View.auths, order), req.page);
    }
  }

  lemma ArrangedIn(s: State, f: Listing.AuthFilter, order: seq<Id>)
    requires Listing.Arranges(order, Listing.MatchingAuths(s, f), Listing.StartTimes(s))
    ensures forall k | k in order :: k in s.auths
  {
  }
}
