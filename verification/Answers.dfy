/**
 * The answer of every operation in terms of what is stored, what is asked and the clock: when it succeeds, and which
 * error it gives when it does not. Durations are written out in nanoseconds.
 */
module Answers {
  import opened Model
  import opened ServiceSpec
  import opened Lifecycle
  import opened Utf8
  import Occupancy
  import Plate
  import PlateFormat
  import StoreSpec
  import Windows

  predicate Live(s: State, id: Id) {
    id in s.auths && s.auths[id].archivedAt == None
  }

  predicate LiveArea(s: State, id: Id) {
    id in s.areas && s.areas[id].archivedAt == None
  }

  /** Not in the past, not empty, and at most 604,800 seconds. */
  predicate WindowRules(start: Time, end: Time, now: Time) {
    now <= start < end && end - start <= 604_800_000_000_000
  }

  // ---- Creation

  ghost predicate GoodPlate(p: PlateText) {
    PlateFormat.Matches(PlateFormat.PLATE, Plate.Folded(Decode(p)))
  }

  /** Both times are given; Go's zero time counts as missing. */
  predicate TimesGiven(req: CreateRequest) {
    req.start != 0 && req.end != 0
  }

  ghost predicate Sound(req: CreateRequest, now: Time) {
    GoodPlate(req.plate) && TimesGiven(req) && WindowRules(req.start, req.end, now)
  }

  /** The field an unsound request is refused for. */
  ghost function WrongField(req: CreateRequest, now: Time): string {
    if !GoodPlate(req.plate) then "plate"
    else if !TimesGiven(req) || req.start < now then "start_time" else "end_time"
  }

  predicate ResidentKnown(s: State, id: Id) {
    id in s.residents && s.residents[id].archivedAt == None
  }

  lemma RequestAnswer(req: CreateRequest, id: Id, now: Time)
    ensures match Requested(req, id, now)
            case Ok(a) =>
              && Sound(req, now)
              && (a.residentId, a.areaId, a.start, a.end) == (req.residentId, req.areaId, req.start, req.end)
            case Err(InvalidField(f)) => !Sound(req, now) && f == WrongField(req, now)
            case Err(_) => false
  {
    Plate.NormalizedIdempotent(req.plate);
    PlateFormat.ValidMatches(req.plate);
    hide Plate.Normalized, PlateFormat.Matches, Decode;
  }

  lemma ClashIsTaken(s: State, req: CreateRequest, id: Id, now: Time)
    requires (forall k | k in s.auths :: Windows.Canonical(s.auths[k].plate)) && Requested(req, id, now).Ok?
    ensures StoreSpec.Clashes(s, Requested(req, id, now).value) <==> Windows.Taken(s, req)
  {
    var a := Requested(req, id, now).value;
    hide Windows.Canonical, Requested, Plate.SamePlate;
    forall k | k in s.auths
      ensures StoreSpec.ClashesWith(s, a, k)
              <==> && s.auths[k].archivedAt.None? && s.auths[k].status != Completed && s.auths[k].status != Cancelled
                   && s.auths[k].start < req.end && req.start < s.auths[k].end
                   && Plate.SamePlate(req.plate, s.auths[k].plate)
    {
      Windows.ClashIsBySamePlate(s, req, id, now, k);
      RequestAnswer(req, id, now);
    }
  }

  /** Every answer to a creation; the checks of the request come before those of the store. */
  lemma CreateAnswer(s: State, req: CreateRequest, id: Id, now: Time)
    requires forall k | k in s.auths :: Windows.Canonical(s.auths[k].plate)
    ensures var known, live := ResidentKnown(s, req.residentId), LiveArea(s, req.areaId);
            var enabled := known && s.residents[req.residentId].status == EnabledResident;
            match CreateAuthorization(s, req, id, now)
            case Ok(_) => Sound(req, now) && enabled && live && !Windows.Taken(s, req)
            case Err(InvalidField(f)) =>
              && !Sound(req, now)
              && f == WrongField(req, now)
            case Err(NotFound) => Sound(req, now) && !known
            case Err(ResidentDisabled) => Sound(req, now) && known && !enabled
            case Err(AreaArchived) => Sound(req, now) && enabled && !live
            case Err(Conflict) => Sound(req, now) && enabled && live && Windows.Taken(s, req)
            case Err(_) => false
  {
    RequestAnswer(req, id, now);
    hide Requested, Sound, WrongField, Plate.SamePlate, StoreSpec.Clashes, Windows.Taken, Windows.Canonical;
    if Requested(req, id, now).Ok? {
      ClashIsTaken(s, req, id, now);
    }
  }

  // ---- Updates

  /** The times an update leads to: the ones it gives, else those of the row. */
  predicate UpdateWindowRules(row: Authorization, req: UpdateRequest, now: Time) {
    WindowRules(if req.start == 0 then row.start else req.start, if req.end == 0 then row.end else req.end, now)
  }

  /** Which time of the window is named as wrong. */
  function WrongTime(row: Authorization, req: UpdateRequest, now: Time): string {
    if (if req.start == 0 then row.start else req.start) < now then "start_time" else "end_time"
  }

  /**
   * Every answer to an uninterrupted update. The last comparison of stamps is with the clock reading as written, and
   * with the token, which has been found equal already, as meant.
   */
  lemma UpdateAnswer(lock: Lock, s: State, id: Id, req: UpdateRequest, now: Time)
    requires id in s.auths ==> s.auths[id].id == id
    ensures match UpdateAuthorization(lock, s, id, req, now)
            case Err(NotFound) => !Live(s, id)
            case Err(StatusTransition) => Live(s, id) && s.auths[id].status != Pending
            case Err(ConcurrentModify) =>
              && Live(s, id) && s.auths[id].status == Pending
              && (req.updatedAt != s.auths[id].updatedAt
                  || (lock == AsWritten && UpdateWindowRules(s.auths[id], req, now) && s.auths[id].updatedAt != now))
            case Err(InvalidField(f)) =>
              && Live(s, id) && s.auths[id].status == Pending && req.updatedAt == s.auths[id].updatedAt
              && !UpdateWindowRules(s.auths[id], req, now) && f == WrongTime(s.auths[id], req, now)
            case Err(_) => false
            case Ok(_) =>
              && Live(s, id) && s.auths[id].status == Pending && req.updatedAt == s.auths[id].updatedAt
              && UpdateWindowRules(s.auths[id], req, now) && (lock == AsWritten ==> s.auths[id].updatedAt == now)
  {
  }

  /** Every answer to the second half of an update, whatever steps came since its fetch. */
  lemma CommitAnswer(lock: Lock, s: State, fetched: Authorization, req: UpdateRequest, now: Time)
    ensures var fit := fetched.status == Pending && req.updatedAt == fetched.updatedAt;
            var stamp := if lock == AsWritten then now else req.updatedAt;
            match CommitUpdate(lock, s, fetched, req, now)
            case Err(StatusTransition) => fetched.status != Pending
            case Err(InvalidField(f)) =>
              fit && !UpdateWindowRules(fetched, req, now) && f == WrongTime(fetched, req, now)
            case Err(NotFound) => fit && UpdateWindowRules(fetched, req, now) && !Live(s, fetched.id)
            case Err(ConcurrentModify) =>
              && fetched.status == Pending
              && (req.updatedAt != fetched.updatedAt
                  || (UpdateWindowRules(fetched, req, now) && Live(s, fetched.id)
                      && s.auths[fetched.id].updatedAt != stamp))
            case Err(_) => false
            case Ok(_) =>
              && fit && UpdateWindowRules(fetched, req, now)
              && Live(s, fetched.id) && s.auths[fetched.id].updatedAt == stamp
  {
  }

  // ---- The gate

  /** Every answer to an entry, and the record a successful one gives and stores. */
  lemma EnterAnswer(s: State, id: Id, now: Time, recId: Id)
    requires Corresponds(s)
    ensures match StoreSpec.EnterVehicle(s, id, now, recId)
            case Err(NotFound) => !Live(s, id)
            case Err(AlreadyEntered) => Live(s, id) && s.auths[id].status == Active
            case Err(StatusTransition) => Live(s, id) && s.auths[id].status != Active && s.auths[id].status != Pending
            case Err(OutOfTimeWindow) =>
              Live(s, id) && s.auths[id].status == Pending && !(s.auths[id].start <= now < s.auths[id].end)
            case Err(AreaArchived) => MayEnter(s, id, now) && !LiveArea(s, s.auths[id].areaId)
            case Err(NoCapacity) =>
              && MayEnter(s, id, now) && LiveArea(s, s.auths[id].areaId)
              && |Occupancy.ActiveIn(s, s.auths[id].areaId)| >= s.areas[s.auths[id].areaId].capacity
            case Err(_) => false
            case Ok((s', rec)) =>
              && MayEnter(s, id, now) && LiveArea(s, s.auths[id].areaId)
              && |Occupancy.ActiveIn(s, s.auths[id].areaId)| < s.areas[s.auths[id].areaId].capacity
              && rec == Record(recId, id, s.auths[id].plate, s.auths[id].areaId, now, None, "", "", Entered, now, now)
              && s' == s.(records := s.records[recId := rec],
                          auths := s.auths[id := s.auths[id].(status := Active, updatedAt := now)])
  {
    if id in s.auths {
      Occupancy.OccupantsAreActive(s, s.auths[id].areaId);
    }
  }

  predicate MayEnter(s: State, id: Id, now: Time) {
    Live(s, id) && s.auths[id].status == Pending && s.auths[id].start <= now < s.auths[id].end
  }

  /** Every answer to an exit, and the record a successful one closes, stores and gives. */
  lemma ExitAnswer(s: State, id: Id, now: Time, operator: string, note: string, found: Option<Id>)
    requires Corresponds(s) && StoreSpec.ScanFinds(s, id, found)
    ensures match StoreSpec.ExitVehicle(s, id, now, operator, note, found)
            case Err(NotFound) => !Live(s, id)
            case Err(AlreadyExited) => Live(s, id) && s.auths[id].status == Completed
            case Err(StatusTransition) =>
              Live(s, id) && (s.auths[id].status == Pending || s.auths[id].status == Cancelled)
            case Err(_) => false
            case Ok((s', rec)) =>
              && Live(s, id) && s.auths[id].status == Active && RecordsOf(s, id) == {rec.id}
              && rec == s.records[rec.id].(status := Exited, exitTime := Some(now), exitOperator := operator,
                                           exitNote := note, updatedAt := now)
              && s' == s.(records := s.records[rec.id := rec],
                          auths := s.auths[id := s.auths[id].(status := Completed, updatedAt := now)])
  {
    if id in s.auths {
      ExitFindsItsRecord(s, id, found);
      if found.Some? {
        assert InStep(s, found.value);
      }
    }
  }

  /** Every answer to a revocation; the row given is the row stored. */
  lemma RevokeAnswer(s: State, id: Id, now: Time)
    ensures match StoreSpec.RevokeAuthorization(s, id, now)
            case Err(NotFound) => !Live(s, id)
            case Err(StatusTransition) => Live(s, id) && s.auths[id].status != Pending
            case Err(_) => false
            case Ok((s', a)) =>
              && Live(s, id) && s.auths[id].status == Pending
              && a == s.auths[id].(status := Cancelled, updatedAt := now) && s' == s.(auths := s.auths[id := a])
  {
  }

  /** Every answer to an archiving: any live row will do, and afterwards the row is not found. */
  lemma ArchiveAnswer(s: State, id: Id, now: Time)
    ensures match StoreSpec.ArchiveAuthorization(s, id, now)
            case Err(e) => e == NotFound && !Live(s, id)
            case Ok(s') =>
              && Live(s, id)
              && s' == s.(auths := s.auths[id := s.auths[id].(archivedAt := Some(now), updatedAt := now)])
              && StoreSpec.GetAuthorization(s', id) == Err(NotFound)
  {
  }

  // ---- Areas and residents

  lemma FetchAnswer(s: State, id: Id)
    ensures StoreSpec.GetAuthorization(s, id) == if Live(s, id) then Ok(s.auths[id]) else Err(NotFound)
    ensures StoreSpec.GetParkingArea(s, id) == if LiveArea(s, id) then Ok(s.areas[id]) else Err(NotFound)
  {
  }

  /** Every answer to an area update; the row given is the row stored. */
  lemma AreaUpdateAnswer(s: State, id: Id, req: AreaRequest, now: Time)
    requires id in s.areas ==> s.areas[id].id == id
    ensures match UpdateParkingArea(s, id, req, now)
            case Err(InvalidField(f)) => f == "updated_at" && req.updatedAt == 0
            case Err(NotFound) => req.updatedAt != 0 && !LiveArea(s, id)
            case Err(ConcurrentModify) =>
              && req.updatedAt != 0 && LiveArea(s, id)
              && (req.updatedAt != s.areas[id].updatedAt || s.areas[id].updatedAt != now)
            case Err(_) => false
            case Ok((s', row)) =>
              && LiveArea(s, id) && req.updatedAt == s.areas[id].updatedAt == now != 0
              && id in s'.areas && s'.areas[id] == row && s' == s.(areas := s.areas[id := row])
  {
  }

  /** New areas and residents: refused exactly if the id is taken, else found as given, and nothing else changes. */
  lemma AddingAnswer(s: State, area: Area, resident: Resident)
    ensures match StoreSpec.CreateParkingArea(s, area)
            case Err(e) => e == Conflict && area.id in s.areas
            case Ok(s') => area.id !in s.areas && s' == s.(areas := s.areas[area.id := area])
    ensures match StoreSpec.CreateResident(s, resident)
            case Err(e) => e == Conflict && resident.id in s.residents
            case Ok(s') => resident.id !in s.residents && s' == s.(residents := s.residents[resident.id := resident])
  {
  }
}
