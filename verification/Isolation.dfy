/** Callers cannot change the store through the objects they hand in or get back. */
module Isolation {
  import opened Model
  import opened Memory
  import Listing
  import StoreSpec

  /** Whatever happens to objects outside the store, it still holds what its view shows. */
  twostate lemma OutsideChangesStayOutside(m: Store)
    requires old(m.Valid()) && forall o | o in old(m.Repr) :: unchanged(o)
    ensures m.Valid() && m.View == old(m.View) && m.Repr == old(m.Repr)
  {
  }

  /** A caller and every object it has ever made, handed in or got back, with all it can reach from them. */
  class Caller {
    var auths: seq<Auth>
    var recs: seq<Rec>
    var areas: seq<ParkingArea>
    var instants: seq<Instant>
    ghost var held: set<object>

    ghost predicate Valid()
      reads this, held
    {
      && this !in held
      && (forall i | 0 <= i < |auths| :: auths[i] in held && auths[i].Parts() <= held)
      && (forall i | 0 <= i < |recs| :: recs[i] in held && recs[i].Parts() <= held)
      && (forall i | 0 <= i < |areas| :: areas[i] in held && areas[i].Parts() <= held)
      && (forall i | 0 <= i < |instants| :: instants[i] in held)
    }

    /** The values of the held objects at this moment. */
    ghost function AuthValues(): (r: seq<Authorization>)
      requires Valid()
      reads this, held
      ensures |r| == |auths| && forall i | 0 <= i < |r| :: r[i] == auths[i].Value()
    {
      seq(|auths|, i requires Valid() && 0 <= i < |auths| reads this, held => auths[i].Value())
    }

    ghost function AreaValues(): (r: seq<Area>)
      requires Valid()
      reads this, held
      ensures |r| == |areas| && forall i | 0 <= i < |r| :: r[i] == areas[i].Value()
    {
      seq(|areas|, i requires Valid() && 0 <= i < |areas| reads this, held => areas[i].Value())
    }

    constructor ()
      ensures Valid() && held == {}
    {
      auths, recs, areas, instants, held := [], [], [], [], {};
    }

    method KeepAuth(a: Auth)
      requires Valid() && this !in a.Parts()
      modifies this
      ensures Valid() && held == old(held) + a.Parts()
    {
      auths := auths + [a];
      held := held + a.Parts();
    }

    method KeepRecord(r: Rec)
      requires Valid() && this !in r.Parts()
      modifies this
      ensures Valid() && held == old(held) + r.Parts()
    {
      recs := recs + [r];
      held := held + r.Parts();
    }

    method KeepArea(a: ParkingArea)
      requires Valid() && this !in a.Parts()
      modifies this
      ensures Valid() && held == old(held) + a.Parts()
    {
      areas := areas + [a];
      held := held + a.Parts();
    }

    method KeepInstant(p: Instant)
      requires Valid()
      modifies this
      ensures Valid() && held == old(held) + {p}
    {
      instants := instants + [p];
      held := held + {p};
    }

    method KeepAuths(items: seq<Auth>, ghost more: set<object>)
      requires Valid() && this !in more && forall i | 0 <= i < |items| :: items[i] in more && items[i].Parts() <= more
      modifies this
      ensures Valid() && held == old(held) + more
    {
      held := held + more;
      auths := auths + items;
    }

    method KeepRecords(items: seq<Rec>, ghost more: set<object>)
      requires Valid() && this !in more && forall i | 0 <= i < |items| :: items[i] in more && items[i].Parts() <= more
      modifies this
      ensures Valid() && held == old(held) + more
    {
      held := held + more;
      recs := recs + items;
    }

    /** One of the times the caller holds, or none. */
    method Pick(p: Option<nat>) returns (q: Instant?)
      requires Valid()
      ensures Pointee(q) <= held
    {
      q := if p.Some? && p.value < |instants| then instants[p.value] else null;
    }

    /** Every field of a held object set to something else, the pointer to a time included. */
    method SpoilAuth(i: nat, junk: Authorization, p: Option<nat>)
      requires Valid() && i < |auths|
      modifies held
      ensures Valid() && held == old(held)
    {
      var a := auths[i];
      var q := Pick(p);
      a.id, a.residentId, a.plate, a.areaId := junk.id, junk.residentId, junk.plate, junk.areaId;
      a.start, a.end, a.status, a.purpose := junk.start, junk.end, junk.status, junk.purpose;
      a.createdBy, a.archivedAt, a.createdAt, a.updatedAt := junk.createdBy, q, junk.createdAt, junk.updatedAt;
    }

    method SpoilRecord(i: nat, junk: Record, p: Option<nat>)
      requires Valid() && i < |recs|
      modifies held
      ensures Valid() && held == old(held)
    {
      var r := recs[i];
      var q := Pick(p);
      r.id, r.authId, r.plate, r.areaId, r.entryTime := junk.id, junk.authId, junk.plate, junk.areaId, junk.entryTime;
      r.exitTime, r.exitOperator, r.exitNote, r.status := q, junk.exitOperator, junk.exitNote, junk.status;
      r.createdAt, r.updatedAt := junk.createdAt, junk.updatedAt;
    }

    method SpoilArea(i: nat, junk: Area, p: Option<nat>)
      requires Valid() && i < |areas|
      modifies held
      ensures Valid() && held == old(held)
    {
      var a := areas[i];
      var q := Pick(p);
      a.id, a.name, a.code, a.capacity := junk.id, junk.name, junk.code, junk.capacity;
      a.archivedAt, a.createdAt, a.updatedAt := q, junk.createdAt, junk.updatedAt;
    }

    method SpoilInstant(i: nat, at: Time)
      requires Valid() && i < |instants|
      modifies held
      ensures Valid() && held == old(held)
    {
      instants[i].at := at;
    }
  }

  /** What a caller may do at any point: make, keep and change objects of its own, or call the store with them. */
  datatype Command =
    | MakeAuth(row: Authorization)
    | MakeArea(area: Area)
    | MakeInstant(at: Time)
    | TakeAuthPointer(i: nat)
    | TakeRecordPointer(i: nat)
    | TakeAreaPointer(i: nat)
    | SpoilAuth(i: nat, junk: Authorization, p: Option<nat>)
    | SpoilRecord(i: nat, junkRecord: Record, p: Option<nat>)
    | SpoilArea(i: nat, junkArea: Area, p: Option<nat>)
    | SpoilInstant(i: nat, at: Time)
    | Create(i: nat)
    | Update(i: nat)
    | CreateArea(i: nat)
    | UpdateArea(i: nat)
    | Get(id: Id)
    | GetArea(id: Id)
    | Archive(id: Id, now: Time)
    | Enter(id: Id, now: Time, recId: Id)
    | Exit(id: Id, now: Time, operator: string, note: string)
    | Revoke(id: Id, now: Time)
    | ListAuths(f: Listing.AuthFilter)
    | ListRecords(g: Listing.RecordFilter)
  {
    /** The caller keeps to itself. */
    predicate Private() {
      MakeAuth? || MakeArea? || MakeInstant? || TakeAuthPointer? || TakeRecordPointer? || TakeAreaPointer?
      || SpoilAuth? || SpoilRecord? || SpoilArea? || SpoilInstant?
    }

    predicate Reads() {
      Get? || GetArea? || ListAuths? || ListRecords?
    }
  }

  /** What a command does to the stored values, given the values of the objects the caller holds at that moment. */
  ghost predicate Does(s: State, c: Command, auths: seq<Authorization>, areas: seq<Area>, s': State) {
    match c
    case Create(i) => s' == if i < |auths| then Changed(s, StoreSpec.CreateAuthorization(s, auths[i])) else s
    case Update(i) => s' == if i < |auths| then Changed(s, StoreSpec.UpdateAuthorization(s, auths[i])) else s
    case CreateArea(i) => s' == if i < |areas| then Changed(s, StoreSpec.CreateParkingArea(s, areas[i])) else s
    case UpdateArea(i) => s' == if i < |areas| then Changed(s, StoreSpec.UpdateParkingArea(s, areas[i])) else s
    case Archive(id, now) => s' == Changed(s, StoreSpec.ArchiveAuthorization(s, id, now))
    case Enter(id, now, recId) => s' == ChangedFirst(s, StoreSpec.EnterVehicle(s, id, now, recId))
    case Exit(id, now, operator, note) =>
      exists found | StoreSpec.ScanFinds(s, id, found) ::
        s' == ChangedFirst(s, StoreSpec.ExitVehicle(s, id, now, operator, note, found))
    case Revoke(id, now) => s' == ChangedFirst(s, StoreSpec.RevokeAuthorization(s, id, now))
    case _ => s' == s
  }

  function Changed(s: State, r: Result<State>): State {
    if r.Ok? then r.value else s
  }

  function ChangedFirst<T>(s: State, r: Result<(State, T)>): State {
    if r.Ok? then r.value.0 else s
  }

  /** The store and the caller have no object in common. */
  ghost predicate Apart(m: Store, c: Caller)
    reads m, m.Repr, c, c.held
  {
    m.Valid() && c.Valid() && c.held !! m.Repr && c !in m.Repr
  }

  method MakeAuthObject(row: Authorization) returns (a: Auth)
    ensures a.Value() == row && fresh(a.Parts())
  {
    var p: Instant? := null;
    if row.archivedAt.Some? {
      p := new Instant(row.archivedAt.value);
    }
    a := new Auth(row.id, row.residentId, row.plate, row.areaId, row.start, row.end, row.status, row.purpose,
                  row.createdBy, p, row.createdAt, row.updatedAt);
  }

  method MakeAreaObject(row: Area) returns (a: ParkingArea)
    ensures a.Value() == row && fresh(a.Parts())
  {
    var p: Instant? := null;
    if row.archivedAt.Some? {
      p := new Instant(row.archivedAt.value);
    }
    a := new ParkingArea(row.id, row.name, row.code, row.capacity, p, row.createdAt, row.updatedAt);
  }

  method Make(m: Store, c: Caller, cmd: Command)
    requires Apart(m, c) && (cmd.MakeAuth? || cmd.MakeArea? || cmd.MakeInstant?)
    modifies c
    ensures Apart(m, c) && m.View == old(m.View) && m.Repr == old(m.Repr)
    ensures old(c.held) <= c.held && fresh(c.held - old(c.held))
  {
    hide Store.Valid, Caller.Valid, Auth.Value, ParkingArea.Value;
    match cmd {
      case MakeAuth(row) =>
        var a := MakeAuthObject(row);
        c.KeepAuth(a);
      case MakeArea(row) =>
        var a := MakeAreaObject(row);
        c.KeepArea(a);
      case MakeInstant(at) =>
        var p := new Instant(at);
        c.KeepInstant(p);
    }
  }

  /** The time a held object points to, held by itself from now on. */
  method Take(m: Store, c: Caller, cmd: Command)
    requires Apart(m, c) && (cmd.TakeAuthPointer? || cmd.TakeRecordPointer? || cmd.TakeAreaPointer?)
    modifies c
    ensures Apart(m, c) && m.View == old(m.View) && m.Repr == old(m.Repr) && c.held == old(c.held)
  {
    hide Store.Valid, Auth.Value, Rec.Value, ParkingArea.Value;
    var p: Instant? := match cmd
      case TakeAuthPointer(i) => if i < |c.auths| then c.auths[i].archivedAt else null
      case TakeRecordPointer(i) => if i < |c.recs| then c.recs[i].exitTime else null
      case TakeAreaPointer(i) => if i < |c.areas| then c.areas[i].archivedAt else null;
    if p != null {
      c.KeepInstant(p);
    }
  }

  method Spoil(m: Store, c: Caller, cmd: Command)
    requires Apart(m, c) && (cmd.SpoilAuth? || cmd.SpoilRecord? || cmd.SpoilArea? || cmd.SpoilInstant?)
    modifies c.held
    ensures Apart(m, c) && m.View == old(m.View) && m.Repr == old(m.Repr) && c.held == old(c.held)
  {
    hide Store.Valid, Caller.Valid;
    match cmd {
      case SpoilAuth(i, junk, p) =>
        if i < |c.auths| {
          c.SpoilAuth(i, junk, p);
        }
      case SpoilRecord(i, junk, p) =>
        if i < |c.recs| {
          c.SpoilRecord(i, junk, p);
        }
      case SpoilArea(i, junk, p) =>
        if i < |c.areas| {
          c.SpoilArea(i, junk, p);
        }
      case SpoilInstant(i, at) =>
        if i < |c.instants| {
          c.SpoilInstant(i, at);
        }
    }
  }

  method KeepToItself(m: Store, c: Caller, cmd: Command)
    requires Apart(m, c) && cmd.Private()
    modifies c, c.held
    ensures Apart(m, c) && m.View == old(m.View) && m.Repr == old(m.Repr)
    ensures old(c.held) <= c.held && fresh(c.held - old(c.held))
  {
    hide Store.Valid, Caller.Valid;
    if cmd.MakeAuth? || cmd.MakeArea? || cmd.MakeInstant? {
      Make(m, c, cmd);
    } else if cmd.TakeAuthPointer? || cmd.TakeRecordPointer? || cmd.TakeAreaPointer? {
      Take(m, c, cmd);
    } else {
      Spoil(m, c, cmd);
    }
  }

  method LookThroughAuths(m: Store, c: Caller, f: Listing.AuthFilter)
    requires Apart(m, c)
    modifies c
    ensures Apart(m, c) && m.View == old(m.View) && m.Repr == old(m.Repr)
    ensures old(c.held) <= c.held && fresh(c.held - old(c.held))
  {
    hide Store.Valid, Caller.Valid, Auth.Value, Auth.Parts, Listing.Arranges, Listing.MatchingAuths,
         Listing.StartTimes, Listing.Rows, Listing.PageOf;
    var items, total, order := m.ListAuthorizations(f);
    ghost var more := set i, o | 0 <= i < |items| && o in items[i].Parts() :: o;
    assert forall i | 0 <= i < |items| :: items[i].Parts() <= more;
    assert fresh(more);
    OwnParts(items);
    c.KeepAuths(items, more);
  }

  lemma OwnParts(items: seq<Auth>)
    ensures forall i | 0 <= i < |items| :: items[i] in items[i].Parts()
  {
  }

  method LookThroughRecords(m: Store, c: Caller, f: Listing.RecordFilter)
    requires Apart(m, c)
    modifies c
    ensures Apart(m, c) && m.View == old(m.View) && m.Repr == old(m.Repr)
    ensures old(c.held) <= c.held && fresh(c.held - old(c.held))
  {
    hide Store.Valid, Caller.Valid, Rec.Value, Rec.Parts, Listing.Arranges, Listing.MatchingRecords,
         Listing.EntryTimes, Listing.Rows, Listing.PageOf;
    var items, total, order := m.ListRecords(f);
    ghost var more := set i, o | 0 <= i < |items| && o in items[i].Parts() :: o;
    assert forall i | 0 <= i < |items| :: items[i].Parts() <= more;
    assert fresh(more);
    OwnRecordParts(items);
    c.KeepRecords(items, more);
  }

  lemma OwnRecordParts(items: seq<Rec>)
    ensures forall i | 0 <= i < |items| :: items[i] in items[i].Parts()
  {
  }

  method Look(m: Store, c: Caller, cmd: Command)
    requires Apart(m, c) && cmd.Reads()
    modifies c
    ensures Apart(m, c) && m.View == old(m.View) && m.Repr == old(m.Repr)
    ensures old(c.held) <= c.held && fresh(c.held - old(c.held))
  {
    hide Store.Valid, Caller.Valid, Auth.Value, ParkingArea.Value;
    match cmd {
      case Get(id) =>
        var res := m.GetAuthorization(id);
        if res.Ok? {
          c.KeepAuth(res.value);
        }
      case GetArea(id) =>
        var res := m.GetParkingArea(id);
        if res.Ok? {
          c.KeepArea(res.value);
        }
      case ListAuths(f) => LookThroughAuths(m, c, f);
      case ListRecords(f) => LookThroughRecords(m, c, f);
    }
  }

  /** An authorization handed in: the store reads its values and does not keep it. */
  method HandIn(m: Store, c: Caller, cmd: Command)
    requires Apart(m, c) && (cmd.Create? || cmd.Update?)
    modifies m.Repr
    ensures Apart(m, c) && fresh(m.Repr - old(m.Repr)) && c.held == old(c.held)
    ensures Does(old(m.View), cmd, old(c.AuthValues()), old(c.AreaValues()), m.View)
  {
    hide Store.Valid, Auth.Value, ParkingArea.Value, StoreSpec.CreateAuthorization, StoreSpec.CompareAndStore;
    match cmd {
      case Create(i) =>
        if i < |c.auths| {
          var _ := m.CreateAuthorization(c.auths[i]);
        }
      case Update(i) =>
        if i < |c.auths| {
          var _ := m.UpdateAuthorization(c.auths[i]);
        }
    }
  }

  method HandInArea(m: Store, c: Caller, cmd: Command)
    requires Apart(m, c) && (cmd.CreateArea? || cmd.UpdateArea?)
    modifies m.Repr
    ensures Apart(m, c) && fresh(m.Repr - old(m.Repr)) && c.held == old(c.held)
    ensures Does(old(m.View), cmd, old(c.AuthValues()), old(c.AreaValues()), m.View)
  {
    hide Store.Valid, Auth.Value, ParkingArea.Value, StoreSpec.CreateParkingArea, StoreSpec.UpdateParkingArea;
    match cmd {
      case CreateArea(i) =>
        if i < |c.areas| {
          var _ := m.CreateParkingArea(c.areas[i]);
        }
      case UpdateArea(i) =>
        if i < |c.areas| {
          var _ := m.UpdateParkingArea(c.areas[i]);
        }
    }
  }

  /** A record got back at the gate is not one the store holds. */
  method PassGate(m: Store, c: Caller, cmd: Command)
    requires Apart(m, c) && (cmd.Enter? || cmd.Exit?)
    modifies m.Repr, c
    ensures Apart(m, c) && fresh(m.Repr - old(m.Repr)) && old(c.held) <= c.held && fresh(c.held - old(c.held))
    ensures Does(old(m.View), cmd, old(c.AuthValues()), old(c.AreaValues()), m.View)
  {
    hide Store.Valid, Caller.Valid, Rec.Value, Rec.Parts, Auth.Value, ParkingArea.Value, StoreSpec.EnterVehicle,
         StoreSpec.ExitVehicle, StoreSpec.ScanFinds;
    var res: Result<Rec>;
    match cmd {
      case Enter(id, now, recId) =>
        res := m.EnterVehicle(id, now, recId);
      case Exit(id, now, operator, note) =>
        ghost var found;
        res, found := m.ExitVehicle(id, now, operator, note);
    }
    if res.Ok? {
      c.KeepRecord(res.value);
    }
  }

  /** Nor is an authorization got back from its revocation. */
  method Cancel(m: Store, c: Caller, cmd: Command)
    requires Apart(m, c) && (cmd.Archive? || cmd.Revoke?)
    modifies m.Repr, c
    ensures Apart(m, c) && fresh(m.Repr - old(m.Repr)) && old(c.held) <= c.held && fresh(c.held - old(c.held))
    ensures Does(old(m.View), cmd, old(c.AuthValues()), old(c.AreaValues()), m.View)
  {
    hide Store.Valid, Caller.Valid, Auth.Value, Auth.Parts, ParkingArea.Value, StoreSpec.ArchiveAuthorization,
         StoreSpec.RevokeAuthorization;
    match cmd {
      case Archive(id, now) =>
        var _ := m.ArchiveAuthorization(id, now);
      case Revoke(id, now) =>
        var res := m.RevokeAuthorization(id, now);
        if res.Ok? {
          c.KeepAuth(res.value);
        }
    }
  }

  /** One command of the caller. */
  method Perform(m: Store, c: Caller, cmd: Command)
    requires Apart(m, c)
    modifies m.Repr, c, c.held
    ensures Apart(m, c) && fresh(m.Repr - old(m.Repr)) && old(c.held) <= c.held && fresh(c.held - old(c.held))
    ensures Does(old(m.View), cmd, old(c.AuthValues()), old(c.AreaValues()), m.View)
  {
    hide Store.Valid, Caller.AuthValues, Caller.AreaValues;
    if cmd.Private() {
      KeepToItself(m, c, cmd);
    } else if cmd.Reads() {
      Look(m, c, cmd);
    } else if cmd.Create? || cmd.Update? {
      HandIn(m, c, cmd);
    } else if cmd.CreateArea? || cmd.UpdateArea? {
      HandInArea(m, c, cmd);
    } else if cmd.Enter? || cmd.Exit? {
      PassGate(m, c, cmd);
    } else {
      Cancel(m, c, cmd);
    }
  }

  /** The values of the caller's objects when a command is given. */
  datatype Shown = Shown(auths: seq<Authorization>, areas: seq<Area>)

  /** The state is one the commands alone lead to, with objects of those values handed in. */
  ghost predicate LeadsTo(s: State, script: seq<Command>, shown: seq<Shown>, s': State)
    decreases |script|
  {
    if script == [] then s' == s
    else
      && shown != []
      && exists mid ::
           Does(s, script[0], shown[0].auths, shown[0].areas, mid) && LeadsTo(mid, script[1..], shown[1..], s')
  }

  /**
   * Over any script in which the caller changes any object it has ever held, at any point and to anything, hands it in
   * again or keeps what it gets back: the store does what the calls say and shares no object with the caller.
   */
  method Drive(m: Store, c: Caller, script: seq<Command>) returns (ghost shown: seq<Shown>)
    requires Apart(m, c)
    modifies m.Repr, c, c.held
    ensures Apart(m, c) && fresh(m.Repr - old(m.Repr)) && old(c.held) <= c.held && fresh(c.held - old(c.held))
    ensures LeadsTo(old(m.View), script, shown, m.View)
    ensures |shown| == |script| && (script != [] ==> shown[0] == Shown(old(c.AuthValues()), old(c.AreaValues())))
    decreases |script|
  {
    hide Does, Caller.AuthValues, Caller.AreaValues, Store.Valid;
    shown := [];
    if script != [] {
      ghost var now := Shown(c.AuthValues(), c.AreaValues());
      Perform(m, c, script[0]);
      ghost var later := Drive(m, c, script[1..]);
      shown := [now] + later;
      assert shown[1..] == later;
    }
  }
}
