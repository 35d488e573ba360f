/** The life of one authorization and of one record along a whole run. */
module History {
  import opened Model
  import opened ServiceSpec
  import opened Interleaving
  import opened Lifecycle

  /** The stored statuses of an authorization in the states of a run, repeats left out. */
  function Statuses(lock: Lock, x: Sys, ls: seq<Label>, id: Id): seq<AuthStatus>
    requires Run(lock, x, ls)
    decreases |ls|
  {
    var later := if ls == [] then [] else Statuses(lock, Next(lock, x, ls[0]), ls[1..], id);
    if id !in x.store.auths then later
    else if later != [] && later[0] == x.store.auths[id].status then later
    else [x.store.auths[id].status] + later
  }

  /** The status sequence from a status on runs along one of the two arrows of the state machine. */
  predicate OnTrack(history: seq<AuthStatus>, from: AuthStatus) {
    match from
    case Pending => history <= [Pending, Active, Completed] || history <= [Pending, Cancelled]
    case Active => history <= [Active, Completed]
    case Completed => history <= [Completed]
    case Cancelled => history <= [Cancelled]
    case _ => false
  }

  predicate Edge(from: AuthStatus, to: AuthStatus) {
    from == to || (from == Pending && (to == Active || to == Cancelled)) || (from == Active && to == Completed)
  }

  /** Every authorization keeps its status or moves along an arrow, and new ones are pending. */
  ghost predicate FollowsEdges(lock: Lock, x: Sys, l: Label) {
    && Enabled(x, l)
    && var y := Next(lock, x, l);
       && (forall k | k in x.store.auths ::
          k in y.store.auths && Edge(x.store.auths[k].status, y.store.auths[k].status))
       && (forall k | k in y.store.auths && k !in x.store.auths :: y.store.auths[k].status == Pending)
  }

  predicate EntersWith(lock: Lock, x: Sys, l: Label, id: Id) {
    l.Enter? && l.id == id && Succeeds(lock, x, l)
  }

  predicate ExitsWith(lock: Lock, x: Sys, l: Label, id: Id) {
    l.Exit? && l.id == id && Succeeds(lock, x, l)
  }

  /** How a step can change a status: entry, exit and revocation each in their own way, and a commit back to pending. */
  ghost predicate StatusMoves(lock: Lock, x: Sys, l: Label, id: Id, from: AuthStatus, to: AuthStatus) {
    || from == to
    || (EntersWith(lock, x, l, id) && from == Pending && to == Active)
    || (ExitsWith(lock, x, l, id) && from == Active && to == Completed)
    || (l.Revoke? && from == Pending && to == Cancelled)
    || (l.Commit? && Succeeds(lock, x, l) && x.calls[l.t].fetched.id == id && to == Pending)
  }

  lemma StatusStep(lock: Lock, x: Sys, l: Label, id: Id)
    requires Enabled(x, l)
    ensures var y := Next(lock, x, l);
            if id in x.store.auths
            then id in y.store.auths && StatusMoves(lock, x, l, id, x.store.auths[id].status, y.store.auths[id].status)
            else id in y.store.auths ==> y.store.auths[id].status == Pending
  {
    RowStep(lock, x, l, id);
    hide Next, Attempt, CheckWindow;
  }

  lemma StepFollowsEdge(lock: Lock, x: Sys, l: Label, id: Id)
    requires Enabled(x, l) && OverPending(lock, x, l)
    ensures var y := Next(lock, x, l);
            if id in x.store.auths then id in y.store.auths && Edge(x.store.auths[id].status, y.store.auths[id].status)
            else id in y.store.auths ==> y.store.auths[id].status == Pending
  {
    StatusStep(lock, x, l, id);
    hide Next, Succeeds, Enabled;
  }

  /** A commit leaves a pending row behind. */
  lemma CommitLeavesPending(lock: Lock, x: Sys, l: Label)
    requires l.Commit? && Succeeds(lock, x, l)
    ensures var id := x.calls[l.t].fetched.id;
            id in x.store.auths && id in Next(lock, x, l).store.auths
            && Next(lock, x, l).store.auths[id].status == Pending
  {
    hide CheckWindow;
  }

  /** A step follows the state machine exactly if it is not an update that replaces a row that has left pending. */
  lemma FollowsEdgesIff(lock: Lock, x: Sys, l: Label)
    requires Enabled(x, l)
    ensures FollowsEdges(lock, x, l) <==> OverPending(lock, x, l)
  {
    if OverPending(lock, x, l) {
      hide Next, OverPending, Edge;
      forall id ensures
        var y := Next(lock, x, l);
        if id in x.store.auths then id in y.store.auths && Edge(x.store.auths[id].status, y.store.auths[id].status)
        else id in y.store.auths ==> y.store.auths[id].status == Pending
      {
        StepFollowsEdge(lock, x, l, id);
      }
    } else {
      CommitLeavesPending(lock, x, l);
      hide Next, Succeeds;
      assert !Edge(x.store.auths[x.calls[l.t].fetched.id].status, Pending);
    }
  }

  /** Under any interleaving: every step follows the state machine exactly when every update replaces a pending row. */
  lemma FollowsEdgesThroughoutIff(lock: Lock, x: Sys, ls: seq<Label>)
    requires Run(lock, x, ls)
    ensures Along(lock, x, ls, (y, l) => FollowsEdges(lock, y, l))
            <==> Along(lock, x, ls, (y, l) => OverPending(lock, y, l))
  {
    var p, q := (y, l) => FollowsEdges(lock, y, l), (y, l) => OverPending(lock, y, l);
    forall y, l | Enabled(y, l) ensures p(y, l) <==> q(y, l) {
      FollowsEdgesIff(lock, y, l);
    }
    AlongIff(lock, x, ls, (y: Sys) => true, p, q);
  }

  lemma TrackCons(from: AuthStatus, later: seq<AuthStatus>)
    requires later != [] && Edge(from, later[0]) && OnTrack(later, later[0])
    ensures OnTrack(if later[0] == from then later else [from] + later, from)
  {
  }

  /** From the first time it is stored, an authorization only moves along the arrows, one at a time. */
  lemma {:induction false} StatusesOnTrack(lock: Lock, x: Sys, ls: seq<Label>, id: Id)
    requires Consistent(x) && Run(lock, x, ls) && Along(lock, x, ls, (y, l) => OverPending(lock, y, l))
    ensures var h := Statuses(lock, x, ls, id);
            if id in x.store.auths
              then h != [] && h[0] == x.store.auths[id].status && OnTrack(h, x.store.auths[id].status)
            else h == [] || OnTrack(h, Pending)
    decreases |ls|
  {
    if ls != [] {
      StepFollowsEdge(lock, x, ls[0], id);
      StepKeepsConsistent(lock, x, ls[0]);
      hide Next, Consistent, OverPending, OnTrack, Edge;
      StatusesOnTrack(lock, Next(lock, x, ls[0]), ls[1..], id);
      if id in x.store.auths {
        TrackCons(x.store.auths[id].status, Statuses(lock, Next(lock, x, ls[0]), ls[1..], id));
      }
    } else if id in x.store.auths {
      assert Corresponds(x.store);
    }
  }

  /** How many steps of a run meet a condition. */
  ghost function Count(lock: Lock, x: Sys, ls: seq<Label>, hit: (Sys, Label) -> bool): nat
    requires Run(lock, x, ls)
    decreases |ls|
  {
    if ls == [] then 0
    else (if hit(x, ls[0]) then 1 else 0) + Count(lock, Next(lock, x, ls[0]), ls[1..], hit)
  }

  function EntriesSoFar(s: State, id: Id): nat {
    if id in s.auths && (s.auths[id].status == Active || s.auths[id].status == Completed) then 1 else 0
  }

  function ExitsSoFar(s: State, id: Id): nat {
    if id in s.auths && s.auths[id].status == Completed then 1 else 0
  }

  lemma StepCountsEntries(lock: Lock, x: Sys, l: Label, id: Id)
    requires Enabled(x, l) && OverUnused(lock, x, l)
    ensures EntriesSoFar(x.store, id) + (if EntersWith(lock, x, l, id) then 1 else 0)
            == EntriesSoFar(Next(lock, x, l).store, id)
  {
    StatusStep(lock, x, l, id);
    if EntersWith(lock, x, l, id) {
      OwnRowStep(lock, x, l);
    }
    hide Next, Succeeds, Enabled, Prepared;
  }

  lemma StepCountsExits(lock: Lock, x: Sys, l: Label, id: Id)
    requires Enabled(x, l) && OverUnused(lock, x, l)
    ensures ExitsSoFar(x.store, id) + (if ExitsWith(lock, x, l, id) then 1 else 0)
            == ExitsSoFar(Next(lock, x, l).store, id)
  {
    StatusStep(lock, x, l, id);
    if ExitsWith(lock, x, l, id) {
      OwnRowStep(lock, x, l);
    }
    hide Next, Succeeds, Enabled, Prepared;
  }

  /** An authorization is entered and exited at most once, and its status says exactly which has happened. */
  lemma {:induction false} EntryAndExitCounts(lock: Lock, x: Sys, ls: seq<Label>, id: Id)
    requires Run(lock, x, ls) && Along(lock, x, ls, (y, l) => OverUnused(lock, y, l))
    ensures EntriesSoFar(x.store, id) + Count(lock, x, ls, (y, l) => EntersWith(lock, y, l, id))
            == EntriesSoFar(Final(lock, x, ls).store, id)
    ensures ExitsSoFar(x.store, id) + Count(lock, x, ls, (y, l) => ExitsWith(lock, y, l, id))
            == ExitsSoFar(Final(lock, x, ls).store, id)
    decreases |ls|
  {
    if ls != [] {
      StepCountsEntries(lock, x, ls[0], id);
      StepCountsExits(lock, x, ls[0], id);
      hide Next, OverUnused, EntersWith, ExitsWith;
      EntryAndExitCounts(lock, Next(lock, x, ls[0]), ls[1..], id);
    }
  }

  /** What a record keeps for ever. */
  predicate SameVisit(a: Record, b: Record) {
    a.id == b.id && a.authId == b.authId && a.plate == b.plate && a.areaId == b.areaId && a.entryTime == b.entryTime
    && a.createdAt == b.createdAt && (a.status != Entered ==> a == b)
  }

  lemma StepKeepsRecord(lock: Lock, x: Sys, l: Label, r: Id)
    requires Enabled(x, l) && r in x.store.records
    ensures r in Next(lock, x, l).store.records && SameVisit(x.store.records[r], Next(lock, x, l).store.records[r])
  {
    RecordStep(lock, x, l, r);
    hide Next, Succeeds;
  }

  /** No record disappears, none changes who, where and when it entered, and a closed one never changes again. */
  lemma {:induction false} RecordsArePermanent(lock: Lock, x: Sys, ls: seq<Label>, r: Id)
    requires Run(lock, x, ls) && r in x.store.records
    ensures r in Final(lock, x, ls).store.records
    ensures SameVisit(x.store.records[r], Final(lock, x, ls).store.records[r])
    decreases |ls|
  {
    if ls != [] {
      StepKeepsRecord(lock, x, ls[0], r);
      RecordsArePermanent(lock, Next(lock, x, ls[0]), ls[1..], r);
    }
  }

  lemma StepKeepsArchived(lock: Lock, x: Sys, l: Label, id: Id)
    requires Enabled(x, l) && id in x.store.auths && x.store.auths[id].archivedAt.Some?
    ensures id in Next(lock, x, l).store.auths && Next(lock, x, l).store.auths[id] == x.store.auths[id]
  {
    RowStep(lock, x, l, id);
    hide Next, Succeeds;
  }

  /** Archiving is final: under any interleaving and either lock, no later step changes any field of the row. */
  lemma {:induction false} ArchivingIsFinal(lock: Lock, x: Sys, ls: seq<Label>, id: Id)
    requires Run(lock, x, ls) && id in x.store.auths && x.store.auths[id].archivedAt.Some?
    ensures id in Final(lock, x, ls).store.auths
    ensures Final(lock, x, ls).store.auths[id] == x.store.auths[id]
    decreases |ls|
  {
    if ls != [] {
      StepKeepsArchived(lock, x, ls[0], id);
      ArchivingIsFinal(lock, Next(lock, x, ls[0]), ls[1..], id);
    }
  }
}
