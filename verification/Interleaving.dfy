/**
 * Concurrent service calls as interleaved atomic store steps.
 * Each store method holds the mutex from start to end, so it is one step. An update is two steps, a fetch and a
 * commit, and every successful call ends with one more step that writes its journal entry.
 */
module Interleaving {
  import opened Model
  import opened ServiceSpec
  import StoreSpec

  type Tid = nat

  /** Where a call in progress stands. */
  datatype Phase =
    | Updating(fetched: Authorization, req: UpdateRequest)
    | Owing(entry: Entry)

  /** The store, the calls in progress, and the latest clock reading any step has used so far. */
  datatype Sys = Sys(store: State, calls: map<Tid, Phase>, clock: Time)

  const INITIAL := Sys(EMPTY, map[], ZERO_TIME)

  datatype Label =
    | Create(t: Tid, create: CreateRequest, id: Id, now: Time)
    | Enter(t: Tid, id: Id, now: Time, recId: Id)
    | Exit(t: Tid, id: Id, now: Time, operator: string, note: string, found: Option<Id>)
    | Revoke(t: Tid, id: Id, now: Time, operator: string)
    | Archive(t: Tid, id: Id, now: Time)
    | Fetch(t: Tid, id: Id, update: UpdateRequest)
    | Commit(t: Tid, now: Time)
    | WriteLog(t: Tid, logId: Id, at: Time)
      // Everything the rest of the service may do to residents, areas and the journal
    | SetResident(resident: Resident)
    | SetArea(area: Area)
    | OtherLog(log: AuditLog)
  {
    /** A step that may change an authorization or a record. */
    predicate Mutates() {
      Create? || Enter? || Exit? || Revoke? || Archive? || Commit?
    }
  }

  predicate Tracked(a: Action) {
    a == AuthCreate || a == AuthArchive || a == AuthRevoke || a == EntryRecord || a == ExitRecord
  }

  /**
   * The steps the program can take. New ids are fresh, a search of the records finds what it may find, and a step
   * of a call happens only where that call stands.
   */
  predicate Enabled(x: Sys, l: Label) {
    match l
    case Create(t, _, id, _) => t !in x.calls && id !in x.store.auths
    case Enter(t, _, _, recId) => t !in x.calls && recId !in x.store.records
    case Exit(t, id, _, _, _, found) => t !in x.calls && StoreSpec.ScanFinds(x.store, id, found)
    case Revoke(t, _, _, _) => t !in x.calls
    case Archive(t, _, _) => t !in x.calls
    case Fetch(t, _, _) => t !in x.calls
    case Commit(t, _) => t in x.calls && x.calls[t].Updating?
    case WriteLog(t, logId, _) => t in x.calls && x.calls[t].Owing? && logId !in x.store.logs
    case SetResident(_) => true
    case SetArea(_) => true
    case OtherLog(log) => log.id !in x.store.logs && !Tracked(log.action)
  }

  /** What the store answers to a mutating step: an error, or the new state and the journal entry the call now owes. */
  function Attempt(lock: Lock, x: Sys, l: Label): Result<(State, Entry)>
    requires l.Mutates() && Enabled(x, l)
  {
    match l
    case Create(_, req, id, now) =>
      (match CreateAuthorization(x.store, req, id, now)
       case Err(e) => Err(e)
       case Ok((s, a)) => Ok((s, Created(a))))
    case Enter(_, id, now, recId) =>
      (match StoreSpec.EnterVehicle(x.store, id, now, recId)
       case Err(e) => Err(e)
       case Ok((s, rec)) => Ok((s, EnteredBy(rec))))
    case Exit(_, id, now, operator, note, found) =>
      (match StoreSpec.ExitVehicle(x.store, id, now, TrimSpace(operator), note, found)
       case Err(e) => Err(e)
       case Ok((s, rec)) => Ok((s, ExitedBy(rec, operator))))
    case Revoke(_, id, now, operator) =>
      (match StoreSpec.RevokeAuthorization(x.store, id, now)
       case Err(e) => Err(e)
       case Ok((s, _)) => Ok((s, Revoked(id, operator))))
    case Archive(_, id, now) =>
      (match StoreSpec.ArchiveAuthorization(x.store, id, now)
       case Err(e) => Err(e)
       case Ok(s) => Ok((s, Archived(id))))
    case Commit(t, now) =>
      (match CommitUpdate(lock, x.store, x.calls[t].fetched, x.calls[t].req, now)
       case Err(e) => Err(e)
       case Ok((s, row)) => Ok((s, Updated(row.id))))
  }

  predicate Succeeds(lock: Lock, x: Sys, l: Label) {
    l.Mutates() && Enabled(x, l) && Attempt(lock, x, l).Ok?
  }

  function Reading(l: Label): Option<Time> {
    if l.Mutates() then Some(l.now) else if l.WriteLog? then Some(l.at) else None
  }

  function Tick(x: Sys, l: Label): Sys {
    match Reading(l)
    case Some(now) => if x.clock < now then x.(clock := now) else x
    case None => x
  }

  function Next(lock: Lock, x: Sys, l: Label): Sys
    requires Enabled(x, l)
  {
    var y := Tick(x, l);
    if l.Mutates() then
      match Attempt(lock, x, l)
      case Err(_) => y.(calls := y.calls - {l.t})
      case Ok((s, entry)) => y.(store := s, calls := y.calls[l.t := Owing(entry)])
    else
      match l
      case Fetch(t, id, req) =>
        (match StoreSpec.GetAuthorization(x.store, id)
         case Err(_) => y
         case Ok(a) => y.(calls := y.calls[t := Updating(a, req)]))
      case WriteLog(t, logId, at) =>
        y.(store := Logged(x.store, x.calls[t].entry, logId, at), calls := y.calls - {t})
      case SetResident(r) => y.(store := x.store.(residents := x.store.residents[r.id := r]))
      case SetArea(a) => y.(store := x.store.(areas := x.store.areas[a.id := a]))
      case OtherLog(log) => y.(store := StoreSpec.CreateAuditLog(x.store, log))
  }

  // ---- What one step does to one row

  /** The step turns row a of authorization k into row b. */
  ghost predicate Rewrites(lock: Lock, x: Sys, l: Label, k: Id, a: Authorization, b: Authorization) {
    && Succeeds(lock, x, l)
    && a.archivedAt.None?
    && match l
       case Enter(_, id, now, _) =>
         id == k && a.status == Pending && a.start <= now < a.end && b == a.(status := Active, updatedAt := now)
       case Exit(_, id, now, _, _, _) => id == k && a.status == Active && b == a.(status := Completed, updatedAt := now)
       case Revoke(_, id, now, _) => id == k && a.status == Pending && b == a.(status := Cancelled, updatedAt := now)
       case Archive(_, id, now) => id == k && b == a.(archivedAt := Some(now), updatedAt := now)
       case Commit(t, now) =>
         && x.calls[t].fetched.id == k
         && Prepared(x.calls[t].fetched, x.calls[t].req, now) == Ok(b)
         && a.updatedAt == (if lock.Meant? then x.calls[t].req.updatedAt else now)
       case _ => false
  }

  lemma RowMutation(lock: Lock, x: Sys, l: Label, k: Id)
    requires Succeeds(lock, x, l)
    ensures var s, s' := x.store, Attempt(lock, x, l).value.0;
            if k in s.auths
            then k in s'.auths && (s'.auths[k] == s.auths[k] || Rewrites(lock, x, l, k, s.auths[k], s'.auths[k]))
            else k in s'.auths
                 ==> l.Create? && l.id == k && Requested(l.create, k, l.now) == Ok(s'.auths[k])
                     && !StoreSpec.Clashes(s, s'.auths[k])
  {
    hide StoreSpec.Clashes, StoreSpec.Occupants, CheckWindow;
  }

  lemma StoreAfter(lock: Lock, x: Sys, l: Label)
    requires Enabled(x, l)
    ensures Succeeds(lock, x, l) ==> Next(lock, x, l).store == Attempt(lock, x, l).value.0
    ensures !Succeeds(lock, x, l) ==>
            Next(lock, x, l).store.auths == x.store.auths && Next(lock, x, l).store.records == x.store.records
  {
    hide Attempt;
  }

  /** A row appears by a creation, and changes only by one of the five rewrites. */
  lemma RowStep(lock: Lock, x: Sys, l: Label, k: Id)
    requires Enabled(x, l)
    ensures var s, s' := x.store, Next(lock, x, l).store;
            if k in s.auths
            then k in s'.auths && (s'.auths[k] == s.auths[k] || Rewrites(lock, x, l, k, s.auths[k], s'.auths[k]))
            else k in s'.auths
                 ==> l.Create? && l.id == k && Succeeds(lock, x, l) && Requested(l.create, k, l.now) == Ok(s'.auths[k])
                     && !StoreSpec.Clashes(s, s'.auths[k])
  {
    StoreAfter(lock, x, l);
    if Succeeds(lock, x, l) {
      RowMutation(lock, x, l, k);
    }
    hide Next, Attempt, Rewrites;
  }

  /** A successful step on a row does rewrite it. */
  lemma OwnRowStep(lock: Lock, x: Sys, l: Label)
    requires Succeeds(lock, x, l) && (l.Enter? || l.Exit? || l.Revoke? || l.Archive?)
    ensures l.id in x.store.auths && l.id in Next(lock, x, l).store.auths
    ensures Rewrites(lock, x, l, l.id, x.store.auths[l.id], Next(lock, x, l).store.auths[l.id])
  {
  }

  lemma RecordMutation(lock: Lock, x: Sys, l: Label, r: Id)
    requires Succeeds(lock, x, l)
    ensures var s, s' := x.store, Attempt(lock, x, l).value.0;
            if r in s.records
            then r in s'.records
                 && (s'.records[r] == s.records[r]
                     || (l.Exit? && l.found == Some(r) && s.records[r].status == Entered
                         && s'.records[r] == StoreSpec.Closed(s.records[r], l.now, TrimSpace(l.operator), l.note)))
            else r in s'.records
                 ==> l.Enter? && l.recId == r && l.id in s.auths && s.auths[l.id].start <= l.now < s.auths[l.id].end
                     && s'.records[r] == StoreSpec.NewRecord(l.id, s.auths[l.id], r, l.now)
  {
    hide Prepared, Requested, StoreSpec.Clashes, StoreSpec.Occupants;
  }

  /** A record appears by an entry, and changes only by the exit that closes it. */
  lemma RecordStep(lock: Lock, x: Sys, l: Label, r: Id)
    requires Enabled(x, l)
    ensures var s, s' := x.store, Next(lock, x, l).store;
            if r in s.records
            then r in s'.records
                 && (s'.records[r] == s.records[r]
                     || (l.Exit? && l.found == Some(r) && s.records[r].status == Entered && Succeeds(lock, x, l)
                         && s'.records[r] == StoreSpec.Closed(s.records[r], l.now, TrimSpace(l.operator), l.note)))
            else r in s'.records
                 ==> l.Enter? && l.recId == r && l.id in s.auths && Succeeds(lock, x, l)
                     && s.auths[l.id].start <= l.now < s.auths[l.id].end
                     && s'.records[r] == StoreSpec.NewRecord(l.id, s.auths[l.id], r, l.now)
  {
    StoreAfter(lock, x, l);
    if Succeeds(lock, x, l) {
      RecordMutation(lock, x, l, r);
    }
    hide Next, Attempt;
  }

  /** A call between fetch and commit has fetched its row earlier, or right now. */
  lemma CallStep(lock: Lock, x: Sys, l: Label, t: Tid)
    requires Enabled(x, l) && t in Next(lock, x, l).calls && Next(lock, x, l).calls[t].Updating?
    ensures (t in x.calls && Next(lock, x, l).calls[t] == x.calls[t])
            || (l.Fetch? && l.id in x.store.auths && Next(lock, x, l).calls[t].fetched == x.store.auths[l.id]
                && Next(lock, x, l).store == x.store)
  {
  }

  // ---- Runs

  predicate Run(lock: Lock, x: Sys, ls: seq<Label>)
    decreases |ls|
  {
    ls == [] || (Enabled(x, ls[0]) && Run(lock, Next(lock, x, ls[0]), ls[1..]))
  }

  function Final(lock: Lock, x: Sys, ls: seq<Label>): Sys
    requires Run(lock, x, ls)
    decreases |ls|
  {
    if ls == [] then x else Final(lock, Next(lock, x, ls[0]), ls[1..])
  }

  /** Every step of the run meets a side condition. */
  ghost predicate Along(lock: Lock, x: Sys, ls: seq<Label>, ok: (Sys, Label) -> bool)
    requires Run(lock, x, ls)
    decreases |ls|
  {
    ls == [] || (ok(x, ls[0]) && Along(lock, Next(lock, x, ls[0]), ls[1..], ok))
  }

  lemma RunCons(lock: Lock, x: Sys, l: Label, ls: seq<Label>, ok: (Sys, Label) -> bool)
    requires Enabled(x, l) && Run(lock, Next(lock, x, l), ls)
    ensures Run(lock, x, [l] + ls) && Final(lock, x, [l] + ls) == Final(lock, Next(lock, x, l), ls)
    ensures Along(lock, x, [l] + ls, ok) <==> ok(x, l) && Along(lock, Next(lock, x, l), ls, ok)
  {
    assert ([l] + ls)[1..] == ls;
    hide Next, Enabled;
  }

  /** One run after another is a run. */
  lemma {:induction false} RunConcat(lock: Lock, x: Sys, ls: seq<Label>, ms: seq<Label>, ok: (Sys, Label) -> bool)
    requires Run(lock, x, ls) && Run(lock, Final(lock, x, ls), ms)
    ensures Run(lock, x, ls + ms) && Final(lock, x, ls + ms) == Final(lock, Final(lock, x, ls), ms)
    ensures Along(lock, x, ls + ms, ok) <==> Along(lock, x, ls, ok) && Along(lock, Final(lock, x, ls), ms, ok)
    decreases |ls|
  {
    hide Next, Enabled;
    if ls == [] {
      assert ls + ms == ms;
    } else {
      RunConcat(lock, Next(lock, x, ls[0]), ls[1..], ms, ok);
      assert (ls + ms)[1..] == ls[1..] + ms;
    }
  }

  /** The step reads a clock that is not behind the readings already used. */
  predicate InClockOrder(x: Sys, l: Label) {
    Reading(l).Some? ==> x.clock <= Reading(l).value
  }

  /** An update that commits replaces a row that is still pending. */
  predicate OverPending(lock: Lock, x: Sys, l: Label) {
    l.Commit? && Succeeds(lock, x, l) ==>
      var id := x.calls[l.t].fetched.id;
      id in x.store.auths && x.store.auths[id].status == Pending
  }

  lemma {:induction false} AlongAny(lock: Lock, x: Sys, ls: seq<Label>)
    requires Run(lock, x, ls)
    ensures Along(lock, x, ls, (y, l) => true)
    decreases |ls|
  {
    if ls != [] {
      AlongAny(lock, Next(lock, x, ls[0]), ls[1..]);
    }
  }

  /** What holds at the start and is kept by every step holds at the end. */
  lemma {:induction false} Invariance(lock: Lock, x: Sys, ls: seq<Label>, inv: Sys -> bool, ok: (Sys, Label) -> bool)
    requires Run(lock, x, ls) && Along(lock, x, ls, ok) && inv(x)
    requires forall y, l :: inv(y) && ok(y, l) && Enabled(y, l) ==> inv(Next(lock, y, l))
    ensures inv(Final(lock, x, ls))
    decreases |ls|
  {
    if ls != [] {
      Invariance(lock, Next(lock, x, ls[0]), ls[1..], inv, ok);
    }
  }

  /**
   * On runs that meet a hypothesis, two side conditions that agree wherever an invariant holds, and keep it, agree
   * along the run.
   */
  lemma {:induction false} AlongIffGiven(
      lock: Lock, x: Sys, ls: seq<Label>, inv: Sys -> bool,
      given: (Sys, Label) -> bool, p: (Sys, Label) -> bool, q: (Sys, Label) -> bool)
    requires Run(lock, x, ls) && Along(lock, x, ls, given) && inv(x)
    requires forall y, l :: inv(y) && Enabled(y, l) && given(y, l) ==> (p(y, l) <==> q(y, l))
    requires forall y, l :: inv(y) && Enabled(y, l) && given(y, l) && p(y, l) ==> inv(Next(lock, y, l))
    ensures Along(lock, x, ls, p) <==> Along(lock, x, ls, q)
    decreases |ls|
  {
    if ls != [] && p(x, ls[0]) {
      AlongIffGiven(lock, Next(lock, x, ls[0]), ls[1..], inv, given, p, q);
    }
  }

  /** The same on all runs. */
  lemma AlongIff(lock: Lock, x: Sys, ls: seq<Label>, inv: Sys -> bool, p: (Sys, Label) -> bool, q: (Sys, Label) -> bool)
    requires Run(lock, x, ls) && inv(x)
    requires forall y, l :: inv(y) && Enabled(y, l) ==> (p(y, l) <==> q(y, l))
    requires forall y, l :: inv(y) && Enabled(y, l) && p(y, l) ==> inv(Next(lock, y, l))
    ensures Along(lock, x, ls, p) <==> Along(lock, x, ls, q)
  {
    AlongAny(lock, x, ls);
    AlongIffGiven(lock, x, ls, inv, (y, l) => true, p, q);
  }

  /** A side condition that follows from two others. */
  lemma {:induction false} AlongBoth(
      lock: Lock, x: Sys, ls: seq<Label>, p: (Sys, Label) -> bool, q: (Sys, Label) -> bool, both: (Sys, Label) -> bool)
    requires Run(lock, x, ls) && Along(lock, x, ls, p) && Along(lock, x, ls, q)
    requires forall y, l :: p(y, l) && q(y, l) ==> both(y, l)
    ensures Along(lock, x, ls, both)
    decreases |ls|
  {
    if ls != [] {
      AlongBoth(lock, Next(lock, x, ls[0]), ls[1..], p, q, both);
    }
  }
}
