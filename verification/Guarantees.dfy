/**
 * What holds from the empty store on. A guarded run is one whose updates are known to replace only pending rows: the
 * code as written with one call at a time, the code as written in any interleaving whose tokens are the clock readings,
 * or the meant lock in any interleaving whose commits stamp new times.
 */
module Guarantees {
  import opened Model
  import opened ServiceSpec
  import opened Interleaving
  import opened Lifecycle
  import opened History
  import opened Locking
  import Journal
  import Occupancy
  import Postgres
  import Windows

  /**
   * Every guarded run keeps the two objects in step, moves each authorization along the state machine with at most one
   * entry and one exit, and holds in each area exactly the active authorizations: its entries minus its exits.
   */
  lemma GuardedLifecycle(lock: Lock, ls: seq<Label>, id: Id, area: Id)
    requires Guarded(lock, ls)
    ensures var s := Final(lock, INITIAL, ls).store;
            var history := Statuses(lock, INITIAL, ls, id);
            && Corresponds(s)
            && (history <= [Pending, Active, AuthStatus.Completed] || history <= [Pending, Cancelled])
            && Count(lock, INITIAL, ls, (y, l) => EntersWith(lock, y, l, id)) == EntriesSoFar(s, id) <= 1
            && Count(lock, INITIAL, ls, (y, l) => ExitsWith(lock, y, l, id)) == ExitsSoFar(s, id) <= 1
            && |Occupancy.ActiveIn(s, area)|
               == Count(lock, INITIAL, ls, (y, l) => Occupancy.EntersArea(lock, y, l, area))
                  - Count(lock, INITIAL, ls, (y, l) => Occupancy.ExitsArea(lock, y, l, area))
  {
    GuardedReplacesPending(lock, ls);
    RunsCorrespond(lock, INITIAL, ls);
    StatusesOnTrack(lock, INITIAL, ls, id);
    EntryAndExitCounts(lock, INITIAL, ls, id);
    Occupancy.EntriesMinusExits(lock, INITIAL, ls, area);
    Occupancy.OccupantsAreActive(Final(lock, INITIAL, ls).store, area);
  }

  /** On every guarded run each car has come within the window of its authorization. */
  lemma GuardedEntries(lock: Lock, ls: seq<Label>)
    requires Guarded(lock, ls)
    ensures Windows.AllCameInWindow(Final(lock, INITIAL, ls).store)
  {
    GuardedReplacesPending(lock, ls);
    Windows.UnusedHoldsEntriesThroughout(lock, INITIAL, ls);
    Windows.RunsKeepEntriesInWindow(lock, INITIAL, ls);
  }

  /**
   * On every guarded run no plate is ever inside twice exactly when every entry finds no active authorization of its
   * plate; with readings in order and updates that ask for free windows, exactly when it finds none of those that is
   * past its end or archived.
   */
  lemma GuardedOncePerPlate(lock: Lock, ls: seq<Label>)
    requires Guarded(lock, ls)
    ensures Along(lock, INITIAL, ls, (y, l) => Windows.StaysOnce(lock, y, l))
            <==> Along(lock, INITIAL, ls, (y, l) => Windows.FindsNoneActive(lock, y, l))
    ensures Along(lock, INITIAL, ls, InClockOrder)
            && Along(lock, INITIAL, ls, (y, l) => Windows.FitsAmongOthers(lock, y, l))
            ==> (Along(lock, INITIAL, ls, (y, l) => Windows.StaysOnce(lock, y, l))
                 <==> Along(lock, INITIAL, ls, (y, l) => Windows.FindsNoneLeftOver(lock, y, l)))
  {
    GuardedReplacesPending(lock, ls);
    Windows.OnceThroughoutIffNoneActive(lock, INITIAL, ls);
    var unused, fits := (y, l) => OverUnused(lock, y, l), (y, l) => Windows.FitsAmongOthers(lock, y, l);
    if Along(lock, INITIAL, ls, InClockOrder) && Along(lock, INITIAL, ls, fits) {
      var both := (y, l) => OverUnused(lock, y, l) && Windows.FitsAmongOthers(lock, y, l);
      AlongBoth(lock, INITIAL, ls, unused, fits, both);
      AlongBoth(lock, INITIAL, ls, both, InClockOrder, (y, l) => Windows.KeepsTimes(lock, y, l));
      Windows.OnceThroughoutIffNoneLeftOver(lock, INITIAL, ls);
    }
  }

  /**
   * On those runs two cars of one plate are inside at once only if one of the two is past its window or had its
   * authorization archived.
   */
  lemma GuardedTwiceInside(lock: Lock, ls: seq<Label>, q: Id, r: Id)
    requires Guarded(lock, ls) && Along(lock, INITIAL, ls, InClockOrder)
    requires Along(lock, INITIAL, ls, (y, l) => Windows.FitsAmongOthers(lock, y, l))
    requires var s := Final(lock, INITIAL, ls).store;
             && q in s.records && r in s.records && q != r
             && s.records[q].status == Entered && s.records[r].status == Entered
             && s.records[q].plate == s.records[r].plate
    ensures var x := Final(lock, INITIAL, ls);
            var a, b := x.store.records[q].authId, x.store.records[r].authId;
            && a in x.store.auths && b in x.store.auths
            && (Windows.PastOrArchived(x.store.auths[a], x.clock) || Windows.PastOrArchived(x.store.auths[b], x.clock))
  {
    GuardedReplacesPending(lock, ls);
    RunsCorrespond(lock, INITIAL, ls);
    GuardedEntries(lock, ls);
    Windows.RunsKeepNoOverlap(lock, INITIAL, ls);
    Windows.RunsKeepOrder(lock, INITIAL, ls);
    var x := Final(lock, INITIAL, ls);
    assert InStep(x.store, q) && InStep(x.store, r);
    Windows.TwiceInsideMeansPastOrArchived(x, q, r);
  }

  /** Between the calls of a guarded run the journal reports each change, revocations included, by exactly one entry. */
  lemma GuardedJournal(lock: Lock, ls: seq<Label>, action: Action, entity: Id)
    requires Guarded(lock, ls) && Final(lock, INITIAL, ls).calls == map[] && Tracked(action)
    ensures var s := Final(lock, INITIAL, ls).store;
            Journal.Happened(s, action, entity)
            <==> exists i :: i in s.logs && Journal.Reports(s.logs[i], action, entity)
                             && forall j | j in s.logs && j != i :: !Journal.Reports(s.logs[j], action, entity)
  {
    GuardedReplacesPending(lock, ls);
    Journal.ExactBetweenCalls(lock, ls, action, entity);
  }

  /** A guarded run of the code as written, made against an empty database, leaves in its tables what the maps hold. */
  method GuardedReplay(ls: seq<Label>) returns (db: Postgres.Database, calls: map<Tid, Phase>)
    requires Guarded(AsWritten, ls) && Along(AsWritten, INITIAL, ls, Postgres.SchemaAllows)
    ensures db.Contents() == Final(AsWritten, INITIAL, ls).store && calls == Final(AsWritten, INITIAL, ls).calls
  {
    GuardedReplacesPending(AsWritten, ls);
    db := new Postgres.Database();
    calls := Postgres.Replay(db, map[], ls, INITIAL);
  }
}
