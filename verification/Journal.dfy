/** The audit journal, written after the change it reports is committed. */
module Journal {
  import opened Model
  import opened ServiceSpec
  import opened Interleaving
  import opened Lifecycle
  import StoreSpec

  /** The reported change has happened to the entity. */
  predicate Happened(s: State, action: Action, entity: Id) {
    match action
    case AuthCreate => entity in s.auths
    case AuthArchive => entity in s.auths && s.auths[entity].archivedAt.Some?
    case AuthRevoke => entity in s.auths && s.auths[entity].status == Cancelled
    case EntryRecord => entity in s.records
    case ExitRecord => entity in s.records && s.records[entity].status == Exited
    case _ => false
  }

  predicate Reports(l: AuditLog, action: Action, entity: Id) {
    l.action == action && l.entityId == entity
  }

  predicate Owes(p: Phase, action: Action, entity: Id) {
    p.Owing? && p.entry.action == action && p.entry.entityId == entity
  }

  ghost predicate Reported(s: State, action: Action, entity: Id) {
    exists i | i in s.logs :: Reports(s.logs[i], action, entity)
  }

  ghost predicate Owed(x: Sys, action: Action, entity: Id) {
    exists t | t in x.calls :: Owes(x.calls[t], action, entity)
  }

  /** The actions whose entries are followed: all that are tracked, with or without revocations. */
  predicate Watched(action: Action, revokes: bool) {
    Tracked(action) && (revokes || action != AuthRevoke)
  }

  /** What is reported has happened. */
  ghost predicate Truthful(s: State, revokes: bool) {
    forall i | i in s.logs && Watched(s.logs[i].action, revokes) :: Happened(s, s.logs[i].action, s.logs[i].entityId)
  }

  /** Nothing is reported twice. */
  ghost predicate NotTwice(s: State, revokes: bool) {
    forall i, j | i in s.logs && j in s.logs && i != j && Watched(s.logs[i].action, revokes) ::
      !Reports(s.logs[j], s.logs[i].action, s.logs[i].entityId)
  }

  /** What a call owes has happened, is not reported, and is owed by no other call. */
  ghost predicate OwedOnce(x: Sys, revokes: bool) {
    forall t | t in x.calls && x.calls[t].Owing? && Watched(x.calls[t].entry.action, revokes) ::
      && Happened(x.store, x.calls[t].entry.action, x.calls[t].entry.entityId)
      && !Reported(x.store, x.calls[t].entry.action, x.calls[t].entry.entityId)
      && forall u | u in x.calls && u != t :: !Owes(x.calls[u], x.calls[t].entry.action, x.calls[t].entry.entityId)
  }

  /** What has happened is reported, or a call in progress still owes it. */
  ghost predicate NoneLost(x: Sys, revokes: bool) {
    forall action, entity | Watched(action, revokes) && Happened(x.store, action, entity) ::
      Reported(x.store, action, entity) || Owed(x, action, entity)
  }

  ghost predicate Kept(x: Sys, revokes: bool) {
    Truthful(x.store, revokes) && NotTwice(x.store, revokes) && OwedOnce(x, revokes) && NoneLost(x, revokes)
  }

  /** From s to s' the change has happened to the entity if it had before or if it is the owed one, which had not. */
  ghost predicate HappensOnce(s: State, s': State, entry: Entry, action: Action, entity: Id) {
    var owed := entry.action == action && entry.entityId == entity;
    && (Happened(s', action, entity) <==> Happened(s, action, entity) || owed)
    && (owed ==> !Happened(s, action, entity))
  }

  predicate OfRecord(action: Action) {
    action == EntryRecord || action == ExitRecord
  }

  lemma OwedEntry(lock: Lock, x: Sys, l: Label)
    requires Filed(x) && Succeeds(lock, x, l)
    ensures var entry := Attempt(lock, x, l).value.1;
            match l
            case Create(_, _, id, _) => entry.action == AuthCreate && entry.entityId == id
              && id in Attempt(lock, x, l).value.0.auths
            case Enter(_, _, _, recId) =>
              entry.action == EntryRecord && entry.entityId == recId && recId in Attempt(lock, x, l).value.0.records
              && Attempt(lock, x, l).value.0.records[recId].status == Entered
            case Exit(_, _, _, _, _, found) =>
              var s' := Attempt(lock, x, l).value.0;
              entry.action == ExitRecord && found.Some? && entry.entityId == found.value
              && found.value in x.store.records && x.store.records[found.value].status == Entered
              && found.value in s'.records && s'.records[found.value].status == Exited
            case Revoke(_, id, _, _) => entry.action == AuthRevoke && entry.entityId == id
            case Archive(_, id, _) => entry.action == AuthArchive && entry.entityId == id
            case Commit(_, _) => entry.action == AuthUpdate
            case _ => true
  {
    hide Prepared;
  }

  lemma RecordHappensOnce(lock: Lock, x: Sys, l: Label, action: Action, entity: Id)
    requires Filed(x) && Succeeds(lock, x, l) && OfRecord(action)
    ensures HappensOnce(x.store, Attempt(lock, x, l).value.0, Attempt(lock, x, l).value.1, action, entity)
  {
    RecordMutation(lock, x, l, entity);
    OwedEntry(lock, x, l);
    hide Attempt;
  }

  lemma NewRowHappensOnce(lock: Lock, x: Sys, l: Label, action: Action, entity: Id)
    requires Filed(x) && Succeeds(lock, x, l) && (l.Create? || l.Commit?) && Tracked(action) && !OfRecord(action)
    requires action == AuthRevoke ==> OverUncancelled(lock, x, l)
    ensures HappensOnce(x.store, Attempt(lock, x, l).value.0, Attempt(lock, x, l).value.1, action, entity)
  {
    hide CheckWindow, StoreSpec.Clashes;
  }

  lemma RowHappensOnce(lock: Lock, x: Sys, l: Label, action: Action, entity: Id)
    requires Filed(x) && Succeeds(lock, x, l) && !l.Create? && !l.Commit? && Tracked(action) && !OfRecord(action)
    ensures HappensOnce(x.store, Attempt(lock, x, l).value.0, Attempt(lock, x, l).value.1, action, entity)
  {
    StoreAfter(lock, x, l);
    RowStep(lock, x, l, entity);
    OwnRowStep(lock, x, l);
    OwedEntry(lock, x, l);
    hide Next, Attempt, Prepared;
    var s' := Attempt(lock, x, l).value.0;
    assert Happened(x.store, action, entity) ==> Happened(s', action, entity);
  }

  /**
   * A mutation makes exactly what it owes happen, for the first time, and undoes nothing. Only a revocation can be
   * undone, by an update that replaces the cancelled row.
   */
  lemma MutationHappensOnce(lock: Lock, x: Sys, l: Label, action: Action, entity: Id)
    requires Filed(x) && Succeeds(lock, x, l) && Tracked(action)
             && (action == AuthRevoke ==> OverUncancelled(lock, x, l))
    ensures HappensOnce(x.store, Attempt(lock, x, l).value.0, Attempt(lock, x, l).value.1, action, entity)
  {
    hide Attempt, HappensOnce;
    if OfRecord(action) {
      RecordHappensOnce(lock, x, l, action, entity);
    } else if l.Create? || l.Commit? {
      NewRowHappensOnce(lock, x, l, action, entity);
    } else {
      RowHappensOnce(lock, x, l, action, entity);
    }
  }

  lemma StepKeepsJournal(lock: Lock, x: Sys, l: Label, revokes: bool)
    requires Filed(x) && Kept(x, revokes) && Enabled(x, l) && (revokes ==> OverUncancelled(lock, x, l))
    ensures Kept(Next(lock, x, l), revokes)
  {
    hide Next, Attempt, Kept;
    if Succeeds(lock, x, l) {
      MutationKeepsJournal(lock, x, l, revokes);
    } else if l.WriteLog? {
      WritingPays(lock, x, l);
      PayingKeepsJournal(x, Next(lock, x, l), l.t, l.logId, revokes);
    } else {
      OthersIdle(lock, x, l);
      IdlingKeepsJournal(x, Next(lock, x, l), revokes);
    }
  }

  /** The entry is added to what is owed and to what has happened, where it was not before. */
  ghost predicate Adds(x: Sys, y: Sys, t: Tid, entry: Entry, revokes: bool) {
    && y.store.logs == x.store.logs
    && y.calls == x.calls[t := Owing(entry)]
    && (t in x.calls ==> x.calls[t].Updating?)
    && forall action, entity | Watched(action, revokes) :: HappensOnce(x.store, y.store, entry, action, entity)
  }

  lemma AddingKeepsJournal(x: Sys, y: Sys, t: Tid, entry: Entry, revokes: bool)
    requires Kept(x, revokes) && Adds(x, y, t, entry, revokes)
    ensures Kept(y, revokes)
  {
    hide Happened;
    forall action, entity | Watched(action, revokes)
      ensures Happened(y.store, action, entity)
              <==> Happened(x.store, action, entity) || (entry.action == action && entry.entityId == entity)
    {
      assert HappensOnce(x.store, y.store, entry, action, entity);
    }
    assert forall action, entity :: Reported(y.store, action, entity) <==> Reported(x.store, action, entity);
    assert NoneLost(y, revokes) by {
      forall action, entity | Watched(action, revokes) && Happened(y.store, action, entity)
        && !Reported(y.store, action, entity)
        ensures Owed(y, action, entity)
      {
        if entry.action == action && entry.entityId == entity {
          assert Owes(y.calls[t], action, entity);
        } else {
          var u :| u in x.calls && Owes(x.calls[u], action, entity);
          assert Owes(y.calls[u], action, entity);
        }
      }
    }
    if Watched(entry.action, revokes) {
      assert HappensOnce(x.store, y.store, entry, entry.action, entry.entityId);
      assert !Happened(x.store, entry.action, entry.entityId);
      assert !Reported(x.store, entry.action, entry.entityId);
    }
  }

  lemma MutationKeepsJournal(lock: Lock, x: Sys, l: Label, revokes: bool)
    requires Filed(x) && Kept(x, revokes) && Succeeds(lock, x, l) && (revokes ==> OverUncancelled(lock, x, l))
    ensures Kept(Next(lock, x, l), revokes)
  {
    var y := Next(lock, x, l);
    var (s', entry) := Attempt(lock, x, l).value;
    assert y.store == s' && y.calls == x.calls[l.t := Owing(entry)];
    assert s'.logs == x.store.logs;
    hide Next, Attempt;
    forall action, entity | Watched(action, revokes) ensures HappensOnce(x.store, y.store, entry, action, entity) {
      MutationHappensOnce(lock, x, l, action, entity);
    }
    AddingKeepsJournal(x, y, l.t, entry, revokes);
  }

  /** The call's entry is written and owed no more. */
  ghost predicate Pays(x: Sys, y: Sys, t: Tid, i: Id) {
    && t in x.calls && x.calls[t].Owing? && y.calls == x.calls - {t}
    && y.store.auths == x.store.auths && y.store.records == x.store.records
    && i !in x.store.logs && i in y.store.logs && y.store.logs == x.store.logs[i := y.store.logs[i]]
    && Reports(y.store.logs[i], x.calls[t].entry.action, x.calls[t].entry.entityId)
  }

  lemma PayingLosesNone(x: Sys, y: Sys, t: Tid, i: Id, revokes: bool)
    requires NoneLost(x, revokes) && Pays(x, y, t, i)
    ensures NoneLost(y, revokes)
  {
    assert forall action, entity :: Happened(y.store, action, entity) <==> Happened(x.store, action, entity);
    hide Happened;
    forall action, entity | Watched(action, revokes) && Happened(y.store, action, entity)
      ensures Reported(y.store, action, entity) || Owed(y, action, entity)
    {
      if j :| j in x.store.logs && Reports(x.store.logs[j], action, entity) {
        assert Reports(y.store.logs[j], action, entity);
      } else {
        var u :| u in x.calls && Owes(x.calls[u], action, entity);
        if u == t {
          assert Reports(y.store.logs[i], action, entity);
        } else {
          assert Owes(y.calls[u], action, entity);
        }
      }
    }
  }

  lemma PayingStaysTrue(x: Sys, y: Sys, t: Tid, i: Id, revokes: bool)
    requires Truthful(x.store, revokes) && NotTwice(x.store, revokes) && OwedOnce(x, revokes) && Pays(x, y, t, i)
    ensures Truthful(y.store, revokes) && NotTwice(y.store, revokes)
  {
    assert forall action, entity :: Happened(y.store, action, entity) <==> Happened(x.store, action, entity);
    hide Happened;
    assert forall j | j in y.store.logs && j != i :: j in x.store.logs && y.store.logs[j] == x.store.logs[j];
  }

  lemma PayingOwesOnce(x: Sys, y: Sys, t: Tid, i: Id, revokes: bool)
    requires OwedOnce(x, revokes) && Pays(x, y, t, i)
    ensures OwedOnce(y, revokes)
  {
    assert forall action, entity :: Happened(y.store, action, entity) <==> Happened(x.store, action, entity);
    hide Happened;
    assert forall j | j in y.store.logs && j != i :: j in x.store.logs && y.store.logs[j] == x.store.logs[j];
  }

  lemma PayingKeepsJournal(x: Sys, y: Sys, t: Tid, i: Id, revokes: bool)
    requires Kept(x, revokes) && Pays(x, y, t, i)
    ensures Kept(y, revokes)
  {
    hide Truthful, NotTwice, OwedOnce, NoneLost, Pays;
    PayingStaysTrue(x, y, t, i, revokes);
    PayingOwesOnce(x, y, t, i, revokes);
    PayingLosesNone(x, y, t, i, revokes);
  }

  /** Nothing happens, nothing is owed or paid, and only untracked entries join the journal. */
  ghost predicate Idles(x: Sys, y: Sys) {
    && y.store.auths == x.store.auths && y.store.records == x.store.records
    && (forall i | i in x.store.logs :: i in y.store.logs && y.store.logs[i] == x.store.logs[i])
    && (forall i | i in y.store.logs && i !in x.store.logs :: !Tracked(y.store.logs[i].action))
    && (forall t | t in x.calls && x.calls[t].Owing? :: t in y.calls && y.calls[t] == x.calls[t])
    && (forall t | t in y.calls && y.calls[t].Owing? :: t in x.calls && y.calls[t] == x.calls[t])
  }

  lemma OthersIdle(lock: Lock, x: Sys, l: Label)
    requires Enabled(x, l) && !Succeeds(lock, x, l) && !l.WriteLog?
    ensures Idles(x, Next(lock, x, l))
  {
    hide Attempt;
  }

  lemma WritingPays(lock: Lock, x: Sys, l: Label)
    requires l.WriteLog? && Enabled(x, l)
    ensures Pays(x, Next(lock, x, l), l.t, l.logId)
  {
  }

  lemma IdlingKeepsJournal(x: Sys, y: Sys, revokes: bool)
    requires Kept(x, revokes) && Idles(x, y)
    ensures Kept(y, revokes)
  {
    assert forall action, entity :: Happened(y.store, action, entity) <==> Happened(x.store, action, entity);
    hide Happened;
    forall action, entity | Watched(action, revokes) && Happened(y.store, action, entity)
      ensures Reported(y.store, action, entity) || Owed(y, action, entity)
    {
      if i :| i in x.store.logs && Reports(x.store.logs[i], action, entity) {
        assert Reports(y.store.logs[i], action, entity);
      } else {
        var t :| t in x.calls && Owes(x.calls[t], action, entity);
        assert Owes(y.calls[t], action, entity);
      }
    }
  }

  /**
   * However calls interleave, the journal never reports a creation, archiving, entry or exit that has not happened and
   * never reports it twice; what is missing is exactly what the calls in progress still owe. Revocations are kept in
   * the same way on runs whose updates replace no cancelled row.
   */
  lemma RunsKeepJournal(lock: Lock, x: Sys, ls: seq<Label>, revokes: bool)
    requires Filed(x) && Kept(x, revokes) && Run(lock, x, ls)
    requires revokes ==> Along(lock, x, ls, (y, l) => OverUncancelled(lock, y, l))
    ensures Kept(Final(lock, x, ls), revokes)
  {
    var any, uncancelled := (y: Sys, l: Label) => true, (y, l) => OverUncancelled(lock, y, l);
    var ok := (y, l) => revokes ==> OverUncancelled(lock, y, l);
    var inv := y => Filed(y) && Kept(y, revokes);
    AlongAny(lock, x, ls);
    if revokes {
      AlongBoth(lock, x, ls, uncancelled, uncancelled, ok);
    } else {
      AlongBoth(lock, x, ls, any, any, ok);
    }
    forall y, l | inv(y) && ok(y, l) && Enabled(y, l) ensures inv(Next(lock, y, l)) {
      StepKeepsFiled(lock, y, l);
      StepKeepsJournal(lock, y, l, revokes);
    }
    Invariance(lock, x, ls, inv, ok);
  }

  /** The row of a revocation made pending again: what is reported or owed has not happened any more. */
  lemma UndoingBreaksJournal(lock: Lock, x: Sys, l: Label)
    requires Filed(x) && Kept(x, true) && Enabled(x, l) && !OverUncancelled(lock, x, l)
    ensures !Kept(Next(lock, x, l), true)
  {
    var y, id := Next(lock, x, l), x.calls[l.t].fetched.id;
    assert y.store.logs == x.store.logs && forall t | t in x.calls && t != l.t ::
           t in y.calls && y.calls[t] == x.calls[t];
    assert Happened(x.store, AuthRevoke, id) && !Happened(y.store, AuthRevoke, id);
    hide Next, Succeeds, Happened;
    if i :| i in x.store.logs && Reports(x.store.logs[i], AuthRevoke, id) {
      assert !Truthful(y.store, true);
    } else {
      var t :| t in x.calls && Owes(x.calls[t], AuthRevoke, id);
      assert y.calls[t] == x.calls[t] && !OwedOnce(y, true);
    }
  }

  ghost predicate StaysKept(lock: Lock, x: Sys, l: Label) {
    Enabled(x, l) && Kept(Next(lock, x, l), true)
  }

  /**
   * Under any interleaving: the journal is kept, revocations included, after every step exactly when no update
   * replaces a cancelled row.
   */
  lemma KeptThroughoutIff(lock: Lock, x: Sys, ls: seq<Label>)
    requires Filed(x) && Kept(x, true) && Run(lock, x, ls)
    ensures Along(lock, x, ls, (y, l) => StaysKept(lock, y, l))
            <==> Along(lock, x, ls, (y, l) => OverUncancelled(lock, y, l))
  {
    var p, q := (y, l) => StaysKept(lock, y, l), (y, l) => OverUncancelled(lock, y, l);
    var inv := y => Filed(y) && Kept(y, true);
    forall y, l | inv(y) && Enabled(y, l) ensures (p(y, l) <==> q(y, l)) && (p(y, l) ==> inv(Next(lock, y, l))) {
      StepKeepsFiled(lock, y, l);
      if q(y, l) {
        StepKeepsJournal(lock, y, l, true);
      } else {
        UndoingBreaksJournal(lock, y, l);
      }
    }
    AlongIff(lock, x, ls, inv, p, q);
  }

  /**
   * Between calls the journal is exact: each change is reported, by exactly one entry. For revocations the updates of
   * the run must replace no cancelled row.
   */
  lemma ExactBetweenCalls(lock: Lock, ls: seq<Label>, action: Action, entity: Id)
    requires Run(lock, INITIAL, ls) && Final(lock, INITIAL, ls).calls == map[] && Tracked(action)
    requires action == AuthRevoke ==> Along(lock, INITIAL, ls, (y, l) => OverUncancelled(lock, y, l))
    ensures var s := Final(lock, INITIAL, ls).store;
            Happened(s, action, entity)
            <==> exists i :: i in s.logs && Reports(s.logs[i], action, entity)
                             && forall j | j in s.logs && j != i :: !Reports(s.logs[j], action, entity)
  {
    RunsKeepJournal(lock, INITIAL, ls, action == AuthRevoke);
    var s := Final(lock, INITIAL, ls).store;
    if Happened(s, action, entity) {
      assert Reported(s, action, entity);
    }
  }
}
