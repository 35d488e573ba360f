/** What the journal says of a change besides its action and entity: the kind of entity, who is named, and when. */
module Reports {
  import opened Model
  import opened ServiceSpec
  import opened Interleaving
  import opened Lifecycle
  import Journal

  /**
   * What the entry for a step must say: a creation names its creator, an entry the gate, an exit and a revocation the
   * operator as given, the rest the system, which also stands in for a missing name.
   */
  ghost predicate Says(x: Sys, l: Label, log: AuditLog) {
    match l
    case Create(_, req, id, _) =>
      (log.action, log.entityType, log.entityId) == (AuthCreate, "authorization", id) && Names(log, req.createdBy)
    case Enter(_, _, _, recId) =>
      (log.action, log.entityType, log.entityId, log.operator) == (EntryRecord, "record", recId, "gate")
    case Exit(_, _, _, operator, _, found) =>
      && found.Some? && (log.action, log.entityType, log.entityId) == (ExitRecord, "record", found.value)
      && Names(log, operator)
    case Revoke(_, id, _, operator) =>
      (log.action, log.entityType, log.entityId) == (AuthRevoke, "authorization", id) && Names(log, operator)
    case Archive(_, id, _) =>
      (log.action, log.entityType, log.entityId, log.operator) == (AuthArchive, "authorization", id, "system")
    case Commit(t, _) =>
      && t in x.calls && x.calls[t].Updating?
      && (log.action, log.entityType, log.entityId, log.operator)
         == (AuthUpdate, "authorization", x.calls[t].fetched.id, "system")
    case _ => false
  }

  predicate Names(log: AuditLog, operator: string) {
    log.operator == if operator == "" then "system" else operator
  }

  /** The entry a call owes, once written. */
  predicate Carries(entry: Entry, log: AuditLog) {
    (log.action, log.entityType, log.entityId) == (entry.action, entry.entityType, entry.entityId)
    && Names(log, entry.operator)
  }

  lemma OwedIsSaid(lock: Lock, x: Sys, l: Label, log: AuditLog)
    requires Filed(x) && Succeeds(lock, x, l)
    ensures Carries(Attempt(lock, x, l).value.1, log) <==> Says(x, l, log)
  {
    hide Prepared, Requested, FetchedFrom;
    if l.Create? {
      CreatedIsSaid(x.store, l.create, l.id, l.now, log);
    } else if l.Commit? {
      UpdatedIsSaid(lock, x.store, x.calls[l.t].fetched, x.calls[l.t].req, l.now);
    }
  }

  lemma CreatedIsSaid(s: State, req: CreateRequest, id: Id, now: Time, log: AuditLog)
    requires CreateAuthorization(s, req, id, now).Ok?
    ensures var a := CreateAuthorization(s, req, id, now).value.1;
            a.id == id && (Names(log, a.createdBy) <==> Names(log, req.createdBy))
  {
  }

  lemma UpdatedIsSaid(lock: Lock, s: State, fetched: Authorization, req: UpdateRequest, now: Time)
    requires CommitUpdate(lock, s, fetched, req, now).Ok?
    ensures CommitUpdate(lock, s, fetched, req, now).value.1.id == fetched.id
  {
  }

  /** What a step that succeeds leaves its call owing. */
  lemma StepOwes(lock: Lock, x: Sys, l: Label)
    requires Succeeds(lock, x, l)
    ensures var y := Next(lock, x, l);
            l.t in y.calls && y.calls[l.t] == Owing(Attempt(lock, x, l).value.1) && y.store.logs == x.store.logs
  {
  }

  /** An entry, once written, stays as it is. */
  lemma StepKeepsLog(lock: Lock, x: Sys, l: Label, i: Id)
    requires Enabled(x, l) && i in x.store.logs
    ensures i in Next(lock, x, l).store.logs && Next(lock, x, l).store.logs[i] == x.store.logs[i]
  {
    if Succeeds(lock, x, l) {
      StepOwes(lock, x, l);
    }
    hide Attempt;
  }

  lemma {:induction false} LogsArePermanent(lock: Lock, x: Sys, ls: seq<Label>, i: Id)
    requires Run(lock, x, ls) && i in x.store.logs
    ensures i in Final(lock, x, ls).store.logs && Final(lock, x, ls).store.logs[i] == x.store.logs[i]
    decreases |ls|
  {
    if ls != [] {
      StepKeepsLog(lock, x, ls[0], i);
      hide Next;
      LogsArePermanent(lock, Next(lock, x, ls[0]), ls[1..], i);
    }
  }

  /** How an entry joins the journal. */
  lemma NewLog(lock: Lock, x: Sys, l: Label, i: Id)
    requires Enabled(x, l) && i !in x.store.logs && i in Next(lock, x, l).store.logs
    ensures var log := Next(lock, x, l).store.logs[i];
            && log.id == i
            && (l == OtherLog(log)
                || (l.WriteLog? && l == WriteLog(l.t, i, log.createdAt) && l.t in x.calls && x.calls[l.t].Owing?
                    && Carries(x.calls[l.t].entry, log)))
  {
    if Succeeds(lock, x, l) {
      StepOwes(lock, x, l);
    }
    hide Attempt;
  }

  /** A call that owes an entry after a step owed it before, or owes it for this step. */
  lemma NewlyOwed(lock: Lock, x: Sys, l: Label, t: Tid)
    requires Enabled(x, l) && t in Next(lock, x, l).calls && Next(lock, x, l).calls[t].Owing?
    ensures (t in x.calls && x.calls[t] == Next(lock, x, l).calls[t])
            || (Succeeds(lock, x, l) && l.t == t && Next(lock, x, l).calls[t] == Owing(Attempt(lock, x, l).value.1))
  {
    hide Attempt;
  }

  /** A call stays owing until it writes. */
  lemma StillOwing(lock: Lock, x: Sys, l: Label, t: Tid)
    requires Enabled(x, l) && t in x.calls && x.calls[t].Owing?
    ensures (t in Next(lock, x, l).calls && Next(lock, x, l).calls[t] == x.calls[t])
            || (l.WriteLog? && l.t == t && l.logId !in x.store.logs && l.logId in Next(lock, x, l).store.logs)
  {
    hide Attempt;
  }

  // ---- Every entry has its step

  /** The call writes the entry at its clock reading. */
  ghost predicate WrittenBy(ls: seq<Label>, t: Tid, log: AuditLog) {
    WriteLog(t, log.id, log.createdAt) in ls
  }

  ghost predicate OwedThenWritten(x: Sys, ls: seq<Label>, log: AuditLog) {
    exists t | t in x.calls :: x.calls[t].Owing? && Carries(x.calls[t].entry, log) && WrittenBy(ls, t, log)
  }

  /** Some step of the run succeeds, the entry says what it did, and its call writes the entry afterwards. */
  ghost predicate DoneThenWritten(lock: Lock, x: Sys, ls: seq<Label>, log: AuditLog)
    requires Run(lock, x, ls)
    decreases |ls|
  {
    ls != []
    && ((Succeeds(lock, x, ls[0]) && Says(x, ls[0], log) && WrittenBy(ls[1..], ls[0].t, log))
        || DoneThenWritten(lock, Next(lock, x, ls[0]), ls[1..], log))
  }

  lemma OwedAfterStep(lock: Lock, x: Sys, ls: seq<Label>, log: AuditLog)
    requires Filed(x) && ls != [] && Run(lock, x, ls) && OwedThenWritten(Next(lock, x, ls[0]), ls[1..], log)
    ensures OwedThenWritten(x, ls, log) || DoneThenWritten(lock, x, ls, log)
  {
    var y := Next(lock, x, ls[0]);
    var t :| t in y.calls && y.calls[t].Owing? && Carries(y.calls[t].entry, log) && WrittenBy(ls[1..], t, log);
    NewlyOwed(lock, x, ls[0], t);
    hide Next, Attempt, Carries, Says, Filed;
    if Succeeds(lock, x, ls[0]) {
      OwedIsSaid(lock, x, ls[0], log);
    }
  }

  /**
   * Under any interleaving and either lock, each entry that a run adds to the journal is one of the other parts of the
   * service, or says exactly what a step of the run did whose call wrote it afterwards, at the clock reading it bears.
   */
  lemma {:induction false} EntriesComeFromSteps(lock: Lock, x: Sys, ls: seq<Label>, i: Id)
    requires Filed(x) && Run(lock, x, ls) && i in Final(lock, x, ls).store.logs && i !in x.store.logs
    ensures var log := Final(lock, x, ls).store.logs[i];
            && log.id == i
            && (OtherLog(log) in ls || OwedThenWritten(x, ls, log) || DoneThenWritten(lock, x, ls, log))
    decreases |ls|
  {
    var y, log := Next(lock, x, ls[0]), Final(lock, x, ls).store.logs[i];
    if i in y.store.logs {
      NewLog(lock, x, ls[0], i);
      hide Next, Carries;
      LogsArePermanent(lock, y, ls[1..], i);
    } else {
      StepKeepsFiled(lock, x, ls[0]);
      hide Next, Carries, Filed;
      EntriesComeFromSteps(lock, y, ls[1..], i);
      if OwedThenWritten(y, ls[1..], log) {
        OwedAfterStep(lock, x, ls, log);
      }
    }
  }

  /** From the empty store on: every entry is one of the other parts of the service or has its step. */
  lemma EveryEntryHasItsStep(lock: Lock, ls: seq<Label>, i: Id)
    requires Run(lock, INITIAL, ls) && i in Final(lock, INITIAL, ls).store.logs
    ensures var log := Final(lock, INITIAL, ls).store.logs[i];
            log.id == i && (OtherLog(log) in ls || DoneThenWritten(lock, INITIAL, ls, log))
  {
    EntriesComeFromSteps(lock, INITIAL, ls, i);
  }

  // ---- Every step has its entry

  lemma {:induction false} OwedIsWritten(lock: Lock, x: Sys, ls: seq<Label>, t: Tid) returns (i: Id)
    requires Run(lock, x, ls) && t in x.calls && x.calls[t].Owing? && t !in Final(lock, x, ls).calls
    ensures i !in x.store.logs && i in Final(lock, x, ls).store.logs
    ensures Carries(x.calls[t].entry, Final(lock, x, ls).store.logs[i])
            && WrittenBy(ls, t, Final(lock, x, ls).store.logs[i])
    decreases |ls|
  {
    var y := Next(lock, x, ls[0]);
    StillOwing(lock, x, ls[0], t);
    if t in y.calls && y.calls[t] == x.calls[t] {
      i := OwedIsWritten(lock, y, ls[1..], t);
      if i in x.store.logs {
        StepKeepsLog(lock, x, ls[0], i);
      }
    } else {
      i := ls[0].logId;
      NewLog(lock, x, ls[0], i);
      LogsArePermanent(lock, y, ls[1..], i);
    }
    hide Next, Carries;
  }

  /** Once its call is over, each step that succeeded, an update included, has an entry that says what it did. */
  lemma StepIsReported(lock: Lock, x: Sys, l: Label, ls: seq<Label>) returns (i: Id)
    requires Filed(x) && Succeeds(lock, x, l) && Run(lock, Next(lock, x, l), ls)
    requires l.t !in Final(lock, Next(lock, x, l), ls).calls
    ensures var logs := Final(lock, Next(lock, x, l), ls).store.logs;
            i !in x.store.logs && i in logs && Says(x, l, logs[i]) && WrittenBy(ls, l.t, logs[i])
  {
    StepOwes(lock, x, l);
    hide Next, Attempt, Carries, Says, Filed;
    i := OwedIsWritten(lock, Next(lock, x, l), ls, l.t);
    OwedIsSaid(lock, x, l, Final(lock, Next(lock, x, l), ls).store.logs[i]);
  }

  /** The action and entity of an entry for a step are settled by the step, and tracked unless it is an update. */
  lemma SaysOneThing(x: Sys, l: Label, a: AuditLog, b: AuditLog)
    requires !l.Commit? && Says(x, l, b)
    requires exists log :: Says(x, l, log) && a.action == log.action && a.entityId == log.entityId
    ensures a.action == b.action && a.entityId == b.entityId && Journal.Watched(b.action, l.Revoke?)
  {
  }

  lemma NotTwiceAfter(lock: Lock, before: seq<Label>, l: Label, after: seq<Label>)
    requires Run(lock, INITIAL, before) && Enabled(Final(lock, INITIAL, before), l)
    requires Run(lock, Next(lock, Final(lock, INITIAL, before), l), after)
    requires l.Revoke? ==>
             Along(lock, INITIAL, before, (y, k) => OverUncancelled(lock, y, k))
             && Along(lock, Next(lock, Final(lock, INITIAL, before), l), after, (y, k) => OverUncancelled(lock, y, k))
    ensures Journal.NotTwice(Final(lock, Next(lock, Final(lock, INITIAL, before), l), after).store, l.Revoke?)
  {
    var x, ok := Final(lock, INITIAL, before), (y, k) => OverUncancelled(lock, y, k);
    assert l.Revoke? ==> OverUncancelled(lock, x, l);
    hide Next, Enabled, OverUncancelled, Journal.NotTwice, Journal.NoneLost, Journal.Truthful, Journal.OwedOnce;
    RunCons(lock, x, l, after, ok);
    RunConcat(lock, INITIAL, before, [l] + after, ok);
    EmptyIsKept(l.Revoke?);
    hide Journal.Kept, Filed;
    Journal.RunsKeepJournal(lock, INITIAL, before + ([l] + after), l.Revoke?);
    KeptIsNotTwice(Final(lock, INITIAL, before + ([l] + after)), l.Revoke?);
  }

  lemma EmptyIsKept(revokes: bool)
    ensures Filed(INITIAL) && Journal.Kept(INITIAL, revokes)
  {
  }

  lemma KeptIsNotTwice(x: Sys, revokes: bool)
    requires Journal.Kept(x, revokes)
    ensures Journal.NotTwice(x.store, revokes)
  {
  }

  /**
   * Between calls, any entry that reports the change a step of the run made says all of it rightly: there is one, and
   * only one. For revocations the updates of the run must replace no cancelled row.
   */
  lemma TheReportIsRight(lock: Lock, before: seq<Label>, l: Label, after: seq<Label>, i: Id)
    requires Run(lock, INITIAL, before) && Succeeds(lock, Final(lock, INITIAL, before), l) && !l.Commit?
    requires Run(lock, Next(lock, Final(lock, INITIAL, before), l), after)
    requires Final(lock, Next(lock, Final(lock, INITIAL, before), l), after).calls == map[]
    requires l.Revoke? ==>
             Along(lock, INITIAL, before, (y, k) => OverUncancelled(lock, y, k))
             && Along(lock, Next(lock, Final(lock, INITIAL, before), l), after, (y, k) => OverUncancelled(lock, y, k))
    requires var logs := Final(lock, Next(lock, Final(lock, INITIAL, before), l), after).store.logs;
             && i in logs
             && exists log :: Says(Final(lock, INITIAL, before), l, log)
                              && logs[i].action == log.action && logs[i].entityId == log.entityId
    ensures Says(Final(lock, INITIAL, before), l,
                 Final(lock, Next(lock, Final(lock, INITIAL, before), l), after).store.logs[i])
  {
    var x := Final(lock, INITIAL, before);
    var s := Final(lock, Next(lock, x, l), after).store;
    RunsKeepFiled(lock, INITIAL, before);
    var j := StepIsReported(lock, x, l, after);
    SaysOneThing(x, l, s.logs[i], s.logs[j]);
    hide Next, Succeeds, Says, Enabled;
    NotTwiceAfter(lock, before, l, after);
    assert Journal.NotTwice(s, l.Revoke?) && Journal.Reports(s.logs[i], s.logs[j].action, s.logs[j].entityId);
  }
}
