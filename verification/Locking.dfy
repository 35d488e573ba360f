/**
 * The optimistic lock of updates: what it does as written, what it was meant to do, and when an update that was
 * fetched earlier can still only replace a pending row.
 */
module Locking {
  import opened Model
  import opened ServiceSpec
  import opened Interleaving
  import opened Lifecycle
  import opened History
  import StoreSpec

  // ---- The lock as written

  /** The window an update leads to: the times it gives, and the current ones where it gives none. */
  predicate WindowAllowed(cur: Authorization, req: UpdateRequest, now: Time) {
    var start := if req.start == ZERO_TIME then cur.start else req.start;
    var end := if req.end == ZERO_TIME then cur.end else req.end;
    now <= start < end <= start + MAX_AUTH_DURATION
  }

  /**
   * The service stamps the new row with its clock reading before the store compares stamps. So an update whose fetch
   * and commit meet no other step commits exactly when the token, the stored stamp and the clock reading coincide.
   */
  lemma UpdateCommitsIff(s: State, id: Id, req: UpdateRequest, now: Time)
    requires id in s.auths ==> s.auths[id].id == id
    ensures UpdateAuthorization(AsWritten, s, id, req, now).Ok?
            <==> StoreSpec.AuthLive(s, id) && s.auths[id].status == Pending && WindowAllowed(s.auths[id], req, now)
                 && req.updatedAt == s.auths[id].updatedAt == now
    ensures UpdateAuthorization(Meant, s, id, req, now).Ok?
            <==> StoreSpec.AuthLive(s, id) && s.auths[id].status == Pending && WindowAllowed(s.auths[id], req, now)
                 && req.updatedAt == s.auths[id].updatedAt
  {
  }

  /**
   * An update that commits changes the window, the purpose, the area and the stamp of its own row, and nothing else.
   */
  lemma UpdateOutcome(lock: Lock, s: State, fetched: Authorization, req: UpdateRequest, now: Time)
    requires CommitUpdate(lock, s, fetched, req, now).Ok?
    ensures var (s', row) := CommitUpdate(lock, s, fetched, req, now).value;
            && s' == s.(auths := s.auths[fetched.id := row])
            && row == fetched.(start := row.start, end := row.end, purpose := row.purpose, areaId := row.areaId,
               updatedAt := now)
            && WindowAllowed(fetched, req, now)
            && (req.start != ZERO_TIME ==> row.start == req.start)
            && (req.start == ZERO_TIME ==> row.start == fetched.start)
            && (req.end != ZERO_TIME ==> row.end == req.end) && (req.end == ZERO_TIME ==> row.end == fetched.end)
            && (req.purpose != "" ==> row.purpose == req.purpose)
            && (req.purpose == "" ==> row.purpose == fetched.purpose)
            && (req.areaId != "" ==> row.areaId == req.areaId) && (req.areaId == "" ==> row.areaId == fetched.areaId)
  {
  }

  /** With steps in between, only the stamp stored at the commit and the clock reading count. */
  lemma CommitSucceedsIff(s: State, fetched: Authorization, req: UpdateRequest, now: Time)
    ensures CommitUpdate(AsWritten, s, fetched, req, now).Ok?
            <==> fetched.status == Pending && req.updatedAt == fetched.updatedAt && WindowAllowed(fetched, req, now)
                 && StoreSpec.AuthLive(s, fetched.id) && s.auths[fetched.id].updatedAt == now
    ensures CommitUpdate(Meant, s, fetched, req, now).Ok?
            <==> fetched.status == Pending && req.updatedAt == fetched.updatedAt && WindowAllowed(fetched, req, now)
                 && StoreSpec.AuthLive(s, fetched.id) && s.auths[fetched.id].updatedAt == req.updatedAt
  {
  }

  /** The area lock has the same flaw. */
  lemma AreaUpdateCommitsIff(s: State, id: Id, req: AreaRequest, now: Time)
    requires id in s.areas ==> s.areas[id].id == id
    ensures UpdateParkingArea(s, id, req, now).Ok?
            <==> StoreSpec.AreaLive(s, id) && req.updatedAt != ZERO_TIME
                 && req.updatedAt == s.areas[id].updatedAt == now
    ensures UpdateParkingArea(s, id, req, now).Ok?
            ==> var s' := UpdateParkingArea(s, id, req, now).value.0;
                && id in s'.areas && s' == s.(areas := s.areas[id := s'.areas[id]])
                && var (cur, row) := (s.areas[id], s'.areas[id]);
                   && row == cur.(name := row.name, code := row.code, capacity := row.capacity, updatedAt := now)
                   && (req.name != "" ==> row.name == req.name) && (req.name == "" ==> row.name == cur.name)
                   && (req.code != "" ==> row.code == req.code) && (req.code == "" ==> row.code == cur.code)
                   && (req.capacity > 0 ==> row.capacity == req.capacity)
                   && (req.capacity <= 0 ==> row.capacity == cur.capacity)
  {
  }

  // ---- What steps stamp

  /** An entry, exit, revocation or archiving stamps a later time on its row; nothing is said of updates. */
  predicate GateStampsLater(lock: Lock, x: Sys, l: Label) {
    Succeeds(lock, x, l) && !l.Create? && !l.Commit? ==> l.id in x.store.auths && x.store.auths[l.id].updatedAt < l.now
  }

  /** An update that commits stamps a later time on its row. */
  predicate CommitStampsLater(lock: Lock, x: Sys, l: Label) {
    Succeeds(lock, x, l) && l.Commit? ==>
      var id := x.calls[l.t].fetched.id;
      id in x.store.auths && x.store.auths[id].updatedAt < l.now
  }

  /** No step stamps an earlier time on its row. */
  predicate NoEarlierStamp(lock: Lock, x: Sys, l: Label) {
    Succeeds(lock, x, l) && !l.Create? ==>
      var id := if l.Commit? then x.calls[l.t].fetched.id else l.id;
      id in x.store.auths && x.store.auths[id].updatedAt <= l.now
  }

  /** As written, a commit stamps the time that is already there. */
  lemma AsWrittenStampsNoEarlier(x: Sys, l: Label)
    requires Enabled(x, l) && GateStampsLater(AsWritten, x, l)
    ensures NoEarlierStamp(AsWritten, x, l)
  {
    if l.Commit? {
      CommitSucceedsIff(x.store, x.calls[l.t].fetched, x.calls[l.t].req, l.now);
    }
  }

  // ---- One token, one commit

  predicate CommitsWith(lock: Lock, x: Sys, l: Label, id: Id, token: Time) {
    l.Commit? && Succeeds(lock, x, l) && x.calls[l.t].fetched.id == id && x.calls[l.t].req.updatedAt == token
  }

  lemma RowStampNoEarlier(lock: Lock, x: Sys, l: Label, k: Id)
    requires Enabled(x, l) && NoEarlierStamp(lock, x, l) && k in x.store.auths
    ensures k in Next(lock, x, l).store.auths && x.store.auths[k].updatedAt <= Next(lock, x, l).store.auths[k].updatedAt
  {
    RowStep(lock, x, l, k);
    hide Next, Attempt;
  }

  lemma {:induction false} NoneCommitsAfter(x: Sys, ls: seq<Label>, id: Id, token: Time)
    requires Run(Meant, x, ls) && Along(Meant, x, ls, (y, l) => NoEarlierStamp(Meant, y, l))
    requires id in x.store.auths && token < x.store.auths[id].updatedAt
    ensures Count(Meant, x, ls, (y, l) => CommitsWith(Meant, y, l, id, token)) == 0
    decreases |ls|
  {
    if ls != [] {
      if ls[0].Commit? {
        CommitSucceedsIff(x.store, x.calls[ls[0].t].fetched, x.calls[ls[0].t].req, ls[0].now);
      }
      RowStampNoEarlier(Meant, x, ls[0], id);
      NoneCommitsAfter(Next(Meant, x, ls[0]), ls[1..], id, token);
    }
  }

  lemma CommitStamps(x: Sys, l: Label, id: Id, token: Time)
    requires Enabled(x, l) && CommitsWith(Meant, x, l, id, token) && CommitStampsLater(Meant, x, l)
    ensures id in Next(Meant, x, l).store.auths && token < Next(Meant, x, l).store.auths[id].updatedAt
  {
    CommitSucceedsIff(x.store, x.calls[l.t].fetched, x.calls[l.t].req, l.now);
  }

  /**
   * The meant lock: where commits stamp later times and nothing stamps an earlier one, of the updates that present one
   * token at most one commits, from any state and however the calls interleave.
   */
  lemma {:induction false} AtMostOneCommits(x: Sys, ls: seq<Label>, id: Id, token: Time)
    requires Run(Meant, x, ls) && Along(Meant, x, ls, (y, l) => NoEarlierStamp(Meant, y, l))
    requires Along(Meant, x, ls, (y, l) => CommitStampsLater(Meant, y, l))
    ensures Count(Meant, x, ls, (y, l) => CommitsWith(Meant, y, l, id, token)) <= 1
    decreases |ls|
  {
    if ls != [] {
      if CommitsWith(Meant, x, ls[0], id, token) {
        CommitStamps(x, ls[0], id, token);
        NoneCommitsAfter(Next(Meant, x, ls[0]), ls[1..], id, token);
      } else {
        AtMostOneCommits(Next(Meant, x, ls[0]), ls[1..], id, token);
      }
    }
  }

  // ---- What stamps tell

  /**
   * A row fetched pending is no younger than the stored one, and as long as the two have one stamp the stored one is
   * pending.
   */
  ghost predicate StampTells(x: Sys, a: Authorization) {
    a.id in x.store.auths
    && var cur := x.store.auths[a.id];
       a.updatedAt <= cur.updatedAt && (a.status == Pending && a.updatedAt == cur.updatedAt ==> cur.status == Pending)
  }

  ghost predicate StampsTell(x: Sys) {
    && (forall k | k in x.store.auths :: x.store.auths[k].id == k)
    && forall t | t in x.calls && x.calls[t].Updating? :: StampTells(x, x.calls[t].fetched)
  }

  lemma StepKeepsStampTells(lock: Lock, x: Sys, l: Label, a: Authorization)
    requires Enabled(x, l) && GateStampsLater(lock, x, l) && NoEarlierStamp(lock, x, l) && StampTells(x, a)
    ensures StampTells(Next(lock, x, l), a)
  {
    RowStep(lock, x, l, a.id);
    hide Next, Attempt;
  }

  lemma FetchTells(lock: Lock, x: Sys, l: Label, t: Tid)
    requires StampsTell(x) && Enabled(x, l) && l.Fetch? && l.id in x.store.auths
    requires var y := Next(lock, x, l);
             t in y.calls && y.calls[t].Updating? && y.calls[t].fetched == x.store.auths[l.id] && y.store == x.store
    ensures StampTells(Next(lock, x, l), Next(lock, x, l).calls[t].fetched)
  {
  }

  lemma StepKeepsStampsTell(lock: Lock, x: Sys, l: Label)
    requires StampsTell(x) && Enabled(x, l) && GateStampsLater(lock, x, l) && NoEarlierStamp(lock, x, l)
    ensures StampsTell(Next(lock, x, l))
  {
    hide StampTells, Attempt, GateStampsLater, NoEarlierStamp;
    var y := Next(lock, x, l);
    forall k | k in y.store.auths ensures y.store.auths[k].id == k {
      StepKeepsRowId(lock, x, l, k);
    }
    forall t | t in y.calls && y.calls[t].Updating? ensures StampTells(y, y.calls[t].fetched) {
      CallStep(lock, x, l, t);
      if t in x.calls && y.calls[t] == x.calls[t] {
        StepKeepsStampTells(lock, x, l, x.calls[t].fetched);
      } else {
        FetchTells(lock, x, l, t);
      }
    }
  }

  // ---- The meant lock, under any interleaving

  lemma MeantReplacesPending(x: Sys, l: Label)
    requires StampsTell(x) && Enabled(x, l)
    ensures OverPending(Meant, x, l)
  {
    if l.Commit? {
      CommitSucceedsIff(x.store, x.calls[l.t].fetched, x.calls[l.t].req, l.now);
    }
  }

  /**
   * The meant lock: where entries, exits, revocations and archivings stamp later times, and commits no earlier ones, no
   * update replaces a row that has left pending.
   */
  lemma {:induction false} GateStampsProtect(x: Sys, ls: seq<Label>)
    requires StampsTell(x) && Run(Meant, x, ls) && Along(Meant, x, ls, (y, l) => GateStampsLater(Meant, y, l))
    requires Along(Meant, x, ls, (y, l) => NoEarlierStamp(Meant, y, l))
    ensures Along(Meant, x, ls, (y, l) => OverPending(Meant, y, l))
    decreases |ls|
  {
    if ls != [] {
      MeantReplacesPending(x, ls[0]);
      StepKeepsStampsTell(Meant, x, ls[0]);
      GateStampsProtect(Next(Meant, x, ls[0]), ls[1..]);
    }
  }

  // ---- One call at a time

  /** A step starts a new call, or changes residents, areas or the journal, only when no call is in progress. */
  predicate OneAtATime(x: Sys, l: Label) {
    l.Commit? || l.WriteLog? || x.calls == map[]
  }

  /** At most one call is in progress, and a row it has fetched is the stored row. */
  ghost predicate Alone(x: Sys) {
    && (forall k | k in x.store.auths :: x.store.auths[k].id == k)
    && (forall t, u | t in x.calls && u in x.calls :: t == u)
    && forall t | t in x.calls && x.calls[t].Updating? ::
         var a := x.calls[t].fetched;
         a.id in x.store.auths && a == x.store.auths[a.id]
  }

  lemma StepKeepsAlone(lock: Lock, x: Sys, l: Label)
    requires Alone(x) && Enabled(x, l) && OneAtATime(x, l)
    ensures Alone(Next(lock, x, l)) && OverPending(lock, x, l)
  {
    CallsAlone(lock, x, l);
    var y := Next(lock, x, l);
    forall k | k in y.store.auths ensures y.store.auths[k].id == k {
      RowStep(lock, x, l, k);
      hide Next, Attempt;
    }
    if l.Commit? {
      CommitSucceedsIff(x.store, x.calls[l.t].fetched, x.calls[l.t].req, l.now);
    }
    forall t | t in y.calls && y.calls[t].Updating?
      ensures y.calls[t].fetched.id in y.store.auths && y.calls[t].fetched == y.store.auths[y.calls[t].fetched.id]
    {
      CallStep(lock, x, l, t);
    }
    hide Next, Attempt;
  }

  lemma CallsAlone(lock: Lock, x: Sys, l: Label)
    requires Enabled(x, l) && OneAtATime(x, l) && forall t, u | t in x.calls && u in x.calls :: t == u
    ensures var y := Next(lock, x, l);
            && (forall t, u | t in y.calls && u in y.calls :: t == u)
            && forall t | t in y.calls && t in x.calls :: !y.calls[t].Updating?
  {
    hide Attempt;
  }

  /**
   * Calls that do not overlap in time replace only pending rows: the code as written is safe when run one call at a
   * time.
   */
  lemma {:induction false} SequentialRunsAreSafe(lock: Lock, x: Sys, ls: seq<Label>)
    requires Alone(x) && Run(lock, x, ls) && Along(lock, x, ls, OneAtATime)
    ensures Along(lock, x, ls, (y, l) => OverPending(lock, y, l))
    decreases |ls|
  {
    if ls != [] {
      StepKeepsAlone(lock, x, ls[0]);
      SequentialRunsAreSafe(lock, Next(lock, x, ls[0]), ls[1..]);
    }
  }

  // ---- The lock as written, under any interleaving

  /** An update that commits was asked for with a token equal to its clock reading. */
  predicate TokenIsNow(x: Sys, l: Label) {
    l.Commit? && Succeeds(AsWritten, x, l) ==> x.calls[l.t].req.updatedAt == l.now
  }

  /** A stored row with a later stamp than the fetched one has been used, revoked or archived since. */
  ghost predicate LaterIsUsed(x: Sys, a: Authorization) {
    a.id in x.store.auths
    && var cur := x.store.auths[a.id];
       a.updatedAt < cur.updatedAt ==> cur.status != Pending || cur.archivedAt.Some?
  }

  ghost predicate StampsTellAll(x: Sys) {
    StampsTell(x) && forall t | t in x.calls && x.calls[t].Updating? :: LaterIsUsed(x, x.calls[t].fetched)
  }

  lemma OverPendingIffTokenIsNow(x: Sys, l: Label)
    requires StampsTellAll(x) && Enabled(x, l)
    ensures OverPending(AsWritten, x, l) <==> TokenIsNow(x, l)
  {
    if l.Commit? {
      CommitSucceedsIff(x.store, x.calls[l.t].fetched, x.calls[l.t].req, l.now);
    }
  }

  lemma StepKeepsLaterIsUsed(x: Sys, l: Label, a: Authorization)
    requires Enabled(x, l) && OverPending(AsWritten, x, l) && StampTells(x, a) && LaterIsUsed(x, a)
    ensures LaterIsUsed(Next(AsWritten, x, l), a)
  {
    RowStep(AsWritten, x, l, a.id);
    hide Next, Attempt;
  }

  lemma StepKeepsStampsTellAll(x: Sys, l: Label)
    requires StampsTellAll(x) && Enabled(x, l) && GateStampsLater(AsWritten, x, l) && OverPending(AsWritten, x, l)
    ensures StampsTellAll(Next(AsWritten, x, l))
  {
    AsWrittenStampsNoEarlier(x, l);
    StepKeepsStampsTell(AsWritten, x, l);
    hide StampTells, Attempt, OverPending, GateStampsLater, Succeeds;
    var y := Next(AsWritten, x, l);
    forall t | t in y.calls && y.calls[t].Updating? ensures LaterIsUsed(y, y.calls[t].fetched) {
      CallStep(AsWritten, x, l, t);
      if t in x.calls && y.calls[t] == x.calls[t] {
        StepKeepsLaterIsUsed(x, l, x.calls[t].fetched);
      }
    }
  }

  /**
   * The lock as written, under any interleaving in which entries, exits, revocations and archivings stamp later times:
   * updates replace only pending rows exactly when every update that commits has a token equal to its clock reading.
   */
  lemma ReplacesPendingIffTokensAreNow(x: Sys, ls: seq<Label>)
    requires StampsTellAll(x) && Run(AsWritten, x, ls)
             && Along(AsWritten, x, ls, (y, l) => GateStampsLater(AsWritten, y, l))
    ensures Along(AsWritten, x, ls, (y, l) => OverPending(AsWritten, y, l)) <==> Along(AsWritten, x, ls, TokenIsNow)
  {
    var p, given := (y, l) => OverPending(AsWritten, y, l), (y, l) => GateStampsLater(AsWritten, y, l);
    forall y, l | StampsTellAll(y) && Enabled(y, l) && given(y, l)
      ensures (p(y, l) <==> TokenIsNow(y, l)) && (p(y, l) ==> StampsTellAll(Next(AsWritten, y, l)))
    {
      OverPendingIffTokenIsNow(y, l);
      if p(y, l) {
        StepKeepsStampsTellAll(y, l);
      }
    }
    AlongIffGiven(AsWritten, x, ls, StampsTellAll, given, p, TokenIsNow);
  }

  // ---- From the empty store

  /**
   * Runs of the meant lock, interleaved in any way, whose gate steps stamp later times and whose commits no earlier
   * ones.
   */
  ghost predicate Stamped(ls: seq<Label>) {
    && Run(Meant, INITIAL, ls)
    && Along(Meant, INITIAL, ls, (y, l) => GateStampsLater(Meant, y, l))
    && Along(Meant, INITIAL, ls, (y, l) => NoEarlierStamp(Meant, y, l))
  }

  /** Runs of the code as written, interleaved in any way, whose tokens are the clock readings. */
  ghost predicate Tokened(ls: seq<Label>) {
    && Run(AsWritten, INITIAL, ls)
    && Along(AsWritten, INITIAL, ls, (y, l) => GateStampsLater(AsWritten, y, l))
    && Along(AsWritten, INITIAL, ls, TokenIsNow)
  }

  /** Runs of the code as written, one call at a time. */
  ghost predicate Sequential(ls: seq<Label>) {
    Run(AsWritten, INITIAL, ls) && Along(AsWritten, INITIAL, ls, OneAtATime)
  }

  /** The three kinds of run on which updates are known to replace only pending rows. */
  ghost predicate Guarded(lock: Lock, ls: seq<Label>) {
    if lock.Meant? then Stamped(ls) else Sequential(ls) || Tokened(ls)
  }

  lemma GuardedReplacesPending(lock: Lock, ls: seq<Label>)
    requires Guarded(lock, ls)
    ensures Run(lock, INITIAL, ls) && Along(lock, INITIAL, ls, (y, l) => OverPending(lock, y, l))
    ensures Along(lock, INITIAL, ls, (y, l) => OverUnused(lock, y, l))
    ensures Along(lock, INITIAL, ls, (y, l) => OverUncancelled(lock, y, l))
  {
    if lock.Meant? {
      GateStampsProtect(INITIAL, ls);
    } else if Sequential(ls) {
      SequentialRunsAreSafe(AsWritten, INITIAL, ls);
    } else {
      ReplacesPendingIffTokensAreNow(INITIAL, ls);
    }
    OverPendingIsMild(lock, INITIAL, ls);
  }
}
