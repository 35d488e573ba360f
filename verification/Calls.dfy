/** A whole service call, from the first step to the journal entry, as a run of atomic steps. */
module Calls {
  import opened Model
  import opened ServiceSpec
  import opened Interleaving
  import opened Locking
  import StoreSpec

  /** The state after a call that ran alone: unchanged after an error, else changed and reported. */
  function After(s: State, outcome: Result<(State, Entry)>, logId: Id, at: Time): State {
    match outcome
    case Err(_) => s
    case Ok((s', e)) => Logged(s', e, logId, at)
  }

  /** A call of one store step leaves the state its service method promises, as a run of one call at a time. */
  lemma OneStepCallIsRun(x: Sys, l: Label, logId: Id, at: Time)
    requires x.calls == map[] && l.Mutates() && Enabled(x, l) && logId !in x.store.logs
    ensures var ls := if Succeeds(AsWritten, x, l) then [l, WriteLog(l.t, logId, at)] else [l];
            && Run(AsWritten, x, ls) && Along(AsWritten, x, ls, OneAtATime)
            && Final(AsWritten, x, ls).store == After(x.store, Attempt(AsWritten, x, l), logId, at)
            && Final(AsWritten, x, ls).calls == map[]
  {
    var y := Next(AsWritten, x, l);
    if Succeeds(AsWritten, x, l) {
      var log := WriteLog(l.t, logId, at);
      var (s, entry) := Attempt(AsWritten, x, l).value;
      MutationEffect(AsWritten, x, l);
      var z := Next(AsWritten, y, log);
      assert z.calls == map[] && z.store == Logged(s, entry, logId, at);
      assert OneAtATime(x, l) && OneAtATime(y, log);
      hide Next, Attempt;
      RunCons(AsWritten, y, log, [], OneAtATime);
      RunCons(AsWritten, x, l, [log], OneAtATime);
      assert [l] + [log] == [l, log] && [log] + [] == [log];
    } else {
      RunCons(AsWritten, x, l, [], OneAtATime);
      assert [l] + [] == [l];
    }
  }

  lemma MutationEffect(lock: Lock, x: Sys, l: Label)
    requires Succeeds(lock, x, l)
    ensures var (s, entry) := Attempt(lock, x, l).value;
            Next(lock, x, l).store == s && Next(lock, x, l).calls == x.calls[l.t := Owing(entry)]
            && s.logs == x.store.logs
  {
  }

  lemma UpdateSteps(x: Sys, t: Tid, id: Id, req: UpdateRequest, now: Time, logId: Id, at: Time)
    requires x.calls == map[] && logId !in x.store.logs && StoreSpec.AuthLive(x.store, id) && x.store.auths[id].id == id
    ensures Enabled(x, Fetch(t, id, req))
    ensures var y := Next(AsWritten, x, Fetch(t, id, req));
            && !(y.calls == map[]) && Enabled(y, Commit(t, now))
            && var z := Next(AsWritten, y, Commit(t, now));
               match UpdateAuthorization(AsWritten, x.store, id, req, now)
               case Err(_) => z.store == x.store && z.calls == map[]
               case Ok((s, _)) =>
                 && Enabled(z, WriteLog(t, logId, at))
                 && Next(AsWritten, z, WriteLog(t, logId, at)).store == Logged(s, Updated(id), logId, at)
                 && Next(AsWritten, z, WriteLog(t, logId, at)).calls == map[]
  {
    var y := Next(AsWritten, x, Fetch(t, id, req));
    assert y.calls == map[t := Updating(x.store.auths[id], req)] && y.store == x.store;
    var z := Next(AsWritten, y, Commit(t, now));
    if UpdateAuthorization(AsWritten, x.store, id, req, now).Ok? {
      assert z.calls == map[t := Owing(Updated(id))]
             && z.store == UpdateAuthorization(AsWritten, x.store, id, req, now).value.0;
      assert Next(AsWritten, z, WriteLog(t, logId, at)).calls == map[];
    } else {
      assert z.calls == map[];
    }
  }

  /**
   * The steps of an update that runs alone: a fetch, a commit if there is a row, and a journal entry if it succeeds.
   */
  function UpdateScript(x: Sys, t: Tid, id: Id, req: UpdateRequest, now: Time, logId: Id, at: Time): seq<Label> {
    if !StoreSpec.AuthLive(x.store, id) then [Fetch(t, id, req)]
    else if UpdateAuthorization(AsWritten, x.store, id, req, now).Ok?
      then [Fetch(t, id, req), Commit(t, now), WriteLog(t, logId, at)]
    else [Fetch(t, id, req), Commit(t, now)]
  }

  function UpdateOwes(outcome: Result<(State, Authorization)>, id: Id): Result<(State, Entry)> {
    match outcome
    case Err(e) => Err(e)
    case Ok((s, _)) => Ok((s, Updated(id)))
  }

  lemma FetchOfNothing(x: Sys, t: Tid, id: Id, req: UpdateRequest)
    requires x.calls == map[] && !StoreSpec.AuthLive(x.store, id)
    ensures Run(AsWritten, x, [Fetch(t, id, req)]) && Along(AsWritten, x, [Fetch(t, id, req)], OneAtATime)
    ensures Final(AsWritten, x, [Fetch(t, id, req)]) == x
  {
    assert Next(AsWritten, x, Fetch(t, id, req)) == x;
    RunCons(AsWritten, x, Fetch(t, id, req), [], OneAtATime);
    assert [Fetch(t, id, req)] + [] == [Fetch(t, id, req)];
  }

  /** An update that runs alone leaves the state its service method promises, as a run of one call at a time. */
  lemma UpdateCallIsRun(x: Sys, t: Tid, id: Id, req: UpdateRequest, now: Time, logId: Id, at: Time)
    requires x.calls == map[] && logId !in x.store.logs && (id in x.store.auths ==> x.store.auths[id].id == id)
    ensures var ls := UpdateScript(x, t, id, req, now, logId, at);
            && Run(AsWritten, x, ls) && Along(AsWritten, x, ls, OneAtATime)
            && Final(AsWritten, x, ls).calls == map[]
            && Final(AsWritten, x, ls).store
               == After(x.store, UpdateOwes(UpdateAuthorization(AsWritten, x.store, id, req, now), id), logId, at)
  {
    if StoreSpec.AuthLive(x.store, id) {
      LiveUpdateIsRun(x, t, id, req, now, logId, at);
    } else {
      FetchOfNothing(x, t, id, req);
    }
  }

  lemma LiveUpdateIsRun(x: Sys, t: Tid, id: Id, req: UpdateRequest, now: Time, logId: Id, at: Time)
    requires x.calls == map[] && logId !in x.store.logs && StoreSpec.AuthLive(x.store, id) && x.store.auths[id].id == id
    ensures var ls := UpdateScript(x, t, id, req, now, logId, at);
            && Run(AsWritten, x, ls) && Along(AsWritten, x, ls, OneAtATime)
            && Final(AsWritten, x, ls).calls == map[]
            && Final(AsWritten, x, ls).store
               == After(x.store, UpdateOwes(UpdateAuthorization(AsWritten, x.store, id, req, now), id), logId, at)
  {
    UpdateSteps(x, t, id, req, now, logId, at);
    var fetch, commit, log := Fetch(t, id, req), Commit(t, now), WriteLog(t, logId, at);
    assert OneAtATime(x, fetch);
    hide Next, Enabled, UpdateAuthorization;
    var y := Next(AsWritten, x, fetch);
    var z := Next(AsWritten, y, commit);
    if UpdateAuthorization(AsWritten, x.store, id, req, now).Ok? {
      RunCons(AsWritten, z, log, [], OneAtATime);
      RunCons(AsWritten, y, commit, [log], OneAtATime);
      RunCons(AsWritten, x, fetch, [commit, log], OneAtATime);
      assert [fetch] + [commit, log] == [fetch, commit, log] && [commit] + [log] == [commit, log]
             && [log] + [] == [log];
    } else {
      RunCons(AsWritten, y, commit, [], OneAtATime);
      RunCons(AsWritten, x, fetch, [commit], OneAtATime);
      assert [fetch] + [commit] == [fetch, commit] && [commit] + [] == [commit];
    }
  }
}
