# Visitor parking: a verified model

This project models a visitor-parking service: residents register a visitor's plate for a time window in a parking
area, the gate lets the car in and out, and staff update, revoke or archive authorizations. It covers the in-memory
store (maps of objects changed in place under one mutex), the service above it, the transaction bodies of the
relational store, and plate normalisation.

How the parts fit:

- `Model` has the entities as values. `StoreSpec` and `ServiceSpec` say what each operation does as a function from the
  stored values to an error or new stored values.
- `Memory` is the store in its own form: classes, pointers, maps, loops, writes in place. A ghost `View` gives the
  stored values and `Valid` keeps the objects private. `Service` is the service over it, `Isolation` a caller that keeps
  every object it ever held and changes any of them at any point.
- `Interleaving` turns concurrent service calls into runs of atomic steps. An update is two steps, a fetch and a commit,
  and every successful call ends with a step that writes its journal entry. Whole-run theorems are about `Run`, from a
  given state or from the empty one.
- `Lifecycle`, `History`, `Occupancy`, `Windows`, `Journal`, `Locking` prove the properties of all runs, `Guarantees` puts
  them together from the empty store, and `Witnesses` has the runs on which the service falls short.
- `Answers` says what every operation answers, in terms of what is stored, the request and the clock: when it succeeds and
  which error it gives otherwise. `ListRules` says the same of listings and `Reports` of the journal.
- `Calls` and `Sessions` show that service calls made one after the other on a live store end where such a run ends.
- `Postgres` has the tables, statements and transactions of the relational store, each proved against what the in-memory
  store does. `Listing` and `Sorting` are about filtering, ordering and paging. `Plate`, `PlateFormat` and `Utf8`
  are about plates as byte strings.

Hypotheses are named predicates on single steps. Those called exact below are both sufficient and necessary: the property
holds after every step of a run if and only if every step meets the condition.

- `OverUnused`: an update that commits replaces a pending or cancelled row. Exact for records and authorizations staying
  in step (`Lifecycle.InStepThroughoutIff`).
- `OverPending`: it replaces a pending row. Exact for the state machine (`History.FollowsEdgesThroughoutIff`).
- `OverUncancelled`: it replaces a row that is not cancelled. Exact for the journal of revocations
  (`Journal.KeptThroughoutIff`).
- `HoldsEntries`: it asks for a window that holds the entries made. Exact for entries in their windows
  (`Windows.EntriesInWindowThroughoutIff`).
- `FitsAmongOthers`: it asks for a window that no other usable authorization of the plate meets. Exact for windows being
  apart (`Windows.ApartThroughoutIff`).
- `LeavesRoom`: a write to an area leaves at least as many places as cars are inside. Exact for capacity
  (`Occupancy.FitsThroughoutIff`).
- `EntersAlone`, `FindsNoneActive`, `FindsNoneLeftOver`: an entry finds no car of its plate inside, no active
  authorization of it, none that is past its end or archived. Exact for a plate being inside at most once
  (`Windows.OnceThroughoutIff` and its two companions).
- `GateStampsLater`, `NoEarlierStamp`, `CommitStampsLater`: entries, exits, revocations and archivings stamp later times
  on their rows; nothing stamps an earlier one; commits stamp later ones.
- `InClockOrder`: clock readings do not go back in commit order. New ids are fresh (`Enabled`).

Updates replace only pending rows on guarded runs (`Locking.Guarded`): one call at a time; the code as written under any
interleaving in which gate steps stamp later times and the token of every update that commits equals its clock reading;
the meant lock under any interleaving in which gate steps stamp later times and commits no earlier ones. For the code as
written the condition on tokens is exact (`Locking.ReplacesPendingIffTokensAreNow`).

Where the code does not do what its documentation says, the model follows the code. `Witnesses` reaches each of these
states from the empty store with valid requests and clock readings in order:

- The update lock (README.md:37) compares the stored stamp with the stamp of the new row, which the service has just
  set to the clock reading. An update commits only if the stored stamp is the clock reading, so a client with a current
  token is normally refused, and one with an old token can overwrite an entry or undo a revocation made at the same clock
  reading. `Lock.Meant` is the protocol the documentation describes.
- The rule of one usable authorization per plate at a time (README.md:178) is not checked on update. Area updates are
  not checked against the cars inside.
- An active authorization can be archived. Its exit then answers "not found" and its place stays taken.
- The listing of authorizations that expire soon has an upper limit and nothing else, so visits long over are in it.

The documentation does not say that a plate is inside at most once, and it need not be: when one of its cars has
overstayed its window, or when the authorization of one was archived while its car was inside, a second one can enter.
`Witnesses` has a run for each.

## Model

| member | source | states |
|---|---|---|
| Plate.Normalize | internal/plate/plate.go:8-20 | the scanning loop computes the plate with blanks dropped and ASCII letters in upper case, for every byte string, invalid UTF-8 included |
| Plate.NormalizedIdempotent | internal/plate/plate.go:8-20 | normalising twice is normalising once, for every string |
| Plate.NormalizedEqualIff | internal/plate/plate.go:8-20 | two strings have one normal form exactly when they agree rune by rune up to ASCII letter case, spaces and tabs |
| Plate.DecodeNormalized | internal/plate/plate.go:8-20 | the bytes built by the loop read back as the folded runes |
| Utf8.DecodeEncode | internal/plate/plate.go:10-16 | decoding what was encoded gives the runes back |
| Utf8.DecodeRuneIff | internal/plate/plate.go:10 | decoding reads a scalar value exactly where its encoding stands and an error of one byte elsewhere: no overlong form, no surrogate |
| PlateFormat.ValidMatches | internal/plate/plate.go:3-23 | for every byte string a plate is valid exactly when its folded runes match the pattern of the source, given as character classes and bounded repetition with a matching relation of its own |
| PlateFormat.FoldedParts | internal/plate/plate.go:8-20 | folding works piece by piece |
| PlateFormat.FoldedRune | internal/plate/plate.go:12-16 | spaces and tabs go, small ASCII letters become capitals, every other rune stays |
| Windows.CreationAllowedIff | internal/service/service.go:287-320 | a creation succeeds exactly by the documented rules: enabled unarchived resident, live area, plate of the pattern, both times given, start not in the past, end after start, at most 7 days, and no usable authorization of the same plate (up to case and blanks) sharing an instant |
| Answers.CreateAnswer | internal/service/service.go:287-320 | every answer to a creation: success, the field named by a field error, and each error of the store, by the request, the stored fields and the clock |
| Windows.CreateThenFetch | internal/service/service.go:287-323 | after a creation the new id fetches the requested visit, pending and on the typed plate; every other id answers as before; the same request again conflicts |
| ServiceSpec.TrimSpaceTrims | internal/service/service.go:313 | trimming takes white space off both ends, all of it and nothing else |
| ServiceSpec.SpaceIs | internal/service/service.go:313 | the white space trimmed, by code point |
| Windows.ClashIsBySamePlate | internal/store/memory.go:276-286 | the exact comparison of stored plates clashes exactly for plates that agree up to case and blanks |
| Windows.RunsKeepPlatesCanonical | internal/service/service.go:289-292 | under any interleaving and either lock each plate of an authorization, a record or a fetched row stays a valid fixed point of normalising |
| Windows.StoredPlatesAreCanonical | internal/plate/plate.go:8-23 | from the empty store on, whatever happens, every stored plate is valid and a fixed point of normalising |
| Windows.RunsKeepNoOverlap | internal/store/memory.go:262-289 | under any interleaving and either lock, if updates that commit ask for free windows, two usable authorizations of one plate never share an instant |
| Windows.ApartThroughoutIff | internal/store/memory.go:262-289 | the windows are apart after every step of a run exactly when every update that commits asks for a free window; creation, entry, exit, revocation and archiving always keep them apart |
| Windows.StepKeepsNoOverlapIff | internal/store/memory.go:262-311 | the same for one step |
| Windows.ShrinkingFits | internal/service/service.go:354-355 | an update that keeps inside the stored window always asks for a free one |
| Windows.OnePassesTheGate | internal/store/memory.go:474 | hence at any instant at most one authorization per plate passes the time check |
| Windows.UpdateKeepsNoOverlapIff | internal/service/service.go:339-363 | an uninterrupted update keeps the windows apart exactly when the requested window, completed from the stored row, is free |
| Windows.CommitKeepsNoOverlapIff | internal/service/service.go:339-363 | the same for a commit with any steps since its fetch, completed from the fetched row |
| Windows.PackingBound | internal/store/memory.go:276-287 | from the empty store on, if updates that commit ask for free windows, the usable windows of a plate, clipped to an interval, never sum to more than its length |
| Windows.Packs | internal/store/memory.go:276-287 | the same for any set of windows without overlap |
| Windows.GateAgreesWithExpiry | internal/store/memory.go:324-329 | for a pending authorization past its start the gate refuses on time exactly when its derived status is expired |
| Windows.ExpiredBlocksNoCreation | internal/store/memory.go:276-287 | what was once seen as expired clashes with no creation the service accepts from then on |
| Windows.ListedAsExpiredIsRefused | internal/store/memory.go:353-356 | an authorization listed as expired is refused at the gate from then on |
| Windows.ExpiredStaysExpired | internal/store/memory.go:324-329 | with clock readings in order and no update to it, what is seen as expired never becomes active and reads as expired or cancelled for ever |
| Windows.ExpiringSoonIff | internal/service/service.go:399-403 | the listing of authorizations that expire soon holds every unarchived one that ends before the cutoff, used and revoked ones included |
| Windows.RunsKeepOrder | internal/service/service.go:293-304 | under any interleaving with clock readings in commit order: creation <= start < end <= start + 7 days, and exits are not before entries |
| Windows.RunsKeepEntriesInWindow | internal/store/memory.go:474 | under any interleaving and either lock, if updates that commit ask for windows that hold the entries made, every entry lies in the window its authorization has |
| Windows.EntriesInWindowThroughoutIff | internal/service/service.go:339-363 | every entry lies in the window of its authorization after every step of a run exactly when every update that commits asks for a window, completed from the fetched row, that holds the entry times of the records of that authorization |
| Windows.CommitKeepsEntriesIff | internal/service/service.go:339-363 | the same for one commit |
| Windows.UnusedHoldsEntriesThroughout | internal/service/service.go:332-334 | runs whose updates replace pending or cancelled rows meet that condition |
| Windows.StepKeepsUsedWindow | internal/service/service.go:332-334 | an authorization that has a record never gets another window, if commits replace pending or cancelled rows |
| Windows.TwiceInsideMeansPastOrArchived | internal/store/memory.go:461-496 | what two cars of one plate inside say of the state: one of the two authorizations is past its end or archived; when this comes about is in the rows below |
| Windows.SecondCarEntersIff | internal/store/memory.go:461-496 | with windows apart and instants in order, an entry brings in a second car of its plate exactly when some active authorization of the plate is past its end or archived |
| Windows.EntryKeepsOnceIff | internal/store/memory.go:461-496 | an entry keeps every plate inside at most once exactly when no active authorization, archived ones included, has its plate |
| Windows.OnceThroughoutIff | internal/store/memory.go:461-496 | under any interleaving and either lock no plate is ever inside twice exactly when every entry finds no car of its plate inside |
| Windows.OnceThroughoutIffNoneActive | internal/store/memory.go:461-496 | on runs whose updates replace pending or cancelled rows, exactly when every entry finds no active authorization of its plate |
| Windows.OnceThroughoutIffNoneLeftOver | internal/store/memory.go:461-496 | on runs that also keep windows apart and readings in order, exactly when every entry finds no active authorization of its plate that is past its end or archived |
| Lifecycle.RunsCorrespond | internal/store/memory.go:461-531 | on every run whose updates replace pending or cancelled rows, records and authorizations stay in step: one record per entered authorization, same plate and area, open exactly while active |
| Lifecycle.CommitKeepsIff | internal/service/service.go:354-363 | a commit keeps records and authorizations in step exactly when the row it replaces is pending or cancelled |
| Lifecycle.InStepThroughoutIff | internal/store/memory.go:461-531 | under any interleaving they are in step after every step exactly when every commit replaces a pending or cancelled row |
| Lifecycle.RunsKeepFiled | internal/store/memory.go:262-549 | on every run rows and records keep their ids, and a fetched row names a stored one with the same resident, plate, creator and creation time |
| Lifecycle.RecordsByStatus | internal/store/memory.go:490-495 | pending or cancelled exactly when there is no record, active exactly with one open record, completed exactly with one closed record |
| Lifecycle.ExitFindsItsRecord | internal/store/memory.go:510-519 | the search for an open record succeeds exactly for active authorizations and finds their only record; the branch for a missing one is unreachable |
| Lifecycle.ExitSucceedsIff | internal/store/memory.go:497-531 | an exit succeeds exactly for a live active authorization |
| Lifecycle.StatusRefuses | README.md:42-46 | which error each operation gives once an authorization has left pending, whatever its arguments; active can only exit, completed and cancelled are final |
| Lifecycle.EnterThenExit | internal/store/memory.go:461-531 | entry then exit: one complete record of the visit, the authorization completed, every area as full as before, nothing else changed |
| Lifecycle.StepKeepsIdentity | internal/service/service.go:354-362 | no step changes the resident, plate, creator or creation time of a row, so a fetched copy still names the same visit |
| Lifecycle.EnterKeeps | internal/store/memory.go:490-495 | an entry keeps records and authorizations in step |
| Lifecycle.ExitKeeps | internal/store/memory.go:520-530 | an exit keeps records and authorizations in step |
| History.StatusesOnTrack | README.md:42-46 | on every run whose updates replace pending rows the stored statuses of an authorization are a prefix of pending, active, completed or of pending, cancelled |
| History.FollowsEdgesIff | README.md:42-46 | a step moves every authorization along an arrow of the state machine, or not at all, exactly if it is not an update over a row that has left pending |
| History.FollowsEdgesThroughoutIff | README.md:42-46 | the same for all steps of a run, under any interleaving and either lock |
| History.EntryAndExitCounts | internal/store/memory.go:461-531 | on every run whose updates replace pending or cancelled rows at most one entry and one exit per authorization succeed, and the status says exactly which have |
| History.RecordsArePermanent | internal/store/memory.go:520-526 | no record disappears or changes who, where and when it entered, and a closed record never changes |
| History.ArchivingIsFinal | internal/store/memory.go:299-323 | under any interleaving and either lock, no later step changes any field of an archived authorization |
| Interleaving.RowStep | internal/store/memory.go:262-549 | an authorization appears only by a creation and changes only by entry, exit, revocation, archiving or a commit, each in its own way |
| Interleaving.RecordStep | internal/store/memory.go:461-531 | a record appears only by an entry inside the window and changes only by the exit that closes it |
| Interleaving.CallStep | internal/service/service.go:327-331 | a call between fetch and commit holds a row that was stored at the moment of its fetch |
| Occupancy.ViewsAgree | internal/store/memory.go:435-460 | for a live area the total of current vehicles, the occupied figure, the gate's count and the number of active authorizations are equal, and places are reported exactly when the gate has room |
| Occupancy.OccupantsAreActive | internal/store/memory.go:481-486 | the entered records of an area are as many as its active authorizations, archived ones included |
| Occupancy.GateOpensIff | internal/store/memory.go:461-489 | an entry succeeds exactly for a live pending authorization in its window and a live area with fewer active authorizations than places |
| Answers.EnterAnswer | internal/store/memory.go:461-496 | every answer to an entry, among them an early or late arrival, an unavailable area and a full one, and the record a successful one gives and stores |
| Answers.ExitAnswer | internal/store/memory.go:497-531 | every answer to an exit, and the record a successful one closes, stores and gives |
| Answers.RevokeAnswer | internal/store/memory.go:532-549 | every answer to a revocation; the row given is the row stored |
| Answers.ArchiveAnswer | internal/store/memory.go:312-323 | every answer to an archiving, after which the row is not found |
| Answers.FetchAnswer | internal/store/memory.go:290-298 | a live row, or not found |
| Answers.AddingAnswer | internal/store/memory.go:207-215 | new areas and residents: a conflict exactly if the id is taken, else stored as given |
| Occupancy.StatisticsAnswer | internal/store/memory.go:438-460 | one entry for each live area with its id, name, code and capacity; occupied is the number of active authorizations, available fills up to the capacity, utilization times capacity is occupied; ordered by cross-multiplied counts |
| Occupancy.StepMovesCount | internal/store/memory.go:481-526 | only an entry that found room raises an area's count, by one, and only an exit lowers it, by one |
| Occupancy.EntriesMinusExits | internal/store/memory.go:461-531 | over any run occupied = occupied before + entries - exits |
| Occupancy.NeverAbovePeak | internal/store/memory.go:487-489 | under any interleaving an area never holds more cars than the largest capacity it has had |
| Occupancy.NeverOverCapacity | internal/store/memory.go:487-489 | with a capacity that is never lowered, occupied <= capacity always |
| Occupancy.FitsThroughoutIff | internal/service/service.go:258-262 | under any interleaving an area is within its capacity after every step exactly when every write to it leaves room for the cars inside |
| Occupancy.AreaUpdateFitsIff | internal/service/service.go:258-262 | an area update leaves the area within capacity exactly when the cars inside fit the capacity it asks for |
| Occupancy.DrainsExactlyWhenNoneArchived | internal/store/memory.go:497-531 | exiting the active authorizations one by one, in any order, never errs, lets out one car each time and leaves none inside, exactly when no active authorization is archived |
| Occupancy.ArchivedCarStaysInside | internal/store/memory.go:312-323 | under any interleaving the open record of an authorization that was archived never changes again and its place stays taken |
| Journal.RunsKeepJournal | internal/service/service.go:466-471 | under any interleaving the journal reports no creation, archiving, entry or exit that has not happened and none twice, and what is missing is exactly what calls in progress still owe; for revocations too if updates replace no cancelled row |
| Journal.KeptThroughoutIff | internal/service/service.go:437-444 | the journal is kept, revocations included, after every step of a run exactly when no update that commits replaces a cancelled row |
| Journal.ExactBetweenCalls | internal/service/service.go:466-471 | between the calls of any run a creation, archiving, entry or exit has happened exactly when exactly one entry reports it; for revocations too if updates replace no cancelled row |
| Journal.MutationHappensOnce | internal/service/service.go:415-444 | each successful step makes exactly the change it will report happen, for the first time, and undoes no reported change; only a revocation can be undone, by a commit over the cancelled row |
| Reports.EveryEntryHasItsStep | internal/service/service.go:318-482 | under any interleaving and either lock, each entry of the journal is one of the other parts of the service, or says of a step that succeeded before it the action, the kind and id of the entity and the operator named, and bears the reading of its own write |
| Reports.EntriesComeFromSteps | internal/service/service.go:466-471 | the same for the entries a run adds to any state |
| Reports.StepIsReported | internal/service/service.go:318-482 | once its call is over, each step that succeeded, an update included, has such an entry |
| Reports.TheReportIsRight | internal/service/service.go:415-482 | between calls any entry that reports the action and entity of a step says all of it rightly: the creator, the gate, the operator as given, or the system |
| Reports.OwedIsSaid | internal/service/service.go:321-442 | what a call owes for a step is what the entry must say |
| Locking.UpdateCommitsIff | internal/service/service.go:327-368 | as written an update commits exactly if the row is live and pending, the window is allowed and token = stored stamp = clock reading; as meant the clock reading drops out |
| Locking.CommitSucceedsIff | internal/store/memory.go:299-311 | the same for a commit with other steps since its fetch |
| Answers.UpdateAnswer | internal/service/service.go:327-364 | every answer to an uninterrupted update under either lock: not found, wrong status, modified since, the field named by a field error, success |
| Answers.CommitAnswer | internal/service/service.go:332-364 | the same for a commit with any steps since its fetch |
| Locking.UpdateOutcome | internal/service/service.go:354-362 | what a committed update changes and what it leaves as fetched |
| Locking.AreaUpdateCommitsIff | internal/service/service.go:241-267 | area updates have the same condition; name, code and capacity change as asked, the stamp is the clock reading, the rest is kept |
| Answers.AreaUpdateAnswer | internal/service/service.go:241-267 | every answer to an area update; the row given is the row stored |
| Locking.GateStampsProtect | README.md:37 | the meant lock: where entries, exits, revocations and archivings stamp later times and commits no earlier ones, no update replaces a row that has left pending |
| Locking.ReplacesPendingIffTokensAreNow | internal/service/service.go:327-368 | the code as written, any interleaving in which entries, exits, revocations and archivings stamp later times: updates replace only pending rows exactly when every update that commits has a token equal to its clock reading |
| Locking.OverPendingIffTokenIsNow | internal/store/memory.go:299-311 | the same for one step |
| Locking.GuardedReplacesPending | internal/service/service.go:327-368 | the three kinds of run from the empty store on which updates replace only pending rows |
| Locking.AtMostOneCommits | README.md:37 | the meant lock: where commits stamp later times and nothing stamps an earlier one, of the updates that present one token at most one commits, from any state and under any interleaving |
| Locking.SequentialRunsAreSafe | internal/service/service.go:327-368 | when calls do not overlap in time, updates replace only pending rows |
| Guarantees.GuardedLifecycle | README.md:42-46 | on guarded runs from the empty store: correspondence, status track, at most one entry and exit, and active authorizations of an area = entries - exits |
| Guarantees.GuardedEntries | internal/store/memory.go:474 | on guarded runs from the empty store every entry lies in the window of its authorization |
| Guarantees.GuardedOncePerPlate | internal/store/memory.go:461-496 | on guarded runs no plate is ever inside twice exactly when every entry finds no active authorization of its plate; with readings in order and free windows, exactly when it finds none that is past its end or archived |
| Guarantees.GuardedTwiceInside | internal/store/memory.go:461-496 | on guarded runs with clock readings in order and updates that ask for free windows, two cars of one plate inside mean one past its end or archived; the exact conditions are in the row above |
| Guarantees.GuardedJournal | internal/service/service.go:466-471 | between the calls of a guarded run the journal is exact, revocations included |
| Guarantees.GuardedReplay | internal/store/postgres.go:228-518 | a guarded run made against an empty database leaves in its tables what the maps hold |
| Witnesses.CurrentTokenRefused | internal/service/service.go:362-363 | a run after which an update with a current token is refused |
| Witnesses.EntryCanBeOverwritten | internal/service/service.go:327-368 | an interleaved run, clock readings in order, in which a commit puts an entered authorization back to pending and moves its window past the entry |
| Witnesses.RevocationCanBeUndone | internal/service/service.go:327-368 | an interleaved run, clock readings in order, in which a commit puts a revoked authorization back to pending |
| Witnesses.UpdateCanOverlap | internal/service/service.go:339-363 | a run after which an update makes two windows of a plate overlap |
| Witnesses.AreaCanOverflow | internal/service/service.go:258-262 | a run after which an area update leaves more cars than places |
| Witnesses.TwiceInsideByOverstay | internal/store/memory.go:461-496 | a run that ends with two cars of a plate inside, one past its window |
| Witnesses.TwiceInsideByArchiving | internal/store/memory.go:312-323 | a run that ends with two cars of a plate inside, both within their windows, one archived |
| Witnesses.FinishedVisitExpiresSoon | internal/service/service.go:399-403 | a run after which a visit completed long ago is listed among the authorizations that expire soon |
| Calls.OneStepCallIsRun | internal/service/service.go:287-444 | a service call other than update, run alone, is a run of the step model and ends in the state its method promises |
| Calls.UpdateCallIsRun | internal/service/service.go:327-368 | the same for every update: a fetch, a commit if there is a live row, and a journal entry if it succeeds |
| Sessions.Serve | internal/service/service.go:287-444 | one request to the service over the live store takes it where a run of just that call takes the step model |
| Sessions.Session | internal/service/service.go:287-444 | whatever sequence of requests is made to a new service, its store ends where the run of just those calls, one at a time from the empty store, ends |
| Listing.ListingIsComplete | internal/store/memory.go:330-376 | with one fixed order the pages at offsets 0, L, 2L and so on give each matching unarchived authorization exactly once, latest start first, and the total is their number |
| Listing.RecordListingIsComplete | internal/store/memory.go:395-413 | the same for records, latest entry first |
| Listing.RecordShownIff | internal/store/memory.go:399-410 | a record listing shows the records that agree with every filter given |
| ListRules.ShownIff | internal/service/service.go:376-403 | for every request: typed plate up to case and blanks, area, status seen at the reading, instant inside the window, today, soon, building, each by stored fields |
| ListRules.AllShownAreMatching | internal/store/memory.go:343-373 | the store lists exactly the authorizations a request asks for |
| Listing.PagesCover | internal/store/memory.go:70-80 | paging loses nothing and repeats nothing |
| Listing.NormPageOnce | internal/service/service.go:25-33 | normalising the page in the service and again in the store is doing it once |
| Listing.PageAt | internal/store/memory.go:70-80 | where a page lies and how long it is |
| Listing.PageIs | internal/store/memory.go:61-80 | a page is the items from the offset on, as many as the limit; 20 for a limit out of range, from the start for a negative offset |
| Listing.CurrentVehiclesAreInside | internal/store/memory.go:435-437 | the record listing by entered status holds exactly the cars inside the area, or inside any area |
| Sorting.SortOrder | internal/store/memory.go:374 | an order of all positions that never goes up in the key |
| Memory.ClonePtr | internal/store/memory.go:29-35 | an equal time behind a new pointer, or none |
| Memory.Auth.Clone | internal/store/memory.go:51-55 | an equal authorization that shares no object with the original |
| Memory.Rec.Clone | internal/store/memory.go:56-60 | an equal record that shares no object with the original |
| Memory.ParkingArea.Clone | internal/store/memory.go:46-50 | an equal area that shares no object with the original |
| Memory.Store.FindClash | internal/store/memory.go:276-286 | the loop finds a usable overlapping authorization of the plate exactly if there is one |
| Memory.Store.CreateAuthorization | internal/store/memory.go:262-289 | error or new state as specified; the object handed in is copied |
| Memory.Store.GetAuthorization | internal/store/memory.go:290-298 | a new copy of the live row, or not found |
| Memory.Store.UpdateAuthorization | internal/store/memory.go:299-311 | the row replaced by a copy if the stored stamp equals the new row's |
| Memory.Store.ArchiveAuthorization | internal/store/memory.go:312-323 | mark and stamp set in place, nothing else |
| Memory.Store.CountInside | internal/store/memory.go:481-486 | the counting loop gives the number of entered records of the area |
| Memory.Store.EnterVehicle | internal/store/memory.go:461-496 | error or new state as specified, through writes in place and copies; the record returned is not the stored one |
| Memory.Store.FindInside | internal/store/memory.go:510-516 | the search gives some entered record of the authorization, or none exactly if there is none |
| Memory.Store.ExitVehicle | internal/store/memory.go:497-531 | error or new state as specified, for whichever record the search finds |
| Memory.Store.RevokeAuthorization | internal/store/memory.go:532-549 | error or new state as specified |
| Memory.Store.CreateResident | internal/store/memory.go:87-95 | a new resident, or conflict |
| Memory.Store.CreateParkingArea | internal/store/memory.go:207-215 | a new area, or conflict |
| Memory.Store.GetParkingArea | internal/store/memory.go:216-224 | a new copy of the live area, or not found |
| Memory.Store.UpdateParkingArea | internal/store/memory.go:225-237 | the area replaced by a copy if the stamps agree |
| Memory.Store.CreateAuditLog | internal/store/memory.go:414-420 | one entry added |
| Memory.Store.Residing | internal/store/memory.go:333-341 | the ids of the unarchived residents of a building |
| Memory.Store.Passes | internal/store/memory.go:344-371 | the filters accept exactly the matching authorizations |
| Memory.Store.PassesRecord | internal/store/memory.go:400-408 | the filters accept exactly the matching records |
| Memory.Store.ListAuthorizations | internal/store/memory.go:330-376 | copies of one page of all matching authorizations, latest start first, and their number |
| Memory.Store.ListRecords | internal/store/memory.go:395-413 | copies of one page of all matching records, latest entry first, and their number |
| Memory.Store.ListCurrentVehicles | internal/store/memory.go:435-437 | copies of one page of the cars inside, latest entry first, and their number |
| Memory.Store.AreaOccupancy | internal/store/memory.go:438-460 | one entry for each live area with its count, free places and utilization, most utilized first |
| Isolation.OutsideChangesStayOutside | internal/store/memory.go:29-60 | whatever is done to objects outside the store, the store is unchanged |
| Isolation.Perform | internal/store/memory.go:262-549 | one command of a caller that may make, keep, change or hand in any object it ever held, pointers to times included, or list and keep the results: the store does what the call says and shares no object with the caller |
| Isolation.Drive | internal/store/memory.go:29-549 | the same over any script, with objects changed at any point between calls |
| Service.WindowError | internal/service/service.go:296-304 | no error exactly for now <= start < end <= start + 7 days; a start in the past is named first |
| Service.Service.CreateAuthorization | internal/service/service.go:287-323 | as specified, with its journal entry; the result is not a stored object |
| Service.Service.Prepare | internal/service/service.go:332-362 | the fetched copy changed field by field into the new row, missing times filled into the caller's request |
| Service.Service.UpdateAuthorization | internal/service/service.go:327-368 | as specified for the lock as written, with its journal entry |
| Service.Service.ArchiveAuthorization | internal/service/service.go:369-375 | as specified, with its journal entry |
| Service.Service.EnterVehicle | internal/service/service.go:415-423 | as specified, with its journal entry |
| Service.Service.ExitVehicle | internal/service/service.go:428-436 | as specified, with its journal entry; the operator is trimmed for the record but not for the journal |
| Service.Service.Revoke | internal/service/service.go:437-444 | as specified, with its journal entry |
| Service.Service.UpdateParkingArea | internal/service/service.go:241-267 | as specified, with its journal entry |
| Service.Service.ListAuthorizations | internal/service/service.go:376-404 | one page, latest start first, of exactly the authorizations the request asks for by stored fields at the clock reading, and their number |
| Service.Service.Audit | internal/service/service.go:466-471 | one entry, by "system" if no operator is given |
| Postgres.Database.CreateAuthorization | internal/store/postgres.go:228-255 | does what the in-memory store does, with the same error except that an area that is not there reads as not found; a taken id or an empty window is refused by the schema |
| Postgres.Database.GetAuthorization | internal/store/postgres.go:256-260 | answers as the in-memory store does |
| Postgres.Database.UpdateAuthorization | internal/store/postgres.go:261-265 | commits where the in-memory store does, setting the columns it names, unless the new row names an unknown area; a row that is gone reads as modified |
| Postgres.Database.ArchiveAuthorization | internal/store/postgres.go:266-269 | does what the in-memory store does |
| Postgres.Database.EnterVehicle | internal/store/postgres.go:436-471 | does what the in-memory store does, with the same record and the same error except that an unavailable area reads as not found; the constraint of one open record per authorization never fires |
| Postgres.Database.ExitVehicle | internal/store/postgres.go:472-498 | does what the in-memory store does, for whichever open record the query and the search come upon |
| Postgres.Database.RevokeAuthorization | internal/store/postgres.go:499-518 | does what the in-memory store does |
| Postgres.Database.InsertAuthorization | internal/migrations/001_init.sql:36-50 | the row is inserted exactly if key, references and window order allow it |
| Postgres.Database.InsertRecord | internal/migrations/001_init.sql:58-72 | the row is inserted exactly if key, reference and the one open record per authorization allow it |
| Postgres.Database.WriteArea | internal/migrations/001_init.sql:26-35 | the row is written exactly if its capacity is positive and no other live area has its code |
| Postgres.Database.NoneOverlapsIff | internal/store/postgres.go:245-250 | the overlap query counts something exactly when the in-memory store finds a clash; needs that no stored status is `expired` |
| Postgres.Database.OneOpenRecord | internal/store/postgres.go:485-487 | the query for the open record of an active authorization finds the one record the search of the in-memory store finds |
| Postgres.Step | internal/store/postgres.go:228-518 | one step of interleaved calls against the database gives the same answers, calls in progress and contents as against the in-memory store |
| Postgres.Replay | internal/store/postgres.go:228-518 | the same over whole runs, if updates replace pending or cancelled rows and the rows written are ones the schema allows |

## Left out

- HTTP routing, JSON, error responses, logging, configuration, migrations and containers: they add no state.
- The id generator: new ids are arguments, assumed fresh in `Enabled`. Clock readings are arguments too; the reading of
  an update belongs to its commit, although the code reads the clock between fetch and commit.
- The mutex and `SERIALIZABLE` isolation themselves: a locked method or a transaction is one atomic step.
- Vehicles, and the update and archiving of residents and the archiving of areas: easy operations. In runs,
  `SetResident` and `SetArea` stand for anything the service may do to residents and areas, and more. Area updates are
  proved as single calls; `SetArea` covers both their steps in interleavings.
- `CreateRecord` of the store: no service function calls it, and it would bypass the lifecycle.
- Resident fields other than building, status and archived mark; the detail text of journal entries and the reason of a
  revocation.
- Residents and journal entries are values in `Memory.Store`, not objects: their copies hold no shared state that
  matters here.
- Memory.Store.AreaOccupancy: utilization is an exact quotient, so an order that differs only by rounding is not modelled.
- Sorting.SortOrder: gives one order by key; the library sort may give any other order of equal keys. Map iteration
  order is left open.
- Strings other than plates are sequences of characters; upper-casing of area codes, the parsing of a date and the
  day's midnight are done before the model's functions are called. Maximal durations of the time library are not
  modelled.
- Windows.RunsKeepNoOverlap: needs updates that ask for free windows, because updates are not checked
  (`Windows.ApartThroughoutIff` shows that the condition is exact).
- Windows.RunsKeepOrder: needs clock readings in commit order, because the clock is read before the lock is taken.
- Windows.RunsKeepEntriesInWindow: needs updates that ask for windows that hold the entries made, because the lock as
  written lets an update replace a used row (`Windows.EntriesInWindowThroughoutIff` shows that the condition is exact).
- Locking.AtMostOneCommits: needs commits that stamp later times, because a stamp is a clock reading.
- Postgres.Replay: areas are written by key with the checks of the schema; residents have no constraint of their own
  beyond the key. Writes the schema refuses, which the in-memory store accepts, are outside it.
- Sessions.Session: residents and areas are added through the store, without the field checks of the service and without
  their journal entries.
- Connections, SQL text, drivers, the database's list and occupancy queries, its microsecond timestamps, and the query
  after the commit of an exit or a revocation that fetches the row to return.
- The journal table of the database: entries are added to it without conditions.
