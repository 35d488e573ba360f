/** What a listing of authorizations shows, request by request, in terms of what is stored. */
module ListRules {
  import opened Model
  import opened ServiceSpec
  import opened Utf8
  import Listing
  import Plate

  /** Nothing but spaces and tabs. */
  predicate OnlyBlanks(p: PlateText) {
    forall i | 0 <= i < |Decode(p)| :: Decode(p)[i] == 0x20 || Decode(p)[i] == 0x09
  }

  /** The status seen at an instant: pending until the window ends, expired from then on, every other as stored. */
  predicate SeenAs(a: Authorization, st: AuthStatus, now: Time) {
    match st
    case Pending => a.status == Pending && now < a.end
    case Expired => a.status == Expired || (a.status == Pending && a.end <= now)
    case _ => a.status == st
  }

  predicate Lives(s: State, residentId: Id, building: string) {
    exists k | k in s.residents ::
      s.residents[k].id == residentId && s.residents[k].building == building && s.residents[k].archivedAt == None
  }

  /** A day is 86,400 seconds and soon is 21,600 seconds. */
  predicate Shown(s: State, req: ListRequest, now: Time, midnight: Time, a: Authorization) {
    && a.archivedAt == None
    && (OnlyBlanks(req.plate) || (Plate.SamePlate(req.plate, a.plate) && Plate.Normalized(a.plate) == a.plate))
    && (req.areaId == "" || a.areaId == req.areaId)
    && (match req.status
        case Some(st) => SeenAs(a, st, now)
        case None => req.validOn == None || a.start < req.validOn.value < a.end)
    && (req.today ==> midnight < a.start < midnight + 86_400_000_000_000)
    && (req.expiringSoon ==> a.end < now + 21_600_000_000_000)
    && (req.building == "" || Lives(s, a.residentId, req.building))
  }

  /** The authorizations a request asks for. */
  function AllShown(s: State, req: ListRequest, now: Time, midnight: Time): set<Id> {
    set k | k in s.auths && Shown(s, req, now, midnight, s.auths[k])
  }

  lemma {:induction false} FoldedToNothing(rs: seq<Rune>)
    ensures Plate.Folded(rs) == [] <==> forall i | 0 <= i < |rs| :: rs[i] == 0x20 || rs[i] == 0x09
  {
    if rs != [] {
      FoldedToNothing(rs[1..]);
      assert forall i | 0 < i < |rs| :: rs[i] == rs[1..][i - 1];
    }
  }

  lemma NothingNormalizedIff(p: PlateText)
    ensures Plate.Normalized(p) == [] <==> OnlyBlanks(p)
  {
    FoldedToNothing(Decode(p));
  }

  /** A stored plate is the normal form of the typed one exactly when it is the same plate, in normal form itself. */
  lemma NormalFormIs(typed: PlateText, stored: PlateText)
    ensures Plate.Normalized(typed) == stored
            <==> Plate.SamePlate(typed, stored) && Plate.Normalized(stored) == stored
  {
    Plate.NormalizedIdempotent(typed);
    Plate.NormalizedEqualIff(typed, stored);
  }

  /** For every request and state: the filter passes exactly the authorizations that the request asks for. */
  lemma ShownIff(s: State, req: ListRequest, now: Time, midnight: Time, a: Authorization)
    ensures Listing.AuthMatches(s, FilterOf(req, now, midnight), a) <==> Shown(s, req, now, midnight, a)
  {
    NothingNormalizedIff(req.plate);
    NormalFormIs(req.plate, a.plate);
    hide OnlyBlanks, Plate.SamePlate, Plate.Normalized;
    assert Lives(s, a.residentId, req.building) <==> Listing.LivesIn(s, a.residentId, req.building);
  }

  lemma AllShownAreMatching(s: State, req: ListRequest, now: Time, midnight: Time)
    ensures Listing.MatchingAuths(s, FilterOf(req, now, midnight)) == AllShown(s, req, now, midnight)
  {
    forall k | k in s.auths
      ensures Listing.AuthMatches(s, FilterOf(req, now, midnight), s.auths[k])
              <==> Shown(s, req, now, midnight, s.auths[k])
    {
      ShownIff(s, req, now, midnight, s.auths[k]);
    }
    hide Listing.AuthMatches, Shown;
  }
}
