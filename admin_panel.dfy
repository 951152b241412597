/** The admin dashboard component: its list of requests, the two stored
    collections it reads and replaces (`pickupRequests`, `registeredUsers`),
    the first load, the accept and reject handlers, and the access gate in
    front of the stat cards and the pending list. */
module AdminPage {
  import opened Wrappers
  import opened PickupRequests
  import opened RewardPoints
  import opened RegisteredUsers

  /** The points accepting request `id` awards, or `None` when no request has
      that identifier (then no table is built and no one is credited). */
  function Award(rs: seq<Request>, id: string, draws: map<string, int>): (r: Option<int>)
    requires ValidDraws(draws)
    ensures r.None? <==> !HasId(rs, id)
    ensures r.Some? ==> SumMin(FindById(rs, id).value.wasteTypes) <= r.value
                        <= SumMax(FindById(rs, id).value.wasteTypes)
    ensures r.Some? ==> r.value == TotalPoints(PointsTable(draws), FindById(rs, id).value.wasteTypes)
  {
    match FindById(rs, id)
    case None => None
    case Some(req) =>
      TotalBounds(draws, req.wasteTypes);
      Some(TotalPoints(PointsTable(draws), req.wasteTypes))
  }

  /** Whether accepting request `id` writes the users collection: the request
      exists and some stored user is its requester. */
  predicate CreditsUser(rs: seq<Request>, id: string, us: seq<User>) {
    HasId(rs, id) && HasUser(us, FindById(rs, id).value.userId)
  }

  /** The users collection after accepting request `id`. */
  function UsersAfterCompletion(rs: seq<Request>, id: string, draws: map<string, int>, us: seq<User>): (r: seq<User>)
    requires ValidDraws(draws)
    ensures |r| == |us|
    ensures !CreditsUser(rs, id, us) ==> r == us
  {
    match FindById(rs, id)
    case None => us
    case Some(req) =>
      if HasUser(us, req.userId) then Credited(us, req.userId, Award(rs, id, draws).value)
      else us
  }

  /** Accepting an identifier no request has changes neither collection and awards nothing. */
  lemma CompleteUnknownRequest(rs: seq<Request>, id: string, draws: map<string, int>, us: seq<User>)
    requires ValidDraws(draws)
    requires !HasId(rs, id)
    ensures MarkCompleted(rs, id) == rs
    ensures Award(rs, id, draws) == None
    ensures UsersAfterCompletion(rs, id, draws, us) == us
  {
    MarkCompletedNoPending(rs, id);
  }

  /** When the requester is registered, only the first user with the
      requester's identifier gains the award, and the points held over all
      users grow by exactly that award. */
  lemma CompleteCreditsRequester(rs: seq<Request>, id: string, draws: map<string, int>, us: seq<User>, k: int)
    requires ValidDraws(draws)
    requires HasId(rs, id)
    requires IsFirstMatch(us, FindById(rs, id).value.userId, k)
    ensures UsersAfterCompletion(rs, id, draws, us) == us[k := Add(us[k], Award(rs, id, draws).value)]
    ensures TotalUserPoints(UsersAfterCompletion(rs, id, draws, us))
            == TotalUserPoints(us) + Award(rs, id, draws).value
  {
    var req := FindById(rs, id).value;
    var total := Award(rs, id, draws).value;
    assert HasUser(us, req.userId);
    CreditedFirstMatch(us, req.userId, total, k);
    CreditedConservesPoints(us, req.userId, total);
  }

  /** What the page shows: a denial for anyone but an administrator, the stat
      cards and the pending requests otherwise. */
  datatype Screen = AccessDenied | Dashboard(counters: Counters, pending: seq<Request>)

  function Render(isAdmin: bool, rs: seq<Request>): (v: Screen)
    ensures v.AccessDenied? <==> !isAdmin
    ensures v.Dashboard? ==> v.counters.total == |rs| && v.counters.pending == |v.pending|
    ensures v.Dashboard? ==> forall x :: x in v.pending <==> x in rs && x.status == Pending
    ensures v.Dashboard? ==> v.counters == Summary(rs) && v.pending == PendingRequests(rs)
  {
    if !isAdmin then AccessDenied
    else
      var c := Summary(rs);
      Dashboard(c, PendingRequests(rs))
  }

  /** The component with the storage it works against. `requestWrites` and
      `userWrites` count how often each stored collection is replaced. */
  class AdminPanel {
    var requests: seq<Request>
    var storedRequests: seq<Request>
    var storedUsers: seq<User>
    var requestWrites: nat
    var userWrites: nat

    /** A freshly mounted component: an empty list over the given storage. */
    constructor (stored: seq<Request>, users: seq<User>)
      ensures requests == [] && storedRequests == stored && storedUsers == users
      ensures requestWrites == 0 && userWrites == 0
    {
      requests := [];
      storedRequests := stored;
      storedUsers := users;
      requestWrites := 0;
      userWrites := 0;
    }

    /** The first load: seed and adopt the samples when the store is empty,
        adopt the stored list otherwise. */
    method Load()
      modifies this
      ensures requests == Loaded(old(storedRequests)) && storedRequests == requests
      ensures requestWrites == old(requestWrites) + (if old(storedRequests) == [] then 1 else 0)
      ensures storedUsers == old(storedUsers) && userWrites == old(userWrites)
    {
      if |storedRequests| == 0 {
        storedRequests := DefaultRequests;
        requestWrites := requestWrites + 1;
        requests := DefaultRequests;
      } else {
        requests := storedRequests;
      }
    }

    /** Accept request `id`: mark it completed and store the list; then, if the
        request existed, total its points and credit its requester. Returns
        the award the confirmation names, `None` when there is none. */
    method CompleteRequest(id: string, draws: map<string, int>) returns (awarded: Option<int>)
      requires ValidDraws(draws)
      modifies this
      ensures requests == MarkCompleted(old(requests), id) && storedRequests == requests
      ensures requestWrites == old(requestWrites) + 1
      ensures awarded == Award(old(requests), id, draws)
      ensures storedUsers == UsersAfterCompletion(old(requests), id, draws, old(storedUsers))
      ensures userWrites == old(userWrites) + (if CreditsUser(old(requests), id, old(storedUsers)) then 1 else 0)
    {
      var before := requests;
      requests := MarkCompleted(requests, id);
      storedRequests := requests;
      requestWrites := requestWrites + 1;

      var completed := FindById(before, id);
      awarded := None;
      if completed.Some? {
        var table := PointsTable(draws);
        var total := TotalPoints(table, completed.value.wasteTypes);
        var parsed := storedUsers;
        var users := new User[|parsed|](i requires 0 <= i < |parsed| => parsed[i]);
        assert users[..] == parsed;
        var found := CreditUser(users, completed.value.userId, total);
        if found {
          storedUsers := users[..];
          userWrites := userWrites + 1;
        }
        awarded := Some(total);
      }
    }

    /** Reject request `id`: drop it from the list and store the list. */
    method RejectRequest(id: string)
      modifies this
      ensures requests == Reject(old(requests), id) && storedRequests == requests
      ensures requestWrites == old(requestWrites) + 1
      ensures storedUsers == old(storedUsers) && userWrites == old(userWrites)
    {
      requests := Reject(requests, id);
      storedRequests := requests;
      requestWrites := requestWrites + 1;
    }
  }
}
