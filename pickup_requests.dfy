/** Pickup requests and the pure list operations the admin dashboard applies to
    them: the status update of a completion (an `Array.prototype.map`), the
    removal of a rejection and the partition used by the counters (both
    `Array.prototype.filter`), the lookup of the completed request
    (`Array.prototype.find`), the four sample requests and the initial load. */
module PickupRequests {
  import opened Wrappers

  /** A request is either waiting for pickup or done; there is no third state. */
  datatype Status = Pending | Completed

  /** One pickup request. `createdAt` is kept as the text the request store
      holds: the model never looks inside it and carries it unchanged. */
  datatype Request = Request(
    id: string,
    userId: string,
    userName: string,
    userEmail: string,
    userPhone: string,
    userAddress: string,
    date: string,
    wasteTypes: seq<string>,
    status: Status,
    createdAt: string)

  /** Some entry of `rs` carries identifier `id`. */
  predicate HasId(rs: seq<Request>, id: string) {
    exists i :: 0 <= i < |rs| && rs[i].id == id
  }

  /** No identifier occurs twice: the invariant the request store is meant to keep. */
  predicate UniqueIds(rs: seq<Request>) {
    forall i, j :: 0 <= i < j < |rs| ==> rs[i].id != rs[j].id
  }

  // ---------------------------------------------------------------------------
  // Completion: the status update
  // ---------------------------------------------------------------------------

  /** The list after accepting request `id`: every entry with that identifier
      becomes `Completed`, every other entry stays as it was and where it was. */
  function MarkCompleted(rs: seq<Request>, id: string): (r: seq<Request>)
    ensures |r| == |rs|
    ensures forall i :: 0 <= i < |rs| && rs[i].id != id ==> r[i] == rs[i]
    ensures forall i :: 0 <= i < |rs| && rs[i].id == id ==> r[i] == rs[i].(status := Completed)
  {
    if rs == [] then []
    else
      var rest := MarkCompleted(rs[1..], id);
      assert forall i :: 1 <= i < |rs| ==> rs[i] == rs[1..][i - 1];
      [if rs[0].id == id then rs[0].(status := Completed) else rs[0]] + rest
  }

  /** Accepting the same request twice leaves the list as accepting it once. */
  lemma {:induction false} MarkCompletedIdempotent(rs: seq<Request>, id: string)
    ensures MarkCompleted(MarkCompleted(rs, id), id) == MarkCompleted(rs, id)
  {
    if rs != [] {
      MarkCompletedIdempotent(rs[1..], id);
    }
  }

  /** When no entry with identifier `id` is still pending (in particular when
      there is no such entry at all) the status update returns its input. */
  lemma {:induction false} MarkCompletedNoPending(rs: seq<Request>, id: string)
    requires forall i :: 0 <= i < |rs| && rs[i].id == id ==> rs[i].status == Completed
    ensures MarkCompleted(rs, id) == rs
  {
    if rs != [] {
      assert forall i :: 0 <= i < |rs[1..]| ==> rs[1..][i] == rs[i + 1];
      MarkCompletedNoPending(rs[1..], id);
    }
  }

  /** The status update never adds, removes or renames an identifier. */
  lemma MarkCompletedKeepsUniqueIds(rs: seq<Request>, id: string)
    requires UniqueIds(rs)
    ensures UniqueIds(MarkCompleted(rs, id))
  {
    var r := MarkCompleted(rs, id);
    assert forall i :: 0 <= i < |rs| ==> r[i].id == rs[i].id;
  }

  // ---------------------------------------------------------------------------
  // Lookup of the completed request
  // ---------------------------------------------------------------------------

  /** The first entry with identifier `id`, or `None` when there is none. */
  function FindById(rs: seq<Request>, id: string): (r: Option<Request>)
    ensures r.None? <==> !HasId(rs, id)
    ensures r.Some? ==> exists i :: 0 <= i < |rs| && rs[i] == r.value && rs[i].id == id &&
                                     forall j :: 0 <= j < i ==> rs[j].id != id
  {
    if rs == [] then None
    else if rs[0].id == id then Some(rs[0])
    else
      var r := FindById(rs[1..], id);
      assert forall i :: 1 <= i < |rs| ==> rs[i] == rs[1..][i - 1];
      assert r.Some? ==> exists i :: 1 <= i < |rs| && rs[i] == r.value && rs[i].id == id &&
                                     forall j :: 0 <= j < i ==> rs[j].id != id;
      r
  }

  // ---------------------------------------------------------------------------
  // Filtering: rejection and the counters
  // ---------------------------------------------------------------------------

  /** The entries of `s` that `keep` accepts, in their original order. */
  function Filter<T>(s: seq<T>, keep: T -> bool): (r: seq<T>)
    ensures |r| <= |s|
    ensures forall x :: x in r ==> x in s && keep(x)
    ensures forall x :: x in s && keep(x) ==> x in r
  {
    if s == [] then []
    else (if keep(s[0]) then [s[0]] else []) + Filter(s[1..], keep)
  }

  /** Filtering a concatenation filters each part and keeps them in order. */
  lemma {:induction false} FilterAppend<T>(a: seq<T>, b: seq<T>, keep: T -> bool)
    ensures Filter(a + b, keep) == Filter(a, keep) + Filter(b, keep)
  {
    if a == [] {
      assert a + b == b;
    } else {
      assert (a + b)[1..] == a[1..] + b;
      FilterAppend(a[1..], b, keep);
    }
  }

  /** A filter that rejects nothing returns its input. */
  lemma {:induction false} FilterKeepsAll<T>(s: seq<T>, keep: T -> bool)
    requires forall x :: x in s ==> keep(x)
    ensures Filter(s, keep) == s
  {
    if s != [] {
      FilterKeepsAll(s[1..], keep);
    }
  }

  /** Splitting by a predicate and by its negation accounts for every entry once. */
  lemma {:induction false} FilterPartition<T>(s: seq<T>, keep: T -> bool, drop: T -> bool)
    requires forall x :: drop(x) == !keep(x)
    ensures |Filter(s, keep)| + |Filter(s, drop)| == |s|
  {
    if s != [] {
      FilterPartition(s[1..], keep, drop);
    }
  }

  /** The list after rejecting request `id`: every entry with that identifier is gone. */
  function Reject(rs: seq<Request>, id: string): (r: seq<Request>)
    ensures |r| <= |rs|
    ensures !HasId(r, id)
    ensures forall x :: x in r ==> x in rs
    ensures forall x :: x in rs && x.id != id ==> x in r
  {
    var r := Filter(rs, (x: Request) => x.id != id);
    assert forall i :: 0 <= i < |r| ==> r[i] in r;
    r
  }

  /** Rejection keeps the surviving entries in their original order. */
  lemma RejectAppend(a: seq<Request>, b: seq<Request>, id: string)
    ensures Reject(a + b, id) == Reject(a, id) + Reject(b, id)
  {
    FilterAppend(a, b, (x: Request) => x.id != id);
  }

  /** Rejecting an identifier that is not in the list changes nothing. */
  lemma RejectAbsent(rs: seq<Request>, id: string)
    requires !HasId(rs, id)
    ensures Reject(rs, id) == rs
  {
    FilterKeepsAll(rs, (x: Request) => x.id != id);
  }

  /** Rejecting twice is rejecting once. */
  lemma RejectIdempotent(rs: seq<Request>, id: string)
    ensures Reject(Reject(rs, id), id) == Reject(rs, id)
  {
    RejectAbsent(Reject(rs, id), id);
  }

  /** The tail of a list holds the identifier exactly when the list does,
      unless the identifier is the head's. */
  lemma HasIdTail(rs: seq<Request>, id: string)
    requires rs != [] && rs[0].id != id
    ensures HasId(rs, id) == HasId(rs[1..], id)
  {
    if HasId(rs, id) {
      var i :| 0 <= i < |rs| && rs[i].id == id;
      assert rs[1..][i - 1].id == id;
    }
    if HasId(rs[1..], id) {
      var i :| 0 <= i < |rs[1..]| && rs[1..][i].id == id;
      assert rs[i + 1].id == id;
    }
  }

  /** The tail of a list with unique identifiers has unique identifiers and
      does not hold the head's identifier. */
  lemma UniqueIdsTail(rs: seq<Request>)
    requires rs != [] && UniqueIds(rs)
    ensures UniqueIds(rs[1..]) && !HasId(rs[1..], rs[0].id)
  {
    var tail := rs[1..];
    assert forall i :: 0 <= i < |tail| ==> tail[i] == rs[i + 1];
  }

  /** With unique identifiers, rejection removes exactly one entry when the
      identifier is present and none when it is absent. */
  lemma {:induction false} RejectLength(rs: seq<Request>, id: string)
    requires UniqueIds(rs)
    ensures |Reject(rs, id)| == if HasId(rs, id) then |rs| - 1 else |rs|
  {
    if rs != [] {
      var tail := rs[1..];
      UniqueIdsTail(rs);
      assert rs == [rs[0]] + tail;
      RejectAppend([rs[0]], tail, id);
      if rs[0].id == id {
        RejectAbsent(tail, id);
      } else {
        HasIdTail(rs, id);
        RejectLength(tail, id);
      }
    }
  }

  /** A filtered list keeps the uniqueness of identifiers. */
  lemma {:induction false} FilterKeepsUniqueIds(rs: seq<Request>, keep: Request -> bool)
    requires UniqueIds(rs)
    ensures UniqueIds(Filter(rs, keep))
  {
    if rs != [] {
      var tail := rs[1..];
      assert forall i :: 0 <= i < |tail| ==> tail[i] == rs[i + 1];
      FilterKeepsUniqueIds(tail, keep);
      var ft := Filter(tail, keep);
      forall x | x in ft ensures x.id != rs[0].id {
        var i :| 0 <= i < |tail| && tail[i] == x;
        assert rs[i + 1] == x;
      }
    }
  }

  /** Rejection keeps the uniqueness of identifiers. */
  lemma RejectKeepsUniqueIds(rs: seq<Request>, id: string)
    requires UniqueIds(rs)
    ensures UniqueIds(Reject(rs, id))
  {
    FilterKeepsUniqueIds(rs, (x: Request) => x.id != id);
  }

  /** The identifier of each request, in list order. */
  function Ids(rs: seq<Request>): seq<string> {
    if rs == [] then [] else [rs[0].id] + Ids(rs[1..])
  }

  /** Rejection shortens the list by exactly the number of entries that carry
      the identifier, whether or not identifiers are unique. */
  lemma {:induction false} RejectCount(rs: seq<Request>, id: string)
    ensures |Reject(rs, id)| == |rs| - multiset(Ids(rs))[id]
  {
    if rs != [] {
      var keep := (x: Request) => x.id != id;
      assert Reject(rs, id) == (if keep(rs[0]) then [rs[0]] else []) + Reject(rs[1..], id);
      assert multiset(Ids(rs)) == multiset{rs[0].id} + multiset(Ids(rs[1..]));
      RejectCount(rs[1..], id);
    }
  }

  // ---------------------------------------------------------------------------
  // Summary counters
  // ---------------------------------------------------------------------------

  /** The requests with status `s`, in list order. */
  function WithStatus(rs: seq<Request>, s: Status): seq<Request> {
    Filter(rs, (x: Request) => x.status == s)
  }

  function PendingRequests(rs: seq<Request>): seq<Request> {
    WithStatus(rs, Pending)
  }

  function CompletedRequests(rs: seq<Request>): seq<Request> {
    WithStatus(rs, Completed)
  }

  /** The status of each request, position by position. */
  function Statuses(rs: seq<Request>): (r: seq<Status>)
    ensures |r| == |rs| && forall i :: 0 <= i < |rs| ==> r[i] == rs[i].status
  {
    seq(|rs|, i requires 0 <= i < |rs| => rs[i].status)
  }

  /** Filtering by status keeps as many requests as that status occurs in the list. */
  lemma {:induction false} WithStatusCount(rs: seq<Request>, s: Status)
    ensures |WithStatus(rs, s)| == multiset(Statuses(rs))[s]
  {
    if rs != [] {
      assert Statuses(rs) == [rs[0].status] + Statuses(rs[1..]);
      WithStatusCount(rs[1..], s);
    }
  }

  /** Every request is either pending or completed. */
  lemma {:induction false} StatusCountsSum(rs: seq<Request>)
    ensures multiset(Statuses(rs))[Pending] + multiset(Statuses(rs))[Completed] == |rs|
  {
    if rs != [] {
      assert Statuses(rs) == [rs[0].status] + Statuses(rs[1..]);
      StatusCountsSum(rs[1..]);
    }
  }

  /** The four figures of the stat cards. */
  datatype Counters = Counters(pending: nat, completed: nat, total: nat, pointsAwarded: nat)

  /** The stat cards: how many requests are pending, how many completed, how
      many there are in all, and a "points awarded" figure of 500 per completed
      request, whatever was credited. */
  function Summary(rs: seq<Request>): (c: Counters)
    ensures c.pending == multiset(Statuses(rs))[Pending]
    ensures c.completed == multiset(Statuses(rs))[Completed]
    ensures c.pending == |PendingRequests(rs)| && c.completed == |CompletedRequests(rs)|
    ensures c.pending + c.completed == c.total == |rs|
    ensures c.pointsAwarded == 500 * c.completed
    ensures forall x :: x in rs && x.status == Pending ==> x in PendingRequests(rs)
    ensures forall x :: x in rs && x.status == Completed ==> x in CompletedRequests(rs)
  {
    WithStatusCount(rs, Pending);
    WithStatusCount(rs, Completed);
    StatusCountsSum(rs);
    Counters(|PendingRequests(rs)|, |CompletedRequests(rs)|, |rs|, |CompletedRequests(rs)| * 500)
  }

  /** Three pending and two completed requests show 3, 2, 5 and 1000 points. */
  lemma SummaryOfThreePendingTwoCompleted(rs: seq<Request>)
    requires multiset(Statuses(rs))[Pending] == 3 && multiset(Statuses(rs))[Completed] == 2
    ensures Summary(rs) == Counters(3, 2, 5, 1000)
  {
  }

  /** Accepting a pending request, identifiers being unique, moves exactly one
      request from pending to completed and raises the displayed points by 500. */
  lemma {:induction false} CompleteMovesOneToCompleted(rs: seq<Request>, id: string, k: nat)
    requires UniqueIds(rs)
    requires k < |rs| && rs[k].id == id && rs[k].status == Pending
    ensures |PendingRequests(MarkCompleted(rs, id))| == |PendingRequests(rs)| - 1
    ensures |CompletedRequests(MarkCompleted(rs, id))| == |CompletedRequests(rs)| + 1
    ensures Summary(MarkCompleted(rs, id)).pointsAwarded == Summary(rs).pointsAwarded + 500
  {
    var tail := rs[1..];
    assert forall i :: 0 <= i < |tail| ==> tail[i] == rs[i + 1];
    var r := MarkCompleted(rs, id);
    assert r[1..] == MarkCompleted(tail, id);
    if k == 0 {
      MarkCompletedNoPending(tail, id);
    } else {
      assert rs[0].id != id;
      CompleteMovesOneToCompleted(tail, id, k - 1);
    }
  }

  // ---------------------------------------------------------------------------
  // Initial load
  // ---------------------------------------------------------------------------

  /** The sample requests written to an empty request store. */
  const DefaultRequests: seq<Request> := [
    Request("req-001", "test-user", "Rajesh Kumar", "rajesh@gmail.com", "+91 98765 43210",
            "BTM Layout, 2nd Stage, Bangalore, Karnataka 560076", "2024-01-20",
            ["Plastic Bottles", "Paper/Cardboard", "Metal Cans"], Pending, "2024-01-18"),
    Request("req-002", "test-user-2", "Priya Sharma", "priya@gmail.com", "+91 87654 32109",
            "Koramangala, 5th Block, Bangalore, Karnataka 560095", "2024-01-21",
            ["E-waste", "Plastic Containers"], Pending, "2024-01-19"),
    Request("req-003", "test-user-3", "Arun Patel", "arun@gmail.com", "+91 76543 21098",
            "Whitefield, EPIP Zone, Bangalore, Karnataka 560066", "2024-01-22",
            ["Glass Bottles", "Paper/Cardboard", "Organic Waste"], Pending, "2024-01-20"),
    Request("req-004", "test-user-4", "Lakshmi Devi", "lakshmi@gmail.com", "+91 65432 10987",
            "Indiranagar, 100 Feet Road, Bangalore, Karnataka 560038", "2024-01-23",
            ["Mixed Plastic", "Metal Cans"], Pending, "2024-01-21")
  ]

  /** The list the dashboard adopts from the stored one: the samples when the
      store is empty, the stored list otherwise. */
  function Loaded(stored: seq<Request>): (r: seq<Request>)
    ensures r != []
    ensures stored != [] ==> r == stored
  {
    if |stored| == 0 then DefaultRequests else stored
  }

  /** Loading from an empty store yields exactly the four samples, all pending. */
  lemma LoadEmptyStore()
    ensures Loaded([]) == DefaultRequests && |Loaded([])| == 4
    ensures forall x :: x in Loaded([]) ==> x.status == Pending
  {
  }

  /** The samples carry the distinct identifiers req-001 to req-004. */
  lemma DefaultIdsDistinct()
    ensures [DefaultRequests[0].id, DefaultRequests[1].id, DefaultRequests[2].id, DefaultRequests[3].id]
            == ["req-001", "req-002", "req-003", "req-004"]
    ensures UniqueIds(DefaultRequests)
  {
    var d := DefaultRequests;
    assert d[0].id[6] == '1' && d[1].id[6] == '2' && d[2].id[6] == '3' && d[3].id[6] == '4';
  }

  /** After the first load the cards show 4 pending, 0 completed, 4 in all and
      0 points awarded. */
  lemma DefaultSummary()
    ensures Summary(Loaded([])) == Counters(4, 0, 4, 0)
  {
    LoadEmptyStore();
    FilterKeepsAll(DefaultRequests, (x: Request) => x.status == Pending);
  }
}
