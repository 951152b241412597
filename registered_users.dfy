/** The registered-users collection and the point credit of a completion: find
    the first user whose identifier is the request's user id and add the award
    to that user's points, a missing `points` field counting as 0. */
module RegisteredUsers {
  import opened Wrappers

  /** A stored user record. `profile` stands for every other field of the
      record, which the credit carries unchanged. */
  datatype User = User(id: string, points: Option<int>, profile: string)

  /** The user's points, 0 when the record has none. */
  function PointsOrZero(u: User): int {
    match u.points
    case Some(p) => p
    case None => 0
  }

  predicate HasUser(us: seq<User>, id: string) {
    exists i :: 0 <= i < |us| && us[i].id == id
  }

  /** `k` is the position of the first user with identifier `id`. */
  predicate IsFirstMatch(us: seq<User>, id: string, k: int) {
    0 <= k < |us| && us[k].id == id && forall j :: 0 <= j < k ==> us[j].id != id
  }

  /** The same user with `amount` more points. */
  function Add(u: User, amount: int): (v: User)
    ensures v.id == u.id && v.profile == u.profile
    ensures v.points.Some? && v.points.value - amount == PointsOrZero(u)
  {
    u.(points := Some(PointsOrZero(u) + amount))
  }

  /** The collection after crediting `amount` to the first user with identifier `id`. */
  function Credited(us: seq<User>, id: string, amount: int): (r: seq<User>)
    ensures |r| == |us|
  {
    if us == [] then []
    else if us[0].id == id then [Add(us[0], amount)] + us[1..]
    else [us[0]] + Credited(us[1..], id, amount)
  }

  /** Only the first matching user changes, and only in its points. */
  lemma {:induction false} CreditedFirstMatch(us: seq<User>, id: string, amount: int, k: int)
    requires IsFirstMatch(us, id, k)
    ensures Credited(us, id, amount) == us[k := Add(us[k], amount)]
  {
    if k > 0 {
      assert IsFirstMatch(us[1..], id, k - 1);
      CreditedFirstMatch(us[1..], id, amount, k - 1);
    }
  }

  /** Without a matching user the collection is unchanged. */
  lemma {:induction false} CreditedNoMatch(us: seq<User>, id: string, amount: int)
    requires !HasUser(us, id)
    ensures Credited(us, id, amount) == us
  {
    if us != [] {
      assert forall i :: 0 <= i < |us[1..]| ==> us[1..][i] == us[i + 1];
      CreditedNoMatch(us[1..], id, amount);
    }
  }

  /** The sum of all users' points (missing ones as 0). */
  function TotalUserPoints(us: seq<User>): int {
    if us == [] then 0 else PointsOrZero(us[0]) + TotalUserPoints(us[1..])
  }

  /** A credit adds exactly the award to the points held over all users when a
      user matches, and nothing otherwise. */
  lemma {:induction false} CreditedConservesPoints(us: seq<User>, id: string, amount: int)
    ensures TotalUserPoints(Credited(us, id, amount))
            == TotalUserPoints(us) + (if HasUser(us, id) then amount else 0)
  {
    if us != [] {
      var r := Credited(us, id, amount);
      if us[0].id == id {
        assert r[1..] == us[1..];
      } else {
        assert r[1..] == Credited(us[1..], id, amount);
        assert HasUser(us, id) == HasUser(us[1..], id) by {
          if HasUser(us, id) {
            var i :| 0 <= i < |us| && us[i].id == id;
            assert us[1..][i - 1].id == id;
          }
        }
        CreditedConservesPoints(us[1..], id, amount);
      }
    }
  }

  /** The position of the first user with identifier `id`, or -1 (`findIndex`). */
  method FindUserIndex(users: array<User>, id: string) returns (k: int)
    ensures -1 <= k < users.Length
    ensures k == -1 <==> !HasUser(users[..], id)
    ensures k != -1 ==> IsFirstMatch(users[..], id, k)
  {
    var i := 0;
    while i < users.Length
      invariant 0 <= i <= users.Length
      invariant forall j :: 0 <= j < i ==> users[j].id != id
    {
      if users[i].id == id {
        return i;
      }
      i := i + 1;
    }
    return -1;
  }

  /** Credit `amount` to the first user with identifier `id`, in place; report
      whether such a user exists. */
  method CreditUser(users: array<User>, id: string, amount: int) returns (found: bool)
    modifies users
    ensures found == HasUser(old(users[..]), id)
    ensures users[..] == Credited(old(users[..]), id, amount)
    ensures !found ==> users[..] == old(users[..])
  {
    var k := FindUserIndex(users, id);
    found := k != -1;
    if found {
      CreditedFirstMatch(users[..], id, amount, k);
      users[k] := Add(users[k], amount);
    } else {
      CreditedNoMatch(users[..], id, amount);
    }
  }
}
