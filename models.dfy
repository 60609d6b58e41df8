/**
 * The stored user row and the queries over the users table that both the
 * handlers and identity resolution run. The ORM classes themselves
 * (app/models.py) are not part of this model: the row shape below is the one
 * the handlers read and write.
 */
module Models {
  import opened Wrappers

  /** A row of the users table: unlike the `User` response it holds the hash. */
  datatype UserRow = UserRow(id: int, email: string, hashedPassword: string, isActive: bool)

  /** Every row is stored under its own id. */
  ghost predicate KeyedById(users: map<int, UserRow>)
  {
    forall k :: k in users ==> users[k].id == k
  }

  /** No two rows share an email. */
  ghost predicate EmailsUnique(users: map<int, UserRow>)
  {
    forall a, b :: a in users && b in users && users[a].email == users[b].email ==> a == b
  }

  /** Some row has exactly this email (the comparison is case-sensitive). */
  predicate EmailTaken(users: map<int, UserRow>, email: string)
  {
    exists k :: k in users && users[k].email == email
  }

  lemma {:induction false} LeastExists(s: set<int>)
    requires s != {}
    ensures exists m :: m in s && forall k :: k in s ==> m <= k
    decreases |s|
  {
    var x := PickOne(s);
    if s == {x} {
      assert forall k :: k in s ==> x <= k;
    } else {
      var rest := s - {x};
      LeastExists(rest);
      var m :| m in rest && forall k :: k in rest ==> m <= k;
      var least := if x < m then x else m;
      forall k | k in s
        ensures least <= k
      {
        if k != x {
          assert k in rest;
        }
      }
    }
  }

  /** Some element of a non-empty set. */
  lemma PickOne(s: set<int>) returns (x: int)
    requires s != {}
    ensures x in s
  {
    if forall y :: y !in s {
      assert false;
    }
    x :| x in s;
  }

  /** The smallest element of a non-empty set of ids. */
  function Least(s: set<int>): (m: int)
    requires s != {}
    ensures m in s && forall k :: k in s ==> m <= k
  {
    LeastExists(s);
    var m :| m in s && forall k :: k in s ==> m <= k; m
  }

  /** Strictly ascending, hence without repetitions. */
  predicate Increasing(s: seq<int>)
  {
    forall i, j :: 0 <= i < j < |s| ==> s[i] < s[j]
  }

  /**
   * The ids of a table in the order a scan without ORDER BY returns them,
   * taken here to be ascending id (insertion order for generated ids).
   */
  function Ascending(s: set<int>): (r: seq<int>)
    ensures |r| == |s|
    ensures forall k :: k in s <==> k in r
    ensures Increasing(r)
    decreases |s|
  {
    if s == {} then []
    else
      var m := Least(s);
      [m] + Ascending(s - {m})
  }

  lemma MatchesNonEmpty(users: map<int, UserRow>, email: string, ids: set<int>)
    requires EmailTaken(users, email)
    requires ids == set k | k in users && users[k].email == email
    ensures ids != {}
  {
    var k :| k in users && users[k].email == email;
    assert k in ids;
  }

  /**
   * The first user row whose email equals `email`, if any (the first in id
   * order should there be several).
   */
  function UserByEmail(users: map<int, UserRow>, email: string): (r: Option<UserRow>)
    ensures r.Some? <==> EmailTaken(users, email)
    ensures r.Some? ==> r.value.email == email && r.value in users.Values
    ensures r.Some? && KeyedById(users) ==> r.value.id in users && users[r.value.id] == r.value
  {
    if !EmailTaken(users, email) then None
    else
      var ids := set k | k in users && users[k].email == email;
      MatchesNonEmpty(users, email, ids);
      Some(users[Least(ids)])
  }
}
