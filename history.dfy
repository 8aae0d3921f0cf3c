/**
 * GET /api/plant-identifications: the signed-in user's ten most recent
 * identifications, newest first.
 */
module History {
  import opened Wrappers
  import opened Arrays
  import opened Http
  import opened Session

  /** A row of `plant_identifications`; `identifiedAt` is in seconds since the epoch. */
  datatype Identification = Identification(
    id: nat,
    userId: int,
    plantName: string,
    scientificName: string,
    identifiedAt: int)

  /** The columns the query selects: `id, plant_name, scientific_name, identified_at`. */
  datatype Row = Row(id: nat, plantName: string, scientificName: string, identifiedAt: int)

  /** `LIMIT 10`. */
  const Limit := 10

  function Project(x: Identification): Row {
    Row(x.id, x.plantName, x.scientificName, x.identifiedAt)
  }

  /** `getUserIdFromToken`: the token's `userId`, or `None` where verification throws. */
  function UserIdFromToken(c: Crypto, token: string, now: int): (r: Option<int>)
    ensures r.Some? <==> Verify(c, token, now).Some?
    ensures r.Some? ==> r.value == Verify(c, token, now).value.userId
  {
    match Verify(c, token, now)
    case None => None
    case Some(claims) => Some(claims.userId)
  }

  /** `ORDER BY identified_at DESC`. */
  ghost predicate NewestFirst(s: seq<Identification>) {
    forall i, j :: 0 <= i < j < |s| ==> s[i].identifiedAt >= s[j].identifiedAt
  }

  /** Places `x` in a newest-first sequence, before the rows with the same time. */
  function Insert(x: Identification, s: seq<Identification>): (r: seq<Identification>)
    requires NewestFirst(s)
    ensures NewestFirst(r)
    ensures multiset(r) == multiset(s) + multiset{x}
    ensures |r| == |s| + 1 && (r[0] == x || (|s| > 0 && r[0] == s[0]))
    decreases |s|
  {
    if s == [] || x.identifiedAt >= s[0].identifiedAt then
      ConsNewestFirst(x, s);
      [x] + s
    else
      var rest := Insert(x, s[1..]);
      assert s == [s[0]] + s[1..];
      ConsNewestFirst(s[0], rest);
      [s[0]] + rest
  }

  /** A row no older than the head of a newest-first sequence can go in front of it. */
  lemma ConsNewestFirst(y: Identification, s: seq<Identification>)
    requires NewestFirst(s) && (s == [] || s[0].identifiedAt <= y.identifiedAt)
    ensures NewestFirst([y] + s)
  {
    var r := [y] + s;
    forall i, j | 0 <= i < j < |r| ensures r[i].identifiedAt >= r[j].identifiedAt {
      assert r[j] == s[j - 1];
      if i > 0 {
        assert r[i] == s[i - 1];
      } else if j > 1 {
        assert s[0].identifiedAt >= s[j - 1].identifiedAt;
      }
    }
  }

  /** The rows newest first; rows with the same time keep their table order. */
  function SortNewestFirst(s: seq<Identification>): (r: seq<Identification>)
    ensures NewestFirst(r)
    ensures multiset(r) == multiset(s)
    decreases |s|
  {
    if s == [] then []
    else
      assert s == [s[0]] + s[1..];
      Insert(s[0], SortNewestFirst(s[1..]))
  }

  /** The rows that belong to the user. */
  function OwnedBy(table: seq<Identification>, userId: int): seq<Identification> {
    Filter(table, (x: Identification) => x.userId == userId)
  }

  /** The first `n` rows, or all of them when there are fewer. */
  function Take(s: seq<Identification>, n: nat): (r: seq<Identification>)
    ensures |r| == (if |s| <= n then |s| else n)
    ensures r == s[..|r|]
  {
    if |s| <= n then s else s[..n]
  }

  /** The rows the query returns, in order. */
  function Query(table: seq<Identification>, userId: int): (r: seq<Identification>)
    ensures |r| <= Limit
    ensures NewestFirst(r)
  {
    Take(SortNewestFirst(OwnedBy(table, userId)), Limit)
  }

  /** Every row returned is one of the user's rows of the table. */
  lemma QueryOwnRows(table: seq<Identification>, userId: int, i: nat)
    requires i < |Query(table, userId)|
    ensures Query(table, userId)[i] in table && Query(table, userId)[i].userId == userId
  {
    var owned := OwnedBy(table, userId);
    var sorted := SortNewestFirst(owned);
    var r := Query(table, userId);
    assert r[i] == sorted[i];
    assert r[i] in multiset(owned) by {
      assert sorted[i] in multiset(sorted);
    }
    assert r[i] in owned;
  }

  /** Cutting a newest-first sequence: what is cut off is no newer than what is kept. */
  lemma CutNewestFirst(s: seq<Identification>, k: nat)
    requires NewestFirst(s) && k <= |s|
    ensures multiset(s) - multiset(s[..k]) == multiset(s[k..])
    ensures forall x: Identification, y: Identification :: x in multiset(s[k..]) && y in s[..k] ==> x.identifiedAt <= y.identifiedAt
  {
    assert s == s[..k] + s[k..];
    forall x: Identification, y: Identification | x in multiset(s[k..]) && y in s[..k] ensures x.identifiedAt <= y.identifiedAt {
      assert x in s[k..];
      var a :| 0 <= a < |s| - k && s[k..][a] == x;
      var b :| 0 <= b < k && s[..k][b] == y;
      assert s[b] == y && s[k + a] == x;
    }
  }

  /**
   * The query returns the user's rows entire when there are at most ten;
   * otherwise exactly ten, and every row left out is no newer than any
   * row returned.
   */
  lemma QueryKeepsNewest(table: seq<Identification>, userId: int)
    ensures var owned := OwnedBy(table, userId);
            var r := Query(table, userId);
            && multiset(r) <= multiset(owned)
            && |r| == (if |owned| <= Limit then |owned| else Limit)
            && (|owned| <= Limit ==> multiset(r) == multiset(owned))
            && forall x: Identification, y: Identification :: x in multiset(owned) - multiset(r) && y in r ==> x.identifiedAt <= y.identifiedAt
  {
    var owned := OwnedBy(table, userId);
    TakeNewest(owned, SortNewestFirst(owned));
  }

  /** Taking the first ten of any newest-first arrangement of `owned`. */
  lemma TakeNewest(owned: seq<Identification>, sorted: seq<Identification>)
    requires NewestFirst(sorted) && multiset(sorted) == multiset(owned)
    ensures var r := Take(sorted, Limit);
            && multiset(r) <= multiset(owned)
            && |r| == (if |owned| <= Limit then |owned| else Limit)
            && (|owned| <= Limit ==> multiset(r) == multiset(owned))
            && forall x: Identification, y: Identification :: x in multiset(owned) - multiset(r) && y in r ==> x.identifiedAt <= y.identifiedAt
  {
    assert |sorted| == |owned| by {
      assert |multiset(sorted)| == |multiset(owned)|;
    }
    var r := Take(sorted, Limit);
    var rest := sorted[|r|..];
    assert sorted == r + rest;
    assert multiset(owned) == multiset(r) + multiset(rest);
    CutNewestFirst(sorted, |r|);
    assert multiset(owned) - multiset(r) == multiset(rest);
    if |owned| <= Limit {
      assert rest == [];
    }
  }

  /** The query is empty exactly when the user has no rows. */
  lemma QueryEmpty(table: seq<Identification>, userId: int)
    ensures Query(table, userId) == [] <==> forall i :: 0 <= i < |table| ==> table[i].userId != userId
  {
    QueryKeepsNewest(table, userId);
    if Query(table, userId) != [] {
      QueryOwnRows(table, userId, 0);
      var x := Query(table, userId)[0];
      var i :| 0 <= i < |table| && table[i] == x;
    }
  }

  function ProjectAll(rows: seq<Identification>): (r: seq<Row>)
    ensures |r| == |rows| && forall i :: 0 <= i < |rows| ==> r[i] == Project(rows[i])
  {
    seq(|rows|, i requires 0 <= i < |rows| => Project(rows[i]))
  }

  datatype Body = Rows(rows: seq<Row>) | Error(error: string) | DatabaseError(error: string, details: string)

  /**
   * `GET`. `token` is the request's `token` cookie; `dbError` is the
   * message the query throws with, if it throws.
   */
  function Get(c: Crypto, table: seq<Identification>, dbError: Option<string>, token: Option<string>, now: int): (r: Response<Body>)
    ensures (token.None? || UserIdFromToken(c, token.value, now) in {None, Some(0)}) ==> r == Response(401, Error("Not authenticated"))
    ensures r.status == 500 <==> token.Some? && UserIdFromToken(c, token.value, now) !in {None, Some(0)} && dbError.Some?
    ensures r.status == 200 ==> && token.Some? && UserIdFromToken(c, token.value, now).Some?
                                && var id := UserIdFromToken(c, token.value, now).value;
                                && id != 0 && Query(table, id) != [] && r.body == Rows(ProjectAll(Query(table, id)))
    ensures token.Some? && UserIdFromToken(c, token.value, now) !in {None, Some(0)} && dbError.None? ==>
              && (r.status == 200 || r.status == 404)
              && (r.status == 404 <==> Query(table, UserIdFromToken(c, token.value, now).value) == [])
    ensures r.status == 404 ==> r.body == Error("No plant identifications found")
  {
    match token
    case None => Response(401, Error("Not authenticated"))
    case Some(t) =>
      match UserIdFromToken(c, t, now)
      case None => Response(401, Error("Not authenticated"))
      case Some(id) =>
        if id == 0 then Response(401, Error("Not authenticated"))
        else
          match dbError
          case Some(message) => Response(500, DatabaseError("Invalid token or database error", message))
          case None =>
            var rows := Query(table, id);
            if rows == [] then Response(404, Error("No plant identifications found"))
            else Response(200, Rows(ProjectAll(rows)))
  }

  /** A signed-in user with identifications gets them; one without gets 404, not an empty list. */
  lemma GetAfterLogin(c: Crypto, table: seq<Identification>, userId: int, issuedAt: int, now: int)
    requires Sound(c) && userId != 0 && issuedAt <= now < issuedAt + TokenLifetime
    ensures var r := Get(c, table, None, Some(IssueToken(c, userId, issuedAt)), now);
            r.status == 404 <==> forall i :: 0 <= i < |table| ==> table[i].userId != userId
    ensures var r := Get(c, table, None, Some(IssueToken(c, userId, issuedAt)), now);
            r.status == 200 || r.status == 404
  {
    IssuedTokenVerifies(c, userId, issuedAt, now);
    QueryEmpty(table, userId);
  }
}
