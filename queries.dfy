/**
  The two read queries over the imported tables: the routes, and the stops of
  the route with a given name, each cut to a limit when the limit is
  positive. The tables are in insertion order, which is the order the rows
  come back in.

  The stops query joins every stop to every route whose stif code equals the
  stop's route stif code and whose name is the one asked for, so a stop comes
  back once per such route; the limit applies to those joined rows, and the
  query object then drops repeated stops, keeping the first occurrence.
 */
module Queries {
  import opened Wrappers
  import opened PyText
  import opened Records

  /** `query.limit(limit)` when `limit > 0`, the whole result otherwise. */
  function Limit<T>(rows: seq<T>, limit: int): (r: seq<T>)
    ensures |r| <= |rows| && r == rows[..|r|]
    ensures limit > 0 ==> |r| == if limit < |rows| then limit else |rows|
    ensures limit <= 0 ==> r == rows
  {
    if 0 < limit < |rows| then rows[..limit] else rows
  }

  /** `fetch_routes(limit)`: the routes table, or its first `limit` routes
      when `limit` is positive. */
  function FetchRoutes(routes: seq<Route>, limit: int): (r: seq<Route>)
    ensures |r| <= |routes| && r == routes[..|r|]
    ensures limit > 0 ==> |r| == if limit < |routes| then limit else |routes|
    ensures limit <= 0 ==> r == routes
  {
    Limit(routes, limit)
  }

  /** `unicode(route_number or '')`: the name asked for, the empty name when
      none is given. */
  function QueryName(routeNumber: Option<string>): string
  {
    match routeNumber
    case Some(s) => s
    case None => ""
  }

  /** The join and filter condition: the route is the stop's route and has
      the name asked for. */
  predicate Joins(route: Route, stop: Stop, name: string) {
    stop.routeStifCode == route.stifCode && route.name == name
  }

  /** Some route of the table joins the stop under `name`. */
  predicate HasRoute(routes: seq<Route>, stop: Stop, name: string) {
    exists j | 0 <= j < |routes| :: Joins(routes[j], stop, name)
  }

  /** How many of the first `upto` routes join the stop under `name`. */
  function JoinsUpTo(routes: seq<Route>, stop: Stop, name: string, upto: nat): (n: nat)
    requires upto <= |routes|
    ensures n == |set j | 0 <= j < upto && Joins(routes[j], stop, name)|
    ensures n > 0 <==> exists j | 0 <= j < upto :: Joins(routes[j], stop, name)
  {
    if upto == 0 then 0
    else
      var k := upto - 1;
      var before := set j | 0 <= j < k && Joins(routes[j], stop, name);
      var here: set<int> := if Joins(routes[k], stop, name) then {k} else {};
      assert (set j | 0 <= j < upto && Joins(routes[j], stop, name)) == before + here;
      assert k !in before;
      JoinsUpTo(routes, stop, name, k) + (if Joins(routes[k], stop, name) then 1 else 0)
  }

  /** How many routes join the stop under `name`: the number of joined rows
      the stop contributes, one per joining route. */
  function MatchCount(routes: seq<Route>, stop: Stop, name: string): (n: nat)
    ensures n == |set j | 0 <= j < |routes| && Joins(routes[j], stop, name)|
    ensures n > 0 <==> HasRoute(routes, stop, name)
  {
    JoinsUpTo(routes, stop, name, |routes|)
  }

  function Repeat(x: nat, n: nat): (r: seq<nat>)
    ensures |r| == n && forall k | 0 <= k < n :: r[k] == x
  {
    seq(n, _ => x)
  }

  /** The joined rows, as the index of their stop, from stop `from` on: each
      stop once per route that joins it, stop by stop. */
  function JoinRows(routes: seq<Route>, stops: seq<Stop>, name: string, from: nat): (r: seq<nat>)
    ensures forall k | 0 <= k < |r| :: from <= r[k] < |stops| && HasRoute(routes, stops[r[k]], name)
    decreases |stops| - from
  {
    if from >= |stops| then []
    else Repeat(from, MatchCount(routes, stops[from], name)) + JoinRows(routes, stops, name, from + 1)
  }

  /** The rows of `ids` not in `seen`, each kept at its first occurrence:
      the query object's removal of repeated stops. */
  function Unique(ids: seq<nat>, seen: set<nat>): (r: seq<nat>)
    ensures |r| <= |ids|
    ensures forall x :: x in r <==> x in ids && x !in seen
    ensures forall k, l | 0 <= k < l < |r| :: r[k] != r[l]
  {
    if ids == [] then []
    else if ids[0] in seen then Unique(ids[1..], seen)
    else [ids[0]] + Unique(ids[1..], seen + {ids[0]})
  }

  /** The stops at the given indices, in that order. */
  function Select(stops: seq<Stop>, ids: seq<nat>): (r: seq<Stop>)
    requires forall k | 0 <= k < |ids| :: ids[k] < |stops|
    ensures |r| == |ids| && forall k | 0 <= k < |ids| :: r[k] == stops[ids[k]]
  {
    seq(|ids|, k requires 0 <= k < |ids| => stops[ids[k]])
  }

  /** The indices of the stops fetched: the joined rows, cut to the limit,
      without repetitions. */
  function FetchedIds(routes: seq<Route>, stops: seq<Stop>, routeNumber: Option<string>, limit: int): (r: seq<nat>)
    ensures forall k | 0 <= k < |r| :: r[k] < |stops| && HasRoute(routes, stops[r[k]], QueryName(routeNumber))
    ensures limit > 0 ==> |r| <= limit
  {
    var rows := Limit(JoinRows(routes, stops, QueryName(routeNumber), 0), limit);
    var r := Unique(rows, {});
    assert forall k | 0 <= k < |r| :: r[k] in rows;
    r
  }

  /** `fetch_stops(route_number, limit)`: stops of a route with the name
      asked for, no more than `limit` of them when it is positive. */
  function FetchStops(routes: seq<Route>, stops: seq<Stop>, routeNumber: Option<string>, limit: int): (r: seq<Stop>)
    ensures limit > 0 ==> |r| <= limit
    ensures forall k | 0 <= k < |r| :: r[k] in stops && HasRoute(routes, r[k], QueryName(routeNumber))
  {
    Select(stops, FetchedIds(routes, stops, routeNumber, limit))
  }

  // ---------------------------------------------------------------------
  // What the stops query returns
  // ---------------------------------------------------------------------

  /** The indices, from `from` on and in table order, of the stops some
      route joins under `name`. */
  function Matching(routes: seq<Route>, stops: seq<Stop>, name: string, from: nat): (r: seq<nat>)
    ensures forall k | 0 <= k < |r| :: from <= r[k] < |stops|
    decreases |stops| - from
  {
    if from >= |stops| then []
    else (if HasRoute(routes, stops[from], name) then [from] else []) + Matching(routes, stops, name, from + 1)
  }

  /** `Matching` lists exactly the stops some route joins, each once and in
      increasing order. */
  lemma {:induction false} MatchingMembers(routes: seq<Route>, stops: seq<Stop>, name: string, from: nat)
    ensures var m := Matching(routes, stops, name, from);
      && (forall i :: i in m <==> from <= i < |stops| && HasRoute(routes, stops[i], name))
      && (forall k, l | 0 <= k < l < |m| :: m[k] < m[l])
    decreases |stops| - from
  {
    if from < |stops| {
      MatchingMembers(routes, stops, name, from + 1);
      var m := Matching(routes, stops, name, from);
      var head := if HasRoute(routes, stops[from], name) then [from] else [];
      var rest := Matching(routes, stops, name, from + 1);
      assert m == head + rest;
      forall i
        ensures i in m <==> from <= i < |stops| && HasRoute(routes, stops[i], name)
      {
        assert i in m <==> i in head || i in rest;
      }
    }
  }

  /** A stop already seen contributes nothing more, however many joined rows
      it has. */
  lemma {:induction false} UniqueSkipsRepeat(x: nat, n: nat, rest: seq<nat>, seen: set<nat>)
    requires x in seen
    ensures Unique(Repeat(x, n) + rest, seen) == Unique(rest, seen)
  {
    if n == 0 {
      assert Repeat(x, n) + rest == rest;
    } else {
      assert (Repeat(x, n) + rest)[1..] == Repeat(x, n - 1) + rest;
      UniqueSkipsRepeat(x, n - 1, rest, seen);
    }
  }

  /** Without a limit, removing repeated stops from the joined rows leaves
      each matching stop once, in table order. */
  lemma {:induction false} UniqueJoinRows(routes: seq<Route>, stops: seq<Stop>, name: string, from: nat, seen: set<nat>)
    requires forall x | x in seen :: x < from
    ensures Unique(JoinRows(routes, stops, name, from), seen) == Matching(routes, stops, name, from)
    decreases |stops| - from
  {
    if from < |stops| {
      var n := MatchCount(routes, stops[from], name);
      var rest := JoinRows(routes, stops, name, from + 1);
      if n == 0 {
        assert Repeat(from, n) + rest == rest;
        UniqueJoinRows(routes, stops, name, from + 1, seen);
      } else {
        var rows := Repeat(from, n) + rest;
        assert rows[0] == from && rows[1..] == Repeat(from, n - 1) + rest;
        UniqueSkipsRepeat(from, n - 1, rest, seen + {from});
        UniqueJoinRows(routes, stops, name, from + 1, seen + {from});
      }
    }
  }

  /** With no positive limit, the stops query returns every stop that some
      route with the name asked for joins, each exactly once, in table
      order. */
  lemma FetchStopsUnlimited(routes: seq<Route>, stops: seq<Stop>, routeNumber: Option<string>, limit: int)
    requires limit <= 0
    ensures var m := Matching(routes, stops, QueryName(routeNumber), 0);
      && (forall i :: i in m <==> 0 <= i < |stops| && HasRoute(routes, stops[i], QueryName(routeNumber)))
      && FetchStops(routes, stops, routeNumber, limit) == Select(stops, m)
  {
    var name := QueryName(routeNumber);
    UniqueJoinRows(routes, stops, name, 0, {});
    MatchingMembers(routes, stops, name, 0);
  }

  /** Removing repetitions from a prefix gives a prefix of the result. */
  lemma {:induction false} UniquePrefix(ids: seq<nat>, more: seq<nat>, seen: set<nat>)
    ensures var u := Unique(ids + more, seen);
      |Unique(ids, seen)| <= |u| && Unique(ids, seen) == u[..|Unique(ids, seen)|]
  {
    if ids == [] {
      assert Unique(ids, seen) == [];
    } else {
      assert (ids + more)[0] == ids[0] && (ids + more)[1..] == ids[1..] + more;
      if ids[0] in seen {
        UniquePrefix(ids[1..], more, seen);
      } else {
        UniquePrefix(ids[1..], more, seen + {ids[0]});
      }
    }
  }

  /** A positive limit only cuts the unlimited answer short: the stops
      returned are the first ones the query returns without a limit. */
  lemma FetchStopsLimited(routes: seq<Route>, stops: seq<Stop>, routeNumber: Option<string>, limit: int)
    ensures var all := FetchStops(routes, stops, routeNumber, 0);
      var some := FetchStops(routes, stops, routeNumber, limit);
      |some| <= |all| && some == all[..|some|]
  {
    var rows := JoinRows(routes, stops, QueryName(routeNumber), 0);
    var cut := Limit(rows, limit);
    assert rows == cut + rows[|cut|..];
    UniquePrefix(cut, rows[|cut|..], {});
  }

  /** Imported route names are upper-cased, so a name asked for with a
      lower-case letter in it matches no route and fetches no stop. */
  lemma LowerCaseNameFetchesNothing(routes: seq<Route>, stops: seq<Stop>, routeNumber: Option<string>, limit: int)
    requires forall j | 0 <= j < |routes| :: exists s :: routes[j].name == Upper(s)
    requires exists k | 0 <= k < |QueryName(routeNumber)| :: 'a' <= QueryName(routeNumber)[k] <= 'z'
    ensures FetchStops(routes, stops, routeNumber, limit) == []
  {
    var name := QueryName(routeNumber);
    forall j | 0 <= j < |routes|
      ensures routes[j].name != name
    {
      var s :| routes[j].name == Upper(s);
    }
    assert forall i | 0 <= i < |stops| :: !HasRoute(routes, stops[i], name);
  }
}
