/** The API routes of api/server/router.go: handlers by base and endpoint, and aliases of bases, which
get every endpoint of their base. The alias graph may have cycles. */
module Router {
  import opened Options

  type Route = string
  type Endpoint = string
  type Handler = nat

  type Routes = map<Route, map<Endpoint, Handler>>
  type Aliases = map<Route, seq<Route>>

  predicate Has(routes: Routes, r: Route, e: Endpoint) {
    r in routes && e in routes[r]
  }

  function Added(routes: Routes, r: Route, e: Endpoint, h: Handler): Routes {
    routes[r := (if r in routes then routes[r] else map[])[e := h]]
  }

  function AliasesOf(aliases: Aliases, b: Route): seq<Route> {
    if b in aliases then aliases[b] else []
  }

  // ---- the alias graph ----------------------------------------------------------------------

  predicate IsPath(aliases: Aliases, path: seq<Route>) {
    path != [] && forall i :: 0 <= i < |path| - 1 ==> path[i + 1] in AliasesOf(aliases, path[i])
  }

  /** An alias, or an alias of an alias, and so on; every route reaches itself. */
  ghost predicate Reaches(aliases: Aliases, a: Route, b: Route) {
    exists path :: IsPath(aliases, path) && path[0] == a && path[|path| - 1] == b
  }

  lemma ReachesSelf(aliases: Aliases, a: Route)
    ensures Reaches(aliases, a, a)
  {
    assert IsPath(aliases, [a]);
    assert [a][0] == a;
  }

  lemma ReachesThrough(aliases: Aliases, a: Route, x: Route, b: Route)
    requires x in AliasesOf(aliases, a) && Reaches(aliases, x, b)
    ensures Reaches(aliases, a, b)
  {
    var path :| IsPath(aliases, path) && path[0] == x && path[|path| - 1] == b;
    var longer := [a] + path;
    assert longer[0] == a && longer[|longer| - 1] == b;
  }

  lemma ReachesSplits(aliases: Aliases, a: Route, b: Route) returns (x: Route)
    requires Reaches(aliases, a, b) && a != b
    ensures x in AliasesOf(aliases, a) && Reaches(aliases, x, b)
  {
    var path :| IsPath(aliases, path) && path[0] == a && path[|path| - 1] == b;
    x := path[1];
    var rest := path[1..];
    assert path[0 + 1] in AliasesOf(aliases, path[0]);
    forall i | 0 <= i < |rest| - 1
      ensures rest[i + 1] in AliasesOf(aliases, rest[i])
    {
      assert path[i + 1 + 1] in AliasesOf(aliases, path[i + 1]);
    }
    assert IsPath(aliases, rest) && rest[0] == x && rest[|rest| - 1] == b;
  }

  // ---- ways through the graph ---------------------------------------------------------------

  /** The route that a way leads to; a way takes an alias by its place in the list, so an alias listed
      twice is on two ways. */
  function Way(aliases: Aliases, base: Route, way: seq<nat>): Option<Route> {
    if way == [] then Some(base)
    else
      var p := Way(aliases, base, way[..|way| - 1]);
      if p.None? || way[|way| - 1] >= |AliasesOf(aliases, p.value)| then None
      else Some(AliasesOf(aliases, p.value)[way[|way| - 1]])
  }

  lemma {:induction false} WayFrom(aliases: Aliases, base: Route, i: nat, way: seq<nat>)
    requires i < |AliasesOf(aliases, base)|
    ensures Way(aliases, base, [i] + way) == Way(aliases, AliasesOf(aliases, base)[i], way)
  {
    if way == [] {
      assert [i] + way == [i] && [i][..0] == [];
      assert Way(aliases, base, []) == Some(base);
    } else {
      WayFrom(aliases, base, i, way[..|way| - 1]);
      assert ([i] + way)[..|way|] == [i] + way[..|way| - 1];
    }
  }

  lemma {:induction false} WayFails(aliases: Aliases, base: Route, i: nat, way: seq<nat>)
    requires i >= |AliasesOf(aliases, base)|
    ensures Way(aliases, base, [i] + way) == None
  {
    if way == [] {
      assert [i] + way == [i] && [i][..0] == [];
      assert Way(aliases, base, []) == Some(base);
    } else {
      WayFails(aliases, base, i, way[..|way| - 1]);
      assert ([i] + way)[..|way|] == [i] + way[..|way| - 1];
    }
  }

  lemma {:induction false} WayOfPath(aliases: Aliases, path: seq<Route>) returns (way: seq<nat>)
    requires IsPath(aliases, path)
    ensures Way(aliases, path[0], way) == Some(path[|path| - 1])
    decreases |path|
  {
    way := [];
    if |path| > 1 {
      var n := |path| - 1;
      var before := WayOfPath(aliases, path[..n]);
      assert path[n - 1 + 1] in AliasesOf(aliases, path[n - 1]);
      var i :| 0 <= i < |AliasesOf(aliases, path[n - 1])| && AliasesOf(aliases, path[n - 1])[i] == path[n];
      way := before + [i];
      assert way[..|way| - 1] == before;
    }
  }

  lemma {:induction false} PathOfWay(aliases: Aliases, base: Route, way: seq<nat>) returns (path: seq<Route>)
    requires Way(aliases, base, way).Some?
    ensures IsPath(aliases, path) && path[0] == base && path[|path| - 1] == Way(aliases, base, way).value
  {
    path := [base];
    if way != [] {
      var before := PathOfWay(aliases, base, way[..|way| - 1]);
      path := before + [Way(aliases, base, way).value];
    }
  }

  lemma WaysReach(aliases: Aliases, a: Route, b: Route)
    ensures Reaches(aliases, a, b) <==> exists way :: Way(aliases, a, way) == Some(b)
  {
    if Reaches(aliases, a, b) {
      var path :| IsPath(aliases, path) && path[0] == a && path[|path| - 1] == b;
      var way := WayOfPath(aliases, path);
    }
    if way :| Way(aliases, a, way) == Some(b) {
      var path := PathOfWay(aliases, a, way);
    }
  }

  /** No route is reached from `base` in two ways. */
  ghost predicate Tree(aliases: Aliases, base: Route) {
    forall way, way' :: Way(aliases, base, way).Some? && Way(aliases, base, way) == Way(aliases, base, way') ==> way == way'
  }

  /** No route is reached from the listed ones in two ways. */
  ghost predicate Forest(aliases: Aliases, xs: seq<Route>) {
    && (forall i :: 0 <= i < |xs| ==> Tree(aliases, xs[i]))
    && (forall i, j, r :: 0 <= i < j < |xs| && Reaches(aliases, xs[i], r) ==> !Reaches(aliases, xs[j], r))
  }

  lemma TreeGivesForest(aliases: Aliases, base: Route)
    requires Tree(aliases, base)
    ensures Forest(aliases, AliasesOf(aliases, base))
    ensures forall i :: 0 <= i < |AliasesOf(aliases, base)| ==> !Reaches(aliases, AliasesOf(aliases, base)[i], base)
  {
    var xs := AliasesOf(aliases, base);
    forall i, way, way' | 0 <= i < |xs| && Way(aliases, xs[i], way).Some? && Way(aliases, xs[i], way) == Way(aliases, xs[i], way')
      ensures way == way'
    {
      WayFrom(aliases, base, i, way);
      WayFrom(aliases, base, i, way');
      assert ([i] + way)[1..] == way && ([i] + way')[1..] == way';
    }
    forall i, j, r | 0 <= i < j < |xs| && Reaches(aliases, xs[i], r)
      ensures !Reaches(aliases, xs[j], r)
    {
      if Reaches(aliases, xs[j], r) { TwoWays(aliases, base, i, j, r); }
    }
    forall i | 0 <= i < |xs|
      ensures !Reaches(aliases, xs[i], base)
    {
      if Reaches(aliases, xs[i], base) { WayBack(aliases, base, i); }
    }
  }

  lemma WayBack(aliases: Aliases, base: Route, i: nat)
    requires i < |AliasesOf(aliases, base)| && Reaches(aliases, AliasesOf(aliases, base)[i], base)
    ensures !Tree(aliases, base)
  {
    var x := AliasesOf(aliases, base)[i];
    WaysReach(aliases, x, base);
    var way: seq<nat> :| Way(aliases, x, way) == Some(base);
    WayFrom(aliases, base, i, way);
    assert Way(aliases, base, []) == Some(base);
    assert |[i] + way| > 0;
  }

  lemma TwoWays(aliases: Aliases, base: Route, i: nat, j: nat, r: Route)
    requires i < j < |AliasesOf(aliases, base)|
    requires Reaches(aliases, AliasesOf(aliases, base)[i], r) && Reaches(aliases, AliasesOf(aliases, base)[j], r)
    ensures !Tree(aliases, base)
  {
    var xs := AliasesOf(aliases, base);
    WaysReach(aliases, xs[i], r);
    WaysReach(aliases, xs[j], r);
    var way: seq<nat> :| Way(aliases, xs[i], way) == Some(r);
    var way': seq<nat> :| Way(aliases, xs[j], way') == Some(r);
    WayFrom(aliases, base, i, way);
    WayFrom(aliases, base, j, way');
    assert ([i] + way)[0] != ([j] + way')[0];
  }

  lemma FirstStep(aliases: Aliases, base: Route, way: seq<nat>) returns (i: nat, rest: seq<nat>)
    requires way != [] && Way(aliases, base, way).Some?
    ensures way == [i] + rest && i < |AliasesOf(aliases, base)| && Way(aliases, base, way) == Way(aliases, AliasesOf(aliases, base)[i], rest)
    ensures Reaches(aliases, AliasesOf(aliases, base)[i], Way(aliases, base, way).value)
  {
    i, rest := way[0], way[1..];
    assert way == [i] + rest;
    if i >= |AliasesOf(aliases, base)| {
      WayFails(aliases, base, i, rest);
    } else {
      WayFrom(aliases, base, i, rest);
      WaysReach(aliases, AliasesOf(aliases, base)[i], Way(aliases, base, way).value);
    }
  }

  lemma ForestGivesTree(aliases: Aliases, base: Route)
    requires Forest(aliases, AliasesOf(aliases, base))
    requires forall i :: 0 <= i < |AliasesOf(aliases, base)| ==> !Reaches(aliases, AliasesOf(aliases, base)[i], base)
    ensures Tree(aliases, base)
  {
    forall way, way' | Way(aliases, base, way).Some? && Way(aliases, base, way) == Way(aliases, base, way')
      ensures way == way'
    {
      if way != [] {
        var i, rest := FirstStep(aliases, base, way);
        if way' != [] {
          var i', rest' := FirstStep(aliases, base, way');
          assert i == i';
          assert rest == rest';
        }
      } else if way' != [] {
        var i', rest' := FirstStep(aliases, base, way');
      }
    }
  }

  predicate NoRepeats(xs: seq<Route>) {
    forall i, j :: 0 <= i < j < |xs| ==> xs[i] != xs[j]
  }

  /** No route that `base` reaches has the endpoint. */
  ghost predicate Untouched(aliases: Aliases, routes: Routes, base: Route, e: Endpoint) {
    forall r :: Reaches(aliases, base, r) ==> !Has(routes, r, e)
  }

  ghost predicate AllUntouched(aliases: Aliases, routes: Routes, xs: seq<Route>, e: Endpoint) {
    forall j :: 0 <= j < |xs| ==> Untouched(aliases, routes, xs[j], e)
  }

  lemma UntouchedFromAliases(aliases: Aliases, routes: Routes, base: Route, e: Endpoint)
    ensures Untouched(aliases, routes, base, e) <==> !Has(routes, base, e) && AllUntouched(aliases, routes, AliasesOf(aliases, base), e)
  {
    var xs := AliasesOf(aliases, base);
    if !Has(routes, base, e) && AllUntouched(aliases, routes, xs, e) {
      forall r | Reaches(aliases, base, r)
        ensures !Has(routes, r, e)
      {
        if r != base {
          var x := ReachesSplits(aliases, base, r);
          var j :| 0 <= j < |xs| && xs[j] == x;
        }
      }
    }
    if Untouched(aliases, routes, base, e) {
      ReachesSelf(aliases, base);
      forall j, r | 0 <= j < |xs| && Reaches(aliases, xs[j], r)
        ensures !Has(routes, r, e)
      {
        ReachesThrough(aliases, base, xs[j], r);
      }
    }
  }

  /** Each endpoint of a base is registered under each of its aliases. */
  ghost predicate Closed(aliases: Aliases, routes: Routes) {
    forall b, x, e :: x in AliasesOf(aliases, b) && Has(routes, b, e) ==> Has(routes, x, e)
  }

  /** Then an endpoint is registered under everything its base reaches. */
  lemma {:induction false} ClosedReaches(aliases: Aliases, routes: Routes, path: seq<Route>, e: Endpoint)
    requires Closed(aliases, routes) && IsPath(aliases, path) && Has(routes, path[0], e)
    ensures Has(routes, path[|path| - 1], e)
    decreases |path|
  {
    if |path| > 1 {
      var n := |path| - 1;
      assert IsPath(aliases, path[..n]);
      ClosedReaches(aliases, routes, path[..n], e);
      assert path[n] in AliasesOf(aliases, path[n - 1]);
    }
  }

  type Pairs = set<(Route, Endpoint)>

  /** Closed, but for the pairs in `open`, whose aliases are still being filled. */
  ghost predicate ClosedBut(aliases: Aliases, routes: Routes, open: Pairs) {
    forall b, x, f :: x in AliasesOf(aliases, b) && Has(routes, b, f) && (b, f) !in open ==> Has(routes, x, f)
  }

  /** Every handler is kept; what is new is this endpoint with this handler, under routes that `base`
      reaches. */
  ghost predicate OnlyAdds(aliases: Aliases, was: Routes, now: Routes, base: Route, e: Endpoint, h: Handler) {
    && (forall r, f :: Has(was, r, f) ==> Has(now, r, f) && now[r][f] == was[r][f])
    && (forall r, f :: Has(now, r, f) && !Has(was, r, f) ==> f == e && now[r][f] == h && Reaches(aliases, base, r))
  }

  lemma OnlyAddsFirst(aliases: Aliases, was: Routes, base: Route, e: Endpoint, h: Handler)
    requires !Has(was, base, e)
    ensures OnlyAdds(aliases, was, Added(was, base, e, h), base, e, h)
  {
    ReachesSelf(aliases, base);
  }

  /** The same for several routes one after the other. */
  ghost predicate OnlyVia(aliases: Aliases, was: Routes, now: Routes, xs: seq<Route>, e: Endpoint, h: Handler) {
    && (forall r, f :: Has(was, r, f) ==> Has(now, r, f) && now[r][f] == was[r][f])
    && (forall r, f :: Has(now, r, f) && !Has(was, r, f) ==>
          f == e && now[r][f] == h && exists j :: 0 <= j < |xs| && Reaches(aliases, xs[j], r))
  }

  lemma OnlyViaMore(aliases: Aliases, was: Routes, mid: Routes, now: Routes, xs: seq<Route>, i: nat, e: Endpoint, h: Handler)
    requires i < |xs| && OnlyVia(aliases, was, mid, xs[..i], e, h) && OnlyAdds(aliases, mid, now, xs[i], e, h)
    ensures OnlyVia(aliases, was, now, xs[..i + 1], e, h)
  {
    var ys := xs[..i + 1];
    forall r, f | Has(now, r, f) && !Has(was, r, f)
      ensures f == e && now[r][f] == h && exists j :: 0 <= j < |ys| && Reaches(aliases, ys[j], r)
    {
      if Has(mid, r, f) {
        var j :| 0 <= j < i && Reaches(aliases, xs[..i][j], r);
        assert ys[j] == xs[..i][j];
      } else {
        assert ys[i] == xs[i];
      }
    }
  }

  /** First the route, then its aliases. */
  lemma OnlyAddsWithAliases(aliases: Aliases, was: Routes, mid: Routes, now: Routes, base: Route, e: Endpoint, h: Handler)
    requires OnlyAdds(aliases, was, mid, base, e, h) && OnlyVia(aliases, mid, now, AliasesOf(aliases, base), e, h)
    ensures OnlyAdds(aliases, was, now, base, e, h)
  {
    var xs := AliasesOf(aliases, base);
    forall r, f | Has(now, r, f) && !Has(was, r, f)
      ensures f == e && now[r][f] == h && Reaches(aliases, base, r)
    {
      if !Has(mid, r, f) {
        var j :| 0 <= j < |xs| && Reaches(aliases, xs[j], r);
        ReachesThrough(aliases, base, xs[j], r);
      }
    }
  }

  ghost function Missing(routes: Routes, all: set<Route>, e: Endpoint): set<Route> {
    set r | r in all && !Has(routes, r, e)
  }

  ghost predicate Within(aliases: Aliases, all: set<Route>) {
    forall b, x :: x in AliasesOf(aliases, b) ==> x in all
  }

  lemma MissingShrinks(was: Routes, now: Routes, all: set<Route>, base: Route, e: Endpoint)
    requires (forall r :: Has(was, r, e) ==> Has(now, r, e)) && base in all && !Has(was, base, e) && Has(now, base, e)
    ensures Missing(now, all, e) < Missing(was, all, e)
  {
    assert base in Missing(was, all, e) && base !in Missing(now, all, e);
  }

  lemma MissingMonotone(was: Routes, now: Routes, all: set<Route>, e: Endpoint)
    requires forall r :: Has(was, r, e) ==> Has(now, r, e)
    ensures Missing(now, all, e) <= Missing(was, all, e)
  {
  }

  lemma OpenOne(aliases: Aliases, was: Routes, open: Pairs, base: Route, e: Endpoint, h: Handler)
    requires ClosedBut(aliases, was, open)
    ensures ClosedBut(aliases, Added(was, base, e, h), open + {(base, e)})
  {
    var now := Added(was, base, e, h);
    forall b, x, f | x in AliasesOf(aliases, b) && Has(now, b, f) && (b, f) !in open + {(base, e)}
      ensures Has(now, x, f)
    {
      assert Has(was, b, f);
    }
  }

  lemma CloseOne(aliases: Aliases, routes: Routes, open: Pairs, base: Route, e: Endpoint)
    requires ClosedBut(aliases, routes, open + {(base, e)})
    requires forall x :: x in AliasesOf(aliases, base) ==> Has(routes, x, e)
    ensures ClosedBut(aliases, routes, open)
  {
  }

  // ---- which alias belongs to which base ----------------------------------------------------

  /** `baseOf` gives the one base of every alias, and the reserved routes are the aliases. */
  ghost predicate Owned(aliases: Aliases, reserved: set<Route>, baseOf: map<Route, Route>) {
    && baseOf.Keys == reserved
    && (forall b, x :: x in AliasesOf(aliases, b) ==> x in baseOf && baseOf[x] == b)
    && (forall x :: x in baseOf ==> x in AliasesOf(aliases, baseOf[x]))
  }

  ghost function Rebased(baseOf: map<Route, Route>, xs: seq<Route>, base: Route): map<Route, Route> {
    map x | x in baseOf.Keys + (set y | y in xs) :: if x in xs then base else baseOf[x]
  }

  function WithAliases(aliases: Aliases, base: Route, xs: seq<Route>): Aliases {
    aliases[base := AliasesOf(aliases, base) + xs]
  }

  lemma AliasesAfter(aliases: Aliases, base: Route, xs: seq<Route>, b: Route, x: Route)
    ensures x in AliasesOf(WithAliases(aliases, base, xs), b) <==> x in AliasesOf(aliases, b) || (b == base && x in xs)
  {
  }

  lemma RebasedAt(baseOf: map<Route, Route>, xs: seq<Route>, base: Route, x: Route)
    ensures x in Rebased(baseOf, xs, base) <==> x in baseOf || x in xs
    ensures x in xs ==> Rebased(baseOf, xs, base)[x] == base
    ensures x in baseOf && x !in xs ==> Rebased(baseOf, xs, base)[x] == baseOf[x]
  {
    assert x in xs <==> x in set y | y in xs;
  }

  /** New aliases that were not reserved get this base; every alias still has exactly one. */
  lemma OwnedAfter(aliases: Aliases, reserved: set<Route>, baseOf: map<Route, Route>, base: Route, xs: seq<Route>)
    requires Owned(aliases, reserved, baseOf) && forall x :: x in xs ==> x !in reserved
    ensures Owned(WithAliases(aliases, base, xs), reserved + (set y | y in xs), Rebased(baseOf, xs, base))
  {
    var aliases', baseOf' := WithAliases(aliases, base, xs), Rebased(baseOf, xs, base);
    forall b, x | x in AliasesOf(aliases', b)
      ensures x in baseOf' && baseOf'[x] == b
    {
      AliasesAfter(aliases, base, xs, b, x);
      RebasedAt(baseOf, xs, base, x);
    }
    forall x | x in baseOf'
      ensures x in AliasesOf(aliases', baseOf'[x])
    {
      RebasedAt(baseOf, xs, base, x);
      AliasesAfter(aliases, base, xs, baseOf'[x], x);
    }
  }

  /** Nothing goes, and no handler changes. */
  ghost predicate Keeps(was: Routes, now: Routes) {
    forall r, f :: Has(was, r, f) ==> Has(now, r, f) && now[r][f] == was[r][f]
  }

  ghost predicate AllHave(routes: Routes, xs: seq<Route>, e: Endpoint) {
    forall j :: 0 <= j < |xs| ==> Has(routes, xs[j], e)
  }

  lemma AllHaveMore(was: Routes, now: Routes, xs: seq<Route>, i: nat, e: Endpoint)
    requires i < |xs| && AllHave(was, xs[..i], e) && Keeps(was, now) && Has(now, xs[i], e)
    ensures AllHave(now, xs[..i + 1], e)
  {
    var ys := xs[..i + 1];
    forall j | 0 <= j < |ys|
      ensures Has(now, ys[j], e)
    {
      if j < i { assert Has(was, xs[..i][j], e); }
    }
  }

  // ---- when adding succeeds -----------------------------------------------------------------

  /** Everything that the routes reach has the endpoint. */
  ghost predicate AllReached(aliases: Aliases, routes: Routes, xs: seq<Route>, e: Endpoint) {
    forall j, r :: 0 <= j < |xs| && Reaches(aliases, xs[j], r) ==> Has(routes, r, e)
  }

  ghost predicate Fresh(aliases: Aliases, routes: Routes, xs: seq<Route>, e: Endpoint) {
    Forest(aliases, xs) && AllUntouched(aliases, routes, xs, e)
  }

  /** One route more: it must be a tree, without the endpoint, apart from what was filled before. */
  lemma FreshMore(aliases: Aliases, was: Routes, mid: Routes, xs: seq<Route>, i: nat, e: Endpoint, h: Handler)
    requires i < |xs| && OnlyVia(aliases, was, mid, xs[..i], e, h)
    requires Fresh(aliases, was, xs[..i], e) ==> AllReached(aliases, mid, xs[..i], e)
    ensures Fresh(aliases, was, xs[..i + 1], e) <==>
              Fresh(aliases, was, xs[..i], e) && Tree(aliases, xs[i]) && Untouched(aliases, mid, xs[i], e)
  {
    var ys, zs := xs[..i], xs[..i + 1];
    assert zs == ys + [xs[i]];
    if Fresh(aliases, was, ys, e) && Tree(aliases, xs[i]) && Untouched(aliases, mid, xs[i], e) {
      FreshBuilds(aliases, was, mid, ys, xs[i], e, h);
    }
    if Fresh(aliases, was, zs, e) { FreshSplits(aliases, was, mid, ys, xs[i], e, h); }
  }

  lemma FreshBuilds(aliases: Aliases, was: Routes, mid: Routes, ys: seq<Route>, x: Route, e: Endpoint, h: Handler)
    requires OnlyVia(aliases, was, mid, ys, e, h) && Fresh(aliases, was, ys, e) && AllReached(aliases, mid, ys, e)
    requires Tree(aliases, x) && Untouched(aliases, mid, x, e)
    ensures Fresh(aliases, was, ys + [x], e)
  {
    var zs := ys + [x];
    forall j | 0 <= j < |zs|
      ensures Untouched(aliases, was, zs[j], e) && Tree(aliases, zs[j])
    {
      if j < |ys| { assert zs[j] == ys[j]; }
    }
    forall j, k, r | 0 <= j < k < |zs| && Reaches(aliases, zs[j], r)
      ensures !Reaches(aliases, zs[k], r)
    {
      assert zs[j] == ys[j];
      if k < |ys| { assert zs[k] == ys[k]; }
    }
  }

  lemma FreshSplits(aliases: Aliases, was: Routes, mid: Routes, ys: seq<Route>, x: Route, e: Endpoint, h: Handler)
    requires OnlyVia(aliases, was, mid, ys, e, h) && Fresh(aliases, was, ys + [x], e)
    ensures Fresh(aliases, was, ys, e) && Tree(aliases, x) && Untouched(aliases, mid, x, e)
  {
    var zs, n := ys + [x], |ys|;
    assert zs[n] == x;
    forall j | 0 <= j < n
      ensures Tree(aliases, ys[j]) && Untouched(aliases, was, ys[j], e)
    {
      assert zs[j] == ys[j];
    }
    forall j, k, r | 0 <= j < k < n && Reaches(aliases, ys[j], r)
      ensures !Reaches(aliases, ys[k], r)
    {
      assert zs[j] == ys[j] && zs[k] == ys[k];
    }
    forall j, r | 0 <= j < n && Reaches(aliases, ys[j], r)
      ensures !Reaches(aliases, x, r)
    {
      assert zs[j] == ys[j];
    }
    assert Untouched(aliases, was, zs[n], e);
  }

  lemma AllReachedMore(aliases: Aliases, was: Routes, now: Routes, xs: seq<Route>, i: nat, e: Endpoint)
    requires i < |xs| && AllReached(aliases, was, xs[..i], e) && Keeps(was, now)
    requires forall r :: Reaches(aliases, xs[i], r) ==> Has(now, r, e)
    ensures AllReached(aliases, now, xs[..i + 1], e)
  {
    var ys := xs[..i + 1];
    forall j, r | 0 <= j < |ys| && Reaches(aliases, ys[j], r)
      ensures Has(now, r, e)
    {
      if j < i { assert xs[..i][j] == ys[j]; }
    }
  }

  /** The route itself, which has just got the endpoint, counts as filled for its aliases. */
  lemma FreshRoute(aliases: Aliases, was: Routes, base: Route, e: Endpoint, h: Handler)
    requires !Has(was, base, e)
    ensures Fresh(aliases, Added(was, base, e, h), AliasesOf(aliases, base), e) <==> Tree(aliases, base) && Untouched(aliases, was, base, e)
  {
    var xs, mid := AliasesOf(aliases, base), Added(was, base, e, h);
    UntouchedFromAliases(aliases, was, base, e);
    if Tree(aliases, base) && Untouched(aliases, was, base, e) {
      TreeGivesForest(aliases, base);
    }
    if Fresh(aliases, mid, xs, e) {
      forall i | 0 <= i < |xs|
        ensures !Reaches(aliases, xs[i], base) && Untouched(aliases, was, xs[i], e)
      {
        assert Untouched(aliases, mid, xs[i], e);
      }
      ForestGivesTree(aliases, base);
    }
  }

  lemma ReachedThroughAliases(aliases: Aliases, routes: Routes, base: Route, e: Endpoint)
    requires Has(routes, base, e) && AllReached(aliases, routes, AliasesOf(aliases, base), e)
    ensures forall r :: Reaches(aliases, base, r) ==> Has(routes, r, e)
  {
    var xs := AliasesOf(aliases, base);
    forall r | Reaches(aliases, base, r)
      ensures Has(routes, r, e)
    {
      if r != base {
        var x := ReachesSplits(aliases, base, r);
        var j :| 0 <= j < |xs| && xs[j] == x;
      }
    }
  }

  /** From a base that is not itself an alias, two ways to one route come from a repeat in a list only:
      every alias has one base. */
  lemma TreeFromBase(aliases: Aliases, reserved: set<Route>, baseOf: map<Route, Route>, base: Route)
    requires Owned(aliases, reserved, baseOf) && base !in reserved
    ensures Tree(aliases, base) <==> forall r :: Reaches(aliases, base, r) ==> NoRepeats(AliasesOf(aliases, r))
  {
    if Tree(aliases, base) {
      forall r | Reaches(aliases, base, r)
        ensures NoRepeats(AliasesOf(aliases, r))
      {
        TreeHasNoRepeats(aliases, base, r);
      }
    }
    if forall r :: Reaches(aliases, base, r) ==> NoRepeats(AliasesOf(aliases, r)) {
      CleanIsReached(aliases, base);
      forall way, way' | Way(aliases, base, way).Some? && Way(aliases, base, way) == Way(aliases, base, way')
        ensures way == way'
      {
        OneWay(aliases, reserved, baseOf, base, way, way');
      }
    }
  }

  lemma TreeHasNoRepeats(aliases: Aliases, base: Route, r: Route)
    requires Tree(aliases, base) && Reaches(aliases, base, r)
    ensures NoRepeats(AliasesOf(aliases, r))
  {
    WaysReach(aliases, base, r);
    var way: seq<nat> :| Way(aliases, base, way) == Some(r);
    var xs := AliasesOf(aliases, r);
    forall i: nat, j: nat | i < j < |xs|
      ensures xs[i] != xs[j]
    {
      WayOn(aliases, base, way, i);
      WayOn(aliases, base, way, j);
      assert (way + [i])[|way|] != (way + [j])[|way|];
    }
  }

  lemma WayOn(aliases: Aliases, base: Route, way: seq<nat>, i: nat)
    requires Way(aliases, base, way).Some? && i < |AliasesOf(aliases, Way(aliases, base, way).value)|
    ensures Way(aliases, base, way + [i]) == Some(AliasesOf(aliases, Way(aliases, base, way).value)[i])
  {
    assert (way + [i])[..|way|] == way;
  }

  lemma LastStep(aliases: Aliases, reserved: set<Route>, baseOf: map<Route, Route>, base: Route, way: seq<nat>)
    requires Owned(aliases, reserved, baseOf) && way != [] && Way(aliases, base, way).Some?
    ensures var p, n, x := Way(aliases, base, way[..|way| - 1]), |way| - 1, Way(aliases, base, way).value;
            && p.Some? && way[n] < |AliasesOf(aliases, p.value)| && AliasesOf(aliases, p.value)[way[n]] == x
            && x in reserved && baseOf[x] == p.value && way == way[..n] + [way[n]]
  {
  }

  /** No alias list on any way from `base` has a repeat. */
  ghost predicate CleanWays(aliases: Aliases, base: Route) {
    forall way :: Way(aliases, base, way).Some? ==> NoRepeats(AliasesOf(aliases, Way(aliases, base, way).value))
  }

  lemma CleanIsReached(aliases: Aliases, base: Route)
    requires forall r :: Reaches(aliases, base, r) ==> NoRepeats(AliasesOf(aliases, r))
    ensures CleanWays(aliases, base)
  {
    forall way | Way(aliases, base, way).Some?
      ensures NoRepeats(AliasesOf(aliases, Way(aliases, base, way).value))
    {
      WaysReach(aliases, base, Way(aliases, base, way).value);
    }
  }

  lemma {:induction false} OneWay(aliases: Aliases, reserved: set<Route>, baseOf: map<Route, Route>, base: Route, way: seq<nat>, way': seq<nat>)
    requires Owned(aliases, reserved, baseOf) && base !in reserved && CleanWays(aliases, base)
    requires Way(aliases, base, way).Some? && Way(aliases, base, way) == Way(aliases, base, way')
    ensures way == way'
    decreases |way|
  {
    if way == [] {
      if way' != [] { LastStep(aliases, reserved, baseOf, base, way'); }
    } else {
      LastStep(aliases, reserved, baseOf, base, way);
      if way' != [] {
        LastStep(aliases, reserved, baseOf, base, way');
        OneWay(aliases, reserved, baseOf, base, way[..|way| - 1], way'[..|way'| - 1]);
        SameLast(aliases, base, way, way');
      }
    }
  }

  lemma SameLast(aliases: Aliases, base: Route, way: seq<nat>, way': seq<nat>)
    requires CleanWays(aliases, base) && way != [] && way' != [] && way[..|way| - 1] == way'[..|way'| - 1]
    requires Way(aliases, base, way).Some? && Way(aliases, base, way) == Way(aliases, base, way')
    ensures way == way'
  {
    var before := way[..|way| - 1];
    assert NoRepeats(AliasesOf(aliases, Way(aliases, base, before).value));
    assert way == before + [way[|way| - 1]] && way' == before + [way'[|way'| - 1]];
  }

  // ---- in place -----------------------------------------------------------------------------

  class Table {
    var reserved: set<Route>
    var aliases: Aliases
    var routes: Routes

    /** Add the endpoint to a route and, as long as they lack it, to what the route reaches. It succeeds
        exactly when nothing there has the endpoint and no route is reached twice. */
    method ForceAdd(base: Route, e: Endpoint, h: Handler, ghost open: Pairs, ghost all: set<Route>) returns (ok: bool)
      requires Within(aliases, all) && base in all && ClosedBut(aliases, routes, open)
      modifies `routes
      ensures OnlyAdds(aliases, old(routes), routes, base, e, h) && Has(routes, base, e)
      ensures ClosedBut(aliases, routes, open)
      ensures ok <==> Tree(aliases, base) && Untouched(aliases, old(routes), base, e)
      ensures ok ==> forall r :: Reaches(aliases, base, r) ==> Has(routes, r, e)
      decreases Missing(routes, all, e), 0
    {
      UntouchedFromAliases(aliases, routes, base, e);
      if Has(routes, base, e) {
        return false;
      }
      OnlyAddsFirst(aliases, routes, base, e, h);
      OpenOne(aliases, routes, open, base, e, h);
      FreshRoute(aliases, routes, base, e, h);
      routes := Added(routes, base, e, h);
      MissingShrinks(old(routes), routes, all, base, e);
      ghost var mid := routes;
      ok := ForceAddEach(AliasesOf(aliases, base), e, h, open + {(base, e)}, all);
      OnlyAddsWithAliases(aliases, old(routes), mid, routes, base, e, h);
      CloseOne(aliases, routes, open, base, e);
      if ok { ReachedThroughAliases(aliases, routes, base, e); }
    }

    /** The loop over aliases: all of them are tried, and the first error is kept. */
    method ForceAddEach(xs: seq<Route>, e: Endpoint, h: Handler, ghost open: Pairs, ghost all: set<Route>) returns (ok: bool)
      requires Within(aliases, all) && ClosedBut(aliases, routes, open) && forall x :: x in xs ==> x in all
      modifies `routes
      ensures OnlyVia(aliases, old(routes), routes, xs, e, h) && ClosedBut(aliases, routes, open) && AllHave(routes, xs, e)
      ensures ok <==> Fresh(aliases, old(routes), xs, e)
      ensures ok ==> AllReached(aliases, routes, xs, e)
      decreases Missing(routes, all, e), 1
    {
      ok := true;
      ghost var start := routes;
      for i := 0 to |xs|
        invariant OnlyVia(aliases, start, routes, xs[..i], e, h) && ClosedBut(aliases, routes, open)
        invariant AllHave(routes, xs[..i], e)
        invariant ok <==> Fresh(aliases, start, xs[..i], e)
        invariant ok ==> AllReached(aliases, routes, xs[..i], e)
      {
        ghost var before := routes;
        MissingMonotone(start, routes, all, e);
        FreshMore(aliases, start, routes, xs, i, e, h);
        var inner := ForceAdd(xs[i], e, h, open, all);
        OnlyViaMore(aliases, start, before, routes, xs, i, e, h);
        AllHaveMore(before, routes, xs, i, e);
        if ok && inner { AllReachedMore(aliases, before, routes, xs, i, e); }
        ok := ok && inner;
      }
      assert xs[..|xs|] == xs;
    }

    // ---- the public operations ----

    ghost var baseOf: map<Route, Route>

    ghost predicate Valid()
      reads this
    {
      Closed(aliases, routes) && Owned(aliases, reserved, baseOf)
    }

    constructor ()
      ensures Valid() && routes == map[] && aliases == map[] && reserved == {}
    {
      reserved, aliases, routes, baseOf := {}, map[], map[], map[];
    }

    /** GetHandler */
    method Handler(base: Route, e: Endpoint) returns (h: Result)
      ensures h.UnknownBase? <==> base !in routes
      ensures h.Found? <==> Has(routes, base, e)
      ensures h.Found? ==> h.handler == routes[base][e]
    {
      if base !in routes {
        return UnknownBase;
      }
      if e !in routes[base] {
        return UnknownEndpoint;
      }
      return Found(routes[base][e]);
    }

    /** A reserved base is refused; otherwise exactly the routes that the base reaches have the endpoint
        afterwards, besides those that had it. There is no error exactly when the base is not reserved,
        nothing it reaches had the endpoint, and no alias list it reaches has a repeat. */
    method AddRouter(base: Route, e: Endpoint, h: Handler) returns (ok: bool)
      requires Valid()
      modifies `routes
      ensures Valid()
      ensures base in reserved ==> routes == old(routes)
      ensures base !in reserved ==> OnlyAdds(aliases, old(routes), routes, base, e, h)
      ensures base !in reserved ==> forall r :: Reaches(aliases, base, r) ==> Has(routes, r, e)
      ensures ok <==> && base !in reserved && Untouched(aliases, old(routes), base, e)
                      && forall r :: Reaches(aliases, base, r) ==> NoRepeats(AliasesOf(aliases, r))
      ensures ok ==> Served(aliases, routes, base, e, h)
    {
      if base in reserved {
        return false;
      }
      ClosedAll(aliases, routes);
      TreeFromBase(aliases, reserved, baseOf, base);
      ok := ForceAdd(base, e, h, {}, reserved + {base});
      ClosedAll(aliases, routes);
      ReachedHave(aliases, routes, base, e);
      if ok { NewlyServed(aliases, old(routes), routes, base, e, h); }
    }

    /** Refused as a whole if some alias is reserved. Otherwise the aliases get every endpoint the base
        has, with its handler where they had none, and so does everything they reach. There is no error
        exactly when no alias is reserved and either the base has no endpoint, or none of them is
        registered under what the aliases reach and no route is reached from the aliases twice. */
    method AddAlias(base: Route, xs: seq<Route>) returns (ok: bool)
      requires Valid()
      modifies this
      ensures Valid()
      ensures (exists x :: x in xs && x in old(reserved)) ==>
                routes == old(routes) && aliases == old(aliases) && reserved == old(reserved)
      ensures (forall x :: x in xs ==> x !in old(reserved)) ==>
                && aliases == WithAliases(old(aliases), base, xs) && reserved == old(reserved) + (set y | y in xs)
                && OnlyCopies(aliases, old(routes), routes, base)
      ensures ok <==> && (forall x :: x in xs ==> x !in old(reserved))
                      && forall f :: Has(old(routes), base, f) ==> Fresh(WithAliases(old(aliases), base, xs), old(routes), xs, f)
      ensures ok ==> forall x :: x in xs ==> Mirrors(old(routes), routes, base, x, {})
    {
      var taken := AnyReserved(xs);
      if taken {
        return false;
      }
      Link(base, xs);
      ok := true;
      if base in routes {
        ok := CopyEndpoints(base, xs);
      }
      ClosedAll(aliases, routes);
    }

    method AnyReserved(xs: seq<Route>) returns (taken: bool)
      ensures taken <==> exists x :: x in xs && x in reserved
    {
      for i := 0 to |xs|
        invariant forall j :: 0 <= j < i ==> xs[j] !in reserved
      {
        if xs[i] in reserved {
          return true;
        }
      }
      return false;
    }

    /** Reserve the aliases and add them to the base. */
    method Link(base: Route, xs: seq<Route>)
      requires Valid() && forall x :: x in xs ==> x !in reserved
      modifies `reserved, `aliases, `baseOf
      ensures aliases == WithAliases(old(aliases), base, xs) && reserved == old(reserved) + (set y | y in xs)
      ensures Owned(aliases, reserved, baseOf) && Within(aliases, reserved)
      ensures ClosedBut(aliases, routes, Pending(base, if base in routes then routes[base].Keys else {}))
      ensures forall x, f :: x in AliasesOf(aliases, base) && x !in xs && Has(routes, base, f) ==> Has(routes, x, f)
      ensures forall x :: x in xs ==> x in AliasesOf(aliases, base)
    {
      OwnedAfter(aliases, reserved, baseOf, base, xs);
      forall x
        ensures x in AliasesOf(WithAliases(aliases, base, xs), base) <==> x in AliasesOf(aliases, base) || x in xs
      {
        AliasesAfter(aliases, base, xs, base, x);
      }
      reserved := reserved + (set y | y in xs);
      aliases := WithAliases(aliases, base, xs);
      baseOf := Rebased(baseOf, xs, base);
    }

    /** Every endpoint of the base, in whatever order the map is walked. */
    method CopyEndpoints(base: Route, xs: seq<Route>) returns (ok: bool)
      requires base in routes && Within(aliases, reserved) && forall x :: x in xs ==> x in AliasesOf(aliases, base)
      requires ClosedBut(aliases, routes, Pending(base, routes[base].Keys))
      requires forall x, f :: x in AliasesOf(aliases, base) && x !in xs && Has(routes, base, f) ==> Has(routes, x, f)
      modifies `routes
      ensures OnlyCopies(aliases, old(routes), routes, base) && ClosedBut(aliases, routes, {})
      ensures ok <==> forall f :: Has(old(routes), base, f) ==> Fresh(aliases, old(routes), xs, f)
      ensures ok ==> forall x :: x in xs ==> Mirrors(old(routes), routes, base, x, {})
    {
      ok := true;
      var left := routes[base].Keys;
      while left != {}
        invariant left <= old(routes[base].Keys)
        invariant OnlyCopies(aliases, old(routes), routes, base) && ClosedBut(aliases, routes, Pending(base, left))
        invariant SameEndpoints(old(routes), routes, left)
        invariant ok <==> forall f :: Has(old(routes), base, f) && f !in left ==> Fresh(aliases, old(routes), xs, f)
        invariant ok ==> forall x :: x in xs ==> Mirrors(old(routes), routes, base, x, left)
        decreases |left|
      {
        var e :| e in left;
        var h := routes[base][e];
        ghost var before := routes;
        SameFresh(aliases, old(routes), routes, xs, left, e);
        var inner := ForceAddEach(xs, e, h, Pending(base, left), reserved);
        CopiesMore(aliases, old(routes), before, routes, base, xs, e, h);
        AliasesHave(aliases, old(routes), routes, base, xs, e);
        PendingLess(aliases, routes, base, left, e);
        SameEndpointsLess(aliases, old(routes), before, routes, xs, left, e, h);
        if ok && inner { MirrorsMore(aliases, old(routes), before, routes, base, xs, left, e, h); }
        ok, left := ok && inner, left - {e};
      }
      assert Pending(base, {}) == {};
    }
  }

  /** Nothing has happened to these endpoints yet. */
  ghost predicate SameEndpoints(was: Routes, now: Routes, left: set<Endpoint>) {
    forall r, f :: f in left ==> (Has(was, r, f) <==> Has(now, r, f))
  }

  lemma SameFresh(aliases: Aliases, was: Routes, now: Routes, xs: seq<Route>, left: set<Endpoint>, e: Endpoint)
    requires SameEndpoints(was, now, left) && e in left
    ensures Fresh(aliases, was, xs, e) <==> Fresh(aliases, now, xs, e)
  {
    forall j | 0 <= j < |xs|
      ensures Untouched(aliases, was, xs[j], e) <==> Untouched(aliases, now, xs[j], e)
    {
    }
  }

  lemma SameEndpointsLess(aliases: Aliases, was: Routes, mid: Routes, now: Routes, xs: seq<Route>, left: set<Endpoint>, e: Endpoint, h: Handler)
    requires SameEndpoints(was, mid, left) && OnlyVia(aliases, mid, now, xs, e, h)
    ensures SameEndpoints(was, now, left - {e})
  {
    forall r, f | f in left - {e}
      ensures Has(was, r, f) <==> Has(now, r, f)
    {
      assert Has(was, r, f) <==> Has(mid, r, f);
    }
  }

  lemma AliasesHave(aliases: Aliases, was: Routes, now: Routes, base: Route, xs: seq<Route>, e: Endpoint)
    requires Keeps(was, now) && AllHave(now, xs, e) && Has(was, base, e)
    requires forall x, f :: x in AliasesOf(aliases, base) && x !in xs && Has(was, base, f) ==> Has(was, x, f)
    ensures forall x :: x in AliasesOf(aliases, base) ==> Has(now, x, e)
  {
    forall x | x in AliasesOf(aliases, base)
      ensures Has(now, x, e)
    {
      if x in xs {
        var j :| 0 <= j < |xs| && xs[j] == x;
      } else {
        assert Has(was, x, e);
      }
    }
  }

  lemma MirrorsMore(aliases: Aliases, was: Routes, mid: Routes, now: Routes, base: Route, xs: seq<Route>, left: set<Endpoint>, e: Endpoint, h: Handler)
    requires Has(was, base, e) && was[base][e] == h && OnlyVia(aliases, mid, now, xs, e, h) && AllHave(now, xs, e)
    requires AllUntouched(aliases, mid, xs, e) && forall x :: x in xs ==> Mirrors(was, mid, base, x, left)
    ensures forall x :: x in xs ==> Mirrors(was, now, base, x, left - {e})
  {
    forall x | x in xs
      ensures Mirrors(was, now, base, x, left - {e})
    {
      assert Mirrors(was, mid, base, x, left);
      var j :| 0 <= j < |xs| && xs[j] == x;
      assert Has(now, xs[j], e);
      ReachesSelf(aliases, x);
      assert Untouched(aliases, mid, xs[j], e);
    }
  }

  /** The alias serves the endpoints of the base but for those in `left`, each with the base's handler. */
  ghost predicate Mirrors(was: Routes, now: Routes, base: Route, x: Route, left: set<Endpoint>) {
    forall f :: Has(was, base, f) && f !in left ==> Has(now, x, f) && now[x][f] == was[base][f]
  }

  /** What AddAlias may do: copy endpoints of the base, with their handlers, to routes it reaches. */
  ghost predicate OnlyCopies(aliases: Aliases, was: Routes, now: Routes, base: Route) {
    && (forall r, f :: Has(was, r, f) ==> Has(now, r, f) && now[r][f] == was[r][f])
    && (forall r, f :: Has(now, r, f) && !Has(was, r, f) ==>
          Has(was, base, f) && now[r][f] == was[base][f] && Reaches(aliases, base, r))
  }

  lemma CopiesMore(aliases: Aliases, was: Routes, mid: Routes, now: Routes, base: Route, xs: seq<Route>, e: Endpoint, h: Handler)
    requires OnlyCopies(aliases, was, mid, base) && OnlyVia(aliases, mid, now, xs, e, h)
    requires Has(was, base, e) && was[base][e] == h && forall x :: x in xs ==> x in AliasesOf(aliases, base)
    ensures OnlyCopies(aliases, was, now, base)
  {
    forall r, f | Has(now, r, f) && !Has(was, r, f)
      ensures Has(was, base, f) && now[r][f] == was[base][f] && Reaches(aliases, base, r)
    {
      if !Has(mid, r, f) {
        var j :| 0 <= j < |xs| && Reaches(aliases, xs[j], r);
        ReachesThrough(aliases, base, xs[j], r);
      }
    }
  }

  /** The endpoints of the base that the new aliases do not have yet. */
  ghost function Pending(base: Route, left: set<Endpoint>): Pairs {
    set e | e in left :: (base, e)
  }

  lemma PendingLess(aliases: Aliases, routes: Routes, base: Route, left: set<Endpoint>, e: Endpoint)
    requires ClosedBut(aliases, routes, Pending(base, left))
    requires forall x :: x in AliasesOf(aliases, base) ==> Has(routes, x, e)
    ensures ClosedBut(aliases, routes, Pending(base, left - {e}))
  {
    forall b, x, f | x in AliasesOf(aliases, b) && Has(routes, b, f) && (b, f) !in Pending(base, left - {e})
      ensures Has(routes, x, f)
    {
      if b == base && f == e {
      } else {
        assert (b, f) !in Pending(base, left);
      }
    }
  }

  datatype Result = UnknownBase | UnknownEndpoint | Found(handler: Handler)

  /** Everything that `base` reaches serves the endpoint with this handler. */
  ghost predicate Served(aliases: Aliases, routes: Routes, base: Route, e: Endpoint, h: Handler) {
    forall r :: Reaches(aliases, base, r) ==> Has(routes, r, e) && routes[r][e] == h
  }

  lemma NewlyServed(aliases: Aliases, was: Routes, now: Routes, base: Route, e: Endpoint, h: Handler)
    requires OnlyAdds(aliases, was, now, base, e, h) && Untouched(aliases, was, base, e)
    requires forall r :: Reaches(aliases, base, r) ==> Has(now, r, e)
    ensures Served(aliases, now, base, e, h)
  {
  }

  lemma ClosedAll(aliases: Aliases, routes: Routes)
    ensures Closed(aliases, routes) <==> ClosedBut(aliases, routes, {})
  {
  }

  lemma ReachedHave(aliases: Aliases, routes: Routes, base: Route, e: Endpoint)
    requires Closed(aliases, routes) && Has(routes, base, e)
    ensures forall r :: Reaches(aliases, base, r) ==> Has(routes, r, e)
  {
    forall r | Reaches(aliases, base, r)
      ensures Has(routes, r, e)
    {
      var path :| IsPath(aliases, path) && path[0] == base && path[|path| - 1] == r;
      ClosedReaches(aliases, routes, path, e);
    }
  }
}
