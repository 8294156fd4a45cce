/** The bounded first scan over proxy routes: a Space-Saving heavy-hitters sketch. */
module RouteSketch {
  import opened Options
  import opened MapSums

  datatype RouteKey = RouteKey(
    host: Option<string>, method_: Option<string>, path: Option<string>, status: int)

  /** One counted status line: its route and whether it is an upstream error. */
  datatype Hit = Hit(key: RouteKey, upstreamError: bool)

  datatype Candidate = Candidate(estimatedCount: nat, isUpstreamError: bool)

  type Candidates = map<RouteKey, Candidate>

  const MIN_PROXY_ROUTE_CANDIDATES := 32
  const PROXY_ROUTE_CANDIDATE_MULTIPLIER := 4

  function CandidateLimit(maxGroups: nat): nat
  {
    var scaled := maxGroups * PROXY_ROUTE_CANDIDATE_MULTIPLIER;
    if MIN_PROXY_ROUTE_CANDIDATES >= scaled then MIN_PROXY_ROUTE_CANDIDATES else scaled
  }

  function Keys(hits: seq<Hit>): seq<RouteKey>
  {
    seq(|hits|, i requires 0 <= i < |hits| => hits[i].key)
  }

  ghost function Bag(hits: seq<Hit>): multiset<RouteKey>
  {
    multiset(Keys(hits))
  }

  ghost function Support(bag: multiset<RouteKey>): set<RouteKey>
  {
    set k | k in bag
  }

  /** How often a route really occurred. */
  ghost function TrueCount(hits: seq<Hit>, k: RouteKey): nat
  {
    Bag(hits)[k]
  }

  ghost function Distinct(hits: seq<Hit>): set<RouteKey>
  {
    Support(Bag(hits))
  }

  /** The routes that had at least one upstream error. */
  ghost function ErrorRoutes(hits: seq<Hit>): set<RouteKey>
  {
    set h | h in hits && h.upstreamError :: h.key
  }

  function Estimates(m: Candidates): map<RouteKey, nat>
  {
    map k | k in m :: m[k].estimatedCount
  }

  predicate EvictsBefore(a: Candidate, b: Candidate)
  {
    || a.estimatedCount < b.estimatedCount
    || (a.estimatedCount == b.estimatedCount && (a.isUpstreamError ==> b.isUpstreamError))
  }

  /** A candidate that the eviction may choose; ties are left open. */
  predicate IsVictim(m: Candidates, v: RouteKey)
  {
    v in m && forall k :: k in m ==> EvictsBefore(m[v], m[k])
  }

  /** What the program asks of a victim: no smaller estimate, and no upstream error among equals to spare. */
  lemma VictimIsLeast(m: Candidates, v: RouteKey)
    ensures IsVictim(m, v)
       <==> && v in m
            && (forall k :: k in m ==> m[v].estimatedCount <= m[k].estimatedCount)
            && (m[v].isUpstreamError ==>
                  forall k :: k in m && m[k].estimatedCount == m[v].estimatedCount ==> m[k].isUpstreamError)
  {
  }

  lemma {:induction false} VictimExists(m: Candidates)
    requires m != map[]
    ensures exists v :: IsVictim(m, v)
    decreases |m|
  {
    var k :| k in m;
    var rest := m - {k};
    assert m.Keys == rest.Keys + {k};
    if rest == map[] {
      assert IsVictim(m, k);
    } else {
      VictimExists(rest);
      var v :| IsVictim(rest, v);
      var least := if EvictsBefore(m[k], m[v]) then k else v;
      forall o | o in m ensures EvictsBefore(m[least], m[o]) {
        assert o == k || (o in rest && rest[o] == m[o]);
      }
      assert IsVictim(m, least);
    }
  }

  /** Whether recording the route pushes another candidate out. */
  predicate Evicts(m: Candidates, key: RouteKey, limit: nat)
  {
    key !in m && limit <= |m|
  }

  /** The table after counting one more hit of a retained route. */
  function Counted(m: Candidates, hit: Hit): Candidates
    requires hit.key in m
  {
    m[hit.key := Candidate(m[hit.key].estimatedCount + 1, m[hit.key].isUpstreamError || hit.upstreamError)]
  }

  function Replaced(m: Candidates, v: RouteKey, hit: Hit): Candidates
    requires v in m
  {
    (m - {v})[hit.key := Candidate(m[v].estimatedCount + 1, hit.upstreamError)]
  }

  /** What one recorded hit does to the table: count, insert, or replace a minimal candidate. */
  ghost predicate Recorded(m: Candidates, hit: Hit, limit: nat, m': Candidates)
  {
    if hit.key in m then
      m' == Counted(m, hit)
    else if |m| < limit then
      m' == m[hit.key := Candidate(1, hit.upstreamError)]
    else
      exists v :: IsVictim(m, v) && m' == Replaced(m, v, hit)
  }

  /** The table the first scan fills in place. */
  class RouteCandidateTable {
    const limit: nat
    var candidates: Candidates

    constructor (limit: nat)
      ensures this.limit == limit && candidates == map[]
    {
      this.limit := limit;
      candidates := map[];
    }

    method Record(hit: Hit) returns (evicted: bool)
      requires 0 < limit
      modifies this
      ensures Recorded(old(candidates), hit, limit, candidates)
      ensures evicted == Evicts(old(candidates), hit.key, limit)
    {
      if hit.key in candidates {
        var c := candidates[hit.key];
        candidates := candidates[hit.key := Candidate(c.estimatedCount + 1, c.isUpstreamError || hit.upstreamError)];
        return false;
      }
      if |candidates| < limit {
        candidates := candidates[hit.key := Candidate(1, hit.upstreamError)];
        return false;
      }
      VictimExists(candidates);
      var victim :| IsVictim(candidates, victim);
      candidates := Replaced(candidates, victim, hit);
      return true;
    }
  }

  /** The first scan's memory: the table and its overflow flag. */
  datatype Scan = Scan(table: Candidates, overflowed: bool)

  ghost predicate Step(before: Scan, hit: Hit, limit: nat, after: Scan)
  {
    && Recorded(before.table, hit, limit, after.table)
    && after.overflowed == (Evicts(before.table, hit.key, limit) || before.overflowed)
  }

  /** A run of the first scan over the hits; every eviction resolves ties as it likes. */
  ghost predicate Run(hits: seq<Hit>, limit: nat, states: seq<Scan>)
  {
    && |states| == |hits| + 1
    && states[0] == Scan(map[], false)
    && forall i :: 0 <= i < |hits| ==> Step(states[i], hits[i], limit, states[i + 1])
  }

  ghost predicate Reachable(hits: seq<Hit>, limit: nat, final: Scan)
  {
    exists states :: Run(hits, limit, states) && states[|hits|] == final
  }

  lemma ReachableStart(limit: nat)
    ensures Reachable([], limit, Scan(map[], false))
  {
    assert Run([], limit, [Scan(map[], false)]);
  }

  lemma ReachableStep(hits: seq<Hit>, hit: Hit, limit: nat, before: Scan, after: Scan)
    requires Reachable(hits, limit, before) && Step(before, hit, limit, after)
    ensures Reachable(hits + [hit], limit, after)
  {
    var states :| Run(hits, limit, states) && states[|hits|] == before;
    assert Run(hits + [hit], limit, states + [after]);
  }

  /** A recorded hit is in the table, remembers its own error and that of an entry it continues, and changes
      no other entry that stays. */
  lemma RecordingIsLocal(m: Candidates, hit: Hit, limit: nat, m': Candidates)
    requires Recorded(m, hit, limit, m')
    ensures hit.key in m'
    ensures m'[hit.key].isUpstreamError
       <==> hit.upstreamError || (hit.key in m && m[hit.key].isUpstreamError)
    ensures forall k :: k in m' && k != hit.key ==> k in m && m'[k] == m[k]
  {
  }

  ghost predicate StaysFrom(states: seq<Scan>, k: RouteKey, i: nat, n: nat)
    requires n < |states|
  {
    forall j :: i < j <= n ==> k in states[j].table
  }

  /** Hit i was an error of route k, which has been in the table ever since. */
  ghost predicate Remembers(hits: seq<Hit>, states: seq<Scan>, k: RouteKey, i: nat, n: nat)
    requires n < |states|
  {
    i < n <= |hits| && hits[i] == Hit(k, true) && StaysFrom(states, k, i, n)
  }

  /** A candidate counts as an upstream error exactly when one of its hits was one since it last entered. */
  lemma {:induction false} FlagsRememberErrors(hits: seq<Hit>, limit: nat, states: seq<Scan>, n: nat, k: RouteKey)
    requires Run(hits, limit, states) && n <= |hits| && k in states[n].table
    ensures states[n].table[k].isUpstreamError <==> exists i: nat :: Remembers(hits, states, k, i, n)
  {
    if n != 0 {
      var last := n - 1;
      var before, hit := states[last].table, hits[last];
      assert Step(states[last], hit, limit, states[last + 1]);
      RecordingIsLocal(before, hit, limit, states[n].table);
      hide Recorded;
      if k in before {
        FlagsRememberErrors(hits, limit, states, last, k);
        assert forall i: nat :: Remembers(hits, states, k, i, last) ==> Remembers(hits, states, k, i, n);
        assert forall i: nat :: i < last && Remembers(hits, states, k, i, n) ==> Remembers(hits, states, k, i, last);
      }
      if hit == Hit(k, true) {
        assert Remembers(hits, states, k, last, n);
      }
    }
  }

  ghost predicate NeverUnder(bag: multiset<RouteKey>, m: Candidates)
  {
    forall k :: k in m ==> bag[k] <= m[k].estimatedCount
  }

  ghost predicate NeverFarOver(bag: multiset<RouteKey>, m: Candidates)
  {
    forall k, b :: k in m && b in m ==> m[k].estimatedCount <= bag[k] + m[b].estimatedCount
  }

  ghost predicate OutsideIsRare(bag: multiset<RouteKey>, m: Candidates)
  {
    forall k, b :: k !in m && b in m ==> bag[k] <= m[b].estimatedCount
  }

  /** True counts against estimates: never under, over by at most any retained estimate, and no
      route outside more frequent than a retained estimate. */
  ghost predicate EstimatesBracket(bag: multiset<RouteKey>, m: Candidates)
  {
    NeverUnder(bag, m) && NeverFarOver(bag, m) && OutsideIsRare(bag, m)
  }

  /** Before any eviction the table is simply exact. */
  ghost predicate Exact(bag: multiset<RouteKey>, errors: set<RouteKey>, m: Candidates)
  {
    && m.Keys == Support(bag)
    && errors <= m.Keys
    && (forall k :: k in m ==> m[k].estimatedCount == bag[k])
    && (forall k :: k in m ==> (m[k].isUpstreamError <==> k in errors))
  }

  /** Everything the sketch promises about its table after hits with these counts and error routes. */
  ghost predicate SketchBounds(bag: multiset<RouteKey>, errors: set<RouteKey>, limit: nat,
                               m: Candidates, overflowed: bool)
  {
    && |m| <= limit
    && m.Keys <= Support(bag)
    && Total(Estimates(m)) == |bag|
    && EstimatesBracket(bag, m)
    && (forall k :: k in m && m[k].isUpstreamError ==> k in errors)
    && (!overflowed ==> Exact(bag, errors, m))
    && (overflowed ==> |m| == limit && limit < |Support(bag)|)
  }

  ghost function WithError(errors: set<RouteKey>, hit: Hit): set<RouteKey>
  {
    if hit.upstreamError then errors + {hit.key} else errors
  }

  lemma BagStep(hits: seq<Hit>, hit: Hit)
    ensures Bag(hits + [hit]) == Bag(hits) + multiset{hit.key}
    ensures ErrorRoutes(hits + [hit]) == WithError(ErrorRoutes(hits), hit)
  {
    assert Keys(hits + [hit]) == Keys(hits) + [hit.key];
    forall k ensures k in ErrorRoutes(hits + [hit]) <==> k in WithError(ErrorRoutes(hits), hit) {
      if k in ErrorRoutes(hits) {
        assert Hit(k, true) in hits + [hit];
      }
    }
  }

  lemma SupportGrows(bag: multiset<RouteKey>, k: RouteKey)
    ensures Support(bag + multiset{k}) == Support(bag) + {k}
    ensures |Support(bag + multiset{k})| == |Support(bag)| + (if k in bag then 0 else 1)
  {
    assert Support(bag + multiset{k}) == Support(bag) + {k};
    if k in bag {
      assert Support(bag) + {k} == Support(bag);
    }
  }

  lemma EstimatesSet(m: Candidates, k: RouteKey, c: Candidate)
    ensures Total(Estimates(m[k := c]))
            == c.estimatedCount + Total(Estimates(m)) - (if k in m then m[k].estimatedCount else 0)
    ensures |m[k := c]| == |m| + (if k in m then 0 else 1)
  {
    assert Estimates(m[k := c]) == Estimates(m)[k := c.estimatedCount];
    TotalUpdate(Estimates(m), k, c.estimatedCount);
    assert m[k := c].Keys == m.Keys + {k};
    assert |m[k := c]| == |m[k := c].Keys|;
  }

  lemma EstimatesRemove(m: Candidates, v: RouteKey)
    requires v in m
    ensures Total(Estimates(m - {v})) == Total(Estimates(m)) - m[v].estimatedCount
    ensures |m - {v}| == |m| - 1
  {
    assert Estimates(m - {v}) == Estimates(m) - {v};
    TotalRemove(Estimates(m), v);
    assert (m - {v}).Keys == m.Keys - {v};
    assert |m - {v}| == |(m - {v}).Keys|;
  }

  lemma CountingNeverFarOver(bag: multiset<RouteKey>, m: Candidates, hit: Hit)
    requires NeverFarOver(bag, m) && hit.key in m
    ensures NeverFarOver(bag + multiset{hit.key}, Counted(m, hit))
  {
  }

  lemma CountingBrackets(bag: multiset<RouteKey>, m: Candidates, hit: Hit)
    requires EstimatesBracket(bag, m) && hit.key in m
    ensures EstimatesBracket(bag + multiset{hit.key}, Counted(m, hit))
  {
    CountingNeverFarOver(bag, m, hit);
    hide NeverFarOver;
  }

  lemma InsertingIsExact(bag: multiset<RouteKey>, errors: set<RouteKey>, m: Candidates, hit: Hit,
                         limit: nat, m': Candidates)
    requires Exact(bag, errors, m) && Recorded(m, hit, limit, m') && !Evicts(m, hit.key, limit)
    ensures Exact(bag + multiset{hit.key}, WithError(errors, hit), m')
  {
    SupportGrows(bag, hit.key);
    assert m'.Keys == m.Keys + {hit.key};
  }

  lemma ExactBrackets(bag: multiset<RouteKey>, errors: set<RouteKey>, m: Candidates)
    requires Exact(bag, errors, m)
    ensures EstimatesBracket(bag, m)
  {
    forall k | k !in m ensures bag[k] == 0 {
      assert k !in Support(bag);
    }
  }

  lemma EvictionNeverUnder(bag: multiset<RouteKey>, m: Candidates, v: RouteKey, hit: Hit)
    requires NeverUnder(bag, m) && OutsideIsRare(bag, m) && v in m && hit.key !in m
    ensures NeverUnder(bag + multiset{hit.key}, Replaced(m, v, hit))
  {
  }

  lemma EvictionNeverFarOver(bag: multiset<RouteKey>, m: Candidates, v: RouteKey, hit: Hit)
    requires NeverFarOver(bag, m) && IsVictim(m, v) && hit.key !in m
    ensures NeverFarOver(bag + multiset{hit.key}, Replaced(m, v, hit))
  {
  }

  lemma EvictionOutsideIsRare(bag: multiset<RouteKey>, m: Candidates, v: RouteKey, hit: Hit)
    requires NeverUnder(bag, m) && OutsideIsRare(bag, m) && IsVictim(m, v) && hit.key !in m
    ensures OutsideIsRare(bag + multiset{hit.key}, Replaced(m, v, hit))
  {
  }

  lemma EvictionBrackets(bag: multiset<RouteKey>, m: Candidates, v: RouteKey, hit: Hit)
    requires EstimatesBracket(bag, m) && IsVictim(m, v) && hit.key !in m
    ensures EstimatesBracket(bag + multiset{hit.key}, Replaced(m, v, hit))
  {
    hide NeverUnder, NeverFarOver, OutsideIsRare;
    EvictionNeverUnder(bag, m, v, hit);
    EvictionNeverFarOver(bag, m, v, hit);
    EvictionOutsideIsRare(bag, m, v, hit);
  }

  lemma RecordingKeepsTotal(m: Candidates, hit: Hit, limit: nat, m': Candidates)
    requires Recorded(m, hit, limit, m')
    ensures Total(Estimates(m')) == Total(Estimates(m)) + 1
    ensures |m'| == if hit.key in m || limit <= |m| then |m| else |m| + 1
  {
    if Evicts(m, hit.key, limit) {
      var v :| IsVictim(m, v) && m' == Replaced(m, v, hit);
      EstimatesRemove(m, v);
      EstimatesSet(m - {v}, hit.key, m'[hit.key]);
    } else {
      EstimatesSet(m, hit.key, m'[hit.key]);
    }
  }

  lemma StepKeepsFlags(errors: set<RouteKey>, hit: Hit, limit: nat, m: Candidates, m': Candidates)
    requires Recorded(m, hit, limit, m')
    requires forall k :: k in m && m[k].isUpstreamError ==> k in errors
    ensures forall k :: k in m' && m'[k].isUpstreamError ==> k in WithError(errors, hit)
  {
  }

  lemma RecordedKeys(m: Candidates, hit: Hit, limit: nat, m': Candidates)
    requires Recorded(m, hit, limit, m')
    ensures m'.Keys <= m.Keys + {hit.key}
  {
  }

  lemma EvictionNeedsManyRoutes(bag: multiset<RouteKey>, errors: set<RouteKey>, hit: Hit, limit: nat,
                                before: Scan)
    requires SketchBounds(bag, errors, limit, before.table, before.overflowed)
    requires Evicts(before.table, hit.key, limit) || before.overflowed
    ensures limit < |Support(bag + multiset{hit.key})|
  {
    SupportGrows(bag, hit.key);
    if !before.overflowed {
      assert |before.table| == |before.table.Keys| == |Support(bag)|;
      assert hit.key !in Support(bag);
    }
  }

  lemma StepKeepsBrackets(bag: multiset<RouteKey>, errors: set<RouteKey>, hit: Hit, limit: nat,
                          before: Scan, after: Scan)
    requires EstimatesBracket(bag, before.table) && Step(before, hit, limit, after)
    requires |before.table| < limit ==> Exact(bag, errors, before.table)
    ensures EstimatesBracket(bag + multiset{hit.key}, after.table)
  {
    var m, m' := before.table, after.table;
    if hit.key in m {
      CountingBrackets(bag, m, hit);
    } else if |m| < limit {
      InsertingIsExact(bag, errors, m, hit, limit, m');
      ExactBrackets(bag + multiset{hit.key}, WithError(errors, hit), m');
    } else {
      var v :| IsVictim(m, v) && m' == Replaced(m, v, hit);
      EvictionBrackets(bag, m, v, hit);
    }
  }

  /** One recorded hit keeps every bound, whichever minimal candidate it evicts. */
  lemma StepKeepsBounds(bag: multiset<RouteKey>, errors: set<RouteKey>, hit: Hit, limit: nat,
                        before: Scan, after: Scan)
    requires SketchBounds(bag, errors, limit, before.table, before.overflowed)
    requires Step(before, hit, limit, after)
    ensures SketchBounds(bag + multiset{hit.key}, WithError(errors, hit), limit,
                         after.table, after.overflowed)
  {
    SupportGrows(bag, hit.key);
    RecordingKeepsTotal(before.table, hit, limit, after.table);
    RecordedKeys(before.table, hit, limit, after.table);
    StepKeepsBrackets(bag, errors, hit, limit, before, after);
    StepKeepsFlags(errors, hit, limit, before.table, after.table);
    if after.overflowed {
      EvictionNeedsManyRoutes(bag, errors, hit, limit, before);
    } else {
      InsertingIsExact(bag, errors, before.table, hit, limit, after.table);
    }
  }

  lemma EmptyBounds(limit: nat)
    ensures SketchBounds(multiset{}, {}, limit, map[], false)
  {
    var empty: Candidates := map[];
    assert Estimates(empty) == map[];
    assert Support(multiset{}) == {};
  }

  lemma PrefixStep(hits: seq<Hit>, n: nat)
    requires n < |hits|
    ensures Bag(hits[..n + 1]) == Bag(hits[..n]) + multiset{hits[n].key}
    ensures ErrorRoutes(hits[..n + 1]) == WithError(ErrorRoutes(hits[..n]), hits[n])
  {
    BagStep(hits[..n], hits[n]);
    assert hits[..n] + [hits[n]] == hits[..n + 1];
  }

  lemma RunStarts(hits: seq<Hit>, limit: nat)
    ensures SketchBounds(Bag(hits[..0]), ErrorRoutes(hits[..0]), limit, map[], false)
  {
    assert hits[..0] == [] && Bag([]) == multiset{} && ErrorRoutes([]) == {};
    EmptyBounds(limit);
  }

  lemma {:induction false} RunKeepsBounds(hits: seq<Hit>, limit: nat, states: seq<Scan>, n: nat)
    requires Run(hits, limit, states) && n <= |hits|
    ensures SketchBounds(Bag(hits[..n]), ErrorRoutes(hits[..n]), limit,
                         states[n].table, states[n].overflowed)
  {
    hide SketchBounds, Bag, ErrorRoutes, Step;
    if n == 0 {
      RunStarts(hits, limit);
    } else {
      var before, hit, after := states[n - 1], hits[n - 1], states[n - 1 + 1];
      RunKeepsBounds(hits, limit, states, n - 1);
      assert Step(before, hit, limit, after);
      StepKeepsBounds(Bag(hits[..n - 1]), ErrorRoutes(hits[..n - 1]), hit, limit, before, after);
      PrefixStep(hits, n - 1);
    }
  }

  /** The bounds hold after every run. */
  lemma EveryRunKeepsBounds(hits: seq<Hit>, limit: nat, final: Scan)
    requires Reachable(hits, limit, final)
    ensures SketchBounds(Bag(hits), ErrorRoutes(hits), limit, final.table, final.overflowed)
  {
    var states :| Run(hits, limit, states) && states[|hits|] == final;
    RunKeepsBounds(hits, limit, states, |hits|);
    assert hits[..|hits|] == hits;
  }

  lemma BagSize(hits: seq<Hit>)
    ensures |Bag(hits)| == |hits|
  {
  }

  lemma SharedFloor(m: Candidates, floor: nat)
    requires forall k :: k in m ==> floor <= m[k].estimatedCount
    ensures floor * |m| <= Total(Estimates(m))
  {
    TotalAtLeast(Estimates(m), floor);
    assert Estimates(m).Keys == m.Keys;
    assert |Estimates(m)| == |Estimates(m).Keys| && |m| == |m.Keys|;
  }

  /** The smallest estimate, hence every overestimate, is at most the table's share of the stream. */
  lemma SmallestEstimateIsBounded(hits: seq<Hit>, limit: nat, final: Scan, b: RouteKey)
    requires Reachable(hits, limit, final) && IsVictim(final.table, b)
    ensures final.table[b].estimatedCount * |final.table| <= |hits|
    ensures forall k :: k in final.table ==>
              var count, estimate := TrueCount(hits, k), final.table[k].estimatedCount;
              count <= estimate <= count + final.table[b].estimatedCount
  {
    EveryRunKeepsBounds(hits, limit, final);
    BagSize(hits);
    SharedFloor(final.table, final.table[b].estimatedCount);
  }

  lemma MissingIsRare(bag: multiset<RouteKey>, errors: set<RouteKey>, limit: nat, final: Scan, k: RouteKey)
    requires SketchBounds(bag, errors, limit, final.table, final.overflowed) && k !in final.table && 0 < bag[k]
    ensures |final.table| == limit && Total(Estimates(final.table)) == |bag|
    ensures forall b :: b in final.table ==> bag[k] <= final.table[b].estimatedCount
  {
    assert k in Support(bag);
  }

  /** A route with more than its share of the stream is never missing from the table. */
  lemma FrequentRoutesAreRetained(hits: seq<Hit>, limit: nat, final: Scan, k: RouteKey)
    requires Reachable(hits, limit, final)
    requires |hits| < TrueCount(hits, k) * limit
    ensures k in final.table
  {
    EveryRunKeepsBounds(hits, limit, final);
    BagSize(hits);
    if k !in final.table {
      hide SketchBounds, Reachable, Bag, Estimates, ErrorRoutes;
      MissingIsRare(Bag(hits), ErrorRoutes(hits), limit, final, k);
      SharedFloor(final.table, TrueCount(hits, k));
      assert false;
    }
  }

  /** The overflow flag and the reported group count, exactly. */
  lemma OverflowIsExact(hits: seq<Hit>, limit: nat, final: Scan)
    requires Reachable(hits, limit, final)
    ensures final.overflowed <==> limit < |Distinct(hits)|
    ensures var distinct := |Distinct(hits)|;
            |final.table| + (if final.overflowed then 1 else 0) == if distinct <= limit then distinct else limit + 1
  {
    EveryRunKeepsBounds(hits, limit, final);
    if !final.overflowed {
      assert final.table.Keys == Distinct(hits);
      assert |final.table| == |final.table.Keys|;
    }
  }
}
