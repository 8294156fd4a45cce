/** The end-to-end guarantee of the two scans: frequent routes are reported with exact counts. */
module TopRoutes {
  import opened Options
  import opened Sorting
  import opened Filtering
  import opened Shares
  import opened Paging
  import opened RouteSketch
  import opened RouteAnalysis
  import opened RoutePayloads

  // ----- The two scans agree -----

  predicate IsHealthRoute(k: RouteKey)
  {
    IsSuccessfulHealthRequest(k.path, Some(k.status))
  }

  /** The second scan ignores health checks, yet counts every recorded route exactly. */
  lemma {:induction false} ScansAgree(lines: seq<Line>, k: RouteKey)
    ensures TrueCount(Hits(lines), k) == if IsHealthRoute(k) then 0 else |Matching(lines, k)|
  {
    if lines == [] {
      assert Keys(Hits(lines)) == [];
    } else {
      var init, last := lines[..|lines| - 1], lines[|lines| - 1];
      ScansAgree(init, k);
      if IsCounted(last) {
        BagStep(Hits(init), HitOf(last.value));
      }
    }
  }

  ghost function ErrorBag(hits: seq<Hit>): multiset<RouteKey>
  {
    Bag(Filter((h: Hit) => h.upstreamError, hits))
  }

  lemma ErrorBagStep(hits: seq<Hit>, hit: Hit)
    ensures ErrorBag(hits + [hit])
            == if hit.upstreamError then ErrorBag(hits) + multiset{hit.key} else ErrorBag(hits)
  {
    FilterStep((h: Hit) => h.upstreamError, hits, hit);
    if hit.upstreamError {
      BagStep(Filter((h: Hit) => h.upstreamError, hits), hit);
    }
  }

  lemma NoErrors()
    ensures ErrorBag([]) == multiset{} && Hits([]) == []
  {
    assert Filter((h: Hit) => h.upstreamError, []) == [];
    assert Keys([]) == [];
  }

  /** What the last line adds to the first scan's upstream errors and to a route's attempts. */
  lemma LastLine(lines: seq<Line>, k: RouteKey)
    requires lines != []
    ensures var init, last := lines[..|lines| - 1], lines[|lines| - 1];
            && ErrorBag(Hits(lines))
               == (if IsCountedUpstreamError(last) then ErrorBag(Hits(init)) + multiset{HitOf(last.value).key}
                   else ErrorBag(Hits(init)))
            && Count(Attempted, Matching(lines, k))
               == Count(Attempted, Matching(init, k))
                  + (if HasRoute(last) && RouteOf(last.value) == k && Attempted(last.value) then 1 else 0)
  {
    var init, last := lines[..|lines| - 1], lines[|lines| - 1];
    if HasRoute(last) {
      FilterStep(Attempted, Matching(init, k), last.value);
    }
    if IsCounted(last) {
      ErrorBagStep(Hits(init), HitOf(last.value));
    }
  }

  lemma {:induction false} AttemptsAgree(lines: seq<Line>, k: RouteKey)
    ensures k.status in UPSTREAM_ERROR_CODES ==>
              Count(Attempted, Matching(lines, k)) == ErrorBag(Hits(lines))[k]
    ensures k.status !in UPSTREAM_ERROR_CODES ==> ErrorBag(Hits(lines))[k] == 0
  {
    if lines == [] {
      NoErrors();
    } else {
      hide ErrorBag, Hits, Matching, Count;
      AttemptsAgree(lines[..|lines| - 1], k);
      LastLine(lines, k);
    }
  }

  lemma {:induction false} ErrorBagSize(lines: seq<Line>)
    ensures |ErrorBag(Hits(lines))| == Count(IsCountedUpstreamError, lines)
  {
    if lines == [] {
      NoErrors();
    } else {
      var init, last := lines[..|lines| - 1], lines[|lines| - 1];
      ErrorBagSize(init);
      assert init + [last] == lines;
      FilterStep(IsCountedUpstreamError, init, last);
      LastLine(lines, RouteKey(None, None, None, 0));
      hide ErrorBag, Hits, Matching;
    }
  }

  // ----- Ranking -----

  /** All retained routes, in public order, each with its exact second-scan payload. */
  ghost predicate Ranked(lines: seq<Line>, retained: set<RouteKey>, ranked: seq<RouteSignal>)
  {
    && SortedBy(SignalLeq, ranked)
    && NoDuplicates(ranked)
    && forall s :: s in ranked <==> IsSignal(lines, retained, s)
  }

  ghost predicate IsSignal(lines: seq<Line>, retained: set<RouteKey>, s: RouteSignal)
  {
    s.key in retained && Matching(lines, s.key) != [] && s == SignalOf(s.key, Matching(lines, s.key))
  }

  lemma RankedRoutesDistinct(lines: seq<Line>, retained: set<RouteKey>, ranked: seq<RouteSignal>)
    requires Ranked(lines, retained, ranked)
    ensures DistinctBy((s: RouteSignal) => s.key, ranked)
  {
    forall i, j | 0 <= i < j < |ranked| ensures ranked[i].key != ranked[j].key {
      assert ranked[i] in ranked && ranked[j] in ranked;
    }
  }

  lemma RankedIsPublic(lines: seq<Line>, retained: set<RouteKey>, ranked: seq<RouteSignal>, n: nat)
    requires Ranked(lines, retained, ranked)
    ensures InPublicOrder(Take(ranked, n))
    ensures forall s :: s in Take(ranked, n) ==> DescribesRoute(lines, s)
  {
    var shown := Take(ranked, n);
    forall i, j | 0 <= i < j < |shown| ensures SignalLeq(shown[i], shown[j]) {
      assert SignalLeq(ranked[i], ranked[j]);
    }
    PublicOrderIsLeq(shown);
    forall s | s in shown ensures DescribesRoute(lines, s) {
      assert s in ranked;
      SignalDescribesRoute(lines, s.key);
    }
  }

  function LineCount(s: RouteSignal): nat { s.count }

  lemma {:induction false} PrefixWeight(s: seq<RouteSignal>, n: nat, c: nat)
    requires n <= |s|
    requires forall i :: 0 <= i < n ==> c <= s[i].count
    ensures n * c <= SumBy(LineCount, s)
    decreases |s|
  {
    if n != 0 {
      var init := s[..|s| - 1];
      if n == |s| {
        PrefixWeight(init, n - 1, c);
        assert (n - 1) * c == n * c - c;
      } else {
        PrefixWeight(init, n, c);
      }
    }
  }

  // ----- The whole analysis -----

  datatype ProxyActivity = ProxyActivity(
    tally: Tally, statusClassCounts: seq<(StatusClass, nat)>, topRoutes: seq<RouteSignal>,
    totalRouteGroupCount: nat, routeGroupCountIsExact: bool)

  /** What a response says about the lines, for some way of resolving eviction and ranking ties. */
  ghost predicate Describes(lines: seq<Line>, maxGroups: nat, final: Scan, ranked: seq<RouteSignal>,
                            r: ProxyActivity)
  {
    && Reachable(Hits(lines), CandidateLimit(maxGroups), final)
    && Ranked(lines, final.table.Keys, ranked)
    && r.topRoutes == Take(ranked, maxGroups)
    && r.totalRouteGroupCount == |final.table| + (if final.overflowed then 1 else 0)
    && r.routeGroupCountIsExact == !final.overflowed
  }

  lemma RankedCountsAreTrue(lines: seq<Line>, limit: nat, final: Scan, ranked: seq<RouteSignal>, i: nat)
    requires Reachable(Hits(lines), limit, final) && Ranked(lines, final.table.Keys, ranked)
    requires i < |ranked|
    ensures ranked[i].count == TrueCount(Hits(lines), ranked[i].key)
  {
    var k := ranked[i].key;
    assert ranked[i] in ranked;
    EveryRunKeepsBounds(Hits(lines), limit, final);
    assert k in Bag(Hits(lines));
    ScansAgree(lines, k);
  }

  lemma RetainedRouteIsRanked(lines: seq<Line>, limit: nat, final: Scan, ranked: seq<RouteSignal>, k: RouteKey)
    returns (i: nat)
    requires Reachable(Hits(lines), limit, final) && Ranked(lines, final.table.Keys, ranked)
    requires k in final.table
    ensures Matching(lines, k) != []
    ensures i < |ranked| && ranked[i] == SignalOf(k, Matching(lines, k))
  {
    EveryRunKeepsBounds(Hits(lines), limit, final);
    assert k in Bag(Hits(lines));
    ScansAgree(lines, k);
    assert IsSignal(lines, final.table.Keys, SignalOf(k, Matching(lines, k)));
    i :| 0 <= i < |ranked| && ranked[i] == SignalOf(k, Matching(lines, k));
  }

  lemma RankedCountsFit(lines: seq<Line>, limit: nat, final: Scan, ranked: seq<RouteSignal>)
    requires Reachable(Hits(lines), limit, final) && Ranked(lines, final.table.Keys, ranked)
    ensures SumBy(LineCount, ranked) <= |Hits(lines)|
    ensures !final.overflowed ==> SumBy(LineCount, ranked) == |Hits(lines)|
  {
    RankedRoutesDistinct(lines, final.table.Keys, ranked);
    forall i | 0 <= i < |ranked| ensures ranked[i].count == Bag(Hits(lines))[ranked[i].key] {
      RankedCountsAreTrue(lines, limit, final, ranked, i);
    }
    if !final.overflowed {
      EveryRunKeepsBounds(Hits(lines), limit, final);
      forall k | k in Bag(Hits(lines)) ensures exists i :: 0 <= i < |ranked| && ranked[i].key == k {
        assert k in Support(Bag(Hits(lines)));
        var i := RetainedRouteIsRanked(lines, limit, final, ranked, k);
      }
    }
    DistinctKeysShareBag((s: RouteSignal) => s.key, LineCount, ranked, Bag(Hits(lines)));
    BagSize(Hits(lines));
  }

  lemma ShareSurvivesSlicing(total: nat, count: nat, maxGroups: nat, limit: nat)
    requires 0 < total <= count * maxGroups && 4 * maxGroups <= limit
    ensures total < count * limit
  {
    assert count * (4 * maxGroups) <= count * limit;
    assert count * (4 * maxGroups) == 4 * (count * maxGroups);
  }

  lemma ShareBoundsRank(i: nat, count: nat, total: nat, maxGroups: nat)
    requires (i + 1) * count <= total && 0 < total <= count * maxGroups
    ensures i < maxGroups
  {
    assert (maxGroups + 1) * count == maxGroups * count + count;
    if maxGroups <= i {
      MulMonotone(maxGroups + 1, i + 1, count);
      assert false;
    }
  }

  lemma FrequentMeansHighRank(ranked: seq<RouteSignal>, i: nat, total: nat, maxGroups: nat)
    requires SortedBy(SignalLeq, ranked) && i < |ranked|
    requires SumBy(LineCount, ranked) <= total
    requires 0 < total <= ranked[i].count * maxGroups
    ensures i < maxGroups
  {
    var count := ranked[i].count;
    forall j | 0 <= j < i + 1 ensures count <= ranked[j].count {
      assert j == i || SignalLeq(ranked[j], ranked[i]);
    }
    PrefixWeight(ranked, i + 1, count);
    ShareBoundsRank(i, count, total, maxGroups);
  }

  /** Every route holding at least one share in `maxGroups` of the status lines is in the response. */
  lemma FrequentRoutesAreReported(lines: seq<Line>, maxGroups: nat, final: Scan, ranked: seq<RouteSignal>,
                                  r: ProxyActivity, k: RouteKey)
    requires 1 <= maxGroups && Describes(lines, maxGroups, final, ranked, r)
    requires 0 < |Hits(lines)| <= TrueCount(Hits(lines), k) * maxGroups
    ensures Matching(lines, k) != [] && SignalOf(k, Matching(lines, k)) in r.topRoutes
    ensures SignalOf(k, Matching(lines, k)).count == TrueCount(Hits(lines), k)
    ensures |final.table| <= if maxGroups <= 8 then 32 else 4 * maxGroups
  {
    var limit, count := CandidateLimit(maxGroups), TrueCount(Hits(lines), k);
    hide TrueCount, Ranked, Reachable, SketchBounds, Hits, Matching;
    EveryRunKeepsBounds(Hits(lines), limit, final);
    BoundsLimitTable(Bag(Hits(lines)), ErrorRoutes(Hits(lines)), limit, final);
    ShareSurvivesSlicing(|Hits(lines)|, count, maxGroups, limit);
    FrequentRoutesAreRetained(Hits(lines), limit, final, k);
    var i := RetainedRouteIsRanked(lines, limit, final, ranked, k);
    RankedCountsAreTrue(lines, limit, final, ranked, i);
    RankedCountsFit(lines, limit, final, ranked);
    RankedIsSorted(lines, final.table.Keys, ranked);
    hide SignalOf;
    FrequentMeansHighRank(ranked, i, |Hits(lines)|, maxGroups);
    assert r.topRoutes[i] == ranked[i];
  }

  lemma BoundsLimitTable(bag: multiset<RouteKey>, errors: set<RouteKey>, limit: nat, final: Scan)
    requires SketchBounds(bag, errors, limit, final.table, final.overflowed)
    ensures |final.table| <= limit
  {
  }

  lemma RankedIsSorted(lines: seq<Line>, retained: set<RouteKey>, ranked: seq<RouteSignal>)
    requires Ranked(lines, retained, ranked)
    ensures SortedBy(SignalLeq, ranked)
  {
  }

  /** Without overflow the ranked counts add up to the scan's own totals. */
  lemma CountsAreConserved(lines: seq<Line>, limit: nat, final: Scan, ranked: seq<RouteSignal>)
    requires Reachable(Hits(lines), limit, final) && !final.overflowed
    requires Ranked(lines, final.table.Keys, ranked)
    ensures SumBy(LineCount, ranked) == TallyOf(lines).statusLines
    ensures SumBy(UpstreamErrorAttempts, ranked) == TallyOf(lines).upstreamErrors
  {
    RankedCountsFit(lines, limit, final, ranked);
    RankedRoutesDistinct(lines, final.table.Keys, ranked);
    forall i | 0 <= i < |ranked|
      ensures UpstreamErrorAttempts(ranked[i]) == ErrorBag(Hits(lines))[ranked[i].key]
    {
      assert ranked[i] in ranked;
      AttemptsAgree(lines, ranked[i].key);
    }
    EveryRunKeepsBounds(Hits(lines), limit, final);
    forall k | k in ErrorBag(Hits(lines)) ensures exists i :: 0 <= i < |ranked| && ranked[i].key == k {
      ErrorsAreHits(Hits(lines), k);
      assert k in Support(Bag(Hits(lines)));
      var i := RetainedRouteIsRanked(lines, limit, final, ranked, k);
    }
    DistinctKeysShareBag((s: RouteSignal) => s.key, UpstreamErrorAttempts, ranked, ErrorBag(Hits(lines)));
    ErrorBagSize(lines);
  }

  function UpstreamErrorAttempts(r: RouteSignal): nat
  {
    if r.key.status in UPSTREAM_ERROR_CODES then r.upstreamAttemptCount else 0
  }

  lemma {:induction false} ErrorsAreHits(hits: seq<Hit>, k: RouteKey)
    ensures ErrorBag(hits)[k] <= Bag(hits)[k]
  {
    if hits == [] {
      assert Filter((h: Hit) => h.upstreamError, hits) == [];
    } else {
      var init, last := hits[..|hits| - 1], hits[|hits| - 1];
      ErrorsAreHits(init, k);
      assert init + [last] == hits;
      ErrorBagStep(init, last);
      BagStep(init, last);
    }
  }

  /** The response calls its list truncated exactly when more than `maxGroups` routes occurred. */
  lemma TruncationIsExact(lines: seq<Line>, maxGroups: nat, final: Scan, ranked: seq<RouteSignal>, r: ProxyActivity)
    requires 1 <= maxGroups && Describes(lines, maxGroups, final, ranked, r)
    ensures r.totalRouteGroupCount > maxGroups <==> |Distinct(Hits(lines))| > maxGroups
    ensures r.routeGroupCountIsExact <==> |Distinct(Hits(lines))| <= if maxGroups <= 8 then 32 else 4 * maxGroups
    ensures r.routeGroupCountIsExact ==> r.totalRouteGroupCount == |Distinct(Hits(lines))|
  {
    OverflowIsExact(Hits(lines), CandidateLimit(maxGroups), final);
  }

  /** Exactly the signals of the retained routes that no longer remain, each once. */
  ghost predicate Gathered(lines: seq<Line>, retained: set<RouteKey>, remaining: set<RouteKey>,
                           signals: seq<RouteSignal>)
  {
    && NoDuplicates(signals)
    && forall s: RouteSignal :: s in signals <==> s.key !in remaining && IsSignal(lines, retained, s)
  }

  lemma GatherStep(lines: seq<Line>, retained: set<RouteKey>, remaining: set<RouteKey>, signals: seq<RouteSignal>,
                   signal: RouteSignal)
    requires Gathered(lines, retained, remaining, signals)
    requires signal.key in remaining && IsSignal(lines, retained, signal)
    ensures Gathered(lines, retained, remaining - {signal.key}, signals + [signal])
  {
    assert forall s :: IsSignal(lines, retained, s) && s.key == signal.key ==> s == signal;
    hide IsSignal;
    assert signal !in signals;
    forall s: RouteSignal ensures s in signals + [signal]
      <==> s.key !in remaining - {signal.key} && IsSignal(lines, retained, s)
    {
      assert s in signals + [signal] <==> s in signals || s == signal;
    }
  }

  lemma NothingGathered(lines: seq<Line>, retained: set<RouteKey>, keys: set<RouteKey>)
    requires AreOccurring(keys, retained, lines)
    ensures Gathered(lines, retained, keys, [])
  {
    hide Matching;
  }

  lemma GatheredAll(lines: seq<Line>, retained: set<RouteKey>, signals: seq<RouteSignal>)
    requires Gathered(lines, retained, {}, signals)
    ensures NoDuplicates(signals) && forall s :: s in signals <==> IsSignal(lines, retained, s)
  {
  }

  method SignalOfGroup(groups: RouteGroups, k: RouteKey, retained: set<RouteKey>, ghost lines: seq<Line>)
    returns (signal: RouteSignal)
    requires TracksRoutes(groups, lines) && AreOccurring(groups.Keys, retained, lines) && k in groups
    ensures IsSignal(lines, retained, signal) && signal.key == k
  {
    hide Summary, Matching;
    signal := groups[k].ToPayload(Matching(lines, k));
  }

  method CollectSignals(groups: RouteGroups, retained: set<RouteKey>, ghost lines: seq<Line>)
    returns (signals: seq<RouteSignal>)
    requires TracksRoutes(groups, lines) && AreOccurring(groups.Keys, retained, lines)
    ensures NoDuplicates(signals) && forall s :: s in signals <==> IsSignal(lines, retained, s)
  {
    signals := [];
    var remaining := groups.Keys;
    NothingGathered(lines, retained, remaining);
    hide TracksRoutes, AreOccurring, IsSignal, Gathered, NoDuplicates;
    while remaining != {}
      invariant remaining <= groups.Keys && Gathered(lines, retained, remaining, signals)
    {
      var k :| k in remaining;
      var signal := SignalOfGroup(groups, k, retained, lines);
      GatherStep(lines, retained, remaining, signals, signal);
      signals := signals + [signal];
      remaining := remaining - {k};
    }
    GatheredAll(lines, retained, signals);
  }

  method RankRoutes(lines: seq<Line>, retained: set<RouteKey>) returns (ranked: seq<RouteSignal>)
    ensures Ranked(lines, retained, ranked) && InPublicOrder(ranked)
  {
    var groups := BuildRouteGroups(lines, retained);
    var signals := CollectSignals(groups, retained, lines);
    ranked := StableSort(SignalLeq, signals);
    hide IsSignal, SignalLeq, InPublicOrder;
    SignalLeqIsPreorder();
    SortIsSortedPermutation(SignalLeq, signals);
    PermutationKeepsDistinct(signals, ranked);
    SortSize(SignalLeq, signals);
    PublicOrderIsLeq(ranked);
  }

  /** What a response promises about the lines of all sources. */
  ghost predicate Analyzes(lines: seq<Line>, maxGroups: nat, r: ProxyActivity)
  {
    && r.tally == TallyOf(lines) && r.statusClassCounts == ClassCounts(lines, 5)
    && ListsClasses(lines, r.statusClassCounts)
    && InPublicOrder(r.topRoutes) && (forall s :: s in r.topRoutes ==> DescribesRoute(lines, s))
    && (exists final, ranked :: Describes(lines, maxGroups, final, ranked, r))
    && (forall k :: 0 < |Hits(lines)| <= TrueCount(Hits(lines), k) * maxGroups ==>
          Matching(lines, k) != [] && SignalOf(k, Matching(lines, k)) in r.topRoutes)
    && |r.topRoutes| <= maxGroups
  }

  method AnalyzeProxyActivity(lines: seq<Line>, maxGroups: nat) returns (r: ProxyActivity)
    requires 1 <= maxGroups
    ensures Analyzes(lines, maxGroups, r)
  {
    var limit := CandidateLimit(maxGroups);
    var tally, statusCounts, final := FirstScan(lines, limit);
    var ranked := RankRoutes(lines, final.table.Keys);
    var classCounts: seq<(StatusClass, nat)> := [];
    for i := 0 to |STATUS_CLASSES|
      invariant classCounts == ClassCounts(lines, i)
    {
      var count := CountIn(statusCounts, STATUS_CLASSES[i]);
      if 0 < count {
        classCounts := classCounts + [(STATUS_CLASSES[i], count)];
      }
    }
    r := ProxyActivity(tally, classCounts, Take(ranked, maxGroups),
                       |final.table| + (if final.overflowed then 1 else 0), !final.overflowed);
    assert Describes(lines, maxGroups, final, ranked, r);
    ClassCountsListClasses(lines);
    RankedIsPublic(lines, final.table.Keys, ranked, maxGroups);
    hide ListsClasses, InPublicOrder, DescribesRoute, Ranked;
    forall k | 0 < |Hits(lines)| <= TrueCount(Hits(lines), k) * maxGroups
      ensures Matching(lines, k) != [] && SignalOf(k, Matching(lines, k)) in r.topRoutes
    {
      FrequentRoutesAreReported(lines, maxGroups, final, ranked, r, k);
    }
  }

  /** The lines of all files, one after the other; a file that cannot be read to its end is None. */
  function AllLines(files: seq<Option<seq<Line>>>): seq<Line>
  {
    if files == [] then []
    else
      var last := files[|files| - 1];
      if last.Some? then AllLines(files[..|files| - 1]) + last.value else AllLines(files[..|files| - 1])
  }

  /** Files that can be read are read in their order, each from its first line. */
  lemma {:induction false} AllLinesInOrder(files: seq<Option<seq<Line>>>, i: nat, j: nat)
    requires i < |files| && files[i].Some? && j < |files[i].value|
    ensures var at := |AllLines(files[..i])| + j;
            at < |AllLines(files)| && AllLines(files)[at] == files[i].value[j]
  {
    var n := |files| - 1;
    if i < n {
      AllLinesInOrder(files[..n], i, j);
      assert files[..n][..i] == files[..i];
    }
  }

  /** The analysis of the selected proxy files: it fails exactly when one cannot be read to its end. */
  method AnalyzeProxySources(files: seq<Option<seq<Line>>>, maxGroups: nat) returns (r: Option<ProxyActivity>)
    requires 1 <= maxGroups
    ensures r.None? <==> None in files
    ensures r.Some? ==> Analyzes(AllLines(files), maxGroups, r.value)
  {
    var lines: seq<Line> := [];
    for i := 0 to |files|
      invariant lines == AllLines(files[..i]) && None !in files[..i]
    {
      assert files[..i + 1][..i] == files[..i];
      if files[i].None? { return None; }
      lines := lines + files[i].value;
    }
    assert files[..|files|] == files;
    hide Analyzes, AllLines;
    var activity := AnalyzeProxyActivity(lines, maxGroups);
    r := Some(activity);
  }
}
