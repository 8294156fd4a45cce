/** The incident bundle: severity totals and per-source summaries over the retained groups. */
module IncidentBundle {
  import opened Options
  import opened Sorting
  import opened Filtering
  import opened Shares
  import opened SourceSelection
  import opened ErrorGroups
  import opened GroupedAnalysis

  datatype SourceSummary = SourceSummary(
    sourceKey: string, groupedErrorCount: nat, matchingLineCount: nat,
    firstTimestamp: Option<string>, lastTimestamp: Option<string>)

  function AllSourceKeys(groups: seq<GroupPayload>): set<string>
  {
    set p, k | p in groups && k in p.sourceKeys :: k
  }

  function Involves(key: string): GroupPayload -> bool
  {
    (p: GroupPayload) => key in p.sourceKeys
  }

  function InvolvesStamped(key: string): GroupPayload -> bool
  {
    (p: GroupPayload) => key in p.sourceKeys && p.lastTimestamp.Some?
  }

  /** A group's lines are credited to the source of its first line. */
  function Credit(key: string): GroupPayload -> nat
  {
    (p: GroupPayload) => if p.firstSeen.sourceKey == key then p.count else 0
  }

  /** What the groups that name a source say of it, in group order. */
  datatype SourceFacts = SourceFacts(groupCount: nat, first: Option<string>, last: Option<string>)

  const NO_FACTS := SourceFacts(0, None, None)

  function FactsOf(groups: seq<GroupPayload>, key: string): SourceFacts
  {
    var named, stamped := Filter(Involves(key), groups), Filter(InvolvesStamped(key), groups);
    SourceFacts(|named|, if named == [] then None else named[0].firstTimestamp,
                if stamped == [] then None else stamped[|stamped| - 1].lastTimestamp)
  }

  function Credited(f: SourceFacts, p: GroupPayload): SourceFacts
  {
    SourceFacts(f.groupCount + 1, if f.groupCount == 0 then p.firstTimestamp else f.first,
                if p.lastTimestamp.Some? then p.lastTimestamp else f.last)
  }

  lemma FactsStep(groups: seq<GroupPayload>, i: nat, key: string)
    requires i < |groups|
    ensures FactsOf(groups[..i + 1], key)
            == if key in groups[i].sourceKeys then Credited(FactsOf(groups[..i], key), groups[i])
               else FactsOf(groups[..i], key)
  {
    PrefixFilterStep(Involves(key), groups, i);
    PrefixFilterStep(InvolvesStamped(key), groups, i);
  }

  function SummaryFor(groups: seq<GroupPayload>, key: string): SourceSummary
  {
    var f := FactsOf(groups, key);
    SourceSummary(key, f.groupCount, SumBy(Credit(key), groups), f.first, f.last)
  }

  function Get(m: map<string, nat>, k: string): nat
  {
    if k in m then m[k] else 0
  }

  /** The maps that the summaries are built from. */
  datatype SourceMaps = SourceMaps(
    groupCounts: map<string, nat>, firstTimestamps: map<string, Option<string>>, lastTimestamps: map<string, string>)
  {
    function Facts(k: string): SourceFacts
    {
      SourceFacts(Get(groupCounts, k), if k in firstTimestamps then firstTimestamps[k] else None,
                  if k in lastTimestamps then Some(lastTimestamps[k]) else None)
    }

    predicate Valid()
    {
      firstTimestamps.Keys == groupCounts.Keys && forall k :: k in groupCounts ==> 0 < groupCounts[k]
    }

    /** Adds one group to one of its sources. */
    function CreditKey(k: string, p: GroupPayload): (m: SourceMaps)
      requires Valid()
      ensures m.Valid() && m.groupCounts.Keys == groupCounts.Keys + {k}
      ensures forall j :: m.Facts(j) == if j == k then Credited(Facts(k), p) else Facts(j)
    {
      SourceMaps(groupCounts[k := Get(groupCounts, k) + 1],
                 if k in firstTimestamps then firstTimestamps else firstTimestamps[k := p.firstTimestamp],
                 if p.lastTimestamp.Some? then lastTimestamps[k := p.lastTimestamp.value] else lastTimestamps)
    }
  }

  /** Adds one group to each of its sources. */
  method CreditGroup(maps: SourceMaps, p: GroupPayload) returns (maps': SourceMaps)
    requires maps.Valid()
    ensures maps'.Valid() && maps'.groupCounts.Keys == maps.groupCounts.Keys + p.sourceKeys
    ensures forall k :: maps'.Facts(k) == if k in p.sourceKeys then Credited(maps.Facts(k), p) else maps.Facts(k)
  {
    hide *;
    maps' := maps;
    var remaining := p.sourceKeys;
    while remaining != {}
      invariant remaining <= p.sourceKeys && maps'.Valid()
      invariant maps'.groupCounts.Keys == maps.groupCounts.Keys + (p.sourceKeys - remaining)
      invariant forall k :: k in p.sourceKeys - remaining ==> maps'.Facts(k) == Credited(maps.Facts(k), p)
      invariant forall k :: k !in p.sourceKeys - remaining ==> maps'.Facts(k) == maps.Facts(k)
    {
      var key :| key in remaining;
      maps' := maps'.CreditKey(key, p);
      remaining := remaining - {key};
    }
  }

  ghost predicate AreSummaries(groups: seq<GroupPayload>, summaries: seq<SourceSummary>)
  {
    && (forall i, j :: 0 <= i < j < |summaries| ==> summaries[i].sourceKey != summaries[j].sourceKey)
    && (forall i, j :: 0 <= i < j < |summaries| ==> StringLeq(summaries[i].sourceKey, summaries[j].sourceKey))
    && (forall s :: s in summaries <==> s.sourceKey in AllSourceKeys(groups) && s == SummaryFor(groups, s.sourceKey))
  }

  /** The maps hold what the first n groups say. */
  ghost predicate Describe(maps: SourceMaps, lineCounts: map<string, nat>, groups: seq<GroupPayload>, n: nat)
    requires n <= |groups|
  {
    && maps.Valid()
    && maps.groupCounts.Keys == AllSourceKeys(groups[..n])
    && (forall k :: maps.Facts(k) == FactsOf(groups[..n], k))
    && (forall k :: Get(lineCounts, k) == SumBy(Credit(k), groups[..n]))
  }

  lemma DescribeStep(maps: SourceMaps, lines: map<string, nat>, groups: seq<GroupPayload>, n: nat,
                     maps': SourceMaps, lines': map<string, nat>)
    requires n < |groups| && Describe(maps, lines, groups, n) && maps'.Valid()
    requires maps'.groupCounts.Keys == maps.groupCounts.Keys + groups[n].sourceKeys
    requires forall k :: maps'.Facts(k)
               == if k in groups[n].sourceKeys then Credited(maps.Facts(k), groups[n]) else maps.Facts(k)
    requires forall k :: Get(lines', k) == Get(lines, k) + Credit(k)(groups[n])
    ensures Describe(maps', lines', groups, n + 1)
  {
    hide Credited, FactsOf, SumBy, SourceMaps.Valid, SourceMaps.Facts;
    assert groups[..n + 1] == groups[..n] + [groups[n]];
    forall k ensures maps'.Facts(k) == FactsOf(groups[..n + 1], k) {
      FactsStep(groups, n, k);
    }
    forall k ensures Get(lines', k) == SumBy(Credit(k), groups[..n + 1]) {
      SumByStep(Credit(k), groups[..n], groups[n]);
    }
  }

  method BuildSourceSummaries(groups: seq<GroupPayload>) returns (summaries: seq<SourceSummary>)
    ensures AreSummaries(groups, summaries)
  {
    var maps := SourceMaps(map[], map[], map[]);
    var lineCounts: map<string, nat> := map[];
    for n := 0 to |groups|
      invariant Describe(maps, lineCounts, groups, n)
    {
      var group, primary := groups[n], groups[n].firstSeen.sourceKey;
      var credited := CreditGroup(maps, group);
      var counted := lineCounts[primary := Get(lineCounts, primary) + group.count];
      DescribeStep(maps, lineCounts, groups, n, credited, counted);
      maps, lineCounts := credited, counted;
    }
    assert groups[..|groups|] == groups;
    var keys := SortedKeys(maps.groupCounts.Keys);
    summaries := seq(|keys|, i requires 0 <= i < |keys| =>
      var f := maps.Facts(keys[i]);
      SourceSummary(keys[i], f.groupCount, Get(lineCounts, keys[i]), f.first, f.last));
    assert IsSortedSet(AllSourceKeys(groups), keys);
    hide AllSourceKeys, FactsOf, SumBy, SourceMaps.Facts, SourceMaps.Valid, IsSortedSet, Get;
    SummariesAreComplete(groups, keys, summaries);
  }

  lemma SummariesAreComplete(groups: seq<GroupPayload>, keys: seq<string>, summaries: seq<SourceSummary>)
    requires IsSortedSet(AllSourceKeys(groups), keys) && |summaries| == |keys|
    requires forall i :: 0 <= i < |keys| ==> summaries[i] == SummaryFor(groups, keys[i])
    ensures AreSummaries(groups, summaries)
  {
    hide FactsOf, SumBy, AllSourceKeys, StringLeq;
    forall s ensures s in summaries <==> s.sourceKey in AllSourceKeys(groups) && s == SummaryFor(groups, s.sourceKey)
    {
      if s.sourceKey in keys {
        var i :| 0 <= i < |keys| && keys[i] == s.sourceKey;
        assert summaries[i] == SummaryFor(groups, s.sourceKey);
      }
    }
  }

  /** A summary is the sum of what each group adds: one group, in a source that it names, and its lines,
      in the source where it was first seen. */
  lemma SummariesAdd(groups: seq<GroupPayload>, p: GroupPayload, key: string)
    ensures var before, after := SummaryFor(groups, key), SummaryFor(groups + [p], key);
            && after.groupedErrorCount == before.groupedErrorCount + (if key in p.sourceKeys then 1 else 0)
            && after.matchingLineCount
               == before.matchingLineCount + (if p.firstSeen.sourceKey == key then p.count else 0)
            && (key !in p.sourceKeys ==>
                  after.firstTimestamp == before.firstTimestamp && after.lastTimestamp == before.lastTimestamp)
            && (key in p.sourceKeys && before.groupedErrorCount == 0 ==> after.firstTimestamp == p.firstTimestamp)
            && (key in p.sourceKeys && 0 < before.groupedErrorCount ==> after.firstTimestamp == before.firstTimestamp)
            && (key in p.sourceKeys && p.lastTimestamp.Some? ==> after.lastTimestamp == p.lastTimestamp)
            && (key in p.sourceKeys && p.lastTimestamp.None? ==> after.lastTimestamp == before.lastTimestamp)
    ensures SummaryFor([], key) == SourceSummary(key, 0, 0, None, None)
  {
    var longer := groups + [p];
    assert longer[..|groups|] == groups && longer[..|groups| + 1] == longer;
    FactsStep(longer, |groups|, key);
    SumByStep(Credit(key), groups, p);
  }

  // ----- Conservation -----

  function LinesOf(s: SourceSummary): nat { s.matchingLineCount }

  /** Credits of one group over a list of distinct keys, whole exactly when its source is listed. */
  function CreditOver(keys: seq<string>, groups: seq<GroupPayload>): nat
  {
    SumBy((k: string) => SumBy(Credit(k), groups), keys)
  }

  lemma {:induction false} CreditOverStep(keys: seq<string>, groups: seq<GroupPayload>, p: GroupPayload)
    requires NoDuplicates(keys)
    ensures CreditOver(keys, groups + [p])
            == CreditOver(keys, groups) + (if p.firstSeen.sourceKey in keys then p.count else 0)
    decreases |keys|
  {
    if keys != [] {
      var init, last := keys[..|keys| - 1], keys[|keys| - 1];
      CreditOverStep(init, groups, p);
      SumByStep(Credit(last), groups, p);
      assert keys == init + [last];
      assert last !in init;
    }
  }

  lemma {:induction false} CreditsAddUp(keys: seq<string>, groups: seq<GroupPayload>)
    requires NoDuplicates(keys)
    requires forall p :: p in groups ==> p.firstSeen.sourceKey in keys
    ensures CreditOver(keys, groups) == SumBy(CountOf, groups)
    decreases |groups|
  {
    if groups == [] {
      ZeroCredits(keys);
    } else {
      var init, last := groups[..|groups| - 1], groups[|groups| - 1];
      assert groups == init + [last];
      CreditsAddUp(keys, init);
      CreditOverStep(keys, init, last);
    }
  }

  lemma {:induction false} ZeroCredits(keys: seq<string>)
    ensures CreditOver(keys, []) == 0
  {
    if keys != [] {
      ZeroCredits(keys[..|keys| - 1]);
    }
  }

  lemma {:induction false} SummariesSum(groups: seq<GroupPayload>, summaries: seq<SourceSummary>, keys: seq<string>)
    requires |keys| == |summaries|
    requires forall i :: 0 <= i < |keys| ==>
               keys[i] == summaries[i].sourceKey && summaries[i] == SummaryFor(groups, keys[i])
    ensures SumBy(LinesOf, summaries) == CreditOver(keys, groups)
    decreases |keys|
  {
    if keys != [] {
      SummariesSum(groups, summaries[..|keys| - 1], keys[..|keys| - 1]);
    }
  }

  lemma FirstSourceIsListed(events: seq<ErrorEvent>, groups: seq<GroupPayload>, p: GroupPayload)
    requires p in groups && IsGroup(events, p)
    ensures p.firstSeen.sourceKey in AllSourceKeys(groups)
  {
    assert Same(events, p.fingerprint)[0].at.sourceKey in p.sourceKeys;
  }

  lemma SummariesListSources(groups: seq<GroupPayload>, summaries: seq<SourceSummary>) returns (keys: seq<string>)
    requires AreSummaries(groups, summaries)
    ensures |keys| == |summaries| && NoDuplicates(keys)
    ensures forall i :: 0 <= i < |keys| ==>
              keys[i] == summaries[i].sourceKey && summaries[i] == SummaryFor(groups, keys[i])
    ensures forall k :: k in AllSourceKeys(groups) ==> k in keys
  {
    hide SummaryFor, AllSourceKeys, StringLeq;
    keys := seq(|summaries|, i requires 0 <= i < |summaries| => summaries[i].sourceKey);
    forall i | 0 <= i < |keys| ensures summaries[i] == SummaryFor(groups, keys[i]) {
      assert summaries[i] in summaries;
    }
    forall k | k in AllSourceKeys(groups) ensures k in keys {
      SummaryNamesKey(groups, k);
      assert SummaryFor(groups, k) in summaries;
      var i :| 0 <= i < |summaries| && summaries[i] == SummaryFor(groups, k);
      assert keys[i] == k;
    }
  }

  lemma SummaryNamesKey(groups: seq<GroupPayload>, k: string)
    ensures SummaryFor(groups, k).sourceKey == k
  {
  }

  /** Per-source line counts add up to the total of all group counts: nothing lost, nothing doubled. */
  lemma SourceLinesAreConserved(events: seq<ErrorEvent>, groups: seq<GroupPayload>, summaries: seq<SourceSummary>)
    requires Ranked(events, groups) && AreSummaries(groups, summaries)
    ensures SumBy(LinesOf, summaries) == SumBy(CountOf, groups) == |events|
  {
    var keys := SummariesListSources(groups, summaries);
    forall p | p in groups ensures p.firstSeen.sourceKey in keys {
      FirstSourceIsListed(events, groups, p);
    }
    hide *;
    SummariesSum(groups, summaries, keys);
    CreditsAddUp(keys, groups);
    GroupCountsAddUp(events, groups);
  }

  // ----- The bundle -----

  datatype Bundle = Bundle(
    searchedSourceKeys: seq<string>, groupedErrorCount: nat, matchingLineCount: nat, analysisComplete: bool,
    highCount: nat, mediumCount: nat, lowCount: nat,
    topGroups: seq<GroupPayload>, sourceSummaries: seq<SourceSummary>)

  datatype BundleResult =
    | Built(bundle: Bundle)
    | InvalidLimit
    | UnknownRequest(keys: seq<string>)
    | Unavailable

  predicate IsHigh(p: GroupPayload) { p.identity.severity.High? }
  predicate IsMedium(p: GroupPayload) { p.identity.severity.Medium? }
  predicate IsLow(p: GroupPayload) { p.identity.severity.Low? }

  lemma {:induction false} SeveritiesPartition(groups: seq<GroupPayload>)
    ensures Count(IsHigh, groups) + Count(IsMedium, groups) + Count(IsLow, groups) == |groups|
  {
    if groups != [] {
      var init, last := groups[..|groups| - 1], groups[|groups| - 1];
      assert groups == init + [last];
      SeveritiesPartition(init);
      match last.identity.severity { case High => case Medium => case Low => }
    }
  }

  /** The ranking starts with exactly highCount high groups, followed by exactly mediumCount medium ones. */
  ghost predicate SeveritiesInRow(ranked: seq<GroupPayload>, b: Bundle)
  {
    forall i :: 0 <= i < |ranked| ==>
      && (ranked[i].identity.severity == High <==> i < b.highCount)
      && (ranked[i].identity.severity == Medium <==> b.highCount <= i < b.highCount + b.mediumCount)
  }

  /** High, medium and low groups stand in this order. */
  ghost predicate SeveritiesDescend(ranked: seq<GroupPayload>)
  {
    forall i, j :: 0 <= i < j < |ranked| ==>
      && (ranked[j].identity.severity.High? ==> ranked[i].identity.severity.High?)
      && (ranked[j].identity.severity.Medium? ==> !ranked[i].identity.severity.Low?)
  }

  ghost predicate StandsAt(p: GroupPayload, i: nat, high: nat, medium: nat)
  {
    && (p.identity.severity.High? <==> i < high)
    && (p.identity.severity.Medium? <==> high <= i < high + medium)
  }

  ghost predicate AllStand(ranked: seq<GroupPayload>, high: nat, medium: nat)
  {
    high + medium <= |ranked| && forall i :: 0 <= i < |ranked| ==> StandsAt(ranked[i], i, high, medium)
  }

  lemma NextStands(init: seq<GroupPayload>, last: GroupPayload, high: nat, medium: nat)
    requires AllStand(init, high, medium)
    requires init != [] && last.identity.severity.High? ==> init[|init| - 1].identity.severity.High?
    requires init != [] && last.identity.severity.Medium? ==> !init[|init| - 1].identity.severity.Low?
    ensures AllStand(init + [last], high + (if last.identity.severity.High? then 1 else 0),
                     medium + (if last.identity.severity.Medium? then 1 else 0))
  {
    if init != [] {
      assert StandsAt(init[|init| - 1], |init| - 1, high, medium);
    }
  }

  lemma DescendPrefix(ranked: seq<GroupPayload>, n: nat)
    requires SeveritiesDescend(ranked) && n < |ranked|
    ensures SeveritiesDescend(ranked[..n])
    ensures 0 < n && ranked[n].identity.severity.High? ==> ranked[n - 1].identity.severity.High?
    ensures 0 < n && ranked[n].identity.severity.Medium? ==> !ranked[n - 1].identity.severity.Low?
  {
  }

  lemma {:induction false} CountsFollowRanking(ranked: seq<GroupPayload>)
    requires SeveritiesDescend(ranked)
    ensures AllStand(ranked, Count(IsHigh, ranked), Count(IsMedium, ranked))
  {
    if ranked != [] {
      var n := |ranked| - 1;
      var init, last := ranked[..n], ranked[n];
      DescendPrefix(ranked, n);
      hide SeveritiesDescend, AllStand, Count;
      CountsFollowRanking(init);
      SeverityStep(init, last);
      NextStands(init, last, Count(IsHigh, init), Count(IsMedium, init));
      assert init + [last] == ranked;
    }
  }

  lemma PublicOrderDescends(ranked: seq<GroupPayload>)
    requires InPublicOrder(ranked)
    ensures SeveritiesDescend(ranked)
  {
    hide StringLeq;
  }

  lemma SeverityStep(init: seq<GroupPayload>, last: GroupPayload)
    ensures Count(IsHigh, init + [last]) == Count(IsHigh, init) + if last.identity.severity.High? then 1 else 0
    ensures Count(IsMedium, init + [last]) == Count(IsMedium, init) + if last.identity.severity.Medium? then 1 else 0
  {
    FilterStep(IsHigh, init, last);
    FilterStep(IsMedium, init, last);
  }

  /** The bundle's numbers, against the groups its scan retained. */
  ghost predicate Bundles(sources: seq<SourceFile>, limit: nat, maxGroups: nat, merged: seq<ErrorEvent>,
                          ranked: seq<GroupPayload>, b: Bundle)
  {
    && Ranked(merged, ranked)
    && ScanResult(sources, limit, if b.analysisComplete then Complete else CapReached, merged,
                  b.matchingLineCount, b.searchedSourceKeys)
    && b.groupedErrorCount == |ranked|
    && b.highCount == Count(IsHigh, ranked)
    && b.mediumCount == Count(IsMedium, ranked)
    && b.lowCount == Count(IsLow, ranked)
    && b.highCount + b.mediumCount + b.lowCount == |ranked|
    && b.topGroups == Slice(ranked, 0, maxGroups)
    && InPublicOrder(b.topGroups) && SeveritiesInRow(ranked, b)
    && AreSummaries(ranked, b.sourceSummaries)
    && SumBy(LinesOf, b.sourceSummaries) == SumBy(CountOf, ranked)
       == b.matchingLineCount - (if b.analysisComplete then 0 else 1)
  }

  method BuildIncidentBundle(stored: seq<StoredSource<FileLines>>, requested: Option<seq<string>>,
                             maxGroups: nat, groupLimit: int)
    returns (r: BundleResult)
    ensures r.InvalidLimit? <==> groupLimit < 1
    ensures r.UnknownRequest? <==> 1 <= groupLimit && Unknown(stored, requested) != {}
    ensures r.Unavailable? <==>
              1 <= groupLimit && Unknown(stored, requested) == {} && BreaksFirst(Chosen(stored, requested), groupLimit)
    ensures r.Built? ==> 1 <= groupLimit && exists merged, ranked ::
              Bundles(Chosen(stored, requested), groupLimit, maxGroups, merged, ranked, r.bundle)
  {
    var result := GroupSnapshotErrors(stored, requested, if groupLimit < 0 then 0 else groupLimit, 0, groupLimit);
    match result {
      case InvalidGroupLimit => return InvalidLimit;
      case UnknownKeys(keys) => return UnknownRequest(keys);
      case SourceUnavailable => return Unavailable;
      case Grouped(a) =>
        ghost var sources := Chosen(stored, requested);
        ghost var merged, ranked :| Reports(sources, groupLimit, 0, groupLimit, merged, ranked, a);
        var b := BundleOf(sources, a, maxGroups, groupLimit, merged, ranked);
        assert Bundles(sources, groupLimit, maxGroups, merged, ranked, b);
        r := Built(b);
    }
  }

  /** The bundle over an analysis whose page holds every retained group. */
  method BundleOf(ghost sources: seq<SourceFile>, a: GroupedSnapshotAnalysis, maxGroups: nat, limit: nat,
                  ghost merged: seq<ErrorEvent>, ghost ranked: seq<GroupPayload>)
    returns (b: Bundle)
    requires Reports(sources, limit, 0, limit, merged, ranked, a)
    ensures Bundles(sources, limit, maxGroups, merged, ranked, b)
  {
    RankedSize(merged, ranked);
    MergedFits(Events(sources[..Examined(sources)]), limit, merged);
    assert a.groups == ranked;
    var retained := a.groups;
    var summaries := BuildSourceSummaries(retained);
    SeveritiesPartition(retained);
    SliceIsPublic(merged, ranked, 0, maxGroups);
    SortedIsPublic(ranked);
    PublicOrderDescends(ranked);
    CountsFollowRanking(ranked);
    SourceLinesAreConserved(merged, retained, summaries);
    b := Bundle(a.searchedSourceKeys, a.totalGroupCount, a.matchingLineCount, a.analysisComplete,
                Count(IsHigh, retained), Count(IsMedium, retained), Count(IsLow, retained),
                Slice(retained, 0, maxGroups), summaries);
  }
}
