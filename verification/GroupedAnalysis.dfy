/** The ranked result of a capped scan, its pages, and the incident bundle built on it. */
module GroupedAnalysis {
  import opened Options
  import opened Sorting
  import opened Filtering
  import opened Shares
  import opened SourceSelection
  import opened ErrorGroups

  // ----- Ranking -----

  function SeverityRank(s: Severity): nat
  {
    match s case High => 0 case Medium => 1 case Low => 2
  }

  predicate GroupLeq(a: GroupPayload, b: GroupPayload)
  {
    if a.identity.severity != b.identity.severity then
      SeverityRank(a.identity.severity) < SeverityRank(b.identity.severity)
    else if a.count != b.count then a.count > b.count
    else StringLeq(a.fingerprint, b.fingerprint)
  }

  lemma GroupLeqIsPreorder()
    ensures TotalPreorder(GroupLeq)
  {
    StringLeqIsPreorder();
  }

  /** The public order, read off two groups of the list: high before medium before low, then the larger
      count, then the fingerprints in string order. */
  ghost predicate InPublicOrder(groups: seq<GroupPayload>)
  {
    forall i, j :: 0 <= i < j < |groups| ==>
      var a, b := groups[i], groups[j];
      && (b.identity.severity.High? ==> a.identity.severity.High?)
      && (b.identity.severity.Medium? ==> !a.identity.severity.Low?)
      && (a.identity.severity == b.identity.severity ==> b.count <= a.count)
      && (a.identity.severity == b.identity.severity && a.count == b.count ==> StringLeq(a.fingerprint, b.fingerprint))
  }

  lemma SortedIsPublic(groups: seq<GroupPayload>)
    requires SortedBy(GroupLeq, groups)
    ensures InPublicOrder(groups)
  {
    hide StringLeq;
    forall i, j | 0 <= i < j < |groups| ensures GroupLeq(groups[i], groups[j]) {
    }
  }

  ghost predicate IsGroup(events: seq<ErrorEvent>, p: GroupPayload)
  {
    var same := Same(events, p.fingerprint);
    same != [] && p == PayloadOf(p.fingerprint, same)
  }

  /** The payload, read off the events of its fingerprint. */
  ghost predicate DescribesGroup(events: seq<ErrorEvent>, p: GroupPayload)
  {
    && p.count == Count((e: ErrorEvent) => e.fingerprint == p.fingerprint, events)
    && CollectsDetails(events, p)
    && (exists i: nat :: IsFirst(events, p, i) && p.identity == events[i].identity && p.firstSeen == events[i].at)
    && (exists i: nat :: IsLast(events, p, i) && p.lastSeen == events[i].at)
    && (p.firstTimestamp.Some? ==> exists i: nat :: IsFirstStamp(events, p, i))
    && (p.lastTimestamp.Some? ==> exists i: nat :: IsLastStamp(events, p, i))
    && (p.firstTimestamp.None? || p.lastTimestamp.None? ==>
          p.firstTimestamp == p.lastTimestamp && forall j :: 0 <= j < |events| ==> StampOf(events, p, j) == None)
  }

  /** The distinct details that the group's events give, empty strings left out. */
  ghost predicate CollectsDetails(events: seq<ErrorEvent>, p: GroupPayload)
  {
    && (forall x :: x in p.sourceKeys <==> exists e :: Has(events, p, e) && e.at.sourceKey == x)
    && (forall x :: x in p.attributes.paths <==> x != "" && exists e :: Has(events, p, e) && e.details.path == Some(x))
    && (forall x :: x in p.attributes.methods
          <==> x != "" && exists e :: Has(events, p, e) && e.details.method_ == Some(x))
    && (forall x :: x in p.attributes.hosts <==> x != "" && exists e :: Has(events, p, e) && e.details.host == Some(x))
    && (forall x :: x in p.attributes.statusCodes
          <==> exists e :: Has(events, p, e) && e.details.statusCode == Some(x))
    && (forall x :: x in p.attributes.levels
          <==> x != "" && exists e :: Has(events, p, e) && e.details.level == Some(x))
    && (p.attributes.hasExplicitMessage <==> exists e :: Has(events, p, e) && e.details.hasExplicitMessage)
  }

  predicate Has(events: seq<ErrorEvent>, p: GroupPayload, e: ErrorEvent)
  {
    e in events && e.fingerprint == p.fingerprint
  }

  predicate IsFirst(events: seq<ErrorEvent>, p: GroupPayload, i: nat)
  {
    && i < |events| && events[i].fingerprint == p.fingerprint
    && forall j :: 0 <= j < i ==> events[j].fingerprint != p.fingerprint
  }

  predicate IsLast(events: seq<ErrorEvent>, p: GroupPayload, i: nat)
  {
    && i < |events| && events[i].fingerprint == p.fingerprint
    && forall j :: i < j < |events| ==> events[j].fingerprint != p.fingerprint
  }

  /** The timestamp that an event contributes to the group, if any. */
  function StampOf(events: seq<ErrorEvent>, p: GroupPayload, i: nat): Option<string>
    requires i < |events|
  {
    if events[i].fingerprint == p.fingerprint then events[i].timestamp else None
  }

  ghost predicate IsFirstStamp(events: seq<ErrorEvent>, p: GroupPayload, i: nat)
  {
    && i < |events| && p.firstTimestamp == StampOf(events, p, i)
    && forall j :: 0 <= j < i ==> StampOf(events, p, j) == None
  }

  ghost predicate IsLastStamp(events: seq<ErrorEvent>, p: GroupPayload, i: nat)
  {
    && i < |events| && p.lastTimestamp == StampOf(events, p, i)
    && forall j :: i < j < |events| ==> StampOf(events, p, j) == None
  }

  lemma {:induction false} StampedAre(events: seq<ErrorEvent>, fp: string)
    ensures Timestamped(Same(events, fp))
         == Filter((e: ErrorEvent) => e.fingerprint == fp && e.timestamp.Some?, events)
  {
    if events != [] {
      var init, last := events[..|events| - 1], events[|events| - 1];
      assert events == init + [last];
      StampedAre(init, fp);
      EventStep(init, last);
      FilterStep((e: ErrorEvent) => e.timestamp.Some?, Same(init, fp), last);
    }
  }

  lemma GroupNamesAttributes(events: seq<ErrorEvent>, p: GroupPayload)
    requires IsGroup(events, p)
    ensures CollectsDetails(events, p)
  {
    SameMembers(events, p.fingerprint);
    var same := Same(events, p.fingerprint);
    assert forall e :: e in same <==> Has(events, p, e);
    hide Same, Has;
  }

  lemma GroupHasEnds(events: seq<ErrorEvent>, p: GroupPayload) returns (i: nat, m: nat)
    requires IsGroup(events, p)
    ensures IsFirst(events, p, i) && p.identity == events[i].identity && p.firstSeen == events[i].at
    ensures IsLast(events, p, m) && p.lastSeen == events[m].at
  {
    i := FirstKept((e: ErrorEvent) => e.fingerprint == p.fingerprint, events);
    m := LastKept((e: ErrorEvent) => e.fingerprint == p.fingerprint, events);
  }

  lemma GroupHasStamps(events: seq<ErrorEvent>, p: GroupPayload)
    requires IsGroup(events, p)
    ensures p.firstTimestamp.Some? ==> exists i: nat :: IsFirstStamp(events, p, i)
    ensures p.lastTimestamp.Some? ==> exists i: nat :: IsLastStamp(events, p, i)
    ensures p.firstTimestamp.None? || p.lastTimestamp.None? ==>
              p.firstTimestamp == p.lastTimestamp && forall j :: 0 <= j < |events| ==> StampOf(events, p, j) == None
  {
    var keep := (e: ErrorEvent) => e.fingerprint == p.fingerprint && e.timestamp.Some?;
    StampedAre(events, p.fingerprint);
    NoneKept(keep, events);
    if Filter(keep, events) != [] {
      var i := FirstKept(keep, events);
      var m := LastKept(keep, events);
      assert IsFirstStamp(events, p, i) && IsLastStamp(events, p, m);
    }
    hide Filter, Same;
  }

  lemma GroupDescribesEvents(events: seq<ErrorEvent>, p: GroupPayload)
    requires IsGroup(events, p)
    ensures DescribesGroup(events, p)
  {
    GroupNamesAttributes(events, p);
    GroupHasStamps(events, p);
    var i, m := GroupHasEnds(events, p);
    hide Has, StampOf, AttributesOf, CollectsDetails;
  }

  /** Every group of the events exactly once, in public order. */
  ghost predicate Ranked(events: seq<ErrorEvent>, ranked: seq<GroupPayload>)
  {
    && SortedBy(GroupLeq, ranked)
    && NoDuplicates(ranked)
    && forall p :: p in ranked <==> IsGroup(events, p)
  }

  function FingerprintOf(p: GroupPayload): string { p.fingerprint }

  function CountOf(p: GroupPayload): nat { p.count }

  lemma RankedFingerprintsDistinct(events: seq<ErrorEvent>, ranked: seq<GroupPayload>)
    requires Ranked(events, ranked)
    ensures DistinctBy(FingerprintOf, ranked)
  {
    forall i, j | 0 <= i < j < |ranked| ensures ranked[i].fingerprint != ranked[j].fingerprint {
      assert ranked[i] in ranked && ranked[j] in ranked;
    }
  }

  /** The order is strict on groups, so no iteration order of the table can show in the result. */
  lemma RankingIsUnique(events: seq<ErrorEvent>, s: seq<GroupPayload>, t: seq<GroupPayload>)
    requires Ranked(events, s) && Ranked(events, t)
    ensures s == t
  {
    SameElementsDistinct(s, t);
    RankedFingerprintsDistinct(events, s);
    forall i, j | 0 <= i < |s| && 0 <= j < |s| && GroupLeq(s[i], s[j]) && GroupLeq(s[j], s[i])
      ensures s[i] == s[j]
    {
      StringLeqTotal(s[i].fingerprint, s[j].fingerprint);
      assert i < j ==> FingerprintOf(s[i]) != FingerprintOf(s[j]);
      assert j < i ==> FingerprintOf(s[j]) != FingerprintOf(s[i]);
    }
    SortedUnique(GroupLeq, s, t);
  }

  ghost function FingerprintBag(events: seq<ErrorEvent>): multiset<string>
  {
    if events == [] then multiset{}
    else FingerprintBag(events[..|events| - 1]) + multiset{events[|events| - 1].fingerprint}
  }

  lemma {:induction false} BagCountsGroups(events: seq<ErrorEvent>, fp: string)
    ensures FingerprintBag(events)[fp] == |Same(events, fp)|
    ensures |FingerprintBag(events)| == |events|
  {
    if events != [] {
      var init, last := events[..|events| - 1], events[|events| - 1];
      BagCountsGroups(init, fp);
      assert events == init + [last];
      EventStep(init, last);
    }
  }

  /** Every merged event is counted in exactly one group. */
  lemma GroupCountsAddUp(events: seq<ErrorEvent>, ranked: seq<GroupPayload>)
    requires Ranked(events, ranked)
    ensures SumBy(CountOf, ranked) == |events|
  {
    RankedFingerprintsDistinct(events, ranked);
    forall i | 0 <= i < |ranked| ensures CountOf(ranked[i]) == FingerprintBag(events)[FingerprintOf(ranked[i])] {
      assert ranked[i] in ranked;
      BagCountsGroups(events, ranked[i].fingerprint);
    }
    forall fp | fp in FingerprintBag(events)
      ensures exists i :: 0 <= i < |ranked| && FingerprintOf(ranked[i]) == fp
    {
      BagCountsGroups(events, fp);
      assert IsGroup(events, PayloadOf(fp, Same(events, fp)));
      var i :| 0 <= i < |ranked| && ranked[i] == PayloadOf(fp, Same(events, fp));
      assert FingerprintOf(ranked[i]) == fp;
    }
    DistinctKeysShareBag(FingerprintOf, CountOf, ranked, FingerprintBag(events));
    BagCountsGroups(events, "");
  }

  lemma {:induction false} RankedSize(events: seq<ErrorEvent>, ranked: seq<GroupPayload>)
    requires Ranked(events, ranked)
    ensures |ranked| == |Fingerprints(events)|
  {
    RankedFingerprintsDistinct(events, ranked);
    assert Fingerprints(events) == set p | p in ranked :: p.fingerprint by {
      forall fp | fp in Fingerprints(events) ensures exists p :: p in ranked && p.fingerprint == fp {
        SameMembers(events, fp);
        assert IsGroup(events, PayloadOf(fp, Same(events, fp)));
      }
      forall p | p in ranked ensures p.fingerprint in Fingerprints(events) {
        SameMembers(events, p.fingerprint);
      }
    }
    DistinctSize(ranked);
  }

  lemma {:induction false} DistinctSize(s: seq<GroupPayload>)
    requires DistinctBy(FingerprintOf, s)
    ensures |set p | p in s :: p.fingerprint| == |s|
  {
    if s != [] {
      var init, last := s[..|s| - 1], s[|s| - 1];
      DistinctSize(init);
      assert (set p | p in s :: p.fingerprint) == (set p | p in init :: p.fingerprint) + {last.fingerprint};
      assert last.fingerprint !in (set p | p in init :: p.fingerprint) by {
        forall i | 0 <= i < |init| ensures init[i].fingerprint != last.fingerprint {
          assert FingerprintOf(s[i]) != FingerprintOf(s[|s| - 1]);
        }
      }
    }
  }

  // ----- The service call -----

  datatype GroupedSnapshotAnalysis = GroupedSnapshotAnalysis(
    groups: seq<GroupPayload>, matchingLineCount: nat, searchedSourceKeys: seq<string>,
    totalGroupCount: nat, analysisComplete: bool, analysisGroupLimit: nat)

  datatype GroupingResult =
    | Grouped(analysis: GroupedSnapshotAnalysis)
    | InvalidGroupLimit
    | UnknownKeys(keys: seq<string>)
    | SourceUnavailable

  /** `s[offset : offset + count]` with Python's clamping. */
  function Slice<T>(s: seq<T>, offset: nat, count: nat): seq<T>
  {
    if |s| <= offset then []
    else if |s| <= offset + count then s[offset..]
    else s[offset..offset + count]
  }

  lemma SliceIsPublic(events: seq<ErrorEvent>, ranked: seq<GroupPayload>, offset: nat, count: nat)
    requires Ranked(events, ranked)
    ensures InPublicOrder(Slice(ranked, offset, count))
    ensures forall p :: p in Slice(ranked, offset, count) ==> DescribesGroup(events, p)
  {
    SliceIsSorted(ranked, offset, count);
    SortedIsPublic(Slice(ranked, offset, count));
    hide DescribesGroup, StringLeq, InPublicOrder, GroupLeq, SortedBy, IsGroup;
    forall p | p in Slice(ranked, offset, count) ensures DescribesGroup(events, p) {
      SliceMembers(ranked, offset, count, p);
      GroupDescribesEvents(events, p);
    }
  }

  lemma SliceIsSorted(ranked: seq<GroupPayload>, offset: nat, count: nat)
    requires SortedBy(GroupLeq, ranked)
    ensures SortedBy(GroupLeq, Slice(ranked, offset, count))
  {
  }

  lemma SliceMembers<T>(s: seq<T>, offset: nat, count: nat, x: T)
    requires x in Slice(s, offset, count)
    ensures x in s
  {
  }

  /** What a successful call reports, given what its scan had merged. */
  ghost predicate Reports(sources: seq<SourceFile>, limit: nat, offset: nat, maxGroups: nat,
                          merged: seq<ErrorEvent>, ranked: seq<GroupPayload>, a: GroupedSnapshotAnalysis)
  {
    && ScanResult(sources, limit, if a.analysisComplete then Complete else CapReached, merged,
                  a.matchingLineCount, a.searchedSourceKeys)
    && Ranked(merged, ranked)
    && a.groups == Slice(ranked, offset, maxGroups)
    && InPublicOrder(a.groups) && (forall p :: p in a.groups ==> DescribesGroup(merged, p))
    && a.totalGroupCount == |ranked|
    && a.analysisGroupLimit == limit
  }

  /** Exactly the groups whose fingerprint is no longer remaining, each once. */
  ghost predicate Gathered(events: seq<ErrorEvent>, remaining: set<string>, payloads: seq<GroupPayload>)
  {
    && NoDuplicates(payloads)
    && forall p :: p in payloads <==> p.fingerprint !in remaining && IsGroup(events, p)
  }

  lemma GatherStep(events: seq<ErrorEvent>, remaining: set<string>, payloads: seq<GroupPayload>, payload: GroupPayload)
    requires Gathered(events, remaining, payloads)
    requires payload.fingerprint in remaining && IsGroup(events, payload)
    ensures Gathered(events, remaining - {payload.fingerprint}, payloads + [payload])
  {
    assert forall p :: IsGroup(events, p) && p.fingerprint == payload.fingerprint ==> p == payload;
    hide IsGroup;
    assert payload !in payloads;
    forall p ensures p in payloads + [payload]
      <==> p.fingerprint !in remaining - {payload.fingerprint} && IsGroup(events, p)
    {
      assert p in payloads + [payload] <==> p in payloads || p == payload;
    }
  }

  lemma GroupsHaveEvents(events: seq<ErrorEvent>, groups: Groups)
    requires groups.Keys == Fingerprints(events)
    ensures forall fp :: fp in groups ==> Same(events, fp) != []
    ensures forall p :: IsGroup(events, p) ==> p.fingerprint in groups
  {
    forall fp ensures Same(events, fp) != [] <==> fp in groups.Keys {
      SameMembers(events, fp);
    }
  }

  method PayloadOfGroup(groups: Groups, fp: string, ghost events: seq<ErrorEvent>) returns (payload: GroupPayload)
    requires Holds(groups, events) && fp in groups
    ensures IsGroup(events, payload) && payload.fingerprint == fp
  {
    SameMembers(events, fp);
    payload := groups[fp].ToPayload(Same(events, fp));
  }

  /** The payloads of all groups, in some order of the table. */
  method CollectPayloads(groups: Groups, ghost events: seq<ErrorEvent>) returns (payloads: seq<GroupPayload>)
    requires Holds(groups, events)
    ensures NoDuplicates(payloads)
    ensures forall p :: p in payloads <==> IsGroup(events, p)
  {
    payloads := [];
    var remaining := groups.Keys;
    GroupsHaveEvents(events, groups);
    assert Gathered(events, remaining, payloads);
    hide Holds, IsGroup;
    hide Gathered, NoDuplicates;
    while remaining != {}
      invariant remaining <= groups.Keys && Gathered(events, remaining, payloads)
    {
      var fp :| fp in remaining;
      var payload := PayloadOfGroup(groups, fp, events);
      GatherStep(events, remaining, payloads, payload);
      payloads := payloads + [payload];
      remaining := remaining - {fp};
    }
    GatheredAll(events, payloads);
  }

  lemma GatheredAll(events: seq<ErrorEvent>, payloads: seq<GroupPayload>)
    requires Gathered(events, {}, payloads)
    ensures NoDuplicates(payloads) && forall p :: p in payloads <==> IsGroup(events, p)
  {
  }

  method RankGroups(groups: Groups, ghost events: seq<ErrorEvent>) returns (ranked: seq<GroupPayload>)
    requires Holds(groups, events)
    ensures Ranked(events, ranked) && InPublicOrder(ranked)
  {
    var payloads := CollectPayloads(groups, events);
    ranked := StableSort(GroupLeq, payloads);
    hide IsGroup, GroupLeq, InPublicOrder;
    GroupLeqIsPreorder();
    SortIsSortedPermutation(GroupLeq, payloads);
    PermutationKeepsDistinct(payloads, ranked);
    SortSize(GroupLeq, payloads);
    SortedIsPublic(ranked);
  }

  /** A missing file or a line that raises is reached before the cap. */
  predicate BreaksFirst(sources: seq<SourceFile>, limit: nat)
  {
    Whole(sources) < |sources| && |Fingerprints(Events(sources[..Examined(sources)]))| <= limit
  }

  method GroupSnapshotErrors(stored: seq<StoredSource<FileLines>>, requested: Option<seq<string>>,
                             maxGroups: nat, offset: nat, groupLimit: int)
    returns (r: GroupingResult)
    ensures r.InvalidGroupLimit? <==> groupLimit < 1
    ensures r.UnknownKeys? <==> 1 <= groupLimit && Unknown(stored, requested) != {}
    ensures r.UnknownKeys? ==> IsSortedSet(Unknown(stored, requested), r.keys)
    ensures r.SourceUnavailable? <==>
              1 <= groupLimit && Unknown(stored, requested) == {} && BreaksFirst(Chosen(stored, requested), groupLimit)
    ensures r.Grouped? ==> 1 <= groupLimit && exists merged, ranked ::
              Reports(Chosen(stored, requested), groupLimit, offset, maxGroups, merged, ranked, r.analysis)
  {
    if groupLimit < 1 {
      return InvalidGroupLimit;
    }
    var selection := SelectSnapshotFiles(stored, requested);
    match selection {
      case UnknownSourceKeys(keys) =>
        return UnknownKeys(keys);
      case Selected(sources) =>
        r := GroupSelected(sources, maxGroups, offset, groupLimit);
    }
  }

  method GroupSelected(sources: seq<SourceFile>, maxGroups: nat, offset: nat, limit: nat)
    returns (r: GroupingResult)
    ensures r.SourceUnavailable? || r.Grouped?
    ensures r.SourceUnavailable? <==> BreaksFirst(sources, limit)
    ensures r.Grouped? ==> exists merged, ranked ::
              Reports(sources, limit, offset, maxGroups, merged, ranked, r.analysis)
  {
    var groups, matching, searched, end, merged := ScanSources(sources, limit);
    ghost var all := Events(sources[..Examined(sources)]);
    CappedLengthIsLongest(all, limit, |merged|, |all|);
    assert all[..|all|] == all;
    if end.Failed? {
      return SourceUnavailable;
    }
    var ranked := RankGroups(groups, merged);
    SliceIsPublic(merged, ranked, offset, maxGroups);
    var a := GroupedSnapshotAnalysis(
      Slice(ranked, offset, maxGroups), matching, searched, |ranked|, end.Complete?, limit);
    hide InPublicOrder, DescribesGroup, Ranked, Slice, ScanResult;
    assert Reports(sources, limit, offset, maxGroups, merged, ranked, a);
    r := Grouped(a);
  }

  /** One line whose classification raises fails the call, whatever the cap; behind a line that
      exceeds the cap it is never reached. */
  lemma RaisingLineFails(key: string, events: seq<ErrorEvent>, limit: nat)
    ensures var lines := seq(|events|, i requires 0 <= i < |events| => Matches(events[i])) + [Raises];
            BreaksFirst([SelectedSource(key, Some(lines))], limit) <==> |Fingerprints(events)| <= limit
  {
    var matches := seq(|events|, i requires 0 <= i < |events| => Matches(events[i]));
    var lines := matches + [Raises];
    var sources := [SelectedSource(key, Some(lines))];
    assert lines[|events|] == Raises && lines[..|events|] == matches;
    RaisingEndsEvents(lines, |events|);
    AllMatching(events);
    EventsStep(sources, 0);
    assert sources[..0] == [] && Events([]) == [] && [] + events == events;
    assert Whole(sources) == 0 && Examined(sources) == 1;
  }

  lemma {:induction false} AllMatching(events: seq<ErrorEvent>)
    ensures EventsOf(seq(|events|, i requires 0 <= i < |events| => Matches(events[i]))) == events
  {
    if events != [] {
      var init, last := events[..|events| - 1], events[|events| - 1];
      var lines := seq(|events|, i requires 0 <= i < |events| => Matches(events[i]));
      assert lines[..|lines| - 1] == seq(|init|, i requires 0 <= i < |init| => Matches(init[i]));
      AllMatching(init);
      assert init + [last] == events;
    }
  }

  /** The capped analysis against the uncapped one, for every selection and cap. */
  lemma CappedAnalysisIsPrefix(sources: seq<SourceFile>, limit: nat, offset: nat, maxGroups: nat,
                               merged: seq<ErrorEvent>, ranked: seq<GroupPayload>, a: GroupedSnapshotAnalysis)
    requires Whole(sources) == |sources|
    requires Reports(sources, limit, offset, maxGroups, merged, ranked, a)
    ensures var all := Events(sources[..|sources|]);
            && (a.analysisComplete <==> |Fingerprints(all)| <= limit)
            && IsCappedLength(all, limit, |merged|) && merged == all[..|merged|]
            && a.matchingLineCount == SumBy(CountOf, ranked) + (if a.analysisComplete then 0 else 1)
            && a.matchingLineCount <= |all|
            && a.totalGroupCount == |Fingerprints(merged)| <= limit
            && (a.analysisComplete ==> a.totalGroupCount == |Fingerprints(all)|)
  {
    hide DescribesGroup, InPublicOrder, Events, Fingerprints;
    var all := Events(sources[..|sources|]);
    GroupCountsAddUp(merged, ranked);
    RankedSize(merged, ranked);
    CappedLengthIsLongest(all, limit, |merged|, |all|);
    assert all[..|all|] == all;
  }
}
