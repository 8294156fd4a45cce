/** Whether the timestamps that a source summary reports are bounds of its groups. */
module SourceTimes {
  import opened Options
  import opened Sorting
  import opened Filtering
  import opened ErrorGroups
  import opened GroupedAnalysis
  import opened IncidentBundle

  /** A source's timestamps follow the ranking and are no bounds: of a high and a low group it takes
      the first time of the high one and the last time of the low one, whichever times these are. */
  lemma TimestampsFollowRank(high: GroupPayload, low: GroupPayload, key: string)
    requires high.identity.severity.High? && low.identity.severity.Low?
    requires key in high.sourceKeys && key in low.sourceKeys && low.lastTimestamp.Some?
    ensures SortedBy(GroupLeq, [high, low]) && !GroupLeq(low, high)
    ensures var s := SummaryFor([high, low], key);
            s.firstTimestamp == high.firstTimestamp && s.lastTimestamp == low.lastTimestamp
  {
    var groups := [high, low];
    FactsStep(groups, 0, key);
    FactsStep(groups, 1, key);
    assert groups[..0] == [] && groups[..2] == groups;
    assert FactsOf(groups[..0], key) == NO_FACTS;
  }

  /** The same groups with timestamps assigned anew; a group has both timestamps or neither. */
  ghost predicate SameButTimes(groups: seq<GroupPayload>, timed: seq<GroupPayload>)
  {
    && |timed| == |groups|
    && forall i :: 0 <= i < |groups| ==>
         && timed[i] == groups[i].(firstTimestamp := timed[i].firstTimestamp, lastTimestamp := timed[i].lastTimestamp)
         && (timed[i].firstTimestamp.Some? <==> timed[i].lastTimestamp.Some?)
  }

  /** Any way to compare timestamps that tells some two of them apart. */
  ghost predicate ComparesTimes(le: (string, string) -> bool)
  {
    TotalPreorder(le) && exists a, b :: !le(a, b)
  }

  /** No group of the source starts before the reported first time. */
  ghost predicate FirstIsBound(le: (string, string) -> bool, groups: seq<GroupPayload>, key: string)
  {
    var first := SummaryFor(groups, key).firstTimestamp;
    forall i :: 0 <= i < |groups| && key in groups[i].sourceKeys && groups[i].firstTimestamp.Some? ==>
      first.Some? && le(first.value, groups[i].firstTimestamp.value)
  }

  /** No group of the source ends after the reported last time. */
  ghost predicate LastIsBound(le: (string, string) -> bool, groups: seq<GroupPayload>, key: string)
  {
    var last := SummaryFor(groups, key).lastTimestamp;
    forall i :: 0 <= i < |groups| && key in groups[i].sourceKeys && groups[i].lastTimestamp.Some? ==>
      last.Some? && le(groups[i].lastTimestamp.value, last.value)
  }

  lemma OnlyGroupIsBound(le: (string, string) -> bool, groups: seq<GroupPayload>, key: string)
    requires TotalPreorder(le)
    requires forall i, j :: 0 <= i < j < |groups| ==> !(key in groups[i].sourceKeys && key in groups[j].sourceKeys)
    ensures FirstIsBound(le, groups, key) && LastIsBound(le, groups, key)
  {
    NoneKept(Involves(key), groups);
    NoneKept(InvolvesStamped(key), groups);
    if Filter(Involves(key), groups) != [] {
      var i := FirstKept(Involves(key), groups);
    }
    if Filter(InvolvesStamped(key), groups) != [] {
      var i := LastKept(InvolvesStamped(key), groups);
    }
    hide Filter;
  }

  /** One group has one time, all others another. */
  function Restamped(groups: seq<GroupPayload>, i: nat, own: string, others: string): seq<GroupPayload>
  {
    seq(|groups|, k requires 0 <= k < |groups| =>
      var t := if k == i then own else others;
      groups[k].(firstTimestamp := Some(t), lastTimestamp := Some(t)))
  }

  lemma TwoGroupsAreUnbounded(le: (string, string) -> bool, groups: seq<GroupPayload>, key: string,
                              i: nat, j: nat, a: string, b: string)
    requires !le(a, b) && i < j < |groups|
    requires key in groups[i].sourceKeys && key in groups[j].sourceKeys
    requires forall k :: 0 <= k < i ==> key !in groups[k].sourceKeys
    ensures var timed := Restamped(groups, i, a, b);
            SameButTimes(groups, timed) && !FirstIsBound(le, timed, key) && !LastIsBound(le, timed, key)
  {
    var timed := Restamped(groups, i, a, b);
    NoneKept(Involves(key), timed);
    NoneKept(InvolvesStamped(key), timed);
    assert key in timed[i].sourceKeys && key in timed[j].sourceKeys;
    var first := FirstKept(Involves(key), timed);
    assert first == i;
    var last := LastKept(InvolvesStamped(key), timed);
    assert j <= last;
    hide Filter;
    assert timed[j].firstTimestamp == Some(b) && timed[i].lastTimestamp == Some(a);
  }

  /** Timestamps do not rank groups, so every such assignment is a ranked list of its own. */
  lemma TimesDoNotRank(groups: seq<GroupPayload>, timed: seq<GroupPayload>)
    requires SortedBy(GroupLeq, groups) && SameButTimes(groups, timed)
    ensures SortedBy(GroupLeq, timed)
  {
    forall i, j | 0 <= i < j < |timed| ensures GroupLeq(timed[i], timed[j]) {
      assert GroupLeq(groups[i], groups[j]);
    }
  }

  /** The reported times bound the source's groups for every assignment of timestamps exactly when at
      most one group names the source. */
  lemma TimestampsAreBoundsExactly(le: (string, string) -> bool, groups: seq<GroupPayload>, key: string)
    requires ComparesTimes(le)
    ensures (forall timed: seq<GroupPayload> :: SameButTimes(groups, timed) ==> FirstIsBound(le, timed, key))
       <==> SummaryFor(groups, key).groupedErrorCount <= 1
    ensures (forall timed: seq<GroupPayload> :: SameButTimes(groups, timed) ==> LastIsBound(le, timed, key))
       <==> SummaryFor(groups, key).groupedErrorCount <= 1
  {
    OneKept(Involves(key), groups);
    if SummaryFor(groups, key).groupedErrorCount <= 1 {
      forall timed: seq<GroupPayload> | SameButTimes(groups, timed)
        ensures FirstIsBound(le, timed, key) && LastIsBound(le, timed, key)
      {
        assert forall i :: 0 <= i < |groups| ==> timed[i].sourceKeys == groups[i].sourceKeys;
        OnlyGroupIsBound(le, timed, key);
      }
    } else {
      var a, b :| !le(a, b);
      var i, j := TwoNaming(groups, key);
      TwoGroupsAreUnbounded(le, groups, key, i, j, a, b);
    }
  }

  lemma TwoNaming(groups: seq<GroupPayload>, key: string) returns (i: nat, j: nat)
    requires 1 < |Filter(Involves(key), groups)|
    ensures i < j < |groups| && key in groups[i].sourceKeys && key in groups[j].sourceKeys
    ensures forall k :: 0 <= k < i ==> key !in groups[k].sourceKeys
  {
    OneKept(Involves(key), groups);
    i := FirstKept(Involves(key), groups);
    var m: nat, n: nat :| m < n < |groups| && key in groups[m].sourceKeys && key in groups[n].sourceKeys;
    j := n;
  }

  /** A failing input: the high group was seen at "1", the low one at "0". */
  lemma TimestampsCanCross(high: GroupPayload, low: GroupPayload, key: string)
    requires high.identity.severity.High? && low.identity.severity.Low?
    requires key in high.sourceKeys && key in low.sourceKeys
    requires high.firstTimestamp == high.lastTimestamp == Some("1")
    requires low.firstTimestamp == low.lastTimestamp == Some("0")
    ensures SortedBy(GroupLeq, [high, low])
    ensures !FirstIsBound(StringLeq, [high, low], key) && !LastIsBound(StringLeq, [high, low], key)
  {
    var groups := [high, low];
    TimestampsFollowRank(high, low, key);
    assert !StringLeq("1", "0");
    assert groups[0] == high && groups[1] == low;
    hide SummaryFor, GroupLeq;
  }
}
