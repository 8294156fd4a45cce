/** Proxy activity: a bounded first scan picks candidate routes, a second scan makes them exact. */
module RouteAnalysis {
  import opened Options
  import opened Filtering
  import opened RouteSketch
  import opened SnapshotLines

  datatype StatusClass = Status1xx | Status2xx | Status3xx | Status4xx | Status5xx

  const STATUS_CLASSES := [Status1xx, Status2xx, Status3xx, Status4xx, Status5xx]

  /** A parsed proxy line; a line that is no JSON object yields None instead. */
  datatype ProxyEvent = ProxyEvent(
    at: LineReference, status: Option<int>, host: Option<string>, method_: Option<string>,
    path: Option<string>, upstreamAttempted: Option<bool>)

  type Line = Option<ProxyEvent>

  const HEALTH_PATHS := {"/health", "/healthz", "/ping", "/ready", "/readyz", "/live", "/livez"}
  const UPSTREAM_ERROR_CODES := {502, 503, 504}

  function StatusClassOf(status: Option<int>): Option<StatusClass>
  {
    if status.None? || status.value < 100 || 599 < status.value then None
    else if status.value < 200 then Some(Status1xx)
    else if status.value < 300 then Some(Status2xx)
    else if status.value < 400 then Some(Status3xx)
    else if status.value < 500 then Some(Status4xx)
    else Some(Status5xx)
  }

  /** The classes are the centuries 1 to 5 in the order they are reported; other codes have none. */
  lemma StatusClassIsCentury(code: int)
    ensures StatusClassOf(Some(code)).Some? <==> 1 <= code / 100 <= 5
    ensures 1 <= code / 100 <= 5 ==> StatusClassOf(Some(code)) == Some(STATUS_CLASSES[code / 100 - 1])
  {
  }

  predicate IsSuccessfulHealthRequest(path: Option<string>, status: Option<int>)
  {
    path.Some? && path.value in HEALTH_PATHS && status.Some? && 200 <= status.value < 300
  }

  predicate IsParsed(line: Line) { line.Some? }

  predicate IsHealthLine(line: Line)
  {
    line.Some? && IsSuccessfulHealthRequest(line.value.path, line.value.status)
  }

  lemma HealthLineMeans(line: Line)
    ensures IsHealthLine(line)
       <==> line.Some? && line.value.status.Some? && line.value.status.value / 100 == 2 && line.value.path.Some?
            && line.value.path.value in {"/health", "/healthz", "/ping", "/ready", "/readyz", "/live", "/livez"}
  {
  }

  predicate HasRoute(line: Line)
  {
    line.Some? && StatusClassOf(line.value.status).Some?
  }

  /** The lines the first scan records. */
  predicate IsCounted(line: Line)
  {
    HasRoute(line) && !IsHealthLine(line)
  }

  predicate IsCountedUpstreamError(line: Line)
  {
    IsCounted(line) && HitOf(line.value).upstreamError
  }

  function RouteOf(event: ProxyEvent): RouteKey
    requires event.status.Some?
  {
    RouteKey(event.host, event.method_, event.path, event.status.value)
  }

  function HitOf(event: ProxyEvent): Hit
    requires event.status.Some?
  {
    Hit(RouteOf(event),
        event.status.value in UPSTREAM_ERROR_CODES && event.upstreamAttempted == Some(true))
  }

  function Hits(lines: seq<Line>): seq<Hit>
  {
    if lines == [] then []
    else
      var init, last := lines[..|lines| - 1], lines[|lines| - 1];
      if IsCounted(last) then Hits(init) + [HitOf(last.value)] else Hits(init)
  }

  /** The second scan's view of one route: it does not look at health at all. */
  function Matching(lines: seq<Line>, k: RouteKey): seq<ProxyEvent>
  {
    if lines == [] then []
    else
      var init, last := lines[..|lines| - 1], lines[|lines| - 1];
      if HasRoute(last) && RouteOf(last.value) == k then Matching(init, k) + [last.value] else Matching(init, k)
  }

  function InClass(c: StatusClass): Line -> bool
  {
    line => IsCounted(line) && StatusClassOf(line.value.status) == Some(c)
  }

  lemma HitsStep(lines: seq<Line>, n: nat)
    requires n < |lines|
    ensures Hits(lines[..n + 1])
            == if IsCounted(lines[n]) then Hits(lines[..n]) + [HitOf(lines[n].value)] else Hits(lines[..n])
  {
    PrefixSteps(lines, n);
  }

  lemma PrefixSteps(lines: seq<Line>, n: nat)
    requires n < |lines|
    ensures Hits(lines[..n + 1])
            == if IsCounted(lines[n]) then Hits(lines[..n]) + [HitOf(lines[n].value)] else Hits(lines[..n])
    ensures forall k :: Matching(lines[..n + 1], k)
                        == if HasRoute(lines[n]) && RouteOf(lines[n].value) == k
                           then Matching(lines[..n], k) + [lines[n].value] else Matching(lines[..n], k)
  {
    assert lines[..n + 1][..n] == lines[..n];
  }

  // ----- First scan -----

  datatype Tally = Tally(
    totalLines: nat, parsedLines: nat, excludedHealthChecks: nat, statusLines: nat, upstreamErrors: nat)

  function TallyOf(lines: seq<Line>): Tally
  {
    Tally(|lines|, Count(IsParsed, lines), Count(IsHealthLine, lines), |Hits(lines)|,
          Count(IsCountedUpstreamError, lines))
  }

  /** Every line is in exactly one of four parts: not parsed, a successful health check, without a
      status from 100 to 599, or counted. */
  lemma {:induction false} TallyPartition(lines: seq<Line>)
    ensures var t := TallyOf(lines);
            && t.totalLines == |lines|
            && t.parsedLines == t.totalLines - Count((l: Line) => l.None?, lines)
            && t.excludedHealthChecks
               == Count((l: Line) => l.Some? && l.value.path.Some? && l.value.path.value in HEALTH_PATHS
                                     && l.value.status.Some? && 200 <= l.value.status.value <= 299, lines)
            && t.statusLines
               == t.parsedLines - t.excludedHealthChecks
                  - Count((l: Line) => l.Some? && (l.value.status.None? || l.value.status.value < 100
                                                   || 599 < l.value.status.value), lines)
            && t.upstreamErrors
               == Count((l: Line) => l.Some? && l.value.upstreamAttempted == Some(true) && l.value.status.Some?
                                     && l.value.status.value in {502, 503, 504}, lines)
  {
    if lines != [] {
      var init := lines[..|lines| - 1];
      TallyPartition(init);
      TallyStep(lines, |init|);
      assert lines[..|init| + 1] == lines;
      hide TallyOf;
    }
  }

  function NextTally(t: Tally, line: Line): Tally
  {
    Tally(t.totalLines + 1,
          t.parsedLines + (if IsParsed(line) then 1 else 0),
          t.excludedHealthChecks + (if IsHealthLine(line) then 1 else 0),
          t.statusLines + (if IsCounted(line) then 1 else 0),
          t.upstreamErrors + (if IsCountedUpstreamError(line) then 1 else 0))
  }

  lemma TallyStep(lines: seq<Line>, n: nat)
    requires n < |lines|
    ensures TallyOf(lines[..n + 1]) == NextTally(TallyOf(lines[..n]), lines[n])
  {
    HitsStep(lines, n);
    CountStep(IsParsed, lines, n);
    CountStep(IsHealthLine, lines, n);
    CountStep(IsCountedUpstreamError, lines, n);
    hide Hits, Count;
  }

  function CountIn(counts: map<StatusClass, nat>, c: StatusClass): nat
  {
    if c in counts then counts[c] else 0
  }

  /** The counts hold exactly the status classes of the counted lines. */
  ghost predicate CountsClasses(counts: map<StatusClass, nat>, lines: seq<Line>)
  {
    forall c :: CountIn(counts, c) == Count(InClass(c), lines)
  }

  function NextCounts(counts: map<StatusClass, nat>, line: Line): map<StatusClass, nat>
  {
    if IsCounted(line) then
      var c := StatusClassOf(line.value.status).value;
      counts[c := CountIn(counts, c) + 1]
    else counts
  }

  lemma ClassesStep(counts: map<StatusClass, nat>, lines: seq<Line>, n: nat)
    requires n < |lines| && CountsClasses(counts, lines[..n])
    ensures CountsClasses(NextCounts(counts, lines[n]), lines[..n + 1])
  {
    hide StatusClassOf, IsSuccessfulHealthRequest, Count;
    forall c ensures CountIn(NextCounts(counts, lines[n]), c) == Count(InClass(c), lines[..n + 1]) {
      CountStep(InClass(c), lines, n);
    }
  }

  /** Counts one line; the result is its hit, if it is to be recorded. */
  method CountLine(tally: Tally, statusCounts: map<StatusClass, nat>, line: Line)
    returns (tally': Tally, statusCounts': map<StatusClass, nat>, hit: Option<Hit>)
    ensures tally' == NextTally(tally, line) && statusCounts' == NextCounts(statusCounts, line)
    ensures hit == if IsCounted(line) then Some(HitOf(line.value)) else None
  {
    hide IsSuccessfulHealthRequest;
    tally', statusCounts', hit := tally.(totalLines := tally.totalLines + 1), statusCounts, None;
    if line.None? { return; }
    tally' := tally'.(parsedLines := tally'.parsedLines + 1);
    if IsSuccessfulHealthRequest(line.value.path, line.value.status) {
      tally' := tally'.(excludedHealthChecks := tally'.excludedHealthChecks + 1);
      return;
    }
    var statusClass := StatusClassOf(line.value.status);
    if statusClass.None? { return; }
    tally' := tally'.(statusLines := tally'.statusLines + 1);
    statusCounts' := statusCounts'[statusClass.value := CountIn(statusCounts', statusClass.value) + 1];
    hit := Some(HitOf(line.value));
    if hit.value.upstreamError {
      tally' := tally'.(upstreamErrors := tally'.upstreamErrors + 1);
    }
  }

  method FirstScan(lines: seq<Line>, limit: nat)
    returns (tally: Tally, statusCounts: map<StatusClass, nat>, final: Scan)
    requires 0 < limit
    ensures tally == TallyOf(lines)
    ensures CountsClasses(statusCounts, lines)
    ensures Reachable(Hits(lines), limit, final)
  {
    var table := new RouteCandidateTable(limit);
    var overflowed := false;
    tally, statusCounts := Tally(0, 0, 0, 0, 0), map[];
    ReachableStart(limit);
    NothingScanned(lines);
    hide CountsClasses, TallyOf, Hits, Reachable, IsCounted, HitOf, Recorded, Evicts, NextTally, NextCounts;
    for i := 0 to |lines|
      invariant tally == TallyOf(lines[..i])
      invariant CountsClasses(statusCounts, lines[..i])
      invariant table.limit == limit
      invariant Reachable(Hits(lines[..i]), limit, Scan(table.candidates, overflowed))
    {
      HitsStep(lines, i);
      TallyStep(lines, i);
      ClassesStep(statusCounts, lines, i);
      var hit;
      tally, statusCounts, hit := CountLine(tally, statusCounts, lines[i]);
      if hit.None? { continue; }
      ghost var before := Scan(table.candidates, overflowed);
      var evicted := table.Record(hit.value);
      overflowed := evicted || overflowed;
      ReachableStep(Hits(lines[..i]), hit.value, limit, before, Scan(table.candidates, overflowed));
    }
    final := Scan(table.candidates, overflowed);
    assert lines[..|lines|] == lines;
  }

  lemma NothingScanned(lines: seq<Line>)
    ensures CountsClasses(map[], lines[..0]) && TallyOf(lines[..0]) == Tally(0, 0, 0, 0, 0) && Hits(lines[..0]) == []
  {
  }

  // ----- Second scan -----

  predicate Attempted(e: ProxyEvent) { e.upstreamAttempted == Some(true) }
  predicate NotAttempted(e: ProxyEvent) { e.upstreamAttempted == Some(false) }
  predicate UnknownAttempt(e: ProxyEvent) { e.upstreamAttempted == None }

  /** What an accumulator knows about the events it has merged. */
  datatype RouteSummary = RouteSummary(
    count: nat, upstreamAttemptCount: nat, nonUpstreamCount: nat, unknownUpstreamCount: nat,
    sourceKeys: set<string>, firstSeen: Option<LineReference>, lastSeen: Option<LineReference>)

  function Summary(events: seq<ProxyEvent>): RouteSummary
  {
    RouteSummary(
      |events|, Count(Attempted, events), Count(NotAttempted, events), Count(UnknownAttempt, events),
      set e | e in events :: e.at.sourceKey,
      if events == [] then None else Some(events[0].at),
      if events == [] then None else Some(events[|events| - 1].at))
  }

  lemma SummaryStep(events: seq<ProxyEvent>, event: ProxyEvent)
    ensures var s := Summary(events);
            Summary(events + [event]) == RouteSummary(
              s.count + 1,
              s.upstreamAttemptCount + (if Attempted(event) then 1 else 0),
              s.nonUpstreamCount + (if NotAttempted(event) then 1 else 0),
              s.unknownUpstreamCount + (if UnknownAttempt(event) then 1 else 0),
              s.sourceKeys + {event.at.sourceKey},
              if s.firstSeen.None? then Some(event.at) else s.firstSeen,
              Some(event.at))
  {
    FilterStep(Attempted, events, event);
    FilterStep(NotAttempted, events, event);
    FilterStep(UnknownAttempt, events, event);
  }

  /** The public payload of one route group. */
  datatype RouteSignal = RouteSignal(
    key: RouteKey, count: nat, sourceKeys: set<string>,
    upstreamAttemptCount: nat, nonUpstreamCount: nat, unknownUpstreamCount: nat,
    isUpstreamError: bool, firstSeen: LineReference, lastSeen: LineReference)

  function SignalOf(k: RouteKey, events: seq<ProxyEvent>): RouteSignal
    requires events != []
  {
    RouteSignal(
      k, |events|, set e | e in events :: e.at.sourceKey,
      Count(Attempted, events), Count(NotAttempted, events), Count(UnknownAttempt, events),
      k.status in UPSTREAM_ERROR_CODES && exists e :: e in events && Attempted(e),
      events[0].at, events[|events| - 1].at)
  }

  lemma AttemptsAreCounted(events: seq<ProxyEvent>)
    ensures 0 < Count(Attempted, events) <==> exists e :: e in events && Attempted(e)
  {
    FilterKeeps(Attempted, events);
    if 0 < Count(Attempted, events) {
      assert Filter(Attempted, events)[0] in Filter(Attempted, events);
    }
  }

  /** Mutable route/status grouping state. */
  class RouteAccumulator {
    const key: RouteKey
    var count: nat
    var upstreamAttemptCount: nat
    var nonUpstreamCount: nat
    var unknownUpstreamCount: nat
    var sourceKeys: set<string>
    var firstSeen: Option<LineReference>
    var lastSeen: Option<LineReference>

    ghost function View(): RouteSummary
      reads this
    {
      RouteSummary(count, upstreamAttemptCount, nonUpstreamCount, unknownUpstreamCount,
                   sourceKeys, firstSeen, lastSeen)
    }

    constructor (key: RouteKey)
      ensures View() == Summary([]) && this.key == key
    {
      this.key := key;
      count, upstreamAttemptCount, nonUpstreamCount, unknownUpstreamCount := 0, 0, 0, 0;
      sourceKeys, firstSeen, lastSeen := {}, None, None;
    }

    method Add(event: ProxyEvent, ghost events: seq<ProxyEvent>)
      requires View() == Summary(events)
      modifies this
      ensures View() == Summary(events + [event])
    {
      SummaryStep(events, event);
      count := count + 1;
      match event.upstreamAttempted {
        case Some(true) => upstreamAttemptCount := upstreamAttemptCount + 1;
        case Some(false) => nonUpstreamCount := nonUpstreamCount + 1;
        case None => unknownUpstreamCount := unknownUpstreamCount + 1;
      }
      sourceKeys := sourceKeys + {event.at.sourceKey};
      if firstSeen.None? { firstSeen := Some(event.at); }
      lastSeen := Some(event.at);
    }

    method ToPayload(ghost events: seq<ProxyEvent>) returns (signal: RouteSignal)
      requires View() == Summary(events) && events != []
      ensures signal == SignalOf(key, events)
    {
      AttemptsAreCounted(events);
      signal := RouteSignal(
        key, count, sourceKeys, upstreamAttemptCount, nonUpstreamCount, unknownUpstreamCount,
        key.status in UPSTREAM_ERROR_CODES && 0 < upstreamAttemptCount,
        firstSeen.value, lastSeen.value);
    }
  }

  /** The three upstream counters of a route partition its lines. */
  lemma {:induction false} UpstreamCountersPartition(events: seq<ProxyEvent>)
    ensures Count(Attempted, events) + Count(NotAttempted, events) + Count(UnknownAttempt, events) == |events|
  {
    if events != [] {
      var init, last := events[..|events| - 1], events[|events| - 1];
      assert init + [last] == events;
      UpstreamCountersPartition(init);
      FilterStep(Attempted, init, last);
      FilterStep(NotAttempted, init, last);
      FilterStep(UnknownAttempt, init, last);
      match last.upstreamAttempted { case None => case Some(attempted) => }
    }
  }

  type RouteGroups = map<RouteKey, RouteAccumulator>

  /** Every group describes all lines of its route. */
  ghost predicate TracksRoutes(groups: RouteGroups, lines: seq<Line>)
    reads groups.Values
  {
    forall k :: k in groups ==> groups[k].key == k && groups[k].View() == Summary(Matching(lines, k))
  }

  /** The second list of lines is the first with one more event of some route. */
  ghost predicate Extends(lines: seq<Line>, event: ProxyEvent, longer: seq<Line>)
    requires event.status.Some?
  {
    forall k :: Matching(longer, k)
                == if RouteOf(event) == k then Matching(lines, k) + [event] else Matching(lines, k)
  }

  method OpenRoute(groups: RouteGroups, k: RouteKey, ghost lines: seq<Line>) returns (groups': RouteGroups)
    requires TracksRoutes(groups, lines) && k !in groups && Matching(lines, k) == []
    ensures TracksRoutes(groups', lines) && groups'.Keys == groups.Keys + {k}
    ensures fresh(groups'.Values - groups.Values)
  {
    hide Summary, Matching;
    var created := new RouteAccumulator(k);
    groups' := groups[k := created];
  }

  method AddToRoute(groups: RouteGroups, event: ProxyEvent, ghost lines: seq<Line>, ghost longer: seq<Line>)
    requires event.status.Some? && RouteOf(event) in groups
    requires TracksRoutes(groups, lines) && Extends(lines, event, longer)
    modifies groups[RouteOf(event)]
    ensures TracksRoutes(groups, longer)
  {
    hide Summary, Matching;
    var k := RouteOf(event);
    groups[k].Add(event, Matching(lines, k));
    forall other | other in groups && other != k ensures groups[other].View() == Summary(Matching(longer, other)) {
      assert groups[other] != groups[k];
    }
  }

  lemma ExtendsStep(lines: seq<Line>, n: nat)
    requires n < |lines|
    requires HasRoute(lines[n])
    ensures Extends(lines[..n], lines[n].value, lines[..n + 1])
  {
    PrefixSteps(lines, n);
  }

  lemma RoutelessStep(groups: RouteGroups, routeKeys: set<RouteKey>, lines: seq<Line>, n: nat)
    requires n < |lines| && !HasRoute(lines[n])
    requires TracksRoutes(groups, lines[..n]) && AreOccurring(groups.Keys, routeKeys, lines[..n])
    ensures TracksRoutes(groups, lines[..n + 1]) && AreOccurring(groups.Keys, routeKeys, lines[..n + 1])
  {
    PrefixSteps(lines, n);
    hide Matching, Summary;
  }

  /** The routes of the request that occur in the lines. */
  ghost predicate AreOccurring(keys: set<RouteKey>, routeKeys: set<RouteKey>, lines: seq<Line>)
  {
    forall k :: k in keys <==> k in routeKeys && Matching(lines, k) != []
  }

  lemma OccurringStep(keys: set<RouteKey>, routeKeys: set<RouteKey>, lines: seq<Line>, event: ProxyEvent,
                      longer: seq<Line>)
    requires event.status.Some? && AreOccurring(keys, routeKeys, lines) && Extends(lines, event, longer)
    ensures AreOccurring(if RouteOf(event) in routeKeys then keys + {RouteOf(event)} else keys, routeKeys, longer)
    ensures RouteOf(event) in routeKeys && RouteOf(event) !in keys ==> Matching(lines, RouteOf(event)) == []
  {
    hide Matching, RouteOf;
  }

  /** Adds an event to its group, opening the group if need be, unless its route is not requested. */
  method HandleEvent(groups: RouteGroups, routeKeys: set<RouteKey>, event: ProxyEvent,
                     ghost lines: seq<Line>, ghost longer: seq<Line>)
    returns (groups': RouteGroups)
    requires event.status.Some? && Extends(lines, event, longer)
    requires TracksRoutes(groups, lines) && AreOccurring(groups.Keys, routeKeys, lines)
    modifies groups.Values
    ensures TracksRoutes(groups', longer) && AreOccurring(groups'.Keys, routeKeys, longer)
    ensures fresh(groups'.Values - groups.Values)
  {
    OccurringStep(groups.Keys, routeKeys, lines, event, longer);
    var k := RouteOf(event);
    groups' := groups;
    if k !in routeKeys {
      UnrequestedStep(groups, routeKeys, lines, event, longer);
      return;
    }
    hide Matching, Extends, AreOccurring, TracksRoutes, RouteOf;
    if k !in groups {
      groups' := OpenRoute(groups, k, lines);
    }
    assert groups'.Keys == groups.Keys + {k} && groups'[k] in groups'.Values;
    AddToRoute(groups', event, lines, longer);
  }

  method BuildRouteGroups(lines: seq<Line>, routeKeys: set<RouteKey>) returns (groups: RouteGroups)
    ensures AreOccurring(groups.Keys, routeKeys, lines)
    ensures TracksRoutes(groups, lines) && fresh(groups.Values)
  {
    groups := map[];
    assert forall k :: Matching(lines[..0], k) == [];
    assert AreOccurring({}, routeKeys, lines[..0]) && TracksRoutes(groups, lines[..0]);
    hide Matching, HasRoute, Extends, AreOccurring, TracksRoutes;
    for i := 0 to |lines|
      invariant AreOccurring(groups.Keys, routeKeys, lines[..i])
      invariant TracksRoutes(groups, lines[..i]) && fresh(groups.Values)
    {
      if !HasRoute(lines[i]) {
        RoutelessStep(groups, routeKeys, lines, i);
        continue;
      }
      RouteHasStatus(lines[i]);
      ExtendsStep(lines, i);
      groups := HandleEvent(groups, routeKeys, lines[i].value, lines[..i], lines[..i + 1]);
    }
    assert lines[..|lines|] == lines;
  }

  lemma RouteHasStatus(line: Line)
    requires HasRoute(line)
    ensures line.Some? && line.value.status.Some?
  {
  }

  lemma UnrequestedStep(groups: RouteGroups, routeKeys: set<RouteKey>, lines: seq<Line>, event: ProxyEvent,
                        longer: seq<Line>)
    requires event.status.Some? && RouteOf(event) !in routeKeys && AreOccurring(groups.Keys, routeKeys, lines)
    requires TracksRoutes(groups, lines) && Extends(lines, event, longer)
    ensures TracksRoutes(groups, longer)
  {
    hide Matching, Summary;
  }
}
