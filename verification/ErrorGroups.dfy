/** Grouped errors: lines are merged by fingerprint until a cap on distinct groups is reached. */
module ErrorGroups {
  import opened Options
  import opened Filtering
  import opened SnapshotLines
  import opened SourceSelection

  datatype Severity = High | Medium | Low

  /** What a group takes over from its first event. */
  datatype Identity = Identity(
    category: string, severity: Severity, messageSummary: string, identityKind: string,
    semanticSummary: string, semanticIdentityHash: string, upstreamAttempted: Option<bool>)

  /** The optional details of one event that its group collects. */
  datatype Details = Details(
    path: Option<string>, method_: Option<string>, host: Option<string>, statusCode: Option<int>,
    level: Option<string>, hasExplicitMessage: bool)

  /** One classified line. */
  datatype ErrorEvent = ErrorEvent(
    at: LineReference, fingerprint: string, identity: Identity, timestamp: Option<string>, details: Details)

  /** What classifying a line comes to; a structured message that cannot be encoded, for one, raises. */
  datatype Classified = NoMatch | Matches(event: ErrorEvent) | Raises

  /** The lines of one file, or None when it is not on disk. */
  type FileLines = Option<seq<Classified>>

  type SourceFile = SelectedSource<FileLines>

  /** The events of the lines before the first one that raises. */
  function EventsOf(lines: seq<Classified>): seq<ErrorEvent>
  {
    if lines == [] then []
    else
      var init, last := lines[..|lines| - 1], lines[|lines| - 1];
      if last.Matches? && Raises !in init then EventsOf(init) + [last.event] else EventsOf(init)
  }

  /** The file is there and every line of it can be classified. */
  predicate IsWhole(file: FileLines)
  {
    file.Some? && Raises !in file.value
  }

  function Yielded(file: FileLines): seq<ErrorEvent>
  {
    if file.None? then [] else EventsOf(file.value)
  }

  /** The matching events that the selected sources yield, in reading order. */
  function Events(sources: seq<SourceFile>): seq<ErrorEvent>
  {
    if sources == [] then []
    else Events(sources[..|sources| - 1]) + Yielded(sources[|sources| - 1].lines)
  }

  function Fingerprints(events: seq<ErrorEvent>): set<string>
  {
    set e | e in events :: e.fingerprint
  }

  function Same(events: seq<ErrorEvent>, fingerprint: string): seq<ErrorEvent>
  {
    Filter((e: ErrorEvent) => e.fingerprint == fingerprint, events)
  }

  lemma EventStep(events: seq<ErrorEvent>, e: ErrorEvent)
    ensures Fingerprints(events + [e]) == Fingerprints(events) + {e.fingerprint}
    ensures forall fp :: Same(events + [e], fp)
                         == if e.fingerprint == fp then Same(events, fp) + [e] else Same(events, fp)
  {
    forall fp ensures Same(events + [e], fp)
                      == if e.fingerprint == fp then Same(events, fp) + [e] else Same(events, fp)
    {
      FilterStep((e: ErrorEvent) => e.fingerprint == fp, events, e);
    }
  }

  lemma SameMembers(events: seq<ErrorEvent>, fp: string)
    ensures forall e :: e in Same(events, fp) <==> e in events && e.fingerprint == fp
    ensures Same(events, fp) != [] <==> fp in Fingerprints(events)
  {
    FilterKeeps((e: ErrorEvent) => e.fingerprint == fp, events);
    if Same(events, fp) != [] {
      assert Same(events, fp)[0] in Same(events, fp);
    }
    if fp in Fingerprints(events) {
      var e :| e in events && e.fingerprint == fp;
      assert e in Same(events, fp);
    }
  }

  // ----- One group -----

  /** The distinct details of a group's events; absent and empty strings are not collected. */
  datatype Attributes = Attributes(
    paths: set<string>, methods: set<string>, hosts: set<string>, statusCodes: set<int>, levels: set<string>,
    hasExplicitMessage: bool)

  predicate Given(s: Option<string>)
  {
    s.Some? && s.value != ""
  }

  ghost function AttributesOf(events: seq<ErrorEvent>): Attributes
  {
    Attributes(
      set e | e in events && Given(e.details.path) :: e.details.path.value,
      set e | e in events && Given(e.details.method_) :: e.details.method_.value,
      set e | e in events && Given(e.details.host) :: e.details.host.value,
      set e | e in events && e.details.statusCode.Some? :: e.details.statusCode.value,
      set e | e in events && Given(e.details.level) :: e.details.level.value,
      exists e :: e in events && e.details.hasExplicitMessage)
  }

  function WithGiven(names: set<string>, s: Option<string>): set<string>
  {
    if Given(s) then names + {s.value} else names
  }

  lemma AttributesStep(events: seq<ErrorEvent>, e: ErrorEvent)
    ensures var a, d := AttributesOf(events), e.details;
            AttributesOf(events + [e]) == Attributes(
              WithGiven(a.paths, d.path), WithGiven(a.methods, d.method_), WithGiven(a.hosts, d.host),
              if d.statusCode.Some? then a.statusCodes + {d.statusCode.value} else a.statusCodes,
              WithGiven(a.levels, d.level), a.hasExplicitMessage || d.hasExplicitMessage)
  {
    assert forall x :: x in events + [e] <==> x in events || x == e;
  }

  datatype GroupSummary = GroupSummary(
    count: nat, sourceKeys: set<string>, firstTimestamp: Option<string>, lastTimestamp: Option<string>,
    firstSeen: Option<LineReference>, lastSeen: Option<LineReference>)

  function Timestamped(events: seq<ErrorEvent>): seq<ErrorEvent>
  {
    Filter((e: ErrorEvent) => e.timestamp.Some?, events)
  }

  function FirstTimestamp(events: seq<ErrorEvent>): Option<string>
  {
    var stamped := Timestamped(events);
    if stamped == [] then None else stamped[0].timestamp
  }

  function LastTimestamp(events: seq<ErrorEvent>): Option<string>
  {
    var stamped := Timestamped(events);
    if stamped == [] then None else stamped[|stamped| - 1].timestamp
  }

  lemma TimestampStep(events: seq<ErrorEvent>, e: ErrorEvent)
    ensures FirstTimestamp(events + [e])
            == if FirstTimestamp(events).Some? then FirstTimestamp(events) else e.timestamp
    ensures LastTimestamp(events + [e])
            == if e.timestamp.Some? then e.timestamp else LastTimestamp(events)
  {
    FilterStep((e: ErrorEvent) => e.timestamp.Some?, events, e);
    FilterKeeps((e: ErrorEvent) => e.timestamp.Some?, events);
    if Timestamped(events) != [] {
      assert Timestamped(events)[0] in Timestamped(events);
    }
  }

  function Summary(events: seq<ErrorEvent>): GroupSummary
  {
    GroupSummary(
      |events|, set e | e in events :: e.at.sourceKey,
      FirstTimestamp(events), LastTimestamp(events),
      if events == [] then None else Some(events[0].at),
      if events == [] then None else Some(events[|events| - 1].at))
  }

  lemma SummaryStep(events: seq<ErrorEvent>, e: ErrorEvent)
    ensures var s := Summary(events);
            Summary(events + [e]) == GroupSummary(
              s.count + 1, s.sourceKeys + {e.at.sourceKey},
              if s.firstTimestamp.Some? then s.firstTimestamp else e.timestamp,
              if e.timestamp.Some? then e.timestamp else s.lastTimestamp,
              if s.firstSeen.None? then Some(e.at) else s.firstSeen,
              Some(e.at))
  {
    hide Timestamped;
    TimestampStep(events, e);
  }

  /** The public payload of one group. */
  datatype GroupPayload = GroupPayload(
    fingerprint: string, identity: Identity, count: nat, sourceKeys: set<string>, attributes: Attributes,
    firstTimestamp: Option<string>, lastTimestamp: Option<string>,
    firstSeen: LineReference, lastSeen: LineReference)

  ghost function PayloadOf(fingerprint: string, events: seq<ErrorEvent>): GroupPayload
    requires events != []
  {
    var s := Summary(events);
    GroupPayload(fingerprint, events[0].identity, s.count, s.sourceKeys, AttributesOf(events),
                 s.firstTimestamp, s.lastTimestamp, events[0].at, events[|events| - 1].at)
  }

  /** Mutable grouping state of one fingerprint. */
  class ErrorGroupAccumulator {
    const fingerprint: string
    const identity: Identity
    var count: nat
    var sourceKeys: set<string>
    var requestPaths: set<string>
    var requestMethods: set<string>
    var requestHosts: set<string>
    var statusCodes: set<int>
    var levels: set<string>
    var hasExplicitMessage: bool
    var firstTimestamp: Option<string>
    var lastTimestamp: Option<string>
    var firstSeen: Option<LineReference>
    var lastSeen: Option<LineReference>

    ghost function View(): GroupSummary
      reads this
    {
      GroupSummary(count, sourceKeys, firstTimestamp, lastTimestamp, firstSeen, lastSeen)
    }

    function Collected(): Attributes
      reads this
    {
      Attributes(requestPaths, requestMethods, requestHosts, statusCodes, levels, hasExplicitMessage)
    }

    /** The group has merged exactly these events. */
    ghost predicate Tracks(events: seq<ErrorEvent>)
      reads this
    {
      && View() == Summary(events) && Collected() == AttributesOf(events)
      && (events != [] ==> identity == events[0].identity)
    }

    constructor (fingerprint: string, identity: Identity)
      ensures Tracks([])
      ensures this.fingerprint == fingerprint && this.identity == identity
    {
      this.fingerprint, this.identity := fingerprint, identity;
      count, sourceKeys, firstTimestamp, lastTimestamp := 0, {}, None, None;
      requestPaths, requestMethods, requestHosts := {}, {}, {};
      statusCodes, levels, hasExplicitMessage := {}, {}, false;
      firstSeen, lastSeen := None, None;
    }

    /** Collects the details of one event. */
    method AddDetails(d: Details, ghost events: seq<ErrorEvent>, ghost event: ErrorEvent)
      requires Collected() == AttributesOf(events) && d == event.details
      modifies this`requestPaths, this`requestMethods, this`requestHosts, this`statusCodes, this`levels,
               this`hasExplicitMessage
      ensures Collected() == AttributesOf(events + [event])
    {
      AttributesStep(events, event);
      hide AttributesOf;
      if Given(d.path) { requestPaths := requestPaths + {d.path.value}; }
      if Given(d.method_) { requestMethods := requestMethods + {d.method_.value}; }
      if Given(d.host) { requestHosts := requestHosts + {d.host.value}; }
      if d.statusCode.Some? { statusCodes := statusCodes + {d.statusCode.value}; }
      if Given(d.level) { levels := levels + {d.level.value}; }
      hasExplicitMessage := hasExplicitMessage || d.hasExplicitMessage;
    }

    method Add(event: ErrorEvent, ghost events: seq<ErrorEvent>)
      requires Tracks(events) && (events == [] ==> identity == event.identity)
      modifies this
      ensures Tracks(events + [event])
    {
      hide AttributesOf, Summary;
      SummaryStep(events, event);
      count := count + 1;
      sourceKeys := sourceKeys + {event.at.sourceKey};
      AddDetails(event.details, events, event);
      if event.timestamp.Some? && firstTimestamp.None? { firstTimestamp := event.timestamp; }
      if event.timestamp.Some? { lastTimestamp := event.timestamp; }
      if firstSeen.None? { firstSeen := Some(event.at); }
      lastSeen := Some(event.at);
    }

    method ToPayload(ghost events: seq<ErrorEvent>) returns (p: GroupPayload)
      requires Tracks(events) && events != []
      ensures p == PayloadOf(fingerprint, events)
    {
      p := GroupPayload(fingerprint, identity, count, sourceKeys, Collected(), firstTimestamp, lastTimestamp,
                        firstSeen.value, lastSeen.value);
    }
  }

  // ----- The capped scan -----

  type Groups = map<string, ErrorGroupAccumulator>

  /** Every group of the table tracks its share of these events. */
  ghost predicate TracksAll(groups: Groups, events: seq<ErrorEvent>)
    reads groups.Values
  {
    forall fp :: fp in groups ==> groups[fp].fingerprint == fp && groups[fp].Tracks(Same(events, fp))
  }

  /** The table holds exactly the groups of the events merged so far. */
  ghost predicate Holds(groups: Groups, events: seq<ErrorEvent>)
    reads groups.Values
  {
    groups.Keys == Fingerprints(events) && TracksAll(groups, events)
  }

  /** Opens the group of an event that has none yet. */
  method OpenGroup(groups: Groups, event: ErrorEvent, ghost events: seq<ErrorEvent>) returns (groups': Groups)
    requires Holds(groups, events) && event.fingerprint !in groups
    ensures TracksAll(groups', events) && groups'.Keys == groups.Keys + {event.fingerprint}
    ensures fresh(groups'.Values - groups.Values)
    ensures groups'[event.fingerprint].identity == event.identity
    ensures |groups'| == |groups| + 1
  {
    var created := new ErrorGroupAccumulator(event.fingerprint, event.identity);
    SameMembers(events, event.fingerprint);
    hide ErrorGroupAccumulator.Tracks, Same, Fingerprints;
    groups' := groups[event.fingerprint := created];
    KeyAdded(groups, event.fingerprint, created);
  }

  /** Adds an event to the group it belongs to. */
  method AddToGroup(groups: Groups, event: ErrorEvent, ghost events: seq<ErrorEvent>)
    requires event.fingerprint in groups && TracksAll(groups, events)
    requires groups.Keys == Fingerprints(events) + {event.fingerprint}
    requires Same(events, event.fingerprint) == [] ==> groups[event.fingerprint].identity == event.identity
    modifies groups[event.fingerprint]
    ensures Holds(groups, events + [event])
  {
    hide ErrorGroupAccumulator.Tracks, Same, Fingerprints;
    EventStep(events, event);
    groups[event.fingerprint].Add(event, Same(events, event.fingerprint));
    forall fp | fp in groups && fp != event.fingerprint
      ensures groups[fp].Tracks(Same(events + [event], fp))
    {
      assert groups[fp] != groups[event.fingerprint];
    }
  }

  /** Merges one event, unless it would open a group beyond the cap. */
  method Merge(groups: Groups, event: ErrorEvent, limit: nat, ghost events: seq<ErrorEvent>)
    returns (groups': Groups, admitted: bool)
    requires Holds(groups, events) && |groups| <= limit
    modifies groups.Values
    ensures admitted <==> event.fingerprint in groups || |groups| < limit
    ensures !admitted ==> groups' == groups && Holds(groups', events)
    ensures !admitted ==> limit < |Fingerprints(events + [event])|
    ensures admitted ==> Holds(groups', events + [event]) && |groups'| <= limit
    ensures groups.Keys <= groups'.Keys && fresh(groups'.Values - groups.Values)
  {
    hide TracksAll, Same, Fingerprints;
    groups' := groups;
    SameMembers(events, event.fingerprint);
    if event.fingerprint !in groups {
      if limit <= |groups| {
        EventStep(events, event);
        assert |groups| == |groups.Keys|;
        return groups, false;
      }
      groups' := OpenGroup(groups, event, events);
    }
    AddToGroup(groups', event, events);
    admitted := true;
  }

  lemma KeyAdded<K, V>(m: map<K, V>, k: K, v: V)
    requires k !in m
    ensures |m[k := v]| == |m| + 1
  {
    assert m[k := v].Keys == m.Keys + {k};
    assert |m[k := v]| == |m[k := v].Keys|;
  }

  /** `n` is the longest prefix of the events with at most `limit` distinct fingerprints. */
  ghost predicate IsCappedLength(events: seq<ErrorEvent>, limit: nat, n: nat)
  {
    && n <= |events|
    && |Fingerprints(events[..n])| <= limit
    && (n < |events| ==> limit < |Fingerprints(events[..n + 1])|)
  }

  lemma FingerprintsGrow(events: seq<ErrorEvent>, m: nat, n: nat)
    requires m <= n <= |events|
    ensures |Fingerprints(events[..m])| <= |Fingerprints(events[..n])|
  {
    var a, b := Fingerprints(events[..m]), Fingerprints(events[..n]);
    assert b == a + (b - a);
  }

  /** The capped length really is the longest: exactly the prefixes up to it fit the cap. */
  lemma CappedLengthIsLongest(events: seq<ErrorEvent>, limit: nat, n: nat, m: nat)
    requires IsCappedLength(events, limit, n) && m <= |events|
    ensures |Fingerprints(events[..m])| <= limit <==> m <= n
  {
    if m <= n {
      FingerprintsGrow(events, m, n);
    } else {
      FingerprintsGrow(events, n + 1, m);
    }
  }

  lemma MergedFits(all: seq<ErrorEvent>, limit: nat, merged: seq<ErrorEvent>)
    requires merged <= all && IsCappedLength(all, limit, |merged|)
    ensures |Fingerprints(merged)| <= limit
  {
    assert all[..|merged|] == merged;
  }

  lemma EventsStep(sources: seq<SourceFile>, i: nat)
    requires i < |sources|
    ensures Events(sources[..i + 1]) == Events(sources[..i]) + Yielded(sources[i].lines)
  {
    var longer := sources[..i + 1];
    assert longer[..|longer| - 1] == sources[..i] && longer[|longer| - 1] == sources[i];
  }

  /** How many leading sources are whole. */
  function Whole(sources: seq<SourceFile>): (n: nat)
    ensures n <= |sources|
    ensures forall i :: 0 <= i < n ==> IsWhole(sources[i].lines)
    ensures n < |sources| ==> !IsWhole(sources[n].lines)
  {
    if sources == [] || !IsWhole(sources[0].lines) then 0 else 1 + Whole(sources[1..])
  }

  /** How many leading sources a scan without a cap examines: up to the first that is not whole. */
  function Examined(sources: seq<SourceFile>): (n: nat)
    ensures n <= |sources|
  {
    if Whole(sources) < |sources| then Whole(sources) + 1 else |sources|
  }

  datatype ScanEnd = Complete | CapReached | Failed

  /** One source's loop: stops at the first event that would open a group beyond the cap, and at the
      first line that raises. */
  method ScanSource(lines: seq<Classified>, limit: nat, groups: Groups, ghost before: seq<ErrorEvent>)
    returns (groups': Groups, matching: nat, end: ScanEnd, ghost merged: seq<ErrorEvent>)
    requires Holds(groups, before) && |groups| <= limit
    modifies groups.Values
    ensures Holds(groups', merged) && |groups'| <= limit
    ensures fresh(groups'.Values - groups.Values)
    ensures end.Complete? ==> Raises !in lines && merged == before + EventsOf(lines) && matching == |EventsOf(lines)|
    ensures end.Failed? ==> Raises in lines && merged == before + EventsOf(lines)
    ensures end.CapReached? ==> CutWithin(before, before + EventsOf(lines), limit, merged)
                                && matching == |merged| - |before| + 1
  {
    hide Holds, Fingerprints, CutWithin;
    groups', matching, end, merged := groups, 0, Complete, before;
    assert before + [] == before;
    for i := 0 to |lines|
      invariant end.Complete? && Raises !in lines[..i]
      invariant merged == before + EventsOf(lines[..i]) && matching == |EventsOf(lines[..i])|
      invariant Holds(groups', merged) && |groups'| <= limit
      invariant fresh(groups'.Values - groups.Values)
    {
      EventsAt(before, lines, i);
      match lines[i] {
        case Raises =>
          end := Failed;
          RaisingEndsEvents(lines, i);
          return;
        case NoMatch =>
        case Matches(event) =>
          matching := matching + 1;
          var admitted;
          groups', admitted := Merge(groups', event, limit, merged);
          if !admitted {
            end := CapReached;
            CutsHere(before, before + EventsOf(lines), limit, merged, event);
            return;
          }
          merged := merged + [event];
      }
    }
    assert lines[..|lines|] == lines;
  }

  /** `merged` ends strictly inside `all`, right before the event that exceeds the cap. */
  ghost predicate CutWithin(before: seq<ErrorEvent>, all: seq<ErrorEvent>, limit: nat, merged: seq<ErrorEvent>)
  {
    before <= merged < all && limit < |Fingerprints(all[..|merged| + 1])|
  }

  lemma CutsHere(before: seq<ErrorEvent>, all: seq<ErrorEvent>, limit: nat, merged: seq<ErrorEvent>, event: ErrorEvent)
    requires before <= merged && merged + [event] <= all
    requires limit < |Fingerprints(merged + [event])|
    ensures CutWithin(before, all, limit, merged)
  {
    hide Fingerprints;
    assert merged == (merged + [event])[..|merged|];
    assert all[..|merged| + 1] == merged + [event];
  }

  lemma EventsAt(before: seq<ErrorEvent>, lines: seq<Classified>, i: nat)
    requires i < |lines| && Raises !in lines[..i]
    ensures EventsOf(lines[..i + 1])
            == if lines[i].Matches? then EventsOf(lines[..i]) + [lines[i].event] else EventsOf(lines[..i])
    ensures before + EventsOf(lines[..i + 1])
            == if lines[i].Matches? then (before + EventsOf(lines[..i])) + [lines[i].event]
               else before + EventsOf(lines[..i])
    ensures before + EventsOf(lines[..i + 1]) <= before + EventsOf(lines)
  {
    hide EventsOf;
    NextEvent(lines, i);
    EventsPrefix(lines, i + 1);
    PrefixAfter(before, EventsOf(lines[..i + 1]), EventsOf(lines));
    if lines[i].Matches? {
      AppendLast(before, EventsOf(lines[..i]), lines[i].event);
    }
  }

  lemma AppendLast<T>(s: seq<T>, t: seq<T>, x: T)
    ensures s + (t + [x]) == (s + t) + [x]
  {
  }

  lemma NextEvent(lines: seq<Classified>, i: nat)
    requires i < |lines|
    ensures EventsOf(lines[..i + 1])
            == if lines[i].Matches? && Raises !in lines[..i] then EventsOf(lines[..i]) + [lines[i].event]
               else EventsOf(lines[..i])
  {
    assert lines[..i + 1][..i] == lines[..i];
  }

  lemma {:induction false} EventsPrefix(lines: seq<Classified>, n: nat)
    requires n <= |lines|
    ensures EventsOf(lines[..n]) <= EventsOf(lines)
    ensures Raises in lines[..n] ==> EventsOf(lines[..n]) == EventsOf(lines)
    decreases |lines| - n
  {
    hide EventsOf;
    if n == |lines| {
      assert lines[..n] == lines;
    } else {
      NextEvent(lines, n);
      assert Raises in lines[..n] ==> Raises in lines[..n + 1];
      EventsPrefix(lines, n + 1);
    }
  }

  lemma RaisingEndsEvents(lines: seq<Classified>, i: nat)
    requires i < |lines| && lines[i].Raises?
    ensures Raises in lines && EventsOf(lines) == EventsOf(lines[..i])
  {
    assert lines[..i + 1][i] == Raises;
    NextEvent(lines, i);
    EventsPrefix(lines, i + 1);
  }

  lemma {:induction false} SourcesPrefix(sources: seq<SourceFile>, m: nat, n: nat)
    requires m <= n <= |sources|
    ensures Events(sources[..m]) <= Events(sources[..n])
    decreases n - m
  {
    hide Events;
    if m < n {
      EventsStep(sources, n - 1);
      SourcesPrefix(sources, m, n - 1);
    }
  }

  /** Where a scan stopped, and what it had merged and counted by then. */
  ghost predicate ScanResult(sources: seq<SourceFile>, limit: nat, end: ScanEnd, merged: seq<ErrorEvent>,
                             matching: nat, searched: seq<string>)
  {
    var all := Events(sources[..Examined(sources)]);
    && merged <= all && IsCappedLength(all, limit, |merged|)
    && (end.CapReached? <==> |merged| < |all|)
    && (end.Failed? <==> merged == all && Whole(sources) < |sources|)
    && (end.Complete? ==> matching == |all| && searched == KeysOf(sources))
    && (end.CapReached? ==> matching == |merged| + 1 && StopsInside(sources, |merged|, searched))
  }

  /** The searched sources end with the one holding the event that did not fit. */
  ghost predicate StopsInside(sources: seq<SourceFile>, n: nat, searched: seq<string>)
  {
    && 0 < |searched| <= Examined(sources)
    && searched == KeysOf(sources[..|searched|])
    && |Events(sources[..|searched| - 1])| <= n < |Events(sources[..|searched|])|
  }

  lemma HoldsCount(groups: Groups, events: seq<ErrorEvent>)
    requires Holds(groups, events)
    ensures |groups| == |Fingerprints(events)|
  {
    assert |groups| == |groups.Keys|;
  }

  lemma AllReadIsResult(sources: seq<SourceFile>, limit: nat)
    requires Whole(sources) == |sources|
    requires |Fingerprints(Events(sources[..|sources|]))| <= limit
    ensures ScanResult(sources, limit, Complete, Events(sources[..|sources|]),
                       |Events(sources[..|sources|])|, KeysOf(sources[..|sources|]))
  {
    var all := Events(sources[..|sources|]);
    assert all[..|all|] == all && sources[..|sources|] == sources;
  }

  lemma FailureIsResult(sources: seq<SourceFile>, limit: nat, matching: nat, searched: seq<string>)
    requires Whole(sources) < |sources|
    requires |Fingerprints(Events(sources[..Examined(sources)]))| <= limit
    ensures ScanResult(sources, limit, Failed, Events(sources[..Examined(sources)]), matching, searched)
  {
    var all := Events(sources[..Examined(sources)]);
    assert all[..|all|] == all;
  }

  lemma CapIsResult(sources: seq<SourceFile>, limit: nat, i: nat, merged: seq<ErrorEvent>)
    requires i < Examined(sources)
    requires CutWithin(Events(sources[..i]), Events(sources[..i]) + Yielded(sources[i].lines), limit, merged)
    requires |Fingerprints(merged)| <= limit
    ensures ScanResult(sources, limit, CapReached, merged, |merged| + 1,
                       KeysOf(sources[..i]) + [sources[i].sourceKey])
  {
    hide Fingerprints, Events, Yielded, Whole, Examined;
    var here := Events(sources[..i]) + Yielded(sources[i].lines);
    var all := Events(sources[..Examined(sources)]);
    var searched := KeysOf(sources[..i]) + [sources[i].sourceKey];
    SourcesPrefix(sources, i + 1, Examined(sources));
    EventsStep(sources, i);
    assert merged < here <= all;
    assert all[..|merged|] == merged;
    assert all[..|merged| + 1] == here[..|merged| + 1];
    assert searched == KeysOf(sources[..i + 1]);
    assert StopsInside(sources, |merged|, searched);
  }

  method ScanSources(sources: seq<SourceFile>, limit: nat)
    returns (groups: Groups, matching: nat, searched: seq<string>, end: ScanEnd, ghost merged: seq<ErrorEvent>)
    ensures Holds(groups, merged)
    ensures ScanResult(sources, limit, end, merged, matching, searched)
    ensures fresh(groups.Values)
  {
    hide Holds, ScanResult, Fingerprints, Events, EventsOf, Whole, Examined, CutWithin, KeysOf, IsWhole, Yielded;
    groups, matching, searched, end, merged := map[], 0, [], Complete, [];
    NothingScanned(sources);
    for i := 0 to |sources|
      invariant i <= Whole(sources) && end == Complete
      invariant merged == Events(sources[..i]) && matching == |merged|
      invariant searched == KeysOf(sources[..i])
      invariant Holds(groups, merged) && |groups| <= limit
      invariant fresh(groups.Values)
    {
      HoldsCount(groups, merged);
      EventsStep(sources, i);
      KeysStep(sources, i);
      ExaminedAt(sources, i);
      if sources[i].lines.None? {
        end := Failed;
        assert merged + [] == merged;
        FailureIsResult(sources, limit, matching, searched);
        return;
      }
      searched := searched + [sources[i].sourceKey];
      var found;
      groups, found, end, merged := ScanSource(sources[i].lines.value, limit, groups, merged);
      matching := matching + found;
      HoldsCount(groups, merged);
      if end.Failed? {
        FailureIsResult(sources, limit, matching, searched);
        return;
      }
      if end.CapReached? {
        CapIsResult(sources, limit, i, merged);
        return;
      }
    }
    HoldsCount(groups, merged);
    AllReadIsResult(sources, limit);
  }

  /** A scan that has reached source i examines it, and stops there if it is not whole. */
  lemma ExaminedAt(sources: seq<SourceFile>, i: nat)
    requires i < |sources| && i <= Whole(sources)
    ensures i < Examined(sources)
    ensures sources[i].lines.None? || Raises in sources[i].lines.value ==>
              Whole(sources) == i < |sources| && Examined(sources) == i + 1
    ensures sources[i].lines.Some? && Raises !in sources[i].lines.value ==> i < Whole(sources)
    ensures Yielded(sources[i].lines) == if sources[i].lines.None? then [] else EventsOf(sources[i].lines.value)
  {
  }

  lemma KeysStep(sources: seq<SourceFile>, i: nat)
    requires i < |sources|
    ensures KeysOf(sources[..i + 1]) == KeysOf(sources[..i]) + [sources[i].sourceKey]
  {
  }

  lemma NothingScanned(sources: seq<SourceFile>)
    ensures Holds(map[], []) && Events(sources[..0]) == [] && KeysOf(sources[..0]) == []
  {
  }
}
