/** The public parts of a proxy answer, and what they say of the lines: route payloads, their order, classes. */
module RoutePayloads {
  import opened Options
  import opened Sorting
  import opened Filtering
  import opened RouteSketch
  import opened RouteAnalysis

  // ----- The order of routes -----

  /** The order of the public list; it does not look at host or method. */
  predicate SignalLeq(a: RouteSignal, b: RouteSignal)
  {
    if a.count != b.count then a.count > b.count
    else if a.isUpstreamError != b.isUpstreamError then a.isUpstreamError
    else if a.key.status != b.key.status then a.key.status > b.key.status
    else StringLeq(PathOrEmpty(a.key), PathOrEmpty(b.key))
  }

  function PathOrEmpty(k: RouteKey): string
  {
    match k.path case None => "" case Some(p) => p
  }

  lemma SignalLeqIsPreorder()
    ensures TotalPreorder(SignalLeq)
  {
    StringLeqIsPreorder();
  }

  lemma PublicOrderIsLeq(routes: seq<RouteSignal>)
    requires forall i, j :: 0 <= i < j < |routes| ==> SignalLeq(routes[i], routes[j])
    ensures InPublicOrder(routes)
  {
    forall i, j | 0 <= i < j < |routes| ensures SignalLeq(routes[i], routes[j]) {
    }
    hide StringLeq;
    assert forall b: string :: StringLeq(b, "") ==> b == "" by {
      forall b: string | StringLeq(b, "") ensures b == "" {
        StringLeqMeans(b, "");
      }
    }
  }

  // ----- What a payload says -----

  /** The public order, read off two routes of the list. */
  ghost predicate InPublicOrder(routes: seq<RouteSignal>)
  {
    forall i, j :: 0 <= i < j < |routes| ==>
      var a, b := routes[i], routes[j];
      && b.count <= a.count
      && (a.count == b.count && b.isUpstreamError ==> a.isUpstreamError)
      && (a.count == b.count && a.isUpstreamError == b.isUpstreamError ==> b.key.status <= a.key.status)
      && (a.count == b.count && a.isUpstreamError == b.isUpstreamError && a.key.status == b.key.status ==>
            a.key.path.None? || a.key.path.value == ""
            || (b.key.path.Some? && StringLeq(a.key.path.value, b.key.path.value)))
  }

  /** A line of this route, whether the first scan counted it or not. */
  predicate OnRoute(line: Line, k: RouteKey)
  {
    && line.Some? && line.value.host == k.host && line.value.method_ == k.method_ && line.value.path == k.path
    && line.value.status == Some(k.status) && 100 <= k.status <= 599
  }

  /** The payload, read off the lines of its route. */
  ghost predicate DescribesRoute(lines: seq<Line>, s: RouteSignal)
  {
    && s.count == Count((l: Line) => OnRoute(l, s.key), lines)
    && s.upstreamAttemptCount == Count((l: Line) => OnRoute(l, s.key) && l.value.upstreamAttempted == Some(true), lines)
    && s.nonUpstreamCount == Count((l: Line) => OnRoute(l, s.key) && l.value.upstreamAttempted == Some(false), lines)
    && s.unknownUpstreamCount == Count((l: Line) => OnRoute(l, s.key) && l.value.upstreamAttempted == None, lines)
    && (s.isUpstreamError <==> s.key.status in {502, 503, 504} && 0 < s.upstreamAttemptCount)
    && (forall x :: x in s.sourceKeys <==> exists l :: l in lines && OnRoute(l, s.key) && l.value.at.sourceKey == x)
    && (exists i :: 0 <= i < |lines| && OnRoute(lines[i], s.key) && s.firstSeen == lines[i].value.at
          && forall j :: 0 <= j < i ==> !OnRoute(lines[j], s.key))
    && (exists i :: 0 <= i < |lines| && OnRoute(lines[i], s.key) && s.lastSeen == lines[i].value.at
          && forall j :: i < j < |lines| ==> !OnRoute(lines[j], s.key))
  }

  lemma RouteIsOnRoute(line: Line, k: RouteKey)
    ensures HasRoute(line) && RouteOf(line.value) == k <==> OnRoute(line, k)
  {
    if line.Some? && line.value.status.Some? {
      StatusClassIsCentury(line.value.status.value);
    }
  }

  lemma {:induction false} MatchingCounts(lines: seq<Line>, k: RouteKey)
    ensures |Matching(lines, k)| == Count((l: Line) => OnRoute(l, k), lines)
    ensures Count(Attempted, Matching(lines, k))
            == Count((l: Line) => OnRoute(l, k) && l.value.upstreamAttempted == Some(true), lines)
    ensures Count(NotAttempted, Matching(lines, k))
            == Count((l: Line) => OnRoute(l, k) && l.value.upstreamAttempted == Some(false), lines)
    ensures Count(UnknownAttempt, Matching(lines, k))
            == Count((l: Line) => OnRoute(l, k) && l.value.upstreamAttempted == None, lines)
  {
    if lines != [] {
      var init, last := lines[..|lines| - 1], lines[|lines| - 1];
      MatchingCounts(init, k);
      RouteIsOnRoute(last, k);
      if OnRoute(last, k) {
        FilterStep(Attempted, Matching(init, k), last.value);
        FilterStep(NotAttempted, Matching(init, k), last.value);
        FilterStep(UnknownAttempt, Matching(init, k), last.value);
      }
      hide OnRoute, HasRoute;
    }
  }

  lemma {:induction false} MatchingMembers(lines: seq<Line>, k: RouteKey)
    ensures forall e :: e in Matching(lines, k) <==> exists l :: l in lines && OnRoute(l, k) && l.value == e
    ensures Matching(lines, k) == [] <==> forall j :: 0 <= j < |lines| ==> !OnRoute(lines[j], k)
  {
    if lines != [] {
      var n := |lines| - 1;
      var init, last := lines[..n], lines[n];
      MatchingMembers(init, k);
      RouteIsOnRoute(last, k);
      assert forall l :: l in lines <==> l in init || l == last;
      assert forall j :: 0 <= j < n ==> init[j] == lines[j];
      hide OnRoute, HasRoute, RouteOf;
    }
  }

  lemma {:induction false} FirstMatching(lines: seq<Line>, k: RouteKey) returns (i: nat)
    requires Matching(lines, k) != []
    ensures i < |lines| && OnRoute(lines[i], k) && Matching(lines, k)[0] == lines[i].value
    ensures forall j :: 0 <= j < i ==> !OnRoute(lines[j], k)
  {
    var n := |lines| - 1;
    MatchingMembers(lines[..n], k);
    RouteIsOnRoute(lines[n], k);
    if Matching(lines[..n], k) == [] {
      i := n;
    } else {
      i := FirstMatching(lines[..n], k);
    }
  }

  lemma {:induction false} LastMatching(lines: seq<Line>, k: RouteKey) returns (i: nat)
    requires Matching(lines, k) != []
    ensures i < |lines| && OnRoute(lines[i], k) && Matching(lines, k)[|Matching(lines, k)| - 1] == lines[i].value
    ensures forall j :: i < j < |lines| ==> !OnRoute(lines[j], k)
  {
    var n := |lines| - 1;
    RouteIsOnRoute(lines[n], k);
    if OnRoute(lines[n], k) {
      i := n;
    } else {
      i := LastMatching(lines[..n], k);
    }
  }

  lemma SignalNamesSources(lines: seq<Line>, k: RouteKey, x: string)
    requires Matching(lines, k) != []
    ensures x in SignalOf(k, Matching(lines, k)).sourceKeys
       <==> exists l :: l in lines && OnRoute(l, k) && l.value.at.sourceKey == x
  {
    var events := Matching(lines, k);
    MatchingMembers(lines, k);
    hide Matching;
    if l :| l in lines && OnRoute(l, k) && l.value.at.sourceKey == x {
      assert l.value in events;
    }
    if x in SignalOf(k, events).sourceKeys {
      var e :| e in events && e.at.sourceKey == x;
      var l :| l in lines && OnRoute(l, k) && l.value == e;
    }
  }

  lemma SignalDescribesRoute(lines: seq<Line>, k: RouteKey)
    requires Matching(lines, k) != []
    ensures DescribesRoute(lines, SignalOf(k, Matching(lines, k)))
  {
    MatchingCounts(lines, k);
    AttemptsAreCounted(Matching(lines, k));
    var i := FirstMatching(lines, k);
    var m := LastMatching(lines, k);
    forall x ensures x in SignalOf(k, Matching(lines, k)).sourceKeys
      <==> exists l :: l in lines && OnRoute(l, k) && l.value.at.sourceKey == x
    {
      SignalNamesSources(lines, k, x);
    }
    hide OnRoute, Matching, Count;
  }

  // ----- Status classes -----

  function ClassCounts(lines: seq<Line>, n: nat): seq<(StatusClass, nat)>
    requires n <= |STATUS_CLASSES|
  {
    if n == 0 then []
    else
      var count := Count(InClass(STATUS_CLASSES[n - 1]), lines);
      if 0 < count then ClassCounts(lines, n - 1) + [(STATUS_CLASSES[n - 1], count)]
      else ClassCounts(lines, n - 1)
  }

  function SumSeconds(s: seq<(StatusClass, nat)>): nat
  {
    if s == [] then 0 else SumSeconds(s[..|s| - 1]) + s[|s| - 1].1
  }

  /** The century of a class, which orders the public list. */
  function Century(c: StatusClass): nat
  {
    match c case Status1xx => 1 case Status2xx => 2 case Status3xx => 3 case Status4xx => 4 case Status5xx => 5
  }

  /** A counted line with a status of this century. */
  predicate IsOfCentury(line: Line, century: nat)
  {
    IsCounted(line) && line.value.status.value / 100 == century
  }

  /** Each reported class stands with the number of its counted lines, which is not 0; every class with
      a counted line is listed; and the classes ascend. */
  ghost predicate ListsClasses(lines: seq<Line>, counts: seq<(StatusClass, nat)>)
  {
    && (forall i :: 0 <= i < |counts| ==>
          0 < counts[i].1 == Count((l: Line) => IsOfCentury(l, Century(counts[i].0)), lines))
    && (forall l :: l in lines && IsCounted(l) ==>
          exists i :: 0 <= i < |counts| && l.value.status.value / 100 == Century(counts[i].0))
    && (forall i, j :: 0 <= i < j < |counts| ==> Century(counts[i].0) < Century(counts[j].0))
  }

  lemma {:induction false} ClassIsCentury(lines: seq<Line>, c: StatusClass)
    ensures Count(InClass(c), lines) == Count((l: Line) => IsOfCentury(l, Century(c)), lines)
  {
    if lines != [] {
      var last := lines[|lines| - 1];
      ClassIsCentury(lines[..|lines| - 1], c);
      if IsCounted(last) {
        StatusClassIsCentury(last.value.status.value);
      }
    }
  }

  ghost predicate CountsEach(lines: seq<Line>, counts: seq<(StatusClass, nat)>)
  {
    forall i :: 0 <= i < |counts| ==> 0 < counts[i].1 == Count(InClass(counts[i].0), lines)
  }

  ghost predicate AscendsUpTo(counts: seq<(StatusClass, nat)>, n: nat)
  {
    && (forall i :: 0 <= i < |counts| ==> 1 <= Century(counts[i].0) <= n)
    && (forall i, j :: 0 <= i < j < |counts| ==> Century(counts[i].0) < Century(counts[j].0))
  }

  predicate Lists(counts: seq<(StatusClass, nat)>, c: StatusClass)
  {
    exists i :: 0 <= i < |counts| && counts[i].0 == c
  }

  ghost predicate ListsAll(lines: seq<Line>, counts: seq<(StatusClass, nat)>, n: nat)
  {
    forall c :: Century(c) <= n && 0 < Count(InClass(c), lines) ==> Lists(counts, c)
  }

  lemma ListsMore(counts: seq<(StatusClass, nat)>, item: (StatusClass, nat), c: StatusClass)
    ensures Lists(counts + [item], c) <==> Lists(counts, c) || c == item.0
  {
    var longer := counts + [item];
    assert longer[|counts|] == item;
    if i :| 0 <= i < |counts| && counts[i].0 == c {
      assert longer[i].0 == c;
    }
  }

  lemma AllListed(lines: seq<Line>, counts: seq<(StatusClass, nat)>, n: nat, added: StatusClass)
    requires ListsAll(lines, counts, n) && Century(added) == n + 1
    ensures var count := Count(InClass(added), lines);
            ListsAll(lines, if 0 < count then counts + [(added, count)] else counts, n + 1)
  {
    assert forall c :: Century(c) == n + 1 ==> c == added;
    hide InClass, Count, Century, Lists;
    forall c ensures Lists(counts + [(added, Count(InClass(added), lines))], c) <==> Lists(counts, c) || c == added {
      ListsMore(counts, (added, Count(InClass(added), lines)), c);
    }
  }

  /** The same for the first n classes, class by class. */
  ghost predicate ListsUpTo(lines: seq<Line>, counts: seq<(StatusClass, nat)>, n: nat)
  {
    CountsEach(lines, counts) && AscendsUpTo(counts, n) && ListsAll(lines, counts, n)
  }

  lemma CountsOneMore(lines: seq<Line>, counts: seq<(StatusClass, nat)>, item: (StatusClass, nat))
    requires CountsEach(lines, counts) && 0 < item.1 == Count(InClass(item.0), lines)
    ensures CountsEach(lines, counts + [item])
  {
    hide InClass, Count;
  }

  lemma AscendsOneMore(counts: seq<(StatusClass, nat)>, item: (StatusClass, nat), n: nat)
    requires AscendsUpTo(counts, n) && Century(item.0) == n + 1
    ensures AscendsUpTo(counts + [item], n + 1)
  {
    hide Century;
  }

  lemma ListsOneMore(lines: seq<Line>, counts: seq<(StatusClass, nat)>, n: nat, added: StatusClass)
    requires ListsUpTo(lines, counts, n) && Century(added) == n + 1
    ensures var count := Count(InClass(added), lines);
            ListsUpTo(lines, if 0 < count then counts + [(added, count)] else counts, n + 1)
  {
    AllListed(lines, counts, n, added);
    var item := (added, Count(InClass(added), lines));
    if 0 < item.1 {
      CountsOneMore(lines, counts, item);
      AscendsOneMore(counts, item, n);
    }
    assert AscendsUpTo(counts, n + 1);
    hide InClass, Count, Century, ListsAll, CountsEach, AscendsUpTo;
  }

  lemma {:induction false} ClassCountsAre(lines: seq<Line>, n: nat)
    requires n <= 5
    ensures ListsUpTo(lines, ClassCounts(lines, n), n)
  {
    if n == 0 {
      assert forall c: StatusClass :: 0 < Century(c);
    } else {
      ClassCountsAre(lines, n - 1);
      ListsOneMore(lines, ClassCounts(lines, n - 1), n - 1, STATUS_CLASSES[n - 1]);
      hide ListsUpTo;
    }
  }

  lemma ClassCountsListClasses(lines: seq<Line>)
    ensures ListsClasses(lines, ClassCounts(lines, 5))
  {
    var counts := ClassCounts(lines, 5);
    ClassCountsAre(lines, 5);
    hide ClassCounts, InClass, Count, IsOfCentury;
    forall i | 0 <= i < |counts|
      ensures 0 < counts[i].1 == Count((l: Line) => IsOfCentury(l, Century(counts[i].0)), lines)
    {
      ClassIsCentury(lines, counts[i].0);
    }
    forall l | l in lines && IsCounted(l)
      ensures exists i :: 0 <= i < |counts| && l.value.status.value / 100 == Century(counts[i].0)
    {
      CountedLineHasClass(lines, l);
      ClassOfLine(l);
      var c := StatusClassOf(l.value.status).value;
      assert Lists(counts, c);
      var i :| 0 <= i < |counts| && counts[i].0 == c;
    }
  }

  lemma ClassOfLine(l: Line)
    requires IsCounted(l)
    ensures Century(StatusClassOf(l.value.status).value) == l.value.status.value / 100 <= 5
  {
    StatusClassIsCentury(l.value.status.value);
  }

  lemma CountedLineHasClass(lines: seq<Line>, l: Line)
    requires l in lines && IsCounted(l)
    ensures 0 < Count(InClass(StatusClassOf(l.value.status).value), lines)
  {
    var keep := InClass(StatusClassOf(l.value.status).value);
    FilterKeeps(keep, lines);
    assert l in Filter(keep, lines);
  }

  lemma {:induction false} ClassesPartitionHits(lines: seq<Line>)
    ensures Count(InClass(Status1xx), lines) + Count(InClass(Status2xx), lines) + Count(InClass(Status3xx), lines)
            + Count(InClass(Status4xx), lines) + Count(InClass(Status5xx), lines) == |Hits(lines)|
  {
    if lines != [] {
      ClassesPartitionHits(lines[..|lines| - 1]);
    }
  }

  lemma {:induction false} ClassCountsSum(lines: seq<Line>, n: nat)
    requires 0 < n <= |STATUS_CLASSES|
    ensures SumSeconds(ClassCounts(lines, n))
            == SumSeconds(ClassCounts(lines, n - 1)) + Count(InClass(STATUS_CLASSES[n - 1]), lines)
  {
    var shorter := ClassCounts(lines, n - 1);
    var item := (STATUS_CLASSES[n - 1], Count(InClass(STATUS_CLASSES[n - 1]), lines));
    assert (shorter + [item])[..|shorter|] == shorter;
  }

  /** The reported status classes add up to the counted status lines. */
  lemma StatusClassesAddUp(lines: seq<Line>)
    ensures SumSeconds(ClassCounts(lines, 5)) == TallyOf(lines).statusLines
  {
    ClassesPartitionHits(lines);
    ClassCountsSum(lines, 1);
    ClassCountsSum(lines, 2);
    ClassCountsSum(lines, 3);
    ClassCountsSum(lines, 4);
    ClassCountsSum(lines, 5);
  }
}
