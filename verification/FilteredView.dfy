/** The filtered view: bounded candidate buffers must give what unbounded ones would. */
module FilteredView {
  import opened Options
  import opened Sorting
  import opened Paging
  import opened Filtering
  import opened SnapshotLines
  import opened SourceSelection
  import opened RoundRobin

  datatype Mode = Head | Errors | Sample

  /** One line with the decisions of its source's noise profile and of the incident rules. */
  datatype Line = Line(at: LineReference, keep: bool, reason: Option<string>, incident: bool)

  /** One selected source whose file could be read. */
  type Source = SelectedSource<seq<Line>>

  /** What reading a stored file comes to; an invalid reference is also how a line that raises is reported. */
  datatype FileBody = Readable(lines: seq<Line>) | InvalidReference | NotFound

  /** A line together with the key of the source it was read from. */
  datatype Item = Item(key: string, line: Line)

  function Tagged(source: Source): seq<Item>
  {
    seq(|source.lines|, i requires 0 <= i < |source.lines| => Item(source.sourceKey, source.lines[i]))
  }

  /** Every line of the selected sources, in reading order. */
  function Items(sources: seq<Source>): seq<Item>
  {
    if sources == [] then [] else Items(sources[..|sources| - 1]) + Tagged(sources[|sources| - 1])
  }

  predicate IsKept(item: Item) { item.line.keep }
  predicate IsIncident(item: Item) { item.line.incident }
  predicate IsRegular(item: Item) { !item.line.incident }

  function FromSource(key: string): Item -> bool
  {
    (item: Item) => item.key == key
  }

  function Kept(items: seq<Item>): seq<Item>
  {
    Filter(IsKept, items)
  }

  lemma TakeStep<T>(s: seq<T>, x: T, n: nat)
    ensures Take(s + [x], n) == if |Take(s, n)| < n then Take(s, n) + [x] else Take(s, n)
  {
  }

  // ----- Candidate storage -----

  /** What each mode's buffers hold after these kept lines: a bounded prefix of what it needs. */
  ghost predicate Buffers(mode: Mode, cap: nat, kept: seq<Item>, head: seq<Item>, incidents: seq<Item>,
                          regulars: seq<Item>, samples: map<string, seq<Item>>)
  {
    && (mode.Head? ==> head == Take(kept, cap))
    && (mode.Errors? ==>
          incidents == Take(Filter(IsIncident, kept), cap) && regulars == Take(Filter(IsRegular, kept), cap))
    && (mode.Sample? ==> forall k :: Buffer(samples, k) == Take(Filter(FromSource(k), kept), cap))
  }

  function Buffer(samples: map<string, seq<Item>>, key: string): seq<Item>
  {
    if key in samples then samples[key] else []
  }

  class FilteredLineCandidates {
    var headLines: seq<Item>
    var incidentLines: seq<Item>
    var regularLines: seq<Item>
    var sampleLinesBySource: map<string, seq<Item>>

    ghost predicate Holds(mode: Mode, cap: nat, kept: seq<Item>)
      reads this
    {
      Buffers(mode, cap, kept, headLines, incidentLines, regularLines, sampleLinesBySource)
    }

    constructor ()
      ensures forall mode, cap :: Holds(mode, cap, [])
    {
      headLines, incidentLines, regularLines, sampleLinesBySource := [], [], [], map[];
    }

    method Store(item: Item, cap: nat, mode: Mode, ghost kept: seq<Item>)
      requires Holds(mode, cap, kept)
      modifies this
      ensures Holds(mode, cap, kept + [item])
    {
      hide Filter, Take;
      FilterStep(IsIncident, kept, item);
      FilterStep(IsRegular, kept, item);
      match mode {
        case Head =>
          TakeStep(kept, item, cap);
          if |headLines| < cap { headLines := headLines + [item]; }
        case Errors =>
          TakeStep(Filter(IsIncident, kept), item, cap);
          TakeStep(Filter(IsRegular, kept), item, cap);
          if item.line.incident {
            if |incidentLines| < cap { incidentLines := incidentLines + [item]; }
          } else if |regularLines| < cap {
            regularLines := regularLines + [item];
          }
        case Sample =>
          forall k ensures Filter(FromSource(k), kept + [item])
                           == if k == item.key then Filter(FromSource(k), kept) + [item]
                              else Filter(FromSource(k), kept)
          {
            FilterStep(FromSource(k), kept, item);
          }
          TakeStep(Filter(FromSource(item.key), kept), item, cap);
          if item.key !in sampleLinesBySource {
            sampleLinesBySource := sampleLinesBySource[item.key := []];
          }
          var sourceLines := sampleLinesBySource[item.key];
          if |sourceLines| < cap {
            sampleLinesBySource := sampleLinesBySource[item.key := sourceLines + [item]];
          }
      }
    }

    /** The final list of one mode. */
    method Select(selected: seq<string>, cap: nat, mode: Mode, ghost kept: seq<Item>) returns (r: seq<Item>)
      requires Holds(mode, cap, kept)
      ensures r == View(mode, cap, selected, kept)
    {
      match mode {
        case Head =>
          r := Take(headLines, cap);
        case Errors =>
          ErrorsFromBuffers(Filter(IsIncident, kept), Filter(IsRegular, kept), cap);
          r := Take(incidentLines + regularLines, cap);
        case Sample =>
          var samples := sampleLinesBySource;
          var buffers := seq(|selected|, i requires 0 <= i < |selected| => Buffer(samples, selected[i]));
          r := SampleRounds(buffers, cap);
          SampleFromBuffers(selected, kept, buffers, cap);
      }
    }
  }

  // ----- What each mode shows -----

  function PerSource(selected: seq<string>, kept: seq<Item>): seq<seq<Item>>
  {
    seq(|selected|, i requires 0 <= i < |selected| => Filter(FromSource(selected[i]), kept))
  }

  function Lengths(buffers: seq<seq<Item>>): seq<nat>
  {
    seq(|buffers|, i requires 0 <= i < |buffers| => |buffers[i]|)
  }

  ghost predicate Fits(buffers: seq<seq<Item>>, order: seq<Coord>)
  {
    forall c :: c in order ==> InRange(Lengths(buffers), c)
  }

  ghost function Pick(buffers: seq<seq<Item>>, order: seq<Coord>): (r: seq<Item>)
    requires Fits(buffers, order)
    ensures |r| == |order|
  {
    seq(|order|, k requires 0 <= k < |order| =>
      assert order[k] in order; buffers[order[k].source][order[k].round])
  }

  lemma OrderFits(buffers: seq<seq<Item>>, cap: nat)
    ensures Fits(buffers, FullOrder(Lengths(buffers)))
    ensures Fits(buffers, Take(FullOrder(Lengths(buffers)), cap))
  {
    RoundsAreOrdered(Lengths(buffers), Longest(Lengths(buffers)));
  }

  /** The view over unbounded buffers, cut once at the end. */
  ghost function View(mode: Mode, cap: nat, selected: seq<string>, kept: seq<Item>): seq<Item>
  {
    match mode
    case Head => Take(kept, cap)
    case Errors => Take(Filter(IsIncident, kept) + Filter(IsRegular, kept), cap)
    case Sample =>
      var buffers := PerSource(selected, kept);
      OrderFits(buffers, cap);
      Pick(buffers, Take(FullOrder(Lengths(buffers)), cap))
  }

  lemma ErrorsFromBuffers<T>(incidents: seq<T>, regulars: seq<T>, cap: nat)
    ensures Take(Take(incidents, cap) + Take(regulars, cap), cap) == Take(incidents + regulars, cap)
  {
  }

  lemma SampleFromBuffers(selected: seq<string>, kept: seq<Item>, buffers: seq<seq<Item>>, cap: nat)
    requires |buffers| == |selected|
    requires forall i :: 0 <= i < |selected| ==> buffers[i] == Take(Filter(FromSource(selected[i]), kept), cap)
    ensures Fits(buffers, Take(FullOrder(Lengths(buffers)), cap))
    ensures Pick(buffers, Take(FullOrder(Lengths(buffers)), cap)) == View(Sample, cap, selected, kept)
  {
    var full := PerSource(selected, kept);
    assert Lengths(buffers) == Capped(Lengths(full), cap);
    CappedSampleIsExact(Lengths(full), cap);
    OrderFits(buffers, cap);
    OrderFits(full, cap);
    var order := Take(FullOrder(Lengths(full)), cap);
    forall k | 0 <= k < |order| ensures Pick(buffers, order)[k] == Pick(full, order)[k] {
      assert order[k] in order;
    }
  }

  // ----- The round-robin loop -----

  lemma PickExtends(buffers: seq<seq<Item>>, order: seq<Coord>, c: Coord)
    requires Fits(buffers, order) && InRange(Lengths(buffers), c)
    ensures Fits(buffers, order + [c])
    ensures Pick(buffers, order + [c]) == Pick(buffers, order) + [buffers[c.source][c.round]]
  {
  }

  method SampleRounds(buffers: seq<seq<Item>>, cap: nat) returns (sampled: seq<Item>)
    ensures Fits(buffers, Take(FullOrder(Lengths(buffers)), cap))
    ensures sampled == Pick(buffers, Take(FullOrder(Lengths(buffers)), cap))
  {
    hide FullOrder, Longest, RoundOrder, RowOrder, Pick, Fits;
    ghost var lens := Lengths(buffers);
    ghost var order: seq<Coord> := [];
    sampled := [];
    var nextIndex := 0;
    NothingSampled(buffers);
    while |sampled| < cap
      invariant order == RoundOrder(lens, nextIndex) && Fits(buffers, order) && sampled == Pick(buffers, order)
      invariant |sampled| <= cap
      decreases cap - |sampled|
    {
      var addedLine := false;
      var i := 0;
      RoundStarts(lens, nextIndex);
      while i < |buffers|
        invariant i <= |buffers|
        invariant order == RoundOrder(lens, nextIndex) + RowOrder(lens[..i], nextIndex)
        invariant Fits(buffers, order) && sampled == Pick(buffers, order)
        invariant addedLine <==> RowOrder(lens[..i], nextIndex) != []
        invariant |sampled| < cap
      {
        RowGrows(lens, i, nextIndex);
        if nextIndex < |buffers[i]| {
          PickExtends(buffers, order, Coord(nextIndex, i));
          order := order + [Coord(nextIndex, i)];
          sampled := sampled + [buffers[i][nextIndex]];
          addedLine := true;
          if |sampled| >= cap {
            FullPrefix(lens, nextIndex, i + 1, order);
            assert Take(FullOrder(lens), cap) == order;
            return;
          }
        }
        i := i + 1;
      }
      assert lens[..|buffers|] == lens;
      RoundEnds(lens, nextIndex);
      if !addedLine {
        NothingLeft(lens, nextIndex);
        assert Take(FullOrder(lens), cap) == order;
        return;
      }
      nextIndex := nextIndex + 1;
    }
    RoundStarts(lens, nextIndex);
    FullPrefix(lens, nextIndex, 0, order);
    assert Take(FullOrder(lens), cap) == order;
  }

  lemma NothingSampled(buffers: seq<seq<Item>>)
    ensures RoundOrder(Lengths(buffers), 0) == [] && Fits(buffers, []) && Pick(buffers, []) == []
  {
  }

  lemma RoundStarts(lens: seq<nat>, round: nat)
    ensures RowOrder(lens[..0], round) == []
    ensures RoundOrder(lens, round) + RowOrder(lens[..0], round) == RoundOrder(lens, round)
  {
  }

  lemma RoundEnds(lens: seq<nat>, round: nat)
    ensures RoundOrder(lens, round + 1) == RoundOrder(lens, round) + RowOrder(lens, round)
    ensures RowOrder(lens, round) == [] ==> RoundOrder(lens, round) + RowOrder(lens, round) == RoundOrder(lens, round)
  {
  }

  lemma RowGrows(lens: seq<nat>, i: nat, round: nat)
    requires i < |lens|
    ensures RowOrder(lens[..i + 1], round)
            == if round < lens[i] then RowOrder(lens[..i], round) + [Coord(round, i)] else RowOrder(lens[..i], round)
  {
    assert lens[..i + 1][..i] == lens[..i];
  }

  lemma {:induction false} RowPrefix(lens: seq<nat>, i: nat, round: nat)
    requires i <= |lens|
    ensures RowOrder(lens[..i], round) <= RowOrder(lens, round)
    decreases |lens| - i
  {
    hide RowOrder;
    if i == |lens| {
      assert lens[..i] == lens;
    } else {
      RowGrows(lens, i, round);
      RowPrefix(lens, i + 1, round);
    }
  }

  lemma FullPrefix(lens: seq<nat>, rounds: nat, i: nat, order: seq<Coord>)
    requires i <= |lens| && order == RoundOrder(lens, rounds) + RowOrder(lens[..i], rounds)
    ensures order <= FullOrder(lens)
  {
    RowPrefix(lens, i, rounds);
    RoundEnds(lens, rounds);
    hide RowOrder, RoundOrder, Longest;
    PrefixAfter(RoundOrder(lens, rounds), RowOrder(lens[..i], rounds), RowOrder(lens, rounds));
    assert order <= RoundOrder(lens, rounds + 1);
    if rounds + 1 <= Longest(lens) {
      RoundsExtend(lens, rounds + 1, Longest(lens));
    } else {
      RoundsExtend(lens, Longest(lens), rounds + 1);
    }
  }

  lemma NothingLeft(lens: seq<nat>, rounds: nat)
    requires RowOrder(lens, rounds) == []
    ensures RoundOrder(lens, rounds) == FullOrder(lens)
  {
    LongestBounds(lens);
    RowIsOrdered(lens, rounds);
    forall i | 0 <= i < |lens| ensures lens[i] <= rounds {
      assert InRange(lens, Coord(rounds, i)) <==> rounds < lens[i];
    }
    RoundsExtend(lens, Longest(lens), rounds);
  }

  // ----- The whole view -----

  datatype Tally = Tally(total: nat, kept: nat, excluded: nat)

  predicate IsExcluded(item: Item) { !item.line.keep }

  function TallyOf(items: seq<Item>): Tally
  {
    Tally(|items|, Count(IsKept, items), Count(IsExcluded, items))
  }

  function Bump(t: Tally, keep: bool): Tally
  {
    if keep then Tally(t.total + 1, t.kept + 1, t.excluded) else Tally(t.total + 1, t.kept, t.excluded + 1)
  }

  lemma TallyStep(items: seq<Item>, item: Item)
    ensures TallyOf(items + [item]) == Bump(TallyOf(items), item.line.keep)
  {
    FilterStep(IsKept, items, item);
    FilterStep(IsExcluded, items, item);
  }

  /** Why a line was excluded; a missing reason has a standing name. */
  function ReasonFor(item: Item): string
  {
    if item.line.reason.Some? && item.line.reason.value != "" then item.line.reason.value else "excluded_by_profile"
  }

  function ReasonsOf(items: seq<Item>): multiset<string>
  {
    if items == [] then multiset{}
    else if items[|items| - 1].line.keep then ReasonsOf(items[..|items| - 1])
    else ReasonsOf(items[..|items| - 1]) + multiset{ReasonFor(items[|items| - 1])}
  }

  /** What one source's summary counts. */
  datatype SourceTally = SourceTally(tally: Tally, reasons: multiset<string>)

  const NO_LINES := SourceTally(Tally(0, 0, 0), multiset{})

  function SourceTallyOf(items: seq<Item>): SourceTally
  {
    SourceTally(TallyOf(items), ReasonsOf(items))
  }

  function BumpSource(t: SourceTally, item: Item): SourceTally
  {
    SourceTally(Bump(t.tally, item.line.keep),
                if item.line.keep then t.reasons else t.reasons + multiset{ReasonFor(item)})
  }

  lemma SourceTallyStep(items: seq<Item>, item: Item)
    ensures SourceTallyOf(items + [item]) == BumpSource(SourceTallyOf(items), item)
  {
    TallyStep(items, item);
    assert (items + [item])[..|items|] == items;
  }

  /** Every excluded line is counted under exactly one reason. */
  lemma {:induction false} ReasonsCoverExcluded(items: seq<Item>)
    ensures |ReasonsOf(items)| == TallyOf(items).excluded
  {
    if items != [] {
      ReasonsCoverExcluded(items[..|items| - 1]);
    }
  }

  function SummaryOf(summaries: map<string, SourceTally>, key: string): SourceTally
  {
    if key in summaries then summaries[key] else NO_LINES
  }

  /** Each source's summary counts that source's own lines. */
  ghost predicate Summarizes(summaries: map<string, SourceTally>, items: seq<Item>)
  {
    forall k :: SummaryOf(summaries, k) == SourceTallyOf(Filter(FromSource(k), items))
  }

  const TOP_REASONS := 3

  /** The most common reasons, in order; ties are left open. */
  ghost predicate AreTopReasons(reasons: multiset<string>, top: seq<string>)
  {
    && NoDuplicates(top) && |top| <= 3
    && (forall r :: r in top ==> r in reasons)
    && (forall i, j :: 0 <= i < j < |top| ==> reasons[top[j]] <= reasons[top[i]])
    && (forall r, t :: r in reasons && r !in top && t in top ==> reasons[r] <= reasons[t])
    && ((exists r :: r in reasons && r !in top) ==> |top| == 3)
  }

  lemma {:induction false} MostCommon(reasons: multiset<string>, names: set<string>) returns (r: string)
    requires names != {} && forall n :: n in names ==> n in reasons
    ensures r in names && forall n :: n in names ==> reasons[n] <= reasons[r]
    decreases |names|
  {
    r :| r in names;
    if names != {r} {
      var best := MostCommon(reasons, names - {r});
      r := if reasons[r] <= reasons[best] then best else r;
    }
  }

  /** The reasons chosen so far, in order, and those left, none of which is more common. */
  ghost predicate ChosenSoFar(reasons: multiset<string>, left: set<string>, top: seq<string>)
  {
    && (forall r :: r in reasons <==> r in left || r in top)
    && (forall r :: r in left ==> r !in top)
    && NoDuplicates(top)
    && (forall i, j :: 0 <= i < j < |top| ==> reasons[top[j]] <= reasons[top[i]])
    && (forall r, t :: r in left && t in top ==> reasons[r] <= reasons[t])
  }

  lemma ChooseNext(reasons: multiset<string>, left: set<string>, top: seq<string>, next: string)
    requires ChosenSoFar(reasons, left, top)
    requires next in left && forall r :: r in left ==> reasons[r] <= reasons[next]
    ensures ChosenSoFar(reasons, left - {next}, top + [next])
  {
    forall i | 0 <= i < |top| ensures top[i] in top && reasons[next] <= reasons[top[i]] {
    }
  }

  method TopReasons(reasons: multiset<string>) returns (top: seq<string>)
    ensures AreTopReasons(reasons, top)
  {
    top := [];
    var left := set r | r in reasons;
    assert ChosenSoFar(reasons, left, top);
    while left != {} && |top| < TOP_REASONS
      invariant ChosenSoFar(reasons, left, top) && |top| <= 3
    {
      hide NoDuplicates;
      ghost var best := MostCommon(reasons, left);
      assert best in left;
      var next :| next in left && forall r :: r in left ==> reasons[r] <= reasons[next];
      ChooseNext(reasons, left, top, next);
      top := top + [next];
      left := left - {next};
    }
  }

  /** One source of the public summary list. */
  datatype SourceSummary = SourceSummary(sourceKey: string, tally: Tally, topReasons: seq<string>)

  datatype FilteredResult = FilteredResult(
    total: nat, kept: nat, excluded: nat, lines: seq<Item>, truncated: bool, summaries: seq<SourceSummary>)

  /** The public summaries, by source key: one per selected source, each counting its own lines. */
  ghost predicate AreSummaries(sources: seq<Source>, summaries: seq<SourceSummary>)
  {
    && SortedBy(StringLeq, seq(|summaries|, i requires 0 <= i < |summaries| => summaries[i].sourceKey))
    && (forall i, j :: 0 <= i < j < |summaries| ==> summaries[i].sourceKey != summaries[j].sourceKey)
    && (forall k :: k in KeysOf(sources) <==> exists i :: 0 <= i < |summaries| && summaries[i].sourceKey == k)
    && (forall i :: 0 <= i < |summaries| ==> IsSummary(sources, summaries[i]))
  }

  ghost predicate IsSummary(sources: seq<Source>, s: SourceSummary)
  {
    var t := SourceTallyOf(Filter(FromSource(s.sourceKey), Items(sources)));
    s.tally == t.tally && AreTopReasons(t.reasons, s.topReasons)
  }

  method ListSummaries(summaries: map<string, SourceTally>, ghost sources: seq<Source>)
    returns (listed: seq<SourceSummary>)
    requires Summarizes(summaries, Items(sources))
    requires forall k :: k in summaries <==> k in KeysOf(sources)
    ensures AreSummaries(sources, listed)
  {
    hide Items, AreTopReasons, SourceTallyOf, StringLeq, KeysOf;
    var keys := SortedKeys(summaries.Keys);
    listed := [];
    for n := 0 to |keys|
      invariant |listed| == n
      invariant forall i :: 0 <= i < n ==> listed[i].sourceKey == keys[i] && IsSummary(sources, listed[i])
    {
      assert keys[n] in keys;
      var t := summaries[keys[n]];
      assert SummaryOf(summaries, keys[n]) == t;
      var top := TopReasons(t.reasons);
      listed := listed + [SourceSummary(keys[n], t.tally, top)];
    }
    assert seq(|listed|, i requires 0 <= i < |listed| => listed[i].sourceKey) == keys;
    ListedKeys(sources, summaries.Keys, keys, listed);
  }

  lemma ListedKeys(sources: seq<Source>, names: set<string>, keys: seq<string>, listed: seq<SourceSummary>)
    requires |listed| == |keys| && forall i :: 0 <= i < |keys| ==> listed[i].sourceKey == keys[i]
    requires forall k :: k in names <==> k in KeysOf(sources)
    requires forall k :: k in keys <==> k in names
    ensures forall k :: k in KeysOf(sources) <==> exists i :: 0 <= i < |listed| && listed[i].sourceKey == k
  {
    hide KeysOf;
    forall k ensures k in KeysOf(sources) <==> exists i :: 0 <= i < |listed| && listed[i].sourceKey == k {
      if k in keys {
        var i :| 0 <= i < |keys| && keys[i] == k;
        assert listed[i].sourceKey == k;
      }
    }
  }

  datatype ViewResult =
    | Built(result: FilteredResult)
    | UnknownKeys(keys: seq<string>)
    | InvalidFileReference
    | FileNotFound

  /** How many of the leading files can be read. */
  function ReadableFiles(selected: seq<SelectedSource<FileBody>>): (n: nat)
    ensures n <= |selected|
    ensures forall i :: 0 <= i < n ==> selected[i].lines.Readable?
    ensures n < |selected| ==> !selected[n].lines.Readable?
  {
    if selected == [] || !selected[0].lines.Readable? then 0 else 1 + ReadableFiles(selected[1..])
  }

  function Opened(selected: seq<SelectedSource<FileBody>>): seq<Source>
    requires forall i :: 0 <= i < |selected| ==> selected[i].lines.Readable?
  {
    seq(|selected|, i requires 0 <= i < |selected| =>
      SelectedSource(selected[i].sourceKey, selected[i].lines.lines))
  }

  /** The lines of mode Errors, read off the kept lines: incidents first, a regular line only after every
      kept incident, each kind a beginning of its kept lines in reading order, as many as fit. */
  ghost predicate IncidentsFirst(kept: seq<Item>, cap: nat, shown: seq<Item>)
  {
    && |shown| == Min(cap, |kept|)
    && (forall i, j :: 0 <= i < j < |shown| && shown[j].line.incident ==> shown[i].line.incident)
    && Filter(IsIncident, shown) <= Filter(IsIncident, kept)
    && Filter(IsRegular, shown) <= Filter(IsRegular, kept)
    && ((exists x :: x in shown && !x.line.incident) ==> forall x :: x in kept && x.line.incident ==> x in shown)
  }

  lemma FilterAll(s: seq<Item>)
    ensures (forall x :: x in s ==> x.line.incident) ==> Filter(IsIncident, s) == s && Filter(IsRegular, s) == []
    ensures (forall x :: x in s ==> !x.line.incident) ==> Filter(IsRegular, s) == s && Filter(IsIncident, s) == []
  {
    hide Filter;
    NoneKept(IsIncident, s);
    NoneKept(IsRegular, s);
    if forall x :: x in s ==> x.line.incident {
      AllKept(IsIncident, s);
    }
    if forall x :: x in s ==> !x.line.incident {
      AllKept(IsRegular, s);
    }
  }

  lemma {:induction false} KindsPartition(kept: seq<Item>)
    ensures |Filter(IsIncident, kept)| + |Filter(IsRegular, kept)| == |kept|
  {
    if kept != [] {
      KindsPartition(kept[..|kept| - 1]);
    }
  }

  lemma TakeOfTwo<T>(first: seq<T>, second: seq<T>, cap: nat)
    ensures Take(first + second, cap) == Take(first, cap) + Take(second, if cap <= |first| then 0 else cap - |first|)
  {
  }

  lemma KindsOfTwo(first: seq<Item>, second: seq<Item>)
    requires forall x :: x in first ==> x.line.incident
    requires forall x :: x in second ==> !x.line.incident
    ensures Filter(IsIncident, first + second) == first && Filter(IsRegular, first + second) == second
  {
    FilterAll(first);
    FilterAll(second);
    FilterConcat(IsIncident, first, second);
    FilterConcat(IsRegular, first, second);
    hide Filter;
    assert first + [] == first && [] + second == second;
  }

  lemma TwoKindsInRow(first: seq<Item>, second: seq<Item>)
    requires forall x :: x in first ==> x.line.incident
    requires forall x :: x in second ==> !x.line.incident
    ensures forall i, j :: 0 <= i < j < |first + second| && (first + second)[j].line.incident
                           ==> (first + second)[i].line.incident
  {
    var both := first + second;
    assert forall m :: 0 <= m < |first| ==> both[m] in first;
    assert forall m :: |first| <= m < |both| ==> both[m] in second;
  }

  lemma ErrorViewIsPublic(kept: seq<Item>, cap: nat)
    ensures IncidentsFirst(kept, cap, Take(Filter(IsIncident, kept) + Filter(IsRegular, kept), cap))
  {
    var first, second := Filter(IsIncident, kept), Filter(IsRegular, kept);
    FilterKeeps(IsIncident, kept);
    FilterKeeps(IsRegular, kept);
    KindsPartition(kept);
    var left, right := Take(first, cap), Take(second, if cap <= |first| then 0 else cap - |first|);
    TakeOfTwo(first, second, cap);
    assert left <= first && right <= second;
    assert forall x :: x in left ==> x in first;
    assert forall x :: x in right ==> x in second;
    hide Filter, Take;
    KindsOfTwo(left, right);
    TwoKindsInRow(left, right);
    CutKinds(first, second, cap);
  }

  /** Whatever is left of the second list comes after all of the first. */
  lemma CutKinds<T>(first: seq<T>, second: seq<T>, cap: nat)
    ensures |Take(first + second, cap)| == Min(cap, |first| + |second|)
    ensures Take(second, if cap <= |first| then 0 else cap - |first|) != [] ==> Take(first, cap) == first
  {
  }

  lemma ViewIsPublic(mode: Mode, cap: nat, selected: seq<string>, kept: seq<Item>)
    ensures mode.Head? ==>
              View(mode, cap, selected, kept) <= kept && |View(mode, cap, selected, kept)| == Min(cap, |kept|)
    ensures mode.Errors? ==> IncidentsFirst(kept, cap, View(mode, cap, selected, kept))
  {
    ErrorViewIsPublic(kept, cap);
    hide IncidentsFirst;
  }

  /** The counters of any lines: each is kept or excluded. */
  lemma TallyAddsUp(items: seq<Item>)
    ensures var t := TallyOf(items); t.total == |items| && t.kept == |Kept(items)| && t.kept + t.excluded == t.total
    ensures forall x :: x in Kept(items) <==> x in items && x.line.keep
  {
    KeptOrExcluded(items);
    FilterKeeps(IsKept, items);
  }

  lemma {:induction false} KeptOrExcluded(items: seq<Item>)
    ensures Count(IsKept, items) + Count(IsExcluded, items) == |items|
  {
    if items != [] {
      KeptOrExcluded(items[..|items| - 1]);
    }
  }

  /** Line j of source i stands behind all lines of the sources before it and the j lines before it. */
  lemma {:induction false} ItemsInReadingOrder(sources: seq<Source>, i: nat, j: nat)
    requires i < |sources| && j < |sources[i].lines|
    ensures var at := |Items(sources[..i])| + j;
            at < |Items(sources)| && Items(sources)[at] == Item(sources[i].sourceKey, sources[i].lines[j])
    decreases |sources|
  {
    var n := |sources| - 1;
    if i < n {
      ItemsInReadingOrder(sources[..n], i, j);
      assert sources[..n][..i] == sources[..i];
    }
  }

  /** An excluded line is counted under its reason, or under a standing name if it has none. */
  lemma ReasonsAdd(items: seq<Item>, item: Item)
    ensures ReasonsOf([]) == multiset{}
    ensures ReasonsOf(items + [item])
         == if item.line.keep then ReasonsOf(items)
            else if item.line.reason.None? || item.line.reason.value == "" then
              ReasonsOf(items) + multiset{"excluded_by_profile"}
            else ReasonsOf(items) + multiset{item.line.reason.value}
  {
    assert (items + [item])[..|items|] == items;
  }

  /** What the view shows, and of which lines, for readable sources. */
  ghost predicate Shows(sources: seq<Source>, cap: nat, mode: Mode, r: FilteredResult)
  {
    && Tally(r.total, r.kept, r.excluded) == TallyOf(Items(sources))
    && r.total == |Items(sources)| && r.kept == |Kept(Items(sources))| && r.kept + r.excluded == r.total
    && r.lines == View(mode, cap, KeysOf(sources), Kept(Items(sources)))
    && (mode.Head? ==> r.lines <= Kept(Items(sources)) && |r.lines| == Min(cap, |Kept(Items(sources))|))
    && (mode.Errors? ==> IncidentsFirst(Kept(Items(sources)), cap, r.lines))
    && (r.truncated <==> cap < |Kept(Items(sources))|)
    && AreSummaries(sources, r.summaries)
  }

  method CreateFilteredView(stored: seq<StoredSource<FileBody>>, requested: Option<seq<string>>, cap: nat, mode: Mode)
    returns (r: ViewResult)
    ensures r.UnknownKeys? <==> Unknown(stored, requested) != {}
    ensures r.UnknownKeys? ==> IsSortedSet(Unknown(stored, requested), r.keys)
    ensures !r.UnknownKeys? ==>
              var selected := Picked(stored, requested);
              var n := ReadableFiles(selected);
              && (r.Built? <==> n == |selected|)
              && (r.InvalidFileReference? <==> n < |selected| && selected[n].lines.InvalidReference?)
              && (r.FileNotFound? <==> n < |selected| && selected[n].lines.NotFound?)
    ensures r.Built? ==> Shows(Opened(Picked(stored, requested)), cap, mode, r.result)
  {
    hide Shows;
    var selection := SelectViewFiles(stored, requested);
    match selection {
      case UnknownSourceKeys(keys) =>
        return UnknownKeys(keys);
      case Selected(selected) =>
        var sources: seq<Source> := [];
        for i := 0 to |selected|
          invariant |sources| == i && forall j :: 0 <= j < i ==> selected[j].lines.Readable?
          invariant forall j :: 0 <= j < i ==>
                      sources[j] == SelectedSource(selected[j].sourceKey, selected[j].lines.lines)
        {
          match selected[i].lines {
            case InvalidReference => return InvalidFileReference;
            case NotFound => return FileNotFound;
            case Readable(lines) => sources := sources + [SelectedSource(selected[i].sourceKey, lines)];
          }
        }
        assert sources == Opened(selected);
        var result := FilterSources(sources, cap, mode);
        r := Built(result);
    }
  }

  method FilterSources(sources: seq<Source>, cap: nat, mode: Mode) returns (r: FilteredResult)
    ensures Shows(sources, cap, mode, r)
  {
    hide TallyOf, View, Items, Kept, FilteredLineCandidates.Holds;
    hide Summarizes, SummaryOf, Bump, BumpSource, AreSummaries;
    NothingSeen(sources);
    var candidates := new FilteredLineCandidates();
    var total := Tally(0, 0, 0);
    var summaries: map<string, SourceTally> := map[];
    ghost var items: seq<Item> := [];
    for i := 0 to |sources|
      invariant items == Items(sources[..i]) && total == TallyOf(items)
      invariant candidates.Holds(mode, cap, Kept(items))
      invariant forall k :: k in summaries <==> k in KeysOf(sources)[..i]
      invariant Summarizes(summaries, items)
    {
      var key, lines := sources[i].sourceKey, sources[i].lines;
      ghost var before := items;
      NewSummary(summaries, items, key);
      summaries := summaries[key := SummaryOf(summaries, key)];
      assert KeysOf(sources)[..i + 1] == KeysOf(sources)[..i] + [key];
      for j := 0 to |lines|
        invariant items == before + Tagged(sources[i])[..j] && total == TallyOf(items)
        invariant candidates.Holds(mode, cap, Kept(items))
        invariant forall k :: k in summaries <==> k in KeysOf(sources)[..i + 1]
        invariant Summarizes(summaries, items)
      {
        var item := Item(key, lines[j]);
        TallyStep(items, item);
        SummariesStep(summaries, items, item);
        KeptStep(items, item);
        total := Bump(total, item.line.keep);
        summaries := summaries[key := BumpSource(SummaryOf(summaries, key), item)];
        if item.line.keep {
          candidates.Store(item, cap, mode, Kept(items));
        }
        items := items + [item];
      }
      assert Tagged(sources[i])[..|lines|] == Tagged(sources[i]);
      ItemsStep(sources, i);
    }
    assert sources[..|sources|] == sources && KeysOf(sources)[..|sources|] == KeysOf(sources);
    KeptCount(items);
    var selected := candidates.Select(KeysOf(sources), cap, mode, Kept(items));
    var listed := ListSummaries(summaries, sources);
    TallyAddsUp(items);
    ViewIsPublic(mode, cap, KeysOf(sources), Kept(items));
    hide IncidentsFirst;
    r := FilteredResult(total.total, total.kept, total.excluded, selected, cap < total.kept, listed);
  }

  lemma NothingSeen(sources: seq<Source>)
    ensures Items(sources[..0]) == [] && Kept([]) == [] && TallyOf([]) == Tally(0, 0, 0)
    ensures Summarizes(map[], [])
  {
  }

  lemma KeptStep(items: seq<Item>, item: Item)
    ensures Kept(items + [item]) == if item.line.keep then Kept(items) + [item] else Kept(items)
  {
    FilterStep(IsKept, items, item);
  }

  lemma KeptCount(items: seq<Item>)
    ensures TallyOf(items).kept == |Kept(items)|
  {
  }

  lemma ItemsStep(sources: seq<Source>, i: nat)
    requires i < |sources|
    ensures Items(sources[..i + 1]) == Items(sources[..i]) + Tagged(sources[i])
  {
    assert sources[..i + 1][..i] == sources[..i];
  }

  lemma NewSummary(summaries: map<string, SourceTally>, items: seq<Item>, key: string)
    requires Summarizes(summaries, items)
    ensures Summarizes(summaries[key := SummaryOf(summaries, key)], items)
  {
    hide SourceTallyOf;
  }

  lemma SummariesStep(summaries: map<string, SourceTally>, items: seq<Item>, item: Item)
    requires Summarizes(summaries, items)
    ensures Summarizes(summaries[item.key := BumpSource(SummaryOf(summaries, item.key), item)], items + [item])
  {
    hide SourceTallyOf, BumpSource;
    var after := summaries[item.key := BumpSource(SummaryOf(summaries, item.key), item)];
    forall k ensures SummaryOf(after, k) == SourceTallyOf(Filter(FromSource(k), items + [item])) {
      FilterStep(FromSource(k), items, item);
      if k == item.key {
        SourceTallyStep(Filter(FromSource(k), items), item);
      }
    }
  }
}
