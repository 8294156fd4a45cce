/** The paging arithmetic of the `group_errors` tool, over whole walks through the pages. */
module ErrorPaging {
  import opened Paging
  import opened ErrorGroups
  import opened GroupedAnalysis

  datatype Page = Page(
    offset: nat, groups: seq<GroupPayload>, nextOffset: nat, truncated: bool, partialPage: bool)

  /** The response the tool builds from one analysis. */
  function PageOf(a: GroupedSnapshotAnalysis, offset: nat): Page
  {
    var nextOffset := offset + |a.groups|;
    Page(offset, a.groups, nextOffset, nextOffset < a.totalGroupCount,
         !a.analysisComplete || |a.groups| < a.totalGroupCount)
  }

  /** A response some call at this offset may give; each call ranks its own table afresh. */
  ghost predicate IsResponse(sources: seq<SourceFile>, limit: nat, maxGroups: nat, offset: nat, page: Page)
  {
    exists merged, ranked, a ::
      Reports(sources, limit, offset, maxGroups, merged, ranked, a) && page == PageOf(a, offset)
  }

  /** A client that starts at 0 and follows `nextOffset` as long as `truncated` is set. */
  ghost predicate Walk(sources: seq<SourceFile>, limit: nat, maxGroups: nat, pages: seq<Page>)
  {
    && pages != []
    && pages[0].offset == 0
    && (forall i :: 0 <= i < |pages| ==> IsResponse(sources, limit, maxGroups, pages[i].offset, pages[i]))
    && (forall i :: 0 <= i < |pages| - 1 ==> pages[i].truncated && pages[i + 1].offset == pages[i].nextOffset)
  }

  function Collected(pages: seq<Page>): seq<GroupPayload>
  {
    if pages == [] then [] else Collected(pages[..|pages| - 1]) + pages[|pages| - 1].groups
  }

  /** The events a capped scan of the sources merges. */
  ghost predicate IsMerged(sources: seq<SourceFile>, limit: nat, merged: seq<ErrorEvent>)
  {
    var all := Events(sources[..Examined(sources)]);
    merged <= all && IsCappedLength(all, limit, |merged|)
  }

  /** Scans of the same snapshot merge the same events, whatever they answer. */
  lemma MergedIsDetermined(sources: seq<SourceFile>, limit: nat, m: seq<ErrorEvent>, n: seq<ErrorEvent>)
    requires IsMerged(sources, limit, m) && IsMerged(sources, limit, n)
    ensures m == n
  {
    var all := Events(sources[..Examined(sources)]);
    CappedLengthIsLongest(all, limit, |m|, |n|);
    CappedLengthIsLongest(all, limit, |n|, |m|);
  }

  /** What a page shows of one ranked list. */
  ghost predicate Shows(page: Page, ranked: seq<GroupPayload>, maxGroups: nat)
  {
    && page.groups == Slice(ranked, page.offset, maxGroups)
    && page.nextOffset == page.offset + |page.groups|
    && (page.truncated <==> page.nextOffset < |ranked|)
  }

  lemma ResponseShowsRanking(sources: seq<SourceFile>, limit: nat, maxGroups: nat, page: Page,
                             merged: seq<ErrorEvent>, ranked: seq<GroupPayload>)
    requires IsResponse(sources, limit, maxGroups, page.offset, page)
    requires IsMerged(sources, limit, merged) && Ranked(merged, ranked)
    ensures Shows(page, ranked, maxGroups)
  {
    var m, s, a :| Reports(sources, limit, page.offset, maxGroups, m, s, a) && page == PageOf(a, page.offset);
    MergedIsDetermined(sources, limit, m, merged);
    RankingIsUnique(merged, s, ranked);
  }

  ghost predicate FollowsPages(ranked: seq<GroupPayload>, maxGroups: nat, pages: seq<Page>)
  {
    && pages != []
    && pages[0].offset == 0
    && (forall i :: 0 <= i < |pages| ==> Shows(pages[i], ranked, maxGroups))
    && (forall i :: 0 <= i < |pages| - 1 ==> pages[i].truncated && pages[i + 1].offset == pages[i].nextOffset)
  }

  /** The client's position after its k-th page. */
  ghost predicate HasPrefix(ranked: seq<GroupPayload>, maxGroups: nat, k: nat, last: Page, collected: seq<GroupPayload>)
  {
    var reached := Min(k * maxGroups, |ranked|);
    && last.nextOffset == reached
    && collected == ranked[..reached]
    && (last.truncated <==> k * maxGroups < |ranked|)
  }

  lemma NextPage(ranked: seq<GroupPayload>, maxGroups: nat, k: nat, last: Page, collected: seq<GroupPayload>,
                 next: Page)
    requires 0 < k && HasPrefix(ranked, maxGroups, k, last, collected) && last.truncated
    requires Shows(next, ranked, maxGroups) && next.offset == last.nextOffset
    ensures HasPrefix(ranked, maxGroups, k + 1, next, collected + next.groups)
  {
    assert (k + 1) * maxGroups == k * maxGroups + maxGroups;
  }

  /** After k pages the client holds the first k * maxGroups groups, each exactly once. */
  lemma {:induction false} WalkCollectsPrefix(ranked: seq<GroupPayload>, maxGroups: nat, pages: seq<Page>)
    requires 1 <= maxGroups && FollowsPages(ranked, maxGroups, pages)
    ensures HasPrefix(ranked, maxGroups, |pages|, pages[|pages| - 1], Collected(pages))
    ensures |pages| == 1 || (|pages| - 1) * maxGroups < |ranked|
    decreases |pages|
  {
    var init, last := pages[..|pages| - 1], pages[|pages| - 1];
    if init == [] {
      assert Collected(init) == [] && Collected(pages) == [] + last.groups;
    } else {
      WalkCollectsPrefix(ranked, maxGroups, init);
      assert init[|init| - 1] == pages[|pages| - 2];
      NextPage(ranked, maxGroups, |init|, init[|init| - 1], Collected(init), last);
    }
  }

  /** A walk never exceeds max(1, ceil(total / maxGroups)) pages, and a finished walk has exactly
      that many and has seen every group exactly once. */
  lemma WalkVisitsEveryGroupOnce(sources: seq<SourceFile>, limit: nat, maxGroups: nat, pages: seq<Page>,
                                 merged: seq<ErrorEvent>, ranked: seq<GroupPayload>)
    requires 1 <= maxGroups && Walk(sources, limit, maxGroups, pages)
    requires IsMerged(sources, limit, merged) && Ranked(merged, ranked)
    ensures |pages| <= PagesNeeded(|ranked|, maxGroups)
    ensures !pages[|pages| - 1].truncated <==> |pages| == PagesNeeded(|ranked|, maxGroups)
    ensures !pages[|pages| - 1].truncated ==> Collected(pages) == ranked
  {
    hide IsResponse, IsMerged, Ranked, PagesNeeded;
    forall i | 0 <= i < |pages| ensures Shows(pages[i], ranked, maxGroups) {
      ResponseShowsRanking(sources, limit, maxGroups, pages[i], merged, ranked);
    }
    WalkCollectsPrefix(ranked, maxGroups, pages);
    PagesAgainstNeeded(|ranked|, maxGroups, |pages|);
  }

  /** `partialPage` is false exactly when the analysis saw the whole snapshot and this one page shows
      every group of it. */
  lemma PartialPageIsExact(sources: seq<SourceFile>, limit: nat, maxGroups: nat, page: Page, ranked: seq<GroupPayload>)
    requires Whole(sources) == |sources| && IsResponse(sources, limit, maxGroups, page.offset, page)
    requires Ranked(Events(sources[..|sources|]), ranked)
    ensures !page.partialPage <==> |Fingerprints(Events(sources[..|sources|]))| <= limit && page.groups == ranked
  {
    var m, s, a :| Reports(sources, limit, page.offset, maxGroups, m, s, a) && page == PageOf(a, page.offset);
    var all := Events(sources[..|sources|]);
    CappedAnalysisIsPrefix(sources, limit, page.offset, maxGroups, m, s, a);
    RankedSize(all, ranked);
    WholeSlice(s, page.offset, maxGroups);
    if |Fingerprints(all)| <= limit {
      CappedLengthIsLongest(all, limit, |m|, |all|);
      assert all[..|all|] == all;
      hide Reports, Fingerprints, IsCappedLength, Slice;
      RankingIsUnique(all, s, ranked);
    }
  }

  lemma WholeSlice<T>(s: seq<T>, offset: nat, count: nat)
    ensures |Slice(s, offset, count)| < |s| || Slice(s, offset, count) == s
  {
  }
}
