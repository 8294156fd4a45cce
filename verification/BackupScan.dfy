/** The backup inspection: one entry budget shared across locations, and the status it supports. */
module BackupScan {
  import opened Options
  import opened Filtering
  import opened Paging

  const MAX_BACKUP_DIRECTORY_ENTRIES := 1000
  const MAX_BACKUP_LOCATIONS := 8
  const MAX_BACKUP_FILENAME_PATTERNS := 20
  const FUTURE_MTIME_TOLERANCE_SECONDS := 300.0

  datatype Warning =
    | NotAllowed | LocationMissing | NotDirectory | LocationSymlink
    | Unreadable | LocationChanged | ScanTruncated | MtimeInFuture

  datatype OpenError = FileNotFound | NotADirectory | TooManyLinks | OtherError

  datatype FileStat = FileStat(modifiedAt: real, size: nat, regular: bool)

  /** One directory entry: what it is, and whether the service may examine it. */
  datatype Entry = Entry(name: string, stat: FileStat, examinable: bool)

  /** One configured location as the service finds it; `scanFails` is an error after its entries. */
  datatype Location = Location(
    underRoots: bool, symlink: bool, openError: Option<OpenError>, resolvable: bool,
    openedUnderRoots: bool, stillSame: bool, entries: seq<Entry>, scanFails: bool)

  /** Whether a name matches a pattern, as the file-name matcher decides. */
  type Matcher = (string, string) -> bool

  function OpenErrorWarning(e: OpenError): Warning
  {
    match e
    case FileNotFound => LocationMissing
    case NotADirectory => NotDirectory
    case TooManyLinks => LocationSymlink
    case OtherError => Unreadable
  }

  /** Why a location is not scanned at all, if so. */
  function Refusal(l: Location): Option<Warning>
  {
    if !l.underRoots then Some(NotAllowed)
    else if l.symlink then Some(LocationSymlink)
    else if l.openError.Some? then Some(OpenErrorWarning(l.openError.value))
    else if !l.resolvable then Some(Unreadable)
    else if !l.openedUnderRoots then Some(NotAllowed)
    else if !l.stillSame then Some(LocationChanged)
    else None
  }

  predicate NameMatches(patterns: seq<string>, matches: Matcher, name: string)
  {
    exists p :: p in patterns && matches(name, p)
  }

  /** What a reader calls a backup: a regular file with a matching name, examinable or not. */
  predicate IsBackup(patterns: seq<string>, matches: Matcher, e: Entry)
  {
    NameMatches(patterns, matches, e.name) && e.stat.regular
  }

  /** What the scan records: an entry it cannot examine is passed over without a warning. */
  function IsCandidate(patterns: seq<string>, matches: Matcher): Entry -> bool
  {
    (e: Entry) => IsBackup(patterns, matches, e) && e.examinable
  }

  /** The entries reached after one more location. */
  function Reached(seen: seq<Entry>, l: Location): seq<Entry>
  {
    if Refusal(l).None? then seen + l.entries else seen
  }

  /** What a completely handled location warns about. */
  function Complaint(l: Location): seq<Warning>
  {
    if Refusal(l).Some? then [Refusal(l).value] else if l.scanFails then [Unreadable] else []
  }

  /** The entries of all scannable locations, one after the other. */
  function AllEntries(locations: seq<Location>): seq<Entry>
  {
    if locations == [] then [] else Reached(AllEntries(locations[..|locations| - 1]), locations[|locations| - 1])
  }

  /** What completely handled locations warn about, in order. */
  function LocationWarnings(locations: seq<Location>): seq<Warning>
  {
    if locations == [] then []
    else LocationWarnings(locations[..|locations| - 1]) + Complaint(locations[|locations| - 1])
  }

  predicate Clean(l: Location)
  {
    Refusal(l).None? && !l.scanFails
  }

  // ----- The scan -----

  /** What the location loop reports: candidates among the first entries, and whether more existed. */
  ghost predicate ScanOutcome(locations: seq<Location>, wanted: Entry -> bool, before: seq<Warning>,
                              candidates: seq<Entry>, warnings: seq<Warning>, truncated: bool)
  {
    && candidates == Filter(wanted, Take(AllEntries(locations), MAX_BACKUP_DIRECTORY_ENTRIES))
    && (truncated <==> MAX_BACKUP_DIRECTORY_ENTRIES < |AllEntries(locations)|)
    && (!truncated ==> warnings == before + LocationWarnings(locations))
    && (truncated ==> exists n: nat :: StoppedWarnings(locations, n, before, warnings))
  }

  /** The shared budget runs out inside location n. */
  predicate StopsAt(locations: seq<Location>, n: nat)
    requires n < |locations|
  {
    |AllEntries(locations[..n])| <= MAX_BACKUP_DIRECTORY_ENTRIES < |AllEntries(locations[..n + 1])|
  }

  predicate StoppedWarnings(locations: seq<Location>, n: nat, before: seq<Warning>, warnings: seq<Warning>)
  {
    && n < |locations| && StopsAt(locations, n)
    && warnings == WithTruncation(before + LocationWarnings(locations[..n]))
  }

  function WithTruncation(warnings: seq<Warning>): seq<Warning>
  {
    if ScanTruncated in warnings then warnings else warnings + [ScanTruncated]
  }

  lemma EntriesStep(locations: seq<Location>, n: nat)
    requires n < |locations|
    ensures AllEntries(locations[..n + 1]) == Reached(AllEntries(locations[..n]), locations[n])
    ensures LocationWarnings(locations[..n + 1]) == LocationWarnings(locations[..n]) + Complaint(locations[n])
  {
    assert locations[..n + 1][..n] == locations[..n];
  }

  lemma {:induction false} EntriesPrefix(locations: seq<Location>, n: nat)
    requires n <= |locations|
    ensures AllEntries(locations[..n]) <= AllEntries(locations)
    decreases |locations| - n
  {
    if n == |locations| {
      assert locations[..n] == locations;
    } else {
      EntriesStep(locations, n);
      EntriesPrefix(locations, n + 1);
    }
  }

  lemma CompleteOutcome(locations: seq<Location>, wanted: Entry -> bool, before: seq<Warning>,
                        candidates: seq<Entry>, warnings: seq<Warning>)
    requires |AllEntries(locations)| <= MAX_BACKUP_DIRECTORY_ENTRIES
    requires candidates == Filter(wanted, AllEntries(locations))
    requires warnings == before + LocationWarnings(locations)
    ensures ScanOutcome(locations, wanted, before, candidates, warnings, false)
  {
  }

  lemma AppendAll<T>(s: seq<T>, t: seq<T>, u: seq<T>)
    ensures (s + t) + u == s + (t + u)
  {
  }

  lemma StoppedOutcome(locations: seq<Location>, n: nat, wanted: Entry -> bool, before: seq<Warning>,
                       candidates: seq<Entry>, warnings: seq<Warning>)
    requires n < |locations| && StopsAt(locations, n)
    requires candidates == Filter(wanted, Take(AllEntries(locations[..n + 1]), MAX_BACKUP_DIRECTORY_ENTRIES))
    requires warnings == WithTruncation(before + LocationWarnings(locations[..n]))
    ensures ScanOutcome(locations, wanted, before, candidates, warnings, true)
  {
    hide AllEntries, Filter, LocationWarnings, WithTruncation;
    EntriesPrefix(locations, n + 1);
    assert Take(AllEntries(locations), MAX_BACKUP_DIRECTORY_ENTRIES)
        == Take(AllEntries(locations[..n + 1]), MAX_BACKUP_DIRECTORY_ENTRIES);
    assert StoppedWarnings(locations, n, before, warnings);
  }

  /** The lists one inspection appends to while it walks the locations. */
  class BackupWalk {
    var candidates: seq<Entry>
    var warnings: seq<Warning>

    constructor ()
      ensures candidates == [] && warnings == []
    {
      candidates, warnings := [], [];
    }

    /** Adds the warning unless it is there, and touches no other. */
    method AppendScanTruncatedWarning()
      modifies this`warnings
      ensures warnings == WithTruncation(old(warnings))
      ensures old(warnings) <= warnings && ScanTruncated in warnings
      ensures forall w :: multiset(warnings)[w]
                == if w == ScanTruncated && w !in old(warnings) then 1 else multiset(old(warnings))[w]
    {
      if ScanTruncated in warnings { return; }
      warnings := warnings + [ScanTruncated];
    }

    /** Scans one opened directory against what is left of the budget. */
    method ScanOpenDirectory(location: Location, patterns: seq<string>, matches: Matcher, inspectedEntries: nat,
                             ghost seen: seq<Entry>)
      returns (inspected: nat, truncated: bool)
      requires inspectedEntries == |seen| <= MAX_BACKUP_DIRECTORY_ENTRIES
      requires candidates == Filter(IsCandidate(patterns, matches), seen)
      modifies this
      ensures truncated <==> MAX_BACKUP_DIRECTORY_ENTRIES < |seen + location.entries|
      ensures !truncated ==> inspected == |seen + location.entries|
      ensures !truncated ==> candidates == Filter(IsCandidate(patterns, matches), seen + location.entries)
      ensures candidates == Filter(IsCandidate(patterns, matches),
                                   Take(seen + location.entries, MAX_BACKUP_DIRECTORY_ENTRIES))
      ensures warnings == if truncated then WithTruncation(old(warnings))
                          else if location.scanFails then old(warnings) + [Unreadable] else old(warnings)
    {
      hide Filter;
      inspected := inspectedEntries;
      assert seen + location.entries[..0] == seen;
      for i := 0 to |location.entries|
        invariant inspected == |seen| + i <= MAX_BACKUP_DIRECTORY_ENTRIES
        invariant candidates == Filter(IsCandidate(patterns, matches), seen + location.entries[..i])
        invariant warnings == old(warnings)
      {
        var entry := location.entries[i];
        if inspected >= MAX_BACKUP_DIRECTORY_ENTRIES {
          assert Take(seen + location.entries, MAX_BACKUP_DIRECTORY_ENTRIES) == seen + location.entries[..i];
          AppendScanTruncatedWarning();
          return inspected, true;
        }
        inspected := inspected + 1;
        FilterStep(IsCandidate(patterns, matches), seen + location.entries[..i], entry);
        assert seen + location.entries[..i] + [entry] == seen + location.entries[..i + 1];
        if !NameMatches(patterns, matches, entry.name) { continue; }
        if !entry.examinable { continue; }
        if entry.stat.regular {
          candidates := candidates + [entry];
        }
      }
      assert location.entries[..|location.entries|] == location.entries;
      assert Take(seen + location.entries, MAX_BACKUP_DIRECTORY_ENTRIES) == seen + location.entries;
      if location.scanFails {
        warnings := warnings + [Unreadable];
      }
      truncated := false;
    }

    /** Scans one configured location, or says why it is not scanned. */
    method InspectLocation(location: Location, patterns: seq<string>, matches: Matcher, inspectedEntries: nat,
                           ghost seen: seq<Entry>)
      returns (inspected: nat, truncated: bool)
      requires inspectedEntries == |seen| <= MAX_BACKUP_DIRECTORY_ENTRIES
      requires candidates == Filter(IsCandidate(patterns, matches), seen)
      modifies this
      ensures truncated <==> MAX_BACKUP_DIRECTORY_ENTRIES < |Reached(seen, location)|
      ensures !truncated ==> inspected == |Reached(seen, location)|
      ensures !truncated ==> candidates == Filter(IsCandidate(patterns, matches), Reached(seen, location))
      ensures !truncated ==> warnings == old(warnings) + Complaint(location)
      ensures truncated ==> candidates == Filter(IsCandidate(patterns, matches),
                                                 Take(Reached(seen, location), MAX_BACKUP_DIRECTORY_ENTRIES))
      ensures truncated ==> warnings == WithTruncation(old(warnings))
    {
      hide Filter, IsCandidate, Take, WithTruncation;
      var refusal := Refusal(location);
      if refusal.Some? {
        warnings := warnings + [refusal.value];
        return inspectedEntries, false;
      }
      ghost var before := warnings;
      assert before + [] == before;
      inspected, truncated := ScanOpenDirectory(location, patterns, matches, inspectedEntries, seen);
    }

    method InspectLocations(locations: seq<Location>, patterns: seq<string>, matches: Matcher)
      returns (truncated: bool)
      requires candidates == []
      modifies this
      ensures ScanOutcome(locations, IsCandidate(patterns, matches), old(warnings), candidates, warnings, truncated)
    {
      ghost var wanted, before := IsCandidate(patterns, matches), warnings;
      var inspected := 0;
      truncated := false;
      assert AllEntries(locations[..0]) == [] && LocationWarnings(locations[..0]) == [];
      assert Filter(wanted, []) == [];
      hide AllEntries, LocationWarnings, Filter, IsCandidate, WithTruncation, ScanOutcome, Take, Reached, Complaint;
      for n := 0 to |locations|
        invariant inspected == |AllEntries(locations[..n])| <= MAX_BACKUP_DIRECTORY_ENTRIES
        invariant candidates == Filter(wanted, AllEntries(locations[..n]))
        invariant warnings == before + LocationWarnings(locations[..n])
        invariant !truncated
      {
        EntriesStep(locations, n);
        AppendAll(before, LocationWarnings(locations[..n]), Complaint(locations[n]));
        inspected, truncated := InspectLocation(locations[n], patterns, matches, inspected, AllEntries(locations[..n]));
        if truncated {
          StoppedOutcome(locations, n, wanted, before, candidates, warnings);
          return;
        }
      }
      assert locations[..|locations|] == locations;
      CompleteOutcome(locations, wanted, before, candidates, warnings);
    }
  }

  // ----- The result -----

  datatype Status = Current | Stale | Missing | Unavailable

  datatype Configuration = Configuration(locations: seq<Location>, patterns: seq<string>, maxAgeSeconds: int)

  datatype Inspection = Inspection(
    status: Status, latest: Option<Entry>, ageSeconds: Option<int>, backupCount: nat,
    scanComplete: bool, warnings: seq<Warning>)

  predicate ConfigurationTruncated(c: Configuration)
  {
    MAX_BACKUP_LOCATIONS < |c.locations| || MAX_BACKUP_FILENAME_PATTERNS < |c.patterns|
  }

  /** Python's `max(0, int(x))`. */
  function WholeSeconds(x: real): int
  {
    if x <= 0.0 then 0 else x.Floor
  }

  /** The first entry of maximal modification time. */
  ghost predicate IsLatest(candidates: seq<Entry>, i: nat)
  {
    && i < |candidates|
    && (forall j :: 0 <= j < |candidates| ==> candidates[j].stat.modifiedAt <= candidates[i].stat.modifiedAt)
    && (forall j :: 0 <= j < i ==> candidates[j].stat.modifiedAt < candidates[i].stat.modifiedAt)
  }

  method LatestCandidate(candidates: seq<Entry>) returns (i: nat)
    requires candidates != []
    ensures IsLatest(candidates, i)
  {
    i := 0;
    for k := 1 to |candidates|
      invariant i < k
      invariant forall j :: 0 <= j < k ==> candidates[j].stat.modifiedAt <= candidates[i].stat.modifiedAt
      invariant forall j :: 0 <= j < i ==> candidates[j].stat.modifiedAt < candidates[i].stat.modifiedAt
    {
      if candidates[i].stat.modifiedAt < candidates[k].stat.modifiedAt {
        i := k;
      }
    }
  }

  ghost function Scanned(c: Configuration): seq<Location>
  {
    Take(c.locations, MAX_BACKUP_LOCATIONS)
  }

  /** The matching regular files among the first 1000 entries of the scannable locations. */
  ghost function Candidates(c: Configuration, matches: Matcher): seq<Entry>
  {
    Filter(IsCandidate(Take(c.patterns, MAX_BACKUP_FILENAME_PATTERNS), matches),
           Take(AllEntries(Scanned(c)), MAX_BACKUP_DIRECTORY_ENTRIES))
  }

  ghost predicate Truncated(c: Configuration)
  {
    ConfigurationTruncated(c) || MAX_BACKUP_DIRECTORY_ENTRIES < |AllEntries(Scanned(c))|
  }

  /** Every location was read to its end; single entries may still have been passed over. */
  ghost predicate FullyScanned(c: Configuration)
  {
    !Truncated(c) && forall i :: 0 <= i < |c.locations| ==> Clean(c.locations[i])
  }

  lemma {:induction false} NoWarningsMeansClean(locations: seq<Location>)
    ensures LocationWarnings(locations) == [] <==> forall i :: 0 <= i < |locations| ==> Clean(locations[i])
  {
    if locations != [] {
      var init, last := locations[..|locations| - 1], locations[|locations| - 1];
      NoWarningsMeansClean(init);
      assert (forall i :: 0 <= i < |locations| ==> Clean(locations[i]))
        <==> (forall i :: 0 <= i < |init| ==> Clean(init[i])) && Clean(last);
    }
  }

  lemma NoWarningsMeansFullyScanned(c: Configuration, matches: Matcher, candidates: seq<Entry>,
                                    warnings: seq<Warning>, truncated: bool)
    requires ScanOutcome(Scanned(c), IsCandidate(Take(c.patterns, MAX_BACKUP_FILENAME_PATTERNS), matches),
                         if ConfigurationTruncated(c) then [ScanTruncated] else [], candidates, warnings, truncated)
    ensures warnings == [] <==> FullyScanned(c)
  {
    NoWarningsMeansClean(Scanned(c));
    if !ConfigurationTruncated(c) {
      assert Scanned(c) == c.locations;
    }
  }

  /** Something is cut off when there are more than 8 locations, 20 patterns or 1000 entries. */
  lemma TruncatedMeans(c: Configuration)
    ensures Truncated(c) <==> 8 < |c.locations| || 20 < |c.patterns| || 1000 < |AllEntries(c.locations)|
  {
    if |c.locations| <= 8 {
      assert Scanned(c) == c.locations;
    }
  }

  /** Entry j of a scannable location stands behind all entries of the locations before it. */
  lemma {:induction false} EntriesInOrder(locations: seq<Location>, i: nat, j: nat)
    requires i < |locations| && Refusal(locations[i]).None? && j < |locations[i].entries|
    ensures var at := |AllEntries(locations[..i])| + j;
            at < |AllEntries(locations)| && AllEntries(locations)[at] == locations[i].entries[j]
  {
    var n := |locations| - 1;
    EntriesStep(locations, i);
    EntriesPrefix(locations, i + 1);
    hide AllEntries, Refusal;
  }

  lemma {:induction false} WarningsPrefix(locations: seq<Location>, n: nat)
    requires n <= |locations|
    ensures LocationWarnings(locations[..n]) <= LocationWarnings(locations)
    decreases |locations| - n
  {
    if n == |locations| {
      assert locations[..n] == locations;
    } else {
      EntriesStep(locations, n);
      WarningsPrefix(locations, n + 1);
    }
  }

  /** A location that is refused or cannot be read to its end has one warning, behind those of the locations
      before it; any other has none. */
  lemma WarningsInOrder(locations: seq<Location>, i: nat)
    requires i < |locations|
    ensures var at, all := |LocationWarnings(locations[..i])|, LocationWarnings(locations);
            && (Refusal(locations[i]).Some? ==> at < |all| && all[at] == Refusal(locations[i]).value)
            && (Refusal(locations[i]).None? && locations[i].scanFails ==> at < |all| && all[at] == Unreadable)
            && |LocationWarnings(locations[..i + 1])|
               == at + if Refusal(locations[i]).None? && !locations[i].scanFails then 0 else 1
  {
    EntriesStep(locations, i);
    WarningsPrefix(locations, i + 1);
    hide LocationWarnings, Refusal, Reached;
  }

  /** The first check that a location fails is what its warning says. */
  lemma RefusalNamesFirstFailure(l: Location)
    ensures Refusal(l).None? <==> l.underRoots && !l.symlink && l.openError.None? && l.resolvable
                                  && l.openedUnderRoots && l.stillSame
    ensures Refusal(l) == Some(NotAllowed) <==>
              !l.underRoots || (!l.symlink && l.openError.None? && l.resolvable && !l.openedUnderRoots)
    ensures Refusal(l) == Some(LocationSymlink) <==>
              l.underRoots && (l.symlink || l.openError == Some(TooManyLinks))
    ensures Refusal(l) == Some(LocationMissing) <==> l.underRoots && !l.symlink && l.openError == Some(FileNotFound)
    ensures Refusal(l) == Some(NotDirectory) <==> l.underRoots && !l.symlink && l.openError == Some(NotADirectory)
    ensures Refusal(l) == Some(Unreadable) <==>
              l.underRoots && !l.symlink && (l.openError == Some(OtherError) || (l.openError.None? && !l.resolvable))
    ensures Refusal(l) == Some(LocationChanged) <==>
              l.underRoots && !l.symlink && l.openError.None? && l.resolvable && l.openedUnderRoots && !l.stillSame
  {
  }

  lemma {:induction false} LocationsNeverTruncate(locations: seq<Location>)
    ensures ScanTruncated !in LocationWarnings(locations) && MtimeInFuture !in LocationWarnings(locations)
  {
    if locations != [] {
      LocationsNeverTruncate(locations[..|locations| - 1]);
    }
  }

  /** The truncation warning is given exactly when something was cut off, and then once. */
  lemma TruncationWarnedOnce(c: Configuration, wanted: Entry -> bool, candidates: seq<Entry>,
                             warnings: seq<Warning>, truncated: bool)
    requires ScanOutcome(Scanned(c), wanted, if ConfigurationTruncated(c) then [ScanTruncated] else [],
                         candidates, warnings, truncated)
    ensures multiset(warnings)[ScanTruncated] == if Truncated(c) then 1 else 0
    ensures MtimeInFuture !in warnings
    ensures Truncated(c) ==>
              warnings != []
              && warnings[if ConfigurationTruncated(c) then 0 else |warnings| - 1] == ScanTruncated
  {
    hide Take, Filter, AllEntries, LocationWarnings, StopsAt;
    var before := if ConfigurationTruncated(c) then [ScanTruncated] else [];
    if truncated {
      var n: nat :| StoppedWarnings(Scanned(c), n, before, warnings);
      LocationsNeverTruncate(Scanned(c)[..n]);
      assert ScanTruncated !in multiset(LocationWarnings(Scanned(c)[..n]));
    } else {
      LocationsNeverTruncate(Scanned(c));
      assert ScanTruncated !in multiset(LocationWarnings(Scanned(c)));
    }
  }

  lemma {:induction false} InAllEntries(locations: seq<Location>, e: Entry)
    ensures e in AllEntries(locations)
       <==> exists i :: 0 <= i < |locations| && Refusal(locations[i]).None? && e in locations[i].entries
  {
    if locations != [] {
      var init, last := locations[..|locations| - 1], locations[|locations| - 1];
      InAllEntries(init, e);
      if Refusal(last).None? && e in last.entries {
        assert locations[|locations| - 1] == last;
      }
      if e in AllEntries(init) {
        var i :| 0 <= i < |init| && Refusal(init[i]).None? && e in init[i].entries;
        assert locations[i] == init[i];
      }
    }
  }

  /** With nothing cut off, an entry is recorded exactly when it is an examinable backup in a scannable location. */
  lemma UntruncatedFindsEveryBackup(c: Configuration, matches: Matcher, e: Entry)
    requires !Truncated(c)
    ensures e in Candidates(c, matches)
       <==> && (exists p :: p in c.patterns && matches(e.name, p))
            && e.stat.regular && e.examinable
            && exists i :: 0 <= i < |c.locations| && Refusal(c.locations[i]).None? && e in c.locations[i].entries
  {
    assert Scanned(c) == c.locations && Take(c.patterns, MAX_BACKUP_FILENAME_PATTERNS) == c.patterns;
    InAllEntries(c.locations, e);
    FilterKeeps(IsCandidate(c.patterns, matches), AllEntries(c.locations));
  }

  /** Some configured location holds a backup. */
  ghost predicate HoldsBackup(c: Configuration, matches: Matcher)
  {
    exists i, e :: 0 <= i < |c.locations| && e in c.locations[i].entries && IsBackup(c.patterns, matches, e)
  }

  /** A backup that the scan passed over in silence. */
  ghost predicate HidesBackup(c: Configuration, matches: Matcher)
  {
    exists i, e :: 0 <= i < |c.locations| && e in c.locations[i].entries && IsBackup(c.patterns, matches, e)
                   && !e.examinable
  }

  /** A full scan without candidates is the status `missing`. It is right that no location holds a
      backup exactly when no matching regular file failed its examination. */
  lemma MissingIsTrueUnlessHidden(c: Configuration, matches: Matcher)
    requires FullyScanned(c) && Candidates(c, matches) == []
    ensures !HoldsBackup(c, matches) <==> !HidesBackup(c, matches)
  {
    if HoldsBackup(c, matches) {
      var i, e :| 0 <= i < |c.locations| && e in c.locations[i].entries && IsBackup(c.patterns, matches, e);
      assert Clean(c.locations[i]);
      UntruncatedFindsEveryBackup(c, matches, e);
    }
  }

  /** Where every entry can be examined, `missing` is exact. */
  lemma MissingMeansNoBackupAnywhere(c: Configuration, matches: Matcher)
    requires FullyScanned(c) && !HidesBackup(c, matches)
    ensures Candidates(c, matches) == [] <==> !HoldsBackup(c, matches)
  {
    if Candidates(c, matches) == [] {
      MissingIsTrueUnlessHidden(c, matches);
    } else {
      var e := Candidates(c, matches)[0];
      assert e in Candidates(c, matches);
      UntruncatedFindsEveryBackup(c, matches, e);
      var i :| 0 <= i < |c.locations| && Refusal(c.locations[i]).None? && e in c.locations[i].entries;
      assert IsBackup(c.patterns, matches, e);
    }
  }

  /** One directory holding one entry, as found without any obstacle. */
  function OneDirectory(e: Entry): Location
  {
    Location(true, false, None, true, true, true, [e], false)
  }

  lemma OnlyEntry(e: Entry, wanted: Entry -> bool)
    requires !wanted(e)
    ensures AllEntries([OneDirectory(e)]) == [e] && Filter(wanted, [e]) == []
  {
    assert [OneDirectory(e)][..0] == [] && [e][..0] == [];
  }

  /** A directory that may be listed but not searched: the scan is complete, records nothing and
      warns of nothing, although the backup exists. */
  lemma UnsearchableDirectoryIsMissing(e: Entry, pattern: string, matches: Matcher, maxAge: int)
    requires matches(e.name, pattern) && e.stat.regular && !e.examinable
    ensures var c := Configuration([OneDirectory(e)], [pattern], maxAge);
            FullyScanned(c) && Candidates(c, matches) == [] && HoldsBackup(c, matches)
  {
    var c := Configuration([OneDirectory(e)], [pattern], maxAge);
    OnlyEntry(e, IsCandidate([pattern], matches));
    assert pattern in c.patterns && e in c.locations[0].entries;
    assert IsBackup(c.patterns, matches, e);
    assert Scanned(c) == c.locations && Take(c.patterns, MAX_BACKUP_FILENAME_PATTERNS) == [pattern];
    hide AllEntries, Filter;
  }

  /** Freshness of the latest of some candidates. */
  ghost predicate Fresh(c: Configuration, latest: Entry, now: real)
  {
    WholeSeconds(now - latest.stat.modifiedAt) <= c.maxAgeSeconds
  }

  ghost predicate InFuture(latest: Entry, now: real)
  {
    latest.stat.modifiedAt - now > FUTURE_MTIME_TOLERANCE_SECONDS
  }

  lemma OutcomeDescribesScan(c: Configuration, matches: Matcher, candidates: seq<Entry>,
                             warnings: seq<Warning>, scanTruncated: bool)
    requires ScanOutcome(Scanned(c), IsCandidate(Take(c.patterns, MAX_BACKUP_FILENAME_PATTERNS), matches),
                         if ConfigurationTruncated(c) then [ScanTruncated] else [], candidates, warnings, scanTruncated)
    ensures candidates == Candidates(c, matches)
    ensures ConfigurationTruncated(c) || scanTruncated <==> Truncated(c)
    ensures warnings == [] <==> FullyScanned(c)
    ensures multiset(warnings)[ScanTruncated] == if Truncated(c) then 1 else 0
    ensures MtimeInFuture !in warnings
  {
    NoWarningsMeansFullyScanned(c, matches, candidates, warnings, scanTruncated);
    TruncationWarnedOnce(c, IsCandidate(Take(c.patterns, MAX_BACKUP_FILENAME_PATTERNS), matches),
                         candidates, warnings, scanTruncated);
  }

  /** Walks the configured locations and reports what the whole scan found. */
  method ScanLocations(c: Configuration, matches: Matcher)
    returns (candidates: seq<Entry>, warnings: seq<Warning>, truncated: bool)
    ensures candidates == Candidates(c, matches)
    ensures truncated <==> Truncated(c)
    ensures warnings == [] <==> FullyScanned(c)
    ensures multiset(warnings)[ScanTruncated] == if Truncated(c) then 1 else 0
    ensures MtimeInFuture !in warnings
  {
    hide FullyScanned, Truncated, Candidates, ScanOutcome, ConfigurationTruncated, Take;
    var walk := new BackupWalk();
    var patterns := Take(c.patterns, MAX_BACKUP_FILENAME_PATTERNS);
    var locations := Take(c.locations, MAX_BACKUP_LOCATIONS);
    var configurationTruncated := ConfigurationTruncated(c);
    if configurationTruncated {
      walk.AppendScanTruncatedWarning();
    }
    assert walk.warnings == if configurationTruncated then [ScanTruncated] else [];
    var scanTruncated := walk.InspectLocations(locations, patterns, matches);
    candidates, warnings, truncated := walk.candidates, walk.warnings, configurationTruncated || scanTruncated;
    OutcomeDescribesScan(c, matches, candidates, warnings, scanTruncated);
  }

  function EmptyInspection(warnings: seq<Warning>, truncated: bool): Inspection
  {
    Inspection(if warnings != [] then Unavailable else Missing, None, None, 0, !truncated, warnings)
  }

  function CandidateInspection(c: Configuration, latest: Entry, count: nat, now: real, truncated: bool,
                               warnings: seq<Warning>): Inspection
  {
    var age := WholeSeconds(now - latest.stat.modifiedAt);
    var future := latest.stat.modifiedAt - now > FUTURE_MTIME_TOLERANCE_SECONDS;
    Inspection(if truncated || future then Unavailable else if age > c.maxAgeSeconds then Stale else Current,
               Some(latest), Some(age), count, !truncated,
               if future then warnings + [MtimeInFuture] else warnings)
  }

  /** Status and age, read off the difference of two times. */
  ghost predicate DescribesAge(c: Configuration, now: real, modifiedAt: real, complete: bool, r: Inspection)
  {
    var age := now - modifiedAt;
    && (r.status.Current? <==> complete && -300.0 <= age && 0 <= c.maxAgeSeconds && age < c.maxAgeSeconds as real + 1.0)
    && (r.status.Stale? <==>
          complete && -300.0 <= age && (c.maxAgeSeconds < 0 || c.maxAgeSeconds as real + 1.0 <= age))
    && (MtimeInFuture in r.warnings <==> age < -300.0)
    && (age < -300.0 ==> r.warnings[|r.warnings| - 1] == MtimeInFuture)
    && r.ageSeconds.Some? && (if age <= 0.0 then r.ageSeconds.value == 0
                              else r.ageSeconds.value as real <= age < r.ageSeconds.value as real + 1.0)
  }

  method Inspect(c: Configuration, matches: Matcher, now: real) returns (r: Inspection)
    ensures r.backupCount == |Candidates(c, matches)|
    ensures r.scanComplete <==> !Truncated(c)
    ensures r.latest.None? <==> Candidates(c, matches) == []
    ensures r.latest.Some? ==>
              exists i: nat :: IsLatest(Candidates(c, matches), i) && r.latest.value == Candidates(c, matches)[i]
    ensures r.status.Missing? <==> FullyScanned(c) && Candidates(c, matches) == []
    ensures r.status.Current? <==>
              r.latest.Some? && !Truncated(c) && !InFuture(r.latest.value, now) && Fresh(c, r.latest.value, now)
    ensures r.status.Stale? <==>
              r.latest.Some? && !Truncated(c) && !InFuture(r.latest.value, now) && !Fresh(c, r.latest.value, now)
    ensures r.warnings == [] <==> FullyScanned(c) && (r.latest.Some? ==> !InFuture(r.latest.value, now))
    ensures multiset(r.warnings)[ScanTruncated] == if Truncated(c) then 1 else 0
    ensures r.latest.Some? ==> DescribesAge(c, now, r.latest.value.stat.modifiedAt, !Truncated(c), r)
    ensures r.ageSeconds.Some? <==> r.latest.Some?
  {
    var candidates, warnings, truncated := ScanLocations(c, matches);
    hide Candidates, Truncated, FullyScanned;
    if candidates == [] {
      return EmptyInspection(warnings, truncated);
    }
    var i := LatestCandidate(candidates);
    r := CandidateInspection(c, candidates[i], |candidates|, now, truncated, warnings);
    assert IsLatest(Candidates(c, matches), i);
  }
}
