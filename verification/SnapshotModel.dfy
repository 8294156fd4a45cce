/** Workflow snapshots on disk and in the database, and the steps of one collection run on them. */
module SnapshotModel {
  import opened Options
  import opened Filtering

  /** A path component; a stamp is one UTC second written as an archive name, one name per second. */
  datatype Component = Name(name: string) | Stamp(second: int)

  type Path = seq<Component>

  /** Instants in microseconds; archive names keep whole seconds only. */
  const MICROSECONDS := 1_000_000

  function SecondOf(instant: int): int
  {
    instant / MICROSECONDS
  }

  function LatestDir(project: string): Path
  {
    [Name("workflow"), Name(project), Name("latest")]
  }

  function ArchiveRoot(project: string): Path
  {
    [Name("workflow"), Name(project), Name("archive")]
  }

  function ArchiveDir(project: string, second: int): Path
  {
    ArchiveRoot(project) + [Stamp(second)]
  }

  function ArchivedSnapshotDir(dir: Path, archiveName: Component): Path
  {
    if dir == [] || dir[|dir| - 1] != Name("latest") then dir
    else dir[..|dir| - 1] + [Name("archive"), archiveName]
  }

  /** Rewrites the first `latest` component, wherever it stands. */
  function ArchivedSourceFile(file: Path, archiveName: Component): Path
  {
    if file == [] then []
    else if file[0] == Name("latest") then [Name("archive"), archiveName] + file[1..]
    else [file[0]] + ArchivedSourceFile(file[1..], archiveName)
  }

  type Content = string

  datatype Directory = Directory(files: map<string, Content>, modifiedAt: int)

  /** One database row; `files` holds the stored file of each of its sources, if it has one. */
  datatype Row = Row(
    project: string, collectedAt: int, snapshotDir: Path, archiveName: Option<Component>,
    isLatest: bool, files: seq<Option<Path>>, resolvedKeys: seq<string>)

  /** Everything persisted: directories, archive roots and rows. */
  datatype Store = Store(
    dirs: map<Path, Directory>, archiveRoots: set<string>, rows: map<nat, Row>, nextId: nat)

  const EMPTY := Store(map[], {}, map[], 0)

  /** A second lasts a million microseconds, so instants share an archive name only within one. */
  lemma SecondHoldsInstant(instant: int)
    ensures SecondOf(instant) * 1_000_000 <= instant < (SecondOf(instant) + 1) * 1_000_000
  {
  }

  // ----- What a run collects -----

  /** How one source turned out; a failed transfer may leave part of a file behind. */
  datatype SourceOutcome =
    | Collected(key: string, content: Content)
    | Failed(key: string, partial: Option<Content>)

  /** What one workflow run of a project brings along. */
  datatype Run = Run(
    project: string, collectedAt: int, cutoff: int, modifiedAt: int,
    sources: seq<SourceOutcome>, sourceKeys: seq<string>, diagnostics: Content)

  const DIAGNOSTICS_FILE := "collection_diagnostics.json"
  const DIAGNOSTICS_KEY := "__collection_diagnostics"

  function LogFile(key: string): string
  {
    key + ".log"
  }

  /** What collecting one source writes. */
  function WithSource(files: map<string, Content>, s: SourceOutcome): map<string, Content>
  {
    match s
    case Collected(key, content) => files[LogFile(key) := content]
    case Failed(key, Some(partial)) => files[LogFile(key) := partial]
    case Failed(_, None) => files
  }

  function SourceFiles(sources: seq<SourceOutcome>): map<string, Content>
  {
    if sources == [] then map[] else WithSource(SourceFiles(sources[..|sources| - 1]), sources[|sources| - 1])
  }

  predicate AnyFailed(sources: seq<SourceOutcome>)
  {
    exists s :: s in sources && s.Failed?
  }

  /** All files of a run; the diagnostics file appears exactly when some source failed. */
  function RunFiles(run: Run): map<string, Content>
  {
    if AnyFailed(run.sources) then SourceFiles(run.sources)[DIAGNOSTICS_FILE := run.diagnostics]
    else SourceFiles(run.sources)
  }

  /** One collection result: a key and the file it persisted, if it did. */
  datatype Result = Result(key: string, file: Option<string>)

  function ResultOf(s: SourceOutcome): Result
  {
    match s
    case Collected(key, _) => Result(key, Some(LogFile(key)))
    case Failed(key, _) => Result(key, None)
  }

  function Results(run: Run): seq<Result>
  {
    var collected := seq(|run.sources|, i requires 0 <= i < |run.sources| => ResultOf(run.sources[i]));
    if AnyFailed(run.sources) then collected + [Result(DIAGNOSTICS_KEY, Some(DIAGNOSTICS_FILE))] else collected
  }

  function StoredFile(project: string, r: Result): Option<Path>
  {
    if r.file.None? then None else Some(LatestDir(project) + [Name(r.file.value)])
  }

  function StoredFiles(run: Run): seq<Option<Path>>
  {
    var results := Results(run);
    seq(|results|, i requires 0 <= i < |results| => StoredFile(run.project, results[i]))
  }

  function IsResolved(run: Run): string -> bool
  {
    (key: string) => exists r :: r in Results(run) && r.key == key && r.file.Some?
  }

  function ResolvedKeys(run: Run): seq<string>
  {
    Filter(IsResolved(run), run.sourceKeys)
  }

  lemma {:induction false} CollectedIsWritten(sources: seq<SourceOutcome>, s: SourceOutcome)
    requires s in sources && s.Collected?
    ensures LogFile(s.key) in SourceFiles(sources)
  {
    var init, last := sources[..|sources| - 1], sources[|sources| - 1];
    if s in init {
      CollectedIsWritten(init, s);
    }
  }

  /** Every file a result names was written by the run. */
  lemma ResultsAreWritten(run: Run)
    ensures forall r :: r in Results(run) && r.file.Some? ==> r.file.value in RunFiles(run)
  {
    forall r | r in Results(run) && r.file.Some? ensures r.file.value in RunFiles(run) {
      if r != Result(DIAGNOSTICS_KEY, Some(DIAGNOSTICS_FILE)) || !AnyFailed(run.sources) {
        var i :| 0 <= i < |run.sources| && r == ResultOf(run.sources[i]);
        CollectedIsWritten(run.sources, run.sources[i]);
      }
    }
  }

  // ----- What a run leaves of each source -----

  /** No two sources share a key. */
  lemma NoSources()
    ensures SourceFiles([]) == map[]
  {
  }

  lemma SourceStep(sources: seq<SourceOutcome>, i: nat)
    requires i < |sources|
    ensures SourceFiles(sources[..i + 1]) == WithSource(SourceFiles(sources[..i]), sources[i])
    ensures AnyFailed(sources[..i + 1]) <==> AnyFailed(sources[..i]) || sources[i].Failed?
  {
    var longer := sources[..i + 1];
    assert longer[..i] == sources[..i];
    assert longer == sources[..i] + [sources[i]];
  }

  predicate DistinctSources(sources: seq<SourceOutcome>)
  {
    forall i, j :: 0 <= i < j < |sources| ==> sources[i].key != sources[j].key
  }

  lemma LogFilesDiffer(a: string, b: string)
    ensures LogFile(a) == LogFile(b) <==> a == b
    ensures LogFile(a) != DIAGNOSTICS_FILE
  {
    assert LogFile(a)[|LogFile(a)| - 1] == 'g' && DIAGNOSTICS_FILE[|DIAGNOSTICS_FILE| - 1] == 'n';
    assert LogFile(a)[..|a|] == a && LogFile(b)[..|b|] == b;
  }

  /** What a source leaves under its name: its content, the part written before a failure, or nothing. */
  function LeftBy(s: SourceOutcome): Option<Content>
  {
    match s case Collected(_, content) => Some(content) case Failed(_, partial) => partial
  }

  predicate IsLogOf(sources: seq<SourceOutcome>, file: string)
  {
    exists i :: 0 <= i < |sources| && file == sources[i].key + ".log" && LeftBy(sources[i]).Some?
  }

  lemma {:induction false} OnlyLogs(sources: seq<SourceOutcome>, file: string)
    requires file in SourceFiles(sources)
    ensures IsLogOf(sources, file)
  {
    var n := |sources| - 1;
    var last := sources[n];
    if file in SourceFiles(sources[..n]) {
      OnlyLogs(sources[..n], file);
      var i :| 0 <= i < n && file == sources[..n][i].key + ".log" && LeftBy(sources[..n][i]).Some?;
      assert sources[i] == sources[..n][i];
    } else {
      assert file == LogFile(last.key) && LeftBy(last).Some?;
    }
  }

  lemma {:induction false} SourceFilesKeep(sources: seq<SourceOutcome>, i: nat)
    requires DistinctSources(sources) && i < |sources|
    ensures LogFile(sources[i].key) in SourceFiles(sources) <==> LeftBy(sources[i]).Some?
    ensures LeftBy(sources[i]).Some? ==> SourceFiles(sources)[LogFile(sources[i].key)] == LeftBy(sources[i]).value
  {
    var n := |sources| - 1;
    var init := sources[..n];
    if i < n {
      SourceFilesKeep(init, i);
      LogFilesDiffer(sources[i].key, sources[n].key);
      hide LogFile;
    } else if LogFile(sources[n].key) in SourceFiles(init) {
      OnlyLogs(init, LogFile(sources[n].key));
      var j :| 0 <= j < n && LogFile(sources[n].key) == init[j].key + ".log";
      LogFilesDiffer(init[j].key, sources[n].key);
    }
  }

  /** Each collected source has a file of its own, named after its key, with exactly its own content;
      its result names that file, and no other result does. A failed source's result names none; what it
      wrote before failing stays on disk. */
  ghost predicate KeepsSource(run: Run, results: seq<Result>, files: map<string, Content>, i: nat)
    requires i < |run.sources|
  {
    && i < |results| && results[i].key == run.sources[i].key
    && match run.sources[i]
       case Failed(key, partial) =>
         && results[i].file == None
         && (key + ".log" in files <==> partial.Some?)
         && (partial.Some? ==> files[key + ".log"] == partial.value)
       case Collected(key, content) =>
         && results[i].file == Some(key + ".log")
         && key + ".log" in files && files[key + ".log"] == content
         && forall j :: 0 <= j < |results| && j != i ==> results[j].file != Some(key + ".log")
  }

  /** For distinct sources every one of them is kept so, and a failure adds one result: the diagnostics. */
  lemma RunKeepsSources(run: Run)
    requires DistinctSources(run.sources)
    ensures forall i :: 0 <= i < |run.sources| ==> KeepsSource(run, Results(run), RunFiles(run), i)
    ensures |Results(run)| == |run.sources| + if exists s :: s in run.sources && s.Failed? then 1 else 0
    ensures (exists s :: s in run.sources && s.Failed?) ==>
              && Results(run)[|run.sources|].file == Some("collection_diagnostics.json")
              && "collection_diagnostics.json" in RunFiles(run)
              && RunFiles(run)["collection_diagnostics.json"] == run.diagnostics
  {
    forall i | 0 <= i < |run.sources| ensures KeepsSource(run, Results(run), RunFiles(run), i) {
      SourceFilesKeep(run.sources, i);
      LogFilesDiffer(run.sources[i].key, "");
      if run.sources[i].Collected? {
        forall j | 0 <= j < |Results(run)| && j != i ensures Results(run)[j].file != Some(LogFile(run.sources[i].key)) {
          LogFilesDiffer(run.sources[i].key, if j < |run.sources| then run.sources[j].key else "");
        }
      }
    }
  }

  /** Every file of a run is the log of a source that left one, or the diagnostics of a run with a failure. */
  lemma RunWritesNothingElse(run: Run, file: string)
    requires file in RunFiles(run)
    ensures IsLogOf(run.sources, file)
         || (file == "collection_diagnostics.json" && exists s :: s in run.sources && s.Failed?)
  {
    if file in SourceFiles(run.sources) {
      OnlyLogs(run.sources, file);
    }
  }

  /** Of two collected sources with one key only the second keeps its content. */
  lemma RepeatedKeyLosesLog(key: string, a: Content, b: Content)
    ensures SourceFiles([Collected(key, a), Collected(key, b)]) == map[key + ".log" := b]
  {
    var sources := [Collected(key, a), Collected(key, b)];
    assert sources[..1] == [Collected(key, a)] && sources[..1][..0] == [];
    assert SourceFiles(sources[..1]) == map[key + ".log" := a];
  }

  /** The resolved keys are the requested ones under which some result has a file, in request order. */
  lemma ResolvedKeysAre(run: Run)
    ensures forall k :: k in ResolvedKeys(run)
              <==> k in run.sourceKeys && exists r :: r in Results(run) && r.key == k && r.file.Some?
    ensures |ResolvedKeys(run)| <= |run.sourceKeys|
  {
    FilterKeeps(IsResolved(run), run.sourceKeys);
    FilterShortens(IsResolved(run), run.sourceKeys);
  }

  // ----- The steps of a run, as functions and relations on the store -----

  predicate IsLatestRow(s: Store, project: string, id: nat)
  {
    id in s.rows && s.rows[id].project == project && s.rows[id].isLatest
  }

  function ArchiveNameOf(row: Row): Component
  {
    Stamp(SecondOf(row.collectedAt))
  }

  function ArchivedFiles(files: seq<Option<Path>>, archiveName: Component): seq<Option<Path>>
  {
    seq(|files|, i requires 0 <= i < |files| =>
      if files[i].None? then None else Some(ArchivedSourceFile(files[i].value, archiveName)))
  }

  function ArchivedRow(row: Row): Row
  {
    row.(isLatest := false, archiveName := Some(ArchiveNameOf(row)),
         snapshotDir := ArchivedSnapshotDir(row.snapshotDir, ArchiveNameOf(row)),
         files := ArchivedFiles(row.files, ArchiveNameOf(row)))
  }

  /** An existing target directory is deleted before the current one moves there. */
  function Archived(s: Store, id: nat): Store
    requires id in s.rows
  {
    var row := s.rows[id];
    var target := ArchivedRow(row).snapshotDir;
    var cleared := s.dirs - {target};
    var moved := row.snapshotDir in cleared;
    s.(dirs := if moved then (cleared - {row.snapshotDir})[target := cleared[row.snapshotDir]] else cleared,
       archiveRoots := if moved then s.archiveRoots + {row.project} else s.archiveRoots,
       rows := s.rows[id := ArchivedRow(row)])
  }

  /** Some latest row of the project is archived, if there is one. */
  ghost predicate ArchivesTo(s: Store, project: string, t: Store)
  {
    if exists id :: IsLatestRow(s, project, id) then
      exists id :: IsLatestRow(s, project, id) && t == Archived(s, id)
    else
      t == s
  }

  predicate IsArchiveDir(dir: Path, project: string)
  {
    |dir| == 4 && dir[..3] == ArchiveRoot(project)
  }

  function Expired(s: Store, project: string, cutoff: int): set<Path>
  {
    set d | d in s.dirs && IsArchiveDir(d, project) && s.dirs[d].modifiedAt < cutoff
  }

  predicate IsArchivedAs(s: Store, project: string, n: Component, id: nat)
  {
    id in s.rows && s.rows[id].project == project && s.rows[id].archiveName == Some(n) && !s.rows[id].isLatest
  }

  type Lookup = map<Component, nat>

  /** A lookup of the project's archived rows by name; of rows that share a name it knows one. */
  ghost predicate IsLookup(s: Store, project: string, byName: Lookup)
  {
    && (forall n :: n in byName ==> IsArchivedAs(s, project, n, byName[n]))
    && (forall n, id :: IsArchivedAs(s, project, n, id) ==> n in byName)
  }

  /** The rows that the lookup has for these directories. */
  function RowsOf(byName: Lookup, dirs: set<Path>): set<nat>
  {
    set d | d in dirs && d != [] && d[|d| - 1] in byName :: byName[d[|d| - 1]]
  }

  function WithoutDirs(s: Store, gone: set<Path>, byName: Lookup): Store
  {
    s.(dirs := s.dirs - gone, rows := s.rows - RowsOf(byName, gone))
  }

  /** Expired archive directories go, each with the row that the lookup has for it. */
  ghost predicate PrunesTo(s: Store, project: string, cutoff: int, t: Store)
  {
    if project in s.archiveRoots then
      exists byName: Lookup ::
        IsLookup(s, project, byName) && t == WithoutDirs(s, Expired(s, project, cutoff), byName)
    else
      t == s
  }

  function Created(s: Store, run: Run): Store
  {
    var row := Row(run.project, run.collectedAt, LatestDir(run.project), None, true, [], []);
    s.(rows := s.rows[s.nextId := row], nextId := s.nextId + 1)
  }

  function Prepared(s: Store, run: Run): Store
  {
    s.(dirs := s.dirs[LatestDir(run.project) := Directory(map[], run.modifiedAt)],
       archiveRoots := s.archiveRoots + {run.project})
  }

  function CollectedInto(s: Store, run: Run): Store
  {
    s.(dirs := s.dirs[LatestDir(run.project) := Directory(RunFiles(run), run.modifiedAt)])
  }

  function Saved(s: Store, id: nat, run: Run): Store
    requires id in s.rows
  {
    s.(rows := s.rows[id := s.rows[id].(files := StoredFiles(run), resolvedKeys := ResolvedKeys(run))])
  }

  /** Everything after pruning. */
  function Filled(s: Store, run: Run): Store
  {
    Saved(CollectedInto(Prepared(Created(s, run), run), run), s.nextId, run)
  }

  /** One completed workflow run. */
  ghost predicate RunsTo(s: Store, run: Run, t: Store)
  {
    exists a, p :: ArchivesTo(s, run.project, a) && PrunesTo(a, run.project, run.cutoff, p) && t == Filled(p, run)
  }
}
