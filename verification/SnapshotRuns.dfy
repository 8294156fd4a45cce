/** Sequences of completed runs over any projects, from an empty store. */
module SnapshotRuns {
  import opened Options
  import opened SnapshotModel
  import opened SnapshotLifecycle

  /** The stores between the three phases of a run. */
  lemma RunParts(s: Store, run: Run, t: Store) returns (a: Store, p: Store)
    requires RunsTo(s, run, t)
    ensures ArchivesTo(s, run.project, a) && PrunesTo(a, run.project, run.cutoff, p) && t == Filled(p, run)
  {
    a, p :| ArchivesTo(s, run.project, a) && PrunesTo(a, run.project, run.cutoff, p) && t == Filled(p, run);
  }

  // ----- Other projects -----

  /** A directory outside the snapshots of one project. */
  predicate OutsideProject(dir: Path, project: string)
  {
    |dir| < 3 || dir[1] != Name(project)
  }

  lemma InsideProject(project: string, dir: Path)
    requires dir == LatestDir(project) || IsArchiveDir(dir, project)
    ensures !OutsideProject(dir, project)
  {
    assert IsArchiveDir(dir, project) ==> dir[..3][1] == dir[1];
  }

  /** Row k, of another project, and its directory are in t as they are in s. */
  ghost predicate Kept(s: Store, t: Store, project: string, k: nat)
  {
    && k in s.rows && k < s.nextId && s.rows[k].project != project
    && OutsideProject(s.rows[k].snapshotDir, project) && s.rows[k].snapshotDir in s.dirs
    && s.nextId <= t.nextId
    && k in t.rows && t.rows[k] == s.rows[k]
    && s.rows[k].snapshotDir in t.dirs && t.dirs[s.rows[k].snapshotDir] == s.dirs[s.rows[k].snapshotDir]
  }

  lemma ArchiveKeepsOthers(s: Store, id: nat, k: nat)
    requires id in s.rows && RowPlaced(s.rows[id]) && s.rows[id].isLatest
    requires Kept(s, s, s.rows[id].project, k)
    ensures Kept(s, Archived(s, id), s.rows[id].project, k)
  {
    var row := s.rows[id];
    ArchivedRowPlaced(row);
    InsideProject(row.project, LatestDir(row.project));
    assert ArchiveDir(row.project, SecondOf(row.collectedAt))[..3] == ArchiveRoot(row.project);
    InsideProject(row.project, ArchivedRow(row).snapshotDir);
    hide ArchivedRow, OutsideProject, LatestDir;
  }

  lemma PruneKeepsOthers(s: Store, project: string, cutoff: int, p: Store, k: nat)
    requires PrunesTo(s, project, cutoff, p) && Kept(s, s, project, k)
    ensures Kept(s, p, project, k)
  {
    var dir := s.rows[k].snapshotDir;
    assert !IsArchiveDir(dir, project) by {
      if IsArchiveDir(dir, project) {
        InsideProject(project, dir);
      }
    }
    hide IsArchiveDir, OutsideProject;
  }

  lemma FillKeepsOthers(s: Store, run: Run, k: nat)
    requires Kept(s, s, run.project, k)
    ensures Kept(s, Filled(s, run), run.project, k)
  {
    FilledAdds(s, run);
    assert s.rows[k].snapshotDir != LatestDir(run.project) by {
      InsideProject(run.project, LatestDir(run.project));
    }
    hide Filled, LatestDir, OutsideProject, RunFiles, StoredFiles, ResolvedKeys;
  }

  lemma KeptTransitive(s: Store, t: Store, u: Store, project: string, k: nat)
    requires Kept(s, t, project, k)
    ensures Kept(t, t, project, k)
    ensures Kept(t, u, project, k) ==> Kept(s, u, project, k)
  {
  }

  lemma RowOutsideProject(row: Row, project: string)
    requires RowPlaced(row) && row.project != project
    ensures OutsideProject(row.snapshotDir, project)
  {
  }

  lemma KeptAtFirst(s: Store, written: Written, project: string, k: nat)
    requires InStep(s, written) && k in s.rows && s.rows[k].project != project
    ensures Kept(s, s, project, k)
  {
    assert RowPlaced(s.rows[k]);
    RowOutsideProject(s.rows[k], project);
  }

  lemma LatestIsPlaced(s: Store, written: Written, id: nat)
    requires InStep(s, written) && id in s.rows
    ensures RowPlaced(s.rows[id])
  {
  }

  lemma ArchivingKeepsOthers(s: Store, written: Written, project: string, a: Store, k: nat)
    requires InStep(s, written) && ArchivesTo(s, project, a) && Kept(s, s, project, k)
    ensures Kept(s, a, project, k)
  {
    hide InStep, Archived, RowPlaced, Kept;
    if exists id :: IsLatestRow(s, project, id) {
      var id :| IsLatestRow(s, project, id) && a == Archived(s, id);
      LatestIsPlaced(s, written, id);
      ArchiveKeepsOthers(s, id, k);
    }
  }

  /** A run of one project, safe or not, leaves every other project's rows and directories as they were. */
  lemma OtherProjectsUntouched(s: Store, written: Written, run: Run, t: Store, k: nat)
    requires InStep(s, written) && RunsTo(s, run, t)
    requires k in s.rows && s.rows[k].project != run.project
    ensures k in t.rows && t.rows[k] == s.rows[k]
    ensures s.rows[k].snapshotDir in t.dirs && t.dirs[s.rows[k].snapshotDir] == s.dirs[s.rows[k].snapshotDir]
  {
    hide RunsTo, ArchivesTo, PrunesTo, Filled, InStep;
    var a, p := RunParts(s, run, t);
    KeptAtFirst(s, written, run.project, k);
    ArchivingKeepsOthers(s, written, run.project, a, k);
    KeptTransitive(s, a, p, run.project, k);
    PruneKeepsOthers(a, run.project, run.cutoff, p, k);
    KeptTransitive(s, p, t, run.project, k);
    FillKeepsOthers(p, run, k);
  }

  // ----- Every sequence of runs -----

  ghost predicate Trace(runs: seq<Run>, stores: seq<Store>)
  {
    && |stores| == |runs| + 1 && stores[0] == EMPTY
    && forall i :: 0 <= i < |runs| ==> RunsTo(stores[i], runs[i], stores[i + 1])
  }

  function WrittenBy(runs: seq<Run>): Written
  {
    map i: nat | i < |runs| :: RunFiles(runs[i])
  }

  /** The store is consistent after each of the first n runs. */
  ghost predicate ConsistentUpTo(runs: seq<Run>, stores: seq<Store>, n: nat)
    requires n <= |runs| < |stores|
  {
    forall m :: 0 <= m <= n ==> Consistent(stores[m], WrittenBy(runs[..m]))
  }

  ghost predicate SafeUpTo(runs: seq<Run>, stores: seq<Store>, n: nat)
    requires n <= |runs| < |stores|
  {
    forall i :: 0 <= i < n ==> RunSafe(stores[i], runs[i])
  }

  lemma {:induction false} IdsNumberRuns(runs: seq<Run>, stores: seq<Store>, n: nat)
    requires Trace(runs, stores) && n <= |runs|
    ensures stores[n].nextId == n
  {
    hide RunsTo;
    if n != 0 {
      IdsNumberRuns(runs, stores, n - 1);
      assert RunsTo(stores[n - 1], runs[n - 1], stores[n - 1 + 1]);
      RunNumbersRow(stores[n - 1], runs[n - 1], stores[n]);
    }
  }

  lemma RunNumbersRow(s: Store, run: Run, t: Store)
    requires RunsTo(s, run, t)
    ensures t.nextId == s.nextId + 1
  {
    var a, p := RunParts(s, run, t);
    PruneKeepsIds(a, run.project, run.cutoff, p);
    FilledAdds(p, run);
  }

  lemma WrittenStep(runs: seq<Run>, n: nat)
    requires n < |runs|
    ensures WrittenBy(runs[..n + 1]) == WrittenBy(runs[..n])[n := RunFiles(runs[n])]
  {
    hide RunFiles;
  }

  lemma NothingWritten(runs: seq<Run>)
    ensures Consistent(EMPTY, WrittenBy(runs[..0]))
  {
  }

  /** For any sequence of runs over any projects: the store stays consistent exactly as long as every
      run is safe. */
  lemma {:induction false} RunsStayConsistentExactly(runs: seq<Run>, stores: seq<Store>, n: nat)
    requires Trace(runs, stores) && n <= |runs|
    ensures ConsistentUpTo(runs, stores, n) <==> SafeUpTo(runs, stores, n)
  {
    hide Consistent, RunsTo, RunSafe;
    if n == 0 {
      NothingWritten(runs);
    } else {
      RunsStayConsistentExactly(runs, stores, n - 1);
      var s, run, t := stores[n - 1], runs[n - 1], stores[n - 1 + 1];
      assert RunsTo(s, run, t);
      IdsNumberRuns(runs, stores, n - 1);
      WrittenStep(runs, n - 1);
      if ConsistentUpTo(runs, stores, n - 1) {
        assert Consistent(s, WrittenBy(runs[..n - 1]));
        CompletedRunIsConsistent(s, WrittenBy(runs[..n - 1]), run, t);
      }
    }
  }

  // ----- When runs are safe -----

  /** Row ids number the runs, so a row remembers which run collected it. */
  ghost predicate RowsComeFrom(s: Store, runs: seq<Run>)
  {
    forall id :: id in s.rows ==>
      id < |runs| && s.rows[id].project == runs[id].project && s.rows[id].collectedAt == runs[id].collectedAt
  }

  lemma ArchivedKeepsHistory(s: Store, id: nat, runs: seq<Run>)
    requires RowsComeFrom(s, runs) && id in s.rows
    ensures RowsComeFrom(Archived(s, id), runs) && Archived(s, id).nextId == s.nextId
  {
    ArchivedRows(s, id);
    ArchivedKeepsNextId(s, id);
    hide Archived, ArchivedSnapshotDir, ArchivedFiles;
  }

  lemma ArchiveKeepsHistory(s: Store, project: string, a: Store, runs: seq<Run>)
    requires RowsComeFrom(s, runs) && ArchivesTo(s, project, a)
    ensures RowsComeFrom(a, runs) && a.nextId == s.nextId
  {
    hide Archived, RowsComeFrom;
    if exists id :: IsLatestRow(s, project, id) {
      var id :| IsLatestRow(s, project, id) && a == Archived(s, id);
      ArchivedKeepsHistory(s, id, runs);
    }
  }

  lemma PruneKeepsHistory(s: Store, project: string, cutoff: int, p: Store, runs: seq<Run>)
    requires RowsComeFrom(s, runs) && PrunesTo(s, project, cutoff, p)
    ensures RowsComeFrom(p, runs) && p.nextId == s.nextId
  {
    hide RowsOf, Expired, IsLookup;
  }

  lemma FillExtendsHistory(p: Store, runs: seq<Run>, run: Run)
    requires RowsComeFrom(p, runs) && p.nextId == |runs|
    ensures RowsComeFrom(Filled(p, run), runs + [run])
  {
    FilledAdds(p, run);
    hide Filled, RunFiles, StoredFiles, ResolvedKeys;
    var t := Filled(p, run);
    forall id | id in t.rows
      ensures id < |runs + [run]| && t.rows[id].project == (runs + [run])[id].project
              && t.rows[id].collectedAt == (runs + [run])[id].collectedAt
    {
      assert id == p.nextId || t.rows[id] == p.rows[id];
    }
  }

  lemma RunExtendsHistory(s: Store, runs: seq<Run>, run: Run, t: Store)
    requires RowsComeFrom(s, runs) && s.nextId == |runs| && RunsTo(s, run, t)
    ensures RowsComeFrom(t, runs + [run])
  {
    var a, p := RunParts(s, run, t);
    hide RowsComeFrom, ArchivesTo, PrunesTo, Filled;
    ArchiveKeepsHistory(s, run.project, a, runs);
    PruneKeepsHistory(a, run.project, run.cutoff, p, runs);
    FillExtendsHistory(p, runs, run);
  }

  lemma {:induction false} TraceHistory(runs: seq<Run>, stores: seq<Store>, n: nat)
    requires Trace(runs, stores) && n <= |runs|
    ensures RowsComeFrom(stores[n], runs[..n])
  {
    hide RunsTo, RowsComeFrom;
    if n == 0 {
      EmptyHistory(runs);
    } else {
      TraceHistory(runs, stores, n - 1);
      IdsNumberRuns(runs, stores, n - 1);
      assert RunsTo(stores[n - 1], runs[n - 1], stores[n - 1 + 1]);
      RunExtendsHistory(stores[n - 1], runs[..n - 1], runs[n - 1], stores[n]);
      assert runs[..n - 1] + [runs[n - 1]] == runs[..n];
    }
  }

  lemma EmptyHistory(runs: seq<Run>)
    ensures RowsComeFrom(EMPTY, runs[..0])
  {
  }

  /** Collections of one project differ at whole-second precision. */
  ghost predicate DistinctSeconds(runs: seq<Run>)
  {
    forall i, j :: 0 <= i < j < |runs| && runs[i].project == runs[j].project ==>
      SecondOf(runs[i].collectedAt) != SecondOf(runs[j].collectedAt)
  }

  lemma DistinctSecondsAreSafe(s: Store, written: Written, runs: seq<Run>, run: Run)
    requires InStep(s, written) && RowsComeFrom(s, runs)
    requires DistinctSeconds(runs) && run.project != "latest"
    ensures RunSafe(s, run)
  {
    forall id: nat | IsLatestRow(s, run.project, id) ensures ArchiveRepairable(s, id, run.cutoff) {
      if !ArchiveDirFree(s, id) {
        var k := TakenBy(s, written, id);
        assert false;
      }
    }
  }

  lemma {:induction false} DistinctRunsAreSafe(runs: seq<Run>, stores: seq<Store>, n: nat)
    requires Trace(runs, stores) && n <= |runs| && DistinctSeconds(runs)
    requires forall i :: 0 <= i < |runs| ==> runs[i].project != "latest"
    ensures SafeUpTo(runs, stores, n)
  {
    hide RunsTo, RunSafe, Consistent, RowsComeFrom;
    if n != 0 {
      DistinctRunsAreSafe(runs, stores, n - 1);
      RunsStayConsistentExactly(runs, stores, n - 1);
      TraceHistory(runs, stores, n - 1);
      ConsistentIsInStep(stores[n - 1], WrittenBy(runs[..n - 1]));
      DistinctSecondsAreSafe(stores[n - 1], WrittenBy(runs[..n - 1]), runs[..n - 1], runs[n - 1]);
    }
  }

  lemma ConsistentIsInStep(s: Store, written: Written)
    requires Consistent(s, written)
    ensures InStep(s, written)
  {
  }

  /** So the store is consistent after every run, if collections of one project differ in their
      second and no project is named `latest`. */
  lemma EveryCompletedRunIsConsistent(runs: seq<Run>, stores: seq<Store>, n: nat)
    requires Trace(runs, stores) && n <= |runs| && DistinctSeconds(runs)
    requires forall i :: 0 <= i < |runs| ==> runs[i].project != "latest"
    ensures Consistent(stores[n], WrittenBy(runs[..n])) && RowsComeFrom(stores[n], runs[..n])
  {
    hide Consistent, RowsComeFrom, RunSafe, RunsTo;
    DistinctRunsAreSafe(runs, stores, n);
    RunsStayConsistentExactly(runs, stores, n);
    TraceHistory(runs, stores, n);
  }

  // ----- Unsafe stores are reachable -----

  lemma FirstRunResult(run: Run, t: Store)
    requires RunsTo(EMPTY, run, t)
    ensures t == Filled(EMPTY, run) && IsLatestRow(t, run.project, 0) && t.rows == map[0 := NewRow(run)]
    ensures t.dirs == map[LatestDir(run.project) := Directory(RunFiles(run), run.modifiedAt)]
  {
    var a, p := RunParts(EMPTY, run, t);
    assert a == EMPTY && p == EMPTY;
    FilledAdds(EMPTY, run);
    hide Filled, RunFiles, StoredFiles, ResolvedKeys, LatestDir;
    assert t.rows[0] == NewRow(run);
  }

  /** A single run of a project named `latest` that stored a file leaves a store whose next run is
      unsafe, unless the cutoff has passed the files by then. */
  lemma ProjectLatestIsUnsafe(run: Run, next: Run, t: Store)
    requires RunsTo(EMPTY, run, t) && run.project == next.project == "latest"
    requires HasFiles(NewRow(run)) && next.cutoff <= run.modifiedAt
    ensures Consistent(t, map[0 := RunFiles(run)]) && !RunSafe(t, next)
  {
    FirstRunResult(run, t);
    hide StoredFiles, RunFiles, Filled;
    FirstRunSafe(run, t);
    assert !ArchiveRepairable(t, 0, next.cutoff);
  }

  lemma FirstRunSafe(run: Run, t: Store)
    requires RunsTo(EMPTY, run, t)
    ensures Consistent(t, map[0 := RunFiles(run)])
  {
    NothingWritten([]);
    assert WrittenBy([][..0]) == map[];
    hide RunsTo, Consistent, RunFiles;
    assert RunSafe(EMPTY, run);
    CompletedRunIsConsistent(EMPTY, map[], run, t);
  }

  /** Two runs of one project in the same second: the second archives the first under that second, and
      the store is consistent, but the third run is unsafe whatever it collects. */
  lemma SameSecondIsUnsafe(first: Run, second: Run, next: Run, s: Store, t: Store)
    requires RunsTo(EMPTY, first, s) && RunsTo(s, second, t)
    requires first.project == second.project == next.project != "latest"
    requires SecondOf(first.collectedAt) == SecondOf(second.collectedAt) && second.cutoff <= first.modifiedAt
    ensures Consistent(t, map[0 := RunFiles(first), 1 := RunFiles(second)]) && !RunSafe(t, next)
  {
    var to := ArchiveDir(first.project, SecondOf(first.collectedAt));
    FirstRunResult(first, s);
    FirstRunSafe(first, s);
    SecondRunResult(first, second, s, t);
    SecondRunSafe(first, second, s, t);
    hide RunsTo, Consistent, RunFiles, ArchiveDir, StoredFiles;
    assert IsLatestRow(t, next.project, 1) && !ArchiveRepairable(t, 1, next.cutoff);
  }

  lemma FirstStoreIsSafe(first: Run, second: Run, s: Store)
    requires s.rows == map[0 := NewRow(first)] && first.project != "latest"
    requires s.dirs == map[LatestDir(first.project) := Directory(RunFiles(first), first.modifiedAt)]
    ensures RunSafe(s, second)
  {
    hide RunFiles, StoredFiles, ResolvedKeys;
    assert |ArchiveDir(first.project, SecondOf(first.collectedAt))| == 4;
  }

  lemma SecondRunSafe(first: Run, second: Run, s: Store, t: Store)
    requires RunsTo(EMPTY, first, s) && RunsTo(s, second, t)
    requires first.project == second.project != "latest"
    ensures Consistent(t, map[0 := RunFiles(first), 1 := RunFiles(second)])
  {
    hide RunsTo, Consistent, RunFiles, RunSafe, Filled, LatestDir, NewRow;
    FirstRunResult(first, s);
    FirstRunSafe(first, s);
    FirstStoreIsSafe(first, second, s);
    RunNumbersRow(EMPTY, first, s);
    CompletedRunIsConsistent(s, map[0 := RunFiles(first)], second, t);
    assert map[0 := RunFiles(first)][1 := RunFiles(second)] == map[0 := RunFiles(first), 1 := RunFiles(second)];
  }

  lemma OnlyLatestIsArchived(run: Run, s: Store, a: Store)
    requires s.rows == map[0 := NewRow(run)] && ArchivesTo(s, run.project, a)
    requires s.dirs == map[LatestDir(run.project) := Directory(RunFiles(run), run.modifiedAt)]
    ensures a.nextId == s.nextId
    ensures ArchiveDir(run.project, SecondOf(run.collectedAt)) in a.dirs
    ensures a.dirs[ArchiveDir(run.project, SecondOf(run.collectedAt))].modifiedAt == run.modifiedAt
  {
    assert IsLatestRow(s, run.project, 0);
    var id :| IsLatestRow(s, run.project, id) && a == Archived(s, id);
    assert id == 0 && s.rows[0] == NewRow(run);
    ArchivedRowPlaced(NewRow(run));
    assert |ArchiveDir(run.project, SecondOf(run.collectedAt))| == 4;
    hide ArchiveDir, ArchivedRow, RunFiles, StoredFiles, ResolvedKeys;
  }

  lemma FreshArchiveStays(a: Store, project: string, cutoff: int, p: Store, dir: Path)
    requires PrunesTo(a, project, cutoff, p) && dir in a.dirs && cutoff <= a.dirs[dir].modifiedAt
    ensures dir in p.dirs
  {
  }

  lemma SecondRunResult(first: Run, second: Run, s: Store, t: Store)
    requires RunsTo(EMPTY, first, s) && RunsTo(s, second, t)
    requires first.project == second.project && second.cutoff <= first.modifiedAt
    ensures IsLatestRow(t, second.project, 1) && t.rows[1] == NewRow(second)
    ensures ArchiveDir(first.project, SecondOf(first.collectedAt)) in t.dirs
  {
    var a, p := RunParts(s, second, t);
    FirstRunResult(first, s);
    RunNumbersRow(EMPTY, first, s);
    hide Filled, PrunesTo, ArchivesTo, RunsTo, ArchiveDir, LatestDir, RunFiles, StoredFiles, ResolvedKeys;
    OnlyLatestIsArchived(first, s, a);
    FreshArchiveStays(a, second.project, second.cutoff, p, ArchiveDir(first.project, SecondOf(first.collectedAt)));
    PruneKeepsIds(a, second.project, second.cutoff, p);
    FilledAdds(p, second);
    assert ArchiveDir(first.project, SecondOf(first.collectedAt)) in t.dirs;
    assert t.rows[1] == NewRow(second);
  }

  // ----- What the stored row keeps of each source -----

  /** The stored row of a run, by paths: its i-th file lies in its directory and holds what source i
      gave, and a failed source has none. */
  ghost predicate StoresSource(t: Store, id: nat, run: Run, i: nat)
    requires i < |run.sources|
  {
    && id in t.rows && t.rows[id].project == run.project && t.rows[id].snapshotDir in t.dirs
    && i < |t.rows[id].files|
    && match run.sources[i]
       case Failed(_, _) => t.rows[id].files[i] == None
       case Collected(key, content) =>
         var files := t.dirs[t.rows[id].snapshotDir].files;
         && t.rows[id].files[i] == Some(t.rows[id].snapshotDir + [Name(key + ".log")])
         && key + ".log" in files && files[key + ".log"] == content
  }

  lemma NewRowStoresSources(t: Store, id: nat, run: Run)
    requires DistinctSources(run.sources) && id in t.rows && t.rows[id] == NewRow(run)
    requires LatestDir(run.project) in t.dirs && t.dirs[LatestDir(run.project)].files == RunFiles(run)
    ensures forall i :: 0 <= i < |run.sources| ==> StoresSource(t, id, run, i)
  {
    RunKeepsSources(run);
    forall i | 0 <= i < |run.sources| ensures StoresSource(t, id, run, i) {
      assert KeepsSource(run, Results(run), RunFiles(run), i);
      assert StoredFiles(run)[i] == StoredFile(run.project, Results(run)[i]);
    }
  }

  /** A completed run of distinct sources, from any store, stores every one of them under
      workflow / project / latest, and marks its own row latest. */
  lemma CompletedRunStoresSources(s: Store, run: Run, t: Store)
    requires RunsTo(s, run, t) && DistinctSources(run.sources)
    ensures s.nextId in t.rows && t.rows[s.nextId].isLatest
    ensures t.rows[s.nextId].snapshotDir == [Name("workflow"), Name(run.project), Name("latest")]
    ensures t.rows[s.nextId].resolvedKeys == ResolvedKeys(run)
    ensures forall i :: 0 <= i < |run.sources| ==> StoresSource(t, s.nextId, run, i)
  {
    var a, p := RunParts(s, run, t);
    RunNumbersRow(s, run, t);
    FilledAdds(p, run);
    hide Filled, RunFiles, StoredFiles, ResolvedKeys, PrunesTo, ArchivesTo, RunsTo;
    NewRowStoresSources(t, s.nextId, run);
  }

  lemma ArchivedStoresSource(t: Store, id: nat, run: Run, i: nat)
    requires DistinctSources(run.sources) && i < |run.sources| && run.project != "latest"
    requires id in t.rows && t.rows[id] == ArchivedRow(NewRow(run)) && t.rows[id].snapshotDir in t.dirs
    requires t.dirs[t.rows[id].snapshotDir].files == RunFiles(run)
    ensures StoresSource(t, id, run, i)
  {
    RunKeepsSources(run);
    assert KeepsSource(run, Results(run), RunFiles(run), i);
    ArchivedRowPlaced(NewRow(run));
    assert StoredFiles(run)[i] == StoredFile(run.project, Results(run)[i]);
    if run.sources[i].Collected? {
      RewrittenFile(run.project, run.sources[i].key + ".log", SecondOf(run.collectedAt));
    }
  }
}
