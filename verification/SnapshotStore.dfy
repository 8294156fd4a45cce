/** The collection service's workflow transaction, changing rows and directories step by step. */
module SnapshotStore {
  import opened Options
  import opened Filtering
  import opened SnapshotModel
  import opened SnapshotLifecycle
  import opened SnapshotRuns

  class WorkflowStore {
    var dirs: map<Path, Directory>
    var archiveRoots: set<string>
    var rows: map<nat, Row>
    var nextId: nat

    function View(): Store
      reads this
    {
      Store(dirs, archiveRoots, rows, nextId)
    }

    constructor ()
      ensures View() == EMPTY
    {
      dirs, archiveRoots, rows, nextId := map[], {}, map[], 0;
    }

    /** Points every stored source file of one row into its archive directory. */
    method RewriteSourceFiles(id: nat, archiveName: Component)
      requires id in rows
      modifies this`rows
      ensures rows == old(rows)[id := old(rows)[id].(files := ArchivedFiles(old(rows)[id].files, archiveName))]
    {
      hide ArchivedSourceFile;
      var files := rows[id].files;
      var i := 0;
      while i < |files|
        invariant i <= |files| && id in rows && |rows[id].files| == |files|
        invariant rows == old(rows)[id := old(rows)[id].(files := rows[id].files)]
        invariant forall j :: 0 <= j < i ==> rows[id].files[j] == ArchivedFiles(files, archiveName)[j]
        invariant forall j :: i <= j < |files| ==> rows[id].files[j] == files[j]
      {
        if files[i].Some? {
          var stored := rows[id];
          var rewritten := ArchivedSourceFile(files[i].value, archiveName);
          rows := rows[id := stored.(files := stored.files[i := Some(rewritten)])];
        }
        i := i + 1;
      }
      assert rows[id].files == ArchivedFiles(files, archiveName);
    }

    method ArchiveLatestForProject(project: string)
      modifies this
      ensures ArchivesTo(old(View()), project, View())
    {
      hide ArchivedFiles, ArchivedSnapshotDir;
      if id: nat :| id in rows && rows[id].project == project && rows[id].isLatest {
        ghost var before := View();
        assert IsLatestRow(before, project, id);
        var row := rows[id];
        var archiveName := ArchiveNameOf(row);
        var target := ArchivedSnapshotDir(row.snapshotDir, archiveName);
        if target in dirs {
          dirs := dirs - {target};
        }
        assert dirs == before.dirs - {target};
        if row.snapshotDir in dirs {
          archiveRoots := archiveRoots + {project};
          dirs := (dirs - {row.snapshotDir})[target := dirs[row.snapshotDir]];
        }
        RewriteSourceFiles(id, archiveName);
        rows := rows[id := rows[id].(isLatest := false, archiveName := Some(archiveName), snapshotDir := target)];
        assert rows == Archived(before, id).rows;
      } else {
        assert forall k: nat :: !IsLatestRow(View(), project, k);
      }
    }

    /** The archived rows of a project, by archive name. */
    method RowsByArchiveName(project: string) returns (byName: Lookup)
      ensures IsLookup(View(), project, byName)
    {
      byName := map[];
      var remaining := rows.Keys;
      while remaining != {}
        invariant remaining <= rows.Keys
        invariant forall n :: n in byName ==> IsArchivedAs(View(), project, n, byName[n])
        invariant forall n, id :: IsArchivedAs(View(), project, n, id) && id !in remaining ==> n in byName
      {
        var id :| id in remaining;
        if rows[id].project == project && rows[id].archiveName.Some? && !rows[id].isLatest {
          byName := byName[rows[id].archiveName.value := id];
        }
        remaining := remaining - {id};
      }
    }

    method PruneWorkflowArchivesForProject(project: string, cutoff: int)
      modifies this
      ensures PrunesTo(old(View()), project, cutoff, View())
    {
      hide IsArchiveDir, WithoutDirs, IsLookup;
      ghost var before := View();
      if project !in archiveRoots {
        return;
      }
      var byName := RowsByArchiveName(project);
      var remaining := set d | d in dirs && IsArchiveDir(d, project);
      ghost var listed := remaining;
      NothingDropped(before, byName);
      assert Old(before, listed - remaining, cutoff) == {};
      while remaining != {}
        invariant remaining <= listed
        invariant View() == WithoutDirs(before, Old(before, listed - remaining, cutoff), byName)
        invariant forall d :: d in remaining ==> d in dirs && d in before.dirs && dirs[d] == before.dirs[d]
        decreases remaining
      {
        var dir :| dir in remaining;
        DropStep(before, listed - remaining, cutoff, dir, byName);
        assert listed - (remaining - {dir}) == (listed - remaining) + {dir};
        remaining := remaining - {dir};
        if dirs[dir].modifiedAt >= cutoff { continue; }
        dirs := dirs - {dir};
        if dir != [] && dir[|dir| - 1] in byName {
          rows := rows - {byName[dir[|dir| - 1]]};
        }
      }
      assert listed - remaining == listed;
      assert Old(before, listed, cutoff) == Expired(before, project, cutoff);
    }

    method CreateWorkflowCollectLogs(run: Run) returns (id: nat)
      modifies this
      ensures id == old(nextId)
      ensures exists a, p ::
                && ArchivesTo(old(View()), run.project, a) && PrunesTo(a, run.project, run.cutoff, p)
                && View() == Created(p, run) && id == p.nextId
    {
      hide ArchivesTo, PrunesTo;
      ghost var before := View();
      ArchiveLatestForProject(run.project);
      ghost var archived := View();
      ArchiveKeepsIds(before, run.project, archived);
      PruneWorkflowArchivesForProject(run.project, run.cutoff);
      ghost var pruned := View();
      PruneKeepsIds(archived, run.project, run.cutoff, pruned);
      id := nextId;
      rows := rows[id := Row(run.project, run.collectedAt, LatestDir(run.project), None, true, [], [])];
      nextId := nextId + 1;
      assert View() == Created(pruned, run);
    }

    /** Recreates an empty latest directory, and the archive root beside it. */
    method PrepareWorkspace(run: Run)
      modifies this`dirs, this`archiveRoots
      ensures View() == Prepared(old(View()), run)
    {
      var latest := LatestDir(run.project);
      ghost var before := View();
      archiveRoots := archiveRoots + {run.project};
      if latest in dirs {
        dirs := dirs - {latest};
      }
      dirs := dirs[latest := Directory(map[], run.modifiedAt)];
      assert dirs == before.dirs[latest := Directory(map[], run.modifiedAt)];
    }

    /** Writes one file into the latest directory. */
    method WriteFile(project: string, name: string, content: Content, modifiedAt: int)
      requires LatestDir(project) in dirs
      modifies this`dirs
      ensures dirs == old(dirs)[LatestDir(project)
                 := Directory(old(dirs)[LatestDir(project)].files[name := content], modifiedAt)]
    {
      var latest := LatestDir(project);
      dirs := dirs[latest := Directory(dirs[latest].files[name := content], modifiedAt)];
    }

    /** What collecting one source leaves in the latest directory. */
    method WriteSource(run: Run, source: SourceOutcome)
      requires LatestDir(run.project) in dirs
      modifies this`dirs
      ensures var latest := LatestDir(run.project);
              dirs == old(dirs)[latest := Directory(WithSource(old(dirs)[latest].files, source),
                                  if source.Collected? || source.partial.Some? then run.modifiedAt
                                  else old(dirs)[latest].modifiedAt)]
    {
      match source {
        case Collected(key, content) =>
          WriteFile(run.project, LogFile(key), content, run.modifiedAt);
        case Failed(key, partial) =>
          if partial.Some? {
            WriteFile(run.project, LogFile(key), partial.value, run.modifiedAt);
          }
      }
    }

    /** The worker collects source by source, and adds the diagnostics file if some source failed. */
    method CollectSources(run: Run) returns (results: seq<Result>)
      requires LatestDir(run.project) in dirs
      requires dirs[LatestDir(run.project)] == Directory(map[], run.modifiedAt)
      modifies this`dirs
      ensures View() == CollectedInto(old(View()), run) && results == Results(run)
      ensures DistinctSources(run.sources) ==>
                LatestDir(run.project) in dirs && forall i :: 0 <= i < |run.sources| ==>
                  KeepsSource(run, results, dirs[LatestDir(run.project)].files, i)
    {
      var latest := LatestDir(run.project);
      ghost var before := View();
      results := [];
      var failed := false;
      assert run.sources[..0] == [];
      hide LatestDir, SourceFiles, WithSource;
      NoSources();
      for i := 0 to |run.sources|
        invariant latest == LatestDir(run.project) && latest in dirs
        invariant dirs == before.dirs[latest := Directory(SourceFiles(run.sources[..i]), run.modifiedAt)]
        invariant |results| == i && forall j :: 0 <= j < i ==> results[j] == ResultOf(run.sources[j])
        invariant failed <==> AnyFailed(run.sources[..i])
      {
        var source := run.sources[i];
        SourceStep(run.sources, i);
        WriteSource(run, source);
        failed := failed || source.Failed?;
        results := results + [ResultOf(source)];
      }
      assert run.sources[..|run.sources|] == run.sources;
      if failed {
        WriteFile(run.project, DIAGNOSTICS_FILE, run.diagnostics, run.modifiedAt);
        results := results + [Result(DIAGNOSTICS_KEY, Some(DIAGNOSTICS_FILE))];
      }
      assert dirs == before.dirs[latest := Directory(RunFiles(run), run.modifiedAt)];
      hide RunFiles, ResultOf;
      if DistinctSources(run.sources) {
        RunKeepsSources(run);
      }
      hide KeepsSource, DistinctSources;
    }

    /** Stores one file reference per result, and the requested keys that produced a file. */
    method SaveSources(id: nat, run: Run, results: seq<Result>)
      requires id in rows && results == Results(run)
      modifies this`rows
      ensures View() == Saved(old(View()), id, run)
    {
      hide Results;
      var row := rows[id];
      var files: seq<Option<Path>> := [];
      for i := 0 to |results|
        invariant files == StoredFiles(run)[..i] && rows == old(rows)
      {
        files := files + [StoredFile(run.project, results[i])];
      }
      assert StoredFiles(run)[..|results|] == StoredFiles(run);
      var resolved: seq<string> := [];
      for i := 0 to |run.sourceKeys|
        invariant resolved == Filter(IsResolved(run), run.sourceKeys[..i]) && rows == old(rows)
      {
        PrefixFilterStep(IsResolved(run), run.sourceKeys, i);
        if exists r :: r in results && r.key == run.sourceKeys[i] && r.file.Some? {
          resolved := resolved + [run.sourceKeys[i]];
        }
      }
      assert run.sourceKeys[..|run.sourceKeys|] == run.sourceKeys;
      assert files == StoredFiles(run) && resolved == ResolvedKeys(run);
      rows := rows[id := row.(files := files, resolvedKeys := resolved)];
    }

    /** One completed workflow run. */
    method BuildWorkflowLogs(run: Run)
      modifies this
      ensures RunsTo(old(View()), run, View())
      ensures DistinctSources(run.sources) ==>
                forall i :: 0 <= i < |run.sources| ==> StoresSource(View(), old(nextId), run, i)
    {
      hide ArchivesTo, PrunesTo, StoredFiles, ResolvedKeys, RunFiles, Results, LatestDir;
      ghost var before := View();
      var id := CreateWorkflowCollectLogs(run);
      ghost var a, p :| ArchivesTo(before, run.project, a) && PrunesTo(a, run.project, run.cutoff, p)
                        && View() == Created(p, run) && id == p.nextId;
      PrepareWorkspace(run);
      var results := CollectSources(run);
      SaveSources(id, run, results);
      assert View() == Filled(p, run);
      hide Filled, StoresSource, DistinctSources;
      if DistinctSources(run.sources) {
        CompletedRunStoresSources(before, run, View());
      }
    }
  }

  // ----- Facts the loops need -----

  lemma ArchiveKeepsIds(s: Store, project: string, a: Store)
    requires ArchivesTo(s, project, a)
    ensures a.nextId == s.nextId
  {
  }

  /** Those of some directories that are older than the cutoff. */
  function Old(s: Store, visited: set<Path>, cutoff: int): set<Path>
  {
    set d | d in visited && d in s.dirs && s.dirs[d].modifiedAt < cutoff
  }

  lemma NothingDropped(s: Store, byName: Lookup)
    ensures WithoutDirs(s, {}, byName) == s
  {
    assert RowsOf(byName, {}) == {};
  }

  lemma DropStep(s: Store, visited: set<Path>, cutoff: int, dir: Path, byName: Lookup)
    requires dir in s.dirs && dir !in visited
    ensures var t := WithoutDirs(s, Old(s, visited, cutoff), byName);
            WithoutDirs(s, Old(s, visited + {dir}, cutoff), byName)
            == if s.dirs[dir].modifiedAt < cutoff
               then t.(dirs := t.dirs - {dir},
                       rows := if dir != [] && dir[|dir| - 1] in byName then t.rows - {byName[dir[|dir| - 1]]}
                               else t.rows)
               else t
  {
    var gone, gone' := Old(s, visited, cutoff), Old(s, visited + {dir}, cutoff);
    if s.dirs[dir].modifiedAt < cutoff {
      assert gone' == gone + {dir};
      assert RowsOf(byName, gone')
          == RowsOf(byName, gone) + if dir != [] && dir[|dir| - 1] in byName then {byName[dir[|dir| - 1]]} else {};
      hide Old, RowsOf;
      assert s.dirs - gone' == s.dirs - gone - {dir};
      assert s.rows - RowsOf(byName, gone') == WithoutDirs(s, gone', byName).rows;
    } else {
      assert gone' == gone;
    }
  }
}
