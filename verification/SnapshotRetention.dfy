/** Which snapshots a sequence of runs leaves behind, read off the runs alone, and when it stays consistent. */
module SnapshotRetention {
  import opened SnapshotModel
  import opened SnapshotLifecycle
  import opened SnapshotRuns

  /** Run r comes after run id and collects the same project. */
  predicate Follows(runs: seq<Run>, id: nat, r: nat)
    requires id < |runs|
  {
    id < r < |runs| && runs[r].project == runs[id].project
  }

  /** No later run of its project had a cutoff beyond the snapshot's time. */
  ghost predicate Survives(runs: seq<Run>, id: nat)
    requires id < |runs|
  {
    forall r: nat :: Follows(runs, id, r) ==> runs[r].cutoff <= runs[id].modifiedAt
  }

  ghost predicate IsNewest(runs: seq<Run>, id: nat)
    requires id < |runs|
  {
    forall r: nat :: !Follows(runs, id, r)
  }

  /** One stored row is what its run left, archived since then or not. */
  ghost predicate RowOfRun(s: Store, runs: seq<Run>, id: nat)
    requires id in s.rows && id < |runs|
  {
    var row := s.rows[id];
    && row.project == runs[id].project && row.collectedAt == runs[id].collectedAt
    && (row.isLatest <==> IsNewest(runs, id))
    && row == (if row.isLatest then NewRow(runs[id]) else ArchivedRow(NewRow(runs[id])))
    && row.snapshotDir in s.dirs && s.dirs[row.snapshotDir].modifiedAt == runs[id].modifiedAt
  }

  /** The store holds exactly the surviving snapshots of the runs. */
  ghost predicate Retains(s: Store, runs: seq<Run>)
  {
    && s.nextId == |runs|
    && (forall id: nat :: id in s.rows <==> id < |runs| && Survives(runs, id))
    && (forall id: nat :: id in s.rows ==> RowOfRun(s, runs, id))
  }

  // ----- One more run -----

  lemma FollowsStep(runs: seq<Run>, run: Run, id: nat, r: nat)
    requires id < |runs|
    ensures Follows(runs + [run], id, r) <==> Follows(runs, id, r) || (r == |runs| && runs[id].project == run.project)
  {
  }

  lemma SurvivesStep(runs: seq<Run>, run: Run, id: nat)
    requires id < |runs|
    ensures Survives(runs + [run], id)
       <==> Survives(runs, id) && (runs[id].project == run.project ==> run.cutoff <= runs[id].modifiedAt)
    ensures IsNewest(runs + [run], id) <==> IsNewest(runs, id) && runs[id].project != run.project
  {
    var longer := runs + [run];
    forall r: nat ensures Follows(longer, id, r)
      <==> Follows(runs, id, r) || (r == |runs| && runs[id].project == run.project)
    {
      FollowsStep(runs, run, id, r);
    }
    assert forall r: nat :: Follows(runs, id, r) ==> longer[r] == runs[r];
    if Survives(longer, id) {
      forall r: nat | Follows(runs, id, r) ensures runs[r].cutoff <= runs[id].modifiedAt {
        assert Follows(longer, id, r);
      }
      if runs[id].project == run.project {
        assert Follows(longer, id, |runs|);
      }
    }
    if IsNewest(longer, id) {
      assert !Follows(longer, id, |runs|);
      forall r: nat ensures !Follows(runs, id, r) {
        assert !Follows(longer, id, r);
      }
    }
  }

  lemma NewestStep(runs: seq<Run>, run: Run)
    ensures Survives(runs + [run], |runs|) && IsNewest(runs + [run], |runs|)
  {
  }

  /** After archiving, every row of the project is archived and stands in an archive directory. */
  ghost predicate Between(a: Store, runs: seq<Run>, project: string)
  {
    && a.nextId == |runs|
    && (forall id: nat :: id in a.rows <==> id < |runs| && Survives(runs, id))
    && (forall id: nat :: id in a.rows ==> BetweenRow(a, runs, project, id))
  }

  ghost predicate BetweenRow(a: Store, runs: seq<Run>, project: string, id: nat)
    requires id in a.rows && id < |runs|
  {
    var row := a.rows[id];
    && row.project == runs[id].project && row.collectedAt == runs[id].collectedAt
    && row.snapshotDir in a.dirs && a.dirs[row.snapshotDir].modifiedAt == runs[id].modifiedAt
    && row == (if row.isLatest then NewRow(runs[id]) else ArchivedRow(NewRow(runs[id])))
    && (if row.project == project then IsArchiveDir(row.snapshotDir, project) && !row.isLatest
        else !IsArchiveDir(row.snapshotDir, project) && (row.isLatest <==> IsNewest(runs, id)))
  }

  lemma PlacedInArchive(row: Row, project: string)
    requires RowPlaced(row) && (row.project == project ==> !row.isLatest)
    ensures IsArchiveDir(row.snapshotDir, project) <==> row.project == project
  {
    assert |LatestDir(row.project)| == 3;
    if !row.isLatest {
      var dir := row.snapshotDir;
      assert |dir| == 4 && dir[..3] == ArchiveRoot(row.project);
      assert ArchiveRoot(row.project)[1] == Name(row.project) && ArchiveRoot(project)[1] == Name(project);
    }
  }

  lemma UnarchivedIsBetween(s: Store, written: Written, runs: seq<Run>, project: string)
    requires InStep(s, written) && Retains(s, runs) && !exists id :: IsLatestRow(s, project, id)
    ensures Between(s, runs, project)
  {
    forall id: nat | id in s.rows ensures BetweenRow(s, runs, project, id) {
      assert RowOfRun(s, runs, id) && RowPlaced(s.rows[id]) && !IsLatestRow(s, project, id);
      PlacedInArchive(s.rows[id], project);
    }
  }

  lemma OwnRowBetween(s: Store, written: Written, runs: seq<Run>, id: nat)
    requires InStep(s, written) && id in s.rows && s.rows[id].isLatest && ArchiveDirFree(s, id)
    requires id < |runs| && RowOfRun(s, runs, id)
    ensures id in Archived(s, id).rows && BetweenRow(Archived(s, id), runs, s.rows[id].project, id)
  {
    ArchivedDirectory(s, written, id);
    LatestPlaced(s, written, id);
    ArchivedRowPlaced(s.rows[id]);
    hide InStep, Archived, ArchivedRow, ArchiveDirFree, RowPlaced, IsArchiveDir, IsNewest;
  }

  lemma RetainedRow(s: Store, runs: seq<Run>, k: nat)
    requires Retains(s, runs) && k in s.rows
    ensures k < |runs| && RowOfRun(s, runs, k)
  {
  }

  lemma BetweenFromRows(s: Store, a: Store, runs: seq<Run>, project: string)
    requires Retains(s, runs) && a.nextId == s.nextId && a.rows.Keys == s.rows.Keys
    requires forall k: nat :: k in a.rows ==> k < |runs| && BetweenRow(a, runs, project, k)
    ensures Between(a, runs, project)
  {
    hide BetweenRow, RowOfRun, Survives;
  }

  lemma ArchivedIsBetween(s: Store, written: Written, runs: seq<Run>, id: nat)
    requires InStep(s, written) && Retains(s, runs) && id in s.rows && s.rows[id].isLatest && ArchiveDirFree(s, id)
    ensures Between(Archived(s, id), runs, s.rows[id].project)
  {
    hide InStep, Retains, Between, Archived, ArchivedRow, ArchiveDirFree, BetweenRow, RowOfRun;
    var a, project := Archived(s, id), s.rows[id].project;
    ArchivedRows(s, id);
    ArchivedKeepsNextId(s, id);
    forall k: nat | k in a.rows ensures k < |runs| && BetweenRow(a, runs, project, k) {
      RetainedRow(s, runs, k);
      if k == id {
        OwnRowBetween(s, written, runs, id);
      } else {
        OtherRowBetween(s, written, runs, id, k);
      }
    }
    BetweenFromRows(s, a, runs, project);
  }

  lemma LatestPlaced(s: Store, written: Written, id: nat)
    requires InStep(s, written) && id in s.rows
    ensures RowPlaced(s.rows[id])
  {
  }

  /** Beside a latest row every row of its project is archived, and every row has another directory. */
  lemma OthersStandApart(s: Store, written: Written, id: nat, k: nat)
    requires InStep(s, written) && id in s.rows && s.rows[id].isLatest && k in s.rows && k != id
    ensures s.rows[k].project == s.rows[id].project ==> !s.rows[k].isLatest
    ensures s.rows[k].snapshotDir != s.rows[id].snapshotDir
    ensures RowPlaced(s.rows[k]) && s.rows[k].snapshotDir in s.dirs
  {
    assert RowPlaced(s.rows[id]) && RowPlaced(s.rows[k]);
  }

  lemma ArchivedKeepsRow(s: Store, written: Written, id: nat, k: nat)
    requires InStep(s, written) && id in s.rows && s.rows[id].isLatest && ArchiveDirFree(s, id)
    requires k in s.rows && k != id
    ensures var a := Archived(s, id);
            && k in a.rows && a.rows[k] == s.rows[k]
            && a.rows[k].snapshotDir in a.dirs && a.dirs[a.rows[k].snapshotDir] == s.dirs[s.rows[k].snapshotDir]
  {
    OthersStandApart(s, written, id, k);
    LatestPlaced(s, written, id);
    ArchivedDirectory(s, written, id);
    ArchivedRowPlaced(s.rows[id]);
    hide InStep, RowPlaced, ArchivedRow;
    ArchivedIsMoved(s, id);
    hide Archived;
  }

  lemma OtherRowBetween(s: Store, written: Written, runs: seq<Run>, id: nat, k: nat)
    requires InStep(s, written) && id in s.rows && s.rows[id].isLatest && ArchiveDirFree(s, id)
    requires k in s.rows && k != id && k < |runs| && RowOfRun(s, runs, k)
    ensures k in Archived(s, id).rows && BetweenRow(Archived(s, id), runs, s.rows[id].project, k)
  {
    hide InStep, Archived, ArchiveDirFree, IsNewest;
    OthersStandApart(s, written, id, k);
    ArchivedKeepsRow(s, written, id, k);
    PlacedInArchive(s.rows[k], s.rows[id].project);
    hide RowPlaced, IsArchiveDir;
  }

  lemma PrunedIsBetween(a: Store, runs: seq<Run>, run: Run, p: Store)
    requires Between(a, runs, run.project) && p == Pruned(a, run.project, run.cutoff)
    ensures p.nextId == |runs|
    ensures forall id: nat :: id in p.rows <==> id < |runs| && Survives(runs + [run], id)
    ensures forall id: nat :: id in p.rows ==> BetweenRow(p, runs, run.project, id)
  {
    hide Survives, IsNewest, IsArchiveDir;
    forall id: nat ensures id in p.rows <==> id < |runs| && Survives(runs + [run], id) {
      if id in a.rows {
        assert BetweenRow(a, runs, run.project, id);
        SurvivesStep(runs, run, id);
      } else if id < |runs| {
        SurvivesStep(runs, run, id);
      }
    }
    forall id: nat | id in p.rows ensures BetweenRow(p, runs, run.project, id) {
      assert BetweenRow(a, runs, run.project, id);
    }
  }

  lemma FilledRetains(p: Store, runs: seq<Run>, run: Run)
    requires p.nextId == |runs|
    requires forall id: nat :: id in p.rows <==> id < |runs| && Survives(runs + [run], id)
    requires forall id: nat :: id in p.rows ==> BetweenRow(p, runs, run.project, id)
    requires NoRowAt(p, LatestDir(run.project))
    ensures Retains(Filled(p, run), runs + [run])
  {
    FilledAdds(p, run);
    NewestStep(runs, run);
    var t, longer := Filled(p, run), runs + [run];
    hide Filled, RunFiles, StoredFiles, ResolvedKeys, LatestDir, Survives, IsNewest, IsArchiveDir;
    forall id: nat | id in t.rows ensures id < |longer| && RowOfRun(t, longer, id) {
      if id == |runs| {
        assert t.rows[id] == NewRow(run);
      } else {
        assert BetweenRow(p, runs, run.project, id);
        SurvivesStep(runs, run, id);
      }
    }
  }

  /** A safe run leaves exactly the snapshots that survive it. */
  lemma RunRetains(s: Store, written: Written, runs: seq<Run>, run: Run, t: Store)
    requires Consistent(s, written) && Retains(s, runs) && RunsTo(s, run, t) && RunSafe(s, run)
    ensures Retains(t, runs + [run])
  {
    var a, p := RunParts(s, run, t);
    hide Retains, PrunesTo, FilesNamed, Filled;
    ArchiveIsBetween(s, written, runs, run, a);
    PruneIsTogether(a, written, run.project, run.cutoff, p);
    PrunedIsBetween(a, runs, run, p);
    PrunedHasNoLatest(a, written, run, p);
    FilledRetains(p, runs, run);
  }

  lemma ArchiveIsBetween(s: Store, written: Written, runs: seq<Run>, run: Run, a: Store)
    requires InStep(s, written) && Retains(s, runs) && ArchivesTo(s, run.project, a) && RunSafe(s, run)
    ensures Between(a, runs, run.project) && InStep(a, written)
    ensures !exists id :: IsLatestRow(a, run.project, id)
  {
    hide InStep, Retains, Between, Archived, ArchiveDirFree;
    if exists id :: IsLatestRow(s, run.project, id) {
      var id :| IsLatestRow(s, run.project, id) && a == Archived(s, id);
      assert ArchiveRepairable(s, id, run.cutoff);
      ArchivedIsBetween(s, written, runs, id);
      ArchiveKeepsStep(s, written, id);
      ArchivedHasNoLatest(s, written, id, run.project);
    } else {
      UnarchivedIsBetween(s, written, runs, run.project);
    }
  }

  lemma PrunedHasNoLatest(a: Store, written: Written, run: Run, p: Store)
    requires InStep(a, written) && p == Pruned(a, run.project, run.cutoff)
    requires !exists id :: IsLatestRow(a, run.project, id)
    ensures NoRowAt(p, LatestDir(run.project))
  {
    PruneKeepsStep(a, written, run.project, run.cutoff);
    forall id ensures !IsLatestRow(p, run.project, id) {
      assert !IsLatestRow(a, run.project, id);
    }
    NoRowAtLatestDir(p, written, run.project);
  }

  // ----- Safety, read off the runs -----

  /** An earlier snapshot of the same project and second is still archived when the next run comes. */
  ghost predicate Blocks(runs: seq<Run>, h: nat, id: nat)
    requires h < |runs| && id < |runs|
  {
    && h != id && runs[h].project == runs[id].project
    && SecondOf(runs[h].collectedAt) == SecondOf(runs[id].collectedAt) && Survives(runs, h)
  }

  /** Whether a run fits the runs before it. */
  ghost predicate Fits(runs: seq<Run>, run: Run)
  {
    forall id: nat :: id < |runs| && runs[id].project == run.project && IsNewest(runs, id) ==>
      && (forall h: nat :: h < |runs| ==> !Blocks(runs, h, id))
      && (run.project != "latest" || !HasFiles(NewRow(runs[id])) || runs[id].modifiedAt < run.cutoff)
  }

  lemma NewestIsLatestRow(s: Store, runs: seq<Run>, project: string, id: nat)
    requires Retains(s, runs)
    ensures IsLatestRow(s, project, id) <==> id < |runs| && runs[id].project == project && IsNewest(runs, id)
  {
    if id < |runs| && IsNewest(runs, id) {
      assert Survives(runs, id);
    }
    if id in s.rows {
      assert RowOfRun(s, runs, id);
    }
  }

  lemma FreeUnlessBlocked(s: Store, written: Written, runs: seq<Run>, id: nat)
    requires InStep(s, written) && Retains(s, runs) && id in s.rows && s.rows[id].isLatest
    ensures id < |runs| && (ArchiveDirFree(s, id) <==> forall h: nat :: h < |runs| ==> !Blocks(runs, h, id))
  {
    assert RowOfRun(s, runs, id);
    if !ArchiveDirFree(s, id) {
      var k := TakenBy(s, written, id);
      assert RowOfRun(s, runs, k);
      hide InStep;
      assert Blocks(runs, k, id);
    } else {
      forall h: nat | h < |runs| ensures !Blocks(runs, h, id) {
        if Blocks(runs, h, id) {
          BlockingRowStands(s, written, runs, h, id);
        }
      }
    }
  }

  lemma BlockingRowStands(s: Store, written: Written, runs: seq<Run>, h: nat, id: nat)
    requires InStep(s, written) && Retains(s, runs) && id in s.rows && s.rows[id].isLatest
    requires id < |runs| && h < |runs| && Blocks(runs, h, id)
    ensures !ArchiveDirFree(s, id)
  {
    assert h in s.rows && RowOfRun(s, runs, h) && RowOfRun(s, runs, id);
    OthersStandApart(s, written, id, h);
  }

  /** Against the store that the runs left, a run is safe exactly when it fits them. */
  lemma SafeExactlyWhenItFits(s: Store, written: Written, runs: seq<Run>, run: Run)
    requires InStep(s, written) && Retains(s, runs)
    ensures RunSafe(s, run) <==> Fits(runs, run)
  {
    forall id: nat ensures IsLatestRow(s, run.project, id)
      <==> id < |runs| && runs[id].project == run.project && IsNewest(runs, id)
    {
      NewestIsLatestRow(s, runs, run.project, id);
    }
    forall id: nat | IsLatestRow(s, run.project, id)
      ensures ArchiveRepairable(s, id, run.cutoff)
         <==> (forall h: nat :: h < |runs| ==> !Blocks(runs, h, id))
              && (run.project != "latest" || !HasFiles(NewRow(runs[id])) || runs[id].modifiedAt < run.cutoff)
    {
      FreeUnlessBlocked(s, written, runs, id);
      assert RowOfRun(s, runs, id);
      hide InStep, Retains, Blocks, ArchiveDirFree, HasFiles;
    }
    hide InStep, Retains, ArchiveRepairable, Blocks, IsNewest;
  }

  /** Every run up to n fits the runs before it. */
  ghost predicate AllFit(runs: seq<Run>, n: nat)
    requires n <= |runs|
  {
    forall i :: 0 <= i < n ==> Fits(runs[..i], runs[i])
  }

  lemma NothingRetained(runs: seq<Run>)
    ensures Retains(EMPTY, runs[..0])
  {
  }

  lemma {:induction false} FittingRunsRetain(runs: seq<Run>, stores: seq<Store>, n: nat)
    requires Trace(runs, stores) && n <= |runs|
    ensures AllFit(runs, n) <==> SafeUpTo(runs, stores, n)
    ensures AllFit(runs, n) ==> Retains(stores[n], runs[..n])
  {
    hide RunsTo, RunSafe, Fits, Retains, Consistent;
    if n == 0 {
      NothingRetained(runs);
    } else {
      FittingRunsRetain(runs, stores, n - 1);
      RunsStayConsistentExactly(runs, stores, n - 1);
      var s, run, t := stores[n - 1], runs[n - 1], stores[n - 1 + 1];
      assert RunsTo(s, run, t);
      assert runs[..n - 1] + [run] == runs[..n];
      if AllFit(runs, n - 1) {
        assert Consistent(s, WrittenBy(runs[..n - 1]));
        ConsistentIsInStep(s, WrittenBy(runs[..n - 1]));
        SafeExactlyWhenItFits(s, WrittenBy(runs[..n - 1]), runs[..n - 1], run);
        if Fits(runs[..n - 1], run) {
          RunRetains(s, WrittenBy(runs[..n - 1]), runs[..n - 1], run, t);
        }
      }
    }
  }

  /** For any sequence of runs over any projects, without looking at any store: the store is consistent
      after each of the first n runs exactly when each of them fits the runs before it; and then it
      holds exactly the snapshots that no later cutoff of their project has passed. */
  lemma RunsDecideConsistency(runs: seq<Run>, stores: seq<Store>, n: nat)
    requires Trace(runs, stores) && n <= |runs|
    ensures ConsistentUpTo(runs, stores, n) <==> AllFit(runs, n)
    ensures AllFit(runs, n) ==> Retains(stores[n], runs[..n])
  {
    hide Trace, ConsistentUpTo, AllFit, Retains, SafeUpTo;
    RunsStayConsistentExactly(runs, stores, n);
    FittingRunsRetain(runs, stores, n);
  }

  /** A retained snapshot still has every source of its own run: its i-th file lies in its directory,
      archived or not, and holds what source i gave. */
  lemma RetainedSnapshotsKeepSources(s: Store, runs: seq<Run>, id: nat, i: nat)
    requires Consistent(s, WrittenBy(runs)) && Retains(s, runs) && id in s.rows
    requires id < |runs| && DistinctSources(runs[id].sources) && i < |runs[id].sources|
    requires runs[id].project != "latest" || IsNewest(runs, id)
    ensures StoresSource(s, id, runs[id], i)
  {
    RetainedRow(s, runs, id);
    assert s.dirs[s.rows[id].snapshotDir].files == RunFiles(runs[id]);
    hide Consistent, Retains;
    if s.rows[id].isLatest {
      NewRowStoresSources(s, id, runs[id]);
    } else {
      ArchivedStoresSource(s, id, runs[id], i);
    }
  }
}
