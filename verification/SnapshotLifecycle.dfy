/** What every completed workflow run keeps: rows and directories in step, for any sequence of runs. */
module SnapshotLifecycle {
  import opened Options
  import opened SnapshotModel

  // ----- Consistency -----

  /** A row stands where its state says. */
  predicate RowPlaced(row: Row)
  {
    && row.snapshotDir == (if row.isLatest then LatestDir(row.project)
                           else ArchiveDir(row.project, SecondOf(row.collectedAt)))
    && row.archiveName == (if row.isLatest then None else Some(ArchiveNameOf(row)))
  }

  ghost predicate NamesFile(file: Path, dir: Path, wrote: map<string, Content>)
  {
    exists n :: n in wrote && file == dir + [Name(n)]
  }

  /** A row names files of its own directory that its run wrote. */
  ghost predicate FilesInPlace(row: Row, wrote: map<string, Content>)
  {
    forall i :: 0 <= i < |row.files| && row.files[i].Some? ==> NamesFile(row.files[i].value, row.snapshotDir, wrote)
  }

  /** What each row's run wrote, remembered per row. */
  type Written = map<nat, map<string, Content>>

  ghost predicate RowsPlaced(s: Store, written: Written)
  {
    forall id :: id in s.rows ==> id in written && id < s.nextId && RowPlaced(s.rows[id])
  }

  ghost predicate HoldsOwnFiles(s: Store, written: Written)
  {
    forall id :: id in s.rows ==>
      id in written && s.rows[id].snapshotDir in s.dirs && s.dirs[s.rows[id].snapshotDir].files == written[id]
  }

  ghost predicate NoSharedDir(s: Store)
  {
    forall a, b :: a in s.rows && b in s.rows && s.rows[a].snapshotDir == s.rows[b].snapshotDir ==> a == b
  }

  ghost predicate NoOrphanDir(s: Store)
  {
    forall d :: d in s.dirs ==> exists id :: id in s.rows && s.rows[id].snapshotDir == d
  }

  ghost predicate RootsExist(s: Store)
  {
    forall id :: id in s.rows && !s.rows[id].isLatest ==> s.rows[id].project in s.archiveRoots
  }

  /** Rows and directories correspond one to one, and each directory holds what its row's run wrote. */
  ghost predicate InStep(s: Store, written: Written)
  {
    RowsPlaced(s, written) && HoldsOwnFiles(s, written) && NoSharedDir(s) && NoOrphanDir(s) && RootsExist(s)
  }

  ghost predicate FilesNamed(s: Store, written: Written)
  {
    forall id :: id in s.rows ==> id in written && FilesInPlace(s.rows[id], written[id])
  }

  ghost predicate Consistent(s: Store, written: Written)
  {
    InStep(s, written) && FilesNamed(s, written)
  }

  /** A project never has two latest rows. */
  lemma AtMostOneLatest(s: Store, written: Written, project: string, a: nat, b: nat)
    requires InStep(s, written) && IsLatestRow(s, project, a) && IsLatestRow(s, project, b)
    ensures a == b
  {
    assert RowPlaced(s.rows[a]) && RowPlaced(s.rows[b]);
  }

  // ----- Archiving -----

  /** The rewritten file path lies in the archive directory exactly unless the project is `latest`. */
  lemma RewrittenFile(project: string, file: string, second: int)
    ensures var rewritten := ArchivedSourceFile(LatestDir(project) + [Name(file)], Stamp(second));
            if project == "latest" then
              rewritten == [Name("workflow"), Name("archive"), Stamp(second), Name("latest"), Name(file)]
            else rewritten == ArchiveDir(project, second) + [Name(file)]
  {
    var path := LatestDir(project) + [Name(file)];
    var stamp := Stamp(second);
    assert path[1..] == [Name(project), Name("latest"), Name(file)];
    assert path[1..][1..] == [Name("latest"), Name(file)];
    assert path[1..][1..][1..] == [Name(file)];
    assert ArchivedSourceFile(path[1..][1..], stamp) == [Name("archive"), stamp, Name(file)];
  }

  predicate HasFiles(row: Row)
  {
    exists i :: 0 <= i < |row.files| && row.files[i].Some?
  }

  lemma ArchivedRowPlaced(row: Row)
    requires RowPlaced(row) && row.isLatest
    ensures RowPlaced(ArchivedRow(row))
    ensures ArchivedRow(row).snapshotDir == ArchiveDir(row.project, SecondOf(row.collectedAt))
    ensures ArchivedRow(row).project == row.project && !ArchivedRow(row).isLatest
    ensures ArchivedRow(row).collectedAt == row.collectedAt
  {
    assert ArchivedRow(row).snapshotDir == ArchiveDir(row.project, SecondOf(row.collectedAt));
  }

  lemma ArchivedNamesFile(row: Row, wrote: map<string, Content>, i: nat)
    requires RowPlaced(row) && row.isLatest && i < |row.files| && row.files[i].Some?
    requires NamesFile(row.files[i].value, row.snapshotDir, wrote)
    ensures ArchivedRow(row).files[i].Some?
    ensures NamesFile(ArchivedRow(row).files[i].value, ArchivedRow(row).snapshotDir, wrote) <==> row.project != "latest"
  {
    var after, second := ArchivedRow(row), SecondOf(row.collectedAt);
    ArchivedRowPlaced(row);
    var n :| n in wrote && row.files[i].value == row.snapshotDir + [Name(n)];
    RewrittenFile(row.project, n, second);
    if row.project == "latest" {
      assert after.files[i].value[1] == Name("archive");
      assert after.snapshotDir[1] == Name("latest");
    }
  }

  lemma ArchivedFilesInPlace(row: Row, wrote: map<string, Content>)
    requires RowPlaced(row) && FilesInPlace(row, wrote) && row.isLatest
    ensures FilesInPlace(ArchivedRow(row), wrote) <==> row.project != "latest" || !HasFiles(row)
  {
    hide NamesFile, RowPlaced, ArchivedSourceFile, ArchivedSnapshotDir;
    forall i | 0 <= i < |row.files| && row.files[i].Some?
      ensures var after := ArchivedRow(row);
              NamesFile(after.files[i].value, after.snapshotDir, wrote) <==> row.project != "latest"
    {
      ArchivedNamesFile(row, wrote, i);
    }
  }

  predicate ArchiveDirFree(s: Store, id: nat)
    requires id in s.rows
  {
    ArchiveDir(s.rows[id].project, SecondOf(s.rows[id].collectedAt)) !in s.dirs
  }

  /** What a caller can check beforehand: no archive of that second yet, and no project `latest`. */
  predicate ArchiveSafe(s: Store, id: nat)
    requires id in s.rows
  {
    ArchiveDirFree(s, id) && (s.rows[id].project != "latest" || !HasFiles(s.rows[id]))
  }

  /** A row and its directory at a new place. */
  function Moved(s: Store, id: nat, row: Row): Store
    requires id in s.rows && s.rows[id].snapshotDir in s.dirs
  {
    var from := s.rows[id].snapshotDir;
    Store((s.dirs - {from})[row.snapshotDir := s.dirs[from]], s.archiveRoots + {row.project},
          s.rows[id := row], s.nextId)
  }

  lemma MovedHasOwners(s: Store, id: nat, row: Row)
    requires id in s.rows && NoOrphanDir(s) && s.rows[id].snapshotDir in s.dirs
    ensures NoOrphanDir(Moved(s, id, row))
  {
    var t := Moved(s, id, row);
    forall d | d in t.dirs ensures exists k :: k in t.rows && t.rows[k].snapshotDir == d {
      if d == row.snapshotDir {
        assert t.rows[id].snapshotDir == d;
      } else {
        var k :| k in s.rows && s.rows[k].snapshotDir == d;
        assert t.rows[k].snapshotDir == d;
      }
    }
  }

  lemma MovedStaysApart(s: Store, id: nat, row: Row)
    requires id in s.rows && NoSharedDir(s) && row.snapshotDir !in s.dirs
    requires forall k :: k in s.rows ==> s.rows[k].snapshotDir in s.dirs
    ensures NoSharedDir(Moved(s, id, row))
  {
    var t := Moved(s, id, row);
    forall a, b | a in t.rows && b in t.rows && t.rows[a].snapshotDir == t.rows[b].snapshotDir ensures a == b {
      assert a != id ==> t.rows[a] == s.rows[a];
      assert b != id ==> t.rows[b] == s.rows[b];
    }
  }

  lemma MovedHoldsFiles(s: Store, written: Written, id: nat, row: Row)
    requires id in s.rows && HoldsOwnFiles(s, written) && NoSharedDir(s) && row.snapshotDir !in s.dirs
    ensures HoldsOwnFiles(Moved(s, id, row), written)
  {
    var t := Moved(s, id, row);
    forall k | k in t.rows
      ensures k in written && t.rows[k].snapshotDir in t.dirs && t.dirs[t.rows[k].snapshotDir].files == written[k]
    {
      if k != id {
        assert s.rows[k].snapshotDir != s.rows[id].snapshotDir;
      }
    }
  }

  lemma MovedRowsPlaced(s: Store, written: Written, id: nat, row: Row)
    requires id in s.rows && s.rows[id].snapshotDir in s.dirs && RowsPlaced(s, written) && RowPlaced(row)
    requires RootsExist(s)
    ensures RowsPlaced(Moved(s, id, row), written) && RootsExist(Moved(s, id, row))
  {
    hide RowPlaced;
  }

  /** A row may move to a free directory together with its files. */
  lemma MovingKeepsStep(s: Store, written: Written, id: nat, row: Row)
    requires InStep(s, written) && id in s.rows && row.snapshotDir !in s.dirs
    requires RowPlaced(row)
    ensures InStep(Moved(s, id, row), written)
  {
    MovedHasOwners(s, id, row);
    MovedStaysApart(s, id, row);
    MovedHoldsFiles(s, written, id, row);
    MovedRowsPlaced(s, written, id, row);
    hide Moved, RowsPlaced, NoOrphanDir, NoSharedDir, HoldsOwnFiles, RootsExist;
  }

  lemma ArchivedIsMoved(s: Store, id: nat)
    requires id in s.rows && s.rows[id].snapshotDir in s.dirs && ArchivedRow(s.rows[id]).snapshotDir !in s.dirs
    requires ArchivedRow(s.rows[id]).project == s.rows[id].project
    ensures Archived(s, id) == Moved(s, id, ArchivedRow(s.rows[id]))
  {
    hide ArchivedRow;
    assert s.dirs - {ArchivedRow(s.rows[id]).snapshotDir} == s.dirs;
  }

  lemma ArchiveKeepsStep(s: Store, written: Written, id: nat)
    requires InStep(s, written) && id in s.rows && s.rows[id].isLatest
    ensures InStep(Archived(s, id), written) <==> ArchiveDirFree(s, id)
  {
    var row := s.rows[id];
    assert RowPlaced(row);
    ArchivedRowPlaced(row);
    if ArchiveDirFree(s, id) {
      hide ArchivedRow, RowPlaced;
      ArchivedIsMoved(s, id);
      MovingKeepsStep(s, written, id, ArchivedRow(row));
    } else {
      var k := TakenBy(s, written, id);
      assert Archived(s, id).rows[k].snapshotDir == Archived(s, id).rows[id].snapshotDir;
    }
  }

  /** Another row already owns the archive directory that this row would move to. */
  lemma TakenBy(s: Store, written: Written, id: nat) returns (k: nat)
    requires InStep(s, written) && id in s.rows && s.rows[id].isLatest && !ArchiveDirFree(s, id)
    ensures k in s.rows && k != id && !s.rows[k].isLatest
    ensures s.rows[k].project == s.rows[id].project && ArchiveNameOf(s.rows[k]) == ArchiveNameOf(s.rows[id])
    ensures s.rows[k].snapshotDir == ArchiveDir(s.rows[id].project, SecondOf(s.rows[id].collectedAt))
    ensures s.rows[k].archiveName == Some(ArchiveNameOf(s.rows[id]))
  {
    var to := ArchiveDir(s.rows[id].project, SecondOf(s.rows[id].collectedAt));
    k :| k in s.rows && s.rows[k].snapshotDir == to;
    assert RowPlaced(s.rows[k]);
    ArchivedElsewhere(s.rows[k], s.rows[id].project, SecondOf(s.rows[id].collectedAt));
  }

  lemma ArchivedElsewhere(row: Row, project: string, second: int)
    requires RowPlaced(row) && row.snapshotDir == ArchiveDir(project, second)
    ensures !row.isLatest && row.project == project && SecondOf(row.collectedAt) == second
  {
    var dir := ArchiveDir(project, second);
    assert |dir| == 4 && dir[1] == Name(project) && dir[3] == Stamp(second);
    if !row.isLatest {
      var own := ArchiveDir(row.project, SecondOf(row.collectedAt));
      assert own[1] == Name(row.project) && own[3] == Stamp(SecondOf(row.collectedAt));
    }
  }

  lemma ReplacedNamesFiles(s: Store, t: Store, written: Written, id: nat, row: Row)
    requires FilesNamed(s, written) && id in s.rows && t.rows == s.rows[id := row]
    ensures FilesNamed(t, written) <==> FilesInPlace(row, written[id])
  {
    hide FilesInPlace;
    if FilesNamed(t, written) {
      assert id in t.rows;
    }
  }

  lemma ArchivedRows(s: Store, id: nat)
    requires id in s.rows
    ensures Archived(s, id).rows == s.rows[id := ArchivedRow(s.rows[id])]
  {
  }

  /** Archiving keeps the store consistent exactly when it is safe in this sense. */
  lemma ArchiveKeepsConsistency(s: Store, written: Written, id: nat)
    requires Consistent(s, written) && id in s.rows && s.rows[id].isLatest
    ensures Consistent(Archived(s, id), written) <==> ArchiveSafe(s, id)
  {
    ArchiveKeepsStep(s, written, id);
    assert RowPlaced(s.rows[id]);
    ArchivedFilesInPlace(s.rows[id], written[id]);
    hide FilesInPlace, ArchivedRow, Archived;
    ArchivedRows(s, id);
    hide InStep;
    ReplacedNamesFiles(s, Archived(s, id), written, id, ArchivedRow(s.rows[id]));
  }

  lemma ArchivedHasNoLatest(s: Store, written: Written, id: nat, project: string)
    requires InStep(s, written) && IsLatestRow(s, project, id)
    ensures !exists k :: IsLatestRow(Archived(s, id), project, k)
  {
    forall k ensures !IsLatestRow(Archived(s, id), project, k) {
      if k != id && IsLatestRow(s, project, k) {
        AtMostOneLatest(s, written, project, id, k);
      }
    }
  }

  // ----- Pruning -----

  /** Pruning as a reader expects it: expired directories go with the rows that point at them. */
  function Pruned(s: Store, project: string, cutoff: int): Store
  {
    var gone := Expired(s, project, cutoff);
    s.(dirs := s.dirs - gone,
       rows := map id | id in s.rows && s.rows[id].snapshotDir !in gone :: s.rows[id])
  }

  lemma ArchiveDirOwner(row: Row, project: string)
    requires RowPlaced(row) && IsArchiveDir(row.snapshotDir, project)
    ensures !row.isLatest && row.project == project
    ensures row.archiveName == Some(row.snapshotDir[3])
    ensures row.snapshotDir == ArchiveRoot(project) + [row.archiveName.value]
  {
    assert |row.snapshotDir| == 4;
    assert row.snapshotDir[..3][1] == Name(project);
    assert row.snapshotDir[1] == Name(row.project);
  }

  lemma ArchiveNamePlaced(row: Row, project: string, n: Component)
    requires RowPlaced(row) && row.project == project && row.archiveName == Some(n) && !row.isLatest
    ensures row.snapshotDir == ArchiveRoot(project) + [n]
  {
  }

  /** In a store in step the lookup has exactly the row that points at the directory. */
  lemma LookupFindsOwner(s: Store, written: Written, project: string, byName: Lookup, dir: Path, id: nat)
    requires InStep(s, written) && IsLookup(s, project, byName)
    requires dir in s.dirs && IsArchiveDir(dir, project) && id in s.rows
    ensures dir[3] in byName
    ensures s.rows[id].snapshotDir == dir <==> byName[dir[3]] == id
  {
    var k :| k in s.rows && s.rows[k].snapshotDir == dir;
    assert RowPlaced(s.rows[k]);
    ArchiveDirOwner(s.rows[k], project);
    assert IsArchivedAs(s, project, dir[3], k);
    var found := byName[dir[3]];
    assert RowPlaced(s.rows[found]);
    ArchiveNamePlaced(s.rows[found], project, dir[3]);
    assert s.rows[found].snapshotDir == dir;
  }

  lemma NothingToPrune(s: Store, written: Written, project: string, cutoff: int)
    requires InStep(s, written) && project !in s.archiveRoots
    ensures Pruned(s, project, cutoff) == s
  {
    forall d | d in s.dirs ensures !IsArchiveDir(d, project) {
      if IsArchiveDir(d, project) {
        ArchiveDirHasRoot(s, written, project, d);
      }
    }
    assert Expired(s, project, cutoff) == {};
    hide InStep, Expired, IsArchiveDir;
    assert Pruned(s, project, cutoff).rows == s.rows && Pruned(s, project, cutoff).dirs == s.dirs;
  }

  lemma ArchiveDirHasRoot(s: Store, written: Written, project: string, d: Path)
    requires InStep(s, written) && d in s.dirs && IsArchiveDir(d, project)
    ensures project in s.archiveRoots
  {
    var id :| id in s.rows && s.rows[id].snapshotDir == d;
    assert RowPlaced(s.rows[id]);
    ArchiveDirOwner(s.rows[id], project);
  }

  lemma LookupRowsAreOwners(s: Store, written: Written, project: string, cutoff: int, byName: Lookup)
    requires InStep(s, written) && IsLookup(s, project, byName)
    ensures WithoutDirs(s, Expired(s, project, cutoff), byName) == Pruned(s, project, cutoff)
  {
    var gone := Expired(s, project, cutoff);
    forall id | id in s.rows ensures id in RowsOf(byName, gone) <==> s.rows[id].snapshotDir in gone {
      hide InStep, IsLookup;
      forall d | d in gone ensures d[3] in byName && (s.rows[id].snapshotDir == d <==> byName[d[3]] == id) {
        LookupFindsOwner(s, written, project, byName, d, id);
      }
    }
    assert WithoutDirs(s, gone, byName).rows == Pruned(s, project, cutoff).rows;
  }

  /** In a store in step the directory walk with its lookup is exactly that. */
  lemma PruneIsTogether(s: Store, written: Written, project: string, cutoff: int, t: Store)
    requires InStep(s, written) && PrunesTo(s, project, cutoff, t)
    ensures t == Pruned(s, project, cutoff)
  {
    if project in s.archiveRoots {
      var byName: Lookup :|
        IsLookup(s, project, byName) && t == WithoutDirs(s, Expired(s, project, cutoff), byName);
      LookupRowsAreOwners(s, written, project, cutoff, byName);
    } else {
      NothingToPrune(s, written, project, cutoff);
    }
  }

  lemma PruneKeepsStep(s: Store, written: Written, project: string, cutoff: int)
    requires InStep(s, written)
    ensures InStep(Pruned(s, project, cutoff), written)
  {
    hide RowPlaced, IsArchiveDir;
    var t := Pruned(s, project, cutoff);
    assert RowsPlaced(t, written) && HoldsOwnFiles(t, written) && RootsExist(t);
    forall d | d in t.dirs ensures exists id :: id in t.rows && t.rows[id].snapshotDir == d {
      var id :| id in s.rows && s.rows[id].snapshotDir == d;
      assert t.rows[id].snapshotDir == d;
    }
  }

  lemma PrunedRemovesTogether(s: Store, written: Written, project: string, cutoff: int)
    requires HoldsOwnFiles(s, written)
    ensures var t := Pruned(s, project, cutoff);
            && (forall d :: d in s.dirs ==>
                  (d !in t.dirs <==> IsArchiveDir(d, project) && s.dirs[d].modifiedAt < cutoff))
            && (forall d :: d in t.dirs ==> d in s.dirs && t.dirs[d] == s.dirs[d])
            && (forall id :: id in s.rows ==> (id in t.rows <==> s.rows[id].snapshotDir in t.dirs))
            && (forall id :: id in t.rows ==> id in s.rows && t.rows[id] == s.rows[id])
  {
    hide IsArchiveDir;
  }

  lemma FewerRowsNamed(s: Store, t: Store, written: Written)
    requires FilesNamed(s, written)
    requires forall id :: id in t.rows ==> id in s.rows && t.rows[id] == s.rows[id]
    ensures FilesNamed(t, written)
  {
    hide FilesInPlace;
  }

  /** Pruning keeps the store consistent, and removes each expired archive directory together with
      its row, and nothing else. */
  lemma PruneRemovesTogether(s: Store, written: Written, project: string, cutoff: int, t: Store)
    requires Consistent(s, written) && PrunesTo(s, project, cutoff, t)
    ensures Consistent(t, written)
    ensures forall d :: d in s.dirs ==> (d !in t.dirs <==> IsArchiveDir(d, project) && s.dirs[d].modifiedAt < cutoff)
    ensures forall d :: d in t.dirs ==> d in s.dirs && t.dirs[d] == s.dirs[d]
    ensures forall id :: id in s.rows ==> (id in t.rows <==> s.rows[id].snapshotDir in t.dirs)
    ensures forall id :: id in t.rows ==> id in s.rows && t.rows[id] == s.rows[id]
  {
    PruneIsTogether(s, written, project, cutoff, t);
    PruneKeepsStep(s, written, project, cutoff);
    PrunedRemovesTogether(s, written, project, cutoff);
    hide IsArchiveDir, PrunesTo, FilesNamed, InStep, Pruned;
    FewerRowsNamed(s, t, written);
  }

  // ----- Filling the new latest directory -----

  lemma StoredFilesInPlace(run: Run)
    ensures var row := Row(run.project, run.collectedAt, LatestDir(run.project), None, true, StoredFiles(run),
                           ResolvedKeys(run));
            RowPlaced(row) && FilesInPlace(row, RunFiles(run))
  {
    ResultsAreWritten(run);
    hide RunFiles, Results, ResolvedKeys;
    forall i | 0 <= i < |Results(run)| && Results(run)[i].file.Some?
      ensures NamesFile(StoredFiles(run)[i].value, LatestDir(run.project), RunFiles(run))
    {
      assert Results(run)[i] in Results(run);
      assert Results(run)[i].file.value in RunFiles(run);
    }
  }

  ghost predicate NoRowAt(s: Store, dir: Path)
  {
    forall id :: id in s.rows ==> s.rows[id].snapshotDir != dir
  }

  lemma NoRowAtLatestDir(s: Store, written: Written, project: string)
    requires RowsPlaced(s, written) && !exists id :: IsLatestRow(s, project, id)
    ensures NoRowAt(s, LatestDir(project))
  {
    forall id | id in s.rows ensures s.rows[id].snapshotDir != LatestDir(project) {
      assert RowPlaced(s.rows[id]) && !IsLatestRow(s, project, id);
      assert s.rows[id].isLatest ==> s.rows[id].snapshotDir[1] != Name(project);
    }
  }

  lemma AddingKeepsStep(s: Store, written: Written, row: Row, dir: Directory)
    requires InStep(s, written) && NoRowAt(s, row.snapshotDir)
    requires row.isLatest && RowPlaced(row)
    ensures InStep(Store(s.dirs[row.snapshotDir := dir], s.archiveRoots + {row.project},
                         s.rows[s.nextId := row], s.nextId + 1),
                   written[s.nextId := dir.files])
  {
    hide RowPlaced;
    var t := Store(s.dirs[row.snapshotDir := dir], s.archiveRoots + {row.project},
                   s.rows[s.nextId := row], s.nextId + 1);
    var written' := written[s.nextId := dir.files];
    assert RowsPlaced(t, written') && HoldsOwnFiles(t, written') && NoSharedDir(t) && RootsExist(t);
    forall d | d in t.dirs ensures exists id :: id in t.rows && t.rows[id].snapshotDir == d {
      if d == row.snapshotDir {
        assert t.rows[s.nextId].snapshotDir == d;
      } else {
        var id :| id in s.rows && s.rows[id].snapshotDir == d;
        assert t.rows[id].snapshotDir == d;
      }
    }
  }

  function NewRow(run: Run): Row
  {
    Row(run.project, run.collectedAt, LatestDir(run.project), None, true, StoredFiles(run), ResolvedKeys(run))
  }

  /** What the filling steps add up to. */
  lemma FilledAdds(s: Store, run: Run)
    ensures var dir := Directory(RunFiles(run), run.modifiedAt);
            Filled(s, run) == Store(s.dirs[LatestDir(run.project) := dir], s.archiveRoots + {run.project},
                                    s.rows[s.nextId := NewRow(run)], s.nextId + 1)
  {
    hide RunFiles, StoredFiles, ResolvedKeys, LatestDir;
    var dir, t := Directory(RunFiles(run), run.modifiedAt), Filled(s, run);
    assert t.dirs == s.dirs[LatestDir(run.project) := dir];
    assert t.rows == s.rows[s.nextId := NewRow(run)];
  }

  lemma FillKeepsStep(s: Store, written: Written, run: Run)
    requires InStep(s, written) && NoRowAt(s, LatestDir(run.project))
    ensures InStep(Filled(s, run), written[s.nextId := RunFiles(run)])
  {
    StoredFilesInPlace(run);
    FilledAdds(s, run);
    hide RunFiles, StoredFiles, ResolvedKeys, LatestDir, RowPlaced, Filled, InStep;
    AddingKeepsStep(s, written, NewRow(run), Directory(RunFiles(run), run.modifiedAt));
  }

  lemma FillNamesFiles(s: Store, written: Written, run: Run)
    requires RowsPlaced(s, written)
    ensures FilesNamed(Filled(s, run), written[s.nextId := RunFiles(run)]) <==> FilesNamed(s, written)
  {
    StoredFilesInPlace(run);
    FilledAdds(s, run);
    hide RunFiles, StoredFiles, ResolvedKeys, LatestDir, RowPlaced, Filled, FilesInPlace;
    var t, written' := Filled(s, run), written[s.nextId := RunFiles(run)];
    assert forall id :: id in s.rows ==> id != s.nextId && id in written && t.rows[id] == s.rows[id];
    if FilesNamed(t, written') {
      forall id | id in s.rows ensures FilesInPlace(s.rows[id], written[id]) {
        assert id in t.rows && FilesInPlace(t.rows[id], written'[id]);
      }
    }
  }

  // ----- Whole runs -----

  /** The archive of the current latest row leaves nothing behind that the run cannot repair: its
      directory is free, and a project `latest` has no stored files or sees them expire at once. */
  predicate ArchiveRepairable(s: Store, id: nat, cutoff: int)
    requires id in s.rows
  {
    var row := s.rows[id];
    && ArchiveDirFree(s, id)
    && (row.project != "latest" || !HasFiles(row)
        || (row.snapshotDir in s.dirs && s.dirs[row.snapshotDir].modifiedAt < cutoff))
  }

  /** What a caller can check before a run. */
  ghost predicate RunSafe(s: Store, run: Run)
  {
    forall id :: IsLatestRow(s, run.project, id) ==> ArchiveRepairable(s, id, run.cutoff)
  }

  lemma FirstRunIsConsistent(s: Store, written: Written, run: Run, p: Store)
    requires Consistent(s, written) && !exists id :: IsLatestRow(s, run.project, id)
    requires PrunesTo(s, run.project, run.cutoff, p)
    ensures Consistent(Filled(p, run), written[p.nextId := RunFiles(run)])
  {
    PruneRemovesTogether(s, written, run.project, run.cutoff, p);
    hide PrunesTo, FilesNamed, RunFiles, Filled;
    forall id ensures !IsLatestRow(p, run.project, id) {
      assert !IsLatestRow(s, run.project, id);
    }
    NoRowAtLatestDir(p, written, run.project);
    FillKeepsStep(p, written, run);
    FillNamesFiles(p, written, run);
  }

  lemma PrunedNamesFiles(a: Store, written: Written, id: nat, project: string, cutoff: int)
    requires id in a.rows && id in written && a.rows[id].snapshotDir in a.dirs
    requires IsArchiveDir(a.rows[id].snapshotDir, project)
    requires forall k :: k in a.rows && k != id ==> k in written && FilesInPlace(a.rows[k], written[k])
    ensures FilesNamed(Pruned(a, project, cutoff), written)
       <==> FilesInPlace(a.rows[id], written[id]) || a.dirs[a.rows[id].snapshotDir].modifiedAt < cutoff
  {
    var p := Pruned(a, project, cutoff);
    assert id in p.rows <==> !(a.dirs[a.rows[id].snapshotDir].modifiedAt < cutoff);
    hide FilesInPlace, IsArchiveDir;
    assert forall k :: k in p.rows ==> p.rows[k] == a.rows[k];
    if FilesNamed(p, written) && id in p.rows {
      assert FilesInPlace(p.rows[id], written[id]);
    }
  }

  lemma ArchivedDirectory(s: Store, written: Written, id: nat)
    requires InStep(s, written) && id in s.rows && s.rows[id].isLatest && ArchiveDirFree(s, id)
    ensures var a, row := Archived(s, id), s.rows[id];
            && row.snapshotDir in s.dirs
            && a.rows == s.rows[id := ArchivedRow(row)]
            && IsArchiveDir(ArchivedRow(row).snapshotDir, row.project)
            && ArchivedRow(row).snapshotDir in a.dirs
            && a.dirs[ArchivedRow(row).snapshotDir] == s.dirs[row.snapshotDir]
  {
    var row := s.rows[id];
    assert RowPlaced(row);
    ArchivedRowPlaced(row);
    assert ArchiveDir(row.project, SecondOf(row.collectedAt))[..3] == ArchiveRoot(row.project);
    hide ArchivedRow, RowPlaced;
    ArchivedIsMoved(s, id);
  }

  /** The archived row is the only one whose files may be misplaced, and pruning may remove it. */
  lemma NextRunNamesFiles(s: Store, written: Written, id: nat, run: Run)
    requires Consistent(s, written) && IsLatestRow(s, run.project, id) && ArchiveDirFree(s, id)
    ensures FilesNamed(Pruned(Archived(s, id), run.project, run.cutoff), written)
       <==> ArchiveRepairable(s, id, run.cutoff)
  {
    var row, a := s.rows[id], Archived(s, id);
    assert RowPlaced(row);
    ArchivedFilesInPlace(row, written[id]);
    ArchivedDirectory(s, written, id);
    hide FilesInPlace, ArchivedRow, RowPlaced, InStep, Archived, IsArchiveDir, Pruned;
    PrunedNamesFiles(a, written, id, run.project, run.cutoff);
  }

  lemma NextRunIsConsistent(s: Store, written: Written, id: nat, run: Run, p: Store)
    requires Consistent(s, written) && IsLatestRow(s, run.project, id) && ArchiveDirFree(s, id)
    requires PrunesTo(Archived(s, id), run.project, run.cutoff, p)
    ensures Consistent(Filled(p, run), written[p.nextId := RunFiles(run)]) <==> ArchiveRepairable(s, id, run.cutoff)
  {
    var a := Archived(s, id);
    ArchiveKeepsStep(s, written, id);
    ArchivedHasNoLatest(s, written, id, run.project);
    PruneIsTogether(a, written, run.project, run.cutoff, p);
    PruneKeepsStep(a, written, run.project, run.cutoff);
    NextRunNamesFiles(s, written, id, run);
    hide PrunesTo, FilesNamed, RunFiles, Filled, Archived, ArchiveRepairable, RowsPlaced;
    forall k ensures !IsLatestRow(p, run.project, k) {
      assert !IsLatestRow(a, run.project, k);
    }
    assert RowsPlaced(p, written);
    NoRowAtLatestDir(p, written, run.project);
    FillKeepsStep(p, written, run);
    FillNamesFiles(p, written, run);
  }

  /** The lookup gives the row of one archive name only for the directory of that name. */
  lemma OnlyOwnName(s: Store, project: string, cutoff: int, byName: Lookup, n: Component, k: nat)
    requires IsLookup(s, project, byName) && IsArchivedAs(s, project, n, k)
    requires k in RowsOf(byName, Expired(s, project, cutoff))
    ensures n in byName && k == byName[n] && ArchiveRoot(project) + [n] in Expired(s, project, cutoff)
  {
    var gone := Expired(s, project, cutoff);
    var d :| d in gone && d != [] && d[|d| - 1] in byName && byName[d[|d| - 1]] == k;
    hide RowsOf, Expired;
    assert IsArchivedAs(s, project, d[|d| - 1], k);
    ExpiredIsArchiveDir(s, project, cutoff, d);
  }

  lemma ExpiredIsArchiveDir(s: Store, project: string, cutoff: int, d: Path)
    requires d in Expired(s, project, cutoff)
    ensures d != [] && d == ArchiveRoot(project) + [d[|d| - 1]]
  {
    assert d == d[..3] + [d[3]];
  }

  /** Two rows with one archive name: pruning takes at most one of them. */
  lemma OneOfTwoStays(s: Store, project: string, cutoff: int, p: Store, a: nat, b: nat, n: Component)
    requires PrunesTo(s, project, cutoff, p) && a != b
    requires IsArchivedAs(s, project, n, a) && IsArchivedAs(s, project, n, b)
    ensures a in p.rows || b in p.rows
    ensures ArchiveRoot(project) + [n] in p.dirs ==> a in p.rows && b in p.rows
    ensures forall k :: k in p.rows ==> k in s.rows && p.rows[k] == s.rows[k]
  {
    if project in s.archiveRoots {
      var gone := Expired(s, project, cutoff);
      var byName: Lookup :| IsLookup(s, project, byName) && p == WithoutDirs(s, gone, byName);
      hide RowsOf, Expired, IsLookup;
      if a in RowsOf(byName, gone) {
        OnlyOwnName(s, project, cutoff, byName, n, a);
      }
      if b in RowsOf(byName, gone) {
        OnlyOwnName(s, project, cutoff, byName, n, b);
      }
    }
  }

  /** Archiving onto a taken directory leaves two archived rows of one name pointing at it. */
  lemma TakenArchiveIsShared(s: Store, written: Written, id: nat) returns (k: nat)
    requires InStep(s, written) && id in s.rows && s.rows[id].isLatest && !ArchiveDirFree(s, id)
    ensures var a, project, n := Archived(s, id), s.rows[id].project, ArchiveNameOf(s.rows[id]);
            && k != id && k < a.nextId && id < a.nextId
            && IsArchivedAs(a, project, n, id) && IsArchivedAs(a, project, n, k)
            && a.rows[id].snapshotDir == a.rows[k].snapshotDir == ArchiveRoot(project) + [n]
  {
    var row := s.rows[id];
    assert RowPlaced(row);
    ArchivedRowPlaced(row);
    k := TakenBy(s, written, id);
    assert s.rows[k].snapshotDir == ArchiveRoot(row.project) + [ArchiveNameOf(row)];
    hide InStep;
    ArchivedRows(s, id);
    ArchivedKeepsNextId(s, id);
    hide Archived;
  }

  lemma TakenArchiveIsInconsistent(s: Store, written: Written, id: nat, run: Run, p: Store)
    requires InStep(s, written) && IsLatestRow(s, run.project, id) && !ArchiveDirFree(s, id)
    requires PrunesTo(Archived(s, id), run.project, run.cutoff, p)
    ensures !InStep(Filled(p, run), written[p.nextId := RunFiles(run)])
  {
    var a, n := Archived(s, id), ArchiveNameOf(s.rows[id]);
    var k := TakenArchiveIsShared(s, written, id);
    hide InStep, Archived, Filled, RunFiles;
    OneOfTwoStays(a, run.project, run.cutoff, p, id, k, n);
    PruneKeepsIds(a, run.project, run.cutoff, p);
    hide PrunesTo;
    TwoOwnersBreakStep(p, run, written[p.nextId := RunFiles(run)], id, k, ArchiveRoot(run.project) + [n]);
  }

  lemma PruneKeepsIds(s: Store, project: string, cutoff: int, p: Store)
    requires PrunesTo(s, project, cutoff, p)
    ensures p.nextId == s.nextId && p.dirs.Keys <= s.dirs.Keys
  {
  }

  lemma TwoOwnersBreakStep(p: Store, run: Run, written: Written, a: nat, b: nat, to: Path)
    requires a != b && a < p.nextId && b < p.nextId && to != LatestDir(run.project)
    requires a in p.rows || b in p.rows
    requires to in p.dirs ==> a in p.rows && b in p.rows
    requires a in p.rows ==> p.rows[a].snapshotDir == to
    requires b in p.rows ==> p.rows[b].snapshotDir == to
    ensures !InStep(Filled(p, run), written)
  {
    FilledAdds(p, run);
    var t := Filled(p, run);
    hide Filled, RunFiles, StoredFiles, ResolvedKeys, LatestDir;
    if to in p.dirs {
      assert t.rows[a].snapshotDir == t.rows[b].snapshotDir;
    } else {
      var k := if a in p.rows then a else b;
      assert t.rows[k].snapshotDir !in t.dirs;
    }
  }

  /** A run keeps the store consistent exactly when it is safe. */
  lemma CompletedRunIsConsistent(s: Store, written: Written, run: Run, t: Store)
    requires Consistent(s, written) && RunsTo(s, run, t)
    ensures t.nextId == s.nextId + 1
    ensures Consistent(t, written[s.nextId := RunFiles(run)]) <==> RunSafe(s, run)
  {
    var a, p :| ArchivesTo(s, run.project, a) && PrunesTo(a, run.project, run.cutoff, p) && t == Filled(p, run);
    PruneKeepsIds(a, run.project, run.cutoff, p);
    FilledAdds(p, run);
    hide PrunesTo, Consistent, InStep, Archived, Filled, RunFiles, ArchiveRepairable;
    if exists id :: IsLatestRow(s, run.project, id) {
      var id :| IsLatestRow(s, run.project, id) && a == Archived(s, id);
      LatestIsUnique(s, written, run.project, id);
      assert RunSafe(s, run) <==> ArchiveRepairable(s, id, run.cutoff);
      ArchivedKeepsNextId(s, id);
      RunFromLatest(s, written, id, run, p);
    } else {
      FirstRunIsConsistent(s, written, run, p);
    }
  }

  lemma ArchivedKeepsNextId(s: Store, id: nat)
    requires id in s.rows
    ensures Archived(s, id).nextId == s.nextId
  {
  }

  lemma LatestIsUnique(s: Store, written: Written, project: string, id: nat)
    requires Consistent(s, written) && IsLatestRow(s, project, id)
    ensures forall k :: IsLatestRow(s, project, k) ==> k == id
  {
    forall k | IsLatestRow(s, project, k) ensures k == id {
      AtMostOneLatest(s, written, project, k, id);
    }
  }

  lemma RunFromLatest(s: Store, written: Written, id: nat, run: Run, p: Store)
    requires Consistent(s, written) && IsLatestRow(s, run.project, id)
    requires PrunesTo(Archived(s, id), run.project, run.cutoff, p)
    ensures Consistent(Filled(p, run), written[p.nextId := RunFiles(run)]) <==> ArchiveRepairable(s, id, run.cutoff)
  {
    if ArchiveDirFree(s, id) {
      NextRunIsConsistent(s, written, id, run, p);
    } else {
      TakenArchiveIsInconsistent(s, written, id, run, p);
    }
  }
}
