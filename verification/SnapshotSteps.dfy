/** A whole workflow run is one of the step sequences that may also stop half-way. */
module SnapshotSteps {
  import opened Options
  import opened SnapshotModel
  import opened SnapshotFailures

  /** The steps are enabled one after the other and lead from s to t. */
  ghost predicate Leads(s: State, steps: seq<Step>, t: State)
    decreases |steps|
  {
    if steps == [] then s == t
    else Enabled(s, steps[0]) && Leads(After(s, steps[0]), steps[1..], t)
  }

  lemma {:induction false} LeadsOn(s: State, a: seq<Step>, u: State, b: seq<Step>, t: State)
    requires Leads(s, a, u) && Leads(u, b, t)
    ensures Leads(s, a + b, t)
    decreases |a|
  {
    hide Enabled, After;
    if a == [] {
      assert a + b == b;
    } else {
      LeadsOn(After(s, a[0]), a[1..], u, b, t);
      assert (a + b)[1..] == a[1..] + b;
    }
  }

  lemma StepLeads(s: State, step: Step, rest: seq<Step>, t: State)
    requires Enabled(s, step) && Leads(After(s, step), rest, t)
    ensures Leads(s, [step] + rest, t)
  {
    assert ([step] + rest)[1..] == rest;
  }

  lemma NoStep(s: State)
    ensures Leads(s, [], s)
  {
  }

  function Acting(store: Store, run: Run, phase: Phase): State
  {
    State(store, Some(Active(run, phase)))
  }

  // ----- Archiving -----

  /** The row with the first k files rewritten. */
  function Rewritten(row: Row, k: nat): Row
    requires k <= |row.files|
  {
    row.(files := ArchivedFiles(row.files, ArchiveNameOf(row))[..k] + row.files[k..])
  }

  lemma {:induction false} RewriteSteps(s: Store, run: Run, id: nat, row: Row, k: nat) returns (steps: seq<Step>)
    requires k <= |row.files| && id in s.rows && s.rows[id] == Rewritten(row, k)
    ensures Leads(Acting(s, run, Archiving(id)), steps,
                  Acting(s.(rows := s.rows[id := Rewritten(row, |row.files|)]), run, Archiving(id)))
    decreases |row.files| - k
  {
    var start := Acting(s, run, Archiving(id));
    hide ArchivedSourceFile;
    if k == |row.files| {
      assert s.rows[id := s.rows[id]] == s.rows;
      steps := [];
    } else if row.files[k].None? {
      assert Rewritten(row, k + 1) == Rewritten(row, k);
      steps := RewriteSteps(s, run, id, row, k + 1);
    } else {
      var next := After(start, RewriteFile(k));
      assert next.store.rows[id] == Rewritten(row, k + 1);
      var rest := RewriteSteps(next.store, run, id, row, k + 1);
      var done := Rewritten(row, |row.files|);
      assert next.store.rows[id := done] == s.rows[id := done];
      StepLeads(start, RewriteFile(k), rest, Acting(s.(rows := s.rows[id := done]), run, Archiving(id)));
      steps := [RewriteFile(k)] + rest;
    }
  }

  /** Clearing the target, moving the directory, rewriting the files and marking the row archive it. */
  lemma ArchiveSteps(s: Store, run: Run, id: nat) returns (steps: seq<Step>)
    requires IsLatestRow(s, run.project, id)
    ensures Leads(Acting(s, run, Archiving(id)), steps, Acting(Archived(s, id), run, Pruning))
  {
    var start, row := Acting(s, run, Archiving(id)), s.rows[id];
    var cleared := After(start, ClearTarget);
    var moved := After(cleared, MoveDirectory);
    assert Rewritten(row, 0) == row && moved.store.rows[id] == row;
    var rewrites := RewriteSteps(moved.store, run, id, row, 0);
    var done := Rewritten(row, |row.files|);
    var rewritten := Acting(moved.store.(rows := s.rows[id := done]), run, Archiving(id));
    MarkedIsArchived(s, run, id, moved, rewritten);
    hide Enabled, After, Rewritten, Archived;
    NoStep(Acting(Archived(s, id), run, Pruning));
    StepLeads(rewritten, MarkArchived, [], Acting(Archived(s, id), run, Pruning));
    LeadsOn(moved, rewrites, rewritten, [MarkArchived] + [], Acting(Archived(s, id), run, Pruning));
    steps := rewrites + ([MarkArchived] + []);
    StepLeads(cleared, MoveDirectory, steps, Acting(Archived(s, id), run, Pruning));
    steps := [MoveDirectory] + steps;
    StepLeads(start, ClearTarget, steps, Acting(Archived(s, id), run, Pruning));
    steps := [ClearTarget] + steps;
  }

  lemma MarkedIsArchived(s: Store, run: Run, id: nat, moved: State, rewritten: State)
    requires IsLatestRow(s, run.project, id)
    requires moved == After(After(Acting(s, run, Archiving(id)), ClearTarget), MoveDirectory)
    requires rewritten == Acting(moved.store.(rows := s.rows[id := Rewritten(s.rows[id], |s.rows[id].files|)]),
                                 run, Archiving(id))
    ensures Enabled(rewritten, MarkArchived) && After(rewritten, MarkArchived) == Acting(Archived(s, id), run, Pruning)
  {
    var row := s.rows[id];
    var files := ArchivedFiles(row.files, ArchiveNameOf(row));
    assert files[..|files|] + row.files[|files|..] == files;
    assert Rewritten(row, |row.files|) == row.(files := files);
    hide ArchivedSnapshotDir, ArchivedFiles;
    assert s.rows[id := row.(files := files)][id := ArchivedRow(row)] == s.rows[id := ArchivedRow(row)];
  }

  // ----- Pruning -----

  lemma {:induction false} RemoveSteps(s: Store, run: Run, gone: set<Path>) returns (steps: seq<Step>)
    requires gone <= Expired(s, run.project, run.cutoff)
    ensures Leads(Acting(s, run, Pruning), steps, Acting(s.(dirs := s.dirs - gone), run, Pruning))
    decreases |gone|
  {
    var start := Acting(s, run, Pruning);
    if gone == {} {
      assert s.dirs - gone == s.dirs;
      steps := [];
    } else {
      var dir :| dir in gone;
      var next := s.(dirs := s.dirs - {dir});
      steps := RemoveSteps(next, run, gone - {dir});
      assert next.dirs - (gone - {dir}) == s.dirs - gone;
      StepLeads(start, RemoveDirectory(dir), steps, Acting(s.(dirs := s.dirs - gone), run, Pruning));
      steps := [RemoveDirectory(dir)] + steps;
    }
  }

  ghost predicate AllArchived(s: Store, project: string, ids: set<nat>)
  {
    forall id :: id in ids ==> exists n :: IsArchivedAs(s, project, n, id)
  }

  lemma {:induction false} DeleteSteps(s: Store, run: Run, ids: set<nat>) returns (steps: seq<Step>)
    requires AllArchived(s, run.project, ids)
    ensures Leads(Acting(s, run, Pruning), steps, Acting(s.(rows := s.rows - ids), run, Pruning))
    decreases |ids|
  {
    var start := Acting(s, run, Pruning);
    if ids == {} {
      assert s.rows - ids == s.rows;
      steps := [];
    } else {
      var id :| id in ids;
      var next := s.(rows := s.rows - {id});
      assert AllArchived(next, run.project, ids - {id}) by {
        assert forall n, k :: k in ids - {id} && IsArchivedAs(s, run.project, n, k) ==>
            IsArchivedAs(next, run.project, n, k);
      }
      steps := DeleteSteps(next, run, ids - {id});
      assert next.rows - (ids - {id}) == s.rows - ids;
      StepLeads(start, DeleteRow(id), steps, Acting(s.(rows := s.rows - ids), run, Pruning));
      steps := [DeleteRow(id)] + steps;
    }
  }

  lemma PruneSteps(s: Store, run: Run, t: Store) returns (steps: seq<Step>)
    requires PrunesTo(s, run.project, run.cutoff, t)
    ensures Leads(Acting(s, run, Pruning), steps, Acting(t, run, Pruning))
  {
    if run.project in s.archiveRoots {
      var gone := Expired(s, run.project, run.cutoff);
      var byName: Lookup :| IsLookup(s, run.project, byName) && t == WithoutDirs(s, gone, byName);
      var removes := RemoveSteps(s, run, gone);
      var removed := s.(dirs := s.dirs - gone);
      var ids := RowsOf(byName, gone);
      assert AllArchived(removed, run.project, ids) by {
        assert forall n, k :: IsArchivedAs(s, run.project, n, k) ==> IsArchivedAs(removed, run.project, n, k);
      }
      var deletes := DeleteSteps(removed, run, ids);
      LeadsOn(Acting(s, run, Pruning), removes, Acting(removed, run, Pruning), deletes, Acting(t, run, Pruning));
      steps := removes + deletes;
    } else {
      NoStep(Acting(s, run, Pruning));
      steps := [];
    }
  }

  // ----- Filling -----

  /** The store with some files in the latest directory of the run. */
  function WithFiles(s: Store, run: Run, files: map<string, Content>): Store
  {
    s.(dirs := s.dirs[LatestDir(run.project) := Directory(files, run.modifiedAt)])
  }

  lemma OneFile(s: Store, run: Run, id: nat, files: map<string, Content>, name: string, content: Content)
    requires id in s.rows
    ensures var start := Acting(WithFiles(s, run, files), run, Filling(id));
            && Enabled(start, WriteFile(name, content))
            && After(start, WriteFile(name, content))
               == Acting(WithFiles(s, run, files[name := content]), run, Filling(id))
  {
    hide LatestDir;
  }

  lemma {:induction false} WriteSteps(s: Store, run: Run, id: nat, i: nat) returns (steps: seq<Step>)
    requires id in s.rows && i <= |run.sources|
    ensures Leads(Acting(WithFiles(s, run, SourceFiles(run.sources[..i])), run, Filling(id)), steps,
                  Acting(WithFiles(s, run, SourceFiles(run.sources)), run, Filling(id)))
    decreases |run.sources| - i
  {
    var files := SourceFiles(run.sources[..i]);
    var start := Acting(WithFiles(s, run, files), run, Filling(id));
    if i == |run.sources| {
      assert run.sources[..i] == run.sources;
      NoStep(start);
      steps := [];
    } else {
      SourceStep(run.sources, i);
      steps := WriteSteps(s, run, id, i + 1);
      hide SourceFiles, WithFiles;
      var end := Acting(WithFiles(s, run, SourceFiles(run.sources)), run, Filling(id));
      match run.sources[i] {
        case Failed(_, None) =>
        case Failed(key, Some(content)) => steps := FileStep(s, run, id, files, key, content, steps, end);
        case Collected(key, content) => steps := FileStep(s, run, id, files, key, content, steps, end);
      }
    }
  }

  lemma FileStep(s: Store, run: Run, id: nat, files: map<string, Content>, key: string, content: Content,
                 rest: seq<Step>, end: State) returns (steps: seq<Step>)
    requires id in s.rows
    requires Leads(Acting(WithFiles(s, run, files[LogFile(key) := content]), run, Filling(id)), rest, end)
    ensures Leads(Acting(WithFiles(s, run, files), run, Filling(id)), steps, end)
  {
    var step := WriteFile(LogFile(key), content);
    OneFile(s, run, id, files, LogFile(key), content);
    hide Enabled, After, Leads, WithFiles;
    StepLeads(Acting(WithFiles(s, run, files), run, Filling(id)), step, rest, end);
    steps := [step] + rest;
  }

  lemma {:induction false} SaveSteps(s: Store, run: Run, id: nat, row: Row, k: nat) returns (steps: seq<Step>)
    requires id in s.rows && k <= |StoredFiles(run)| && s.rows[id] == row.(files := StoredFiles(run)[..k])
    ensures Leads(Acting(s, run, Filling(id)), steps,
                  Acting(s.(rows := s.rows[id := row.(files := StoredFiles(run), resolvedKeys := ResolvedKeys(run))]),
                         run, Filling(id)))
    decreases |StoredFiles(run)| - k
  {
    var start, all := Acting(s, run, Filling(id)), StoredFiles(run);
    var done := row.(files := all, resolvedKeys := ResolvedKeys(run));
    var end := Acting(s.(rows := s.rows[id := done]), run, Filling(id));
    hide StoredFiles, ResolvedKeys;
    if k == |all| {
      assert all[..k] == all;
      NoStep(end);
      StepLeads(start, SaveKeys(ResolvedKeys(run)), [], end);
      steps := [SaveKeys(ResolvedKeys(run))] + [];
    } else {
      var next := After(start, SaveSource(all[k]));
      assert all[..k] + [all[k]] == all[..k + 1];
      steps := SaveSteps(next.store, run, id, row, k + 1);
      assert next.store.rows[id := done] == s.rows[id := done];
      StepLeads(start, SaveSource(all[k]), steps, end);
      steps := [SaveSource(all[k])] + steps;
    }
  }

  /** All files of the run: those of the sources, and the diagnostics when one failed. */
  lemma CollectSteps(s: Store, run: Run, id: nat) returns (steps: seq<Step>)
    requires id in s.rows
    ensures Leads(Acting(WithFiles(s, run, map[]), run, Filling(id)), steps,
                  Acting(WithFiles(s, run, RunFiles(run)), run, Filling(id)))
  {
    var files := SourceFiles(run.sources);
    var start := Acting(WithFiles(s, run, map[]), run, Filling(id));
    var collected := Acting(WithFiles(s, run, files), run, Filling(id));
    NoSources();
    assert run.sources[..0] == [];
    steps := WriteSteps(s, run, id, 0);
    if AnyFailed(run.sources) {
      var write := WriteFile(DIAGNOSTICS_FILE, run.diagnostics);
      var end := Acting(WithFiles(s, run, RunFiles(run)), run, Filling(id));
      OneFile(s, run, id, files, DIAGNOSTICS_FILE, run.diagnostics);
      hide Enabled, After, WithFiles, SourceFiles;
      NoStep(end);
      StepLeads(collected, write, [], end);
      LeadsOn(start, steps, collected, [write] + [], end);
      steps := steps + ([write] + []);
    }
  }

  /** Creating the row and preparing the directory: three steps to the store the sources are collected into. */
  lemma PrepareSteps(s: Store, run: Run, rest: seq<Step>, end: State)
    requires var prepared := Prepared(Created(s, run), run);
             Leads(Acting(prepared, run, Filling(s.nextId)), rest, end)
    ensures Leads(Acting(s, run, Pruning), [CreateRow] + ([ClearLatest] + ([PrepareDirectory] + rest)), end)
  {
    var id, start := s.nextId, Acting(s, run, Pruning);
    var created := Acting(Created(s, run), run, Filling(id));
    hide LatestDir;
    assert After(start, CreateRow) == created;
    var cleared := After(created, ClearLatest);
    var latest := LatestDir(run.project);
    assert (s.dirs - {latest})[latest := Directory(map[], run.modifiedAt)]
        == s.dirs[latest := Directory(map[], run.modifiedAt)];
    assert After(cleared, PrepareDirectory) == Acting(Prepared(Created(s, run), run), run, Filling(id));
    assert Enabled(start, CreateRow) && Enabled(created, ClearLatest) && Enabled(cleared, PrepareDirectory);
    hide Leads, Created, Prepared, After, Enabled;
    StepLeads(cleared, PrepareDirectory, rest, end);
    StepLeads(created, ClearLatest, [PrepareDirectory] + rest, end);
    StepLeads(start, CreateRow, [ClearLatest] + ([PrepareDirectory] + rest), end);
  }

  /** Saving fills the created row. */
  lemma SavedIsFilled(s: Store, run: Run) returns (steps: seq<Step>)
    ensures var collected := CollectedInto(Prepared(Created(s, run), run), run);
            Leads(Acting(collected, run, Filling(s.nextId)), steps, Acting(Filled(s, run), run, Filling(s.nextId)))
  {
    hide LatestDir, StoredFiles, ResolvedKeys, RunFiles, Leads;
    var row := Created(s, run).rows[s.nextId];
    assert StoredFiles(run)[..0] == [];
    steps := SaveSteps(CollectedInto(Prepared(Created(s, run), run), run), run, s.nextId, row, 0);
  }

  /** From the created row to the saved one. */
  lemma FillSteps(s: Store, run: Run) returns (steps: seq<Step>)
    ensures Leads(Acting(s, run, Pruning), steps, Acting(Filled(s, run), run, Filling(s.nextId)))
  {
    var prepared := Prepared(Created(s, run), run);
    var collected := CollectedInto(prepared, run);
    var end := Acting(Filled(s, run), run, Filling(s.nextId));
    var collects := CollectSteps(prepared, run, s.nextId);
    var saves := SavedIsFilled(s, run);
    hide LatestDir, RunFiles, Leads, Filled;
    assert WithFiles(prepared, run, map[]) == prepared;
    assert WithFiles(prepared, run, RunFiles(run)) == collected;
    hide WithFiles, Prepared, CollectedInto;
    LeadsOn(Acting(prepared, run, Filling(s.nextId)), collects, Acting(collected, run, Filling(s.nextId)), saves, end);
    PrepareSteps(s, run, collects + saves, end);
    steps := [CreateRow] + ([ClearLatest] + ([PrepareDirectory] + (collects + saves)));
  }

  /** From taking the lock to a store without a latest row of the project. */
  lemma BeginSteps(s: Store, run: Run, a: Store) returns (steps: seq<Step>)
    requires ArchivesTo(s, run.project, a)
    ensures Leads(State(s, None), steps, Acting(a, run, Pruning))
  {
    var first: Step;
    if exists id :: IsLatestRow(s, run.project, id) {
      var id :| IsLatestRow(s, run.project, id) && a == Archived(s, id);
      steps := ArchiveSteps(s, run, id);
      first := Begin(run, Some(id));
    } else {
      NoStep(Acting(a, run, Pruning));
      steps := [];
      first := Begin(run, None);
    }
    hide Leads, Archived;
    StepLeads(State(s, None), first, steps, Acting(a, run, Pruning));
    steps := [first] + steps;
  }

  /** Every whole run is such a sequence of steps: what holds of all histories holds of whole runs. */
  lemma RunIsStepSequence(s: Store, run: Run, t: Store) returns (steps: seq<Step>)
    requires RunsTo(s, run, t)
    ensures Leads(State(s, None), steps, State(t, None))
  {
    var a, p :| ArchivesTo(s, run.project, a) && PrunesTo(a, run.project, run.cutoff, p) && t == Filled(p, run);
    hide Leads, ArchivesTo, PrunesTo, Filled;
    var begins := BeginSteps(s, run, a);
    var prunes := PruneSteps(a, run, p);
    var fills := FillSteps(p, run);
    var filled := Acting(t, run, Filling(p.nextId));
    NoStep(State(t, None));
    StepLeads(filled, Stop, [], State(t, None));
    LeadsOn(Acting(p, run, Pruning), fills, filled, [Stop] + [], State(t, None));
    LeadsOn(Acting(a, run, Pruning), prunes, Acting(p, run, Pruning), fills + ([Stop] + []), State(t, None));
    steps := prunes + (fills + ([Stop] + []));
    LeadsOn(State(s, None), begins, Acting(a, run, Pruning), steps, State(t, None));
    steps := begins + steps;
  }
}
