/** Workflow runs that may fail or be cancelled at any point, as single steps under the collection lock. */
module SnapshotFailures {
  import opened Options
  import opened SnapshotModel
  import opened SnapshotLifecycle

  /** How far the active run has come. */
  datatype Phase =
    | Archiving(id: nat)   // a latest row was found and is being archived
    | Pruning              // nothing of the project is latest now
    | Filling(id: nat)     // the new row exists

  datatype Active = Active(run: Run, phase: Phase)

  /** The persisted store and the run that holds the lock, if any. */
  datatype State = State(store: Store, active: Option<Active>)

  const START := State(EMPTY, None)

  datatype Step =
    | Begin(run: Run, latest: Option<nat>)
    | ClearTarget
    | MoveDirectory
    | RewriteFile(i: nat)
    | MarkArchived
    | RemoveDirectory(dir: Path)
    | DeleteRow(id: nat)
    | CreateRow
    | ClearLatest
    | PrepareDirectory
    | WriteFile(name: string, content: Content)
    | SaveSource(file: Option<Path>)
    | SaveKeys(keys: seq<string>)
    | Stop     // success, failure or cancellation: the lock is given back

  predicate InPhase(s: State, step: Step)
  {
    s.active.Some? &&
    match step
    case Begin(_, _) => false
    case ClearTarget => s.active.value.phase.Archiving?
    case MoveDirectory => s.active.value.phase.Archiving?
    case RewriteFile(_) => s.active.value.phase.Archiving?
    case MarkArchived => s.active.value.phase.Archiving?
    case RemoveDirectory(_) => s.active.value.phase.Pruning?
    case DeleteRow(_) => s.active.value.phase.Pruning?
    case CreateRow => s.active.value.phase.Pruning?
    case ClearLatest => s.active.value.phase.Filling?
    case PrepareDirectory => s.active.value.phase.Filling?
    case WriteFile(_, _) => s.active.value.phase.Filling?
    case SaveSource(_) => s.active.value.phase.Filling?
    case SaveKeys(_) => s.active.value.phase.Filling?
    case Stop => true
  }

  ghost predicate Enabled(s: State, step: Step)
  {
    match step
    case Begin(run, latest) =>
      s.active.None? && if latest.Some? then IsLatestRow(s.store, run.project, latest.value)
                        else !exists id :: IsLatestRow(s.store, run.project, id)
    case RewriteFile(i) =>
      InPhase(s, step) && s.active.value.phase.id in s.store.rows
      && i < |s.store.rows[s.active.value.phase.id].files| && s.store.rows[s.active.value.phase.id].files[i].Some?
    case RemoveDirectory(dir) =>
      InPhase(s, step) && dir in Expired(s.store, s.active.value.run.project, s.active.value.run.cutoff)
    case DeleteRow(id) =>
      InPhase(s, step) && exists n :: IsArchivedAs(s.store, s.active.value.run.project, n, id)
    case _ =>
      InPhase(s, step) && (s.active.value.phase.Pruning? || s.active.value.phase.id in s.store.rows)
  }

  function WithRow(s: State, id: nat, row: Row): State
  {
    s.(store := s.store.(rows := s.store.rows[id := row]))
  }

  function WithDirs(s: State, dirs: map<Path, Directory>): State
  {
    s.(store := s.store.(dirs := dirs))
  }

  function Entered(s: State, phase: Phase): State
    requires s.active.Some?
  {
    s.(active := Some(s.active.value.(phase := phase)))
  }

  /** The effect of one step on rows, directories and the active run. */
  function After(s: State, step: Step): State
    requires Enabled(s, step)
  {
    match step
    case Begin(run, latest) =>
      s.(active := Some(Active(run, if latest.Some? then Archiving(latest.value) else Pruning)))
    case ClearTarget =>
      WithDirs(s, s.store.dirs - {ArchivedRow(s.store.rows[s.active.value.phase.id]).snapshotDir})
    case MoveDirectory =>
      var row := s.store.rows[s.active.value.phase.id];
      if row.snapshotDir in s.store.dirs then
        s.(store := s.store.(
             dirs := (s.store.dirs - {row.snapshotDir})[ArchivedRow(row).snapshotDir := s.store.dirs[row.snapshotDir]],
             archiveRoots := s.store.archiveRoots + {row.project}))
      else s
    case RewriteFile(i) =>
      var row := s.store.rows[s.active.value.phase.id];
      WithRow(s, s.active.value.phase.id,
              row.(files := row.files[i := Some(ArchivedSourceFile(row.files[i].value, ArchiveNameOf(row)))]))
    case MarkArchived =>
      var row := s.store.rows[s.active.value.phase.id];
      Entered(WithRow(s, s.active.value.phase.id,
                      row.(isLatest := false, archiveName := Some(ArchiveNameOf(row)),
                           snapshotDir := ArchivedRow(row).snapshotDir)), Pruning)
    case RemoveDirectory(dir) => WithDirs(s, s.store.dirs - {dir})
    case DeleteRow(id) => s.(store := s.store.(rows := s.store.rows - {id}))
    case CreateRow => Entered(s.(store := Created(s.store, s.active.value.run)), Filling(s.store.nextId))
    case ClearLatest => WithDirs(s, s.store.dirs - {LatestDir(s.active.value.run.project)})
    case PrepareDirectory => s.(store := Prepared(s.store, s.active.value.run))
    case WriteFile(name, content) =>
      var latest := LatestDir(s.active.value.run.project);
      if latest in s.store.dirs then
        WithDirs(s, s.store.dirs[latest := s.store.dirs[latest].(files := s.store.dirs[latest].files[name := content])])
      else s
    case SaveSource(file) =>
      var row := s.store.rows[s.active.value.phase.id];
      WithRow(s, s.active.value.phase.id, row.(files := row.files + [file]))
    case SaveKeys(keys) =>
      WithRow(s, s.active.value.phase.id, s.store.rows[s.active.value.phase.id].(resolvedKeys := keys))
    case Stop => s.(active := None)
  }

  // ----- At most one latest row -----

  ghost predicate OneLatest(s: Store)
  {
    forall project, a, b :: IsLatestRow(s, project, a) && IsLatestRow(s, project, b) ==> a == b
  }

  ghost predicate Inv(s: State)
  {
    && OneLatest(s.store)
    && (forall id :: id in s.store.rows ==> id < s.store.nextId)
    && (s.active.Some? ==>
          var project := s.active.value.run.project;
          match s.active.value.phase
          case Archiving(id) => IsLatestRow(s.store, project, id)
          case Pruning => !exists id :: IsLatestRow(s.store, project, id)
          case Filling(id) => id in s.store.rows && s.store.rows[id].project == project)
  }

  lemma SameMarksKeepOneLatest(s: Store, t: Store, id: nat)
    requires OneLatest(s) && id in s.rows && t.rows.Keys == s.rows.Keys
    requires forall k :: k in s.rows && k != id ==> t.rows[k] == s.rows[k]
    requires t.rows[id].project == s.rows[id].project && (t.rows[id].isLatest ==> s.rows[id].isLatest)
    ensures OneLatest(t)
    ensures forall project, k :: IsLatestRow(t, project, k) ==> IsLatestRow(s, project, k)
  {
    assert forall project, k :: IsLatestRow(t, project, k) ==> IsLatestRow(s, project, k);
  }

  lemma ArchivingKeepsInv(s: State, step: Step)
    requires Inv(s) && Enabled(s, step)
    requires step.ClearTarget? || step.MoveDirectory? || step.RewriteFile? || step.MarkArchived?
    ensures Inv(After(s, step))
  {
    var t, id := After(s, step), s.active.value.phase.id;
    assert id in s.store.rows;
    hide ArchivedSnapshotDir, ArchivedFiles;
    SameMarksKeepOneLatest(s.store, t.store, id);
  }

  lemma PruningKeepsInv(s: State, step: Step)
    requires Inv(s) && Enabled(s, step)
    requires step.RemoveDirectory? || step.DeleteRow? || step.CreateRow?
    ensures Inv(After(s, step))
  {
    var t := After(s, step);
    hide LatestDir;
    if step.CreateRow? {
      assert forall project, k :: IsLatestRow(t.store, project, k) ==>
          IsLatestRow(s.store, project, k) || (k == s.store.nextId && project == s.active.value.run.project);
    } else {
      assert forall project, k :: IsLatestRow(t.store, project, k) ==> IsLatestRow(s.store, project, k);
    }
  }

  lemma FillingKeepsInv(s: State, step: Step)
    requires Inv(s) && Enabled(s, step)
    requires step.ClearLatest? || step.PrepareDirectory? || step.WriteFile? || step.SaveSource? || step.SaveKeys?
    ensures Inv(After(s, step))
  {
    var t, id := After(s, step), s.active.value.phase.id;
    hide LatestDir;
    SameMarksKeepOneLatest(s.store, t.store, id);
  }

  lemma StepKeepsInv(s: State, step: Step)
    requires Inv(s) && Enabled(s, step)
    ensures Inv(After(s, step))
  {
    match step {
      case Begin(_, _) =>
      case Stop =>
      case ClearTarget => ArchivingKeepsInv(s, step);
      case MoveDirectory => ArchivingKeepsInv(s, step);
      case RewriteFile(_) => ArchivingKeepsInv(s, step);
      case MarkArchived => ArchivingKeepsInv(s, step);
      case RemoveDirectory(_) => PruningKeepsInv(s, step);
      case DeleteRow(_) => PruningKeepsInv(s, step);
      case CreateRow => PruningKeepsInv(s, step);
      case ClearLatest => FillingKeepsInv(s, step);
      case PrepareDirectory => FillingKeepsInv(s, step);
      case WriteFile(_, _) => FillingKeepsInv(s, step);
      case SaveSource(_) => FillingKeepsInv(s, step);
      case SaveKeys(_) => FillingKeepsInv(s, step);
    }
  }

  /** A sequence of steps of runs, one run at a time, each stopping where it likes. */
  ghost predicate History(steps: seq<Step>, states: seq<State>)
  {
    && |states| == |steps| + 1 && states[0] == START
    && forall i :: 0 <= i < |steps| ==> Enabled(states[i], steps[i]) && states[i + 1] == After(states[i], steps[i])
  }

  lemma {:induction false} HistoryKeepsInv(steps: seq<Step>, states: seq<State>, n: nat)
    requires History(steps, states) && n <= |steps|
    ensures Inv(states[n])
  {
    hide Inv;
    if n == 0 {
      StartHolds();
    } else {
      HistoryKeepsInv(steps, states, n - 1);
      assert Enabled(states[n - 1], steps[n - 1]) && states[n - 1 + 1] == After(states[n - 1], steps[n - 1]);
      StepKeepsInv(states[n - 1], steps[n - 1]);
    }
  }

  lemma StartHolds()
    ensures Inv(START)
  {
  }

  /** However many runs fail or are cancelled, and wherever they stop: no project ever has two latest
      rows, not even in between. */
  lemma AtMostOneLatestAlways(steps: seq<Step>, states: seq<State>, n: nat)
    requires History(steps, states) && n <= |steps|
    ensures OneLatest(states[n].store)
  {
    HistoryKeepsInv(steps, states, n);
  }

  /** No step touches a row of another project. */
  lemma StepsStayInProject(s: State, step: Step, id: nat)
    requires Inv(s) && Enabled(s, step) && id in s.store.rows
    requires s.active.Some? ==> s.store.rows[id].project != s.active.value.run.project
    ensures id in After(s, step).store.rows && After(s, step).store.rows[id] == s.store.rows[id]
  {
    hide ArchivedSnapshotDir, ArchivedFiles, LatestDir;
  }

  // ----- What does not survive -----

  lemma MovedAway(s: State, id: nat)
    requires s.active.Some? && s.active.value.phase == Archiving(id) && id in s.store.rows
    requires ArchivedRow(s.store.rows[id]).snapshotDir != s.store.rows[id].snapshotDir
    ensures Enabled(s, MoveDirectory)
    ensures After(s, MoveDirectory).store.rows == s.store.rows
    ensures s.store.rows[id].snapshotDir !in After(s, MoveDirectory).store.dirs
  {
    hide ArchivedRow;
  }

  /** Between moving the directory and marking the row, the row points at nothing; a run that stops
      there leaves rows and directories out of step. */
  lemma StopWhileArchivingBreaksStep(s: State, written: Written, id: nat)
    requires s.active.Some? && s.active.value.phase == Archiving(id)
    requires InStep(s.store, written) && id in s.store.rows && s.store.rows[id].isLatest
    ensures Enabled(s, MoveDirectory) && Enabled(After(s, MoveDirectory), Stop)
    ensures !InStep(After(After(s, MoveDirectory), Stop).store, written)
  {
    var row := s.store.rows[id];
    assert RowPlaced(row);
    ArchivedRowPlaced(row);
    assert |row.snapshotDir| == 3;
    MovedAway(s, id);
    DanglingRowBreaksStep(After(s, MoveDirectory).store, written, id);
  }

  lemma DanglingRowBreaksStep(s: Store, written: Written, id: nat)
    requires id in s.rows && s.rows[id].snapshotDir !in s.dirs
    ensures !InStep(s, written)
  {
  }
}
