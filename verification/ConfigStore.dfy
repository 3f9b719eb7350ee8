/** Saving the configuration file with its backups, whichever file operation fails. */
module ConfigStore {
  import opened Machine
  import opened Text
  import opened Wrappers

  /** The files a save touches: the config, its pre-migration copy, and the rotated backups. */
  datatype Path = ConfigPath | MigrationPath(version: U8) | BackupPath(generation: U8)

  type Disk = map<Path, string>

  const SCHEMA_VERSION: nat := 7
  const GENERATIONS: nat := 5

  /** How a write ends; an error may be reported although the new content is in place. */
  datatype Outcome = Done | Failed | FailedInPlace

  datatype RotationStep = RotationStep(readFails: bool, write: Outcome)

  /** Everything one save does not decide itself. */
  datatype Plan = Plan(
    rendered: Option<string>,
    readFails: bool,
    migrationWrite: Outcome,
    dirFails: bool,
    metadataFails: bool,
    rotation: seq<RotationStep>,
    configWrite: Outcome)

  function StepAt(plan: Plan, generation: nat): RotationStep {
    if generation < |plan.rotation| then plan.rotation[generation] else RotationStep(false, Done)
  }

  function Get(disk: Disk, path: Path): Option<string> {
    if path in disk then Some(disk[path]) else None
  }

  /** An atomic write: all of the new content or none of it. */
  function Written(disk: Disk, path: Path, text: string, outcome: Outcome): Disk {
    if outcome.Failed? then disk else disk[path := text]
  }

  /** The disks passed through, from the first to the last, and whether all went well. */
  datatype Run = Run(disks: seq<Disk>, ok: bool)

  /** `backup_existing_config` from one generation down to the config itself. */
  function Rotated(disk: Disk, generation: nat, plan: Plan): (run: Run)
    requires generation < GENERATIONS
    ensures run.disks != [] && run.disks[0] == disk
    decreases generation
  {
    var step := StepAt(plan, generation);
    var source := if generation == 0 then ConfigPath else BackupPath(generation);
    if step.readFails then Run([disk], false)
    else if source !in disk then
      if generation == 0 then Run([disk], false) else Rotated(disk, generation - 1, plan)
    else
      var next := Written(disk, BackupPath(generation + 1), disk[source], step.write);
      if !step.write.Done? || generation == 0 then Run([disk, next], step.write.Done?)
      else
        var rest := Rotated(next, generation - 1, plan);
        Run([disk] + rest.disks, rest.ok)
  }

  function Last(run: Run): Disk
    requires run.disks != []
  {
    run.disks[|run.disks| - 1]
  }

  datatype SaveError = ReadError | Conflict | WriteError | RenderError

  /** A handle with its file: what it last loaded or wrote, and the copy it still owes. */
  datatype State = State(disk: Disk, source: Option<string>, owed: Option<(U8, string)>, backedUp: bool)

  datatype Saved = Saved(state: State, disks: seq<Disk>, result: Result<string, SaveError>)

  /** `backup_config_once`. */
  function BackedUpOnce(disk: Disk, backedUp: bool, plan: Plan): (run: Run)
    ensures run.disks != [] && run.disks[0] == disk
  {
    if backedUp then Run([disk], true)
    else if plan.metadataFails then Run([disk], false)
    else if ConfigPath !in disk then Run([disk], true)
    else Rotated(disk, GENERATIONS - 1, plan)
  }

  /** The part of a save after the pre-migration copy. */
  function SavedRest(s: State, plan: Plan): Saved {
    if plan.dirFails then Saved(s, [s.disk], Err(WriteError))
    else if plan.rendered.None? then Saved(s, [s.disk], Err(RenderError))
    else
      var body := plan.rendered.value;
      var backup := BackedUpOnce(s.disk, s.backedUp, plan);
      if !backup.ok then Saved(s.(disk := Last(backup)), backup.disks, Err(WriteError))
      else
        var disk := Written(Last(backup), ConfigPath, body, plan.configWrite);
        var disks := backup.disks + [disk];
        if plan.configWrite.Done? then Saved(State(disk, Some(body), None, true), disks, Ok(body))
        else Saved(s.(disk := disk, backedUp := true), disks, Err(WriteError))
  }

  /** `ConfigFile::save`. */
  function SavedBy(s: State, plan: Plan): Saved {
    if plan.readFails then Saved(s, [s.disk], Err(ReadError))
    else if Get(s.disk, ConfigPath) != s.source then Saved(s, [s.disk], Err(Conflict))
    else if s.owed.None? then SavedRest(s, plan)
    else
      var (version, original) := s.owed.value;
      var copied := Written(s.disk, MigrationPath(version), original, plan.migrationWrite);
      if !plan.migrationWrite.Done? then Saved(s.(disk := copied), [s.disk, copied], Err(WriteError))
      else
        var rest := SavedRest(s.(disk := copied), plan);
        rest.(disks := [s.disk] + rest.disks)
  }

  // ---------------------------------------------------------------------
  // The handle in place
  // ---------------------------------------------------------------------

  class ConfigFile {
    var disk: Disk
    var source: Option<string>
    var owed: Option<(U8, string)>
    var backedUp: bool

    /** The disks passed through since the handle was made, before the one at hand. */
    ghost var history: seq<Disk>

    ghost function View(): State
      reads this
    {
      State(disk, source, owed, backedUp)
    }

    /** `load_from_path` on a file that parses, or that is not there. */
    constructor (files: Disk, version: U8, backedUpAlready: bool)
      ensures history == []
      ensures View() == LoadedState(files, version, backedUpAlready)
    {
      disk, backedUp := files, backedUpAlready;
      source := if ConfigPath in files then Some(files[ConfigPath]) else None;
      owed := if ConfigPath in files && version < SCHEMA_VERSION then Some((version, files[ConfigPath])) else None;
      history := [];
    }

    method WriteAtomic(path: Path, text: string, outcome: Outcome) returns (ok: bool)
      modifies this`disk, this`history
      ensures disk == Written(old(disk), path, text, outcome) && ok == outcome.Done?
      ensures history == old(history) + [old(disk)]
    {
      history := history + [disk];
      if !outcome.Failed? {
        disk := disk[path := text];
      }
      ok := outcome.Done?;
    }

    /** `backup_existing_config`: move each generation up, oldest first, then copy the config. */
    method BackupExisting(plan: Plan) returns (ok: bool)
      modifies this`disk, this`history
      ensures var run := Rotated(old(disk), GENERATIONS - 1, plan);
              ok == run.ok && history + [disk] == old(history) + run.disks
    {
      ok := BackupFrom(GENERATIONS - 1, plan);
    }

    method BackupFrom(oldest: nat, plan: Plan) returns (ok: bool)
      requires oldest < GENERATIONS
      modifies this`disk, this`history
      ensures var run := Rotated(old(disk), oldest, plan);
              ok == run.ok && history + [disk] == old(history) + run.disks
    {
      var generation := oldest;
      while generation > 0
        invariant 0 <= generation < GENERATIONS
        invariant Rotated(old(disk), oldest, plan).ok == Rotated(disk, generation, plan).ok
        invariant old(history) + Rotated(old(disk), oldest, plan).disks
               == history + Rotated(disk, generation, plan).disks
      {
        var more := MoveUp(generation, plan);
        if !more {
          return false;
        }
        generation := generation - 1;
      }
      ok := CopyConfig(plan);
    }

    /** Copy one generation over the next older one; false when that failed. */
    method MoveUp(generation: nat, plan: Plan) returns (more: bool)
      requires 0 < generation < GENERATIONS
      modifies this`disk, this`history
      ensures var run := Rotated(old(disk), generation, plan);
              if more then
                var rest := Rotated(disk, generation - 1, plan);
                run.ok == rest.ok && old(history) + run.disks == history + rest.disks
              else
                !run.ok && history + [disk] == old(history) + run.disks
    {
      var step := StepAt(plan, generation);
      if step.readFails {
        return false;
      }
      if BackupPath(generation) !in disk {
        return true;
      }
      ghost var run := Rotated(disk, generation, plan);
      ghost var before := disk;
      more := WriteAtomic(BackupPath(generation + 1), disk[BackupPath(generation)], step.write);
      assert run.disks == [before] + if more then Rotated(disk, generation - 1, plan).disks else [disk];
    }

    /** The last step of a rotation: the config becomes the newest generation. */
    method CopyConfig(plan: Plan) returns (ok: bool)
      modifies this`disk, this`history
      ensures var run := Rotated(old(disk), 0, plan);
              ok == run.ok && history + [disk] == old(history) + run.disks
    {
      var step := StepAt(plan, 0);
      if step.readFails || ConfigPath !in disk {
        return false;
      }
      ghost var before := disk;
      ok := WriteAtomic(BackupPath(1), disk[ConfigPath], step.write);
      assert Rotated(before, 0, plan).disks == [before] + [disk];
    }

    method BackupOnce(plan: Plan) returns (ok: bool)
      modifies this`disk, this`history, this`backedUp
      ensures var run := BackedUpOnce(old(disk), old(backedUp), plan);
              ok == run.ok && history + [disk] == old(history) + run.disks
      ensures backedUp == (old(backedUp) || ok)
    {
      if backedUp {
        return true;
      }
      if plan.metadataFails {
        return false;
      }
      if ConfigPath in disk {
        ok := BackupExisting(plan);
        if !ok {
          return;
        }
      }
      backedUp := true;
      ok := true;
    }

    /** The rest of a save once the pre-migration copy is settled. */
    method SaveRest(plan: Plan) returns (result: Result<string, SaveError>)
      modifies this
      ensures var saved := SavedRest(old(View()), plan);
              && View() == saved.state && result == saved.result
              && history + [disk] == old(history) + saved.disks
    {
      if plan.dirFails {
        return Err(WriteError);
      }
      if plan.rendered.None? {
        return Err(RenderError);
      }
      var body := plan.rendered.value;
      ghost var backup := BackedUpOnce(disk, backedUp, plan);
      var backedUpNow := BackupOnce(plan);
      LastOfTrace(history, disk, old(history), backup);
      if !backedUpNow {
        return Err(WriteError);
      }
      ghost var before := history + [disk];
      var written := WriteAtomic(ConfigPath, body, plan.configWrite);
      assert history + [disk] == before + [disk];
      if !written {
        return Err(WriteError);
      }
      owed := None;
      source := Some(body);
      result := Ok(body);
    }

    method Save(plan: Plan) returns (result: Result<string, SaveError>)
      modifies this
      ensures var saved := SavedBy(old(View()), plan);
              && View() == saved.state && result == saved.result
              && history + [disk] == old(history) + saved.disks
    {
      if plan.readFails {
        return Err(ReadError);
      }
      var current := if ConfigPath in disk then Some(disk[ConfigPath]) else None;
      if current != source {
        return Err(Conflict);
      }
      if owed.Some? {
        var copied := WriteAtomic(MigrationPath(owed.value.0), owed.value.1, plan.migrationWrite);
        if !copied {
          return Err(WriteError);
        }
      }
      result := SaveRest(plan);
    }
  }

  lemma LastOfTrace(history: seq<Disk>, disk: Disk, earlier: seq<Disk>, run: Run)
    requires run.disks != [] && history + [disk] == earlier + run.disks
    ensures disk == Last(run)
  {
    var trace := history + [disk];
    assert trace[|trace| - 1] == disk;
    assert (earlier + run.disks)[|trace| - 1] == run.disks[|run.disks| - 1];
  }

  /** A freshly made handle. */
  function LoadedState(files: Disk, version: U8, backedUp: bool): State {
    var text := Get(files, ConfigPath);
    State(files, text, if text.Some? && version < SCHEMA_VERSION then Some((version, text.value)) else None, backedUp)
  }

  // ---------------------------------------------------------------------
  // Rotation
  // ---------------------------------------------------------------------

  /** A generation's content is where it was or one further. */
  predicate GenerationKept(before: Disk, after: Disk, generation: nat)
    requires generation < GENERATIONS
  {
    var was := Get(before, if generation == 0 then ConfigPath else BackupPath(generation));
    was.Some? ==>
      || was == Get(after, if generation == 0 then ConfigPath else BackupPath(generation))
      || was == Get(after, BackupPath(generation + 1))
  }

  ghost predicate OnlyBackupsChanged(before: Disk, after: Disk) {
    forall path: Path :: !path.BackupPath? ==> Get(after, path) == Get(before, path)
  }

  /** Nothing above a generation is touched from there on down. */
  ghost predicate UntouchedAbove(before: Disk, after: Disk, generation: nat) {
    forall path: Path :: path.BackupPath? && path.generation > generation ==> Get(after, path) == Get(before, path)
  }

  lemma {:induction false} RotationTouchesOnlyBelow(disk: Disk, generation: nat, plan: Plan, i: nat)
    requires generation < GENERATIONS && i < |Rotated(disk, generation, plan).disks|
    ensures var now := Rotated(disk, generation, plan).disks[i];
            OnlyBackupsChanged(disk, now) && UntouchedAbove(disk, now, generation + 1)
    decreases generation
  {
    var step := StepAt(plan, generation);
    var source := if generation == 0 then ConfigPath else BackupPath(generation);
    if i > 0 && !step.readFails && generation > 0 {
      if source !in disk {
        RotationTouchesOnlyBelow(disk, generation - 1, plan, i);
      } else if step.write.Done? {
        RotationTouchesOnlyBelow(
          Written(disk, BackupPath(generation + 1), disk[source], step.write), generation - 1, plan, i - 1);
      }
    }
  }

  /**
   At every point of a rotation, interrupted or not, the config is in place and
   every generation but the oldest is where it was or one further.
   */
  lemma {:induction false} RotationKeepsAllButTheOldest(disk: Disk, generation: nat, plan: Plan, i: nat, kept: nat)
    requires kept <= generation < GENERATIONS && i < |Rotated(disk, generation, plan).disks|
    ensures GenerationKept(disk, Rotated(disk, generation, plan).disks[i], kept)
    decreases generation
  {
    RotationTouchesOnlyBelow(disk, generation, plan, i);
    var step := StepAt(plan, generation);
    if i > 0 && !step.readFails && generation > 0 {
      if BackupPath(generation) !in disk {
        if kept < generation {
          RotationKeepsAllButTheOldest(disk, generation - 1, plan, i, kept);
        }
      } else if step.write.Done? {
        var next := Written(disk, BackupPath(generation + 1), disk[BackupPath(generation)], step.write);
        RotationTouchesOnlyBelow(next, generation - 1, plan, i - 1);
        if kept < generation {
          RotationKeepsAllButTheOldest(next, generation - 1, plan, i - 1, kept);
        }
      }
    }
  }

  /** A finished rotation moved each generation up by one and put the config first. */
  lemma {:induction false} FinishedRotation(disk: Disk, generation: nat, plan: Plan, moved: nat)
    requires moved <= generation < GENERATIONS && Rotated(disk, generation, plan).ok
    ensures var was := Get(disk, if moved == 0 then ConfigPath else BackupPath(moved));
            was.Some? ==> Get(Last(Rotated(disk, generation, plan)), BackupPath(moved + 1)) == was
    decreases generation
  {
    if generation > 0 {
      if BackupPath(generation) !in disk {
        if moved < generation {
          FinishedRotation(disk, generation - 1, plan, moved);
        }
      } else {
        var step := StepAt(plan, generation);
        var next := Written(disk, BackupPath(generation + 1), disk[BackupPath(generation)], step.write);
        var rest := Rotated(next, generation - 1, plan);
        RotationTouchesOnlyBelow(next, generation - 1, plan, |rest.disks| - 1);
        if moved < generation {
          FinishedRotation(next, generation - 1, plan, moved);
        }
      }
    }
  }

  /** Where generation `generation` of a rotation is copied from. */
  function Source(generation: nat): Path
    requires generation < GENERATIONS
  {
    if generation == 0 then ConfigPath else BackupPath(generation)
  }

  /** Generation `generation` can be read, and written one further if it is there. */
  predicate StepsWell(disk: Disk, plan: Plan, generation: nat)
    requires generation < GENERATIONS
  {
    && !StepAt(plan, generation).readFails
    && (Source(generation) in disk ==> StepAt(plan, generation).write.Done?)
  }

  predicate RotatesWell(disk: Disk, plan: Plan, generation: nat)
    requires generation < GENERATIONS
  {
    ConfigPath in disk && forall g :: 0 <= g <= generation ==> StepsWell(disk, plan, g)
  }

  /** What a finished rotation from `generation` down leaves at a path. */
  function RotatedAt(disk: Disk, generation: nat, path: Path): Option<string>
    requires generation < GENERATIONS
  {
    if path.BackupPath? && 1 <= path.generation <= generation + 1 && Source(path.generation - 1) in disk
    then Some(disk[Source(path.generation - 1)])
    else Get(disk, path)
  }

  /** Two disks that differ at most in files the rotation from `generation` down neither reads nor asks for. */
  lemma RotatesLikewise(disk: Disk, next: Disk, plan: Plan, generation: nat)
    requires generation < GENERATIONS
    requires forall g :: 0 <= g <= generation ==> Get(next, Source(g)) == Get(disk, Source(g))
    ensures RotatesWell(disk, plan, generation) <==> RotatesWell(next, plan, generation)
  {
    forall g | 0 <= g <= generation ensures StepsWell(next, plan, g) == StepsWell(disk, plan, g) {
      assert Get(next, Source(g)) == Get(disk, Source(g));
    }
    assert Get(next, Source(0)) == Get(disk, Source(0));
  }

  lemma OneMoreStep(disk: Disk, plan: Plan, generation: nat)
    requires 0 < generation < GENERATIONS
    ensures RotatesWell(disk, plan, generation)
            <==> StepsWell(disk, plan, generation) && RotatesWell(disk, plan, generation - 1)
  {}

  lemma MovedAt(disk: Disk, next: Disk, generation: nat, path: Path)
    requires 0 < generation < GENERATIONS && Source(generation) in disk
    requires next == disk[BackupPath(generation + 1) := disk[Source(generation)]]
    ensures RotatedAt(next, generation - 1, path) == RotatedAt(disk, generation, path)
  {}

  /** A rotation finishes exactly when every step it has to do goes well; each generation has then moved up by one. */
  lemma {:induction false} RotatedExactly(disk: Disk, generation: nat, plan: Plan, path: Path)
    requires generation < GENERATIONS
    ensures Rotated(disk, generation, plan).ok <==> RotatesWell(disk, plan, generation)
    ensures Rotated(disk, generation, plan).ok ==>
              Get(Last(Rotated(disk, generation, plan)), path) == RotatedAt(disk, generation, path)
    decreases generation
  {
    var step, source := StepAt(plan, generation), Source(generation);
    if generation == 0 {
      assert RotatesWell(disk, plan, 0) <==> ConfigPath in disk && StepsWell(disk, plan, 0);
    } else {
      OneMoreStep(disk, plan, generation);
      if !step.readFails && source !in disk {
        RotatedExactly(disk, generation - 1, plan, path);
      } else if !step.readFails && step.write.Done? {
        var next := Written(disk, BackupPath(generation + 1), disk[source], step.write);
        RotatedExactly(next, generation - 1, plan, path);
        RotatesLikewise(disk, next, plan, generation - 1);
        MovedAt(disk, next, generation, path);
      }
    }
  }

  // ---------------------------------------------------------------------
  // When a save succeeds, and what it leaves
  // ---------------------------------------------------------------------

  /** The file says what the handle last knew. */
  predicate Matches(s: State) { Get(s.disk, ConfigPath) == s.source }

  /** A save of this start still has the config to back up. */
  predicate BacksUp(s: State) { !s.backedUp && ConfigPath in s.disk }

  /** Nothing that this save has to do fails. */
  predicate GoesWell(s: State, plan: Plan) {
    && !plan.readFails && Matches(s)
    && (s.owed.Some? ==> plan.migrationWrite.Done?)
    && !plan.dirFails && plan.rendered.Some?
    && (s.backedUp || !plan.metadataFails)
    && (BacksUp(s) ==> RotatesWell(s.disk, plan, GENERATIONS - 1))
    && plan.configWrite.Done?
  }

  /** What a successful save leaves at a path. */
  function SavedAt(s: State, body: string, path: Path): Option<string> {
    match path
    case ConfigPath => Some(body)
    case MigrationPath(version) =>
      if s.owed.Some? && s.owed.value.0 == version then Some(s.owed.value.1) else Get(s.disk, path)
    case BackupPath(_) => if BacksUp(s) then RotatedAt(s.disk, GENERATIONS - 1, path) else Get(s.disk, path)
  }

  lemma BackedUpExactly(disk: Disk, backedUp: bool, plan: Plan, path: Path)
    ensures var backup := BackedUpOnce(disk, backedUp, plan);
            && (backup.ok
                <==> backedUp || (!plan.metadataFails
                                  && (ConfigPath in disk ==> RotatesWell(disk, plan, GENERATIONS - 1))))
            && (backup.ok ==>
                  Get(Last(backup), path)
                  == if !backedUp && ConfigPath in disk then RotatedAt(disk, GENERATIONS - 1, path)
                     else Get(disk, path))
  {
    if !backedUp && !plan.metadataFails && ConfigPath in disk {
      RotatedExactly(disk, GENERATIONS - 1, plan, path);
    }
  }

  /** The disk the backup starts from: the pre-migration copy is already on it. */
  function Copied(s: State, plan: Plan): Disk {
    if s.owed.None? then s.disk
    else Written(s.disk, MigrationPath(s.owed.value.0), s.owed.value.1, plan.migrationWrite)
  }

  lemma CopyingIsAside(s: State, plan: Plan)
    ensures forall path: Path :: !path.MigrationPath? ==> Get(Copied(s, plan), path) == Get(s.disk, path)
    ensures ConfigPath in Copied(s, plan) <==> ConfigPath in s.disk
    ensures RotatesWell(Copied(s, plan), plan, GENERATIONS - 1) <==> RotatesWell(s.disk, plan, GENERATIONS - 1)
  {
    RotatesLikewise(s.disk, Copied(s, plan), plan, GENERATIONS - 1);
    assert Get(Copied(s, plan), ConfigPath) == Get(s.disk, ConfigPath);
  }

  /** The same save, begun after the copy. */
  lemma RestAfterCopy(s: State, plan: Plan)
    requires !plan.readFails && Matches(s) && (s.owed.Some? ==> plan.migrationWrite.Done?)
    ensures SavedBy(s, plan).state == SavedRest(s.(disk := Copied(s, plan)), plan).state
    ensures SavedBy(s, plan).result == SavedRest(s.(disk := Copied(s, plan)), plan).result
  {}

  /** A save succeeds exactly when nothing it has to do fails. */
  lemma SaveSucceedsExactly(s: State, plan: Plan)
    ensures SavedBy(s, plan).result.Ok? <==> GoesWell(s, plan)
  {
    if !plan.readFails && Matches(s) && (s.owed.Some? ==> plan.migrationWrite.Done?) {
      RestAfterCopy(s, plan);
      CopyingIsAside(s, plan);
      BackedUpExactly(Copied(s, plan), s.backedUp, plan, ConfigPath);
    }
  }

  /**
   A successful save leaves what was rendered as the config, settles the copy it
   owed, and on the first save of a start has moved each backup up by one with
   the replaced text as the newest; it touches nothing else.
   */
  lemma SuccessfulSaveExactly(s: State, plan: Plan, path: Path)
    requires GoesWell(s, plan)
    ensures var saved := SavedBy(s, plan);
            && plan.rendered.Some?
            && saved.result == Ok(plan.rendered.value)
            && saved.state == State(saved.state.disk, plan.rendered, None, true)
            && Get(saved.state.disk, path) == SavedAt(s, plan.rendered.value, path)
  {
    RestAfterCopy(s, plan);
    CopyingIsAside(s, plan);
    var copied := Copied(s, plan);
    BackedUpExactly(copied, s.backedUp, plan, path);
    var backup := Last(BackedUpOnce(copied, s.backedUp, plan));
    assert Get(backup, path)
        == if !s.backedUp && ConfigPath in copied then RotatedAt(copied, GENERATIONS - 1, path) else Get(copied, path);
    if path.BackupPath? && 1 <= path.generation <= GENERATIONS {
      assert Get(copied, Source(path.generation - 1)) == Get(s.disk, Source(path.generation - 1));
    }
  }

  /** Why a save fails: the file cannot be read, is not the text last known, nothing was rendered, or a write failed. */
  lemma FailuresExactly(s: State, plan: Plan)
    ensures SavedBy(s, plan).result == Err(ReadError) <==> plan.readFails
    ensures SavedBy(s, plan).result == Err(Conflict) <==> !plan.readFails && !Matches(s)
    ensures SavedBy(s, plan).result == Err(RenderError)
            <==> !plan.readFails && Matches(s) && (s.owed.Some? ==> plan.migrationWrite.Done?)
                 && !plan.dirFails && plan.rendered.None?
    ensures SavedBy(s, plan).result.Err? ==>
              SavedBy(s, plan).state.source == s.source && SavedBy(s, plan).state.owed == s.owed
  {}

  // ---------------------------------------------------------------------
  // The backup comes first
  // ---------------------------------------------------------------------

  lemma RestBacksUpFirst(s: State, plan: Plan, i: nat)
    requires i < |SavedRest(s, plan).disks|
    ensures var disk := SavedRest(s, plan).disks[i];
            Get(disk, ConfigPath) != Get(s.disk, ConfigPath) && BacksUp(s) ==>
              Get(disk, BackupPath(1)) == Get(s.disk, ConfigPath)
    ensures SavedRest(s, plan).state.backedUp && BacksUp(s) ==>
              Get(SavedRest(s, plan).state.disk, BackupPath(1)) == Get(s.disk, ConfigPath)
  {
    if !plan.dirFails && plan.rendered.Some? {
      var backup := BackedUpOnce(s.disk, s.backedUp, plan);
      BackedUpExactly(s.disk, s.backedUp, plan, BackupPath(1));
      assert Source(0) == ConfigPath;
      if i < |backup.disks| {
        BackupTouchesOnlyBackups(s.disk, s.backedUp, plan, i);
      }
    }
  }

  /**
   At every point of the first save of a start, a config that is no longer the
   old text has the old text beside it as the newest backup; and the start
   counts as backed up only once that is so.
   */
  lemma BackedUpBeforeReplaced(s: State, plan: Plan, i: nat)
    requires BacksUp(s) && i < |SavedBy(s, plan).disks|
    ensures var disk := SavedBy(s, plan).disks[i];
            Get(disk, ConfigPath) != Get(s.disk, ConfigPath) ==>
              Get(disk, BackupPath(1)) == Get(s.disk, ConfigPath)
    ensures SavedBy(s, plan).state.backedUp ==>
              Get(SavedBy(s, plan).state.disk, BackupPath(1)) == Get(s.disk, ConfigPath)
  {
    CopyingIsAside(s, plan);
    var copied := s.(disk := Copied(s, plan));
    if !plan.readFails && Matches(s) {
      if s.owed.None? {
        RestBacksUpFirst(s, plan, i);
      } else if plan.migrationWrite.Done? {
        RestBacksUpFirst(copied, plan, if i == 0 then 0 else i - 1);
      }
    }
  }

  /** A start counts as backed up from the save on whose backup step was reached and finished, written or not. */
  lemma CountsAsBackedUpExactly(s: State, plan: Plan)
    ensures SavedBy(s, plan).state.backedUp
            <==> || s.backedUp
                 || (&& !plan.readFails && Matches(s) && (s.owed.Some? ==> plan.migrationWrite.Done?)
                     && !plan.dirFails && plan.rendered.Some? && !plan.metadataFails
                     && (BacksUp(s) ==> RotatesWell(s.disk, plan, GENERATIONS - 1)))
  {
    if !plan.readFails && Matches(s) && (s.owed.Some? ==> plan.migrationWrite.Done?) {
      RestAfterCopy(s, plan);
      CopyingIsAside(s, plan);
      BackedUpExactly(Copied(s, plan), s.backedUp, plan, ConfigPath);
    }
  }

  lemma LaterSaveKeepsBackups(s: State, plan: Plan, generation: U8)
    requires s.backedUp
    ensures SavedBy(s, plan).state.backedUp
    ensures Get(SavedBy(s, plan).state.disk, BackupPath(generation)) == Get(s.disk, BackupPath(generation))
  {}

  // ---------------------------------------------------------------------
  // The pre-migration text
  // ---------------------------------------------------------------------

  /** The exact original is at the config path or beside it. */
  predicate OriginalKept(disk: Disk, version: U8, original: string) {
    Get(disk, ConfigPath) == Some(original) || Get(disk, MigrationPath(version)) == Some(original)
  }

  /** A handle that owes the copy of `original`, or settled it. */
  predicate Owes(s: State, version: U8, original: string) {
    && OriginalKept(s.disk, version, original)
    && (s.owed == Some((version, original))
        || (s.owed.None? && Get(s.disk, MigrationPath(version)) == Some(original)))
  }

  lemma BackupTouchesOnlyBackups(disk: Disk, backedUp: bool, plan: Plan, i: nat)
    requires i < |BackedUpOnce(disk, backedUp, plan).disks|
    ensures OnlyBackupsChanged(disk, BackedUpOnce(disk, backedUp, plan).disks[i])
  {
    if !backedUp && !plan.metadataFails && ConfigPath in disk {
      RotationTouchesOnlyBelow(disk, GENERATIONS - 1, plan, i);
    }
  }

  lemma RestKeepsTheCopy(s: State, plan: Plan, version: U8, original: string)
    requires Owes(s, version, original) && Get(s.disk, MigrationPath(version)) == Some(original)
    ensures Owes(SavedRest(s, plan).state, version, original)
    ensures forall disk <- SavedRest(s, plan).disks :: OriginalKept(disk, version, original)
  {
    if !plan.dirFails && plan.rendered.Some? {
      var backup := BackedUpOnce(s.disk, s.backedUp, plan);
      forall i | 0 <= i < |backup.disks|
        ensures Get(backup.disks[i], MigrationPath(version)) == Some(original)
      {
        BackupTouchesOnlyBackups(s.disk, s.backedUp, plan, i);
      }
      assert Get(Last(backup), MigrationPath(version)) == Some(original);
    }
  }

  lemma SaveKeepsTheOriginal(s: State, plan: Plan, version: U8, original: string)
    requires Owes(s, version, original)
    ensures Owes(SavedBy(s, plan).state, version, original)
    ensures forall disk <- SavedBy(s, plan).disks :: OriginalKept(disk, version, original)
  {
    if !plan.readFails && Get(s.disk, ConfigPath) == s.source {
      if s.owed.None? {
        RestKeepsTheCopy(s, plan, version, original);
      } else {
        var copied := Written(s.disk, MigrationPath(version), original, plan.migrationWrite);
        assert OriginalKept(copied, version, original);
        if plan.migrationWrite.Done? {
          RestKeepsTheCopy(s.(disk := copied), plan, version, original);
        }
      }
    }
  }

  // ---------------------------------------------------------------------
  // Whole runs, with edits from outside
  // ---------------------------------------------------------------------

  /** A save, a fresh start of the program on the file as it is, or an edit by somebody else. */
  datatype Action = Save(plan: Plan) | Restart(backedUp: bool) | Edit(text: Option<string>)

  function Edited(s: State, text: Option<string>): State {
    s.(disk := if text.Some? then s.disk[ConfigPath := text.value] else s.disk - {ConfigPath})
  }

  /** `declares` is the schema version a text declares. */
  function Restarted(s: State, backedUp: bool, declares: string -> U8): State {
    LoadedState(s.disk, if ConfigPath in s.disk then declares(s.disk[ConfigPath]) else SCHEMA_VERSION, backedUp)
  }

  function Acted(s: State, action: Action, declares: string -> U8): State {
    match action
    case Save(plan) => SavedBy(s, plan).state
    case Restart(backedUp) => Restarted(s, backedUp, declares)
    case Edit(text) => Edited(s, text)
  }

  function StateAfter(start: State, actions: seq<Action>, declares: string -> U8): State {
    if actions == [] then start
    else Acted(StateAfter(start, actions[..|actions| - 1], declares), actions[|actions| - 1], declares)
  }

  /** The disks the action at `i` of a run passes through. */
  function DisksAt(start: State, actions: seq<Action>, declares: string -> U8, i: nat): seq<Disk>
    requires i < |actions|
  {
    var s := StateAfter(start, actions[..i], declares);
    if actions[i].Save? then SavedBy(s, actions[i].plan).disks else [s.disk, Acted(s, actions[i], declares).disk]
  }

  /** The result of the save at `i` of a run. */
  function ResultAt(
      start: State, actions: seq<Action>, declares: string -> U8, i: nat): Option<Result<string, SaveError>>
    requires i < |actions|
  {
    match actions[i]
    case Save(plan) => Some(SavedBy(StateAfter(start, actions[..i], declares), plan).result)
    case _ => None
  }

  lemma StepTo(start: State, actions: seq<Action>, declares: string -> U8, n: nat)
    requires 0 < n <= |actions|
    ensures StateAfter(start, actions[..n], declares)
            == Acted(StateAfter(start, actions[..n - 1], declares), actions[n - 1], declares)
  {
    assert actions[..n][..n - 1] == actions[..n - 1];
  }

  /** Nobody else writes, and what the program renders declares the current version. */
  predicate OwnActions(actions: seq<Action>, declares: string -> U8) {
    forall a <- actions ::
      && !a.Edit?
      && (a.Save? && a.plan.rendered.Some? ==> declares(a.plan.rendered.value) == SCHEMA_VERSION)
  }

  /** The config is there, as the original or as something the program rendered. */
  predicate OriginalOrOwn(disk: Disk, original: string, declares: string -> U8) {
    ConfigPath in disk && (disk[ConfigPath] == original || declares(disk[ConfigPath]) == SCHEMA_VERSION)
  }

  lemma {:induction false} RunOwes(
      files: Disk, backedUp: bool, declares: string -> U8, actions: seq<Action>, n: nat)
    requires ConfigPath in files && declares(files[ConfigPath]) < SCHEMA_VERSION
    requires n <= |actions| && OwnActions(actions, declares)
    ensures var original := files[ConfigPath];
            var s := StateAfter(LoadedState(files, declares(original), backedUp), actions[..n], declares);
            Owes(s, declares(original), original) && OriginalOrOwn(s.disk, original, declares)
    decreases n
  {
    var original := files[ConfigPath];
    var start := LoadedState(files, declares(original), backedUp);
    if n > 0 {
      RunOwes(files, backedUp, declares, actions, n - 1);
      StepTo(start, actions, declares, n);
      var s := StateAfter(start, actions[..n - 1], declares);
      assert actions[n - 1] in actions;
      if actions[n - 1].Save? {
        SaveKeepsTheOriginal(s, actions[n - 1].plan, declares(original), original);
        SaveMovesSource(s, actions[n - 1].plan);
        SaveReplacesOnlyItsSource(s, actions[n - 1].plan, |SavedBy(s, actions[n - 1].plan).disks| - 1);
      }
    }
  }

  /**
   Over any sequence of saves and restarts from a file of an older schema,
   whatever fails and wherever a save is cut short, the exact pre-migration
   text is at the config path or at its own backup path.
   */
  lemma OriginalNeverLost(files: Disk, backedUp: bool, declares: string -> U8, actions: seq<Action>, i: nat)
    requires ConfigPath in files && declares(files[ConfigPath]) < SCHEMA_VERSION
    requires i < |actions| && OwnActions(actions, declares)
    ensures var original := files[ConfigPath];
            forall disk <- DisksAt(LoadedState(files, declares(original), backedUp), actions, declares, i) ::
              OriginalKept(disk, declares(original), original)
  {
    var original := files[ConfigPath];
    RunOwes(files, backedUp, declares, actions, i);
    assert actions[i] in actions;
    if actions[i].Save? {
      SaveKeepsTheOriginal(
        StateAfter(LoadedState(files, declares(original), backedUp), actions[..i], declares),
        actions[i].plan, declares(original), original);
    }
  }

  /** Until the program starts again, the backups stay as the first save of the start left them. */
  lemma {:induction false} OneBackupPerStart(
      start: State, actions: seq<Action>, declares: string -> U8, i: nat, n: nat, generation: U8)
    requires i <= n <= |actions| && StateAfter(start, actions[..i], declares).backedUp
    requires forall k :: i <= k < n ==> !actions[k].Restart?
    ensures var before, after := StateAfter(start, actions[..i], declares), StateAfter(start, actions[..n], declares);
            after.backedUp && Get(after.disk, BackupPath(generation)) == Get(before.disk, BackupPath(generation))
    decreases n
  {
    if i < n {
      OneBackupPerStart(start, actions, declares, i, n - 1, generation);
      StepTo(start, actions, declares, n);
      if actions[n - 1].Save? {
        LaterSaveKeepsBackups(StateAfter(start, actions[..n - 1], declares), actions[n - 1].plan, generation);
      }
    }
  }

  /** The text this handle last loaded or reported written. */
  function LastKnown(start: State, actions: seq<Action>, declares: string -> U8, n: nat): Option<string>
    requires n <= |actions|
  {
    if n == 0 then start.source
    else if actions[n - 1].Restart? then Get(StateAfter(start, actions[..n - 1], declares).disk, ConfigPath)
    else
      var result := ResultAt(start, actions, declares, n - 1);
      if result.Some? && result.value.Ok? then Some(result.value.value)
      else LastKnown(start, actions, declares, n - 1)
  }

  lemma RestMovesSource(s: State, plan: Plan)
    ensures var saved := SavedRest(s, plan);
            && saved.state.source == (if saved.result.Ok? then Some(saved.result.value) else s.source)
            && saved.disks != [] && saved.disks[|saved.disks| - 1] == saved.state.disk
  {}

  /** A save moves the handle's source exactly when it reports the text written, and ends on its last disk. */
  lemma SaveMovesSource(s: State, plan: Plan)
    ensures var saved := SavedBy(s, plan);
            && saved.state.source == (if saved.result.Ok? then Some(saved.result.value) else s.source)
            && saved.disks != [] && saved.disks[|saved.disks| - 1] == saved.state.disk
  {
    RestMovesSource(s, plan);
    if s.owed.Some? {
      RestMovesSource(
        s.(disk := Written(s.disk, MigrationPath(s.owed.value.0), s.owed.value.1, plan.migrationWrite)), plan);
    }
  }

  lemma {:induction false} SourceIsLastKnown(start: State, actions: seq<Action>, declares: string -> U8, n: nat)
    requires n <= |actions|
    ensures StateAfter(start, actions[..n], declares).source == LastKnown(start, actions, declares, n)
    decreases n
  {
    if n > 0 {
      SourceIsLastKnown(start, actions, declares, n - 1);
      StepTo(start, actions, declares, n);
      if actions[n - 1].Save? {
        SaveMovesSource(StateAfter(start, actions[..n - 1], declares), actions[n - 1].plan);
      }
    }
  }

  lemma SaveReplacesOnlyItsSource(s: State, plan: Plan, i: nat)
    requires i < |SavedBy(s, plan).disks|
    ensures Get(s.disk, ConfigPath) != s.source ==> SavedBy(s, plan).disks == [s.disk] && SavedBy(s, plan).state == s
    ensures Get(SavedBy(s, plan).disks[i], ConfigPath) != Get(s.disk, ConfigPath) ==>
              && Get(s.disk, ConfigPath) == s.source
              && Get(SavedBy(s, plan).disks[i], ConfigPath) == plan.rendered
    ensures SavedBy(s, plan).result.Ok? ==> Get(SavedBy(s, plan).state.disk, ConfigPath) == plan.rendered
  {
    if !plan.readFails && Get(s.disk, ConfigPath) == s.source {
      var copied := if s.owed.None? then s.disk
                    else Written(s.disk, MigrationPath(s.owed.value.0), s.owed.value.1, plan.migrationWrite);
      var backup := BackedUpOnce(copied, s.backedUp, plan);
      forall k | 0 <= k < |backup.disks| ensures Get(backup.disks[k], ConfigPath) == Get(s.disk, ConfigPath) {
        BackupTouchesOnlyBackups(copied, s.backedUp, plan, k);
      }
    }
  }

  /**
   Over any run of saves, restarts and outside edits, a save that changes the
   config file replaces exactly the text the handle last loaded or wrote, with
   exactly what it rendered; over any other text it changes no file at all.
   */
  lemma OnlyKnownTextIsReplaced(start: State, actions: seq<Action>, declares: string -> U8, i: nat, k: nat)
    requires i < |actions| && actions[i].Save? && k < |DisksAt(start, actions, declares, i)|
    ensures var s := StateAfter(start, actions[..i], declares);
            var disk := DisksAt(start, actions, declares, i)[k];
            && (Get(disk, ConfigPath) != Get(s.disk, ConfigPath) ==>
                  && Get(s.disk, ConfigPath) == LastKnown(start, actions, declares, i)
                  && Get(disk, ConfigPath) == actions[i].plan.rendered)
            && (Get(s.disk, ConfigPath) != LastKnown(start, actions, declares, i) ==> disk == s.disk)
  {
    SourceIsLastKnown(start, actions, declares, i);
    SaveReplacesOnlyItsSource(StateAfter(start, actions[..i], declares), actions[i].plan, k);
  }

  // ---------------------------------------------------------------------
  // The file names
  // ---------------------------------------------------------------------

  /** The name of each file, from the config's own. */
  function FileName(name: string, path: Path): string {
    match path
    case ConfigPath => name
    case MigrationPath(version) => name + (".v" + (Decimal(version) + ".bak"))
    case BackupPath(generation) => name + (".backup." + Decimal(generation))
  }

  /** No two of the files share a name. */
  lemma FileNamesDiffer(name: string, x: Path, y: Path)
    requires FileName(name, x) == FileName(name, y)
    ensures x == y
  {
    var xs, ys := FileName(name, x)[|name|..], FileName(name, y)[|name|..];
    match x {
      case ConfigPath => assert xs == "";
      case MigrationPath(v) =>
        assert xs == ".v" + (Decimal(v) + ".bak");
        assert xs[1] == 'v';
      case BackupPath(g) =>
        assert xs == ".backup." + Decimal(g);
        assert xs[1] == 'b';
    }
    match y {
      case ConfigPath => assert ys == "";
      case MigrationPath(v) =>
        assert ys == ".v" + (Decimal(v) + ".bak");
        assert ys[1] == 'v';
        if x.MigrationPath? {
          SameMiddle(".v", Decimal(x.version), Decimal(v), ".bak");
          DecimalRoundTrip(x.version);
          DecimalRoundTrip(v);
        }
      case BackupPath(g) =>
        assert ys == ".backup." + Decimal(g);
        assert ys[1] == 'b';
        if x.BackupPath? {
          assert Decimal(x.generation) + "" == Decimal(x.generation) && Decimal(g) + "" == Decimal(g);
          SameMiddle(".backup.", Decimal(x.generation), Decimal(g), "");
          DecimalRoundTrip(x.generation);
          DecimalRoundTrip(g);
        }
    }
  }

  lemma SameMiddle(head: string, x: string, y: string, tail: string)
    requires head + (x + tail) == head + (y + tail)
    ensures x == y
  {
    var s := head + (x + tail);
    assert |x| == |y|;
    assert x == s[|head|..|head| + |x|];
    assert y == s[|head|..|head| + |x|];
  }
}
