/**
 * `ObsidianSyncManager`: the object that holds the configuration, and here
 * also the two stores it reconciles and the backup directories, and runs
 * the passes. Each loop is proved to compute the fold that `SyncPasses`
 * defines, so the laws of `SyncLaws` and `Backups` hold of what the methods
 * do.
 */
module SyncManager {
  import opened Wrappers
  import opened Text
  import opened SyncFilter
  import opened SyncPasses
  import opened Backups
  import SyncLaws
  import CR = ConflictResolver

  /** What `bidirectional_sync` returns (the duration is left out). */
  datatype SyncReport = SyncReport(localToObsidian: Stats, obsidianToLocal: Stats, backupPath: Option<string>)

  const ConnectionFailed: string := "Obsidian API connection failed"

  /** The path `create_backup` returns for a decision. */
  function ReportedBackup(outcome: BackupOutcome, projectRoot: string, timestamp: string): Option<string> {
    if outcome == NotTaken then None else Some(BackupPath(projectRoot, timestamp))
  }

  class ObsidianSyncManager {
    const settings: Settings
    const projectRoot: string
    const createBackupEnabled: bool
    const configuredMaxBackups: int

    /** Whether the local notes folder exists, and its notes. */
    var localDirExists: bool
    var local: LocalStore
    /** The notes of the vault, by path. */
    var vault: VaultStore
    /** Whether `notes_backup/` exists, and its directories in the order the folder lists them. */
    var backupRootExists: bool
    var backups: seq<Backup>

    /** A missing folder holds no notes, a missing backup root no backups; backup directory names are distinct. */
    ghost predicate Valid()
      reads this
    {
      (!localDirExists ==> local == map[]) && (!backupRootExists ==> backups == []) && DistinctBackupNames(backups)
    }

    /** `__init__`: the strategy comes from the factory; the stores are whatever the folder and the vault hold. */
    constructor(vaultPath: string, extensions: seq<string>, patterns: seq<string>, strategy: string, dryRun: bool,
                projectRoot: string, createBackup: bool, maxBackups: int,
                localDirExists: bool, local: LocalStore, vault: VaultStore, backupRootExists: bool, backups: seq<Backup>)
      requires !localDirExists ==> local == map[]
      requires !backupRootExists ==> backups == []
      requires DistinctBackupNames(backups)
      ensures Valid()
      ensures settings == Settings(vaultPath, extensions, patterns, CR.ResolverFor(strategy), dryRun)
      ensures this.projectRoot == projectRoot && createBackupEnabled == createBackup && configuredMaxBackups == maxBackups
      ensures this.localDirExists == localDirExists && this.local == local && this.vault == vault
      ensures this.backupRootExists == backupRootExists && this.backups == backups
    {
      settings := Settings(vaultPath, extensions, patterns, CR.ResolverFor(strategy), dryRun);
      this.projectRoot := projectRoot;
      createBackupEnabled := createBackup;
      configuredMaxBackups := maxBackups;
      this.localDirExists := localDirExists;
      this.local := local;
      this.vault := vault;
      this.backupRootExists := backupRootExists;
      this.backups := backups;
    }

    /** `get_note_content(path)`. */
    method GetNoteContent(path: string, f: Faults) returns (content: Option<string>)
      ensures content == ReadVault(vault, f, path)
      ensures content.Some? ==> path in vault && content.value == vault[path]
    {
      if path in vault && path !in f.vaultRead {
        content := Some(vault[path]);
      } else {
        content := None;
      }
    }

    /** `create_or_update_note(path, content)`: a dry run answers success and writes nothing. */
    method CreateOrUpdateNote(path: string, content: string, f: Faults) returns (ok: bool)
      modifies this`vault
      ensures ok == (settings.dryRun || path !in f.vaultWrite)
      ensures vault == if !settings.dryRun && ok then old(vault)[path := content] else old(vault)
    {
      if settings.dryRun {
        return true;
      }
      if path in f.vaultWrite {
        return false;
      }
      vault := vault[path := content];
      return true;
    }

    /** `sync_local_to_obsidian()`, over the folder's entries in the order it lists them. */
    method SyncLocalToObsidian(entries: seq<string>, env: Env) returns (stats: Stats)
      modifies this`vault
      ensures PushState(vault, stats) == PushPass(settings, env, localDirExists, local, entries, old(vault))
    {
      stats := NoStats;
      if !localDirExists {
        return;
      }
      var allFiles: seq<string> := [];
      for j := 0 to |settings.extensions|
        invariant allFiles == GlobAll(entries, settings.extensions[..j])
      {
        assert settings.extensions[..j + 1][..j] == settings.extensions[..j];
        allFiles := allFiles + GlobNames(entries, settings.extensions[j]);
      }
      assert settings.extensions[..|settings.extensions|] == settings.extensions;
      var mdFiles := Included(settings, allFiles);
      ghost var start := vault;
      for i := 0 to |mdFiles|
        invariant PushNotes(settings, env, local, start, mdFiles[..i]) == PushState(vault, stats)
      {
        assert mdFiles[..i + 1][..i] == mdFiles[..i];
        stats := PushNote(mdFiles[i], env, stats);
      }
      assert mdFiles[..|mdFiles|] == mdFiles;
    }

    /** One iteration of the loop in `sync_local_to_obsidian`, for the local file `name`. */
    method PushNote(name: string, env: Env, stats: Stats) returns (after: Stats)
      modifies this`vault
      ensures var step := PushStep(settings, env, local, old(vault), name);
              vault == Written(old(vault), NotePath(settings.vaultPath, name), step.write) && after == Count(stats, step.kind)
    {
      if name !in local || name in env.faults.localRead {
        return Count(stats, Errored);
      }
      var content := ReadText(local[name].content);
      var path := NotePath(settings.vaultPath, name);
      var current := GetNoteContent(path, env.faults);
      if current.None? {
        var ok := CreateOrUpdateNote(path, content, env.faults);
        after := Count(stats, if ok then Created else Errored);
      } else if current.value != content {
        var resolved := CR.Resolve(settings.resolver, content, current.value, ContextFor(local, env, name));
        var ok := CreateOrUpdateNote(path, resolved, env.faults);
        after := Count(stats, if ok then Updated else Errored);
      } else {
        after := Count(stats, Skipped);
      }
    }

    /** `sync_obsidian_to_local()`: creates the folder unless dry, then visits the notes `get_vault_notes` returns. */
    method SyncObsidianToLocal(listing: Listing, env: Env) returns (stats: Stats)
      requires Valid()
      modifies this`local, this`localDirExists
      ensures Valid()
      ensures localDirExists == (old(localDirExists) || !settings.dryRun)
      ensures PullState(local, stats) == PullPass(settings, env, old(local), vault, listing)
    {
      if !settings.dryRun {
        localDirExists := true;
      }
      var notes := GetVaultNotes(settings.vaultPath, settings.extensions, settings.patterns, listing);
      stats := PullNotesLoop(notes, env);
      assert PullPass(settings, env, old(local), vault, listing) == PullNotes(settings, env, old(local), vault, notes);
      assert !localDirExists ==> local == old(local) == map[];
    }

    /** The loop of `sync_obsidian_to_local` over the notes `get_vault_notes` returned. */
    method PullNotesLoop(notes: seq<VaultNote>, env: Env) returns (stats: Stats)
      modifies this`local
      ensures PullState(local, stats) == PullNotes(settings, env, old(local), vault, notes)
      ensures settings.dryRun ==> local == old(local)
    {
      stats := NoStats;
      ghost var start := local;
      for i := 0 to |notes|
        invariant PullNotes(settings, env, start, vault, notes[..i]) == PullState(local, stats)
        invariant settings.dryRun ==> local == start
      {
        assert notes[..i + 1][..i] == notes[..i];
        stats := PullNote(notes[i].path, env, stats);
      }
      assert notes[..|notes|] == notes;
    }

    /** One iteration of the loop in `sync_obsidian_to_local`, for the note at `path`. */
    method PullNote(path: string, env: Env, stats: Stats) returns (after: Stats)
      modifies this`local
      ensures settings.dryRun ==> local == old(local)
      ensures var step := PullStep(settings, env, old(local), vault, path, Basename(path));
              && (step.None? ==> local == old(local) && after == stats)
              && (step.Some? ==> local == Written(old(local), Basename(path), step.value.write) && after == Count(stats, step.value.kind))
    {
      after := stats;
      var name := Basename(path);
      if !ShouldIncludeFile(settings.extensions, settings.patterns, name) {
        return;
      }
      var remote := GetNoteContent(path, env.faults);
      if remote.None? {
        return;
      }
      if name in local {
        if name in env.faults.localRead {
          after := Count(after, Errored);
          return;
        }
        var content := ReadText(local[name].content);
        if content != remote.value {
          var resolved := CR.Resolve(settings.resolver, content, remote.value, ContextFor(local, env, name));
          if settings.dryRun {
            after := Count(after, Updated);
          } else if name in env.faults.localWrite {
            after := Count(after, Errored);
          } else {
            local := local[name := LocalFile(resolved, env.now)];
            after := Count(after, Updated);
          }
        } else {
          after := Count(after, Skipped);
        }
      } else if settings.dryRun {
        after := Count(after, Created);
      } else if name in env.faults.localWrite {
        after := Count(after, Errored);
      } else {
        local := local[name := LocalFile(remote.value, env.now)];
        after := Count(after, Created);
      }
    }

    /** `create_backup()`, with the clock's timestamp and time and whether `copytree` fails as inputs. */
    method CreateBackup(timestamp: string, now: int, copyFails: bool) returns (path: Option<string>)
      requires Valid()
      modifies this`backups, this`backupRootExists
      ensures Valid()
      ensures var outcome := BackupDecision(createBackupEnabled, localDirExists, settings.dryRun, copyFails, old(backups), timestamp);
              && path == ReportedBackup(outcome, projectRoot, timestamp)
              && backups == (if outcome == Copied then old(backups) + [Backup(timestamp, now, local)] else old(backups))
              && backupRootExists == (old(backupRootExists) || outcome == Copied)
    {
      if !createBackupEnabled {
        return None;
      }
      var backupDir := BackupPath(projectRoot, timestamp);
      if localDirExists {
        if !settings.dryRun {
          if copyFails || HasBackupNamed(backups, timestamp) {
            return None;
          }
          CopyKeepsNamesDistinct(createBackupEnabled, localDirExists, settings.dryRun, copyFails, backups, timestamp, now, local);
          backups := backups + [Backup(timestamp, now, local)];
          backupRootExists := true;
        }
        return Some(backupDir);
      }
      return None;
    }

    /** `cleanup_old_backups(max_backups)`, with the directories whose `rmtree` fails as an input. */
    method CleanupOldBackups(requested: Option<int>, removeFails: set<string>)
      requires Valid()
      modifies this`backups
      ensures Valid()
      ensures !backupRootExists ==> backups == old(backups) == []
      ensures backupRootExists ==>
                backups == Without(old(backups),
                                   Removed(Doomed(old(backups), RetentionLimit(requested, configuredMaxBackups)), settings.dryRun, removeFails))
    {
      var maxBackups := RetentionLimit(requested, configuredMaxBackups);
      if !backupRootExists {
        return;
      }
      var sorted := SortNewestFirst(backups);
      var doomed := SliceFrom(sorted, maxBackups);
      DeleteBackups(doomed, removeFails);
    }

    /** The deletion loop of `cleanup_old_backups`: each doomed directory is removed unless the run is dry or its `rmtree` fails. */
    method DeleteBackups(doomed: seq<Backup>, removeFails: set<string>)
      requires Valid()
      modifies this`backups
      ensures Valid()
      ensures backups == Without(old(backups), Removed(doomed, settings.dryRun, removeFails))
    {
      ghost var start := backups;
      WithoutNothing(start);
      assert Removed(doomed[..0], settings.dryRun, removeFails) == {};
      for i := 0 to |doomed|
        invariant backups == Without(start, Removed(doomed[..i], settings.dryRun, removeFails))
      {
        var oldBackup := doomed[i];
        if !settings.dryRun && oldBackup.name !in removeFails {
          backups := Without(backups, {oldBackup});
        }
        CleanupStep(start, doomed, i, settings.dryRun, removeFails);
      }
      assert doomed[..|doomed|] == doomed;
      WithoutKeepsNamesDistinct(start, Removed(doomed, settings.dryRun, removeFails));
    }

    /**
     * `bidirectional_sync()`: the backup first; then, if the vault does not
     * answer, failure before either pass; otherwise local → vault, and then
     * vault → local against the vault the first pass left behind.
     */
    method BidirectionalSync(reachable: bool, timestamp: string, now: int, copyFails: bool,
                             entries: seq<string>, listing: Listing, pushEnv: Env, pullEnv: Env)
      returns (r: Result<SyncReport, string>)
      requires Valid()
      modifies this`vault, this`local, this`localDirExists, this`backups, this`backupRootExists
      ensures Valid()
      ensures var outcome := BackupDecision(createBackupEnabled, old(localDirExists), settings.dryRun, copyFails, old(backups), timestamp);
              && backups == (if outcome == Copied then old(backups) + [Backup(timestamp, now, old(local))] else old(backups))
              && backupRootExists == (old(backupRootExists) || outcome == Copied)
      ensures !reachable ==>
                r == Failure(ConnectionFailed)
                && vault == old(vault) && local == old(local) && localDirExists == old(localDirExists)
      ensures reachable ==>
                var push := PushPass(settings, pushEnv, old(localDirExists), old(local), entries, old(vault));
                var pull := PullPass(settings, pullEnv, old(local), push.vault, listing);
                var outcome := BackupDecision(createBackupEnabled, old(localDirExists), settings.dryRun, copyFails, old(backups), timestamp);
                && vault == push.vault && local == pull.local
                && localDirExists == (old(localDirExists) || !settings.dryRun)
                && r == Success(SyncReport(push.stats, pull.stats, ReportedBackup(outcome, projectRoot, timestamp)))
    {
      var backupPath := CreateBackup(timestamp, now, copyFails);
      if !reachable {
        return Failure(ConnectionFailed);
      }
      var localToObsidian := SyncLocalToObsidian(entries, pushEnv);
      var obsidianToLocal := SyncObsidianToLocal(listing, pullEnv);
      return Success(SyncReport(localToObsidian, obsidianToLocal, backupPath));
    }
  }

  /** One iteration of the deletion loop: deleting `doomed[i]` (when that goes through) from what is left. */
  lemma CleanupStep(start: seq<Backup>, doomed: seq<Backup>, i: nat, dryRun: bool, removeFails: set<string>)
    requires i < |doomed|
    ensures var before := Without(start, Removed(doomed[..i], dryRun, removeFails));
            Without(start, Removed(doomed[..i + 1], dryRun, removeFails))
            == if !dryRun && doomed[i].name !in removeFails then Without(before, {doomed[i]}) else before
  {
    var gone := Removed(doomed[..i], dryRun, removeFails);
    assert doomed[..i + 1] == doomed[..i] + [doomed[i]];
    if !dryRun && doomed[i].name !in removeFails {
      assert Removed(doomed[..i + 1], dryRun, removeFails) == gone + {doomed[i]};
      WithoutTwice(start, gone, {doomed[i]});
    } else {
      assert Removed(doomed[..i + 1], dryRun, removeFails) == gone;
    }
  }

  lemma {:induction false} WithoutNothing(bs: seq<Backup>)
    ensures Without(bs, {}) == bs
  {
    if bs != [] {
      WithoutNothing(bs[..|bs| - 1]);
      assert bs == bs[..|bs| - 1] + [bs[|bs| - 1]];
    }
  }

  lemma {:induction false} WithoutKeepsNamesDistinct(bs: seq<Backup>, gone: set<Backup>)
    requires DistinctBackupNames(bs)
    ensures DistinctBackupNames(Without(bs, gone))
  {
    if bs != [] {
      var init := bs[..|bs| - 1];
      var b := bs[|bs| - 1];
      WithoutKeepsNamesDistinct(init, gone);
      var rest := Without(init, gone);
      if b !in gone {
        var r := rest + [b];
        forall i, j | 0 <= i < j < |r|
          ensures r[i].name != r[j].name
        {
          if j == |rest| {
            assert r[i] in init;
            var k :| 0 <= k < |init| && init[k] == r[i];
            assert bs[k] == r[i];
          }
        }
      }
    }
  }
}
