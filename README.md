# obsidian-project-sync: the reconciliation engine, in Dafny

This project models the engine that keeps a project's local `notes/` folder
and the project's folder in an Obsidian vault in step. It also proves
properties of that model.

The local folder is a map from file name to (content, modification time).
The vault is a map from note path to content. Whatever the filesystem, the
REST API, the clock or the terminal would decide at run time is an input
(`SyncPasses.Env`):
- which reads, writes and `stat` calls fail;
- the current time;
- the operator's answer to the interactive prompt.

Hash equality (`get_file_hash`, MD5) is modelled as content equality.

A local file holds the text its last write stored. The engine reads local
files in text mode, so a read turns `"\r\n"` and a lone `"\r"` into `"\n"`
(`SyncPasses.ReadText`). Every comparison and every strategy sees the text
as read. Writes store their text unchanged, as text mode does on POSIX.

## Modules

- `Text`, `Glob`: the string operations the engine relies on.
  - `str.split`, `str.join`, `endswith`/`startswith`.
  - The last component of a path.
  - `fnmatch` for `*` and `?`.
- `ConflictResolver`: the strategies as a datatype.
  - `Resolve` gives the content each strategy picks.
  - `ResolverFor` is the factory, which always wraps the base strategy in BackupAndResolve.
  - Lemmas state each strategy's choice.
- `Config`: the YAML tree and `_get_yaml_value`.
  - `deep_merge`: a `MergeMaps` function and a `DeepMerge` method proved to compute it.
  - `_validate_config`.
  - The defaulting getters, and the `ProjectConfig` class with `GetYamlValue` and `UpdateConfig`.
- `SyncFilter`: `_should_include_file` and the normalisation of the vault listing (`get_vault_notes`).
- `SyncPasses`: each pass as a fold of one step per note, in the order the source visits the notes.
- `SyncLaws`: what the passes guarantee.
  - Counters: each visited note advances exactly one counter.
  - Dry run: it writes no note and no local file. It counts what a live run counts only under the conditions listed below. The conflict-backup copies are still written in a dry run (see "## Left out").
  - Independence: notes with distinct names are reconciled independently.
  - Convergence: when the vault note holds no carriage return, the strategy is not interactive and the clock does not run back, one failure-free bidirectional sync leaves the local file reading as the vault note, and the next sync skips it.
  - Non-convergence: a vault note holding a carriage return never reads back equal, so every sync counts it again.
- `Backups`: which backup `create_backup` takes, and which directories `cleanup_old_backups` deletes.
- `SyncManager`: the class `ObsidianSyncManager`.
  - It holds the two stores and the backup directories.
  - Its loops are proved to compute the folds of `SyncPasses`, so the laws above hold of what the methods do.

Behaviour worth knowing, stated as lemmas:
- A vault note whose GET fails is treated by the local → vault pass as missing. A live push then overwrites it with the local content, counted as created, without consulting the conflict strategy (`SyncLaws.PushOverwritesUnreadableNote`).
- The vault → local pass passes over such a note without counting it.
- A dry run counts exactly what a live run counts only when two conditions hold (`SyncLaws.PushDryMatchesLive`, `SyncLaws.PullDryMatchesLive`):
  - no two visited files share a name;
  - no write fails.
- A non-interactive strategy that lets the vault win once keeps letting it win as time passes (`ConflictResolver.VaultWinStable`). This is why the pull cannot undo what the push wrote (`SyncLaws.NoteConverges`).
- A vault note containing `"\r"` is never skipped (`SyncLaws.CarriageReturnNeverSkipped`). With `obsidian_wins` and no failures, every sync PUTs the note back and rewrites the local file, each counted as updated, and leaves the same state behind (`SyncLaws.CarriageReturnResyncs`).

## Model

| member | source | states |
|---|---|---|
| Text.Split | obsidian_project_sync/config.py:126 | `key_path.split('.')` yields at least one piece, no piece holds the separator, and joining the pieces gives the string back |
| Text.SplitJoin | obsidian_project_sync/config.py:126 | splitting a join of separator-free parts gives the parts back |
| Text.Basename | obsidian_project_sync/sync_manager.py:160 | the bare name `Path(p).name` holds no `/` and ends the path |
| Text.PlainName | obsidian_project_sync/sync_manager.py:160 | a path without `/` is its own bare name |
| Text.BasenameCut | obsidian_project_sync/sync_manager.py:160 | the bare name is the whole path, or exactly what follows a `/` |
| Text.BasenameUnder | obsidian_project_sync/sync_manager.py:142-143 | prefixing `vault_path/` does not change a path's bare name |
| Text.JoinPath | obsidian_project_sync/config.py:180 | `root / rel`: an absolute `rel` replaces the root; an empty side leaves the other (`.` for two empty sides); otherwise root and `rel` are joined by exactly one `/` |
| Text.JoinPathName | obsidian_project_sync/config.py:180 | a slash-free name joined under a root starts with the root and has that name as its bare name |
| Glob.Match | obsidian_project_sync/sync_manager.py:161-163 | `fnmatch` on `*`, `?` and literal characters: `*` matches any run of characters, `?` one character, any other character itself; its meaning is proved by the Glob lemmas below |
| Glob.LiteralMatch | obsidian_project_sync/sync_manager.py:161-163 | a pattern without wildcards matches exactly itself |
| Glob.StarSuffix | obsidian_project_sync/sync_manager.py:161-163 | `*lit` matches exactly the names ending in `lit` |
| Glob.PrefixStar | obsidian_project_sync/sync_manager.py:161-163 | `lit*` matches exactly the names starting with `lit` |
| Glob.StarMatchesAll | obsidian_project_sync/sync_manager.py:161-163 | `*` matches every name |
| ConflictResolver.Resolve | obsidian_project_sync/conflict_resolver.py:35-166 | every strategy that does not ask the operator returns one of its two inputs; so does the interactive one for every answer except "edit" |
| ConflictResolver.ResolverFor | obsidian_project_sync/conflict_resolver.py:190-211 | the factory always returns a BackupAndResolve wrapper around a plain strategy; `newer_wins`, `local_wins`, `obsidian_wins` and `merge` give their own strategy, and unknown names give NewerWins; exactly `interactive` gives the interactive strategy |
| ConflictResolver.ResolveNewerWins | obsidian_project_sync/conflict_resolver.py:35-59 | newer_wins: a missing local file gives the vault content, a failing `stat` the local content, a file modified less than 300 seconds before now the local content and any other the vault content (proved as `NewerWinsChoice`) |
| ConflictResolver.SplitLines | obsidian_project_sync/conflict_resolver.py:87-88 | `str.splitlines()`: cuts at every line boundary Python recognises, `\r\n` counting as one, keeps no terminator and yields no trailing empty line (proved about concatenations in `SplitLinesAppend`) |
| ConflictResolver.LineSet | obsidian_project_sync/conflict_resolver.py:87-88 | `set(s.splitlines())`: the lines of the text with order and repetition forgotten (`LineSetAppend`) |
| ConflictResolver.ResolveMerge | obsidian_project_sync/conflict_resolver.py:80-98 | merge: the vault content when the local lines are a subset of the vault lines, else the local content when the vault lines are a subset of the local lines, else what newer_wins returns (`MergeLocalSubset`, `MergeObsidianStrictSubset`, `MergeIncomparable`) |
| ConflictResolver.ConstantStrategies | obsidian_project_sync/conflict_resolver.py:62-75 | LocalWins always returns the local content and ObsidianWins the vault content |
| ConflictResolver.NewerWinsChoice | obsidian_project_sync/conflict_resolver.py:35-59 | a missing local file gives the vault content; different contents give the local content iff the `stat` fails or the file is less than 300 s old |
| ConflictResolver.MergeLocalSubset | obsidian_project_sync/conflict_resolver.py:87-92 | Merge returns the vault content when the local line set is a subset of the vault's, equal sets included |
| ConflictResolver.MergeObsidianStrictSubset | obsidian_project_sync/conflict_resolver.py:93-94 | Merge returns the local content when the vault's line set is a strict subset of the local one |
| ConflictResolver.MergeIncomparable | obsidian_project_sync/conflict_resolver.py:96-98 | on incomparable line sets Merge returns what NewerWins returns |
| ConflictResolver.BackupAndResolveDelegates | obsidian_project_sync/conflict_resolver.py:157-166 | the wrapper returns what the wrapped strategy returns |
| ConflictResolver.FactoryBehaviour | obsidian_project_sync/conflict_resolver.py:200-211 | a factory product resolves as the strategy its name selects: NewerWins for `newer_wins` and unknown names, its side for `local_wins` and `obsidian_wins`, Merge for `merge`, the prompt for `interactive`; only `interactive` asks the operator |
| ConflictResolver.SplitLinesAppend | obsidian_project_sync/conflict_resolver.py:87-88 | `splitlines` of newline-terminated text followed by more text is the concatenation of the two splits |
| ConflictResolver.LineSetAppend | obsidian_project_sync/conflict_resolver.py:87-88 | the line set of such a concatenation is the union of the two line sets |
| ConflictResolver.MergeKeepsVaultAddition | obsidian_project_sync/conflict_resolver.py:87-92 | lines appended to the vault copy of a newline-terminated note make Merge keep the vault copy |
| ConflictResolver.MergeKeepsLocalAddition | obsidian_project_sync/conflict_resolver.py:93-94 | new lines appended to the local copy make Merge keep the local copy |
| ConflictResolver.VaultWinStable | obsidian_project_sync/conflict_resolver.py:45-55 | for the same local file, a non-interactive strategy that picks the vault content at one time picks it at every later time |
| Config.HasPathSnoc | obsidian_project_sync/config.py:129-133 | one more segment extends a path exactly when the value reached is a mapping holding it, and leads to that entry |
| Config.YamlValue | obsidian_project_sync/config.py:124-134 | `_get_yaml_value`: the value at the dot-separated path when every segment is present in a mapping, the default otherwise (`DottedPath`; computed by `ProjectConfig.GetYamlValue`) |
| Config.DottedPath | obsidian_project_sync/config.py:124-134 | a dotted key of dot-free segments looks up exactly that path, or yields the default when some segment is missing or a value on the way is not a mapping |
| Config.ProjectConfig.GetYamlValue | obsidian_project_sync/config.py:124-134 | the segment-walking loop returns the value at the dotted path or the default |
| Config.MergeMaps | obsidian_project_sync/config.py:303-309 | the merged mapping has exactly the keys of both sides |
| Config.MergeMapsEntries | obsidian_project_sync/config.py:304-308 | keys only in `base` keep their values; an update replaces the old value unless both are mappings, which are merged recursively |
| Config.MergeMapsLeaf | obsidian_project_sync/config.py:303-309 | every non-mapping value in `updates` is found at its path after the merge |
| Config.MergedLeafLookup | obsidian_project_sync/config.py:303-309 | after the merge, `_get_yaml_value` on the dotted path of any leaf of `updates` returns that leaf |
| Config.MergeMapsIdempotent | obsidian_project_sync/config.py:303-309 | merging the same updates a second time changes nothing |
| Config.MergeMapsSelf | obsidian_project_sync/config.py:303-309 | merging a mapping into itself gives it back |
| Config.DeepMerge | obsidian_project_sync/config.py:303-309 | the recursive key-by-key loop computes `MergeMaps` |
| Config.ProjectConfig.UpdateConfig | obsidian_project_sync/config.py:300-311 | a mapping tree becomes the merge of itself with the updates; a tree that is not a mapping is left alone and only an empty update succeeds |
| Config.MissingFrom | obsidian_project_sync/config.py:138-139 | a variable is reported missing iff it is required and unset or empty |
| Config.MissingRequired | obsidian_project_sync/config.py:138-139 | the missing required variables, host before key |
| Config.ValidateConfig | obsidian_project_sync/config.py:136-145 | validation fails iff the host or the key is unset or empty, and the message names the missing ones in that order |
| Config.Key | obsidian_project_sync/config.py:173-245 | every getter's section and key are free of dots |
| Config.KeySplits | obsidian_project_sync/config.py:124-126 | every getter's dotted key splits into its section and key |
| Config.TwoPartSplit | obsidian_project_sync/config.py:126 | a two-segment dotted key of dot-free segments splits into those segments |
| Config.Get | obsidian_project_sync/config.py:173-245 | a getter returns the value under its section and key when both are present, and its fallback otherwise |
| Config.Default | obsidian_project_sync/config.py:173-245 | the fallback each getter passes to `_get_yaml_value` (`10-Projects/<project>`, `notes`, 30, `newer_wins`, `['.md']`, 10 backups, ...) |
| Config.DefaultConfig | obsidian_project_sync/config.py:77-111 | the tree written when no configuration file exists, section by section; it agrees with every getter's fallback (`DefaultFileAgrees`) |
| Config.TwoSegments | obsidian_project_sync/config.py:129-133 | a two-segment lookup succeeds iff the section is a mapping holding the key |
| Config.DefaultsAgree | obsidian_project_sync/config.py:77-111 | the default file and an empty file both read as the getters' fallbacks, for every setting |
| Config.DefaultFileAgrees | obsidian_project_sync/config.py:77-111 | the default file holds every getter's fallback at the getter's key |
| Config.ObsidianDefaults | obsidian_project_sync/config.py:81-84 | the default `obsidian` section holds the vault path and notes folder fallbacks |
| Config.SyncDefaults | obsidian_project_sync/config.py:85-89 | the default `sync` section holds the interval, strategy and backup fallbacks |
| Config.LoggingDefaults | obsidian_project_sync/config.py:90-92 | the default `logging` section holds the level and file fallbacks |
| Config.RotationDefaults | obsidian_project_sync/config.py:93-94 | the default `logging` section holds the rotation fallbacks |
| Config.FiltersDefaults | obsidian_project_sync/config.py:96-99 | the default `filters` section holds `['.md']` and `['.*', '*.tmp', '*.bak']` |
| Config.BackupDefaults | obsidian_project_sync/config.py:100-104 | the default `backup` section holds the retention fallbacks |
| Config.NotificationsDefaults | obsidian_project_sync/config.py:105-107 | the default `notifications` section holds the channel fallbacks |
| Config.TriggerDefaults | obsidian_project_sync/config.py:108-109 | the default `notifications` section holds the trigger fallbacks |
| Config.CustomFileOverrides | tests/test_config.py:32-58 | a file that sets the vault path and the interval overrides those two; the strategy and the backup limit keep their fallbacks |
| Config.ProjectConfig.LocalNotesDirPath | obsidian_project_sync/config.py:177-180 | the notes folder is the project root joined with the configured string, or with `notes` when none is configured; a configured value that is not a string makes the join fail |
| Config.ProjectConfig.ProjectName | obsidian_project_sync/config.py:174-175 | `project_root.name`: the bare name of the project root, which the vault path default uses |
| Config.ProjectConfig.Setting | obsidian_project_sync/config.py:183-245 | each settings getter reads its key from this configuration's tree with its fallback (`Config.Get`) |
| Config.ProjectConfig.ApiHost | obsidian_project_sync/config.py:148-150 | `OBSIDIAN_API_HOST` when set, even to the empty string, `https://localhost:27124` otherwise |
| Config.ProjectConfig.ApiKey | obsidian_project_sync/config.py:152-154 | `OBSIDIAN_API_KEY` when set, the empty string otherwise |
| Config.ProjectConfig.constructor | obsidian_project_sync/config.py:19-48 | the configuration holds its root, environment and YAML tree |
| Config.Load | obsidian_project_sync/config.py:19-75 | a YAML parse error fails first; missing variables fail next with the validation message; otherwise the tree is the default tree for a missing file and `{}` for a falsy one |
| SyncFilter.AnySuffixMeaning | obsidian_project_sync/sync_manager.py:156 | the extension check holds iff some include extension ends the path |
| SyncFilter.AnyMatchMeaning | obsidian_project_sync/sync_manager.py:161-163 | the exclude check fires iff some pattern matches the bare name |
| SyncFilter.ShouldIncludeFile | obsidian_project_sync/sync_manager.py:153-165 | `_should_include_file`: some include extension ends the path and no exclude pattern matches its bare name (`ShouldIncludeFileMeaning`) |
| SyncFilter.ShouldIncludeFileMeaning | obsidian_project_sync/sync_manager.py:153-165 | a path is included iff some extension ends it and no exclude pattern matches its bare name |
| SyncFilter.DefaultFilter | obsidian_project_sync/sync_manager.py:153-165 | with the default filters a note is synced iff it ends in `.md` and its bare name neither starts with `.` nor ends in `.tmp` or `.bak` |
| SyncFilter.HiddenNoteExcluded | obsidian_project_sync/sync_manager.py:153-165 | `.hidden.md` is rejected by the default filters |
| SyncFilter.TempFileExcluded | obsidian_project_sync/sync_manager.py:153-165 | `draft.tmp` is rejected by the default filters |
| SyncFilter.PlainNoteIncluded | obsidian_project_sync/sync_manager.py:153-165 | `plan.md` is accepted by the default filters |
| SyncFilter.ExtensionOfBasename | obsidian_project_sync/sync_manager.py:156-160 | a slash-free extension that ends a path also ends its bare name |
| SyncFilter.GetVaultNotes | obsidian_project_sync/sync_manager.py:89-151 | the listing loop returns the normalised notes of the listing in order, and none for an unusable answer |
| SyncFilter.NormaliseEntry | obsidian_project_sync/sync_manager.py:131-143 | a bare name that passes the filter becomes `vault_path/name`; a record uses its path, else its name, prefixed with `vault_path/` unless it already starts with the vault path, and its name, else the bare name of that path; anything else contributes nothing (`EntryPlacement`, `EntryQualifies`) |
| SyncFilter.ListedNotes | obsidian_project_sync/sync_manager.py:129-151 | an unavailable listing gives no notes; otherwise the normalised entries in listing order (`ListedNotesQualify`; computed by `GetVaultNotes`) |
| SyncFilter.EntryPlacement | obsidian_project_sync/sync_manager.py:137-143 | a listed note passed the filter on its source path, starts with the vault path string, and keeps the source's bare name |
| SyncFilter.FilterOnBasename | obsidian_project_sync/sync_manager.py:366-369 | a path that passes the filter passes it again on its bare name, given slash-free extensions |
| SyncFilter.EntryQualifies | obsidian_project_sync/sync_manager.py:131-143 | every note an entry contributes starts with the vault path string and passes the filter on its bare name |
| SyncFilter.ListedNotesQualify | obsidian_project_sync/sync_manager.py:129-148 | every listed note starts with the vault path string and passes the filter on its bare name |
| SyncPasses.ReadText | obsidian_project_sync/sync_manager.py:315-316 | a text-mode read: `\r\n` and a lone `\r` both become `\n`, every other character is kept in order (`ReadTextKeeps`) |
| SyncPasses.ReadTextKeeps | obsidian_project_sync/sync_manager.py:315-316 | a text-mode read never returns a carriage return; it returns the stored text unchanged exactly when that holds none, and never more characters than are stored |
| SyncPasses.Count | obsidian_project_sync/sync_manager.py:297 | advancing a counter raises exactly that counter, and the total, by one |
| SyncPasses.GlobNames | obsidian_project_sync/sync_manager.py:305-306 | the folder entries the glob `*ext` yields are exactly the entries matching it |
| SyncPasses.GlobAll | obsidian_project_sync/sync_manager.py:304-306 | a name is among the globbed files iff it is in the folder and matches `*ext` for some include extension |
| SyncPasses.Included | obsidian_project_sync/sync_manager.py:309 | `md_files` holds exactly the globbed names that pass the filter |
| SyncPasses.PutNote | obsidian_project_sync/sync_manager.py:197-226 | `create_or_update_note` as a step: a dry run counts the given outcome and writes nothing, a failing PUT is an error and writes nothing, otherwise the content is written and the outcome counted |
| SyncPasses.PushStep | obsidian_project_sync/sync_manager.py:312-348 | one push iteration: an unreadable file is an error; a note that is missing or that the GET cannot read is created from the file; differing content is resolved and PUT as updated; equal content is skipped (`SyncLaws.PushStepOutcome`) |
| SyncPasses.PushNotes | obsidian_project_sync/sync_manager.py:312-348 | the push loop as a fold of `PushStep` over the files in order, each step seeing the vault the earlier ones left (`SyncLaws.PushCountsEveryFile`, `SyncLaws.PushFrame`) |
| SyncPasses.PushPass | obsidian_project_sync/sync_manager.py:295-350 | `sync_local_to_obsidian`: no change and zero counters without a local folder, else the push loop over the globbed, filtered files (`SyncManager.ObsidianSyncManager.SyncLocalToObsidian`) |
| SyncPasses.SaveLocal | obsidian_project_sync/sync_manager.py:388-404 | a local write as a step: a dry run counts and writes nothing, a failing write is an error, otherwise the file gets the content stamped with the current time |
| SyncPasses.PullStep | obsidian_project_sync/sync_manager.py:363-408 | one pull iteration: uncounted when filtered out or unreadable in the vault; an unreadable local file is an error; differing content is resolved and written as updated, equal content skipped, a missing file created (`SyncLaws.PullStepOutcome`) |
| SyncPasses.PullNotes | obsidian_project_sync/sync_manager.py:363-408 | the pull loop as a fold of `PullStep` over the listed notes in order, each step seeing the folder the earlier ones left (`SyncLaws.PullCountsReachedNotes`, `SyncLaws.PullFrame`) |
| SyncPasses.PullPass | obsidian_project_sync/sync_manager.py:352-410 | `sync_obsidian_to_local`: the pull loop over the notes `get_vault_notes` builds from the listing (`SyncManager.ObsidianSyncManager.SyncObsidianToLocal`) |
| SyncLaws.PushCountsEveryFile | obsidian_project_sync/sync_manager.py:312-348 | the local → vault counters sum to the number of files visited |
| SyncLaws.PullStepReached | obsidian_project_sync/sync_manager.py:368-377 | a vault note is counted iff its bare name passes the filter and the vault returns its content |
| SyncLaws.PullCountsReachedNotes | obsidian_project_sync/sync_manager.py:363-408 | the vault → local counters sum to the number of notes that pass the filter and can be read |
| SyncLaws.PushDryRunKeepsVault | obsidian_project_sync/sync_manager.py:199-201 | a dry local → vault pass leaves the vault unchanged |
| SyncLaws.PushStepDryWritesNothing | obsidian_project_sync/sync_manager.py:199-201 | a dry push step writes nothing |
| SyncLaws.PullDryRunKeepsLocal | obsidian_project_sync/sync_manager.py:390-402 | a dry vault → local pass leaves the local folder unchanged |
| SyncLaws.PullStepDryWritesNothing | obsidian_project_sync/sync_manager.py:390-402 | a dry pull step writes nothing |
| SyncLaws.NotePathInjective | obsidian_project_sync/sync_manager.py:319 | distinct file names give distinct vault paths |
| SyncLaws.PushFrame | obsidian_project_sync/sync_manager.py:312-348 | the push writes only at the vault paths of the files it visits |
| SyncLaws.PushStepLocal | obsidian_project_sync/sync_manager.py:319-344 | a push step reads the vault only at its own note's path |
| SyncLaws.PushLastSeesOriginal | obsidian_project_sync/sync_manager.py:312-344 | with distinct names, each file's step sees the vault as it was before the pass |
| SyncLaws.PushStepDryLive | obsidian_project_sync/sync_manager.py:324-341 | without a failing PUT a dry and a live push step advance the same counter |
| SyncLaws.PushDryMatchesLive | obsidian_project_sync/sync_manager.py:312-348 | with distinct files and no failing PUT a dry push counts exactly what a live push counts |
| SyncLaws.PullFrame | obsidian_project_sync/sync_manager.py:363-408 | the pull writes only the local files named by the notes it visits |
| SyncLaws.PullStepLocal | obsidian_project_sync/sync_manager.py:363-404 | a pull step reads the vault only at its note's path and the folder only at the note's bare name |
| SyncLaws.PullStepDryLive | obsidian_project_sync/sync_manager.py:384-404 | without a failing local write a dry and a live pull step count the same way |
| SyncLaws.PullDryMatchesLive | obsidian_project_sync/sync_manager.py:363-408 | with distinct bare names and no failing local write a dry pull counts exactly what a live pull counts |
| SyncLaws.PushNoteIndependent | obsidian_project_sync/sync_manager.py:312-348 | with distinct files, the vault ends up at each file's path as that file's own step alone would leave it |
| SyncLaws.PullNoteIndependent | obsidian_project_sync/sync_manager.py:363-408 | with distinct bare names, each local file ends up as its note's own step alone would leave it |
| SyncLaws.PullLastNote | obsidian_project_sync/sync_manager.py:363-408 | the last note's step acts on its file as if taken against the original folder |
| SyncLaws.PullOtherNote | obsidian_project_sync/sync_manager.py:363-408 | a note's step leaves every other local file as it was |
| SyncLaws.NoteNameRoundTrip | obsidian_project_sync/sync_manager.py:366 | the pull stores the note that the push wrote for a slash-free name under that same name |
| SyncLaws.NoteConverges | obsidian_project_sync/sync_manager.py:437-458 | after a failure-free push and pull with a non-interactive strategy and a clock that does not run back, and a vault note without carriage returns, the local file reads as its note, and holds it unchanged when the file held no carriage return |
| SyncLaws.SyncConverges | obsidian_project_sync/sync_manager.py:452-458 | the same for whole passes over distinct files and notes: each pushed file that the pull lists ends up reading as its vault note |
| SyncLaws.ConvergedNoteSkipped | obsidian_project_sync/sync_manager.py:331-344 | a note whose local file reads as the vault note is skipped in both directions and nothing is written |
| SyncLaws.CarriageReturnNeverSkipped | obsidian_project_sync/sync_manager.py:315-344 | a vault note holding a carriage return is never skipped by either pass, because the text-mode read never returns it |
| SyncLaws.CarriageReturnResyncs | obsidian_project_sync/sync_manager.py:331-395 | with `obsidian_wins` and no failures such a note is PUT back and rewritten locally, both counted as updated, and the next sync meets the same state and does the same |
| SyncLaws.PushStepOutcome | obsidian_project_sync/sync_manager.py:312-348 | push step cases: an unreadable local file is an error; a missing note is created from the local text as read; equal content is skipped; different content gets the strategy's answer for (local, vault); dry runs and failures write nothing |
| SyncLaws.PushOverwritesUnreadableNote | obsidian_project_sync/sync_manager.py:322-330 | a note whose GET fails is overwritten with the local content and counted as created, without the strategy |
| SyncLaws.PullStepOutcome | obsidian_project_sync/sync_manager.py:363-408 | pull step cases: uncounted iff filtered out or unreadable; a missing file is created from the vault content; equal content is skipped; different content gets the strategy's answer, stamped with the current time |
| Backups.BackupDecision | obsidian_project_sync/sync_manager.py:248-268 | `create_backup`: no backup when disabled or without a local folder, a reported path without copying in a dry run, no backup when the copy fails or the directory exists, a copy otherwise (`SyncManager.ObsidianSyncManager.CreateBackup`) |
| Backups.CopyKeepsNamesDistinct | obsidian_project_sync/sync_manager.py:257-261 | a copied backup does not reuse a directory name |
| Backups.RetentionLimit | obsidian_project_sync/sync_manager.py:272 | `max_backups or configured`: `None` and `0` fall back to the configured value, any other value is kept |
| Backups.InsertNewestFirst | obsidian_project_sync/sync_manager.py:280 | inserting into a newest-first list keeps it newest first and adds exactly that backup |
| Backups.SortNewestFirst | obsidian_project_sync/sync_manager.py:279-280 | the sort is newest first and a permutation of the backups |
| Backups.SliceFrom | obsidian_project_sync/sync_manager.py:283 | `xs[k:]` with Python's clamping and negative indices: its length, and that it is a suffix |
| Backups.RetentionKeepsNewest | obsidian_project_sync/sync_manager.py:278-283 | kept and doomed backups together are all of them, no kept one is older than a doomed one, and a non-negative limit keeps that many |
| Backups.NewestBeforeCut | obsidian_project_sync/sync_manager.py:280-283 | in a newest-first list everything before a cut is at least as new as everything after it |
| Backups.DefaultLimitDoomsTwoOfTwelve | obsidian_project_sync/sync_manager.py:272-283 | with twelve backups and the default limit, the two oldest are the ones deleted |
| Backups.Without | obsidian_project_sync/sync_manager.py:283-289 | removing a set of backups keeps exactly the others |
| Backups.WithoutTwice | obsidian_project_sync/sync_manager.py:283-289 | removing in two rounds equals removing the union |
| Backups.Removed | obsidian_project_sync/sync_manager.py:283-289 | a doomed backup is deleted iff the run is live and its `rmtree` succeeds |
| Backups.CleanupOutcome | obsidian_project_sync/sync_manager.py:283-289 | after cleanup a backup remains iff it was within the limit, the run was dry, or its deletion failed; one failure does not spare the others |
| SyncManager.ObsidianSyncManager.constructor | obsidian_project_sync/sync_manager.py:26-45 | the manager holds the settings, with the strategy built by the factory from the configured name |
| SyncManager.ObsidianSyncManager.GetNoteContent | obsidian_project_sync/sync_manager.py:167-195 | a GET returns the note's content, or nothing for a missing note or a failed request |
| SyncManager.ObsidianSyncManager.CreateOrUpdateNote | obsidian_project_sync/sync_manager.py:197-226 | a dry run reports success and writes nothing; a live PUT writes the content or fails and reports it |
| SyncManager.ObsidianSyncManager.SyncLocalToObsidian | obsidian_project_sync/sync_manager.py:295-350 | the local → vault pass leaves the vault and returns the counters that `PushPass` gives; a missing folder gives zero counters and no change |
| SyncManager.ObsidianSyncManager.SyncObsidianToLocal | obsidian_project_sync/sync_manager.py:352-410 | the vault → local pass creates the folder unless dry, and leaves the folder and returns the counters that `PullPass` gives |
| SyncManager.ObsidianSyncManager.PushNote | obsidian_project_sync/sync_manager.py:313-348 | one iteration of the push loop changes the vault and the counters as `PushStep` says |
| SyncManager.ObsidianSyncManager.PullNotesLoop | obsidian_project_sync/sync_manager.py:363-408 | the pull loop leaves the folder and returns the counters that the fold `PullNotes` gives, and changes nothing in a dry run |
| SyncManager.ObsidianSyncManager.PullNote | obsidian_project_sync/sync_manager.py:364-408 | one iteration of the pull loop changes the folder and the counters as `PullStep` says, and nothing in a dry run |
| SyncManager.ObsidianSyncManager.CreateBackup | obsidian_project_sync/sync_manager.py:248-268 | a backup is copied only when enabled, the folder exists, the run is live and the copy succeeds; a dry run reports the path without copying |
| SyncManager.ObsidianSyncManager.CleanupOldBackups | obsidian_project_sync/sync_manager.py:270-289 | cleanup removes exactly the doomed backups whose deletion goes through; without a backup folder there are no backups and nothing changes |
| SyncManager.ObsidianSyncManager.DeleteBackups | obsidian_project_sync/sync_manager.py:283-289 | the deletion loop removes each doomed backup unless the run is dry or its removal fails |
| SyncManager.CleanupStep | obsidian_project_sync/sync_manager.py:283-289 | one iteration of the deletion loop removes the current backup from what is left exactly when its deletion goes through |
| SyncManager.WithoutNothing | obsidian_project_sync/sync_manager.py:283-289 | removing no backups changes nothing |
| SyncManager.WithoutKeepsNamesDistinct | obsidian_project_sync/sync_manager.py:283-289 | deleting backups keeps directory names distinct |
| SyncManager.ObsidianSyncManager.BidirectionalSync | obsidian_project_sync/sync_manager.py:437-495 | the backup comes first and creates the backup folder exactly when it copies; an unreachable vault fails before either pass and changes nothing else; otherwise local → vault runs, then vault → local against the vault the first pass left, and the notes folder exists afterwards unless the run is dry |

## Left out

- HTTP transport (`_make_request`, the PUT status check, the content-type branches of `get_note_content`): a GET is `Option<string>` read from the vault map, with failures from `Faults.vaultRead`; a PUT succeeds unless its path is in `Faults.vaultWrite`.
- `test_connection` is the `reachable` parameter of `BidirectionalSync`; `delete_note` is not called by any pass and is not modelled.
- `send_notification`, logging and the duration in the sync report: output only.
- `get_file_hash` (MD5): modelled as content equality, so hash collisions are not modelled.
- `fnmatch` character classes (`[...]`) and OS case normalisation: `Glob.Match` handles `*`, `?` and literal characters only.
- Filesystem operations (`open`, `mkdir`, `copytree`, `rmtree`, `iterdir`, `stat`) are map and sequence updates. The failures the source catches are modelled: a local read, a local write or a `stat` that fails (sets of names in `Faults`), a failing `copytree` as a whole (`copyFails`) and a failing `rmtree` (`removeFails`). The uncaught failures listed below are not.
- SyncManager.ObsidianSyncManager.SyncObsidianToLocal: a failing `mkdir` of the local folder is not caught by the pass; the exception ends `bidirectional_sync` after the push, which then reports failure. The model creates the folder unconditionally outside dry runs.
- SyncPasses.LocalCandidates: the `glob` of the local folder is not guarded, so a failing directory read ends the push and the whole sync; the model takes the folder entries as given.
- Backups.Doomed: the `iterdir` and `stat` calls of `cleanup_old_backups` are not guarded; a failure there raises out of the cleanup. The model takes the backup list with its modification times as given.
- SyncPasses.SaveLocal: a write that fails after `open(..., 'w')` has truncated the file leaves the file empty or partly written. The model leaves the old content in place.
- SyncManager.ObsidianSyncManager.CreateBackup: a `copytree` that fails part-way leaves a partial backup directory behind. The model records no backup.
- The local-folder glob is given as the list of folder entries. Directories that match the glob and the `is_dir` filter of `cleanup_old_backups` are not modelled.
- `Path.name` of a path with a trailing slash (pathlib drops the slash; `Text.Basename` gives the empty name).
- Text.JoinPath: pathlib's normalisation of the root and of the relative part (a trailing `/` dropped, as in `notes/`; `//` and `.` segments collapsed, as in `./notes`) is not modelled; both are kept as given.
- SyncFilter.ListedNotes: a dictionary entry whose `path` (or `name`) is not a string raises inside the listing's `try`, and `get_vault_notes` then returns no notes at all. `Record` holds `Option<string>` fields and cannot express such an entry.
- Newline translation on write: text mode on Windows would write `"\n"` as `"\r\n"`. Writes are modelled as on POSIX, where the text is stored unchanged.
- SyncManager.ObsidianSyncManager.BidirectionalSync: the local folder's entries and the vault listing are inputs. They are not derived from the local store or from the vault the push left, so a listing that disagrees with either is not ruled out.
- Backups.RetentionLimit: the limit is an integer. A YAML `null` for `max_backups` would slice from the start and delete every backup, and a string would raise; neither is modelled.
- Clock reads (`datetime.now()`, `st_mtime`) are integer parameters; floating-point seconds are not modelled. The clock is constant during one pass.
- Backups.SortNewestFirst: does not state that Python's sort is stable; only the newest-first order and the permutation are proved.
- The BackupAndResolve conflict-backup files (`_create_conflict_backup`) and their timestamps: the `conflicts/<timestamp>/` copies of both versions are not modelled. The resolver runs whatever the dry-run flag says, so these copies are written in dry runs too. Their failure does not change the result, which `BackupAndResolveDelegates` states.
- `InteractiveResolver`: the terminal loop is replaced by the operator's final answer (`Choice`); invalid answers that re-prompt are not modelled.
- `watch_mode`: an endless loop of `bidirectional_sync` calls with sleeps.
- The raised exception of `bidirectional_sync` is the `Failure` result; the error notification is left out with the other notifications.
- Config I/O: dotenv loading, YAML reading and writing, `_create_default_config_file`, `setup_logging`, `get_config_summary`. The configuration file is a `YamlFile` input, and `update_config` is modelled without the save.
- Config.DeepMerge: works on map values, so the aliasing of the in-place `deep_merge` (a nested mapping shared with the caller's `updates`) is not modelled.
- `obsidian_project_sync/cli.py`, `obsidian_project_sync/init_project.py` and `obsidian_project_sync/__init__.py`: user interface, scaffolding and re-exports.
- The environment-variable getters other than the API host and key (Slack, Discord, ngrok) are plain `os.getenv` reads.
- SyncLaws.PushDryMatchesLive: holds only for distinct file names and no failing PUT. With duplicate names (overlapping include extensions) a live run sees its own earlier writes and a dry run does not.
- SyncLaws.PullDryMatchesLive: holds only for distinct bare names and no failing local write, for the same reason.
