/**
 * The two synchronisation passes as functions of their inputs. The local
 * notes folder is a map from file name to (content, modification time), the
 * vault a map from note path to content. What the filesystem, the REST API
 * and the clock would decide at run time (which reads and writes fail, which
 * `stat` calls fail, the current time, the operator's answers) is an `Env`.
 * Each pass is a fold of one step per note over the notes in the order the
 * source visits them; the methods of `SyncManager` are proved to compute
 * these folds.
 */
module SyncPasses {
  import opened Wrappers
  import opened Text
  import Glob
  import opened SyncFilter
  import CR = ConflictResolver

  // ---- Counters ----

  /** The `{"created", "updated", "skipped", "errors"}` dictionary a pass returns. */
  datatype Stats = Stats(created: nat, updated: nat, skipped: nat, errors: nat)
  {
    function Total(): nat {
      created + updated + skipped + errors
    }
  }

  const NoStats: Stats := Stats(0, 0, 0, 0)

  /** Which counter a note advances. */
  datatype Tally = Created | Updated | Skipped | Errored

  /** `stats[kind] += 1`: exactly that counter goes up by one. */
  function Count(st: Stats, t: Tally): (r: Stats)
    ensures r.Total() == st.Total() + 1
    ensures r.created == st.created + (if t == Created then 1 else 0)
    ensures r.updated == st.updated + (if t == Updated then 1 else 0)
    ensures r.skipped == st.skipped + (if t == Skipped then 1 else 0)
    ensures r.errors == st.errors + (if t == Errored then 1 else 0)
  {
    match t
    case Created => st.(created := st.created + 1)
    case Updated => st.(updated := st.updated + 1)
    case Skipped => st.(skipped := st.skipped + 1)
    case Errored => st.(errors := st.errors + 1)
  }

  // ---- Stores, settings and the environment ----

  /** A local file: the text stored in it, as the last write left it, and its modification time. */
  datatype LocalFile = LocalFile(content: string, mtime: int)

  /**
   * What `open(path, 'r').read()` returns for a file holding `raw`: text
   * mode reads with universal newlines, so `"\r\n"` and a lone `"\r"` both
   * come back as `"\n"`. Writing in text mode on a POSIX system stores the
   * string unchanged, carriage returns included.
   */
  function ReadText(raw: string): string
    decreases |raw|
  {
    if raw == [] then []
    else if raw[0] == '\r' then
      if |raw| > 1 && raw[1] == '\n' then "\n" + ReadText(raw[2..]) else "\n" + ReadText(raw[1..])
    else [raw[0]] + ReadText(raw[1..])
  }

  /**
   * A read never returns a carriage return; it returns the stored text
   * unchanged exactly when that holds none, and never returns more
   * characters than are stored.
   */
  lemma {:induction false} ReadTextKeeps(raw: string)
    ensures '\r' !in ReadText(raw)
    ensures ReadText(raw) == raw <==> '\r' !in raw
    ensures |ReadText(raw)| <= |raw|
    decreases |raw|
  {
    if raw != [] {
      if raw[0] == '\r' {
        if |raw| > 1 && raw[1] == '\n' {
          ReadTextKeeps(raw[2..]);
        } else {
          ReadTextKeeps(raw[1..]);
        }
        assert ReadText(raw)[0] != raw[0];
      } else {
        ReadTextKeeps(raw[1..]);
        assert raw == [raw[0]] + raw[1..];
        assert '\r' in raw[1..] ==> '\r' in raw;
        assert '\r' in raw ==> '\r' in raw[1..];
      }
    }
  }

  type LocalStore = map<string, LocalFile>
  type VaultStore = map<string, string>

  /** The manager's configuration: the vault folder, the filters, the strategy built by the factory, and the dry-run flag. */
  datatype Settings = Settings(
    vaultPath: string,
    extensions: seq<string>,
    patterns: seq<string>,
    resolver: CR.Resolver,
    dryRun: bool)

  /**
   * The operations that fail: local files that cannot be read or written,
   * local files whose `stat` fails, vault paths whose GET or PUT fails.
   */
  datatype Faults = Faults(
    localRead: set<string>,
    localWrite: set<string>,
    stat: set<string>,
    vaultRead: set<string>,
    vaultWrite: set<string>)

  const NoFaults: Faults := Faults({}, {}, {}, {}, {})

  /** The clock during the pass, the failures, and what the operator answers for each file. */
  datatype Env = Env(now: int, faults: Faults, answer: string -> CR.Choice)

  /** Two maps agree at a key: both lack it, or both map it to the same value. */
  predicate Agree<K, V(==)>(a: map<K, V>, b: map<K, V>, k: K) {
    (k in a <==> k in b) && (k in a ==> a[k] == b[k])
  }

  function Written<K, V>(store: map<K, V>, k: K, w: Option<V>): map<K, V> {
    if w.Some? then store[k := w.value] else store
  }

  predicate Distinct<T(==)>(xs: seq<T>) {
    forall i, j :: 0 <= i < j < |xs| ==> xs[i] != xs[j]
  }

  /** `get_note_content(path)`: absent notes and failed requests both give `None`. */
  function ReadVault(vault: VaultStore, f: Faults, path: string): Option<string> {
    if path in vault && path !in f.vaultRead then Some(vault[path]) else None
  }

  /** What the strategy sees of the local file. */
  function FileState(local: LocalStore, f: Faults, name: string): CR.LocalFileState {
    if name !in local then CR.Missing
    else if name in f.stat then CR.StatFailed
    else CR.Stamped(local[name].mtime)
  }

  function ContextFor(local: LocalStore, env: Env, name: string): CR.Context {
    CR.Context(FileState(local, env.faults, name), env.now, env.answer(name))
  }

  /** What one note does: the counter it advances and the content it writes, if any. */
  datatype Step<T> = Step(kind: Tally, write: Option<T>)

  // ---- Local → vault ----

  /** `create_or_update_note`: a dry run reports success and writes nothing; a failed PUT counts as an error. */
  function PutNote(s: Settings, f: Faults, path: string, content: string, kind: Tally): Step<string> {
    if s.dryRun then Step(kind, None)
    else if path in f.vaultWrite then Step(Errored, None)
    else Step(kind, Some(content))
  }

  /** One iteration of the loop in `sync_local_to_obsidian`, for the local file `name`. */
  function PushStep(s: Settings, env: Env, local: LocalStore, vault: VaultStore, name: string): Step<string> {
    if name !in local || name in env.faults.localRead then Step(Errored, None)
    else
      var path := NotePath(s.vaultPath, name);
      var content := ReadText(local[name].content);
      match ReadVault(vault, env.faults, path)
      case None => PutNote(s, env.faults, path, content, Created)
      case Some(current) =>
        if current != content then
          PutNote(s, env.faults, path, CR.Resolve(s.resolver, content, current, ContextFor(local, env, name)), Updated)
        else Step(Skipped, None)
  }

  datatype PushState = PushState(vault: VaultStore, stats: Stats)

  /** The vault and the counters after the loop has visited `names`. */
  function PushNotes(s: Settings, env: Env, local: LocalStore, vault: VaultStore, names: seq<string>): PushState {
    if names == [] then PushState(vault, NoStats)
    else
      var prev := PushNotes(s, env, local, vault, names[..|names| - 1]);
      var name := names[|names| - 1];
      var step := PushStep(s, env, local, prev.vault, name);
      PushState(Written(prev.vault, NotePath(s.vaultPath, name), step.write), Count(prev.stats, step.kind))
  }

  /** The entries of the folder that `glob(f"*{ext}")` yields, in the folder's order. */
  function GlobNames(entries: seq<string>, ext: string): (r: seq<string>)
    ensures forall n :: n in r <==> n in entries && Glob.Match("*" + ext, n)
  {
    if entries == [] then []
    else
      var rest := GlobNames(entries[..|entries| - 1], ext);
      var e := entries[|entries| - 1];
      assert entries == entries[..|entries| - 1] + [e];
      if Glob.Match("*" + ext, e) then rest + [e] else rest
  }

  /** `all_files`: the glob results for every include extension, one extension after another. */
  function GlobAll(entries: seq<string>, extensions: seq<string>): (r: seq<string>)
    ensures forall n :: n in r <==> n in entries && exists i :: 0 <= i < |extensions| && Glob.Match("*" + extensions[i], n)
  {
    if extensions == [] then []
    else
      var r := GlobAll(entries, extensions[..|extensions| - 1]) + GlobNames(entries, extensions[|extensions| - 1]);
      assert forall i :: 0 <= i < |extensions| - 1 ==> extensions[..|extensions| - 1][i] == extensions[i];
      r
  }

  /** `md_files`: the globbed files whose names pass the filter, order kept. */
  function Included(s: Settings, names: seq<string>): (r: seq<string>)
    ensures forall n :: n in r <==> n in names && ShouldIncludeFile(s.extensions, s.patterns, n)
  {
    if names == [] then []
    else
      var rest := Included(s, names[..|names| - 1]);
      var n := names[|names| - 1];
      assert names == names[..|names| - 1] + [n];
      if ShouldIncludeFile(s.extensions, s.patterns, n) then rest + [n] else rest
  }

  function LocalCandidates(s: Settings, entries: seq<string>): seq<string> {
    Included(s, GlobAll(entries, s.extensions))
  }

  /** `sync_local_to_obsidian()`: nothing at all when the local folder is missing. */
  function PushPass(s: Settings, env: Env, dirExists: bool, local: LocalStore, entries: seq<string>, vault: VaultStore): PushState {
    if !dirExists then PushState(vault, NoStats)
    else PushNotes(s, env, local, vault, LocalCandidates(s, entries))
  }

  // ---- Vault → local ----

  /** Writing a local file: a dry run writes nothing; a failed write is an error; a write stamps the file with the current time. */
  function SaveLocal(s: Settings, env: Env, name: string, content: string, kind: Tally): Step<LocalFile> {
    if s.dryRun then Step(kind, None)
    else if name in env.faults.localWrite then Step(Errored, None)
    else Step(kind, Some(LocalFile(content, env.now)))
  }

  /**
   * One iteration of the loop in `sync_obsidian_to_local`, for the note at
   * `path` whose bare name is `name`; `None` when the note is passed over
   * without being counted.
   */
  function PullStep(s: Settings, env: Env, local: LocalStore, vault: VaultStore, path: string, name: string): Option<Step<LocalFile>> {
    if !ShouldIncludeFile(s.extensions, s.patterns, name) then None
    else
      match ReadVault(vault, env.faults, path)
      case None => None
      case Some(remote) =>
        if name in local then
          if name in env.faults.localRead then Some(Step(Errored, None))
          else
            var content := ReadText(local[name].content);
            if content != remote then
              Some(SaveLocal(s, env, name, CR.Resolve(s.resolver, content, remote, ContextFor(local, env, name)), Updated))
            else Some(Step(Skipped, None))
        else Some(SaveLocal(s, env, name, remote, Created))
  }

  datatype PullState = PullState(local: LocalStore, stats: Stats)

  /** The local folder and the counters after the loop has visited `notes`. */
  function PullNotes(s: Settings, env: Env, local: LocalStore, vault: VaultStore, notes: seq<VaultNote>): PullState {
    if notes == [] then PullState(local, NoStats)
    else
      var prev := PullNotes(s, env, local, vault, notes[..|notes| - 1]);
      var note := notes[|notes| - 1];
      var step := PullStep(s, env, prev.local, vault, note.path, Basename(note.path));
      if step.None? then prev
      else PullState(Written(prev.local, Basename(note.path), step.value.write), Count(prev.stats, step.value.kind))
  }

  /** `sync_obsidian_to_local()` over the notes `get_vault_notes` builds from `listing`. */
  function PullPass(s: Settings, env: Env, local: LocalStore, vault: VaultStore, listing: Listing): PullState {
    PullNotes(s, env, local, vault, ListedNotes(s.vaultPath, s.extensions, s.patterns, listing))
  }
}
