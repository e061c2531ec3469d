/**
 * What the two passes guarantee: every visited note is counted once, a dry
 * run writes no note and no file and, under stated conditions, counts what
 * a live run would, notes with distinct names are reconciled independently
 * of each other, and one bidirectional sync without failures leaves each
 * local file reading as its vault note, so that the next sync skips it,
 * unless the vault note holds a carriage return, which no read returns.
 */
module SyncLaws {
  import opened Wrappers
  import opened Text
  import opened SyncFilter
  import opened SyncPasses
  import CR = ConflictResolver

  // ---- Counting ----

  /** Every local file the push loop visits advances exactly one counter. */
  lemma {:induction false} PushCountsEveryFile(s: Settings, env: Env, local: LocalStore, vault: VaultStore, names: seq<string>)
    ensures PushNotes(s, env, local, vault, names).stats.Total() == |names|
  {
    if names != [] {
      PushCountsEveryFile(s, env, local, vault, names[..|names| - 1]);
    }
  }

  /** The notes the pull loop counts: those whose bare name passes the filter and whose content the vault returns. */
  function Reached(s: Settings, env: Env, vault: VaultStore, notes: seq<VaultNote>): seq<VaultNote> {
    if notes == [] then []
    else
      var rest := Reached(s, env, vault, notes[..|notes| - 1]);
      var note := notes[|notes| - 1];
      if ShouldIncludeFile(s.extensions, s.patterns, Basename(note.path)) && ReadVault(vault, env.faults, note.path).Some?
      then rest + [note] else rest
  }

  lemma PullStepReached(s: Settings, env: Env, local: LocalStore, vault: VaultStore, path: string, name: string)
    ensures PullStep(s, env, local, vault, path, name).Some?
        <==> ShouldIncludeFile(s.extensions, s.patterns, name) && ReadVault(vault, env.faults, path).Some?
  {
  }

  /** Notes filtered out or unreadable in the vault are passed over uncounted; every other note advances exactly one counter. */
  lemma {:induction false} PullCountsReachedNotes(s: Settings, env: Env, local: LocalStore, vault: VaultStore, notes: seq<VaultNote>)
    ensures PullNotes(s, env, local, vault, notes).stats.Total() == |Reached(s, env, vault, notes)|
  {
    if notes != [] {
      var init := notes[..|notes| - 1];
      var note := notes[|notes| - 1];
      PullCountsReachedNotes(s, env, local, vault, init);
      PullStepReached(s, env, PullNotes(s, env, local, vault, init).local, vault, note.path, Basename(note.path));
    }
  }

  // ---- Dry run ----

  /** A dry push leaves the vault as it was. */
  lemma {:induction false} PushDryRunKeepsVault(s: Settings, env: Env, local: LocalStore, vault: VaultStore, names: seq<string>)
    requires s.dryRun
    ensures PushNotes(s, env, local, vault, names).vault == vault
  {
    if names != [] {
      var init := names[..|names| - 1];
      PushDryRunKeepsVault(s, env, local, vault, init);
      PushStepDryWritesNothing(s, env, local, PushNotes(s, env, local, vault, init).vault, names[|names| - 1]);
    }
  }

  /** In a dry run a push step writes nothing. */
  lemma PushStepDryWritesNothing(s: Settings, env: Env, local: LocalStore, vault: VaultStore, name: string)
    requires s.dryRun
    ensures PushStep(s, env, local, vault, name).write.None?
  {
  }

  /** A dry pull leaves the local folder as it was. */
  lemma {:induction false} PullDryRunKeepsLocal(s: Settings, env: Env, local: LocalStore, vault: VaultStore, notes: seq<VaultNote>)
    requires s.dryRun
    ensures PullNotes(s, env, local, vault, notes).local == local
  {
    if notes != [] {
      var init := notes[..|notes| - 1];
      var path := notes[|notes| - 1].path;
      PullDryRunKeepsLocal(s, env, local, vault, init);
      PullStepDryWritesNothing(s, env, local, vault, path, Basename(path));
    }
  }

  /** In a dry run a pull step writes nothing. */
  lemma PullStepDryWritesNothing(s: Settings, env: Env, local: LocalStore, vault: VaultStore, path: string, name: string)
    requires s.dryRun
    ensures var step := PullStep(s, env, local, vault, path, name);
            step.Some? ==> step.value.write.None?
  {
  }

  /** Distinct names give distinct note paths under the same folder. */
  lemma NotePathInjective(vaultPath: string, a: string, b: string)
    ensures NotePath(vaultPath, a) == NotePath(vaultPath, b) ==> a == b
  {
    if NotePath(vaultPath, a) == NotePath(vaultPath, b) {
      assert NotePath(vaultPath, a)[|vaultPath| + 1..] == a;
      assert NotePath(vaultPath, b)[|vaultPath| + 1..] == b;
    }
  }

  /** The push writes only to the paths of the files it visits. */
  lemma {:induction false} PushFrame(s: Settings, env: Env, local: LocalStore, vault: VaultStore, names: seq<string>, p: string)
    requires forall n :: n in names ==> NotePath(s.vaultPath, n) != p
    ensures Agree(PushNotes(s, env, local, vault, names).vault, vault, p)
  {
    if names != [] {
      var init := names[..|names| - 1];
      assert forall n :: n in init ==> n in names;
      PushFrame(s, env, local, vault, init, p);
    }
  }

  /** A push step looks at the vault only at its own note's path. */
  lemma PushStepLocal(s: Settings, env: Env, local: LocalStore, v1: VaultStore, v2: VaultStore, name: string)
    requires Agree(v1, v2, NotePath(s.vaultPath, name))
    ensures PushStep(s, env, local, v1, name) == PushStep(s, env, local, v2, name)
  {
  }

  lemma DistinctLast<T>(xs: seq<T>)
    requires Distinct(xs) && xs != []
    ensures Distinct(xs[..|xs| - 1])
    ensures xs[|xs| - 1] !in xs[..|xs| - 1]
  {
  }

  /** Without duplicate files and without failed PUTs, a dry push counts exactly what a live push counts. */
  lemma {:induction false} PushDryMatchesLive(s: Settings, env: Env, local: LocalStore, vault: VaultStore, names: seq<string>)
    requires Distinct(names)
    requires forall n :: n in names ==> NotePath(s.vaultPath, n) !in env.faults.vaultWrite
    ensures PushNotes(s.(dryRun := true), env, local, vault, names).stats
         == PushNotes(s.(dryRun := false), env, local, vault, names).stats
  {
    if names != [] {
      var dry := s.(dryRun := true);
      var live := s.(dryRun := false);
      var init := names[..|names| - 1];
      var n := names[|names| - 1];
      DistinctLast(names);
      assert forall m :: m in init ==> m in names;
      PushDryMatchesLive(s, env, local, vault, init);
      PushDryRunKeepsVault(dry, env, local, vault, init);
      PushLastSeesOriginal(live, env, local, vault, names);
      PushStepDryLive(s, env, local, vault, n);
    }
  }

  /** With distinct names, the last file's step sees the vault as it was before the push. */
  lemma PushLastSeesOriginal(s: Settings, env: Env, local: LocalStore, vault: VaultStore, names: seq<string>)
    requires Distinct(names) && names != []
    ensures var n := names[|names| - 1];
            PushStep(s, env, local, PushNotes(s, env, local, vault, names[..|names| - 1]).vault, n)
            == PushStep(s, env, local, vault, n)
  {
    var init := names[..|names| - 1];
    var n := names[|names| - 1];
    var p := NotePath(s.vaultPath, n);
    DistinctLast(names);
    forall m | m in init
      ensures NotePath(s.vaultPath, m) != p
    {
      NotePathInjective(s.vaultPath, m, n);
    }
    PushFrame(s, env, local, vault, init, p);
    PushStepLocal(s, env, local, vault, PushNotes(s, env, local, vault, init).vault, n);
  }

  /** A dry and a live push step on the same vault advance the same counter unless the PUT fails. */
  lemma PushStepDryLive(s: Settings, env: Env, local: LocalStore, vault: VaultStore, n: string)
    requires NotePath(s.vaultPath, n) !in env.faults.vaultWrite
    ensures PushStep(s.(dryRun := true), env, local, vault, n).kind == PushStep(s.(dryRun := false), env, local, vault, n).kind
  {
  }

  /** No two listed notes share a bare name, i.e. a local file. */
  predicate DistinctNames(notes: seq<VaultNote>) {
    forall i, j :: 0 <= i < j < |notes| ==> Basename(notes[i].path) != Basename(notes[j].path)
  }

  /** The pull writes only to the local files named by the notes it visits. */
  lemma {:induction false} PullFrame(s: Settings, env: Env, local: LocalStore, vault: VaultStore, notes: seq<VaultNote>, name: string)
    requires forall k :: 0 <= k < |notes| ==> Basename(notes[k].path) != name
    ensures Agree(PullNotes(s, env, local, vault, notes).local, local, name)
  {
    if notes != [] {
      PullFrame(s, env, local, vault, notes[..|notes| - 1], name);
    }
  }

  /** A pull step looks at the vault only at its note's path and at the local folder only at the note's bare name. */
  lemma PullStepLocal(s: Settings, env: Env, l1: LocalStore, l2: LocalStore, v1: VaultStore, v2: VaultStore, path: string, name: string)
    requires Agree(l1, l2, name)
    requires Agree(v1, v2, path)
    ensures PullStep(s, env, l1, v1, path, name) == PullStep(s, env, l2, v2, path, name)
  {
  }

  lemma PullStepDryLive(s: Settings, env: Env, local: LocalStore, vault: VaultStore, path: string, name: string)
    requires name !in env.faults.localWrite
    ensures var d := PullStep(s.(dryRun := true), env, local, vault, path, name);
            var l := PullStep(s.(dryRun := false), env, local, vault, path, name);
            (d.Some? <==> l.Some?) && (d.Some? ==> d.value.kind == l.value.kind)
  {
  }

  /** Without two notes for the same local file and without failed local writes, a dry pull counts exactly what a live pull counts. */
  lemma {:induction false} PullDryMatchesLive(s: Settings, env: Env, local: LocalStore, vault: VaultStore, notes: seq<VaultNote>)
    requires DistinctNames(notes)
    requires forall k :: 0 <= k < |notes| ==> Basename(notes[k].path) !in env.faults.localWrite
    ensures PullNotes(s.(dryRun := true), env, local, vault, notes).stats
         == PullNotes(s.(dryRun := false), env, local, vault, notes).stats
  {
    if notes != [] {
      var dry := s.(dryRun := true);
      var live := s.(dryRun := false);
      var init := notes[..|notes| - 1];
      var note := notes[|notes| - 1];
      PullDryMatchesLive(s, env, local, vault, init);
      PullDryRunKeepsLocal(dry, env, local, vault, init);
      PullFrame(live, env, local, vault, init, Basename(note.path));
      var liveLocal := PullNotes(live, env, local, vault, init).local;
      PullStepLocal(live, env, local, liveLocal, vault, vault, note.path, Basename(note.path));
      PullStepDryLive(s, env, local, vault, note.path, Basename(note.path));
    }
  }

  // ---- Independence ----

  /** With distinct files, the push leaves each file's note exactly as that file's own step, taken against the original vault, would. */
  lemma {:induction false} PushNoteIndependent(s: Settings, env: Env, local: LocalStore, vault: VaultStore, names: seq<string>, n: string)
    requires Distinct(names) && n in names
    ensures Agree(PushNotes(s, env, local, vault, names).vault,
                  Written(vault, NotePath(s.vaultPath, n), PushStep(s, env, local, vault, n).write),
                  NotePath(s.vaultPath, n))
  {
    var init := names[..|names| - 1];
    var last := names[|names| - 1];
    var p := NotePath(s.vaultPath, n);
    var prev := PushNotes(s, env, local, vault, init);
    DistinctLast(names);
    if last == n {
      forall m | m in init
        ensures NotePath(s.vaultPath, m) != p
      {
        NotePathInjective(s.vaultPath, m, n);
      }
      PushFrame(s, env, local, vault, init, p);
      PushStepLocal(s, env, local, vault, prev.vault, n);
    } else {
      assert n in init by {
        var i :| 0 <= i < |names| && names[i] == n;
        assert i < |names| - 1 && init[i] == n;
      }
      PushNoteIndependent(s, env, local, vault, init, n);
      NotePathInjective(s.vaultPath, last, n);
    }
  }

  /** With distinct bare names, the pull leaves the local file of note `k` exactly as that note's own step, taken against the original folder, would. */
  lemma {:induction false} PullNoteIndependent(s: Settings, env: Env, local: LocalStore, vault: VaultStore, notes: seq<VaultNote>, k: nat)
    requires DistinctNames(notes) && k < |notes|
    ensures var name := Basename(notes[k].path);
            var step := PullStep(s, env, local, vault, notes[k].path, name);
            Agree(PullNotes(s, env, local, vault, notes).local,
                  if step.Some? then Written(local, name, step.value.write) else local,
                  name)
  {
    var init := notes[..|notes| - 1];
    assert forall i :: 0 <= i < |init| ==> init[i] == notes[i];
    if k == |notes| - 1 {
      PullLastNote(s, env, local, vault, notes);
    } else {
      PullNoteIndependent(s, env, local, vault, init, k);
      PullOtherNote(s, env, local, vault, notes, Basename(notes[k].path));
    }
  }

  /** The last note's step, taken after the earlier notes with other bare names, acts as if taken against the original folder. */
  lemma PullLastNote(s: Settings, env: Env, local: LocalStore, vault: VaultStore, notes: seq<VaultNote>)
    requires notes != []
    requires forall k :: 0 <= k < |notes| - 1 ==> Basename(notes[k].path) != Basename(notes[|notes| - 1].path)
    ensures var path := notes[|notes| - 1].path;
            var step := PullStep(s, env, local, vault, path, Basename(path));
            Agree(PullNotes(s, env, local, vault, notes).local,
                  if step.Some? then Written(local, Basename(path), step.value.write) else local,
                  Basename(path))
  {
    var init := notes[..|notes| - 1];
    var path := notes[|notes| - 1].path;
    var prev := PullNotes(s, env, local, vault, init);
    PullFrame(s, env, local, vault, init, Basename(path));
    PullStepLocal(s, env, local, prev.local, vault, vault, path, Basename(path));
  }

  /** The last note's step leaves every other bare name as the earlier notes left it. */
  lemma PullOtherNote(s: Settings, env: Env, local: LocalStore, vault: VaultStore, notes: seq<VaultNote>, name: string)
    requires notes != [] && Basename(notes[|notes| - 1].path) != name
    ensures Agree(PullNotes(s, env, local, vault, notes).local, PullNotes(s, env, local, vault, notes[..|notes| - 1]).local, name)
  {
  }

  // ---- Convergence ----

  /** The pull stores the note a push wrote for a slash-free file name under that same name. */
  lemma NoteNameRoundTrip(vaultPath: string, n: string)
    requires '/' !in n
    ensures Basename(NotePath(vaultPath, n)) == n
  {
    BasenameUnder(vaultPath, n);
    PlainName(n);
  }

  /**
   * One note, one bidirectional sync without failures and with a
   * non-interactive strategy, the vault note holding no carriage return:
   * afterwards reading the local file gives the vault note, and a local file
   * without carriage returns holds exactly the vault note.
   */
  lemma NoteConverges(s: Settings, pushEnv: Env, pullEnv: Env, local: LocalStore, vault: VaultStore, n: string)
    requires !s.dryRun && !s.resolver.AsksOperator()
    requires pushEnv.faults == NoFaults && pullEnv.faults == NoFaults
    requires pushEnv.now <= pullEnv.now
    requires n in local && ShouldIncludeFile(s.extensions, s.patterns, n)
    requires NotePath(s.vaultPath, n) in vault ==> '\r' !in vault[NotePath(s.vaultPath, n)]
    ensures var p := NotePath(s.vaultPath, n);
            var v2 := Written(vault, p, PushStep(s, pushEnv, local, vault, n).write);
            var pull := PullStep(s, pullEnv, local, v2, p, n);
            p in v2 && pull.Some?
            && var l2 := Written(local, n, pull.value.write);
               n in l2 && ReadText(l2[n].content) == v2[p]
               && ('\r' !in local[n].content ==> l2[n].content == v2[p])
  {
    var p := NotePath(s.vaultPath, n);
    var a := ReadText(local[n].content);
    ReadTextKeeps(local[n].content);
    ReadTextKeeps(a);
    if p in vault {
      ReadTextKeeps(vault[p]);
    }
    if p in vault && vault[p] != a {
      var ctx1 := ContextFor(local, pushEnv, n);
      var ctx2 := ContextFor(local, pullEnv, n);
      if CR.Resolve(s.resolver, a, vault[p], ctx1) == vault[p] {
        CR.VaultWinStable(s.resolver, a, vault[p], ctx1, ctx2);
      }
    }
  }

  /**
   * The same for whole passes: a push over distinct files followed by a pull
   * over notes with distinct bare names, both without failures, leave every
   * pushed file whose note the pull lists reading the same in the folder as
   * in the vault.
   */
  lemma SyncConverges(s: Settings, pushEnv: Env, pullEnv: Env, local: LocalStore, vault: VaultStore,
                      names: seq<string>, notes: seq<VaultNote>, n: string, k: nat)
    requires !s.dryRun && !s.resolver.AsksOperator()
    requires pushEnv.faults == NoFaults && pullEnv.faults == NoFaults
    requires pushEnv.now <= pullEnv.now
    requires Distinct(names) && n in names
    requires n in local && '/' !in n && ShouldIncludeFile(s.extensions, s.patterns, n)
    requires NotePath(s.vaultPath, n) in vault ==> '\r' !in vault[NotePath(s.vaultPath, n)]
    requires DistinctNames(notes) && k < |notes| && notes[k].path == NotePath(s.vaultPath, n)
    ensures var push := PushNotes(s, pushEnv, local, vault, names);
            var pull := PullNotes(s, pullEnv, local, push.vault, notes);
            NotePath(s.vaultPath, n) in push.vault && n in pull.local
            && ReadText(pull.local[n].content) == push.vault[NotePath(s.vaultPath, n)]
  {
    var p := NotePath(s.vaultPath, n);
    var push := PushNotes(s, pushEnv, local, vault, names);
    var v2 := Written(vault, p, PushStep(s, pushEnv, local, vault, n).write);
    PushNoteIndependent(s, pushEnv, local, vault, names, n);
    NoteConverges(s, pushEnv, pullEnv, local, vault, n);
    NoteNameRoundTrip(s.vaultPath, n);
    PullStepLocal(s, pullEnv, local, local, push.vault, v2, p, n);
    PullNoteIndependent(s, pullEnv, local, push.vault, notes, k);
  }

  /** Once reading the local file gives the vault note, the next sync without read failures skips it in both directions and writes nothing. */
  lemma ConvergedNoteSkipped(s: Settings, env: Env, local: LocalStore, vault: VaultStore, n: string)
    requires n in local && n !in env.faults.localRead && ShouldIncludeFile(s.extensions, s.patterns, n)
    requires NotePath(s.vaultPath, n) !in env.faults.vaultRead
    requires NotePath(s.vaultPath, n) in vault && vault[NotePath(s.vaultPath, n)] == ReadText(local[n].content)
    ensures PushStep(s, env, local, vault, n) == Step(Skipped, None)
    ensures PullStep(s, env, local, vault, NotePath(s.vaultPath, n), n) == Some(Step(Skipped, None))
  {
  }

  /**
   * A vault note holding a carriage return never reads back equal from the
   * local file, so no sync that reaches it skips it: each pass counts it
   * again (or an error).
   */
  lemma CarriageReturnNeverSkipped(s: Settings, env: Env, local: LocalStore, vault: VaultStore, n: string)
    requires n in local && ShouldIncludeFile(s.extensions, s.patterns, n)
    requires NotePath(s.vaultPath, n) in vault && NotePath(s.vaultPath, n) !in env.faults.vaultRead
    requires '\r' in vault[NotePath(s.vaultPath, n)]
    ensures PushStep(s, env, local, vault, n).kind != Skipped
    ensures PullStep(s, env, local, vault, NotePath(s.vaultPath, n), n).Some?
    ensures PullStep(s, env, local, vault, NotePath(s.vaultPath, n), n).value.kind != Skipped
  {
    ReadTextKeeps(local[n].content);
    assert ReadText(local[n].content) != vault[NotePath(s.vaultPath, n)];
  }

  /**
   * With obsidian_wins and no failures, a vault note holding a carriage
   * return is rewritten on both sides by every sync: the push PUTs the same
   * note back and counts it updated, the pull writes it to the file and
   * counts it updated, and the next sync finds the same state again.
   */
  lemma CarriageReturnResyncs(s: Settings, env: Env, local: LocalStore, vault: VaultStore, n: string)
    requires !s.dryRun && s.resolver == CR.ResolverFor("obsidian_wins") && env.faults == NoFaults
    requires n in local && ShouldIncludeFile(s.extensions, s.patterns, n)
    requires NotePath(s.vaultPath, n) in vault && '\r' in vault[NotePath(s.vaultPath, n)]
    ensures var p := NotePath(s.vaultPath, n);
            var push := PushStep(s, env, local, vault, n);
            var v2 := Written(vault, p, push.write);
            var pull := PullStep(s, env, local, v2, p, n);
            && push == Step(Updated, Some(vault[p])) && v2 == vault
            && pull == Some(Step(Updated, Some(LocalFile(vault[p], env.now))))
            && var l2 := Written(local, n, pull.value.write);
               && PushStep(s, env, l2, v2, n) == push
               && PullStep(s, env, l2, v2, p, n) == pull
  {
    var p := NotePath(s.vaultPath, n);
    var v := vault[p];
    ReadTextKeeps(local[n].content);
    ReadTextKeeps(v);
    assert ReadText(local[n].content) != v;
    assert ReadText(v) != v;
    assert s.resolver == CR.BackupAndResolve(CR.ObsidianWins);
    assert ReadVault(vault, env.faults, p) == Some(v);
    assert n !in env.faults.localRead && p !in env.faults.vaultWrite;
    CR.BackupAndResolveDelegates(CR.ObsidianWins, ReadText(local[n].content), v, ContextFor(local, env, n));
    var push := PushStep(s, env, local, vault, n);
    assert push == Step(Updated, Some(v));
    var v2 := Written(vault, p, push.write);
    assert v2 == vault;
    var pull := PullStep(s, env, local, v2, p, n);
    assert pull == Some(Step(Updated, Some(LocalFile(v, env.now))));
    var l2 := Written(local, n, pull.value.write);
    assert l2[n].content == v;
    CR.BackupAndResolveDelegates(CR.ObsidianWins, ReadText(v), v, ContextFor(l2, env, n));
    assert PushStep(s, env, l2, v2, n) == push;
    assert PullStep(s, env, l2, v2, p, n) == pull;
  }

  // ---- Single steps ----

  /**
   * A push step creates the note with the local content when the vault
   * returns nothing, skips when the contents are equal, and otherwise writes
   * what the strategy returns for (local, vault) in that order; a dry run and
   * a failed read or write never write.
   */
  lemma PushStepOutcome(s: Settings, env: Env, local: LocalStore, vault: VaultStore, name: string)
    ensures var step := PushStep(s, env, local, vault, name);
            var current := ReadVault(vault, env.faults, NotePath(s.vaultPath, name));
            && (name !in local || name in env.faults.localRead ==> step == Step(Errored, None))
            && (step.write.Some? ==> !s.dryRun && NotePath(s.vaultPath, name) !in env.faults.vaultWrite)
            && (name in local && name !in env.faults.localRead ==>
                  && (current.None? ==> step.kind in {Created, Errored} && (step.write.Some? ==> step.write.value == ReadText(local[name].content)))
                  && (current == Some(ReadText(local[name].content)) ==> step == Step(Skipped, None))
                  && (current.Some? && current.value != ReadText(local[name].content) ==>
                        step.kind in {Updated, Errored}
                        && (step.write.Some? ==>
                              step.write.value == CR.Resolve(s.resolver, ReadText(local[name].content), current.value, ContextFor(local, env, name)))))
            && (!s.dryRun && step.kind != Errored && step.kind != Skipped ==> step.write.Some?)
  {
  }

  /** A note whose GET fails is taken for a missing one: a live push overwrites it with the local content without consulting the strategy. */
  lemma PushOverwritesUnreadableNote(s: Settings, env: Env, local: LocalStore, vault: VaultStore, name: string)
    requires !s.dryRun && name in local && name !in env.faults.localRead
    requires NotePath(s.vaultPath, name) in env.faults.vaultRead && NotePath(s.vaultPath, name) !in env.faults.vaultWrite
    ensures PushStep(s, env, local, vault, name) == Step(Created, Some(ReadText(local[name].content)))
  {
  }

  /**
   * A pull step is uncounted exactly when the bare name fails the filter or
   * the vault returns nothing; otherwise it creates the file with the vault
   * content, skips equal contents, or writes what the strategy returns for
   * (local, vault), stamped with the current time.
   */
  lemma PullStepOutcome(s: Settings, env: Env, local: LocalStore, vault: VaultStore, path: string, name: string)
    ensures var step := PullStep(s, env, local, vault, path, name);
            var remote := ReadVault(vault, env.faults, path);
            && (step.None? <==> !ShouldIncludeFile(s.extensions, s.patterns, name) || remote.None?)
            && (step.Some? && step.value.write.Some? ==>
                  !s.dryRun && name !in env.faults.localWrite && step.value.write.value.mtime == env.now)
            && (step.Some? && name !in local ==>
                  step.value.kind in {Created, Errored} && (step.value.write.Some? ==> step.value.write.value.content == remote.value))
            && (step.Some? && name in local && name !in env.faults.localRead && ReadText(local[name].content) == remote.value ==>
                  step.value == Step(Skipped, None))
            && (step.Some? && name in local && name !in env.faults.localRead && ReadText(local[name].content) != remote.value ==>
                  step.value.kind in {Updated, Errored}
                  && (step.value.write.Some? ==>
                        step.value.write.value.content == CR.Resolve(s.resolver, ReadText(local[name].content), remote.value, ContextFor(local, env, name))))
  {
  }
}
