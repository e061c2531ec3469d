/**
 * Backups of the local notes folder under `<project>/notes_backup/<timestamp>`
 * and their retention: which backup `create_backup` takes, and which ones
 * `cleanup_old_backups` deletes (everything past the newest `max_backups`,
 * with Python's slice semantics for the limit).
 */
module Backups {
  import opened Wrappers
  import opened Text
  import opened SyncPasses

  /** One directory under `notes_backup/`: its name (the timestamp), its modification time, and the notes copied into it. */
  datatype Backup = Backup(name: string, mtime: int, files: LocalStore)

  const BackupFolder: string := "notes_backup"

  /** `project_root / "notes_backup" / timestamp`. */
  function BackupPath(projectRoot: string, timestamp: string): string {
    JoinPath(JoinPath(projectRoot, BackupFolder), timestamp)
  }

  predicate HasBackupNamed(backups: seq<Backup>, name: string) {
    exists i :: 0 <= i < |backups| && backups[i].name == name
  }

  /** No two backup directories share a name. */
  predicate DistinctBackupNames(backups: seq<Backup>) {
    forall i, j :: 0 <= i < j < |backups| ==> backups[i].name != backups[j].name
  }

  /** What `create_backup` does: nothing, report a path without copying (dry run), or copy. */
  datatype BackupOutcome = NotTaken | Reported | Copied

  /**
   * `create_backup()`: disabled or without a local folder it takes none; a
   * dry run reports the path; otherwise `copytree` copies, and fails (the
   * result is `None`) when the copy fails or the target directory exists.
   */
  function BackupDecision(enabled: bool, dirExists: bool, dryRun: bool, copyFails: bool, backups: seq<Backup>, timestamp: string): BackupOutcome {
    if !enabled || !dirExists then NotTaken
    else if dryRun then Reported
    else if copyFails || HasBackupNamed(backups, timestamp) then NotTaken
    else Copied
  }

  /** A copied backup never reuses a name, so the directory names stay distinct. */
  lemma CopyKeepsNamesDistinct(enabled: bool, dirExists: bool, dryRun: bool, copyFails: bool, backups: seq<Backup>, timestamp: string, mtime: int, files: LocalStore)
    requires DistinctBackupNames(backups)
    requires BackupDecision(enabled, dirExists, dryRun, copyFails, backups, timestamp) == Copied
    ensures DistinctBackupNames(backups + [Backup(timestamp, mtime, files)])
  {
    var bs := backups + [Backup(timestamp, mtime, files)];
    forall i, j | 0 <= i < j < |bs|
      ensures bs[i].name != bs[j].name
    {
      if j == |backups| {
        assert bs[i] == backups[i];
      }
    }
  }

  // ---- Retention ----

  /** `max_backups or self.config.max_backups`: `None` and `0` both fall back to the configured value. */
  function RetentionLimit(requested: Option<int>, configured: int): (k: int)
    ensures k == configured || (requested.Some? && k == requested.value)
    ensures requested.Some? && requested.value != 0 ==> k == requested.value
    ensures requested == Some(0) ==> k == configured
  {
    if requested.None? || requested.value == 0 then configured else requested.value
  }

  predicate NewestFirst(bs: seq<Backup>) {
    forall i, j :: 0 <= i < j < |bs| ==> bs[i].mtime >= bs[j].mtime
  }

  /** Puts `b` before the first backup that is not newer, so earlier entries stay ahead of equal ones. */
  function InsertNewestFirst(b: Backup, sorted: seq<Backup>): (r: seq<Backup>)
    requires NewestFirst(sorted)
    ensures NewestFirst(r)
    ensures multiset(r) == multiset(sorted) + multiset{b}
    ensures |r| == |sorted| + 1
    ensures r[0] == b || (sorted != [] && r[0] == sorted[0])
  {
    if sorted == [] || b.mtime >= sorted[0].mtime then [b] + sorted
    else
      var rest := InsertNewestFirst(b, sorted[1..]);
      assert sorted == [sorted[0]] + sorted[1..];
      [sorted[0]] + rest
  }

  /** `backup_dirs.sort(key=mtime, reverse=True)`: newest first, the same backups. */
  function SortNewestFirst(bs: seq<Backup>): (r: seq<Backup>)
    ensures NewestFirst(r)
    ensures multiset(r) == multiset(bs)
    ensures |r| == |bs|
  {
    if bs == [] then []
    else
      assert bs == [bs[0]] + bs[1..];
      InsertNewestFirst(bs[0], SortNewestFirst(bs[1..]))
  }

  /** `xs[k:]` in Python: a negative `k` counts from the end, and both ends are clamped. */
  function SliceFrom<T>(xs: seq<T>, k: int): (r: seq<T>)
    ensures k >= 0 ==> |r| == (if k < |xs| then |xs| - k else 0)
    ensures k < 0 ==> |r| == (if -k < |xs| then -k else |xs|)
    ensures r == xs[|xs| - |r|..]
  {
    if k >= 0 then (if k < |xs| then xs[k..] else [])
    else if -k < |xs| then xs[|xs| + k..] else xs
  }

  /** `backup_dirs[max_backups:]`: the backups `cleanup_old_backups` tries to delete. */
  function Doomed(bs: seq<Backup>, k: int): seq<Backup> {
    SliceFrom(SortNewestFirst(bs), k)
  }

  /**
   * The backups that survive the cut are the newest: together with the
   * doomed ones they are exactly the backups there were, none of them is
   * older than a doomed one, and a non-negative limit keeps `k` of them
   * (all, if there are fewer); a negative limit deletes `-k` of them.
   */
  lemma RetentionKeepsNewest(bs: seq<Backup>, k: int)
    ensures var sorted := SortNewestFirst(bs);
            var doomed := Doomed(bs, k);
            var kept := sorted[..|sorted| - |doomed|];
            && multiset(kept) + multiset(doomed) == multiset(bs)
            && (forall x, y :: x in kept && y in doomed ==> x.mtime >= y.mtime)
            && (k >= 0 ==> |kept| == if k < |bs| then k else |bs|)
            && (k < 0 ==> |doomed| == if -k < |bs| then -k else |bs|)
  {
    var sorted := SortNewestFirst(bs);
    var doomed := Doomed(bs, k);
    var cut := |sorted| - |doomed|;
    assert doomed == sorted[cut..];
    assert sorted == sorted[..cut] + sorted[cut..];
    NewestBeforeCut(sorted, cut);
  }

  /** In a newest-first list everything before a cut is at least as new as everything after it. */
  lemma NewestBeforeCut(sorted: seq<Backup>, cut: nat)
    requires NewestFirst(sorted) && cut <= |sorted|
    ensures forall x, y :: x in sorted[..cut] && y in sorted[cut..] ==> x.mtime >= y.mtime
  {
    forall x, y | x in sorted[..cut] && y in sorted[cut..]
      ensures x.mtime >= y.mtime
    {
      var i :| 0 <= i < cut && sorted[..cut][i] == x;
      var j :| 0 <= j < |sorted| - cut && sorted[cut..][j] == y;
      assert sorted[i] == x && sorted[cut + j] == y;
    }
  }

  /** Twelve backups with the default limit of ten: the two oldest are the ones deleted. */
  lemma DefaultLimitDoomsTwoOfTwelve(bs: seq<Backup>)
    requires |bs| == 12
    ensures |Doomed(bs, RetentionLimit(None, 10))| == 2
    ensures forall x, y :: x in SortNewestFirst(bs)[..10] && y in Doomed(bs, RetentionLimit(None, 10)) ==> x.mtime >= y.mtime
  {
    RetentionKeepsNewest(bs, 10);
  }

  /** `bs` without the backups in `gone`, order kept. */
  function Without(bs: seq<Backup>, gone: set<Backup>): (r: seq<Backup>)
    ensures forall b :: b in r <==> b in bs && b !in gone
    ensures |r| <= |bs|
  {
    if bs == [] then []
    else
      var rest := Without(bs[..|bs| - 1], gone);
      var b := bs[|bs| - 1];
      assert bs == bs[..|bs| - 1] + [b];
      if b in gone then rest else rest + [b]
  }

  lemma {:induction false} WithoutTwice(bs: seq<Backup>, gone: set<Backup>, more: set<Backup>)
    ensures Without(Without(bs, gone), more) == Without(bs, gone + more)
  {
    if bs != [] {
      var init := bs[..|bs| - 1];
      var b := bs[|bs| - 1];
      WithoutTwice(init, gone, more);
      if b !in gone {
        var once := Without(bs, gone);
        assert once == Without(init, gone) + [b];
        assert once[..|once| - 1] == Without(init, gone);
      }
    }
  }

  /** The doomed backups whose deletion goes through: none in a dry run, and not those whose `rmtree` fails. */
  function Removed(doomed: seq<Backup>, dryRun: bool, removeFails: set<string>): (r: set<Backup>)
    ensures forall b :: b in r <==> b in doomed && !dryRun && b.name !in removeFails
  {
    set b | b in doomed && !dryRun && b.name !in removeFails
  }

  /**
   * After the cleanup a backup is still there iff it was there and was not
   * past the limit, or the run was dry, or its deletion failed: one failed
   * deletion does not spare the others.
   */
  lemma CleanupOutcome(bs: seq<Backup>, k: int, dryRun: bool, removeFails: set<string>)
    ensures forall b :: b in Without(bs, Removed(Doomed(bs, k), dryRun, removeFails))
                  <==> b in bs && (b !in Doomed(bs, k) || dryRun || b.name in removeFails)
  {
  }
}
