/**
 * Conflict-resolution strategies. Each strategy picks the content that wins
 * when a note differs between the local folder and the vault. The local
 * file's state (missing, its modification time, or a failed `stat`), the
 * current time and, for the interactive strategy, the operator's answer are
 * inputs rather than reads of the filesystem, the clock and the terminal.
 */
module ConflictResolver {
  import opened Wrappers

  /** What `Path(file_path)` shows about the local file when a strategy looks at it. */
  datatype LocalFileState = Missing | Stamped(mtime: int) | StatFailed

  /** The operator's answer to the interactive prompt; `edited` is the text the re-read of the local file returns, if it could be read. */
  datatype Choice = ChooseLocal | ChooseObsidian | ChooseMerge | ChooseEdit(edited: Option<string>)

  datatype Context = Context(file: LocalFileState, now: int, choice: Choice)

  /** The strategies; `BackupAndResolve` wraps another one. */
  datatype Resolver =
    | NewerWins
    | LocalWins
    | ObsidianWins
    | Merge
    | Interactive
    | BackupAndResolve(base: Resolver)
  {
    /** True when the strategy, or the one it wraps, asks the operator. */
    predicate AsksOperator() {
      match this
      case Interactive => true
      case BackupAndResolve(b) => b.AsksOperator()
      case _ => false
    }
  }

  /** Seconds within which a local modification counts as the edit in progress. */
  const RecentWindow: int := 300

  function ResolveNewerWins(local: string, obsidian: string, file: LocalFileState, now: int): string {
    match file
    case Missing => obsidian
    case StatFailed => local
    case Stamped(mtime) => if now - mtime < RecentWindow then local else obsidian
  }

  // ---- str.splitlines() ----

  /** The line boundaries `str.splitlines` recognises. */
  predicate IsLineBreak(c: char) {
    c == '\n' || c == '\r' || c == '\U{000B}' || c == '\U{000C}' || c == '\U{001C}' || c == '\U{001D}'
    || c == '\U{001E}' || c == '\U{0085}' || c == '\U{2028}' || c == '\U{2029}'
  }

  /** Index of the first line break in `s`, or `|s|` when there is none. */
  function FirstBreak(s: string): (i: nat)
    ensures i <= |s|
    ensures i < |s| ==> IsLineBreak(s[i])
    ensures forall k :: 0 <= k < i ==> !IsLineBreak(s[k])
  {
    if s == [] then 0
    else if IsLineBreak(s[0]) then 0
    else 1 + FirstBreak(s[1..])
  }

  /** Where the next line starts after the break at `i`; `\r\n` is one break. */
  function AfterBreak(s: string, i: nat): (j: nat)
    requires i < |s|
    ensures i < j <= |s|
  {
    if s[i] == '\r' && i + 1 < |s| && s[i + 1] == '\n' then i + 2 else i + 1
  }

  /** `s.splitlines()`: the lines of `s` without their terminators; no trailing empty line. */
  function SplitLines(s: string): seq<string>
    decreases |s|
  {
    if s == [] then []
    else
      var i := FirstBreak(s);
      if i == |s| then [s]
      else [s[..i]] + SplitLines(s[AfterBreak(s, i)..])
  }

  /** `set(s.splitlines())`: order and repetitions forgotten. */
  function LineSet(s: string): set<string> {
    set l | l in SplitLines(s)
  }

  function ResolveMerge(local: string, obsidian: string, file: LocalFileState, now: int): string {
    if LineSet(local) <= LineSet(obsidian) then obsidian
    else if LineSet(obsidian) <= LineSet(local) then local
    else ResolveNewerWins(local, obsidian, file, now)
  }

  /** `resolver.resolve(local_content, obsidian_content, file_path)`. */
  function Resolve(r: Resolver, local: string, obsidian: string, ctx: Context): (winner: string)
    ensures !r.AsksOperator() ==> winner == local || winner == obsidian
    ensures r.AsksOperator() && !ctx.choice.ChooseEdit? ==> winner == local || winner == obsidian
  {
    match r
    case NewerWins => ResolveNewerWins(local, obsidian, ctx.file, ctx.now)
    case LocalWins => local
    case ObsidianWins => obsidian
    case Merge => ResolveMerge(local, obsidian, ctx.file, ctx.now)
    case Interactive =>
      (match ctx.choice
       case ChooseLocal => local
       case ChooseObsidian => obsidian
       case ChooseMerge => ResolveMerge(local, obsidian, ctx.file, ctx.now)
       case ChooseEdit(edited) => if ctx.file.Missing? then local else edited.GetOr(local))
    case BackupAndResolve(b) => Resolve(b, local, obsidian, ctx)
  }

  /** The strategy names the factory knows. */
  const KnownStrategies: set<string> := {"newer_wins", "local_wins", "obsidian_wins", "merge", "interactive"}

  /** `get_conflict_resolver(strategy)`. */
  function ResolverFor(strategy: string): (r: Resolver)
    ensures r.BackupAndResolve? && !r.base.BackupAndResolve?
    ensures strategy !in KnownStrategies ==> r.base == NewerWins
    ensures strategy == "newer_wins" ==> r.base == NewerWins
    ensures strategy == "local_wins" ==> r.base == LocalWins
    ensures strategy == "obsidian_wins" ==> r.base == ObsidianWins
    ensures strategy == "merge" ==> r.base == Merge
    ensures r.base == Interactive <==> strategy == "interactive"
  {
    var base :=
      if strategy == "local_wins" then LocalWins
      else if strategy == "obsidian_wins" then ObsidianWins
      else if strategy == "merge" then Merge
      else if strategy == "interactive" then Interactive
      else NewerWins;
    BackupAndResolve(base)
  }

  // ---- Properties of the strategies ----

  /** The constant strategies ignore the file and the clock. */
  lemma ConstantStrategies(local: string, obsidian: string, ctx: Context)
    ensures Resolve(LocalWins, local, obsidian, ctx) == local
    ensures Resolve(ObsidianWins, local, obsidian, ctx) == obsidian
  {
  }

  /** NewerWins: vault content for a missing file; local content exactly when the file was modified less than 300 seconds ago or its time cannot be read. */
  lemma NewerWinsChoice(local: string, obsidian: string, ctx: Context)
    requires local != obsidian
    ensures ctx.file.Missing? ==> Resolve(NewerWins, local, obsidian, ctx) == obsidian
    ensures Resolve(NewerWins, local, obsidian, ctx) == local <==>
              ctx.file.StatFailed? || (ctx.file.Stamped? && ctx.now - ctx.file.mtime < 300)
  {
  }

  /** Merge: the vault wins when the local lines are among its own (equal sets included). */
  lemma MergeLocalSubset(local: string, obsidian: string, ctx: Context)
    requires LineSet(local) <= LineSet(obsidian)
    ensures Resolve(Merge, local, obsidian, ctx) == obsidian
  {
  }

  /** Merge: local content wins when the vault's lines are a strict subset of the local ones. */
  lemma MergeObsidianStrictSubset(local: string, obsidian: string, ctx: Context)
    requires LineSet(obsidian) < LineSet(local)
    ensures Resolve(Merge, local, obsidian, ctx) == local
  {
  }

  /** Merge: incomparable line sets fall back to NewerWins. */
  lemma MergeIncomparable(local: string, obsidian: string, ctx: Context)
    requires !(LineSet(local) <= LineSet(obsidian)) && !(LineSet(obsidian) <= LineSet(local))
    ensures Resolve(Merge, local, obsidian, ctx) == Resolve(NewerWins, local, obsidian, ctx)
  {
  }

  /** The wrapper returns what the strategy it wraps returns. */
  lemma BackupAndResolveDelegates(base: Resolver, local: string, obsidian: string, ctx: Context)
    ensures Resolve(BackupAndResolve(base), local, obsidian, ctx) == Resolve(base, local, obsidian, ctx)
  {
  }

  /** Every factory product behaves as the strategy its name selects; unknown names act as NewerWins. */
  lemma {:induction false} FactoryBehaviour(strategy: string, local: string, obsidian: string, ctx: Context)
    ensures strategy !in KnownStrategies ==>
              Resolve(ResolverFor(strategy), local, obsidian, ctx) == ResolveNewerWins(local, obsidian, ctx.file, ctx.now)
    ensures strategy == "local_wins" ==> Resolve(ResolverFor(strategy), local, obsidian, ctx) == local
    ensures strategy == "obsidian_wins" ==> Resolve(ResolverFor(strategy), local, obsidian, ctx) == obsidian
    ensures strategy == "newer_wins" ==>
              Resolve(ResolverFor(strategy), local, obsidian, ctx) == ResolveNewerWins(local, obsidian, ctx.file, ctx.now)
    ensures strategy == "merge" ==>
              Resolve(ResolverFor(strategy), local, obsidian, ctx) == ResolveMerge(local, obsidian, ctx.file, ctx.now)
    ensures strategy == "interactive" ==>
              Resolve(ResolverFor(strategy), local, obsidian, ctx) == Resolve(Interactive, local, obsidian, ctx)
    ensures ResolverFor(strategy).AsksOperator() <==> strategy == "interactive"
  {
  }

  // ---- Merge on appended text ----

  lemma {:induction false} FirstBreakAppend(a: string, b: string)
    requires FirstBreak(a) < |a|
    ensures FirstBreak(a + b) == FirstBreak(a)
    decreases |a|
  {
    if !IsLineBreak(a[0]) {
      assert (a + b)[1..] == a[1..] + b;
      FirstBreakAppend(a[1..], b);
    }
  }

  /** Text that ends in a newline splits apart from whatever follows it. */
  lemma {:induction false} SplitLinesAppend(a: string, b: string)
    requires a == [] || a[|a| - 1] == '\n'
    ensures SplitLines(a + b) == SplitLines(a) + SplitLines(b)
    decreases |a|
  {
    if a == [] {
      assert a + b == b;
    } else {
      var i := FirstBreak(a);
      assert i < |a| by { assert IsLineBreak(a[|a| - 1]); }
      FirstBreakAppend(a, b);
      var s := a + b;
      assert s != [];
      var j := AfterBreak(a, i);
      assert AfterBreak(s, i) == j;
      assert s[..i] == a[..i];
      assert s[j..] == a[j..] + b;
      SplitLinesAppend(a[j..], b);
    }
  }

  lemma LineSetAppend(a: string, b: string)
    requires a == [] || a[|a| - 1] == '\n'
    ensures LineSet(a + b) == LineSet(a) + LineSet(b)
  {
    SplitLinesAppend(a, b);
  }

  /** Lines added to the vault copy of a newline-terminated note: Merge keeps the vault copy. */
  lemma MergeKeepsVaultAddition(a: string, extra: string, ctx: Context)
    requires a == [] || a[|a| - 1] == '\n'
    ensures Resolve(Merge, a, a + extra, ctx) == a + extra
  {
    LineSetAppend(a, extra);
  }

  /** New lines added to the local copy of a newline-terminated note: Merge keeps the local copy. */
  lemma MergeKeepsLocalAddition(a: string, extra: string, ctx: Context)
    requires a == [] || a[|a| - 1] == '\n'
    requires !(LineSet(extra) <= LineSet(a))
    ensures Resolve(Merge, a + extra, a, ctx) == a + extra
  {
    LineSetAppend(a, extra);
  }

  // ---- Time only moves the choice towards the vault ----

  /** A non-interactive strategy that let the vault win at some time still lets it win later for the same local file. */
  lemma {:induction false} VaultWinStable(r: Resolver, local: string, obsidian: string, ctx: Context, later: Context)
    requires !r.AsksOperator()
    requires local != obsidian
    requires later.file == ctx.file && ctx.now <= later.now
    requires Resolve(r, local, obsidian, ctx) == obsidian
    ensures Resolve(r, local, obsidian, later) == obsidian
  {
    match r
    case BackupAndResolve(b) => VaultWinStable(b, local, obsidian, ctx, later);
    case _ =>
  }
}
