/**
 * Which notes take part in a sync: the include/exclude filter applied to
 * both stores, and the normalisation of the vault's folder listing into
 * note paths under the project folder.
 */
module SyncFilter {
  import opened Wrappers
  import opened Text
  import Glob

  function AnySuffix(extensions: seq<string>, path: string): bool {
    if extensions == [] then false
    else EndsWith(path, extensions[0]) || AnySuffix(extensions[1..], path)
  }

  function AnyMatch(patterns: seq<string>, name: string): bool {
    if patterns == [] then false
    else Glob.Match(patterns[0], name) || AnyMatch(patterns[1..], name)
  }

  lemma {:induction false} AnySuffixMeaning(extensions: seq<string>, path: string)
    ensures AnySuffix(extensions, path) <==> exists i :: 0 <= i < |extensions| && EndsWith(path, extensions[i])
  {
    if extensions != [] {
      AnySuffixMeaning(extensions[1..], path);
      assert forall i :: 1 <= i < |extensions| ==> extensions[i] == extensions[1..][i - 1];
    }
  }

  lemma {:induction false} AnyMatchMeaning(patterns: seq<string>, name: string)
    ensures AnyMatch(patterns, name) <==> exists j :: 0 <= j < |patterns| && Glob.Match(patterns[j], name)
  {
    if patterns != [] {
      AnyMatchMeaning(patterns[1..], name);
      assert forall j :: 1 <= j < |patterns| ==> patterns[j] == patterns[1..][j - 1];
    }
  }

  /** `_should_include_file(path)`. */
  predicate ShouldIncludeFile(extensions: seq<string>, patterns: seq<string>, path: string) {
    AnySuffix(extensions, path) && !AnyMatch(patterns, Basename(path))
  }

  /** A path is included iff some include extension ends it and no exclude pattern matches its bare name. */
  lemma ShouldIncludeFileMeaning(extensions: seq<string>, patterns: seq<string>, path: string)
    ensures ShouldIncludeFile(extensions, patterns, path)
        <==> (exists i :: 0 <= i < |extensions| && EndsWith(path, extensions[i]))
             && (forall j :: 0 <= j < |patterns| ==> !Glob.Match(patterns[j], Basename(path)))
  {
    AnySuffixMeaning(extensions, path);
    AnyMatchMeaning(patterns, Basename(path));
  }

  const DefaultExtensions: seq<string> := [".md"]
  const DefaultExcludes: seq<string> := [".*", "*.tmp", "*.bak"]

  /** With the default filters a note is synced iff it is a `.md` file whose name is not hidden and does not end in `.tmp` or `.bak`. */
  lemma DefaultFilter(path: string)
    ensures ShouldIncludeFile(DefaultExtensions, DefaultExcludes, path) <==>
              EndsWith(path, ".md") && !StartsWith(Basename(path), ".")
              && !EndsWith(Basename(path), ".tmp") && !EndsWith(Basename(path), ".bak")
  {
    var name := Basename(path);
    ShouldIncludeFileMeaning(DefaultExtensions, DefaultExcludes, path);
    assert ".*" == "." + "*";
    assert "*.tmp" == "*" + ".tmp";
    assert "*.bak" == "*" + ".bak";
    Glob.PrefixStar(".", name);
    Glob.StarSuffix(".tmp", name);
    Glob.StarSuffix(".bak", name);
  }

  /** The default filters reject a hidden note. */
  lemma HiddenNoteExcluded()
    ensures !ShouldIncludeFile(DefaultExtensions, DefaultExcludes, ".hidden.md")
  {
    PlainName(".hidden.md");
    DefaultFilter(".hidden.md");
  }

  /** The default filters reject a temporary file. */
  lemma TempFileExcluded()
    ensures !ShouldIncludeFile(DefaultExtensions, DefaultExcludes, "draft.tmp")
  {
    DefaultFilter("draft.tmp");
    assert "draft.tmp"[|"draft.tmp"| - 3..] != ".md";
  }

  /** The default filters accept an ordinary note. */
  lemma PlainNoteIncluded()
    ensures ShouldIncludeFile(DefaultExtensions, DefaultExcludes, "plan.md")
  {
    var n := "plan.md";
    PlainName(n);
    DefaultFilter(n);
    assert n[..1] == "p";
    assert n[4..] == ".md";
    assert n[3..][0] == 'n' && n[3..] != ".tmp" && n[3..] != ".bak";
  }

  /** An extension without a slash that ends a path also ends the path's bare name. */
  lemma {:induction false} ExtensionOfBasename(path: string, ext: string)
    requires '/' !in ext
    requires EndsWith(path, ext)
    ensures EndsWith(Basename(path), ext)
    decreases |ext|
  {
    if ext != [] {
      var c := path[|path| - 1];
      var init := path[..|path| - 1];
      var shorter := ext[..|ext| - 1];
      EndsWithDropLast(path, ext);
      assert c != '/' by { assert ext[|ext| - 1] in ext; }
      assert '/' !in shorter by { assert forall d :: d in shorter ==> d in ext; }
      ExtensionOfBasename(init, shorter);
      assert path == init + [c];
      assert Basename(path) == Basename(init) + [c];
      EndsWithAppend(Basename(init), shorter, c);
      assert ext == shorter + [c];
    }
  }

  lemma EndsWithDropLast(s: string, suffix: string)
    requires suffix != [] && EndsWith(s, suffix)
    ensures s[|s| - 1] == suffix[|suffix| - 1]
    ensures EndsWith(s[..|s| - 1], suffix[..|suffix| - 1])
  {
    assert s[..|s| - 1][|s| - |suffix|..] == s[|s| - |suffix|..][..|suffix| - 1];
  }

  lemma EndsWithAppend(s: string, suffix: string, c: char)
    requires EndsWith(s, suffix)
    ensures EndsWith(s + [c], suffix + [c])
  {
    assert (s + [c])[|s| - |suffix|..] == s[|s| - |suffix|..] + [c];
  }

  // ---- The vault listing ----

  /** One item of the `files` array the vault returns: a bare string, a record with optional `path` and `name`, or anything else. */
  datatype FileEntry = Named(fileName: string) | Record(path: Option<string>, name: Option<string>) | Unrecognised

  /** The vault's answer to the folder query: unusable (request, JSON or shape failure) or the `files` array. */
  datatype Listing = Unavailable | Files(files: seq<FileEntry>)

  datatype VaultNote = VaultNote(path: string, name: string)

  /** `f"{vault_path}/{name}"`. */
  function NotePath(vaultPath: string, name: string): string {
    vaultPath + "/" + name
  }

  /** The note an entry contributes to `get_vault_notes`, if any. */
  function NormaliseEntry(vaultPath: string, extensions: seq<string>, patterns: seq<string>, e: FileEntry): seq<VaultNote> {
    match e
    case Named(name) =>
      if ShouldIncludeFile(extensions, patterns, name) then [VaultNote(NotePath(vaultPath, name), name)] else []
    case Record(path, name) =>
      var filePath := if path.Some? then path.value else name.GetOr("");
      if ShouldIncludeFile(extensions, patterns, filePath) then
        var full := if StartsWith(filePath, vaultPath) then filePath else NotePath(vaultPath, filePath);
        [VaultNote(full, if name.Some? then name.value else Basename(full))]
      else []
    case Unrecognised => []
  }

  /** The notes `get_vault_notes` builds from the first entries of the listing, in order. */
  function NormaliseEntries(vaultPath: string, extensions: seq<string>, patterns: seq<string>, files: seq<FileEntry>): seq<VaultNote>
  {
    if files == [] then []
    else NormaliseEntries(vaultPath, extensions, patterns, files[..|files| - 1])
         + NormaliseEntry(vaultPath, extensions, patterns, files[|files| - 1])
  }

  function ListedNotes(vaultPath: string, extensions: seq<string>, patterns: seq<string>, listing: Listing): seq<VaultNote> {
    match listing
    case Unavailable => []
    case Files(files) => NormaliseEntries(vaultPath, extensions, patterns, files)
  }

  /** `get_vault_notes()`: one pass over the listing, appending the normalised notes. */
  method GetVaultNotes(vaultPath: string, extensions: seq<string>, patterns: seq<string>, listing: Listing)
    returns (notes: seq<VaultNote>)
    ensures notes == ListedNotes(vaultPath, extensions, patterns, listing)
  {
    notes := [];
    if listing.Unavailable? {
      return;
    }
    var files := listing.files;
    var i := 0;
    while i < |files|
      invariant 0 <= i <= |files|
      invariant notes == NormaliseEntries(vaultPath, extensions, patterns, files[..i])
    {
      assert files[..i + 1][..i] == files[..i];
      match files[i] {
      case Named(name) =>
        if ShouldIncludeFile(extensions, patterns, name) {
          notes := notes + [VaultNote(NotePath(vaultPath, name), name)];
        }
      case Record(path, name) =>
        var filePath := if path.Some? then path.value else name.GetOr("");
        if ShouldIncludeFile(extensions, patterns, filePath) {
          if !StartsWith(filePath, vaultPath) {
            filePath := NotePath(vaultPath, filePath);
          }
          notes := notes + [VaultNote(filePath, if name.Some? then name.value else Basename(filePath))];
        }
      case Unrecognised =>
      }
      i := i + 1;
    }
    assert files[..i] == files;
  }

  /** The path an entry is read from, before it is placed under the project folder. */
  function EntrySource(e: FileEntry): string {
    match e
    case Named(name) => name
    case Record(path, name) => if path.Some? then path.value else name.GetOr("")
    case Unrecognised => ""
  }

  lemma EntryPlacement(vaultPath: string, extensions: seq<string>, patterns: seq<string>, e: FileEntry, n: VaultNote)
    requires n in NormaliseEntry(vaultPath, extensions, patterns, e)
    ensures ShouldIncludeFile(extensions, patterns, EntrySource(e))
    ensures StartsWith(n.path, vaultPath)
    ensures Basename(n.path) == Basename(EntrySource(e))
  {
    var source := EntrySource(e);
    if n.path != source {
      assert n.path == vaultPath + "/" + source;
      BasenameUnder(vaultPath, source);
    }
  }

  /** A path that passes the filter, with slash-free extensions, passes it again on its bare name. */
  lemma FilterOnBasename(extensions: seq<string>, patterns: seq<string>, path: string)
    requires forall i :: 0 <= i < |extensions| ==> '/' !in extensions[i]
    requires ShouldIncludeFile(extensions, patterns, path)
    ensures ShouldIncludeFile(extensions, patterns, Basename(path))
  {
    ShouldIncludeFileMeaning(extensions, patterns, path);
    ShouldIncludeFileMeaning(extensions, patterns, Basename(path));
    var i :| 0 <= i < |extensions| && EndsWith(path, extensions[i]);
    ExtensionOfBasename(path, extensions[i]);
    PlainName(Basename(path));
  }

  lemma EntryQualifies(vaultPath: string, extensions: seq<string>, patterns: seq<string>, e: FileEntry, n: VaultNote)
    requires forall i :: 0 <= i < |extensions| ==> '/' !in extensions[i]
    requires n in NormaliseEntry(vaultPath, extensions, patterns, e)
    ensures StartsWith(n.path, vaultPath) && ShouldIncludeFile(extensions, patterns, Basename(n.path))
  {
    EntryPlacement(vaultPath, extensions, patterns, e, n);
    FilterOnBasename(extensions, patterns, EntrySource(e));
  }

  /** Every listed note lies under the project folder and, for slash-free extensions, passes the filter again on its bare name. */
  lemma {:induction false} ListedNotesQualify(vaultPath: string, extensions: seq<string>, patterns: seq<string>, files: seq<FileEntry>)
    requires forall i :: 0 <= i < |extensions| ==> '/' !in extensions[i]
    ensures forall n :: n in NormaliseEntries(vaultPath, extensions, patterns, files) ==>
              StartsWith(n.path, vaultPath) && ShouldIncludeFile(extensions, patterns, Basename(n.path))
  {
    if files != [] {
      ListedNotesQualify(vaultPath, extensions, patterns, files[..|files| - 1]);
      var e := files[|files| - 1];
      forall n | n in NormaliseEntry(vaultPath, extensions, patterns, e)
        ensures StartsWith(n.path, vaultPath) && ShouldIncludeFile(extensions, patterns, Basename(n.path))
      {
        EntryQualifies(vaultPath, extensions, patterns, e, n);
      }
      assert NormaliseEntries(vaultPath, extensions, patterns, files)
          == NormaliseEntries(vaultPath, extensions, patterns, files[..|files| - 1])
             + NormaliseEntry(vaultPath, extensions, patterns, e);
    }
  }
}
