/**
 * The string operations the sync engine and the configuration use:
 * Python's `str.startswith`, `str.endswith`, `str.split(sep)` and
 * `sep.join(parts)`, and the last component of a slash-separated path.
 */
module Text {

  predicate StartsWith(s: string, prefix: string) {
    |prefix| <= |s| && s[..|prefix|] == prefix
  }

  predicate EndsWith(s: string, suffix: string) {
    |suffix| <= |s| && s[|s| - |suffix|..] == suffix
  }

  /** `s.split(sep)`: never empty; the pieces between the separators, empty pieces kept. */
  function Split(s: string, sep: char): (parts: seq<string>)
    ensures |parts| >= 1
    ensures forall i :: 0 <= i < |parts| ==> sep !in parts[i]
    ensures Join(parts, sep) == s
    decreases |s|
  {
    if s == [] then [""]
    else if s[0] == sep then
      var rest := Split(s[1..], sep);
      assert s == [sep] + s[1..];
      [""] + rest
    else
      var rest := Split(s[1..], sep);
      assert s == [s[0]] + s[1..];
      JoinConsFirst(s[0], rest, sep);
      [[s[0]] + rest[0]] + rest[1..]
  }

  /** `sep.join(parts)`. */
  function Join(parts: seq<string>, sep: char): string
  {
    if parts == [] then ""
    else if |parts| == 1 then parts[0]
    else parts[0] + [sep] + Join(parts[1..], sep)
  }

  lemma JoinConsFirst(c: char, parts: seq<string>, sep: char)
    requires |parts| >= 1
    ensures Join([[c] + parts[0]] + parts[1..], sep) == [c] + Join(parts, sep)
  {
    var q := [[c] + parts[0]] + parts[1..];
    assert q[1..] == parts[1..];
  }

  /** Splitting a join gives the parts back, provided no part holds the separator. */
  lemma {:induction false} SplitJoin(parts: seq<string>, sep: char)
    requires |parts| >= 1
    requires forall i :: 0 <= i < |parts| ==> sep !in parts[i]
    ensures Split(Join(parts, sep), sep) == parts
    decreases |parts|, |parts[0]|
  {
    if |parts[0]| > 0 {
      var c := parts[0][0];
      var shorter := [parts[0][1..]] + parts[1..];
      assert parts[0] == [c] + parts[0][1..];
      assert shorter[1..] == parts[1..];
      assert parts == [[c] + shorter[0]] + shorter[1..];
      JoinConsFirst(c, shorter, sep);
      var s := Join(parts, sep);
      assert s == [c] + Join(shorter, sep);
      assert s[1..] == Join(shorter, sep);
      assert c != sep by { assert parts[0][0] in parts[0]; }
      SplitJoin(shorter, sep);
    } else if |parts| > 1 {
      var s := Join(parts, sep);
      assert s == [sep] + Join(parts[1..], sep);
      assert s[1..] == Join(parts[1..], sep);
      SplitJoin(parts[1..], sep);
      assert parts == [""] + parts[1..];
    }
  }

  /** `path.split("/")[-1]`: what follows the last `/` (`Path(path).name` for a path without a trailing slash). */
  function Basename(path: string): (name: string)
    ensures '/' !in name
    ensures EndsWith(path, name)
  {
    if path == [] || path[|path| - 1] == '/' then []
    else
      var init := path[..|path| - 1];
      var name := Basename(init) + [path[|path| - 1]];
      assert path == init + [path[|path| - 1]];
      name
  }

  /** A name without a slash is its own bare name. */
  lemma {:induction false} PlainName(name: string)
    requires '/' !in name
    ensures Basename(name) == name
  {
    if name != [] {
      var init := name[..|name| - 1];
      assert forall c :: c in init ==> c in name;
      PlainName(init);
      assert name == init + [name[|name| - 1]];
    }
  }
  /** The last component is the whole path, or exactly what follows a `/`. */
  lemma {:induction false} BasenameCut(path: string)
    ensures Basename(path) == path || path[|path| - |Basename(path)| - 1] == '/'
    decreases |path|
  {
    if path != [] && path[|path| - 1] != '/' {
      var init := path[..|path| - 1];
      BasenameCut(init);
      assert path == init + [path[|path| - 1]];
    }
  }

  /** Appending `"/" + name` to any path leaves `name`'s own last component as the last component. */
  lemma {:induction false} BasenameUnder(dir: string, name: string)
    ensures Basename(dir + "/" + name) == Basename(name)
    decreases |name|
  {
    var whole := dir + "/" + name;
    if name == [] {
      assert whole[|whole| - 1] == '/';
    } else {
      assert whole[|whole| - 1] == name[|name| - 1];
      assert whole[..|whole| - 1] == dir + "/" + name[..|name| - 1];
      BasenameUnder(dir, name[..|name| - 1]);
    }
  }

  /**
   * `str(Path(root) / rel)` for a plain relative or absolute `rel`: an
   * absolute `rel` replaces the root, an empty root or an empty `rel` leaves
   * the other side (`"."` when both are empty), and otherwise exactly one
   * `/` separates the two.
   */
  function JoinPath(root: string, rel: string): (p: string)
    ensures StartsWith(rel, "/") ==> p == rel
    ensures rel == "" ==> p == (if root == "" then "." else root)
    ensures !StartsWith(rel, "/") && rel != "" && root == "" ==> p == rel
    ensures !StartsWith(rel, "/") && rel != "" && root != "" ==>
              p == (if EndsWith(root, "/") then root else root + "/") + rel
  {
    if StartsWith(rel, "/") then rel
    else if rel == "" then (if root == "" then "." else root)
    else if root == "" then rel
    else if EndsWith(root, "/") then root + rel
    else root + "/" + rel
  }

  /** A slash-free name joined under any root is that joined path's last component, and the path starts with the root. */
  lemma JoinPathName(root: string, name: string)
    requires name != "" && '/' !in name
    ensures Basename(JoinPath(root, name)) == name
    ensures StartsWith(JoinPath(root, name), root)
  {
    var p := JoinPath(root, name);
    assert !StartsWith(name, "/") by { assert name[..1][0] == name[0]; }
    if root != "" {
      var dir := if EndsWith(root, "/") then root[..|root| - 1] else root;
      assert p == dir + "/" + name by {
        if EndsWith(root, "/") {
          assert root == dir + "/";
        }
      }
      BasenameUnder(dir, name);
      assert p[..|root|] == root;
    }
    PlainName(name);
  }
}
