/**
 * Shell-style name matching as `fnmatch.fnmatch` does it on POSIX (no case
 * folding): `*` matches any run of characters, `?` any one character, and
 * every other character itself. Bracket classes (`[...]`) are not part of
 * this model: a `[` is an ordinary character here.
 */
module Glob {
  import opened Text

  /** The pattern holds no wildcard, so it can only match itself. */
  predicate Literal(p: string) {
    '*' !in p && '?' !in p
  }

  function Match(pattern: string, name: string): bool
    decreases |pattern| + |name|
  {
    if pattern == [] then name == []
    else if pattern[0] == '*' then
      Match(pattern[1..], name) || (name != [] && Match(pattern, name[1..]))
    else
      name != [] && (pattern[0] == '?' || pattern[0] == name[0]) && Match(pattern[1..], name[1..])
  }

  /** A pattern without wildcards matches exactly the name it spells. */
  lemma {:induction false} LiteralMatch(lit: string, name: string)
    requires Literal(lit)
    ensures Match(lit, name) <==> name == lit
    decreases |lit|
  {
    if lit != [] {
      assert lit[0] in lit;
      assert Literal(lit[1..]) by {
        assert forall c :: c in lit[1..] ==> c in lit;
      }
      if name != [] {
        LiteralMatch(lit[1..], name[1..]);
        if name[0] == lit[0] && name[1..] == lit[1..] {
          assert name == [name[0]] + name[1..];
          assert lit == [lit[0]] + lit[1..];
        }
      }
    }
  }

  /** `*` followed by a literal matches exactly the names that end with that literal (`*.tmp`). */
  lemma {:induction false} StarSuffix(lit: string, name: string)
    requires Literal(lit)
    ensures Match("*" + lit, name) <==> EndsWith(name, lit)
    decreases |name|
  {
    var p := "*" + lit;
    assert p[1..] == lit;
    LiteralMatch(lit, name);
    if name != [] {
      StarSuffix(lit, name[1..]);
      if |lit| < |name| {
        assert name[|name| - |lit|..] == name[1..][|name[1..]| - |lit|..];
      }
    }
  }

  /** A literal followed by `*` matches exactly the names that start with that literal (`.*`). */
  lemma {:induction false} PrefixStar(lit: string, name: string)
    requires Literal(lit)
    ensures Match(lit + "*", name) <==> StartsWith(name, lit)
    decreases |lit|
  {
    var p := lit + "*";
    if lit == [] {
      assert p == "*";
      StarMatchesAll(name);
    } else {
      assert lit[0] in lit;
      assert Literal(lit[1..]) by { assert forall c :: c in lit[1..] ==> c in lit; }
      assert p[0] == lit[0] && p[1..] == lit[1..] + "*";
      if name != [] {
        PrefixStar(lit[1..], name[1..]);
      }
    }
  }

  /** A lone `*` matches every name. */
  lemma {:induction false} StarMatchesAll(name: string)
    ensures Match("*", name)
    decreases |name|
  {
    assert "*"[1..] == [];
    if name != [] { StarMatchesAll(name[1..]); }
  }
}
