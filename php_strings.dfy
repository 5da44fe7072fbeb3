/**
 * The PHP string builtins the updater relies on: `strpos`, `explode` and
 * `join` with a one-character separator, and `dirname` on POSIX paths.
 * Strings are sequences of characters rather than PHP's byte strings.
 */
module PhpStrings {
  import opened Wrappers

  /** `needle` occurs in `haystack` starting at index `at`. */
  predicate OccursAt(haystack: string, needle: string, at: nat)
  {
    at + |needle| <= |haystack| && haystack[at..at + |needle|] == needle
  }

  /** `strpos($haystack, $needle, $offset)`: the first occurrence at or after `offset`, or `false`. */
  function StrPos(haystack: string, needle: string, offset: nat): (r: Option<nat>)
    requires offset <= |haystack|
    ensures r.Some? ==> offset <= r.value && OccursAt(haystack, needle, r.value)
    ensures forall j: nat :: offset <= j && (r.None? || j < r.value) ==> !OccursAt(haystack, needle, j)
    decreases |haystack| - offset
  {
    if offset + |needle| > |haystack| then None
    else if OccursAt(haystack, needle, offset) then Some(offset)
    else StrPos(haystack, needle, offset + 1)
  }

  /** `strpos($haystack, $needle) !== false`. */
  predicate Contains(haystack: string, needle: string)
  {
    StrPos(haystack, needle, 0).Some?
  }

  /** Every character of a contained needle is a character of the haystack. */
  lemma ContainsChar(haystack: string, needle: string, c: char)
    requires Contains(haystack, needle) && c in needle
    ensures c in haystack
  {
    var at := StrPos(haystack, needle, 0).value;
    var j :| 0 <= j < |needle| && needle[j] == c;
    assert haystack[at..at + |needle|][j] == haystack[at + j];
  }

  /** A needle placed inside a string is found in it. */
  lemma ContainsInfix(prefix: string, needle: string, suffix: string)
    ensures Contains(prefix + needle + suffix, needle)
  {
    var h := prefix + needle + suffix;
    assert h[|prefix|..|prefix| + |needle|] == needle;
    assert OccursAt(h, needle, |prefix|);
  }

  /**
   * A needle is absent when one of its characters, `needle[i]`, occurs nowhere
   * that character would have to sit in the haystack.
   */
  lemma NeedleCharAbsent(haystack: string, needle: string, i: nat)
    requires i < |needle| <= |haystack|
    requires needle[i] !in haystack[i..|haystack| - |needle| + 1 + i]
    ensures !Contains(haystack, needle)
  {
    forall at: nat
      ensures !OccursAt(haystack, needle, at)
    {
      if at + |needle| <= |haystack| {
        assert haystack[at..at + |needle|][i] == haystack[at + i];
        assert haystack[i..|haystack| - |needle| + 1 + i][at] == haystack[at + i];
      }
    }
  }
  /** `explode($sep, $s)`: the fields between the separators, in order. */
  function Explode(sep: char, s: string): (fields: seq<string>)
    ensures |fields| >= 1
    ensures |fields| == 1 <==> sep !in s
    ensures forall f :: f in fields ==> sep !in f
    decreases |s|
  {
    if s == [] then [""]
    else
      var rest := Explode(sep, s[1..]);
      if s[0] == sep then [""] + rest
      else [[s[0]] + rest[0]] + rest[1..]
  }

  /** `join($sep, $parts)`: the parts with one separator between neighbours. */
  function Join(sep: char, parts: seq<string>): string
  {
    if parts == [] then ""
    else if |parts| == 1 then parts[0]
    else parts[0] + [sep] + Join(sep, parts[1..])
  }

  /** Joining the fields of `explode` gives back the original string. */
  lemma {:induction false} JoinExplode(sep: char, s: string)
    ensures Join(sep, Explode(sep, s)) == s
    decreases |s|
  {
    if s != [] {
      var rest := Explode(sep, s[1..]);
      JoinExplode(sep, s[1..]);
      if s[0] == sep {
        assert Explode(sep, s) == [""] + rest;
        assert ([""] + rest)[1..] == rest;
        assert s == [sep] + s[1..];
      } else {
        var fields := Explode(sep, s);
        assert fields == [[s[0]] + rest[0]] + rest[1..];
        if |rest| == 1 {
          assert s == [s[0]] + s[1..];
        } else {
          assert fields[1..] == rest[1..];
          assert Join(sep, rest) == rest[0] + [sep] + Join(sep, rest[1..]);
          assert s == [s[0]] + s[1..];
        }
      }
    }
  }

  /** A string without the separator is a single field. */
  lemma ExplodeNoSeparator(sep: char, s: string)
    requires sep !in s
    ensures Explode(sep, s) == [s]
  {
    JoinExplode(sep, s);
  }

  /** The text before the first separator becomes the first field. */
  lemma {:induction false} ExplodeCons(sep: char, field: string, rest: string)
    requires sep !in field
    ensures Explode(sep, field + [sep] + rest) == [field] + Explode(sep, rest)
    decreases |field|
  {
    var s := field + [sep] + rest;
    if field == [] {
      assert s == [sep] + rest && s[1..] == rest;
    } else {
      assert s[0] == field[0] && s[1..] == field[1..] + [sep] + rest;
      ExplodeCons(sep, field[1..], rest);
      assert [field[0]] + field[1..] == field;
    }
  }

  /** Splitting a join recovers the parts, provided no part holds the separator. */
  lemma {:induction false} ExplodeJoin(sep: char, parts: seq<string>)
    requires |parts| >= 1
    requires forall p :: p in parts ==> sep !in p
    ensures Explode(sep, Join(sep, parts)) == parts
  {
    if |parts| == 1 {
      ExplodeNoSeparator(sep, parts[0]);
    } else {
      assert parts[0] in parts;
      ExplodeJoin(sep, parts[1..]);
      ExplodeCons(sep, parts[0], Join(sep, parts[1..]));
    }
  }

  /**
   * For a non-empty list, splitting the join gives back exactly the parts
   * exactly when no part holds the separator.
   */
  lemma ExplodeJoinIff(sep: char, parts: seq<string>)
    requires |parts| >= 1
    ensures Explode(sep, Join(sep, parts)) == parts <==> forall p :: p in parts ==> sep !in p
  {
    if forall p :: p in parts ==> sep !in p {
      ExplodeJoin(sep, parts);
    }
  }

  /** `s` without its trailing slashes. */
  function TrimTrailingSlashes(s: string): (r: string)
    ensures r <= s
    ensures r == [] || r[|r| - 1] != '/'
    ensures forall i :: |r| <= i < |s| ==> s[i] == '/'
  {
    if s != [] && s[|s| - 1] == '/' then TrimTrailingSlashes(s[..|s| - 1]) else s
  }

  /** `s` without its last path component: empty, or ending in a slash. */
  function DropLastName(s: string): (r: string)
    ensures r <= s
    ensures r == [] || r[|r| - 1] == '/'
    ensures forall i :: |r| <= i < |s| ==> s[i] != '/'
  {
    if s != [] && s[|s| - 1] != '/' then DropLastName(s[..|s| - 1]) else s
  }

  /** `dirname($path)` on a POSIX system (PHP's `zend_dirname`). */
  function Dirname(path: string): string
  {
    if path == [] then ""
    else
      var trimmed := TrimTrailingSlashes(path);
      if trimmed == [] then "/"
      else
        var parent := DropLastName(trimmed);
        if parent == [] then "."
        else
          var dir := TrimTrailingSlashes(parent);
          if dir == [] then "/" else dir
  }

  /** The parent of `dir/name` is `dir`, for a single component `name`. */
  lemma DirnameOfChild(dir: string, name: string)
    requires dir != [] && dir[|dir| - 1] != '/'
    requires name != [] && '/' !in name
    ensures Dirname(dir + "/" + name) == dir
  {
    var path := dir + "/" + name;
    assert path[|path| - 1] == name[|name| - 1];
    assert TrimTrailingSlashes(path) == path;
    var parent := DropLastName(path);
    assert path[|dir|] == '/';
    assert |parent| > |dir|;
    assert forall k :: |dir| < k < |path| ==> path[k] != '/' by {
      forall k | |dir| < k < |path| ensures path[k] != '/' {
        assert path[k] == name[k - |dir| - 1];
      }
    }
    assert path[|parent| - 1] == parent[|parent| - 1] == '/';
    assert |parent| == |dir| + 1;
    assert parent == dir + "/";
    assert parent[..|dir|] == dir;
    assert TrimTrailingSlashes(parent) == TrimTrailingSlashes(parent[..|parent| - 1]);
  }
}
