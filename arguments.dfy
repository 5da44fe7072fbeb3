/**
 * The two command-line options the updater understands, `--root=` and
 * `--only=`. Both are found the same way: the first argument that contains the
 * flag anywhere wins, and its value is the second `=`-separated field.
 */
module Arguments {
  import opened Wrappers
  import opened Errors
  import opened PhpStrings

  const RootFlag := "--root="
  const OnlyFlag := "--only="

  /** The site root used when no `--root=` argument is given. */
  const DefaultSiteRoot := "/var/www"

  /** `explode('=', $arg)[1]`: the text after the first `=`, up to the next one. */
  function OptionValue(arg: string): string
    requires '=' in arg
  {
    Explode('=', arg)[1]
  }

  /** The value of the first argument containing `flag`, or none when no argument does. */
  function FindOption(args: seq<string>, flag: string): (r: Option<string>)
    requires '=' in flag
    ensures r.None? <==> forall a :: a in args ==> !Contains(a, flag)
  {
    if args == [] then None
    else if Contains(args[0], flag) then
      ContainsChar(args[0], flag, '=');
      Some(OptionValue(args[0]))
    else
      assert forall a :: a in args ==> a == args[0] || a in args[1..];
      FindOption(args[1..], flag)
  }

  /** The option's value is taken from the first argument that mentions the flag. */
  lemma {:induction false} FindOptionFirst(args: seq<string>, flag: string, k: nat)
    requires '=' in flag
    requires k < |args| && Contains(args[k], flag)
    requires forall j :: 0 <= j < k ==> !Contains(args[j], flag)
    ensures '=' in args[k]
    ensures FindOption(args, flag) == Some(OptionValue(args[k]))
  {
    ContainsChar(args[k], flag, '=');
    if k > 0 {
      assert !Contains(args[0], flag);
      FindOptionFirst(args[1..], flag, k - 1);
    }
  }

  /** Arguments after the first match are never looked at. */
  lemma {:induction false} FindOptionAppend(xs: seq<string>, ys: seq<string>, flag: string)
    requires '=' in flag
    ensures FindOption(xs + ys, flag) == if FindOption(xs, flag).Some? then FindOption(xs, flag) else FindOption(ys, flag)
  {
    if xs != [] {
      assert (xs + ys)[0] == xs[0] && (xs + ys)[1..] == xs[1..] + ys;
      if !Contains(xs[0], flag) {
        FindOptionAppend(xs[1..], ys, flag);
      }
    } else {
      assert xs + ys == ys;
    }
  }

  /** The value after `name=` stops at the next `=`: `--root=/a=b` gives `/a`. */
  lemma OptionValueAfterName(name: string, value: string)
    requires '=' !in name
    ensures OptionValue(name + "=" + value) == Explode('=', value)[0]
    ensures '=' !in value ==> OptionValue(name + "=" + value) == value
  {
    ExplodeCons('=', name, value);
    if '=' !in value {
      ExplodeNoSeparator('=', value);
    }
  }

  /**
   * The flag is matched anywhere in an argument, not only at its start; when no
   * `=` comes before the flag, the value is the text after it up to the next
   * `=` or the end of the argument: `x--root=/a` gives `/a`, and so does
   * `--root=/a=b`.
   */
  lemma FlagValueAnywhere(before: string, flagName: string, rest: string, later: seq<string>)
    requires '=' !in before + flagName
    ensures FindOption([before + flagName + "=" + rest] + later, flagName + "=") == Some(Explode('=', rest)[0])
  {
    var arg := before + flagName + "=" + rest;
    OptionValueAfterName(before + flagName, rest);
    assert arg == before + (flagName + "=") + rest;
    ContainsInfix(before, flagName + "=", rest);
    FindOptionFirst([arg] + later, flagName + "=", 0);
  }

  /**
   * An `=` before the flag shifts the fields: the value is the text between the
   * first two `=`, so `a=b--root=/x` gives `b--root`, not `/x`.
   */
  lemma EqualsBeforeFlag(a: string, b: string, flagName: string, rest: string, later: seq<string>)
    requires '=' !in a && '=' !in b + flagName
    ensures FindOption([a + "=" + b + flagName + "=" + rest] + later, flagName + "=") == Some(b + flagName)
  {
    var arg := a + "=" + b + flagName + "=" + rest;
    assert arg == a + "=" + (b + flagName + "=" + rest);
    OptionValueAfterName(a, b + flagName + "=" + rest);
    ExplodeCons('=', b + flagName, rest);
    assert arg == (a + "=" + b) + (flagName + "=") + rest;
    ContainsInfix(a + "=" + b, flagName + "=", rest);
    FindOptionFirst([arg] + later, flagName + "=", 0);
  }

  /**
   * What `parseSiteRoot` returns, given the current root: the current root when
   * no argument has `--root=`, otherwise the value of the first one if it is a
   * directory, otherwise the exception it throws.
   */
  function ParsedSiteRoot(args: seq<string>, isDir: string -> bool, current: string): Result<string, Error>
  {
    match FindOption(args, RootFlag)
    case None => Ok(current)
    case Some(root) => if isDir(root) then Ok(root) else Err(InvalidRoot(root))
  }

  /**
   * What `parseOnly` returns for the site root in force: null when no argument
   * has `--only=`, otherwise the value of the first one if `siteRoot/value` is
   * a directory, otherwise the exception it throws.
   */
  function ParsedOnly(args: seq<string>, isDir: string -> bool, siteRoot: string): Result<Option<string>, Error>
  {
    match FindOption(args, OnlyFlag)
    case None => Ok(None)
    case Some(only) => if isDir(siteRoot + "/" + only) then Ok(Some(only)) else Err(InvalidOnly(only))
  }

  /** `parseSiteRoot`: the first `--root=` decides; without one the current root stands. */
  lemma ParsedSiteRootFirst(args: seq<string>, isDir: string -> bool, current: string, k: nat)
    requires k < |args| && Contains(args[k], RootFlag)
    requires forall j :: 0 <= j < k ==> !Contains(args[j], RootFlag)
    ensures '=' in args[k]
    ensures var root := OptionValue(args[k]);
      ParsedSiteRoot(args, isDir, current) == if isDir(root) then Ok(root) else Err(InvalidRoot(root))
  {
    FindOptionFirst(args, RootFlag, k);
  }

  /** `parseOnly`: the first `--only=` decides, checked under the given root. */
  lemma ParsedOnlyFirst(args: seq<string>, isDir: string -> bool, siteRoot: string, k: nat)
    requires k < |args| && Contains(args[k], OnlyFlag)
    requires forall j :: 0 <= j < k ==> !Contains(args[j], OnlyFlag)
    ensures '=' in args[k]
    ensures var only := OptionValue(args[k]);
      ParsedOnly(args, isDir, siteRoot) == if isDir(siteRoot + "/" + only) then Ok(Some(only)) else Err(InvalidOnly(only))
  {
    FindOptionFirst(args, OnlyFlag, k);
  }

  /** Without a `--root=` argument, `parseSiteRoot` keeps the current root. */
  lemma ParsedWithoutRootFlag(args: seq<string>, isDir: string -> bool, root: string)
    requires forall a :: a in args ==> !Contains(a, RootFlag)
    ensures ParsedSiteRoot(args, isDir, root) == Ok(root)
  {
  }

  /** Without an `--only=` argument, `parseOnly` gives null. */
  lemma ParsedWithoutOnlyFlag(args: seq<string>, isDir: string -> bool, siteRoot: string)
    requires forall a :: a in args ==> !Contains(a, OnlyFlag)
    ensures ParsedOnly(args, isDir, siteRoot) == Ok(None)
  {
  }
}
