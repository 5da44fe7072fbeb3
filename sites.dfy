/**
 * Site discovery: each WordPress install is found by its `wp-config.php` one
 * level inside a `web` directory under the site root, and the install is that
 * `web` directory. An `--only` value keeps the installs whose path contains it
 * between two slashes, anywhere in the path.
 */
module Sites {
  import opened Wrappers
  import opened Errors
  import opened PhpStrings

  /** What `getSites` appends to the root to form its glob pattern (`\.` is a literal dot to glob). */
  const MarkerPattern := "/*/web/wp-config\\.php"

  function SitePattern(siteRoot: string): string
  {
    siteRoot + MarkerPattern
  }

  /** `array_map('dirname', $glob)`. */
  function SiteDirs(matches: seq<string>): seq<string>
  {
    seq(|matches|, i requires 0 <= i < |matches| => Dirname(matches[i]))
  }

  /** PHP's truth value of a `?string`: null, `""` and `"0"` are false. */
  predicate IsTruthy(only: Option<string>)
  {
    only.Some? && only.value != "" && only.value != "0"
  }

  /** The substring an install's path must contain to survive `--only=only`. */
  function OnlyNeedle(only: string): string
  {
    "/" + only + "/"
  }

  /** `array_filter` keeping the paths that contain `/only/`, in their original order. */
  function KeepOnly(dirs: seq<string>, only: string): (kept: seq<string>)
    ensures |kept| <= |dirs|
    ensures forall d :: d in kept <==> d in dirs && Contains(d, OnlyNeedle(only))
  {
    if dirs == [] then []
    else
      assert forall d :: d in dirs <==> d == dirs[0] || d in dirs[1..];
      (if Contains(dirs[0], OnlyNeedle(only)) then [dirs[0]] else []) + KeepOnly(dirs[1..], only)
  }

  /** The filter keeps relative order: filtering a concatenation concatenates the filtered parts. */
  lemma {:induction false} KeepOnlyAppend(xs: seq<string>, ys: seq<string>, only: string)
    ensures KeepOnly(xs + ys, only) == KeepOnly(xs, only) + KeepOnly(ys, only)
  {
    if xs == [] {
      assert xs + ys == ys;
    } else {
      assert (xs + ys)[0] == xs[0] && (xs + ys)[1..] == xs[1..] + ys;
      KeepOnlyAppend(xs[1..], ys, only);
    }
  }

  /** When every path matches, the filter changes nothing. */
  lemma {:induction false} KeepOnlyAll(dirs: seq<string>, only: string)
    requires forall d :: d in dirs ==> Contains(d, OnlyNeedle(only))
    ensures KeepOnly(dirs, only) == dirs
  {
    if dirs != [] {
      assert dirs[0] in dirs;
      assert forall d :: d in dirs[1..] ==> d in dirs;
      KeepOnlyAll(dirs[1..], only);
    }
  }

  /**
   * `getSites($siteRoot, $only)`: the parent directories of the glob matches,
   * narrowed by a truthy `only`; an empty list is an exception.
   */
  function GetSites(siteRoot: string, only: Option<string>, glob: string -> seq<string>): (r: Result<seq<string>, Error>)
    ensures r.Ok? ==> r.value != []
    ensures r.Err? ==> r.error == NoSites(siteRoot)
    ensures r.Err? <==>
      || glob(SitePattern(siteRoot)) == []
      || (IsTruthy(only) && forall d :: d in SiteDirs(glob(SitePattern(siteRoot))) ==> !Contains(d, OnlyNeedle(only.value)))
    ensures r.Ok? && !IsTruthy(only) ==> r.value == SiteDirs(glob(SitePattern(siteRoot)))
    ensures r.Ok? && IsTruthy(only) ==> r.value == KeepOnly(SiteDirs(glob(SitePattern(siteRoot))), only.value)
    ensures r.Ok? && IsTruthy(only) ==> forall d :: d in r.value <==>
      d in SiteDirs(glob(SitePattern(siteRoot))) && Contains(d, OnlyNeedle(only.value))
  {
    var dirs := SiteDirs(glob(SitePattern(siteRoot)));
    var files := if IsTruthy(only) then KeepOnly(dirs, only.value) else dirs;
    if files == [] then Err(NoSites(siteRoot))
    else
      assert files[0] in files;
      Ok(files)
  }

  /** The directory of a marker file `root/<site>/web/wp-config.php` is `root/<site>/web`. */
  lemma MarkerDir(siteRoot: string, site: string)
    ensures Dirname(siteRoot + "/" + site + "/web/wp-config.php") == siteRoot + "/" + site + "/web"
  {
    var dir := siteRoot + "/" + site + "/web";
    assert siteRoot + "/" + site + "/web/wp-config.php" == dir + "/" + "wp-config.php";
    DirnameOfChild(dir, "wp-config.php");
  }

  /** The marker files of the installs named in `names`, as glob lists them. */
  function Markers(siteRoot: string, names: seq<string>): seq<string>
  {
    seq(|names|, i requires 0 <= i < |names| => siteRoot + "/" + names[i] + "/web/wp-config.php")
  }

  /** The install directories of the installs named in `names`. */
  function Installs(siteRoot: string, names: seq<string>): seq<string>
  {
    seq(|names|, i requires 0 <= i < |names| => siteRoot + "/" + names[i] + "/web")
  }

  /** Without a truthy `--only`, every glob match yields its install, in glob order. */
  lemma AllInstallsWithoutOnly(siteRoot: string, names: seq<string>, only: Option<string>, glob: string -> seq<string>)
    requires glob(SitePattern(siteRoot)) == Markers(siteRoot, names)
    requires names != [] && !IsTruthy(only)
    ensures GetSites(siteRoot, only, glob) == Ok(Installs(siteRoot, names))
  {
    forall i | 0 <= i < |names|
      ensures SiteDirs(Markers(siteRoot, names))[i] == Installs(siteRoot, names)[i]
    {
      MarkerDir(siteRoot, names[i]);
    }
    assert SiteDirs(Markers(siteRoot, names)) == Installs(siteRoot, names);
  }

  /** The install that `--only` names is always kept by the filter. */
  lemma NamedInstallKept(siteRoot: string, only: string)
    ensures Contains(siteRoot + "/" + only + "/web", OnlyNeedle(only))
  {
    assert siteRoot + "/" + only + "/web" == siteRoot + OnlyNeedle(only) + "web";
    ContainsInfix(siteRoot, OnlyNeedle(only), "web");
  }

  /** Of two paths, the filter keeps exactly the one that matches. */
  lemma KeepSecondOnly(x: string, y: string, only: string)
    requires !Contains(x, OnlyNeedle(only)) && Contains(y, OnlyNeedle(only))
    ensures KeepOnly([x, y], only) == [y]
  {
    assert [x, y][1..] == [y];
    assert [y][1..] == [];
  }

  /** The installs `a` and `b`, as discovery lists them. */
  lemma TwoInstalls(siteRoot: string, glob: string -> seq<string>)
    requires glob(SitePattern(siteRoot)) == Markers(siteRoot, ["a", "b"])
    ensures SiteDirs(glob(SitePattern(siteRoot))) == [siteRoot + "/a/web", siteRoot + "/b/web"]
  {
    var markers := Markers(siteRoot, ["a", "b"]);
    var dirs := SiteDirs(markers);
    MarkerDir(siteRoot, "a");
    MarkerDir(siteRoot, "b");
    assert dirs[0] == siteRoot + "/a/web" by {
      assert markers[0] == siteRoot + "/" + "a" + "/web/wp-config.php";
    }
    assert dirs[1] == siteRoot + "/b/web" by {
      assert markers[1] == siteRoot + "/" + "b" + "/web/wp-config.php";
    }
  }

  /** Under a root without `b` in it, install `a`'s path does not contain `/b/`. */
  lemma OtherInstallLacksNeedle(siteRoot: string)
    requires 'b' !in siteRoot
    ensures !Contains(siteRoot + "/a/web", OnlyNeedle("b"))
  {
    var a := siteRoot + "/a/web";
    assert a[..|a| - 1] == siteRoot + "/a/we";
    assert a[1..|a| - 1] == a[..|a| - 1][1..];
    NeedleCharAbsent(a, "/b/", 1);
    assert OnlyNeedle("b") == "/b/";
  }

  /** Two installs `a` and `b` under a root without `b` in it: `--only=b` keeps exactly `b`'s directory. */
  lemma OnlySelectsOneInstall(siteRoot: string, glob: string -> seq<string>)
    requires 'b' !in siteRoot
    requires glob(SitePattern(siteRoot)) == Markers(siteRoot, ["a", "b"])
    ensures GetSites(siteRoot, Some("b"), glob) == Ok([siteRoot + "/b/web"])
  {
    TwoInstalls(siteRoot, glob);
    OtherInstallLacksNeedle(siteRoot);
    NamedInstallKept(siteRoot, "b");
    assert siteRoot + "/" + "b" + "/web" == siteRoot + "/b/web";
    KeepSecondOnly(siteRoot + "/a/web", siteRoot + "/b/web", "b");
  }

  /** An install under a root whose last component is `only` contains `/only/`. */
  lemma InstallUnderNamedRoot(parent: string, only: string, name: string)
    ensures Contains((parent + "/" + only) + "/" + name + "/web", OnlyNeedle(only))
  {
    assert (parent + "/" + only) + "/" + name + "/web" == parent + OnlyNeedle(only) + (name + "/web");
    ContainsInfix(parent, OnlyNeedle(only), name + "/web");
  }

  /**
   * The filter is a substring test on the whole path, so a root that itself has
   * the selected name as a component keeps every install: with root `/srv/www`,
   * `--only=www` selects all sites rather than `/srv/www/www/web` alone.
   */
  lemma OnlyMatchesRootComponent(parent: string, only: string, names: seq<string>, glob: string -> seq<string>)
    requires only != "" && only != "0"
    requires glob(SitePattern(parent + "/" + only)) == Markers(parent + "/" + only, names)
    requires names != []
    ensures GetSites(parent + "/" + only, Some(only), glob) == Ok(Installs(parent + "/" + only, names))
  {
    var siteRoot := parent + "/" + only;
    AllInstallsWithoutOnly(siteRoot, names, None, glob);
    var dirs := SiteDirs(glob(SitePattern(siteRoot)));
    assert dirs == Installs(siteRoot, names);
    forall d | d in dirs
      ensures Contains(d, OnlyNeedle(only))
    {
      var i :| 0 <= i < |names| && d == Installs(siteRoot, names)[i];
      InstallUnderNamedRoot(parent, only, names[i]);
    }
    KeepOnlyAll(dirs, only);
  }

  /** `--only=0` (and `--only=`) is PHP-false, so no filtering happens at all. */
  lemma FalsyOnlyKeepsAll(siteRoot: string, glob: string -> seq<string>)
    requires glob(SitePattern(siteRoot)) != []
    ensures GetSites(siteRoot, Some("0"), glob) == Ok(SiteDirs(glob(SitePattern(siteRoot))))
    ensures GetSites(siteRoot, Some(""), glob) == Ok(SiteDirs(glob(SitePattern(siteRoot))))
  {
  }
}
