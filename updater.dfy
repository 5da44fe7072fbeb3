/**
 * The `WordpressUpdater` object: its fields, the steps that update them, and
 * `run`, which parses the options, discovers the installs and, site by site,
 * resolves the owner and issues the five wp-cli steps as that owner.
 */
module Updater {
  import opened Wrappers
  import opened Errors
  import opened PhpStrings
  import opened Machine
  import opened Arguments
  import opened Sites
  import opened Commands

  /**
   * The installs a run works on, or the exception that ends it before any
   * command: `--root` is parsed first, `--only` is checked under the root in
   * force after that, then the installs are discovered.
   */
  function SitesToUpdate(args: seq<string>, host: Host): Result<seq<string>, Error>
  {
    match ParsedSiteRoot(args, host.isDir, DefaultSiteRoot)
    case Err(e) => Err(e)
    case Ok(siteRoot) =>
      match ParsedOnly(args, host.isDir, siteRoot)
      case Err(e) => Err(e)
      case Ok(only) => GetSites(siteRoot, only, host.glob)
  }

  /** A run ends with an exception exactly when discovery fails or some site's owner cannot be resolved. */
  function RunOutcome(args: seq<string>, host: Host, wp: string): Outcome<Error>
  {
    match SitesToUpdate(args, host)
    case Err(e) => Fail(e)
    case Ok(sites) =>
      match Drive(host, wp, sites).unresolved
      case Some(siteDir) => Fail(OwnerUnresolved(siteDir))
      case None => Pass
  }

  /** A first `--root=` value that is not a directory ends the run with "<root> is not a valid directory". */
  lemma RootRejected(args: seq<string>, host: Host, wp: string, root: string)
    requires FindOption(args, RootFlag) == Some(root) && !host.isDir(root)
    ensures RunOutcome(args, host, wp) == Fail(InvalidRoot(root))
    ensures Message(RunOutcome(args, host, wp).error) == root + " is not a valid directory"
  {
  }

  /** Once `--root` is accepted, a first `--only=` value that is no directory under the root ends the run with "'<only>' is not a valid directory". */
  lemma OnlyRejected(args: seq<string>, host: Host, wp: string, siteRoot: string, only: string)
    requires ParsedSiteRoot(args, host.isDir, DefaultSiteRoot) == Ok(siteRoot)
    requires FindOption(args, OnlyFlag) == Some(only) && !host.isDir(siteRoot + "/" + only)
    ensures RunOutcome(args, host, wp) == Fail(InvalidOnly(only))
    ensures Message(RunOutcome(args, host, wp).error) == "'" + only + "' is not a valid directory"
  {
  }

  /** Once `--root` and `--only` are accepted, a root with no install ends the run with "No valid wordpress installs found in <root>". */
  lemma NoInstallsFound(args: seq<string>, host: Host, wp: string, siteRoot: string)
    requires ParsedSiteRoot(args, host.isDir, DefaultSiteRoot) == Ok(siteRoot)
    requires ParsedOnly(args, host.isDir, siteRoot).Ok?
    requires host.glob(SitePattern(siteRoot)) == []
    ensures RunOutcome(args, host, wp) == Fail(NoSites(siteRoot))
    ensures Message(RunOutcome(args, host, wp).error) == "No valid wordpress installs found in " + siteRoot
  {
  }

  class WordpressUpdater {
    /** Path of the wp-cli executable. */
    const wp: string
    var userName: string
    var siteRoot: string
    var siteDir: string
    /** Every argument vector `exec` has issued, in order. */
    ghost var issued: seq<seq<string>>
    /** Everything `exec` has echoed. */
    var stdout: string

    /** `new WordpressUpdater()`: wp-cli is `bin/wp` in the vendor directory beside `srcDir`. */
    constructor (srcDir: string)
      ensures wp == srcDir + "/../vendor/" + "bin/wp"
      ensures userName == "" && siteRoot == DefaultSiteRoot && siteDir == ""
      ensures issued == [] && stdout == ""
    {
      wp := srcDir + "/../vendor/" + "bin/wp";
      userName := "";
      siteRoot := DefaultSiteRoot;
      siteDir := "";
      issued := [];
      stdout := "";
    }

    /**
     * `exec($command)`: run wp-cli as `userName` on `siteDir` and echo every
     * captured output line; the exit status is never looked at.
     */
    method Exec(command: seq<string>, host: Host)
      modifies this`issued, this`stdout
      ensures issued == old(issued) + [Argv(userName, wp, siteDir, command)]
      ensures stdout == old(stdout) + Echoed(host.shell(CommandLine(Argv(userName, wp, siteDir, command))))
    {
      var argv := ["sudo", "-u", userName, wp, "--path=" + siteDir] + command;
      var output := host.shell(Join(' ', argv));
      issued := issued + [argv];
      var i := 0;
      while i < |output|
        invariant 0 <= i <= |output|
        invariant issued == old(issued) + [argv]
        invariant stdout == old(stdout) + Echoed(output[..i])
      {
        EchoedAppend(output[..i], [output[i]]);
        assert output[..i + 1] == output[..i] + [output[i]];
        stdout := stdout + output[i] + "\n";
        i := i + 1;
      }
      assert output[..i] == output;
    }

    method GetSiteUrl(host: Host)
      modifies this`issued, this`stdout
      ensures issued == old(issued) + [Argv(userName, wp, siteDir, SiteUrlCommand)]
      ensures stdout == old(stdout) + Echoed(host.shell(CommandLine(Argv(userName, wp, siteDir, SiteUrlCommand))))
    {
      Exec(["option", "get", "siteurl"], host);
    }

    method UpdatePlugins(host: Host)
      modifies this`issued, this`stdout
      ensures issued == old(issued) + [Argv(userName, wp, siteDir, UpdatePluginsCommand)]
      ensures stdout == old(stdout) + Echoed(host.shell(CommandLine(Argv(userName, wp, siteDir, UpdatePluginsCommand))))
    {
      Exec(["plugin", "update", "--all"], host);
    }

    method UpdateThemes(host: Host)
      modifies this`issued, this`stdout
      ensures issued == old(issued) + [Argv(userName, wp, siteDir, UpdateThemesCommand)]
      ensures stdout == old(stdout) + Echoed(host.shell(CommandLine(Argv(userName, wp, siteDir, UpdateThemesCommand))))
    {
      Exec(["theme", "update", "--all"], host);
    }

    method UpdateCore(host: Host)
      modifies this`issued, this`stdout
      ensures issued == old(issued) + [Argv(userName, wp, siteDir, UpdateCoreCommand)]
      ensures stdout == old(stdout) + Echoed(host.shell(CommandLine(Argv(userName, wp, siteDir, UpdateCoreCommand))))
    {
      Exec(["core", "update"], host);
    }

    method FlushCache(host: Host)
      modifies this`issued, this`stdout
      ensures issued == old(issued) + [Argv(userName, wp, siteDir, FlushCacheCommand)]
      ensures stdout == old(stdout) + Echoed(host.shell(CommandLine(Argv(userName, wp, siteDir, FlushCacheCommand))))
    {
      Exec(["cache", "flush", "all"], host);
    }

    /**
     * `getOwnerName()`: the account owning `siteDir` becomes `userName`; when
     * it cannot be resolved, assigning null to the string property throws and
     * `userName` keeps its value.
     */
    method GetOwnerName(host: Host) returns (r: Result<string, Error>)
      modifies this`userName
      ensures OwnerOf(host, siteDir).Some? ==> r == Ok(OwnerOf(host, siteDir).value) && userName == r.value
      ensures OwnerOf(host, siteDir).None? ==> r == Err(OwnerUnresolved(siteDir)) && userName == old(userName)
    {
      var uid := match host.lstatUid(siteDir) case Some(uid) => uid case None => 0;
      var name := host.getpwuid(uid);
      if name.None? {
        return Err(OwnerUnresolved(siteDir));
      }
      userName := name.value;
      r := Ok(userName);
    }

    /**
     * `parseSiteRoot($args)`: the first argument containing `--root=` sets
     * `siteRoot` if its value is a directory and throws otherwise; with no such
     * argument the current root is returned unchanged.
     */
    method ParseSiteRoot(args: seq<string>, isDir: string -> bool) returns (r: Result<string, Error>)
      modifies this`siteRoot
      ensures r == ParsedSiteRoot(args, isDir, old(siteRoot))
      ensures siteRoot == if r.Ok? then r.value else old(siteRoot)
    {
      var i := 0;
      while i < |args|
        invariant 0 <= i <= |args|
        invariant FindOption(args[i..], RootFlag) == FindOption(args, RootFlag)
        invariant siteRoot == old(siteRoot)
      {
        if StrPos(args[i], RootFlag, 0) != None {
          ContainsChar(args[i], RootFlag, '=');
          var root := Explode('=', args[i])[1];
          if !isDir(root) {
            return Err(InvalidRoot(root));
          }
          siteRoot := root;
          return Ok(root);
        }
        assert args[i..][1..] == args[i + 1..];
        i := i + 1;
      }
      return Ok(siteRoot);
    }

    /**
     * `parseOnly($args)`: the value of the first argument containing
     * `--only=`, which must name a directory under the current `siteRoot`;
     * null when there is no such argument. Nothing is modified.
     */
    method ParseOnly(args: seq<string>, isDir: string -> bool) returns (r: Result<Option<string>, Error>)
      ensures r == ParsedOnly(args, isDir, siteRoot)
    {
      var i := 0;
      while i < |args|
        invariant 0 <= i <= |args|
        invariant FindOption(args[i..], OnlyFlag) == FindOption(args, OnlyFlag)
      {
        if StrPos(args[i], OnlyFlag, 0) != None {
          ContainsChar(args[i], OnlyFlag, '=');
          var only := Explode('=', args[i])[1];
          if !isDir(siteRoot + "/" + only) {
            return Err(InvalidOnly(only));
          }
          return Ok(Some(only));
        }
        assert args[i..][1..] == args[i + 1..];
        i := i + 1;
      }
      return Ok(None);
    }

    /**
     * The five steps for the current site, in order, as the current user;
     * everything echoed so far stays the output of everything issued so far.
     */
    method UpdateSite(host: Host)
      requires stdout == Transcript(host.shell, issued)
      modifies this`issued, this`stdout
      ensures issued == old(issued) + SiteCommands(wp, userName, siteDir)
      ensures stdout == Transcript(host.shell, issued)
    {
      ghost var log := issued;
      GetSiteUrl(host);
      TranscriptSnoc(host.shell, log, Argv(userName, wp, siteDir, SiteUrlCommand));
      log := issued;
      UpdatePlugins(host);
      TranscriptSnoc(host.shell, log, Argv(userName, wp, siteDir, UpdatePluginsCommand));
      log := issued;
      UpdateThemes(host);
      TranscriptSnoc(host.shell, log, Argv(userName, wp, siteDir, UpdateThemesCommand));
      log := issued;
      UpdateCore(host);
      TranscriptSnoc(host.shell, log, Argv(userName, wp, siteDir, UpdateCoreCommand));
      log := issued;
      FlushCache(host);
      TranscriptSnoc(host.shell, log, Argv(userName, wp, siteDir, FlushCacheCommand));
      assert issued == old(issued) + SiteCommands(wp, userName, siteDir);
    }

    /**
     * `WordpressUpdater::run($args)`: parse `--root` and `--only`, discover the
     * installs, then for each in order set `siteDir`, resolve `userName` and
     * issue the five steps. The commands issued are exactly those `Drive`
     * describes, everything echoed is their output, and the run throws exactly
     * when `RunOutcome` says so.
     */
    static method Run(args: seq<string>, srcDir: string, host: Host) returns (updater: WordpressUpdater, r: Outcome<Error>)
      ensures fresh(updater)
      ensures updater.wp == srcDir + "/../vendor/" + "bin/wp"
      ensures r == RunOutcome(args, host, updater.wp)
      ensures updater.issued == (match SitesToUpdate(args, host) case Err(_) => [] case Ok(sites) => Drive(host, updater.wp, sites).issued)
      ensures updater.stdout == Transcript(host.shell, updater.issued)
      ensures updater.siteRoot == (match ParsedSiteRoot(args, host.isDir, DefaultSiteRoot) case Ok(root) => root case Err(_) => DefaultSiteRoot)
      ensures SitesToUpdate(args, host).Err? ==> updater.siteDir == "" && updater.userName == ""
      ensures SitesToUpdate(args, host).Ok? && r.Fail? ==>
        updater.siteDir == Drive(host, updater.wp, SitesToUpdate(args, host).value).unresolved.value
      ensures SitesToUpdate(args, host).Ok? && r.Fail? ==>
        var sites := SitesToUpdate(args, host).value;
        var k := ResolvedPrefix(host, sites);
        k < |sites| && (k == 0 ==> updater.userName == "") && (k > 0 ==> OwnerOf(host, sites[k - 1]) == Some(updater.userName))
      ensures SitesToUpdate(args, host).Ok? && r.Pass? ==>
        var sites := SitesToUpdate(args, host).value;
        sites != [] && updater.siteDir == sites[|sites| - 1] && OwnerOf(host, updater.siteDir) == Some(updater.userName)
    {
      updater := new WordpressUpdater(srcDir);
      var siteRoot := updater.ParseSiteRoot(args, host.isDir);
      if siteRoot.Err? {
        return updater, Fail(siteRoot.error);
      }
      var only := updater.ParseOnly(args, host.isDir);
      if only.Err? {
        return updater, Fail(only.error);
      }
      var siteDirs := GetSites(siteRoot.value, only.value, host.glob);
      if siteDirs.Err? {
        return updater, Fail(siteDirs.error);
      }
      r := updater.UpdateSites(siteDirs.value, host);
    }

    /**
     * One pass of the `foreach` of `run`: `site` becomes `siteDir`, its owner
     * becomes `userName` and the five steps are issued as that owner; when the
     * owner cannot be resolved nothing is issued and the error is returned.
     */
    method VisitSite(site: string, host: Host) returns (r: Result<string, Error>)
      requires stdout == Transcript(host.shell, issued)
      modifies this`siteDir, this`userName, this`issued, this`stdout
      ensures siteDir == site
      ensures stdout == Transcript(host.shell, issued)
      ensures OwnerOf(host, site).None? ==>
        r == Err(OwnerUnresolved(site)) && userName == old(userName) && issued == old(issued)
      ensures OwnerOf(host, site).Some? ==>
        r == Ok(userName) && OwnerOf(host, site) == Some(userName) && issued == old(issued) + SiteCommands(wp, userName, site)
    {
      siteDir := site;
      r := GetOwnerName(host);
      if r.Ok? {
        UpdateSite(host);
      }
    }

    /**
     * The `foreach` of `run`: for each site in order, set `siteDir`, resolve
     * `userName` and issue the five steps; an owner that cannot be resolved
     * throws before anything is issued for its site.
     */
    method UpdateSites(sites: seq<string>, host: Host) returns (r: Outcome<Error>)
      requires stdout == Transcript(host.shell, issued)
      modifies this`siteDir, this`userName, this`issued, this`stdout
      ensures issued == old(issued) + Drive(host, wp, sites).issued
      ensures stdout == Transcript(host.shell, issued)
      ensures r == match Drive(host, wp, sites).unresolved
        case Some(siteDir) => Fail(OwnerUnresolved(siteDir))
        case None => Pass
      ensures r.Fail? ==> siteDir == Drive(host, wp, sites).unresolved.value
      ensures r.Fail? ==>
        var k := ResolvedPrefix(host, sites);
        k < |sites| && (k == 0 ==> userName == old(userName)) && (k > 0 ==> OwnerOf(host, sites[k - 1]) == Some(userName))
      ensures r.Pass? && sites != [] ==> siteDir == sites[|sites| - 1] && OwnerOf(host, siteDir) == Some(userName)
      ensures sites == [] ==> siteDir == old(siteDir) && userName == old(userName)
    {
      var i := 0;
      while i < |sites|
        invariant 0 <= i <= |sites|
        invariant i == 0 ==> siteDir == old(siteDir) && userName == old(userName)
        invariant i > 0 ==> siteDir == sites[i - 1] && OwnerOf(host, siteDir) == Some(userName)
        invariant forall s :: s in sites[..i] ==> OwnerOf(host, s).Some?
        invariant issued == old(issued) + Drive(host, wp, sites[..i]).issued
        invariant Drive(host, wp, sites[..i]).unresolved == None
        invariant stdout == Transcript(host.shell, issued)
      {
        ghost var previous := userName;
        var owner := VisitSite(sites[i], host);
        if owner.Err? {
          DriveStopsAt(host, wp, sites, i);
          ResolvedPrefixAt(host, sites, i);
          assert i > 0 ==> OwnerOf(host, sites[i - 1]) == Some(previous);
          return Fail(owner.error);
        }
        assert sites[..i + 1] == sites[..i] + [sites[i]];
        DriveSnoc(host, wp, sites[..i], sites[i], userName);
        i := i + 1;
      }
      assert sites[..i] == sites;
      r := Pass;
    }
  }
}
