/**
 * The commands the updater issues: the `sudo -u <owner> <wp> --path=<site>`
 * argument vector that `exec` assembles, what `exec` echoes, and the fixed
 * per-site sequence of wp-cli sub-commands that `run` drives.
 */
module Commands {
  import opened Wrappers
  import opened PhpStrings
  import opened Machine

  const SiteUrlCommand: seq<string> := ["option", "get", "siteurl"]
  const UpdatePluginsCommand: seq<string> := ["plugin", "update", "--all"]
  const UpdateThemesCommand: seq<string> := ["theme", "update", "--all"]
  const UpdateCoreCommand: seq<string> := ["core", "update"]
  const FlushCacheCommand: seq<string> := ["cache", "flush", "all"]

  /** The wp-cli sub-commands issued for every site, in the order they run. */
  const Steps: seq<seq<string>> :=
    [SiteUrlCommand, UpdatePluginsCommand, UpdateThemesCommand, UpdateCoreCommand, FlushCacheCommand]

  /** The argument vector `exec` assembles: wp-cli run as the site's owner, scoped to the site. */
  function Argv(userName: string, wp: string, siteDir: string, command: seq<string>): seq<string>
  {
    ["sudo", "-u", userName, wp, "--path=" + siteDir] + command
  }

  /** The command line handed to the shell: the argument vector joined by single spaces. */
  function CommandLine(argv: seq<string>): string
  {
    Join(' ', argv)
  }

  /** The argument vector is the five fixed words followed by the sub-command. */
  lemma ArgvShape(userName: string, wp: string, siteDir: string, command: seq<string>)
    ensures |Argv(userName, wp, siteDir, command)| == 5 + |command|
    ensures Argv(userName, wp, siteDir, command)[..5] == ["sudo", "-u", userName, wp, "--path=" + siteDir]
    ensures Argv(userName, wp, siteDir, command)[5..] == command
  {
    var argv := Argv(userName, wp, siteDir, command);
    assert argv[5..] == command;
  }

  /**
   * The shell's word splitting gives back exactly the argument vector, in
   * order, when no element contains a space.
   */
  lemma CommandLineWords(userName: string, wp: string, siteDir: string, command: seq<string>)
    requires ' ' !in userName && ' ' !in wp && ' ' !in siteDir
    requires forall w :: w in command ==> ' ' !in w
    ensures Explode(' ', CommandLine(Argv(userName, wp, siteDir, command))) == Argv(userName, wp, siteDir, command)
  {
    var argv := Argv(userName, wp, siteDir, command);
    ArgvShape(userName, wp, siteDir, command);
    assert forall w :: w in argv ==> w in argv[..5] || w in argv[5..];
    ExplodeJoin(' ', argv);
  }

  /** What `exec` echoes for the captured output lines: each one followed by a newline. */
  function Echoed(lines: seq<string>): string
  {
    if lines == [] then "" else lines[0] + "\n" + Echoed(lines[1..])
  }

  /** Echoing two batches of lines one after the other echoes their concatenation. */
  lemma {:induction false} EchoedAppend(xs: seq<string>, ys: seq<string>)
    ensures Echoed(xs + ys) == Echoed(xs) + Echoed(ys)
  {
    if xs == [] {
      assert xs + ys == ys;
    } else {
      assert (xs + ys)[0] == xs[0] && (xs + ys)[1..] == xs[1..] + ys;
      EchoedAppend(xs[1..], ys);
    }
  }

  /** The echoed text holds every captured line, in order, and nothing else. */
  lemma {:induction false} EchoedLines(lines: seq<string>)
    requires forall l :: l in lines ==> '\n' !in l
    ensures Explode('\n', Echoed(lines)) == lines + [""]
  {
    if lines == [] {
    } else {
      assert lines[0] in lines;
      assert forall l :: l in lines[1..] ==> l in lines;
      EchoedLines(lines[1..]);
      ExplodeCons('\n', lines[0], Echoed(lines[1..]));
      assert lines == [lines[0]] + lines[1..];
    }
  }

  /** Everything echoed while the commands in `issued` ran, in order. */
  function Transcript(shell: string -> seq<string>, issued: seq<seq<string>>): string
  {
    if issued == [] then ""
    else Transcript(shell, issued[..|issued| - 1]) + Echoed(shell(CommandLine(issued[|issued| - 1])))
  }

  /** Issuing one more command adds its echoed output at the end. */
  lemma TranscriptSnoc(shell: string -> seq<string>, issued: seq<seq<string>>, argv: seq<string>)
    ensures Transcript(shell, issued + [argv]) == Transcript(shell, issued) + Echoed(shell(CommandLine(argv)))
  {
    assert (issued + [argv])[..|issued|] == issued;
  }

  /** The transcript of two runs of commands is the transcript of the first followed by that of the second. */
  lemma {:induction false} TranscriptAppend(shell: string -> seq<string>, xs: seq<seq<string>>, ys: seq<seq<string>>)
    ensures Transcript(shell, xs + ys) == Transcript(shell, xs) + Transcript(shell, ys)
    decreases |ys|
  {
    if ys == [] {
      assert xs + ys == xs;
    } else {
      var init, last := ys[..|ys| - 1], ys[|ys| - 1];
      assert Transcript(shell, xs + ys) == Transcript(shell, xs + init) + Echoed(shell(CommandLine(last))) by {
        var all := xs + ys;
        assert all[..|all| - 1] == xs + init;
        assert all[|all| - 1] == last;
      }
      TranscriptAppend(shell, xs, init);
    }
  }

  /** The five commands issued for one site, owned by `userName`. */
  function SiteCommands(wp: string, userName: string, siteDir: string): seq<seq<string>>
  {
    seq(|Steps|, j requires 0 <= j < |Steps| => Argv(userName, wp, siteDir, Steps[j]))
  }

  /** The commands `run` issues for `sites`, and the site whose owner could not be resolved, if any. */
  datatype Plan = Plan(issued: seq<seq<string>>, unresolved: Option<string>)

  /**
   * The per-site loop of `run`: resolve the owner, then issue the five steps;
   * an unresolvable owner ends the loop before anything is issued for that site.
   */
  function Drive(host: Host, wp: string, sites: seq<string>): Plan
  {
    if sites == [] then Plan([], None)
    else
      match OwnerOf(host, sites[0])
      case None => Plan([], Some(sites[0]))
      case Some(userName) =>
        var rest := Drive(host, wp, sites[1..]);
        Plan(SiteCommands(wp, userName, sites[0]) + rest.issued, rest.unresolved)
  }

  /** How many sites, from the front, have an owner that resolves before the first that does not. */
  function ResolvedPrefix(host: Host, sites: seq<string>): (k: nat)
    ensures k <= |sites|
    ensures forall s :: s in sites[..k] ==> OwnerOf(host, s).Some?
    ensures k < |sites| ==> OwnerOf(host, sites[k]).None?
  {
    if sites == [] || OwnerOf(host, sites[0]).None? then 0
    else
      var k := 1 + ResolvedPrefix(host, sites[1..]);
      assert forall s :: s in sites[..k] ==> s == sites[0] || s in sites[1..][..k - 1];
      k
  }

  /** A site whose owner fails to resolve, after sites whose owners all resolve, is where the prefix ends. */
  lemma {:induction false} ResolvedPrefixAt(host: Host, sites: seq<string>, i: nat)
    requires i < |sites| && OwnerOf(host, sites[i]).None?
    requires forall s :: s in sites[..i] ==> OwnerOf(host, s).Some?
    ensures ResolvedPrefix(host, sites) == i
  {
    if i > 0 {
      assert sites[0] in sites[..i];
      assert forall s :: s in sites[1..][..i - 1] ==> s in sites[..i];
      ResolvedPrefixAt(host, sites[1..], i - 1);
    }
  }

  /** Sites whose owners all resolve are processed one after another. */
  lemma {:induction false} DriveAppend(host: Host, wp: string, xs: seq<string>, ys: seq<string>)
    requires forall s :: s in xs ==> OwnerOf(host, s).Some?
    ensures Drive(host, wp, xs + ys) == Plan(Drive(host, wp, xs).issued + Drive(host, wp, ys).issued, Drive(host, wp, ys).unresolved)
  {
    if xs == [] {
      assert xs + ys == ys;
    } else {
      assert xs[0] in xs;
      assert forall s :: s in xs[1..] ==> s in xs;
      assert (xs + ys)[0] == xs[0] && (xs + ys)[1..] == xs[1..] + ys;
      DriveAppend(host, wp, xs[1..], ys);
    }
  }

  /** Processing one more site whose owner resolves appends its five commands. */
  lemma DriveSnoc(host: Host, wp: string, xs: seq<string>, site: string, userName: string)
    requires forall s :: s in xs ==> OwnerOf(host, s).Some?
    requires OwnerOf(host, site) == Some(userName)
    ensures Drive(host, wp, xs + [site]) == Plan(Drive(host, wp, xs).issued + SiteCommands(wp, userName, site), None)
  {
    DriveAppend(host, wp, xs, [site]);
    assert [site][1..] == [];
  }

  /** The `k`-th block of five commands. */
  function SiteBlock(issued: seq<seq<string>>, k: nat): seq<seq<string>>
    requires 5 * k + 5 <= |issued|
  {
    issued[5 * k..5 * k + 5]
  }

  /**
   * When every owner resolves, `run` issues exactly five commands per site,
   * site after site in discovery order, each block being that site's five
   * steps under that site's owner and path.
   */
  lemma {:induction false} DriveResolved(host: Host, wp: string, sites: seq<string>)
    requires forall s :: s in sites ==> OwnerOf(host, s).Some?
    ensures Drive(host, wp, sites).unresolved == None
    ensures |Drive(host, wp, sites).issued| == 5 * |sites|
    ensures forall k :: 0 <= k < |sites| ==>
      SiteBlock(Drive(host, wp, sites).issued, k) == SiteCommands(wp, OwnerOf(host, sites[k]).value, sites[k])
  {
    if sites != [] {
      assert sites[0] in sites;
      assert forall s :: s in sites[1..] ==> s in sites;
      DriveResolved(host, wp, sites[1..]);
      var head := SiteCommands(wp, OwnerOf(host, sites[0]).value, sites[0]);
      var rest := Drive(host, wp, sites[1..]).issued;
      var all := Drive(host, wp, sites).issued;
      assert all == head + rest;
      forall k | 0 <= k < |sites|
        ensures SiteBlock(all, k) == SiteCommands(wp, OwnerOf(host, sites[k]).value, sites[k])
      {
        if k == 0 {
          assert SiteBlock(all, 0) == head;
        } else {
          assert SiteBlock(all, k) == SiteBlock(rest, k - 1);
          assert sites[k] == sites[1..][k - 1];
        }
      }
    }
  }

  /**
   * An unresolvable owner stops the run at that site: the sites before it are
   * processed in full and nothing is issued for it or for any later site.
   */
  lemma DriveStopsAt(host: Host, wp: string, sites: seq<string>, k: nat)
    requires k < |sites| && OwnerOf(host, sites[k]).None?
    requires forall s :: s in sites[..k] ==> OwnerOf(host, s).Some?
    ensures Drive(host, wp, sites) == Plan(Drive(host, wp, sites[..k]).issued, Some(sites[k]))
  {
    assert sites == sites[..k] + sites[k..];
    DriveAppend(host, wp, sites[..k], sites[k..]);
  }
}
