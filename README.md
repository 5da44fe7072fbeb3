# WordPress updater: a Dafny model of its decision logic

`WordpressUpdater` is a small PHP tool that keeps many WordPress installs on one machine up to date. It runs as a Composer script: `composer wpu -- --root=/var/www --only=site`. It finds every `wp-config.php` at `<root>/*/web/`. For each install in turn it finds the account that owns the directory. Then, as that account, it runs five wp-cli steps through `sudo -u`: `option get siteurl`, `plugin update --all`, `theme update --all`, `core update` and `cache flush all`.

This project models that class with its filesystem and process calls replaced by oracles. The oracles are bundled in `Machine.Host`: `is_dir`, `glob`, `lstat`'s uid, `posix_getpwuid`'s name, and the output lines `exec` collects for a command line. What the model covers:

- **Argument parsing** (`Arguments`). `parseSiteRoot` and `parseOnly` take the first argument that contains `--root=` or `--only=` anywhere in it. The value is the second `=`-separated field. The specification functions are `ParsedSiteRoot` and `ParsedOnly`. Their methods are the loops in `Updater.WordpressUpdater`.
- **Site discovery** (`Sites`). `getSites` turns the glob matches into their parent directories. A PHP-truthy `only` keeps the paths that contain `/only/`. An empty result is an exception.
- **Commands** (`Commands`). This part covers the `sudo -u <user> <wp> --path=<dir> <step…>` argument vector, the shell line it is joined into, and the text `exec` echoes. It also covers the per-site plan `Drive`: what the loop in `run` issues, and where an unresolvable owner stops it.
- **The object** (`Updater.WordpressUpdater`). It is a class with the source's fields `wp`, `userName`, `siteRoot` and `siteDir`. A ghost log `issued` records every argument vector `exec` issues. A `stdout` field stands for the process's standard output, which `echo` appends to. `Run` is the static `run`. The `foreach` of `run` is the method `UpdateSites`. One pass of it is `VisitSite`, and its five step calls are `UpdateSite`.
- **PHP builtins** (`PhpStrings`). These are `strpos`, `explode`, `join` and POSIX `dirname`, with their edge cases: `explode` always gives at least one field, and `dirname` of `a` is `.`.

Facts about `src/WordpressUpdater.php` that the model keeps as written:

- Nothing is skipped. `SKIP_UPDATE` in `config/config.example.php` is read by no code, so every discovered install is updated.
- The five steps are `option get siteurl`, `plugin update --all`, `theme update --all`, `core update` and `cache flush all`, in that order.
- The `--only` filter keeps every install path that contains `/only/` anywhere. `Sites.OnlyMatchesRootComponent` shows the consequence: when the root's last path component equals the selected name, every install is kept.
- An owner that cannot be resolved ends the run. PHP throws a `TypeError` when null is assigned to the typed `$userName`, and nothing catches it. Installs processed before that point keep their updates, and nothing runs for that site or any later one.
- `exec` hands one space-joined string to the shell and never looks at the exit status.
- When `lstat` fails, `$stats['uid']` is null. PHP coerces that null to uid 0 for `posix_getpwuid`, and `Machine.OwnerOf` models this case as written.

## Model

| member | source | states |
|---|---|---|
| `PhpStrings.StrPos` | src/WordpressUpdater.php:131 | `strpos` returns the first index at or after the offset where the needle occurs, and no earlier index holds it; "not found" means no index holds it |
| `PhpStrings.JoinExplode` | src/WordpressUpdater.php:132 | joining `explode`'s fields with the separator gives back the original string |
| `PhpStrings.ExplodeCons` | src/WordpressUpdater.php:132 | the text before the first separator is `explode`'s first field and the rest is split on its own |
| `PhpStrings.ExplodeJoin` | src/WordpressUpdater.php:79-91 | splitting a `join` on the separator recovers the parts, in order, when the list is non-empty and no part holds the separator |
| `PhpStrings.ExplodeJoinIff` | src/WordpressUpdater.php:79-91 | for a non-empty list, splitting the `join` gives back exactly the parts if and only if no part holds the separator |
| `PhpStrings.DirnameOfChild` | src/WordpressUpdater.php:113 | `dirname` of `dir/name` is `dir` when `name` is one component and `dir` is non-empty and does not end in `/` |
| `PhpStrings.NeedleCharAbsent` | src/WordpressUpdater.php:117 | `strpos` finds nothing when one needle character cannot appear at the position it would need |
| `Arguments.FindOption` | src/WordpressUpdater.php:130-142 | the option is missing exactly when no argument contains the flag anywhere |
| `Arguments.FindOptionFirst` | src/WordpressUpdater.php:130-141 | the value comes from the first argument that contains the flag: field 1 of splitting it on `=` |
| `Arguments.FindOptionAppend` | src/WordpressUpdater.php:130-141 | arguments after the first match are never looked at |
| `Arguments.OptionValueAfterName` | src/WordpressUpdater.php:132 | the value after `name=` stops at the next `=`, so `--root=/a=b` gives `/a` |
| `Arguments.FlagValueAnywhere` | src/WordpressUpdater.php:131-132 | a flag anywhere in an argument (`x--root=/a`) is matched; when no `=` comes before the flag, its value is the text after it up to the next `=` or the end of the argument |
| `Arguments.EqualsBeforeFlag` | src/WordpressUpdater.php:131-132 | when an `=` comes before the flag, the value is the text between the first two `=`: `a=b--root=/x` gives `b--root` |
| `Arguments.ParsedSiteRootFirst` | src/WordpressUpdater.php:130-140 | the first `--root=` decides: its value if that is a directory, otherwise the "is not a valid directory" exception |
| `Arguments.ParsedOnlyFirst` | src/WordpressUpdater.php:149-157 | the first `--only=` decides: its value if `siteRoot/value` is a directory, otherwise the exception |
| `Arguments.ParsedWithoutRootFlag` | src/WordpressUpdater.php:130-144 | with no argument containing `--root=`, the current root is returned unchanged |
| `Arguments.ParsedWithoutOnlyFlag` | src/WordpressUpdater.php:149-161 | with no argument containing `--only=`, `parseOnly` gives null |
| `Sites.KeepOnly` | src/WordpressUpdater.php:115-119 | a path is kept exactly when it was a candidate and contains `/only/` |
| `Sites.KeepOnlyAppend` | src/WordpressUpdater.php:116-118 | the filter keeps relative order: filtering a concatenation gives the concatenation of the filtered parts |
| `Sites.KeepOnlyAll` | src/WordpressUpdater.php:116-118 | when every path matches, the filter changes nothing |
| `Sites.GetSites` | src/WordpressUpdater.php:109-126 | the result is never empty; it fails exactly when glob finds nothing or a truthy `only` removes everything; without a truthy `only` it is every match's directory in glob order; with one it is the matches containing `/only/`, in glob order |
| `Sites.MarkerDir` | src/WordpressUpdater.php:111-113 | the directory of `root/<site>/web/wp-config.php` is `root/<site>/web` |
| `Sites.AllInstallsWithoutOnly` | src/WordpressUpdater.php:111-125 | with no truthy `only`, every install is returned in glob order |
| `Sites.OnlySelectsOneInstall` | src/WordpressUpdater.php:111-125 | with installs `a` and `b` under a root that has no `b` in its path, `--only=b` returns exactly `b`'s directory |
| `Sites.NamedInstallKept` | src/WordpressUpdater.php:117 | the install that `--only` names always passes the filter |
| `Sites.OnlyMatchesRootComponent` | src/WordpressUpdater.php:117 | when the root's last path component is the selected name (root `parent/only`), every install passes the filter |
| `Sites.FalsyOnlyKeepsAll` | src/WordpressUpdater.php:115 | `--only=0` and `--only=` are PHP-false, so nothing is filtered out |
| `Commands.ArgvShape` | src/WordpressUpdater.php:79-91 | the argument vector is `sudo -u <user> <wp> --path=<site>` followed by the sub-command, `5 + \|command\|` words long |
| `Commands.CommandLineWords` | src/WordpressUpdater.php:79-91 | if no word contains a space, splitting the shell line on spaces gives back the argument vector |
| `Commands.EchoedAppend` | src/WordpressUpdater.php:95-97 | echoing two batches of lines one after another is echoing their concatenation |
| `Commands.EchoedLines` | src/WordpressUpdater.php:95-97 | the echoed text is every captured line, in order, each followed by a newline, and nothing else |
| `Commands.TranscriptAppend` | src/WordpressUpdater.php:93-97 | the output of two runs of commands is the output of the first followed by that of the second |
| `Commands.DriveAppend` | src/WordpressUpdater.php:173-181 | sites whose owners resolve are processed one after another, in list order |
| `Commands.DriveResolved` | src/WordpressUpdater.php:173-181 | when every owner resolves: five commands per site, site after site, each block being the five steps in order with that site's `-u owner` and `--path=site` |
| `Commands.DriveStopsAt` | src/WordpressUpdater.php:173-175 | an unresolvable owner stops the run: the earlier sites are processed in full and nothing is issued for that site or any later one |
| `Commands.ResolvedPrefix` | src/WordpressUpdater.php:173-175 | the number of leading sites whose owners resolve: every owner before it resolves, and the site at that index, if any, does not |
| `Commands.ResolvedPrefixAt` | src/WordpressUpdater.php:173-175 | a site with an unresolvable owner, after sites whose owners all resolve, is exactly where that prefix ends |
| `Updater.WordpressUpdater.constructor` | src/WordpressUpdater.php:37-42 | `wp` is `bin/wp` under the vendor directory; `userName` and `siteDir` are empty; `siteRoot` is `/var/www` |
| `Updater.WordpressUpdater.Exec` | src/WordpressUpdater.php:77-98 | appends exactly `sudo -u userName wp --path=siteDir` plus the command to the log, and echoes the captured lines in order; no other field changes |
| `Updater.WordpressUpdater.GetSiteUrl` | src/WordpressUpdater.php:44-47 | issues `option get siteurl` |
| `Updater.WordpressUpdater.UpdatePlugins` | src/WordpressUpdater.php:49-52 | issues `plugin update --all` |
| `Updater.WordpressUpdater.UpdateThemes` | src/WordpressUpdater.php:54-57 | issues `theme update --all` |
| `Updater.WordpressUpdater.UpdateCore` | src/WordpressUpdater.php:59-62 | issues `core update` |
| `Updater.WordpressUpdater.FlushCache` | src/WordpressUpdater.php:64-67 | issues `cache flush all` |
| `Updater.WordpressUpdater.GetOwnerName` | src/WordpressUpdater.php:100-107 | `userName` becomes the owner of `siteDir`; when that owner cannot be resolved, it throws and leaves `userName` unchanged |
| `Updater.WordpressUpdater.ParseSiteRoot` | src/WordpressUpdater.php:128-145 | returns `ParsedSiteRoot` for the current root, and changes `siteRoot` only when it returns a new root |
| `Updater.WordpressUpdater.ParseOnly` | src/WordpressUpdater.php:147-162 | returns `ParsedOnly` for the current `siteRoot` and modifies nothing |
| `Updater.WordpressUpdater.UpdateSite` | src/WordpressUpdater.php:176-180 | issues the five steps for the current site and owner, in order, and keeps the output equal to the transcript of the log |
| `Updater.WordpressUpdater.VisitSite` | src/WordpressUpdater.php:174-180 | `siteDir` becomes the site; if its owner resolves, `userName` becomes that owner and the site's five steps are issued; otherwise nothing is issued, `userName` is unchanged and the error is returned |
| `Updater.WordpressUpdater.UpdateSites` | src/WordpressUpdater.php:173-181 | the log grows by exactly `Drive`'s commands; the loop throws exactly for the first site whose owner cannot be resolved, leaving `siteDir` on that site and `userName` on the previous site's owner (unchanged when the first site fails); after a full pass `siteDir` is the last site and `userName` its owner |
| `Updater.WordpressUpdater.Run` | src/WordpressUpdater.php:163-182 | `--root` is parsed before `--only`, which is checked under the updated root; a parse or discovery failure issues nothing and leaves `siteDir` and `userName` empty; otherwise the log is `Drive`'s commands for the discovered sites, the output is their transcript, and `siteDir`/`userName` end on the failing site and the previous site's owner (empty when the first site fails), or on the last site and its owner |
| `Updater.RootRejected` | src/WordpressUpdater.php:131-136 | when the first `--root=` value is not a directory, the run ends with `<root> is not a valid directory` |
| `Updater.OnlyRejected` | src/WordpressUpdater.php:150-155 | once `--root` is accepted, when the first `--only=` value is not a directory under the root in force, the run ends with `'<only>' is not a valid directory` |
| `Updater.NoInstallsFound` | src/WordpressUpdater.php:121-123 | once `--root` and `--only` are accepted, a root where glob finds nothing ends the run with `No valid wordpress installs found in <root>` |

## Left out

- Filesystem and OS calls (`glob`, `is_dir`, `lstat`, `posix_getpwuid`, the process spawn) are oracles in `Machine.Host`. A process's output is modelled as a fixed function of its command line.
- `glob` returning `false` on error is left out: the oracle always returns a list.
- How the shell re-splits or quotes the joined command line is left out. `CommandLine` is the join, and `Commands.CommandLineWords` states when splitting it gives the vector back.
- The last output line, which the `exec` builtin returns, is left out: `exec` stores it in `$exec` and never uses it. The exit status is never captured, so it does not appear either.
- The output stream is a `stdout` string field of the object; it is not a real stream.
- The process-global `define('VENDOR', …)` is left out: the constructor takes the source directory, and `wp` is derived from it.
- PHP warnings and deprecation notices (array offset on `false`, null passed as an `int`) are left out. Only their effect on values is modelled.
- `dirname` is modelled for `/` separators only.
- Strings are sequences of characters, not PHP byte strings. The two agree for valid UTF-8 text searched and split with the ASCII separators used here (`=`, ` `, `/`, newline).
- `PhpStrings.StrPos` requires the offset to be within the string, where PHP 8 throws a `ValueError`; every call here uses offset 0.
- `config/config.example.php` is left out: it is static data that no code reads.
- `src/WordpressUpdaterComposer.php` is left out. Its `run` passes the array from `$event->getArguments()` to `WordpressUpdater::run`, whose parameter is typed `Event`, so PHP would reject the call with a `TypeError`. The model instead takes the argument list that `WordpressUpdater::run` reads from its own event at lines 167 and 169, as a `seq<string>`.
