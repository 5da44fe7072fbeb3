/** The failures the updater can run into, each of which ends the run. */
module Errors {

  datatype Error =
    | InvalidRoot(root: string)        // `--root=` names something that is not a directory
    | InvalidOnly(only: string)        // `--only=` names something that is not a directory under the root
    | NoSites(siteRoot: string)        // discovery (after the `--only` filter) found nothing
    | OwnerUnresolved(siteDir: string) // the owner's account name cannot be resolved

  /** The text the exception carries. */
  function Message(e: Error): string
  {
    match e
    case InvalidRoot(root) => root + " is not a valid directory"
    case InvalidOnly(only) => "'" + only + "' is not a valid directory"
    case NoSites(siteRoot) => "No valid wordpress installs found in " + siteRoot
    // PHP's own TypeError: `posix_getpwuid` gave `false`, so `['name']` is null
    case OwnerUnresolved(_) =>
      "Cannot assign null to property Toggenation\\WordpressUpdater::$userName of type string"
  }
}
