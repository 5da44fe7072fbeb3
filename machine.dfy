/**
 * The machine the updater runs on, reduced to the answers of the calls it makes:
 * filesystem queries, account lookup and process execution.
 */
module Machine {
  import opened Wrappers

  datatype Host = Host(
    isDir: string -> bool,            // is_dir($path)
    glob: string -> seq<string>,      // glob($pattern), matches in the order glob returns them
    lstatUid: string -> Option<nat>,  // lstat($path)['uid'], or None when lstat fails
    getpwuid: nat -> Option<string>,  // posix_getpwuid($uid)['name'], or None when it returns false
    shell: string -> seq<string>)     // the output lines exec($cmd, $output) collects

  /**
   * The account that owns `dir`, as `getOwnerName` computes it: when `lstat`
   * fails its `['uid']` is null, which PHP coerces to uid 0 for `posix_getpwuid`.
   */
  function OwnerOf(host: Host, dir: string): Option<string>
  {
    host.getpwuid(match host.lstatUid(dir) case Some(uid) => uid case None => 0)
  }
}
