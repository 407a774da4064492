/** The argument vector the engine hands to `rclone` for one pair
    (src/index.js:498-563): the subcommand and the two ends, the fixed verbosity
    and concurrency flags, the bisync options and baseline rule for two-way
    pairs, and the exclude filter spliced in at position 3. */
module Args {
  import opened Text
  import opened Pairs
  import opened Listing

  /** `pair.syncType === 'bisync' ? 'bisync' : 'sync'`. */
  function Command(p: SyncPair): string {
    if IsBisync(p) then "bisync" else "sync"
  }

  /** The flags every run carries after the remote end. */
  function CommonFlags(s: Settings): seq<string> {
    ["--verbose", "--progress", "--stats", "1s", "--stats-log-level", "NOTICE",
     "--transfers", IntToString(s.transfers), "--checkers", IntToString(s.checkers)]
  }

  const BisyncFlags: seq<string> :=
    ["--create-empty-src-dirs", "--compare", "size,modtime", "--slow-hash-sync-only", "--recover"]

  /** Either bisync listing file is missing on disk (`files` is the set of existing paths). */
  predicate ListingsMissing(p: SyncPair, files: set<string>, home: string) {
    ListingFile(home, p.localPath, p.remotePath, 1) !in files ||
    ListingFile(home, p.localPath, p.remotePath, 2) !in files
  }

  /** A two-way run re-initialises its baseline when a listing file is missing or the
      pair asks for a one-time resync; a one-way run never does. */
  predicate NeedsResync(p: SyncPair, files: set<string>, home: string) {
    IsBisync(p) && (ListingsMissing(p, files, home) || p.forceResync)
  }

  /** The exclude filter is used when enabled, named and present on disk. */
  predicate UsesFilter(s: Settings, files: set<string>) {
    s.useExcludeFile && s.excludeFile != "" && s.excludeFile in files
  }

  /** The vector before the filter splice: the head, the common flags, and for a
      two-way pair the bisync flags and possibly `--resync`. */
  function Unfiltered(p: SyncPair, s: Settings, resync: bool): seq<string> {
    [Command(p), p.localPath, "protondrive:" + p.remotePath] + CommonFlags(s)
      + (if IsBisync(p) then BisyncFlags else []) + (if resync then ["--resync"] else [])
  }

  /** The shape of the vector for one run: the head, the filter pair at positions 3-4
      exactly when the filter is used, then the flags, the bisync options for a two-way
      pair and `--resync` when the baseline must be rebuilt. This fixes the vector. */
  predicate IsArgv(args: seq<string>, p: SyncPair, s: Settings, files: set<string>, home: string) {
    var tail := if UsesFilter(s, files) then 5 else 3;
    |args| >= tail &&
    args[..3] == [Command(p), p.localPath, "protondrive:" + p.remotePath] &&
    (UsesFilter(s, files) ==> args[3..5] == ["--filter-from", s.excludeFile]) &&
    args[tail..] == CommonFlags(s) + (if IsBisync(p) then BisyncFlags else [])
                    + (if NeedsResync(p, files, home) then ["--resync"] else [])
  }

  /** The pushes of src/index.js:499-549, and whether `--resync` was pushed. */
  method PushArgs(p: SyncPair, s: Settings, files: set<string>, home: string)
    returns (args: seq<string>, resync: bool)
    ensures resync == NeedsResync(p, files, home)
    ensures args == Unfiltered(p, s, resync)
  {
    args := [Command(p), p.localPath, "protondrive:" + p.remotePath] + CommonFlags(s);
    resync := false;
    if IsBisync(p) {
      args := args + BisyncFlags;
      var listingsMissing := ListingsMissing(p, files, home);
      if listingsMissing || p.forceResync {
        args := args + ["--resync"];
        resync := true;
      }
    }
  }

  /** Builds the argument vector by pushes and one splice, as the source does, and
      reports whether `--resync` was added. */
  method BuildArgs(p: SyncPair, s: Settings, files: set<string>, home: string)
    returns (args: seq<string>, resync: bool)
    ensures resync == NeedsResync(p, files, home)
    ensures IsArgv(args, p, s, files, home)
    ensures args[|args| - 1] == "--resync" <==> resync
    ensures !IsBisync(p) ==> !resync && |args| == (if UsesFilter(s, files) then 15 else 13)
  {
    args, resync := PushArgs(p, s, files, home);
    LastOfUnfiltered(p, s, resync);
    UnfilteredShape(p, s, resync);
    ghost var pre := args;
    if s.useExcludeFile && s.excludeFile != "" {
      if s.excludeFile in files {
        args := args[..3] + ["--filter-from", s.excludeFile] + args[3..];
        Splice(pre, ["--filter-from", s.excludeFile]);
        assert UsesFilter(s, files);
      }
    }
  }

  /** The unfiltered vector is the head followed by the flags. */
  lemma UnfilteredShape(p: SyncPair, s: Settings, resync: bool)
    ensures var u := Unfiltered(p, s, resync);
      |u| == 13 + (if IsBisync(p) then 5 else 0) + (if resync then 1 else 0) && u[..3] == [Command(p), p.localPath, "protondrive:" + p.remotePath] &&
      u[3..] == CommonFlags(s) + (if IsBisync(p) then BisyncFlags else []) + (if resync then ["--resync"] else [])
  {
    var head := [Command(p), p.localPath, "protondrive:" + p.remotePath];
    var rest := CommonFlags(s) + (if IsBisync(p) then BisyncFlags else []) + (if resync then ["--resync"] else []);
    assert Unfiltered(p, s, resync) == head + rest;
  }

  /** Inserting `x` after the first three elements keeps the head, places `x`, shifts the
      rest and keeps the last element. */
  lemma Splice(u: seq<string>, x: seq<string>)
    requires |u| > 3
    ensures var v := u[..3] + x + u[3..];
      |v| == |u| + |x| && v[..3] == u[..3] && v[3..3 + |x|] == x && v[3 + |x|..] == u[3..] && v[|v| - 1] == u[|u| - 1]
  {
  }

  /** The unfiltered vector ends in `--resync` exactly when it was pushed. */
  lemma LastOfUnfiltered(p: SyncPair, s: Settings, resync: bool)
    ensures var u := Unfiltered(p, s, resync); u[|u| - 1] == "--resync" <==> resync
  {
    NumberIsNotResync(s.checkers);
  }

  /** A rendered number is never the `--resync` flag, so that flag ends the vector only when added. */
  lemma NumberIsNotResync(n: int)
    ensures IntToString(n) != "--resync"
  {
    var r := IntToString(n);
    if n < 0 {
      assert r[1] == NatToString(-n)[0];
    } else {
      assert r[0] == NatToString(n)[0];
    }
  }
}
