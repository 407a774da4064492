/** The records the engine and the renderer share: a configured sync pair, the
    process-wide settings, the process key of a pair and the lookup of the first
    pair with given paths (`syncPairs.findIndex`). */
module Pairs {
  import opened Text

  datatype Option<T> = None | Some(value: T) {
    function GetOr(default: T): T {
      match this
      case Some(v) => v
      case None => default
    }
  }

  /** The four status strings the code writes. Any other string is possible in a
      hand-edited configuration; the renderer maps those to its fallbacks. */
  const Idle := "idle"
  const Syncing := "syncing"
  const Success := "success"
  const Error := "error"

  /** One configured local/remote mapping, with the transient progress fields the
      engine writes while it runs. `syncType` keeps the form's string (`'sync'` or
      `'bisync'`); absent optional fields are `None`. */
  datatype SyncPair = SyncPair(
    localPath: string,
    remotePath: string,
    autoSync: bool,
    syncType: string,
    forceResync: bool,
    status: string,
    lastSync: Option<int>,
    lastSyncStart: Option<int>,
    lastError: Option<string>,
    currentProgress: nat,
    currentFile: string,
    transferredFiles: nat,
    totalFiles: nat)

  /** Process-wide settings. An absent `excludeFile` is the empty string, which the
      code's truthiness test treats alike. */
  datatype Settings = Settings(
    syncInterval: int,
    excludeFile: string,
    useExcludeFile: bool,
    transfers: int,
    checkers: int,
    startMinimized: bool,
    closeToTray: bool,
    rcloneFilter: string)

  predicate IsBisync(p: SyncPair) {
    p.syncType == "bisync"
  }

  /** The process key `${localPath}->${remotePath}` under which a running process is registered. */
  function Key(localPath: string, remotePath: string): string {
    localPath + "->" + remotePath
  }

  function PairKey(p: SyncPair): string {
    Key(p.localPath, p.remotePath)
  }

  /** Different pairs share a process key whenever a path itself contains `->`: the arrow
      may stand at the end of the local path or at the start of the remote path. */
  lemma KeyNotInjective(a: string, b: string, c: string)
    ensures (a + "->" + b, c) != (a, b + "->" + c)
    ensures Key(a + "->" + b, c) == Key(a, b + "->" + c)
  {
    assert |a + "->" + b| != |a|;
    assert a + "->" + b + "->" + c == a + "->" + (b + "->" + c);
  }

  predicate Matches(p: SyncPair, localPath: string, remotePath: string) {
    p.localPath == localPath && p.remotePath == remotePath
  }

  /** `syncPairs.findIndex(p => p.localPath === l && p.remotePath === r)`: the first
      matching index, or -1 when no pair matches. */
  function FirstIndex(ps: seq<SyncPair>, localPath: string, remotePath: string): (r: int)
    ensures -1 <= r < |ps|
    ensures r == -1 <==> forall j | 0 <= j < |ps| :: !Matches(ps[j], localPath, remotePath)
    ensures r >= 0 ==> Matches(ps[r], localPath, remotePath) &&
                       forall j | 0 <= j < r :: !Matches(ps[j], localPath, remotePath)
    decreases |ps|
  {
    if |ps| == 0 then -1
    else if Matches(ps[0], localPath, remotePath) then 0
    else
      var r := FirstIndex(ps[1..], localPath, remotePath);
      if r < 0 then -1 else r + 1
  }

  /** Two pair lists agree on everything the engine never writes: length, paths,
      `autoSync` and `syncType`. Every engine transition keeps this relation. */
  predicate SameConfig(a: seq<SyncPair>, b: seq<SyncPair>) {
    |a| == |b| &&
    forall i | 0 <= i < |a| ::
      a[i].localPath == b[i].localPath && a[i].remotePath == b[i].remotePath &&
      a[i].autoSync == b[i].autoSync && a[i].syncType == b[i].syncType
  }

  lemma SameConfigTrans(a: seq<SyncPair>, b: seq<SyncPair>, c: seq<SyncPair>)
    requires SameConfig(a, b) && SameConfig(b, c)
    ensures SameConfig(a, c)
  {
  }

  /** The lookup depends only on the paths, so it is the same on lists with the same configuration. */
  lemma FirstIndexSameConfig(a: seq<SyncPair>, b: seq<SyncPair>, localPath: string, remotePath: string)
    requires SameConfig(a, b)
    ensures FirstIndex(a, localPath, remotePath) == FirstIndex(b, localPath, remotePath)
  {
    var ia, ib := FirstIndex(a, localPath, remotePath), FirstIndex(b, localPath, remotePath);
    if ia >= 0 && ib >= 0 {
      assert !(ia < ib) && !(ib < ia);
    }
  }
}
