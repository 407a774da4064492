/** The sync-pair engine of the main process (src/index.js:465-773): the pair list,
    the registry of running `rclone` processes keyed by `localPath->remotePath`, the
    active-sync counter and the auto-sync timer. A spawn registers a fresh handle;
    the process callbacks (`data`, `close`, `error`) are methods that name the handle
    of the process they belong to, as the source's closures do. */
module Engine {
  import opened Text
  import opened Pairs
  import opened Args
  import opened Progress

  /** What a spawned process's callbacks captured: the paths of the pair argument and
      the parse state (`transferredFiles`, `totalFiles`, `currentFile`) its output
      handler carries from chunk to chunk. */
  datatype Closure = Closure(localPath: string, remotePath: string, carried: Carried)

  /** The `syncProgress` message sent to the renderer for one chunk. */
  datatype ProgressEvent = ProgressEvent(localPath: string, remotePath: string, message: string,
                                         percentage: nat, transferredFiles: nat, totalFiles: nat,
                                         currentFile: string)

  /** `Math.max(0, n - 1)`. */
  function Decrement(n: nat): (r: nat)
    ensures n > 0 ==> r == n - 1
    ensures n == 0 ==> r == 0
  {
    if n > 0 then n - 1 else 0
  }

  /** The fields a start writes (src/index.js:479-485), and the one-time resync flag
      cleared when `clear` holds (src/index.js:545-547). */
  function Begin(p: SyncPair, now: int, clear: bool): (r: SyncPair)
    ensures r.status == Syncing && r.lastSyncStart == Some(now)
    ensures r.currentProgress == 0 && r.currentFile == "" && r.transferredFiles == 0 && r.totalFiles == 0
    ensures r.forceResync == (p.forceResync && !clear)
    ensures r == p.(status := r.status, lastSyncStart := r.lastSyncStart, currentProgress := 0,
                    currentFile := "", transferredFiles := 0, totalFiles := 0, forceResync := r.forceResync)
  {
    p.(status := Syncing, lastSyncStart := Some(now), currentProgress := 0, currentFile := "",
       transferredFiles := 0, totalFiles := 0, forceResync := if clear then false else p.forceResync)
  }

  /** The flag is cleared only on the `--resync` path and only when the argument pair
      asks for it; since it implies `--resync` for a two-way pair, that is the whole rule. */
  predicate ClearsForce(pair: SyncPair) {
    IsBisync(pair) && pair.forceResync
  }

  /** The pair list after starting `pair`: the first entry with its paths, if any, begins. */
  function StartOne(ps: seq<SyncPair>, pair: SyncPair, now: int): (r: seq<SyncPair>)
    ensures SameConfig(ps, r)
  {
    var i := FirstIndex(ps, pair.localPath, pair.remotePath);
    if i < 0 then ps else ps[i := Begin(ps[i], now, ClearsForce(pair))]
  }

  /** The fields one chunk writes into the pair (src/index.js:604-609). */
  function Progressed(p: SyncPair, snap: Snapshot): (r: SyncPair)
    ensures r.currentProgress == snap.percentage && r.currentFile == snap.currentFile
    ensures r.transferredFiles == snap.transferredFiles && r.totalFiles == snap.totalFiles
    ensures r.(currentProgress := p.currentProgress, currentFile := p.currentFile,
               transferredFiles := p.transferredFiles, totalFiles := p.totalFiles) == p
  {
    p.(currentProgress := snap.percentage, currentFile := snap.currentFile,
       transferredFiles := snap.transferredFiles, totalFiles := snap.totalFiles)
  }

  /** `Process exited with code ${code}`, where a process ended by a signal has code `null`. */
  function ExitMessage(code: Option<int>): string {
    "Process exited with code " + (match code case Some(n) => IntToString(n) case None => "null")
  }

  /** The outcome a `close` writes (src/index.js:642-658): success only for exit code 0. */
  function Closed(p: SyncPair, code: Option<int>, now: int): (r: SyncPair)
    ensures r.status == Success <==> code == Some(0)
    ensures r.status == Error <==> code != Some(0)
    ensures code == Some(0) ==> r.lastSync == Some(now) && r.currentProgress == 100 && r.lastError == p.lastError
    ensures code != Some(0) ==> r.lastSync == p.lastSync && r.currentProgress == 0 &&
                                 r.lastError == Some(ExitMessage(code))
    ensures r.currentFile == "" && r.transferredFiles == 0 && r.totalFiles == 0
    ensures r.(status := p.status, lastSync := p.lastSync, lastError := p.lastError, currentProgress := p.currentProgress,
               currentFile := p.currentFile, transferredFiles := p.transferredFiles, totalFiles := p.totalFiles) == p
  {
    var q := if code == Some(0) then p.(status := Success, lastSync := Some(now), currentProgress := 100)
             else p.(status := Error, lastError := Some(ExitMessage(code)), currentProgress := 0);
    q.(currentFile := "", transferredFiles := 0, totalFiles := 0)
  }

  /** The outcome an `error` event writes (src/index.js:680-684); the counts are kept. */
  function Errored(p: SyncPair, message: string): (r: SyncPair)
    ensures r.status == Error && r.lastError == Some(message) && r.currentProgress == 0 && r.currentFile == ""
    ensures r.transferredFiles == p.transferredFiles && r.totalFiles == p.totalFiles
    ensures r.(status := p.status, lastError := p.lastError, currentProgress := p.currentProgress,
               currentFile := p.currentFile) == p
  {
    p.(status := Error, lastError := Some(message), currentProgress := 0, currentFile := "")
  }

  /** What cancelling one pair writes (src/index.js:377-379). */
  function Cancelled(p: SyncPair): (r: SyncPair)
    ensures r.status == Idle && r.currentProgress == 0 && r.currentFile == ""
    ensures r.(status := p.status, currentProgress := p.currentProgress, currentFile := p.currentFile) == p
  {
    p.(status := Idle, currentProgress := 0, currentFile := "")
  }

  /** The list with the first entry matching the paths updated by one callback. */
  function UpdateFirstProgressed(ps: seq<SyncPair>, l: string, r: string, snap: Snapshot): (q: seq<SyncPair>)
  {
    var i := FirstIndex(ps, l, r);
    if i < 0 then ps else ps[i := Progressed(ps[i], snap)]
  }

  function UpdateFirstClosed(ps: seq<SyncPair>, l: string, r: string, code: Option<int>, now: int): (q: seq<SyncPair>)
  {
    var i := FirstIndex(ps, l, r);
    if i < 0 then ps else ps[i := Closed(ps[i], code, now)]
  }

  function UpdateFirstErrored(ps: seq<SyncPair>, l: string, r: string, message: string): (q: seq<SyncPair>)
  {
    var i := FirstIndex(ps, l, r);
    if i < 0 then ps else ps[i := Errored(ps[i], message)]
  }

  function UpdateFirstCancelled(ps: seq<SyncPair>, l: string, r: string): (q: seq<SyncPair>)
  {
    var i := FirstIndex(ps, l, r);
    if i < 0 then ps else ps[i := Cancelled(ps[i])]
  }

  // ---------------------------------------------------------------------------
  // Starting several pairs

  /** The pair list, the registered keys and the number of processes started so far. */
  datatype Launch = Launch(pairs: seq<SyncPair>, keys: set<string>, started: nat)

  /** One `syncSinglePair` call: nothing when the key is registered, else a start. */
  function StartStep(l: Launch, pair: SyncPair, now: int): Launch {
    if PairKey(pair) in l.keys then l
    else Launch(StartOne(l.pairs, pair, now), l.keys + {PairKey(pair)}, l.started + 1)
  }

  /** `pairs.forEach(pair => syncSinglePair(pair, settings))` over pair values sent by the renderer. */
  function StartAll(l: Launch, batch: seq<SyncPair>, now: int): Launch
    decreases |batch|
  {
    if |batch| == 0 then l
    else StartStep(StartAll(l, batch[..|batch| - 1], now), batch[|batch| - 1], now)
  }

  /** The same loop over entries of the live pair list, read when their turn comes
      (the timer and the launch pass the list's own objects). */
  function StartAt(l: Launch, idx: seq<nat>, now: int): Launch
    decreases |idx|
  {
    if |idx| == 0 then l
    else
      var m := StartAt(l, idx[..|idx| - 1], now);
      var j := idx[|idx| - 1];
      if j < |m.pairs| then StartStep(m, m.pairs[j], now) else m
  }

  function KeysOf(batch: seq<SyncPair>): set<string> {
    set i | 0 <= i < |batch| :: PairKey(batch[i])
  }

  function KeysAt(ps: seq<SyncPair>, idx: seq<nat>): set<string> {
    set t | 0 <= t < |idx| && idx[t] < |ps| :: PairKey(ps[idx[t]])
  }

  /** Starting a batch registers exactly the batch's keys, starts one process per key
      that was not registered before, and changes only run-time fields of the list. */
  lemma {:induction false} StartAllEffect(l: Launch, batch: seq<SyncPair>, now: int)
    ensures var m := StartAll(l, batch, now);
      m.keys == l.keys + KeysOf(batch) &&
      m.started == l.started + |KeysOf(batch) - l.keys| &&
      SameConfig(l.pairs, m.pairs)
    decreases |batch|
  {
    if |batch| > 0 {
      var front, last := batch[..|batch| - 1], batch[|batch| - 1];
      StartAllEffect(l, front, now);
      KeysOfSnoc(batch);
      StepEffect(l, StartAll(l, front, now), KeysOf(front), last, now);
    }
  }

  lemma KeysOfSnoc(batch: seq<SyncPair>)
    requires |batch| > 0
    ensures KeysOf(batch) == KeysOf(batch[..|batch| - 1]) + {PairKey(batch[|batch| - 1])}
  {
    var front := batch[..|batch| - 1];
    forall k | k in KeysOf(batch) ensures k in KeysOf(front) + {PairKey(batch[|batch| - 1])} {
      var i :| 0 <= i < |batch| && PairKey(batch[i]) == k;
      if i < |batch| - 1 {
        assert front[i] == batch[i];
      }
    }
    forall k | k in KeysOf(front) ensures k in KeysOf(batch) {
      var i :| 0 <= i < |front| && PairKey(front[i]) == k;
      assert batch[i] == front[i];
    }
  }

  /** One start on top of a launch `m` that has registered `a` on top of `l`. */
  lemma StepEffect(l: Launch, m: Launch, a: set<string>, pair: SyncPair, now: int)
    requires m.keys == l.keys + a && m.started == l.started + |a - l.keys| && SameConfig(l.pairs, m.pairs)
    ensures var n := StartStep(m, pair, now);
      n.keys == l.keys + (a + {PairKey(pair)}) && n.started == l.started + |a + {PairKey(pair)} - l.keys| &&
      SameConfig(l.pairs, n.pairs)
  {
    StartStepEffect(m, pair, now);
    SameConfigTrans(l.pairs, m.pairs, StartStep(m, pair, now).pairs);
    NewKeysStep(a, l.keys, PairKey(pair));
  }

  lemma StartStepEffect(m: Launch, pair: SyncPair, now: int)
    ensures var n := StartStep(m, pair, now);
      n.keys == m.keys + {PairKey(pair)} &&
      n.started == m.started + (if PairKey(pair) in m.keys then 0 else 1) &&
      SameConfig(m.pairs, n.pairs)
  {
  }

  /** Adding one key to a batch adds one new key exactly when it is new. */
  lemma NewKeysStep(a: set<string>, keys: set<string>, k: string)
    ensures k in keys + a ==> a + {k} - keys == a - keys
    ensures k !in keys + a ==> |a + {k} - keys| == |a - keys| + 1
  {
    if k !in keys + a {
      assert a + {k} - keys == (a - keys) + {k};
    }
  }

  /** Starting entries of the live list registers the keys of those entries, starts one
      process per new key, and changes only run-time fields. */
  lemma {:induction false} StartAtEffect(l: Launch, idx: seq<nat>, now: int)
    ensures var m := StartAt(l, idx, now);
      m.keys == l.keys + KeysAt(l.pairs, idx) &&
      m.started == l.started + |KeysAt(l.pairs, idx) - l.keys| &&
      SameConfig(l.pairs, m.pairs)
    decreases |idx|
  {
    if |idx| > 0 {
      var front, j := idx[..|idx| - 1], idx[|idx| - 1];
      StartAtEffect(l, front, now);
      KeysAtSnoc(l.pairs, idx);
      StartAtStepEffect(l, StartAt(l, front, now), KeysAt(l.pairs, front), j, now);
    }
  }

  /** One more index on top of a launch `m` that has registered `a` on top of `l`. */
  lemma StartAtStepEffect(l: Launch, m: Launch, a: set<string>, j: nat, now: int)
    requires m.keys == l.keys + a && m.started == l.started + |a - l.keys| && SameConfig(l.pairs, m.pairs)
    ensures var n := if j < |m.pairs| then StartStep(m, m.pairs[j], now) else m;
      var b := a + (if j < |l.pairs| then {PairKey(l.pairs[j])} else {});
      n.keys == l.keys + b && n.started == l.started + |b - l.keys| && SameConfig(l.pairs, n.pairs)
  {
    if j < |l.pairs| {
      assert PairKey(m.pairs[j]) == PairKey(l.pairs[j]);
      StepEffect(l, m, a, m.pairs[j], now);
    } else {
      assert a + {} == a;
    }
  }

  /** A tick starts only new keys, so it starts one process per key of its selection. */
  lemma TickEffect(ps: seq<SyncPair>, keys: set<string>, idx: seq<nat>, now: int)
    ensures var r := TickReady(ps, keys, idx);
      var m := StartAt(Launch(ps, keys, 0), r, now);
      m.keys == keys + KeysAt(ps, r) && m.started == |KeysAt(ps, r)|
  {
    var r := TickReady(ps, keys, idx);
    StartAtEffect(Launch(ps, keys, 0), r, now);
    TickKeysNew(ps, keys, idx);
    assert KeysAt(ps, r) - keys == KeysAt(ps, r);
  }

  lemma KeysAtSnoc(ps: seq<SyncPair>, idx: seq<nat>)
    requires |idx| > 0
    ensures var front, j := idx[..|idx| - 1], idx[|idx| - 1];
      KeysAt(ps, idx) == KeysAt(ps, front) + (if j < |ps| then {PairKey(ps[j])} else {})
  {
    var front, j := idx[..|idx| - 1], idx[|idx| - 1];
    var last := if j < |ps| then {PairKey(ps[j])} else {};
    forall k | k in KeysAt(ps, idx) ensures k in KeysAt(ps, front) + last {
      var t :| 0 <= t < |idx| && idx[t] < |ps| && PairKey(ps[idx[t]]) == k;
      if t < |idx| - 1 {
        assert front[t] == idx[t];
      }
    }
    forall k | k in KeysAt(ps, front) ensures k in KeysAt(ps, idx) {
      var t :| 0 <= t < |front| && front[t] < |ps| && PairKey(ps[front[t]]) == k;
      assert idx[t] == front[t];
    }
  }

  // ---------------------------------------------------------------------------
  // Auto-sync selection

  /** The indices of the pairs with `autoSync` set, in list order (`filter(pair => pair.autoSync)`). */
  function AutoSyncIndices(ps: seq<SyncPair>): (r: seq<nat>)
    ensures forall t | 0 <= t < |r| :: r[t] < |ps|
    decreases |ps|
  {
    if |ps| == 0 then []
    else AutoSyncIndices(ps[..|ps| - 1]) + (if ps[|ps| - 1].autoSync then [|ps| - 1] else [])
  }

  /** The selected indices are exactly the `autoSync` pairs, in increasing order. */
  lemma {:induction false} AutoSyncIndicesExact(ps: seq<SyncPair>)
    ensures var r := AutoSyncIndices(ps);
      (forall j | 0 <= j < |ps| :: j in r <==> ps[j].autoSync) &&
      (forall s, t | 0 <= s < t < |r| :: r[s] < r[t])
    decreases |ps|
  {
    if |ps| > 0 {
      var front := ps[..|ps| - 1];
      AutoSyncIndicesExact(front);
      forall j | 0 <= j < |front| ensures front[j] == ps[j] { }
    }
  }

  /** The selection depends only on configuration fields, which no engine transition writes. */
  lemma {:induction false} AutoSyncIndicesSameConfig(a: seq<SyncPair>, b: seq<SyncPair>)
    requires SameConfig(a, b)
    ensures AutoSyncIndices(a) == AutoSyncIndices(b)
    decreases |a|
  {
    if |a| > 0 {
      AutoSyncIndicesSameConfig(a[..|a| - 1], b[..|b| - 1]);
    }
  }

  /** Rewriting one entry without touching its `autoSync` flag keeps the selection. */
  lemma {:induction false} AutoSyncKept(ps: seq<SyncPair>, i: int, q: SyncPair)
    requires 0 <= i < |ps| && q.autoSync == ps[i].autoSync
    ensures AutoSyncIndices(ps[i := q]) == AutoSyncIndices(ps)
    decreases |ps|
  {
    var r := ps[i := q];
    if i < |ps| - 1 {
      assert r[..|r| - 1] == ps[..|ps| - 1][i := q];
      AutoSyncKept(ps[..|ps| - 1], i, q);
    } else {
      assert r[..|r| - 1] == ps[..|ps| - 1];
    }
  }

  /** The pairs a tick starts (src/index.js:761-764): those of the armed selection whose
      key is not registered and whose status is not `'syncing'`, read at tick time. */
  function TickReady(ps: seq<SyncPair>, keys: set<string>, idx: seq<nat>): (r: seq<nat>)
    ensures forall t | 0 <= t < |r| :: r[t] in idx
    decreases |idx|
  {
    if |idx| == 0 then []
    else
      var j := idx[|idx| - 1];
      TickReady(ps, keys, idx[..|idx| - 1]) +
        (if j < |ps| && PairKey(ps[j]) !in keys && ps[j].status != Syncing then [j] else [])
  }

  /** An index is ready at a tick exactly when its pair has `autoSync` set, its key is
      not registered and it is not marked `'syncing'`. */
  lemma TickReadyExact(ps: seq<SyncPair>, keys: set<string>, j: nat)
    ensures j in TickReady(ps, keys, AutoSyncIndices(ps)) <==>
      j < |ps| && ps[j].autoSync && PairKey(ps[j]) !in keys && ps[j].status != Syncing
  {
    AutoSyncIndicesExact(ps);
    TickReadyMember(ps, keys, AutoSyncIndices(ps), j);
  }

  lemma {:induction false} TickReadyMember(ps: seq<SyncPair>, keys: set<string>, idx: seq<nat>, j: nat)
    ensures j in TickReady(ps, keys, idx) <==>
      j in idx && j < |ps| && PairKey(ps[j]) !in keys && ps[j].status != Syncing
    decreases |idx|
  {
    if |idx| > 0 {
      var front := idx[..|idx| - 1];
      TickReadyMember(ps, keys, front, j);
      assert idx == front + [idx[|idx| - 1]];
    }
  }

  // ---------------------------------------------------------------------------
  // Cancelling everything

  /** The first index of `->` in `s`, or -1. */
  function ArrowAt(s: string): (r: int)
    ensures -1 <= r && r + 1 < |s| + (if r < 0 then 2 else 0)
    ensures r >= 0 ==> s[r] == '-' && s[r + 1] == '>' && forall i | 0 <= i < r :: !(s[i] == '-' && s[i + 1] == '>')
    ensures r == -1 ==> forall i | 0 <= i < |s| - 1 :: !(s[i] == '-' && s[i + 1] == '>')
    decreases |s|
  {
    if |s| < 2 then -1
    else if s[0] == '-' && s[1] == '>' then 0
    else
      var r := ArrowAt(s[1..]);
      if r < 0 then -1 else r + 1
  }

  /** `const [localPath, remotePath] = processId.split('->')`: the first two pieces; the
      second is absent (`undefined`) when the key holds no arrow. */
  function KeyPaths(k: string): (string, Option<string>) {
    var i := ArrowAt(k);
    if i < 0 then (k, None)
    else
      var rest := k[i + 2..];
      var j := ArrowAt(rest);
      (k[..i], Some(if j < 0 then rest else rest[..j]))
  }

  /** The entry `cancelAllSyncs` resets for key `k`, or -1 (an absent remote path matches no pair). */
  function CancelTarget(ps: seq<SyncPair>, k: string): (r: int)
    ensures -1 <= r < |ps|
  {
    match KeyPaths(k).1
    case None => -1
    case Some(remote) => FirstIndex(ps, KeyPaths(k).0, remote)
  }

  /** The list with every entry targeted by one of `keys` set to `'idle'`. */
  function IdleTargets(ps: seq<SyncPair>, keys: set<string>): (r: seq<SyncPair>)
    ensures |r| == |ps| && SameConfig(ps, r)
  {
    seq(|ps|, i requires 0 <= i < |ps| =>
      if exists k | k in keys :: CancelTarget(ps, k) == i then ps[i].(status := Idle) else ps[i])
  }

  lemma IdleTargetsNone(ps: seq<SyncPair>)
    ensures IdleTargets(ps, {}) == ps
  {
  }

  /** Handling one more key resets its target on the list built so far. */
  lemma IdleTargetsStep(ps: seq<SyncPair>, done: set<string>, k: string)
    ensures var q, i := IdleTargets(ps, done), CancelTarget(ps, k);
      IdleTargets(ps, done + {k}) == if i < 0 then q else q[i := q[i].(status := Idle)]
  {
    var q, i := IdleTargets(ps, done), CancelTarget(ps, k);
    var r := IdleTargets(ps, done + {k});
    forall t | 0 <= t < |ps| ensures r[t] == (if i < 0 then q else q[i := q[i].(status := Idle)])[t] {
      if t == i {
        assert CancelTarget(ps, k) == t;
      }
    }
  }

  predicate NoArrow(s: string) {
    forall i | 0 <= i < |s| - 1 :: !(s[i] == '-' && s[i + 1] == '>')
  }

  /** The first arrow of `l->r` is the one the key puts there, when `l` holds none. */
  lemma ArrowAtKey(l: string, r: string)
    requires NoArrow(l)
    ensures ArrowAt(Key(l, r)) == |l|
    ensures Key(l, r)[..|l|] == l && Key(l, r)[|l| + 2..] == r
  {
    var k := Key(l, r);
    assert k == l + "->" + r;
    assert k[|l|] == '-' && k[|l| + 1] == '>';
    forall t | 0 <= t < |l| ensures !(k[t] == '-' && k[t + 1] == '>') {
      if t < |l| - 1 {
        assert k[t] == l[t] && k[t + 1] == l[t + 1];
      } else {
        assert k[t + 1] == '-';
      }
    }
    assert k[|l| + 2..] == r;
    assert k[..|l|] == l;
  }

  /** A key built from arrow-free paths gives those paths back. */
  lemma KeyPathsOfKey(l: string, r: string)
    requires NoArrow(l) && NoArrow(r)
    ensures KeyPaths(Key(l, r)) == (l, Some(r))
  {
    ArrowAtKey(l, r);
  }

  /** A local path holding `->` is split at its own arrow, so cancelling everything
      looks for the wrong pair: the part before that arrow, and the part between the
      two arrows. */
  lemma KeyPathsLossy(a: string, b: string, c: string)
    requires NoArrow(a) && NoArrow(b)
    ensures KeyPaths(Key(a + "->" + b, c)) == (a, Some(b))
    ensures (a, Some(b)) != (a + "->" + b, Some(c))
  {
    var k := Key(a + "->" + b, c);
    assert k == Key(a, Key(b, c));
    ArrowAtKey(a, Key(b, c));
    ArrowAtKey(b, c);
    assert |a + "->" + b| != |a|;
  }

  /** The process key of a closure's pair. */
  function ClosureKey(c: Closure): string {
    Key(c.localPath, c.remotePath)
  }

  /** Dropping a key from the registry: its key set loses that key, and the clamped
      decrement keeps the counter equal to the number of keys when the key was there. */
  lemma DropKey(m: map<string, nat>, k: string, count: nat)
    ensures (m - {k}).Keys == m.Keys - {k}
    ensures k in m && count == |m.Keys| ==> Decrement(count) == |(m - {k}).Keys|
  {
    assert (m - {k}).Keys == m.Keys - {k};
    if k in m {
      assert m.Keys == (m.Keys - {k}) + {k};
    }
  }

  /** Registering a new key adds it to the key set and one to its size. */
  lemma AddKey(m: map<string, nat>, k: string, h: nat)
    requires k !in m
    ensures m[k := h].Keys == m.Keys + {k} && |m[k := h].Keys| == |m.Keys| + 1
  {
    assert m[k := h].Keys == m.Keys + {k};
  }

  /** Clearing the flag after the start is the start with the flag cleared. */
  lemma BeginClear(p: SyncPair, now: int)
    ensures Begin(p, now, false).(forceResync := false) == Begin(p, now, true)
  {
  }

  /** A start as the source performs it: the fields first, then the flag on the `--resync` path. */
  lemma StartOneSteps(ps: seq<SyncPair>, pair: SyncPair, now: int)
    ensures var i := FirstIndex(ps, pair.localPath, pair.remotePath);
      StartOne(ps, pair, now) ==
        if i < 0 then ps
        else
          var q := ps[i := Begin(ps[i], now, false)];
          if ClearsForce(pair) then q[i := q[i].(forceResync := false)] else q
  {
    var i := FirstIndex(ps, pair.localPath, pair.remotePath);
    if i >= 0 && ClearsForce(pair) {
      BeginClear(ps[i], now);
    }
  }

  /** Registering a discarded key matches no entry, so the tick's new keys are all new. */
  lemma TickKeysNew(ps: seq<SyncPair>, keys: set<string>, idx: seq<nat>)
    ensures KeysAt(ps, TickReady(ps, keys, idx)) !! keys
  {
    var r := TickReady(ps, keys, idx);
    forall k | k in KeysAt(ps, r) ensures k !in keys {
      var t :| 0 <= t < |r| && r[t] < |ps| && PairKey(ps[r[t]]) == k;
      TickReadyMember(ps, keys, idx, r[t]);
    }
  }

  /** Every spawned process has a handle below `next`. */
  ghost predicate HandlesBelow(spawned: map<nat, Closure>, next: nat) {
    forall h | h in spawned :: h < next
  }

  /** Each registered key names a spawned process of that key. */
  ghost predicate Registered(registry: map<string, nat>, spawned: map<nat, Closure>) {
    forall k | k in registry :: registry[k] in spawned && ClosureKey(spawned[registry[k]]) == k
  }

  lemma RegisteredDrop(registry: map<string, nat>, spawned: map<nat, Closure>, k: string)
    requires Registered(registry, spawned)
    ensures Registered(registry - {k}, spawned)
  {
  }

  /** A new process gets the next handle and is registered under its key. */
  lemma RegisteredSpawn(registry: map<string, nat>, spawned: map<nat, Closure>, next: nat, c: Closure)
    requires Registered(registry, spawned) && HandlesBelow(spawned, next)
    ensures Registered(registry[ClosureKey(c) := next], spawned[next := c])
    ensures HandlesBelow(spawned[next := c], next + 1)
  {
  }

  /** Replacing a process's carried parse state keeps its key. */
  lemma RegisteredCarry(registry: map<string, nat>, spawned: map<nat, Closure>, next: nat, h: nat, c: Carried)
    requires Registered(registry, spawned) && HandlesBelow(spawned, next) && h in spawned
    ensures Registered(registry, spawned[h := spawned[h].(carried := c)])
    ensures HandlesBelow(spawned[h := spawned[h].(carried := c)], next)
  {
  }

  /** The main process's engine state (`appState` of src/index.js:22-55, without windows and
      tray). `syncProcesses` maps each process key to the handle of its process,
      `spawned` keeps every process's closure, so late callbacks of a replaced or
      cancelled process still act, as in the source. `timerPairs` is the selection of
      `autoSync` entries that the armed timer captured. */
  class SyncEngine {
    var syncPairs: seq<SyncPair>
    var settings: Settings
    var syncProcesses: map<string, nat>
    var spawned: map<nat, Closure>
    var nextHandle: nat
    var activeSyncs: nat
    var timerArmed: bool
    var timerPeriod: int
    var timerPairs: seq<nat>

    /** Handles are allocated in order; a registered key names a process of that key;
        the armed timer's selection is the list's current `autoSync` selection. */
    ghost predicate Valid()
      reads this
    {
      HandlesBelow(spawned, nextHandle) && Registered(syncProcesses, spawned) &&
      (timerArmed ==> timerPairs == AutoSyncIndices(syncPairs))
    }

    /** The counter agrees with the registry. This holds only while every callback names
        a registered process; the source does not guard late events. */
    ghost predicate Lockstep()
      reads this
    {
      activeSyncs == |syncProcesses.Keys|
    }

    /** Nothing earlier is lost: every closure and every registration of the state
        (`s0`, `r0`, `n0`) is still there, unchanged, and handles only grow. */
    ghost predicate Keeps(s0: map<nat, Closure>, r0: map<string, nat>, n0: nat)
      reads this
    {
      n0 <= nextHandle &&
      (forall h | h in s0 :: h in spawned && spawned[h] == s0[h]) &&
      (forall k | k in r0 :: k in syncProcesses && syncProcesses[k] == r0[k])
    }

    /** The part of the state a sequence of starts acts on. */
    ghost function LaunchState(): Launch
      reads this
    {
      Launch(syncPairs, syncProcesses.Keys, activeSyncs)
    }

    /** The state after loading: the stored pairs, the loaded settings with the exclude
        file pointed at the application's filter file (src/index.js:119, 136), no process
        and no timer. */
    constructor (pairs: seq<SyncPair>, loaded: Settings, filterPath: string)
      ensures Valid() && Lockstep()
      ensures syncPairs == pairs && settings == loaded.(excludeFile := filterPath)
      ensures syncProcesses == map[] && spawned == map[] && activeSyncs == 0 && !timerArmed
    {
      syncPairs := pairs;
      settings := loaded.(excludeFile := filterPath);
      syncProcesses := map[];
      spawned := map[];
      nextHandle := 0;
      activeSyncs := 0;
      timerArmed := false;
      timerPeriod := 0;
      timerPairs := [];
    }

    /** `syncSinglePair` (src/index.js:465-571): nothing when the pair's key is registered;
        otherwise the first entry with the pair's paths begins, the counter rises by one,
        a new process is registered under the key, and `args` is its argument vector. */
    method SyncSinglePair(pair: SyncPair, s: Settings, files: set<string>, home: string, now: int)
      returns (started: bool, args: seq<string>)
      requires Valid()
      modifies this`syncPairs, this`syncProcesses, this`spawned, this`nextHandle, this`activeSyncs
      ensures Valid()
      ensures started <==> PairKey(pair) !in old(syncProcesses)
      ensures !started ==>
        syncPairs == old(syncPairs) && syncProcesses == old(syncProcesses) &&
        spawned == old(spawned) && nextHandle == old(nextHandle) && activeSyncs == old(activeSyncs) && args == []
      ensures started ==>
        syncPairs == StartOne(old(syncPairs), pair, now) &&
        syncProcesses == old(syncProcesses)[PairKey(pair) := old(nextHandle)] &&
        spawned == old(spawned)[old(nextHandle) := Closure(pair.localPath, pair.remotePath, Carried(0, 0, ""))] &&
        nextHandle == old(nextHandle) + 1 &&
        activeSyncs == old(activeSyncs) + 1 &&
        IsArgv(args, pair, s, files, home)
      ensures old(Lockstep()) ==> Lockstep()
    {
      var key := PairKey(pair);
      if key in syncProcesses {
        return false, [];
      }
      var i := FirstIndex(syncPairs, pair.localPath, pair.remotePath);
      if i >= 0 {
        SetEntry(i, Begin(syncPairs[i], now, false));
      }
      activeSyncs := activeSyncs + 1;
      args := PrepareRun(pair, i, s, files, home);
      StartOneSteps(old(syncPairs), pair, now);
      Spawn(pair.localPath, pair.remotePath);
      started := true;
    }

    /** A `syncSinglePair` call as one step of a loop over several pairs. */
    method Start(pair: SyncPair, s: Settings, files: set<string>, home: string, now: int)
      requires Valid()
      modifies this`syncPairs, this`syncProcesses, this`spawned, this`nextHandle, this`activeSyncs
      ensures Valid() && LaunchState() == StartStep(old(LaunchState()), pair, now)
      ensures Keeps(old(spawned), old(syncProcesses), old(nextHandle))
      ensures old(Lockstep()) ==> Lockstep()
    {
      var started, args := SyncSinglePair(pair, s, files, home, now);
      if started {
        assert syncProcesses.Keys == old(syncProcesses).Keys + {PairKey(pair)};
      }
    }

    /** The argument vector of a run (src/index.js:498-563), with the one-time resync
        flag of entry `i` cleared on the `--resync` path when the argument pair set it. */
    method PrepareRun(pair: SyncPair, i: int, s: Settings, files: set<string>, home: string)
      returns (args: seq<string>)
      requires Valid() && -1 <= i < |syncPairs|
      modifies this`syncPairs
      ensures Valid() && IsArgv(args, pair, s, files, home)
      ensures syncPairs == if i >= 0 && ClearsForce(pair)
                           then old(syncPairs)[i := old(syncPairs)[i].(forceResync := false)]
                           else old(syncPairs)
    {
      var resync;
      args, resync := BuildArgs(pair, s, files, home);
      if resync && i >= 0 && pair.forceResync {
        SetEntry(i, syncPairs[i].(forceResync := false));
      }
    }

    /** An assignment to fields of `syncPairs[i]` other than `autoSync`. */
    method SetEntry(i: int, q: SyncPair)
      requires Valid() && 0 <= i < |syncPairs| && q.autoSync == syncPairs[i].autoSync
      modifies this`syncPairs
      ensures Valid() && syncPairs == old(syncPairs)[i := q]
    {
      AutoSyncKept(syncPairs, i, q);
      syncPairs := syncPairs[i := q];
    }

    /** `spawn` followed by `syncProcesses.set(processId, syncProcess)`: a new process
        with a fresh handle and an empty parse state, registered under its key. */
    method Spawn(localPath: string, remotePath: string)
      requires Valid() && Key(localPath, remotePath) !in syncProcesses
      modifies this`syncProcesses, this`spawned, this`nextHandle
      ensures Valid()
      ensures syncProcesses == old(syncProcesses)[Key(localPath, remotePath) := old(nextHandle)]
      ensures spawned == old(spawned)[old(nextHandle) := Closure(localPath, remotePath, Carried(0, 0, ""))]
      ensures nextHandle == old(nextHandle) + 1
      ensures |syncProcesses.Keys| == |old(syncProcesses).Keys| + 1
    {
      var c := Closure(localPath, remotePath, Carried(0, 0, ""));
      RegisteredSpawn(syncProcesses, spawned, nextHandle, c);
      AddKey(syncProcesses, ClosureKey(c), nextHandle);
      spawned := spawned[nextHandle := c];
      syncProcesses := syncProcesses[ClosureKey(c) := nextHandle];
      nextHandle := nextHandle + 1;
    }

    /** `syncProcesses.delete(key)` and `activeSyncs = Math.max(0, activeSyncs - 1)`, the
        two steps every end of a process takes. */
    method Release(key: string)
      requires Valid()
      modifies this`syncProcesses, this`activeSyncs
      ensures Valid()
      ensures syncProcesses == old(syncProcesses) - {key} && activeSyncs == Decrement(old(activeSyncs))
      ensures old(Lockstep()) && key in old(syncProcesses) ==> Lockstep()
    {
      syncProcesses := syncProcesses - {key};
      activeSyncs := if activeSyncs > 0 then activeSyncs - 1 else 0;
      DropKey(old(syncProcesses), key, old(activeSyncs));
      RegisteredDrop(old(syncProcesses), spawned, key);
    }

    /** The output handler (src/index.js:573-627) for process `h`: it parses the chunk
        from the process's carried state, writes the result into the first entry with the
        process's paths (whatever that entry's status), keeps the new carried state, and
        returns the `syncProgress` event. */
    method OnOutput(h: nat, chunk: string) returns (ev: ProgressEvent)
      requires Valid() && h in spawned
      modifies this`syncPairs, this`spawned
      ensures Valid()
      ensures var c := old(spawned[h]); var snap := Parse(c.carried, chunk);
        spawned == old(spawned)[h := c.(carried := CarriedOf(snap))] &&
        syncPairs == UpdateFirstProgressed(old(syncPairs), c.localPath, c.remotePath, snap) &&
        ev == ProgressEvent(c.localPath, c.remotePath, snap.message, snap.percentage,
                            snap.transferredFiles, snap.totalFiles, snap.currentFile)
    {
      var c := spawned[h];
      var snap := ParseChunk(c.carried, chunk);
      RegisteredCarry(syncProcesses, spawned, nextHandle, h, CarriedOf(snap));
      spawned := spawned[h := c.(carried := CarriedOf(snap))];
      var i := FirstIndex(syncPairs, c.localPath, c.remotePath);
      if i >= 0 {
        AutoSyncKept(syncPairs, i, Progressed(syncPairs[i], snap));
        syncPairs := syncPairs[i := Progressed(syncPairs[i], snap)];
      }
      ev := ProgressEvent(c.localPath, c.remotePath, snap.message, snap.percentage,
                          snap.transferredFiles, snap.totalFiles, snap.currentFile);
    }

    /** The `close` handler (src/index.js:632-668) for process `h`: the key is dropped
        and the counter decremented without any check, then the first entry with the
        process's paths records the outcome. */
    method OnClose(h: nat, code: Option<int>, now: int)
      requires Valid() && h in spawned
      modifies this`syncPairs, this`syncProcesses, this`activeSyncs
      ensures Valid()
      ensures var c := spawned[h];
        syncProcesses == old(syncProcesses) - {ClosureKey(c)} &&
        activeSyncs == Decrement(old(activeSyncs)) &&
        syncPairs == UpdateFirstClosed(old(syncPairs), c.localPath, c.remotePath, code, now)
      ensures old(Lockstep()) && ClosureKey(spawned[h]) in old(syncProcesses) ==> Lockstep()
    {
      var c := spawned[h];
      var key := Key(c.localPath, c.remotePath);
      Release(key);
      var i := FirstIndex(syncPairs, c.localPath, c.remotePath);
      if i >= 0 {
        AutoSyncKept(syncPairs, i, Closed(syncPairs[i], code, now));
        syncPairs := syncPairs[i := Closed(syncPairs[i], code, now)];
      }
    }

    /** The `error` handler (src/index.js:670-699) for process `h`: as `close`, but
        the entry records the error message and keeps its file counts. */
    method OnError(h: nat, message: string)
      requires Valid() && h in spawned
      modifies this`syncPairs, this`syncProcesses, this`activeSyncs
      ensures Valid()
      ensures var c := spawned[h];
        syncProcesses == old(syncProcesses) - {ClosureKey(c)} &&
        activeSyncs == Decrement(old(activeSyncs)) &&
        syncPairs == UpdateFirstErrored(old(syncPairs), c.localPath, c.remotePath, message)
      ensures old(Lockstep()) && ClosureKey(spawned[h]) in old(syncProcesses) ==> Lockstep()
    {
      var c := spawned[h];
      var key := Key(c.localPath, c.remotePath);
      Release(key);
      var i := FirstIndex(syncPairs, c.localPath, c.remotePath);
      if i >= 0 {
        AutoSyncKept(syncPairs, i, Errored(syncPairs[i], message));
        syncPairs := syncPairs[i := Errored(syncPairs[i], message)];
      }
    }

    /** The `cancelSyncPair` request (src/index.js:361-389): on a registered key the
        key is dropped, the counter decremented (not below 0) and the first entry with
        the paths reset to `'idle'`; on an unregistered key nothing happens. */
    method CancelSyncPair(localPath: string, remotePath: string)
      requires Valid()
      modifies this`syncPairs, this`syncProcesses, this`activeSyncs
      ensures Valid()
      ensures var k := Key(localPath, remotePath);
        if k in old(syncProcesses) then
          syncProcesses == old(syncProcesses) - {k} && activeSyncs == Decrement(old(activeSyncs)) &&
          syncPairs == UpdateFirstCancelled(old(syncPairs), localPath, remotePath)
        else
          syncProcesses == old(syncProcesses) && activeSyncs == old(activeSyncs) && syncPairs == old(syncPairs)
      ensures old(Lockstep()) ==> Lockstep()
    {
      var key := Key(localPath, remotePath);
      if key in syncProcesses {
        Release(key);
        var i := FirstIndex(syncPairs, localPath, remotePath);
        if i >= 0 {
          AutoSyncKept(syncPairs, i, Cancelled(syncPairs[i]));
          syncPairs := syncPairs[i := Cancelled(syncPairs[i])];
        }
      }
    }

    /** `cancelAllSyncs` (src/index.js:708-729): every registered key's first entry, as
        recovered by splitting the key at `->`, becomes `'idle'` (no other field changes);
        then the registry is cleared and the counter set to 0. */
    method CancelAllSyncs()
      requires Valid()
      modifies this`syncPairs, this`syncProcesses, this`activeSyncs
      ensures Valid() && Lockstep()
      ensures syncProcesses == map[] && activeSyncs == 0
      ensures syncPairs == IdleTargets(old(syncPairs), old(syncProcesses).Keys)
    {
      IdleAll();
      AutoSyncIndicesSameConfig(old(syncPairs), syncPairs);
      syncProcesses := map[];
      activeSyncs := 0;
    }

    /** The loop of `cancelAllSyncs` over the registered keys, in any order. */
    method IdleAll()
      modifies this`syncPairs
      ensures syncPairs == IdleTargets(old(syncPairs), syncProcesses.Keys)
    {
      var remaining := syncProcesses.Keys;
      ghost var done: set<string> := {};
      IdleTargetsNone(syncPairs);
      while remaining != {}
        invariant remaining + done == syncProcesses.Keys && remaining !! done
        invariant syncPairs == IdleTargets(old(syncPairs), done)
        decreases |remaining|
      {
        var k :| k in remaining;
        IdleOne(old(syncPairs), done, k);
        remaining := remaining - {k};
        done := done + {k};
      }
    }

    /** The loop body of `cancelAllSyncs`: the first entry with the paths recovered from
        `k` becomes `'idle'`, when the key splits into two paths. */
    method IdleOne(ghost base: seq<SyncPair>, ghost done: set<string>, k: string)
      requires syncPairs == IdleTargets(base, done)
      modifies this`syncPairs
      ensures syncPairs == IdleTargets(base, done + {k})
    {
      var (l, r) := KeyPaths(k);
      if r.Some? {
        var i := FirstIndex(syncPairs, l, r.value);
        FirstIndexSameConfig(base, syncPairs, l, r.value);
        if i >= 0 {
          syncPairs := syncPairs[i := syncPairs[i].(status := Idle)];
        }
      }
      IdleTargetsStep(base, done, k);
    }

    /** `setupAutoSync` (src/index.js:732-773) without the callback: the old timer is
        always cleared; a new one is armed, with period `syncInterval` minutes in
        milliseconds, exactly when some pair has `autoSync`. */
    method SetupAutoSync()
      requires Valid()
      modifies this`timerArmed, this`timerPeriod, this`timerPairs
      ensures Valid()
      ensures timerArmed <==> exists i | 0 <= i < |syncPairs| :: syncPairs[i].autoSync
      ensures timerArmed ==> timerPeriod == settings.syncInterval * 60 * 1000 && timerPairs == AutoSyncIndices(syncPairs)
      ensures !timerArmed ==> timerPeriod == 0 && timerPairs == []
    {
      timerArmed, timerPeriod, timerPairs := false, 0, [];
      var autoSyncPairs := AutoSyncIndices(syncPairs);
      AutoSyncIndicesExact(syncPairs);
      if |autoSyncPairs| == 0 {
        return;
      }
      assert syncPairs[autoSyncPairs[0]].autoSync;
      timerArmed, timerPeriod, timerPairs := true, settings.syncInterval * 60 * 1000, autoSyncPairs;
    }

    /** One run of the timer callback (src/index.js:751-772): nothing while any sync is
        counted; otherwise the captured `autoSync` entries whose key is unregistered and
        whose status is not `'syncing'` are started in order, with the current settings. */
    method AutoSyncTick(files: set<string>, home: string, now: int) returns (ready: seq<nat>)
      requires Valid() && timerArmed
      modifies this`syncPairs, this`syncProcesses, this`spawned, this`nextHandle, this`activeSyncs
      ensures Valid()
      ensures old(activeSyncs) > 0 ==>
        ready == [] && syncPairs == old(syncPairs) &&
        syncProcesses == old(syncProcesses) && activeSyncs == old(activeSyncs) &&
        spawned == old(spawned) && nextHandle == old(nextHandle)
      ensures old(activeSyncs) == 0 ==>
        ready == TickReady(old(syncPairs), old(syncProcesses).Keys, old(timerPairs)) &&
        syncPairs == StartAt(Launch(old(syncPairs), old(syncProcesses).Keys, 0), ready, now).pairs &&
        syncProcesses.Keys == old(syncProcesses).Keys + KeysAt(old(syncPairs), ready) &&
        activeSyncs == |KeysAt(old(syncPairs), ready)|
      ensures Keeps(old(spawned), old(syncProcesses), old(nextHandle))
      ensures old(Lockstep()) ==> Lockstep()
    {
      if activeSyncs > 0 {
        return [];
      }
      ready := TickReady(syncPairs, syncProcesses.Keys, timerPairs);
      StartIndices(ready, files, home, now);
      TickEffect(old(syncPairs), old(syncProcesses).Keys, old(timerPairs), now);
    }

    /** `startInitialAutoSyncs` (src/index.js:836-850): every `autoSync` entry is started
        in list order with the current settings. */
    method StartInitialAutoSyncs(files: set<string>, home: string, now: int)
      requires Valid()
      modifies this`syncPairs, this`syncProcesses, this`spawned, this`nextHandle, this`activeSyncs
      ensures Valid()
      ensures var m := StartAt(Launch(old(syncPairs), old(syncProcesses).Keys, old(activeSyncs)),
                               AutoSyncIndices(old(syncPairs)), now);
        syncPairs == m.pairs && syncProcesses.Keys == m.keys && activeSyncs == m.started
      ensures Keeps(old(spawned), old(syncProcesses), old(nextHandle))
      ensures old(Lockstep()) ==> Lockstep()
    {
      StartIndices(AutoSyncIndices(syncPairs), files, home, now);
    }

    /** The shared loop: `syncSinglePair(pair, appState.settings)` for the live entry at
        each index in turn. */
    method StartIndices(idx: seq<nat>, files: set<string>, home: string, now: int)
      requires Valid()
      modifies this`syncPairs, this`syncProcesses, this`spawned, this`nextHandle, this`activeSyncs
      ensures Valid()
      ensures var m := StartAt(Launch(old(syncPairs), old(syncProcesses).Keys, old(activeSyncs)), idx, now);
        syncPairs == m.pairs && syncProcesses.Keys == m.keys && activeSyncs == m.started
      ensures Keeps(old(spawned), old(syncProcesses), old(nextHandle))
      ensures old(Lockstep()) ==> Lockstep()
    {
      ghost var l0 := LaunchState();
      var t := 0;
      while t < |idx|
        invariant 0 <= t <= |idx| && Valid()
        invariant Keeps(old(spawned), old(syncProcesses), old(nextHandle))
        invariant LaunchState() == StartAt(l0, idx[..t], now)
        invariant old(Lockstep()) ==> Lockstep()
      {
        assert idx[..t + 1][..t] == idx[..t];
        var j := idx[t];
        if j < |syncPairs| {
          Start(syncPairs[j], settings, files, home, now);
        }
        t := t + 1;
      }
      assert idx[..t] == idx;
    }

    /** `syncAllPairs` (src/index.js:702-706) over the pair values of a request. */
    method SyncAllPairs(batch: seq<SyncPair>, s: Settings, files: set<string>, home: string, now: int)
      requires Valid()
      modifies this`syncPairs, this`syncProcesses, this`spawned, this`nextHandle, this`activeSyncs
      ensures Valid()
      ensures var m := StartAll(Launch(old(syncPairs), old(syncProcesses).Keys, old(activeSyncs)), batch, now);
        syncPairs == m.pairs && syncProcesses.Keys == m.keys && activeSyncs == m.started
      ensures syncProcesses.Keys == old(syncProcesses).Keys + KeysOf(batch)
      ensures activeSyncs == old(activeSyncs) + |KeysOf(batch) - old(syncProcesses).Keys|
      ensures Keeps(old(spawned), old(syncProcesses), old(nextHandle))
      ensures old(Lockstep()) ==> Lockstep()
    {
      ghost var l0 := LaunchState();
      var t := 0;
      while t < |batch|
        invariant 0 <= t <= |batch| && Valid()
        invariant Keeps(old(spawned), old(syncProcesses), old(nextHandle))
        invariant LaunchState() == StartAll(l0, batch[..t], now)
        invariant old(Lockstep()) ==> Lockstep()
      {
        assert batch[..t + 1][..t] == batch[..t];
        Start(batch[t], s, files, home, now);
        t := t + 1;
      }
      assert batch[..t] == batch;
      StartAllEffect(l0, batch, now);
    }

    /** The `saveSyncPairs` request (src/index.js:296-301): the list is replaced and the
        timer set up again. */
    method ReplaceSyncPairs(pairs: seq<SyncPair>)
      requires Valid()
      modifies this`syncPairs, this`timerArmed, this`timerPeriod, this`timerPairs
      ensures Valid() && syncPairs == pairs
      ensures timerArmed <==> exists i | 0 <= i < |pairs| :: pairs[i].autoSync
      ensures timerArmed ==> timerPeriod == settings.syncInterval * 60 * 1000 && timerPairs == AutoSyncIndices(pairs)
    {
      syncPairs := pairs;
      timerArmed := false;
      SetupAutoSync();
    }

    /** The `saveSettings` request (src/index.js:309-313): the settings are replaced
        wholesale and the timer set up again. */
    method ReplaceSettings(s: Settings)
      requires Valid()
      modifies this`settings, this`timerArmed, this`timerPeriod, this`timerPairs
      ensures Valid() && settings == s
      ensures timerArmed <==> exists i | 0 <= i < |syncPairs| :: syncPairs[i].autoSync
      ensures timerArmed ==> timerPeriod == s.syncInterval * 60 * 1000 && timerPairs == AutoSyncIndices(syncPairs)
    {
      settings := s;
      SetupAutoSync();
    }
  }
}
