/** The list and arithmetic logic of the renderer (src/renderer.js), without the DOM:
    the pair list as the window edits it, the form values as parameters, the
    requests it sends to the main process as returned values, the kept-latest sync
    log, the settings dialog's interval conversion, the remote-folder browser's path
    arithmetic and the status maps. `confirm` answers are boolean parameters. */
module Renderer {
  import opened Text
  import opened Pairs
  import opened Args

  // ---------------------------------------------------------------------------
  // Status maps (src/renderer.js:323-341)

  /** `getStatusClass`: the class of the four known statuses is `status-` followed by
      the status; anything else gets the idle class. */
  function StatusClass(status: string): (r: string)
    ensures status in {Idle, Syncing, Success, Error} ==> r == "status-" + status
    ensures status !in {Idle, Syncing, Success, Error} ==> r == "status-idle"
  {
    if status == Idle then "status-idle"
    else if status == Syncing then "status-syncing"
    else if status == Success then "status-success"
    else if status == Error then "status-error"
    else "status-idle"
  }

  const UnknownStatus := "Unknown status"

  /** `getStatusText`. */
  function StatusText(status: string): (r: string) {
    if status == Idle then "Ready to sync"
    else if status == Syncing then "Syncing..."
    else if status == Success then "Last sync successful"
    else if status == Error then "Sync failed"
    else UnknownStatus
  }

  /** Both maps fall back exactly on the statuses the code never writes, and the texts
      of the four known statuses are pairwise distinct. */
  lemma StatusMapsAgree(status: string)
    ensures StatusText(status) == UnknownStatus <==> status !in {Idle, Syncing, Success, Error}
    ensures StatusText(status) != UnknownStatus ==> StatusClass(status) == "status-" + status
    ensures forall a, b | a in {Idle, Syncing, Success, Error} && b in {Idle, Syncing, Success, Error} ::
              StatusText(a) == StatusText(b) ==> a == b
  {
  }

  // ---------------------------------------------------------------------------
  // Interval conversion (src/renderer.js:393-402, 518-522)

  /** The number field and the unit select (1 for minutes, 60 for hours). */
  datatype IntervalField = IntervalField(value: int, unit: int)

  /** `appState.settings.syncInterval || 60`: 0 stands for the default hour. */
  function StoredInterval(minutes: int): int {
    if minutes == 0 then 60 else minutes
  }

  /** `populateSettingsForm`'s split: whole hours are shown in hours, anything else
      in minutes; the field times its unit is the stored interval. */
  function DisplayInterval(minutes: int): (f: IntervalField)
    ensures var m := StoredInterval(minutes);
      (f.unit == 60 <==> m >= 60 && m % 60 == 0) &&
      (f.unit == 1 || f.unit == 60) &&
      f.value * f.unit == m
  {
    var m := StoredInterval(minutes);
    if m >= 60 && m % 60 == 0 then IntervalField(m / 60, 60) else IntervalField(m, 1)
  }

  /** `saveSettings`: `intervalValue * intervalUnit` minutes. */
  function SaveInterval(f: IntervalField): int {
    f.value * f.unit
  }

  /** A positive amount saved in either unit is shown again as entered, except that a
      whole number of hours entered in minutes is shown in hours. */
  lemma IntervalRedisplay(f: IntervalField)
    requires (f.unit == 1 || f.unit == 60) && f.value >= 1
    ensures DisplayInterval(SaveInterval(f)) ==
      if f.unit == 1 && f.value % 60 == 0 then IntervalField(f.value / 60, 60) else f
  {
    var m := SaveInterval(f);
    if f.unit == 60 {
      assert m == 60 * f.value && m % 60 == 0 && m / 60 == f.value;
    }
  }

  // ---------------------------------------------------------------------------
  // Settings dialog (src/renderer.js:393-413, 518-539)

  /** The values of the settings form. */
  datatype SettingsForm = SettingsForm(interval: IntervalField, useExcludeFile: bool, transfers: int,
                                       checkers: int, startMinimized: bool, closeToTray: bool)

  /** `transfers || 14` and `checkers || 14`. */
  function OrFourteen(n: int): int {
    if n == 0 then 14 else n
  }

  /** `populateSettingsForm`. */
  function PopulateSettingsForm(s: Settings): SettingsForm {
    SettingsForm(DisplayInterval(s.syncInterval), s.useExcludeFile, OrFourteen(s.transfers),
                 OrFourteen(s.checkers), s.startMinimized, s.closeToTray)
  }

  /** The settings object `saveSettings` builds, as written: every field from the form
      and the filter text, and no `excludeFile`. */
  function SettingsFromFormAsWritten(f: SettingsForm, filterText: string): (r: Settings)
    ensures r.excludeFile == ""
  {
    Settings(SaveInterval(f.interval), "", f.useExcludeFile, f.transfers, f.checkers,
             f.startMinimized, f.closeToTray, filterText)
  }

  /** The settings object with the filter file reference carried over from the current
      settings, as the main process needs it to keep filtering. */
  function SettingsFromForm(current: Settings, f: SettingsForm, filterText: string): (r: Settings)
    ensures r.excludeFile == current.excludeFile
  {
    SettingsFromFormAsWritten(f, filterText).(excludeFile := current.excludeFile)
  }

  /** As written, saving the dialog without touching it turns off a filter that was in
      use, for every run after the save. */
  lemma SaveUnchangedDropsFilter(s: Settings, files: set<string>)
    requires UsesFilter(s, files)
    ensures var saved := SettingsFromFormAsWritten(PopulateSettingsForm(s), s.rcloneFilter);
      saved != s && !UsesFilter(saved, files) && saved.useExcludeFile
  {
  }

  /** With the reference carried over, saving the dialog without touching it changes only
      the zero fields that the form shows with their defaults, and filtering goes on
      exactly as before. */
  lemma SaveUnchangedKeepsSettings(s: Settings, files: set<string>)
    ensures var saved := SettingsFromForm(s, PopulateSettingsForm(s), s.rcloneFilter);
      saved == s.(syncInterval := StoredInterval(s.syncInterval), transfers := OrFourteen(s.transfers),
                  checkers := OrFourteen(s.checkers)) &&
      (UsesFilter(saved, files) <==> UsesFilter(s, files))
  {
    var f := DisplayInterval(s.syncInterval);
    assert SaveInterval(f) == StoredInterval(s.syncInterval);
  }

  // ---------------------------------------------------------------------------
  // The pair form (src/renderer.js:348-375, 423-470)

  /** The values of the pair form. */
  datatype PairForm = PairForm(localFolder: string, remoteFolder: string, autoSync: bool,
                               syncType: string, forceResync: bool)

  const EmptyForm := PairForm("", "", false, "sync", false)

  /** The form as `openSyncPairModal` fills it for an existing pair. */
  function FormOf(p: SyncPair): PairForm {
    PairForm(p.localPath, p.remotePath, p.autoSync, if p.syncType == "" then "sync" else p.syncType,
             p.forceResync)
  }

  /** The record `saveSyncPair` builds from the form. */
  function NewPair(f: PairForm): (p: SyncPair)
    ensures p.status == Idle && p.lastSync == None && p.currentProgress == 0 && p.currentFile == ""
    ensures p.transferredFiles == 0 && p.totalFiles == 0 && p.lastSyncStart == None && p.lastError == None
    ensures p.localPath == Trim(f.localFolder) && p.remotePath == Trim(f.remoteFolder)
    ensures p.autoSync == f.autoSync && p.syncType == f.syncType && p.forceResync == f.forceResync
  {
    SyncPair(Trim(f.localFolder), Trim(f.remoteFolder), f.autoSync, f.syncType, f.forceResync,
             Idle, None, None, None, 0, "", 0, 0)
  }

  /** The record that replaces an edited entry: the new record, with the run-time fields
      of a running entry copied over, and the old entry's `lastSync` kept. */
  function Edited(old_: SyncPair, f: PairForm): SyncPair {
    var n := NewPair(f);
    var m := if old_.status == Syncing
             then n.(status := old_.status, currentProgress := old_.currentProgress,
                     currentFile := old_.currentFile, transferredFiles := old_.transferredFiles,
                     totalFiles := old_.totalFiles)
             else n;
    m.(lastSync := old_.lastSync)
  }

  /** An edit takes the configuration from the form and keeps the last sync time; a
      running entry keeps its progress, any other entry restarts as idle; the start time
      and the last error are dropped. */
  lemma EditedFields(e: SyncPair, f: PairForm)
    ensures var q := Edited(e, f);
      q.localPath == Trim(f.localFolder) && q.remotePath == Trim(f.remoteFolder) &&
      q.autoSync == f.autoSync && q.syncType == f.syncType && q.forceResync == f.forceResync &&
      q.lastSync == e.lastSync && q.lastSyncStart == None && q.lastError == None &&
      (e.status == Syncing ==>
         q.status == Syncing && q.currentProgress == e.currentProgress && q.currentFile == e.currentFile &&
         q.transferredFiles == e.transferredFiles && q.totalFiles == e.totalFiles) &&
      (e.status != Syncing ==>
         q.status == Idle && q.currentProgress == 0 && q.currentFile == "" &&
         q.transferredFiles == 0 && q.totalFiles == 0)
  {
  }

  /** Opening an entry for editing and saving the form untouched keeps its configuration
      and history; the entry loses its start time and last error, and restarts as idle
      unless it is running. */
  lemma EditUntouched(p: SyncPair)
    requires Trim(p.localPath) == p.localPath && Trim(p.remotePath) == p.remotePath && p.syncType != ""
    ensures Edited(p, FormOf(p)) ==
      var q := p.(lastSyncStart := None, lastError := None);
      if p.status == Syncing then q
      else q.(status := Idle, currentProgress := 0, currentFile := "", transferredFiles := 0, totalFiles := 0)
  {
  }

  // ---------------------------------------------------------------------------
  // Deleting (src/renderer.js:476-482)

  /** `Array.prototype.splice(index, 1)` on a list value: a negative index counts from the
      end (clamped to 0), an index at or past the end removes nothing. */
  function SpliceOne<T>(s: seq<T>, index: int): (r: seq<T>)
  {
    var start := if index < 0 then (if |s| + index < 0 then 0 else |s| + index)
                 else (if index > |s| then |s| else index);
    if start < |s| then s[..start] + s[start + 1..] else s
  }

  /** Removing an index in range removes exactly that entry and keeps the others in
      order; `-1` removes the last entry; an index past the end removes nothing. */
  lemma SpliceOneRemoves<T>(s: seq<T>, index: int)
    ensures 0 <= index < |s| ==>
      var r := SpliceOne(s, index);
      |r| == |s| - 1 &&
      (forall j | 0 <= j < index :: r[j] == s[j]) &&
      (forall j | index <= j < |r| :: r[j] == s[j + 1])
    ensures |s| > 0 ==> SpliceOne(s, -1) == s[..|s| - 1]
    ensures index >= |s| ==> SpliceOne(s, index) == s
  {
    if |s| > 0 {
      assert s[|s|..] == [];
    }
  }

  // ---------------------------------------------------------------------------
  // Selecting the "sync all" set (src/renderer.js:499-511)

  /** `syncPairs.filter(pair => pair.status !== 'syncing')` as indices into the list. */
  function ReadyIndices(ps: seq<SyncPair>): (r: seq<nat>)
    ensures forall t | 0 <= t < |r| :: r[t] < |ps|
    decreases |ps|
  {
    if |ps| == 0 then []
    else ReadyIndices(ps[..|ps| - 1]) + (if ps[|ps| - 1].status != Syncing then [|ps| - 1] else [])
  }

  /** The selection is exactly the entries not marked `'syncing'`, in list order. */
  lemma {:induction false} ReadyIndicesExact(ps: seq<SyncPair>)
    ensures var r := ReadyIndices(ps);
      (forall j | 0 <= j < |ps| :: j in r <==> ps[j].status != Syncing) &&
      (forall s, t | 0 <= s < t < |r| :: r[s] < r[t])
    decreases |ps|
  {
    if |ps| > 0 {
      var front := ps[..|ps| - 1];
      ReadyIndicesExact(front);
      forall j | 0 <= j < |front| ensures front[j] == ps[j] { }
    }
  }

  /** `readyPairs.forEach(pair => pair.status = 'syncing')` over the first indices. */
  function MarkAt(ps: seq<SyncPair>, idx: seq<nat>): (r: seq<SyncPair>)
    ensures |r| == |ps|
    decreases |idx|
  {
    if |idx| == 0 then ps
    else
      var m := MarkAt(ps, idx[..|idx| - 1]);
      var j := idx[|idx| - 1];
      if j < |m| then m[j := m[j].(status := Syncing)] else m
  }

  /** Marking sets the status of exactly the listed entries. */
  lemma {:induction false} MarkAtEntries(ps: seq<SyncPair>, idx: seq<nat>)
    ensures forall k | 0 <= k < |ps| ::
      MarkAt(ps, idx)[k] == if k in idx then ps[k].(status := Syncing) else ps[k]
    decreases |idx|
  {
    if |idx| > 0 {
      var front := idx[..|idx| - 1];
      MarkAtEntries(ps, front);
      assert idx == front + [idx[|idx| - 1]];
    }
  }

  /** After marking the ready entries every entry is `'syncing'` and nothing else changed. */
  lemma MarkReadyAll(ps: seq<SyncPair>)
    ensures forall k | 0 <= k < |ps| :: MarkAt(ps, ReadyIndices(ps))[k] == ps[k].(status := Syncing)
  {
    MarkAtEntries(ps, ReadyIndices(ps));
    ReadyIndicesExact(ps);
  }

  // ---------------------------------------------------------------------------
  // Sync log (src/renderer.js:201-214, 637-664)

  /** The cap on log entries. */
  const MaxLogEntries := 1000

  datatype LogEntry = LogEntry(localPath: string, remotePath: string, message: string, timestamp: int)

  /** `if (log.length > 1000) log = log.slice(-1000)`: the most recent entries, at most 1000. */
  function KeepLast(log: seq<LogEntry>): (r: seq<LogEntry>)
    ensures |r| == if |log| > MaxLogEntries then MaxLogEntries else |log|
    ensures r == log[|log| - |r|..]
  {
    if |log| > MaxLogEntries then log[|log| - MaxLogEntries..] else log
  }

  /** Trimming before appending one entry and trimming again is trimming once. */
  lemma KeepLastAppend(log: seq<LogEntry>, e: LogEntry)
    ensures KeepLast(KeepLast(log) + [e]) == KeepLast(log + [e])
  {
    if |log| > MaxLogEntries {
      var k := log[|log| - MaxLogEntries..];
      assert (k + [e])[1..] == log[|log| - MaxLogEntries + 1..] + [e];
      assert (log + [e])[|log| + 1 - MaxLogEntries..] == log[|log| - MaxLogEntries + 1..] + [e];
    }
  }

  /** The log after a sequence of `syncProgress` events. */
  function LogAfter(log: seq<LogEntry>, events: seq<LogEntry>): seq<LogEntry>
    decreases |events|
  {
    if |events| == 0 then log
    else KeepLast(LogAfter(log, events[..|events| - 1]) + [events[|events| - 1]])
  }

  /** However many events arrive, the log holds the most recent 1000 of everything it has
      seen, in arrival order. */
  lemma {:induction false} LogAfterKeepsLatest(log: seq<LogEntry>, events: seq<LogEntry>)
    requires |log| <= MaxLogEntries
    ensures LogAfter(log, events) == KeepLast(log + events)
    decreases |events|
  {
    if |events| > 0 {
      var front, e := events[..|events| - 1], events[|events| - 1];
      var prev := LogAfter(log, front);
      assert LogAfter(log, events) == KeepLast(prev + [e]);
      LogAfterKeepsLatest(log, front);
      KeepLastAppend(log + front, e);
      assert events == front + [e];
      assert log + front + [e] == log + events;
    }
  }

  /** `syncLogData.filter(...)` for one pair's paths. */
  function LogFor(log: seq<LogEntry>, localPath: string, remotePath: string): (r: seq<LogEntry>)
    ensures forall t | 0 <= t < |r| :: r[t].localPath == localPath && r[t].remotePath == remotePath
    decreases |log|
  {
    if |log| == 0 then []
    else
      var e := log[|log| - 1];
      LogFor(log[..|log| - 1], localPath, remotePath)
        + (if e.localPath == localPath && e.remotePath == remotePath then [e] else [])
  }

  /** An entry is shown exactly when it is in the log with the pair's paths. */
  lemma {:induction false} LogForMember(log: seq<LogEntry>, localPath: string, remotePath: string, e: LogEntry)
    ensures e in LogFor(log, localPath, remotePath) <==>
      e in log && e.localPath == localPath && e.remotePath == remotePath
    decreases |log|
  {
    if |log| > 0 {
      var front := log[..|log| - 1];
      LogForMember(front, localPath, remotePath, e);
      assert log == front + [log[|log| - 1]];
    }
  }

  /** The filter keeps the log's order: filtering two stretches of the log one after the
      other is filtering their concatenation. */
  lemma {:induction false} LogForAppend(a: seq<LogEntry>, b: seq<LogEntry>, localPath: string, remotePath: string)
    ensures LogFor(a + b, localPath, remotePath) == LogFor(a, localPath, remotePath) + LogFor(b, localPath, remotePath)
    decreases |b|
  {
    if |b| > 0 {
      var front := b[..|b| - 1];
      LogForAppend(a, front, localPath, remotePath);
      assert (a + b)[..|a + b| - 1] == a + front;
    } else {
      assert a + b == a;
    }
  }

  // ---------------------------------------------------------------------------
  // Remote browsing (src/renderer.js:361, 549-576)

  /** `dir.split('/').slice(0, -1).join('/')`. */
  function ParentDir(dir: string): string {
    var parts := Split(dir, '/');
    Join(parts[..|parts| - 1], '/')
  }

  /** The last `/` segment. */
  function LastSegment(dir: string): string {
    var parts := Split(dir, '/');
    parts[|parts| - 1]
  }

  /** A dir without `/` has the root as parent; any other dir is its parent, a `/` and its
      last segment, which holds no `/`. */
  lemma ParentDirSplit(dir: string)
    ensures '/' !in LastSegment(dir)
    ensures '/' !in dir ==> ParentDir(dir) == ""
    ensures '/' in dir ==> dir == ParentDir(dir) + "/" + LastSegment(dir)
  {
    var parts := Split(dir, '/');
    JoinSplit(dir, '/');
    if |parts| >= 2 {
      JoinLast(parts, '/');
      assert '/' in dir by {
        assert dir[|Join(parts[..|parts| - 1], '/')|] == '/';
      }
    } else {
      assert dir == parts[0];
    }
  }

  /** The path a click on folder `name` opens: `${currentRemoteDir}/${name}`, or `name` at the root. */
  function ChildPath(dir: string, name: string): string {
    if dir != "" then dir + "/" + name else name
  }

  /** Going into a folder and then back returns to where the browser was. */
  lemma ParentOfChild(dir: string, name: string)
    requires '/' !in name
    ensures ParentDir(ChildPath(dir, name)) == dir
  {
    SplitNone(name, '/');
    if dir != "" {
      SplitConcat(dir, name, '/');
      var parts := Split(dir, '/') + [name];
      assert parts[..|parts| - 1] == Split(dir, '/');
      JoinSplit(dir, '/');
    }
  }

  lemma {:induction false} SplitNone(s: string, c: char)
    requires c !in s
    ensures Split(s, c) == [s]
    decreases |s|
  {
    if |s| > 0 {
      SplitNone(s[1..], c);
      assert [s[0]] + s[1..] == s;
    }
  }

  /** Splitting at one more separator splits both sides. */
  lemma {:induction false} SplitConcat(a: string, b: string, c: char)
    ensures Split(a + [c] + b, c) == Split(a, c) + Split(b, c)
    decreases |a|
  {
    var s := a + [c] + b;
    if |a| == 0 {
      assert s == [c] + b && s[1..] == b;
    } else {
      assert s[1..] == a[1..] + [c] + b;
      SplitConcat(a[1..], b, c);
    }
  }

  /** Where the last whitespace-separated token of a string begins: after the last
      whitespace character, or at 0. */
  function TokenStart(s: string): (k: nat)
    ensures k <= |s|
    ensures forall i | k <= i < |s| :: !IsSpace(s[i])
    ensures k > 0 ==> IsSpace(s[k - 1])
    decreases |s|
  {
    if |s| == 0 || IsSpace(s[|s| - 1]) then |s| else TokenStart(s[..|s| - 1])
  }

  /** The last whitespace-separated token, as `s.split(/\s+/)` ends. */
  function LastToken(s: string): string {
    s[TokenStart(s)..]
  }

  /** The name `renderRemoteFolders` shows for one line of `rclone lsd` output. */
  function FolderName(line: string): string {
    LastToken(Trim(line))
  }

  /** `lines.map(...).filter(name => name && name !== '')`. */
  function FolderNamesOf(lines: seq<string>): (r: seq<string>)
    ensures forall t | 0 <= t < |r| :: r[t] != ""
    decreases |lines|
  {
    if |lines| == 0 then []
    else (if FolderName(lines[0]) != "" then [FolderName(lines[0])] else []) + FolderNamesOf(lines[1..])
  }

  /** The folder names of a listing: `data.trim().split('\n')` and then the names of the lines. */
  function FolderNames(data: string): seq<string> {
    FolderNamesOf(Split(Trim(data), '\n'))
  }

  /** A name is listed exactly when some line ends in it after its last whitespace. */
  lemma {:induction false} FolderNamesMember(lines: seq<string>, name: string)
    requires name != ""
    ensures name in FolderNamesOf(lines) <==> exists j | 0 <= j < |lines| :: FolderName(lines[j]) == name
    decreases |lines|
  {
    if |lines| > 0 {
      var head, rest := FolderName(lines[0]), lines[1..];
      assert FolderNamesOf(lines) == (if head != "" then [head] else []) + FolderNamesOf(rest);
      FolderNamesMember(rest, name);
      if name in FolderNamesOf(lines) && head != name {
        var j :| 0 <= j < |rest| && FolderName(rest[j]) == name;
        assert lines[j + 1] == rest[j];
      }
      if exists j | 0 <= j < |lines| :: FolderName(lines[j]) == name {
        var j :| 0 <= j < |lines| && FolderName(lines[j]) == name;
        if j > 0 {
          assert rest[j - 1] == lines[j];
        }
      }
    }
  }

  /** The name shown for a line is the word after its last whitespace: a folder whose name
      holds a space is shown, and opened, by its last word only. */
  lemma FolderNameLastWord(pre: string, word: string)
    requires |word| > 0 && forall i | 0 <= i < |word| :: !IsSpace(word[i])
    requires |pre| == 0 || IsSpace(pre[|pre| - 1])
    ensures FolderName(pre + word) == word
  {
    var u := TrimStartBeforeWord(pre, word);
    TrimEndKeeps(u, word);
    TokenStartAfterSpace(u, word);
  }

  /** Trimming the front of a line that ends in a word after whitespace leaves a
      shorter whitespace-ended prefix before the word. */
  lemma TrimStartBeforeWord(pre: string, word: string) returns (u: string)
    requires |word| > 0 && !IsSpace(word[0])
    requires |pre| == 0 || IsSpace(pre[|pre| - 1])
    ensures TrimStart(pre + word) == u + word
    ensures |u| == 0 || IsSpace(u[|u| - 1])
  {
    var line := pre + word;
    var t := TrimStart(line);
    TrimStartStops(pre, word);
    var d := |line| - |t|;
    DropInPrefix(pre, word, d);
    u := pre[d..];
  }

  /** Dropping part of the prefix keeps the word and the prefix's last character. */
  lemma DropInPrefix(pre: string, word: string, d: nat)
    requires d <= |pre|
    ensures (pre + word)[d..] == pre[d..] + word
    ensures |pre[d..]| == 0 || pre[d..][|pre[d..]| - 1] == pre[|pre| - 1]
  {
  }

  lemma {:induction false} TrimStartStops(pre: string, word: string)
    requires |word| > 0 && !IsSpace(word[0])
    ensures |TrimStart(pre + word)| >= |word|
    decreases |pre|
  {
    if |pre| > 0 {
      assert (pre + word)[1..] == pre[1..] + word;
      TrimStartStops(pre[1..], word);
    } else {
      assert pre + word == word;
    }
  }

  lemma TrimEndKeeps(u: string, word: string)
    requires |word| > 0 && !IsSpace(word[|word| - 1])
    ensures TrimEnd(u + word) == u + word
  {
    assert (u + word)[|u + word| - 1] == word[|word| - 1];
  }

  /** The last token of a string that ends in a word after whitespace (or nothing) is
      that word. */
  lemma {:induction false} TokenStartAfterSpace(u: string, word: string)
    requires forall i | 0 <= i < |word| :: !IsSpace(word[i])
    requires |u| == 0 || IsSpace(u[|u| - 1])
    ensures TokenStart(u + word) == |u|
    ensures LastToken(u + word) == word
    decreases |word|
  {
    var s := u + word;
    if |word| > 0 {
      assert s[..|s| - 1] == u + word[..|word| - 1];
      TokenStartAfterSpace(u, word[..|word| - 1]);
      assert s[|s| - 1] == word[|word| - 1];
    } else {
      assert s == u;
    }
  }

  // ---------------------------------------------------------------------------
  // Requests to the main process

  datatype Request =
    | SavePairs(pairs: seq<SyncPair>)
    | StartPair(pair: SyncPair, settings: Settings)
    | CancelPair(localPath: string, remotePath: string)
    | StartAll(pairs: seq<SyncPair>, settings: Settings)
    | CancelAll
    | GetDirs(dir: string)
    | SaveFilter(content: string)
    | SaveSettings(settings: Settings)

  /** The defaults the window starts with (src/renderer.js:2-15). */
  const DefaultSettings := Settings(60, "", true, 14, 14, false, true, "")

  // ---------------------------------------------------------------------------
  // The window's state

  /** The renderer's `appState` and `syncLogData` (src/renderer.js:2-15, 637). */
  class RendererState {
    var syncPairs: seq<SyncPair>
    var currentRemoteDir: string
    var isEditing: bool
    var editingIndex: int
    var settings: Settings
    var syncLog: seq<LogEntry>

    /** The log stays within its cap; the modal edits exactly when it has an index. */
    ghost predicate Valid()
      reads this
    {
      |syncLog| <= MaxLogEntries && (isEditing <==> editingIndex >= 0)
    }

    constructor ()
      ensures Valid()
      ensures syncPairs == [] && currentRemoteDir == "" && !isEditing && editingIndex == -1
      ensures settings == DefaultSettings && syncLog == []
    {
      syncPairs := [];
      currentRemoteDir := "";
      isEditing := false;
      editingIndex := -1;
      settings := DefaultSettings;
      syncLog := [];
    }

    /** `syncPairsLoaded` (src/renderer.js:161-164): the main process's list replaces
        the window's; nothing else changes. */
    method SyncPairsLoaded(data: seq<SyncPair>)
      requires Valid()
      modifies this`syncPairs
      ensures Valid() && syncPairs == data
    {
      syncPairs := data;
    }

    /** `settingsLoaded` (src/renderer.js:166-169): the main process's settings, which
        hold every field, replace the window's. */
    method SettingsLoaded(data: Settings)
      requires Valid()
      modifies this`settings
      ensures Valid() && settings == data
    {
      settings := data;
    }

    /** `openSyncPairModal` (src/renderer.js:348-375): edits entry `editIndex` when it is
        not negative, else adds; fills the form and moves the browser to the parent of
        the entry's remote path (or the root), whose listing it requests. */
    method OpenSyncPairModal(editIndex: int) returns (form: PairForm, sent: seq<Request>)
      requires Valid() && editIndex < |syncPairs|
      modifies this`isEditing, this`editingIndex, this`currentRemoteDir
      ensures Valid() && isEditing == (editIndex >= 0) && editingIndex == editIndex
      ensures editIndex >= 0 ==>
        form == FormOf(syncPairs[editIndex]) && currentRemoteDir == ParentDir(syncPairs[editIndex].remotePath)
      ensures editIndex < 0 ==> form == EmptyForm && currentRemoteDir == ""
      ensures sent == [GetDirs(currentRemoteDir)]
    {
      isEditing := editIndex >= 0;
      editingIndex := editIndex;
      if isEditing {
        var pair := syncPairs[editIndex];
        form := FormOf(pair);
        currentRemoteDir := ParentDir(pair.remotePath);
      } else {
        form := EmptyForm;
        currentRemoteDir := "";
      }
      sent := BrowseTo(currentRemoteDir);
    }

    /** `closeSyncPairModal`. */
    method CloseSyncPairModal()
      requires Valid()
      modifies this`isEditing, this`editingIndex
      ensures Valid() && !isEditing && editingIndex == -1
    {
      isEditing := false;
      editingIndex := -1;
    }

    /** `getDirs` (src/renderer.js:542-547): requests the listing of `dir` and moves the
        browser there. */
    method BrowseTo(dir: string) returns (sent: seq<Request>)
      requires Valid()
      modifies this`currentRemoteDir
      ensures Valid() && currentRemoteDir == dir && sent == [GetDirs(dir)]
    {
      sent := [GetDirs(dir)];
      currentRemoteDir := dir;
    }

    /** `selectCurrentRemoteFolder` (src/renderer.js:419-421): the remote field of the form
        takes the folder the browser shows; the rest of the form is kept. */
    method SelectCurrentRemoteFolder(form: PairForm) returns (r: PairForm)
      ensures r == form.(remoteFolder := currentRemoteDir)
    {
      r := form.(remoteFolder := currentRemoteDir);
    }

    /** `saveSyncPair` (src/renderer.js:423-470): nothing when either trimmed path is
        empty; otherwise the edited entry is replaced, or a new entry appended, the list
        is sent to be saved and the modal closes. */
    method SaveSyncPair(form: PairForm) returns (sent: seq<Request>)
      requires Valid() && (isEditing ==> editingIndex < |syncPairs|)
      modifies this`syncPairs, this`isEditing, this`editingIndex
      ensures Valid()
      ensures Trim(form.localFolder) == "" || Trim(form.remoteFolder) == "" ==>
        syncPairs == old(syncPairs) && isEditing == old(isEditing) && editingIndex == old(editingIndex) &&
        sent == []
      ensures Trim(form.localFolder) != "" && Trim(form.remoteFolder) != "" ==>
        syncPairs == (if old(isEditing)
                      then old(syncPairs)[old(editingIndex) := Edited(old(syncPairs)[old(editingIndex)], form)]
                      else old(syncPairs) + [NewPair(form)]) &&
        !isEditing && editingIndex == -1 && sent == [SavePairs(syncPairs)]
    {
      var localPath := Trim(form.localFolder);
      var remotePath := Trim(form.remoteFolder);
      if localPath == "" || remotePath == "" {
        return [];
      }
      var syncPair := NewPair(form);
      if isEditing {
        var existingPair := syncPairs[editingIndex];
        syncPairs := syncPairs[editingIndex := Edited(existingPair, form)];
      } else {
        syncPairs := syncPairs + [syncPair];
      }
      sent := [SavePairs(syncPairs)];
      CloseSyncPairModal();
    }

    /** `deleteSyncPair` (src/renderer.js:476-482): when confirmed, `splice(index, 1)` and a save. */
    method DeleteSyncPair(index: int, confirmed: bool) returns (sent: seq<Request>)
      requires Valid()
      modifies this`syncPairs
      ensures Valid()
      ensures syncPairs == if confirmed then SpliceOne(old(syncPairs), index) else old(syncPairs)
      ensures sent == if confirmed then [SavePairs(syncPairs)] else []
    {
      sent := [];
      if confirmed {
        syncPairs := SpliceOne(syncPairs, index);
        sent := [SavePairs(syncPairs)];
      }
    }

    /** `forceResyncPair` (src/renderer.js:675-682): when confirmed, entry `index` asks
        for a one-time resync and the list is saved. */
    method ForceResyncPair(index: int, confirmed: bool) returns (sent: seq<Request>)
      requires Valid() && (confirmed ==> 0 <= index < |syncPairs|)
      modifies this`syncPairs
      ensures Valid()
      ensures syncPairs == if confirmed then old(syncPairs)[index := old(syncPairs)[index].(forceResync := true)]
                           else old(syncPairs)
      ensures sent == if confirmed then [SavePairs(syncPairs)] else []
    {
      sent := [];
      if confirmed {
        var pair := syncPairs[index];
        syncPairs := syncPairs[index := pair.(forceResync := true)];
        sent := [SavePairs(syncPairs)];
      }
    }

    /** The per-pair button (src/renderer.js:484-497): cancels a running pair, starts
        any other with the window's settings. */
    method SyncButton(index: int) returns (req: Request)
      requires 0 <= index < |syncPairs|
      ensures req.CancelPair? <==> syncPairs[index].status == Syncing
      ensures req.CancelPair? ==> req == CancelPair(syncPairs[index].localPath, syncPairs[index].remotePath)
      ensures !req.CancelPair? ==> req == StartPair(syncPairs[index], settings)
    {
      var pair := syncPairs[index];
      if pair.status == Syncing {
        req := CancelPair(pair.localPath, pair.remotePath);
      } else {
        req := StartPair(pair, settings);
      }
    }

    /** `syncAllPairs` (src/renderer.js:499-511): the entries not marked `'syncing'` are
        marked in place and sent, marked, with the window's settings; when there is none,
        nothing happens. */
    method SyncAllPairs() returns (sent: seq<Request>)
      requires Valid()
      modifies this`syncPairs
      ensures Valid()
      ensures var ready := ReadyIndices(old(syncPairs));
        if |ready| == 0 then syncPairs == old(syncPairs) && sent == []
        else
          |syncPairs| == |old(syncPairs)| &&
          (forall k | 0 <= k < |syncPairs| :: syncPairs[k] == old(syncPairs)[k].(status := Syncing)) &&
          |sent| == 1 && sent[0].StartAll? && sent[0].settings == settings && |sent[0].pairs| == |ready| &&
          forall t | 0 <= t < |ready| :: sent[0].pairs[t] == old(syncPairs)[ready[t]].(status := Syncing)
    {
      var readyPairs := ReadyIndices(syncPairs);
      if |readyPairs| == 0 {
        return [];
      }
      var t := 0;
      while t < |readyPairs|
        invariant 0 <= t <= |readyPairs|
        invariant syncPairs == MarkAt(old(syncPairs), readyPairs[..t])
      {
        assert readyPairs[..t + 1][..t] == readyPairs[..t];
        var j := readyPairs[t];
        syncPairs := syncPairs[j := syncPairs[j].(status := Syncing)];
        t := t + 1;
      }
      assert readyPairs[..t] == readyPairs;
      MarkReadyAll(old(syncPairs));
      var ps := syncPairs;
      sent := [StartAll(seq(|readyPairs|, t requires 0 <= t < |readyPairs| => ps[readyPairs[t]]), settings)];
    }

    /** `cancelSync` (src/renderer.js:621-632): asks the main process to cancel every run
        and resets every `'syncing'` entry to `'idle'`, touching no other field. */
    method CancelSync() returns (sent: seq<Request>)
      requires Valid()
      modifies this`syncPairs
      ensures Valid() && sent == [CancelAll] && |syncPairs| == |old(syncPairs)|
      ensures forall k | 0 <= k < |syncPairs| ::
        syncPairs[k] == if old(syncPairs)[k].status == Syncing then old(syncPairs)[k].(status := Idle)
                        else old(syncPairs)[k]
      ensures forall k | 0 <= k < |syncPairs| :: syncPairs[k].status != Syncing
    {
      sent := [CancelAll];
      var j := 0;
      while j < |syncPairs|
        invariant 0 <= j <= |syncPairs| == |old(syncPairs)|
        invariant forall k | 0 <= k < j ::
          syncPairs[k] == if old(syncPairs)[k].status == Syncing then old(syncPairs)[k].(status := Idle)
                          else old(syncPairs)[k]
        invariant forall k | j <= k < |syncPairs| :: syncPairs[k] == old(syncPairs)[k]
      {
        if syncPairs[j].status == Syncing {
          syncPairs := syncPairs[j := syncPairs[j].(status := Idle)];
        }
        j := j + 1;
      }
    }

    /** The `syncProgress` handler (src/renderer.js:201-214): one entry is appended and the
        log cut back to its most recent 1000 entries. */
    method OnSyncProgress(localPath: string, remotePath: string, message: string, now: int)
      requires Valid()
      modifies this`syncLog
      ensures Valid() && syncLog == KeepLast(old(syncLog) + [LogEntry(localPath, remotePath, message, now)])
    {
      syncLog := syncLog + [LogEntry(localPath, remotePath, message, now)];
      if |syncLog| > MaxLogEntries {
        syncLog := syncLog[|syncLog| - MaxLogEntries..];
      }
    }

    /** `showSyncLog` (src/renderer.js:639-655): the entries of entry `index`'s paths. */
    method ShowSyncLog(index: int) returns (entries: seq<LogEntry>)
      requires 0 <= index < |syncPairs|
      ensures entries == LogFor(syncLog, syncPairs[index].localPath, syncPairs[index].remotePath)
      ensures forall e :: e in entries <==>
        e in syncLog && e.localPath == syncPairs[index].localPath && e.remotePath == syncPairs[index].remotePath
    {
      var pair := syncPairs[index];
      entries := LogFor(syncLog, pair.localPath, pair.remotePath);
      forall e ensures e in entries <==> e in syncLog && e.localPath == pair.localPath && e.remotePath == pair.remotePath {
        LogForMember(syncLog, pair.localPath, pair.remotePath, e);
      }
    }

    /** `clearSyncLog` (src/renderer.js:661-664). */
    method ClearSyncLog()
      requires Valid()
      modifies this`syncLog
      ensures Valid() && syncLog == []
    {
      syncLog := [];
    }

    /** `saveSettings` (src/renderer.js:518-539) with the filter file reference kept: the
        window's settings become those of the form, and the filter text and then the
        settings are sent to be saved. */
    method SaveSettingsForm(form: SettingsForm, filterText: string) returns (sent: seq<Request>)
      requires Valid()
      modifies this`settings
      ensures Valid() && settings == SettingsFromForm(old(settings), form, filterText)
      ensures sent == [SaveFilter(filterText), SaveSettings(settings)]
    {
      settings := SettingsFromForm(settings, form, filterText);
      sent := [SaveFilter(filterText), SaveSettings(settings)];
    }
  }
}
