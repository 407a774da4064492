/** The per-chunk progress parser of the engine's output handler
    (src/index.js:568-598, 621). A chunk is split into lines; a line holding
    `Transferred: N / M, P%` sets the file counts and the percentage, a
    `Checking:`/`Transferring:` line sets the current file, an `Elapsed time:`
    line sets the message. The file counts and the current file carry over from
    earlier chunks of the same process; the percentage starts at 0 per chunk. */
module Progress {
  import opened Text
  import opened Pairs

  datatype Counts = Counts(transferred: nat, total: nat, percent: nat)

  /** What the output handler's closure keeps between chunks. */
  datatype Carried = Carried(transferredFiles: nat, totalFiles: nat, currentFile: string)

  /** The handler's variables while it walks the lines of one chunk. */
  datatype LoopState = LoopState(transferredFiles: nat, totalFiles: nat, currentFile: string,
                                 percentage: nat, progressMessage: string)

  /** What one chunk yields: the fields written to the pair and sent with the progress event. */
  datatype Snapshot = Snapshot(percentage: nat, transferredFiles: nat, totalFiles: nat,
                               currentFile: string, message: string)

  const TransferredLabel := "Transferred:"

  /** The length of the leading whitespace run. */
  function SpanSpace(s: string): (n: nat)
    ensures n <= |s|
    decreases |s|
  {
    if |s| > 0 && IsSpace(s[0]) then 1 + SpanSpace(s[1..]) else 0
  }

  /** The length of the leading digit run, with all of it digits. */
  function SpanDigit(s: string): (n: nat)
    ensures n <= |s| && forall i | 0 <= i < n :: IsDigit(s[i])
    decreases |s|
  {
    if |s| > 0 && IsDigit(s[0]) then 1 + SpanDigit(s[1..]) else 0
  }

  /** `\s*(\d+)`: optional whitespace and a non-empty digit run, read as a number, and
      what follows the digits. */
  function LeadNumber(s: string): Option<(nat, string)> {
    var t := s[SpanSpace(s)..];
    var d := SpanDigit(t);
    if d == 0 then None else Some((DigitsValue(t[..d]), t[d..]))
  }

  /** The rest of `/Transferred:\s+(\d+)\s*\/\s*(\d+),\s*(\d+)%/` once the label has
      matched. Every repetition is greedy and no backtracking can help, so one pass decides. */
  function MatchAfterLabel(s: string): Option<Counts> {
    if SpanSpace(s) == 0 then None else
    match LeadNumber(s)
    case None => None
    case Some((a, r)) => MatchAfterFirst(a, r)
  }

  /** `\s*\/\s*(\d+),\s*(\d+)%` after the first number `a`. */
  function MatchAfterFirst(a: nat, s: string): Option<Counts> {
    var t := s[SpanSpace(s)..];
    if |t| == 0 || t[0] != '/' then None else
    match LeadNumber(t[1..])
    case None => None
    case Some((b, r)) => MatchAfterSecond(a, b, r)
  }

  /** `,\s*(\d+)%` after the second number `b`. */
  function MatchAfterSecond(a: nat, b: nat, s: string): Option<Counts> {
    if |s| == 0 || s[0] != ',' then None else
    match LeadNumber(s[1..])
    case None => None
    case Some((c, r)) => if |r| == 0 || r[0] != '%' then None else Some(Counts(a, b, c))
  }

  /** `line.match(...)`: the leftmost occurrence of the label where the rest matches. */
  function MatchTransferred(line: string): Option<Counts>
    decreases |line|
  {
    if |line| < |TransferredLabel| then None
    else if line[..|TransferredLabel|] == TransferredLabel && MatchAfterLabel(line[|TransferredLabel|..]).Some?
    then MatchAfterLabel(line[|TransferredLabel|..])
    else MatchTransferred(line[1..])
  }

  /** A line that matches the pattern contains the label, so the handler takes its first branch. */
  lemma {:induction false} MatchHasLabel(line: string)
    requires MatchTransferred(line).Some?
    ensures Contains(line, TransferredLabel)
    decreases |line|
  {
    if !(line[..|TransferredLabel|] == TransferredLabel && MatchAfterLabel(line[|TransferredLabel|..]).Some?) {
      MatchHasLabel(line[1..]);
    }
  }

  /** An `rclone` stats line: `Transferred:`, whitespace `w0` (at least one character),
      the decimal `a`, whitespace, `/`, whitespace, the decimal `b`, `,`, whitespace, the
      decimal `c`, `%`, and anything after it. */
  function StatsLine(w0: string, w1: string, w2: string, w3: string, a: nat, b: nat, c: nat, rest: string): string {
    TransferredLabel + (w0 + AfterFirstText(w1, w2, w3, a, b, c, rest))
  }

  function AfterFirstText(w1: string, w2: string, w3: string, a: nat, b: nat, c: nat, rest: string): string {
    NatToString(a) + (w1 + ("/" + (w2 + AfterSecondText(w3, b, c, rest))))
  }

  function AfterSecondText(w3: string, b: nat, c: nat, rest: string): string {
    NatToString(b) + ("," + (w3 + (NatToString(c) + ("%" + rest))))
  }

  /** A stats line is matched as exactly its three numbers, whatever follows them. */
  lemma MatchRendered(w0: string, w1: string, w2: string, w3: string, a: nat, b: nat, c: nat, rest: string)
    requires |w0| > 0 && AllSpace(w0) && AllSpace(w1) && AllSpace(w2) && AllSpace(w3)
    ensures MatchTransferred(StatsLine(w0, w1, w2, w3, a, b, c, rest)) == Some(Counts(a, b, c))
  {
    var s := w0 + AfterFirstText(w1, w2, w3, a, b, c, rest);
    var line := TransferredLabel + s;
    assert line[..|TransferredLabel|] == TransferredLabel && line[|TransferredLabel|..] == s;
    MatchAfterLabelRendered(w0, w1, w2, w3, a, b, c, rest);
  }

  lemma MatchAfterLabelRendered(w0: string, w1: string, w2: string, w3: string, a: nat, b: nat, c: nat, rest: string)
    requires |w0| > 0 && AllSpace(w0) && AllSpace(w1) && AllSpace(w2) && AllSpace(w3)
    ensures MatchAfterLabel(w0 + AfterFirstText(w1, w2, w3, a, b, c, rest)) == Some(Counts(a, b, c))
  {
    var r := w1 + ("/" + (w2 + AfterSecondText(w3, b, c, rest)));
    var s := w0 + AfterFirstText(w1, w2, w3, a, b, c, rest);
    assert SpanSpace(s) > 0 by {
      assert s[0] == w0[0];
    }
    assert !IsDigit(r[0]) by {
      if |w1| > 0 {
        assert r[0] == w1[0];
      }
    }
    LeadNumberRendered(w0, a, r);
    AfterFirstRendered(w1, w2, w3, a, b, c, rest);
  }

  lemma AfterFirstRendered(w1: string, w2: string, w3: string, a: nat, b: nat, c: nat, rest: string)
    requires AllSpace(w1) && AllSpace(w2) && AllSpace(w3)
    ensures MatchAfterFirst(a, w1 + ("/" + (w2 + AfterSecondText(w3, b, c, rest)))) == Some(Counts(a, b, c))
  {
    var t := "/" + (w2 + AfterSecondText(w3, b, c, rest));
    SpanSpaceOver(w1, t);
    AfterSecondRendered(w2, w3, a, b, c, rest);
  }

  lemma AfterSecondRendered(w2: string, w3: string, a: nat, b: nat, c: nat, rest: string)
    requires AllSpace(w2) && AllSpace(w3)
    ensures LeadNumber(w2 + AfterSecondText(w3, b, c, rest)) == Some((b, "," + (w3 + (NatToString(c) + ("%" + rest)))))
    ensures MatchAfterSecond(a, b, "," + (w3 + (NatToString(c) + ("%" + rest)))) == Some(Counts(a, b, c))
  {
    LeadNumberRendered(w2, b, "," + (w3 + (NatToString(c) + ("%" + rest))));
    LeadNumberRendered(w3, c, "%" + rest);
  }

  /** A decimal number after whitespace is read back as itself, up to the next character
      that is not a digit. */
  lemma LeadNumberRendered(w: string, n: nat, t: string)
    requires AllSpace(w) && |t| > 0 && !IsDigit(t[0])
    ensures LeadNumber(w + (NatToString(n) + t)) == Some((n, t))
  {
    var d := NatToString(n);
    SpanSpaceOver(w, d + t);
    SpanDigitRun(d, t);
    DigitsValueOfNatToString(n);
  }

  /** The whitespace run at the front of `w + t` is `w` when `t` does not start with whitespace. */
  lemma {:induction false} SpanSpaceOver(w: string, t: string)
    requires AllSpace(w) && (t == [] || !IsSpace(t[0]))
    ensures SpanSpace(w + t) == |w| && (w + t)[|w|..] == t
    decreases |w|
  {
    if |w| > 0 {
      assert (w + t)[1..] == w[1..] + t;
      SpanSpaceOver(w[1..], t);
    } else {
      assert w + t == t;
    }
  }

  /** The digit run at the front of `d + u`, when `u` does not start with a digit. */
  lemma {:induction false} SpanDigitRun(d: string, u: string)
    requires (forall i | 0 <= i < |d| :: IsDigit(d[i])) && (u == [] || !IsDigit(u[0]))
    ensures SpanDigit(d + u) == |d| && (d + u)[..|d|] == d && (d + u)[|d|..] == u
    decreases |d|
  {
    if |d| > 0 {
      assert (d + u)[1..] == d[1..] + u;
      SpanDigitRun(d[1..], u);
    } else {
      assert d + u == u;
    }
  }

  predicate IsFileLabel(line: string) {
    Contains(line, "Checking:") || Contains(line, "Transferring:")
  }

  /** A line that sets the current file: it names a file label and no `Transferred:`. */
  predicate IsFileLine(line: string) {
    !Contains(line, TransferredLabel) && IsFileLabel(line)
  }

  /** `Transferred: ${transferredFiles}/${totalFiles} files (${percentage}%)`. */
  function CountsMessage(c: Counts): string {
    "Transferred: " + NatToString(c.transferred) + "/" + NatToString(c.total) +
    " files (" + NatToString(c.percent) + "%)"
  }

  /** The progress message a line would set, if any. */
  function LineMessage(line: string): Option<string> {
    if Contains(line, TransferredLabel) then
      (match MatchTransferred(line) case Some(m) => Some(CountsMessage(m)) case None => None)
    else if IsFileLabel(line) || Contains(line, "Elapsed time:") then Some(Trim(line))
    else None
  }

  /** One iteration of the handler's `for` loop. */
  function Step(st: LoopState, line: string): LoopState {
    if Contains(line, TransferredLabel) then
      match MatchTransferred(line)
      case Some(m) =>
        st.(transferredFiles := m.transferred, totalFiles := m.total, percentage := m.percent,
            progressMessage := CountsMessage(m))
      case None => st
    else if IsFileLabel(line) then
      st.(currentFile := Trim(line), progressMessage := Trim(line))
    else if Contains(line, "Elapsed time:") then
      st.(progressMessage := Trim(line))
    else st
  }

  /** The loop over a prefix of the lines. */
  function Fold(st: LoopState, lines: seq<string>): LoopState
    decreases |lines|
  {
    if |lines| == 0 then st else Step(Fold(st, lines[..|lines| - 1]), lines[|lines| - 1])
  }

  function Start(c: Carried): LoopState {
    LoopState(c.transferredFiles, c.totalFiles, c.currentFile, 0, "")
  }

  function Lines(chunk: string): seq<string> {
    Split(chunk, '\n')
  }

  /** The snapshot one chunk yields; the message falls back to the trimmed chunk
      (`progressMessage || message.trim()`). */
  function Parse(c: Carried, chunk: string): Snapshot {
    var st := Fold(Start(c), Lines(chunk));
    Snapshot(st.percentage, st.transferredFiles, st.totalFiles, st.currentFile,
             if st.progressMessage != "" then st.progressMessage else Trim(chunk))
  }

  /** What the closure carries into the next chunk. */
  function CarriedOf(s: Snapshot): Carried {
    Carried(s.transferredFiles, s.totalFiles, s.currentFile)
  }

  /** The handler's loop over the lines of one chunk. */
  method ParseChunk(c: Carried, chunk: string) returns (snap: Snapshot)
    ensures snap == Parse(c, chunk)
  {
    var lines := Split(chunk, '\n');
    var transferredFiles, totalFiles, currentFile := c.transferredFiles, c.totalFiles, c.currentFile;
    var percentage: nat := 0;
    var progressMessage := "";
    var i := 0;
    while i < |lines|
      invariant 0 <= i <= |lines|
      invariant LoopState(transferredFiles, totalFiles, currentFile, percentage, progressMessage)
                == Fold(Start(c), lines[..i])
    {
      var line := lines[i];
      if Contains(line, "Transferred:") {
        var m := MatchTransferred(line);
        if m.Some? {
          transferredFiles := m.value.transferred;
          totalFiles := m.value.total;
          percentage := m.value.percent;
          progressMessage := CountsMessage(m.value);
        }
      } else if Contains(line, "Checking:") || Contains(line, "Transferring:") {
        currentFile := Trim(line);
        progressMessage := currentFile;
      } else if Contains(line, "Elapsed time:") {
        progressMessage := Trim(line);
      }
      assert lines[..i + 1][..i] == lines[..i];
      i := i + 1;
    }
    assert lines[..|lines|] == lines;
    snap := Snapshot(percentage, transferredFiles, totalFiles, currentFile,
                     if progressMessage != "" then progressMessage else Trim(chunk));
  }

  // ---- Where each field comes from ----

  /** The counts of the last line that matches the pattern. */
  function LastCounts(lines: seq<string>): Option<Counts>
    decreases |lines|
  {
    if |lines| == 0 then None
    else if MatchTransferred(lines[|lines| - 1]).Some? then MatchTransferred(lines[|lines| - 1])
    else LastCounts(lines[..|lines| - 1])
  }

  /** The trimmed text of the last file line. */
  function LastFile(lines: seq<string>): Option<string>
    decreases |lines|
  {
    if |lines| == 0 then None
    else if IsFileLine(lines[|lines| - 1]) then Some(Trim(lines[|lines| - 1]))
    else LastFile(lines[..|lines| - 1])
  }

  /** The message of the last line that sets one. */
  function LastMessage(lines: seq<string>): Option<string>
    decreases |lines|
  {
    if |lines| == 0 then None
    else if LineMessage(lines[|lines| - 1]).Some? then LineMessage(lines[|lines| - 1])
    else LastMessage(lines[..|lines| - 1])
  }

  /** Field by field, the loop's result is: the counts and percentage of the last
      matching line (else the carried counts and 0), the last file line (else the
      carried file), the last message (else none). */
  lemma {:induction false} FoldFields(c: Carried, lines: seq<string>)
    ensures var st := Fold(Start(c), lines);
      && st.transferredFiles == (match LastCounts(lines) case Some(m) => m.transferred case None => c.transferredFiles)
      && st.totalFiles == (match LastCounts(lines) case Some(m) => m.total case None => c.totalFiles)
      && st.percentage == (match LastCounts(lines) case Some(m) => m.percent case None => 0)
      && st.currentFile == LastFile(lines).GetOr(c.currentFile)
      && st.progressMessage == LastMessage(lines).GetOr("")
    decreases |lines|
  {
    if |lines| > 0 {
      var line := lines[|lines| - 1];
      FoldFields(c, lines[..|lines| - 1]);
      if MatchTransferred(line).Some? {
        MatchHasLabel(line);
      }
    }
  }

  /** A message a line sets is never empty. */
  lemma LineMessageNotEmpty(line: string)
    requires LineMessage(line).Some?
    ensures LineMessage(line).value != ""
  {
    if !Contains(line, TransferredLabel) {
      if Contains(line, "Checking:") {
        ContainsWordNotBlank(line, "Checking:");
      } else if Contains(line, "Transferring:") {
        ContainsWordNotBlank(line, "Transferring:");
      } else {
        ContainsWordNotBlank(line, "Elapsed time:");
      }
    }
  }

  lemma {:induction false} LastMessageNotEmpty(lines: seq<string>)
    requires LastMessage(lines).Some?
    ensures LastMessage(lines).value != ""
    decreases |lines|
  {
    if LineMessage(lines[|lines| - 1]).Some? {
      LineMessageNotEmpty(lines[|lines| - 1]);
    } else {
      LastMessageNotEmpty(lines[..|lines| - 1]);
    }
  }

  /** A line that matches, with no matching line after it, is the one that counts. */
  lemma {:induction false} LastCountsAt(lines: seq<string>, j: nat)
    requires j < |lines| && MatchTransferred(lines[j]).Some?
    requires forall k | j < k < |lines| :: MatchTransferred(lines[k]).None?
    ensures LastCounts(lines) == MatchTransferred(lines[j])
    decreases |lines|
  {
    if j < |lines| - 1 {
      var init := lines[..|lines| - 1];
      assert init[j] == lines[j];
      assert forall k | j < k < |init| :: init[k] == lines[k];
      LastCountsAt(init, j);
      assert MatchTransferred(lines[|lines| - 1]).None?;
    }
  }

  lemma {:induction false} LastCountsNone(lines: seq<string>)
    ensures LastCounts(lines).None? <==> forall k | 0 <= k < |lines| :: MatchTransferred(lines[k]).None?
    decreases |lines|
  {
    if |lines| > 0 {
      var init := lines[..|lines| - 1];
      LastCountsNone(init);
      if LastCounts(lines).None? {
        forall k | 0 <= k < |lines| ensures MatchTransferred(lines[k]).None? {
          if k < |lines| - 1 {
            assert init[k] == lines[k];
          }
        }
      } else if MatchTransferred(lines[|lines| - 1]).None? {
        var k :| 0 <= k < |init| && MatchTransferred(init[k]).Some?;
        assert init[k] == lines[k];
      }
    }
  }

  lemma {:induction false} LastFileAt(lines: seq<string>, j: nat)
    requires j < |lines| && IsFileLine(lines[j])
    requires forall k | j < k < |lines| :: !IsFileLine(lines[k])
    ensures LastFile(lines) == Some(Trim(lines[j]))
    decreases |lines|
  {
    if j < |lines| - 1 {
      var init := lines[..|lines| - 1];
      assert init[j] == lines[j];
      assert forall k | j < k < |init| :: init[k] == lines[k];
      LastFileAt(init, j);
      assert !IsFileLine(lines[|lines| - 1]);
    }
  }

  lemma {:induction false} LastFileNone(lines: seq<string>)
    ensures LastFile(lines).None? <==> forall k | 0 <= k < |lines| :: !IsFileLine(lines[k])
    decreases |lines|
  {
    if |lines| > 0 {
      var init := lines[..|lines| - 1];
      LastFileNone(init);
      if LastFile(lines).None? {
        forall k | 0 <= k < |lines| ensures !IsFileLine(lines[k]) {
          if k < |lines| - 1 {
            assert init[k] == lines[k];
          }
        }
      } else if !IsFileLine(lines[|lines| - 1]) {
        var k :| 0 <= k < |init| && IsFileLine(init[k]);
        assert init[k] == lines[k];
      }
    }
  }

  /** The last file line, when there is one, is a line of the chunk. */
  lemma {:induction false} LastFileIsALine(lines: seq<string>)
    requires LastFile(lines).Some?
    ensures exists j | 0 <= j < |lines| :: IsFileLine(lines[j]) && LastFile(lines).value == Trim(lines[j])
    decreases |lines|
  {
    if !IsFileLine(lines[|lines| - 1]) {
      LastFileIsALine(lines[..|lines| - 1]);
      var j :| 0 <= j < |lines| - 1 && IsFileLine(lines[..|lines| - 1][j]) &&
               LastFile(lines[..|lines| - 1]).value == Trim(lines[..|lines| - 1][j]);
      assert lines[..|lines| - 1][j] == lines[j];
    }
  }

  lemma {:induction false} LastMessageAt(lines: seq<string>, j: nat)
    requires j < |lines| && LineMessage(lines[j]).Some?
    requires forall k | j < k < |lines| :: LineMessage(lines[k]).None?
    ensures LastMessage(lines) == LineMessage(lines[j])
    decreases |lines|
  {
    if j < |lines| - 1 {
      var init := lines[..|lines| - 1];
      assert init[j] == lines[j];
      assert forall k | j < k < |init| :: init[k] == lines[k];
      LastMessageAt(init, j);
      assert LineMessage(lines[|lines| - 1]).None?;
    }
  }

  lemma {:induction false} LastMessageNone(lines: seq<string>)
    ensures LastMessage(lines).None? <==> forall k | 0 <= k < |lines| :: LineMessage(lines[k]).None?
    decreases |lines|
  {
    if |lines| > 0 {
      var init := lines[..|lines| - 1];
      LastMessageNone(init);
      if LastMessage(lines).None? {
        forall k | 0 <= k < |lines| ensures LineMessage(lines[k]).None? {
          if k < |lines| - 1 {
            assert init[k] == lines[k];
          }
        }
      } else if LineMessage(lines[|lines| - 1]).None? {
        var k :| 0 <= k < |init| && LineMessage(init[k]).Some?;
        assert init[k] == lines[k];
      }
    }
  }

  // ---- The parser's promises ----

  /** The percentage and both file counts come from the last line of the chunk that
      matches the pattern. */
  lemma ParseUsesLastMatch(c: Carried, chunk: string, j: nat)
    requires j < |Lines(chunk)| && MatchTransferred(Lines(chunk)[j]).Some?
    requires forall k | j < k < |Lines(chunk)| :: MatchTransferred(Lines(chunk)[k]).None?
    ensures var m, s := MatchTransferred(Lines(chunk)[j]).value, Parse(c, chunk);
      s.percentage == m.percent && s.transferredFiles == m.transferred && s.totalFiles == m.total
  {
    FoldFields(c, Lines(chunk));
    LastCountsAt(Lines(chunk), j);
  }

  /** With no matching line the percentage is 0 and the file counts carry over. */
  lemma ParseWithoutMatch(c: Carried, chunk: string)
    requires forall k | 0 <= k < |Lines(chunk)| :: MatchTransferred(Lines(chunk)[k]).None?
    ensures var s := Parse(c, chunk);
      s.percentage == 0 && s.transferredFiles == c.transferredFiles && s.totalFiles == c.totalFiles
  {
    FoldFields(c, Lines(chunk));
    LastCountsNone(Lines(chunk));
  }

  /** The current file is the trimmed last file line of the chunk. */
  lemma ParseUsesLastFileLine(c: Carried, chunk: string, j: nat)
    requires j < |Lines(chunk)| && IsFileLine(Lines(chunk)[j])
    requires forall k | j < k < |Lines(chunk)| :: !IsFileLine(Lines(chunk)[k])
    ensures Parse(c, chunk).currentFile == Trim(Lines(chunk)[j])
  {
    FoldFields(c, Lines(chunk));
    LastFileAt(Lines(chunk), j);
  }

  /** Without a file line the current file carries over. */
  lemma ParseWithoutFileLine(c: Carried, chunk: string)
    requires forall k | 0 <= k < |Lines(chunk)| :: !IsFileLine(Lines(chunk)[k])
    ensures Parse(c, chunk).currentFile == c.currentFile
  {
    FoldFields(c, Lines(chunk));
    LastFileNone(Lines(chunk));
  }

  /** The current file is the carried one or the trimmed text of a line that holds
      a file label and no `Transferred:`: a counts line never sets it. */
  lemma ParseCurrentFileOrigin(c: Carried, chunk: string)
    ensures var f, lines := Parse(c, chunk).currentFile, Lines(chunk);
      f == c.currentFile ||
      exists j | 0 <= j < |lines| :: !Contains(lines[j], TransferredLabel) && IsFileLabel(lines[j]) && f == Trim(lines[j])
  {
    FoldFields(c, Lines(chunk));
    if LastFile(Lines(chunk)).Some? {
      LastFileIsALine(Lines(chunk));
    }
  }

  /** The message is that of the last line that sets one. */
  lemma ParseUsesLastMessage(c: Carried, chunk: string, j: nat)
    requires j < |Lines(chunk)| && LineMessage(Lines(chunk)[j]).Some?
    requires forall k | j < k < |Lines(chunk)| :: LineMessage(Lines(chunk)[k]).None?
    ensures Parse(c, chunk).message == LineMessage(Lines(chunk)[j]).value
  {
    FoldFields(c, Lines(chunk));
    LastMessageAt(Lines(chunk), j);
    LineMessageNotEmpty(Lines(chunk)[j]);
  }

  /** When no line sets a message, the trimmed chunk is sent instead. */
  lemma ParseMessageFallback(c: Carried, chunk: string)
    requires forall k | 0 <= k < |Lines(chunk)| :: LineMessage(Lines(chunk)[k]).None?
    ensures Parse(c, chunk).message == Trim(chunk)
  {
    FoldFields(c, Lines(chunk));
    LastMessageNone(Lines(chunk));
  }

  /** Feeding the same chunk again, with what the first feed carried, yields the same snapshot. */
  lemma ParseIdempotent(c: Carried, chunk: string)
    ensures Parse(CarriedOf(Parse(c, chunk)), chunk) == Parse(c, chunk)
  {
    var c2 := CarriedOf(Parse(c, chunk));
    FoldFields(c, Lines(chunk));
    FoldFields(c2, Lines(chunk));
  }
}
