/** The check that the `protondrive` remote is configured (src/index.js:67-94):
    the output of `rclone listremotes` is split into lines, each trimmed and
    stripped of its first `:`, blanks are dropped, and the remote is present
    when one of the names is exactly `protondrive`. A nonzero exit or a launch
    error means "not configured". */
module Remotes {
  import opened Text
  import opened Pairs

  /** How the `listremotes` process ended: its exit code (`None` for a signal) and
      collected stdout, or a launch error. */
  datatype ListResult = Exited(code: Option<int>, output: string) | LaunchError(message: string)

  /** `s.replace(':', '')`: removes the first colon only. */
  function RemoveFirstColon(s: string): (r: string)
    decreases |s|
  {
    if |s| == 0 then "" else if s[0] == ':' then s[1..] else [s[0]] + RemoveFirstColon(s[1..])
  }

  function RemoteName(line: string): string {
    RemoveFirstColon(Trim(line))
  }

  /** `lines.map(line => line.trim().replace(':', '')).filter(Boolean)`. */
  function Names(lines: seq<string>): seq<string>
    decreases |lines|
  {
    if |lines| == 0 then []
    else (if RemoteName(lines[0]) != "" then [RemoteName(lines[0])] else []) + Names(lines[1..])
  }

  function Remotes(output: string): seq<string> {
    Names(Split(output, '\n'))
  }

  /** The name of the remote the application configures. */
  const RemoteLabel: string := "protondrive"

  /** Whether the check resolves `true`. */
  function HasProtonDrive(r: ListResult): bool {
    match r
    case Exited(code, output) => code == Some(0) && RemoteLabel in Remotes(output)
    case LaunchError(_) => false
  }

  /** A name is in the list exactly when some line, trimmed and stripped of its first
      colon, is that name; blanks never are. */
  lemma {:induction false} NamesMember(lines: seq<string>, name: string)
    requires name != ""
    ensures name in Names(lines) <==> Listed(lines, name)
    decreases |lines|
  {
    if |lines| > 0 {
      NamesMember(lines[1..], name);
      if name in Names(lines) && RemoteName(lines[0]) != name {
        var j :| 0 <= j < |lines| - 1 && RemoteName(lines[1..][j]) == name;
        assert RemoteName(lines[j + 1]) == name;
      }
      if exists j | 0 <= j < |lines| :: RemoteName(lines[j]) == name {
        var j :| 0 <= j < |lines| && RemoteName(lines[j]) == name;
        if j > 0 {
          assert lines[1..][j - 1] == lines[j];
        }
      }
    }
  }

  /** The remote counts as configured exactly when `listremotes` exits 0 and one of its
      output lines names `protondrive`. */
  lemma HasProtonDriveIff(r: ListResult)
    ensures HasProtonDrive(r) <==>
      r.Exited? && r.code == Some(0) && Listed(Split(r.output, '\n'), RemoteLabel)
  {
    if r.Exited? {
      var lines := Split(r.output, '\n');
      assert Remotes(r.output) == Names(lines);
      NamesMember(lines, RemoteLabel);
    }
  }

  /** Some line of `lines` gives `name` once trimmed and stripped of its first colon. */
  predicate Listed(lines: seq<string>, name: string) {
    exists j | 0 <= j < |lines| :: RemoteName(lines[j]) == name
  }

  /** A `listremotes` line naming the remote, with any whitespace around it other than
      a line feed, is recognised when a line feed follows it: here after the first line. */
  lemma ListedLineRecognised(before: string, pre: string, post: string, after: string)
    requires AllSpace(pre) && AllSpace(post) && '\n' !in pre && '\n' !in post
    ensures HasProtonDrive(Exited(Some(0), before + "\n" + pre + RemoteLabel + ":" + post + "\n" + after))
  {
    RemoteLabelIsAName();
    FramedNameListed(before, pre, RemoteLabel, post, after);
  }

  /** The same for the first line of the output. */
  lemma FirstLineRecognised(pre: string, post: string, after: string)
    requires AllSpace(pre) && AllSpace(post) && '\n' !in pre && '\n' !in post
    ensures HasProtonDrive(Exited(Some(0), pre + RemoteLabel + ":" + post + "\n" + after))
  {
    RemoteLabelIsAName();
    var line := pre + RemoteLabel + ":" + post;
    var out := line + "\n" + after;
    NoLineFeedIn(pre, RemoteLabel, post);
    ListedLineName(pre, RemoteLabel, post);
    SplitLineStart(line, after);
    NamesMember(Split(out, '\n'), RemoteLabel);
  }

  lemma RemoteLabelIsAName()
    ensures |RemoteLabel| > 0 && ':' !in RemoteLabel && '\n' !in RemoteLabel && !IsSpace(RemoteLabel[0])
  {
  }

  /** A line holding a name and its colon inside whitespace, between two line feeds,
      contributes that name to the list. */
  lemma FramedNameListed(before: string, pre: string, name: string, post: string, after: string)
    requires AllSpace(pre) && AllSpace(post) && '\n' !in pre && '\n' !in post
    requires |name| > 0 && ':' !in name && '\n' !in name && !IsSpace(name[0])
    ensures name in Remotes(before + "\n" + pre + name + ":" + post + "\n" + after)
  {
    var line := pre + name + ":" + post;
    NoLineFeedIn(pre, name, post);
    assert before + "\n" + pre + name + ":" + post + "\n" + after == before + "\n" + line + "\n" + after;
    ListedLineName(pre, name, post);
    LineRecognised(before, line, after, name);
  }

  lemma NoLineFeedIn(pre: string, name: string, post: string)
    requires '\n' !in pre && '\n' !in name && '\n' !in post
    ensures '\n' !in pre + name + ":" + post
  {
    var line := pre + name + ":" + post;
    forall i | 0 <= i < |line| ensures line[i] != '\n' {
      if i < |pre| {
        assert line[i] == pre[i];
      } else if i < |pre| + |name| {
        assert line[i] == name[i - |pre|];
      } else if i > |pre| + |name| {
        assert line[i] == post[i - |pre| - |name| - 1];
      }
    }
  }

  /** A whole line between two line feeds contributes its name to the list. */
  lemma LineRecognised(before: string, line: string, after: string, name: string)
    requires '\n' !in line && name != "" && RemoteName(line) == name
    ensures name in Remotes(before + "\n" + line + "\n" + after)
  {
    var out := before + "\n" + line + "\n" + after;
    var j := SplitLineAt(before, line, after);
    NamesMember(Split(out, '\n'), name);
  }

  /** A framed name with its colon gives back the name. */
  lemma ListedLineName(pre: string, name: string, post: string)
    requires AllSpace(pre) && AllSpace(post) && |name| > 0 && ':' !in name && !IsSpace(name[0])
    ensures RemoteName(pre + name + ":" + post) == name
  {
    var w := name + ":";
    assert pre + name + ":" + post == pre + w + post;
    TrimAround(pre, w, post);
    assert w == name + ":" + "";
    RemoveFirstColonAt(name, "");
  }

  /** Trimming removes exactly a whitespace frame around a word that starts and ends
      with non-whitespace. */
  lemma TrimAround(pre: string, w: string, post: string)
    requires AllSpace(pre) && AllSpace(post)
    requires |w| > 0 && !IsSpace(w[0]) && !IsSpace(w[|w| - 1])
    ensures Trim(pre + w + post) == w
  {
    assert pre + w + post == pre + (w + post);
    TrimStartFrame(pre, w + post);
    TrimEndFrame(w, post);
  }

  lemma {:induction false} TrimStartFrame(pre: string, t: string)
    requires AllSpace(pre) && |t| > 0 && !IsSpace(t[0])
    ensures TrimStart(pre + t) == t
    decreases |pre|
  {
    if |pre| > 0 {
      assert (pre + t)[1..] == pre[1..] + t;
      TrimStartFrame(pre[1..], t);
    } else {
      assert pre + t == t;
    }
  }

  lemma {:induction false} TrimEndFrame(t: string, post: string)
    requires AllSpace(post) && |t| > 0 && !IsSpace(t[|t| - 1])
    ensures TrimEnd(t + post) == t
    decreases |post|
  {
    var s := t + post;
    if |post| > 0 {
      assert s[..|s| - 1] == t + post[..|post| - 1];
      TrimEndFrame(t, post[..|post| - 1]);
    } else {
      assert s == t;
    }
  }

  /** The first colon goes, and nothing before it changes. */
  lemma {:induction false} RemoveFirstColonAt(a: string, b: string)
    requires ':' !in a
    ensures RemoveFirstColon(a + ":" + b) == a + b
    decreases |a|
  {
    if |a| > 0 {
      assert (a + ":" + b)[1..] == a[1..] + ":" + b;
      RemoveFirstColonAt(a[1..], b);
    } else {
      assert (a + ":" + b)[1..] == b;
    }
  }

  /** A line framed by two line feeds is one of the pieces of the split (never the first). */
  lemma {:induction false} SplitLineAt(before: string, line: string, after: string) returns (j: nat)
    requires '\n' !in line
    ensures var parts := Split(before + "\n" + line + "\n" + after, '\n');
      1 <= j < |parts| && parts[j] == line
    decreases |before|
  {
    var s := before + "\n" + line + "\n" + after;
    if |before| == 0 {
      assert s[1..] == line + "\n" + after;
      SplitLineStart(line, after);
      j := 1;
    } else {
      assert s[1..] == before[1..] + "\n" + line + "\n" + after;
      var j' := SplitLineAt(before[1..], line, after);
      j := if s[0] == '\n' then j' + 1 else j';
    }
  }

  /** A string that starts with `line` and a line feed splits with `line` as its first piece. */
  lemma {:induction false} SplitLineStart(line: string, after: string)
    requires '\n' !in line
    ensures Split(line + "\n" + after, '\n')[0] == line
    decreases |line|
  {
    var s := line + "\n" + after;
    if |line| > 0 {
      assert s[1..] == line[1..] + "\n" + after;
      SplitLineStart(line[1..], after);
    }
  }
}
