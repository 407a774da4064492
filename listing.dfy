/** The names of the two bisync listing files the engine looks for before a
    two-way run (src/index.js:519-524): each path is sanitised by mapping every
    `/`, `\` and `:` to `_` and then dropping leading underscores. */
module Listing {

  predicate IsSeparator(c: char) {
    c == '/' || c == '\\' || c == ':'
  }

  /** `s.replace(/[\/\\:]/g, '_')`. */
  function ReplaceSeparators(s: string): (r: string)
    ensures |r| == |s|
    decreases |s|
  {
    if |s| == 0 then "" else [if IsSeparator(s[0]) then '_' else s[0]] + ReplaceSeparators(s[1..])
  }

  /** `s.replace(/^_+/, '')`. */
  function StripLeadingUnderscores(s: string): (r: string)
    ensures |r| <= |s| && r == s[|s| - |r|..]
    decreases |s|
  {
    if |s| > 0 && s[0] == '_' then StripLeadingUnderscores(s[1..]) else s
  }

  function Sanitize(s: string): string {
    StripLeadingUnderscores(ReplaceSeparators(s))
  }

  /** Each character of the replaced string is the input's, or `_` where the input had a separator. */
  lemma {:induction false} ReplaceSeparatorsAt(s: string, i: nat)
    requires i < |s|
    ensures ReplaceSeparators(s)[i] == if IsSeparator(s[i]) then '_' else s[i]
    decreases |s|
  {
    if i > 0 {
      ReplaceSeparatorsAt(s[1..], i - 1);
    }
  }

  /** A string without separators is left as it is. */
  lemma {:induction false} ReplaceSeparatorsNone(s: string)
    requires forall i | 0 <= i < |s| :: !IsSeparator(s[i])
    ensures ReplaceSeparators(s) == s
    decreases |s|
  {
    if |s| > 0 {
      ReplaceSeparatorsNone(s[1..]);
    }
  }

  /** A sanitised path holds no separator and does not start with `_`; what was
      dropped from the front was underscores only. */
  lemma SanitizeClean(s: string)
    ensures var r := Sanitize(s);
      (forall i | 0 <= i < |r| :: !IsSeparator(r[i])) && (|r| == 0 || r[0] != '_')
    ensures var t := ReplaceSeparators(s);
      forall i | 0 <= i < |t| - |Sanitize(s)| :: t[i] == '_'
  {
    var t := ReplaceSeparators(s);
    var r := Sanitize(s);
    forall i | 0 <= i < |r| ensures !IsSeparator(r[i]) {
      ReplaceSeparatorsAt(s, |t| - |r| + i);
    }
    StripFront(t);
  }

  lemma {:induction false} StripFront(t: string)
    ensures var r := StripLeadingUnderscores(t);
      (|r| == 0 || r[0] != '_') && forall i | 0 <= i < |t| - |r| :: t[i] == '_'
    decreases |t|
  {
    if |t| > 0 && t[0] == '_' {
      StripFront(t[1..]);
    }
  }

  /** Sanitising twice is sanitising once. */
  lemma SanitizeIdempotent(s: string)
    ensures Sanitize(Sanitize(s)) == Sanitize(s)
  {
    var r := Sanitize(s);
    SanitizeClean(s);
    ReplaceSeparatorsNone(r);
  }

  /** `path.join(os.homedir(), '.cache', 'rclone', 'bisync')`. */
  function CacheDir(home: string): string {
    home + "/.cache/rclone/bisync"
  }

  /** `${sanitizedLocalPath}..protondrive_${sanitizedRemotePath}`. */
  function ListingBase(localPath: string, remotePath: string): string {
    Sanitize(localPath) + "..protondrive_" + Sanitize(remotePath)
  }

  /** The listing file of side `side` (1 for the local side, 2 for the remote side). */
  function ListingFile(home: string, localPath: string, remotePath: string, side: nat): string
    requires side == 1 || side == 2
  {
    CacheDir(home) + "/" + ListingBase(localPath, remotePath) + (if side == 1 then ".path1.lst" else ".path2.lst")
  }

  /** The two listing names are distinct and differ only in the side digit, five characters from the end. */
  lemma ListingFilesDifferOnlyInSide(home: string, localPath: string, remotePath: string)
    ensures var p1, p2 := ListingFile(home, localPath, remotePath, 1), ListingFile(home, localPath, remotePath, 2);
      p1 != p2 && |p1| == |p2| && |p1| >= 5 &&
      p1[|p1| - 5] == '1' && p2[|p2| - 5] == '2' &&
      forall i | 0 <= i < |p1| && i != |p1| - 5 :: p1[i] == p2[i]
  {
    var pre := CacheDir(home) + "/" + ListingBase(localPath, remotePath);
    var p1, p2 := pre + ".path1.lst", pre + ".path2.lst";
    assert p1[|p1| - 5] == '1' && p2[|p2| - 5] == '2';
    forall i | 0 <= i < |p1| && i != |p1| - 5 ensures p1[i] == p2[i] {
      if i < |pre| {
        assert p1[i] == pre[i] == p2[i];
      } else {
        assert p1[i] == ".path1.lst"[i - |pre|] && p2[i] == ".path2.lst"[i - |pre|];
      }
    }
  }

  /** Sanitising forgets which separator stood where: putting any separator or `_` in
      place of a separator gives the same sanitised path, and so the same listing files. */
  lemma SanitizeMergesSeparators(s: string, i: nat, x: char)
    requires i < |s| && IsSeparator(s[i]) && (IsSeparator(x) || x == '_')
    ensures Sanitize(s[i := x]) == Sanitize(s)
  {
    var t := s[i := x];
    forall j | 0 <= j < |s| ensures ReplaceSeparators(t)[j] == ReplaceSeparators(s)[j] {
      ReplaceSeparatorsAt(s, j);
      ReplaceSeparatorsAt(t, j);
    }
    assert ReplaceSeparators(t) == ReplaceSeparators(s);
  }
}
