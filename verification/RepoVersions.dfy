/** The parser of RepoVersion files: which version of every repository was checked out. */
module RepoVersions {
  import opened Wrappers
  import opened PyStrings
  import opened TextLines

  datatype Error = NoColon | NoVersionLine

  predicate IsHeading(line: string) {
    "***" <= line
  }

  /** line.split(":")[1].strip() */
  function RepoDir(line: string): Option<string> {
    var i := Find(line, ':', 0);
    if i == |line| then None else Some(Strip(line[i + 1..Find(line, ':', i + 1)]))
  }

  /** line.split(" ")[0].strip() */
  function RepoSha1(line: string): string {
    Strip(line[..Find(line, ' ', 0)])
  }

  /** What the loop adds to `dict` from the remaining lines. */
  function Parse(lines: seq<string>, dict: map<string, string>): Result<map<string, string>, Error>
    decreases |lines|
  {
    if lines == [] || !IsHeading(lines[0]) then Success(dict)
    else if RepoDir(lines[0]).None? then Failure(NoColon)
    else if |lines| < 2 then Failure(NoVersionLine)
    else
      var dict' := dict[RepoDir(lines[0]).value := RepoSha1(lines[1])];
      if |lines| == 2 then Success(dict')
      else if IsHeading(lines[2]) then Parse(lines[2..], dict')
      else Parse(lines[3..], dict')
  }

  method GetRepoVersionDictFromRepoVersionFileString(text: string) returns (r: Result<map<string, string>, Error>)
    ensures r == Parse(SplitLines(text), map[])
  {
    var lines := SplitLines(text);
    var dict: map<string, string> := map[];
    var i := 0;
    while i < |lines|
      invariant 0 <= i <= |lines|
      invariant Parse(lines[i..], dict) == Parse(lines, map[])
    {
      var repoDirLine := lines[i];
      if IsHeading(repoDirLine) {
        var repoDir := RepoDir(repoDirLine);
        if repoDir.None? {
          return Failure(NoColon);
        }
        if i + 1 == |lines| {
          return Failure(NoVersionLine);
        }
        var repoSha1 := RepoSha1(lines[i + 1]);
        dict := dict[repoDir.value := repoSha1];
      } else {
        break;
      }
      var next := i + 2;
      if next >= |lines| {
        break;
      }
      assert lines[i..][2] == lines[i + 2] && lines[i..][2..] == lines[i + 2..] && lines[i..][3..] == lines[i + 3..];
      if IsHeading(lines[next]) {
        i := i + 2;
      } else {
        i := i + 3;
      }
    }
    return Success(dict);
  }

  // ---------- files as they are printed ----------

  /** One repository: the text before the colon, its directory, its SHA1, what follows on that line, and maybe a summary line. */
  datatype Record = Record(title: string, dir: string, sha1: string, rest: string, summary: Option<string>)

  ghost predicate Printable(r: Record) {
    && ':' !in r.title && ':' !in r.dir && Strip(r.dir) == r.dir
    && ' ' !in r.sha1 && Strip(r.sha1) == r.sha1
    && '\n' !in r.title && '\n' !in r.dir && '\n' !in r.sha1 && '\n' !in r.rest
    && (r.summary.Some? ==> !IsHeading(r.summary.value) && '\n' !in r.summary.value)
  }

  ghost predicate AllPrintable(records: seq<Record>) {
    forall k :: 0 <= k < |records| ==> Printable(records[k])
  }

  function HeadingLine(r: Record): string {
    "***" + r.title + ":" + " " + r.dir
  }

  function VersionLine(r: Record): string {
    r.sha1 + " " + r.rest
  }

  function Lines(r: Record): seq<string> {
    [HeadingLine(r), VersionLine(r)] + (if r.summary.Some? then [r.summary.value] else [])
  }

  function AllLines(records: seq<Record>): seq<string> {
    if records == [] then [] else Lines(records[0]) + AllLines(records[1..])
  }

  /** The printed file. */
  function Print(records: seq<Record>): string {
    Unlines(AllLines(records))
  }

  /** Directory to SHA1, the last entry for a directory winning. */
  function Versions(records: seq<Record>, dict: map<string, string>): map<string, string> {
    if records == [] then dict else Versions(records[1..], dict[records[0].dir := records[0].sha1])
  }

  lemma HeadingIsRead(r: Record)
    requires Printable(r)
    ensures IsHeading(HeadingLine(r)) && RepoDir(HeadingLine(r)) == Some(r.dir) && '\n' !in HeadingLine(r)
  {
    hide Strip;
    var line, before, behind := HeadingLine(r), "***" + r.title, " " + r.dir;
    var i := |before|;
    assert line == before + ":" + behind;
    assert forall k :: 0 <= k < i ==> line[k] == before[k];
    assert line[i] == ':';
    FindIs(line, ':', 0, i);
    assert line[i + 1..|line|] == behind;
    assert forall k :: i + 1 <= k < |line| ==> line[k] == behind[k - i - 1];
    FindIs(line, ':', i + 1, |line|);
    StripSpaceBefore(r.dir);
  }

  lemma VersionIsRead(r: Record)
    requires Printable(r)
    ensures RepoSha1(VersionLine(r)) == r.sha1 && '\n' !in VersionLine(r)
  {
    var line, i := VersionLine(r), |r.sha1|;
    assert line == r.sha1 + (" " + r.rest);
    assert forall k :: 0 <= k < i ==> line[k] == r.sha1[k];
    assert line[i] == ' ';
    FindIs(line, ' ', 0, i);
    assert line[..i] == r.sha1;
  }

  /** One record is read, and reading goes on behind it. */
  lemma RecordIsRead(r: Record, next: seq<string>, dict: map<string, string>)
    requires Printable(r) && (next == [] || IsHeading(next[0]) || r.summary.Some?)
    ensures Parse(Lines(r) + next, dict) == Parse(next, dict[r.dir := r.sha1])
  {
    HeadingIsRead(r);
    VersionIsRead(r);
    var lines := Lines(r) + next;
    assert lines[0] == HeadingLine(r) && lines[1] == VersionLine(r);
    if r.summary.Some? {
      assert lines[2] == r.summary.value && lines[3..] == next;
    } else {
      assert lines[2..] == next;
      assert next != [] ==> lines[2] == next[0];
    }
    hide RepoDir, RepoSha1, HeadingLine, VersionLine, IsHeading;
  }

  /** The lines cannot be taken for the summary of the last record. */
  predicate IsBehindRecords(records: seq<Record>, rest: seq<string>) {
    records == [] || rest == [] || IsHeading(rest[0]) || records[|records| - 1].summary.Some?
  }

  /** Whole records at the start of a file are read, and reading goes on behind them. */
  lemma {:induction false} ParseGoesOn(records: seq<Record>, rest: seq<string>, dict: map<string, string>)
    requires AllPrintable(records) && IsBehindRecords(records, rest)
    ensures Parse(AllLines(records) + rest, dict) == Parse(rest, Versions(records, dict))
    decreases |records|
  {
    if records == [] {
      assert AllLines(records) + rest == rest;
    } else {
      var r, tail := records[0], records[1..];
      var next := AllLines(tail) + rest;
      hide Parse, Printable;
      if tail != [] {
        HeadingIsRead(tail[0]);
        assert next[0] == HeadingLine(tail[0]);
      } else {
        assert next == rest;
      }
      RecordIsRead(r, next, dict);
      ParseGoesOn(tail, rest, dict[r.dir := r.sha1]);
      Reassociate(Lines(r), AllLines(tail), rest);
    }
  }

  lemma {:induction false} PrintedLinesAreLines(records: seq<Record>)
    requires AllPrintable(records)
    ensures forall l :: l in AllLines(records) ==> '\n' !in l
  {
    if records != [] {
      HeadingIsRead(records[0]);
      VersionIsRead(records[0]);
      PrintedLinesAreLines(records[1..]);
    }
  }

  /** Parsing a printed file gives every directory its SHA1, for any mix of records with and without summary. */
  lemma ParsePrinted(records: seq<Record>)
    requires AllPrintable(records)
    ensures Parse(SplitLines(Print(records)), map[]) == Success(Versions(records, map[]))
  {
    hide Parse, AllLines, Versions, Unlines;
    PrintedLinesAreLines(records);
    SplitUnlines(AllLines(records), "");
    assert SplitLines("") == [];
    assert Unlines(AllLines(records)) + "" == Print(records);
    assert AllLines(records) + [] == AllLines(records);
    ParseGoesOn(records, [], map[]);
    NothingLeft(Versions(records, map[]));
  }

  /** The last entry for a directory wins. */
  lemma {:induction false} LastEntryWins(records: seq<Record>, dict: map<string, string>, k: nat)
    requires k < |records| && forall m :: k < m < |records| ==> records[m].dir != records[k].dir
    ensures records[k].dir in Versions(records, dict) && Versions(records, dict)[records[k].dir] == records[k].sha1
  {
    var dict' := dict[records[0].dir := records[0].sha1];
    if k > 0 {
      LastEntryWins(records[1..], dict', k - 1);
    } else {
      OtherEntriesKeep(records[1..], dict', records[0].dir);
    }
  }

  lemma {:induction false} OtherEntriesKeep(records: seq<Record>, dict: map<string, string>, dir: string)
    requires dir in dict && forall m :: 0 <= m < |records| ==> records[m].dir != dir
    ensures dir in Versions(records, dict) && Versions(records, dict)[dir] == dict[dir]
  {
    if records != [] {
      OtherEntriesKeep(records[1..], dict[records[0].dir := records[0].sha1], dir);
    }
  }

  lemma NothingLeft(dict: map<string, string>)
    ensures Parse([], dict) == Success(dict)
  {
  }

  /** The first line behind the records that is no heading ends the reading; a heading needs a colon and a line behind it. */
  lemma FileEnds(records: seq<Record>, line: string, rest: seq<string>)
    requires AllPrintable(records) && IsBehindRecords(records, [line] + rest)
    ensures var r := Parse(AllLines(records) + ([line] + rest), map[]);
      && (!("***" <= line) ==> r == Success(Versions(records, map[])))
      && ("***" <= line && ':' !in line ==> r == Failure(NoColon))
      && ("***" <= line && ':' in line && rest == [] ==> r == Failure(NoVersionLine))
  {
    ParseGoesOn(records, [line] + rest, map[]);
    hide Strip, AllLines, Versions;
    if ':' !in line {
      FindIs(line, ':', 0, |line|);
    }
  }

  // ---------- headings and version lines in general ----------

  /** The directory stands between the first two colons, without the space around it. */
  lemma HeadingInGeneral(title: string, before: string, dir: string, after: string, rest: string)
    requires ':' !in title && ':' !in dir && (rest == "" || rest[0] == ':')
    requires IsBlank(before) && IsBlank(after) && dir != "" && !IsSpace(dir[0]) && !IsSpace(dir[|dir| - 1])
    ensures RepoDir(title + ":" + (before + dir + after) + rest) == Some(dir)
  {
    hide Strip;
    var middle := before + dir + after;
    var line := title + ":" + middle + rest;
    var i, j := |title|, |title| + 1 + |middle|;
    assert forall k :: 0 <= k < i ==> line[k] == title[k];
    assert line[i] == ':';
    FindIs(line, ':', 0, i);
    assert ':' !in middle;
    assert forall k :: i + 1 <= k < j ==> line[k] == middle[k - i - 1];
    assert j < |line| ==> line[j] == rest[0];
    FindIs(line, ':', i + 1, j);
    assert line[i + 1..j] == middle;
    StripRemovesAll(before, dir, after);
  }

  /** The version stands before the first blank, without other space around it. */
  lemma VersionInGeneral(before: string, sha1: string, after: string, rest: string)
    requires ' ' !in before && ' ' !in sha1 && ' ' !in after && (rest == "" || rest[0] == ' ')
    requires IsBlank(before) && IsBlank(after) && sha1 != "" && !IsSpace(sha1[0]) && !IsSpace(sha1[|sha1| - 1])
    ensures RepoSha1(before + sha1 + after + rest) == sha1
  {
    hide Strip;
    var word := before + sha1 + after;
    var line := word + rest;
    assert ' ' !in word;
    assert forall k :: 0 <= k < |word| ==> line[k] == word[k];
    assert |word| < |line| ==> line[|word|] == rest[0];
    FindIs(line, ' ', 0, |word|);
    assert line[..|word|] == word;
    StripRemovesAll(before, sha1, after);
  }
}
