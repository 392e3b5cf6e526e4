/** The commit message that is amended before a push: reading back the message without
    its build/test summary, and appending a new summary. */
module CommitLog {
  import opened Wrappers
  import opened TextLines

  const KEY := "Build/Test Cases Summary"

  datatype Error = NoBlankLineBeforeSummary

  // ---------- specification ----------

  /** The lines after the first blank line, which ends git's header. */
  function Body(raw: seq<string>): seq<string> {
    if raw == [] then [] else if raw[0] == "" then raw[1..] else Body(raw[1..])
  }

  /** The position of the first summary key line, or the number of lines. */
  function KeyIndex(body: seq<string>): (k: nat)
    ensures k <= |body| && forall i :: 0 <= i < k ==> body[i] != KEY
    ensures k < |body| ==> body[k] == KEY
  {
    if body == [] || body[0] == KEY then 0 else KeyIndex(body[1..]) + 1
  }

  function TrailingBlanks(lines: seq<string>): (n: nat)
    ensures n <= |lines|
    ensures forall i :: |lines| - n <= i < |lines| ==> lines[i] == ""
    ensures n < |lines| ==> lines[|lines| - n - 1] != ""
  {
    if lines == [] || lines[|lines| - 1] != "" then 0 else TrailingBlanks(lines[..|lines| - 1]) + 1
  }

  function WithoutTrailingBlanks(lines: seq<string>): seq<string> {
    lines[..|lines| - TrailingBlanks(lines)]
  }

  /** What reading back gives for the lines of a raw commit: the message, and the number of
      blank lines right before the key line (-1 without a key line). */
  function StripSummary(raw: seq<string>): Result<(string, int), Error> {
    var body := Body(raw);
    var k := KeyIndex(body);
    if k == |body| then Success((JoinLines(body) + "\n", -1))
    else if k == 0 || body[k - 1] != "" then Failure(NoBlankLineBeforeSummary)
    else
      var message := WithoutTrailingBlanks(body[..k]);
      Success((JoinLines(message + [""]), k - |message|))
  }

  // ---------- the loop ----------

  /** The message lines up to and including the first key line, if there is one, and the last run of blank lines seen. */
  method FindSummary(lines: seq<string>) returns (origLogStrList: seq<string>, lastNumBlankLines: nat, foundStatusHeader: bool)
    ensures foundStatusHeader <==> KeyIndex(Body(lines)) < |Body(lines)|
    ensures !foundStatusHeader ==> origLogStrList == Body(lines)
    ensures foundStatusHeader ==>
              var before := Body(lines)[..KeyIndex(Body(lines))];
              && origLogStrList == before + [KEY]
              && (TrailingBlanks(before) > 0 ==> lastNumBlankLines == TrailingBlanks(before))
  {
    origLogStrList := [];
    var pastHeader := false;
    var numBlankLines := 0;
    lastNumBlankLines, foundStatusHeader := 0, false;
    for i := 0 to |lines|
      invariant !foundStatusHeader && numBlankLines == TrailingBlanks(origLogStrList)
      invariant !pastHeader ==> origLogStrList == [] && Body(lines) == Body(lines[i..])
      invariant pastHeader ==> Body(lines) == origLogStrList + lines[i..]
      invariant forall l :: 0 <= l < |origLogStrList| ==> origLogStrList[l] != KEY
    {
      var line := lines[i];
      if pastHeader {
        ghost var before := origLogStrList;
        origLogStrList := origLogStrList + [line];
        assert origLogStrList[..|before|] == before;
        assert Body(lines) == origLogStrList + lines[i + 1..];
        if line == "" {
          numBlankLines := numBlankLines + 1;
        } else if numBlankLines > 0 {
          lastNumBlankLines := numBlankLines;
          numBlankLines := 0;
        }
        if line == KEY {
          KeyIndexIs(Body(lines), before, lines[i + 1..]);
          foundStatusHeader := true;
          return;
        }
      }
      if line == "" {
        pastHeader := true;
      }
    }
    assert pastHeader ==> Body(lines) == origLogStrList;
  }

  lemma KeyIndexIs(body: seq<string>, before: seq<string>, after: seq<string>)
    requires body == before + [KEY] + after
    requires forall l :: 0 <= l < |before| ==> before[l] != KEY
    ensures KeyIndex(body) == |before| && body[..|before|] == before
  {
    assert body[|before|] == KEY;
    assert forall l :: 0 <= l < |before| ==> body[l] == before[l];
  }

  method GetLastCommitMessageStrFromRawCommitLogStr(rawLogOutput: string) returns (r: Result<(string, int), Error>)
    ensures r == StripSummary(SplitLines(rawLogOutput))
  {
    var origLogStrList, lastNumBlankLines, foundStatusHeader := FindSummary(SplitLines(rawLogOutput));
    if foundStatusHeader {
      var n := |origLogStrList|;
      if n < 2 || origLogStrList[n - 2] != "" {
        return Failure(NoBlankLineBeforeSummary);
      }
      StrippedLines(origLogStrList, lastNumBlankLines);
      origLogStrList := origLogStrList[..n - lastNumBlankLines];
      return Success((JoinLines(origLogStrList), lastNumBlankLines));
    } else {
      return Success((JoinLines(origLogStrList) + "\n", -1));
    }
  }

  /** Dropping as many lines as there are blanks before the key drops the key and leaves one blank. */
  lemma StrippedLines(found: seq<string>, blanks: nat)
    requires |found| >= 2 && blanks == TrailingBlanks(found[..|found| - 1]) && blanks > 0
    ensures found[..|found| - blanks] == WithoutTrailingBlanks(found[..|found| - 1]) + [""]
  {
    var before := found[..|found| - 1];
    assert before[|before| - blanks] == "";
  }

  // ---------- amending ----------

  /** The raw text of a commit: header lines, a blank line, the message. */
  function Raw(header: seq<string>, message: string): string {
    Unlines(header) + "\n" + message
  }

  ghost predicate IsHeader(header: seq<string>) {
    forall i :: 0 <= i < |header| ==> header[i] != "" && '\n' !in header[i]
  }

  function ReadBack(header: seq<string>, message: string): Result<(string, int), Error> {
    StripSummary(SplitLines(Raw(header, message)))
  }

  /** The amended message: what was read back, the summary heading, the new summary. */
  function Amend(read: string, summary: string): string {
    read + "\n" + KEY + "\n" + summary
  }

  datatype Round = Round(header: seq<string>, summary: string)

  /** The commit message after a number of amend rounds, each reading back what the one before left. */
  function AmendAll(message: string, rounds: seq<Round>): Result<string, Error>
    decreases |rounds|
  {
    if rounds == [] then Success(message)
    else
      var last := rounds[|rounds| - 1];
      match AmendAll(message, rounds[..|rounds| - 1])
      case Failure(e) => Failure(e)
      case Success(before) =>
        match ReadBack(last.header, before)
        case Failure(e) => Failure(e)
        case Success((read, _)) => Success(Amend(read, last.summary))
  }

  lemma {:induction false} BodyOfHeader(header: seq<string>, lines: seq<string>)
    requires forall i :: 0 <= i < |header| ==> header[i] != ""
    ensures Body(header + [""] + lines) == lines
  {
    if header == [] {
      assert header + [""] + lines == [""] + lines;
    } else {
      assert (header + [""] + lines)[1..] == header[1..] + [""] + lines;
      BodyOfHeader(header[1..], lines);
    }
  }

  lemma BodyOfRaw(header: seq<string>, message: string)
    requires IsHeader(header)
    ensures Body(SplitLines(Raw(header, message))) == SplitLines(message)
  {
    Reassociate(Unlines(header), "\n", message);
    SplitUnlines(header, "\n" + message);
    assert "" + "\n" + message == "\n" + message;
    SplitFirstLine("", message);
    Reassociate(header, [""], SplitLines(message));
    BodyOfHeader(header, SplitLines(message));
  }

  /** Reading a message without a key line gives its lines; reading an amended one gives them without trailing blanks. */
  lemma ReadBackPlain(header: seq<string>, message: string)
    requires IsHeader(header) && KEY !in SplitLines(message)
    ensures ReadBack(header, message) == Success((JoinLines(SplitLines(message)) + "\n", -1))
  {
    BodyOfRaw(header, message);
  }

  lemma AmendedLines(lines: seq<string>, summary: string)
    requires forall l :: l in lines ==> '\n' !in l
    ensures SplitLines(Amend(Unlines(lines), summary)) == (lines + [""]) + [KEY] + SplitLines(summary)
  {
    hide SplitLines;
    var marks := ["", KEY];
    assert marks[1..] == [KEY] && [KEY][1..] == [];
    assert Unlines([KEY]) == KEY + "\n" + "" == KEY + "\n";
    assert Unlines(marks) == "" + "\n" + (KEY + "\n") == "\n" + KEY + "\n";
    UnlinesAppend(lines, marks);
    assert Amend(Unlines(lines), summary) == Unlines(lines + marks) + summary;
    SplitUnlines(lines + marks, summary);
    assert lines + marks == lines + [""] + [KEY];
  }

  lemma BlankEndsRun(lines: seq<string>)
    ensures TrailingBlanks(lines + [""]) == TrailingBlanks(lines) + 1
    ensures WithoutTrailingBlanks(lines + [""]) == WithoutTrailingBlanks(lines)
  {
    assert (lines + [""])[..|lines|] == lines;
  }

  lemma ReadBackAmended(header: seq<string>, lines: seq<string>, summary: string)
    requires IsHeader(header)
    requires forall l :: l in lines ==> '\n' !in l && l != KEY
    ensures ReadBack(header, Amend(Unlines(lines), summary))
         == Success((Unlines(WithoutTrailingBlanks(lines)), TrailingBlanks(lines) + 1))
  {
    hide SplitLines, Amend, TrailingBlanks, WithoutTrailingBlanks;
    var before, after := lines + [""], SplitLines(summary);
    AmendedLines(lines, summary);
    BodyOfRaw(header, Amend(Unlines(lines), summary));
    assert |KEY| > 0;
    forall l | 0 <= l < |before|
      ensures before[l] != KEY
    {
      assert l < |lines| ==> lines[l] in lines;
    }
    KeyIndexIs(before + [KEY] + after, before, after);
    BlankEndsRun(lines);
    JoinWithBlankLast(WithoutTrailingBlanks(lines));
    StrippedCount(before);
  }

  lemma StrippedCount(before: seq<string>)
    ensures |before| - |WithoutTrailingBlanks(before)| == TrailingBlanks(before)
  {
  }

  // ---------- amend rounds ----------

  ghost predicate AllHeaders(rounds: seq<Round>) {
    forall i :: 0 <= i < |rounds| ==> IsHeader(rounds[i].header)
  }

  /** The first reading of a message without key line, as lines: never empty, because a line end is added. */
  function FirstReading(message: string): (lines: seq<string>)
    ensures forall l :: l in lines ==> '\n' !in l
    ensures lines != []
  {
    var lines := SplitLines(message);
    if lines == [] then [""] else lines
  }

  lemma FirstReadingIsRead(message: string)
    ensures JoinLines(SplitLines(message)) + "\n" == Unlines(FirstReading(message))
  {
    var lines := FirstReading(message);
    JoinThenNewline(lines);
    if SplitLines(message) == [] {
      assert JoinLines([""]) == JoinLines(SplitLines(message));
    }
  }

  /** After the first round the message is the original one with a summary; every later round
      replaces that summary and leaves the original without its trailing blank lines. */
  lemma {:induction false} RoundsKeepMessage(message: string, rounds: seq<Round>)
    requires KEY !in SplitLines(message) && AllHeaders(rounds) && rounds != []
    ensures var lines, summary := FirstReading(message), rounds[|rounds| - 1].summary;
            AmendAll(message, rounds)
              == Success(Amend(Unlines(if |rounds| == 1 then lines else WithoutTrailingBlanks(lines)), summary))
    decreases |rounds|
  {
    hide ReadBack, Amend;
    var lines, last, init := FirstReading(message), rounds[|rounds| - 1], rounds[..|rounds| - 1];
    assert IsHeader(last.header);
    if init == [] {
      ReadBackPlain(last.header, message);
      FirstReadingIsRead(message);
    } else {
      RoundsKeepMessage(message, init);
      var kept := if |init| == 1 then lines else WithoutTrailingBlanks(lines);
      ReadBackAmended(last.header, kept, init[|init| - 1].summary);
      NoKeyInReading(message);
      TrimmedTwice(lines);
    }
  }

  lemma NoKeyInReading(message: string)
    requires KEY !in SplitLines(message)
    ensures forall l :: l in FirstReading(message) ==> l != KEY
  {
    assert |KEY| > 0;
  }

  lemma TrimmedTwice(lines: seq<string>)
    ensures WithoutTrailingBlanks(WithoutTrailingBlanks(lines)) == WithoutTrailingBlanks(lines)
    ensures forall l :: l in WithoutTrailingBlanks(lines) ==> l in lines
  {
  }

  /** Stripping undoes appending: after any number of rounds, with any summaries, reading back gives the original
      message without its trailing blank lines. That is what was read before the first round iff the message
      is not empty and does not end in a blank line. */
  lemma StrippingUndoesAppending(message: string, rounds: seq<Round>, header: seq<string>)
    requires KEY !in SplitLines(message) && AllHeaders(rounds) && rounds != [] && IsHeader(header)
    ensures AmendAll(message, rounds).Success? && ReadBack(header, message).Success?
    ensures var lines, again := SplitLines(message), ReadBack(header, AmendAll(message, rounds).value);
            && again.Success? && again.value.0 == Unlines(WithoutTrailingBlanks(lines))
            && (again.value.0 == ReadBack(header, message).value.0 <==> lines != [] && lines[|lines| - 1] != "")
  {
    hide Amend, AmendAll, StripSummary, SplitLines, ReadBack, FirstReading, JoinLines, Unlines, AllHeaders, IsHeader, TrailingBlanks;
    var lines := FirstReading(message);
    RoundsKeepMessage(message, rounds);
    var kept := if |rounds| == 1 then lines else WithoutTrailingBlanks(lines);
    TrimmedTwice(lines);
    NoKeyInReading(message);
    ReadBackAmended(header, kept, rounds[|rounds| - 1].summary);
    ReadBackPlain(header, message);
    FirstReadingIsRead(message);
    UnlinesLonger(WithoutTrailingBlanks(lines), lines[|WithoutTrailingBlanks(lines)|..]);
    assert WithoutTrailingBlanks(lines) + lines[|WithoutTrailingBlanks(lines)|..] == lines;
    BlankMessage(message);
  }

  lemma BlankMessage(message: string)
    ensures WithoutTrailingBlanks(FirstReading(message)) == WithoutTrailingBlanks(SplitLines(message))
    ensures var lines := SplitLines(message);
            WithoutTrailingBlanks(FirstReading(message)) == FirstReading(message) <==> lines != [] && lines[|lines| - 1] != ""
  {
  }

  lemma UnlinesLonger(a: seq<string>, b: seq<string>)
    ensures |Unlines(a + b)| >= |Unlines(a)| + |b|
  {
    UnlinesAppend(a, b);
    UnlinesLength(b);
  }

  lemma UnlinesLength(b: seq<string>)
    ensures |Unlines(b)| >= |b|
  {
  }

  /** A message that has no key line is read back as it is, with a line end if it had none. */
  lemma PlainMessageIsReadAsItIs(header: seq<string>, message: string)
    requires IsHeader(header) && KEY !in SplitLines(message)
    ensures ReadBack(header, message)
         == Success((if message != "" && message[|message| - 1] == '\n' then message else message + "\n", -1))
  {
    ReadBackPlain(header, message);
    SplitKeepsText(message);
    if message != "" {
      JoinThenNewline(SplitLines(message));
    }
  }

  /** A key line that is not behind a blank line makes reading back fail. */
  lemma KeyNeedsBlankLine(header: seq<string>, before: seq<string>, rest: string)
    requires IsHeader(header) && (before == [] || before[|before| - 1] != "")
    requires forall l :: l in before ==> '\n' !in l && l != KEY
    ensures ReadBack(header, Unlines(before) + (KEY + "\n" + rest)) == Failure(NoBlankLineBeforeSummary)
  {
    hide Body, SplitLines, Unlines;
    var message := Unlines(before) + (KEY + "\n" + rest);
    BodyOfRaw(header, message);
    SplitUnlines(before, KEY + "\n" + rest);
    SplitFirstLine(KEY, rest);
    var body := SplitLines(message);
    Reassociate(before, [KEY], SplitLines(rest));
    KeyIndexIs(body, before, SplitLines(rest));
  }
}
