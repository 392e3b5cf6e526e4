/** Splitting texts into lines and joining lines into texts, with "\n" as the only line end. */
module TextLines {
  function IndexOfNewline(s: string): (i: nat)
    ensures i <= |s| && forall k :: 0 <= k < i ==> s[k] != '\n'
    ensures i < |s| ==> s[i] == '\n'
  {
    if s == "" || s[0] == '\n' then 0 else IndexOfNewline(s[1..]) + 1
  }

  /** Python's splitlines: a final line end does not start another line. */
  function SplitLines(s: string): (lines: seq<string>)
    ensures forall l :: l in lines ==> '\n' !in l
  {
    if s == "" then []
    else
      var i := IndexOfNewline(s);
      if i == |s| then [s] else [s[..i]] + SplitLines(s[i + 1..])
  }

  /** Every line followed by a line end. */
  function Unlines(lines: seq<string>): string {
    if lines == [] then "" else lines[0] + "\n" + Unlines(lines[1..])
  }

  /** '\n'.join(lines) */
  function JoinLines(lines: seq<string>): string {
    if lines == [] then "" else if |lines| == 1 then lines[0] else lines[0] + "\n" + JoinLines(lines[1..])
  }

  lemma {:induction false} SplitFirstLine(l: string, rest: string)
    requires '\n' !in l
    ensures SplitLines(l + "\n" + rest) == [l] + SplitLines(rest)
  {
    var s := l + "\n" + rest;
    var i := IndexOfNewline(s);
    assert s[|l|] == '\n';
    assert forall k :: 0 <= k < |l| ==> s[k] == l[k];
    assert s[..i] == l && s[i + 1..] == rest;
  }

  /** Splitting undoes writing lines in front of a text. */
  lemma {:induction false} SplitUnlines(lines: seq<string>, rest: string)
    requires forall l :: l in lines ==> '\n' !in l
    ensures SplitLines(Unlines(lines) + rest) == lines + SplitLines(rest)
  {
    if lines == [] {
      assert Unlines(lines) + rest == rest;
    } else {
      hide SplitLines, IndexOfNewline;
      var tail := Unlines(lines[1..]);
      Reassociate(lines[0] + "\n", tail, rest);
      SplitFirstLine(lines[0], tail + rest);
      SplitUnlines(lines[1..], rest);
      Reassociate([lines[0]], lines[1..], SplitLines(rest));
      assert [lines[0]] + lines[1..] == lines;
    }
  }

  lemma Reassociate<T>(a: seq<T>, b: seq<T>, c: seq<T>)
    ensures (a + b) + c == a + (b + c)
  {
  }

  lemma {:induction false} JoinThenNewline(lines: seq<string>)
    requires lines != []
    ensures JoinLines(lines) + "\n" == Unlines(lines)
  {
    if |lines| > 1 {
      JoinThenNewline(lines[1..]);
    }
  }

  lemma {:induction false} JoinWithBlankLast(lines: seq<string>)
    ensures JoinLines(lines + [""]) == Unlines(lines)
  {
    if lines != [] {
      JoinWithBlankLast(lines[1..]);
      assert (lines + [""])[1..] == lines[1..] + [""];
    }
  }

  lemma {:induction false} UnlinesAppend(a: seq<string>, b: seq<string>)
    ensures Unlines(a + b) == Unlines(a) + Unlines(b)
  {
    if a == [] {
      assert a + b == b;
    } else {
      UnlinesAppend(a[1..], b);
      assert (a + b)[1..] == a[1..] + b;
    }
  }

  /** A last line need not have a line end. */
  lemma SplitLastLine(l: string)
    requires '\n' !in l && l != ""
    ensures SplitLines(l) == [l]
  {
    assert IndexOfNewline(l) == |l|;
  }

  /** Splitting loses nothing: writing the lines back gives the text, with a line end if the last line had none. */
  lemma {:induction false} SplitKeepsText(s: string)
    ensures Unlines(SplitLines(s)) == if s == "" || s[|s| - 1] == '\n' then s else s + "\n"
  {
    var i := IndexOfNewline(s);
    if s != "" && i < |s| {
      var line, rest := s[..i], s[i + 1..];
      assert s == line + "\n" + rest;
      assert rest != "" ==> rest[|rest| - 1] == s[|s| - 1];
      assert rest == "" ==> s[|s| - 1] == '\n';
      hide SplitLines, IndexOfNewline;
      SplitFirstLine(line, rest);
      SplitKeepsText(rest);
      FirstUnline(line, SplitLines(rest));
    } else if s != "" {
      SplitLastLine(s);
      FirstUnline(s, []);
    }
  }

  lemma FirstUnline(line: string, lines: seq<string>)
    ensures Unlines([line] + lines) == line + "\n" + Unlines(lines)
  {
    assert ([line] + lines)[1..] == lines;
  }
}
