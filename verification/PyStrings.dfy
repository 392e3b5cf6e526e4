/** The few string operations of Python that the text scanners use. */
module PyStrings {
  predicate IsSpace(c: char) {
    c == ' ' || c == '\t' || c == '\n' || c == '\r' || c as int == 11 || c as int == 12
  }

  function StripLeft(s: string): string {
    if s != "" && IsSpace(s[0]) then StripLeft(s[1..]) else s
  }

  function StripRight(s: string): string {
    if s != "" && IsSpace(s[|s| - 1]) then StripRight(s[..|s| - 1]) else s
  }

  /** s.strip() */
  function Strip(s: string): string {
    StripRight(StripLeft(s))
  }

  /** The position of the first `c` from `from` on, or the length. */
  function Find(s: string, c: char, from: nat): (i: nat)
    requires from <= |s|
    ensures from <= i <= |s| && (forall k :: from <= k < i ==> s[k] != c) && (i < |s| ==> s[i] == c)
    decreases |s| - from
  {
    if from == |s| || s[from] == c then from else Find(s, c, from + 1)
  }

  lemma FindIs(s: string, c: char, from: nat, i: nat)
    requires from <= i <= |s| && (forall k :: from <= k < i ==> s[k] != c) && (i < |s| ==> s[i] == c)
    ensures Find(s, c, from) == i
  {
  }

  lemma StripSpaceBefore(s: string)
    ensures Strip(" " + s) == Strip(s)
  {
    assert (" " + s)[0] == ' ' && (" " + s)[1..] == s;
  }

  /** A text that neither starts nor ends with a space character is its own strip. */
  lemma StripKeeps(s: string)
    requires s != "" ==> !IsSpace(s[0]) && !IsSpace(s[|s| - 1])
    ensures Strip(s) == s
  {
  }

  /** A stripped text neither starts nor ends with a space character. */
  lemma StrippedEnds(s: string)
    requires Strip(s) == s && s != ""
    ensures !IsSpace(s[0]) && !IsSpace(s[|s| - 1])
  {
    StripShortens(s);
  }

  lemma {:induction false} StripShortens(s: string)
    ensures |StripRight(s)| <= |s| && |StripLeft(s)| <= |s|
    ensures s != "" && IsSpace(s[|s| - 1]) ==> |StripRight(s)| < |s|
    ensures s != "" && IsSpace(s[0]) ==> |Strip(s)| < |s|
    ensures |Strip(s)| <= |s|
    decreases |s|
  {
    if s != "" {
      StripShortens(s[1..]);
      StripShortens(s[..|s| - 1]);
      StripRightShortens(StripLeft(s));
    }
  }

  lemma {:induction false} StripRightShortens(s: string)
    ensures |StripRight(s)| <= |s|
  {
    if s != "" {
      StripRightShortens(s[..|s| - 1]);
    }
  }

  /** s.split(c) */
  function Split(s: string, c: char): (parts: seq<string>)
    ensures parts != []
    decreases |s|
  {
    var i := Find(s, c, 0);
    if i == |s| then [s] else [s[..i]] + Split(s[i + 1..], c)
  }

  lemma SplitOffFirst(a: string, c: char, b: string)
    requires c !in a
    ensures Split(a + [c] + b, c) == [a] + Split(b, c)
  {
    var s := a + [c] + b;
    assert s[|a|] == c && forall k :: 0 <= k < |a| ==> s[k] == a[k];
    FindIs(s, c, 0, |a|);
    assert s[..|a|] == a && s[|a| + 1..] == b;
  }

  lemma SplitWhole(s: string, c: char)
    requires c !in s
    ensures Split(s, c) == [s]
  {
    FindIs(s, c, 0, |s|);
  }

  predicate IsBlank(s: string) {
    forall k :: 0 <= k < |s| ==> IsSpace(s[k])
  }

  lemma {:induction false} StripLeftBlank(a: string, s: string)
    requires IsBlank(a) && (s != "" ==> !IsSpace(s[0]))
    ensures StripLeft(a + s) == s
  {
    if a == "" {
      assert a + s == s;
    } else {
      StripLeftBlank(a[1..], s);
      assert (a + s)[1..] == a[1..] + s;
    }
  }

  lemma {:induction false} StripRightBlank(s: string, b: string)
    requires IsBlank(b) && (s != "" ==> !IsSpace(s[|s| - 1]))
    ensures StripRight(s + b) == s
    decreases |b|
  {
    if b == "" {
      assert s + b == s;
    } else {
      var b' := b[..|b| - 1];
      StripRightBlank(s, b');
      assert (s + b)[..|s + b| - 1] == s + b' && (s + b)[|s + b| - 1] == b[|b| - 1];
    }
  }

  /** All space around a text is stripped. */
  lemma StripRemovesAll(a: string, s: string, b: string)
    requires IsBlank(a) && IsBlank(b) && s != "" && !IsSpace(s[0]) && !IsSpace(s[|s| - 1])
    ensures Strip(a + s + b) == s
  {
    hide StripLeft, StripRight;
    assert a + s + b == a + (s + b);
    StripLeftBlank(a, s + b);
    StripRightBlank(s, b);
  }
}
