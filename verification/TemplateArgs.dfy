/** The two text scanners of template_args.py: finding a delimited block, and removing comments. */
module TemplateArgs {
  import opened Wrappers
  import opened BlockGrammar

  // ---------- findBlock ----------

  datatype Found = NoOpening | Block(start: nat, end: nat) | Raised

  ghost predicate FirstOpening(text: string, pos: nat, start: nat) {
    pos <= start < |text| && IsOpening(text[start]) && forall k :: pos <= k < start ==> !IsOpening(text[k])
  }

  /** The regular expression search for any opening delimiter. */
  method SearchOpening(text: string, pos: nat) returns (start: nat)
    requires pos <= |text|
    ensures pos <= start <= |text|
    ensures start < |text| ==> FirstOpening(text, pos, start)
    ensures start == |text| ==> forall k :: pos <= k < |text| ==> !IsOpening(text[k])
  {
    start := pos;
    while start < |text| && !IsOpening(text[start])
      invariant pos <= start <= |text|
      invariant forall k :: pos <= k < start ==> !IsOpening(text[k])
    {
      start := start + 1;
    }
  }

  /** Whether `c` matches the regular expression that is active for the top of the stack. */
  predicate IsActive(top: char, c: char) {
    if IsQuote(top) then c == top else IsOpening(c) || IsClose(c)
  }

  /** The search for the next delimiter that counts: characters before it leave the scan where it is. */
  method SearchActive(text: string, pos: nat, stack: seq<char>) returns (next: nat)
    requires pos <= |text| && IsStack(stack) && stack != []
    ensures pos <= next <= |text| && (next < |text| ==> IsActive(stack[|stack| - 1], text[next]))
    ensures Scan(text, next, stack) == Scan(text, pos, stack)
  {
    var top := stack[|stack| - 1];
    next := pos;
    while next < |text| && !IsActive(top, text[next])
      invariant pos <= next <= |text|
      invariant Scan(text, next, stack) == Scan(text, pos, stack)
    {
      assert Step(stack, text[next]) == Some(stack);
      next := next + 1;
    }
  }

  /** Finds the block at the first opening delimiter from `pos` on. The result is a block of the grammar, none of whose
      proper prefixes is one; and it is found whenever there is one. */
  method FindBlock(text: string, pos: nat) returns (r: Found)
    requires pos <= |text|
    ensures r.NoOpening? <==> forall k :: pos <= k < |text| ==> !IsOpening(text[k])
    ensures r.Block? ==>
              && FirstOpening(text, pos, r.start) && r.start < r.end <= |text| && IsBlock(text[r.start..r.end])
              && forall e :: r.start <= e < r.end ==> !IsBlock(text[r.start..e])
    ensures r.Raised? ==>
              exists start: nat :: FirstOpening(text, pos, start) && forall e :: start <= e <= |text| ==> !IsBlock(text[start..e])
  {
    var start := SearchOpening(text, pos);
    if start == |text| {
      return NoOpening;
    }
    var stack := [text[start]];
    var at := start + 1;
    while true
      invariant start < at <= |text| && stack != [] && IsStack(stack)
      invariant Scan(text, at, stack) == BlockEnd(text, start)
      decreases |text| - at
    {
      var next := SearchActive(text, at, stack);
      if next == |text| {
        NoBlockFrom(text, start);
        return Raised;
      }
      var delimiter, top := text[next], stack[|stack| - 1];
      at := next + 1;
      if delimiter == Closing(top) {
        stack := stack[..|stack| - 1];
        if stack == [] {
          OnlyBlockFrom(text, start);
          return Block(start, at);
        }
      } else if IsOpening(delimiter) {
        stack := stack + [delimiter];
      } else {
        NoBlockFrom(text, start);
        return Raised;
      }
    }
  }

  lemma NoBlockFrom(text: string, start: nat)
    requires start < |text| && IsOpening(text[start]) && BlockEnd(text, start) == None
    ensures forall e :: start <= e <= |text| ==> !IsBlock(text[start..e])
  {
    forall e | start <= e <= |text|
      ensures !IsBlock(text[start..e])
    {
      if IsBlock(text[start..e]) {
        BlockIsScanned(text, start, e);
      }
    }
  }

  /** Blocks are prefix-free: at most one ends a text that starts at a given place. */
  lemma OnlyBlockFrom(text: string, start: nat)
    requires start < |text| && IsOpening(text[start]) && BlockEnd(text, start).Some?
    ensures var end := BlockEnd(text, start).value;
            start < end <= |text| && forall e :: start <= e <= |text| ==> (IsBlock(text[start..e]) <==> e == end)
  {
    ScannedIsBlock(text, start);
    forall e | start <= e <= |text| && IsBlock(text[start..e])
      ensures e == BlockEnd(text, start).value
    {
      BlockIsScanned(text, start, e);
    }
  }

  // ---------- removeComments ----------

  predicate Pair(text: string, i: int, a: char, b: char) {
    0 <= i && i + 1 < |text| && text[i] == a && text[i + 1] == b
  }

  /** A complete comment: an opening at `i` and a closing that does not overlap it at `j`. */
  predicate CommentAt(text: string, i: int, j: int) {
    Pair(text, i, '/', '*') && i + 2 <= j && Pair(text, j, '*', '/')
  }

  ghost predicate HasCComment(text: string) {
    exists i, j :: CommentAt(text, i, j)
  }

  ghost predicate HasLineComment(text: string) {
    exists i :: Pair(text, i, '/', '/')
  }

  /** The first place of a two-character token from `from` on, or the length of the text. */
  function NextPair(text: string, from: nat, a: char, b: char): (i: nat)
    requires from <= |text|
    ensures from <= i <= |text|
    ensures i < |text| ==> Pair(text, i, a, b)
    ensures forall k :: from <= k < i ==> !Pair(text, k, a, b)
    decreases |text| - from
  {
    if from == |text| || Pair(text, from, a, b) then from else NextPair(text, from + 1, a, b)
  }

  /** The leftmost, shortest complete comment. */
  function SearchCComment(text: string): (r: Option<(nat, nat)>)
    ensures r.None? <==> !HasCComment(text)
    ensures r.Some? ==>
              var (i, j) := r.value;
              && CommentAt(text, i, j - 2)
              && (forall k, l :: CommentAt(text, k, l) ==> i <= k)
              && (forall l :: CommentAt(text, i, l) ==> j - 2 <= l)
  {
    var i := NextPair(text, 0, '/', '*');
    if i == |text| then None
    else
      var j := NextPair(text, i + 2, '*', '/');
      assert j < |text| ==> CommentAt(text, i, j);
      if j == |text| then None else Some((i, j + 2))
  }

  function EndOfLine(text: string, from: nat): (e: nat)
    requires from <= |text|
    ensures from <= e <= |text| && (e < |text| ==> text[e] == '\n')
    ensures forall k :: from <= k < e ==> text[k] != '\n'
    decreases |text| - from
  {
    if from == |text| || text[from] == '\n' then from else EndOfLine(text, from + 1)
  }

  function SearchLineComment(text: string): (r: Option<(nat, nat)>)
    ensures r.None? <==> !HasLineComment(text)
    ensures r.Some? ==> var (i, e) := r.value; Pair(text, i, '/', '/') && i + 2 <= e <= |text| && (e < |text| ==> text[e] == '\n')
  {
    var i := NextPair(text, 0, '/', '/');
    if i == |text| then None else Some((i, EndOfLine(text, i)))
  }

  function StripCComments(text: string): string
    decreases |text|
  {
    match SearchCComment(text)
    case None => text
    case Some((i, j)) => StripCComments(text[..i] + text[j..])
  }

  function StripLineComments(text: string): string
    decreases |text|
  {
    match SearchLineComment(text)
    case None => text
    case Some((i, e)) => StripLineComments(text[..i] + text[e..])
  }

  function WithoutComments(text: string): string {
    StripLineComments(StripCComments(text))
  }

  /** Removes one match after the other, first C comments, then line comments. */
  method RemoveComments(text: string) returns (r: string)
    ensures r == WithoutComments(text)
    ensures !HasCComment(r) && !HasLineComment(r)
  {
    r := text;
    var found := SearchCComment(r);
    while found.Some?
      invariant found == SearchCComment(r) && StripCComments(r) == StripCComments(text)
      decreases |r|
    {
      var (i, j) := found.value;
      r := r[..i] + r[j..];
      found := SearchCComment(r);
    }
    var found' := SearchLineComment(r);
    while found'.Some?
      invariant found' == SearchLineComment(r) && !HasCComment(r)
      invariant StripLineComments(r) == StripLineComments(StripCComments(text))
      decreases |r|
    {
      var (i, e) := found'.value;
      CutKeepsNoCComment(r, i, e);
      r := r[..i] + r[e..];
      found' := SearchLineComment(r);
    }
  }

  /** Cutting out the rest of a line never creates a C comment: the cut is followed by a line end or by nothing. */
  lemma CutKeepsNoCComment(text: string, i: nat, e: nat)
    requires i <= e <= |text| && (e < |text| ==> text[e] == '\n')
    requires !HasCComment(text)
    ensures !HasCComment(text[..i] + text[e..])
  {
    var cut := text[..i] + text[e..];
    if k, l :| CommentAt(cut, k, l) {
      var k', l' := if k < i then k else k + e - i, if l < i then l else l + e - i;
      assert CommentAt(text, k', l');
    }
  }

  lemma {:induction false} StripCCommentsRemovesAll(text: string)
    ensures !HasCComment(StripCComments(text))
    decreases |text|
  {
    match SearchCComment(text)
    case None =>
    case Some((i, j)) => StripCCommentsRemovesAll(text[..i] + text[j..]);
  }

  lemma {:induction false} StripLineCommentsRemovesAll(text: string)
    requires !HasCComment(text)
    ensures !HasLineComment(StripLineComments(text)) && !HasCComment(StripLineComments(text))
    decreases |text|
  {
    match SearchLineComment(text)
    case None =>
    case Some((i, e)) =>
      CutKeepsNoCComment(text, i, e);
      StripLineCommentsRemovesAll(text[..i] + text[e..]);
  }

  /** Removing comments twice is removing them once. */
  lemma RemoveCommentsIsIdempotent(text: string)
    ensures WithoutComments(WithoutComments(text)) == WithoutComments(text)
  {
    StripCCommentsRemovesAll(text);
    StripLineCommentsRemovesAll(StripCComments(text));
  }

  // ---------- line comments, line by line ----------

  /** A line up to its first "//". */
  function CutLine(line: string): string {
    line[..NextPair(line, 0, '/', '/')]
  }

  lemma NextPairShifted(pre: string, text: string, from: nat, a: char, b: char)
    requires from <= |text|
    ensures NextPair(pre + text, |pre| + from, a, b) == |pre| + NextPair(text, from, a, b)
    decreases |text| - from
  {
    assert Pair(pre + text, |pre| + from, a, b) <==> Pair(text, from, a, b);
    if from < |text| {
      NextPairShifted(pre, text, from + 1, a, b);
    }
  }

  lemma EndOfLineShifted(pre: string, text: string, from: nat)
    requires from <= |text|
    ensures EndOfLine(pre + text, |pre| + from) == |pre| + EndOfLine(text, from)
    decreases |text| - from
  {
    if from < |text| {
      EndOfLineShifted(pre, text, from + 1);
    }
  }

  lemma NextPairIs(text: string, from: nat, next: nat, a: char, b: char)
    requires from <= next <= |text| && forall k :: from <= k < next ==> !Pair(text, k, a, b)
    ensures NextPair(text, from, a, b) == NextPair(text, next, a, b)
    decreases next - from
  {
    if from < next {
      NextPairIs(text, from + 1, next, a, b);
    }
  }

  lemma EndOfLineIs(text: string, from: nat, e: nat)
    requires from <= e <= |text| && (e < |text| ==> text[e] == '\n')
    requires forall k :: from <= k < e ==> text[k] != '\n'
    ensures EndOfLine(text, from) == e
    decreases e - from
  {
    if from < e {
      EndOfLineIs(text, from + 1, e);
    }
  }

  /** Whole lines without a comment stay as they are. */
  lemma {:induction false} PlainLinesStay(lines: string, rest: string)
    requires lines != "" && lines[|lines| - 1] == '\n' && !HasLineComment(lines)
    ensures StripLineComments(lines + rest) == lines + StripLineComments(rest)
    decreases |rest|
  {
    hide NextPair, EndOfLine;
    var text := lines + rest;
    NoPairInLines(lines, rest);
    NextPairIs(text, 0, |lines|, '/', '/');
    NextPairShifted(lines, rest, 0, '/', '/');
    hide Pair, HasLineComment;
    var i := NextPair(rest, 0, '/', '/');
    if i < |rest| {
      EndOfLineShifted(lines, rest, i);
      var e := EndOfLine(rest, i);
      CutShifted(lines, rest, i, e);
      PlainLinesStay(lines, rest[..i] + rest[e..]);
    }
  }

  lemma NoPairInLines(lines: string, rest: string)
    requires lines != "" && lines[|lines| - 1] == '\n' && !HasLineComment(lines)
    ensures forall k :: 0 <= k < |lines| ==> !Pair(lines + rest, k, '/', '/')
  {
    forall k | 0 <= k < |lines|
      ensures !Pair(lines + rest, k, '/', '/')
    {
      assert !Pair(lines, k, '/', '/') && (lines + rest)[|lines| - 1] == '\n';
    }
  }

  lemma CutShifted(lines: string, rest: string, i: nat, e: nat)
    requires i <= e <= |rest|
    ensures (lines + rest)[..|lines| + i] + (lines + rest)[|lines| + e..] == lines + (rest[..i] + rest[e..])
  {
  }

  /** A comment in the first line is cut off up to the line end. */
  lemma FirstCut(line: string, tail: string, i: nat)
    requires '\n' !in line && i == NextPair(line, 0, '/', '/') < |line| && (tail == "" || tail[0] == '\n')
    ensures StripLineComments(line + tail) == StripLineComments(line[..i] + tail)
  {
    hide NextPair, EndOfLine;
    var text := line + tail;
    forall k | 0 <= k < i
      ensures !Pair(text, k, '/', '/')
    {
      assert !Pair(line, k, '/', '/');
    }
    assert Pair(text, i, '/', '/') by {
      assert Pair(line, i, '/', '/');
    }
    NextPairIs(text, 0, i, '/', '/');
    NextPairFound(text, i, '/', '/');
    EndOfLineIs(text, i, |line|);
    assert text[..i] == line[..i] && text[|line|..] == tail;
  }

  lemma NextPairFound(text: string, i: nat, a: char, b: char)
    requires i < |text| && Pair(text, i, a, b)
    ensures NextPair(text, i, a, b) == i
  {
  }

  /** Stripping line comments cuts every line at its first "//" and keeps all line ends. */
  lemma {:induction false} StripsLineByLine(line: string, rest: string)
    requires '\n' !in line
    ensures StripLineComments(line) == CutLine(line)
    ensures StripLineComments(line + ("\n" + rest)) == CutLine(line) + ("\n" + StripLineComments(rest))
  {
    hide StripLineComments, NextPair;
    var i, cut := NextPair(line, 0, '/', '/'), CutLine(line);
    assert forall k :: Pair(cut, k, '/', '/') ==> Pair(line, k, '/', '/');
    if i < |line| {
      FirstCut(line, "", i);
      FirstCut(line, "\n" + rest, i);
    }
    assert line + "" == line && cut + "" == cut;
    NoCommentStays(cut);
    assert !HasLineComment(cut + "\n") by {
      if k :| Pair(cut + "\n", k, '/', '/') {
        assert Pair(cut, k, '/', '/');
      }
    }
    PlainLinesStay(cut + "\n", rest);
    assert cut + "\n" + rest == cut + ("\n" + rest);
    assert cut + "\n" + StripLineComments(rest) == cut + ("\n" + StripLineComments(rest));
  }

  lemma NoCommentStays(text: string)
    requires !HasLineComment(text)
    ensures StripLineComments(text) == text
  {
  }

  // ---------- what is removed, and what is kept ----------

  /** The leftmost C comment is cut out, and everything around it is treated as if it had never been there. */
  lemma CCommentIsCut(a: string, body: string, b: string)
    requires (forall k :: !Pair(a, k, '/', '*')) && (forall k :: !Pair(body, k, '*', '/'))
    ensures StripCComments(a + "/*" + body + "*/" + b) == StripCComments(a + b)
    ensures WithoutComments(a + "/*" + body + "*/" + b) == WithoutComments(a + b)
  {
    hide NextPair, StripLineComments;
    var text := a + "/*" + body + "*/" + b;
    var i, j := |a|, |a| + 2 + |body|;
    assert forall k :: 0 <= k < i ==> text[k] == a[k];
    assert text[i] == '/' && text[i + 1] == '*';
    assert forall k :: 0 <= k < |body| ==> text[i + 2 + k] == body[k];
    assert text[j] == '*' && text[j + 1] == '/';
    forall k | 0 <= k < i
      ensures !Pair(text, k, '/', '*')
    {
      assert !Pair(a, k, '/', '*');
    }
    forall k | i + 2 <= k < j
      ensures !Pair(text, k, '*', '/')
    {
      assert !Pair(body, k - i - 2, '*', '/');
    }
    NextPairIs(text, 0, i, '/', '*');
    NextPairFound(text, i, '/', '*');
    NextPairIs(text, i + 2, j, '*', '/');
    NextPairFound(text, j, '*', '/');
    assert text[..i] + text[j + 2..] == a + b;
  }

  /** A text without a complete C comment loses only its line comments, and one without these either stays as it is. */
  lemma NothingElseIsRemoved(text: string)
    requires !HasCComment(text)
    ensures StripCComments(text) == text && WithoutComments(text) == StripLineComments(text)
    ensures !HasLineComment(text) ==> WithoutComments(text) == text
  {
  }

  /** A line comment is cut out up to its line end; the lines behind it are treated on their own. */
  lemma LineCommentIsCut(a: string, comment: string, rest: string)
    requires '\n' !in a && '\n' !in comment && !HasLineComment(a + "/")
    requires !HasCComment(a + "//" + comment + ("\n" + rest))
    ensures WithoutComments(a + "//" + comment + ("\n" + rest)) == a + ("\n" + WithoutComments(rest))
  {
    hide StripLineComments, NextPair;
    var line := a + "//" + comment;
    var text := line + ("\n" + rest);
    NothingElseIsRemoved(text);
    forall k, l
      ensures !CommentAt(rest, k, l)
    {
      assert CommentAt(rest, k, l) ==> CommentAt(text, |line| + 1 + k, |line| + 1 + l);
    }
    NothingElseIsRemoved(rest);
    forall k | 0 <= k < |a|
      ensures !Pair(line, k, '/', '/')
    {
      assert !Pair(a + "/", k, '/', '/');
    }
    NextPairIs(line, 0, |a|, '/', '/');
    NextPairFound(line, |a|, '/', '/');
    assert line[..|a|] == a;
    StripsLineByLine(line, rest);
  }
}
