/** Delimited blocks in C++ text: the grammar of nested blocks, the stack machine that scans
    them, and the proof that the machine accepts exactly the blocks of the grammar. */
module BlockGrammar {
  import opened Wrappers

  predicate IsQuote(c: char) {
    c == '\'' || c == '"'
  }

  predicate IsOpen(c: char) {
    c == '(' || c == '[' || c == '{' || c == '<'
  }

  predicate IsClose(c: char) {
    c == ')' || c == ']' || c == '}' || c == '>'
  }

  predicate IsOpening(c: char) {
    IsOpen(c) || IsQuote(c)
  }

  /** The delimiter that closes a block: the matching bracket, or the same quote. */
  function Closing(c: char): char
    requires IsOpening(c)
  {
    if c == '(' then ')' else if c == '[' then ']' else if c == '{' then '}' else if c == '<' then '>' else c
  }

  // ---------- the grammar ----------

  /** Inside quotes nothing but the closing quote counts; everywhere else brackets and quotes nest. */
  datatype Item = Plain(c: char) | Quoted(quote: char, body: string) | Group(open: char, items: seq<Item>)

  predicate WellFormed(i: Item) {
    match i
    case Plain(c) => !IsOpening(c) && !IsClose(c)
    case Quoted(q, body) => IsQuote(q) && q !in body
    case Group(o, items) => IsOpen(o) && forall k :: 0 <= k < |items| ==> WellFormed(items[k])
  }

  predicate AllWellFormed(items: seq<Item>) {
    forall k :: 0 <= k < |items| ==> WellFormed(items[k])
  }

  function Print(i: Item): string
    requires WellFormed(i)
    decreases i, 0
  {
    match i
    case Plain(c) => [c]
    case Quoted(q, body) => [q] + body + [q]
    case Group(o, items) => [o] + PrintAll(items) + [Closing(o)]
  }

  function PrintAll(items: seq<Item>): string
    requires AllWellFormed(items)
    decreases items, 1
  {
    if items == [] then "" else Print(items[0]) + PrintAll(items[1..])
  }

  /** The text is one block: a quoted string or a bracketed group. */
  ghost predicate IsBlock(text: string) {
    exists i: Item :: !i.Plain? && WellFormed(i) && Print(i) == text
  }

  // ---------- the machine ----------

  /** The stack after one character; None for a closing delimiter that does not match. */
  function Step(stack: seq<char>, c: char): Option<seq<char>>
    requires stack != [] && IsOpening(stack[|stack| - 1])
  {
    var top := stack[|stack| - 1];
    if c == Closing(top) then Some(stack[..|stack| - 1])
    else if IsQuote(top) then Some(stack)
    else if IsOpening(c) then Some(stack + [c])
    else if IsClose(c) then None
    else Some(stack)
  }

  predicate IsStack(stack: seq<char>) {
    forall k :: 0 <= k < |stack| ==> IsOpening(stack[k])
  }

  /** Scans from `pos` until the stack is empty: the position reached, or None. */
  function Scan(text: string, pos: nat, stack: seq<char>): Option<nat>
    requires pos <= |text| && IsStack(stack)
    decreases |text| - pos
  {
    if stack == [] then Some(pos)
    else if pos == |text| then None
    else
      match Step(stack, text[pos])
      case None => None
      case Some(next) => Scan(text, pos + 1, next)
  }

  /** The end of the block that opens at `start`. */
  function BlockEnd(text: string, start: nat): Option<nat>
    requires start < |text| && IsOpening(text[start])
  {
    Scan(text, start + 1, [text[start]])
  }

  ghost predicate At(text: string, pos: nat, s: string) {
    pos + |s| <= |text| && text[pos..pos + |s|] == s
  }

  lemma AtSplit(text: string, pos: nat, a: string, b: string)
    requires At(text, pos, a + b)
    ensures At(text, pos, a) && At(text, pos + |a|, b)
  {
    assert text[pos..pos + |a|] == (a + b)[..|a|];
    assert text[pos + |a|..pos + |a + b|] == (a + b)[|a|..];
  }

  // ---------- completeness: the machine runs over everything the grammar prints ----------

  lemma {:induction false} ScanQuoted(text: string, pos: nat, stack: seq<char>, q: char, body: string)
    requires IsStack(stack) && IsQuote(q) && q !in body && At(text, pos, body + [q])
    ensures Scan(text, pos, stack + [q]) == Scan(text, pos + |body| + 1, stack)
    decreases |body|
  {
    assert text[pos] == (body + [q])[0];
    if body == [] {
      assert (stack + [q])[..|stack|] == stack;
    } else {
      AtSplit(text, pos, [body[0]], body[1..] + [q]) by {
        assert [body[0]] + (body[1..] + [q]) == body + [q];
      }
      ScanQuoted(text, pos + 1, stack, q, body[1..]);
    }
  }

  /** A block takes the machine from below its opening delimiter back to where it was. */
  lemma {:induction false} ScanBlock(text: string, pos: nat, stack: seq<char>, i: Item)
    requires IsStack(stack) && !i.Plain? && WellFormed(i) && At(text, pos, Print(i))
    ensures pos < |text| && IsOpening(text[pos])
    ensures Scan(text, pos + 1, stack + [text[pos]]) == Scan(text, pos + |Print(i)|, stack)
    decreases i, 0
  {
    hide Scan;
    var open, rest := Print(i)[0], Print(i)[1..];
    assert Print(i) == [open] + rest;
    AtSplit(text, pos, [open], rest);
    assert text[pos] == open;
    match i
    case Quoted(q, body) =>
      assert rest == body + [q];
      ScanQuoted(text, pos + 1, stack, q, body);
    case Group(o, items) =>
      assert rest == PrintAll(items) + [Closing(o)];
      ScanGroup(text, pos + 1, stack, o, items);
  }

  lemma {:induction false} ScanItem(text: string, pos: nat, stack: seq<char>, i: Item)
    requires IsStack(stack) && stack != [] && IsOpen(stack[|stack| - 1])
    requires WellFormed(i) && At(text, pos, Print(i))
    ensures Scan(text, pos, stack) == Scan(text, pos + |Print(i)|, stack)
    decreases i, 1
  {
    if i.Plain? {
      assert text[pos] == Print(i)[0];
    } else {
      ScanBlock(text, pos, stack, i);
    }
  }

  /** The items of a group and its closing bracket take the machine back below the group's opening bracket. */
  lemma {:induction false} ScanGroup(text: string, pos: nat, stack: seq<char>, o: char, items: seq<Item>)
    requires IsStack(stack) && IsOpen(o) && AllWellFormed(items)
    requires At(text, pos, PrintAll(items) + [Closing(o)])
    ensures Scan(text, pos, stack + [o]) == Scan(text, pos + |PrintAll(items)| + 1, stack)
    decreases items, 2
  {
    if items == [] {
      assert text[pos] == (PrintAll(items) + [Closing(o)])[0];
      assert (stack + [o])[..|stack|] == stack;
    } else {
      var first, rest := Print(items[0]), PrintAll(items[1..]) + [Closing(o)];
      assert PrintAll(items) + [Closing(o)] == first + rest;
      AtSplit(text, pos, first, rest);
      ScanItem(text, pos, stack + [o], items[0]);
      ScanGroup(text, pos + |first|, stack, o, items[1..]);
    }
  }

  lemma BlockIsScanned(text: string, start: nat, end: nat)
    requires start <= end <= |text| && IsBlock(text[start..end])
    ensures start < |text| && IsOpening(text[start]) && BlockEnd(text, start) == Some(end)
  {
    hide Scan;
    var i: Item :| !i.Plain? && WellFormed(i) && Print(i) == text[start..end];
    ScanBlock(text, start, [], i);
    assert [] + [text[start]] == [text[start]];
    EmptyStackEnds(text, end);
  }

  lemma EmptyStackEnds(text: string, pos: nat)
    requires pos <= |text|
    ensures Scan(text, pos, []) == Some(pos)
  {
  }

  // ---------- soundness: a scan that ends has read a block ----------

  /** A scan that ends leaves the quote on top of the stack at its next occurrence. */
  lemma {:induction false} LeaveQuote(text: string, pos: nat, stack: seq<char>, q: char) returns (end: nat)
    requires pos <= |text| && IsStack(stack) && IsQuote(q) && Scan(text, pos, stack + [q]).Some?
    ensures pos < end <= |text| && text[end - 1] == q && q !in text[pos..end - 1]
    ensures Scan(text, end, stack) == Scan(text, pos, stack + [q])
    decreases |text| - pos
  {
    assert (stack + [q])[..|stack|] == stack;
    if text[pos] == q {
      end := pos + 1;
    } else {
      end := LeaveQuote(text, pos + 1, stack, q);
      assert text[pos..end - 1] == [text[pos]] + text[pos + 1..end - 1];
    }
  }

  /** A scan that ends leaves the bracket on top of the stack after a sequence of items and the closing bracket. */
  lemma {:induction false} LeaveGroup(text: string, pos: nat, stack: seq<char>, o: char) returns (items: seq<Item>, end: nat)
    requires pos <= |text| && IsStack(stack) && IsOpen(o) && Scan(text, pos, stack + [o]).Some?
    ensures pos < end <= |text| && text[end - 1] == Closing(o)
    ensures AllWellFormed(items) && PrintAll(items) == text[pos..end - 1]
    ensures Scan(text, end, stack) == Scan(text, pos, stack + [o])
    decreases |text| - pos, 2
  {
    var c := text[pos];
    assert (stack + [o])[..|stack|] == stack;
    if c == Closing(o) {
      items, end := [], pos + 1;
    } else {
      var first, mid := ReadItem(text, pos, stack + [o]);
      var rest;
      rest, end := LeaveGroup(text, mid, stack, o);
      items := [first] + rest;
      assert items[1..] == rest;
      assert text[pos..end - 1] == text[pos..mid] + text[mid..end - 1];
    }
  }

  /** A scan that ends reads one whole block from an opening delimiter on. */
  lemma {:induction false} ReadBlock(text: string, pos: nat, stack: seq<char>) returns (i: Item, end: nat)
    requires pos < |text| && IsStack(stack) && IsOpening(text[pos]) && Scan(text, pos + 1, stack + [text[pos]]).Some?
    ensures pos < end <= |text| && !i.Plain? && WellFormed(i) && Print(i) == text[pos..end]
    ensures Scan(text, end, stack) == Scan(text, pos + 1, stack + [text[pos]])
    decreases |text| - pos, 0
  {
    hide Scan;
    var c := text[pos];
    if IsQuote(c) {
      end := LeaveQuote(text, pos + 1, stack, c);
      i := Quoted(c, text[pos + 1..end - 1]);
    } else {
      var items;
      items, end := LeaveGroup(text, pos + 1, stack, c);
      i := Group(c, items);
    }
    assert text[pos..end] == [c] + text[pos + 1..end - 1] + [text[end - 1]];
  }

  /** A scan that ends reads one whole item, if it does not close the bracket on top of the stack. */
  lemma {:induction false} ReadItem(text: string, pos: nat, stack: seq<char>) returns (i: Item, end: nat)
    requires pos < |text| && IsStack(stack) && stack != [] && IsOpen(stack[|stack| - 1])
    requires text[pos] != Closing(stack[|stack| - 1]) && Scan(text, pos, stack).Some?
    ensures pos < end <= |text| && WellFormed(i) && Print(i) == text[pos..end]
    ensures Scan(text, end, stack) == Scan(text, pos, stack)
    decreases |text| - pos, 1
  {
    if IsOpening(text[pos]) {
      i, end := ReadBlock(text, pos, stack);
    } else {
      i, end := Plain(text[pos]), pos + 1;
    }
  }

  lemma ScannedIsBlock(text: string, start: nat)
    requires start < |text| && IsOpening(text[start]) && BlockEnd(text, start).Some?
    ensures start < BlockEnd(text, start).value <= |text| && IsBlock(text[start..BlockEnd(text, start).value])
  {
    hide Scan;
    assert [] + [text[start]] == [text[start]];
    var i, end := ReadBlock(text, start, []);
    EmptyStackEnds(text, end);
  }

  // ---------- the delimiters ----------

  const QUOTE1 := '\''
  const QUOTE2 := '"'
  const DELIMITERS := "()[]{}<>" + [QUOTE1, QUOTE2]

  function Plains(s: string): (items: seq<Item>)
    ensures |items| == |s| && forall k :: 0 <= k < |s| ==> items[k] == Plain(s[k])
  {
    seq(|s|, k requires 0 <= k < |s| => Plain(s[k]))
  }

  lemma {:induction false} PlainsPrint(s: string)
    requires forall k :: 0 <= k < |s| ==> s[k] !in DELIMITERS
    ensures AllWellFormed(Plains(s)) && PrintAll(Plains(s)) == s
  {
    forall k | 0 <= k < |s|
      ensures WellFormed(Plains(s)[k])
    {
      NoDelimiter(s[k]);
    }
    if s != "" {
      PlainsPrint(s[1..]);
      assert Plains(s)[1..] == Plains(s[1..]);
    }
  }

  lemma NoDelimiter(c: char)
    ensures c in DELIMITERS <==> IsOpening(c) || IsClose(c)
  {
    assert DELIMITERS[0] == '(' && DELIMITERS[1] == ')' && DELIMITERS[2] == '[' && DELIMITERS[3] == ']' && DELIMITERS[4] == '{';
    assert DELIMITERS[5] == '}' && DELIMITERS[6] == '<' && DELIMITERS[7] == '>' && DELIMITERS[8] == QUOTE1 && DELIMITERS[9] == QUOTE2;
  }

  /** Around a text without delimiters, exactly six pairs of characters make a block. */
  lemma PairsOfDelimiters(o: char, s: string, c: char)
    requires forall k :: 0 <= k < |s| ==> s[k] !in DELIMITERS
    ensures IsBlock([o] + s + [c]) <==>
              || (o == '(' && c == ')') || (o == '[' && c == ']') || (o == '{' && c == '}') || (o == '<' && c == '>')
              || (o == QUOTE1 && c == QUOTE1) || (o == QUOTE2 && c == QUOTE2)
  {
    var text := [o] + s + [c];
    if IsBlock(text) {
      var i: Item :| !i.Plain? && WellFormed(i) && Print(i) == text;
      assert text[0] == o && text[|text| - 1] == c;
    } else if IsOpen(o) && c == Closing(o) {
      PlainsPrint(s);
      assert WellFormed(Group(o, Plains(s))) && Print(Group(o, Plains(s))) == text;
    } else if IsQuote(o) && c == o {
      NoDelimiter(o);
      assert WellFormed(Quoted(o, s)) && Print(Quoted(o, s)) == text;
    }
  }

  /** Between quotes anything but that quote is allowed, and hidden. */
  lemma QuotesHide(q: char, body: string)
    requires q == QUOTE1 || q == QUOTE2
    ensures IsBlock([q] + body + [q]) <==> q !in body
  {
    var text := [q] + body + [q];
    if IsBlock(text) {
      var i: Item :| !i.Plain? && WellFormed(i) && Print(i) == text;
      assert text[0] == q && Print(i)[0] == q;
      assert i.Quoted? && |i.body| == |body|;
      forall k | 0 <= k < |body|
        ensures body[k] == i.body[k]
      {
        assert text[k + 1] == body[k] && Print(i)[k + 1] == i.body[k];
      }
      assert body == i.body;
    } else if q !in body {
      assert WellFormed(Quoted(q, body)) && Print(Quoted(q, body)) == text;
    }
  }
}
