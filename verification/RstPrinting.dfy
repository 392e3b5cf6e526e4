/** Printing doc blocks as comments in front of CMake entities, and reading them back. */
module RstPrinting {
  import opened Wrappers
  import opened PyStrings
  import opened TextLines
  import opened RstDocs

  /** A block as it stands in a file: other lines, the block's lines, and what follows the base name on the entity's line.
      Blank lines of the block whose index is in `bare` are written as a hash without a space. */
  datatype Doc = Doc(before: seq<string>, kind: string, name: string, lines: seq<string>, bare: set<nat>, after: string)

  function Marker(d: Doc): string {
    "# @" + d.kind + ":" + (" " + d.name)
  }

  function EntityLine(d: Doc): string {
    d.kind + "(" + (BaseName(d.name) + d.after)
  }

  /** The comment lines for the block's lines from index `from` on. */
  function Comments(lines: seq<string>, bare: set<nat>, from: nat): seq<string>
    requires from <= |lines|
    decreases |lines| - from
  {
    if from == |lines| then []
    else [if lines[from] == "" && from in bare then "#" else "# " + lines[from]] + Comments(lines, bare, from + 1)
  }

  function DocLines(d: Doc): seq<string> {
    d.before + ([Marker(d)] + (Comments(d.lines, d.bare, 0) + [EntityLine(d)]))
  }

  function AllLines(docs: seq<Doc>): seq<string> {
    if docs == [] then [] else DocLines(docs[0]) + AllLines(docs[1..])
  }

  /** The blocks by name, the last one of a name winning. */
  function Blocks(docs: seq<Doc>, blocks: map<string, DocBlock>): map<string, DocBlock> {
    if docs == [] then blocks
    else Blocks(docs[1..], blocks[docs[0].name := DocBlock(docs[0].kind, Unlines(docs[0].lines))])
  }

  /** Lines that open no block. */
  ghost predicate AreFiller(lines: seq<string>, kinds: seq<string>) {
    forall k :: 0 <= k < |lines| ==>
      '\n' !in lines[k] && (IsComment(lines[k]) ==> FirstKind("# @", kinds, lines[k]) == |kinds|)
  }

  ghost predicate IsPrintableKind(d: Doc, kinds: seq<string>) {
    && ':' !in d.kind && '(' !in d.kind && '\n' !in d.kind && Strip(d.kind) == d.kind
    && (d.kind != "" ==> d.kind[0] != '#')
    && var i := FirstKind("# @", kinds, Marker(d)); i < |kinds| && kinds[i] == d.kind
  }

  ghost predicate IsPrintableName(name: string) {
    && name != "" && Strip(name) == name && ':' !in name && '\n' !in name && name[0] != '('
    && var base := BaseName(name); ' ' !in base && Strip(base) == base && base != "" && base[|base| - 1] != ')'
  }

  /** Nothing, or a closing parenthesis, before the end of the line or a space. */
  ghost predicate IsPrintableEnd(after: string) {
    && '\n' !in after
    && (after == "" || after[0] == ' ' || after == ")" || (|after| > 1 && after[0] == ')' && after[1] == ' '))
  }

  ghost predicate Printable(d: Doc, kinds: seq<string>) {
    && AreFiller(d.before, kinds) && IsPrintableKind(d, kinds) && IsPrintableName(d.name) && IsPrintableEnd(d.after)
    && forall k :: 0 <= k < |d.lines| ==> '\n' !in d.lines[k]
  }

  ghost predicate AllPrintable(docs: seq<Doc>, kinds: seq<string>) {
    forall k :: 0 <= k < |docs| ==> Printable(docs[k], kinds)
  }

  // ---------- the marker line and the entity line ----------

  lemma MarkerOpens(d: Doc, kinds: seq<string>)
    requires IsPrintableKind(d, kinds) && IsPrintableName(d.name)
    ensures Opens(Marker(d), kinds, d.kind, d.name) && '\n' !in Marker(d)
  {
    hide FirstKind, BaseName;
    var head := "# @" + d.kind;
    assert Marker(d) == head + [':'] + (" " + d.name);
    SplitOffFirst(head, ':', " " + d.name);
    SplitWhole(" " + d.name, ':');
    StripSpaceBefore(d.name);
  }

  lemma BaseNameHasNoParenthesis(name: string)
    requires name != "" && name[0] != '('
    ensures '(' !in BaseName(name)
  {
    assert Find(name, '(', 0) > 0;
  }

  lemma {:induction false} StripRightStops(w: string, t: string)
    requires w != "" && !IsSpace(w[|w| - 1])
    ensures w <= StripRight(w + t) <= w + t
    decreases |t|
  {
    if t == "" {
      assert w + t == w;
    } else {
      StripRightStops(w, t[..|t| - 1]);
      assert (w + t)[..|w + t| - 1] == w + t[..|t| - 1];
    }
  }

  /** The first word of a line that starts with a word and goes on with a space, if it goes on. */
  lemma FirstWord(w: string, t: string)
    requires w != "" && Strip(w) == w && ' ' !in w && (t != "" ==> t[0] == ' ')
    ensures Split(Strip(w + t), ' ')[0] == w
  {
    hide Split;
    StrippedEnds(w);
    assert StripLeft(w + t) == w + t;
    StripRightStops(w, t);
    var s := Strip(w + t);
    var rest := s[|w|..];
    assert s == w + rest && rest == t[..|rest|];
    if rest == "" {
      assert s == w;
      SplitWhole(w, ' ');
    } else {
      assert rest == [' '] + rest[1..];
      assert s == w + [' '] + rest[1..];
      SplitOffFirst(w, ' ', rest[1..]);
    }
  }

  /** Cutting a text at the first parenthesis. */
  lemma FirstPart(w: string, t: string)
    requires '(' !in w
    ensures exists n :: 0 <= n <= |t| && Split(w + t, '(')[0] == w + t[..n]
  {
    var i := Find(t, '(', 0);
    var s := w + t;
    assert forall k :: 0 <= k < |w| + i ==> s[k] == (if k < |w| then w[k] else t[k - |w|]);
    FindIs(s, '(', 0, |w| + i);
    assert s[..|w| + i] == w + t[..i];
  }

  lemma EntityIsRead(d: Doc, kinds: seq<string>)
    requires Printable(d, kinds)
    ensures Entity(EntityLine(d)) == Success((d.kind, BaseName(d.name)))
    ensures !IsComment(EntityLine(d)) && '\n' !in EntityLine(d)
  {
    hide FirstKind, AreFiller;
    var base := BaseName(d.name);
    BaseNameHasNoParenthesis(d.name);
    SplitOffFirst(d.kind, '(', base + d.after);
    assert EntityLine(d) == d.kind + ['('] + (base + d.after);
    assert IsPrintableEnd(d.after) && IsPrintableName(d.name);
    NameIsRead(base, d.after);
    assert forall c :: c in base ==> c in d.name;
  }

  lemma NameIsRead(base: string, after: string)
    requires ' ' !in base && Strip(base) == base && base != "" && base[|base| - 1] != ')' && '(' !in base
    requires IsPrintableEnd(after)
    ensures var word := Strip(Split(Strip(Split(base + after, '(')[0]), ' ')[0]);
      word == if after != "" && after[0] == ')' then base + ")" else base
  {
    hide Split, Strip;
    FirstPart(base, after);
    var n: nat :| n <= |after| && Split(base + after, '(')[0] == base + after[..n];
    StrippedEnds(base);
    if after != "" && after[0] == ')' {
      ParenthesisComesAlong(base, after, n);
      var w := base + ")";
      assert base + after[..n] == w + after[1..n];
      StripKeeps(w);
      FirstWord(w, after[1..n]);
    } else {
      FirstWord(base, after[..n]);
    }
  }

  lemma ParenthesisComesAlong(base: string, after: string, n: nat)
    requires '(' !in base && after != "" && after[0] == ')'
    requires n <= |after| && Split(base + after, '(')[0] == base + after[..n]
    ensures n > 0
  {
    var s := base + after;
    assert forall k :: 0 <= k < |base| ==> s[k] == base[k];
    assert s[|base|] == ')';
    var i := Find(s, '(', 0);
    assert i > |base|;
    assert |Split(s, '(')[0]| == i;
  }

  // ---------- whole files ----------

  lemma {:induction false} FillerIsSkipped(lines: seq<string>, kinds: seq<string>, s: Scan)
    requires s.name == "" && AreFiller(lines, kinds)
    ensures ScanLines(lines, kinds, s) == Success(s)
  {
    hide FirstKind, CloseBlock;
    if lines != [] {
      FillerIsSkipped(lines[1..], kinds, s);
    }
  }

  lemma {:induction false} CommentsAreBody(lines: seq<string>, bare: set<nat>, from: nat, kinds: seq<string>, s: Scan)
    requires s.name != "" && from <= |lines|
    ensures ScanLines(Comments(lines, bare, from), kinds, s) == Success(s.(body := s.body + Unlines(lines[from..])))
    decreases |lines| - from
  {
    hide FirstKind, CloseBlock;
    if from == |lines| {
      assert lines[from..] == [];
      assert s.body + "" == s.body;
    } else {
      CommentIsRead(lines[from], from in bare, kinds, s);
      hide ScanLine;
      var s' := s.(body := s.body + lines[from] + "\n");
      CommentsAreBody(lines, bare, from + 1, kinds, s');
      assert lines[from..][0] == lines[from] && lines[from..][1..] == lines[from + 1..];
      assert s.body + Unlines(lines[from..]) == s'.body + Unlines(lines[from + 1..]);
    }
  }

  /** Both ways of writing a blank line add a blank line. */
  lemma CommentIsRead(text: string, isBare: bool, kinds: seq<string>, s: Scan)
    requires s.name != ""
    ensures var line := if text == "" && isBare then "#" else "# " + text;
      ScanLine(line, kinds, s) == Success(s.(body := s.body + text + "\n"))
  {
    hide FirstKind, CloseBlock;
    var line := "# " + text;
    assert line[0] == '#' && line[1] == ' ' && line[2..] == text;
  }

  /** Reading one printed block adds it, and leaves no block open. */
  lemma DocIsRead(d: Doc, kinds: seq<string>, s: Scan)
    requires Printable(d, kinds) && s.name == ""
    ensures ScanLines(DocLines(d), kinds, s)
         == Success(Scan("", "", Unlines(d.lines), s.blocks[d.name := DocBlock(d.kind, Unlines(d.lines))]))
  {
    FillerIsSkipped(d.before, kinds, s);
    MarkerOpens(d, kinds);
    EntityIsRead(d, kinds);
    var isOpen := Scan(d.name, d.kind, "", s.blocks);
    var isFull := isOpen.(body := Unlines(d.lines));
    MarkerIsRead(d, kinds, s);
    assert ScanLine(EntityLine(d), kinds, isFull)
        == Success(Scan("", "", isFull.body, s.blocks[d.name := DocBlock(d.kind, isFull.body)]));
    hide ScanLine, FirstKind, Opens, Marker, EntityLine, Printable;
    var comments, closing := Comments(d.lines, d.bare, 0), [EntityLine(d)];
    CommentsAreBody(d.lines, d.bare, 0, kinds, isOpen);
    assert d.lines[0..] == d.lines;
    assert isOpen.body + Unlines(d.lines) == Unlines(d.lines);
    ScanAppend(comments, closing, kinds, isOpen);
    assert closing[1..] == [];
    ScanAppend([Marker(d)], comments + closing, kinds, s);
    assert [Marker(d)][1..] == [];
    ScanAppend(d.before, [Marker(d)] + (comments + closing), kinds, s);
  }

  lemma MarkerIsRead(d: Doc, kinds: seq<string>, s: Scan)
    requires s.name == "" && Opens(Marker(d), kinds, d.kind, d.name)
    ensures ScanLine(Marker(d), kinds, s) == Success(Scan(d.name, d.kind, "", s.blocks))
  {
    hide Split, Strip, FirstKind, Marker;
  }

  lemma {:induction false} DocsAreRead(docs: seq<Doc>, kinds: seq<string>, s: Scan)
    requires AllPrintable(docs, kinds) && s.name == ""
    ensures ScanLines(AllLines(docs), kinds, s).Success?
    ensures var s' := ScanLines(AllLines(docs), kinds, s).value; s'.name == "" && s'.blocks == Blocks(docs, s.blocks)
    decreases |docs|
  {
    if docs != [] {
      var d := docs[0];
      DocIsRead(d, kinds, s);
      hide ScanLines, DocLines, Printable;
      DocsAreRead(docs[1..], kinds, ScanLines(DocLines(d), kinds, s).value);
      ScanAppend(DocLines(d), AllLines(docs[1..]), kinds, s);
    }
  }

  lemma {:induction false} CommentsAreLines(lines: seq<string>, bare: set<nat>, from: nat)
    requires from <= |lines| && forall k :: 0 <= k < |lines| ==> '\n' !in lines[k]
    ensures forall l :: l in Comments(lines, bare, from) ==> '\n' !in l
    decreases |lines| - from
  {
    if from < |lines| {
      CommentsAreLines(lines, bare, from + 1);
    }
  }

  lemma DocLinesAreLines(d: Doc, kinds: seq<string>)
    requires Printable(d, kinds)
    ensures forall l :: l in DocLines(d) ==> '\n' !in l
  {
    MarkerOpens(d, kinds);
    EntityIsRead(d, kinds);
    CommentsAreLines(d.lines, d.bare, 0);
  }

  lemma {:induction false} PrintedLinesAreLines(docs: seq<Doc>, kinds: seq<string>)
    requires AllPrintable(docs, kinds)
    ensures forall l :: l in AllLines(docs) ==> '\n' !in l
  {
    if docs != [] {
      hide Printable, DocLines;
      DocLinesAreLines(docs[0], kinds);
      PrintedLinesAreLines(docs[1..], kinds);
    }
  }

  /** Extraction inverts printing: whatever else stands between the blocks, they come back with their kinds and bodies. */
  lemma PrintedBlocksAreExtracted(docs: seq<Doc>, rest: seq<string>, kinds: seq<string>)
    requires AllPrintable(docs, kinds) && AreFiller(rest, kinds)
    ensures Extract(SplitLines(Unlines(AllLines(docs) + rest)), kinds) == Success(Blocks(docs, map[]))
  {
    hide FirstKind, ScanLines, SplitLines, Unlines, AllLines, Blocks, Printable;
    var lines := AllLines(docs) + rest;
    PrintedLinesAreLines(docs, kinds);
    SplitUnlines(lines, "");
    SplitEmpty();
    assert Unlines(lines) + "" == Unlines(lines) && lines + [] == lines;
    DocsAreRead(docs, kinds, START);
    ScanAppend(AllLines(docs), rest, kinds, START);
    FillerIsSkipped(rest, kinds, ScanLines(AllLines(docs), kinds, START).value);
  }

  lemma SplitEmpty()
    ensures SplitLines("") == []
  {
  }

  /** Blocks with different names all come back, and no others. */
  lemma {:induction false} DifferentNamesAreKept(docs: seq<Doc>, blocks: map<string, DocBlock>)
    requires forall i, j :: 0 <= i < j < |docs| ==> docs[i].name != docs[j].name
    requires forall i :: 0 <= i < |docs| ==> docs[i].name !in blocks
    ensures forall i :: 0 <= i < |docs| ==>
      docs[i].name in Blocks(docs, blocks) && Blocks(docs, blocks)[docs[i].name] == DocBlock(docs[i].kind, Unlines(docs[i].lines))
    ensures forall name :: name in blocks ==> name in Blocks(docs, blocks) && Blocks(docs, blocks)[name] == blocks[name]
    ensures |Blocks(docs, blocks)| == |blocks| + |docs|
    decreases |docs|
  {
    if docs != [] {
      var d, rest := docs[0], docs[1..];
      var blocks' := blocks[d.name := DocBlock(d.kind, Unlines(d.lines))];
      DifferentNamesAreKept(rest, blocks');
      forall i | 0 <= i < |docs|
        ensures docs[i].name in Blocks(docs, blocks)
        ensures Blocks(docs, blocks)[docs[i].name] == DocBlock(docs[i].kind, Unlines(docs[i].lines))
      {
        if i > 0 {
          assert docs[i] == rest[i - 1];
        }
      }
    }
  }

  // ---------- files that are broken off, and files with errors ----------

  /** Whole blocks, then the name and the comments of one more block. */
  function BrokenOff(docs: seq<Doc>, d: Doc): seq<string> {
    AllLines(docs) + (d.before + ([Marker(d)] + Comments(d.lines, d.bare, 0)))
  }

  /** The block that is open when the file breaks off. */
  function OpenBlock(docs: seq<Doc>, d: Doc): Scan {
    Scan(d.name, d.kind, Unlines(d.lines), Blocks(docs, map[]))
  }

  lemma BrokenOffIsRead(docs: seq<Doc>, d: Doc, kinds: seq<string>)
    requires AllPrintable(docs, kinds) && Printable(d, kinds)
    ensures ScanLines(BrokenOff(docs, d), kinds, START) == Success(OpenBlock(docs, d))
  {
    DocsAreRead(docs, kinds, START);
    var s := ScanLines(AllLines(docs), kinds, START).value;
    FillerIsSkipped(d.before, kinds, s);
    MarkerOpens(d, kinds);
    MarkerIsRead(d, kinds, s);
    var isOpen := Scan(d.name, d.kind, "", s.blocks);
    CommentsAreBody(d.lines, d.bare, 0, kinds, isOpen);
    hide ScanLine, FirstKind, Opens, Marker, Printable, AllLines, Blocks;
    assert d.lines[0..] == d.lines && "" + Unlines(d.lines) == Unlines(d.lines);
    var comments := Comments(d.lines, d.bare, 0);
    assert [Marker(d)][1..] == [];
    ScanAppend([Marker(d)], comments, kinds, s);
    ScanAppend(d.before, [Marker(d)] + comments, kinds, s);
    ScanAppend(AllLines(docs), d.before + ([Marker(d)] + comments), kinds, START);
  }

  /** A block that is still open at the end of the file is dropped. */
  lemma OpenBlockIsDropped(docs: seq<Doc>, d: Doc, kinds: seq<string>)
    requires AllPrintable(docs, kinds) && Printable(d, kinds)
    ensures Extract(BrokenOff(docs, d), kinds) == Success(Blocks(docs, map[]))
  {
    BrokenOffIsRead(docs, d, kinds);
  }

  /** The first line that cannot be read decides the result, whatever follows. */
  lemma FirstBadLineFails(lines: seq<string>, line: string, rest: seq<string>, kinds: seq<string>)
    requires ScanLines(lines, kinds, START).Success?
    requires ScanLine(line, kinds, ScanLines(lines, kinds, START).value).Failure?
    ensures Extract(lines + ([line] + rest), kinds) == Failure(ScanLine(line, kinds, ScanLines(lines, kinds, START).value).error)
  {
    hide ScanLine;
    ScanAppend(lines, [line] + rest, kinds, START);
    assert ([line] + rest)[0] == line;
  }

  /** What may not follow the comments of a block: a comment without a space, and every line that is not the block's entity. */
  lemma BadLineInBlock(docs: seq<Doc>, d: Doc, line: string, rest: seq<string>, kinds: seq<string>)
    requires AllPrintable(docs, kinds) && Printable(d, kinds)
    ensures var r := Extract(BrokenOff(docs, d) + ([line] + rest), kinds);
      && (|line| > 1 && line[0] == '#' && line[1] != ' ' ==> r == Failure(MissingSpace))
      && ((line == "" || line[0] != '#') && '(' !in line ==> r == Failure(NoEntity))
  {
    hide FirstKind, Strip, BaseName;
    BrokenOffIsRead(docs, d, kinds);
    if '(' !in line {
      SplitWhole(line, '(');
    }
    if ScanLine(line, kinds, OpenBlock(docs, d)).Failure? {
      FirstBadLineFails(BrokenOff(docs, d), line, rest, kinds);
    }
  }

  /** The entity of another kind or of another name ends the extraction. */
  lemma OtherEntityInBlock(docs: seq<Doc>, d: Doc, other: Doc, rest: seq<string>, kinds: seq<string>)
    requires AllPrintable(docs, kinds) && Printable(d, kinds) && Printable(other, kinds)
    requires other.kind != d.kind || BaseName(other.name) != BaseName(d.name)
    ensures Extract(BrokenOff(docs, d) + ([EntityLine(other)] + rest), kinds)
         == Failure(if other.kind != d.kind then WrongKind else WrongName)
  {
    BrokenOffIsRead(docs, d, kinds);
    EntityIsRead(other, kinds);
    assert d.name != "";
    hide ScanLines, Extract, EntityLine, BaseName, Entity, BrokenOff, Printable;
    FirstBadLineFails(BrokenOff(docs, d), EntityLine(other), rest, kinds);
  }

  /** So does an entity without a name. */
  lemma NamelessEntityInBlock(docs: seq<Doc>, d: Doc, rest: seq<string>, kinds: seq<string>)
    requires AllPrintable(docs, kinds) && Printable(d, kinds)
    ensures Extract(BrokenOff(docs, d) + ([d.kind + "("] + rest), kinds) == Failure(NoEntityName)
  {
    BrokenOffIsRead(docs, d, kinds);
    SplitOffFirst(d.kind, '(', "");
    SplitWhole("", '(');
    SplitWhole("", ' ');
    assert d.kind + ['('] + "" == d.kind + "(";
    hide FirstKind, Split, BaseName;
    assert Strip("") == "";
    FirstBadLineFails(BrokenOff(docs, d), d.kind + "(", rest, kinds);
  }

  ghost predicate HasTwoColons(line: string, a: string, b: string, c: string) {
    line == a + [':'] + (b + [':'] + c) && ':' !in a && ':' !in b
  }

  lemma WrongNumberOfColons(line: string)
    requires ':' !in line || exists a, b, c :: HasTwoColons(line, a, b, c)
    ensures |Split(line, ':')| != 2
  {
    if ':' !in line {
      SplitWhole(line, ':');
    } else {
      var a, b, c :| HasTwoColons(line, a, b, c);
      SplitOffFirst(a, ':', b + [':'] + c);
      SplitOffFirst(b, ':', c);
    }
  }

  /** Between blocks, a line that names a kind needs exactly one colon. */
  lemma MarkerNeedsOneColon(docs: seq<Doc>, line: string, rest: seq<string>, kinds: seq<string>)
    requires AllPrintable(docs, kinds) && IsComment(line) && FirstKind("# @", kinds, line) < |kinds|
    requires ':' !in line || exists a, b, c :: HasTwoColons(line, a, b, c)
    ensures Extract(AllLines(docs) + ([line] + rest), kinds) == Failure(MissingColon)
  {
    hide Split, Strip, FirstKind, ScanLines, HasTwoColons, Printable, AllLines;
    DocsAreRead(docs, kinds, START);
    WrongNumberOfColons(line);
    FirstBadLineFails(AllLines(docs), line, rest, kinds);
  }

  // ---------- space in markers and entity lines ----------

  lemma StripIgnoresBlank(before: string, s: string, after: string)
    requires IsBlank(before) && IsBlank(after) && s != "" && Strip(s) == s
    ensures Strip(before + s + after) == s
  {
    StrippedEnds(s);
    StripRemovesAll(before, s, after);
  }

  /** Space around the name of a block does not count. */
  lemma MarkerWithSpace(line: string, head: string, before: string, name: string, after: string, kinds: seq<string>, kind: string)
    requires line == head + ":" + (before + name + after) && IsBlank(before) && IsBlank(after)
    requires ':' !in head && ':' !in name && name != "" && Strip(name) == name
    requires IsComment(line) && FirstKind("# @", kinds, line) < |kinds| && kinds[FirstKind("# @", kinds, line)] == kind
    ensures Opens(line, kinds, kind, name)
  {
    hide FirstKind, Strip, Split, IsComment, IsBlank;
    ColonParts(head, before, name, after);
  }

  lemma ColonParts(head: string, before: string, name: string, after: string)
    requires ':' !in head && ':' !in name && name != "" && Strip(name) == name && IsBlank(before) && IsBlank(after)
    ensures var parts := Split(head + ":" + (before + name + after), ':'); |parts| == 2 && Strip(parts[1]) == name
  {
    hide Strip, Split;
    var tail := before + name + after;
    assert head + ":" + tail == head + [':'] + tail;
    SplitOffFirst(head, ':', tail);
    SplitWhole(tail, ':');
    StripIgnoresBlank(before, name, after);
  }

  /** Nor does space around the kind of an entity and before its name. */
  lemma EntityWithSpace(before: string, kind: string, after: string, gap: string, name: string, rest: string)
    requires IsBlank(before) && IsBlank(after) && IsBlank(gap)
    requires '(' !in kind && kind != "" && Strip(kind) == kind
    requires '(' !in name && ' ' !in name && name != "" && Strip(name) == name && name[|name| - 1] != ')'
    requires rest == "" || rest[0] == ' '
    requires '(' !in rest
    ensures Entity(before + kind + after + "(" + (gap + (name + rest))) == Success((kind, name))
  {
    hide Split, Strip;
    var head, tail := before + kind + after, gap + (name + rest);
    assert '(' !in head && '(' !in tail;
    assert head + "(" + tail == head + ['('] + tail;
    SplitOffFirst(head, '(', tail);
    SplitWhole(tail, '(');
    StripIgnoresBlank(before, kind, after);
    StripGap(gap, name, rest);
    FirstWord(name, rest);
  }

  lemma StripGap(gap: string, name: string, rest: string)
    requires IsBlank(gap) && name != "" && Strip(name) == name
    ensures Strip(gap + (name + rest)) == Strip(name + rest)
  {
    StrippedEnds(name);
    assert (name + rest)[0] == name[0];
    hide StripRight;
    StripLeftBlank(gap, name + rest);
    StripLeftBlank("", name + rest);
    assert "" + (name + rest) == name + rest;
  }
}
