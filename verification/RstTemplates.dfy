/** Putting doc blocks into a reStructuredText template: a marker line becomes a section with the block's body. */
module RstTemplates {
  import opened Wrappers
  import opened PyStrings
  import opened TextLines
  import opened RstDocs
  import opened RstPrinting

  function NonEmpty(words: seq<string>): seq<string> {
    if words == [] then []
    else if words[|words| - 1] == "" then NonEmpty(words[..|words| - 1])
    else NonEmpty(words[..|words| - 1]) + [words[|words| - 1]]
  }

  method RemoveEmptyElements(arrayIn: seq<string>) returns (arrayOut: seq<string>)
    ensures arrayOut == NonEmpty(arrayIn)
  {
    arrayOut := [];
    var i := 0;
    while i < |arrayIn|
      invariant 0 <= i <= |arrayIn| && arrayOut == NonEmpty(arrayIn[..i])
    {
      assert arrayIn[..i + 1][..i] == arrayIn[..i];
      if arrayIn[i] != "" {
        arrayOut := arrayOut + [arrayIn[i]];
      }
      i := i + 1;
    }
    assert arrayIn[..|arrayIn|] == arrayIn;
  }

  /** sepChar * lineLen */
  function Underline(c: char, n: nat): string {
    seq(n, i => c)
  }

  function Section(name: string, c: char, body: string): string {
    name + "\n" + Underline(c, |name|) + "\n" + body
  }

  /** The section for a marker line, None for a line that is to be copied. */
  function ReplaceLine(line: string, kinds: seq<string>, blocks: map<string, DocBlock>): Result<Option<string>, Error> {
    var i := FirstKind("@", kinds, line);
    if i == |kinds| || |Split(line, ':')| == 1 then Success(None)
    else
      var words := NonEmpty(Split(Strip(Split(line, ':')[1]), ' '));
      if |words| != 2 then Failure(BadMarker)
      else
        var name, sep := Strip(words[0]), Strip(words[1]);
        if |sep| != 1 then Failure(BadSeparator)
        else if name !in blocks then Failure(NoSuchBlock)
        else if blocks[name].kind != kinds[i] then Failure(WrongBlockKind)
        else Success(Some(Section(name, sep[0], blocks[name].body)))
  }

  /** The text for the lines, in which a blank last line leaves nothing. */
  function Replace(lines: seq<string>, kinds: seq<string>, blocks: map<string, DocBlock>): Result<string, Error> {
    if lines == [] then Success("")
    else
      match ReplaceLine(lines[0], kinds, blocks)
      case Failure(e) => Failure(e)
      case Success(None) => Behind(if lines == [""] then "" else lines[0] + "\n", Replace(lines[1..], kinds, blocks))
      case Success(Some(section)) => Behind(section, Replace(lines[1..], kinds, blocks))
  }

  function Behind(text: string, r: Result<string, Error>): Result<string, Error> {
    match r
    case Failure(e) => Failure(e)
    case Success(rest) => Success(text + rest)
  }

  lemma BehindNothing(r: Result<string, Error>)
    ensures Behind("", r) == r
    ensures forall text :: Behind(text, Success("")) == Success(text)
    ensures forall text, e :: Behind(text, Failure(e)) == Failure(e)
  {
    if r.Success? {
      assert "" + r.value == r.value;
    }
    forall text: string
      ensures Behind(text, Success("")) == Success(text)
    {
      assert text + "" == text;
    }
  }

  lemma BehindTwice(a: string, b: string, r: Result<string, Error>)
    ensures Behind(a, Behind(b, r)) == Behind(a + b, r)
  {
    if r.Success? {
      assert a + (b + r.value) == (a + b) + r.value;
    }
  }

  method ReplaceMarker(line: string, kinds: seq<string>, blocks: map<string, DocBlock>) returns (r: Result<Option<string>, Error>)
    ensures r == ReplaceLine(line, kinds, blocks)
  {
    var i := FindBlockType("@", kinds, line);
    if i == |kinds| {
      return Success(None);
    }
    var lineSplitArray := Split(line, ':');
    if |lineSplitArray| == 1 {
      return Success(None);
    }
    var rstBlockNameAndSecCharArray := RemoveEmptyElements(Split(Strip(lineSplitArray[1]), ' '));
    if |rstBlockNameAndSecCharArray| != 2 {
      return Failure(BadMarker);
    }
    var rstBlockName := Strip(rstBlockNameAndSecCharArray[0]);
    var rstBlockSecChar := Strip(rstBlockNameAndSecCharArray[1]);
    if |rstBlockSecChar| != 1 {
      return Failure(BadSeparator);
    }
    if rstBlockName !in blocks {
      return Failure(NoSuchBlock);
    }
    if blocks[rstBlockName].kind != kinds[i] {
      return Failure(WrongBlockKind);
    }
    var rstSecStr := Underline(rstBlockSecChar[0], |rstBlockName|);
    return Success(Some(rstBlockName + "\n" + rstSecStr + "\n" + blocks[rstBlockName].body));
  }

  method ReplaceWithRstDocBlocksInText(textToReplace: string, kinds: seq<string>, blocks: map<string, DocBlock>)
    returns (r: Result<string, Error>)
    ensures r == Replace(SplitLines(textToReplace), kinds, blocks)
  {
    hide ReplaceLine, SplitLines, Behind;
    var replacedText := "";
    var lines := SplitLines(textToReplace);
    var i := 0;
    assert lines[0..] == lines;
    BehindNothing(Replace(lines, kinds, blocks));
    while i < |lines|
      invariant 0 <= i <= |lines|
      invariant Behind(replacedText, Replace(lines[i..], kinds, blocks)) == Replace(lines, kinds, blocks)
    {
      var line := lines[i];
      ghost var before, rest := replacedText, Replace(lines[i + 1..], kinds, blocks);
      assert lines[i..][0] == line && lines[i..][1..] == lines[i + 1..];
      i := i + 1;
      var section := ReplaceMarker(line, kinds, blocks);
      if section.Failure? {
        return Failure(section.error);
      }
      if section.value.Some? {
        replacedText := replacedText + section.value.value;
        BehindTwice(before, section.value.value, rest);
      } else if !(i == |lines| && line == "") {
        replacedText := replacedText + (line + "\n");
        BehindTwice(before, line + "\n", rest);
      } else {
        BehindTwice(before, "", rest);
      }
    }
    return Success(replacedText);
  }

  // ---------- templates as they are written ----------

  datatype Item = Copy(line: string) | Use(kind: string, name: string, sep: char)

  function Line(item: Item): string {
    match item
    case Copy(line) => line
    case Use(kind, name, sep) => "@" + kind + ":" + (" " + (name + " " + [sep]))
  }

  function Lines(items: seq<Item>): seq<string> {
    if items == [] then [] else [Line(items[0])] + Lines(items[1..])
  }

  function Expand(item: Item, blocks: map<string, DocBlock>): string
    requires item.Use? ==> item.name in blocks
  {
    match item
    case Copy(line) => line + "\n"
    case Use(_, name, sep) => Section(name, sep, blocks[name].body)
  }

  function ExpandAll(items: seq<Item>, blocks: map<string, DocBlock>): string
    requires forall k :: 0 <= k < |items| && items[k].Use? ==> items[k].name in blocks
  {
    if items == [] then "" else Expand(items[0], blocks) + ExpandAll(items[1..], blocks)
  }

  ghost predicate Writable(item: Item, kinds: seq<string>, blocks: map<string, DocBlock>) {
    '\n' !in Line(item)
    && match item
       case Copy(line) => FirstKind("@", kinds, line) == |kinds| || ':' !in line
       case Use(kind, name, sep) =>
         && ':' !in kind && FirstKind("@", kinds, Line(item)) < |kinds| && kinds[FirstKind("@", kinds, Line(item))] == kind
         && name != "" && Strip(name) == name && ' ' !in name && ':' !in name
         && !IsSpace(sep) && sep != ':'
         && name in blocks && blocks[name].kind == kind
  }

  ghost predicate AllWritable(items: seq<Item>, kinds: seq<string>, blocks: map<string, DocBlock>) {
    forall k :: 0 <= k < |items| ==> Writable(items[k], kinds, blocks)
  }

  lemma WordsOfMarker(name: string, sep: string)
    requires name != "" && Strip(name) == name && ' ' !in name
    requires sep != "" && Strip(sep) == sep && ' ' !in sep
    ensures NonEmpty(Split(Strip(" " + (name + " " + sep)), ' ')) == [name, sep]
    ensures NonEmpty(Split(Strip(" " + name), ' ')) == [name]
  {
    hide Split, Strip, StripLeft, StripRight;
    var s := name + " " + sep;
    StrippedEnds(name);
    StrippedEnds(sep);
    StripKeeps(s);
    StripSpaceBefore(s);
    StripSpaceBefore(name);
    assert s == name + [' '] + sep;
    SplitOffFirst(name, ' ', sep);
    SplitWhole(sep, ' ');
    SplitWhole(name, ' ');
    assert [name] + [sep] == [name, sep];
    TwoWords(name, sep);
  }

  lemma TwoWords(a: string, b: string)
    requires a != "" && b != ""
    ensures NonEmpty([a]) == [a] && NonEmpty([a, b]) == [a, b]
  {
    assert [a][..0] == [] && [a, b][..1] == [a];
  }

  lemma ItemIsReplaced(item: Item, kinds: seq<string>, blocks: map<string, DocBlock>)
    requires Writable(item, kinds, blocks)
    ensures ReplaceLine(Line(item), kinds, blocks) == Success(if item.Copy? then None else Some(Expand(item, blocks)))
  {
    hide Split, Strip, FirstKind, NonEmpty;
    match item
    case Copy(line) =>
      if ':' !in line {
        SplitWhole(line, ':');
      }
    case Use(kind, name, sep) =>
      var head, tail := "@" + kind, " " + (name + " " + [sep]);
      assert Line(item) == head + [':'] + tail;
      SplitOffFirst(head, ':', tail);
      SplitWhole(tail, ':');
      StripKeeps([sep]);
      WordsOfMarker(name, [sep]);
  }

  lemma {:induction false} LinesAreReplaced(items: seq<Item>, last: seq<string>, kinds: seq<string>, blocks: map<string, DocBlock>)
    requires AllWritable(items, kinds, blocks)
    requires last == [""] || (last == [] && (items != [] ==> items[|items| - 1] != Copy("")))
    ensures Replace(Lines(items) + last, kinds, blocks) == Success(ExpandAll(items, blocks))
    decreases |items|
  {
    if items == [] {
      NothingIsReplaced(last, kinds, blocks);
      assert Lines(items) + last == last;
    } else {
      var lines, rest := Lines(items) + last, Lines(items[1..]) + last;
      FirstItemIsReplaced(items[0], rest, kinds, blocks) by {
        if rest == [] {
          LinesLength(items[1..]);
        }
      }
      hide ReplaceLine, Writable, Expand, Line, Replace;
      LinesAreReplaced(items[1..], last, kinds, blocks);
      assert lines == [Line(items[0])] + rest;
    }
  }

  lemma {:induction false} LinesLength(items: seq<Item>)
    ensures |Lines(items)| == |items|
  {
    if items != [] {
      LinesLength(items[1..]);
    }
  }

  lemma FirstItemIsReplaced(item: Item, rest: seq<string>, kinds: seq<string>, blocks: map<string, DocBlock>)
    requires Writable(item, kinds, blocks) && (rest == [] ==> item != Copy(""))
    ensures Replace([Line(item)] + rest, kinds, blocks) == Behind(Expand(item, blocks), Replace(rest, kinds, blocks))
  {
    ItemIsReplaced(item, kinds, blocks);
    hide ReplaceLine, Writable, Section;
    assert ([Line(item)] + rest)[1..] == rest;
    if rest != [] {
      assert [Line(item)] + rest != [""] by {
        assert |[Line(item)] + rest| > 1;
      }
    }
  }

  lemma NothingIsReplaced(last: seq<string>, kinds: seq<string>, blocks: map<string, DocBlock>)
    requires last == [""] || last == []
    ensures Replace(last, kinds, blocks) == Success("")
  {
    if last != [] {
      assert FirstKind("@", kinds, "") == |kinds|;
      assert last[1..] == [];
      BehindNothing(Success(""));
    }
  }

  /** Marker lines become sections and all other lines are copied, except for one blank last line. */
  lemma TemplateIsExpanded(items: seq<Item>, blankLast: bool, kinds: seq<string>, blocks: map<string, DocBlock>)
    requires AllWritable(items, kinds, blocks)
    requires blankLast || items == [] || items[|items| - 1] != Copy("")
    ensures var text := Unlines(Lines(items)) + (if blankLast then "\n" else "");
      Replace(SplitLines(text), kinds, blocks) == Success(ExpandAll(items, blocks))
  {
    hide Replace, ExpandAll, SplitLines, Lines, Unlines, FirstKind;
    var last := if blankLast then [""] else [];
    var end := if blankLast then "\n" else "";
    WrittenLinesAreLines(items, kinds, blocks);
    SplitUnlines(Lines(items), end);
    assert SplitLines(end) == last by {
      SplitEmpty();
      SplitFirstLine("", "");
      assert "" + "\n" + "" == "\n";
    }
    LinesAreReplaced(items, last, kinds, blocks);
  }

  lemma {:induction false} WrittenLinesAreLines(items: seq<Item>, kinds: seq<string>, blocks: map<string, DocBlock>)
    requires AllWritable(items, kinds, blocks)
    ensures forall l :: l in Lines(items) ==> '\n' !in l
  {
    if items != [] {
      hide Line;
      WrittenLinesAreLines(items[1..], kinds, blocks);
    }
  }

  /** From source files to the document: a marker shows the body that was printed in the comments of that entity. */
  lemma MarkerShowsPrintedBody(docs: seq<Doc>, rest: seq<string>, kinds: seq<string>, k: nat, sep: char)
    requires AllPrintable(docs, kinds) && AreFiller(rest, kinds)
    requires forall i, j :: 0 <= i < j < |docs| ==> docs[i].name != docs[j].name
    requires k < |docs| && ' ' !in docs[k].name && !IsSpace(sep) && sep != ':'
    requires var line := Line(Use(docs[k].kind, docs[k].name, sep));
      '\n' !in line && FirstKind("@", kinds, line) < |kinds| && kinds[FirstKind("@", kinds, line)] == docs[k].kind
    ensures Extract(SplitLines(Unlines(AllLines(docs) + rest)), kinds).Success?
    ensures var blocks := Extract(SplitLines(Unlines(AllLines(docs) + rest)), kinds).value;
      ReplaceLine(Line(Use(docs[k].kind, docs[k].name, sep)), kinds, blocks)
      == Success(Some(Section(docs[k].name, sep, Unlines(docs[k].lines))))
  {
    hide Extract, SplitLines, Unlines, AllLines, ReplaceLine, FirstKind, BaseName, Split, Strip, Blocks, AreFiller;
    PrintedBlocksAreExtracted(docs, rest, kinds);
    DifferentNamesAreKept(docs, map[]);
    ItemIsReplaced(Use(docs[k].kind, docs[k].name, sep), kinds, Blocks(docs, map[]));
  }

  // ---------- the section, and markers with errors ----------

  /** A section is the name, a line of the separator as long as the name, and the body. */
  lemma SectionIsUnderlined(name: string, c: char, body: string)
    requires '\n' !in name && c != '\n'
    ensures var lines := SplitLines(Section(name, c, body));
      && |lines| == 2 + |SplitLines(body)| && lines[0] == name && lines[2..] == SplitLines(body)
      && |lines[1]| == |name| && forall k :: 0 <= k < |lines[1]| ==> lines[1][k] == c
  {
    hide SplitLines;
    var underline := Underline(c, |name|);
    assert '\n' !in underline;
    assert Section(name, c, body) == name + "\n" + (underline + "\n" + body);
    SplitFirstLine(name, underline + "\n" + body);
    SplitFirstLine(underline, body);
  }

  /** The kind that a marker line names, if it names one. */
  ghost predicate NamesKind(line: string, kinds: seq<string>, kind: string) {
    FirstKind("@", kinds, line) < |kinds| && kinds[FirstKind("@", kinds, line)] == kind
  }

  /** A marker with a name and a separator: which blocks and separators it accepts, and the error for each other one. */
  lemma MarkerIsCheckedInOrder(kind: string, name: string, sep: string, kinds: seq<string>, blocks: map<string, DocBlock>)
    requires ':' !in kind && ':' !in name && ':' !in sep
    requires name != "" && Strip(name) == name && ' ' !in name
    requires sep != "" && Strip(sep) == sep && ' ' !in sep
    requires NamesKind("@" + kind + ":" + (" " + (name + " " + sep)), kinds, kind)
    ensures ReplaceLine("@" + kind + ":" + (" " + (name + " " + sep)), kinds, blocks)
         == if |sep| != 1 then Failure(BadSeparator)
            else if name !in blocks then Failure(NoSuchBlock)
            else if blocks[name].kind != kind then Failure(WrongBlockKind)
            else Success(Some(Section(name, sep[0], blocks[name].body)))
  {
    hide Split, Strip, FirstKind, NonEmpty;
    var head, tail := "@" + kind, " " + (name + " " + sep);
    assert head + ":" + tail == head + [':'] + tail;
    SplitOffFirst(head, ':', tail);
    SplitWhole(tail, ':');
    WordsOfMarker(name, sep);
  }

  /** A marker without a separator is an error. */
  lemma MarkerNeedsSeparator(kind: string, name: string, kinds: seq<string>, blocks: map<string, DocBlock>)
    requires ':' !in kind && ':' !in name && name != "" && Strip(name) == name && ' ' !in name
    requires NamesKind("@" + kind + ":" + (" " + name), kinds, kind)
    ensures ReplaceLine("@" + kind + ":" + (" " + name), kinds, blocks) == Failure(BadMarker)
  {
    hide Split, Strip, FirstKind, NonEmpty;
    var head, tail := "@" + kind, " " + name;
    assert head + ":" + tail == head + [':'] + tail;
    SplitOffFirst(head, ':', tail);
    SplitWhole(tail, ':');
    assert Strip("-") == "-" by {
      StripKeeps("-");
    }
    WordsOfMarker(name, "-");
  }

  /** Dropping empty words keeps all others in their order. */
  lemma {:induction false} NonEmptyTogether(a: seq<string>, b: seq<string>)
    ensures NonEmpty(a + b) == NonEmpty(a) + NonEmpty(b)
    decreases |b|
  {
    if b == [] {
      assert a + b == a;
    } else {
      var init := b[..|b| - 1];
      NonEmptyTogether(a, init);
      assert (a + b)[..|a + b| - 1] == a + init;
    }
  }

  lemma {:induction false} SpacesAreEmptyWords(n: nat, word: string)
    requires ' ' !in word && word != ""
    ensures NonEmpty(Split(Underline(' ', n) + word, ' ')) == [word]
  {
    var s := Underline(' ', n) + word;
    if n == 0 {
      assert s == word;
      SplitWhole(word, ' ');
      TwoWords(word, word);
    } else {
      var rest := Underline(' ', n - 1) + word;
      SpacesAreEmptyWords(n - 1, word);
      assert s == "" + [' '] + rest;
      SplitOffFirst("", ' ', rest);
      NonEmptyTogether([""], Split(rest, ' '));
      assert [""][..0] == [] && NonEmpty([""]) == [];
    }
  }

  /** Any number of spaces may stand between the name and the separator of a marker. */
  lemma MoreSpacesBetweenWords(name: string, n: nat, sep: string)
    requires ' ' !in name && name != "" && ' ' !in sep && sep != ""
    ensures NonEmpty(Split(name + " " + (Underline(' ', n) + sep), ' ')) == [name, sep]
  {
    var rest := Underline(' ', n) + sep;
    assert name + " " + rest == name + [' '] + rest;
    SplitOffFirst(name, ' ', rest);
    SpacesAreEmptyWords(n, sep);
    NonEmptyTogether([name], Split(rest, ' '));
    TwoWords(name, sep);
  }

  /** The first marker with an error decides the result, whatever follows. */
  lemma {:induction false} FirstBadMarkerFails(items: seq<Item>, line: string, rest: seq<string>, kinds: seq<string>, blocks: map<string, DocBlock>)
    requires AllWritable(items, kinds, blocks) && ReplaceLine(line, kinds, blocks).Failure?
    ensures Replace(Lines(items) + ([line] + rest), kinds, blocks) == Failure(ReplaceLine(line, kinds, blocks).error)
    decreases |items|
  {
    hide ReplaceLine, Writable;
    var lines := [line] + rest;
    if items == [] {
      assert Lines(items) + lines == lines && lines[0] == line;
    } else {
      FirstBadMarkerFails(items[1..], line, rest, kinds, blocks);
      FirstItemIsReplaced(items[0], Lines(items[1..]) + lines, kinds, blocks);
      assert Lines(items) + lines == [Line(items[0])] + (Lines(items[1..]) + lines);
    }
  }
}
