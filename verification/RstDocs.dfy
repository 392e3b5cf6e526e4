/** Doc blocks in the comments of CMake files: taking them out, and putting them into a reStructuredText template. */
module RstDocs {
  import opened Wrappers
  import opened PyStrings
  import opened TextLines

  datatype DocBlock = DocBlock(kind: string, body: string)

  datatype Error =
    | MissingColon | MissingSpace | NoEntity | NoEntityName | WrongKind | WrongName
    | BadMarker | BadSeparator | NoSuchBlock | WrongBlockKind

  /** The variables of the extraction loop; an empty name means that no block is open. */
  datatype Scan = Scan(name: string, kind: string, body: string, blocks: map<string, DocBlock>)

  const START := Scan("", "", "", map[])

  predicate IsComment(line: string) {
    line != "" && line[0] == '#'
  }

  predicate HasMargin(line: string) {
    |line| > 1 ==> line[1] == ' '
  }

  function Uncomment(line: string): string {
    if |line| < 2 then "" else line[2..]
  }

  /** The index of the first kind that follows `before` at the start of the line, or the number of kinds. */
  function FirstKind(before: string, kinds: seq<string>, line: string): (i: nat)
    ensures i <= |kinds| && forall k :: 0 <= k < i ==> !(before + kinds[k] <= line)
    ensures i < |kinds| ==> before + kinds[i] <= line
  {
    if kinds == [] || before + kinds[0] <= line then 0 else FirstKind(before, kinds[1..], line) + 1
  }

  function BaseName(name: string): string {
    var i := Find(name, '(', 0);
    if 0 < i < |name| then name[..i] else name
  }

  /** The kind and the name of the CMake entity on a line, for a line with an opening parenthesis and a name after it. */
  function Entity(line: string): Result<(string, string), Error> {
    var parts := Split(line, '(');
    if |parts| == 1 then Failure(NoEntity)
    else
      var word := Strip(Split(Strip(parts[1]), ' ')[0]);
      if word == "" then Failure(NoEntityName)
      else Success((Strip(parts[0]), if word[|word| - 1] == ')' then word[..|word| - 1] else word))
  }

  function CloseBlock(line: string, s: Scan): Result<Scan, Error> {
    match Entity(line)
    case Failure(e) => Failure(e)
    case Success((kind, name)) =>
      if kind != s.kind then Failure(WrongKind)
      else if name != BaseName(s.name) then Failure(WrongName)
      else Success(Scan("", "", s.body, s.blocks[s.name := DocBlock(s.kind, s.body)]))
  }

  function ScanLine(line: string, kinds: seq<string>, s: Scan): Result<Scan, Error> {
    if IsComment(line) && s.name == "" then
      var i := FirstKind("# @", kinds, line);
      if i == |kinds| then Success(s)
      else if |Split(line, ':')| != 2 then Failure(MissingColon)
      else Success(Scan(Strip(Split(line, ':')[1]), kinds[i], "", s.blocks))
    else if IsComment(line) then
      if HasMargin(line) then Success(s.(body := s.body + Uncomment(line) + "\n")) else Failure(MissingSpace)
    else if s.name == "" then Success(s)
    else CloseBlock(line, s)
  }

  function ScanLines(lines: seq<string>, kinds: seq<string>, s: Scan): Result<Scan, Error> {
    if lines == [] then Success(s)
    else
      match ScanLine(lines[0], kinds, s)
      case Failure(e) => Failure(e)
      case Success(s') => ScanLines(lines[1..], kinds, s')
  }

  function Extract(lines: seq<string>, kinds: seq<string>): Result<map<string, DocBlock>, Error> {
    match ScanLines(lines, kinds, START)
    case Failure(e) => Failure(e)
    case Success(s) => Success(s.blocks)
  }

  method FindBlockType(before: string, kinds: seq<string>, line: string) returns (i: nat)
    ensures i == FirstKind(before, kinds, line)
  {
    i := 0;
    while i < |kinds|
      invariant i <= |kinds| && forall k :: 0 <= k < i ==> !(before + kinds[k] <= line)
    {
      if before + kinds[i] <= line {
        return;
      }
      i := i + 1;
    }
  }

  method GetLineEntityTypeAndName(line: string) returns (r: Result<(string, string), Error>)
    ensures r == Entity(line)
  {
    var lineSplit := Split(line, '(');
    if |lineSplit| == 1 {
      return Failure(NoEntity);
    }
    var lineEntityType := Strip(lineSplit[0]);
    var lineEntityName := Strip(Split(Strip(lineSplit[1]), ' ')[0]);
    if lineEntityName == "" {
      return Failure(NoEntityName);
    }
    if lineEntityName[|lineEntityName| - 1] == ')' {
      lineEntityName := lineEntityName[..|lineEntityName| - 1];
    }
    return Success((lineEntityType, lineEntityName));
  }

  method ExtractRstDocBlocksFromText(rawText: string, kinds: seq<string>) returns (r: Result<map<string, DocBlock>, Error>)
    ensures r == Extract(SplitLines(rawText), kinds)
  {
    hide Split, Strip, SplitLines, FirstKind, Entity, BaseName;
    var lines := SplitLines(rawText);
    var rstDocBlocks: map<string, DocBlock> := map[];
    var inRstDocBlock, currentRstDocBlockType, currentRstBlockBody := "", "", "";
    var i := 0;
    while i < |lines|
      invariant 0 <= i <= |lines|
      invariant ScanLines(lines[i..], kinds, Scan(inRstDocBlock, currentRstDocBlockType, currentRstBlockBody, rstDocBlocks))
             == ScanLines(lines, kinds, START)
    {
      var line := lines[i];
      assert lines[i..][0] == line && lines[i..][1..] == lines[i + 1..];
      var inCommentBlock := line != "" && line[0] == '#';
      var justFoundBlockBeginning := false;
      if inCommentBlock && inRstDocBlock == "" {
        var t := FindBlockType("# @", kinds, line);
        if t < |kinds| {
          currentRstDocBlockType := kinds[t];
          var splitOnColon := Split(line, ':');
          if |splitOnColon| != 2 {
            return Failure(MissingColon);
          }
          inRstDocBlock := Strip(splitOnColon[1]);
          currentRstBlockBody := "";
          justFoundBlockBeginning := true;
        }
      }
      if !justFoundBlockBeginning {
        if inCommentBlock && inRstDocBlock != "" {
          if |line| > 1 && line[1] != ' ' {
            return Failure(MissingSpace);
          }
          var rstBlockBodyLine := Uncomment(line);
          currentRstBlockBody := currentRstBlockBody + rstBlockBodyLine + "\n";
        }
        if !inCommentBlock && inRstDocBlock != "" {
          var inRstDocBlockBaseName := BaseName(inRstDocBlock);
          var entity := GetLineEntityTypeAndName(line);
          if entity.Failure? {
            return Failure(entity.error);
          }
          if entity.value.0 != currentRstDocBlockType {
            return Failure(WrongKind);
          }
          if entity.value.1 != inRstDocBlockBaseName {
            return Failure(WrongName);
          }
          rstDocBlocks := rstDocBlocks[inRstDocBlock := DocBlock(currentRstDocBlockType, currentRstBlockBody)];
          inRstDocBlock, currentRstDocBlockType := "", "";
        }
      }
      i := i + 1;
    }
    return Success(rstDocBlocks);
  }

  // ---------- every extracted block is written in the text ----------

  ghost predicate Opens(line: string, kinds: seq<string>, kind: string, name: string) {
    && IsComment(line)
    && FirstKind("# @", kinds, line) < |kinds| && kinds[FirstKind("# @", kinds, line)] == kind
    && |Split(line, ':')| == 2 && Strip(Split(line, ':')[1]) == name
  }

  /** The text of lines that are all comments with a margin. */
  function BodyOf(lines: seq<string>): string {
    if lines == [] then "" else BodyOf(lines[..|lines| - 1]) + Uncomment(lines[|lines| - 1]) + "\n"
  }

  ghost predicate AllComments(lines: seq<string>) {
    forall k :: 0 <= k < |lines| ==> IsComment(lines[k]) && HasMargin(lines[k])
  }

  /** Line `a` names the block, line `b` declares the entity, and the comment lines between them are the body. */
  ghost predicate IsSource(lines: seq<string>, kinds: seq<string>, name: string, block: DocBlock, a: nat, b: nat) {
    && a < b < |lines|
    && Opens(lines[a], kinds, block.kind, name)
    && AllComments(lines[a + 1..b]) && block.body == BodyOf(lines[a + 1..b])
    && !IsComment(lines[b]) && Entity(lines[b]) == Success((block.kind, BaseName(name)))
  }

  ghost predicate IsOpenSince(lines: seq<string>, kinds: seq<string>, s: Scan, a: nat) {
    && a < |lines|
    && Opens(lines[a], kinds, s.kind, s.name)
    && AllComments(lines[a + 1..]) && s.body == BodyOf(lines[a + 1..])
  }

  lemma {:induction false} ScanAppend(a: seq<string>, b: seq<string>, kinds: seq<string>, s: Scan)
    ensures ScanLines(a + b, kinds, s)
         == (match ScanLines(a, kinds, s) case Failure(e) => Failure(e) case Success(s') => ScanLines(b, kinds, s'))
  {
    if a == [] {
      assert a + b == b;
    } else {
      hide ScanLine;
      assert (a + b)[0] == a[0] && (a + b)[1..] == a[1..] + b;
      match ScanLine(a[0], kinds, s) {
        case Failure(e) =>
        case Success(s') => ScanAppend(a[1..], b, kinds, s');
      }
    }
  }

  lemma SourceStays(lines: seq<string>, kinds: seq<string>, name: string, block: DocBlock, a: nat, b: nat, more: seq<string>)
    requires IsSource(lines, kinds, name, block, a, b)
    ensures IsSource(lines + more, kinds, name, block, a, b)
  {
    assert (lines + more)[a + 1..b] == lines[a + 1..b];
  }

  /** No block is made up: each one stands in the text with its kind, its body and its entity. */
  lemma {:induction false} EveryBlockHasItsSource(lines: seq<string>, kinds: seq<string>)
    requires ScanLines(lines, kinds, START).Success?
    ensures var s := ScanLines(lines, kinds, START).value;
      && (forall name :: name in s.blocks ==> exists a, b :: IsSource(lines, kinds, name, s.blocks[name], a, b))
      && (s.name != "" ==> exists a :: IsOpenSince(lines, kinds, s, a))
  {
    if lines != [] {
      var front, line := lines[..|lines| - 1], lines[|lines| - 1];
      assert front + [line] == lines;
      ScanAppend(front, [line], kinds, START);
      assert [line][1..] == [];
      EveryBlockHasItsSource(front, kinds);
      var s := ScanLines(front, kinds, START).value;
      assert ScanLine(line, kinds, s) == ScanLines(lines, kinds, START);
      SourceOfNextLine(front, line, kinds, s);
    }
  }

  lemma SourceOfNextLine(front: seq<string>, line: string, kinds: seq<string>, s: Scan)
    requires forall name :: name in s.blocks ==> exists a, b :: IsSource(front, kinds, name, s.blocks[name], a, b)
    requires s.name != "" ==> exists a :: IsOpenSince(front, kinds, s, a)
    requires ScanLine(line, kinds, s).Success?
    ensures var s', lines := ScanLine(line, kinds, s).value, front + [line];
      && (forall name :: name in s'.blocks ==> exists a, b :: IsSource(lines, kinds, name, s'.blocks[name], a, b))
      && (s'.name != "" ==> exists a :: IsOpenSince(lines, kinds, s', a))
  {
    hide Split, Strip, FirstKind, BaseName, Entity, BodyOf, AllComments;
    var s', lines := ScanLine(line, kinds, s).value, front + [line];
    forall name | name in s'.blocks
      ensures exists a, b :: IsSource(lines, kinds, name, s'.blocks[name], a, b)
    {
      if name in s.blocks && s'.blocks[name] == s.blocks[name] {
        var a, b :| IsSource(front, kinds, name, s.blocks[name], a, b);
        SourceStays(front, kinds, name, s.blocks[name], a, b, [line]);
      } else {
        var a :| IsOpenSince(front, kinds, s, a);
        assert lines[a + 1..|front|] == front[a + 1..];
        assert IsSource(lines, kinds, name, s'.blocks[name], a, |front|);
      }
    }
    if s'.name != "" {
      if s.name == "" {
        BlockJustOpened(front, line, kinds, s');
      } else {
        var a :| IsOpenSince(front, kinds, s, a);
        BlockStaysOpen(front, line, kinds, s, a);
      }
    }
  }

  lemma BlockJustOpened(front: seq<string>, line: string, kinds: seq<string>, s: Scan)
    requires Opens(line, kinds, s.kind, s.name) && s.body == ""
    ensures IsOpenSince(front + [line], kinds, s, |front|)
  {
    assert (front + [line])[|front| + 1..] == [];
  }

  lemma BlockStaysOpen(front: seq<string>, line: string, kinds: seq<string>, s: Scan, a: nat)
    requires IsOpenSince(front, kinds, s, a) && IsComment(line) && HasMargin(line)
    ensures IsOpenSince(front + [line], kinds, s.(body := s.body + Uncomment(line) + "\n"), a)
  {
    hide Opens, IsComment, HasMargin, Uncomment;
    var body := (front + [line])[a + 1..];
    assert body == front[a + 1..] + [line];
    assert body[..|body| - 1] == front[a + 1..];
  }

  /** The base name is what stands before the first parenthesis, unless the name starts with it. */
  lemma BaseNameIs(base: string, rest: string)
    requires '(' !in base && base != ""
    ensures BaseName(base) == base && BaseName(base + "(" + rest) == base && BaseName("(" + rest) == "(" + rest
  {
    var name := base + "(" + rest;
    assert name[|base|] == '(' && forall k :: 0 <= k < |base| ==> name[k] == base[k];
    FindIs(name, '(', 0, |base|);
    assert name[..|base|] == base;
    FindIs(base, '(', 0, |base|);
    FindIs("(" + rest, '(', 0, 0);
  }
}
