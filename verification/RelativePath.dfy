/** Relative paths between absolute directories: building one, resolving one, and why the
    one built goes up as rarely as possible. */
module RelativePath {

  // ---------- strings and path components ----------

  function IndexOfSlash(s: string): (i: nat)
    ensures i <= |s| && forall k :: 0 <= k < i ==> s[k] != '/'
    ensures i < |s| ==> s[i] == '/'
  {
    if s == "" || s[0] == '/' then 0 else IndexOfSlash(s[1..]) + 1
  }

  /** s.split('/') */
  function SplitPath(s: string): (r: seq<string>)
    ensures r != []
    decreases |s|
  {
    var i := IndexOfSlash(s);
    if i == |s| then [s] else [s[..i]] + SplitPath(s[i + 1..])
  }

  /** What joinDirs computes: separators go only after something non-empty. */
  function JoinedDirs(dirs: seq<string>): string {
    if dirs == [] then ""
    else
      var before := JoinedDirs(dirs[..|dirs| - 1]);
      if before == "" then dirs[|dirs| - 1] else before + "/" + dirs[|dirs| - 1]
  }

  /** os.path.join of two parts. */
  function PathJoin(a: string, b: string): string {
    if b != "" && b[0] == '/' then b
    else if a == "" || a[|a| - 1] == '/' then a + b
    else a + "/" + b
  }

  lemma IndexOfSlashIs(s: string, i: nat)
    requires i <= |s| && (forall k :: 0 <= k < i ==> s[k] != '/') && (i < |s| ==> s[i] == '/')
    ensures IndexOfSlash(s) == i
  {
    if i > 0 {
      IndexOfSlashIs(s[1..], i - 1);
    }
  }

  lemma SplitName(name: string)
    requires '/' !in name
    ensures SplitPath(name) == [name]
  {
    IndexOfSlashIs(name, |name|);
  }

  lemma SplitAtSlash(s: string, i: nat)
    requires i < |s| && s[i] == '/' && forall k :: 0 <= k < i ==> s[k] != '/'
    ensures SplitPath(s) == [s[..i]] + SplitPath(s[i + 1..])
  {
    IndexOfSlashIs(s, i);
  }

  /** Splitting a joined path splits both parts. */
  lemma {:induction false} SplitJoined(a: string, b: string)
    ensures SplitPath(a + "/" + b) == SplitPath(a) + SplitPath(b)
    decreases |a|
  {
    hide SplitPath;
    var s, i := a + "/" + b, IndexOfSlash(a);
    assert forall k :: 0 <= k < |a| ==> s[k] == a[k];
    assert s[|a|] == '/';
    SplitAtSlash(s, i);
    assert s[..i] == a[..i];
    if i == |a| {
      assert s[i + 1..] == b && a[..i] == a;
      SplitName(a);
    } else {
      assert s[i + 1..] == a[i + 1..] + "/" + b;
      SplitAtSlash(a, i);
      SplitJoined(a[i + 1..], b);
    }
  }

  ghost predicate AreNames(dirs: seq<string>) {
    forall k :: 0 <= k < |dirs| ==> dirs[k] != "" && '/' !in dirs[k]
  }

  /** Splitting undoes joining names. */
  lemma {:induction false} SplitJoinedDirs(dirs: seq<string>)
    requires dirs != [] && AreNames(dirs)
    ensures SplitPath(JoinedDirs(dirs)) == dirs && JoinedDirs(dirs) != "" && JoinedDirs(dirs)[0] != '/'
  {
    var init, last := dirs[..|dirs| - 1], dirs[|dirs| - 1];
    SplitName(last);
    if init == [] {
      assert dirs == [last];
    } else {
      SplitJoinedDirs(init);
      SplitJoined(JoinedDirs(init), last);
      assert dirs == init + [last];
    }
  }

  // ---------- resolving ----------

  /** The directory reached from `base` (root component "" first) along a relative path. The root is its own parent. */
  function Resolve(base: seq<string>, rel: seq<string>): seq<string>
    decreases |rel|
  {
    if rel == [] then base else Resolve(Walk(base, rel[0]), rel[1..])
  }

  function Walk(dir: seq<string>, step: string): seq<string> {
    if step == "" || step == "." then dir
    else if step == ".." then (if |dir| > 1 then dir[..|dir| - 1] else dir)
    else dir + [step]
  }

  lemma {:induction false} ResolveAppend(base: seq<string>, a: seq<string>, b: seq<string>)
    ensures Resolve(base, a + b) == Resolve(Resolve(base, a), b)
    decreases |a|
  {
    if a == [] {
      assert a + b == b;
    } else {
      assert (a + b)[1..] == a[1..] + b;
      ResolveAppend(Walk(base, a[0]), a[1..], b);
    }
  }

  function Ups(rel: seq<string>): nat {
    if rel == [] then 0 else (if rel[0] == ".." then 1 else 0) + Ups(rel[1..])
  }

  lemma {:induction false} UpsAppend(a: seq<string>, b: seq<string>)
    ensures Ups(a + b) == Ups(a) + Ups(b)
  {
    if a == [] {
      assert a + b == b;
    } else {
      assert (a + b)[1..] == a[1..] + b;
      UpsAppend(a[1..], b);
    }
  }

  function UpSteps(n: nat): seq<string> {
    seq(n, _ => "..")
  }

  lemma {:induction false} ResolveUps(base: seq<string>, n: nat)
    requires n < |base|
    ensures Resolve(base, UpSteps(n)) == base[..|base| - n] && Ups(UpSteps(n)) == n
    decreases n
  {
    if n > 0 {
      assert UpSteps(n)[1..] == UpSteps(n - 1);
      ResolveUps(base[..|base| - 1], n - 1);
    }
  }

  /** A component that names a directory. */
  ghost predicate IsName(c: string) {
    c != "" && c != "." && c != ".." && '/' !in c
  }

  lemma {:induction false} ResolveNames(base: seq<string>, names: seq<string>)
    requires forall k :: 0 <= k < |names| ==> IsName(names[k])
    ensures Resolve(base, names) == base + names && Ups(names) == 0
    decreases |names|
  {
    if names != [] {
      ResolveNames(base + [names[0]], names[1..]);
      assert base + [names[0]] + names[1..] == base + names;
    }
  }

  // ---------- how often a path must go up ----------

  function Common(a: seq<string>, b: seq<string>): (n: nat)
    ensures n <= |a| && n <= |b| && forall k :: 0 <= k < n ==> a[k] == b[k]
    ensures n < |a| && n < |b| ==> a[n] != b[n]
  {
    if a == [] || b == [] || a[0] != b[0] then 0 else Common(a[1..], b[1..]) + 1
  }

  lemma CommonIs(a: seq<string>, b: seq<string>, n: nat)
    requires n <= |a| && n <= |b| && (forall k :: 0 <= k < n ==> a[k] == b[k]) && (n < |a| && n < |b| ==> a[n] != b[n])
    ensures Common(a, b) == n
  {
  }

  /** A step lowers the part shared with the start by at most one, and only by going up. */
  lemma WalkKeepsCommon(start: seq<string>, dir: seq<string>, step: string)
    ensures Common(start, dir) <= Common(start, Walk(dir, step)) + (if step == ".." then 1 else 0)
  {
    var next, n := Walk(dir, step), Common(start, dir);
    if step == ".." && |dir| > 1 {
      CommonAtLeast(start, next, if n == |dir| then n - 1 else n);
    } else {
      CommonAtLeast(start, next, n);
    }
  }

  lemma CommonAtLeast(a: seq<string>, b: seq<string>, n: nat)
    requires n <= |a| && n <= |b| && forall k :: 0 <= k < n ==> a[k] == b[k]
    ensures n <= Common(a, b)
  {
  }

  /** Every relative path from `dir` to `target` goes up at least as often as the part shared with `start` shrinks. */
  lemma {:induction false} UpsNeeded(start: seq<string>, dir: seq<string>, rel: seq<string>)
    ensures Common(start, dir) <= Common(start, Resolve(dir, rel)) + Ups(rel)
    decreases |rel|
  {
    if rel != [] {
      WalkKeepsCommon(start, dir, rel[0]);
      UpsNeeded(start, Walk(dir, rel[0]), rel[1..]);
    }
  }

  /** No relative path between two directories goes up less often than the depth of the first below their common part. */
  lemma FewestUps(path1: seq<string>, path2: seq<string>, rel: seq<string>)
    requires Resolve(path1, rel) == path2
    ensures |path1| - Common(path1, path2) <= Ups(rel)
  {
    CommonIs(path1, path1, |path1|);
    UpsNeeded(path1, path1, rel);
  }

  // ---------- the methods ----------

  method JoinDirs(dirArray: seq<string>) returns (dirPath: string)
    ensures dirPath == JoinedDirs(dirArray)
  {
    dirPath := "";
    for i := 0 to |dirArray|
      invariant dirPath == JoinedDirs(dirArray[..i])
    {
      assert dirArray[..i + 1][..i] == dirArray[..i];
      if dirPath == "" {
        dirPath := dirArray[i];
      } else {
        dirPath := dirPath + "/" + dirArray[i];
      }
    }
    assert dirArray[..|dirArray|] == dirArray;
  }

  method DownDirsArray(numDownDirs: nat) returns (downDirsPathArray: seq<string>)
    ensures downDirsPathArray == UpSteps(numDownDirs)
  {
    downDirsPathArray := [];
    for i := 0 to numDownDirs
      invariant downDirsPathArray == UpSteps(i)
    {
      downDirsPathArray := downDirsPathArray + [".."];
    }
  }

  /** The components of an absolute path other than the root, without empty, "." and ".." components. */
  ghost predicate IsAbsolute(components: seq<string>) {
    |components| >= 2 && components[0] == "" && forall k :: 1 <= k < |components| ==> IsName(components[k])
  }

  method CommonDepth(path1: seq<string>, path2: seq<string>) returns (baseDirDepth: nat)
    ensures baseDirDepth == Common(path1, path2)
  {
    var maxBaseDirDepth := if |path1| < |path2| then |path1| else |path2|;
    baseDirDepth := 0;
    for dirIdx := 0 to maxBaseDirDepth
      invariant baseDirDepth == dirIdx && forall k :: 0 <= k < dirIdx ==> path1[k] == path2[k]
    {
      if path1[dirIdx] != path2[dirIdx] {
        break;
      }
      baseDirDepth := baseDirDepth + 1;
    }
    CommonIs(path1, path2, baseDirDepth);
  }

  /** The steps up from the end of the first path to the common part, then the rest of the second path. */
  ghost function RelativePathBetween(path1: seq<string>, path2: seq<string>): string {
    var depth := Common(path1, path2);
    var relPath := PathJoin(DownPath(|path1| - depth), UpPath(path2[depth..]));
    if relPath == "./." then "." else relPath
  }

  /** For absolute paths: following the result from the first directory leads to the second, and no other relative path
      goes up less often. */
  method GetRelativePathFrom1to2(absPath1: string, absPath2: string) returns (relPath: string)
    ensures relPath == RelativePathBetween(SplitPath(absPath1), SplitPath(absPath2))
    ensures IsAbsolute(SplitPath(absPath1)) && IsAbsolute(SplitPath(absPath2)) ==>
              && Resolve(SplitPath(absPath1), SplitPath(relPath)) == SplitPath(absPath2)
              && forall rel :: Resolve(SplitPath(absPath1), rel) == SplitPath(absPath2) ==> Ups(SplitPath(relPath)) <= Ups(rel)
  {
    hide SplitPath, Resolve, Ups, JoinedDirs, IsAbsolute, PathJoin, Common;
    var path1, path2 := SplitPath(absPath1), SplitPath(absPath2);
    var baseDirDepth := CommonDepth(path1, path2);
    var numDownDirs := |path1| - baseDirDepth;
    var downDirPath := ".";
    if numDownDirs > 0 {
      var downDirs := DownDirsArray(numDownDirs);
      downDirPath := JoinDirs(downDirs);
    }
    var upDirPath := ".";
    if baseDirDepth < |path2| {
      upDirPath := JoinDirs(path2[baseDirDepth..]);
    }
    relPath := PathJoin(downDirPath, upDirPath);
    if relPath == "./." {
      relPath := ".";
    }
    if IsAbsolute(path1) && IsAbsolute(path2) {
      RelativePathLeads(path1, path2, baseDirDepth, downDirPath, upDirPath);
      forall rel | Resolve(path1, rel) == path2
        ensures Ups(SplitPath(relPath)) <= Ups(rel)
      {
        FewestUps(path1, path2, rel);
      }
    }
  }

  ghost function DownPath(n: nat): string {
    if n == 0 then "." else JoinedDirs(UpSteps(n))
  }

  ghost function UpPath(names: seq<string>): string {
    if names == [] then "." else JoinedDirs(names)
  }

  lemma SplitDown(n: nat)
    ensures SplitPath(DownPath(n)) == (if n == 0 then ["."] else UpSteps(n))
    ensures DownPath(n) != "" && DownPath(n)[|DownPath(n)| - 1] != '/'
  {
    if n == 0 {
      SplitName(".");
    } else {
      SplitJoinedDirs(UpSteps(n));
      assert UpSteps(n)[..n - 1] == UpSteps(n - 1);
    }
  }

  lemma SplitUp(names: seq<string>)
    requires forall k :: 0 <= k < |names| ==> IsName(names[k])
    ensures SplitPath(UpPath(names)) == (if names == [] then ["."] else names)
    ensures UpPath(names) != "" && UpPath(names)[0] != '/'
  {
    if names == [] {
      SplitName(".");
    } else {
      SplitJoinedDirs(names);
    }
  }

  lemma RelativePathLeads(path1: seq<string>, path2: seq<string>, depth: nat, downDirPath: string, upDirPath: string)
    requires IsAbsolute(path1) && IsAbsolute(path2) && depth == Common(path1, path2)
    requires downDirPath == DownPath(|path1| - depth) && upDirPath == UpPath(path2[depth..])
    ensures var relPath := PathJoin(downDirPath, upDirPath);
            var r := if relPath == "./." then "." else relPath;
            Resolve(path1, SplitPath(r)) == path2 && Ups(SplitPath(r)) == |path1| - depth
  {
    var n, names := |path1| - depth, path2[depth..];
    AfterCommon(path1, path2);
    hide *;
    SplitDown(n);
    SplitUp(names);
    var down, up := SplitPath(downDirPath), SplitPath(upDirPath);
    StepsLead(path1, n, names, down, up);
    JoinedSteps(path1, downDirPath, upDirPath);
  }

  lemma StepsLead(path: seq<string>, n: nat, names: seq<string>, down: seq<string>, up: seq<string>)
    requires n < |path| && down == if n == 0 then ["."] else UpSteps(n)
    requires (forall k :: 0 <= k < |names| ==> IsName(names[k])) && up == if names == [] then ["."] else names
    ensures Resolve(path, down + up) == path[..|path| - n] + names && Ups(down + up) == n
  {
    hide *;
    DownLeads(path, n, down);
    UpLeads(path[..|path| - n], names, up);
    ResolveAppend(path, down, up);
    UpsAppend(down, up);
  }

  /** The joined path is followed like its two parts, also when it is abbreviated to one dot. */
  lemma JoinedSteps(path: seq<string>, a: string, b: string)
    requires a != "" && a[|a| - 1] != '/' && b != "" && b[0] != '/'
    ensures var relPath := PathJoin(a, b);
            var steps := SplitPath(if relPath == "./." then "." else relPath);
            && Resolve(path, steps) == Resolve(path, SplitPath(a) + SplitPath(b))
            && Ups(steps) == Ups(SplitPath(a) + SplitPath(b))
  {
    hide *;
    SplitJoined(a, b);
    JoinIsPlain(a, b);
    if a + "/" + b == "./." {
      SplitName(".");
      DotOnly(a, b);
      OneDotLikeTwo(path);
    }
  }

  lemma AfterCommon(path1: seq<string>, path2: seq<string>)
    requires IsAbsolute(path1) && IsAbsolute(path2)
    ensures var depth, names := Common(path1, path2), path2[Common(path1, path2)..];
      depth >= 1 && path1[..depth] + names == path2 && forall k :: 0 <= k < |names| ==> IsName(names[k])
  {
    hide IsName;
  }

  lemma OneDotLikeTwo(path: seq<string>)
    ensures Resolve(path, ["."]) == path == Resolve(path, ["."] + ["."]) && Ups(["."]) == 0 == Ups(["."] + ["."])
  {
    assert (["."] + ["."])[1..] == ["."] && ["."][1..] == [];
  }

  lemma JoinIsPlain(a: string, b: string)
    requires a != "" && a[|a| - 1] != '/' && b != "" && b[0] != '/'
    ensures PathJoin(a, b) == a + "/" + b
  {
  }

  lemma DownLeads(path: seq<string>, n: nat, down: seq<string>)
    requires n < |path| && down == if n == 0 then ["."] else UpSteps(n)
    ensures Resolve(path, down) == path[..|path| - n] && Ups(down) == n
  {
    if n > 0 {
      ResolveUps(path, n);
    }
  }

  lemma UpLeads(base: seq<string>, names: seq<string>, up: seq<string>)
    requires forall k :: 0 <= k < |names| ==> IsName(names[k])
    requires up == if names == [] then ["."] else names
    ensures Resolve(base, up) == base + names && Ups(up) == 0
  {
    if names != [] {
      ResolveNames(base, names);
    }
  }

  /** The only joined path that reads "./." is made of two dots. */
  lemma DotOnly(a: string, b: string)
    requires a != "" && b != "" && a + "/" + b == "./."
    ensures a == "." && b == "."
  {
    assert |a + "/" + b| == |"./."| == 3;
    assert (a + "/" + b)[0] == a[0] && (a + "/" + b)[2] == b[0];
  }
}
