/** From modified files to the packages that own them. */
module FilePaths {
  import opened PyStrings
  import opened DependencyTable

  const ALL_PACKAGES := "ALL_PACKAGES"

  /** The file lies below the directory. */
  predicate IsUnder(path: string, dir: string) {
    dir + "/" <= path
  }

  /** The first directory that the file lies below, or the number of directories. */
  function OwnerIndex(dirs: seq<string>, path: string): (i: nat)
    ensures i <= |dirs| && forall k :: 0 <= k < i ==> !IsUnder(path, dirs[k])
    ensures i < |dirs| ==> IsUnder(path, dirs[i])
  {
    if dirs == [] || IsUnder(path, dirs[0]) then 0 else OwnerIndex(dirs[1..], path) + 1
  }

  function OwnerName(packages: seq<PackageDependencies>, path: string): string {
    var i := OwnerIndex(Dirs(packages), path);
    if i < |packages| then packages[i].packageName else ""
  }

  method GetPackageNameFromPath(dependencies: TribitsDependencies, fullPath: string) returns (packageName: string)
    ensures packageName == OwnerName(dependencies.packagesList, fullPath)
  {
    var i := 0;
    ghost var dirs := Dirs(dependencies.packagesList);
    while i < |dependencies.packagesList|
      invariant i <= |dependencies.packagesList| && forall k :: 0 <= k < i ==> !IsUnder(fullPath, dirs[k])
    {
      var packageDep := dependencies.packagesList[i];
      if packageDep.packageDir + "/" <= fullPath {
        assert IsUnder(fullPath, dirs[i]);
        return packageDep.packageName;
      }
      assert !IsUnder(fullPath, dirs[i]);
      i := i + 1;
    }
    return "";
  }

  // ---------- the owner is the innermost package ----------

  ghost predicate IsInnermost(dirs: seq<string>, path: string, i: nat) {
    i < |dirs| && IsUnder(path, dirs[i]) && forall k :: 0 <= k < |dirs| && IsUnder(path, dirs[k]) ==> |dirs[k]| <= |dirs[i]|
  }

  /** A directory inside another one is listed before it. */
  ghost predicate NestedFirst(dirs: seq<string>) {
    forall i, j :: 0 <= i < j < |dirs| && IsUnder(dirs[j], dirs[i]) ==> dirs[j] in dirs[..i]
  }

  lemma UnderBoth(path: string, inner: string, outer: string)
    requires IsUnder(path, inner) && IsUnder(path, outer)
    ensures |outer| < |inner| ==> IsUnder(inner, outer)
    ensures |outer| == |inner| ==> inner == outer
  {
    assert forall k :: 0 <= k < |inner| ==> (inner + "/")[k] == inner[k] == path[k];
    assert forall k :: 0 <= k < |outer| ==> (outer + "/")[k] == outer[k] == path[k];
    assert (outer + "/")[|outer|] == '/' == path[|outer|];
  }

  lemma UnderTwice(path: string, inner: string, outer: string)
    requires IsUnder(path, inner) && IsUnder(inner, outer)
    ensures IsUnder(path, outer)
  {
    assert outer + "/" <= inner <= inner + "/" <= path;
  }

  lemma FirstOwnerIsInnermost(dirs: seq<string>, path: string)
    requires NestedFirst(dirs) && OwnerIndex(dirs, path) < |dirs|
    ensures IsInnermost(dirs, path, OwnerIndex(dirs, path))
  {
    hide OwnerIndex;
    var i := OwnerIndex(dirs, path);
    forall k | 0 <= k < |dirs| && IsUnder(path, dirs[k])
      ensures |dirs[k]| <= |dirs[i]|
    {
      assert forall m :: 0 <= m < i ==> dirs[..i][m] != dirs[k];
      UnderBoth(path, dirs[k], dirs[i]);
    }
  }

  lemma InnermostNeedsNestedFirst(dirs: seq<string>, i: nat, j: nat)
    requires i < j < |dirs| && IsUnder(dirs[j], dirs[i]) && dirs[j] !in dirs[..i]
    ensures var path := dirs[j] + "/";
      OwnerIndex(dirs, path) < |dirs| && !IsInnermost(dirs, path, OwnerIndex(dirs, path))
  {
    hide OwnerIndex;
    var path := dirs[j] + "/";
    var o := OwnerIndex(dirs, path);
    UnderTwice(path, dirs[j], dirs[i]);
    UnderBoth(path, dirs[j], dirs[o]);
    assert forall m :: 0 <= m < i ==> dirs[..i][m] != dirs[j];
    assert dirs[o] != dirs[j];
  }

  /** Every file goes to the innermost package around it if and only if nested packages are listed first. */
  lemma OwnerIsInnermostIffNestedFirst(dirs: seq<string>)
    ensures NestedFirst(dirs) <==>
      forall path :: OwnerIndex(dirs, path) < |dirs| ==> IsInnermost(dirs, path, OwnerIndex(dirs, path))
  {
    hide OwnerIndex, IsInnermost;
    if NestedFirst(dirs) {
      forall path | OwnerIndex(dirs, path) < |dirs|
        ensures IsInnermost(dirs, path, OwnerIndex(dirs, path))
      {
        FirstOwnerIsInnermost(dirs, path);
      }
    } else {
      var i: nat, j: nat :| i < j < |dirs| && IsUnder(dirs[j], dirs[i]) && dirs[j] !in dirs[..i];
      InnermostNeedsNestedFirst(dirs, i, j);
    }
  }

  // ---------- lists of files ----------

  /** s.rfind(sub) != -1 */
  predicate Contains(s: string, sub: string) {
    sub <= s || (s != "" && Contains(s[1..], sub))
  }

  predicate IsGlobalBuildFileRequiringGlobalRebuild(path: string) {
    var parts := Split(path, '/');
    if |parts| == 1 then
      parts[0] == "CMakeLists.txt"
      || (parts[0] != "PackagesList.cmake" && parts[0] != "TPLsList.cmake" && Contains(parts[0], ".cmake"))
    else
      parts[0] == "cmake" && parts[1] != "ExtraRepositoriesList.cmake" && parts[1] != "ctest" && parts[1] != "TPLs"
      && !Contains(path, "UnitTests/") && Contains(path, ".cmake")
  }

  predicate AnyGlobal(paths: seq<string>) {
    exists k :: 0 <= k < |paths| && IsGlobalBuildFileRequiringGlobalRebuild(paths[k])
  }

  function WithOwner(list: seq<string>, owner: string): seq<string> {
    if owner !in list && owner != "" then list + [Strip(owner)] else list
  }

  /** What the loop has listed after the given files. */
  function Listed(packages: seq<PackageDependencies>, paths: seq<string>, all: bool): seq<string> {
    if paths == [] then []
    else
      var n := |paths| - 1;
      var list := WithOwner(Listed(packages, paths[..n], all), OwnerName(packages, paths[n]));
      if all && IsGlobalBuildFileRequiringGlobalRebuild(paths[n]) && !AnyGlobal(paths[..n]) then list + [ALL_PACKAGES] else list
  }

  method GetPackagesListFromFilePathsList(dependencies: TribitsDependencies, filePathsList: seq<string>, allPackages: bool)
    returns (packagesList: seq<string>)
    ensures packagesList == Listed(dependencies.packagesList, filePathsList, allPackages)
  {
    hide OwnerName, IsGlobalBuildFileRequiringGlobalRebuild, Strip;
    packagesList := [];
    var enabledAllPackages := false;
    var i := 0;
    while i < |filePathsList|
      invariant i <= |filePathsList|
      invariant packagesList == Listed(dependencies.packagesList, filePathsList[..i], allPackages)
      invariant enabledAllPackages == (allPackages && AnyGlobal(filePathsList[..i]))
    {
      var filePath := filePathsList[i];
      ghost var before, paths := filePathsList[..i], filePathsList[..i + 1];
      assert paths[..i] == before && paths[i] == filePath;
      var packageName := GetPackageNameFromPath(dependencies, filePath);
      if packageName !in packagesList && packageName != "" {
        packagesList := packagesList + [Strip(packageName)];
      }
      if allPackages && IsGlobalBuildFileRequiringGlobalRebuild(filePath) && !enabledAllPackages {
        packagesList := packagesList + [ALL_PACKAGES];
        enabledAllPackages := true;
      }
      OneMoreFile(before, filePath);
      assert before + [filePath] == paths;
      i := i + 1;
    }
    assert filePathsList[..|filePathsList|] == filePathsList;
  }

  lemma OneMoreFile(paths: seq<string>, path: string)
    ensures AnyGlobal(paths + [path]) <==> AnyGlobal(paths) || IsGlobalBuildFileRequiringGlobalRebuild(path)
  {
    hide IsGlobalBuildFileRequiringGlobalRebuild;
    var all := paths + [path];
    assert all[|paths|] == path;
    if AnyGlobal(paths) {
      var k :| 0 <= k < |paths| && IsGlobalBuildFileRequiringGlobalRebuild(paths[k]);
      assert all[k] == paths[k];
    }
  }

  ghost predicate Owns(packages: seq<PackageDependencies>, paths: seq<string>, name: string) {
    name != "" && exists k :: 0 <= k < |paths| && OwnerName(packages, paths[k]) == name
  }

  ghost predicate CleanNames(packages: seq<PackageDependencies>) {
    forall k :: 0 <= k < |packages| ==>
      Strip(packages[k].packageName) == packages[k].packageName && packages[k].packageName != ALL_PACKAGES
  }

  ghost predicate Distinct(list: seq<string>) {
    forall i, j :: 0 <= i < j < |list| ==> list[i] != list[j]
  }

  lemma {:induction false} ListHolds(packages: seq<PackageDependencies>, paths: seq<string>, all: bool, name: string)
    requires CleanNames(packages)
    ensures name in Listed(packages, paths, all)
       <==> Owns(packages, paths, name) || (name == ALL_PACKAGES && all && AnyGlobal(paths))
  {
    if paths != [] {
      var before, path := paths[..|paths| - 1], paths[|paths| - 1];
      hide OwnerName, IsGlobalBuildFileRequiringGlobalRebuild, Strip, AnyGlobal, CleanNames, Owns, Listed;
      ListHolds(packages, before, all, name);
      ListedStep(packages, paths, all);
      OwnerIsClean(packages, path);
      assert before + [path] == paths;
      OneMoreFile(before, path);
      OneMoreOwner(packages, before, path, name);
    }
  }

  lemma {:induction false} ListIsDistinct(packages: seq<PackageDependencies>, paths: seq<string>, all: bool)
    requires CleanNames(packages)
    ensures Distinct(Listed(packages, paths, all))
  {
    if paths != [] {
      var before, path := paths[..|paths| - 1], paths[|paths| - 1];
      hide OwnerName, IsGlobalBuildFileRequiringGlobalRebuild, Strip, AnyGlobal, CleanNames, Owns, Listed;
      ListIsDistinct(packages, before, all);
      ListedStep(packages, paths, all);
      OwnerIsClean(packages, path);
      ListHolds(packages, before, all, ALL_PACKAGES);
      AllIsNoOwner(packages, before);
    }
  }

  /** The list names exactly the owning packages, each once, and ALL_PACKAGES at most once, when asked for and needed. */
  lemma ListHoldsExactlyTheOwners(packages: seq<PackageDependencies>, paths: seq<string>, all: bool)
    requires CleanNames(packages)
    ensures Distinct(Listed(packages, paths, all))
    ensures forall name :: name in Listed(packages, paths, all) <==>
              Owns(packages, paths, name) || (name == ALL_PACKAGES && all && AnyGlobal(paths))
  {
    ListIsDistinct(packages, paths, all);
    forall name
      ensures name in Listed(packages, paths, all) <==>
                Owns(packages, paths, name) || (name == ALL_PACKAGES && all && AnyGlobal(paths))
    {
      ListHolds(packages, paths, all, name);
    }
  }

  lemma ListedStep(packages: seq<PackageDependencies>, paths: seq<string>, all: bool)
    requires paths != []
    ensures var before, path := paths[..|paths| - 1], paths[|paths| - 1];
      var needsAll := all && IsGlobalBuildFileRequiringGlobalRebuild(path) && !AnyGlobal(before);
      Listed(packages, paths, all)
      == WithOwner(Listed(packages, before, all), OwnerName(packages, path)) + (if needsAll then [ALL_PACKAGES] else [])
  {
    hide OwnerName, IsGlobalBuildFileRequiringGlobalRebuild, WithOwner, AnyGlobal;
  }

  lemma OwnerIsClean(packages: seq<PackageDependencies>, path: string)
    requires CleanNames(packages)
    ensures Strip(OwnerName(packages, path)) == OwnerName(packages, path) && OwnerName(packages, path) != ALL_PACKAGES
  {
    hide OwnerIndex;
  }

  lemma AllIsNoOwner(packages: seq<PackageDependencies>, paths: seq<string>)
    requires CleanNames(packages)
    ensures !Owns(packages, paths, ALL_PACKAGES)
  {
    hide Strip;
  }

  lemma OneMoreOwner(packages: seq<PackageDependencies>, paths: seq<string>, path: string, name: string)
    ensures Owns(packages, paths + [path], name)
       <==> Owns(packages, paths, name) || (name != "" && OwnerName(packages, path) == name)
  {
    hide OwnerName;
    var all := paths + [path];
    assert all[|paths|] == path;
    if Owns(packages, paths, name) {
      var k :| 0 <= k < |paths| && OwnerName(packages, paths[k]) == name;
      assert all[k] == paths[k];
    }
  }

  /** Names stand in the order in which their first files come: more files only add names at the end. */
  lemma {:induction false} MoreFilesOnlyAppend(packages: seq<PackageDependencies>, paths: seq<string>, n: nat, all: bool)
    requires n <= |paths|
    ensures Listed(packages, paths[..n], all) <= Listed(packages, paths, all)
    decreases |paths|
  {
    hide OwnerName, IsGlobalBuildFileRequiringGlobalRebuild, AnyGlobal, Strip;
    if n < |paths| {
      MoreFilesOnlyAppend(packages, paths[..|paths| - 1], n, all);
      assert paths[..|paths| - 1][..n] == paths[..n];
    } else {
      assert paths[..n] == paths;
    }
  }

  // ---------- which files are global ----------

  ghost predicate HasPart(s: string, sub: string) {
    exists a, b :: s == a + sub + b
  }

  lemma {:induction false} PartIsContained(a: string, sub: string, b: string)
    ensures Contains(a + sub + b, sub)
    decreases |a|
  {
    if a == "" {
      assert a + sub + b == sub + b;
    } else {
      PartIsContained(a[1..], sub, b);
      assert (a + sub + b)[1..] == a[1..] + sub + b;
    }
  }

  lemma {:induction false} ContainedIsPart(s: string, sub: string)
    requires Contains(s, sub)
    ensures HasPart(s, sub)
  {
    if sub <= s {
      assert s == "" + sub + s[|sub|..];
    } else {
      ContainedIsPart(s[1..], sub);
      var a, b :| s[1..] == a + sub + b;
      assert s == ([s[0]] + a) + sub + b;
    }
  }

  lemma ContainsIff(s: string, sub: string)
    ensures Contains(s, sub) <==> HasPart(s, sub)
  {
    if Contains(s, sub) {
      ContainedIsPart(s, sub);
    }
    if HasPart(s, sub) {
      var a, b :| s == a + sub + b;
      PartIsContained(a, sub, b);
    }
  }

  /** The path is that name, or lies below it. */
  predicate StartsWithName(path: string, name: string) {
    path == name || name + "/" <= path
  }

  lemma FirstNameIs(path: string, name: string)
    requires '/' !in name
    ensures Split(path, '/')[0] == name <==> StartsWithName(path, name)
    ensures |Split(path, '/')| == 1 <==> '/' !in path
  {
    var i := Find(path, '/', 0);
    if i == |path| {
      SplitWhole(path, '/');
      assert (name + "/")[|name|] == '/';
    } else {
      assert path == path[..i] + ['/'] + path[i + 1..];
      SplitOffFirst(path[..i], '/', path[i + 1..]);
      if name + "/" <= path {
        assert path[|name|] == '/' && forall k :: 0 <= k < |name| ==> path[k] == (name + "/")[k] == name[k];
        FindIs(path, '/', 0, |name|);
        assert path[..|name|] == name;
      }
      assert path[..i] + "/" <= path;
    }
  }

  /** The global files: CMakeLists.txt and other CMake files at the top, but not the lists of packages and libraries;
      and CMake files anywhere below cmake, but not the list of repositories, nor those for ctest, libraries and unit tests. */
  ghost predicate IsGlobalFile(path: string) {
    || path == "CMakeLists.txt"
    || ('/' !in path && HasPart(path, ".cmake") && path != "PackagesList.cmake" && path != "TPLsList.cmake")
    || (exists f :: path == "cmake/" + f && HasPart(path, ".cmake") && !HasPart(path, "UnitTests/")
          && !StartsWithName(f, "ExtraRepositoriesList.cmake") && !StartsWithName(f, "ctest") && !StartsWithName(f, "TPLs"))
  }

  lemma GlobalFilesAre(path: string)
    ensures IsGlobalBuildFileRequiringGlobalRebuild(path) <==> IsGlobalFile(path)
  {
    if '/' !in path {
      TopFile(path);
    } else {
      FirstNameIs(path, "cmake");
      if "cmake/" <= path {
        FileBelowCmake(path[6..]);
        assert path == "cmake/" + path[6..];
      } else {
        hide Contains, HasPart, Split, StartsWithName;
        assert path != "CMakeLists.txt" && path != "cmake";
        assert forall f :: "cmake/" <= "cmake/" + f;
      }
    }
  }

  lemma TopFile(path: string)
    requires '/' !in path
    ensures IsGlobalBuildFileRequiringGlobalRebuild(path) <==> IsGlobalFile(path)
  {
    hide Contains, HasPart, StartsWithName, Split;
    ContainsIff(path, ".cmake");
    SplitWhole(path, '/');
    assert forall f :: ("cmake/" + f)[5] == '/';
  }

  lemma FileBelowCmake(f: string)
    ensures IsGlobalBuildFileRequiringGlobalRebuild("cmake/" + f) <==> IsGlobalFile("cmake/" + f)
  {
    hide Contains, HasPart, StartsWithName, Split;
    var path := "cmake/" + f;
    ContainsIff(path, ".cmake");
    ContainsIff(path, "UnitTests/");
    CmakeFile(f);
    assert path[5] == '/' && path != "CMakeLists.txt";
    assert forall g :: path == "cmake/" + g ==> g == path[6..];
  }

  lemma CmakeFile(f: string)
    ensures var parts := Split("cmake/" + f, '/');
      && |parts| >= 2 && parts[0] == "cmake"
      && (parts[1] == "ExtraRepositoriesList.cmake" <==> StartsWithName(f, "ExtraRepositoriesList.cmake"))
      && (parts[1] == "ctest" <==> StartsWithName(f, "ctest"))
      && (parts[1] == "TPLs" <==> StartsWithName(f, "TPLs"))
  {
    hide Split;
    assert "cmake/" + f == "cmake" + ['/'] + f;
    SplitOffFirst("cmake", '/', f);
    FirstNameIs(f, "ExtraRepositoriesList.cmake");
    FirstNameIs(f, "ctest");
    FirstNameIs(f, "TPLs");
  }

  /** A file with an owner is listed by that owner's name, without the space around it, and ALL_PACKAGES comes behind it. */
  lemma OneFileIsListed(packages: seq<PackageDependencies>, path: string, all: bool, before: string, name: string, after: string)
    requires IsBlank(before) && IsBlank(after) && name != "" && !IsSpace(name[0]) && !IsSpace(name[|name| - 1])
    requires OwnerName(packages, path) == before + name + after
    ensures Listed(packages, [path], all) == [name] + (if all && IsGlobalFile(path) then ["ALL_PACKAGES"] else [])
  {
    GlobalFilesAre(path);
    hide OwnerName, Strip, IsGlobalBuildFileRequiringGlobalRebuild, IsGlobalFile;
    StripRemovesAll(before, name, after);
    assert |before + name + after| > 0;
    assert [path][..0] == [] && Listed(packages, [], all) == [];
    assert [] + [name] == [name];
  }
}
