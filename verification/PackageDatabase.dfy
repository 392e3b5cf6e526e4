/** The passes over the Trilinos package database that follow the reading of the dependencies file:
    sub-packages from parents, and dependency names to sorted package IDs. */
module PackageDatabase {
  import opened Wrappers
  import opened PackageIds

  const TRILINOS := "Trilinos"
  const TPL_VERSION := "Unspec"

  datatype Package = Package(name: string, version: string, parent: string,
                             subPackages: seq<string>, requiredDep: seq<string>, optionalDep: seq<string>)

  type Db = map<string, Package>

  datatype DepKind = Required | Optional

  function DepsOf(p: Package, kind: DepKind): seq<string> {
    if kind.Required? then p.requiredDep else p.optionalDep
  }

  function WithDeps(p: Package, kind: DepKind, deps: seq<string>): Package {
    if kind.Required? then p.(requiredDep := deps) else p.(optionalDep := deps)
  }

  ghost predicate NoDash(s: string) {
    '-' !in s
  }

  /** The database as the file is read: keys are package IDs of one version, parents exist,
      dependencies are package names in any order and number. */
  ghost predicate AsRead(db: Db, version: string) {
    && NoDash(version)
    && PackageId(TRILINOS, version) in db
    && (forall id :: id in db ==>
          && NoDash(db[id].name) && id == PackageId(db[id].name, version)
          && (db[id].parent == "" || db[id].parent in db)
          && db[id].subPackages == [])
    && (forall id, kind, d :: id in db && d in DepsOf(db[id], kind) ==> NoDash(d))
  }

  ghost predicate NoDuplicates(s: seq<string>) {
    forall i, j :: 0 <= i < j < |s| ==> s[i] != s[j]
  }

  // ---------- third-party libraries ----------

  ghost predicate IsName(db: Db, name: string) {
    exists id :: id in db && db[id].name == name
  }

  ghost predicate IsDependency(db: Db, name: string) {
    exists id, kind :: id in db && name in DepsOf(db[id], kind)
  }

  /** A dependency that is no package of the database. */
  ghost predicate IsTpl(db: Db, name: string) {
    IsDependency(db, name) && !IsName(db, name)
  }

  /** The ID that a dependency name stands for. */
  function IdOf(name: string, tpls: seq<string>, version: string): string {
    PackageId(name, if name in tpls then TPL_VERSION else version)
  }

  function TplPackage(name: string): Package {
    Package(name, TPL_VERSION, "", [], [], [])
  }

  /** `ids` is the sorted, duplicate-free list of the IDs of the names in `names`. */
  ghost predicate AreIdsOf(ids: seq<string>, names: seq<string>, tpls: seq<string>, version: string) {
    && IsSorted(ids)
    && (forall n :: n in names ==> IdOf(n, tpls, version) in ids)
    && (forall id :: id in ids ==> exists n :: n in names && id == IdOf(n, tpls, version))
  }

  predicate IsTrilinosId(db: Db, id: string) {
    id in db && TRILINOS <= id
  }

  /** The packages in `done` are listed as sub-packages of their parents, once each; nothing else has changed. */
  ghost predicate ParentsInverted(db: Db, db0: Db, done: set<string>) {
    && db.Keys == db0.Keys
    && forall id :: id in db ==> HasChildren(id, db[id], db0, done)
  }

  ghost predicate HasChildren(id: string, p: Package, db0: Db, done: set<string>)
    requires id in db0
  {
    && p == db0[id].(subPackages := p.subPackages)
    && NoDuplicates(p.subPackages)
    && forall c :: c in p.subPackages <==> c in db0 && c in done && db0[c].parent == id && id != ""
  }

  lemma NoChildrenYet(db: Db)
    requires forall id :: id in db ==> db[id].subPackages == []
    ensures ParentsInverted(db, db, {}) && ParentsInverted(db, db, db.Keys - db.Keys)
  {
    assert db.Keys - db.Keys == {};
  }

  lemma AppendChild(db: Db, db0: Db, done: set<string>, c: string)
    requires ParentsInverted(db, db0, done) && c in db && c !in done
    requires db0[c].parent == "" || db0[c].parent in db
    ensures var id := db[c].parent;
            && id == db0[c].parent
            && ParentsInverted(if id == "" then db else db[id := db[id].(subPackages := db[id].subPackages + [c])], db0, done + {c})
  {
    assert HasChildren(c, db[c], db0, done);
    var id := db[c].parent;
    if id != "" {
      assert HasChildren(id, db[id], db0, done);
      var p := db[id].(subPackages := db[id].subPackages + [c]);
      assert HasChildren(id, p, db0, done + {c});
    }
    forall other | other in db && (id == "" || other != id)
      ensures HasChildren(other, db[other], db0, done + {c})
    {
      assert HasChildren(other, db[other], db0, done);
    }
  }

  class PackageDb {
    var db: Db

    constructor (db: Db)
      ensures this.db == db
    {
      this.db := db;
    }

    /** Second pass: every package is appended to its parent's sub-packages. */
    method GetSubpackages()
      requires forall id :: id in db ==> db[id].parent == "" || db[id].parent in db
      requires forall id :: id in db ==> db[id].subPackages == []
      modifies this
      ensures ParentsInverted(db, old(db), db.Keys)
    {
      hide ParentsInverted, HasChildren;
      ghost var db0 := db;
      NoChildrenYet(db);
      var todo := db.Keys;
      while todo != {}
        invariant todo <= db.Keys == db0.Keys && ParentsInverted(db, db0, db0.Keys - todo)
        decreases |todo|
      {
        var packageID :| packageID in todo;
        ghost var done := db0.Keys - todo;
        AppendChild(db, db0, done, packageID);
        var parentID := db[packageID].parent;
        if parentID != "" {
          var parent := db[parentID];
          db := db[parentID := parent.(subPackages := parent.subPackages + [packageID])];
        }
        todo := todo - {packageID};
        assert db0.Keys - todo == done + {packageID};
      }
      assert db0.Keys - {} == db.Keys;
    }

    /** The version of the first key found that starts with "Trilinos"; None stands for an exception. */
    method GetTrilinosVersion() returns (version: Option<string>)
      ensures (exists id :: IsTrilinosId(db, id) && version == VersionOf(id))
           || (version == None && forall id :: !IsTrilinosId(db, id))
    {
      var todo := db.Keys;
      while todo != {}
        invariant forall id :: IsTrilinosId(db, id) ==> id in todo
        decreases |todo|
      {
        var id :| id in todo;
        if TRILINOS <= id && id in db {
          assert IsTrilinosId(db, id);
          return VersionOf(id);
        }
        todo := todo - {id};
      }
      return None;
    }

    method ExtractTpls() returns (tpls: seq<string>)
      ensures IsSorted(tpls) && forall n :: n in tpls <==> IsTpl(db, n)
    {
      var names, dependencies := {}, {};
      var todo := db.Keys;
      while todo != {}
        invariant todo <= db.Keys
        invariant forall n :: n in names <==> exists id :: id in db && id !in todo && db[id].name == n
        invariant forall n :: n in dependencies <==> exists id, kind :: id in db && id !in todo && n in DepsOf(db[id], kind)
        decreases |todo|
      {
        var id :| id in todo;
        var p := db[id];
        ghost var names0, dependencies0 := names, dependencies;
        names := names + {p.name};
        dependencies := dependencies + (set d | d in p.requiredDep) + (set d | d in p.optionalDep);
        todo := todo - {id};
        assert forall n :: n in dependencies <==> n in dependencies0 || n in DepsOf(p, Required) || n in DepsOf(p, Optional);
      }
      tpls := SortedList(dependencies - names);
    }

    /** One dependency list: names to IDs in place, then a sorted list without duplicates. */
    method ProcessList(dependencies: seq<string>, tpls: seq<string>, version: string) returns (r: seq<string>)
      ensures AreIdsOf(r, dependencies, tpls, version)
    {
      var ids := dependencies;
      for i := 0 to |ids|
        invariant |ids| == |dependencies|
        invariant forall k :: 0 <= k < i ==> ids[k] == IdOf(dependencies[k], tpls, version)
        invariant forall k :: i <= k < |ids| ==> ids[k] == dependencies[k]
      {
        ids := ids[i := if ids[i] in tpls then PackageId(ids[i], TPL_VERSION) else PackageId(ids[i], version)];
      }
      r := SortedList(set d | d in ids);
      forall n | n in dependencies
        ensures IdOf(n, tpls, version) in r
      {
        var k :| 0 <= k < |dependencies| && dependencies[k] == n;
        assert ids[k] in ids;
      }
      forall id | id in r
        ensures exists n :: n in dependencies && id == IdOf(n, tpls, version)
      {
        var k :| 0 <= k < |ids| && ids[k] == id;
        assert dependencies[k] in dependencies;
      }
    }

    method ProcessLists(tpls: seq<string>, version: string)
      modifies this
      ensures ListsProcessed(db, old(db), tpls, version)
    {
      hide AreIdsOf;
      ghost var db0 := db;
      var todo := db.Keys;
      while todo != {}
        invariant todo <= db.Keys == db0.Keys
        invariant forall id :: id in todo ==> db[id] == db0[id]
        invariant forall id :: id in db0 && id !in todo ==> IsProcessedPackage(db[id], db0[id], tpls, version)
        decreases |todo|
      {
        var id :| id in todo;
        var p := db[id];
        var required := ProcessList(p.requiredDep, tpls, version);
        var optional := ProcessList(p.optionalDep, tpls, version);
        db := db[id := p.(requiredDep := required, optionalDep := optional)];
        todo := todo - {id};
      }
    }

    method AddTpls(tpls: seq<string>)
      requires forall k :: 0 <= k < |tpls| ==> TplId(tpls[k]) !in db
      requires forall j, k :: 0 <= j < k < |tpls| ==> TplId(tpls[j]) != TplId(tpls[k])
      modifies this
      ensures TplsAdded(db, old(db), tpls, |tpls|)
    {
      ghost var db1 := db;
      for i := 0 to |tpls|
        invariant TplsAdded(db, db1, tpls, i)
      {
        AddTpl(db, db1, tpls, i);
        db := db[TplId(tpls[i]) := TplPackage(tpls[i])];
      }
    }

    /** Third pass: every dependency list becomes a sorted list of IDs, and the third-party libraries become packages. */
    method ProcessDependencies(ghost version: string)
      requires WellIdentified(db, version)
      modifies this
      ensures exists tpls :: IsProcessed(db, old(db), tpls, version)
    {
      hide WellIdentified, ListsProcessed, TplsAdded;
      ghost var db0 := db;
      var found := GetTrilinosVersion();
      VersionIsFound(db, version);
      var tpls := ExtractTpls();
      ProcessLists(tpls, found.value);
      ghost var db1 := db;
      TplIdsAreNew(db0, version, tpls);
      ProcessedKeys(db1, db0, tpls, version);
      AddTpls(tpls);
      assert IsProcessed(db, db0, tpls, version);
    }

    /** Both passes, as they follow the reading of the file: afterwards every dependency is a key of the database, every list
        is sorted, free of duplicates and names the same packages as before, and sub-packages are the inverse of parents. */
    method ProcessXmlFile(ghost version: string)
      requires AsRead(db, version)
      modifies this
      ensures HasIntegrity(db) && KeepsPackages(db, old(db))
      ensures KeysAreOwn(old(db)) ==> KeysAreOwn(db)
    {
      hide ParentsInverted, WellIdentified, IsProcessed, HasIntegrity, KeepsPackages, KeysAreOwn;
      ghost var db0 := db;
      GetSubpackages();
      ghost var db1 := db;
      SecondPassKeeps(db1, db0, version);
      ProcessDependencies(version);
      ghost var tpls :| IsProcessed(db, db1, tpls, version);
      PassesFinish(db, db1, db0, tpls, version);
      if KeysAreOwn(db0) {
        KeysStayOwn(db, db0);
      }
    }
  }

  /** What the third pass relies on. */
  ghost predicate WellIdentified(db: Db, version: string) {
    && NoDash(version)
    && PackageId(TRILINOS, version) in db
    && (forall id :: id in db ==> NoDash(db[id].name) && id == PackageId(db[id].name, version))
    && (forall id, kind, d :: id in db && d in DepsOf(db[id], kind) ==> NoDash(d))
  }

  ghost predicate IsProcessedPackage(p: Package, p0: Package, tpls: seq<string>, version: string) {
    && p == p0.(requiredDep := p.requiredDep, optionalDep := p.optionalDep)
    && AreIdsOf(p.requiredDep, p0.requiredDep, tpls, version)
    && AreIdsOf(p.optionalDep, p0.optionalDep, tpls, version)
  }

  function TplId(name: string): string {
    PackageId(name, TPL_VERSION)
  }

  ghost predicate ListsProcessed(db: Db, db0: Db, tpls: seq<string>, version: string) {
    db.Keys == db0.Keys && forall id :: id in db0 ==> IsProcessedPackage(db[id], db0[id], tpls, version)
  }

  ghost predicate IsTplId(id: string, tpls: seq<string>, i: nat)
    requires i <= |tpls|
  {
    exists k :: 0 <= k < i && id == TplId(tpls[k])
  }

  /** The first `i` libraries have been added to the packages of `db1`. */
  ghost predicate TplsAdded(db: Db, db1: Db, tpls: seq<string>, i: nat)
    requires i <= |tpls|
  {
    && (forall id :: id in db1 ==> id in db && db[id] == db1[id])
    && (forall id :: id in db ==> id in db1 || IsTplId(id, tpls, i))
    && (forall k :: 0 <= k < i ==> TplId(tpls[k]) in db && db[TplId(tpls[k])] == TplPackage(tpls[k]))
  }

  ghost predicate IsProcessed(db: Db, db0: Db, tpls: seq<string>, version: string) {
    && (forall n :: n in tpls <==> IsTpl(db0, n))
    && exists db1 :: ListsProcessed(db1, db0, tpls, version) && TplsAdded(db, db1, tpls, |tpls|)
  }

  lemma ProcessedKeys(db: Db, db0: Db, tpls: seq<string>, version: string)
    requires ListsProcessed(db, db0, tpls, version)
    ensures db.Keys == db0.Keys
  {
  }

  lemma AddTpl(db: Db, db1: Db, tpls: seq<string>, i: nat)
    requires i < |tpls| && TplsAdded(db, db1, tpls, i) && TplId(tpls[i]) !in db1
    requires forall k :: 0 <= k < i ==> TplId(tpls[k]) != TplId(tpls[i])
    ensures TplsAdded(db[TplId(tpls[i]) := TplPackage(tpls[i])], db1, tpls, i + 1)
  {
    var next := db[TplId(tpls[i]) := TplPackage(tpls[i])];
    forall id | id in next
      ensures id in db1 || IsTplId(id, tpls, i + 1)
    {
      if id in db && id !in db1 {
        assert IsTplId(id, tpls, i);
      }
    }
  }

  lemma VersionIsFound(db: Db, version: string)
    requires WellIdentified(db, version)
    ensures forall id :: IsTrilinosId(db, id) ==> VersionOf(id) == Some(version)
    ensures exists id :: IsTrilinosId(db, id)
  {
    forall id | IsTrilinosId(db, id)
      ensures VersionOf(id) == Some(version)
    {
      IdSplits(db[id].name, version);
    }
    assert IsTrilinosId(db, PackageId(TRILINOS, version));
  }

  lemma TplHasNoDash(db: Db, version: string, name: string)
    requires WellIdentified(db, version) && IsTpl(db, name)
    ensures NoDash(name)
  {
    var id, kind :| id in db && name in DepsOf(db[id], kind);
  }

  /** A library's ID is no package ID. */
  lemma TplIsNoPackage(db: Db, version: string, name: string)
    requires WellIdentified(db, version) && IsTpl(db, name)
    ensures TplId(name) !in db
  {
    TplHasNoDash(db, version, name);
    IdSplits(name, TPL_VERSION);
    if TplId(name) in db {
      IdSplits(db[TplId(name)].name, version);
      assert false;
    }
  }

  lemma TplIdsAreNew(db: Db, version: string, tpls: seq<string>)
    requires WellIdentified(db, version) && IsSorted(tpls) && forall n :: n in tpls <==> IsTpl(db, n)
    ensures forall k :: 0 <= k < |tpls| ==> TplId(tpls[k]) !in db
    ensures forall j, k :: 0 <= j < k < |tpls| ==> TplId(tpls[j]) != TplId(tpls[k])
  {
    assert forall k :: 0 <= k < |tpls| ==> tpls[k] in tpls;
    forall k | 0 <= k < |tpls|
      ensures TplId(tpls[k]) !in db
    {
      TplIsNoPackage(db, version, tpls[k]);
    }
    forall j, k | 0 <= j < k < |tpls|
      ensures TplId(tpls[j]) != TplId(tpls[k])
    {
      TplHasNoDash(db, version, tpls[j]);
      TplHasNoDash(db, version, tpls[k]);
      IdSplits(tpls[j], TPL_VERSION);
      IdSplits(tpls[k], TPL_VERSION);
      LessIsTotal(tpls[j], tpls[k]);
    }
  }

  // ---------- the finished database ----------

  ghost predicate HasIntegrity(db: Db) {
    && (forall id, kind :: id in db ==> IsSorted(DepsOf(db[id], kind)))
    && (forall id, kind, d :: id in db && d in DepsOf(db[id], kind) ==> d in db)
    && (forall id :: id in db ==> NoDuplicates(db[id].subPackages))
    && (forall id, c :: id in db ==> (c in db[id].subPackages <==> c in db && db[c].parent == id))
  }

  /** The IDs name the same packages as the names. */
  ghost predicate SameNames(ids: seq<string>, names: seq<string>) {
    && (forall n :: n in names ==> exists id :: id in ids && NameOf(id) == n)
    && (forall id :: id in ids ==> NameOf(id) in names)
  }

  lemma SecondPassKeeps(db: Db, db0: Db, version: string)
    requires AsRead(db0, version) && ParentsInverted(db, db0, db.Keys)
    ensures WellIdentified(db, version)
    ensures forall n :: IsTpl(db, n) <==> IsTpl(db0, n)
  {
    forall id | id in db
      ensures db[id] == db0[id].(subPackages := db[id].subPackages)
    {
      assert HasChildren(id, db[id], db0, db.Keys);
    }
    assert forall id, kind :: id in db ==> DepsOf(db[id], kind) == DepsOf(db0[id], kind);
  }

  ghost predicate KeepsPackage(p: Package, p0: Package) {
    && p.name == p0.name && p.version == p0.version && p.parent == p0.parent
    && forall kind :: SameNames(DepsOf(p, kind), DepsOf(p0, kind))
  }

  /** The packages read keep their names, versions, parents and dependencies; what is new are exactly the libraries
      they depend on. */
  ghost predicate KeepsPackages(db: Db, db0: Db) {
    && (forall id :: id in db0 ==> id in db && KeepsPackage(db[id], db0[id]))
    && (forall id :: id in db && id !in db0 ==>
          IsTpl(db0, db[id].name) && id == TplId(db[id].name) && db[id] == TplPackage(db[id].name))
    && (forall n :: IsTpl(db0, n) ==> TplId(n) in db && TplId(n) !in db0)
  }

  /** Every key is the ID of its record's own name and version. */
  ghost predicate KeysAreOwn(db: Db) {
    forall id :: id in db ==> id == PackageId(db[id].name, db[id].version)
  }

  /** The passes keep this: packages keep their names and versions, and libraries carry the version of their key. */
  lemma KeysStayOwn(db: Db, db0: Db)
    requires KeepsPackages(db, db0) && KeysAreOwn(db0)
    ensures KeysAreOwn(db)
  {
    forall id | id in db
      ensures id == PackageId(db[id].name, db[id].version)
    {
      if id in db0 {
        assert KeepsPackage(db[id], db0[id]);
      }
    }
  }

  /** The record of a library: no parent, no dependencies, and the version that its key ends in. */
  lemma LibraryRecord(db: Db, db0: Db, n: string)
    requires KeepsPackages(db, db0) && IsTpl(db0, n) && NoDash(n)
    requires forall id :: id in db0 ==> NoDash(db0[id].name)
    ensures n + "-Unspec" in db && db[n + "-Unspec"] == Package(n, "Unspec", "", [], [], [])
  {
    var id := TplId(n);
    assert id in db && id !in db0;
    var m := db[id].name;
    assert id == TplId(m) && db[id] == TplPackage(m);
    SameTplId(m, n);
  }

  lemma SameTplId(m: string, n: string)
    requires TplId(m) == TplId(n)
    ensures m == n && TplId(n) == n + "-Unspec"
  {
    var suffix := "-" + "Unspec";
    assert n + "-" + "Unspec" == n + suffix && m + "-" + "Unspec" == m + suffix && suffix == "-Unspec";
    assert |m| == |n|;
    assert (n + suffix)[..|n|] == n && (m + suffix)[..|m|] == m;
  }

  /** The databases before, between and after the passes. */
  ghost predicate Passes(db: Db, db2: Db, db1: Db, db0: Db, tpls: seq<string>, version: string) {
    && AsRead(db0, version) && WellIdentified(db1, version)
    && ParentsInverted(db1, db0, db1.Keys)
    && (forall n :: n in tpls <==> IsTpl(db1, n))
    && ListsProcessed(db2, db1, tpls, version) && TplsAdded(db, db2, tpls, |tpls|)
  }

  lemma PassesFinish(db: Db, db1: Db, db0: Db, tpls: seq<string>, version: string)
    requires AsRead(db0, version) && ParentsInverted(db1, db0, db1.Keys) && WellIdentified(db1, version)
    requires IsProcessed(db, db1, tpls, version)
    ensures HasIntegrity(db) && KeepsPackages(db, db0)
  {
    hide AsRead, ParentsInverted, WellIdentified, ListsProcessed, TplsAdded, IsTpl;
    var db2 :| ListsProcessed(db2, db1, tpls, version) && TplsAdded(db, db2, tpls, |tpls|);
    assert Passes(db, db2, db1, db0, tpls, version);
    forall id, kind | id in db
      ensures IsSorted(DepsOf(db[id], kind))
      ensures forall d :: d in DepsOf(db[id], kind) ==> d in db
    {
      DependenciesAreKeys(db, db2, db1, db0, tpls, version, id, kind);
    }
    forall id | id in db
      ensures NoDuplicates(db[id].subPackages)
      ensures forall c :: c in db[id].subPackages <==> c in db && db[c].parent == id
    {
      SubPackagesInvertParents(db, db2, db1, db0, tpls, version, id);
    }
    PackagesAreKept(db, db2, db1, db0, tpls, version);
  }

  /** Every package of the finished database is one that was read, or a library. */
  lemma OldOrTpl(db: Db, db2: Db, db1: Db, db0: Db, tpls: seq<string>, version: string, id: string)
    requires Passes(db, db2, db1, db0, tpls, version) && id in db
    ensures id in db0 ==>
              && id in db1 && IsProcessedPackage(db[id], db1[id], tpls, version)
              && db1[id] == db0[id].(subPackages := db1[id].subPackages)
    ensures id !in db0 ==> exists n :: n in tpls && id == TplId(n) && db[id] == TplPackage(n)
  {
    hide AreIdsOf, NoDuplicates, AsRead, WellIdentified, IsTpl;
    if id in db0 {
      assert HasChildren(id, db1[id], db0, db1.Keys);
    } else {
      var k :| 0 <= k < |tpls| && id == TplId(tpls[k]);
      assert tpls[k] in tpls;
    }
  }

  lemma DependenciesAreKeys(db: Db, db2: Db, db1: Db, db0: Db, tpls: seq<string>, version: string, id: string, kind: DepKind)
    requires Passes(db, db2, db1, db0, tpls, version) && id in db
    ensures IsSorted(DepsOf(db[id], kind))
    ensures forall d :: d in DepsOf(db[id], kind) ==> d in db
  {
    OldOrTpl(db, db2, db1, db0, tpls, version, id);
    if id in db0 {
      forall d | d in DepsOf(db[id], kind)
        ensures d in db
      {
        var n :| n in DepsOf(db1[id], kind) && d == IdOf(n, tpls, version);
        NameHasKey(db, db2, db1, tpls, version, id, kind, n);
      }
    }
  }

  lemma NameHasKey(db: Db, db2: Db, db1: Db, tpls: seq<string>, version: string, id: string, kind: DepKind, n: string)
    requires WellIdentified(db1, version) && (forall n :: n in tpls <==> IsTpl(db1, n))
    requires ListsProcessed(db2, db1, tpls, version) && TplsAdded(db, db2, tpls, |tpls|)
    requires id in db1 && n in DepsOf(db1[id], kind)
    ensures IdOf(n, tpls, version) in db
  {
    if n in tpls {
      var k :| 0 <= k < |tpls| && tpls[k] == n;
      assert TplId(tpls[k]) in db;
    } else {
      assert IsDependency(db1, n);
      var id' :| id' in db1 && db1[id'].name == n;
      assert id' in db2;
    }
  }

  lemma SubPackagesInvertParents(db: Db, db2: Db, db1: Db, db0: Db, tpls: seq<string>, version: string, id: string)
    requires Passes(db, db2, db1, db0, tpls, version) && id in db
    ensures NoDuplicates(db[id].subPackages)
    ensures forall c :: c in db[id].subPackages <==> c in db && db[c].parent == id
  {
    OldOrTpl(db, db2, db1, db0, tpls, version, id);
    KeyIsNotEmpty(db, db2, db1, db0, tpls, version, id);
    if id in db0 {
      assert HasChildren(id, db1[id], db0, db1.Keys);
    }
    forall c | c in db
      ensures c in db[id].subPackages <==> db[c].parent == id
    {
      OldOrTpl(db, db2, db1, db0, tpls, version, c);
    }
    forall c | c in db[id].subPackages
      ensures c in db
    {
      assert c in db0 && c in db2;
    }
  }

  lemma KeyIsNotEmpty(db: Db, db2: Db, db1: Db, db0: Db, tpls: seq<string>, version: string, id: string)
    requires Passes(db, db2, db1, db0, tpls, version) && id in db
    ensures id != ""
  {
    OldOrTpl(db, db2, db1, db0, tpls, version, id);
    if id in db0 {
      assert |PackageId(db0[id].name, version)| > 0;
    } else {
      var n :| n in tpls && id == TplId(n);
      assert |TplId(n)| > 0;
    }
  }

  lemma PackageIsKept(db: Db, db2: Db, db1: Db, db0: Db, tpls: seq<string>, version: string, id: string)
    requires Passes(db, db2, db1, db0, tpls, version) && id in db0
    ensures id in db && KeepsPackage(db[id], db0[id])
  {
    hide IsTpl, WellIdentified, AreIdsOf, SameNames, NoDuplicates;
    assert id in db1 && id in db2;
    OldOrTpl(db, db2, db1, db0, tpls, version, id);
    forall kind
      ensures SameNames(DepsOf(db[id], kind), DepsOf(db0[id], kind))
    {
      assert forall d :: d in DepsOf(db0[id], kind) ==> NoDash(d);
      NamesReadBack(DepsOf(db[id], kind), DepsOf(db0[id], kind), tpls, version);
    }
  }

  lemma LibraryIsNew(db: Db, db2: Db, db1: Db, db0: Db, tpls: seq<string>, version: string, n: string)
    requires Passes(db, db2, db1, db0, tpls, version) && IsTpl(db0, n)
    ensures TplId(n) in db && TplId(n) !in db0
  {
    hide IsTpl, WellIdentified, AreIdsOf, IsProcessedPackage, HasChildren, TplId, TplPackage, IsTplId;
    SecondPassKeeps(db1, db0, version);
    TplIsNoPackage(db1, version, n);
    var k :| 0 <= k < |tpls| && tpls[k] == n;
  }

  lemma PackagesAreKept(db: Db, db2: Db, db1: Db, db0: Db, tpls: seq<string>, version: string)
    requires Passes(db, db2, db1, db0, tpls, version)
    ensures KeepsPackages(db, db0)
  {
    hide KeepsPackage, IsTpl, Passes;
    forall id | id in db0
      ensures id in db && KeepsPackage(db[id], db0[id])
    {
      PackageIsKept(db, db2, db1, db0, tpls, version, id);
    }
    forall id | id in db && id !in db0
      ensures IsTpl(db0, db[id].name) && id == TplId(db[id].name) && db[id] == TplPackage(db[id].name)
    {
      NewIsLibrary(db, db2, db1, db0, tpls, version, id);
    }
    forall n | IsTpl(db0, n)
      ensures TplId(n) in db && TplId(n) !in db0
    {
      LibraryIsNew(db, db2, db1, db0, tpls, version, n);
    }
  }

  lemma NewIsLibrary(db: Db, db2: Db, db1: Db, db0: Db, tpls: seq<string>, version: string, id: string)
    requires Passes(db, db2, db1, db0, tpls, version) && id in db && id !in db0
    ensures IsTpl(db0, db[id].name) && id == TplId(db[id].name) && db[id] == TplPackage(db[id].name)
  {
    hide IsTpl, WellIdentified, AreIdsOf, IsProcessedPackage, HasChildren;
    OldOrTpl(db, db2, db1, db0, tpls, version, id);
    SecondPassKeeps(db1, db0, version);
  }

  lemma NamesReadBack(ids: seq<string>, names: seq<string>, tpls: seq<string>, version: string)
    requires NoDash(version) && (forall n :: n in names ==> NoDash(n))
    requires AreIdsOf(ids, names, tpls, version)
    ensures SameNames(ids, names)
  {
    forall n | n in names
      ensures NameOf(IdOf(n, tpls, version)) == n
    {
      IdSplits(n, version);
      IdSplits(n, TPL_VERSION);
    }
  }
}
