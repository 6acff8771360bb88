/** Removing skip-test paths that a configuration already inherits. */
module ConfigCleanup {
  import opened Options

  type Path = string
  type Test = string

  /** A group of skipped tests; a group may have no paths at all. */
  datatype Group = Group(reason: string, paths: Option<seq<Test>>)

  datatype Config = Config(inherit: Option<Path>, skip_tests: Option<seq<Group>>)

  type Files = map<Path, Config>

  // ----- what a configuration skips -----

  function GroupTests(g: Group): set<Test> {
    match g.paths case None => {} case Some(ps) => set t | t in ps
  }

  function GroupsTests(gs: seq<Group>): set<Test> {
    if gs == [] then {} else GroupTests(gs[0]) + GroupsTests(gs[1..])
  }

  function Own(c: Config): set<Test> {
    match c.skip_tests case None => {} case Some(gs) => GroupsTests(gs)
  }

  /** The parent, if it is named and its file exists. */
  function Parent(fs: Files, p: Path): Option<Path>
    requires p in fs
    ensures Parent(fs, p).Some? ==> Parent(fs, p).value in fs
  {
    match fs[p].inherit
    case None => None
    case Some(q) => if q in fs then Some(q) else None
  }

  /** The configurations the walk from p adds the paths of, once `visited` have been entered. */
  function Ancestors(fs: Files, p: Path, visited: set<Path>): (a: set<Path>)
    requires p in fs && p !in visited
    ensures a <= fs.Keys
    decreases fs.Keys - visited
  {
    match Parent(fs, p)
    case None => {}
    case Some(q) => {q} + if q in visited + {p} then {} else Ancestors(fs, q, visited + {p})
  }

  function TestsOf(fs: Files, ps: set<Path>): set<Test> {
    set q, t | q in ps && q in fs && t in Own(fs[q]) :: t
  }

  function Inherited(fs: Files, p: Path): set<Test>
    requires p in fs
  {
    TestsOf(fs, Ancestors(fs, p, {}))
  }

  /** What a test run with configuration p skips. */
  function Effective(fs: Files, p: Path): set<Test>
    requires p in fs
  {
    Own(fs[p]) + Inherited(fs, p)
  }

  // ----- cleaning -----

  /** The paths of a group that are not inherited, in order. */
  function Kept(ps: seq<Test>, inherited: set<Test>): (r: seq<Test>)
    ensures forall t :: t in r <==> t in ps && t !in inherited
  {
    if ps == [] then [] else (if ps[0] in inherited then [] else [ps[0]]) + Kept(ps[1..], inherited)
  }

  /** A group after cleaning, or nothing when it has no paths left. */
  function CleanGroup(g: Group, inherited: set<Test>): seq<Group> {
    match g.paths
    case None => [g]
    case Some(ps) => var kept := Kept(ps, inherited); if kept == [] then [] else [g.(paths := Some(kept))]
  }

  function CleanGroups(gs: seq<Group>, inherited: set<Test>): seq<Group> {
    if gs == [] then [] else CleanGroup(gs[0], inherited) + CleanGroups(gs[1..], inherited)
  }

  function CleanConfig(c: Config, inherited: set<Test>): Config {
    if Own(c) * inherited == {} then c
    else
      var gs := CleanGroups(c.skip_tests.value, inherited);
      c.(skip_tests := if gs == [] then None else Some(gs))
  }

  function Clean(fs: Files, p: Path): (r: Files)
    ensures r.Keys == fs.Keys
  {
    if p in fs then fs[p := CleanConfig(fs[p], Inherited(fs, p))] else fs
  }

  lemma {:induction false} GroupsConcat(a: seq<Group>, b: seq<Group>)
    ensures GroupsTests(a + b) == GroupsTests(a) + GroupsTests(b)
  {
    if a == [] {
      assert a + b == b;
    } else {
      assert (a + b)[1..] == a[1..] + b;
      GroupsConcat(a[1..], b);
    }
  }

  lemma CleanGroupOwn(g: Group, inherited: set<Test>)
    ensures GroupsTests(CleanGroup(g, inherited)) == GroupTests(g) - inherited
  {
    match g.paths {
      case None => assert [g][1..] == [];
      case Some(ps) =>
        var kept := Kept(ps, inherited);
        var g2 := g.(paths := Some(kept));
        assert [g2][1..] == [];
        assert GroupTests(g2) == GroupTests(g) - inherited;
        if kept == [] {
          assert GroupTests(g) - inherited == {};
        }
    }
  }

  lemma {:induction false} CleanGroupsOwn(gs: seq<Group>, inherited: set<Test>)
    ensures GroupsTests(CleanGroups(gs, inherited)) == GroupsTests(gs) - inherited
  {
    if gs != [] {
      CleanGroupOwn(gs[0], inherited);
      CleanGroupsOwn(gs[1..], inherited);
      GroupsConcat(CleanGroup(gs[0], inherited), CleanGroups(gs[1..], inherited));
    }
  }

  /** Cleaning takes exactly the inherited paths away, and changes nothing if there are none. */
  lemma CleanOwn(c: Config, inherited: set<Test>)
    ensures Own(CleanConfig(c, inherited)) == Own(c) - inherited
    ensures CleanConfig(c, inherited).inherit == c.inherit
    ensures Own(c) * inherited == {} ==> CleanConfig(c, inherited) == c
  {
    if Own(c) * inherited != {} {
      CleanGroupsOwn(c.skip_tests.value, inherited);
    } else {
      assert Own(c) - inherited == Own(c) - Own(c) * inherited;
    }
  }

  // ----- ancestors -----

  /** Ancestors are closed under parents. */
  lemma {:induction false} AncestorsClosed(fs: Files, p: Path, visited: set<Path>, r: Path)
    requires p in fs && p !in visited && r in Ancestors(fs, p, visited) && Parent(fs, r).Some?
    ensures Parent(fs, r).value in Ancestors(fs, p, visited) || r in visited + {p}
    decreases fs.Keys - visited
  {
    var q := Parent(fs, p).value;
    if q !in visited + {p} && r in Ancestors(fs, q, visited + {p}) {
      AncestorsClosed(fs, q, visited + {p}, r);
    }
  }

  /** And they are the least such set that holds the parent. */
  lemma {:induction false} AncestorsLeast(fs: Files, p: Path, visited: set<Path>, s: set<Path>)
    requires p in fs && p !in visited
    requires Parent(fs, p).Some? ==> Parent(fs, p).value in s
    requires forall r :: r in s && r in fs && Parent(fs, r).Some? ==> Parent(fs, r).value in s
    ensures Ancestors(fs, p, visited) <= s
    decreases fs.Keys - visited
  {
    if Parent(fs, p).Some? {
      var q := Parent(fs, p).value;
      if q !in visited + {p} { AncestorsLeast(fs, q, visited + {p}, s); }
    }
  }

  lemma AncestorsTransitive(fs: Files, x: Path, p: Path)
    requires x in fs && p in Ancestors(fs, x, {})
    ensures Ancestors(fs, p, {}) <= Ancestors(fs, x, {})
  {
    var s := Ancestors(fs, x, {});
    forall r | r in s && Parent(fs, r).Some? ensures Parent(fs, r).value in s {
      AncestorsClosed(fs, x, {}, r);
    }
    AncestorsLeast(fs, p, {}, s);
  }

  /** The ancestors depend only on who inherits from whom. */
  lemma {:induction false} AncestorsKept(fs: Files, fs2: Files, p: Path, visited: set<Path>)
    requires p in fs && p !in visited && fs.Keys == fs2.Keys && forall q :: q in fs ==> fs2[q].inherit == fs[q].inherit
    ensures Ancestors(fs2, p, visited) == Ancestors(fs, p, visited)
    decreases fs.Keys - visited
  {
    if Parent(fs, p).Some? {
      var q := Parent(fs, p).value;
      if q !in visited + {p} { AncestorsKept(fs, fs2, q, visited + {p}); }
    }
  }

  ghost predicate Acyclic(fs: Files) {
    forall p :: p in fs ==> p !in Ancestors(fs, p, {})
  }

  // ----- one configuration cleaned -----

  /** Cleaning p leaves everything but p's own paths as it was. */
  lemma CleanStep(fs: Files, p: Path)
    requires p in fs
    ensures forall q :: q in fs ==> Clean(fs, p)[q].inherit == fs[q].inherit
    ensures forall q :: q in fs ==> Own(Clean(fs, p)[q]) == if q == p then Own(fs[p]) - Inherited(fs, p) else Own(fs[q])
    ensures forall q :: q in fs ==> Ancestors(Clean(fs, p), q, {}) == Ancestors(fs, q, {})
  {
    hide CleanConfig, Own, Inherited;
    CleanOwn(fs[p], Inherited(fs, p));
    forall q | q in fs ensures Ancestors(Clean(fs, p), q, {}) == Ancestors(fs, q, {}) {
      AncestorsKept(fs, Clean(fs, p), q, {});
    }
  }

  /** Cleaning an acyclic p keeps what every configuration inherits. */
  lemma InheritedKept(fs: Files, p: Path, x: Path)
    requires p in fs && x in fs && p !in Ancestors(fs, p, {})
    ensures Inherited(Clean(fs, p), x) == Inherited(fs, x)
  {
    hide Clean, Own, Ancestors;
    CleanStep(fs, p);
    var gs, a := Clean(fs, p), Ancestors(fs, x, {});
    assert Inherited(gs, x) == TestsOf(gs, a);
    forall t | t in TestsOf(fs, a) ensures t in TestsOf(gs, a) {
      var q :| q in a && q in fs && t in Own(fs[q]);
      if q == p && t in Inherited(fs, p) {
        AncestorsTransitive(fs, x, p);
        var q2 :| q2 in Ancestors(fs, p, {}) && q2 in fs && t in Own(fs[q2]);
        assert q2 != p && t in Own(gs[q2]);
      } else {
        assert t in Own(gs[q]);
      }
    }
    forall t | t in TestsOf(gs, a) ensures t in TestsOf(fs, a) {
      var q :| q in a && q in gs && t in Own(gs[q]);
      assert t in Own(fs[q]);
    }
  }

  /** Cleaning p keeps p's effective skip set exactly when p does not inherit from itself, or the configurations it
      inherits from skip p's own paths without p. */
  lemma CleaningKeepsEffective(fs: Files, p: Path)
    requires p in fs
    ensures Effective(Clean(fs, p), p) == Effective(fs, p)
       <==> p !in Ancestors(fs, p, {}) || Own(fs[p]) <= TestsOf(fs, Ancestors(fs, p, {}) - {p})
  {
    hide Clean, Own, Ancestors;
    CleanStep(fs, p);
    var gs, a := Clean(fs, p), Ancestors(fs, p, {});
    if p !in a {
      InheritedKept(fs, p, p);
      assert Effective(gs, p) == Effective(fs, p);
    } else {
      assert Own(fs[p]) <= Inherited(fs, p);
      assert Own(gs[p]) == {};
      forall t | t in TestsOf(gs, a) ensures t in TestsOf(fs, a - {p}) {
        var q :| q in a && q in gs && t in Own(gs[q]);
        assert q in a - {p} && t in Own(fs[q]);
      }
      forall t | t in TestsOf(fs, a - {p}) ensures t in TestsOf(gs, a) {
        var q :| q in a - {p} && q in fs && t in Own(fs[q]);
        assert t in Own(gs[q]);
      }
      assert Effective(gs, p) == TestsOf(fs, a - {p});
      forall t | t in TestsOf(fs, a) ensures t in TestsOf(fs, a - {p}) || t in Own(fs[p]) {
        var q :| q in a && q in fs && t in Own(fs[q]);
        assert q != p ==> q in a - {p};
      }
      assert Effective(fs, p) == TestsOf(fs, a - {p}) + Own(fs[p]) by {
        forall t | t in TestsOf(fs, a - {p}) ensures t in TestsOf(fs, a) {
          var q :| q in a - {p} && q in fs && t in Own(fs[q]);
        }
      }
    }
  }

  /** A configuration that inherits from itself loses its own paths. */
  lemma SelfInheritanceLosesPaths()
    ensures var c := Config(Some("a.json"), Some([Group("", Some(["t"]))]));
            var fs := map["a.json" := c];
            Effective(fs, "a.json") == {"t"} && Effective(Clean(fs, "a.json"), "a.json") == {}
  {
    var g := Group("", Some(["t"]));
    var c := Config(Some("a.json"), Some([g]));
    var fs := map["a.json" := c];
    assert [g][1..] == [] && GroupTests(g) == {"t"};
    assert GroupsTests([g]) == GroupTests(g) + GroupsTests([g][1..]) == {"t"};
    assert Ancestors(fs, "a.json", {}) == {"a.json"};
    assert "a.json" in Ancestors(fs, "a.json", {}) && "t" in Own(fs["a.json"]);
    assert "t" in Inherited(fs, "a.json");
    assert Inherited(fs, "a.json") == {"t"};
    CleanStep(fs, "a.json");
    assert Own(Clean(fs, "a.json")["a.json"]) == {};
  }

  // ----- the whole run -----

  function CleanAll(fs: Files, ps: seq<Path>): (r: Files)
    ensures r.Keys == fs.Keys
  {
    if ps == [] then fs else CleanAll(Clean(fs, ps[0]), ps[1..])
  }

  lemma AcyclicKept(fs: Files, p: Path)
    requires Acyclic(fs)
    ensures Acyclic(Clean(fs, p))
  {
    if p in fs { CleanStep(fs, p); }
  }

  /** On acyclic inheritance, cleaning in any order keeps every inherited and every effective skip set, takes from each
      configuration at most inherited paths, and leaves no cleaned configuration with a path it inherits. */
  lemma {:induction false} CleaningConserves(fs: Files, ps: seq<Path>, x: Path)
    requires Acyclic(fs) && x in fs
    ensures Acyclic(CleanAll(fs, ps))
    ensures Inherited(CleanAll(fs, ps), x) == Inherited(fs, x)
    ensures Effective(CleanAll(fs, ps), x) == Effective(fs, x)
    ensures Own(CleanAll(fs, ps)[x]) == if x in ps then Own(fs[x]) - Inherited(fs, x) else Own(fs[x])
    decreases |ps|
  {
    hide Clean, Own, Inherited, Acyclic;
    if ps != [] {
      var p := ps[0];
      var gs := Clean(fs, p);
      AcyclicKept(fs, p);
      CleaningConserves(gs, ps[1..], x);
      if p in fs {
        NotOwnAncestor(fs, p);
        CleanStep(fs, p);
        InheritedKept(fs, p, x);
      } else {
        AbsentSkipped(fs, p);
      }
      assert x in ps <==> x == p || x in ps[1..];
    }
  }

  lemma NotOwnAncestor(fs: Files, p: Path)
    requires Acyclic(fs) && p in fs
    ensures p !in Ancestors(fs, p, {})
  {
  }

  lemma AbsentSkipped(fs: Files, p: Path)
    requires p !in fs
    ensures Clean(fs, p) == fs
  {
  }

  /** A second pass changes nothing. */
  lemma {:induction false} SecondPassIdle(fs: Files, ps: seq<Path>, qs: seq<Path>)
    requires Acyclic(fs) && forall q :: q in qs ==> q in ps
    ensures CleanAll(CleanAll(fs, ps), qs) == CleanAll(fs, ps)
    decreases |qs|
  {
    hide Own, Inherited, Acyclic, CleanConfig;
    if qs != [] {
      var gs, q := CleanAll(fs, ps), qs[0];
      if q in fs {
        CleaningConserves(fs, ps, q);
        CleanOwn(gs[q], Inherited(gs, q));
        assert Clean(gs, q) == gs;
      } else {
        AbsentSkipped(gs, q);
      }
      SecondPassIdle(fs, ps, qs[1..]);
    }
  }

  // ----- the script -----

  datatype Outcome = NotLoaded | Unchanged | Changed

  /** The configuration files on disk. */
  class Cleaner {
    var files: Files

    constructor (fs: Files)
      ensures files == fs
    {
      files := fs;
    }

    method OwnTests(p: Path) returns (tests: set<Test>)
      requires p in files
      ensures tests == Own(files[p])
    {
      tests := {};
      if files[p].skip_tests.Some? {
        var groups := files[p].skip_tests.value;
        for k := 0 to |groups|
          invariant tests == GroupsTests(groups[..k])
        {
          assert groups[..k + 1] == groups[..k] + [groups[k]];
          GroupsConcat(groups[..k], [groups[k]]);
          assert [groups[k]][1..] == [];
          if groups[k].paths.Some? {
            tests := tests + set t | t in groups[k].paths.value;
          }
        }
        assert groups[..|groups|] == groups;
      }
    }

    /** The walk up the inheritance; `visited` stops it on a cycle. */
    method GetInheritedSkipTests(config_path: Path, visited: set<Path>)
        returns (inherited_paths: set<Test>, visited': set<Path>)
      requires config_path in files
      ensures inherited_paths == if config_path in visited then {}
              else TestsOf(files, Ancestors(files, config_path, visited))
      decreases files.Keys - visited
    {
      if config_path in visited {
        return {}, visited;
      }
      visited' := visited + {config_path};
      inherited_paths := {};
      var config := files[config_path];
      if config.inherit.Some? {
        var full_inherit_path := config.inherit.value;
        if full_inherit_path in files {
          inherited_paths, visited' := GetInheritedSkipTests(full_inherit_path, visited');
          var own := OwnTests(full_inherit_path);
          TestsOfOneMore(files, full_inherit_path,
                         if full_inherit_path in visited + {config_path} then {}
                             else Ancestors(files, full_inherit_path, visited + {config_path}));
          inherited_paths := inherited_paths + own;
        }
      }
    }

    /** `cleanup_config`. */
    method CleanupConfig(config_path: Path, dry_run: bool) returns (outcome: Outcome)
      modifies this
      ensures files == if dry_run then old(files) else Clean(old(files), config_path)
      ensures outcome == if config_path !in old(files) then NotLoaded
                         else if Own(old(files)[config_path]) * Inherited(old(files), config_path) == {} then Unchanged
                             else Changed
    {
      hide CleanGroups, GroupsTests, TestsOf, Ancestors;
      if config_path !in files {
        return NotLoaded;
      }
      var config := files[config_path];
      if config.skip_tests.None? || config.inherit.None? {
        NothingInherited(files, config_path);
        assert Own(config) * Inherited(files, config_path) == {};
        return Unchanged;
      }
      var inherited_tests, _ := GetInheritedSkipTests(config_path, {});
      if inherited_tests == {} {
        assert Own(config) * inherited_tests == {};
        return Unchanged;
      }
      var changes_made, new_skip_tests := FilterGroups(config.skip_tests.value, inherited_tests);
      if changes_made {
        if !dry_run {
          config := config.(skip_tests := if new_skip_tests == [] then None else Some(new_skip_tests));
          files := files[config_path := config];
        }
        return Changed;
      }
      return Unchanged;
    }

    /** The driver: every file in turn; one that cannot be loaded is passed over. */
    method Run(config_files: seq<Path>, dry_run: bool) returns (total_changed: nat)
      modifies this
      ensures files == if dry_run then old(files) else CleanAll(old(files), config_files)
      ensures total_changed <= |config_files| && (files != old(files) ==> total_changed > 0)
    {
      hide Clean;
      total_changed := 0;
      for k := 0 to |config_files|
        invariant if dry_run then files == old(files) else
                    CleanAll(files, config_files[k..]) == CleanAll(old(files), config_files)
        invariant total_changed <= k && (files != old(files) ==> total_changed > 0)
      {
        assert config_files[k..][1..] == config_files[k + 1..];
        ghost var before := files;
        var outcome := CleanupConfig(config_files[k], dry_run);
        if outcome == Changed {
          total_changed := total_changed + 1;
        } else {
          UnlessChanged(before, config_files[k]);
        }
      }
    }
  }

  lemma TestsOfOneMore(fs: Files, q: Path, a: set<Path>)
    requires q in fs
    ensures TestsOf(fs, {q} + a) == TestsOf(fs, a) + Own(fs[q])
  {
    hide Own;
  }

  lemma UnlessChanged(fs: Files, p: Path)
    requires p !in fs || Own(fs[p]) * Inherited(fs, p) == {}
    ensures Clean(fs, p) == fs
  {
    hide Own, Inherited;
  }

  lemma NothingInherited(fs: Files, p: Path)
    requires p in fs && (fs[p].skip_tests.None? || fs[p].inherit.None?)
    ensures Own(fs[p]) == {} || Inherited(fs, p) == {}
  {
  }

  /** The loop over the groups: inherited paths are filtered out, and groups left without paths are dropped. */
  method FilterGroups(groups: seq<Group>, inherited_tests: set<Test>)
      returns (changes_made: bool, new_skip_tests: seq<Group>)
    ensures changes_made == (GroupsTests(groups) * inherited_tests != {})
    ensures new_skip_tests == CleanGroups(groups, inherited_tests)
  {
    hide CleanGroup, GroupTests;
    changes_made, new_skip_tests := false, [];
    for k := 0 to |groups|
      invariant changes_made == (GroupsTests(groups[..k]) * inherited_tests != {})
      invariant new_skip_tests + CleanGroups(groups[k..], inherited_tests) == CleanGroups(groups, inherited_tests)
    {
      var skip_group := groups[k];
      ghost var before := new_skip_tests;
      assert groups[..k + 1] == groups[..k] + [skip_group];
      GroupsConcat(groups[..k], [skip_group]);
      assert [skip_group][1..] == [] && groups[k..][1..] == groups[k + 1..];
      var removed, cleaned := FilterGroup(skip_group, inherited_tests);
      new_skip_tests := new_skip_tests + cleaned;
      Distributes(GroupsTests(groups[..k]), GroupTests(skip_group), inherited_tests);
      changes_made := changes_made || removed;
      assert before + (cleaned + CleanGroups(groups[k + 1..], inherited_tests))
             == new_skip_tests + CleanGroups(groups[k + 1..], inherited_tests);
    }
    assert groups[..|groups|] == groups;
  }

  lemma Distributes(a: set<Test>, b: set<Test>, c: set<Test>)
    ensures (a + b) * c == {} <==> a * c == {} && b * c == {}
  {
    assert (a + b) * c == a * c + b * c;
  }

  method FilterGroup(skip_group: Group, inherited_tests: set<Test>) returns (removed: bool, cleaned: seq<Group>)
    ensures removed == (GroupTests(skip_group) * inherited_tests != {})
            && cleaned == CleanGroup(skip_group, inherited_tests)
  {
    if skip_group.paths.None? {
      return false, [skip_group];
    }
    var original_paths := skip_group.paths.value;
    var filtered_paths;
    filtered_paths, removed := FilterPaths(original_paths, inherited_tests);
    cleaned := if filtered_paths == [] then [] else [skip_group.(paths := Some(filtered_paths))];
    if removed {
      var t :| t in original_paths && t in inherited_tests;
      assert t in GroupTests(skip_group) * inherited_tests;
    }
  }

  method FilterPaths(original_paths: seq<Test>, inherited_tests: set<Test>)
      returns (filtered_paths: seq<Test>, removed: bool)
    ensures filtered_paths == Kept(original_paths, inherited_tests)
    ensures removed <==> exists t :: t in original_paths && t in inherited_tests
  {
    hide Kept;
    filtered_paths, removed := [], false;
    for k := 0 to |original_paths|
      invariant filtered_paths + Kept(original_paths[k..], inherited_tests) == Kept(original_paths, inherited_tests)
      invariant |filtered_paths| <= k && (removed <==> |filtered_paths| < k)
    {
      KeptStep(original_paths, k, inherited_tests);
      ghost var before, rest := filtered_paths, Kept(original_paths[k + 1..], inherited_tests);
      if original_paths[k] in inherited_tests {
        removed := true;
      } else {
        filtered_paths := filtered_paths + [original_paths[k]];
        assert before + ([original_paths[k]] + rest) == filtered_paths + rest;
      }
    }
    KeptEnd(original_paths, inherited_tests);
    assert filtered_paths + [] == filtered_paths;
  }

  lemma KeptStep(ps: seq<Test>, k: nat, inherited: set<Test>)
    requires k < |ps|
    ensures Kept(ps[k..], inherited) == (if ps[k] in inherited then [] else [ps[k]]) + Kept(ps[k + 1..], inherited)
  {
    assert ps[k..][1..] == ps[k + 1..];
  }

  lemma {:induction false} KeptEnd(ps: seq<Test>, inherited: set<Test>)
    ensures Kept(ps[|ps|..], inherited) == []
    ensures |Kept(ps, inherited)| <= |ps|
    ensures |Kept(ps, inherited)| < |ps| <==> exists t :: t in ps && t in inherited
  {
    if ps != [] {
      KeptEnd(ps[1..], inherited);
      assert ps == [ps[0]] + ps[1..];
    }
  }
}
