/**
 * The plugin's entry point, `__init__.py`: it finds every `.py` file under `nodes`, loads them in
 * order of relative path, and merges the `NODE_CLASS_MAPPINGS` and `NODE_DISPLAY_NAME_MAPPINGS`
 * dictionaries they define into its own.
 */
module NodeRegistry {
  import opened Text
  import opened Sorting
  import opened PosixPath

  const BasePackage := "nodes"
  const RootInit := "__init__.py"

  /** `PurePath.with_suffix('')` on one path component: drops the last `.suffix` unless the dot leads or ends the name. */
  function WithoutSuffix(name: string): (r: string)
    ensures r <= name
  {
    var i := LastIndexOf(name, '.');
    if 0 < i < |name| - 1 then name[..i] else name
  }

  /**
   * `_module_name_for`: the relative path (`/`-separated) with its suffix dropped, its parts joined
   * with dots behind the base package.
   */
  function ModuleName(rel: string): string
  {
    DottedName(Split(rel, '/'))
  }

  /** The dotted module name of the path components `parts`. */
  function DottedName(parts: seq<string>): string
    requires |parts| >= 1
  {
    var dirs := parts[..|parts| - 1];
    Join([BasePackage] + dirs + [WithoutSuffix(parts[|parts| - 1])], '.')
  }

  /** The module of `d1/.../dn/stem.py` is `nodes.d1. ... .dn.stem`. */
  lemma ModuleNameOfFile(dirs: seq<string>, stem: string)
    requires stem != [] && '/' !in stem
    requires forall k :: 0 <= k < |dirs| ==> '/' !in dirs[k]
    ensures ModuleName(Join(dirs + [stem + ".py"], '/')) == Join([BasePackage] + dirs + [stem], '.')
  {
    var file := stem + ".py";
    var parts := dirs + [file];
    PyFileComponent(stem);
    assert forall k :: 0 <= k < |parts| ==> '/' !in parts[k] by {
      forall k | 0 <= k < |parts| ensures '/' !in parts[k] {
        if k < |dirs| { assert parts[k] == dirs[k]; } else { assert parts[k] == file; }
      }
    }
    ModuleNameOfParts(parts);
    assert parts[..|parts| - 1] == dirs;
  }

  /** Joining components that hold no `/` and taking the module name reads the components back. */
  lemma ModuleNameOfParts(parts: seq<string>)
    requires |parts| >= 1 && forall k :: 0 <= k < |parts| ==> '/' !in parts[k]
    ensures ModuleName(Join(parts, '/')) == DottedName(parts)
  {
    SplitJoin(parts, '/');
  }

  /** A file name `stem.py` has no `/` and loses exactly `.py`. */
  lemma PyFileComponent(stem: string)
    requires stem != [] && '/' !in stem
    ensures '/' !in stem + ".py" && WithoutSuffix(stem + ".py") == stem
  {
    var file := stem + ".py";
    assert forall i :: |stem| <= i < |file| ==> file[i] == ".py"[i - |stem|];
    LastIndexOfUnique(file, '.', |stem|);
    assert file[..|stem|] == stem;
  }

  /** Example: `a/b/c.py` is the module `nodes.a.b.c`. */
  lemma ModuleNameExample()
    ensures ModuleName("a/b/c.py") == "nodes.a.b.c"
  {
    ModuleNameOfFile(["a", "b"], "c");
    SlashJoinExample();
    DotJoinExample();
  }

  lemma SlashJoinExample()
    ensures Join(["a", "b"] + ["c" + ".py"], '/') == "a/b/c.py"
  {
    var file := "c" + ".py";
    assert file == "c.py" by {
      assert |file| == 4 && file[0] == 'c' && file[1] == '.' && file[2] == 'p' && file[3] == 'y';
    }
    var parts := ["a", "b"] + [file];
    assert parts[1..] == ["b", "c.py"];
    assert parts[1..][1..] == ["c.py"];
    assert Join(["c.py"], '/') == "c.py";
    assert Join(["b", "c.py"], '/') == "b/c.py";
    assert Join(parts, '/') == "a" + "/" + "b/c.py";
  }

  lemma DotJoinExample()
    ensures Join([BasePackage] + ["a", "b"] + ["c"], '.') == "nodes.a.b.c"
  {
    var parts := [BasePackage] + ["a", "b"] + ["c"];
    assert parts[1..][1..][1..] == ["c"];
    assert Join(parts[1..][1..][1..], '.') == "c";
    assert Join(parts[1..][1..], '.') == "b.c";
    assert Join(parts[1..], '.') == "a.b.c";
  }

  /** The files the scan keeps: all but the package's own `__init__.py`, in the order found. */
  function PyFiles(found: seq<string>): seq<string>
  {
    if found == [] then []
    else
      var last := found[|found| - 1];
      PyFiles(found[..|found| - 1]) + (if last == RootInit then [] else [last])
  }

  /** Every found file but the root `__init__.py` is loaded; sub-package `__init__.py` files are not excluded. */
  lemma {:induction false} PyFilesMembership(found: seq<string>, f: string)
    ensures f in PyFiles(found) <==> f in found && f != RootInit
  {
    if found != [] {
      var init := found[..|found| - 1];
      PyFilesMembership(init, f);
      assert found == init + [found[|found| - 1]];
    }
  }

  /** What `getattr(module, NAME, {})` gives. */
  datatype Attr<V> = Absent | NotADict | Dict(entries: map<string, V>)

  /** The outcome of `load_module` for one file: an exception, or the module's two mapping attributes. */
  datatype ModuleLoad<C> = LoadFailed | Loaded(classMappings: Attr<C>, displayMappings: Attr<string>)

  /** `if isinstance(a, dict) and a: m.update(a)`. */
  function Update<V>(m: map<string, V>, a: Attr<V>): map<string, V>
  {
    if a.Dict? && |a.entries| > 0 then m + a.entries else m
  }

  /** The mappings after updating `m` with each attribute in turn. */
  function MergeAll<V>(m: map<string, V>, attrs: seq<Attr<V>>): map<string, V>
  {
    if attrs == [] then m else Update(MergeAll(m, attrs[..|attrs| - 1]), attrs[|attrs| - 1])
  }

  /** Merging in two runs is merging once: the merge is a left fold. */
  lemma {:induction false} MergeAllAppend<V>(m: map<string, V>, a: seq<Attr<V>>, b: seq<Attr<V>>)
    ensures MergeAll(m, a + b) == MergeAll(MergeAll(m, a), b)
    decreases |b|
  {
    if b == [] {
      assert a + b == a;
    } else {
      assert (a + b)[..|a + b| - 1] == a + b[..|b| - 1];
      MergeAllAppend(m, a, b[..|b| - 1]);
    }
  }

  /**
   * A module whose attribute is missing, not a dict or empty contributes nothing, and the
   * modules after it are merged as if it were not there.
   */
  lemma NothingFromNonDict<V>(m: map<string, V>, before: seq<Attr<V>>, a: Attr<V>, after: seq<Attr<V>>)
    requires !(a.Dict? && |a.entries| > 0)
    ensures MergeAll(m, before + [a] + after) == MergeAll(m, before + after)
  {
    MergeAllAppend(m, before + [a], after);
    MergeAllAppend(m, before, after);
    assert (before + [a])[..|before|] == before;
  }

  /** A key ends up mapped exactly when it was already there or some merged dict defines it. */
  lemma {:induction false} MergeAllKeys<V>(m: map<string, V>, attrs: seq<Attr<V>>, k: string)
    ensures k in MergeAll(m, attrs) <==> k in m || exists i :: 0 <= i < |attrs| && attrs[i].Dict? && k in attrs[i].entries
  {
    if attrs != [] {
      var init := attrs[..|attrs| - 1];
      MergeAllKeys(m, init, k);
      if exists i :: 0 <= i < |attrs| && attrs[i].Dict? && k in attrs[i].entries {
        var i :| 0 <= i < |attrs| && attrs[i].Dict? && k in attrs[i].entries;
        if i < |init| { assert init[i] == attrs[i]; }
      }
      if exists i :: 0 <= i < |init| && init[i].Dict? && k in init[i].entries {
        var i :| 0 <= i < |init| && init[i].Dict? && k in init[i].entries;
        assert attrs[i] == init[i];
      }
    }
  }

  /** On a key collision the later module wins: the value comes from the last dict that defines the key. */
  lemma {:induction false} MergeAllLastWins<V>(m: map<string, V>, attrs: seq<Attr<V>>, j: int, k: string)
    requires 0 <= j < |attrs| && attrs[j].Dict? && k in attrs[j].entries
    requires forall i :: j < i < |attrs| ==> !(attrs[i].Dict? && k in attrs[i].entries)
    ensures k in MergeAll(m, attrs) && MergeAll(m, attrs)[k] == attrs[j].entries[k]
  {
    var init := attrs[..|attrs| - 1];
    if j < |attrs| - 1 {
      forall i | j < i < |init| ensures !(init[i].Dict? && k in init[i].entries) {
        assert init[i] == attrs[i];
      }
      MergeAllLastWins(m, init, j, k);
    }
  }

  function ClassAttr<C>(l: ModuleLoad<C>): Attr<C>
  {
    if l.Loaded? then l.classMappings else Absent
  }

  function DisplayAttr<C>(l: ModuleLoad<C>): Attr<string>
  {
    if l.Loaded? then l.displayMappings else Absent
  }

  /** The class-mapping attributes of `files`, one per file, a failed load counting as absent. */
  function ClassAttrs<C>(files: seq<string>, load: string -> ModuleLoad<C>): (r: seq<Attr<C>>)
    ensures |r| == |files| && forall i :: 0 <= i < |files| ==> r[i] == ClassAttr(load(files[i]))
  {
    seq(|files|, i requires 0 <= i < |files| => ClassAttr(load(files[i])))
  }

  function DisplayAttrs<C>(files: seq<string>, load: string -> ModuleLoad<C>): (r: seq<Attr<string>>)
    ensures |r| == |files| && forall i :: 0 <= i < |files| ==> r[i] == DisplayAttr(load(files[i]))
  {
    seq(|files|, i requires 0 <= i < |files| => DisplayAttr(load(files[i])))
  }

  /** The order in which modules are loaded: ascending relative path. */
  function LoadOrder(found: seq<string>): (r: seq<string>)
    ensures Sorted(r) && multiset(r) == multiset(PyFiles(found))
  {
    Sort(PyFiles(found))
  }

  /** The scan of `load_nodes`: keeps every found file but the root `__init__.py`. */
  method CollectPyFiles(found: seq<string>) returns (pyFiles: seq<string>)
    ensures pyFiles == PyFiles(found)
  {
    pyFiles := [];
    var i := 0;
    while i < |found|
      invariant 0 <= i <= |found|
      invariant pyFiles == PyFiles(found[..i])
    {
      assert found[..i + 1][..i] == found[..i];
      if found[i] != RootInit {
        pyFiles := pyFiles + [found[i]];
      }
      i := i + 1;
    }
    assert found[..|found|] == found;
  }

  /**
   * The module-level `NODE_CLASS_MAPPINGS` and `NODE_DISPLAY_NAME_MAPPINGS`; `C` stands for the
   * node classes.
   */
  class Registry<C> {
    var classMappings: map<string, C>
    var displayMappings: map<string, string>

    constructor ()
      ensures classMappings == map[] && displayMappings == map[]
    {
      classMappings := map[];
      displayMappings := map[];
    }

    /**
     * `load_nodes`: `nodesDirExists` stands for `nodes_path.is_dir()`, `found` for the relative paths
     * `rglob("*.py")` yields and `load` for what loading each file gives.
     */
    method LoadNodes(nodesDirExists: bool, found: seq<string>, load: string -> ModuleLoad<C>)
      modifies this
      ensures !nodesDirExists ==> classMappings == old(classMappings) && displayMappings == old(displayMappings)
      ensures nodesDirExists ==>
        && classMappings == MergeAll(old(classMappings), ClassAttrs(LoadOrder(found), load))
        && displayMappings == MergeAll(old(displayMappings), DisplayAttrs(LoadOrder(found), load))
    {
      if !nodesDirExists {
        return;
      }
      var pyFiles := CollectPyFiles(found);
      var files := Sort(pyFiles);
      MergeModules(files, load);
    }

    /** The loop of `load_nodes` over the files in load order: each loaded module's dicts update the registry. */
    method MergeModules(files: seq<string>, load: string -> ModuleLoad<C>)
      modifies this
      ensures classMappings == MergeAll(old(classMappings), ClassAttrs(files, load))
      ensures displayMappings == MergeAll(old(displayMappings), DisplayAttrs(files, load))
    {
      var classes, displays := classMappings, displayMappings;
      ghost var classStart, displayStart := classes, displays;
      var j := 0;
      while j < |files|
        invariant 0 <= j <= |files|
        invariant classes == MergeAll(classStart, ClassAttrs(files[..j], load))
        invariant displays == MergeAll(displayStart, DisplayAttrs(files[..j], load))
      {
        var loaded := load(files[j]);
        MergeStep(classStart, displayStart, files, j, load);
        if loaded.Loaded? {
          var modClassMap := loaded.classMappings;
          if modClassMap.Dict? && |modClassMap.entries| > 0 {
            classes := classes + modClassMap.entries;
          }
          var modDisplayMap := loaded.displayMappings;
          if modDisplayMap.Dict? && |modDisplayMap.entries| > 0 {
            displays := displays + modDisplayMap.entries;
          }
        }
        j := j + 1;
      }
      assert files[..|files|] == files;
      classMappings, displayMappings := classes, displays;
    }
  }

  /**
   * Importing the package: both mappings start empty and `load_nodes()` runs once, so a missing
   * `nodes` folder leaves them empty.
   */
  method ImportPackage<C>(nodesDirExists: bool, found: seq<string>, load: string -> ModuleLoad<C>) returns (r: Registry<C>)
    ensures fresh(r)
    ensures !nodesDirExists ==> r.classMappings == map[] && r.displayMappings == map[]
    ensures nodesDirExists ==>
      && r.classMappings == MergeAll(map[], ClassAttrs(LoadOrder(found), load))
      && r.displayMappings == MergeAll(map[], DisplayAttrs(LoadOrder(found), load))
  {
    r := new Registry();
    r.LoadNodes(nodesDirExists, found, load);
  }

  /** One more loaded file updates both mappings with that file's attributes. */
  lemma MergeStep<C>(m: map<string, C>, d: map<string, string>, files: seq<string>, j: int, load: string -> ModuleLoad<C>)
    requires 0 <= j < |files|
    ensures MergeAll(m, ClassAttrs(files[..j + 1], load)) ==
      Update(MergeAll(m, ClassAttrs(files[..j], load)), ClassAttr(load(files[j])))
    ensures MergeAll(d, DisplayAttrs(files[..j + 1], load)) ==
      Update(MergeAll(d, DisplayAttrs(files[..j], load)), DisplayAttr(load(files[j])))
  {
    assert files[..j + 1][..j] == files[..j];
    var c := ClassAttrs(files[..j + 1], load);
    assert c[..|c| - 1] == ClassAttrs(files[..j], load);
    var a := DisplayAttrs(files[..j + 1], load);
    assert a[..|a| - 1] == DisplayAttrs(files[..j], load);
  }

  /** A module that fails to load adds nothing to either mapping and does not stop the others. */
  lemma FailedLoadContributesNothing<C>(m: map<string, C>, d: map<string, string>,
                                        before: seq<ModuleLoad<C>>, after: seq<ModuleLoad<C>>)
    ensures var loads := before + [LoadFailed] + after;
      && MergeAll(m, seq(|loads|, i requires 0 <= i < |loads| => ClassAttr(loads[i]))) ==
         MergeAll(m, seq(|before + after|, i requires 0 <= i < |before + after| => ClassAttr((before + after)[i])))
      && MergeAll(d, seq(|loads|, i requires 0 <= i < |loads| => DisplayAttr(loads[i]))) ==
         MergeAll(d, seq(|before + after|, i requires 0 <= i < |before + after| => DisplayAttr((before + after)[i])))
  {
    var cb := seq(|before|, i requires 0 <= i < |before| => ClassAttr(before[i]));
    var ca := seq(|after|, i requires 0 <= i < |after| => ClassAttr(after[i]));
    var db := seq(|before|, i requires 0 <= i < |before| => DisplayAttr(before[i]));
    var da := seq(|after|, i requires 0 <= i < |after| => DisplayAttr(after[i]));
    var loads := before + [LoadFailed] + after;
    assert seq(|loads|, i requires 0 <= i < |loads| => ClassAttr(loads[i])) == cb + [Absent] + ca;
    assert seq(|before + after|, i requires 0 <= i < |before + after| => ClassAttr((before + after)[i])) == cb + ca;
    assert seq(|loads|, i requires 0 <= i < |loads| => DisplayAttr(loads[i])) == db + [Absent] + da;
    assert seq(|before + after|, i requires 0 <= i < |before + after| => DisplayAttr((before + after)[i])) == db + da;
    NothingFromNonDict(m, cb, Absent, ca);
    NothingFromNonDict(d, db, Absent, da);
  }
}
