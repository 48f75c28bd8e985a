/** python_project_packages_audit.py: the imports of every Python file of a
    project are collected, reduced to top-level package names, attributed to
    the files that import them, and classified as standard library, part of
    the project itself, or third party.

    Parsing (`ast.parse`, `ast.walk`), the directory listing (`os.walk`) and
    `sys.stdlib_module_names` are inputs: a file's import statements, a
    directory tree, and a set of names. */
module PackagesAudit {
  import opened Results
  import opened PyText

  /** A path as the list of its components, the top directory first. */
  type Path = seq<string>

  /** An import statement `ast.walk` meets in a file. */
  datatype ImportNode =
    | Import(names: seq<string>)          // `import a.b, c`
    | ImportFrom(from: Option<string>)  // `from a.b import x`; `None` for `from . import x`

  /** The raw names one statement contributes: every alias of an `import`,
      and the module of a `from` import when it is truthy. */
  function NodeNames(node: ImportNode): set<string>
  {
    match node
    case Import(aliases) => set a | a in aliases
    case ImportFrom(m) => if m.Some? && m.value != "" then {m.value} else {}
  }

  /** The set `raw_imports` built from the statements of a file. */
  function RawImports(nodes: seq<ImportNode>): set<string>
  {
    if nodes == [] then {} else RawImports(nodes[..|nodes| - 1]) + NodeNames(nodes[|nodes| - 1])
  }

  /** `name.split('.')[0]`: the text before the first dot. */
  function TopLevel(name: string): (top: string)
    ensures '.' !in top
    ensures '.' !in name ==> top == name
    ensures '.' in name ==> |top| < |name| && top + "." == name[..|top| + 1]
  {
    SplitHead(name, '.');
    if '.' in name then
      var i := IndexOf(name, '.');
      assert name[..i + 1] == name[..i] + ".";
      Split(name, '.')[0]
    else Split(name, '.')[0]
  }

  /** The set of top-level names of a set of raw names. */
  function TopLevelNames(raw: set<string>): set<string>
  {
    set n | n in raw :: TopLevel(n)
  }

  /** extra_imports, once the file is parsed: the raw names of all statements,
      then their top-level names, without repetition. */
  method ExtraImports(nodes: seq<ImportNode>) returns (imports: set<string>)
    ensures imports == TopLevelNames(RawImports(nodes))
  {
    var raw := CollectRaw(nodes);
    imports := ReduceNames(raw);
  }

  /** Lines 19-26: the raw names of the statements, in a set. */
  method CollectRaw(nodes: seq<ImportNode>) returns (raw: set<string>)
    ensures raw == RawImports(nodes)
  {
    raw := {};
    for i := 0 to |nodes|
      invariant raw == RawImports(nodes[..i])
    {
      assert nodes[..i + 1][..i] == nodes[..i];
      assert RawImports(nodes[..i + 1]) == RawImports(nodes[..i]) + NodeNames(nodes[i]);
      match nodes[i]
      case Import(aliases) =>
        for j := 0 to |aliases|
          invariant raw == RawImports(nodes[..i]) + set a | a in aliases[..j]
        {
          assert aliases[..j + 1] == aliases[..j] + [aliases[j]];
          raw := raw + {aliases[j]};
        }
        assert aliases[..|aliases|] == aliases;
      case ImportFrom(m) =>
        if m.Some? && m.value != "" {
          raw := raw + {m.value};
        }
    }
    assert nodes[..|nodes|] == nodes;
  }

  /** Lines 28-31: the set of the raw names' top-level names. */
  method ReduceNames(raw: set<string>) returns (imports: set<string>)
    ensures imports == TopLevelNames(raw)
  {
    imports := {};
    var rest := raw;
    while rest != {}
      invariant rest <= raw
      invariant imports == TopLevelNames(raw - rest)
      decreases rest
    {
      var name :| name in rest;
      assert raw - (rest - {name}) == (raw - rest) + {name};
      imports := imports + {TopLevel(name)};
      rest := rest - {name};
    }
    assert raw - rest == raw;
  }

  /** A raw name is collected exactly when some statement of the file
      contributes it. */
  lemma {:induction false} RawImportsMeaning(nodes: seq<ImportNode>, n: string)
    ensures n in RawImports(nodes) <==> exists i :: 0 <= i < |nodes| && n in NodeNames(nodes[i])
  {
    if nodes != [] {
      var init := nodes[..|nodes| - 1];
      RawImportsMeaning(init, n);
      if n in RawImports(init) {
        var i :| 0 <= i < |init| && n in NodeNames(init[i]);
        assert nodes[i] == init[i];
      }
      if exists i :: 0 <= i < |nodes| && n in NodeNames(nodes[i]) {
        var i :| 0 <= i < |nodes| && n in NodeNames(nodes[i]);
        if i < |init| {
          assert init[i] == nodes[i];
        }
      }
    }
  }

  lemma {:induction false} RawImportsAppend(a: seq<ImportNode>, b: seq<ImportNode>)
    ensures RawImports(a + b) == RawImports(a) + RawImports(b)
    decreases |b|
  {
    if b == [] {
      assert a + b == a;
    } else {
      var init := b[..|b| - 1];
      RawImportsAppend(a, init);
      assert (a + b)[..|a + b| - 1] == a + init;
    }
  }

  /** A `from . import x` statement, wherever it stands, adds no name. */
  lemma RelativeImportAddsNothing(before: seq<ImportNode>, after: seq<ImportNode>)
    ensures RawImports(before + [ImportFrom(None)] + after) == RawImports(before + after)
  {
    RawImportsAppend(before + [ImportFrom(None)], after);
    RawImportsAppend(before, [ImportFrom(None)]);
    RawImportsAppend(before, after);
    assert RawImports([ImportFrom(None)]) == RawImports([]) + {};
  }

  /** The names a file yields are the top-level names of the names its
      statements contribute, none with a dot, and reducing them again changes
      nothing. */
  lemma ExtraImportsMeaning(nodes: seq<ImportNode>, m: string)
    ensures m in TopLevelNames(RawImports(nodes)) <==>
      exists i, n :: 0 <= i < |nodes| && n in NodeNames(nodes[i]) && m == TopLevel(n)
    ensures m in TopLevelNames(RawImports(nodes)) ==> '.' !in m && TopLevel(m) == m
  {
    if m in TopLevelNames(RawImports(nodes)) {
      var n :| n in RawImports(nodes) && m == TopLevel(n);
      RawImportsMeaning(nodes, n);
    }
    if exists i, n :: 0 <= i < |nodes| && n in NodeNames(nodes[i]) && m == TopLevel(n) {
      var i, n :| 0 <= i < |nodes| && n in NodeNames(nodes[i]) && m == TopLevel(n);
      RawImportsMeaning(nodes, n);
    }
  }

  /** A directory as `os.walk` sees it: its name, its file names and its
      subdirectories, in listing order. */
  datatype Dir = Dir(name: string, files: seq<string>, subdirs: seq<Dir>)

  /** One step of the walk: the directory's path, its base name and its files. */
  datatype Visit = Visit(path: Path, name: string, files: seq<string>)

  function Concat<T>(ss: seq<seq<T>>): seq<T>
  {
    if ss == [] then [] else Concat(ss[..|ss| - 1]) + ss[|ss| - 1]
  }

  lemma {:induction false} ConcatMember<T>(ss: seq<seq<T>>, x: T)
    ensures x in Concat(ss) <==> exists i :: 0 <= i < |ss| && x in ss[i]
  {
    if ss != [] {
      var init := ss[..|ss| - 1];
      ConcatMember(init, x);
      if x in Concat(init) {
        var i :| 0 <= i < |init| && x in init[i];
        assert ss[i] == init[i];
      }
      if exists i :: 0 <= i < |ss| && x in ss[i] {
        var i :| 0 <= i < |ss| && x in ss[i];
        if i < |init| {
          assert init[i] == ss[i];
        }
      }
    }
  }

  /** The top-down walk from directory `d` at `path`: the directory itself,
      then, in order, the walks of the subdirectories whose names are not
      ignored; an ignored subdirectory is pruned before descent (line 41). */
  function Walk(d: Dir, path: Path, ignore: seq<string>): seq<Visit>
    decreases d
  {
    [Visit(path, d.name, d.files)] +
    Concat(seq(|d.subdirs|, i requires 0 <= i < |d.subdirs| =>
      if d.subdirs[i].name in ignore then [] else Walk(d.subdirs[i], path + [d.subdirs[i].name], ignore)))
  }

  /** The walk starts at `d` itself, and every directory it visits lies below
      `path` through directories none of whose names is ignored. */
  lemma {:induction false} WalkPrunes(d: Dir, path: Path, ignore: seq<string>)
    ensures Walk(d, path, ignore)[0] == Visit(path, d.name, d.files)
    ensures forall v :: v in Walk(d, path, ignore) ==>
      |path| <= |v.path| && v.path[..|path|] == path &&
      forall k :: |path| <= k < |v.path| ==> v.path[k] !in ignore
    decreases d
  {
    var children := seq(|d.subdirs|, i requires 0 <= i < |d.subdirs| =>
      if d.subdirs[i].name in ignore then [] else Walk(d.subdirs[i], path + [d.subdirs[i].name], ignore));
    forall v | v in Walk(d, path, ignore)
      ensures |path| <= |v.path| && v.path[..|path|] == path
      ensures forall k :: |path| <= k < |v.path| ==> v.path[k] !in ignore
    {
      if v != Visit(path, d.name, d.files) {
        assert v in Concat(children);
        ConcatMember(children, v);
        var i :| 0 <= i < |children| && v in children[i];
        var sub := d.subdirs[i];
        var p' := path + [sub.name];
        WalkPrunes(sub, p', ignore);
        assert v.path[..|p'|] == p';
        assert v.path[..|path|] == p'[..|path|];
        forall k | |path| <= k < |v.path| ensures v.path[k] !in ignore {
          if k == |path| {
            assert v.path[k] == p'[k];
          }
        }
      }
    }
  }

  /** Every subdirectory whose name is not ignored is visited. */
  lemma WalkVisitsKept(d: Dir, path: Path, ignore: seq<string>, i: int)
    requires 0 <= i < |d.subdirs| && d.subdirs[i].name !in ignore
    ensures var sub := d.subdirs[i];
      Visit(path + [sub.name], sub.name, sub.files) in Walk(d, path, ignore)
  {
    var sub := d.subdirs[i];
    var children := seq(|d.subdirs|, i requires 0 <= i < |d.subdirs| =>
      if d.subdirs[i].name in ignore then [] else Walk(d.subdirs[i], path + [d.subdirs[i].name], ignore));
    WalkPrunes(sub, path + [sub.name], ignore);
    assert Visit(path + [sub.name], sub.name, sub.files) in children[i];
    ConcatMember(children, Visit(path + [sub.name], sub.name, sub.files));
  }

  /** The walk of a subdirectory that is not ignored is part of its parent's
      walk: descent continues below every kept directory. */
  lemma WalkKeepsSubtree(d: Dir, path: Path, ignore: seq<string>, i: int)
    requires 0 <= i < |d.subdirs| && d.subdirs[i].name !in ignore
    ensures forall v :: v in Walk(d.subdirs[i], path + [d.subdirs[i].name], ignore) ==> v in Walk(d, path, ignore)
  {
    var sub := d.subdirs[i];
    var children := seq(|d.subdirs|, i requires 0 <= i < |d.subdirs| =>
      if d.subdirs[i].name in ignore then [] else Walk(d.subdirs[i], path + [d.subdirs[i].name], ignore));
    forall v | v in Walk(sub, path + [sub.name], ignore) ensures v in Walk(d, path, ignore) {
      assert v in children[i];
      ConcatMember(children, v);
    }
  }

  /** `idxs` leads from `d` down through subdirectories none of which is
      ignored. */
  ghost predicate KeptChain(d: Dir, idxs: seq<int>, ignore: seq<string>)
    decreases idxs
  {
    idxs == [] ||
    (0 <= idxs[0] < |d.subdirs| && d.subdirs[idxs[0]].name !in ignore &&
     KeptChain(d.subdirs[idxs[0]], idxs[1..], ignore))
  }

  /** The directory that `idxs` leads to. */
  ghost function Follow(d: Dir, idxs: seq<int>, ignore: seq<string>): Dir
    requires KeptChain(d, idxs, ignore)
    decreases idxs
  {
    if idxs == [] then d else Follow(d.subdirs[idxs[0]], idxs[1..], ignore)
  }

  /** The names along the way, relative to `d`. */
  ghost function ChainNames(d: Dir, idxs: seq<int>, ignore: seq<string>): Path
    requires KeptChain(d, idxs, ignore)
    decreases idxs
  {
    if idxs == [] then [] else [d.subdirs[idxs[0]].name] + ChainNames(d.subdirs[idxs[0]], idxs[1..], ignore)
  }

  /** The converse of WalkPrunes: every directory reached from `d` through
      directories whose names are not ignored, at any depth, is visited, at its
      path below `path`. */
  lemma {:induction false} WalkVisitsReachable(d: Dir, path: Path, ignore: seq<string>, idxs: seq<int>)
    requires KeptChain(d, idxs, ignore)
    ensures var t := Follow(d, idxs, ignore);
      Visit(path + ChainNames(d, idxs, ignore), t.name, t.files) in Walk(d, path, ignore)
    decreases idxs
  {
    if idxs == [] {
      WalkPrunes(d, path, ignore);
      assert path + [] == path;
    } else {
      var sub := d.subdirs[idxs[0]];
      var rest := idxs[1..];
      WalkVisitsReachable(sub, path + [sub.name], ignore, rest);
      assert path + [sub.name] + ChainNames(sub, rest, ignore) == path + ChainNames(d, idxs, ignore);
      WalkKeepsSubtree(d, path, ignore, idxs[0]);
    }
  }

  /** A `.py` file met by the walk: its directory and its name. */
  datatype PyFile = PyFile(dir: Path, name: string) {
    /** `os.path.join(root, fn)`. */
    function FullPath(): Path
    {
      dir + [name]
    }
  }

  /** The `.py` files among the names `fns` listed in `dir`, in order (line 45). */
  function PyFiles(dir: Path, fns: seq<string>): seq<PyFile>
  {
    if fns == [] then []
    else
      var fn := fns[|fns| - 1];
      PyFiles(dir, fns[..|fns| - 1]) + if EndsWith(fn, ".py") then [PyFile(dir, fn)] else []
  }

  /** The files kept are exactly the listed names ending in `.py`. */
  lemma {:induction false} PyFilesMeaning(dir: Path, fns: seq<string>, f: PyFile)
    ensures f in PyFiles(dir, fns) <==> f.dir == dir && f.name in fns && EndsWith(f.name, ".py")
  {
    if fns != [] {
      var init, fn := fns[..|fns| - 1], fns[|fns| - 1];
      PyFilesMeaning(dir, init, f);
      assert fns == init + [fn];
    }
  }

  lemma {:induction false} PyFilesAppend(dir: Path, a: seq<string>, b: seq<string>)
    ensures PyFiles(dir, a + b) == PyFiles(dir, a) + PyFiles(dir, b)
    decreases |b|
  {
    if b == [] {
      assert a + b == a;
    } else {
      PyFilesAppend(dir, a, b[..|b| - 1]);
      assert (a + b)[..|a + b| - 1] == a + b[..|b| - 1];
    }
  }

  /** Every `.py` file of the walk, in the order the loops meet them. */
  function AllPyFiles(vs: seq<Visit>): seq<PyFile>
  {
    if vs == [] then [] else AllPyFiles(vs[..|vs| - 1]) + PyFiles(vs[|vs| - 1].path, vs[|vs| - 1].files)
  }

  lemma {:induction false} AllPyFilesAppend(a: seq<Visit>, b: seq<Visit>)
    ensures AllPyFiles(a + b) == AllPyFiles(a) + AllPyFiles(b)
    decreases |b|
  {
    if b == [] {
      assert a + b == a;
    } else {
      var init, last := b[..|b| - 1], b[|b| - 1];
      AllPyFilesAppend(a, init);
      var ab := a + b;
      assert ab[..|ab| - 1] == a + init && ab[|ab| - 1] == last;
      assert AllPyFiles(ab) == AllPyFiles(a + init) + PyFiles(last.path, last.files);
      assert AllPyFiles(b) == AllPyFiles(init) + PyFiles(last.path, last.files);
    }
  }

  /** The statements of each file, or `None` when reading or parsing it
      raises. */
  type Sources = Path -> Option<seq<ImportNode>>

  /** The names `extra_imports` yields for a file that parses. */
  function ImportsOf(sources: Sources, p: Path): set<string>
    requires sources(p).Some?
  {
    TopLevelNames(RawImports(sources(p).value))
  }

  /** The first file, in walk order, that does not parse. */
  function FirstFailing(fs: seq<PyFile>, sources: Sources): Option<Path>
  {
    if fs == [] then None
    else if sources(fs[0].FullPath()).None? then Some(fs[0].FullPath())
    else FirstFailing(fs[1..], sources)
  }

  /** There is no first failing file exactly when every file parses; the one
      there is does not parse, and every file before it does. */
  lemma {:induction false} FirstFailingMeaning(fs: seq<PyFile>, sources: Sources)
    ensures var r := FirstFailing(fs, sources);
      && (r.None? <==> forall i :: 0 <= i < |fs| ==> sources(fs[i].FullPath()).Some?)
      && (r.Some? ==> exists i :: (0 <= i < |fs| && r.value == fs[i].FullPath() && sources(r.value).None? &&
            forall j :: 0 <= j < i ==> sources(fs[j].FullPath()).Some?))
  {
    if fs != [] && sources(fs[0].FullPath()).Some? {
      var tail := fs[1..];
      FirstFailingMeaning(tail, sources);
      assert forall i :: 1 <= i < |fs| ==> fs[i] == tail[i - 1];
      var r := FirstFailing(tail, sources);
      if r.Some? {
        var i :| 0 <= i < |tail| && r.value == tail[i].FullPath() && sources(r.value).None? &&
          forall j :: 0 <= j < i ==> sources(tail[j].FullPath()).Some?;
        assert r.value == fs[i + 1].FullPath();
        forall j | 0 <= j < i + 1 ensures sources(fs[j].FullPath()).Some? {
          if j > 0 {
            assert fs[j] == tail[j - 1];
          }
        }
      }
    }
  }

  lemma {:induction false} FirstFailingAppend(a: seq<PyFile>, b: seq<PyFile>, sources: Sources)
    ensures FirstFailing(a + b, sources) ==
      if FirstFailing(a, sources).Some? then FirstFailing(a, sources) else FirstFailing(b, sources)
  {
    if a == [] {
      assert a + b == b;
    } else {
      FirstFailingAppend(a[1..], b, sources);
      assert (a + b)[1..] == a[1..] + b;
    }
  }

  /** Recording that file `p` imports each of `imports` (lines 57-59): every
      such name maps to its former set of files, or the empty set, plus `p`. */
  function AddFile(all: map<string, set<Path>>, p: Path, imports: set<string>): (r: map<string, set<Path>>)
    ensures r.Keys == all.Keys + imports
  {
    map m | m in all.Keys + imports :: (if m in all then all[m] else {}) + (if m in imports then {p} else {})
  }

  /** The aggregate `all_imports` over the files that parse, in order. */
  function Aggregate(fs: seq<PyFile>, sources: Sources): map<string, set<Path>>
  {
    if fs == [] then map[]
    else
      var before := Aggregate(fs[..|fs| - 1], sources);
      var p := fs[|fs| - 1].FullPath();
      if sources(p).None? then before else AddFile(before, p, ImportsOf(sources, p))
  }

  /** No name is recorded without a file. */
  lemma {:induction false} AggregateNonEmpty(fs: seq<PyFile>, sources: Sources, m: string)
    requires m in Aggregate(fs, sources)
    ensures Aggregate(fs, sources)[m] != {}
  {
    var init := fs[..|fs| - 1];
    var q := fs[|fs| - 1].FullPath();
    if m in Aggregate(init, sources) {
      AggregateNonEmpty(init, sources, m);
    }
  }

  /** A file is listed under a name exactly when it is one of the files,
      parses and imports that name. */
  lemma {:induction false} AggregateMeaning(fs: seq<PyFile>, sources: Sources, m: string, p: Path)
    ensures m in Aggregate(fs, sources) && p in Aggregate(fs, sources)[m] <==>
      exists i :: 0 <= i < |fs| && p == fs[i].FullPath() && sources(p).Some? && m in ImportsOf(sources, p)
  {
    if fs != [] {
      var init := fs[..|fs| - 1];
      var q := fs[|fs| - 1].FullPath();
      AggregateMeaning(init, sources, m, p);
      var before := Aggregate(init, sources);
      var after := Aggregate(fs, sources);
      if m in after && p in after[m] {
        if m in before && p in before[m] {
          var i :| 0 <= i < |init| && p == init[i].FullPath() && sources(p).Some? && m in ImportsOf(sources, p);
          assert fs[i] == init[i];
        } else {
          assert p == q;
        }
      }
      if exists i :: 0 <= i < |fs| && p == fs[i].FullPath() && sources(p).Some? && m in ImportsOf(sources, p) {
        var i :| 0 <= i < |fs| && p == fs[i].FullPath() && sources(p).Some? && m in ImportsOf(sources, p);
        if i < |init| {
          assert init[i] == fs[i];
        }
      }
    }
  }

  /** The position of the last dot of `fn`, or -1 when there is none. */
  function LastDot(fn: string): (i: int)
    ensures -1 <= i < |fn|
    ensures i >= 0 ==> fn[i] == '.'
    ensures forall k :: i < k < |fn| ==> fn[k] != '.'
  {
    if fn == [] then -1
    else if fn[|fn| - 1] == '.' then |fn| - 1
    else LastDot(fn[..|fn| - 1])
  }

  /** `os.path.splitext(fn)[0]` for a file name: the text before its last
      dot, unless there is no dot or everything before the last dot is dots,
      when the name has no extension to split off. */
  function SplitExtRoot(fn: string): string
  {
    var i := LastDot(fn);
    if i < 0 || forall k :: 0 <= k < i ==> fn[k] == '.' then fn else fn[..i]
  }

  /** For a name ending in `.py`, the root is the name without `.py`, unless
      only dots precede that extension, when the name is kept whole. */
  lemma PyStemShape(fn: string)
    requires EndsWith(fn, ".py")
    ensures SplitExtRoot(fn) == fn || SplitExtRoot(fn) + ".py" == fn
    ensures SplitExtRoot(fn) + ".py" == fn <==> exists k :: 0 <= k < |fn| - 3 && fn[k] != '.'
  {
    assert fn[|fn| - 3..] == ".py";
    assert fn[|fn| - 3] == '.' && fn[|fn| - 2] == 'p' && fn[|fn| - 1] == 'y';
    var i := LastDot(fn);
    assert i == |fn| - 3;
    assert fn == fn[..i] + ".py";
  }

  /** The module names the project's own `.py` files that parse stand for. */
  function Stems(fs: seq<PyFile>, sources: Sources): set<string>
  {
    if fs == [] then {}
    else
      var f := fs[|fs| - 1];
      Stems(fs[..|fs| - 1], sources) +
      if sources(f.FullPath()).Some? then {SplitExtRoot(f.name)} else {}
  }

  lemma {:induction false} StemsAppend(a: seq<PyFile>, b: seq<PyFile>, sources: Sources)
    ensures Stems(a + b, sources) == Stems(a, sources) + Stems(b, sources)
    decreases |b|
  {
    if b == [] {
      assert a + b == a;
    } else {
      StemsAppend(a, b[..|b| - 1], sources);
      assert (a + b)[..|a + b| - 1] == a + b[..|b| - 1];
    }
  }

  /** A name is a stem exactly when it is the stem of some file that parses. */
  lemma {:induction false} StemsMeaning(fs: seq<PyFile>, sources: Sources, x: string)
    ensures x in Stems(fs, sources) <==>
      exists i :: 0 <= i < |fs| && sources(fs[i].FullPath()).Some? && x == SplitExtRoot(fs[i].name)
  {
    if fs != [] {
      var init := fs[..|fs| - 1];
      StemsMeaning(init, sources, x);
      if x in Stems(init, sources) {
        var i :| 0 <= i < |init| && sources(init[i].FullPath()).Some? && x == SplitExtRoot(init[i].name);
        assert fs[i] == init[i];
      }
      if exists i :: 0 <= i < |fs| && sources(fs[i].FullPath()).Some? && x == SplitExtRoot(fs[i].name) {
        var i :| 0 <= i < |fs| && sources(fs[i].FullPath()).Some? && x == SplitExtRoot(fs[i].name);
        if i < |init| {
          assert init[i] == fs[i];
        }
      }
    }
  }

  /** The base names of the visited directories. */
  function DirNames(vs: seq<Visit>): (names: set<string>)
    ensures forall v :: v in vs ==> v.name in names
    ensures forall x :: x in names ==> exists v :: v in vs && v.name == x
  {
    if vs == [] then {} else DirNames(vs[..|vs| - 1]) + {vs[|vs| - 1].name}
  }

  /** What extra_all_imports returns, stated over the whole walk: when errors
      are not ignored, the first file that does not parse raises; otherwise
      the aggregate over the files that parse, and the names of the project's
      own packages: every visited directory and every such file. */
  function ExtraAll(vs: seq<Visit>, sources: Sources, ignoreError: bool): Result<(map<string, set<Path>>, set<string>), Path>
  {
    var fs := AllPyFiles(vs);
    var bad := FirstFailing(fs, sources);
    if !ignoreError && bad.Some? then Failure(bad.value)
    else Success((Aggregate(fs, sources), DirNames(vs) + Stems(fs, sources)))
  }

  /** extra_all_imports as written: both branches of the handler for a file
      that does not parse (lines 50-56) format their log message with
      `file_name`, a name the function never binds, so either branch raises
      NameError at the first such file and `ignore_error` has no effect. */
  function ExtraAllAsWritten(vs: seq<Visit>, sources: Sources, ignoreError: bool): Result<(map<string, set<Path>>, set<string>), Path>
  {
    var fs := AllPyFiles(vs);
    var bad := FirstFailing(fs, sources);
    if bad.Some? then Failure(bad.value)
    else Success((Aggregate(fs, sources), DirNames(vs) + Stems(fs, sources)))
  }

  /** With a file that does not parse, the code as written raises whether or
      not errors are ignored; the intended behaviour skips the file when they
      are. */
  lemma IgnoreErrorHasNoEffect(vs: seq<Visit>, sources: Sources)
    requires FirstFailing(AllPyFiles(vs), sources).Some?
    ensures ExtraAllAsWritten(vs, sources, true) == ExtraAllAsWritten(vs, sources, false)
    ensures ExtraAllAsWritten(vs, sources, true) == Failure(FirstFailing(AllPyFiles(vs), sources).value)
    ensures ExtraAll(vs, sources, true).Success? && ExtraAll(vs, sources, false).Failure?
  {
  }

  /** A project whose only file, `proj/bad.py`, does not parse: with errors
      ignored the code as written still raises, the intended result is the
      empty aggregate with the package `proj`. */
  lemma BadFileExample(unparsable: Sources)
    requires forall p :: unparsable(p).None?
    ensures var vs := [Visit(["proj"], "proj", ["bad.py"])];
      && ExtraAllAsWritten(vs, unparsable, true) == Failure(["proj", "bad.py"])
      && ExtraAll(vs, unparsable, true).Success?
      && ExtraAll(vs, unparsable, true).value.0 == map[]
      && ExtraAll(vs, unparsable, true).value.1 == {"proj"}
  {
    var vs := [Visit(["proj"], "proj", ["bad.py"])];
    var f := PyFile(["proj"], "bad.py");
    assert EndsWith("bad.py", ".py");
    assert PyFiles(["proj"], ["bad.py"]) == [f];
    assert AllPyFiles(vs) == [f];
    assert f.FullPath() == ["proj", "bad.py"];
    assert [f][..0] == [];
    assert Aggregate([f], unparsable) == map[];
    assert Stems([f], unparsable) == {};
    assert DirNames(vs) == {"proj"};
  }

  /** Lines 57-59 for one file: its path is added to the set of every name it
      imports. */
  method AddImports(all: map<string, set<Path>>, p: Path, imports: set<string>) returns (all': map<string, set<Path>>)
    ensures all' == AddFile(all, p, imports)
  {
    all' := AddEach(all, p, imports);
    AddFileEquals(all, p, imports, all');
  }

  /** The loop of lines 57-59, one name at a time. */
  method AddEach(all: map<string, set<Path>>, p: Path, imports: set<string>) returns (all': map<string, set<Path>>)
    ensures AddedFor(all, p, imports, all')
  {
    all' := all;
    var rest := imports;
    ghost var done: set<string> := {};
    while rest != {}
      invariant rest !! done && rest + done == imports
      invariant AddedFor(all, p, done, all')
      decreases rest
    {
      var item :| item in rest;
      var files := if item in all' then all'[item] else {};
      AddedForStep(all, p, done, all', item);
      all' := all'[item := files + {p}];
      rest := rest - {item};
      done := done + {item};
    }
    assert done == imports;
  }

  /** `r` is `all` once `p` is recorded for each name of `done`. */
  ghost predicate AddedFor(all: map<string, set<Path>>, p: Path, done: set<string>, r: map<string, set<Path>>)
  {
    && r.Keys == all.Keys + done
    && forall m :: m in r ==> r[m] == (if m in all then all[m] else {}) + (if m in done then {p} else {})
  }

  lemma AddedForStep(all: map<string, set<Path>>, p: Path, done: set<string>, r: map<string, set<Path>>, item: string)
    requires AddedFor(all, p, done, r)
    ensures AddedFor(all, p, done + {item}, r[item := (if item in r then r[item] else {}) + {p}])
  {
  }

  /** A map with the keys and values of `AddFile(all, p, imports)` is it. */
  lemma AddFileEquals(all: map<string, set<Path>>, p: Path, imports: set<string>, r: map<string, set<Path>>)
    requires AddedFor(all, p, imports, r)
    ensures r == AddFile(all, p, imports)
  {
  }

  /** The inner loop of extra_all_imports over the files of one directory
      (lines 44-60), from the aggregate and packages of the files `done`
      before it. */
  method ScanFiles(v: Visit, sources: Sources, ignoreError: bool, ghost done: seq<PyFile>,
                   all: map<string, set<Path>>, packages: set<string>)
    returns (r: Result<(map<string, set<Path>>, set<string>), Path>)
    requires all == Aggregate(done, sources)
    ensures var fs := PyFiles(v.path, v.files);
      if !ignoreError && FirstFailing(fs, sources).Some? then r == Failure(FirstFailing(fs, sources).value)
      else r == Success((Aggregate(done + fs, sources), packages + Stems(fs, sources)))
  {
    var all', packages' := all, packages;
    ScanStart(v.path, sources, ignoreError, done, packages);
    assert v.files[..0] == [];
    for j := 0 to |v.files|
      invariant Scanned(v.path, v.files[..j], sources, ignoreError, done, packages, all', packages')
    {
      var fn := v.files[j];
      assert v.files[..j + 1] == v.files[..j] + [fn];
      if EndsWith(fn, ".py") {
        var p := v.path + [fn];
        var source := sources(p);
        if source.Some? {
          var imports := ExtraImports(source.value);
          ScanParsed(v.path, v.files[..j], fn, sources, ignoreError, done, packages, all', packages');
          all' := AddImports(all', p, imports);
          packages' := packages' + {SplitExtRoot(fn)};
        } else if ignoreError {
          ScanIgnored(v.path, v.files[..j], fn, sources, ignoreError, done, packages, all', packages');
        } else {
          ScanFails(v.path, v.files, j, sources);
          return Failure(p);
        }
      } else {
        ScanOther(v.path, v.files[..j], fn, sources, ignoreError, done, packages, all', packages');
      }
    }
    assert v.files[..|v.files|] == v.files;
    ScanEnd(v.path, v.files, sources, ignoreError, done, packages, all', packages');
    r := Success((all', packages'));
  }

  /** The state of the inner loop once the names `fns` of directory `dir` are
      scanned: no failure so far unless ignored, the aggregate over the files
      before and the `.py` files among `fns`, and their stems added. */
  ghost predicate Scanned(dir: Path, fns: seq<string>, sources: Sources, ignoreError: bool, done: seq<PyFile>,
                          packages: set<string>, all': map<string, set<Path>>, packages': set<string>)
  {
    var fs := PyFiles(dir, fns);
    && (ignoreError || FirstFailing(fs, sources).None?)
    && all' == Aggregate(done + fs, sources)
    && packages' == packages + Stems(fs, sources)
  }

  lemma ScanEnd(dir: Path, fns: seq<string>, sources: Sources, ignoreError: bool, done: seq<PyFile>,
                packages: set<string>, all': map<string, set<Path>>, packages': set<string>)
    requires Scanned(dir, fns, sources, ignoreError, done, packages, all', packages')
    ensures ignoreError || FirstFailing(PyFiles(dir, fns), sources).None?
    ensures all' == Aggregate(done + PyFiles(dir, fns), sources)
    ensures packages' == packages + Stems(PyFiles(dir, fns), sources)
  {
  }

  lemma ScanStart(dir: Path, sources: Sources, ignoreError: bool, done: seq<PyFile>, packages: set<string>)
    ensures Scanned(dir, [], sources, ignoreError, done, packages, Aggregate(done, sources), packages)
  {
    assert done + [] == done;
  }

  lemma ScanOther(dir: Path, fns: seq<string>, fn: string, sources: Sources, ignoreError: bool, done: seq<PyFile>,
                  packages: set<string>, all': map<string, set<Path>>, packages': set<string>)
    requires Scanned(dir, fns, sources, ignoreError, done, packages, all', packages')
    requires !EndsWith(fn, ".py")
    ensures Scanned(dir, fns + [fn], sources, ignoreError, done, packages, all', packages')
  {
    var fns' := fns + [fn];
    assert fns'[..|fns'| - 1] == fns && fns'[|fns'| - 1] == fn;
    assert PyFiles(dir, fns') == PyFiles(dir, fns) + [];
    assert PyFiles(dir, fns') == PyFiles(dir, fns);
  }

  lemma ScanIgnored(dir: Path, fns: seq<string>, fn: string, sources: Sources, ignoreError: bool, done: seq<PyFile>,
                    packages: set<string>, all': map<string, set<Path>>, packages': set<string>)
    requires Scanned(dir, fns, sources, ignoreError, done, packages, all', packages')
    requires EndsWith(fn, ".py") && sources(dir + [fn]).None? && ignoreError
    ensures Scanned(dir, fns + [fn], sources, ignoreError, done, packages, all', packages')
  {
    PyFilesSnoc(dir, fns, fn);
    FileSnoc(done, PyFiles(dir, fns), PyFile(dir, fn), sources);
  }

  lemma ScanParsed(dir: Path, fns: seq<string>, fn: string, sources: Sources, ignoreError: bool, done: seq<PyFile>,
                   packages: set<string>, all': map<string, set<Path>>, packages': set<string>)
    requires Scanned(dir, fns, sources, ignoreError, done, packages, all', packages')
    requires EndsWith(fn, ".py") && sources(dir + [fn]).Some?
    ensures Scanned(dir, fns + [fn], sources, ignoreError, done, packages,
                    AddFile(all', dir + [fn], ImportsOf(sources, dir + [fn])), packages' + {SplitExtRoot(fn)})
  {
    var before := PyFiles(dir, fns);
    var f := PyFile(dir, fn);
    PyFilesSnoc(dir, fns, fn);
    FileSnoc(done, before, f, sources);
    FirstFailingAppend(before, [f], sources);
  }

  /** One more listed name: a `.py` name adds its file at the end. */
  lemma PyFilesSnoc(dir: Path, fns: seq<string>, fn: string)
    ensures PyFiles(dir, fns + [fn]) == PyFiles(dir, fns) + if EndsWith(fn, ".py") then [PyFile(dir, fn)] else []
  {
    var fns' := fns + [fn];
    assert fns'[..|fns'| - 1] == fns && fns'[|fns'| - 1] == fn;
  }

  /** One more file after `done + before`: the aggregate and the stems grow by
      that file alone, when it parses. */
  lemma FileSnoc(done: seq<PyFile>, before: seq<PyFile>, f: PyFile, sources: Sources)
    ensures var p := f.FullPath();
      Aggregate(done + (before + [f]), sources) ==
        if sources(p).None? then Aggregate(done + before, sources)
        else AddFile(Aggregate(done + before, sources), p, ImportsOf(sources, p))
    ensures Stems(before + [f], sources) ==
      Stems(before, sources) + if sources(f.FullPath()).Some? then {SplitExtRoot(f.name)} else {}
  {
    var all := done + (before + [f]);
    assert all[..|all| - 1] == done + before && all[|all| - 1] == f;
    assert (before + [f])[..|before|] == before;
  }

  lemma ScanFails(dir: Path, fns: seq<string>, j: int, sources: Sources)
    requires 0 <= j < |fns| && FirstFailing(PyFiles(dir, fns[..j]), sources).None?
    requires EndsWith(fns[j], ".py") && sources(dir + [fns[j]]).None?
    ensures FirstFailing(PyFiles(dir, fns), sources) == Some(dir + [fns[j]])
  {
    var before := PyFiles(dir, fns[..j]);
    var f := PyFile(dir, fns[j]);
    assert fns[..j + 1][..j] == fns[..j] && fns[..j + 1][j] == fns[j];
    assert PyFiles(dir, fns[..j + 1]) == before + [f];
    PyFilesAppend(dir, fns[..j + 1], fns[j + 1..]);
    assert fns[..j + 1] + fns[j + 1..] == fns;
    FirstFailingAppend(before, [f], sources);
    FirstFailingAppend(before + [f], PyFiles(dir, fns[j + 1..]), sources);
  }

  /** extra_all_imports: the walk with pruning, then every `.py` file of every
      visited directory. */
  method ExtraAllImports(tree: Dir, ignore: seq<string>, sources: Sources, ignoreError: bool)
    returns (r: Result<(map<string, set<Path>>, set<string>), Path>)
    ensures r == ExtraAll(Walk(tree, [tree.name], ignore), sources, ignoreError)
  {
    var visits := Walk(tree, [tree.name], ignore);
    var all: map<string, set<Path>> := map[];
    var packages: set<string> := {};
    assert visits[..0] == [];
    for i := 0 to |visits|
      invariant Walked(visits[..i], sources, ignoreError, all, packages)
    {
      var v := visits[i];
      var step := ScanFiles(v, sources, ignoreError, AllPyFiles(visits[..i]), all, packages + {v.name});
      WalkVisit(visits, i, sources, ignoreError, all, packages, step);
      if step.Failure? {
        return Failure(step.error);
      }
      all, packages := step.value.0, step.value.1;
    }
    assert visits[..|visits|] == visits;
    r := Success((all, packages));
  }

  /** The state of the outer loop once the directories `vs` are done. */
  ghost predicate Walked(vs: seq<Visit>, sources: Sources, ignoreError: bool,
                         all: map<string, set<Path>>, packages: set<string>)
  {
    var fs := AllPyFiles(vs);
    && (ignoreError || FirstFailing(fs, sources).None?)
    && all == Aggregate(fs, sources)
    && packages == DirNames(vs) + Stems(fs, sources)
  }

  /** One turn of the outer loop: the directory's scan either fails as the
      whole walk does, or extends the state to one more directory. */
  lemma WalkVisit(visits: seq<Visit>, i: nat, sources: Sources, ignoreError: bool,
                  all: map<string, set<Path>>, packages: set<string>,
                  step: Result<(map<string, set<Path>>, set<string>), Path>)
    requires i < |visits| && Walked(visits[..i], sources, ignoreError, all, packages)
    requires var fs := PyFiles(visits[i].path, visits[i].files);
      if !ignoreError && FirstFailing(fs, sources).Some? then step == Failure(FirstFailing(fs, sources).value)
      else step == Success((Aggregate(AllPyFiles(visits[..i]) + fs, sources), packages + {visits[i].name} + Stems(fs, sources)))
    ensures step.Failure? ==> ExtraAll(visits, sources, ignoreError) == Failure(step.error)
    ensures step.Success? ==> Walked(visits[..i + 1], sources, ignoreError, step.value.0, step.value.1)
  {
    var v := visits[i];
    assert visits[..i + 1] == visits[..i] + [v];
    if step.Failure? {
      assert visits[..i + 1] + visits[i + 1..] == visits;
      WalkFails(visits[..i], v, visits[i + 1..], sources, all, packages);
    } else {
      WalkStep(visits[..i], v, sources, ignoreError, all, packages);
    }
  }

  lemma WalkStep(vs: seq<Visit>, v: Visit, sources: Sources, ignoreError: bool,
                 all: map<string, set<Path>>, packages: set<string>)
    requires Walked(vs, sources, ignoreError, all, packages)
    requires ignoreError || FirstFailing(PyFiles(v.path, v.files), sources).None?
    ensures var fs := PyFiles(v.path, v.files);
      Walked(vs + [v], sources, ignoreError, Aggregate(AllPyFiles(vs) + fs, sources),
             packages + {v.name} + Stems(fs, sources))
  {
    var done, fs := AllPyFiles(vs), PyFiles(v.path, v.files);
    assert (vs + [v])[..|vs|] == vs;
    assert AllPyFiles(vs + [v]) == done + fs;
    FirstFailingAppend(done, fs, sources);
    StemsAppend(done, fs, sources);
  }

  lemma WalkFails(vs: seq<Visit>, v: Visit, after: seq<Visit>, sources: Sources,
                  all: map<string, set<Path>>, packages: set<string>)
    requires Walked(vs, sources, false, all, packages)
    requires FirstFailing(PyFiles(v.path, v.files), sources).Some?
    ensures FirstFailing(AllPyFiles(vs + [v] + after), sources) == FirstFailing(PyFiles(v.path, v.files), sources)
  {
    var done, fs := AllPyFiles(vs), PyFiles(v.path, v.files);
    assert (vs + [v])[..|vs|] == vs;
    assert AllPyFiles(vs + [v]) == done + fs;
    AllPyFilesAppend(vs + [v], after);
    FirstFailingAppend(done, fs, sources);
    FirstFailingAppend(done + fs, AllPyFiles(after), sources);
  }

  /** The three results of classify_imports. */
  datatype Classes = Classes(std: set<string>, project: set<string>, third: map<string, set<Path>>)

  /** The classification of every imported name: standard library first, then
      the project's own packages, the rest third party with its files. */
  function Classify(all: map<string, set<Path>>, packages: set<string>, stdlib: set<string>): Classes
  {
    Classes(set m | m in all && m in stdlib,
            set m | m in all && m !in stdlib && m in packages,
            map m | m in all && m !in stdlib && m !in packages :: all[m])
  }

  /** Every imported name lands in exactly one class; a standard-library name
      is standard even when the project has a package of the same name; a
      third-party name keeps its set of files. */
  lemma ClassifyPartition(all: map<string, set<Path>>, packages: set<string>, stdlib: set<string>)
    ensures var c := Classify(all, packages, stdlib);
      && (forall m :: m in c.std || m in c.project || m in c.third ==> m in all)
      && (forall m :: m in all ==>
            (m in c.std && m !in c.project && m !in c.third)
            || (m !in c.std && m in c.project && m !in c.third)
            || (m !in c.std && m !in c.project && m in c.third))
      && (forall m :: m in all && m in stdlib ==> m in c.std)
      && (forall m :: m in c.third ==> c.third[m] == all[m])
  {
  }

  /** The loop of classify_imports over the aggregate (lines 71-77). */
  method Partition(all: map<string, set<Path>>, packages: set<string>, stdlib: set<string>) returns (c: Classes)
    ensures c == Classify(all, packages, stdlib)
  {
    var std: set<string>, own: set<string>, third: map<string, set<Path>> := {}, {}, map[];
    var rest := all.Keys;
    while rest != {}
      invariant rest <= all.Keys
      invariant std == set m | m in all && m !in rest && m in stdlib
      invariant own == set m | m in all && m !in rest && m !in stdlib && m in packages
      invariant third == map m | m in all && m !in rest && m !in stdlib && m !in packages :: all[m]
      decreases rest
    {
      var name :| name in rest;
      if name in stdlib {
        std := std + {name};
      } else if name in packages {
        own := own + {name};
      } else {
        third := third[name := all[name]];
      }
      rest := rest - {name};
    }
    c := Classes(std, own, third);
  }

  /** classify_imports: the aggregate of the project, then its partition; a
      file that does not parse, with errors not ignored, raises. */
  method ClassifyImports(tree: Dir, ignore: seq<string>, sources: Sources, ignoreError: bool, stdlib: set<string>)
    returns (r: Result<Classes, Path>)
    ensures var agg := ExtraAll(Walk(tree, [tree.name], ignore), sources, ignoreError);
      if agg.Failure? then r == Failure(agg.error)
      else r == Success(Classify(agg.value.0, agg.value.1, stdlib))
  {
    var agg := ExtraAllImports(tree, ignore, sources, ignoreError);
    if agg.Failure? {
      return Failure(agg.error);
    }
    var c := Partition(agg.value.0, agg.value.1, stdlib);
    r := Success(c);
  }
}
