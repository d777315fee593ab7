/** `ShaderSource.GetResolvedGlsl` end to end: the entry's dependency
    order from the include graph, each file's parsed code, and the unit and
    provenance table built from them. */
module ShaderSource {
  import opened IncludeGraph
  import opened ResolvedGlsl
  import opened ResolvedShader
  import opened Gl

  /** The files of the unit in emission order, each with its parsed code. */
  function UnitsOf(files: seq<string>, code: map<string, string>): (us: seq<Unit>)
    requires forall i | 0 <= i < |files| :: files[i] in code
    ensures |us| == |files|
    ensures forall k | 0 <= k < |us| :: us[k] == Unit(files[k], code[files[k]])
  {
    seq(|files|, k requires 0 <= k < |files| => Unit(files[k], code[files[k]]))
  }

  /** `GetResolvedGlsl` on the include graph `g`, where `code` holds every
      file's `ParsedCode`. */
  function Resolve(g: Graph<string>, code: map<string, string>, entry: string,
                   version: string, header: string, macros: seq<(string, string)>): (r: Resolved)
    requires Closed(g) && entry in g && g.Keys <= code.Keys
    ensures |r.blocks| == |DependencyOrder(g, entry)| + 1
    ensures r.blocks[0] == Block(0, HeaderBlockName) && StrictlyIncreasing(r.blocks)
  {
    ReachableFilesExactly(g, entry);
    var files := DependencyOrder(g, entry);
    GetResolvedGlsl(version, header, macros, UnitsOf(files, code))
  }

  /** The error `GetDependencyOrder` prints when it reaches `file` while
      `file` is still on the include path. */
  function CycleReport(file: string): (p: Event)
    ensures p.Print? && p.kind == Error
  {
    Print(Error, "Shader source file " + file + " contains cyclical dependency!")
  }

  /** The lines `GetResolvedGlsl` prints: one error per file the walk
      reaches again on its own include path, in the order it reaches them. */
  function CycleReports(g: Graph<string>, entry: string): (ps: seq<Event>)
    requires Closed(g) && entry in g
    ensures |ps| == |DependencyLevels(g, entry).cycles|
    ensures forall i | 0 <= i < |ps| :: ps[i] == CycleReport(DependencyLevels(g, entry).cycles[i])
  {
    var cs := DependencyLevels(g, entry).cycles;
    seq(|cs|, i requires 0 <= i < |cs| => CycleReport(cs[i]))
  }

  /** An acyclic include graph prints nothing. */
  lemma AcyclicPrintsNothing(g: Graph<string>, rank: map<string, nat>, entry: string)
    requires Closed(g) && entry in g && Ranked(g, rank)
    ensures CycleReports(g, entry) == []
  {
    AcyclicGraphIsLayered(g, rank, entry);
  }

  /** A file that includes itself is reported once, and still emitted once. */
  lemma SelfIncludePrintsOnce(g: Graph<string>, entry: string)
    requires Closed(g) && entry in g && g[entry] == [entry]
    ensures CycleReports(g, entry) == [CycleReport(entry)]
    ensures DependencyOrder(g, entry) == [entry]
  {
    var w0: Walk<string> := Walk(Order(map[], []), []);
    var w1 := w0.(order := Bump(w0.order, entry, 0));
    var w2 := Visit(g, entry, {entry}, w1, 1);
    assert w2 == Walk(Bump(w1.order, entry, 1), [entry]);
    assert VisitAll(g, [entry], {entry}, w1, 1) == VisitAll(g, [], {entry}, w2, 1) == w2;
    assert {} + {entry} == {entry};
    assert Visit(g, entry, {}, w0, 0) == VisitAll(g, g[entry], {} + {entry}, w1, 1);
    assert DependencyLevels(g, entry) == w2;
    assert w2.order.seen == [entry];
  }

  /** The dependency order lists each reachable file once. */
  lemma OrderIsReachable(g: Graph<string>, entry: string)
    requires Closed(g) && entry in g
    ensures var files := DependencyOrder(g, entry);
      && Distinct(files)
      && (forall n :: n in files <==> n in DependencyLevels(g, entry).order.levels)
      && forall i | 0 <= i < |files| :: files[i] in g
  {
    ReachableFilesExactly(g, entry);
  }

  /** Row `k + 1` is the row of the `k`-th file in dependency order. */
  lemma ResolveRowName(g: Graph<string>, code: map<string, string>, entry: string,
                       version: string, header: string, macros: seq<(string, string)>, k: nat)
    requires Closed(g) && entry in g && g.Keys <= code.Keys && k < |DependencyOrder(g, entry)|
    ensures Resolve(g, code, entry, version, header, macros).blocks[k + 1].name == DependencyOrder(g, entry)[k]
  {
    OrderIsReachable(g, entry);
    var units := UnitsOf(DependencyOrder(g, entry), code);
    assert Resolve(g, code, entry, version, header, macros).blocks == Blocks(header, macros, units);
    BlocksRow(header, macros, units, k);
    FileBlockName(CountLines(header) + 1 + |macros|, units, k);
  }

  /** After the header row there is one row per file reachable from the
      entry, each file once, in dependency order. */
  lemma ResolveRows(g: Graph<string>, code: map<string, string>, entry: string,
                    version: string, header: string, macros: seq<(string, string)>)
    requires Closed(g) && entry in g && g.Keys <= code.Keys
    ensures var bs := Resolve(g, code, entry, version, header, macros).blocks;
      var files := DependencyOrder(g, entry);
      forall k | 1 <= k < |bs| :: bs[k].name == files[k - 1]
    ensures var bs := Resolve(g, code, entry, version, header, macros).blocks;
      forall i, j | 1 <= i < j < |bs| :: bs[i].name != bs[j].name
    ensures var bs := Resolve(g, code, entry, version, header, macros).blocks;
      forall n :: n in DependencyLevels(g, entry).order.levels <==> exists k | 1 <= k < |bs| :: bs[k].name == n
  {
    OrderIsReachable(g, entry);
    var files := DependencyOrder(g, entry);
    var bs := Resolve(g, code, entry, version, header, macros).blocks;
    forall k | 1 <= k < |bs|
      ensures bs[k].name == files[k - 1]
    {
      ResolveRowName(g, code, entry, version, header, macros, k - 1);
    }
    forall i, j | 1 <= i < j < |bs|
      ensures bs[i].name != bs[j].name
    {
      assert bs[i].name == files[i - 1] && bs[j].name == files[j - 1];
    }
    var lv := DependencyLevels(g, entry).order.levels;
    forall n | n in lv
      ensures exists k | 1 <= k < |bs| :: bs[k].name == n
    {
      var i :| 0 <= i < |files| && files[i] == n;
      assert bs[i + 1].name == files[i];
    }
    forall n, k | 1 <= k < |bs| && bs[k].name == n
      ensures n in lv
    {
      assert files[k - 1] == n && n in files;
    }
  }

  /** In an acyclic include graph, the code of every included file starts
      in the unit before the code of each file that includes it. */
  lemma IncludesPrecedeIncluders(g: Graph<string>, rank: map<string, nat>, code: map<string, string>, entry: string,
                                 version: string, header: string, macros: seq<(string, string)>)
    requires Closed(g) && entry in g && Ranked(g, rank) && g.Keys <= code.Keys
    ensures var bs := Resolve(g, code, entry, version, header, macros).blocks;
      forall p, q | 1 <= p < |bs| && 1 <= q < |bs| && bs[q].name in g && bs[p].name in g[bs[q].name] ::
        bs[p].start < bs[q].start
  {
    var bs := Resolve(g, code, entry, version, header, macros).blocks;
    var files := DependencyOrder(g, entry);
    ResolveRows(g, code, entry, version, header, macros);
    DependenciesComeFirst(g, rank, entry);
    forall p, q | 1 <= p < |bs| && 1 <= q < |bs| && bs[q].name in g && bs[p].name in g[bs[q].name]
      ensures bs[p].start < bs[q].start
    {
      assert files[q - 1] in g && files[p - 1] in g[files[q - 1]];
    }
  }
}
