/** `ShaderSource.GetDependencyOrder` and the descending sort that
    `GetResolvedGlsl` applies to its result: a depth-first walk of the
    include graph that records, for every file it reaches, the deepest level
    it was reached at, stops at a file already on the active path (a cycle),
    and then lists the files deepest first.

    Files are identified by name (the repository interns them by path); the
    edges of a file are its `Dependencies` in enumeration order. */
module IncludeGraph {

  type Graph<N> = map<N, seq<N>>

  /** Every included file is itself a node of the graph. */
  ghost predicate Closed<N>(g: Graph<N>) {
    forall n, i | n in g && 0 <= i < |g[n]| :: g[n][i] in g
  }

  function Max(a: nat, b: nat): nat { if a < b then b else a }

  /** The `order` dictionary: a level per file plus the order in which the
      files were first added (a `Dictionary`'s enumeration order). */
  datatype Order<N> = Order(levels: map<N, nat>, seen: seq<N>)

  predicate WellFormed<N(==)>(o: Order<N>) {
    && Distinct(o.seen)
    && (forall n | n in o.levels :: n in o.seen)
    && (forall i | 0 <= i < |o.seen| :: o.seen[i] in o.levels)
  }

  /** `order.Add(n, level)` or `order[n] = Math.Max(level, order[n])`. */
  function Bump<N(==)>(o: Order<N>, n: N, level: nat): (r: Order<N>)
    ensures n in r.levels && r.levels[n] >= level
    ensures r.levels.Keys == o.levels.Keys + {n}
    ensures forall m | m in o.levels :: o.levels[m] <= r.levels[m]
    ensures r.levels == o.levels[n := if n in o.levels then Max(level, o.levels[n]) else level]
    ensures r.seen == (if n in o.levels then o.seen else o.seen + [n])
  {
    if n in o.levels then Order(o.levels[n := Max(level, o.levels[n])], o.seen)
    else Order(o.levels[n := level], o.seen + [n])
  }

  lemma BumpKeepsWellFormed<N>(o: Order<N>, n: N, level: nat)
    requires WellFormed(o)
    ensures WellFormed(Bump(o, n, level))
  {
  }

  /** The walk's state: the order dictionary and the files reported as
      cyclical, one per report, in report order. */
  datatype Walk<N> = Walk(order: Order<N>, cycles: seq<N>)

  lemma LinkShrinks<N>(g: Graph<N>, link: set<N>, x: N)
    requires x in g && x !in link
    ensures |g.Keys - (link + {x})| < |g.Keys - link|
  {
    assert g.Keys - (link + {x}) == (g.Keys - link) - {x};
  }

  /** `GetDependencyOrder(link, order, level)` called on `x`: the file and,
      unless it is already on the path, everything it includes are recorded
      at least as deep as they are reached, and nothing recorded gets
      shallower. */
  function Visit<N(==)>(g: Graph<N>, x: N, link: set<N>, w: Walk<N>, level: nat): (r: Walk<N>)
    requires Closed(g) && x in g
    ensures w.order.levels.Keys + {x} <= r.order.levels.Keys <= w.order.levels.Keys + g.Keys
    ensures forall n | n in w.order.levels :: w.order.levels[n] <= r.order.levels[n]
    ensures r.order.levels[x] >= level
    decreases |g.Keys - link|, 0
  {
    var w1 := w.(order := Bump(w.order, x, level));
    if x in link then
      w1.(cycles := w1.cycles + [x])
    else
      LinkShrinks(g, link, x);
      VisitAll(g, g[x], link + {x}, w1, level + 1)
  }

  /** The `foreach` over the dependencies of one file. */
  function VisitAll<N(==)>(g: Graph<N>, xs: seq<N>, link: set<N>, w: Walk<N>, level: nat): (r: Walk<N>)
    requires Closed(g) && (forall i | 0 <= i < |xs| :: xs[i] in g)
    ensures w.order.levels.Keys <= r.order.levels.Keys <= w.order.levels.Keys + g.Keys
    ensures forall n | n in w.order.levels :: w.order.levels[n] <= r.order.levels[n]
    ensures forall i | 0 <= i < |xs| :: xs[i] in r.order.levels && r.order.levels[xs[i]] >= level
    decreases |g.Keys - link|, 1, |xs|
  {
    if xs == [] then w
    else VisitAll(g, xs[1..], link, Visit(g, xs[0], link, w, level), level)
  }

  /** The order dictionary stays a dictionary: each file listed once, and
      listed exactly when it has a level. */
  lemma {:induction false} VisitKeepsWellFormed<N>(g: Graph<N>, x: N, link: set<N>, w: Walk<N>, level: nat)
    requires Closed(g) && x in g && WellFormed(w.order)
    ensures WellFormed(Visit(g, x, link, w, level).order)
    decreases |g.Keys - link|, 0
  {
    BumpKeepsWellFormed(w.order, x, level);
    if x !in link {
      LinkShrinks(g, link, x);
      VisitAllKeepsWellFormed(g, g[x], link + {x}, w.(order := Bump(w.order, x, level)), level + 1);
    }
  }

  lemma {:induction false} VisitAllKeepsWellFormed<N>(g: Graph<N>, xs: seq<N>, link: set<N>, w: Walk<N>, level: nat)
    requires Closed(g) && (forall i | 0 <= i < |xs| :: xs[i] in g) && WellFormed(w.order)
    ensures WellFormed(VisitAll(g, xs, link, w, level).order)
    decreases |g.Keys - link|, 1, |xs|
  {
    if xs != [] {
      VisitKeepsWellFormed(g, xs[0], link, w, level);
      VisitAllKeepsWellFormed(g, xs[1..], link, Visit(g, xs[0], link, w, level), level);
    }
  }

  /** The walk started at the entry file with an empty path and level 0. */
  function DependencyLevels<N(==)>(g: Graph<N>, entry: N): (w: Walk<N>)
    requires Closed(g) && entry in g
    ensures WellFormed(w.order)
  {
    VisitKeepsWellFormed(g, entry, {}, Walk(Order(map[], []), []), 0);
    Visit(g, entry, {}, Walk(Order(map[], []), []), 0)
  }

  predicate AllIn<N(==)>(s: seq<N>, lv: map<N, nat>) {
    forall i | 0 <= i < |s| :: s[i] in lv
  }

  predicate SortedDesc<N(==)>(s: seq<N>, lv: map<N, nat>)
    requires AllIn(s, lv)
  {
    forall i, j | 0 <= i < j < |s| :: lv[s[i]] >= lv[s[j]]
  }

  /** Inserts `x` after every element whose level is at least its own. */
  function Insert<N(==)>(s: seq<N>, x: N, lv: map<N, nat>): (r: seq<N>)
    requires AllIn(s, lv) && x in lv
    ensures |r| == |s| + 1 && multiset(r) == multiset(s) + multiset{x}
    ensures AllIn(r, lv)
  {
    if s == [] then [x]
    else if lv[s[0]] >= lv[x] then
      assert s == [s[0]] + s[1..];
      [s[0]] + Insert(s[1..], x, lv)
    else
      [x] + s
  }

  lemma {:induction false} InsertSorted<N>(s: seq<N>, x: N, lv: map<N, nat>)
    requires AllIn(s, lv) && x in lv && SortedDesc(s, lv)
    ensures SortedDesc(Insert(s, x, lv), lv)
  {
    if s != [] && lv[s[0]] >= lv[x] {
      var tail := Insert(s[1..], x, lv);
      InsertSorted(s[1..], x, lv);
      forall k | 0 <= k < |tail|
        ensures lv[s[0]] >= lv[tail[k]]
      {
        assert tail[k] in multiset(tail);
        if tail[k] != x {
          assert tail[k] in multiset(s[1..]);
        }
      }
    }
  }

  /** `OrderByDescending(level)`: a stable sort, deepest level first. */
  function SortDesc<N(==)>(s: seq<N>, lv: map<N, nat>): (r: seq<N>)
    requires AllIn(s, lv)
    ensures |r| == |s| && multiset(r) == multiset(s)
    ensures AllIn(r, lv)
  {
    if s == [] then []
    else
      assert s == s[..|s| - 1] + [s[|s| - 1]];
      Insert(SortDesc(s[..|s| - 1], lv), s[|s| - 1], lv)
  }

  lemma {:induction false} SortDescSorted<N>(s: seq<N>, lv: map<N, nat>)
    requires AllIn(s, lv)
    ensures SortedDesc(SortDesc(s, lv), lv)
  {
    if s != [] {
      SortDescSorted(s[..|s| - 1], lv);
      InsertSorted(SortDesc(s[..|s| - 1], lv), s[|s| - 1], lv);
    }
  }

  /** The files of `s` recorded at level `l`, in the order of `s`. */
  function AtLevel<N(==)>(s: seq<N>, lv: map<N, nat>, l: nat): (r: seq<N>)
    ensures |r| <= |s|
  {
    if s == [] then []
    else (if s[0] in lv && lv[s[0]] == l then [s[0]] else []) + AtLevel(s[1..], lv, l)
  }

  lemma {:induction false} AtLevelConcat<N>(a: seq<N>, b: seq<N>, lv: map<N, nat>, l: nat)
    ensures AtLevel(a + b, lv, l) == AtLevel(a, lv, l) + AtLevel(b, lv, l)
  {
    if a != [] {
      assert (a + b)[0] == a[0] && (a + b)[1..] == a[1..] + b;
      AtLevelConcat(a[1..], b, lv, l);
      var p := if a[0] in lv && lv[a[0]] == l then [a[0]] else [];
      var u, v := AtLevel(a[1..], lv, l), AtLevel(b, lv, l);
      assert p + (u + v) == (p + u) + v;
    } else {
      assert a + b == b;
    }
  }

  /** No file of `s` is at a level as deep as `l`: none is selected. */
  lemma {:induction false} AtLevelAbove<N>(s: seq<N>, lv: map<N, nat>, l: nat)
    requires AllIn(s, lv) && forall i | 0 <= i < |s| :: lv[s[i]] < l
    ensures AtLevel(s, lv, l) == []
  {
    if s != [] {
      AtLevelAbove(s[1..], lv, l);
    }
  }

  lemma AtLevelSingle<N>(x: N, lv: map<N, nat>, l: nat)
    requires x in lv
    ensures AtLevel([x], lv, l) == (if lv[x] == l then [x] else [])
  {
    assert [x][1..] == [];
  }

  lemma SortedDescTail<N>(s: seq<N>, lv: map<N, nat>)
    requires AllIn(s, lv) && SortedDesc(s, lv) && s != []
    ensures AllIn(s[1..], lv) && SortedDesc(s[1..], lv)
    ensures forall i | 0 <= i < |s| :: lv[s[i]] <= lv[s[0]]
  {
    forall i, j | 0 <= i < j < |s| - 1
      ensures lv[s[1..][i]] >= lv[s[1..][j]]
    {
      assert s[1..][i] == s[i + 1] && s[1..][j] == s[j + 1];
    }
  }

  /** The two ways `Insert` places `x` relative to the head of `s`. */
  lemma InsertStep<N>(s: seq<N>, x: N, lv: map<N, nat>)
    requires AllIn(s, lv) && x in lv && s != []
    ensures lv[s[0]] >= lv[x] ==> Insert(s, x, lv) == [s[0]] + Insert(s[1..], x, lv)
    ensures lv[s[0]] < lv[x] ==> Insert(s, x, lv) == [x] + s
  {
  }

  /** Inserting into a sorted sequence puts `x` after every file of its own
      level. */
  lemma {:induction false} InsertStable<N>(s: seq<N>, x: N, lv: map<N, nat>, l: nat)
    requires AllIn(s, lv) && x in lv && SortedDesc(s, lv)
    ensures AtLevel(Insert(s, x, lv), lv, l) == AtLevel(s, lv, l) + (if lv[x] == l then [x] else [])
  {
    var xs := if lv[x] == l then [x] else [];
    AtLevelSingle(x, lv, l);
    if s == [] {
      assert Insert(s, x, lv) == [x];
      assert AtLevel(s, lv, l) + xs == xs;
    } else {
      InsertStep(s, x, lv);
      SortedDescTail(s, lv);
      if lv[s[0]] >= lv[x] {
        InsertStable(s[1..], x, lv, l);
        AtLevelCons(s[0], s[1..], Insert(s[1..], x, lv), lv, l, xs);
        assert s == [s[0]] + s[1..];
      } else {
        InsertStableFront(s, x, lv, l, xs);
      }
    }
  }

  /** Prepending a file to both sides keeps a per-level equation. */
  lemma AtLevelCons<N>(h: N, s: seq<N>, t: seq<N>, lv: map<N, nat>, l: nat, xs: seq<N>)
    requires AtLevel(t, lv, l) == AtLevel(s, lv, l) + xs
    ensures AtLevel([h] + t, lv, l) == AtLevel([h] + s, lv, l) + xs
  {
    AtLevelConcat([h], s, lv, l);
    AtLevelConcat([h], t, lv, l);
    var a, b := AtLevel([h], lv, l), AtLevel(s, lv, l);
    assert a + (b + xs) == (a + b) + xs;
  }

  lemma InsertStableFront<N>(s: seq<N>, x: N, lv: map<N, nat>, l: nat, xs: seq<N>)
    requires AllIn(s, lv) && x in lv && s != [] && lv[s[0]] < lv[x]
    requires forall i | 0 <= i < |s| :: lv[s[i]] <= lv[s[0]]
    requires xs == if lv[x] == l then [x] else []
    ensures AtLevel(Insert(s, x, lv), lv, l) == AtLevel(s, lv, l) + xs
  {
    InsertStep(s, x, lv);
    AtLevelConcat([x], s, lv, l);
    AtLevelSingle(x, lv, l);
    if lv[x] == l {
      AtLevelAbove(s, lv, l);
      assert [x] + [] == [] + [x];
    } else {
      assert [] + AtLevel(s, lv, l) == AtLevel(s, lv, l) + [];
    }
  }

  /** The last file of a sequence counts towards its own level only. */
  lemma AtLevelLast<N>(s: seq<N>, lv: map<N, nat>, l: nat)
    requires s != [] && s[|s| - 1] in lv
    ensures var x := s[|s| - 1];
      AtLevel(s, lv, l) == AtLevel(s[..|s| - 1], lv, l) + (if lv[x] == l then [x] else [])
  {
    assert s == s[..|s| - 1] + [s[|s| - 1]];
    AtLevelConcat(s[..|s| - 1], [s[|s| - 1]], lv, l);
    AtLevelSingle(s[|s| - 1], lv, l);
  }

  lemma SortDescStep<N>(s: seq<N>, lv: map<N, nat>)
    requires AllIn(s, lv) && s != []
    ensures AllIn(s[..|s| - 1], lv) && s[|s| - 1] in lv
    ensures SortDesc(s, lv) == Insert(SortDesc(s[..|s| - 1], lv), s[|s| - 1], lv)
  {
  }

  /** The sort is stable: the files of each level come out in the order
      they were first recorded. */
  lemma {:induction false} SortDescStable<N>(s: seq<N>, lv: map<N, nat>, l: nat)
    requires AllIn(s, lv)
    ensures AtLevel(SortDesc(s, lv), lv, l) == AtLevel(s, lv, l)
  {
    if s != [] {
      var init, x := s[..|s| - 1], s[|s| - 1];
      SortDescStep(s, lv);
      SortDescStable(init, lv, l);
      SortDescSorted(init, lv);
      InsertStable(SortDesc(init, lv), x, lv, l);
      AtLevelLast(s, lv, l);
    }
  }

  predicate Distinct<N(==)>(s: seq<N>) {
    forall i, j | 0 <= i < j < |s| :: s[i] != s[j]
  }

  lemma {:induction false} InsertDistinct<N>(s: seq<N>, x: N, lv: map<N, nat>)
    requires AllIn(s, lv) && x in lv && Distinct(s) && x !in s
    ensures Distinct(Insert(s, x, lv))
  {
    if s != [] && lv[s[0]] >= lv[x] {
      var tail := Insert(s[1..], x, lv);
      InsertDistinct(s[1..], x, lv);
      assert s[0] !in multiset(s[1..]) + multiset{x};
      forall k | 0 <= k < |tail|
        ensures tail[k] != s[0]
      {
        assert tail[k] in multiset(tail);
      }
    }
  }

  lemma {:induction false} SortDescDistinct<N>(s: seq<N>, lv: map<N, nat>)
    requires AllIn(s, lv) && Distinct(s)
    ensures Distinct(SortDesc(s, lv))
  {
    if s != [] {
      var init := s[..|s| - 1];
      SortDescDistinct(init, lv);
      var sorted := SortDesc(init, lv);
      assert s[|s| - 1] !in init;
      assert s[|s| - 1] !in multiset(sorted);
      InsertDistinct(sorted, s[|s| - 1], lv);
    }
  }

  /** The files of the resolved unit, in the order they are emitted. */
  function DependencyOrder<N(==)>(g: Graph<N>, entry: N): (files: seq<N>)
    requires Closed(g) && entry in g
  {
    var w := DependencyLevels(g, entry);
    SortDesc(w.order.seen, w.order.levels)
  }

  // ---------------------------------------------------------------------
  // Which files are visited: exactly those reachable from the entry.

  ghost predicate Expanded<N>(g: Graph<N>, keys: set<N>, n: N)
    requires n in g
  {
    forall i | 0 <= i < |g[n]| :: g[n][i] in keys
  }

  /** A set of files that contains everything its members include. */
  ghost predicate DepsClosedSet<N>(g: Graph<N>, c: set<N>) {
    c <= g.Keys && forall n, i | n in c && 0 <= i < |g[n]| :: g[n][i] in c
  }

  /** Every file first reached by a visit has had all its includes visited
      by the time the visit returns. */
  lemma {:induction false} VisitExpands<N>(g: Graph<N>, x: N, link: set<N>, w: Walk<N>, level: nat)
    requires Closed(g) && x in g
    requires link <= w.order.levels.Keys
    ensures var r := Visit(g, x, link, w, level);
      && (forall n | n in r.order.levels && n !in w.order.levels :: n in g && Expanded(g, r.order.levels.Keys, n))
      && (x !in link ==> Expanded(g, r.order.levels.Keys, x))
    decreases |g.Keys - link|, 0
  {
    if x !in link {
      var w1 := w.(order := Bump(w.order, x, level));
      LinkShrinks(g, link, x);
      VisitAllExpands(g, g[x], link + {x}, w1, level + 1);
    }
  }

  lemma {:induction false} VisitAllExpands<N>(g: Graph<N>, xs: seq<N>, link: set<N>, w: Walk<N>, level: nat)
    requires Closed(g) && (forall i | 0 <= i < |xs| :: xs[i] in g)
    requires link <= w.order.levels.Keys
    ensures var r := VisitAll(g, xs, link, w, level);
      forall n | n in r.order.levels && n !in w.order.levels :: n in g && Expanded(g, r.order.levels.Keys, n)
    decreases |g.Keys - link|, 1, |xs|
  {
    if xs != [] {
      var w1 := Visit(g, xs[0], link, w, level);
      VisitExpands(g, xs[0], link, w, level);
      VisitAllExpands(g, xs[1..], link, w1, level);
    }
  }

  /** A visit started inside an include-closed set never leaves it. */
  lemma {:induction false} VisitStaysWithin<N>(g: Graph<N>, c: set<N>, x: N, link: set<N>, w: Walk<N>, level: nat)
    requires Closed(g) && x in g
    requires DepsClosedSet(g, c) && x in c && w.order.levels.Keys <= c
    ensures Visit(g, x, link, w, level).order.levels.Keys <= c
    decreases |g.Keys - link|, 0
  {
    if x !in link {
      var w1 := w.(order := Bump(w.order, x, level));
      LinkShrinks(g, link, x);
      VisitAllStaysWithin(g, c, g[x], link + {x}, w1, level + 1);
    }
  }

  lemma {:induction false} VisitAllStaysWithin<N>(g: Graph<N>, c: set<N>, xs: seq<N>, link: set<N>, w: Walk<N>, level: nat)
    requires Closed(g) && (forall i | 0 <= i < |xs| :: xs[i] in g)
    requires DepsClosedSet(g, c) && (forall i | 0 <= i < |xs| :: xs[i] in c) && w.order.levels.Keys <= c
    ensures VisitAll(g, xs, link, w, level).order.levels.Keys <= c
    decreases |g.Keys - link|, 1, |xs|
  {
    if xs != [] {
      VisitStaysWithin(g, c, xs[0], link, w, level);
      VisitAllStaysWithin(g, c, xs[1..], link, Visit(g, xs[0], link, w, level), level);
    }
  }

  /** The files in the order dictionary are exactly the files reachable
      from the entry: the entry, everything they include, and nothing
      outside the least include-closed set around the entry. Each appears
      once in the emitted order. */
  lemma ReachableFilesExactly<N>(g: Graph<N>, entry: N)
    requires Closed(g) && entry in g
    ensures var w := DependencyLevels(g, entry);
      && entry in w.order.levels
      && DepsClosedSet(g, w.order.levels.Keys)
      && (forall c: set<N> | DepsClosedSet(g, c) && entry in c :: w.order.levels.Keys <= c)
    ensures var files := DependencyOrder(g, entry);
      && Distinct(files)
      && (forall n :: n in files <==> n in DependencyLevels(g, entry).order.levels)
  {
    var w := DependencyLevels(g, entry);
    VisitExpands(g, entry, {}, Walk(Order(map[], []), []), 0);
    forall c: set<N> | DepsClosedSet(g, c) && entry in c
      ensures w.order.levels.Keys <= c
    {
      VisitStaysWithin(g, c, entry, {}, Walk(Order(map[], []), []), 0);
    }
    var files := DependencyOrder(g, entry);
    forall n
      ensures n in files <==> n in w.order.seen
    {
      assert n in files <==> n in multiset(files);
      assert n in w.order.seen <==> n in multiset(w.order.seen);
    }
    SortDescDistinct(w.order.seen, w.order.levels);
  }

  // ---------------------------------------------------------------------
  // Acyclic include graphs: dependencies come first.

  /** A ranking that every include edge strictly descends: the graph has no
      cycle. */
  ghost predicate Ranked<N>(g: Graph<N>, rank: map<N, nat>) {
    && g.Keys <= rank.Keys
    && forall n, i | n in g && 0 <= i < |g[n]| :: g[n][i] in rank && rank[g[n][i]] < rank[n]
  }

  /** Every include of `n` sits at a strictly deeper level than `n`. */
  ghost predicate DeeperIncludes<N>(g: Graph<N>, lv: map<N, nat>, n: N)
    requires n in g && n in lv
  {
    forall i | 0 <= i < |g[n]| :: g[n][i] in lv && lv[g[n][i]] > lv[n]
  }

  /** Every recorded file off the active path has its includes deeper. */
  ghost predicate Layered<N>(g: Graph<N>, o: Order<N>, link: set<N>) {
    forall n | n in o.levels && n !in link :: n in g && DeeperIncludes(g, o.levels, n)
  }

  /** The fixed context of the acyclic walk: a closed graph and a ranking
      its edges descend. */
  ghost predicate RankedGraph<N>(g: Graph<N>, rank: map<N, nat>) {
    Closed(g) && Ranked(g, rank)
  }

  /** A walk state the lemmas below can start from. */
  ghost predicate Fits<N>(g: Graph<N>, link: set<N>, o: Order<N>) {
    o.levels.Keys <= g.Keys
  }

  /** Every file on the path is ranked at least `bound`. */
  ghost predicate PathAbove<N>(rank: map<N, nat>, link: set<N>, bound: nat) {
    forall a | a in link :: a in rank && rank[a] >= bound
  }

  /** Every file of `xs` is a node ranked below `bound`. */
  ghost predicate AllBelow<N>(g: Graph<N>, rank: map<N, nat>, xs: seq<N>, bound: nat) {
    forall i | 0 <= i < |xs| :: xs[i] in g && xs[i] in rank && rank[xs[i]] < bound
  }

  /** Levels of files ranked at least `bound` agree between two orders. */
  ghost predicate SameAbove<N>(rank: map<N, nat>, a: Order<N>, b: Order<N>, bound: nat) {
    forall n | n in a.levels && n in rank && rank[n] >= bound :: n in b.levels && b.levels[n] == a.levels[n]
  }

  /** In an acyclic graph a visit reports no cycle and leaves the level of
      every file ranked above the visited one alone. */
  lemma {:induction false} VisitFrame<N>(g: Graph<N>, rank: map<N, nat>, x: N, link: set<N>, w: Walk<N>, level: nat)
    requires RankedGraph(g, rank) && x in g && Fits(g, link, w.order) && PathAbove(rank, link, rank[x] + 1)
    ensures var r := Visit(g, x, link, w, level);
      r.cycles == w.cycles && SameAbove(rank, w.order, r.order, rank[x] + 1)
    decreases |g.Keys - link|, 0
  {
    assert x !in link;
    var w1 := w.(order := Bump(w.order, x, level));
    LinkShrinks(g, link, x);
    VisitAllFrame(g, rank, g[x], link + {x}, w1, level + 1, rank[x]);
  }

  lemma {:induction false} VisitAllFrame<N>(g: Graph<N>, rank: map<N, nat>, xs: seq<N>, link: set<N>, w: Walk<N>, level: nat, bound: nat)
    requires RankedGraph(g, rank) && AllBelow(g, rank, xs, bound) && Fits(g, link, w.order) && PathAbove(rank, link, bound)
    ensures var r := VisitAll(g, xs, link, w, level);
      r.cycles == w.cycles && SameAbove(rank, w.order, r.order, bound)
    decreases |g.Keys - link|, 1, |xs|
  {
    if xs != [] {
      VisitFrame(g, rank, xs[0], link, w, level);
      VisitAllFrame(g, rank, xs[1..], link, Visit(g, xs[0], link, w, level), level, bound);
    }
  }

  /** In an acyclic graph a visit keeps every recorded file off the path
      layered. */
  lemma {:induction false} VisitLayers<N>(g: Graph<N>, rank: map<N, nat>, x: N, link: set<N>, w: Walk<N>, level: nat)
    requires RankedGraph(g, rank) && x in g && Fits(g, link, w.order) && PathAbove(rank, link, rank[x] + 1)
    requires Layered(g, w.order, link)
    ensures Layered(g, Visit(g, x, link, w, level).order, link)
    decreases |g.Keys - link|, 0
  {
    assert x !in link;
    var w1 := w.(order := Bump(w.order, x, level));
    LinkShrinks(g, link, x);
    var r := VisitAll(g, g[x], link + {x}, w1, level + 1);
    BumpKeepsLayered(g, w.order, x, level, link);
    VisitAllLayers(g, rank, g[x], link + {x}, w1, level + 1, rank[x]);
    VisitedDeeper(g, rank, x, link, w, level);
    LayeredPop(g, r.order, link, x);
  }

  /** After a visit of `x`, the includes of `x` sit deeper than `x`. */
  lemma VisitedDeeper<N>(g: Graph<N>, rank: map<N, nat>, x: N, link: set<N>, w: Walk<N>, level: nat)
    requires RankedGraph(g, rank) && x in g && Fits(g, link, w.order) && PathAbove(rank, link, rank[x] + 1)
    requires Layered(g, w.order, link)
    ensures x !in link
    ensures var w1 := w.(order := Bump(w.order, x, level));
      DeeperIncludes(g, VisitAll(g, g[x], link + {x}, w1, level + 1).order.levels, x)
  {
    var w1 := w.(order := Bump(w.order, x, level));
    var r := VisitAll(g, g[x], link + {x}, w1, level + 1);
    VisitAllFrame(g, rank, g[x], link + {x}, w1, level + 1, rank[x]);
    IncludesEndDeeper(g, w.order, x, level, r.order);
  }

  /** Recording `x` and putting it on the path keeps the other files
      layered. */
  lemma BumpKeepsLayered<N>(g: Graph<N>, o: Order<N>, x: N, level: nat, link: set<N>)
    requires Layered(g, o, link)
    ensures Layered(g, Bump(o, x, level), link + {x})
  {
    var o1 := Bump(o, x, level);
    forall n | n in o1.levels && n !in link + {x}
      ensures n in g && DeeperIncludes(g, o1.levels, n)
    {
      assert n in o.levels && n !in link;
      assert DeeperIncludes(g, o.levels, n);
    }
  }

  /** Once the includes of `x` have been visited one level deeper, each of
      them sits deeper than `x`. */
  lemma IncludesEndDeeper<N>(g: Graph<N>, o: Order<N>, x: N, level: nat, r: Order<N>)
    requires x in g
    requires x in o.levels ==> DeeperIncludes(g, o.levels, x)
    requires x in r.levels && r.levels[x] == Bump(o, x, level).levels[x]
    requires forall n | n in o.levels :: n in r.levels && o.levels[n] <= r.levels[n]
    requires forall i | 0 <= i < |g[x]| :: g[x][i] in r.levels && r.levels[g[x][i]] >= level + 1
    ensures DeeperIncludes(g, r.levels, x)
  {
  }

  lemma LayeredPop<N>(g: Graph<N>, o: Order<N>, link: set<N>, x: N)
    requires Layered(g, o, link + {x}) && x in g && x in o.levels && DeeperIncludes(g, o.levels, x)
    ensures Layered(g, o, link)
  {
  }

  lemma {:induction false} VisitAllLayers<N>(g: Graph<N>, rank: map<N, nat>, xs: seq<N>, link: set<N>, w: Walk<N>, level: nat, bound: nat)
    requires RankedGraph(g, rank) && AllBelow(g, rank, xs, bound) && Fits(g, link, w.order) && PathAbove(rank, link, bound)
    requires Layered(g, w.order, link)
    ensures Layered(g, VisitAll(g, xs, link, w, level).order, link)
    decreases |g.Keys - link|, 1, |xs|
  {
    if xs != [] {
      VisitLayers(g, rank, xs[0], link, w, level);
      VisitAllLayers(g, rank, xs[1..], link, Visit(g, xs[0], link, w, level), level, bound);
    }
  }

  /** In an acyclic include graph no cycle is reported and every included
      file is recorded at a deeper level than any file that includes it. */
  lemma AcyclicGraphIsLayered<N>(g: Graph<N>, rank: map<N, nat>, entry: N)
    requires Closed(g) && entry in g && Ranked(g, rank)
    ensures var w := DependencyLevels(g, entry);
      && w.cycles == []
      && (forall n, i | n in w.order.levels && 0 <= i < |g[n]| ::
            g[n][i] in w.order.levels && w.order.levels[g[n][i]] > w.order.levels[n])
  {
    VisitFrame(g, rank, entry, {}, Walk(Order(map[], []), []), 0);
    VisitLayers(g, rank, entry, {}, Walk(Order(map[], []), []), 0);
    var w := DependencyLevels(g, entry);
    forall n, i | n in w.order.levels && 0 <= i < |g[n]|
      ensures g[n][i] in w.order.levels && w.order.levels[g[n][i]] > w.order.levels[n]
    {
      assert DeeperIncludes(g, w.order.levels, n);
    }
  }

  /** In an acyclic include graph every file is emitted before every file
      that includes it. */
  lemma DependenciesComeFirst<N>(g: Graph<N>, rank: map<N, nat>, entry: N)
    requires Closed(g) && entry in g && Ranked(g, rank)
    ensures var files := DependencyOrder(g, entry);
      forall p, q | 0 <= p < |files| && 0 <= q < |files| && files[q] in g && files[p] in g[files[q]] :: p < q
  {
    AcyclicGraphIsLayered(g, rank, entry);
    var w := DependencyLevels(g, entry);
    var files := DependencyOrder(g, entry);
    SortDescSorted(w.order.seen, w.order.levels);
    forall p, q | 0 <= p < |files| && 0 <= q < |files| && files[q] in g && files[p] in g[files[q]]
      ensures p < q
    {
      var n := files[q];
      var i :| 0 <= i < |g[n]| && g[n][i] == files[p];
      assert w.order.levels[files[p]] > w.order.levels[n];
    }
  }

  // ---------------------------------------------------------------------
  // Exact levels: every recorded level is reached along an include edge.

  /** `m` is a recorded file that includes `n`, at most one level above
      `level`. */
  ghost predicate Feeds<N>(g: Graph<N>, lv: map<N, nat>, m: N, n: N, level: nat) {
    m in lv && m in g && n in g[m] && lv[m] + 1 >= level
  }

  /** Every recorded file, except `root` while it stays at level 0, sits at
      a positive level at most one below some recorded file that includes
      it. */
  ghost predicate Supported<N>(g: Graph<N>, lv: map<N, nat>, root: N) {
    forall n | n in lv && (n != root || lv[n] > 0) :: lv[n] > 0 && exists m | m in lv :: Feeds(g, lv, m, n, lv[n])
  }

  /** How a visit is entered: the root at level 0, any other file from a
      recorded file that includes it, at most one level below that file. */
  ghost predicate Entered<N>(g: Graph<N>, lv: map<N, nat>, root: N, x: N, level: nat) {
    if level == 0 then x == root else exists m | m in lv :: Feeds(g, lv, m, x, level)
  }

  /** A witness stays one as levels grow. */
  lemma FeedsGrows<N>(g: Graph<N>, lv: map<N, nat>, r: map<N, nat>, m: N, n: N, level: nat)
    requires Feeds(g, lv, m, n, level) && m in r && r[m] >= lv[m]
    ensures Feeds(g, r, m, n, level)
  {
  }

  lemma BumpSupported<N>(g: Graph<N>, o: Order<N>, root: N, x: N, level: nat)
    requires Supported(g, o.levels, root) && Entered(g, o.levels, root, x, level)
    ensures Supported(g, Bump(o, x, level).levels, root)
  {
    var lv, r := o.levels, Bump(o, x, level).levels;
    forall n | n in r && (n != root || r[n] > 0)
      ensures r[n] > 0 && exists m | m in r :: Feeds(g, r, m, n, r[n])
    {
      if n != x || (x in lv && level <= lv[x]) {
        assert n in lv && r[n] == lv[n];
        var m :| Feeds(g, lv, m, n, lv[n]);
        FeedsGrows(g, lv, r, m, n, lv[n]);
      } else {
        assert r[x] == level;
        var m :| Feeds(g, lv, m, x, level);
        FeedsGrows(g, lv, r, m, x, level);
      }
    }
  }

  /** A visit keeps the walk supported. */
  lemma {:induction false} VisitSupported<N>(g: Graph<N>, root: N, x: N, link: set<N>, w: Walk<N>, level: nat)
    requires Closed(g) && x in g
    requires Supported(g, w.order.levels, root) && Entered(g, w.order.levels, root, x, level)
    ensures Supported(g, Visit(g, x, link, w, level).order.levels, root)
    decreases |g.Keys - link|, 0
  {
    var w1 := w.(order := Bump(w.order, x, level));
    var r := Visit(g, x, link, w, level);
    BumpSupported(g, w.order, root, x, level);
    if x in link {
      assert r.order.levels == w1.order.levels;
    } else {
      LinkShrinks(g, link, x);
      var r1 := VisitAll(g, g[x], link + {x}, w1, level + 1);
      assert r == r1;
      VisitAllSupported(g, root, x, g[x], link + {x}, w1, level + 1);
      assert Supported(g, r1.order.levels, root);
    }
  }

  /** The includes of `p`, visited one level below `p`, keep the walk
      supported: `p` is the witness for each of them. */
  lemma {:induction false} VisitAllSupported<N>(g: Graph<N>, root: N, p: N, xs: seq<N>, link: set<N>, w: Walk<N>, level: nat)
    requires Closed(g) && p in g && (forall i | 0 <= i < |xs| :: xs[i] in g && xs[i] in g[p])
    requires level > 0 && p in w.order.levels && w.order.levels[p] + 1 >= level
    requires Supported(g, w.order.levels, root)
    ensures Supported(g, VisitAll(g, xs, link, w, level).order.levels, root)
    decreases |g.Keys - link|, 1, |xs|
  {
    if xs != [] {
      var lv := w.order.levels;
      assert Feeds(g, lv, p, xs[0], level);
      var w2 := Visit(g, xs[0], link, w, level);
      VisitSupported(g, root, xs[0], link, w, level);
      assert p in w2.order.levels && w2.order.levels[p] >= lv[p];
      VisitAllSupported(g, root, p, xs[1..], link, w2, level);
    }
  }

  /** In an acyclic include graph the entry is recorded at level 0 and
      every other reached file exactly one level below the deepest reached
      file that includes it: its level is the length of the longest include
      path from the entry. */
  lemma LevelIsLongestPath<N>(g: Graph<N>, rank: map<N, nat>, entry: N)
    requires Closed(g) && entry in g && Ranked(g, rank)
    ensures var lv := DependencyLevels(g, entry).order.levels;
      && entry in lv && lv[entry] == 0
      && forall n | n in lv && n != entry ::
           && (exists m :: m in lv && m in g && n in g[m] && lv[m] + 1 == lv[n])
           && (forall m | m in lv && m in g && n in g[m] :: lv[m] + 1 <= lv[n])
  {
    var w0: Walk<N> := Walk(Order(map[], []), []);
    var lv := DependencyLevels(g, entry).order.levels;
    VisitSupported(g, entry, entry, {}, w0, 0);
    AcyclicGraphIsLayered(g, rank, entry);
    ReachableFilesExactly(g, entry);
    var below := set n | n in g.Keys && rank[n] <= rank[entry];
    assert DepsClosedSet(g, below);
    assert lv.Keys <= below;
    forall m, n | m in lv && m in g && n in g[m]
      ensures lv[m] + 1 <= lv[n]
    {
      var i :| 0 <= i < |g[m]| && g[m][i] == n;
    }
    forall n | n in lv && n != entry
      ensures exists m :: m in lv && m in g && n in g[m] && lv[m] + 1 == lv[n]
    {
      var m :| Feeds(g, lv, m, n, lv[n]);
    }
  }

  // ---------------------------------------------------------------------
  // Worked examples, over a handful of named files.

  datatype File = A | B | Entry | Left | Right | Shared

  /** Two files that include each other: one cyclical dependency is
      reported (for the entry, reached again one level down the path) and
      the entry, recorded at the deeper level, is emitted first. */
  lemma MutualIncludeExample()
    ensures var g: Graph<File> := map[A := [B], B := [A]];
      && Closed(g)
      && DependencyLevels(g, A).cycles == [A]
      && DependencyOrder(g, A) == [A, B]
  {
    var g: Graph<File> := map[A := [B], B := [A]];
    var w3 := Walk(Order(map[A := 2, B := 1], [A, B]), [A]);
    MutualIncludeWalk();
    assert Insert([A], B, w3.order.levels) == [A, B];
  }

  lemma MutualIncludeWalk()
    ensures var g: Graph<File> := map[A := [B], B := [A]];
      && Closed(g)
      && DependencyLevels(g, A) == Walk(Order(map[A := 2, B := 1], [A, B]), [A])
  {
    var g: Graph<File> := map[A := [B], B := [A]];
    var w1 := Walk(Order(map[A := 0], [A]), []);
    var w3 := Walk(Order(map[A := 2, B := 1], [A, B]), [A]);
    MutualIncludeInner();
    assert VisitAll(g, [B], {A}, w1, 1) == w3 by {
      assert [B][1..] == [];
    }
    var none: set<File> := {};
    assert none + {A} == {A};
    assert Visit(g, A, none, Walk(Order(map[], []), []), 0) == VisitAll(g, [B], {A}, w1, 1);
  }

  /** The second file, visited from the first, finds the first on the path. */
  lemma MutualIncludeInner()
    ensures var g: Graph<File> := map[A := [B], B := [A]];
      Closed(g) &&
      Visit(g, B, {A}, Walk(Order(map[A := 0], [A]), []), 1) == Walk(Order(map[A := 2, B := 1], [A, B]), [A])
  {
    var g: Graph<File> := map[A := [B], B := [A]];
    var w2 := Walk(Order(map[A := 0, B := 1], [A, B]), []);
    var w3 := Walk(Order(map[A := 2, B := 1], [A, B]), [A]);
    assert Visit(g, A, {A, B}, w2, 2) == w3;
  }

  const Diamond: Graph<File> := map[Entry := [Left, Right], Left := [Shared], Right := [Shared], Shared := []]
  const DiamondLevels: map<File, nat> := map[Entry := 0, Left := 1, Shared := 2, Right := 1]

  /** A diamond: the entry includes two files that both include a shared
      one. The shared file is recorded once, at the deepest level, and
      emitted first; the two middle files keep their discovery order. */
  lemma DiamondExample()
    ensures Closed(Diamond)
    ensures DependencyLevels(Diamond, Entry).cycles == []
    ensures DependencyOrder(Diamond, Entry) == [Shared, Left, Right, Entry]
  {
    DiamondWalk();
    DiamondSort();
  }

  /** Sorting the diamond's levels: the two files at level 1 stay in the
      order they were first recorded. */
  lemma DiamondSort()
    ensures SortDesc([Entry, Left, Shared, Right], DiamondLevels) == [Shared, Left, Right, Entry]
  {
    DiamondSortPrefix();
    assert [Entry, Left, Shared, Right][..3] == [Entry, Left, Shared];
    DiamondInsertRight();
  }

  lemma DiamondSortPrefix()
    ensures SortDesc([Entry, Left, Shared], DiamondLevels) == [Shared, Left, Entry]
  {
    DiamondSortPair();
    assert [Entry, Left, Shared][..2] == [Entry, Left];
    assert Insert([Left, Entry], Shared, DiamondLevels) == [Shared, Left, Entry];
  }

  lemma DiamondSortPair()
    ensures SortDesc([Entry, Left], DiamondLevels) == [Left, Entry]
  {
    assert [Entry, Left][..1] == [Entry];
    assert SortDesc([Entry], DiamondLevels) == [Entry];
  }

  lemma DiamondInsertRight()
    ensures Insert([Shared, Left, Entry], Right, DiamondLevels) == [Shared, Left, Right, Entry]
  {
    var lv := DiamondLevels;
    assert Insert([Entry], Right, lv) == [Right, Entry];
    assert [Left, Entry][1..] == [Entry];
    assert Insert([Left, Entry], Right, lv) == [Left, Right, Entry];
    assert [Shared, Left, Entry][1..] == [Left, Entry];
  }

  lemma DiamondWalk()
    ensures Closed(Diamond)
    ensures DependencyLevels(Diamond, Entry) == Walk(Order(DiamondLevels, [Entry, Left, Shared, Right]), [])
  {
    var w1 := Walk(Order(map[Entry := 0], [Entry]), []);
    DiamondMiddle();
    var none: set<File> := {};
    assert none + {Entry} == {Entry};
    assert Bump(Order(map[], []), Entry, 0) == w1.order;
  }

  /** The two middle files, visited in order from the entry. */
  lemma DiamondMiddle()
    ensures Closed(Diamond)
    ensures VisitAll(Diamond, [Left, Right], {Entry}, Walk(Order(map[Entry := 0], [Entry]), []), 1)
        == Walk(Order(DiamondLevels, [Entry, Left, Shared, Right]), [])
  {
    DiamondRightAll();
    DiamondLeft();
    assert [Left, Right][1..] == [Right];
  }

  lemma DiamondRightAll()
    ensures Closed(Diamond)
    ensures VisitAll(Diamond, [Right], {Entry}, Walk(Order(map[Entry := 0, Left := 1, Shared := 2], [Entry, Left, Shared]), []), 1)
        == Walk(Order(DiamondLevels, [Entry, Left, Shared, Right]), [])
  {
    DiamondRight();
    assert [Right][1..] == [];
  }

  /** The first middle file records the shared file two levels down. */
  lemma DiamondLeft()
    ensures Closed(Diamond)
    ensures Visit(Diamond, Left, {Entry}, Walk(Order(map[Entry := 0], [Entry]), []), 1)
        == Walk(Order(map[Entry := 0, Left := 1, Shared := 2], [Entry, Left, Shared]), [])
  {
    var g := Diamond;
    var w2 := Walk(Order(map[Entry := 0, Left := 1], [Entry, Left]), []);
    var w3 := Walk(Order(map[Entry := 0, Left := 1, Shared := 2], [Entry, Left, Shared]), []);
    assert Visit(g, Shared, {Entry, Left}, w2, 2) == w3;
    assert VisitAll(g, [Shared], {Entry, Left}, w2, 2) == w3 by {
      assert [Shared][1..] == [];
    }
    assert {Entry} + {Left} == {Entry, Left};
    assert Bump(Order(map[Entry := 0], [Entry]), Left, 1) == w2.order;
  }

  /** The second middle file reaches the shared file again at the same
      depth, which leaves its level alone. */
  lemma DiamondRight()
    ensures Closed(Diamond)
    ensures Visit(Diamond, Right, {Entry}, Walk(Order(map[Entry := 0, Left := 1, Shared := 2], [Entry, Left, Shared]), []), 1)
        == Walk(Order(DiamondLevels, [Entry, Left, Shared, Right]), [])
  {
    var g := Diamond;
    var w3 := Walk(Order(map[Entry := 0, Left := 1, Shared := 2], [Entry, Left, Shared]), []);
    var w4 := Walk(Order(DiamondLevels, [Entry, Left, Shared, Right]), []);
    assert Visit(g, Shared, {Entry, Right}, w4, 2) == w4 by {
      assert Bump(w4.order, Shared, 2) == w4.order;
    }
    assert VisitAll(g, [Shared], {Entry, Right}, w4, 2) == w4 by {
      assert [Shared][1..] == [];
    }
    assert {Entry} + {Right} == {Entry, Right};
    assert Bump(w3.order, Right, 1) == w4.order;
  }
}
