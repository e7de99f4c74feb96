/**
 The trace-tree renderer: spans point at their parents by id, and the tree is printed by a
 recursive visit that starts at the spans without a parent. Parents may be missing and may
 run in circles.
 */
module TraceTree {
  import opened Common

  /** An absent id or parent is empty. `text` is the name with status, duration and attributes. */
  datatype Span = Span(id: string, parent: string, text: string)

  /** Batches and resource spans hold scopes, and scopes hold spans. */
  datatype Payload = Payload(batches: seq<seq<seq<Span>>>, resources: seq<seq<seq<Span>>>)

  function Flat<T>(xss: seq<seq<T>>): seq<T> {
    if xss == [] then [] else Flat(xss[..|xss| - 1]) + xss[|xss| - 1]
  }

  /** parse_trace. */
  method ParseTrace(payload: Payload) returns (spans: seq<Span>)
    ensures spans == Flat(Flat(payload.batches)) + Flat(Flat(payload.resources))
  {
    var first := Collect(payload.batches);
    var second := Collect(payload.resources);
    spans := first + second;
  }

  method Collect(groups: seq<seq<seq<Span>>>) returns (spans: seq<Span>)
    ensures spans == Flat(Flat(groups))
  {
    spans := [];
    for i := 0 to |groups|
      invariant spans == Flat(Flat(groups[..i]))
    {
      assert groups[..i + 1][..i] == groups[..i];
      var scopes := groups[i];
      assert Flat(groups[..i]) + scopes[..0] == Flat(groups[..i]);
      for j := 0 to |scopes|
        invariant spans == Flat(Flat(groups[..i]) + scopes[..j])
      {
        var upTo := Flat(groups[..i]) + scopes[..j + 1];
        assert upTo[..|upTo| - 1] == Flat(groups[..i]) + scopes[..j];
        spans := spans + scopes[j];
      }
      assert scopes[..|scopes|] == scopes;
    }
    assert groups[..|groups|] == groups;
  }

  // ----- paths -----

  ghost predicate DistinctIds(spans: seq<Span>) {
    forall i, j | 0 <= i < j < |spans| && spans[i].id != "" :: spans[i].id != spans[j].id
  }

  /** The indices of the spans whose parent has this id. */
  function ChildrenOf(spans: seq<Span>, id: string): (r: seq<nat>)
    ensures forall i :: i in r <==> 0 <= i < |spans| && spans[i].parent == id
    ensures forall i, j | 0 <= i < j < |r| :: r[i] < r[j]
  {
    if spans == [] then []
    else
      var n := |spans| - 1;
      var before := ChildrenOf(spans[..n], id);
      assert forall i | 0 <= i < |before| :: before[i] in before;
      before + (if spans[n].parent == id then [n] else [])
  }

  function Roots(spans: seq<Span>): seq<nat> {
    ChildrenOf(spans, "")
  }

  /** What the parent table answers for a span: nothing for a span without id. */
  function Children(spans: seq<Span>, i: nat): seq<nat>
    requires i < |spans|
  {
    if spans[i].id == "" then [] else ChildrenOf(spans, spans[i].id)
  }

  type Path = p: seq<nat> | |p| > 0 witness [0]

  /** A path leads from a root through children; the tree is the set of its paths. */
  ghost predicate IsPath(spans: seq<Span>, path: seq<nat>) {
    && |path| > 0 && Last(path) < |spans|
    && if |path| == 1 then spans[Last(path)].parent == ""
       else IsPath(spans, Parent(path)) && IsChild(spans, Last(Parent(path)), Last(path))
  }

  ghost predicate IsChild(spans: seq<Span>, i: nat, j: nat)
    requires i < |spans| && j < |spans|
  {
    spans[j].parent == spans[i].id != ""
  }

  function Last(path: seq<nat>): nat
    requires |path| > 0
  {
    path[|path| - 1]
  }

  function Parent(path: seq<nat>): seq<nat>
    requires |path| > 0
  {
    path[..|path| - 1]
  }

  ghost predicate Reachable(spans: seq<Span>, i: nat) {
    exists path: Path :: IsPath(spans, path) && Last(path) == i
  }

  lemma {:induction false} PathPrefix(spans: seq<Span>, path: seq<nat>, n: nat)
    requires IsPath(spans, path) && 0 < n <= |path|
    ensures IsPath(spans, path[..n]) && path[n - 1] < |spans|
    decreases |path|
  {
    if n < |path| {
      PathPrefix(spans, Parent(path), n);
      assert Parent(path)[..n] == path[..n];
    } else {
      assert path[..n] == path;
    }
  }

  /** No path meets a span twice. */
  ghost predicate Simple(spans: seq<Span>) {
    forall path: Path | IsPath(spans, path) :: NoDuplicates(path)
  }

  /** No span that a root reaches shares a child with another one: where ids repeat, they lead nowhere twice. */
  ghost predicate Unshared(spans: seq<Span>) {
    forall i: nat, j: nat, k: nat | i < |spans| && j < |spans| && k < |spans| ::
      Reachable(spans, i) && Reachable(spans, j) && IsChild(spans, i, k) && IsChild(spans, j, k) ==> i == j
  }

  lemma DistinctIdsAreUnshared(spans: seq<Span>)
    requires DistinctIds(spans)
    ensures Unshared(spans)
  {
  }

  /** A span has one path at most, although parents may run in circles. */
  lemma {:induction false} OnePath(spans: seq<Span>, p: Path, q: Path)
    requires Unshared(spans) && IsPath(spans, p) && IsPath(spans, q) && Last(p) == Last(q)
    ensures p == q
    decreases |p|
  {
    hide Unshared;
    if |p| > 1 && |q| > 1 {
      SameParent(spans, p, q);
      OnePath(spans, Parent(p), Parent(q));
      assert p == Parent(p) + [Last(p)] && q == Parent(q) + [Last(q)];
    }
  }

  lemma SameParent(spans: seq<Span>, p: Path, q: Path)
    requires Unshared(spans) && IsPath(spans, p) && IsPath(spans, q) && Last(p) == Last(q) && |p| > 1 && |q| > 1
    ensures Last(Parent(p)) == Last(Parent(q))
  {
    assert Reachable(spans, Last(Parent(p))) && Reachable(spans, Last(Parent(q)));
    assert IsChild(spans, Last(Parent(p)), Last(p)) && IsChild(spans, Last(Parent(q)), Last(p));
  }

  lemma UnsharedIsSimple(spans: seq<Span>)
    requires Unshared(spans)
    ensures Simple(spans)
  {
    hide IsPath, Unshared;
    forall path: Path, i, j | IsPath(spans, path) && 0 <= i < j < |path|
      ensures path[i] != path[j]
    {
      PathPrefix(spans, path, i + 1);
      PathPrefix(spans, path, j + 1);
      if path[i] == path[j] {
        OnePath(spans, path[..i + 1], path[..j + 1]);
      }
    }
  }

  /** A path that meets no span twice is no longer than there are spans. */
  lemma PathIsShort(spans: seq<Span>, path: Path)
    requires Simple(spans) && IsPath(spans, path)
    ensures |path| <= |spans|
  {
    hide IsPath;
    assert NoDuplicates(path);
    forall k | 0 <= k < |path|
      ensures path[k] < |spans|
    {
      PathPrefix(spans, path, k + 1);
    }
    Pigeonhole(path, |spans|);
  }

  lemma {:induction false} Pigeonhole(xs: seq<nat>, n: nat)
    requires forall i, j | 0 <= i < j < |xs| :: xs[i] != xs[j]
    requires forall i | 0 <= i < |xs| :: xs[i] < n
    ensures |xs| <= n
    decreases n
  {
    if |xs| > 0 {
      assert xs[0] < n;
      if i :| 0 <= i < |xs| && xs[i] == n - 1 {
        var ys := xs[..i] + xs[i + 1..];
        assert forall k | 0 <= k < |ys| :: ys[k] == xs[if k < i then k else k + 1];
        Pigeonhole(ys, n - 1);
      } else {
        Pigeonhole(xs, n - 1);
      }
    }
  }

  // ----- the order of the visit -----

  /** The paths through one span, in the order in which they are visited. */
  ghost function Below(spans: seq<Span>, path: seq<nat>): (r: seq<Path>)
    requires Simple(spans) && IsPath(spans, path)
    ensures forall p | p in r :: IsPath(spans, p) && path <= p
    decreases |spans| - |path|, 1, 0
  {
    [path] + BelowChildren(spans, path, |Children(spans, Last(path))|)
  }

  /** The paths through the first `k` children. */
  ghost function BelowChildren(spans: seq<Span>, path: seq<nat>, k: nat): (r: seq<Path>)
    requires Simple(spans) && IsPath(spans, path) && k <= |Children(spans, Last(path))|
    ensures forall p | p in r :: IsPath(spans, p) && path < p
    decreases |spans| - |path|, 0, k
  {
    if k == 0 then []
    else
      var next := Extend(spans, path, k - 1);
      PathIsShort(spans, next);
      BelowChildren(spans, path, k - 1) + Below(spans, next)
  }

  ghost function Extend(spans: seq<Span>, path: seq<nat>, k: nat): (next: seq<nat>)
    requires IsPath(spans, path) && k < |Children(spans, Last(path))|
    ensures IsPath(spans, next) && Parent(next) == path && path < next && |next| == |path| + 1
  {
    var child := Children(spans, Last(path))[k];
    assert child in Children(spans, Last(path));
    assert Parent(path + [child]) == path;
    path + [child]
  }

  /** The paths through the first `k` roots. */
  ghost function Order(spans: seq<Span>, k: nat): (r: seq<Path>)
    requires Simple(spans) && k <= |Roots(spans)|
    ensures forall p | p in r :: IsPath(spans, p)
  {
    if k == 0 then [] else Order(spans, k - 1) + Below(spans, Start(spans, k - 1))
  }

  ghost function Start(spans: seq<Span>, k: nat): (path: seq<nat>)
    requires k < |Roots(spans)|
    ensures IsPath(spans, path) && |path| == 1
  {
    assert Roots(spans)[k] in Roots(spans);
    [Roots(spans)[k]]
  }

  /** All paths of the tree, in the order of the visit. */
  ghost function AllPaths(spans: seq<Span>): (r: seq<Path>)
    requires Simple(spans)
    ensures forall p | p in r :: IsPath(spans, p)
  {
    Order(spans, |Roots(spans)|)
  }

  lemma {:induction false} ChildIncluded(spans: seq<Span>, path: seq<nat>, k: nat, n: nat, p: seq<nat>)
    requires Simple(spans) && IsPath(spans, path) && k < n <= |Children(spans, Last(path))|
    requires p in Below(spans, Extend(spans, path, k))
    ensures p in BelowChildren(spans, path, n)
    decreases n
  {
    hide IsPath, Children, Extend;
    if k < n - 1 {
      ChildIncluded(spans, path, k, n - 1, p);
    }
  }

  /** Every path that goes on from this one is visited below it. */
  lemma {:induction false} InBelow(spans: seq<Span>, path: seq<nat>, p: seq<nat>)
    requires Simple(spans) && IsPath(spans, path) && IsPath(spans, p) && path <= p
    ensures p in Below(spans, path)
    decreases |p| - |path|
  {
    if |p| == |path| {
      assert p == path;
    } else {
      var next := p[..|path| + 1];
      PathPrefix(spans, p, |path| + 1);
      assert Parent(next) == path;
      var children := Children(spans, Last(path));
      assert Last(next) in children;
      var k :| 0 <= k < |children| && children[k] == Last(next);
      assert Extend(spans, path, k) == next;
      InBelow(spans, next, p);
      ChildIncluded(spans, path, k, |children|, p);
    }
  }

  lemma {:induction false} StartIncluded(spans: seq<Span>, k: nat, n: nat, p: seq<nat>)
    requires Simple(spans) && k < n <= |Roots(spans)| && p in Below(spans, Start(spans, k))
    ensures p in Order(spans, n)
  {
    hide IsPath, Roots, Start, Below;
    if k < n - 1 {
      StartIncluded(spans, k, n - 1, p);
    }
  }

  lemma RootPath(spans: seq<Span>, path: seq<nat>) returns (k: nat)
    requires IsPath(spans, path) && |path| == 1
    ensures k < |Roots(spans)| && Start(spans, k) == path
  {
    assert Last(path) in Roots(spans);
    k :| k < |Roots(spans)| && Roots(spans)[k] == Last(path);
  }

  /** The visit misses no path. */
  lemma EveryPathIsVisited(spans: seq<Span>, p: Path)
    requires Simple(spans) && IsPath(spans, p)
    ensures p in AllPaths(spans)
  {
    hide Simple, Below, Order, IsPath, Roots;
    var start := p[..1];
    PathPrefix(spans, p, 1);
    var k := RootPath(spans, start);
    InBelow(spans, start, p);
    StartIncluded(spans, k, |Roots(spans)|, p);
  }

  lemma Distinct<T>(xs: seq<T>, ys: seq<T>)
    requires NoDuplicates(xs) && NoDuplicates(ys) && forall x | x in xs :: x !in ys
    ensures NoDuplicates(xs + ys)
  {
    forall i, j | 0 <= i < j < |xs + ys|
      ensures (xs + ys)[i] != (xs + ys)[j]
    {
      if i < |xs| <= j {
        assert xs[i] in xs && ys[j - |xs|] in ys;
      }
    }
  }

  /** What is visited through the first `k` children goes through one of them. */
  lemma {:induction false} ThroughChild(spans: seq<Span>, path: seq<nat>, k: nat, p: seq<nat>) returns (m: nat)
    requires Simple(spans) && IsPath(spans, path) && k <= |Children(spans, Last(path))|
    requires p in BelowChildren(spans, path, k)
    ensures m < k && Extend(spans, path, m) <= p
    decreases k
  {
    hide IsPath, Simple, Children, Extend;
    if p in Below(spans, Extend(spans, path, k - 1)) {
      m := k - 1;
    } else {
      m := ThroughChild(spans, path, k - 1, p);
    }
  }

  lemma ExtensionsDiffer(spans: seq<Span>, path: seq<nat>, m: nat, k: nat)
    requires IsPath(spans, path) && m < k < |Children(spans, Last(path))|
    ensures Extend(spans, path, m)[|path|] != Extend(spans, path, k)[|path|]
  {
  }

  lemma {:induction false} BelowIsDistinct(spans: seq<Span>, path: seq<nat>)
    requires Simple(spans) && IsPath(spans, path)
    ensures NoDuplicates(Below(spans, path))
    decreases |spans| - |path|, 1, 0
  {
    var n := |Children(spans, Last(path))|;
    BelowChildrenAreDistinct(spans, path, n);
    Distinct([path], BelowChildren(spans, path, n));
  }

  lemma {:induction false} BelowChildrenAreDistinct(spans: seq<Span>, path: seq<nat>, k: nat)
    requires Simple(spans) && IsPath(spans, path) && k <= |Children(spans, Last(path))|
    ensures NoDuplicates(BelowChildren(spans, path, k))
    decreases |spans| - |path|, 0, k
  {
    hide Simple, Below, IsPath, Extend, Children;
    if k > 0 {
      var next := Extend(spans, path, k - 1);
      PathIsShort(spans, next);
      BelowChildrenAreDistinct(spans, path, k - 1);
      BelowIsDistinct(spans, next);
      forall p | p in BelowChildren(spans, path, k - 1)
        ensures p !in Below(spans, next)
      {
        var m := ThroughChild(spans, path, k - 1, p);
        ExtensionsDiffer(spans, path, m, k - 1);
      }
      Distinct(BelowChildren(spans, path, k - 1), Below(spans, next));
    }
  }

  lemma {:induction false} ThroughStart(spans: seq<Span>, k: nat, p: seq<nat>) returns (m: nat)
    requires Simple(spans) && k <= |Roots(spans)| && p in Order(spans, k)
    ensures m < k && Start(spans, m) <= p
  {
    hide IsPath, Simple, Below, Start, Roots;
    if p in Below(spans, Start(spans, k - 1)) {
      m := k - 1;
    } else {
      m := ThroughStart(spans, k - 1, p);
    }
  }

  lemma {:induction false} OrderIsDistinct(spans: seq<Span>, k: nat)
    requires Simple(spans) && k <= |Roots(spans)|
    ensures NoDuplicates(Order(spans, k))
  {
    hide IsPath, Below;
    if k > 0 {
      var start := Start(spans, k - 1);
      OrderIsDistinct(spans, k - 1);
      BelowIsDistinct(spans, start);
      forall p | p in Order(spans, k - 1)
        ensures p !in Below(spans, start)
      {
        var m := ThroughStart(spans, k - 1, p);
        assert Start(spans, m)[0] != start[0];
      }
      Distinct(Order(spans, k - 1), Below(spans, start));
    }
  }

  /** The spans in the order of the lines. */
  ghost function Printed(spans: seq<Span>): (r: seq<nat>)
    requires Simple(spans)
    ensures |r| == |AllPaths(spans)|
    ensures forall k | 0 <= k < |r| :: r[k] == Last(AllPaths(spans)[k])
  {
    var paths := AllPaths(spans);
    seq(|paths|, k requires 0 <= k < |paths| => Last(paths[k]))
  }

  /** Exactly the spans that a root reaches are printed. */
  lemma ReachableIsPrinted(spans: seq<Span>)
    requires Simple(spans)
    ensures forall i :: i in Printed(spans) <==> Reachable(spans, i)
  {
    hide Order, IsPath, Below, Roots, Simple;
    var paths := AllPaths(spans);
    forall i
      ensures i in Printed(spans) <==> Reachable(spans, i)
    {
      if k :| 0 <= k < |paths| && Printed(spans)[k] == i {
        assert paths[k] in paths;
      }
      if Reachable(spans, i) {
        var p: Path :| IsPath(spans, p) && Last(p) == i;
        EveryPathIsVisited(spans, p);
        var k :| 0 <= k < |paths| && paths[k] == p;
        assert Printed(spans)[k] == i;
      }
    }
  }

  /** Two paths to one span are two lines for it. */
  lemma TwoPathsTwoLines(spans: seq<Span>, p: Path, q: Path)
    requires Simple(spans) && IsPath(spans, p) && IsPath(spans, q) && p != q && Last(p) == Last(q)
    ensures !NoDuplicates(Printed(spans))
  {
    hide Order, IsPath, Below, Roots, Simple;
    EveryPathIsVisited(spans, p);
    EveryPathIsVisited(spans, q);
    var paths := AllPaths(spans);
    var i :| 0 <= i < |paths| && paths[i] == p;
    var j :| 0 <= j < |paths| && paths[j] == q;
    assert Printed(spans)[i] == Printed(spans)[j] && i != j;
  }

  /** When the visit ends, no span is printed twice exactly when no two reached spans share a child. */
  lemma PrintedOnceIff(spans: seq<Span>)
    requires Simple(spans)
    ensures NoDuplicates(Printed(spans)) <==> Unshared(spans)
  {
    hide Order, Below, Roots, Simple, AllPaths;
    var paths := AllPaths(spans);
    OrderIsDistinct(spans, |Roots(spans)|);
    if Unshared(spans) {
      PrintedOnce(spans);
    } else {
      var i: nat, j: nat, k: nat :| i < |spans| && j < |spans| && k < |spans| && i != j
        && Reachable(spans, i) && Reachable(spans, j) && IsChild(spans, i, k) && IsChild(spans, j, k);
      var p: Path :| IsPath(spans, p) && Last(p) == i;
      var q: Path :| IsPath(spans, q) && Last(q) == j;
      assert Parent(p + [k]) == p && Parent(q + [k]) == q;
      TwoPathsTwoLines(spans, p + [k], q + [k]);
    }
  }

  lemma PrintedOnce(spans: seq<Span>)
    requires Simple(spans) && Unshared(spans)
    ensures NoDuplicates(Printed(spans))
  {
    hide Order, IsPath, Below, Roots, Simple, Unshared;
    var paths := AllPaths(spans);
    OrderIsDistinct(spans, |Roots(spans)|);
    forall i, j | 0 <= i < j < |paths|
      ensures Last(paths[i]) != Last(paths[j])
    {
      assert paths[i] in paths && paths[j] in paths;
      if Last(paths[i]) == Last(paths[j]) {
        OnePath(spans, paths[i], paths[j]);
      }
    }
  }

  /** With distinct ids every span that a root reaches is printed exactly once, and no other. */
  lemma EachReachableOnce(spans: seq<Span>)
    requires DistinctIds(spans)
    ensures Simple(spans)
    ensures NoDuplicates(Printed(spans))
    ensures forall i :: i in Printed(spans) <==> Reachable(spans, i)
  {
    hide DistinctIds, Simple, Unshared;
    DistinctIdsAreUnshared(spans);
    UnsharedIsSimple(spans);
    PrintedOnceIff(spans);
    ReachableIsPrinted(spans);
  }

  // ----- lines -----

  /** Whether no later span has the same parent. */
  ghost predicate IsLast(spans: seq<Span>, i: nat)
    requires i < |spans|
  {
    forall j | i < j < |spans| :: spans[j].parent != spans[i].parent
  }

  const BAR := "\U{2502}   "
  const GAP := "    "
  const CORNER := "\U{2514}\U{2500}\U{2500} "
  const TEE := "\U{251C}\U{2500}\U{2500} "

  /** Four characters for each ancestor. */
  ghost function Prefix(spans: seq<Span>, path: seq<nat>): (r: string)
    requires IsPath(spans, path)
    ensures |r| == 4 * (|path| - 1)
  {
    if |path| == 1 then "" else Prefix(spans, Parent(path)) + (if IsLast(spans, Last(Parent(path))) then GAP else BAR)
  }

  ghost function LineOf(spans: seq<Span>, path: seq<nat>): string
    requires IsPath(spans, path)
  {
    Prefix(spans, path) + (if IsLast(spans, Last(path)) then CORNER else TEE) + spans[Last(path)].text
  }

  /** The four characters for one ancestor tell whether a later span has the same parent as it. */
  lemma {:induction false} PrefixAt(spans: seq<Span>, path: seq<nat>, k: nat)
    requires IsPath(spans, path) && k < |path| - 1
    ensures path[k] < |spans|
    ensures Prefix(spans, path)[4 * k..4 * k + 4]
      == if IsLast(spans, path[k]) then "    " else "\U{2502}   "
    decreases |path|
  {
    var before := Prefix(spans, Parent(path));
    if k == |path| - 2 {
      assert |before| == 4 * k;
    } else {
      PrefixAt(spans, Parent(path), k);
      assert Prefix(spans, path)[4 * k..4 * k + 4] == before[4 * k..4 * k + 4];
    }
  }

  /** A line is the prefix, a corner or a branch, and the text of its span. */
  lemma LineAt(spans: seq<Span>, path: seq<nat>)
    requires IsPath(spans, path)
    ensures var line, i, n := LineOf(spans, path), path[|path| - 1], 4 * (|path| - 1);
      && |line| >= n + 4 && line[..n] == Prefix(spans, path)
      && line[n..n + 4] == (if exists j :: i < j < |spans| && spans[j].parent == spans[i].parent
                            then "\U{251C}\U{2500}\U{2500} " else "\U{2514}\U{2500}\U{2500} ")
      && line[n + 4..] == spans[i].text
  {
    assert IsLast(spans, Last(path)) <==>
      !exists j :: Last(path) < j < |spans| && spans[j].parent == spans[Last(path)].parent;
  }

  ghost function LinesOf(spans: seq<Span>, paths: seq<Path>): (r: seq<string>)
    requires forall p | p in paths :: IsPath(spans, p)
    ensures |r| == |paths|
  {
    seq(|paths|, k requires 0 <= k < |paths| => assert paths[k] in paths; LineOf(spans, paths[k]))
  }

  lemma LinesOfConcat(spans: seq<Span>, p: seq<Path>, q: seq<Path>)
    requires forall x | x in p :: IsPath(spans, x)
    requires forall x | x in q :: IsPath(spans, x)
    ensures LinesOf(spans, p + q) == LinesOf(spans, p) + LinesOf(spans, q)
  {
    hide IsPath, LineOf;
  }

  // ----- the renderer -----

  datatype Error = NoSpans

  class Renderer {
    const spans: seq<Span>
    var byParent: map<string, seq<nat>>
    var roots: seq<nat>
    var lines: seq<string>

    /** The parent table answers for every id; the roots are the spans without a parent. */
    ghost predicate Valid()
      reads this
    {
      && Simple(spans)
      && roots == Roots(spans)
      && Answers(byParent, spans)
    }

    constructor (traceId: string, spans: seq<Span>)
      requires Simple(spans)
      ensures Valid() && this.spans == spans && lines == ["TRACE=" + traceId]
    {
      this.spans := spans;
      byParent, roots := map[], [];
      lines := ["TRACE=" + traceId];
      new;
      Register();
    }

    method Register()
      requires Simple(spans) && byParent == map[] && roots == []
      modifies this`byParent, this`roots
      ensures Valid()
    {
      hide Answers, Answer, ChildrenOf, Simple;
      NoAnswersYet(spans);
      for i := 0 to |spans|
        invariant roots == ChildrenOf(spans[..i], "")
        invariant Answers(byParent, spans[..i])
      {
        AnswersGrow(byParent, spans, i);
        var parent := spans[i].parent;
        if parent != "" {
          byParent := byParent[parent := Answer(byParent, parent) + [i]];
        } else {
          roots := roots + [i];
        }
      }
      assert spans[..|spans|] == spans;
    }

    /** visit: one line for the span, then its children. */
    method Visit(i: nat, prefix: string, last: bool, ghost path: seq<nat>)
      requires Valid() && IsPath(spans, path) && Last(path) == i < |spans|
      requires prefix == Prefix(spans, path) && last == IsLast(spans, i)
      modifies this`lines
      ensures lines == old(lines) + LinesOf(spans, Below(spans, path))
      decreases |spans| - |path|
    {
      hide IsPath, Below, BelowChildren, Prefix, IsLast, Extend, ChildrenOf, Simple, LinesOf, Answers, Answer, Children;
      lines := lines + [prefix + (if last then CORNER else TEE) + spans[i].text];
      var children := if spans[i].id == "" then [] else Answer(byParent, spans[i].id);
      AnswersAt(byParent, spans, i);
      NoChildYet(spans, path);
      for index := 0 to |children|
        invariant lines == old(lines) + [LineOf(spans, path)] + LinesOf(spans, BelowChildren(spans, path, index))
      {
        ghost var next := Extend(spans, path, index);
        NextChild(spans, path, index);
        Visit(children[index], prefix + (if last then GAP else BAR), index == |children| - 1, next);
      }
      FirstLine(spans, path);
    }

    /** The loop over the roots. */
    method VisitRoots()
      requires Valid()
      modifies this`lines
      ensures lines == old(lines) + LinesOf(spans, AllPaths(spans))
    {
      hide IsPath, Below, Prefix, IsLast, Start, ChildrenOf, Simple, LinesOf, Answers, Order, Roots;
      NoRootYet(spans);
      for index := 0 to |roots|
        invariant lines == old(lines) + LinesOf(spans, Order(spans, index))
      {
        ghost var start := Start(spans, index);
        NextRoot(spans, index);
        Visit(roots[index], "", index == |roots| - 1, start);
      }
    }
  }

  ghost predicate Answers(byParent: map<string, seq<nat>>, spans: seq<Span>) {
    forall id | id != "" :: Answer(byParent, id) == ChildrenOf(spans, id)
  }

  lemma NoAnswersYet(spans: seq<Span>)
    ensures Answers(map[], spans[..0]) && ChildrenOf(spans[..0], "") == []
  {
  }

  lemma AnswersAt(byParent: map<string, seq<nat>>, spans: seq<Span>, i: nat)
    requires Answers(byParent, spans) && i < |spans|
    ensures (if spans[i].id == "" then [] else Answer(byParent, spans[i].id)) == Children(spans, i)
  {
    hide ChildrenOf;
  }

  lemma ChildrenGrow(spans: seq<Span>, i: nat, id: string)
    requires i < |spans|
    ensures ChildrenOf(spans[..i + 1], id) == ChildrenOf(spans[..i], id) + (if spans[i].parent == id then [i] else [])
  {
    assert spans[..i + 1][..i] == spans[..i];
  }

  lemma AnswersGrow(byParent: map<string, seq<nat>>, spans: seq<Span>, i: nat)
    requires i < |spans| && Answers(byParent, spans[..i])
    ensures var parent := spans[i].parent;
      && (parent != "" ==> Answers(byParent[parent := Answer(byParent, parent) + [i]], spans[..i + 1]))
      && (parent == "" ==> Answers(byParent, spans[..i + 1]))
      && ChildrenOf(spans[..i + 1], "") == ChildrenOf(spans[..i], "") + (if parent == "" then [i] else [])
  {
    hide ChildrenOf;
    ChildrenGrow(spans, i, "");
    var parent := spans[i].parent;
    var grown := byParent[parent := Answer(byParent, parent) + [i]];
    forall id | id != ""
      ensures parent != "" ==> Answer(grown, id) == ChildrenOf(spans[..i + 1], id)
      ensures parent == "" ==> Answer(byParent, id) == ChildrenOf(spans[..i + 1], id)
    {
      ChildrenGrow(spans, i, id);
      assert Answer(byParent, id) == ChildrenOf(spans[..i], id);
    }
  }

  lemma NoChildYet(spans: seq<Span>, path: seq<nat>)
    requires Simple(spans) && IsPath(spans, path)
    ensures LinesOf(spans, BelowChildren(spans, path, 0)) == []
  {
  }

  /** The line of a span stands before those of its children. */
  lemma FirstLine(spans: seq<Span>, path: seq<nat>)
    requires Simple(spans) && IsPath(spans, path)
    ensures LinesOf(spans, Below(spans, path))
         == [LineOf(spans, path)] + LinesOf(spans, BelowChildren(spans, path, |Children(spans, Last(path))|))
  {
    hide LineOf;
    LinesOfConcat(spans, [path], BelowChildren(spans, path, |Children(spans, Last(path))|));
    assert LinesOf(spans, [path]) == [LineOf(spans, path)];
  }

  /** What a visit hands to its next child, and what the child adds. */
  lemma NextChild(spans: seq<Span>, path: seq<nat>, k: nat)
    requires Simple(spans) && IsPath(spans, path) && k < |Children(spans, Last(path))|
    ensures var next := Extend(spans, path, k);
      && |path| < |next| <= |spans|
      && Last(next) == Children(spans, Last(path))[k] < |spans|
      && (IsLast(spans, Last(next)) <==> k == |Children(spans, Last(path))| - 1)
      && Prefix(spans, next) == Prefix(spans, path) + (if IsLast(spans, Last(path)) then GAP else BAR)
      && LinesOf(spans, BelowChildren(spans, path, k + 1))
      == LinesOf(spans, BelowChildren(spans, path, k)) + LinesOf(spans, Below(spans, next))
  {
    hide Below, LineOf;
    var next := Extend(spans, path, k);
    PathIsShort(spans, next);
    LastAmong(spans, spans[Last(path)].id, k);
    LinesOfConcat(spans, BelowChildren(spans, path, k), Below(spans, next));
  }

  /** A span is the last one of its parent exactly when it stands last in the parent's list. */
  lemma LastAmong(spans: seq<Span>, id: string, k: nat)
    requires k < |ChildrenOf(spans, id)|
    ensures ChildrenOf(spans, id)[k] in ChildrenOf(spans, id)
    ensures IsLast(spans, ChildrenOf(spans, id)[k]) <==> k == |ChildrenOf(spans, id)| - 1
  {
    var all := ChildrenOf(spans, id);
    assert all[k] in all && all[|all| - 1] in all;
    forall j | all[k] < j < |spans| && spans[j].parent == id
      ensures k < |all| - 1
    {
      assert j in all;
    }
  }

  function Answer(byParent: map<string, seq<nat>>, id: string): seq<nat> {
    if id in byParent then byParent[id] else []
  }

  lemma NoRootYet(spans: seq<Span>)
    requires Simple(spans)
    ensures LinesOf(spans, Order(spans, 0)) == []
  {
  }

  lemma NextRoot(spans: seq<Span>, k: nat)
    requires Simple(spans) && k < |Roots(spans)|
    ensures var start := Start(spans, k);
      && Last(start) == Roots(spans)[k] < |spans|
      && (IsLast(spans, Last(start)) <==> k == |Roots(spans)| - 1)
      && Prefix(spans, start) == ""
      && LinesOf(spans, Order(spans, k + 1)) == LinesOf(spans, Order(spans, k)) + LinesOf(spans, Below(spans, start))
  {
    hide Below, LineOf;
    LastAmong(spans, "", k);
    LinesOfConcat(spans, Order(spans, k), Below(spans, Start(spans, k)));
  }

  /** render, with the lines still apart: the heading, then one line for every path of the tree. */
  method Render(traceId: string, spans: seq<Span>) returns (r: Result<seq<string>, Error>)
    requires Simple(spans)
    ensures r == if spans == [] then Err(NoSpans) else Ok(["TRACE=" + traceId] + LinesOf(spans, AllPaths(spans)))
  {
    if spans == [] {
      return Err(NoSpans);
    }
    hide LinesOf, AllPaths;
    var renderer := new Renderer(traceId, spans);
    renderer.VisitRoots();
    r := Ok(renderer.lines);
  }

  // ----- when the visit ends -----

  /** A path that meets a span twice can go round once more. */
  lemma {:induction false} GoRound(spans: seq<Span>, path: Path, i: nat, j: nat, q: Path)
    requires IsPath(spans, path) && IsPath(spans, q) && i <= j < |path| && Last(q) == path[i]
    ensures var longer := q + path[i + 1..j + 1];
      IsPath(spans, longer) && Last(longer) == path[j]
    decreases j
  {
    var longer := q + path[i + 1..j + 1];
    if i == j {
      assert longer == q;
    } else {
      GoRound(spans, path, i, j - 1, q);
      PathPrefix(spans, path, j + 1);
      assert Parent(path[..j + 1]) == path[..j];
      assert Parent(longer) == q + path[i + 1..j];
    }
  }

  lemma {:induction false} RoundAndRound(spans: seq<Span>, path: Path, i: nat, j: nat, n: nat) returns (q: Path)
    requires IsPath(spans, path) && i < j < |path| && path[i] == path[j]
    ensures IsPath(spans, q) && |q| > n && Last(q) == path[i]
  {
    if n == 0 {
      PathPrefix(spans, path, i + 1);
      q := path[..i + 1];
    } else {
      var shorter := RoundAndRound(spans, path, i, j, n - 1);
      GoRound(spans, path, i, j, shorter);
      q := shorter + path[i + 1..j + 1];
    }
  }

  /**
   The visit follows paths, so it ends exactly when their length is bounded: when no path
   meets a span twice. The number of spans is then a bound.
   */
  lemma VisitEndsIff(spans: seq<Span>)
    ensures (exists n: nat :: Bounds(spans, n)) <==> Simple(spans)
    ensures Simple(spans) <==> Bounds(spans, |spans|)
  {
    hide IsPath;
    if Simple(spans) {
      forall path: Path | IsPath(spans, path)
        ensures |path| <= |spans|
      {
        PathIsShort(spans, path);
      }
      assert Bounds(spans, |spans|);
    } else {
      var path: Path :| IsPath(spans, path) && !NoDuplicates(path);
      var i: nat, j: nat :| i < j < |path| && path[i] == path[j];
      forall n: nat
        ensures !Bounds(spans, n)
      {
        var q := RoundAndRound(spans, path, i, j, n);
      }
    }
  }

  ghost predicate Bounds(spans: seq<Span>, n: nat) {
    forall path: Path | IsPath(spans, path) :: |path| <= n
  }

  /** One id on a span and its parent is enough for a visit without end, if a root bears it. */
  lemma SharedIdNeverEnds(spans: seq<Span>, i: nat, j: nat)
    requires i < |spans| && j < |spans| && spans[i].parent == "" && spans[i].id != ""
    requires spans[j].id == spans[j].parent == spans[i].id
    ensures !Simple(spans)
  {
    var path: Path := [i, j, j];
    assert Parent(path) == [i, j] && Parent([i, j]) == [i];
    assert IsPath(spans, [i]) && IsPath(spans, [i, j]) && IsPath(spans, path);
    assert path[1] == path[2];
  }

  /** Ids that no span names as its parent may repeat. */
  lemma LeavesMayShareIds(spans: seq<Span>)
    requires forall i, j, k | 0 <= i < j < |spans| && 0 <= k < |spans| ::
      spans[i].id == spans[j].id && spans[k].parent == spans[i].id ==> spans[i].id == ""
    ensures Unshared(spans) && Simple(spans)
  {
    UnsharedIsSimple(spans);
  }
}
