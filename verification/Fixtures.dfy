/** The fixture planner (internal/fixtures/plan.go): Kahn's algorithm with a re-sorted ready list.
    Dependencies are a graph from a fixture's name to the names it depends on. */
module Fixtures {
  import opened Wrappers
  import opened Ordering

  datatype Node = Node(name: string, dependsOn: seq<string>)

  datatype PlanError =
    | NameRequired
    | DuplicateName(name: string)
    | UnknownDependency(name: string, dependency: string)
    | DependencyCycle

  type Graph = map<string, seq<string>>

  function Names(nodes: seq<Node>): (r: seq<string>)
    ensures |r| == |nodes| && forall i :: 0 <= i < |r| ==> r[i] == nodes[i].name
  {
    seq(|nodes|, i requires 0 <= i < |nodes| => nodes[i].name)
  }

  ghost predicate Distinct(s: seq<string>) {
    forall i, j :: 0 <= i < j < |s| ==> s[i] != s[j]
  }

  ghost predicate UsableNames(nodes: seq<Node>) {
    Distinct(Names(nodes)) && forall n :: n in nodes ==> n.name != ""
  }

  ghost function GraphOf(nodes: seq<Node>): Graph
    requires UsableNames(nodes)
  {
    assert forall a, b :: a in nodes && b in nodes && a.name == b.name ==> a == b by {
      forall a, b | a in nodes && b in nodes && a.name == b.name ensures a == b {
        SameName(nodes, a, b);
      }
    }
    map n | n in nodes :: n.name := n.dependsOn
  }

  ghost predicate Closed(g: Graph) {
    forall x, d :: x in g && d in g[x] ==> d in g
  }

  ghost predicate WellFormed(nodes: seq<Node>) {
    UsableNames(nodes) && Closed(GraphOf(nodes))
  }

  // ---------- orders and cycles ----------

  ghost function Elements(s: seq<string>): set<string> {
    set x | x in s
  }

  /** Not yet emitted, with every dependency emitted. */
  ghost predicate Available(g: Graph, x: string, done: set<string>) {
    x in g && x !in done && forall d :: d in g[x] ==> d in done
  }

  /** Every fixture exactly once, each after all of its dependencies. */
  ghost predicate Topological(g: Graph, order: seq<string>) {
    Elements(order) == g.Keys && forall k :: 0 <= k < |order| ==> Available(g, order[k], Elements(order[..k]))
  }

  /** Lexicographic comparison of two orders, by their first difference. */
  ghost predicate Before(a: seq<string>, b: seq<string>, k: nat) {
    k < |a| && k < |b| && a[..k] == b[..k] && a[k] != b[k] && StringLeq(a[k], b[k])
  }

  ghost predicate LeastTopological(g: Graph, order: seq<string>) {
    Topological(g, order) && forall t :: Topological(g, t) ==> t == order || exists k: nat :: Before(order, t, k)
  }

  ghost predicate IsCycle(g: Graph, p: seq<string>) {
    && p != []
    && (forall i :: 0 <= i < |p| ==> p[i] in g)
    && (forall i :: 0 <= i < |p| - 1 ==> p[i + 1] in g[p[i]])
    && p[0] in g[p[|p| - 1]]
  }

  ghost predicate Cyclic(g: Graph) {
    exists p :: IsCycle(g, p)
  }

  /** What the loop builds: each element is the least of those available when it is emitted. */
  ghost predicate Greedy(g: Graph, order: seq<string>) {
    forall k :: 0 <= k < |order| ==>
      && Available(g, order[k], Elements(order[..k]))
      && forall x :: Available(g, x, Elements(order[..k])) ==> StringLeq(order[k], x)
  }

  lemma AvailableIsDistinct(g: Graph, order: seq<string>)
    requires forall k :: 0 <= k < |order| ==> Available(g, order[k], Elements(order[..k]))
    ensures Distinct(order)
  {
    forall i, j | 0 <= i < j < |order| ensures order[i] != order[j] {
      assert order[..j][i] == order[i];
      assert order[i] in Elements(order[..j]);
      assert Available(g, order[j], Elements(order[..j]));
    }
  }

  lemma {:induction false} DistinctSize(s: seq<string>)
    requires Distinct(s)
    ensures |Elements(s)| == |s|
  {
    if s != [] {
      var last := |s| - 1;
      DistinctSize(s[..last]);
      assert Elements(s) == Elements(s[..last]) + {s[last]};
    } else {
      assert Elements(s) == {};
    }
  }

  lemma SubsetSize(a: set<string>, b: set<string>)
    requires a <= b
    ensures |a| <= |b|
    ensures |a| == |b| ==> a == b
  {
    assert b == a + (b - a);
    assert |b| == |a| + |b - a|;
  }

  lemma GreedyElements(g: Graph, order: seq<string>)
    requires Greedy(g, order)
    ensures |order| <= |g|
    ensures |order| == |g| <==> Elements(order) == g.Keys
  {
    AvailableIsDistinct(g, order);
    DistinctSize(order);
    assert Elements(order) <= g.Keys by {
      forall x | x in Elements(order) ensures x in g {
        var k :| 0 <= k < |order| && order[k] == x;
        assert Available(g, order[k], Elements(order[..k]));
      }
    }
    SubsetSize(Elements(order), g.Keys);
  }

  /** The greedy choice gives the lexicographically least order of all. */
  lemma GreedyIsLeast(g: Graph, order: seq<string>)
    requires Greedy(g, order) && |order| == |g|
    ensures LeastTopological(g, order)
  {
    GreedyElements(g, order);
    forall t | Topological(g, t) && t != order ensures exists k: nat :: Before(order, t, k) {
      AvailableIsDistinct(g, t);
      AvailableIsDistinct(g, order);
      DistinctSize(t);
      DistinctSize(order);
      var k := FirstDifference(order, t);
      assert Available(g, t[k], Elements(order[..k]));
      assert Before(order, t, k);
    }
  }

  lemma FirstDifference(a: seq<string>, b: seq<string>) returns (k: nat)
    requires |a| == |b| && a != b
    ensures k < |a| && a[..k] == b[..k] && a[k] != b[k]
  {
    k := 0;
    while k < |a| && a[k] == b[k]
      invariant k <= |a| && a[..k] == b[..k]
    {
      k := k + 1;
    }
  }

  /** A topological order leaves no room for a cycle: along it positions would fall for ever. */
  lemma TopologicalIsAcyclic(g: Graph, order: seq<string>)
    requires Topological(g, order)
    ensures !Cyclic(g)
  {
    forall p | IsCycle(g, p) ensures false {
      WalkDoesNotReturn(g, order, p);
    }
  }

  lemma WalkDoesNotReturn(g: Graph, order: seq<string>, p: seq<string>)
    requires Topological(g, order) && p != []
    requires forall k :: 0 <= k < |p| ==> p[k] in g
    requires forall k :: 0 <= k < |p| - 1 ==> p[k + 1] in g[p[k]]
    ensures p[0] !in g[p[|p| - 1]]
  {
    assert p[0] in Elements(order);
    var at :| 0 <= at < |order| && order[at] == p[0];
    var here := Descend(g, order, p, at, |p| - 1);
    AvailableIsDistinct(g, order);
    if p[0] in g[order[here]] {
      var there := DependencyIsEarlier(g, order, here, order[at]);
      assert false;
    }
  }

  lemma {:induction false} Descend(g: Graph, order: seq<string>, p: seq<string>, at: nat, i: nat) returns (here: nat)
    requires Topological(g, order) && at < |order| && i < |p| && order[at] == p[0]
    requires forall k :: 0 <= k < |p| ==> p[k] in g
    requires forall k :: 0 <= k < |p| - 1 ==> p[k + 1] in g[p[k]]
    ensures here + i <= at && order[here] == p[i]
  {
    if i == 0 {
      here := at;
    } else {
      var previous := Descend(g, order, p, at, i - 1);
      here := DependencyIsEarlier(g, order, previous, p[i - 1 + 1]);
    }
  }

  lemma DependencyIsEarlier(g: Graph, order: seq<string>, here: nat, d: string) returns (there: nat)
    requires Topological(g, order) && here < |order| && order[here] in g && d in g[order[here]]
    ensures there < here && order[there] == d
  {
    assert Available(g, order[here], Elements(order[..here]));
    assert d in order[..here];
    there :| 0 <= there < here && order[..here][there] == d;
  }

  ghost predicate Waits(g: Graph, rest: set<string>, x: string) {
    x in g && exists d :: d in g[x] && d in rest
  }

  ghost predicate Walk(g: Graph, rest: set<string>, path: seq<string>) {
    && path != [] && Elements(path) <= rest
    && (forall i :: 0 <= i < |path| ==> path[i] in g)
    && (forall i :: 0 <= i < |path| - 1 ==> path[i + 1] in g[path[i]])
  }

  /** If every remaining fixture waits for a remaining fixture, following the waits closes a cycle. */
  lemma {:induction false} StuckIsCyclic(g: Graph, rest: set<string>, path: seq<string>)
    requires Walk(g, rest, path) && Distinct(path)
    requires forall x :: x in rest ==> Waits(g, rest, x)
    ensures Cyclic(g)
    decreases |rest| - |path|
  {
    var last := path[|path| - 1];
    assert last in Elements(path);
    assert Waits(g, rest, last);
    var d :| d in g[last] && d in rest;
    if d in path {
      var i :| 0 <= i < |path| && path[i] == d;
      ClosesCycle(g, rest, path, i);
    } else {
      assert Waits(g, rest, d);
      LongerWalk(g, rest, path, d);
      StuckIsCyclic(g, rest, path + [d]);
    }
  }

  lemma LongerWalk(g: Graph, rest: set<string>, path: seq<string>, d: string)
    requires Walk(g, rest, path) && Distinct(path) && d in g && d in rest && d !in path
    requires d in g[path[|path| - 1]]
    ensures Walk(g, rest, path + [d]) && Distinct(path + [d]) && |path + [d]| <= |rest|
  {
    assert Elements(path + [d]) == Elements(path) + {d};
    DistinctSnoc(path, d);
    hide Distinct;
    DistinctSize(path + [d]);
    SubsetSize(Elements(path + [d]), rest);
  }

  lemma ClosesCycle(g: Graph, rest: set<string>, path: seq<string>, i: nat)
    requires Walk(g, rest, path) && i < |path| && path[i] in g[path[|path| - 1]]
    ensures Cyclic(g)
  {
    var p := path[i..];
    assert forall k :: 0 <= k < |p| ==> p[k] == path[i + k];
    forall k | 0 <= k < |p| - 1 ensures p[k + 1] in g[p[k]] {
      assert path[i + k + 1] in g[path[i + k]];
    }
    assert IsCycle(g, p);
  }

  // ---------- the counters ----------

  ghost function Count(s: seq<string>, x: string): nat {
    if s == [] then 0 else Count(s[..|s| - 1], x) + (if s[|s| - 1] == x then 1 else 0)
  }

  lemma CountSnoc(s: seq<string>, y: string)
    ensures forall x :: Count(s + [y], x) == Count(s, x) + (if x == y then 1 else 0)
  {
    assert (s + [y])[..|s|] == s;
  }

  lemma {:induction false} CountPrefix(s: seq<string>, i: nat, x: string)
    requires i <= |s|
    ensures Count(s[..i], x) <= Count(s, x)
    decreases |s|
  {
    if i < |s| {
      assert s[..|s| - 1][..i] == s[..i];
      CountPrefix(s[..|s| - 1], i, x);
    } else {
      assert s[..i] == s;
    }
  }

  lemma {:induction false} CountPositive(s: seq<string>, x: string)
    ensures Count(s, x) > 0 <==> x in s
  {
    if s != [] {
      CountPositive(s[..|s| - 1], x);
      assert s == s[..|s| - 1] + [s[|s| - 1]];
    }
  }

  /** How many entries of a dependency list, with repetition, are still to be emitted. */
  ghost function Missing(deps: seq<string>, done: set<string>): nat {
    if deps == [] then 0 else Missing(deps[..|deps| - 1], done) + (if deps[|deps| - 1] in done then 0 else 1)
  }

  lemma {:induction false} MissingNone(deps: seq<string>, done: set<string>)
    ensures Missing(deps, done) == 0 <==> forall d :: d in deps ==> d in done
  {
    if deps != [] {
      MissingNone(deps[..|deps| - 1], done);
      assert deps == deps[..|deps| - 1] + [deps[|deps| - 1]];
    }
  }

  lemma {:induction false} MissingEmit(deps: seq<string>, done: set<string>, name: string)
    requires name !in done
    ensures Missing(deps, done + {name}) == Missing(deps, done) - Count(deps, name)
  {
    if deps != [] {
      MissingEmit(deps[..|deps| - 1], done, name);
    }
  }

  lemma {:induction false} MissingAll(deps: seq<string>)
    ensures Missing(deps, {}) == |deps|
  {
    if deps != [] {
      MissingAll(deps[..|deps| - 1]);
    }
  }

  lemma ExtendNames(nodes: seq<Node>, i: nat)
    requires i < |nodes| && UsableNames(nodes[..i])
    requires nodes[i].name != "" && nodes[i].name !in Elements(Names(nodes[..i]))
    ensures UsableNames(nodes[..i + 1])
    ensures Elements(Names(nodes[..i + 1])) == Elements(Names(nodes[..i])) + {nodes[i].name}
  {
    assert nodes[..i + 1] == nodes[..i] + [nodes[i]];
    assert Names(nodes[..i + 1]) == Names(nodes[..i]) + [nodes[i].name];
  }

  lemma AddEdge(incoming: map<string, int>, children: map<string, seq<string>>, g: Graph, name: string, d: string)
    requires Describes(incoming, children, g) && name in g
    ensures Describes(incoming[name := incoming[name] + 1], children[d := Kids(children, d) + [name]],
      g[name := g[name] + [d]])
  {
    hide Count;
    var children' := children[d := Kids(children, d) + [name]];
    var g' := g[name := g[name] + [d]];
    assert forall e :: Kids(children', e) == if e == d then Kids(children, d) + [name] else Kids(children, e);
    CountSnoc(Kids(children, d), name);
    CountSnoc(g[name], d);
  }

  lemma GreedyStep(g: Graph, order: seq<string>, done: set<string>, name: string)
    requires Greedy(g, order) && done == Elements(order)
    requires Available(g, name, done) && forall x :: Available(g, x, done) ==> StringLeq(name, x)
    ensures Greedy(g, order + [name])
    ensures Elements(order + [name]) == done + {name}
  {
    var longer := order + [name];
    forall k | 0 <= k < |longer|
      ensures Available(g, longer[k], Elements(longer[..k]))
      ensures forall x :: Available(g, x, Elements(longer[..k])) ==> StringLeq(longer[k], x)
    {
      assert longer[..k] == order[..k];
      if k == |order| {
        assert order[..k] == order;
      }
    }
  }

  lemma HeadIsNext(g: Graph, done: set<string>, incoming: map<string, int>, ready: seq<string>)
    requires Queue(g, done, incoming, ready) && ready != []
    ensures Available(g, ready[0], done) && forall x :: Available(g, x, done) ==> StringLeq(ready[0], x)
  {
    StringOrder();
    forall x | Available(g, x, done) ensures StringLeq(ready[0], x) {
      var i :| 0 <= i < |ready| && ready[i] == x;
    }
  }

  lemma GraphSize(nodes: seq<Node>)
    requires UsableNames(nodes)
    ensures GraphOf(nodes).Keys == Elements(Names(nodes)) && |GraphOf(nodes)| == |nodes|
  {
    assert forall i :: 0 <= i < |nodes| ==> Names(nodes)[i] in GraphOf(nodes) by {
      assert forall i :: 0 <= i < |nodes| ==> nodes[i] in nodes;
    }
    assert forall n :: n in nodes ==> n.name in Names(nodes) by {
      forall n | n in nodes ensures n.name in Names(nodes) {
        var i :| 0 <= i < |nodes| && nodes[i] == n;
        assert Names(nodes)[i] == n.name;
      }
    }
    assert GraphOf(nodes).Keys == Elements(Names(nodes));
    DistinctSize(Names(nodes));
  }

  /** An empty ready list means the end: everything emitted, or a cycle among the rest. */
  lemma EmptyQueue(g: Graph, order: seq<string>, incoming: map<string, int>)
    requires Closed(g) && Greedy(g, order) && Queue(g, Elements(order), incoming, [])
    ensures if |order| == |g| then LeastTopological(g, order) else Cyclic(g)
  {
    GreedyElements(g, order);
    if |order| == |g| {
      GreedyIsLeast(g, order);
    } else {
      AvailableInGraph(g, order);
      NothingLeft(Elements(order), g.Keys);
      NothingAvailable(g, Elements(order));
    }
  }

  lemma NothingAvailable(g: Graph, done: set<string>)
    requires Closed(g) && done <= g.Keys && g.Keys - done != {}
    requires forall x :: !Available(g, x, done)
    ensures Cyclic(g)
  {
    var rest := g.Keys - done;
    forall x | x in rest ensures Waits(g, rest, x) {
      assert !Available(g, x, done);
      var d :| d in g[x] && d !in done;
      assert d in rest;
    }
    var x :| x in rest;
    assert Elements([x]) == {x};
    StuckIsCyclic(g, rest, [x]);
  }

  lemma NothingLeft(a: set<string>, b: set<string>)
    requires a <= b
    ensures b - a == {} ==> a == b
  {
    if b - a == {} {
      forall x | x in b ensures x in a {
        assert x in a || x in b - a;
      }
    }
  }

  lemma AvailableInGraph(g: Graph, order: seq<string>)
    requires Greedy(g, order)
    ensures Elements(order) <= g.Keys
    ensures DoneClosed(g, Elements(order))
  {
    forall x, d | x in Elements(order) && x in g && d in g[x] ensures d in Elements(order) {
      var k :| 0 <= k < |order| && order[k] == x;
      assert Available(g, order[k], Elements(order[..k]));
      assert d in order[..k];
    }
    forall x | x in Elements(order) ensures x in g {
      var k :| 0 <= k < |order| && order[k] == x;
      assert Available(g, order[k], Elements(order[..k]));
    }
  }

  /** A permutation of the nodes, since both lists have the same distinct names. */
  lemma SameNodes(nodes: seq<Node>, out: seq<Node>)
    requires UsableNames(nodes) && Elements(Names(out)) == GraphOf(nodes).Keys
    requires forall k :: 0 <= k < |out| ==> out[k] in nodes
    ensures forall n :: n in out <==> n in nodes
  {
    GraphSize(nodes);
    hide GraphOf;
    forall n | n in nodes ensures n in out {
      NameListed(nodes, n);
      var k :| 0 <= k < |out| && Names(out)[k] == n.name;
      SameName(nodes, n, out[k]);
    }
  }

  lemma NameListed(nodes: seq<Node>, n: Node)
    requires n in nodes
    ensures n.name in Elements(Names(nodes))
  {
    var i :| 0 <= i < |nodes| && nodes[i] == n;
    assert Names(nodes)[i] == n.name;
  }

  lemma SameName(nodes: seq<Node>, a: Node, b: Node)
    requires Distinct(Names(nodes)) && a in nodes && b in nodes && a.name == b.name
    ensures a == b
  {
    var i :| 0 <= i < |nodes| && nodes[i] == a;
    var j :| 0 <= j < |nodes| && nodes[j] == b;
    assert Names(nodes)[i] == Names(nodes)[j];
  }

  // ---------- the planner ----------

  ghost predicate FirstUnknown(nodes: seq<Node>, i: nat, j: nat)
    requires UsableNames(nodes)
  {
    && i < |nodes| && j < |nodes[i].dependsOn|
    && nodes[i].dependsOn[j] !in GraphOf(nodes)
    && (forall d :: d in nodes[i].dependsOn[..j] ==> d in GraphOf(nodes))
    && forall n, d :: n in nodes[..i] && d in n.dependsOn ==> d in GraphOf(nodes)
  }

  /** The planner's whole contract: which of the four errors, or the one right order. */
  ghost predicate PlanSpec(nodes: seq<Node>, r: Result<seq<Node>, PlanError>) {
    match r
    case Err(NameRequired) =>
      exists i :: 0 <= i < |nodes| && UsableNames(nodes[..i]) && nodes[i].name == ""
    case Err(DuplicateName(name)) =>
      exists i :: 0 <= i < |nodes| && UsableNames(nodes[..i]) && nodes[i].name == name && name in Names(nodes[..i])
    case Err(UnknownDependency(name, d)) =>
      UsableNames(nodes) &&
      exists i: nat, j: nat :: FirstUnknown(nodes, i, j) && nodes[i].name == name && nodes[i].dependsOn[j] == d
    case Err(DependencyCycle) =>
      WellFormed(nodes) && Cyclic(GraphOf(nodes))
    case Ok(out) =>
      && WellFormed(nodes) && LeastTopological(GraphOf(nodes), Names(out))
      && |out| == |nodes| && forall n :: n in out <==> n in nodes
  }

  function Kids(children: map<string, seq<string>>, d: string): seq<string> {
    if d in children then children[d] else []
  }

  /** `incoming` and `children` both describe the graph built so far. */
  ghost predicate Describes(incoming: map<string, int>, children: map<string, seq<string>>, g: Graph) {
    && incoming.Keys == g.Keys
    && (forall x :: x in g ==> incoming[x] == |g[x]|)
    && Listed(children, g)
  }

  /** Each fixture is listed under d once for every time it names d. */
  ghost predicate Listed(children: map<string, seq<string>>, g: Graph) {
    && (forall d, x :: x in Kids(children, d) ==> x in g)
    && forall d, x :: x in g ==> Count(Kids(children, d), x) == Count(g[x], d)
  }

  ghost predicate DoneClosed(g: Graph, done: set<string>) {
    forall x, d :: x in done && x in g && d in g[x] ==> d in done
  }

  /** The state between two pops: what the counters and the ready list mean. */
  ghost predicate Queue(g: Graph, done: set<string>, incoming: map<string, int>, ready: seq<string>) {
    && incoming.Keys == g.Keys
    && (forall x :: x in g ==> incoming[x] == Missing(g[x], done))
    && (forall x :: x in ready <==> Available(g, x, done))
    && Distinct(ready) && Sorted(ready, StringLeq)
  }

  /** Lines 39-45: the fixtures without dependencies, gathered in any order and then sorted. */
  method InitiallyReady(ghost g: Graph, incoming: map<string, int>, children: map<string, seq<string>>)
    returns (ready: seq<string>)
    requires Describes(incoming, children, g)
    ensures Queue(g, {}, incoming, ready)
  {
    ready := [];
    var todo := incoming.Keys;
    while todo != {}
      invariant todo <= g.Keys
      invariant forall x :: x in ready <==> x in g && x !in todo && incoming[x] == 0
      invariant Distinct(ready)
      decreases |todo|
    {
      var name :| name in todo;
      if incoming[name] == 0 {
        ready := ready + [name];
      }
      todo := todo - {name};
    }
    forall x | x in g ensures incoming[x] == Missing(g[x], {}) {
      MissingAll(g[x]);
    }
    SortKeeps(ready);
    ready := SortStrings(ready);
  }

  lemma SortKeeps(s: seq<string>)
    requires Distinct(s)
    ensures Distinct(SortStrings(s)) && forall x :: x in SortStrings(s) <==> x in s
  {
    var r := SortStrings(s);
    forall x ensures x in r <==> x in s {
      assert x in multiset(r) <==> x in multiset(s);
    }
    DistinctCounts(s);
    forall i, j | 0 <= i < j < |r| ensures r[i] != r[j] {
      TwiceCounted(r, i, j);
    }
  }

  lemma TwiceCounted(r: seq<string>, i: nat, j: nat)
    requires i < j < |r|
    ensures r[i] == r[j] ==> multiset(r)[r[i]] >= 2
  {
    assert r == r[..i] + [r[i]] + r[i + 1..j] + [r[j]] + r[j + 1..];
  }

  lemma {:induction false} DistinctCounts(s: seq<string>)
    requires Distinct(s)
    ensures forall x :: multiset(s)[x] <= 1
  {
    if s != [] {
      DistinctCounts(s[1..]);
      assert s == [s[0]] + s[1..];
      assert s[0] !in s[1..];
    }
  }

  /** Lines 51-57: one emitted fixture lowers its children's counters; those that reach zero join the list. */
  method Settle(ghost g: Graph, ghost done: set<string>, incoming: map<string, int>, children: map<string, seq<string>>,
                name: string, rest: seq<string>)
    returns (counts: map<string, int>, ready: seq<string>)
    requires Queue(g, done, incoming, [name] + rest) && DoneClosed(g, done) && Listed(children, g)
    ensures Queue(g, done + {name}, counts, ready)
  {
    hide *;
    counts, ready := incoming, rest;
    var kids := Kids(children, name);
    QueueTail(g, done, incoming, name, rest);
    KidsListed(g, children, name);
    for i := 0 to |kids|
      invariant counts.Keys == g.Keys
      invariant forall x :: x in g ==> counts[x] == Missing(g[x], done) - Count(kids[..i], x)
      invariant forall x :: x in ready <==> x in g && x !in done + {name} && counts[x] == 0
      invariant Distinct(ready)
    {
      var child := kids[i];
      StillCounted(g, done, kids, name, i);
      assert kids[..i + 1] == kids[..i] + [child];
      CountSnoc(kids[..i], child);
      counts := counts[child := counts[child] - 1];
      if counts[child] == 0 {
        DistinctSnoc(ready, child);
        ready := ready + [child];
      }
    }
    assert kids[..|kids|] == kids;
    Settled(g, done, kids, name, counts, ready);
    ready := SortStrings(ready);
  }

  lemma KidsListed(g: Graph, children: map<string, seq<string>>, name: string)
    requires Listed(children, g)
    ensures forall x :: x in Kids(children, name) ==> x in g
    ensures forall x :: x in g ==> Count(Kids(children, name), x) == Count(g[x], name)
  {
  }

  lemma DistinctSnoc(s: seq<string>, x: string)
    requires Distinct(s) && x !in s
    ensures Distinct(s + [x])
  {
  }

  lemma QueueTail(g: Graph, done: set<string>, incoming: map<string, int>, name: string, rest: seq<string>)
    requires Queue(g, done, incoming, [name] + rest)
    ensures incoming.Keys == g.Keys && name !in done && Available(g, name, done)
    ensures forall x :: x in g ==> incoming[x] == Missing(g[x], done) - Count([], x)
    ensures Distinct(rest)
    ensures forall x :: x in rest <==> x in g && x !in done + {name} && incoming[x] == 0
  {
    var ready := [name] + rest;
    assert ready[0] == name && name in ready;
    assert forall i :: 0 <= i < |rest| ==> rest[i] == ready[i + 1];
    forall x ensures x in rest <==> x in g && x !in done + {name} && incoming[x] == 0 {
      assert x in ready <==> x == name || x in rest;
      if x in g {
        MissingNone(g[x], done);
      }
    }
  }

  lemma Settled(g: Graph, done: set<string>, kids: seq<string>, name: string, counts: map<string, int>,
          ready: seq<string>)
    requires name !in done && counts.Keys == g.Keys
    requires forall x :: x in g ==> Count(kids, x) == Count(g[x], name)
    requires forall x :: x in g ==> counts[x] == Missing(g[x], done) - Count(kids, x)
    requires forall x :: x in ready <==> x in g && x !in done + {name} && counts[x] == 0
    requires Distinct(ready)
    ensures Queue(g, done + {name}, counts, SortStrings(ready))
  {
    SortKeeps(ready);
    forall x | x in g
      ensures counts[x] == Missing(g[x], done + {name})
      ensures counts[x] == 0 <==> forall d :: d in g[x] ==> d in done + {name}
    {
      MissingEmit(g[x], done, name);
      MissingNone(g[x], done + {name});
    }
  }

  /** Before its decrement the i-th child is neither ready nor emitted: it still waits for `name`. */
  lemma StillCounted(g: Graph, done: set<string>, kids: seq<string>, name: string, i: nat)
    requires i < |kids| && kids[i] in g && Available(g, name, done)
    requires DoneClosed(g, done)
    requires Count(kids, kids[i]) == Count(g[kids[i]], name)
    ensures Missing(g[kids[i]], done) > Count(kids[..i], kids[i])
    ensures kids[i] !in done + {name}
  {
    var child := kids[i];
    assert kids[..i + 1] == kids[..i] + [child];
    CountSnoc(kids[..i], child);
    CountPrefix(kids, i + 1, child);
    MissingEmit(g[child], done, name);
    CountPositive(g[child], name);
  }

  lemma CycleSpec(nodes: seq<Node>)
    requires UsableNames(nodes) && Closed(GraphOf(nodes)) && Cyclic(GraphOf(nodes))
    ensures PlanSpec(nodes, Err(DependencyCycle))
  {
  }

  lemma OrderSpec(nodes: seq<Node>, byName: map<string, Node>, out: seq<Node>)
    requires UsableNames(nodes) && Closed(GraphOf(nodes)) && LeastTopological(GraphOf(nodes), Names(out))
    requires |out| == |nodes| && Taken(out, byName) && forall x :: x in byName ==> byName[x] in nodes
    ensures PlanSpec(nodes, Ok(out))
  {
    SameNodes(nodes, out);
  }

  lemma Indexed(nodes: seq<Node>, byName: map<string, Node>)
    requires byName.Keys == Elements(Names(nodes)) && forall n :: n in nodes ==> n.name in byName && byName[n.name] == n
    ensures Index(byName) && forall x :: x in byName ==> byName[x] in nodes
  {
    forall x | x in byName ensures byName[x].name == x && byName[x] in nodes {
      var k :| 0 <= k < |nodes| && Names(nodes)[k] == x;
      assert nodes[k] in nodes;
    }
  }

  /** Lines 20-29: index the nodes by name, refusing empty and repeated names. */
  method IndexNames(nodes: seq<Node>) returns (r: Result<map<string, Node>, PlanError>)
    ensures match r
      case Err(e) => (e.NameRequired? || e.DuplicateName?) && PlanSpec(nodes, Err(e))
      case Ok(byName) => UsableNames(nodes) && byName.Keys == Elements(Names(nodes)) && forall n :: n in nodes ==>
          n.name in byName && byName[n.name] == n
  {
    hide GraphOf, WellFormed, LeastTopological, Cyclic;
    var byName: map<string, Node> := map[];
    for i := 0 to |nodes|
      invariant UsableNames(nodes[..i])
      invariant byName.Keys == Elements(Names(nodes[..i]))
      invariant forall k :: 0 <= k < i ==> byName[nodes[k].name] == nodes[k]
    {
      var n := nodes[i];
      if n.name == "" {
        return Err(NameRequired);
      }
      if n.name in byName {
        return Err(DuplicateName(n.name));
      }
      byName := byName[n.name := n];
      ExtendNames(nodes, i);
      assert Names(nodes[..i + 1])[i] == n.name;
    }
    assert nodes[..|nodes|] == nodes;
    return Ok(byName);
  }

  /** Lines 30-38: count each node's dependencies and list each node's dependants. */
  method Link(nodes: seq<Node>, byName: map<string, Node>, ghost g: Graph)
    returns (r: Result<(map<string, int>, map<string, seq<string>>), PlanError>)
    requires UsableNames(nodes) && g == GraphOf(nodes) && byName.Keys == g.Keys
    ensures match r
      case Err(e) => e.UnknownDependency? && PlanSpec(nodes, Err(e))
      case Ok((incoming, children)) => Closed(g) && Describes(incoming, children, g)
  {
    hide *;
    var incoming: map<string, int> := map x | x in byName :: 0;
    var children: map<string, seq<string>> := map[];
    ghost var partial: Graph := map x | x in byName :: [];
    LinkStart(nodes, g, incoming, partial);
    for i := 0 to |nodes|
      invariant incoming.Keys == byName.Keys
      invariant Describes(incoming, children, partial) && LinkedUpTo(nodes, g, partial, i, 0)
    {
      var n := nodes[i];
      for j := 0 to |n.dependsOn|
        invariant incoming.Keys == byName.Keys
        invariant Describes(incoming, children, partial) && LinkedUpTo(nodes, g, partial, i, j)
      {
        var d := n.dependsOn[j];
        if d !in byName {
          LinkStuck(nodes, g, partial, i, j);
          return Err(UnknownDependency(n.name, d));
        }
        LinkStep(nodes, g, partial, i, j);
        AddEdge(incoming, children, partial, n.name, d);
        incoming := incoming[n.name := incoming[n.name] + 1];
        children := children[d := Kids(children, d) + [n.name]];
        partial := partial[n.name := partial[n.name] + [d]];
      }
      LinkNext(nodes, g, partial, i);
    }
    LinkEnd(nodes, g, partial);
    return Ok((incoming, children));
  }

  /** The partial graph holds the edges of the first i nodes and the first j of the next, all to known names. */
  ghost predicate LinkedUpTo(nodes: seq<Node>, g: Graph, partial: Graph, i: int, j: int) {
    && UsableNames(nodes) && g == GraphOf(nodes) && partial.Keys == g.Keys
    && 0 <= i <= |nodes| && (if i < |nodes| then 0 <= j <= |nodes[i].dependsOn| else j == 0)
    && forall k :: 0 <= k < |nodes| ==>
      && nodes[k].name in partial
      && partial[nodes[k].name] == Linked(nodes[k], i, j, k)
      && forall d :: d in Linked(nodes[k], i, j, k) ==> d in g
  }

  ghost function Linked(n: Node, i: int, j: int, k: int): seq<string> {
    if k < i then n.dependsOn else if k == i && 0 <= j <= |n.dependsOn| then n.dependsOn[..j] else []
  }

  lemma LinkStart(nodes: seq<Node>, g: Graph, incoming: map<string, int>, partial: Graph)
    requires UsableNames(nodes) && g == GraphOf(nodes) && partial.Keys == incoming.Keys == g.Keys
    requires forall x :: x in partial ==> partial[x] == [] && incoming[x] == 0
    ensures Describes(incoming, map[], partial)
    ensures LinkedUpTo(nodes, g, partial, 0, 0)
  {
    forall k | 0 <= k < |nodes| ensures nodes[k].name in g {
      assert nodes[k] in nodes;
    }
  }

  lemma LinkStuck(nodes: seq<Node>, g: Graph, partial: Graph, i: nat, j: nat)
    requires LinkedUpTo(nodes, g, partial, i, j) && i < |nodes| && j < |nodes[i].dependsOn|
      && nodes[i].dependsOn[j] !in g
    ensures PlanSpec(nodes, Err(UnknownDependency(nodes[i].name, nodes[i].dependsOn[j])))
  {
    forall n, d | n in nodes[..i] && d in n.dependsOn ensures d in g {
      var k :| 0 <= k < i && nodes[k] == n;
      assert Linked(nodes[k], i, j, k) == n.dependsOn;
    }
    assert Linked(nodes[i], i, j, i) == nodes[i].dependsOn[..j];
    assert FirstUnknown(nodes, i, j);
  }

  lemma LinkStep(nodes: seq<Node>, g: Graph, partial: Graph, i: nat, j: nat)
    requires LinkedUpTo(nodes, g, partial, i, j) && i < |nodes| && j < |nodes[i].dependsOn|
      && nodes[i].dependsOn[j] in g
    ensures nodes[i].name in partial && nodes[i].name in g
    ensures LinkedUpTo(nodes, g, partial[nodes[i].name := partial[nodes[i].name] + [nodes[i].dependsOn[j]]], i, j + 1)
  {
    var n := nodes[i];
    var next := partial[n.name := partial[n.name] + [n.dependsOn[j]]];
    forall k | 0 <= k < |nodes|
      ensures nodes[k].name in next && next[nodes[k].name] == Linked(nodes[k], i, j + 1, k)
      ensures forall d :: d in Linked(nodes[k], i, j + 1, k) ==> d in g
    {
      assert nodes[k].name in partial && partial[nodes[k].name] == Linked(nodes[k], i, j, k);
      assert forall d :: d in Linked(nodes[k], i, j, k) ==> d in g;
      if k == i {
        assert n.dependsOn[..j + 1] == n.dependsOn[..j] + [n.dependsOn[j]];
      } else {
        assert Names(nodes)[k] != Names(nodes)[i];
      }
    }
  }

  lemma LinkNext(nodes: seq<Node>, g: Graph, partial: Graph, i: nat)
    requires i < |nodes| && LinkedUpTo(nodes, g, partial, i, |nodes[i].dependsOn|)
    ensures LinkedUpTo(nodes, g, partial, i + 1, 0)
  {
    forall k | 0 <= k < |nodes| ensures Linked(nodes[k], i, |nodes[i].dependsOn|, k) == Linked(nodes[k], i + 1, 0, k) {
      if k == i {
        assert nodes[i].dependsOn[..|nodes[i].dependsOn|] == nodes[i].dependsOn;
      } else if k == i + 1 {
        assert nodes[k].dependsOn[..0] == [];
      }
    }
  }

  lemma LinkEnd(nodes: seq<Node>, g: Graph, partial: Graph)
    requires LinkedUpTo(nodes, g, partial, |nodes|, 0)
    ensures partial == g && Closed(g)
  {
    forall x | x in g ensures partial[x] == g[x] && forall d :: d in g[x] ==> d in g {
      var n :| n in nodes && n.name == x;
      var k :| 0 <= k < |nodes| && nodes[k] == n;
      assert partial[nodes[k].name] == Linked(nodes[k], |nodes|, 0, k) == nodes[k].dependsOn;
    }
  }

  /** Lines 46-58: pop the least ready fixture, settle its children, re-sort, until nothing is ready. */
  method Drain(ghost g: Graph, byName: map<string, Node>, incoming0: map<string, int>, children: map<string,
          seq<string>>,
               ready0: seq<string>)
    returns (out: seq<Node>)
    requires Closed(g) && byName.Keys == g.Keys && Describes(incoming0, children, g) && Queue(g, {}, incoming0, ready0)
    requires Index(byName)
    ensures |out| == |g| ==> LeastTopological(g, Names(out))
    ensures |out| != |g| ==> Cyclic(g)
    ensures Taken(out, byName)
  {
    assert Greedy(g, []) && Elements([]) == {};
    assert Listed(children, g) && Taken([], byName);
    hide *;
    var incoming, ready := incoming0, ready0;
    out := [];
    ghost var done: set<string> := {};
    while ready != []
      invariant done == Elements(Names(out)) && done <= g.Keys
      invariant Greedy(g, Names(out))
      invariant Queue(g, done, incoming, ready)
      invariant Taken(out, byName)
      decreases |g.Keys - done|
    {
      PopStep(g, Names(out), done, incoming, ready);
      var name := ready[0];
      TakeStep(out, byName, name);
      out := out + [byName[name]];
      incoming, ready := Settle(g, done, incoming, children, name, ready[1..]);
      done := done + {name};
    }
    EmptyQueue(g, Names(out), incoming);
  }

  lemma PopStep(g: Graph, order: seq<string>, done: set<string>, incoming: map<string, int>, ready: seq<string>)
    requires Queue(g, done, incoming, ready) && ready != [] && Greedy(g, order) && done == Elements(order)
    ensures ready[0] in g && ready[0] !in done && done <= g.Keys && DoneClosed(g, done)
    ensures Queue(g, done, incoming, [ready[0]] + ready[1..])
    ensures Greedy(g, order + [ready[0]]) && Elements(order + [ready[0]]) == done + {ready[0]}
    ensures |g.Keys - (done + {ready[0]})| < |g.Keys - done|
  {
    HeadIsNext(g, done, incoming, ready);
    AvailableInGraph(g, order);
    GreedyStep(g, order, done, ready[0]);
    assert ready == [ready[0]] + ready[1..];
    assert g.Keys - done == (g.Keys - (done + {ready[0]})) + {ready[0]};
  }

  /** Every name leads to the node of that name. */
  ghost predicate Index(byName: map<string, Node>) {
    forall x :: x in byName ==> byName[x].name == x
  }

  ghost predicate Taken(out: seq<Node>, byName: map<string, Node>) {
    forall n :: n in out ==> n.name in byName && n == byName[n.name]
  }

  lemma TakeStep(out: seq<Node>, byName: map<string, Node>, name: string)
    requires Index(byName) && Taken(out, byName) && name in byName
    ensures Taken(out + [byName[name]], byName)
    ensures Names(out + [byName[name]]) == Names(out) + [name]
  {
  }

  method Plan(nodes: seq<Node>) returns (r: Result<seq<Node>, PlanError>)
    ensures PlanSpec(nodes, r)
  {
    var indexed := IndexNames(nodes);
    if indexed.Err? {
      return Err(indexed.error);
    }
    var byName := indexed.value;
    ghost var g := GraphOf(nodes);
    GraphSize(nodes);
    Indexed(nodes, byName);
    hide *;
    var linked := Link(nodes, byName, g);
    if linked.Err? {
      return Err(linked.error);
    }
    var (incoming, children) := linked.value;
    var ready := InitiallyReady(g, incoming, children);
    var out := Drain(g, byName, incoming, children, ready);
    if |out| != |nodes| {
      CycleSpec(nodes);
      return Err(DependencyCycle);
    }
    OrderSpec(nodes, byName, out);
    return Ok(out);
  }

  // ---------- what the contract amounts to ----------

  lemma LeastIsUnique(g: Graph, a: seq<string>, b: seq<string>)
    requires LeastTopological(g, a) && LeastTopological(g, b)
    ensures a == b
  {
    hide Topological, StringLeq;
    if a != b {
      var k: nat :| Before(a, b, k);
      var l: nat :| Before(b, a, l);
      AgreeBelow(a, b, k);
      AgreeBelow(a, b, l);
      StringLeqTotal(a[k], b[k]);
      assert false;
    }
  }

  lemma AgreeBelow(a: seq<string>, b: seq<string>, k: nat)
    requires k <= |a| && k <= |b| && a[..k] == b[..k]
    ensures forall i :: 0 <= i < k ==> a[i] == b[i]
  {
    assert forall i :: 0 <= i < k ==> a[..k][i] == a[i] && b[..k][i] == b[i];
  }

  lemma NameErrorsAreReal(nodes: seq<Node>, i: nat)
    requires i < |nodes| && (nodes[i].name == "" || nodes[i].name in Names(nodes[..i]))
    ensures !UsableNames(nodes)
  {
    if nodes[i].name == "" {
      assert nodes[i] in nodes;
    } else {
      var j :| 0 <= j < i && Names(nodes[..i])[j] == nodes[i].name;
      assert Names(nodes)[j] == Names(nodes)[i];
    }
  }

  lemma UnknownIsReal(nodes: seq<Node>, i: nat, j: nat)
    requires UsableNames(nodes) && FirstUnknown(nodes, i, j)
    ensures !Closed(GraphOf(nodes))
  {
    assert nodes[i] in nodes;
    assert nodes[i].dependsOn[j] in GraphOf(nodes)[nodes[i].name];
  }

  /** For usable names and known dependencies: the cycle error exactly for cyclic graphs, success exactly for the
      others. */
  lemma CycleErrorIffCyclic(nodes: seq<Node>, r: Result<seq<Node>, PlanError>)
    requires WellFormed(nodes) && PlanSpec(nodes, r)
    ensures r == Err(DependencyCycle) <==> Cyclic(GraphOf(nodes))
    ensures r.Ok? <==> !Cyclic(GraphOf(nodes))
  {
    forall i: nat | i < |nodes| ensures nodes[i].name != "" && nodes[i].name !in Names(nodes[..i]) {
      if nodes[i].name == "" || nodes[i].name in Names(nodes[..i]) {
        NameErrorsAreReal(nodes, i);
      }
    }
    forall i: nat, j: nat ensures !FirstUnknown(nodes, i, j) {
      if FirstUnknown(nodes, i, j) {
        UnknownIsReal(nodes, i, j);
      }
    }
    if r.Ok? {
      TopologicalIsAcyclic(GraphOf(nodes), Names(r.value));
    }
  }

  /** Same names, same dependencies; the order and the repetitions of either list may differ. */
  ghost predicate SameDependencies(a: Graph, b: Graph) {
    a.Keys == b.Keys && forall x :: x in a ==> Elements(a[x]) == Elements(b[x])
  }

  lemma SameTopological(a: Graph, b: Graph, order: seq<string>)
    requires SameDependencies(a, b) && Topological(a, order)
    ensures Topological(b, order)
  {
    forall k | 0 <= k < |order| ensures Available(b, order[k], Elements(order[..k])) {
      assert Available(a, order[k], Elements(order[..k]));
      assert Elements(a[order[k]]) == Elements(b[order[k]]);
      assert forall d :: d in b[order[k]] ==> d in Elements(b[order[k]]);
    }
  }

  lemma SameCycles(a: Graph, b: Graph)
    requires SameDependencies(a, b) && Cyclic(a)
    ensures Cyclic(b)
  {
    var p :| IsCycle(a, p);
    forall i, d | 0 <= i < |p| && d in a[p[i]] ensures d in b[p[i]] {
      assert d in Elements(a[p[i]]);
    }
    assert IsCycle(b, p);
  }

  /** The verdict and the order of names do not depend on how the input was listed. */
  lemma PlanIgnoresListing(a: seq<Node>, b: seq<Node>, ra: Result<seq<Node>, PlanError>, rb: Result<seq<Node>,
          PlanError>)
    requires WellFormed(a) && WellFormed(b) && SameDependencies(GraphOf(a), GraphOf(b))
    requires PlanSpec(a, ra) && PlanSpec(b, rb)
    ensures ra.Ok? <==> rb.Ok?
    ensures ra.Ok? ==> Names(ra.value) == Names(rb.value)
  {
    CycleErrorIffCyclic(a, ra);
    CycleErrorIffCyclic(b, rb);
    var ga, gb := GraphOf(a), GraphOf(b);
    if Cyclic(ga) {
      SameCycles(ga, gb);
    } else if Cyclic(gb) {
      SameCycles(gb, ga);
    } else {
      var order := Names(ra.value);
      SameTopological(ga, gb, order);
      forall t | Topological(gb, t) && t != order ensures exists k: nat :: Before(order, t, k) {
        SameTopological(gb, ga, t);
      }
      LeastIsUnique(gb, order, Names(rb.value));
    }
  }
}
