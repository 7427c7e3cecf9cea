/** The startup order of a Compose topology: repeatedly start the first service, in name order, all of whose
    dependencies have been started. */
module StartupOrders {
  import opened Orders
  import opened Outcomes

  /** Each service with the names of the services it depends on. */
  type Graph = map<string, set<string>>

  datatype Error = Cycle | InvalidDependency

  // ---------- What a startup order is ----------

  /** Every service once, and each after everything it depends on. */
  ghost predicate IsOrder(g: Graph, order: seq<string>) {
    && NoDuplicates(order)
    && (forall n :: n in order <==> n in g)
    && (forall i | 0 <= i < |order| :: forall d | d in g[order[i]] :: d in order[..i])
  }

  /** Sequences of names compared at the first difference. */
  ghost predicate Precedes(a: seq<string>, b: seq<string>) {
    exists i: nat :: i < |a| && i < |b| && a[..i] == b[..i] && StringLess(a[i], b[i])
  }

  /** Every dependency names another service of the topology. */
  predicate Closed(g: Graph) {
    forall n, d | n in g && d in g[n] :: d in g && d != n
  }

  ghost predicate IsPath(g: Graph, path: seq<string>) {
    forall i | 0 <= i < |path| - 1 :: path[i] in g && path[i + 1] in g[path[i]]
  }

  /** A chain of dependencies from a service back to itself. */
  ghost predicate IsCycle(g: Graph, path: seq<string>) {
    |path| >= 2 && IsPath(g, path) && path[0] == path[|path| - 1]
  }

  // ---------- The loop ----------

  function Ready(remaining: Graph): set<string> {
    set n | n in remaining && remaining[n] == {}
  }

  /** `remaining` is what is left of `g` once `started` have been started. */
  ghost predicate Left(g: Graph, started: seq<string>, remaining: Graph) {
    && (forall n :: n in remaining <==> n in g && n !in started)
    && (forall n | n in remaining :: remaining[n] == set d | d in g[n] && d !in started)
  }

  /** `order` is the beginning of an order. */
  ghost predicate Begun(g: Graph, order: seq<string>) {
    && NoDuplicates(order)
    && (forall n | n in order :: n in g)
    && (forall i | 0 <= i < |order| :: forall d | d in g[order[i]] :: d in order[..i])
  }

  /** Wherever another order first departs from `order`, it has a later name. */
  ghost predicate Beats(order: seq<string>, other: seq<string>) {
    forall i | 0 <= i < |order| && i < |other| && order[..i] == other[..i] ::
      order[i] == other[i] || StringLess(order[i], other[i])
  }

  ghost predicate Progress(g: Graph, order: seq<string>) {
    Begun(g, order) && forall other | IsOrder(g, other) :: Beats(order, other)
  }

  lemma FirstOfOrderIsReady(g: Graph, order: seq<string>, remaining: Graph, other: seq<string>)
    requires Left(g, order, remaining) && remaining != map[]
    requires IsOrder(g, other) && order <= other
    ensures |order| < |other| && other[|order|] in Ready(remaining)
  {
    var n :| n in remaining;
    assert n in other && n !in order;
    assert |order| == |other| ==> order == other;
    var i := |order|;
    assert other[..i] == order;
    assert other[i] in other && other[i] !in order;
  }

  method StartupOrder(services: Graph) returns (r: Result<seq<string>, Error>)
    ensures r.Ok? ==> IsOrder(services, r.value)
    ensures r.Ok? ==> forall other | IsOrder(services, other) :: other == r.value || Precedes(r.value, other)
    ensures r.Err? ==> r.error == Cycle && forall other :: !IsOrder(services, other)
    ensures r.Err? ==> exists stuck: set<string> :: Stuck(services, stuck)
  {
    var remaining := services;
    var order: seq<string> := [];
    while remaining != map[]
      invariant Left(services, order, remaining)
      invariant Progress(services, order)
      decreases |remaining|
    {
      var ready := Ready(remaining);
      if ready == {} {
        StuckHere(services, order, remaining);
        return Err(Cycle);
      }
      StringOrder();
      var name := Least(StringLess, ready);
      LeastExtends(services, order, remaining, name);
      Shrinks(remaining, name);
      remaining := Start(remaining, name);
      order := order + [name];
    }
    FinishedIsLeast(services, order);
    return Ok(order);
  }

  lemma Shrinks(remaining: Graph, name: string)
    requires name in remaining
    ensures |Start(remaining, name)| < |remaining|
  {
    var after := Start(remaining, name);
    assert after.Keys == remaining.Keys - {name};
    assert |after.Keys| == |after| && |remaining.Keys| == |remaining|;
  }

  function Start(remaining: Graph, name: string): Graph {
    map n | n in remaining && n != name :: remaining[n] - {name}
  }

  lemma StartLeaves(g: Graph, order: seq<string>, remaining: Graph, name: string)
    requires Left(g, order, remaining) && name in remaining
    ensures Left(g, order + [name], Start(remaining, name))
  {
    forall n | n in Start(remaining, name)
      ensures Start(remaining, name)[n] == set d | d in g[n] && d !in order + [name]
    {
      assert n in remaining;
    }
  }

  lemma ReadyExtends(g: Graph, order: seq<string>, remaining: Graph, name: string)
    requires Left(g, order, remaining) && Begun(g, order) && name in Ready(remaining)
    ensures Begun(g, order + [name])
  {
    var next := order + [name];
    assert next[..|order|] == order;
    forall d | d in g[name] ensures d in order {
      assert d !in remaining[name];
    }
    forall i | 0 <= i < |next| ensures forall d | d in g[next[i]] :: d in next[..i] {
      if i < |order| { assert next[..i] == order[..i]; }
    }
  }

  lemma LeastBeats(g: Graph, order: seq<string>, remaining: Graph, name: string, other: seq<string>)
    requires Left(g, order, remaining) && IsOrder(g, other) && Beats(order, other)
    requires name in Ready(remaining) && forall n | n in Ready(remaining) :: n == name || StringLess(name, n)
    ensures Beats(order + [name], other)
  {
    hide StringLess, IsOrder, Left;
    var next := order + [name];
    forall i | 0 <= i < |next| && i < |other| && next[..i] == other[..i]
      ensures next[i] == other[i] || StringLess(next[i], other[i])
    {
      if i < |order| {
        assert next[..i] == order[..i];
      } else {
        assert other[..i] == order;
        FirstOfOrderIsReady(g, order, remaining, other);
      }
    }
  }

  lemma LeastExtends(g: Graph, order: seq<string>, remaining: Graph, name: string)
    requires Left(g, order, remaining) && Progress(g, order)
    requires name in Ready(remaining) && forall n | n in Ready(remaining) :: n == name || StringLess(name, n)
    ensures Progress(g, order + [name])
    ensures Left(g, order + [name], Start(remaining, name))
  {
    hide StringLess, IsOrder, Left, Begun, Beats;
    ReadyExtends(g, order, remaining, name);
    StartLeaves(g, order, remaining, name);
    forall other | IsOrder(g, other) ensures Beats(order + [name], other) { LeastBeats(g, order, remaining, name, other); }
  }

  /** Once everything is started, the order found comes before every other. */
  lemma FinishedIsLeast(g: Graph, order: seq<string>)
    requires Left(g, order, map[]) && Progress(g, order)
    ensures IsOrder(g, order)
    ensures forall other | IsOrder(g, other) :: other == order || Precedes(order, other)
  {
    forall other | IsOrder(g, other) && other != order ensures Precedes(order, other) {
      SameLength(order, other);
      var i := FirstDifference(order, other);
      assert order[..i] == other[..i];
    }
  }

  lemma {:induction false} SameLength(a: seq<string>, b: seq<string>)
    requires NoDuplicates(a) && NoDuplicates(b) && forall n :: n in a <==> n in b
    ensures |a| == |b|
  {
    SizeOfSet(a);
    SizeOfSet(b);
    assert (set n | n in a) == (set n | n in b);
  }

  lemma {:induction false} SizeOfSet(a: seq<string>)
    requires NoDuplicates(a)
    ensures |set n | n in a| == |a|
  {
    if a != [] {
      var front := a[..|a| - 1];
      SizeOfSet(front);
      assert a == front + [a[|a| - 1]];
      assert (set n | n in a) == (set n | n in front) + {a[|a| - 1]};
    }
  }

  lemma FirstDifference(a: seq<string>, b: seq<string>) returns (i: nat)
    requires |a| == |b| && a != b
    ensures i < |a| && a[..i] == b[..i] && a[i] != b[i]
  {
    i := 0;
    while a[i] == b[i]
      invariant i < |a| && a[..i] == b[..i]
      invariant exists k :: i <= k < |a| && a[k] != b[k]
      decreases |a| - i
    {
      i := i + 1;
      assert a[..i] == a[..i - 1] + [a[i - 1]] && b[..i] == b[..i - 1] + [b[i - 1]];
    }
  }

  // ---------- Failure means a cycle ----------

  /** A set of services each of which waits for something that is not outside the set. */
  ghost predicate Stuck(g: Graph, stuck: set<string>) {
    stuck != {} && forall n | n in stuck :: n in g && exists d :: d in g[n] && (d in stuck || d !in g)
  }

  lemma StuckHere(g: Graph, order: seq<string>, remaining: Graph)
    requires Left(g, order, remaining) && remaining != map[] && Ready(remaining) == {}
    ensures Stuck(g, remaining.Keys)
    ensures forall other :: !IsOrder(g, other)
  {
    forall n | n in remaining ensures exists d :: d in g[n] && (d in remaining.Keys || d !in g) {
      assert n !in Ready(remaining);
      var d :| d in remaining[n];
      assert d in g[n] && d !in order;
    }
    assert remaining.Keys != {};
    forall other ensures !IsOrder(g, other) { StuckHasNoOrder(g, other, remaining.Keys); }
  }

  lemma StuckHasNoOrder(g: Graph, other: seq<string>, stuck: set<string>)
    requires Stuck(g, stuck)
    ensures !IsOrder(g, other)
  {
    var s :| s in stuck;
    if IsOrder(g, other) { NoneStuck(g, other, stuck, |other|); }
  }

  /** The first service of a stuck set to start would start too early. */
  lemma {:induction false} NoneStuck(g: Graph, other: seq<string>, stuck: set<string>, n: nat)
    requires Stuck(g, stuck) && IsOrder(g, other) && n <= |other|
    ensures forall i | 0 <= i < n :: other[i] !in stuck
  {
    if n > 0 {
      NoneStuck(g, other, stuck, n - 1);
      forall d | d in g[other[n - 1]] ensures d !in stuck && d in g {
        assert d in other[..n - 1];
      }
    }
  }

  /** In a stuck set of a closed graph, walk from dependency to dependency until a service repeats. */
  lemma {:induction false} WalkStuck(g: Graph, stuck: set<string>, length: nat) returns (path: seq<string>)
    requires Closed(g) && Stuck(g, stuck)
    ensures |path| == length + 1 && IsPath(g, path) && forall n | n in path :: n in stuck
  {
    hide Closed, Stuck;
    if length == 0 {
      var n := AnyStuck(g, stuck);
      path := [n];
    } else {
      var shorter := WalkStuck(g, stuck, length - 1);
      var d := NextStuck(g, stuck, shorter[|shorter| - 1]);
      path := shorter + [d];
    }
  }

  lemma AnyStuck(g: Graph, stuck: set<string>) returns (n: string)
    requires Stuck(g, stuck)
    ensures n in stuck
  {
    n :| n in stuck;
  }

  lemma NextStuck(g: Graph, stuck: set<string>, n: string) returns (d: string)
    requires Closed(g) && Stuck(g, stuck) && n in stuck
    ensures n in g && d in g[n] && d in stuck
  {
    d :| d in g[n] && (d in stuck || d !in g);
  }

  lemma Pigeonhole(path: seq<string>, stuck: set<string>)
    requires (forall n | n in path :: n in stuck) && |path| > |stuck|
    ensures !NoDuplicates(path)
  {
    var seen := set n | n in path;
    assert stuck == seen + (stuck - seen);
    if NoDuplicates(path) { SizeOfSet(path); }
  }

  /** A set of services that all wait for one another contains a cycle. */
  lemma StuckHasCycle(g: Graph, stuck: set<string>) returns (cycle: seq<string>)
    requires Closed(g) && Stuck(g, stuck)
    ensures IsCycle(g, cycle)
  {
    var path := WalkStuck(g, stuck, |stuck|);
    Pigeonhole(path, stuck);
    var i, j :| 0 <= i < j < |path| && path[i] == path[j];
    cycle := path[i..j + 1];
    forall k | 0 <= k < |cycle| - 1 ensures cycle[k] in g && cycle[k + 1] in g[cycle[k]] {
      assert path[i + k] in g && path[i + k + 1] in g[path[i + k]];
    }
  }

  /** On a path through an order, each service comes before the one that waits for it. */
  lemma {:induction false} OrderDescends(g: Graph, order: seq<string>, path: seq<string>, i: nat, j: nat)
    requires IsOrder(g, order) && IsPath(g, path) && |path| >= 2
    requires i < |order| && j < |order| && order[i] == path[0] && order[j] == path[|path| - 1]
    ensures j < i
    decreases |path|
  {
    assert path[0] in g && path[1] in g[path[0]];
    assert path[1] in order[..i];
    var k :| 0 <= k < i && order[k] == path[1];
    var rest := path[1..];
    if |rest| >= 2 {
      forall m | 0 <= m < |rest| - 1 ensures rest[m] in g && rest[m + 1] in g[rest[m]] {
        assert path[m + 1] in g && path[m + 2] in g[path[m + 1]];
      }
      OrderDescends(g, order, rest, k, j);
    }
  }

  lemma CycleHasNoOrder(g: Graph, cycle: seq<string>, order: seq<string>)
    requires IsCycle(g, cycle)
    ensures !IsOrder(g, order)
  {
    if IsOrder(g, order) {
      assert cycle[0] in g && cycle[0] in order;
      var i :| 0 <= i < |order| && order[i] == cycle[0];
      OrderDescends(g, order, cycle, i, i);
    }
  }

  /** For the dependencies the compiler lets through: the startup order exists exactly when there is no cycle. */
  lemma OrderIffAcyclic(g: Graph)
    requires Closed(g)
    ensures (exists order :: IsOrder(g, order)) <==> (forall cycle :: !IsCycle(g, cycle))
  {
    if order, cycle :| IsOrder(g, order) && IsCycle(g, cycle) {
      CycleHasNoOrder(g, cycle, order);
    }
    if forall order :: !IsOrder(g, order) {
      var stuck := NoOrderIsStuck(g);
      var cycle := StuckHasCycle(g, stuck);
    }
  }

  /** What the loop does, told as a proof: without an order it gets stuck. */
  lemma NoOrderIsStuck(g: Graph) returns (stuck: set<string>)
    requires forall order :: !IsOrder(g, order)
    ensures Stuck(g, stuck)
  {
    var remaining, order := g, [];
    while remaining != map[] && Ready(remaining) != {}
      invariant Left(g, order, remaining) && Progress(g, order)
      decreases |remaining|
    {
      StringOrder();
      var name := Least(StringLess, Ready(remaining));
      LeastExtends(g, order, remaining, name);
      Shrinks(remaining, name);
      remaining := Start(remaining, name);
      order := order + [name];
    }
    if remaining == map[] { FinishedIsLeast(g, order); }
    StuckHere(g, order, remaining);
    stuck := remaining.Keys;
  }

  // ---------- The dependency checks of the compiler ----------

  /** Compilation accepts dependencies that name another service, and only then asks for the startup order. */
  method CompileOrder(dependsOn: Graph) returns (r: Result<seq<string>, Error>)
    ensures r == Err(InvalidDependency) <==> !Closed(dependsOn)
    ensures Closed(dependsOn) ==> (r.Ok? <==> forall cycle :: !IsCycle(dependsOn, cycle))
    ensures r.Ok? ==> IsOrder(dependsOn, r.value)
    ensures r.Ok? ==> forall other | IsOrder(dependsOn, other) :: other == r.value || Precedes(r.value, other)
  {
    hide IsOrder, IsCycle, Precedes, SortedNames;
    var names := SortedNames(dependsOn.Keys);
    for i := 0 to |names|
      invariant forall k | 0 <= k < i :: forall d | d in dependsOn[names[k]] :: d in dependsOn && d != names[k]
    {
      var dependencies := dependsOn[names[i]];
      if exists d | d in dependencies :: d == names[i] || d !in dependsOn {
        assert names[i] in names;
        return Err(InvalidDependency);
      }
    }
    assert Closed(dependsOn) by {
      forall n, d | n in dependsOn && d in dependsOn[n] ensures d in dependsOn && d != n { assert n in names; }
    }
    OrderIffAcyclic(dependsOn);
    r := StartupOrder(dependsOn);
  }
}
