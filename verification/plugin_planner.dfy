/** Dependency planning for plugin installation (apps/desktop/src/pluginInstallPlan.ts) and the ordered
    install loop that relies on it (apps/desktop/src/PluginManager.tsx, `installOfficial`). */
module PluginPlanner {
  import opened Wrappers

  const MAX_PLUGINS: nat := 100

  type Id = string

  datatype Dependency = Dependency(id: Id, version: string)

  /** A plugin with its manifest; `change` says whether installing or enabling it is needed. */
  datatype Node = Node(id: Id, version: string, dependencies: seq<Dependency>, change: bool)

  datatype PlanError = VersionConflict(id: Id) | TooMany | Cycle(id: Id) | Unresolved(id: Id) | ResolverFailed

  datatype Answer = Failed | Missing | Found(node: Node)

  datatype Call = Call(id: Id, requirement: string, selectedVersion: Option<string>)

  /** The resolver is outside code with state of its own: its answer may depend on the call number. */
  type Resolver = (nat, Call) -> Answer

  // ---------------------------------------------------------------- dependency graphs

  type Graph = map<Id, Node>

  predicate DependsOn(n: Node, id: Id)
  {
    exists k :: 0 <= k < |n.dependencies| && n.dependencies[k].id == id
  }

  /** Each id on the path names a selected node that depends on the next. */
  ghost predicate IsPath(g: Graph, path: seq<Id>)
  {
    && (forall k :: 0 <= k < |path| ==> path[k] in g)
    && forall k, l :: 0 <= k < |path| && 0 <= l < |path| && l == k + 1 ==> DependsOn(g[path[k]], path[l])
  }

  ghost predicate IsCycle(g: Graph, path: seq<Id>)
  {
    path != [] && IsPath(g, path) && DependsOn(g[path[|path|-1]], path[0])
  }

  predicate Occurs(ns: seq<Node>, upto: nat, id: Id)
    requires upto <= |ns|
  {
    exists j :: 0 <= j < upto && ns[j].id == id
  }

  /** Ids are distinct and every dependency comes strictly before its dependent. */
  ghost predicate Topological(ns: seq<Node>)
  {
    && (forall i, j :: 0 <= i < j < |ns| ==> ns[i].id != ns[j].id)
    && forall i, k :: 0 <= i < |ns| && 0 <= k < |ns[i].dependencies| ==> Occurs(ns, i, ns[i].dependencies[k].id)
  }

  ghost predicate Submitted(calls: seq<Call>, d: Dependency)
  {
    exists c :: 0 <= c < |calls| && calls[c].id == d.id && calls[c].requirement == d.version
  }

  ghost predicate AllSubmitted(ns: seq<Node>, calls: seq<Call>)
  {
    forall i, k :: 0 <= i < |ns| && 0 <= k < |ns[i].dependencies| ==> Submitted(calls, ns[i].dependencies[k])
  }

  function Position(ns: seq<Node>, id: Id): (i: nat)
    ensures i <= |ns|
    ensures i < |ns| ==> ns[i].id == id
    ensures forall j :: 0 <= j < i ==> ns[j].id != id
  {
    if ns == [] then 0 else if ns[0].id == id then 0 else 1 + Position(ns[1..], id)
  }

  /** Along a path positions in a topological order strictly fall, so no path closes. */
  lemma {:induction false} PathFalls(g: Graph, ns: seq<Node>, path: seq<Id>)
    requires Topological(ns) && IsPath(g, path) && path != []
    requires forall i :: 0 <= i < |ns| ==> ns[i].id in g && g[ns[i].id] == ns[i]
    requires Position(ns, path[0]) < |ns|
    ensures Position(ns, path[|path|-1]) <= Position(ns, path[0])
    ensures |path| > 1 ==> Position(ns, path[|path|-1]) < Position(ns, path[0])
    decreases |path|
  {
    if |path| > 1 {
      var i := Position(ns, path[0]);
      EarlierPosition(ns, i, path[1]);
      var rest := path[1..];
      assert IsPath(g, rest) by {
        forall k, l | 0 <= k < |rest| && 0 <= l < |rest| && l == k + 1 ensures DependsOn(g[rest[k]], rest[l]) {
          assert rest[k] == path[k + 1] && rest[l] == path[l + 1];
        }
      }
      PathFalls(g, ns, rest);
      assert rest[|rest|-1] == path[|path|-1];
    }
  }

  lemma {:induction false} EarlierPosition(ns: seq<Node>, i: nat, id: Id)
    requires Topological(ns) && i < |ns| && DependsOn(ns[i], id)
    ensures Position(ns, id) < i
  {
    var k :| 0 <= k < |ns[i].dependencies| && ns[i].dependencies[k].id == id;
    assert Occurs(ns, i, ns[i].dependencies[k].id);
  }

  /** A planned order rules out every dependency cycle among the planned plugins. */
  lemma OrderHasNoCycle(g: Graph, ns: seq<Node>, path: seq<Id>)
    requires Topological(ns)
    requires forall i :: 0 <= i < |ns| ==> ns[i].id in g && g[ns[i].id] == ns[i]
    requires forall id :: id in g ==> Occurs(ns, |ns|, id)
    ensures !IsCycle(g, path)
  {
    if IsCycle(g, path) {
      var last := path[|path|-1];
      assert Occurs(ns, |ns|, path[0]) && Occurs(ns, |ns|, last);
      PathFalls(g, ns, path);
      EarlierPosition(ns, Position(ns, last), path[0]);
    }
  }

  // ---------------------------------------------------------------- what the planner maintains

  /** The key at `k` is a root or a dependency of a plugin selected before it. */
  ghost predicate Introduced(roots: set<Id>, g: Graph, keys: seq<Id>, k: nat)
    requires k < |keys|
  {
    keys[k] in roots || exists j :: 0 <= j < k && keys[j] in g && DependsOn(g[keys[j]], keys[k])
  }

  ghost predicate Grown(roots: set<Id>, g: Graph, keys: seq<Id>)
  {
    forall k: nat :: k < |keys| ==> Introduced(roots, g, keys, k)
  }

  ghost predicate ReachableFrom(roots: set<Id>, g: Graph, id: Id)
  {
    exists path :: path != [] && IsPath(g, path) && path[0] in roots && path[|path|-1] == id
  }

  /** Every selected id is reachable from a root. */
  lemma {:induction false} GrownReachable(roots: set<Id>, g: Graph, keys: seq<Id>, k: nat)
    requires Grown(roots, g, keys) && k < |keys| && forall j :: 0 <= j < |keys| ==> keys[j] in g
    ensures ReachableFrom(roots, g, keys[k])
  {
    assert Introduced(roots, g, keys, k);
    if keys[k] in roots {
      assert IsPath(g, [keys[k]]);
    } else {
      var j :| 0 <= j < k && keys[j] in g && DependsOn(g[keys[j]], keys[k]);
      GrownReachable(roots, g, keys, j);
      var path :| path != [] && IsPath(g, path) && path[0] in roots && path[|path|-1] == keys[j];
      var longer := path + [keys[k]];
      assert IsPath(g, longer) && longer[0] in roots && longer[|longer|-1] == keys[k];
    }
  }

  /** `keys` is the insertion order of `selected`; `active` is the path being visited. */
  datatype State = State(selected: Graph, keys: seq<Id>, active: seq<Id>, done: set<Id>, ordered: seq<Node>,
                         calls: seq<Call>)

  ghost predicate Selection(roots: set<Id>, s: State)
  {
    && |s.selected| <= MAX_PLUGINS
    && (forall id :: id in s.selected <==> id in s.keys)
    && (forall k, l :: 0 <= k < l < |s.keys| ==> s.keys[k] != s.keys[l])
    && (forall id :: id in s.selected ==> s.selected[id].id == id)
    && Grown(roots, s.selected, s.keys)
  }

  ghost predicate Visiting(s: State)
  {
    && IsPath(s.selected, s.active)
    && (forall k :: 0 <= k < |s.active| ==> s.active[k] !in s.done)
    && (forall k, l :: 0 <= k < l < |s.active| ==> s.active[k] != s.active[l])
  }

  ghost predicate Ordering(s: State)
  {
    && (forall id :: id in s.done <==> Occurs(s.ordered, |s.ordered|, id))
    && (forall i :: 0 <= i < |s.ordered| ==>
      s.ordered[i].id in s.selected && s.selected[s.ordered[i].id] == s.ordered[i])
    && Topological(s.ordered) && AllSubmitted(s.ordered, s.calls)
  }

  ghost predicate Valid(roots: set<Id>, s: State)
  {
    Selection(roots, s) && Visiting(s) && Ordering(s)
  }

  /** Nothing selected, ordered or submitted is ever taken back. */
  ghost predicate Extends(s: State, t: State)
  {
    && (forall id :: id in s.selected ==> id in t.selected && t.selected[id] == s.selected[id])
    && s.keys <= t.keys && s.done <= t.done && s.ordered <= t.ordered && s.calls <= t.calls
    && t.active == s.active
  }

  lemma SubmittedMore(calls: seq<Call>, call: Call, d: Dependency)
    ensures Submitted(calls, d) ==> Submitted(calls + [call], d)
    ensures call.id == d.id && call.requirement == d.version ==> Submitted(calls + [call], d)
  {
    var more := calls + [call];
    if Submitted(calls, d) {
      var c :| 0 <= c < |calls| && calls[c].id == d.id && calls[c].requirement == d.version;
      assert more[c] == calls[c];
    }
    assert more[|calls|] == call;
  }

  lemma CallKeeps(roots: set<Id>, s: State, call: Call)
    requires Valid(roots, s)
    ensures Valid(roots, s.(calls := s.calls + [call]))
  {
    hide Topological, Grown, IsPath, Occurs, Submitted;
    forall i, k | 0 <= i < |s.ordered| && 0 <= k < |s.ordered[i].dependencies|
      ensures Submitted(s.calls + [call], s.ordered[i].dependencies[k])
    {
      SubmittedMore(s.calls, call, s.ordered[i].dependencies[k]);
    }
  }

  lemma PathGrows(g: Graph, path: seq<Id>, id: Id)
    requires IsPath(g, path) && id in g && (path != [] ==> DependsOn(g[path[|path|-1]], id))
    ensures IsPath(g, path + [id])
  {
    hide DependsOn;
  }

  /** A dependency cycle closes exactly where the walk meets a plugin it is still visiting. */
  lemma ActiveCycle(g: Graph, active: seq<Id>, id: Id)
    requires IsPath(g, active) && id in active && DependsOn(g[active[|active|-1]], id)
    ensures exists path :: IsCycle(g, path) && path[0] == id
  {
    var k :| 0 <= k < |active| && active[k] == id;
    var path := active[k..];
    forall a, b | 0 <= a < |path| && 0 <= b < |path| && b == a + 1 ensures DependsOn(g[path[a]], path[b]) {
      assert path[a] == active[k + a] && path[b] == active[k + b];
    }
    assert path[|path|-1] == active[|active|-1];
    assert IsCycle(g, path) && path[0] == id;
  }

  lemma ActiveBound(roots: set<Id>, s: State)
    requires Valid(roots, s)
    ensures |s.active| <= |s.selected|
  {
    DistinctCount(s.active);
    assert forall k :: 0 <= k < |s.active| ==> s.active[k] in s.selected;
    SubsetCount(IdSet(s.active), s.selected.Keys);
  }

  function IdSet(ids: seq<Id>): (r: set<Id>)
    ensures forall id :: id in r <==> id in ids
  {
    if ids == [] then {} else IdSet(ids[..|ids|-1]) + {ids[|ids|-1]}
  }

  lemma {:induction false} DistinctCount(ids: seq<Id>)
    requires forall k, l :: 0 <= k < l < |ids| ==> ids[k] != ids[l]
    ensures |IdSet(ids)| == |ids|
  {
    if ids != [] {
      DistinctCount(ids[..|ids|-1]);
    }
  }

  lemma EnterKeeps(roots: set<Id>, s: State, id: Id)
    requires Valid(roots, s) && id in s.selected && id !in s.done && id !in s.active
    requires s.active != [] ==> DependsOn(s.selected[s.active[|s.active|-1]], id)
    ensures Valid(roots, s.(active := s.active + [id]))
  {
    hide Ordering, Selection;
    PathGrows(s.selected, s.active, id);
    assert Ordering(s.(active := s.active + [id])) && Selection(roots, s.(active := s.active + [id])) by {
      OtherParts(roots, s, s.active + [id]);
    }
  }

  lemma OtherParts(roots: set<Id>, s: State, active: seq<Id>)
    ensures Ordering(s.(active := active)) == Ordering(s)
    ensures Selection(roots, s.(active := active)) == Selection(roots, s)
  {
  }

  lemma GrownMore(roots: set<Id>, g: Graph, keys: seq<Id>, parent: Id, child: Node)
    requires Grown(roots, g, keys) && parent in keys && parent in g && DependsOn(g[parent], child.id) && child.id !in g
    ensures Grown(roots, g[child.id := child], keys + [child.id])
  {
    hide DependsOn;
    var h, more := g[child.id := child], keys + [child.id];
    forall k: nat | k < |more| ensures Introduced(roots, h, more, k) {
      if k < |keys| {
        assert Introduced(roots, g, keys, k);
        if keys[k] !in roots {
          var j :| 0 <= j < k && keys[j] in g && DependsOn(g[keys[j]], keys[k]);
          assert more[j] == keys[j] && h[more[j]] == g[keys[j]];
        }
      } else {
        var j :| 0 <= j < |keys| && keys[j] == parent;
        assert more[j] == parent && h[parent] == g[parent];
      }
    }
  }

  function Selecting(s: State, child: Node): State
  {
    s.(selected := s.selected[child.id := child], keys := s.keys + [child.id])
  }

  lemma SelectionMore(roots: set<Id>, s: State, parent: Id, child: Node)
    requires Selection(roots, s) && child.id !in s.selected && |s.selected| < MAX_PLUGINS
    requires parent in s.selected && DependsOn(s.selected[parent], child.id)
    ensures Selection(roots, Selecting(s, child))
  {
    GrownMore(roots, s.selected, s.keys, parent, child);
    hide Grown, DependsOn;
    var t := Selecting(s, child);
    assert |t.selected| == |s.selected| + 1;
  }

  lemma VisitingMore(s: State, child: Node)
    requires Visiting(s) && Ordering(s) && child.id !in s.selected
    ensures Visiting(Selecting(s, child)) && Ordering(Selecting(s, child)) && Extends(s, Selecting(s, child))
  {
    hide Topological, AllSubmitted, Occurs, DependsOn;
  }

  /** Selecting a dependency of the plugin being visited. */
  lemma SelectKeeps(roots: set<Id>, s: State, child: Node)
    requires Valid(roots, s) && child.id !in s.selected && |s.selected| < MAX_PLUGINS
    requires s.active != [] && DependsOn(s.selected[s.active[|s.active|-1]], child.id)
    ensures Valid(roots, Selecting(s, child)) && Extends(s, Selecting(s, child))
  {
    hide Selection, Ordering, DependsOn, Extends, Selecting;
    SelectionMore(roots, s, s.active[|s.active|-1], child);
    VisitingMore(s, child);
  }

  lemma OrderedMore(ns: seq<Node>, n: Node)
    requires Topological(ns) && !Occurs(ns, |ns|, n.id)
    requires forall k :: 0 <= k < |n.dependencies| ==> Occurs(ns, |ns|, n.dependencies[k].id)
    ensures Topological(ns + [n])
    ensures forall id :: Occurs(ns + [n], |ns| + 1, id) <==> Occurs(ns, |ns|, id) || id == n.id
  {
    var more := ns + [n];
    forall i, k | 0 <= i < |more| && 0 <= k < |more[i].dependencies|
      ensures Occurs(more, i, more[i].dependencies[k].id) {
      var id := more[i].dependencies[k].id;
      if i < |ns| {
        assert Occurs(ns, i, ns[i].dependencies[k].id);
      }
      var j :| 0 <= j < i && ns[j].id == id;
      assert more[j] == ns[j];
    }
    forall id ensures Occurs(more, |ns| + 1, id) <==> Occurs(ns, |ns|, id) || id == n.id {
      if Occurs(ns, |ns|, id) {
        var j :| 0 <= j < |ns| && ns[j].id == id;
        assert more[j] == ns[j];
      }
      assert more[|ns|] == n;
    }
    forall i, j | 0 <= i < j < |more| ensures more[i].id != more[j].id {
      assert j == |ns| ==> Occurs(ns, |ns|, more[i].id) by {
        assert i < |ns| ==> ns[i].id == more[i].id;
      }
    }
  }

  /** Finishing the plugin being visited, all its dependencies being done and submitted. */
  /** The first `n` dependencies are done, with their ranges submitted. */
  ghost predicate Satisfied(s: State, ds: seq<Dependency>, n: nat)
    requires n <= |ds|
  {
    forall k :: 0 <= k < n ==> ds[k].id in s.done && Submitted(s.calls, ds[k])
  }

  lemma LeaveKeeps(roots: set<Id>, s: State, node: Node)
    requires Valid(roots, s) && node.id in s.selected && s.selected[node.id] == node
    requires s.active != [] && s.active[|s.active|-1] == node.id
    requires Satisfied(s, node.dependencies, |node.dependencies|)
    ensures Valid(roots, s.(
      active := s.active[..|s.active|-1], done := s.done + {node.id}, ordered := s.ordered + [node]))
  {
    var t := s.(active := s.active[..|s.active|-1], done := s.done + {node.id}, ordered := s.ordered + [node]);
    OrderedMore(s.ordered, node);
    hide Topological, Occurs, Grown, Submitted, DependsOn;
    assert Ordering(t);
    assert Visiting(t);
  }

  // ---------------------------------------------------------------- where the nodes and answers come from

  /** The node is the last of the first `upto` roots with its id. */
  ghost predicate LastRoot(given: seq<Node>, upto: nat, node: Node)
    requires upto <= |given|
  {
    exists j :: 0 <= j < upto && given[j] == node && forall k :: j < k < upto ==> given[k].id != node.id
  }

  /** The resolver was asked to choose a version for this id. */
  ghost predicate Chosen(calls: seq<Call>, id: Id)
  {
    exists c :: 0 <= c < |calls| && calls[c].id == id && calls[c].selectedVersion.None?
  }

  /** Every selected node is the last root with its id, or one the resolver was asked to choose. */
  ghost predicate Sourced(given: seq<Node>, g: Graph, calls: seq<Call>)
  {
    forall id :: id in g ==> if Occurs(given, |given|, id) then LastRoot(given, |given|, g[id]) else Chosen(calls, id)
  }

  /** Call number `c` got the answer the planner goes by: a choice is the selected node itself, and a
      check of the selected version did not fail. */
  ghost predicate HonestAt(resolve: Resolver, g: Graph, calls: seq<Call>, c: nat)
    requires c < |calls|
  {
    var (call, answer) := (calls[c], resolve(c, calls[c]));
    && call.id in g
    && match call.selectedVersion
       case Some(v) => v == g[call.id].version && !answer.Failed?
       case None => answer == Found(g[call.id])
  }

  ghost predicate Honest(resolve: Resolver, g: Graph, calls: seq<Call>, upto: nat)
    requires upto <= |calls|
  {
    forall c: nat :: c < upto ==> HonestAt(resolve, g, calls, c)
  }

  /** The call submits a version range that some selected node asks for. */
  ghost predicate Wanted(g: Graph, call: Call)
  {
    exists id, k :: id in g && 0 <= k < |g[id].dependencies|
      && g[id].dependencies[k] == Dependency(call.id, call.requirement)
  }

  ghost predicate Asked(g: Graph, calls: seq<Call>)
  {
    forall c :: 0 <= c < |calls| ==> Wanted(g, calls[c])
  }

  /** Selection and call log agree with the roots and with what the resolver answered. */
  ghost predicate Evidence(given: seq<Node>, resolve: Resolver, g: Graph, calls: seq<Call>)
  {
    Sourced(given, g, calls) && Honest(resolve, g, calls, |calls|) && Asked(g, calls)
  }

  /** An answer the planner cannot go on with, for the call it was given to. */
  ghost predicate StopsAt(g: Graph, call: Call, answer: Answer, error: PlanError)
  {
    match error
    case VersionConflict(_) => false
    case Cycle(_) => false
    case ResolverFailed =>
      answer.Failed? && call.selectedVersion == if call.id in g then Some(g[call.id].version) else None
    case Unresolved(id) =>
      && call.id == id && id !in g && call.selectedVersion.None?
      && (answer.Missing? || (answer.Found? && answer.node.id != id))
    case TooMany =>
      && call.id !in g && call.selectedVersion.None? && |g| == MAX_PLUGINS
      && answer.Found? && answer.node.id == call.id
  }

  /** Why the planner stopped: a cycle through the plugin named, or the answer to the last call, all
      answers before it having been honoured. */
  ghost predicate Failure(resolve: Resolver, g: Graph, calls: seq<Call>, error: PlanError)
  {
    match error
    case Cycle(id) => Honest(resolve, g, calls, |calls|) && exists path :: IsCycle(g, path) && path[0] == id
    case _ =>
      && calls != [] && Honest(resolve, g, calls, |calls| - 1)
      && StopsAt(g, calls[|calls|-1], resolve(|calls| - 1, calls[|calls|-1]), error)
  }

  ghost predicate Stopped(given: seq<Node>, resolve: Resolver, g: Graph, calls: seq<Call>, error: PlanError)
  {
    Sourced(given, g, calls) && Asked(g, calls) && Failure(resolve, g, calls, error)
  }

  lemma SourcedMore(given: seq<Node>, g: Graph, calls: seq<Call>, call: Call)
    requires Sourced(given, g, calls)
    ensures Sourced(given, g, calls + [call])
  {
    hide LastRoot, Occurs;
    var more := calls + [call];
    forall id | id in g && !Occurs(given, |given|, id) ensures Chosen(more, id) {
      var c :| 0 <= c < |calls| && calls[c].id == id && calls[c].selectedVersion.None?;
      assert more[c] == calls[c];
    }
  }

  lemma HonestMore(resolve: Resolver, g: Graph, calls: seq<Call>, call: Call)
    requires Honest(resolve, g, calls, |calls|)
    ensures Honest(resolve, g, calls + [call], |calls|)
    ensures HonestAt(resolve, g, calls + [call], |calls|) ==> Honest(resolve, g, calls + [call], |calls| + 1)
  {
    forall c: nat | c < |calls| ensures HonestAt(resolve, g, calls + [call], c) {
      assert HonestAt(resolve, g, calls, c);
    }
  }

  lemma AskedMore(g: Graph, calls: seq<Call>, parent: Id, d: Dependency, call: Call)
    requires Asked(g, calls) && parent in g && d in g[parent].dependencies
    requires call.id == d.id && call.requirement == d.version
    ensures Asked(g, calls + [call])
  {
    var k :| 0 <= k < |g[parent].dependencies| && g[parent].dependencies[k] == d;
    assert Wanted(g, call);
    hide Wanted;
  }

  /** A call for a dependency of a selected plugin: its answer is honoured, or stops the planner. */
  lemma CallEvidence(given: seq<Node>, resolve: Resolver, g: Graph, calls: seq<Call>, parent: Id, d: Dependency,
                     call: Call)
    requires Evidence(given, resolve, g, calls)
    requires parent in g && d in g[parent].dependencies && call.id == d.id && call.requirement == d.version
    ensures HonestAt(resolve, g, calls + [call], |calls|) ==> Evidence(given, resolve, g, calls + [call])
    ensures forall error :: StopsAt(g, call, resolve(|calls|, call), error) ==>
      Stopped(given, resolve, g, calls + [call], error)
  {
    hide Sourced, Asked, Honest, HonestAt, StopsAt;
    SourcedMore(given, g, calls, call);
    AskedMore(g, calls, parent, d, call);
    HonestMore(resolve, g, calls, call);
    forall error | StopsAt(g, call, resolve(|calls|, call), error) ensures Failure(resolve, g, calls + [call], error) {
      assert !error.Cycle? by { StopsNever(g, call, resolve(|calls|, call), error); }
      assert (calls + [call])[|calls|] == call;
    }
  }

  lemma StopsNever(g: Graph, call: Call, answer: Answer, error: PlanError)
    ensures StopsAt(g, call, answer, error) ==> !error.Cycle? && !error.VersionConflict?
  {
  }

  /** Selecting the node the resolver chose keeps all the evidence. */
  lemma ChoiceEvidence(given: seq<Node>, resolve: Resolver, g: Graph, calls: seq<Call>, parent: Id, d: Dependency,
                       child: Node)
    requires Evidence(given, resolve, g, calls) && d.id !in g && child.id == d.id
    requires parent in g && d in g[parent].dependencies
    requires resolve(|calls|, Call(d.id, d.version, None)) == Found(child)
    requires forall i :: 0 <= i < |given| ==> given[i].id in g
    ensures Evidence(given, resolve, g[d.id := child], calls + [Call(d.id, d.version, None)])
  {
    var call, h := Call(d.id, d.version, None), g[d.id := child];
    var more := calls + [call];
    assert Honest(resolve, h, calls, |calls|) && Asked(h, calls) by { GraphMore(resolve, g, calls, child); }
    hide Honest, Asked, Wanted;
    AskedMore(h, calls, parent, d, call);
    HonestMore(resolve, h, calls, call);
    ChoiceSourced(given, g, calls, call, child);
  }

  lemma GraphMore(resolve: Resolver, g: Graph, calls: seq<Call>, child: Node)
    requires child.id !in g && Honest(resolve, g, calls, |calls|) && Asked(g, calls)
    ensures var h := g[child.id := child]; Honest(resolve, h, calls, |calls|) && Asked(h, calls)
  {
    var h := g[child.id := child];
    forall c: nat | c < |calls| ensures HonestAt(resolve, h, calls, c) {
      assert HonestAt(resolve, g, calls, c);
    }
    forall c | 0 <= c < |calls| ensures Wanted(h, calls[c]) {
      assert Wanted(g, calls[c]);
      var id, k :| id in g && 0 <= k < |g[id].dependencies|
        && g[id].dependencies[k] == Dependency(calls[c].id, calls[c].requirement);
      assert id in h && h[id].dependencies[k] == Dependency(calls[c].id, calls[c].requirement);
    }
  }

  lemma ChoiceSourced(given: seq<Node>, g: Graph, calls: seq<Call>, call: Call, child: Node)
    requires Sourced(given, g, calls) && child.id !in g && call.id == child.id && call.selectedVersion.None?
    requires forall i :: 0 <= i < |given| ==> given[i].id in g
    ensures Sourced(given, g[child.id := child], calls + [call])
  {
    hide LastRoot;
    SourcedMore(given, g, calls, call);
    assert (calls + [call])[|calls|] == call;
    assert !Occurs(given, |given|, child.id);
  }

  lemma ExtendsTransitive(a: State, b: State, c: State)
    requires Extends(a, b) && Extends(b, c)
    ensures Extends(a, c)
  {
  }

  class Planner {
    const resolve: Resolver
    ghost const given: seq<Node>
    ghost const roots: set<Id>
    var selected: Graph
    var keys: seq<Id>
    var active: seq<Id>
    var done: set<Id>
    var ordered: seq<Node>
    var calls: seq<Call>

    function View(): State
      reads this
    {
      State(selected, keys, active, done, ordered, calls)
    }

    /** The call log so far agrees with the roots and the resolver, and no root was dropped. */
    ghost predicate Backed()
      reads this
    {
      && Evidence(given, resolve, selected, calls)
      && forall i :: 0 <= i < |given| ==> given[i].id in selected
    }

    constructor (resolve: Resolver, ghost given: seq<Node>, selected: Graph, keys: seq<Id>)
      ensures this.resolve == resolve && this.given == given && this.roots == IdSet(Ids(given))
      ensures View() == State(selected, keys, [], {}, [], [])
    {
      this.resolve, this.given, this.roots := resolve, given, IdSet(Ids(given));
      this.selected, this.keys := selected, keys;
      active, done, ordered, calls := [], {}, [], [];
    }

    method Ask(call: Call) returns (answer: Answer)
      modifies this`calls
      ensures calls == old(calls) + [call] && answer == resolve(|old(calls)|, call)
    {
      answer := resolve(|calls|, call);
      calls := calls + [call];
    }

    /** The selected plugin for a dependency of the plugin being visited, or the resolver's choice; the
        dependency's version range is submitted either way. */
    method Child(dependency: Dependency) returns (child: Result<Node, PlanError>)
      requires Valid(roots, View()) && Backed() && active != []
      requires dependency in selected[active[|active|-1]].dependencies
      modifies this
      ensures child.Ok? ==>
        && Valid(roots, View()) && Backed() && Extends(old(View()), View()) && Submitted(calls, dependency)
        && dependency.id in selected && child.value == selected[dependency.id]
      ensures child.Ok? && dependency.id in old(selected) ==>
        && selected == old(selected) && keys == old(keys)
        && calls == old(calls) + [Call(dependency.id, dependency.version, Some(selected[dependency.id].version))]
      ensures child.Ok? && dependency.id !in old(selected) ==>
        && selected == old(selected)[dependency.id := child.value] && keys == old(keys) + [dependency.id]
        && calls == old(calls) + [Call(dependency.id, dependency.version, None)]
        && resolve(|old(calls)|, Call(dependency.id, dependency.version, None)) == Found(child.value)
      ensures child.Err? ==> Stopped(given, resolve, selected, calls, child.error)
    {
      hide Valid, Submitted, DependsOn, Evidence, Stopped, Selecting;
      ghost var parent := active[|active|-1];
      ActiveSelected(roots, View());
      DependsAmong(selected[parent], dependency);
      if dependency.id in selected {
        var call := Call(dependency.id, dependency.version, Some(selected[dependency.id].version));
        CallKeeps(roots, View(), call);
        SubmittedMore(calls, call, dependency);
        CallEvidence(given, resolve, selected, calls, parent, dependency, call);
        var answer := Ask(call);
        if answer.Failed? {
          return Err(ResolverFailed);
        }
        return Ok(selected[dependency.id]);
      }
      var call := Call(dependency.id, dependency.version, None);
      CallKeeps(roots, View(), call);
      SubmittedMore(calls, call, dependency);
      CallEvidence(given, resolve, selected, calls, parent, dependency, call);
      ghost var before := calls;
      var answer := Ask(call);
      if answer.Failed? {
        return Err(ResolverFailed);
      }
      if answer.Missing? || answer.node.id != dependency.id {
        return Err(Unresolved(dependency.id));
      }
      if |selected| >= MAX_PLUGINS {
        assert |selected| <= MAX_PLUGINS by { SelectionSize(roots, View()); }
        return Err(TooMany);
      }
      SelectKeeps(roots, View(), answer.node);
      SelectingIs(View(), answer.node);
      ChoiceEvidence(given, resolve, selected, before, parent, dependency, answer.node);
      selected := selected[dependency.id := answer.node];
      keys := keys + [dependency.id];
      child := Ok(answer.node);
    }

    /** Depth-first visit: puts a plugin behind all its dependencies. */
    method Visit(node: Node) returns (error: Option<PlanError>)
      requires Valid(roots, View()) && Backed() && node.id in selected && selected[node.id] == node
      requires active != [] ==> DependsOn(selected[active[|active|-1]], node.id)
      modifies this
      ensures error.None? ==> Valid(roots, View()) && Backed() && Extends(old(View()), View()) && node.id in done
      ensures error.Some? ==> Stopped(given, resolve, selected, calls, error.value)
      decreases MAX_PLUGINS + 1 - |active|, 0
    {
      hide Valid, Satisfied, DependsOn, Extends, Evidence, Stopped;
      if node.id in active {
        CycleStops(roots, given, resolve, View(), node.id);
        return Some(Cycle(node.id));
      }
      ghost var was := View();
      if node.id in done {
        ExtendsItself(was);
        return None;
      }
      Enters(roots, was, node);
      active := active + [node.id];
      error := DependAll(node);
      if error.Some? {
        return;
      }
      Leaves(roots, was, View(), node);
      active := active[..|active|-1];
      done := done + {node.id};
      ordered := ordered + [node];
    }

    /** The loop over the dependencies of the plugin being visited. */
    method DependAll(node: Node) returns (error: Option<PlanError>)
      requires Valid(roots, View()) && Backed()
      requires active != [] && active[|active|-1] == node.id && node.id in selected && selected[node.id] == node
      modifies this
      ensures error.None? ==> Valid(roots, View()) && Backed() && Extends(old(View()), View())
      ensures error.None? ==> Satisfied(View(), node.dependencies, |node.dependencies|)
      ensures error.Some? ==> Stopped(given, resolve, selected, calls, error.value)
      decreases MAX_PLUGINS + 1 - |active|, 2
    {
      hide Submitted, DependsOn, Valid, Extends, Evidence, Stopped;
      ghost var entered := View();
      ExtendsItself(entered);
      var i := 0;
      while i < |node.dependencies|
        invariant 0 <= i <= |node.dependencies| && active == entered.active
        invariant Valid(roots, View()) && Backed() && Extends(entered, View())
        invariant Satisfied(View(), node.dependencies, i)
      {
        ghost var before := View();
        ExtendsParts(entered, before, node);
        error := Depend(node, i);
        if error.Some? {
          return;
        }
        ExtendsTransitive(entered, before, View());
        ExtendsParts(before, View(), node);
        KeepsSubmitted(node.dependencies, i, before, View());
        i := i + 1;
      }
      error := None;
    }

    /** One turn of the loop over the dependencies. */
    method Depend(node: Node, i: nat) returns (error: Option<PlanError>)
      requires Valid(roots, View()) && Backed() && i < |node.dependencies|
      requires active != [] && active[|active|-1] in selected && selected[active[|active|-1]] == node
      modifies this
      ensures error.None? ==> Valid(roots, View()) && Backed() && Extends(old(View()), View())
      ensures error.None? ==> node.dependencies[i].id in done && Submitted(calls, node.dependencies[i])
      ensures error.Some? ==> Stopped(given, resolve, selected, calls, error.value)
      decreases MAX_PLUGINS + 1 - |active|, 1
    {
      hide Submitted, DependsOn, Ordering, Selection, Visiting, Evidence, Stopped;
      ghost var before := View();
      var dependency := node.dependencies[i];
      DependsDirectly(node, i);
      var child := Child(dependency);
      if child.Err? {
        return Some(child.error);
      }
      ghost var chosen := View();
      ActiveKept(before, chosen, roots);
      KeyIsId(roots, chosen, dependency.id);
      error := Visit(child.value);
      if error.Some? {
        return;
      }
      ExtendsTransitive(before, chosen, View());
      KeepsSubmitted([dependency], 1, chosen, View());
      assert [dependency][0] == dependency;
    }
  }

  lemma CycleStops(roots: set<Id>, given: seq<Node>, resolve: Resolver, s: State, id: Id)
    requires Valid(roots, s) && Evidence(given, resolve, s.selected, s.calls)
    requires id in s.active && DependsOn(s.selected[s.active[|s.active|-1]], id)
    ensures Stopped(given, resolve, s.selected, s.calls, Cycle(id))
  {
    hide Sourced, Asked, Honest, IsCycle, IsPath, Selection, Ordering, DependsOn;
    ActiveCycle(s.selected, s.active, id);
  }

  lemma ActiveSelected(roots: set<Id>, s: State)
    requires Valid(roots, s) && s.active != []
    ensures s.active[|s.active|-1] in s.selected
  {
  }

  lemma SelectingIs(s: State, child: Node)
    ensures Selecting(s, child) == s.(selected := s.selected[child.id := child], keys := s.keys + [child.id])
  {
  }

  lemma DependsAmong(node: Node, d: Dependency)
    requires d in node.dependencies
    ensures DependsOn(node, d.id)
  {
    var k :| 0 <= k < |node.dependencies| && node.dependencies[k] == d;
  }

  lemma LeaveExtends(was: State, s: State, node: Node)
    requires Extends(was.(active := was.active + [node.id]), s)
    ensures Extends(was, s.(
      active := s.active[..|s.active|-1], done := s.done + {node.id}, ordered := s.ordered + [node]))
  {
  }

  lemma ExtendsParts(s: State, t: State, node: Node)
    requires Extends(s, t) && node.id in s.selected && s.selected[node.id] == node
    ensures t.active == s.active && node.id in t.selected && t.selected[node.id] == node
  {
  }

  lemma ActiveKept(s: State, t: State, roots: set<Id>)
    requires Extends(s, t) && s.active != [] && s.active[|s.active|-1] in s.selected
    ensures t.active == s.active && s.active[|s.active|-1] in t.selected
    ensures t.selected[s.active[|s.active|-1]] == s.selected[s.active[|s.active|-1]]
  {
  }

  lemma KeyIsId(roots: set<Id>, s: State, id: Id)
    requires Valid(roots, s) && id in s.selected
    ensures s.selected[id].id == id
  {
  }

  lemma DependsDirectly(node: Node, i: nat)
    requires i < |node.dependencies|
    ensures DependsOn(node, node.dependencies[i].id)
  {
  }

  lemma Enters(roots: set<Id>, was: State, node: Node)
    requires Valid(roots, was) && node.id in was.selected && was.selected[node.id] == node
    requires node.id !in was.done && node.id !in was.active
    requires was.active != [] ==> DependsOn(was.selected[was.active[|was.active|-1]], node.id)
    ensures Valid(roots, was.(active := was.active + [node.id]))
    ensures |was.active| <= MAX_PLUGINS
  {
    hide Valid, DependsOn;
    ActiveBound(roots, was);
    SelectionSize(roots, was);
    EnterKeeps(roots, was, node.id);
  }

  lemma Leaves(roots: set<Id>, was: State, s: State, node: Node)
    requires Valid(roots, s) && Extends(was.(active := was.active + [node.id]), s)
    requires node.id in was.selected && was.selected[node.id] == node
    requires Satisfied(s, node.dependencies, |node.dependencies|)
    ensures s.active != []
    ensures var t := s.(
        active := s.active[..|s.active|-1], done := s.done + {node.id}, ordered := s.ordered + [node]);
      Valid(roots, t) && Extends(was, t)
  {
    hide Valid, Satisfied, Extends;
    ExtendsParts(was.(active := was.active + [node.id]), s, node);
    LeaveKeeps(roots, s, node);
    LeaveExtends(was, s, node);
  }

  lemma SelectionSize(roots: set<Id>, s: State)
    requires Valid(roots, s)
    ensures |s.selected| <= MAX_PLUGINS
  {
  }

  lemma KeepsSubmitted(ds: seq<Dependency>, n: nat, s: State, t: State)
    requires n <= |ds| && Extends(s, t)
    ensures forall k :: 0 <= k < n && ds[k].id in s.done ==> ds[k].id in t.done
    ensures forall k :: 0 <= k < n && Submitted(s.calls, ds[k]) ==> Submitted(t.calls, ds[k])
  {
    forall k | 0 <= k < n && Submitted(s.calls, ds[k]) ensures Submitted(t.calls, ds[k]) {
      var c :| 0 <= c < |s.calls| && s.calls[c].id == ds[k].id && s.calls[c].requirement == ds[k].version;
      assert t.calls[c] == s.calls[c];
    }
  }

  // ---------------------------------------------------------------- planning an installation

  function Ids(ns: seq<Node>): (ids: seq<Id>)
    ensures |ids| == |ns| && forall i :: 0 <= i < |ns| ==> ids[i] == ns[i].id
  {
    seq(|ns|, i requires 0 <= i < |ns| => ns[i].id)
  }

  /** Two roots ask for different versions of one plugin. */
  ghost predicate Conflicting(roots: seq<Node>, upto: nat)
    requires upto <= |roots|
  {
    exists i, j :: 0 <= i < j < upto && roots[i].id == roots[j].id && roots[i].version != roots[j].version
  }

  ghost predicate ConflictsOn(roots: seq<Node>, id: Id)
  {
    exists i, j :: 0 <= i < j < |roots| && roots[i].id == roots[j].id == id && roots[i].version != roots[j].version
  }

  /** The selection after taking in the first `upto` roots. */
  ghost predicate Rooted(roots: seq<Node>, upto: nat, selected: Graph, keys: seq<Id>)
    requires upto <= |roots|
  {
    && (forall id :: id in selected <==> id in keys)
    && (forall k, l :: 0 <= k < l < |keys| ==> keys[k] != keys[l])
    && (forall id :: id in keys ==> Occurs(roots, upto, id))
    && (forall i :: 0 <= i < upto ==> roots[i].id in selected && selected[roots[i].id].version == roots[i].version)
    && (forall id :: id in selected ==> selected[id].id == id && LastRoot(roots, upto, selected[id]))
  }

  lemma OccursMore(ns: seq<Node>, i: nat)
    requires i < |ns|
    ensures forall id :: Occurs(ns, i + 1, id) <==> Occurs(ns, i, id) || id == ns[i].id
  {
    assert ns[i].id == ns[i].id;
    forall id ensures Occurs(ns, i + 1, id) <==> Occurs(ns, i, id) || id == ns[i].id {
      if Occurs(ns, i, id) {
        var j :| 0 <= j < i && ns[j].id == id;
      }
    }
  }

  /** What a finished plan promises: every selected plugin once, each behind all its dependencies, and
      every selected plugin a root or the resolver's choice for a dependency reached from a root. */
  ghost predicate Planned(roots: seq<Node>, resolve: Resolver, graph: Graph, calls: seq<Call>, plan: seq<Node>)
  {
    && |plan| <= MAX_PLUGINS
    && Topological(plan) && AllSubmitted(plan, calls)
    && (forall i :: 0 <= i < |roots| ==>
          && Occurs(plan, |plan|, roots[i].id)
          && roots[i].id in graph && graph[roots[i].id].version == roots[i].version)
    && (forall i :: 0 <= i < |plan| ==> plan[i].id in graph && graph[plan[i].id] == plan[i])
    && (forall id :: id in graph ==> Occurs(plan, |plan|, id))
    && (forall i :: 0 <= i < |plan| ==> ReachableFrom(IdSet(Ids(roots)), graph, plan[i].id))
    && (forall path :: !IsCycle(graph, path))
    && Evidence(roots, resolve, graph, calls)
  }

  /** The roots alone name more than 100 plugins, and nothing was asked. */
  ghost predicate RootsOverflow(roots: seq<Node>, g: Graph, calls: seq<Call>, error: PlanError)
  {
    error == TooMany && calls == [] && |g| > MAX_PLUGINS && forall id :: id in g <==> Occurs(roots, |roots|, id)
  }

  /** `planPluginInstallation`. `graph` holds the plugins selected and `calls` the calls made. */
  method PlanInstallation(roots: seq<Node>, resolve: Resolver)
    returns (plan: Result<seq<Node>, PlanError>, ghost graph: Graph, ghost calls: seq<Call>)
    ensures plan.Ok? ==> Planned(roots, resolve, graph, calls, plan.value)
    ensures plan.Err? && plan.error.VersionConflict? <==> Conflicting(roots, |roots|)
    ensures plan.Err? && plan.error.VersionConflict? ==> ConflictsOn(roots, plan.error.id)
    ensures plan.Err? && !plan.error.VersionConflict? ==>
      Stopped(roots, resolve, graph, calls, plan.error) || RootsOverflow(roots, graph, calls, plan.error)
  {
    hide Selection, Visiting, Ordering, IsCycle, Conflicting, ConflictsOn, Rooted, Planned, Extends, Evidence,
      Stopped, Occurs;
    var conflict, selected, keys := TakeRoots(roots);
    graph, calls := selected, [];
    if conflict.Some? {
      return Err(VersionConflict(conflict.value)), graph, calls;
    }
    RootedKeys(roots, selected, keys);
    if |selected| > MAX_PLUGINS {
      return Err(TooMany), graph, calls;
    }
    var planner := new Planner(resolve, roots, selected, keys);
    RootedValid(roots, planner.View());
    RootedEvidence(roots, resolve, selected, keys);
    hide Valid;
    ghost var begin := planner.View();
    ExtendsItself(begin);
    var i := 0;
    while i < |planner.keys|
      invariant 0 <= i <= |planner.keys|
      invariant planner.roots == IdSet(Ids(roots)) && planner.given == roots && planner.resolve == resolve
      invariant fresh(planner)
      invariant Valid(planner.roots, planner.View()) && planner.Backed()
      invariant Extends(begin, planner.View()) && planner.active == []
      invariant forall k :: 0 <= k < i ==> planner.keys[k] in planner.done
      decreases MAX_PLUGINS - i
    {
      ghost var before := planner.View();
      KeysBound(planner.roots, before);
      var error := planner.Visit(planner.selected[planner.keys[i]]);
      graph, calls := planner.selected, planner.calls;
      if error.Some? {
        StoppedCalls(roots, resolve, graph, calls, error.value);
        return Err(error.value), graph, calls;
      }
      ExtendsTransitive(begin, before, planner.View());
      StaysDone(before, planner.View(), i);
      i := i + 1;
    }
    graph, calls := planner.selected, planner.calls;
    FinishedPlan(roots, resolve, begin, planner.View());
    plan := Ok(planner.ordered);
  }

  lemma StoppedCalls(roots: seq<Node>, resolve: Resolver, g: Graph, calls: seq<Call>, error: PlanError)
    requires Stopped(roots, resolve, g, calls, error)
    ensures !error.VersionConflict?
  {
    hide Sourced, Asked, Honest, IsCycle;
  }

  lemma RootedKeys(roots: seq<Node>, selected: Graph, keys: seq<Id>)
    requires Rooted(roots, |roots|, selected, keys)
    ensures forall id :: id in selected <==> Occurs(roots, |roots|, id)
    ensures forall i :: 0 <= i < |roots| ==> roots[i].id in selected
  {
    hide LastRoot;
  }

  lemma RootedEvidence(roots: seq<Node>, resolve: Resolver, selected: Graph, keys: seq<Id>)
    requires Rooted(roots, |roots|, selected, keys)
    ensures Evidence(roots, resolve, selected, [])
  {
    hide LastRoot;
  }

  /** The loop over the roots: a later root replaces an earlier one of the same version. */
  method TakeRoots(roots: seq<Node>) returns (conflict: Option<Id>, selected: Graph, keys: seq<Id>)
    ensures conflict.Some? <==> Conflicting(roots, |roots|)
    ensures conflict.Some? ==> ConflictsOn(roots, conflict.value)
    ensures conflict.None? ==> Rooted(roots, |roots|, selected, keys)
  {
    hide Rooted, Conflicting, ConflictsOn;
    selected, keys := map[], [];
    RootedNothing(roots);
    var i := 0;
    while i < |roots|
      invariant 0 <= i <= |roots|
      invariant Rooted(roots, i, selected, keys) && !Conflicting(roots, i)
    {
      var node := roots[i];
      RootConflict(roots, i, selected, keys);
      if node.id in selected && selected[node.id].version != node.version {
        ConflictStays(roots, i + 1);
        ConflictNamed(roots, i, selected, keys);
        return Some(node.id), selected, keys;
      }
      RootStep(roots, i, selected, keys);
      keys := if node.id in selected then keys else keys + [node.id];
      selected := selected[node.id := node];
      i := i + 1;
    }
    conflict := None;
  }

  lemma RootedNothing(roots: seq<Node>)
    ensures Rooted(roots, 0, map[], []) && !Conflicting(roots, 0)
  {
  }

  lemma ConflictNamed(roots: seq<Node>, i: nat, selected: Graph, keys: seq<Id>)
    requires i < |roots| && Rooted(roots, i, selected, keys)
    requires roots[i].id in selected && selected[roots[i].id].version != roots[i].version
    ensures ConflictsOn(roots, roots[i].id)
  {
    assert Occurs(roots, i, roots[i].id);
    var j :| 0 <= j < i && roots[j].id == roots[i].id;
  }

  lemma RootConflict(roots: seq<Node>, i: nat, selected: Graph, keys: seq<Id>)
    requires i < |roots| && Rooted(roots, i, selected, keys) && !Conflicting(roots, i)
    ensures Conflicting(roots, i + 1) <==> roots[i].id in selected && selected[roots[i].id].version != roots[i].version
  {
    var node := roots[i];
    if node.id in selected {
      assert Occurs(roots, i, node.id);
      var j :| 0 <= j < i && roots[j].id == node.id;
    }
  }

  lemma ConflictStays(roots: seq<Node>, i: nat)
    requires i <= |roots| && Conflicting(roots, i)
    ensures Conflicting(roots, |roots|)
  {
  }

  lemma RootStep(roots: seq<Node>, i: nat, selected: Graph, keys: seq<Id>)
    requires i < |roots| && Rooted(roots, i, selected, keys)
    requires roots[i].id in selected ==> selected[roots[i].id].version == roots[i].version
    ensures Rooted(roots, i + 1, selected[roots[i].id := roots[i]],
      if roots[i].id in selected then keys else keys + [roots[i].id])
  {
    hide Occurs, LastRoot;
    OccursMore(roots, i);
    LastRootMore(roots, i);
    RootVersionsStep(roots, i, selected);
    var more := if roots[i].id in selected then keys else keys + [roots[i].id];
    assert forall id :: id in more <==> id in keys || id == roots[i].id;
    var g := selected[roots[i].id := roots[i]];
    assert forall id :: id in g <==> id in more;
    assert forall k, l :: 0 <= k < l < |more| ==> more[k] != more[l];
    assert forall id :: id in more ==> Occurs(roots, i + 1, id);
    forall id | id in g ensures g[id].id == id && LastRoot(roots, i + 1, g[id]) {
      assert id != roots[i].id ==> LastRoot(roots, i, selected[id]);
    }
  }

  lemma RootVersionsStep(roots: seq<Node>, i: nat, selected: Graph)
    requires i < |roots| && (roots[i].id in selected ==> selected[roots[i].id].version == roots[i].version)
    requires forall k :: 0 <= k < i ==> roots[k].id in selected && selected[roots[k].id].version == roots[k].version
    ensures var g := selected[roots[i].id := roots[i]];
      forall k :: 0 <= k < i + 1 ==> roots[k].id in g && g[roots[k].id].version == roots[k].version
  {
    var g := selected[roots[i].id := roots[i]];
    forall k | 0 <= k < i + 1 ensures roots[k].id in g && g[roots[k].id].version == roots[k].version {
      assert k < i ==> roots[k].id in selected;
    }
  }

  lemma LastRootMore(roots: seq<Node>, i: nat)
    requires i < |roots|
    ensures LastRoot(roots, i + 1, roots[i])
    ensures forall n :: LastRoot(roots, i, n) && n.id != roots[i].id ==> LastRoot(roots, i + 1, n)
  {
    assert roots[i] == roots[i];
    forall n | LastRoot(roots, i, n) && n.id != roots[i].id ensures LastRoot(roots, i + 1, n) {
      var j :| 0 <= j < i && roots[j] == n && forall k :: j < k < i ==> roots[k].id != n.id;
    }
  }

  lemma ExtendsItself(s: State)
    ensures Extends(s, s)
  {
  }

  lemma StaysDone(s: State, t: State, i: nat)
    requires Extends(s, t) && i < |s.keys| && s.keys[i] in t.done
    requires forall k :: 0 <= k < i ==> s.keys[k] in s.done
    ensures s.active == t.active && |s.keys| <= |t.keys| && forall k :: 0 <= k <= i ==> t.keys[k] in t.done
  {
  }

  lemma RootedValid(roots: seq<Node>, s: State)
    requires Rooted(roots, |roots|, s.selected, s.keys) && |s.selected| <= MAX_PLUGINS
    requires s.active == [] && s.done == {} && s.ordered == []
    ensures Valid(IdSet(Ids(roots)), s)
  {
    forall k: nat | k < |s.keys| ensures Introduced(IdSet(Ids(roots)), s.selected, s.keys, k) {
      assert Occurs(roots, |roots|, s.keys[k]);
      var j :| 0 <= j < |roots| && roots[j].id == s.keys[k];
      assert Ids(roots)[j] == s.keys[k];
    }
  }

  lemma KeysBound(roots: set<Id>, s: State)
    requires Valid(roots, s)
    ensures |s.keys| <= MAX_PLUGINS
    ensures forall k :: 0 <= k < |s.keys| ==> s.keys[k] in s.selected && s.selected[s.keys[k]].id == s.keys[k]
  {
    hide Grown, Visiting, Ordering;
    DistinctCount(s.keys);
    assert forall k :: 0 <= k < |s.keys| ==> s.keys[k] in s.selected;
    SubsetCount(IdSet(s.keys), s.selected.Keys);
  }

  lemma RootsPlanned(roots: seq<Node>, begin: State, s: State)
    requires Ordering(s) && Extends(begin, s) && Rooted(roots, |roots|, begin.selected, begin.keys)
    requires forall k :: 0 <= k < |s.keys| ==> s.keys[k] in s.done
    requires forall id :: id in s.selected <==> id in s.keys
    ensures forall i :: 0 <= i < |roots| ==> Occurs(s.ordered, |s.ordered|, roots[i].id)
  {
    hide Topological, AllSubmitted, Occurs;
    forall i | 0 <= i < |roots| ensures Occurs(s.ordered, |s.ordered|, roots[i].id) {
      assert roots[i].id in begin.selected && roots[i].id in s.keys && roots[i].id in s.done;
    }
  }

  lemma RootVersions(roots: seq<Node>, begin: State, s: State)
    requires Extends(begin, s) && Rooted(roots, |roots|, begin.selected, begin.keys)
    ensures forall i :: 0 <= i < |roots| ==>
      roots[i].id in s.selected && s.selected[roots[i].id].version == roots[i].version
  {
    hide LastRoot, Occurs;
    forall i | 0 <= i < |roots|
      ensures roots[i].id in s.selected && s.selected[roots[i].id].version == roots[i].version {
      assert roots[i].id in begin.selected;
    }
  }

  lemma PlanReachable(roots: set<Id>, s: State)
    requires Selection(roots, s)
    requires forall i :: 0 <= i < |s.ordered| ==> s.ordered[i].id in s.selected
    ensures forall i :: 0 <= i < |s.ordered| ==> ReachableFrom(roots, s.selected, s.ordered[i].id)
  {
    hide Grown, IsPath;
    forall i | 0 <= i < |s.ordered| ensures ReachableFrom(roots, s.selected, s.ordered[i].id) {
      var k :| 0 <= k < |s.keys| && s.keys[k] == s.ordered[i].id;
      GrownReachable(roots, s.selected, s.keys, k);
    }
  }

  lemma PlanBound(s: State)
    requires Topological(s.ordered) && |s.selected| <= MAX_PLUGINS
    requires forall i :: 0 <= i < |s.ordered| ==> s.ordered[i].id in s.selected
    ensures |s.ordered| <= MAX_PLUGINS
  {
    TopologicalDistinct(s.ordered);
    hide Topological;
    var ids := Ids(s.ordered);
    DistinctCount(ids);
    assert forall k :: 0 <= k < |ids| ==> ids[k] == s.ordered[k].id && ids[k] in s.selected;
    SubsetCount(IdSet(ids), s.selected.Keys);
  }

  lemma PlanAcyclic(s: State)
    requires Ordering(s)
    requires forall id :: id in s.selected ==> id in s.done
    ensures forall path :: !IsCycle(s.selected, path)
  {
    hide Topological, AllSubmitted, Occurs, IsCycle;
    forall path ensures !IsCycle(s.selected, path) {
      OrderHasNoCycle(s.selected, s.ordered, path);
    }
  }

  lemma FinishedPlan(roots: seq<Node>, resolve: Resolver, begin: State, s: State)
    requires Valid(IdSet(Ids(roots)), s) && Evidence(roots, resolve, s.selected, s.calls) && Extends(begin, s)
    requires Rooted(roots, |roots|, begin.selected, begin.keys)
    requires forall k :: 0 <= k < |s.keys| ==> s.keys[k] in s.done
    ensures Planned(roots, resolve, s.selected, s.calls, s.ordered)
  {
    hide Grown, Visiting, Topological, AllSubmitted, Occurs, IsCycle, IsPath, Rooted, ReachableFrom, Extends, Evidence;
    RootVersions(roots, begin, s);
    RootsPlanned(roots, begin, s);
    PlanReachable(IdSet(Ids(roots)), s);
    PlanBound(s);
    PlanAcyclic(s);
  }

  /** A hundred plugins are planned, one more is not. */
  lemma HundredPlugins(roots: seq<Node>, resolve: Resolver, g: Graph, calls: seq<Call>, plan: seq<Node>)
    ensures Planned(roots, resolve, g, calls, plan) ==> |plan| <= 100
    ensures Stopped(roots, resolve, g, calls, TooMany) ==> |g| == 100 && calls != [] && calls[|calls|-1].id !in g
    ensures RootsOverflow(roots, g, calls, TooMany) ==> |g| > 100
  {
    hide Sourced, Asked, Honest, Topological, AllSubmitted, Evidence, Occurs, IsCycle, ReachableFrom;
  }

  lemma TopologicalDistinct(ns: seq<Node>)
    requires Topological(ns)
    ensures forall i, j :: 0 <= i < j < |ns| ==> ns[i].id != ns[j].id
  {
  }

  // ---------------------------------------------------------------- the install loop

  datatype Status = Success | InstallFailed | Skipped

  function Changes(plan: seq<Node>): seq<Node>
  {
    if plan == [] then [] else (if plan[0].change then [plan[0]] else []) + Changes(plan[1..])
  }

  /** No plugin depends on itself or on one that comes later. */
  ghost predicate NoLater(ns: seq<Node>)
  {
    forall i, j :: 0 <= i <= j < |ns| ==> !DependsOn(ns[i], ns[j].id)
  }

  lemma TopologicalNoLater(ns: seq<Node>)
    requires Topological(ns)
    ensures NoLater(ns)
  {
    forall i, j | 0 <= i <= j < |ns| ensures !DependsOn(ns[i], ns[j].id) {
      if DependsOn(ns[i], ns[j].id) {
        EarlierPosition(ns, i, ns[j].id);
      }
    }
  }

  /** The plugins at these indexes, in ascending order, and they are the ones that need a change. */
  ghost predicate ChangedBy(plan: seq<Node>, changes: seq<Node>, chosen: seq<nat>)
  {
    && |chosen| == |changes|
    && (forall k :: 0 <= k < |chosen| ==> chosen[k] < |plan| && changes[k] == plan[chosen[k]])
    && (forall k, l :: 0 <= k < l < |chosen| ==> chosen[k] < chosen[l])
    && (forall i: nat :: i < |plan| ==> (i in chosen <==> plan[i].change))
  }

  lemma ChangedSnoc(front: seq<Node>, n: Node, changes: seq<Node>, chosen: seq<nat>)
    requires ChangedBy(front, changes, chosen)
    ensures if n.change then ChangedBy(front + [n], changes + [n], chosen + [|front|])
            else ChangedBy(front + [n], changes, chosen)
  {
    var all := front + [n];
    assert all[|front|] == n && forall i: nat :: i < |front| ==> all[i] == front[i];
  }

  lemma ChangesOne(n: Node)
    ensures Changes([n]) == if n.change then [n] else []
    ensures Changes([]) == []
  {
    assert [n][1..] == [];
  }

  lemma {:induction false} ChangesCons(n: Node, rest: seq<Node>)
    ensures Changes([n] + rest) == (if n.change then [n] else []) + Changes(rest)
  {
    assert ([n] + rest)[1..] == rest;
  }

  lemma {:induction false} ChangesSnoc(front: seq<Node>, n: Node)
    ensures Changes(front + [n]) == Changes(front) + (if n.change then [n] else [])
  {
    if front == [] {
      ChangesOne(n);
      assert [] + [n] == [n];
    } else {
      hide Changes;
      assert front + [n] == [front[0]] + (front[1..] + [n]) && front == [front[0]] + front[1..];
      ChangesSnoc(front[1..], n);
      ChangesCons(front[0], front[1..]);
      ChangesCons(front[0], front[1..] + [n]);
    }
  }

  /** The changes are, in the order of the plan, exactly its plugins that need one. */
  lemma {:induction false} ChangesExactly(plan: seq<Node>) returns (chosen: seq<nat>)
    ensures ChangedBy(plan, Changes(plan), chosen)
    decreases |plan|
  {
    if plan == [] {
      chosen := [];
    } else {
      hide ChangedBy, Changes;
      var front, n := plan[..|plan|-1], plan[|plan|-1];
      assert plan == front + [n];
      chosen := ChangesExactly(front);
      ChangedSnoc(front, n, Changes(front), chosen);
      ChangesSnoc(front, n);
      assert Changes(front) + [] == Changes(front);
      chosen := if n.change then chosen + [|front|] else chosen;
    }
  }

  lemma {:induction false} ChangesMembers(plan: seq<Node>)
    ensures forall n :: n in Changes(plan) ==> n in plan
  {
    if plan != [] {
      ChangesMembers(plan[1..]);
    }
  }

  lemma {:induction false} ChangesNoLater(plan: seq<Node>)
    requires NoLater(plan)
    ensures NoLater(Changes(plan))
  {
    if plan != [] {
      var rest, all := Changes(plan[1..]), Changes(plan);
      ChangesNoLater(plan[1..]);
      ChangesMembers(plan[1..]);
      forall i, j | 0 <= i <= j < |all| ensures !DependsOn(all[i], all[j].id) {
        if plan[0].change {
          assert all[0] == plan[0] && forall k :: 0 < k < |all| ==> all[k] == rest[k - 1];
          if i == 0 {
            ChangesMembers(plan);
            assert all[j] in plan;
          }
        }
      }
    }
  }

  ghost predicate Blocked(n: Node, failed: set<Id>)
  {
    exists k :: 0 <= k < |n.dependencies| && n.dependencies[k].id in failed
  }

  /** The outcome of the first `upto` changes: `failed` holds the plugins that did not succeed, and a
      plugin was skipped exactly when one of its dependencies is among them. */
  ghost predicate Installed(changes: seq<Node>, upto: nat, statuses: seq<Status>, failed: set<Id>, works: nat -> bool)
    requires upto <= |changes|
  {
    && |statuses| == upto
    && FailedIds(changes, upto, statuses, failed)
    && (forall j :: 0 <= j < upto ==> (statuses[j] == Skipped <==> Blocked(changes[j], failed)))
    && (forall j: nat :: j < upto && statuses[j] != Skipped ==> (statuses[j] == Success <==> works(j)))
  }

  lemma NothingInstalled(changes: seq<Node>, works: nat -> bool)
    ensures Installed(changes, 0, [], {}, works)
  {
  }

  /** The change at hand blocks none of the earlier ones. */
  lemma StillBlocked(changes: seq<Node>, i: nat, failed: set<Id>, now: set<Id>)
    requires NoLater(changes) && i < |changes| && failed <= now <= failed + {changes[i].id}
    ensures forall j :: 0 <= j <= i ==> (Blocked(changes[j], now) <==> Blocked(changes[j], failed))
  {
    forall j | 0 <= j <= i ensures Blocked(changes[j], now) <==> Blocked(changes[j], failed) {
      assert !DependsOn(changes[j], changes[i].id);
    }
  }

  /** `failed` holds the ids of the changes that did not succeed. */
  ghost predicate FailedIds(changes: seq<Node>, upto: nat, statuses: seq<Status>, failed: set<Id>)
    requires upto <= |changes| && |statuses| == upto
  {
    forall id :: id in failed <==> exists j :: 0 <= j < upto && changes[j].id == id && statuses[j] != Success
  }

  lemma FailedStep(changes: seq<Node>, i: nat, statuses: seq<Status>, failed: set<Id>, status: Status)
    requires i < |changes| && |statuses| == i && FailedIds(changes, i, statuses, failed)
    ensures FailedIds(changes, i + 1, statuses + [status],
      if status == Success then failed else failed + {changes[i].id})
  {
    var now := if status == Success then failed else failed + {changes[i].id};
    var all := statuses + [status];
    forall id ensures id in now <==> exists j :: 0 <= j < i + 1 && changes[j].id == id && all[j] != Success {
      if id in failed {
        var j :| 0 <= j < i && changes[j].id == id && statuses[j] != Success;
        assert all[j] == statuses[j];
      }
      assert all[i] == status;
    }
  }

  lemma InstallStep(changes: seq<Node>, i: nat, statuses: seq<Status>, failed: set<Id>, works: nat -> bool,
                    status: Status)
    requires NoLater(changes) && i < |changes| && Installed(changes, i, statuses, failed, works)
    requires status == if Blocked(changes[i], failed) then Skipped else if works(i) then Success else InstallFailed
    ensures Installed(changes, i + 1, statuses + [status],
      if status == Success then failed else failed + {changes[i].id}, works)
  {
    hide FailedIds, Blocked, NoLater;
    FailedStep(changes, i, statuses, failed, status);
    StillBlocked(changes, i, failed, if status == Success then failed else failed + {changes[i].id});
  }

  /** The ordered loop over the changes of a plan; `works(i)` says whether the attempt to install or
      enable change `i` succeeds. A plugin is attempted exactly when none of its dependencies failed or
      was skipped, over the whole batch. */
  method InstallAll(plan: seq<Node>, works: nat -> bool) returns (statuses: seq<Status>, failed: set<Id>)
    ensures Topological(plan) ==> Installed(Changes(plan), |Changes(plan)|, statuses, failed, works)
  {
    hide Topological, Changes, NoLater, Installed;
    var changes := Changes(plan);
    if Topological(plan) {
      TopologicalNoLater(plan);
      ChangesNoLater(plan);
    }
    statuses, failed := [], {};
    NothingInstalled(changes, works);
    var i := 0;
    while i < |changes|
      invariant 0 <= i <= |changes|
      invariant Topological(plan) ==> Installed(changes, i, statuses, failed, works)
    {
      var node := changes[i];
      var blocked := exists k :: 0 <= k < |node.dependencies| && node.dependencies[k].id in failed;
      var status := if blocked then Skipped else if works(i) then Success else InstallFailed;
      if Topological(plan) {
        InstallStep(changes, i, statuses, failed, works, status);
      }
      statuses := statuses + [status];
      if status != Success {
        failed := failed + {node.id};
      }
      i := i + 1;
    }
  }
}
