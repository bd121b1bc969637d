/** The licence check over the dependency graph of a crate. */
module LicenceGraph {
  import opened Wrappers
  import opened Seqs
  import Licence

  const LICENCE := "MIT OR Apache-2.0"

  type Id = string

  /** A package; one without a source is a crate of the repository. */
  datatype Package = Package(source: Option<string>, license: Option<string>)

  datatype Dep = Dep(pkg: Id, kinds: seq<Option<string>>)

  datatype Metadata = Metadata(packages: map<Id, Package>, nodes: map<Id, seq<Dep>>)

  /** A dependency links when it is a normal or a build dependency. */
  predicate Linked(dep: Dep) {
    exists kind | kind in dep.kinds :: kind == None || kind == Some("build")
  }

  /** Each package has a node, and each dependency is a package. */
  ghost predicate Complete(m: Metadata) {
    && m.nodes.Keys == m.packages.Keys
    && forall x | x in m.nodes :: InPackages(m, m.nodes[x])
  }

  ghost predicate InPackages(m: Metadata, deps: seq<Dep>) {
    forall dep | dep in deps :: dep.pkg in m.packages
  }

  ghost predicate Edge(m: Metadata, x: Id, y: Id) {
    x in m.nodes && exists dep | dep in m.nodes[x] :: Linked(dep) && dep.pkg == y
  }

  ghost predicate Path(m: Metadata, path: seq<Id>) {
    path != [] && forall k | 0 < k < |path| :: Edge(m, path[k - 1], path[k])
  }

  /** A chain of linked dependencies leads from one package to another. */
  ghost predicate Reachable(m: Metadata, root: Id, x: Id) {
    exists path :: Path(m, path) && path[0] == root && path[|path| - 1] == x
  }

  lemma ReachableStep(m: Metadata, root: Id, x: Id, y: Id)
    requires Reachable(m, root, x) && Edge(m, x, y)
    ensures Reachable(m, root, y)
  {
    hide Edge;
    var path :| Path(m, path) && path[0] == root && path[|path| - 1] == x;
    var longer := path + [y];
    forall k | 0 < k < |longer| ensures Edge(m, longer[k - 1], longer[k]) {
      if k < |path| { assert Edge(m, path[k - 1], path[k]); }
    }
    assert Path(m, longer);
  }

  lemma {:induction false} PathStays(m: Metadata, seen: set<Id>, path: seq<Id>, k: nat)
    requires Path(m, path) && path[0] in seen && k < |path|
    requires forall x, y | x in seen && Edge(m, x, y) :: y in seen
    ensures path[k] in seen
  {
    if k > 0 { PathStays(m, seen, path, k - 1); }
  }

  /** Whether a dependency breaks the rule. */
  predicate Bad(p: Package) {
    p.source.None? || Licence.Copyleft(p.license)
  }

  ghost predicate Offends(m: Metadata, x: Id) {
    x in m.packages && Bad(m.packages[x])
  }

  ghost predicate NoRepeats(ids: seq<Id>) {
    forall i, j | 0 <= i < j < |ids| :: ids[i] != ids[j]
  }

  /** The worklist: what is seen is reachable, the links of all that are no longer to do are seen, and
      exactly the offending packages seen beside the root are found. */
  ghost predicate Searching(m: Metadata, root: Id, seen: set<Id>, todo: seq<Id>, found: seq<Id>) {
    && root in seen && seen <= m.packages.Keys
    && (forall x | x in todo :: x in seen)
    && (forall x | x in seen :: Reachable(m, root, x))
    && NoRepeats(found)
    && (forall x :: x in found <==> x in seen && x != root && Offends(m, x))
  }

  ghost predicate Closed(m: Metadata, seen: set<Id>, open: seq<Id>) {
    forall x, y | x in seen && x !in open && Edge(m, x, y) :: y in seen
  }

  /** The links of the first n dependencies are seen. */
  ghost predicate Followed(deps: seq<Dep>, n: nat, seen: set<Id>) {
    n <= |deps| && forall k | 0 <= k < n :: Linked(deps[k]) ==> deps[k].pkg in seen
  }

  lemma FoundMore(m: Metadata, root: Id, seen: set<Id>, todo: seq<Id>, found: seq<Id>, y: Id, x: Id)
    requires Searching(m, root, seen, todo, found) && y !in seen && y in m.packages
    requires Edge(m, x, y) && x in seen
    ensures Searching(m, root, seen + {y}, todo + [y], if Bad(m.packages[y]) then found + [y] else found)
  {
    hide Reachable, Edge, Bad;
    ReachableStep(m, root, x, y);
    assert y !in found;
    NoRepeatsMore(found, y);
    assert forall z :: z in found + [y] <==> z in found || z == y;
  }

  lemma NoRepeatsMore(ids: seq<Id>, y: Id)
    requires NoRepeats(ids) && y !in ids
    ensures NoRepeats(ids + [y])
  {
  }

  lemma Opened(m: Metadata, seen: set<Id>, todo: seq<Id>, y: Id, x: Id)
    requires Closed(m, seen, todo + [x]) && y !in seen
    ensures Closed(m, seen + {y}, todo + [y] + [x])
  {
    hide Edge;
  }

  lemma Finished(m: Metadata, seen: set<Id>, todo: seq<Id>, x: Id)
    requires Closed(m, seen, todo + [x]) && x in m.nodes && Followed(m.nodes[x], |m.nodes[x]|, seen)
    ensures Closed(m, seen, todo)
  {
    forall y | Edge(m, x, y) ensures y in seen {
      var dep :| dep in m.nodes[x] && Linked(dep) && dep.pkg == y;
      var k :| 0 <= k < |m.nodes[x]| && m.nodes[x][k] == dep;
    }
    hide Edge, Linked;
  }

  lemma AllReached(m: Metadata, root: Id, seen: set<Id>, found: seq<Id>)
    requires Searching(m, root, seen, [], found) && Closed(m, seen, [])
    ensures forall x :: x in found <==> Reachable(m, root, x) && x != root && Offends(m, x)
  {
    forall x | Reachable(m, root, x) ensures x in seen {
      var path :| Path(m, path) && path[0] == root && path[|path| - 1] == x;
      PathStays(m, seen, path, |path| - 1);
    }
    hide Reachable, Offends;
  }

  lemma Start(m: Metadata, root: Id)
    requires root in m.packages
    ensures Searching(m, root, {root}, [root], []) && Closed(m, {root}, [root])
  {
    var path := [root];
    assert Path(m, path) && path[0] == root && path[|path| - 1] == root;
  }

  lemma FewerLeft(all: set<Id>, before: set<Id>, after: set<Id>)
    requires before <= after <= all
    ensures |all - after| <= |all - before| && (before != after ==> |all - after| < |all - before|)
  {
    assert all - before == (all - after) + (after - before);
    if before != after {
      var x :| x in after && x !in before;
      assert x in after - before;
    }
  }

  lemma HasNode(m: Metadata, root: Id, x: Id, seen: set<Id>, todo: seq<Id>, found: seq<Id>)
    requires Complete(m) && Searching(m, root, seen, todo, found) && x in seen
    ensures x in m.nodes && Followed(m.nodes[x], 0, seen)
  {
  }

  lemma FollowedMore(deps: seq<Dep>, n: nat, seen: set<Id>, more: set<Id>)
    requires Followed(deps, n, seen) && seen <= more
    ensures Followed(deps, n, more)
  {
    hide Linked;
  }

  lemma FollowedNext(deps: seq<Dep>, n: nat, seen: set<Id>)
    requires Followed(deps, n, seen) && n < |deps| && (Linked(deps[n]) ==> deps[n].pkg in seen)
    ensures Followed(deps, n + 1, seen)
  {
    hide Linked;
  }

  /** The body of the search loop: the dependencies of one package. */
  method Follow(m: Metadata, root: Id, x: Id, seen0: set<Id>, todo0: seq<Id>, found0: seq<Id>)
    returns (seen: set<Id>, todo: seq<Id>, found: seq<Id>)
    requires Complete(m) && Searching(m, root, seen0, todo0, found0) && x in seen0
    requires Closed(m, seen0, todo0 + [x])
    ensures Searching(m, root, seen, todo, found) && Closed(m, seen, todo)
    ensures seen0 <= seen && (seen == seen0 ==> todo == todo0)
  {
    hide Searching, Closed, Complete, Linked, Bad, Edge, Followed;
    seen, todo, found := seen0, todo0, found0;
    HasNode(m, root, x, seen0, todo0, found0);
    var deps := m.nodes[x];
    for k := 0 to |deps|
      invariant Searching(m, root, seen, todo, found) && Closed(m, seen, todo + [x])
      invariant Followed(deps, k, seen) && seen0 <= seen && (seen == seen0 ==> todo == todo0)
    {
      var dep := deps[k];
      if Linked(dep) && dep.pkg !in seen {
        DepEdge(m, x, k);
        FoundMore(m, root, seen, todo, found, dep.pkg, x);
        Opened(m, seen, todo, dep.pkg, x);
        FollowedMore(deps, k, seen, seen + {dep.pkg});
        seen := seen + {dep.pkg};
        todo := todo + [dep.pkg];
        if Bad(m.packages[dep.pkg]) { found := found + [dep.pkg]; }
      }
      FollowedNext(deps, k, seen);
    }
    Finished(m, seen, todo, x);
  }

  lemma DepEdge(m: Metadata, x: Id, k: nat)
    requires Complete(m) && x in m.nodes && k < |m.nodes[x]| && Linked(m.nodes[x][k])
    ensures Edge(m, x, m.nodes[x][k].pkg) && m.nodes[x][k].pkg in m.packages
  {
    assert InPackages(m, m.nodes[x]);
  }

  /** The packages that break the rule: exactly those that the root reaches by linked dependencies
      and that are crates of the repository or copyleft, each once. */
  method Violations(m: Metadata, root: Id) returns (wrongLicence: bool, found: seq<Id>)
    requires Complete(m) && root in m.packages
    ensures wrongLicence <==> m.packages[root].license != Some(LICENCE)
    ensures NoRepeats(found)
    ensures forall x :: x in found <==> Reachable(m, root, x) && x != root && Offends(m, x)
  {
    wrongLicence := m.packages[root].license != Some(LICENCE);
    found := [];
    var seen, todo := {root}, [root];
    Start(m, root);
    while todo != []
      invariant Searching(m, root, seen, todo, found) && Closed(m, seen, todo)
      decreases |m.packages.Keys - seen|, |todo|
    {
      hide Reachable, Offends, Edge, Linked;
      var x := todo[|todo| - 1];
      ghost var before := seen;
      Snoc(todo, |todo|);
      Whole(todo);
      todo := todo[..|todo| - 1];
      assert x in todo + [x];
      seen, todo, found := Follow(m, root, x, seen, todo, found);
      FewerLeft(m.packages.Keys, before, seen);
    }
    AllReached(m, root, seen, found);
  }

  // ----- the rule in plain words

  lemma LinkedMeans(dep: Dep)
    ensures Linked(dep) <==> None in dep.kinds || Some("build") in dep.kinds
  {
  }

  lemma BadMeans(p: Package)
    ensures Bad(p) <==> p.source == None || Licence.Copyleft(p.license)
  {
    hide Licence.Copyleft;
  }
}
