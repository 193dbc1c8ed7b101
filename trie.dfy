/**
 * The shared build trie (build_orders/models.py, classes Node and Build).
 *
 * Every stored build is a path in one forest of nodes. A node records its
 * parent (none for a root), its `index` (its depth, counted from
 * `StartIndex` at the root) and the name of the unit built at that step.
 * Nodes live in a pool, the database table, and are named by their position
 * in it; a node's parent is always stored before the node. A build keeps
 * only its tip: its elements are the tip's ancestry, root first.
 *
 * Builds share prefixes: adding a unit to a build moves the tip to an
 * existing child with that name and depth when there is one and only
 * creates a node otherwise, so no two nodes of the pool are equal records.
 */
module Trie {
  import opened Wrappers
  import opened Seqs
  import Orders

  type NodeId = nat

  /** `Build.START_INDEX`: the index of every root. */
  const StartIndex: int := 0

  datatype Node = Node(parent: Option<NodeId>, index: int, unitName: string)

  /** Every node's parent is stored before it. */
  predicate ParentsEarlier(nodes: seq<Node>) {
    forall i :: 0 <= i < |nodes| && nodes[i].parent.Some? ==> nodes[i].parent.value < i
  }

  /** Roots sit at `StartIndex` and every child one deeper than its parent. */
  predicate IndexedByDepth(nodes: seq<Node>)
    requires ParentsEarlier(nodes)
  {
    (forall i :: 0 <= i < |nodes| && nodes[i].parent.None? ==> nodes[i].index == StartIndex) &&
    (forall i, p {:trigger nodes[i], nodes[p]} ::
       0 <= i < |nodes| && 0 <= p < |nodes| && nodes[i].parent == Some(p) ==> nodes[i].index == nodes[p].index + 1)
  }

  /** No node is stored twice: a parent has at most one child per (name, index), and there is one root per name. */
  predicate Distinct(nodes: seq<Node>) {
    forall i, j :: 0 <= i < j < |nodes| ==> nodes[i] != nodes[j]
  }

  /** What the pool keeps. */
  predicate PoolValid(nodes: seq<Node>) {
    ParentsEarlier(nodes) && IndexedByDepth(nodes) && Distinct(nodes)
  }

  // ---------------------------------------------------------------------------
  // full_ancestry and next_index
  // ---------------------------------------------------------------------------

  /** `full_ancestry`: the nodes from the root down to `n`, each the parent of the next. */
  function Ancestry(nodes: seq<Node>, n: NodeId): (r: seq<NodeId>)
    requires ParentsEarlier(nodes) && n < |nodes|
    ensures |r| >= 1 && r[|r| - 1] == n
    ensures forall k :: 0 <= k < |r| ==> r[k] <= n
    ensures nodes[r[0]].parent.None?
    ensures forall j, k :: 0 <= j && k == j + 1 < |r| ==> nodes[r[k]].parent == Some(r[j])
    decreases n
  {
    match nodes[n].parent
    case None => [n]
    case Some(p) => Ancestry(nodes, p) + [n]
  }

  /** The unit names along a path of nodes. */
  function PathNames(nodes: seq<Node>, path: seq<NodeId>): (r: seq<string>)
    requires forall k :: 0 <= k < |path| ==> path[k] < |nodes|
    ensures |r| == |path|
  {
    seq(|path|, k requires 0 <= k < |path| => nodes[path[k]].unitName)
  }

  /** The indexes along a path of nodes. */
  function PathIndexes(nodes: seq<Node>, path: seq<NodeId>): (r: seq<int>)
    requires forall k :: 0 <= k < |path| ==> path[k] < |nodes|
    ensures |r| == |path|
  {
    seq(|path|, k requires 0 <= k < |path| => nodes[path[k]].index)
  }

  /** The largest element of a non-empty list, as `max` returns it. */
  function Max(xs: seq<int>): (m: int)
    requires xs != []
    ensures m in xs && forall k :: 0 <= k < |xs| ==> xs[k] <= m
  {
    if |xs| == 1 then xs[0]
    else
      var rest := Max(xs[1..]);
      assert forall k :: 1 <= k < |xs| ==> xs[k] == xs[1..][k - 1];
      if xs[0] >= rest then xs[0] else rest
  }

  /**
   * `next_index`: one more than the largest index along the ancestry of the
   * tip, or `StartIndex` when the list of indexes is empty or that value is 0
   * (Python's `indexes and max(indexes) + 1 or START_INDEX`).
   */
  function NextIndexOf(nodes: seq<Node>, tip: NodeId): int
    requires ParentsEarlier(nodes) && tip < |nodes|
  {
    var indexes := PathIndexes(nodes, Ancestry(nodes, tip));
    if indexes != [] && Max(indexes) + 1 != 0 then Max(indexes) + 1 else StartIndex
  }

  /** Along an ancestry the indexes count up from `StartIndex`: the k-th node has index k. */
  lemma {:induction false} AncestryIndexes(nodes: seq<Node>, n: NodeId)
    requires PoolValid(nodes) && n < |nodes|
    ensures |Ancestry(nodes, n)| == nodes[n].index + 1
    ensures forall k :: 0 <= k < |Ancestry(nodes, n)| ==> nodes[Ancestry(nodes, n)[k]].index == k
    decreases n
  {
    match nodes[n].parent
    case None =>
    case Some(p) =>
      AncestryIndexes(nodes, p);
      var a := Ancestry(nodes, p);
      assert Ancestry(nodes, n) == a + [n];
  }

  /**
   * The tip's ancestry holds the tip, so the `START_INDEX` fallback is never
   * needed: the next index is one past the tip's, which is the number of
   * elements of the build.
   */
  lemma NextIndexIsDepth(nodes: seq<Node>, tip: NodeId)
    requires PoolValid(nodes) && tip < |nodes|
    ensures NextIndexOf(nodes, tip) == nodes[tip].index + 1 == |Ancestry(nodes, tip)|
  {
    AncestryIndexes(nodes, tip);
    var a := Ancestry(nodes, tip);
    var indexes := PathIndexes(nodes, a);
    assert indexes[|a| - 1] == |a| - 1;
    assert forall k :: 0 <= k < |indexes| ==> indexes[k] == k;
  }

  /** Appending nodes leaves the ancestry of every stored node as it was. */
  lemma {:induction false} AncestryStable(nodes: seq<Node>, more: seq<Node>, n: NodeId)
    requires ParentsEarlier(nodes + more) && n < |nodes|
    ensures ParentsEarlier(nodes)
    ensures Ancestry(nodes + more, n) == Ancestry(nodes, n)
    decreases n
  {
    assert forall i :: 0 <= i < |nodes| ==> (nodes + more)[i] == nodes[i];
    match nodes[n].parent
    case None =>
    case Some(p) => AncestryStable(nodes, more, p);
  }

  /**
   * Prefix sharing: in a valid pool a sequence of unit names leads to at most
   * one node, so two builds with the same element names end at the same tip.
   */
  lemma {:induction false} PathNamesIdentifyNode(nodes: seq<Node>, a: NodeId, b: NodeId)
    requires PoolValid(nodes) && a < |nodes| && b < |nodes|
    requires PathNames(nodes, Ancestry(nodes, a)) == PathNames(nodes, Ancestry(nodes, b))
    ensures a == b
    decreases a
  {
    var na, nb := PathNames(nodes, Ancestry(nodes, a)), PathNames(nodes, Ancestry(nodes, b));
    AncestryNames(nodes, a);
    AncestryNames(nodes, b);
    SnocInjective(na[..|na| - 1], nodes[a].unitName, nb[..|nb| - 1], nodes[b].unitName);
    match nodes[a].parent
    case None =>
      assert nodes[b].parent.None?;
      SameNodeSameId(nodes, a, b);
    case Some(p) =>
      var q := nodes[b].parent.value;
      PathNamesIdentifyNode(nodes, p, q);
      SameNodeSameId(nodes, a, b);
  }

  /** The names along the ancestry of `n`: those along its parent's, then its own. */
  lemma AncestryNames(nodes: seq<Node>, n: NodeId)
    requires ParentsEarlier(nodes) && n < |nodes|
    ensures var names := PathNames(nodes, Ancestry(nodes, n));
      |names| >= 1 && names[|names| - 1] == nodes[n].unitName &&
      names[..|names| - 1] == match nodes[n].parent
        case None => []
        case Some(p) => PathNames(nodes, Ancestry(nodes, p))
  {
    match nodes[n].parent
    case None =>
    case Some(p) =>
      var a := Ancestry(nodes, p);
      assert Ancestry(nodes, n) == a + [n];
      assert PathNames(nodes, a + [n])[..|a|] == PathNames(nodes, a);
  }

  /** In a pool without repeated records, equal records are the same node. */
  lemma SameNodeSameId(nodes: seq<Node>, i: NodeId, j: NodeId)
    requires Distinct(nodes) && i < |nodes| && j < |nodes| && nodes[i] == nodes[j]
    ensures i == j
  {
  }

  // ---------------------------------------------------------------------------
  // Searching the pool
  // ---------------------------------------------------------------------------

  /** A child of `tip` with the given name and index. */
  predicate IsChild(n: Node, tip: NodeId, name: string, index: int) {
    n.parent == Some(tip) && n.unitName == name && n.index == index
  }

  /** A root with the given name. */
  predicate IsRoot(n: Node, name: string) {
    n.parent.None? && n.unitName == name
  }

  /** The first node from position `from` on that is a matching child of `tip`. */
  function FirstChild(nodes: seq<Node>, tip: NodeId, name: string, index: int, from: nat): (r: Option<NodeId>)
    ensures r.Some? ==> from <= r.value < |nodes| && IsChild(nodes[r.value], tip, name, index)
    ensures r.Some? ==> forall j :: from <= j < r.value ==> !IsChild(nodes[j], tip, name, index)
    ensures r.None? ==> forall j :: from <= j < |nodes| ==> !IsChild(nodes[j], tip, name, index)
    decreases |nodes| - from
  {
    if from >= |nodes| then None
    else if IsChild(nodes[from], tip, name, index) then Some(from)
    else FirstChild(nodes, tip, name, index, from + 1)
  }

  /** `Node.query.filter_by(parent = None, unit_name = name).first()`, in storage order. */
  function FirstRoot(nodes: seq<Node>, name: string, from: nat): (r: Option<NodeId>)
    ensures r.Some? ==> from <= r.value < |nodes| && IsRoot(nodes[r.value], name)
    ensures r.Some? ==> forall j :: from <= j < r.value ==> !IsRoot(nodes[j], name)
    ensures r.None? ==> forall j :: from <= j < |nodes| ==> !IsRoot(nodes[j], name)
    decreases |nodes| - from
  {
    if from >= |nodes| then None
    else if IsRoot(nodes[from], name) then Some(from)
    else FirstRoot(nodes, name, from + 1)
  }

  /** In a valid pool at most one node matches a child search, so the search order does not matter. */
  lemma ChildUnique(nodes: seq<Node>, tip: NodeId, name: string, i: NodeId, j: NodeId)
    requires PoolValid(nodes) && tip < |nodes| && i < |nodes| && j < |nodes|
    requires IsChild(nodes[i], tip, name, NextIndexOf(nodes, tip))
    requires IsChild(nodes[j], tip, name, NextIndexOf(nodes, tip))
    ensures i == j
  {
    assert nodes[i] == nodes[j];
  }

  /** In a valid pool at most one root carries a given name, so the root search order does not matter. */
  lemma RootUnique(nodes: seq<Node>, name: string, i: NodeId, j: NodeId)
    requires PoolValid(nodes) && i < |nodes| && j < |nodes|
    requires IsRoot(nodes[i], name) && IsRoot(nodes[j], name)
    ensures i == j
  {
    assert nodes[i] == nodes[j];
  }

  // ---------------------------------------------------------------------------
  // add_unit and from_order
  // ---------------------------------------------------------------------------

  /**
   * `Build.add_unit`: the pool and the new tip. A child of the tip with the
   * name and the next index becomes the tip; otherwise a new node is stored
   * under the tip.
   */
  function Extend(nodes: seq<Node>, tip: NodeId, name: string): (r: (seq<Node>, NodeId))
    requires ParentsEarlier(nodes) && tip < |nodes|
    ensures ParentsEarlier(r.0) && r.1 < |r.0| && |nodes| <= |r.0| && r.0[..|nodes|] == nodes
    ensures r.0[r.1].parent == Some(tip) && r.0[r.1].unitName == name
  {
    var index := NextIndexOf(nodes, tip);
    match FirstChild(nodes, tip, name, index, 0)
    case Some(child) => (nodes, child)
    case None => (nodes + [Node(Some(tip), index, name)], |nodes|)
  }

  /**
   * Adding a unit keeps the pool valid, never changes a stored node, creates
   * at most one node, and extends the build's element names by the unit.
   */
  lemma ExtendSpec(nodes: seq<Node>, tip: NodeId, name: string)
    requires PoolValid(nodes) && tip < |nodes|
    ensures var (nodes', tip') := Extend(nodes, tip, name);
      PoolValid(nodes') &&
      (nodes' == nodes || (nodes' == nodes + [Node(Some(tip), nodes[tip].index + 1, name)] && tip' == |nodes|)) &&
      Ancestry(nodes', tip') == Ancestry(nodes, tip) + [tip'] &&
      PathNames(nodes', Ancestry(nodes', tip')) == PathNames(nodes, Ancestry(nodes, tip)) + [name]
  {
    NextIndexIsDepth(nodes, tip);
    var index := nodes[tip].index + 1;
    match FirstChild(nodes, tip, name, index, 0)
    case Some(child) =>
      assert Extend(nodes, tip, name) == (nodes, child);
      assert nodes + [] == nodes;
      ExtendPath(nodes, [], tip, child, name);
    case None =>
      var n := Node(Some(tip), index, name);
      assert Extend(nodes, tip, name) == (nodes + [n], |nodes|);
      ExtendCreates(nodes, tip, name);
      ExtendPath(nodes, [n], tip, |nodes|, name);
  }

  /** When no child matches, the new node keeps the pool valid. */
  lemma ExtendCreates(nodes: seq<Node>, tip: NodeId, name: string)
    requires PoolValid(nodes) && tip < |nodes|
    requires FirstChild(nodes, tip, name, nodes[tip].index + 1, 0).None?
    ensures PoolValid(nodes + [Node(Some(tip), nodes[tip].index + 1, name)])
  {
    var n := Node(Some(tip), nodes[tip].index + 1, name);
    var nodes' := nodes + [n];
    assert forall i :: 0 <= i < |nodes| ==> nodes'[i] == nodes[i];
    assert forall i :: 0 <= i < |nodes| ==> nodes[i] != n by {
      forall i | 0 <= i < |nodes| ensures nodes[i] != n {
        assert !IsChild(nodes[i], tip, name, nodes[tip].index + 1);
      }
    }
  }

  /** A step below the tip, into old or new storage, extends the ancestry and its names by one. */
  lemma ExtendPath(nodes: seq<Node>, more: seq<Node>, tip: NodeId, tip': NodeId, name: string)
    requires ParentsEarlier(nodes) && ParentsEarlier(nodes + more) && tip < |nodes| && tip' < |nodes + more|
    requires (nodes + more)[tip'].parent == Some(tip) && (nodes + more)[tip'].unitName == name
    ensures Ancestry(nodes + more, tip') == Ancestry(nodes, tip) + [tip']
    ensures PathNames(nodes + more, Ancestry(nodes + more, tip')) == PathNames(nodes, Ancestry(nodes, tip)) + [name]
  {
    AncestryStable(nodes, more, tip);
    var a := Ancestry(nodes, tip);
    PathNamesStable(nodes, more, a);
    AncestryNames(nodes + more, tip');
    var names := PathNames(nodes + more, Ancestry(nodes + more, tip'));
    assert names == names[..|names| - 1] + [names[|names| - 1]];
  }

  /** Appending nodes leaves the names along a path of stored nodes as they were. */
  lemma PathNamesStable(nodes: seq<Node>, more: seq<Node>, path: seq<NodeId>)
    requires forall k :: 0 <= k < |path| ==> path[k] < |nodes|
    ensures PathNames(nodes + more, path) == PathNames(nodes, path)
  {
    assert forall k :: 0 <= k < |path| ==> (nodes + more)[path[k]] == nodes[path[k]];
  }

  /** Adds the names in order, as the loop of `from_order` does. */
  function ExtendAll(nodes: seq<Node>, tip: NodeId, names: seq<string>): (r: (seq<Node>, NodeId))
    requires ParentsEarlier(nodes) && tip < |nodes|
    ensures ParentsEarlier(r.0) && r.1 < |r.0| && |nodes| <= |r.0| && r.0[..|nodes|] == nodes
    decreases |names|
  {
    if names == [] then (nodes, tip)
    else
      var (nodes1, tip1) := Extend(nodes, tip, names[0]);
      var r := ExtendAll(nodes1, tip1, names[1..]);
      assert r.0[..|nodes|] == r.0[..|nodes1|][..|nodes|];
      r
  }

  /** Adding several units keeps the pool valid and extends the element names by all of them. */
  lemma {:induction false} ExtendAllSpec(nodes: seq<Node>, tip: NodeId, names: seq<string>)
    requires PoolValid(nodes) && tip < |nodes|
    ensures PoolValid(ExtendAll(nodes, tip, names).0)
    ensures PathNames(ExtendAll(nodes, tip, names).0, Ancestry(ExtendAll(nodes, tip, names).0, ExtendAll(nodes, tip, names).1))
         == PathNames(nodes, Ancestry(nodes, tip)) + names
    decreases |names|
  {
    if names == [] {
      assert PathNames(nodes, Ancestry(nodes, tip)) + names == PathNames(nodes, Ancestry(nodes, tip));
    } else {
      ExtendSpec(nodes, tip, names[0]);
      var step := Extend(nodes, tip, names[0]);
      ExtendAllSpec(step.0, step.1, names[1..]);
      AppendFirstRest(PathNames(nodes, Ancestry(nodes, tip)), names);
    }
  }

  /** `next(iter(order._unit_order), '')`: the first logged name, or `""` for an empty log. */
  function FirstName(names: seq<string>): string {
    if names == [] then "" else names[0]
  }

  /** `order._unit_order[1:]`: the logged names after the first. */
  function RestNames(names: seq<string>): seq<string> {
    if names == [] then [] else names[1..]
  }

  /**
   * The root of `from_order`: the first stored root named `first`, or a new
   * root at `StartIndex`.
   */
  function Seed(nodes: seq<Node>, first: string): (r: (seq<Node>, NodeId))
    requires ParentsEarlier(nodes)
    ensures ParentsEarlier(r.0) && r.1 < |r.0| && |nodes| <= |r.0| && r.0[..|nodes|] == nodes
  {
    match FirstRoot(nodes, first, 0)
    case Some(root) => (nodes, root)
    case None => (nodes + [Node(None, StartIndex, first)], |nodes|)
  }

  /** The seed keeps the pool valid and is a root named `first`. */
  lemma SeedSpec(nodes: seq<Node>, first: string)
    requires PoolValid(nodes)
    ensures PoolValid(Seed(nodes, first).0)
    ensures PathNames(Seed(nodes, first).0, Ancestry(Seed(nodes, first).0, Seed(nodes, first).1)) == [first]
  {
    var (nodes1, root) := Seed(nodes, first);
    if FirstRoot(nodes, first, 0).None? {
      var n := Node(None, StartIndex, first);
      assert nodes1 == nodes + [n];
      assert forall i :: 0 <= i < |nodes| ==> nodes1[i] == nodes[i];
      assert forall i :: 0 <= i < |nodes| ==> nodes[i] != n by {
        forall i | 0 <= i < |nodes| ensures nodes[i] != n {
          assert !IsRoot(nodes[i], first);
        }
      }
    }
    assert Ancestry(nodes1, root) == [root];
  }

  /**
   * `Build.from_order` for an order whose logged unit names are `names`:
   * the seed root, then the remaining names added in order.
   */
  function FromNames(nodes: seq<Node>, names: seq<string>): (r: (seq<Node>, NodeId))
    requires ParentsEarlier(nodes)
  {
    var (nodes1, root) := Seed(nodes, FirstName(names));
    ExtendAll(nodes1, root, RestNames(names))
  }

  /**
   * A build made from an order keeps the pool valid and its element names
   * are the order's logged unit names; an empty log gives a single root
   * named `""`.
   */
  lemma FromNamesSpec(nodes: seq<Node>, names: seq<string>)
    requires PoolValid(nodes)
    ensures PoolValid(FromNames(nodes, names).0)
    ensures PathNames(FromNames(nodes, names).0, Ancestry(FromNames(nodes, names).0, FromNames(nodes, names).1))
         == if names == [] then [""] else names
  {
    var seed := Seed(nodes, FirstName(names));
    SeedSpec(nodes, FirstName(names));
    ExtendAllSpec(seed.0, seed.1, RestNames(names));
    assert names != [] ==> [FirstName(names)] + RestNames(names) == names;
  }

  /** One more step of the `from_order` loop. */
  lemma ExtendAllStep(nodes: seq<Node>, tip: NodeId, names: seq<string>)
    requires ParentsEarlier(nodes) && tip < |nodes| && names != []
    ensures ExtendAll(nodes, tip, names)
         == ExtendAll(Extend(nodes, tip, names[0]).0, Extend(nodes, tip, names[0]).1, names[1..])
  {
  }

  // ---------------------------------------------------------------------------
  // A concrete trie
  // ---------------------------------------------------------------------------

  /** The pool after a root `R`, a build through `A`, `B`, `C` and one through `A`, `B`, `D`. */
  function SamplePool(): seq<Node> {
    [Node(None, 0, "R"), Node(Some(0), 1, "A"), Node(Some(1), 2, "B"), Node(Some(2), 3, "C"), Node(Some(2), 3, "D")]
  }

  /** The sample pool is a valid trie. */
  lemma SamplePoolValid(p: seq<Node>)
    requires p == SamplePool()
    ensures PoolValid(p)
  {
    assert |p| == 5;
    assert p[0] == Node(None, 0, "R") && p[1] == Node(Some(0), 1, "A") && p[2] == Node(Some(1), 2, "B");
    assert p[3] == Node(Some(2), 3, "C") && p[4] == Node(Some(2), 3, "D");
    assert ParentsEarlier(p);
    forall i, q | 0 <= i < |p| && 0 <= q < |p| && p[i].parent == Some(q)
      ensures p[i].index == p[q].index + 1
    {
    }
    forall i, j | 0 <= i < j < |p| ensures p[i] != p[j] {
      assert p[i].index != p[j].index || p[i].unitName != p[j].unitName;
    }
  }

  /** A prefix of a valid pool is valid. */
  lemma PoolValidPrefix(nodes: seq<Node>, k: nat)
    requires PoolValid(nodes) && k <= |nodes|
    ensures PoolValid(nodes[..k])
  {
    var p := nodes[..k];
    assert forall i :: 0 <= i < k ==> p[i] == nodes[i];
  }

  /**
   * In a valid pool, extending the prefix before node `k` by the name of
   * `k` from the parent of `k` creates exactly node `k`, when no earlier
   * child of that parent has the name.
   */
  lemma ExtendNewPrefix(p: seq<Node>, k: nat, tip: NodeId, name: string)
    requires PoolValid(p) && tip < k < |p|
    requires p[k] == Node(Some(tip), p[tip].index + 1, name)
    requires forall i :: 0 <= i < k && p[i].parent == Some(tip) ==> p[i].unitName != name
    ensures Extend(p[..k], tip, name) == (p[..k + 1], k)
  {
    PoolValidPrefix(p, k);
    ExtendNew(p[..k], tip, name);
    assert p[..k] + [p[k]] == p[..k + 1];
  }

  /**
   * The nodes after `j` form a chain under `j`, one per name: each the child
   * of the one before, one level deeper, and named by the next name.
   */
  ghost predicate Chain(p: seq<Node>, j: nat, names: seq<string>) {
    j + |names| < |p| &&
    forall k :: j < k <= j + |names| ==> p[k] == Node(Some(k - 1), p[j].index + (k - j), names[k - 1 - j])
  }

  lemma ChainRest(p: seq<Node>, j: nat, names: seq<string>)
    requires Chain(p, j, names) && names != []
    ensures Chain(p, j + 1, names[1..])
  {
    forall k | j + 1 < k <= j + 1 + |names[1..]|
      ensures p[k] == Node(Some(k - 1), p[j + 1].index + (k - (j + 1)), names[1..][k - 1 - (j + 1)])
    {
      assert p[j + 1].index == p[j].index + 1;
      assert names[1..][k - 1 - (j + 1)] == names[k - 1 - j];
    }
  }

  /** A node never has a parent stored at or after it. */
  lemma NoEarlierChild(p: seq<Node>, t: nat)
    requires ParentsEarlier(p)
    ensures forall i :: 0 <= i <= t && i < |p| ==> p[i].parent != Some(t)
  {
  }

  /** The first name of a chain creates the first node of the chain. */
  lemma ChainFirst(p: seq<Node>, j: nat, names: seq<string>)
    requires PoolValid(p) && Chain(p, j, names) && names != []
    ensures Extend(p[..j + 1], j, names[0]) == (p[..j + 1 + 1], j + 1)
  {
    assert p[j + 1] == Node(Some(j), p[j].index + 1, names[0]);
    NoEarlierChild(p, j);
    ExtendNewPrefix(p, j + 1, j, names[0]);
  }

  /** Extending by the names of a chain takes its first node, then the rest of the names. */
  lemma ChainStep(p: seq<Node>, j: nat, names: seq<string>)
    requires PoolValid(p) && Chain(p, j, names) && names != []
    ensures ExtendAll(p[..j + 1], j, names) == ExtendAll(p[..j + 1 + 1], j + 1, names[1..])
  {
    ChainFirst(p, j, names);
    PoolValidPrefix(p, j + 1);
    ExtendAllStep(p[..j + 1], j, names);
  }

  /**
   * Extending the build at `j` by names that no stored node matches yet
   * creates one node per name, in order: the chain after `j`, with the last
   * as the new tip.
   */
  lemma {:induction false} ExtendAllChain(p: seq<Node>, j: nat, names: seq<string>, last: nat)
    requires PoolValid(p) && Chain(p, j, names) && last == j + |names|
    ensures ExtendAll(p[..j + 1], j, names) == (p[..last + 1], last)
    decreases |names|
  {
    if names != [] {
      ChainStep(p, j, names);
      ChainRest(p, j, names);
      ExtendAllChain(p, j + 1, names[1..], last);
    }
  }

  /** Reusing a child: the first name is consumed by moving the tip to `child`. */
  lemma ExtendAllExisting(nodes: seq<Node>, tip: NodeId, names: seq<string>, child: NodeId)
    requires PoolValid(nodes) && tip < |nodes| && child < |nodes| && names != []
    requires nodes[child].parent == Some(tip) && nodes[child].unitName == names[0]
    ensures ExtendAll(nodes, tip, names) == ExtendAll(nodes, child, names[1..])
  {
    ExtendExisting(nodes, tip, names[0], child);
  }

  /**
   * Extending the build at `j` along a chain that is already stored reuses
   * its nodes: the pool is unchanged and the tip moves to the chain's end.
   */
  lemma {:induction false} ExtendAllReuse(q: seq<Node>, j: nat, names: seq<string>, last: nat, more: seq<string>)
    requires PoolValid(q) && Chain(q, j, names) && last == j + |names|
    ensures ExtendAll(q, j, names + more) == ExtendAll(q, last, more)
    decreases |names|
  {
    if names != [] {
      assert (names + more)[1..] == names[1..] + more;
      ExtendAllExisting(q, j, names + more, j + 1);
      ChainRest(q, j, names);
      ExtendAllReuse(q, j + 1, names[1..], last, more);
    } else {
      assert names + more == more;
    }
  }

  /** The last name creates the last stored node. */
  lemma ExtendAllOneNew(p: seq<Node>, k: nat, tip: NodeId, names: seq<string>)
    requires PoolValid(p) && tip < k < |p| && |names| == 1
    requires p[k] == Node(Some(tip), p[tip].index + 1, names[0])
    requires forall i :: 0 <= i < k && p[i].parent == Some(tip) ==> p[i].unitName != names[0]
    ensures ExtendAll(p[..k], tip, names) == (p[..k + 1], k)
  {
    ExtendNewPrefix(p, k, tip, names[0]);
    ExtendAllStep(p[..k], tip, names);
    assert names[1..] == [];
  }

  /** The `A`, `B`, `C` nodes of the sample pool form a chain under the root. */
  lemma SampleChain(p: seq<Node>, names: seq<string>)
    requires p == SamplePool() && names == ["A", "B", "C"]
    ensures Chain(p, 0, names)
  {
    assert |p| == 5 && p[0].index == 0;
    assert p[1] == Node(Some(0), 1, "A") && p[2] == Node(Some(1), 2, "B") && p[3] == Node(Some(2), 3, "C");
    forall k | 0 < k <= 0 + |names|
      ensures p[k] == Node(Some(k - 1), p[0].index + (k - 0), names[k - 1 - 0])
    {
    }
  }

  /** A build from `R` through `A`, `B`, `C` creates the three nodes in turn. */
  lemma FirstBuild(p: seq<Node>, names: seq<string>)
    requires p == SamplePool() && names == ["A", "B", "C"]
    ensures ExtendAll(p[..1], 0, names) == (p[..4], 3)
  {
    SamplePoolValid(p);
    SampleChain(p, names);
    ExtendAllChain(p, 0, names, 3);
  }

  /**
   * A second build from `R` through `A`, `B`, `D` reuses the `A` and `B`
   * nodes and creates only `D`.
   */
  lemma SecondBuild(p: seq<Node>, names: seq<string>)
    requires p == SamplePool() && names == ["A", "B", "D"]
    ensures ExtendAll(p[..4], 0, names) == (p, 4)
  {
    SecondBuildReuse(p, names);
    SamplePoolValid(p);
    ExtendAllOneNew(p, 4, 2, names[2..]);
    assert p[..4 + 1] == p;
  }

  /** The first two names of the second build reuse stored nodes. */
  lemma SecondBuildReuse(p: seq<Node>, names: seq<string>)
    requires p == SamplePool() && names == ["A", "B", "D"]
    ensures ExtendAll(p[..4], 0, names) == ExtendAll(p[..4], 2, names[2..])
  {
    SamplePoolValid(p);
    PoolValidPrefix(p, 4);
    assert names[..2] + names[2..] == names;
    ExtendAllReuse(p[..4], 0, names[..2], 2, names[2..]);
  }

  /**
   * Two builds from one root, extended by [A, B, C] and by [A, B, D], share
   * the A and B nodes: the pool ends with five nodes.
   */
  lemma SharedPrefix(root: seq<Node>, first: seq<string>, second: seq<string>)
    requires root == [Node(None, StartIndex, "R")] && first == ["A", "B", "C"] && second == ["A", "B", "D"]
    ensures ExtendAll(ExtendAll(root, 0, first).0, 0, second).0
         == [Node(None, 0, "R"), Node(Some(0), 1, "A"), Node(Some(1), 2, "B"),
             Node(Some(2), 3, "C"), Node(Some(2), 3, "D")]
  {
    var p := SamplePool();
    assert p[..1] == root;
    FirstBuild(p, first);
    SecondBuild(p, second);
  }

  /** A new node is stored under a tip that has no child with that name yet. */
  lemma ExtendNew(nodes: seq<Node>, tip: NodeId, name: string)
    requires PoolValid(nodes) && tip < |nodes|
    requires forall i :: 0 <= i < |nodes| && nodes[i].parent == Some(tip) ==> nodes[i].unitName != name
    ensures Extend(nodes, tip, name) == (nodes + [Node(Some(tip), nodes[tip].index + 1, name)], |nodes|)
  {
    NextIndexIsDepth(nodes, tip);
  }

  /** In a valid pool, a stored child of the tip with the name becomes the tip and nothing is stored. */
  lemma ExtendExisting(nodes: seq<Node>, tip: NodeId, name: string, child: NodeId)
    requires PoolValid(nodes) && tip < |nodes| && child < |nodes|
    requires nodes[child].parent == Some(tip) && nodes[child].unitName == name
    ensures Extend(nodes, tip, name) == (nodes, child)
  {
    NextIndexIsDepth(nodes, tip);
    var index := NextIndexOf(nodes, tip);
    assert IsChild(nodes[child], tip, name, index);
    match FirstChild(nodes, tip, name, index, 0)
    case Some(c) =>
      ChildUnique(nodes, tip, name, c, child);
    case None =>
      assert false;
  }

  // ---------------------------------------------------------------------------
  // The node table and the Build object
  // ---------------------------------------------------------------------------

  /** The node table. */
  class NodePool {
    var nodes: seq<Node>

    constructor ()
      ensures nodes == [] && PoolValid(nodes)
    {
      nodes := [];
    }

    /** The loop over `self.trie.children` in `add_unit`: the first matching child of `tip`. */
    method FindChild(tip: NodeId, name: string, index: int) returns (r: Option<NodeId>)
      ensures r == FirstChild(nodes, tip, name, index, 0)
    {
      var i := 0;
      while i < |nodes|
        invariant 0 <= i <= |nodes|
        invariant FirstChild(nodes, tip, name, index, 0) == FirstChild(nodes, tip, name, index, i)
      {
        if IsChild(nodes[i], tip, name, index) {
          return Some(i);
        }
        i := i + 1;
      }
      return None;
    }

    /** The root query of `from_order`: the first stored root with the name. */
    method FindRoot(name: string) returns (r: Option<NodeId>)
      ensures r == FirstRoot(nodes, name, 0)
    {
      var i := 0;
      while i < |nodes|
        invariant 0 <= i <= |nodes|
        invariant FirstRoot(nodes, name, 0) == FirstRoot(nodes, name, i)
      {
        if IsRoot(nodes[i], name) {
          return Some(i);
        }
        i := i + 1;
      }
      return None;
    }

    /** The root step of `from_order`: reuses the first root with the name or stores a new one. */
    method SeedRoot(first: string) returns (root: NodeId)
      requires ParentsEarlier(nodes)
      modifies this
      ensures (nodes, root) == Seed(old(nodes), first)
    {
      var found := FindRoot(first);
      if found.Some? {
        root := found.value;
      } else {
        root := Add(Node(None, StartIndex, first));
      }
    }

    /** `db.session.add`: stores a node after all others. */
    method Add(n: Node) returns (id: NodeId)
      modifies this
      ensures nodes == old(nodes) + [n] && id == old(|nodes|)
    {
      id := |nodes|;
      nodes := nodes + [n];
    }
  }

  class Build {
    const race: string
    const pool: NodePool
    var tip: NodeId

    ghost predicate Valid()
      reads this, pool
    {
      PoolValid(pool.nodes) && tip < |pool.nodes|
    }

    constructor (race: string, pool: NodePool, tip: NodeId)
      requires PoolValid(pool.nodes) && tip < |pool.nodes|
      ensures Valid() && this.race == race && this.pool == pool && this.tip == tip
    {
      this.race, this.pool, this.tip := race, pool, tip;
    }

    /** `elements`: the nodes from a root down to the tip, each the parent of the next, one per index. */
    function Elements(): (r: seq<NodeId>)
      reads this, pool
      requires Valid()
      ensures |r| >= 1 && forall k :: 0 <= k < |r| ==> r[k] <= tip
      ensures |r| == pool.nodes[tip].index + 1 && r[|r| - 1] == tip
      ensures pool.nodes[r[0]].parent.None?
      ensures forall j, k :: 0 <= j && k == j + 1 < |r| ==> pool.nodes[r[k]].parent == Some(r[j])
    {
      AncestryIndexes(pool.nodes, tip);
      Ancestry(pool.nodes, tip)
    }

    /** `next_index`: the depth of the next unit, one past the tip's and the number of elements. */
    function NextIndex(): (r: int)
      reads this, pool
      requires Valid()
      ensures r == pool.nodes[tip].index + 1 == |Elements()|
    {
      NextIndexIsDepth(pool.nodes, tip);
      NextIndexOf(pool.nodes, tip)
    }

    /**
     * `add_unit`: moves the tip to the matching child, or to a new node under
     * the old tip; returns the new tip.
     */
    method AddUnit(name: string) returns (node: NodeId)
      requires Valid()
      modifies this, pool
      ensures Valid()
      ensures (pool.nodes, tip) == Extend(old(pool.nodes), old(tip), name) && node == tip
    {
      ExtendSpec(pool.nodes, tip, name);
      var index := NextIndex();
      var child := pool.FindChild(tip, name, index);
      if child.Some? {
        tip := child.value;
      } else {
        tip := pool.Add(Node(Some(tip), index, name));
      }
      node := tip;
    }

    /**
     * `from_order`: no build for a missing order (the source raises);
     * otherwise the build whose elements are named by the order's log.
     */
    static method FromOrder(race: string, order: Orders.BuildOrder?, pool: NodePool) returns (b: Build?)
      requires PoolValid(pool.nodes)
      modifies pool
      ensures order == null ==> b == null && pool.nodes == old(pool.nodes)
      ensures order != null ==>
        b != null && fresh(b) && b.Valid() && b.race == race && b.pool == pool &&
        (pool.nodes, b.tip) == FromNames(old(pool.nodes), Orders.Names(order.unitOrder))
    {
      if order == null {
        return null;
      }
      var names := Orders.Names(order.unitOrder);
      var first, rest := FirstName(names), RestNames(names);
      SeedSpec(pool.nodes, first);
      var root := pool.SeedRoot(first);
      b := new Build(race, pool, root);
      for i := 0 to |rest|
        invariant b.Valid() && b.race == race && b.pool == pool && fresh(b)
        invariant ExtendAll(pool.nodes, b.tip, rest[i..]) == FromNames(old(pool.nodes), names)
      {
        ExtendAllStep(pool.nodes, b.tip, rest[i..]);
        assert rest[i..][0] == rest[i] && rest[i..][1..] == rest[i + 1..];
        var _ := b.AddUnit(rest[i]);
      }
      assert rest[|rest|..] == [];
    }
  }
}
