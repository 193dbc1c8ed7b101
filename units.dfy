/**
 * Game units and their prerequisite graph (sc_units.py, class GameUnit).
 *
 * A GameUnit object is a handle into an arena, the `Catalog` class: unit `u`
 * has name `names[u]`, direct requirements `reqs[u]` (the source's `_reqs`)
 * and the reverse list of dependents `deps[u]` (the source's `_deps`).
 * A unit can only be given requirements that already exist when it is
 * constructed, so every requirement of `u` has a smaller handle than `u`:
 * the prerequisite graph is acyclic by construction, and the handle is the
 * termination measure of the closure.
 */
module Units {
  import opened Seqs

  type UnitId = nat

  /** Every direct requirement of a unit was constructed before it. */
  predicate RequiresEarlier(reqs: seq<seq<UnitId>>) {
    forall u, k :: 0 <= u < |reqs| && 0 <= k < |reqs[u]| ==> reqs[u][k] < u
  }

  // ---------------------------------------------------------------------------
  // full_requirements
  // ---------------------------------------------------------------------------

  /**
   * The `full_requirements` property of unit `u`: for each direct requirement
   * in declaration order, first the requirement's own full requirements, then
   * the requirement itself, each appended only when not yet listed.
   */
  function FullRequirements(reqs: seq<seq<UnitId>>, u: UnitId): seq<UnitId>
    requires RequiresEarlier(reqs) && u < |reqs|
    decreases u, 1, 0
  {
    Collect(reqs, u, reqs[u], [])
  }

  /** The loop of `full_requirements` over the remaining direct requirements `rs`, with accumulator `sofar`. */
  function Collect(reqs: seq<seq<UnitId>>, u: UnitId, rs: seq<UnitId>, sofar: seq<UnitId>): seq<UnitId>
    requires RequiresEarlier(reqs) && u < |reqs|
    requires forall k :: 0 <= k < |rs| ==> rs[k] < u
    decreases u, 0, |rs|
  {
    if rs == [] then sofar
    else
      var withMore := AppendNew(sofar, FullRequirements(reqs, rs[0]));
      Collect(reqs, u, rs[1..], AppendNew(withMore, [rs[0]]))
  }

  /** Dependency-first order: the full requirements of each element are listed before it. */
  ghost predicate DependencyFirst(reqs: seq<seq<UnitId>>, s: seq<UnitId>)
    requires RequiresEarlier(reqs)
  {
    forall i :: 0 <= i < |s| ==>
      s[i] < |reqs| && forall y :: y in FullRequirements(reqs, s[i]) ==> y in s[..i]
  }

  /**
   * Appending elements whose full requirements are already listed (or come
   * earlier in `xs`) keeps a list dependency-first.
   */
  lemma {:induction false} AppendNewDependencyFirst(reqs: seq<seq<UnitId>>, acc: seq<UnitId>, xs: seq<UnitId>)
    requires RequiresEarlier(reqs) && DependencyFirst(reqs, acc)
    requires forall k :: 0 <= k < |xs| ==> xs[k] < |reqs|
    requires forall k :: 0 <= k < |xs| ==>
      forall y :: y in FullRequirements(reqs, xs[k]) ==> y in acc || y in xs[..k]
    ensures DependencyFirst(reqs, AppendNew(acc, xs))
    decreases |xs|
  {
    if xs != [] {
      var next := if xs[0] in acc then acc else acc + [xs[0]];
      assert DependencyFirst(reqs, next) by {
        if xs[0] !in acc {
          forall i | 0 <= i < |next|
            ensures forall y :: y in FullRequirements(reqs, next[i]) ==> y in next[..i]
          {
            if i < |acc| {
              assert next[..i] == acc[..i];
            } else {
              assert next[..i] == acc;
            }
          }
        }
      }
      forall k | 0 <= k < |xs[1..]|
        ensures forall y :: y in FullRequirements(reqs, xs[1..][k]) ==> y in next || y in xs[1..][..k]
      {
        assert xs[1..][k] == xs[k + 1];
        assert xs[..k + 1] == [xs[0]] + xs[1..][..k];
      }
      AppendNewDependencyFirst(reqs, next, xs[1..]);
    }
  }

  /** `x` is one of the units `rs` or one of their full requirements. */
  ghost predicate InClosureOf(reqs: seq<seq<UnitId>>, rs: seq<UnitId>, x: UnitId)
    requires RequiresEarlier(reqs)
    requires forall k :: 0 <= k < |rs| ==> rs[k] < |reqs|
  {
    exists k :: 0 <= k < |rs| && (x == rs[k] || x in FullRequirements(reqs, rs[k]))
  }

  lemma InClosureOfCons(reqs: seq<seq<UnitId>>, rs: seq<UnitId>, x: UnitId)
    requires RequiresEarlier(reqs) && rs != []
    requires forall k :: 0 <= k < |rs| ==> rs[k] < |reqs|
    ensures InClosureOf(reqs, rs, x) <==>
      x == rs[0] || x in FullRequirements(reqs, rs[0]) || InClosureOf(reqs, rs[1..], x)
  {
    if InClosureOf(reqs, rs, x) {
      var k :| 0 <= k < |rs| && (x == rs[k] || x in FullRequirements(reqs, rs[k]));
      if k > 0 {
        assert rs[1..][k - 1] == rs[k];
      }
    }
    if InClosureOf(reqs, rs[1..], x) {
      var k :| 0 <= k < |rs[1..]| && (x == rs[1..][k] || x in FullRequirements(reqs, rs[1..][k]));
      assert rs[1..][k] == rs[k + 1];
    }
  }

  /** What `Collect` keeps and computes: no repeats, only earlier units, dependency-first order, and its membership. */
  lemma {:induction false} CollectShape(reqs: seq<seq<UnitId>>, u: UnitId, rs: seq<UnitId>, sofar: seq<UnitId>)
    requires RequiresEarlier(reqs) && u < |reqs|
    requires forall k :: 0 <= k < |rs| ==> rs[k] < u
    requires NoDup(sofar) && (forall x :: x in sofar ==> x < u) && DependencyFirst(reqs, sofar)
    ensures var r := Collect(reqs, u, rs, sofar);
      NoDup(r) && (forall x :: x in r ==> x < u) && DependencyFirst(reqs, r) &&
      forall x :: x in r <==> x in sofar || InClosureOf(reqs, rs, x)
    decreases u, 0, |rs|
  {
    if rs != [] {
      var r0 := rs[0];
      FullRequirementsShape(reqs, r0);
      var more := FullRequirements(reqs, r0);
      var withMore := AppendNew(sofar, more);
      AppendNewDependencyFirst(reqs, sofar, more);
      var next := AppendNew(withMore, [r0]);
      AppendNewDependencyFirst(reqs, withMore, [r0]);
      CollectShape(reqs, u, rs[1..], next);
      forall x ensures x in next <==> x in sofar || x == r0 || x in more {
      }
      forall x ensures InClosureOf(reqs, rs, x) <==> x == r0 || x in more || InClosureOf(reqs, rs[1..], x) {
        InClosureOfCons(reqs, rs, x);
      }
    }
  }

  /**
   * The full requirements of `u` contain no repeats and only units constructed
   * before `u` (so never `u` itself), are in dependency-first order, and are
   * exactly the direct requirements together with their full requirements.
   */
  lemma {:induction false} FullRequirementsShape(reqs: seq<seq<UnitId>>, u: UnitId)
    requires RequiresEarlier(reqs) && u < |reqs|
    ensures var r := FullRequirements(reqs, u);
      NoDup(r) && (forall x :: x in r ==> x < u) && u !in r && DependencyFirst(reqs, r) &&
      forall x :: x in r <==> InClosureOf(reqs, reqs[u], x)
    decreases u, 1, 0
  {
    CollectShape(reqs, u, reqs[u], []);
  }

  /** The closure has no repeats and lists only units constructed earlier. */
  lemma FullRequirementsEarlier(reqs: seq<seq<UnitId>>, u: UnitId)
    requires RequiresEarlier(reqs) && u < |reqs|
    ensures NoDup(FullRequirements(reqs, u))
    ensures forall x :: x in FullRequirements(reqs, u) ==> x < u
  {
    FullRequirementsShape(reqs, u);
  }

  /** A unit with a single requirement lists that requirement's closure, then the requirement. */
  lemma SingleRequirement(reqs: seq<seq<UnitId>>, u: UnitId)
    requires RequiresEarlier(reqs) && u < |reqs| && |reqs[u]| == 1
    ensures FullRequirements(reqs, u) == FullRequirements(reqs, reqs[u][0]) + [reqs[u][0]]
  {
    var r := reqs[u][0];
    var more := FullRequirements(reqs, r);
    FullRequirementsEarlier(reqs, r);
    AppendNewFresh([], more);
    AppendNewFresh(more, [r]);
    assert reqs[u] == [r] && reqs[u][1..] == [];
    calc {
      FullRequirements(reqs, u);
      Collect(reqs, u, [r], []);
      Collect(reqs, u, [], AppendNew(AppendNew([], more), [r]));
      more + [r];
    }
  }

  /**
   * With two direct requirements `a` then `b`, the closure lists `a`'s closure
   * and `a`, then whatever of `b`'s closure and `b` is not yet listed.
   */
  lemma TwoRequirements(reqs: seq<seq<UnitId>>, u: UnitId)
    requires RequiresEarlier(reqs) && u < |reqs| && |reqs[u]| == 2
    ensures FullRequirements(reqs, u)
         == AppendNew(AppendNew(FullRequirements(reqs, reqs[u][0]) + [reqs[u][0]],
                                FullRequirements(reqs, reqs[u][1])), [reqs[u][1]])
  {
    var a, b := reqs[u][0], reqs[u][1];
    var more := FullRequirements(reqs, a);
    FullRequirementsEarlier(reqs, a);
    AppendNewFresh([], more);
    AppendNewFresh(more, [a]);
    assert [] + more == more;
    assert reqs[u][1..] == [b] && [b][1..] == [];
    calc {
      FullRequirements(reqs, u);
      Collect(reqs, u, reqs[u], []);
      Collect(reqs, u, [b], AppendNew(AppendNew([], more), [a]));
      Collect(reqs, u, [b], more + [a]);
      Collect(reqs, u, [], AppendNew(AppendNew(more + [a], FullRequirements(reqs, b)), [b]));
    }
  }

  /** A unit built without requirements has no full requirements. */
  lemma NoRequirementsNoClosure(reqs: seq<seq<UnitId>>, u: UnitId)
    requires RequiresEarlier(reqs) && u < |reqs| && reqs[u] == []
    ensures FullRequirements(reqs, u) == []
  {
  }

  // ---------------------------------------------------------------------------
  // Transitive closure, stated independently through requirement chains
  // ---------------------------------------------------------------------------

  /** `p` is a chain of two or more units, each directly requiring the next. */
  ghost predicate IsChain(reqs: seq<seq<UnitId>>, p: seq<UnitId>) {
    |p| >= 2 &&
    (forall i :: 0 <= i < |p| ==> p[i] < |reqs|) &&
    forall i, j :: 0 <= i < |p| && j == i + 1 < |p| ==> p[j] in reqs[p[i]]
  }

  /** `u` depends on `x` when a chain of direct requirements leads from `u` to `x`. */
  ghost predicate DependsOn(reqs: seq<seq<UnitId>>, u: UnitId, x: UnitId) {
    exists p :: IsChain(reqs, p) && p[0] == u && p[|p| - 1] == x
  }

  /** The end of every chain is among the full requirements of its start. */
  lemma {:induction false} ChainInClosure(reqs: seq<seq<UnitId>>, p: seq<UnitId>)
    requires RequiresEarlier(reqs) && IsChain(reqs, p)
    ensures p[|p| - 1] in FullRequirements(reqs, p[0])
    decreases |p|
  {
    var u := p[0];
    assert p[1] in reqs[u];
    var k :| 0 <= k < |reqs[u]| && reqs[u][k] == p[1];
    if |p| > 2 {
      var q := p[1..];
      assert IsChain(reqs, q) by {
        forall i, j | 0 <= i < |q| && j == i + 1 < |q| ensures q[j] in reqs[q[i]] {
          assert q[i] == p[i + 1] && q[j] == p[j + 1];
        }
      }
      ChainInClosure(reqs, q);
    }
    assert InClosureOf(reqs, reqs[u], p[|p| - 1]);
    FullRequirementsShape(reqs, u);
  }

  /** Every full requirement of `u` is the end of a chain from `u`. */
  lemma {:induction false} ClosureHasChain(reqs: seq<seq<UnitId>>, u: UnitId, x: UnitId)
    requires RequiresEarlier(reqs) && u < |reqs| && x in FullRequirements(reqs, u)
    ensures DependsOn(reqs, u, x)
    decreases u
  {
    FullRequirementsShape(reqs, u);
    var k :| 0 <= k < |reqs[u]| && (x == reqs[u][k] || x in FullRequirements(reqs, reqs[u][k]));
    var r := reqs[u][k];
    if x == r {
      var p := [u, r];
      assert IsChain(reqs, p);
    } else {
      ClosureHasChain(reqs, r, x);
      var q :| IsChain(reqs, q) && q[0] == r && q[|q| - 1] == x;
      var p := [u] + q;
      assert IsChain(reqs, p) by {
        forall i | 0 <= i < |p| ensures p[i] < |reqs| {
          if i > 0 { assert p[i] == q[i - 1]; }
        }
        forall i, j | 0 <= i < |p| && j == i + 1 < |p| ensures p[j] in reqs[p[i]] {
          if i > 0 { assert p[i] == q[i - 1] && p[j] == q[j - 1]; }
        }
      }
      assert p[|p| - 1] == x;
    }
  }

  /** `full_requirements` is exactly the transitive closure of the direct requirements. */
  lemma FullRequirementsIsClosure(reqs: seq<seq<UnitId>>, u: UnitId, x: UnitId)
    requires RequiresEarlier(reqs) && u < |reqs|
    ensures x in FullRequirements(reqs, u) <==> DependsOn(reqs, u, x)
  {
    if x in FullRequirements(reqs, u) {
      ClosureHasChain(reqs, u, x);
    }
    if DependsOn(reqs, u, x) {
      var p :| IsChain(reqs, p) && p[0] == u && p[|p| - 1] == x;
      ChainInClosure(reqs, p);
    }
  }

  // ---------------------------------------------------------------------------
  // The reverse index `_deps`
  // ---------------------------------------------------------------------------

  /** The units among the first `n` that list `u` as a direct requirement, in construction order. */
  function Dependents(reqs: seq<seq<UnitId>>, u: UnitId, n: nat): seq<UnitId>
    requires n <= |reqs|
  {
    if n == 0 then []
    else Dependents(reqs, u, n - 1) + (if u in reqs[n - 1] then [n - 1] else [])
  }

  /** `Dependents` lists, without repeats and in increasing order, exactly the units below `n` requiring `u`. */
  lemma {:induction false} DependentsMembers(reqs: seq<seq<UnitId>>, u: UnitId, n: nat)
    requires n <= |reqs|
    ensures var d := Dependents(reqs, u, n);
      (forall v: UnitId :: v in d <==> v < n && u in reqs[v]) &&
      forall i, j :: 0 <= i < j < |d| ==> d[i] < d[j]
  {
    if n > 0 {
      DependentsMembers(reqs, u, n - 1);
      var d' := Dependents(reqs, u, n - 1);
      var last: seq<UnitId> := if u in reqs[n - 1] then [n - 1] else [];
      var d := d' + last;
      assert Dependents(reqs, u, n) == d;
      forall i | 0 <= i < |d'| ensures d'[i] < n - 1 {
        assert d'[i] in d';
      }
      forall v: UnitId ensures v in d <==> v < n && u in reqs[v] {
        assert v in d <==> v in d' || v in last;
      }
      forall i, j | 0 <= i < j < |d| ensures d[i] < d[j] {
        if j < |d'| {
          assert d[i] == d'[i] && d[j] == d'[j];
        } else {
          assert d[i] == d'[i] && d[j] == n - 1;
        }
      }
    }
  }

  /** Units constructed later do not change the dependents among the first `n`. */
  lemma {:induction false} DependentsPrefix(reqs: seq<seq<UnitId>>, more: seq<seq<UnitId>>, u: UnitId, n: nat)
    requires n <= |reqs|
    ensures Dependents(reqs + more, u, n) == Dependents(reqs, u, n)
  {
    if n > 0 {
      DependentsPrefix(reqs, more, u, n - 1);
      assert (reqs + more)[n - 1] == reqs[n - 1];
    }
  }

  /** No unit constructed up to `u` requires `u`. */
  lemma {:induction false} NoEarlierDependents(reqs: seq<seq<UnitId>>, u: UnitId, n: nat)
    requires RequiresEarlier(reqs) && n <= |reqs| && n <= u + 1
    ensures Dependents(reqs, u, n) == []
  {
    if n > 0 {
      NoEarlierDependents(reqs, u, n - 1);
      assert u !in reqs[n - 1];
    }
  }

  // ---------------------------------------------------------------------------
  // The arena of GameUnit objects
  // ---------------------------------------------------------------------------

  class Catalog {
    var names: seq<string>
    var reqs: seq<seq<UnitId>>
    var deps: seq<seq<UnitId>>

    /** Units only require earlier units, and `_deps` of each unit lists exactly its dependents in construction order. */
    ghost predicate Valid()
      reads this
    {
      |names| == |reqs| == |deps| &&
      RequiresEarlier(reqs) &&
      forall u :: 0 <= u < |deps| ==> deps[u] == Dependents(reqs, u, |reqs|)
    }

    /** An arena with no units yet. */
    constructor ()
      ensures Valid() && names == [] && reqs == [] && deps == []
    {
      names, reqs, deps := [], [], [];
    }

    /** `register_dependent`: adds `other` at the end of `u`'s dependents unless it is already there. */
    method RegisterDependent(u: UnitId, other: UnitId)
      requires u < |deps|
      modifies this
      ensures names == old(names) && reqs == old(reqs)
      ensures deps == old(deps)[u := if other in old(deps[u]) then old(deps[u]) else old(deps[u]) + [other]]
      ensures NoDup(old(deps[u])) ==> NoDup(deps[u])
    {
      if other !in deps[u] {
        deps := deps[u := deps[u] + [other]];
      }
    }

    /**
     * The GameUnit constructor: a new unit with the given name and direct
     * requirements, registered as a dependent of each of its requirements.
     */
    method NewUnit(name: string, rs: seq<UnitId>) returns (id: UnitId)
      requires Valid()
      requires forall k :: 0 <= k < |rs| ==> rs[k] < |reqs|
      modifies this
      ensures Valid()
      ensures id == old(|reqs|)
      ensures names == old(names) + [name] && reqs == old(reqs) + [rs]
      ensures forall v :: 0 <= v < id ==> deps[v] == old(deps[v]) + (if v in rs then [id] else [])
      ensures deps[id] == []
    {
      id := |reqs|;
      ghost var deps0 := deps;
      forall v | 0 <= v < id ensures forall x :: x in deps0[v] ==> x < id {
        DependentsMembers(reqs, v, id);
      }
      names, reqs, deps := names + [name], reqs + [rs], deps + [[]];
      for k := 0 to |rs|
        invariant |names| == |reqs| == |deps| == id + 1
        invariant names == old(names) + [name] && reqs == old(reqs) + [rs]
        invariant deps[id] == []
        invariant forall v :: 0 <= v < id ==> deps[v] == deps0[v] + (if v in rs[..k] then [id] else [])
      {
        TakeSnoc(rs, k);
        RegisterDependent(rs[k], id);
      }
      assert rs[..|rs|] == rs;
      forall u | 0 <= u < |deps| ensures deps[u] == Dependents(reqs, u, |reqs|) {
        if u < id {
          DependentsPrefix(old(reqs), [rs], u, id);
        } else {
          NoEarlierDependents(reqs, u, |reqs|);
        }
      }
    }

    /** `immediate_requirements`: the direct requirements, all constructed earlier. */
    function ImmediateRequirements(u: UnitId): (r: seq<UnitId>)
      reads this
      requires Valid() && u < |reqs|
      ensures forall x :: x in r ==> x < u
    {
      reqs[u]
    }

    /** `available_choices`: every unit requiring `u`, once each, in construction order. */
    function AvailableChoices(u: UnitId): (r: seq<UnitId>)
      reads this
      requires Valid() && u < |deps|
      ensures NoDup(r)
      ensures forall v: UnitId :: v in r <==> v < |reqs| && u in reqs[v]
    {
      DependentsMembers(reqs, u, |reqs|);
      deps[u]
    }

    /**
     * Constructs the units of `entries` in order (the module-level catalog
     * definitions); each entry may only require entries before it.
     */
    static method Load(entries: seq<(string, seq<UnitId>)>) returns (c: Catalog)
      requires forall i, k :: 0 <= i < |entries| && 0 <= k < |entries[i].1| ==> entries[i].1[k] < i
      ensures fresh(c) && c.Valid()
      ensures |c.names| == |entries|
      ensures forall i :: 0 <= i < |entries| ==> c.names[i] == entries[i].0 && c.reqs[i] == entries[i].1
    {
      c := new Catalog();
      for i := 0 to |entries|
        invariant c.Valid() && |c.names| == i
        invariant forall j :: 0 <= j < i ==> c.names[j] == entries[j].0 && c.reqs[j] == entries[j].1
      {
        var id := c.NewUnit(entries[i].0, entries[i].1);
      }
    }
  }
}
