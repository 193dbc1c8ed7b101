/**
 * `map_sub(f, value)` (build_orders.py): applies `f` to every leaf of a
 * nested structure of mappings and non-string sequences, keeping the
 * structure. Mappings are tested first, then `is_iterable` sequences; every
 * other value, strings included, is a leaf. A mapping is rebuilt by
 * unpacking `zip(*items)` into keys and values, which raises for an empty
 * mapping; the model returns `None` for that failure, wherever it occurs.
 *
 * Sequences come back as lists and mappings as dictionaries, so the result
 * is a `Tree` whose leaves are what `f` returned.
 */
module MapSub {
  import opened Wrappers
  import opened FuncUtils

  datatype Tree<B> = Applied(b: B) | ListOf(items: seq<Tree<B>>) | DictOf(entries: map<string, Tree<B>>)

  /** `map_sub(f, v)`: `None` when an empty mapping occurs anywhere in `v`. */
  function Map<A, B>(f: PyValue<A> -> B, v: PyValue<A>): (r: Option<Tree<B>>)
    ensures !v.Mapping? && !IsIterable(v) ==> r == Some(Applied(f(v)))
    ensures v.List? && r.Some? ==>
      r.value.ListOf? && |r.value.items| == |v.items| &&
      forall i :: 0 <= i < |v.items| ==> Map(f, v.items[i]) == Some(r.value.items[i])
    ensures v.Mapping? && r.Some? ==>
      r.value.DictOf? && r.value.entries.Keys == v.entries.Keys &&
      forall k :: k in v.entries ==> Map(f, v.entries[k]) == Some(r.value.entries[k])
    decreases v
  {
    if v.Mapping? then
      var m := v.entries;
      if m == map[] then None
      else if exists k :: k in m && Map(f, m[k]).None? then None
      else Some(DictOf(map k | k in m :: Map(f, m[k]).value))
    else if IsIterable(v) then
      var items := v.items;
      if exists i :: 0 <= i < |items| && Map(f, items[i]).None? then None
      else Some(ListOf(seq(|items|, i requires 0 <= i < |items| => Map(f, items[i]).value)))
    else Some(Applied(f(v)))
  }

  /** An empty mapping occurs somewhere in `v`, at any depth. */
  ghost predicate HasEmptyMapping<A>(v: PyValue<A>)
    decreases v
  {
    match v
    case Mapping(m) => m == map[] || exists k :: k in m && HasEmptyMapping(m[k])
    case List(items) => exists i :: 0 <= i < |items| && HasEmptyMapping(items[i])
    case _ => false
  }

  /**
   * `t` has the structure of `v` with `f` applied at the leaves: a list per
   * sequence, of the same length, and a dictionary per mapping, with the
   * same keys.
   */
  ghost predicate Mirrors<A, B>(f: PyValue<A> -> B, v: PyValue<A>, t: Tree<B>)
    decreases v
  {
    match v
    case Mapping(m) =>
      t.DictOf? && t.entries.Keys == m.Keys && forall k :: k in m ==> Mirrors(f, m[k], t.entries[k])
    case List(items) =>
      t.ListOf? && |t.items| == |items| && forall i :: 0 <= i < |items| ==> Mirrors(f, items[i], t.items[i])
    case _ => t == Applied(f(v))
  }

  /** `map_sub` fails exactly when an empty mapping occurs in `v`. */
  lemma {:induction false} MapFailsIff<A, B>(f: PyValue<A> -> B, v: PyValue<A>)
    ensures Map(f, v).None? <==> HasEmptyMapping(v)
    decreases v
  {
    match v
    case Mapping(m) =>
      forall k | k in m ensures Map(f, m[k]).None? <==> HasEmptyMapping(m[k]) {
        MapFailsIff(f, m[k]);
      }
    case List(items) =>
      forall i | 0 <= i < |items| ensures Map(f, items[i]).None? <==> HasEmptyMapping(items[i]) {
        MapFailsIff(f, items[i]);
      }
    case _ =>
  }

  /** A result of `map_sub` mirrors its input. */
  lemma {:induction false} MapMirrors<A, B>(f: PyValue<A> -> B, v: PyValue<A>)
    requires Map(f, v).Some?
    ensures Mirrors(f, v, Map(f, v).value)
    decreases v
  {
    match v
    case Mapping(m) =>
      forall k | k in m ensures Mirrors(f, m[k], Map(f, v).value.entries[k]) {
        MapMirrors(f, m[k]);
      }
    case List(items) =>
      forall i | 0 <= i < |items| ensures Mirrors(f, items[i], Map(f, v).value.items[i]) {
        MapMirrors(f, items[i]);
      }
    case _ =>
  }

  /** At most one tree mirrors a value. */
  lemma {:induction false} MirrorsUnique<A, B>(f: PyValue<A> -> B, v: PyValue<A>, t1: Tree<B>, t2: Tree<B>)
    requires Mirrors(f, v, t1) && Mirrors(f, v, t2)
    ensures t1 == t2
    decreases v
  {
    match v
    case Mapping(m) =>
      forall k | k in m ensures t1.entries[k] == t2.entries[k] {
        MirrorsUnique(f, m[k], t1.entries[k], t2.entries[k]);
      }
      assert t1.entries == t2.entries;
    case List(items) =>
      forall i | 0 <= i < |items| ensures t1.items[i] == t2.items[i] {
        MirrorsUnique(f, items[i], t1.items[i], t2.items[i]);
      }
      assert t1.items == t2.items;
    case _ =>
  }

  /**
   * `map_sub` is characterised by its shape: it returns `t` exactly when no
   * mapping in `v` is empty and `t` mirrors `v`.
   */
  lemma MapSpec<A, B>(f: PyValue<A> -> B, v: PyValue<A>, t: Tree<B>)
    ensures Map(f, v) == Some(t) <==> !HasEmptyMapping(v) && Mirrors(f, v, t)
  {
    MapFailsIff(f, v);
    if Map(f, v).Some? {
      MapMirrors(f, v);
      if Mirrors(f, v, t) {
        MirrorsUnique(f, v, t, Map(f, v).value);
      }
    }
  }

  /** Reads a result whose leaves are values back as a value: lists as lists, dictionaries as mappings. */
  function Embed<A>(t: Tree<PyValue<A>>): (r: PyValue<A>)
    ensures t.Applied? ==> r == t.b
    ensures t.ListOf? ==> r.List? && |r.items| == |t.items|
    ensures t.DictOf? ==> r.Mapping? && r.entries.Keys == t.entries.Keys
    decreases t
  {
    match t
    case Applied(x) => x
    case ListOf(items) => List(seq(|items|, i requires 0 <= i < |items| => Embed(items[i])))
    case DictOf(m) => Mapping(map k | k in m :: Embed(m[k]))
  }

  /** The identity on values. */
  function Id<A>(v: PyValue<A>): PyValue<A> {
    v
  }

  /** Mapping the identity over a value without empty mappings gives the value back. */
  lemma {:induction false} MapIdentity<A>(v: PyValue<A>)
    requires !HasEmptyMapping(v)
    ensures Map(Id, v).Some? && Embed(Map(Id, v).value) == v
    decreases v
  {
    MapFailsIff(Id, v);
    var t := Map(Id, v).value;
    match v
    case Mapping(m) =>
      assert t.DictOf? && t.entries.Keys == m.Keys;
      forall k | k in m ensures Embed(t.entries[k]) == m[k] {
        assert !HasEmptyMapping(m[k]);
        MapIdentity(m[k]);
        assert Map(Id, m[k]) == Some(t.entries[k]);
      }
      assert Embed(t).entries == m;
    case List(items) =>
      assert t.ListOf? && |t.items| == |items|;
      forall i | 0 <= i < |items| ensures Embed(t.items[i]) == items[i] {
        assert !HasEmptyMapping(items[i]);
        MapIdentity(items[i]);
        assert Map(Id, items[i]) == Some(t.items[i]);
      }
      assert Embed(t).items == items;
    case _ =>
  }
}
