/**
 * Nested-dictionary helpers (func_utils.py; build_orders/func_utils.py holds
 * an identical copy of both functions).
 *
 * `dict_create_path(path, into)` walks `path` key by key from the dictionary
 * `into`, binding each missing key to a new empty dictionary, and returns
 * the value it ends on. It changes dictionaries in place, and those
 * dictionaries may be shared, so they are modelled as a heap: a table of
 * dictionaries addressed by `TableId`, whose entries hold either a reference
 * to another dictionary or some other value (`Leaf`: a string, number, list
 * or `None`). The value under the last key is returned whatever it is. A
 * further key applied to a `Leaf` is where Python raises `TypeError` (a
 * string key can be neither looked up in nor assigned into a string, list or
 * number); the model ends the walk there with no result, keeping the keys
 * added before that point, as the source does.
 *
 * `CreatePathSpec` is the walk as a function on the heap; the class
 * `DictHeap` performs it in place and is proved against it.
 */
module FuncUtils {
  import opened Wrappers

  type TableId = nat

  /** A dictionary value: another dictionary, or anything that is not one. */
  datatype Entry = Table(id: TableId) | Leaf(text: string)

  type Dict = map<string, Entry>

  /** Every dictionary reference points into the heap. */
  ghost predicate HeapValid(tables: seq<Dict>) {
    forall id, key :: 0 <= id < |tables| && key in tables[id] && tables[id][key].Table? ==> tables[id][key].id < |tables|
  }

  /** The value is a dictionary of the heap. */
  predicate InHeap(tables: seq<Dict>, e: Entry) {
    e.Table? ==> e.id < |tables|
  }

  /**
   * Nothing is overwritten or removed: the heap only gains dictionaries at
   * its end and keys in existing dictionaries.
   */
  ghost predicate Grows(before: seq<Dict>, after: seq<Dict>) {
    |before| <= |after| &&
    forall id, key :: 0 <= id < |before| && key in before[id] ==> key in after[id] && after[id][key] == before[id][key]
  }

  lemma GrowsTransitive(a: seq<Dict>, b: seq<Dict>, c: seq<Dict>)
    requires Grows(a, b) && Grows(b, c)
    ensures Grows(a, c)
  {
  }

  /**
   * One iteration of the loop: create `{}` under `key` when it is missing,
   * then take the value now stored under it.
   */
  function Descend(tables: seq<Dict>, cur: TableId, key: string): (r: (seq<Dict>, Entry))
    requires HeapValid(tables) && cur < |tables|
    ensures HeapValid(r.0) && Grows(tables, r.0) && InHeap(r.0, r.1)
    ensures key in r.0[cur] && r.0[cur][key] == r.1
    ensures key in tables[cur] ==> r.0 == tables
    ensures key !in tables[cur] ==> r.1 == Table(|tables|) && |r.0| == |tables| + 1 && r.0[|tables|] == map[]
  {
    if key in tables[cur] then (tables, tables[cur][key])
    else (tables[cur := tables[cur][key := Table(|tables|)]] + [map[]], Table(|tables|))
  }

  /**
   * The heap after a walk, and the value the walk returned: a dictionary or
   * the non-dictionary value under the last key; none when the source raises.
   */
  datatype Walked = Walked(tables: seq<Dict>, section: Option<Entry>)

  /** `dict_create_path(path, into)` on the heap `tables`. */
  function CreatePathSpec(tables: seq<Dict>, into: TableId, path: seq<string>): (r: Walked)
    requires HeapValid(tables) && into < |tables|
    ensures HeapValid(r.tables) && Grows(tables, r.tables)
    ensures r.section.Some? ==> InHeap(r.tables, r.section.value)
    ensures r.section.Some? && r.section.value.Leaf? ==> path != []
    decreases |path|
  {
    if path == [] then Walked(tables, Some(Table(into)))
    else
      var (tables1, next) := Descend(tables, into, path[0]);
      match next
      case Leaf(_) => Walked(tables1, if |path| == 1 then Some(next) else None)
      case Table(id) =>
        var r := CreatePathSpec(tables1, id, path[1..]);
        GrowsTransitive(tables, tables1, r.tables);
        r
  }

  /**
   * Following `path` key by key through existing keys, without creating
   * anything: the value under the last key, or none when a key is missing or
   * a non-dictionary value still has keys to apply.
   */
  function Follow(tables: seq<Dict>, cur: TableId, path: seq<string>): (r: Option<Entry>)
    requires HeapValid(tables) && cur < |tables|
    ensures r.Some? ==> InHeap(tables, r.value)
    decreases |path|
  {
    if path == [] then Some(Table(cur))
    else if path[0] !in tables[cur] then None
    else
      match tables[cur][path[0]]
      case Table(id) => Follow(tables, id, path[1..])
      case Leaf(_) => if |path| == 1 then Some(tables[cur][path[0]]) else None
  }

  /**
   * The walk meets a non-dictionary value with at least one key still to
   * apply to it, before it meets a missing key.
   */
  ghost predicate HitsLeaf(tables: seq<Dict>, cur: TableId, path: seq<string>)
    requires HeapValid(tables) && cur < |tables|
    decreases |path|
  {
    path != [] && path[0] in tables[cur] &&
    if tables[cur][path[0]].Leaf? then |path| > 1 else HitsLeaf(tables, tables[cur][path[0]].id, path[1..])
  }

  // ---------------------------------------------------------------------------
  // What a walk guarantees
  // ---------------------------------------------------------------------------

  /** A path that can be followed stays followable, to the same value, as the heap grows. */
  lemma {:induction false} FollowGrows(tables: seq<Dict>, tables': seq<Dict>, cur: TableId, path: seq<string>)
    requires HeapValid(tables) && HeapValid(tables') && Grows(tables, tables') && cur < |tables|
    requires Follow(tables, cur, path).Some?
    ensures Follow(tables', cur, path) == Follow(tables, cur, path)
    decreases |path|
  {
    if path != [] && tables[cur][path[0]].Table? {
      FollowGrows(tables, tables', tables[cur][path[0]].id, path[1..]);
    }
  }

  /**
   * After a walk that returns, following `path` from `into` reaches the
   * returned value; an empty path returns `into` itself.
   */
  lemma {:induction false} CreatePathReaches(tables: seq<Dict>, into: TableId, path: seq<string>)
    requires HeapValid(tables) && into < |tables|
    ensures var r := CreatePathSpec(tables, into, path);
            r.section.Some? ==> Follow(r.tables, into, path) == r.section
    ensures path == [] ==> CreatePathSpec(tables, into, path) == Walked(tables, Some(Table(into)))
    decreases |path|
  {
    if path != [] {
      var (tables1, next) := Descend(tables, into, path[0]);
      if next.Table? {
        CreatePathReaches(tables1, next.id, path[1..]);
        var r := CreatePathSpec(tables1, next.id, path[1..]);
        assert Grows(tables1, r.tables);
      }
    }
  }

  /** Every prefix of a followable path is followable. */
  lemma {:induction false} FollowPrefix(tables: seq<Dict>, cur: TableId, path: seq<string>, k: nat)
    requires HeapValid(tables) && cur < |tables| && k <= |path|
    requires Follow(tables, cur, path).Some?
    ensures Follow(tables, cur, path[..k]).Some?
    decreases k
  {
    if k > 0 {
      assert path[..k][0] == path[0] && path[..k][1..] == path[1..][..k - 1];
      if tables[cur][path[0]].Table? {
        FollowPrefix(tables, tables[cur][path[0]].id, path[1..], k - 1);
      } else {
        assert path[..k] == path;
      }
    }
  }

  /** After a walk that returns, every prefix of `path` is a chain of keys present from `into`. */
  lemma CreatePathPrefixes(tables: seq<Dict>, into: TableId, path: seq<string>)
    requires HeapValid(tables) && into < |tables|
    ensures var r := CreatePathSpec(tables, into, path);
            r.section.Some? ==> forall k :: 0 <= k <= |path| ==> Follow(r.tables, into, path[..k]).Some?
  {
    var r := CreatePathSpec(tables, into, path);
    if r.section.Some? {
      CreatePathReaches(tables, into, path);
      forall k | 0 <= k <= |path| ensures Follow(r.tables, into, path[..k]).Some? {
        FollowPrefix(r.tables, into, path, k);
      }
    }
  }

  /** An entry the walk adds has a key from `path` and is bound to a dictionary it created. */
  ghost predicate AddedOnPath(before: seq<Dict>, after: seq<Dict>, path: seq<string>) {
    forall id, key :: 0 <= id < |after| && key in after[id] && !(id < |before| && key in before[id]) ==>
      key in path && after[id][key].Table? && |before| <= after[id][key].id
  }

  lemma AddedOnPathCompose(a: seq<Dict>, b: seq<Dict>, c: seq<Dict>, path: seq<string>, rest: seq<string>)
    requires Grows(a, b) && Grows(b, c) && AddedOnPath(a, b, path) && AddedOnPath(b, c, rest)
    requires forall key :: key in rest ==> key in path
    ensures AddedOnPath(a, c, path)
  {
    forall id, key | 0 <= id < |c| && key in c[id] && !(id < |a| && key in a[id])
      ensures key in path && c[id][key].Table? && |a| <= c[id][key].id
    {
      if id < |b| && key in b[id] {
        assert c[id][key] == b[id][key];
        assert key in path && b[id][key].Table? && |a| <= b[id][key].id;
      } else {
        assert key in rest && |b| <= c[id][key].id;
      }
    }
  }

  /**
   * Every key the walk adds is a key of the path bound to a new dictionary
   * (which dictionaries receive them is `CreatePathFrame`), and a returned
   * dictionary the walk created is empty.
   */
  lemma {:induction false} CreatePathAddsOnlyPath(tables: seq<Dict>, into: TableId, path: seq<string>)
    requires HeapValid(tables) && into < |tables|
    ensures AddedOnPath(tables, CreatePathSpec(tables, into, path).tables, path)
    ensures var r := CreatePathSpec(tables, into, path);
            r.section.Some? && r.section.value.Table? && |tables| <= r.section.value.id ==> r.tables[r.section.value.id] == map[]
    decreases |path|
  {
    if path != [] {
      var (tables1, next) := Descend(tables, into, path[0]);
      assert AddedOnPath(tables, tables1, path) by {
        if path[0] !in tables[into] {
          assert forall id :: 0 <= id < |tables| && id != into ==> tables1[id] == tables[id];
        }
      }
      if next.Table? {
        CreatePathAddsOnlyPath(tables1, next.id, path[1..]);
        var r := CreatePathSpec(tables1, next.id, path[1..]);
        assert forall key :: key in path[1..] ==> key in path;
        AddedOnPathCompose(tables, tables1, r.tables, path, path[1..]);
        if |tables| <= next.id {
          assert tables1[next.id] == map[];
          CreatePathFromEmptySection(tables1, next.id, path[1..]);
        }
      }
    }
  }

  /**
   * Keys are added only to dictionaries the walk passes through: a
   * dictionary that no proper prefix of `path` reaches after the walk is
   * left exactly as it was.
   */
  lemma {:induction false} CreatePathFrame(tables: seq<Dict>, into: TableId, path: seq<string>, id: TableId)
    requires HeapValid(tables) && into < |tables| && id < |tables|
    requires forall k :: 0 <= k < |path| ==> Follow(CreatePathSpec(tables, into, path).tables, into, path[..k]) != Some(Table(id))
    ensures CreatePathSpec(tables, into, path).tables[id] == tables[id]
    decreases |path|
  {
    if path != [] {
      var after := CreatePathSpec(tables, into, path).tables;
      assert path[..0] == [];
      assert Follow(after, into, path[..0]) != Some(Table(id));
      var (tables1, next) := Descend(tables, into, path[0]);
      assert tables1[id] == tables[id];
      if next.Table? {
        assert after == CreatePathSpec(tables1, next.id, path[1..]).tables;
        assert path[0] in after[into] && after[into][path[0]] == next;
        forall k | 0 <= k < |path[1..]|
          ensures Follow(after, next.id, path[1..][..k]) != Some(Table(id))
        {
          assert path[..k + 1][0] == path[0] && path[..k + 1][1..] == path[1..][..k];
          assert Follow(after, into, path[..k + 1]) == Follow(after, next.id, path[1..][..k]);
        }
        CreatePathFrame(tables1, next.id, path[1..], id);
      }
    }
  }

  /** From an empty dictionary, the walk ends on an empty dictionary it created, or on the empty start when `path` is empty. */
  lemma {:induction false} CreatePathFromEmptySection(tables: seq<Dict>, cur: TableId, path: seq<string>)
    requires HeapValid(tables) && cur < |tables| && tables[cur] == map[]
    ensures var r := CreatePathSpec(tables, cur, path);
            r.section.Some? && r.section.value.Table? && r.tables[r.section.value.id] == map[] &&
            (path != [] ==> |tables| <= r.section.value.id)
    decreases |path|
  {
    if path != [] {
      var (tables1, next) := Descend(tables, cur, path[0]);
      CreatePathFromEmptySection(tables1, next.id, path[1..]);
    }
  }

  /** A walk over keys that all exist changes nothing and returns what `Follow` reaches. */
  lemma {:induction false} CreatePathExisting(tables: seq<Dict>, into: TableId, path: seq<string>)
    requires HeapValid(tables) && into < |tables| && Follow(tables, into, path).Some?
    ensures CreatePathSpec(tables, into, path) == Walked(tables, Follow(tables, into, path))
    decreases |path|
  {
    if path != [] && tables[into][path[0]].Table? {
      CreatePathExisting(tables, tables[into][path[0]].id, path[1..]);
    }
  }

  /** Calling twice with the same path leaves the heap as the first call left it and returns the same value. */
  lemma CreatePathIdempotent(tables: seq<Dict>, into: TableId, path: seq<string>)
    requires HeapValid(tables) && into < |tables|
    ensures var r := CreatePathSpec(tables, into, path);
            r.section.Some? ==> CreatePathSpec(r.tables, into, path) == r
  {
    var r := CreatePathSpec(tables, into, path);
    if r.section.Some? {
      CreatePathReaches(tables, into, path);
      CreatePathExisting(r.tables, into, path);
    }
  }

  /**
   * The walk raises exactly when it meets a non-dictionary value with a key
   * still to apply, before any missing key.
   */
  lemma {:induction false} CreatePathFails(tables: seq<Dict>, into: TableId, path: seq<string>)
    requires HeapValid(tables) && into < |tables|
    ensures CreatePathSpec(tables, into, path).section.None? <==> HitsLeaf(tables, into, path)
    decreases |path|
  {
    if path != [] {
      var (tables1, next) := Descend(tables, into, path[0]);
      if path[0] !in tables[into] {
        CreatePathFromEmptySection(tables1, next.id, path[1..]);
      } else if next.Table? {
        CreatePathFails(tables, next.id, path[1..]);
      }
    }
  }

  /**
   * A non-dictionary value under the last key is returned as it is and the
   * heap is unchanged; one more key after it makes the walk raise.
   */
  lemma {:induction false} CreatePathLastLeaf(tables: seq<Dict>, into: TableId, path: seq<string>, more: string)
    requires HeapValid(tables) && into < |tables|
    requires Follow(tables, into, path).Some? && Follow(tables, into, path).value.Leaf?
    ensures CreatePathSpec(tables, into, path) == Walked(tables, Follow(tables, into, path))
    ensures CreatePathSpec(tables, into, path + [more]).section.None?
    decreases |path|
  {
    CreatePathExisting(tables, into, path);
    assert (path + [more])[0] == path[0] && (path + [more])[1..] == path[1..] + [more];
    if tables[into][path[0]].Table? {
      CreatePathLastLeaf(tables, tables[into][path[0]].id, path[1..], more);
    }
  }

  // ---------------------------------------------------------------------------
  // The heap, updated in place
  // ---------------------------------------------------------------------------

  class DictHeap {
    var tables: seq<Dict>

    ghost predicate Valid()
      reads this
    {
      HeapValid(tables)
    }

    /** A heap holding one empty dictionary, `into` for a first call. */
    constructor ()
      ensures Valid() && tables == [map[]]
    {
      tables := [map[]];
    }

    /**
     * `dict_create_path`: walks `path` from `into`, adding `{}` under each
     * missing key, and returns the value under the last key (`into` for an
     * empty path); none when a key remains to be applied to a value that is
     * not a dictionary (where the source raises).
     */
    method CreatePath(path: seq<string>, into: TableId) returns (section: Option<Entry>)
      requires Valid() && into < |tables|
      modifies this
      ensures Valid() && Walked(tables, section) == CreatePathSpec(old(tables), into, path)
    {
      var cur: TableId := into;
      var i := 0;
      while i < |path|
        invariant 0 <= i <= |path| && Valid() && cur < |tables|
        invariant CreatePathSpec(old(tables), into, path) == CreatePathSpec(tables, cur, path[i..])
      {
        assert path[i..][0] == path[i] && path[i..][1..] == path[i + 1..];
        var next := Step(cur, path[i]);
        if next.Leaf? {
          if i + 1 == |path| {
            return Some(next);
          }
          return None;
        }
        cur, i := next.id, i + 1;
      }
      assert path[i..] == [];
      return Some(Table(cur));
    }

    /** One pass of the loop in `dict_create_path`: `this_section[index] = {}` when missing, then descend. */
    method Step(cur: TableId, key: string) returns (next: Entry)
      requires Valid() && cur < |tables|
      modifies this
      ensures Valid() && (tables, next) == Descend(old(tables), cur, key)
    {
      if key !in tables[cur] {
        var id := |tables|;
        tables := tables + [map[]];
        tables := tables[cur := tables[cur][key := Table(id)]];
        assert tables == old(tables)[cur := old(tables)[cur][key := Table(id)]] + [map[]];
      }
      next := tables[cur][key];
    }
  }

  // ---------------------------------------------------------------------------
  // is_iterable
  // ---------------------------------------------------------------------------

  /**
   * The kinds of Python value the helpers tell apart: strings, other
   * sequences (lists and tuples), mappings, and everything else.
   */
  datatype PyValue<A> = Str(s: string) | List(items: seq<PyValue<A>>) | Mapping(entries: map<string, PyValue<A>>) | Atom(a: A)

  /** `isinstance(o, collections.Sequence)`: strings are sequences too; mappings are not. */
  predicate IsSequence<A>(v: PyValue<A>) {
    v.Str? || v.List?
  }

  /** `is_iterable`: a sequence that is not a string. */
  predicate IsIterable<A>(v: PyValue<A>) {
    IsSequence(v) && !v.Str?
  }

  /** Exactly the lists are iterable: strings, mappings and other values are not. */
  lemma IsIterableLists<A>(v: PyValue<A>)
    ensures IsIterable(v) <==> v.List?
    ensures v.Str? ==> IsSequence(v) && !IsIterable(v)
  {
  }
}
