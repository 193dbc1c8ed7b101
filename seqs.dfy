/** Optional values, for lookups and searches that may find nothing. */
module Wrappers {
  datatype Option<+T> = None | Some(value: T)
}

/**
 * Sequences used as lists without repeats. The source builds several such
 * lists with the same loop shape, "for x in xs: if x not in acc: acc.append(x)":
 * the prerequisite closure of a unit and the unlocked-tech list of a build order.
 * That loop is `AppendNew` here, defined once.
 */
module Seqs {

  /** No element occurs twice. */
  ghost predicate NoDup<T>(s: seq<T>) {
    forall i, j :: 0 <= i < j < |s| ==> s[i] != s[j]
  }

  /**
   * Appends to `acc`, in order, each element of `xs` that is not yet present
   * (present in `acc` or appended earlier in the same pass).
   */
  function AppendNew<T(==,!new)>(acc: seq<T>, xs: seq<T>): (r: seq<T>)
    ensures forall x {:trigger x in r} :: x in r <==> x in acc || x in xs
    ensures NoDup(acc) ==> NoDup(r)
    decreases |xs|
  {
    if xs == [] then acc
    else AppendNew(if xs[0] in acc then acc else acc + [xs[0]], xs[1..])
  }

  /** When `xs` has no repeats and shares nothing with `acc`, every element is appended. */
  lemma {:induction false} AppendNewFresh<T(!new)>(acc: seq<T>, xs: seq<T>)
    requires NoDup(xs) && forall x :: x in xs ==> x !in acc
    ensures AppendNew(acc, xs) == acc + xs
    decreases |xs|
  {
    if xs != [] {
      assert xs[0] !in acc;
      forall x | x in xs[1..] ensures x !in acc + [xs[0]] {
        var k :| 0 <= k < |xs[1..]| && xs[1..][k] == x;
        assert xs[k + 1] == x;
      }
      AppendNewFresh(acc + [xs[0]], xs[1..]);
      assert acc + [xs[0]] + xs[1..] == acc + xs;
    }
  }

  /** `AppendNew` only appends: what was listed before keeps its place. */
  lemma {:induction false} AppendNewExtends<T(!new)>(acc: seq<T>, xs: seq<T>)
    ensures |acc| <= |AppendNew(acc, xs)| && AppendNew(acc, xs)[..|acc|] == acc
    decreases |xs|
  {
    if xs != [] {
      var next := if xs[0] in acc then acc else acc + [xs[0]];
      AppendNewExtends(next, xs[1..]);
      assert next[..|acc|] == acc;
    }
  }

  /** Elements already present are skipped: the list is left as it was. */
  lemma {:induction false} AppendNewPresent<T(!new)>(acc: seq<T>, xs: seq<T>)
    requires forall x :: x in xs ==> x in acc
    ensures AppendNew(acc, xs) == acc
    decreases |xs|
  {
    if xs != [] {
      assert xs[0] in xs;
      forall x | x in xs[1..] ensures x in acc {
        var k :| 0 <= k < |xs[1..]| && xs[1..][k] == x;
        assert xs[k + 1] == x;
      }
      AppendNewPresent(acc, xs[1..]);
    }
  }

  /** One pass over `xs + ys` is a pass over `xs` followed by a pass over `ys`. */
  lemma {:induction false} AppendNewConcat<T(!new)>(acc: seq<T>, xs: seq<T>, ys: seq<T>)
    ensures AppendNew(acc, xs + ys) == AppendNew(AppendNew(acc, xs), ys)
    decreases |xs|
  {
    if xs != [] {
      var next := if xs[0] in acc then acc else acc + [xs[0]];
      assert (xs + ys)[0] == xs[0] && (xs + ys)[1..] == xs[1..] + ys;
      AppendNewConcat(next, xs[1..], ys);
    } else {
      assert xs + ys == ys;
    }
  }

  /**
   * A pass over elements already present, then new distinct ones, then
   * present ones again appends exactly the new ones.
   */
  lemma AppendNewMiddle<T(!new)>(acc: seq<T>, xs: seq<T>, ys: seq<T>, zs: seq<T>)
    requires forall x :: x in xs ==> x in acc
    requires NoDup(ys) && forall y :: y in ys ==> y !in acc
    requires forall z :: z in zs ==> z in acc + ys
    ensures AppendNew(acc, xs + ys + zs) == acc + ys
  {
    AppendNewConcat(acc, xs + ys, zs);
    AppendNewConcat(acc, xs, ys);
    AppendNewPresent(acc, xs);
    AppendNewFresh(acc, ys);
    AppendNewPresent(acc + ys, zs);
  }

  /** The first `i + 1` elements are the first `i` and then element `i`. */
  lemma TakeSnoc<T>(s: seq<T>, i: nat)
    requires i < |s|
    ensures s[..i + 1] == s[..i] + [s[i]]
  {
  }

  /** Appending a non-empty list is appending its head, then its tail. */
  lemma AppendFirstRest<T>(a: seq<T>, b: seq<T>)
    requires b != []
    ensures a + [b[0]] + b[1..] == a + b
  {
    assert b == [b[0]] + b[1..];
  }

  /** Two lists that end alike and have equal fronts are equal; and conversely. */
  lemma SnocInjective<T>(a: seq<T>, x: T, b: seq<T>, y: T)
    ensures a + [x] == b + [y] <==> a == b && x == y
  {
    if a + [x] == b + [y] {
      assert (a + [x])[..|a|] == a && (b + [y])[..|b|] == b;
      assert |a| == |b|;
      assert (a + [x])[|a|] == x;
    }
  }
}
