/** Kotlin's `mutableSetOf()` is a `LinkedHashSet`: it ignores an element that
    is already present and iterates in first-insertion order. Such a set is
    modelled as a sequence without duplicates, in iteration order. */
module OrderedSet {

  /** No element occurs twice. */
  predicate Distinct<T(==)>(s: seq<T>) {
    forall i, j :: 0 <= i < j < |s| ==> s[i] != s[j]
  }

  /** a and b hold the same elements, in any order and multiplicity. */
  ghost predicate SameElements<T(!new)>(a: seq<T>, b: seq<T>) {
    forall x :: x in a <==> x in b
  }

  /** `set.add(x)`: appends x unless it is already an element. */
  function Add<T(==,!new)>(s: seq<T>, x: T): (r: seq<T>)
    ensures x in r
    ensures forall y :: y in r <==> y in s || y == x
    ensures x in s ==> r == s
    ensures x !in s ==> |r| == |s| + 1 && r[|s|] == x
    ensures |s| <= |r| && r[..|s|] == s
    ensures Distinct(s) ==> Distinct(r)
  {
    if x in s then s else s + [x]
  }

  /** The elements of xs that are not in seen, each kept at its first
      occurrence in xs, in the order of xs. */
  function Fresh<T(==,!new)>(seen: seq<T>, xs: seq<T>): (r: seq<T>)
    decreases |xs|
    ensures forall y :: y in r <==> y in xs && y !in seen
  {
    if xs == [] then []
    else if xs[0] in seen then Fresh(seen, xs[1..])
    else [xs[0]] + Fresh(seen + [xs[0]], xs[1..])
  }

  /** Offering one more element at the end of xs adds it to Fresh exactly when
      it is neither seen nor already offered. */
  lemma {:induction false} FreshSnoc<T(!new)>(seen: seq<T>, xs: seq<T>, x: T)
    decreases |xs|
    ensures Fresh(seen, xs + [x]) == Fresh(seen, xs) + (if x in seen || x in xs then [] else [x])
  {
    if xs == [] {
      assert [x][1..] == [];
    } else {
      var y, rest := xs[0], xs[1..];
      assert (xs + [x])[0] == y && (xs + [x])[1..] == rest + [x];
      assert x in xs <==> x == y || x in rest;
      if y in seen {
        FreshSnoc(seen, rest, x);
      } else {
        FreshSnoc(seen + [y], rest, x);
        assert x in seen + [y] <==> x in seen || x == y;
      }
    }
  }

  /** `set.addAll(xs)`: adds the elements of xs one after the other. */
  function AddAll<T(==,!new)>(s: seq<T>, xs: seq<T>): (r: seq<T>)
    decreases |xs|
    ensures forall y :: y in r <==> y in s || y in xs
    ensures |s| <= |r| && r[..|s|] == s
    ensures Distinct(s) ==> Distinct(r)
  {
    if xs == [] then s
    else
      assert xs == xs[..|xs| - 1] + [xs[|xs| - 1]];
      Add(AddAll(s, xs[..|xs| - 1]), xs[|xs| - 1])
  }

  /** The order `addAll` leaves: the old elements stay in front, and the new
      ones follow in the order of their first occurrence in xs. */
  lemma {:induction false} AddAllInOrder<T(!new)>(s: seq<T>, xs: seq<T>)
    decreases |xs|
    ensures AddAll(s, xs) == s + Fresh(s, xs)
  {
    if xs != [] {
      var init, last := xs[..|xs| - 1], xs[|xs| - 1];
      assert xs == init + [last];
      AddAllInOrder(s, init);
      FreshSnoc(s, init, last);
    }
  }

  /** `set.clear(); set.addAll(xs)` always ends in the same sequence, whatever
      the set held before, and that sequence holds exactly the elements of xs. */
  lemma ClearThenAddAll<T(!new)>(xs: seq<T>)
    ensures var r := AddAll([], xs);
      Distinct(r) && SameElements(r, xs) && |r| <= |xs|
  {
    AddAllLength([], xs);
  }

  /** Adding never grows the set by more than the number of elements offered. */
  lemma {:induction false} AddAllLength<T(!new)>(s: seq<T>, xs: seq<T>)
    decreases |xs|
    ensures |AddAll(s, xs)| <= |s| + |xs|
  {
    if xs != [] {
      AddAllLength(s, xs[..|xs| - 1]);
    }
  }
}
