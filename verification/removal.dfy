/** Winner removal, the `winners.forEach` at the end of `spin`: for each winner in turn, the first
    name equal to it is spliced out of the list, if there is one. */
module Removal {

  /** `xs.findIndex(name => name === w)`: the first position holding w, or -1. */
  function FindIndex<T(==)>(xs: seq<T>, w: T): (r: int)
    ensures -1 <= r < |xs|
    ensures r == -1 <==> w !in xs
    ensures r >= 0 ==> xs[r] == w && w !in xs[..r]
  {
    if |xs| == 0 then -1
    else if xs[0] == w then 0
    else
      var k := FindIndex(xs[1..], w);
      assert xs[1..][..if k >= 0 then k else 0] == xs[1..if k >= 0 then k + 1 else 1];
      if k == -1 then -1 else k + 1
  }

  /** One winner's removal: `splice(index, 1)` at the first match, or nothing. */
  function RemoveFirst<T(==)>(xs: seq<T>, w: T): (r: seq<T>)
    ensures w !in xs ==> r == xs
    ensures w in xs ==> |r| == |xs| - 1 && multiset(r) == multiset(xs) - multiset{w}
    ensures w in xs ==> exists i :: 0 <= i < |xs| && xs[i] == w && w !in xs[..i] && r == xs[..i] + xs[i + 1..]
  {
    var index := FindIndex(xs, w);
    if index == -1 then xs
    else
      assert xs == xs[..index] + [xs[index]] + xs[index + 1..];
      xs[..index] + xs[index + 1..]
  }

  /** `findIndex` followed by `splice(index, 1)` when something was found is
      exactly the removal of the first occurrence. */
  lemma SpliceFound<T>(xs: seq<T>, w: T)
    ensures var index := FindIndex(xs, w);
            RemoveFirst(xs, w) == if index == -1 then xs else xs[..index] + xs[index + 1..]
  {
  }

  /** The list after the winners `ws` have been removed one after another, in
      order. Whatever the winners, the list only loses names, at most one per
      winner. */
  function RemoveEach<T(==)>(xs: seq<T>, ws: seq<T>): (r: seq<T>)
    ensures multiset(r) <= multiset(xs)
    ensures |xs| - |ws| <= |r| <= |xs|
  {
    if ws == [] then xs else RemoveFirst(RemoveEach(xs, ws[..|ws| - 1]), ws[|ws| - 1])
  }

  /** Removing one more winner removes it from what the earlier ones left. */
  lemma RemoveEachStep<T>(xs: seq<T>, ws: seq<T>, j: nat)
    requires j < |ws|
    ensures RemoveEach(xs, ws[..j + 1]) == RemoveFirst(RemoveEach(xs, ws[..j]), ws[j])
  {
    assert ws[..j + 1][..j] == ws[..j];
  }

  /** When every winner was drawn from the list (with multiplicity), removing them
      takes away exactly the winners: the list shrinks by |ws| and loses multiset(ws). */
  lemma {:induction false} RemoveEachSubtracts<T>(xs: seq<T>, ws: seq<T>)
    requires multiset(ws) <= multiset(xs)
    ensures |RemoveEach(xs, ws)| == |xs| - |ws|
    ensures multiset(RemoveEach(xs, ws)) == multiset(xs) - multiset(ws)
  {
    if ws != [] {
      var init, last := ws[..|ws| - 1], ws[|ws| - 1];
      assert ws == init + [last];
      RemoveEachSubtracts(xs, init);
      var rest := RemoveEach(xs, init);
      assert last in multiset(xs) - multiset(init);
      assert last in rest;
    }
  }
}
