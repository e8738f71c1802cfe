/** Winner selection: the index-pool Fisher-Yates shuffle of `Slot.shuffleNames`
    and the slice of its first `numberOfSlots` entries that `spin` takes as winners.
    `Math.random()` is replaced by a caller-supplied sequence of draws: draw k is
    the index `Math.random() * n | 0` picked when n entries of the pool are left. */
module Selection {

  /** `draws` can stand for the random indices of one shuffle of `count` names:
      one draw per step, each below the size of the pool at that step. */
  predicate ValidDraws(draws: seq<nat>, count: nat) {
    |draws| == count && forall k :: 0 <= k < count ==> draws[k] < count - k
  }

  /** `order` lists n distinct positions below n. */
  ghost predicate IsOrdering(order: seq<nat>, n: nat) {
    && |order| == n
    && (forall j :: 0 <= j < n ==> order[j] < n)
    && (forall a, b :: 0 <= a < b < n ==> order[a] != order[b])
  }

  ghost predicate AllBelow(ks: seq<nat>, n: nat) {
    forall j :: 0 <= j < |ks| ==> ks[j] < n
  }

  /** The entries of `xs` at the positions `ks`, in that order. */
  ghost function Select<T>(xs: seq<T>, ks: seq<nat>): (r: seq<T>)
    requires AllBelow(ks, |xs|)
  {
    seq(|ks|, j requires 0 <= j < |ks| => xs[ks[j]])
  }

  /** Moving the last entry into slot i and dropping the last slot removes
      exactly the entry that was at i. */
  lemma SwapRemove<T>(a: seq<T>, i: nat)
    requires i < |a|
    ensures multiset(a[i := a[|a| - 1]][..|a| - 1]) + multiset{a[i]} == multiset(a)
  {
    var last := |a| - 1;
    if i == last {
      assert a[i := a[last]] == a;
      assert a[..last] + [a[last]] == a;
    } else {
      assert a[i := a[last]][..last] == a[..i] + [a[last]] + a[i + 1..last];
      assert a == a[..i] + [a[i]] + a[i + 1..last] + [a[last]];
    }
  }

  ghost predicate Distinct(ks: seq<nat>) {
    forall a, b :: 0 <= a < b < |ks| ==> ks[a] != ks[b]
  }

  /** The key pool after the key at i is exchanged with the one at n. */
  ghost function Swapped(ks: seq<nat>, i: nat, n: nat): seq<nat>
    requires i <= n < |ks|
  {
    ks[n := ks[i]][i := ks[n]]
  }

  /** What holds of the key pool `ks`, the live-pool size `n` and the `result`
      built so far, between two steps of the shuffle: the keys are a permutation
      of 0..|items|-1, the tail `ks[n..]` holds the keys already picked (latest
      first), and the names behind the live pool are those not yet output. */
  ghost predicate ShuffleState<T>(items: seq<T>, ks: seq<nat>, result: seq<T>, n: nat) {
    && |ks| == |items| && n <= |items| && |result| == |items| - n
    && Distinct(ks) && AllBelow(ks, |items|)
    && (forall j :: 0 <= j < |result| ==> result[j] == items[ks[|items| - 1 - j]])
    && multiset(result) + multiset(Select(items, ks[..n])) == multiset(items)
  }

  /** Exchanging two keys keeps the pool a permutation of distinct keys. */
  lemma SwapKeepsKeys(ks: seq<nat>, i: nat, m: nat, bound: nat)
    requires i <= m < |ks|
    requires Distinct(ks) && AllBelow(ks, bound)
    ensures Distinct(Swapped(ks, i, m)) && AllBelow(Swapped(ks, i, m), bound)
    ensures multiset(Swapped(ks, i, m)) == multiset(ks)
  {
  }

  /** The names behind the live pool lose exactly the picked one. */
  lemma SwapShrinksPool<T>(items: seq<T>, ks: seq<nat>, i: nat, m: nat)
    requires i <= m < |ks|
    requires AllBelow(ks, |items|)
    ensures AllBelow(Swapped(ks, i, m), |items|)
    ensures multiset(Select(items, Swapped(ks, i, m)[..m])) + multiset{items[ks[i]]}
         == multiset(Select(items, ks[..m + 1]))
  {
    var after := Swapped(ks, i, m);
    var pool := Select(items, ks[..m + 1]);
    assert Select(items, after[..m]) == pool[i := pool[m]][..m];
    SwapRemove(pool, i);
  }

  /** The picked name, appended to the result, is the one behind the key that
      the exchange moves to the end of the live pool. */
  lemma ResultStep<T>(items: seq<T>, ks: seq<nat>, result: seq<T>, n: nat, i: nat)
    requires |ks| == |items| && 0 < n <= |items| && |result| == |items| - n && i < n
    requires AllBelow(ks, |items|)
    requires forall j :: 0 <= j < |result| ==> result[j] == items[ks[|items| - 1 - j]]
    ensures AllBelow(Swapped(ks, i, n - 1), |items|)
    ensures forall j :: 0 <= j < |result| + 1 ==>
              (result + [items[ks[i]]])[j] == items[Swapped(ks, i, n - 1)[|items| - 1 - j]]
  {
  }

  /** One step of the shuffle on the key pool: the picked key at i moves to the
      end of the live pool (slot n - 1), the key that was there moves to i, and
      the picked name is appended to the result. */
  lemma PickStep<T>(items: seq<T>, ks: seq<nat>, result: seq<T>, n: nat, i: nat)
    requires ShuffleState(items, ks, result, n)
    requires i < n
    ensures ShuffleState(items, Swapped(ks, i, n - 1), result + [items[ks[i]]], n - 1)
  {
    var result' := result + [items[ks[i]]];
    SwapKeepsKeys(ks, i, n - 1, |items|);
    SwapShrinksPool(items, ks, i, n - 1);
    ResultStep(items, ks, result, n, i);
    assert multiset(result') == multiset(result) + multiset{items[ks[i]]};
  }

  /** The keys `ks` read back to front. */
  ghost function Reversed(ks: seq<nat>): seq<nat>
  {
    seq(|ks|, j requires 0 <= j < |ks| => ks[|ks| - 1 - j])
  }

  /** Read back to front, the picked keys are the positions the result came from. */
  lemma ReversedOrdering<T>(items: seq<T>, result: seq<T>, picked: seq<nat>)
    requires |picked| == |result| == |items|
    requires Distinct(picked) && AllBelow(picked, |items|)
    requires forall j :: 0 <= j < |result| ==> result[j] == items[picked[|items| - 1 - j]]
    ensures IsOrdering(Reversed(picked), |items|)
    ensures forall j :: 0 <= j < |result| ==> result[j] == items[Reversed(picked)[j]]
  {
  }

  /** `Slot.shuffleNames`: returns the entries of `items` in the order the draws
      pick them. The result is a rearrangement of the input (same multiset), and
      `order` names the distinct input position each result entry came from. */
  method ShuffleNames<T>(items: seq<T>, draws: seq<nat>) returns (result: seq<T>, ghost order: seq<nat>)
    requires ValidDraws(draws, |items|)
    ensures |result| == |items|
    ensures multiset(result) == multiset(items)
    ensures IsOrdering(order, |items|)
    ensures forall j :: 0 <= j < |result| ==> result[j] == items[order[j]]
  {
    var len := |items|;
    // `Object.keys(array)`, read as numbers: 0, 1, ..., len - 1.
    var keys := new nat[len](j => j);
    ghost var ks := keys[..];
    assert Select(items, ks[..len]) == items;
    result := [];
    var k, n := 0, len;
    while k < |items| && n > 0
      invariant 0 <= k <= len && n == len - k
      invariant keys[..] == ks
      invariant ShuffleState(items, ks, result, n)
    {
      var i := draws[k];
      var key := keys[i];
      PickStep(items, ks, result, n, i);
      result := result + [items[key]];
      n := n - 1;
      var tmp := keys[n];
      keys[n] := key;
      keys[i] := tmp;
      ks := Swapped(ks, i, n);
      k := k + 1;
    }
    order := Reversed(ks);
    ReversedOrdering(items, result, ks);
  }

  /** The winner draw of `spin`: shuffle the whole list and take its first `count`
      entries. The winners come from `count` distinct positions of `names`. */
  method DrawWinners(names: seq<string>, count: nat, draws: seq<nat>)
    returns (winners: seq<string>, ghost positions: seq<nat>)
    requires count <= |names|
    requires ValidDraws(draws, |names|)
    ensures |winners| == count
    ensures multiset(winners) <= multiset(names)
    ensures |positions| == count
    ensures forall j :: 0 <= j < count ==> positions[j] < |names| && winners[j] == names[positions[j]]
    ensures forall a, b :: 0 <= a < b < count ==> positions[a] != positions[b]
  {
    var shuffled, order := ShuffleNames(names, draws);
    winners := shuffled[..count];
    positions := order[..count];
    assert shuffled == winners + shuffled[count..];
  }
}
