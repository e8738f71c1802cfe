/** Reel contents: the filler sequence `spin` mounts on a reel, and the trim
    that leaves only the last item once the reel animations have finished. */
module Reel {
  import opened Selection

  /** JavaScript `s.slice(0, end)`: a negative end counts back from the end of
      the array, an end past the array stops at its end. */
  function SliceTo<T>(s: seq<T>, end: int): (r: seq<T>)
    ensures r <= s
  {
    if end >= 0 then s[..if end <= |s| then end else |s|]
    else s[..if |s| + end >= 0 then |s| + end else 0]
  }

  /** The number of filler items a reel receives, in closed form: nothing when
      there are no names; otherwise `maxReelItems`, one fewer when the reel still
      shows a previous winner; and in the one case where that count is negative
      (no items allowed but a previous winner shown), `slice(0, -1)` keeps all
      but one of the shuffled names. */
  function ReelLength(count: nat, maxReelItems: nat, hadPreviousWinner: bool): nat
  {
    var end := maxReelItems - (if hadPreviousWinner then 1 else 0);
    if count == 0 then 0 else if end >= 0 then end else count - 1
  }

  /** `base` written out `copies` times in a row. */
  function Repeat(base: seq<string>, copies: nat): seq<string>
  {
    if copies == 0 then [] else Repeat(base, copies - 1) + base
  }

  lemma {:induction false} RepeatAdd(base: seq<string>, c: nat, d: nat)
    ensures Repeat(base, c + d) == Repeat(base, c) + Repeat(base, d)
  {
    if d > 0 {
      RepeatAdd(base, c, d - 1);
    }
  }

  /** A repetition only holds names of what it repeats. */
  lemma {:induction false} RepeatMembers(base: seq<string>, copies: nat, x: string)
    requires x in Repeat(base, copies)
    ensures x in base
  {
    if copies > 0 {
      if x !in base {
        RepeatMembers(base, copies - 1, x);
      }
    }
  }

  /** The per-reel filler of `spin`: shuffle the names again, double the sequence
      until it is at least `maxReelItems` long (an empty one stays empty), cut
      it to `maxReelItems` less the slot of a previous winner still shown, and
      overwrite its last item with the reel's winner. All items but the last
      follow the fresh shuffle `shuffled` round and round, the last one is the
      winner, and so every other item is one of the names. */
  method BuildReel(names: seq<string>, draws: seq<nat>, maxReelItems: nat, hadPreviousWinner: bool, winner: string)
    returns (filler: seq<string>, ghost shuffled: seq<string>, ghost copies: nat)
    requires ValidDraws(draws, |names|)
    ensures multiset(shuffled) == multiset(names)
    ensures |filler| == ReelLength(|names|, maxReelItems, hadPreviousWinner)
    ensures |filler| > 0 ==> filler[|filler| - 1] == winner
    ensures |filler| > 0 ==> filler[..|filler| - 1] <= Repeat(shuffled, copies)
    ensures forall j :: 0 <= j < |filler| - 1 ==> filler[j] in names
  {
    var randomNames, order := ShuffleNames(names, draws);
    shuffled := randomNames;
    copies := 1;
    assert Repeat(shuffled, 1) == shuffled;
    while |randomNames| > 0 && |randomNames| < maxReelItems
      invariant randomNames == Repeat(shuffled, copies)
      invariant |randomNames| >= |names| && (|names| == 0 ==> randomNames == [])
      invariant maxReelItems <= |names| ==> randomNames == shuffled
      decreases maxReelItems - |randomNames|
    {
      RepeatAdd(shuffled, copies, copies);
      randomNames := randomNames + randomNames;
      copies := copies + copies;
    }
    var full := randomNames;
    var end := maxReelItems - (if hadPreviousWinner then 1 else 0);
    randomNames := SliceTo(randomNames, end);
    assert randomNames <= full;
    assert |randomNames| == ReelLength(|names|, maxReelItems, hadPreviousWinner) by {
      if |names| == 0 {
        assert full == [];
      } else if end >= 0 {
        assert |full| >= end;
      } else {
        assert full == shuffled;
      }
    }
    // An assignment at index -1 (an empty array) sets a property, not an element.
    if |randomNames| > 0 {
      randomNames := randomNames[|randomNames| - 1 := winner];
    }
    filler := randomNames;
    if |filler| > 0 {
      PrefixMembers(filler[..|filler| - 1], shuffled, copies, names);
    }
  }

  /** Every item of a prefix of a repeated shuffle of `names` is one of the names. */
  lemma PrefixMembers(prefix: seq<string>, shuffled: seq<string>, copies: nat, names: seq<string>)
    requires prefix <= Repeat(shuffled, copies)
    requires multiset(shuffled) == multiset(names)
    ensures forall j :: 0 <= j < |prefix| ==> prefix[j] in names
  {
    forall j | 0 <= j < |prefix| ensures prefix[j] in names {
      RepeatMembers(shuffled, copies, prefix[j]);
      assert prefix[j] in multiset(shuffled);
    }
  }

  /** The clean-up after the reel animations: every mounted item but the last
      is removed, so a non-empty reel keeps exactly its last item. */
  function KeepLast(items: seq<string>): (r: seq<string>)
    ensures |r| == if |items| == 0 then 0 else 1
    ensures r == items[|items| - |r|..]
  {
    if |items| == 0 then [] else [items[|items| - 1]]
  }

  /** `after` is what a reel holds once the filler for a spin has been appended
      to its previous items `before`. */
  ghost predicate Mounted(before: seq<string>, after: seq<string>, names: seq<string>,
                          maxReelItems: nat, hadPreviousWinner: bool, winner: string)
  {
    && |after| == |before| + ReelLength(|names|, maxReelItems, hadPreviousWinner)
    && after[..|before|] == before
    && (|after| > |before| ==> after[|after| - 1] == winner)
    && (forall j :: |before| <= j < |after| - 1 ==> after[j] in names)
  }

  /** Trimming a freshly mounted reel leaves its winner whenever the filler was
      not empty. An empty filler leaves the reel as it was. A reel that held only
      its previous winner (or nothing, when there was none) holds `maxReelItems`
      items once mounted and one item once trimmed. */
  lemma TrimMounted(before: seq<string>, after: seq<string>, names: seq<string>,
                    maxReelItems: nat, hadPreviousWinner: bool, winner: string)
    requires Mounted(before, after, names, maxReelItems, hadPreviousWinner, winner)
    ensures ReelLength(|names|, maxReelItems, hadPreviousWinner) > 0 ==> KeepLast(after) == [winner]
    ensures ReelLength(|names|, maxReelItems, hadPreviousWinner) == 0 ==> after == before
    ensures |before| == (if hadPreviousWinner then 1 else 0) && |names| > 0 && maxReelItems >= 1 ==>
              |after| == maxReelItems && |KeepLast(after)| == 1
  {
  }
}
