/** End-to-end runs of the picker, checked against the contracts of `Slot`
    alone: a full draw that empties the list, and repeated draws that keep it. */
module Scenarios {
  import opened Selection
  import opened SlotMachine

  /** Three reels, three names, winners removed: one spin succeeds and empties
      the list, so the next one is refused. */
  method DrawEveryName() {
    var slot := new Slot([Some([]), Some([]), Some([])], numberOfSlots := 3);
    slot.SetNames(["A", "B", "C"]);
    var first := SpinTakesAll(slot);
    var second := SpinRefused(slot);
  }

  /** A spin over three reels and three names, winners removed. */
  method SpinTakesAll(slot: Slot) returns (ok: bool)
    requires slot.Valid() && slot.numberOfSlots == 3 && slot.Names() == ["A", "B", "C"]
    requires slot.ShouldRemoveWinner()
    modifies slot, slot.reelItems, slot.havePreviousWinner
    ensures ok
    ensures slot.Valid() && slot.numberOfSlots == 3 && slot.Names() == []
  {
    assert ValidDraws([2, 0, 0], 3) && ValidDraws([0, 0, 0], 3);
    assert ValidDraws([1, 1, 0], 3) && ValidDraws([2, 1, 0], 3);
    ghost var winners;
    ok, winners := slot.Spin([2, 0, 0], [[0, 0, 0], [1, 1, 0], [2, 1, 0]]);
  }

  /** A spin over three reels with no names left. */
  method SpinRefused(slot: Slot) returns (ok: bool)
    requires slot.Valid() && slot.numberOfSlots == 3 && slot.Names() == []
    modifies slot, slot.reelItems, slot.havePreviousWinner
    ensures !ok
    ensures slot.Valid() && slot.Names() == []
    ensures unchanged(slot.reelItems, slot.havePreviousWinner)
  {
    ghost var winners;
    ok, winners := slot.Spin([], [[], [], []]);
  }

  /** Two reels, winners kept: both spins succeed, the list keeps its three
      names, and the two winners of each spin are different names. */
  method DrawWithoutRemoval() {
    var slot := new Slot([Some([]), Some([])], removeWinner := false, numberOfSlots := 2);
    slot.SetNames(["Alice", "Bob", "Carol"]);
    ghost var winners;
    var first, second;
    first, winners := SpinKeepsNames(slot, [1, 1, 0], [[0, 0, 0], [2, 0, 0]]);
    second, winners := SpinKeepsNames(slot, [0, 1, 0], [[1, 0, 0], [0, 1, 0]]);
  }

  /** A spin over two reels and three different names, winners kept. */
  method SpinKeepsNames(slot: Slot, winnerDraws: seq<nat>, reelDraws: seq<seq<nat>>)
    returns (ok: bool, ghost winners: seq<string>)
    requires slot.Valid() && slot.numberOfSlots == 2 && slot.Names() == ["Alice", "Bob", "Carol"]
    requires !slot.ShouldRemoveWinner()
    requires ValidDraws(winnerDraws, 3) && |reelDraws| == 2
    requires ValidDraws(reelDraws[0], 3) && ValidDraws(reelDraws[1], 3)
    modifies slot, slot.reelItems, slot.havePreviousWinner
    ensures ok && |winners| == 2 && winners[0] != winners[1]
    ensures slot.Valid() && slot.numberOfSlots == 2 && slot.Names() == ["Alice", "Bob", "Carol"]
    ensures !slot.ShouldRemoveWinner()
  {
    ok, winners := slot.Spin(winnerDraws, reelDraws);
    DistinctWinners(winners, ["Alice", "Bob", "Carol"]);
  }

  /** A list of different names holds each name at most once. */
  lemma {:induction false} AtMostOnce(names: seq<string>, x: string)
    requires forall a, b :: 0 <= a < b < |names| ==> names[a] != names[b]
    ensures multiset(names)[x] <= 1
  {
    if names != [] {
      var rest := names[1..];
      assert names == [names[0]] + rest;
      AtMostOnce(rest, x);
      if names[0] == x {
        assert x !in rest;
      }
    }
  }

  /** A name occurring at two positions of a list occurs at least twice in it. */
  lemma TwiceCounted(ws: seq<string>, a: nat, b: nat)
    requires a < b < |ws| && ws[a] == ws[b]
    ensures multiset(ws)[ws[a]] >= 2
  {
    var x := ws[a];
    assert ws == ws[..a] + [x] + ws[a + 1..b] + [x] + ws[b + 1..];
  }

  /** Winners drawn from a list of different names (each at most as often as
      it occurs) are different names, however many reels there are. */
  lemma DistinctWinners(winners: seq<string>, names: seq<string>)
    requires multiset(winners) <= multiset(names)
    requires forall a, b :: 0 <= a < b < |names| ==> names[a] != names[b]
    ensures forall a, b :: 0 <= a < b < |winners| ==> winners[a] != winners[b]
  {
    forall a, b | 0 <= a < b < |winners| ensures winners[a] != winners[b] {
      AtMostOnce(names, winners[a]);
      if winners[a] == winners[b] {
        TwiceCounted(winners, a, b);
      }
    }
  }

  /** The `names` setter running while a spin awaits its animations: it empties
      the one reel and clears its flag, and the finish step then flags that
      reel again although it shows nothing. */
  method NamesSetMidSpin() returns (flagged: bool, items: Option<seq<string>>, ghost settled: bool)
    ensures flagged && items == Some([])
    ensures !settled
  {
    var slot := new Slot([Some([])], numberOfSlots := 1);
    slot.SetNames(["A"]);
    var started, winners := slot.StartSpin([0], [[0]]);
    flagged, items, settled := SetNamesThenFinish(slot);
  }

  /** The second half of `NamesSetMidSpin`: the setter, then the finish step,
      on a one-reel slot whose reel has a container and an animation. */
  method SetNamesThenFinish(slot: Slot) returns (flagged: bool, items: Option<seq<string>>, ghost settled: bool)
    requires slot.Valid() && slot.numberOfSlots == 1 && slot.reelItems[0].Some? && slot.reelAnimations[0]
    modifies slot, slot.reelItems, slot.havePreviousWinner
    ensures flagged && items == Some([]) && !settled
  {
    slot.SetNames(["B"]);
    var done := slot.FinishSpin();
    flagged, items := slot.havePreviousWinner[0], slot.reelItems[0];
    settled := slot.Settled();
  }
}
