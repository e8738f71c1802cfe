/** The `Slot` class: its name list, the per-reel "previous winner still shown"
    flags and the items mounted on each reel, and the operations that change
    them. The `async spin` is split at its one `await` into `StartSpin` (the
    synchronous part, which already removes the winners from the list) and
    `FinishSpin` (what runs once every reel animation has finished). */
module SlotMachine {
  import opened Selection
  import opened Reel
  import opened Removal

  datatype Option<T> = None | Some(value: T)

  /** The optional callbacks of the configuration, as entries of a ghost log. */
  datatype Hook = SpinStart | SpinEnd | NameListChanged

  /** What the names setter leaves in a reel container: a present container is
      emptied, a missing one stays missing. */
  function Cleared(container: Option<seq<string>>): Option<seq<string>>
  {
    match container
    case None => None
    case Some(_) => Some([])
  }

  class Slot {
    /** The names to draw from. */
    var nameList: seq<string>
    /** Per reel: whether the winner of its last spin is still mounted. */
    const havePreviousWinner: array<bool>
    /** Per reel: the items mounted in its container, None when the page has no container for it. */
    const reelItems: array<Option<seq<string>>>
    /** Per reel: whether an animation object exists for it. */
    const reelAnimations: seq<bool>
    const numberOfSlots: nat
    const maxReelItems: nat
    var shouldRemoveWinner: bool
    /** Which of the three callbacks are configured. */
    const onSpinStart: bool
    const onSpinEnd: bool
    const onNameListChanged: bool
    /** The callbacks invoked so far, in order. */
    ghost var hooksCalled: seq<Hook>

    ghost predicate Valid()
      reads this
    {
      && havePreviousWinner.Length == numberOfSlots
      && reelItems.Length == numberOfSlots
      && |reelAnimations| == numberOfSlots
    }

    /** Reel i has both a container and an animation, so `spin` works on it. */
    ghost predicate Spinnable(i: nat)
      requires Valid() && i < numberOfSlots
      reads this, reelItems
    {
      reelItems[i].Some? && reelAnimations[i]
    }

    /** Every present reel holds exactly its previous winner when its flag is
        set, and nothing otherwise. */
    ghost predicate Settled()
      requires Valid()
      reads this, reelItems, havePreviousWinner
    {
      forall i :: 0 <= i < numberOfSlots && reelItems[i].Some? ==>
        |reelItems[i].value| == if havePreviousWinner[i] then 1 else 0
    }

    /** The `names` getter. */
    function Names(): seq<string>
      reads this
    {
      nameList
    }

    /** The `shouldRemoveWinnerFromNameList` getter. */
    function ShouldRemoveWinner(): bool
      reads this
    {
      shouldRemoveWinner
    }

    /** The constructor. `containers` stands for what `document.querySelector`
        finds for reels 1..numberOfSlots (None when nothing matches) with the
        items already in them; an animation exists exactly for a found container. */
    constructor (containers: seq<Option<seq<string>>>, maxReelItems: nat := 30, removeWinner: bool := true,
                 numberOfSlots: nat := 5, onSpinStart: bool := false, onSpinEnd: bool := false,
                 onNameListChanged: bool := false)
      requires |containers| == numberOfSlots
      ensures Valid() && fresh(havePreviousWinner) && fresh(reelItems)
      ensures nameList == [] && reelItems[..] == containers
      ensures forall i :: 0 <= i < numberOfSlots ==> !havePreviousWinner[i]
      ensures forall i :: 0 <= i < numberOfSlots ==> reelAnimations[i] == containers[i].Some?
      ensures this.numberOfSlots == numberOfSlots && this.maxReelItems == maxReelItems
      ensures shouldRemoveWinner == removeWinner
      ensures this.onSpinStart == onSpinStart && this.onSpinEnd == onSpinEnd
      ensures this.onNameListChanged == onNameListChanged
      ensures hooksCalled == []
    {
      nameList := [];
      this.numberOfSlots := numberOfSlots;
      havePreviousWinner := new bool[numberOfSlots](_ => false);
      reelItems := new Option<seq<string>>[numberOfSlots](i requires 0 <= i < numberOfSlots => containers[i]);
      this.maxReelItems := maxReelItems;
      shouldRemoveWinner := removeWinner;
      this.onSpinStart := onSpinStart;
      this.onSpinEnd := onSpinEnd;
      this.onNameListChanged := onNameListChanged;
      reelAnimations := seq(numberOfSlots, i requires 0 <= i < numberOfSlots => containers[i].Some?);
      hooksCalled := [];
      new;
      assert reelItems[..] == containers;
    }

    /** The `names` setter: installs the list, empties every present container
        and forgets every previous winner. The resulting reels and flags depend
        only on which containers exist. */
    method SetNames(names: seq<string>)
      requires Valid()
      modifies this, reelItems, havePreviousWinner
      ensures Valid() && Names() == names
      ensures forall i :: 0 <= i < numberOfSlots ==> reelItems[i] == Cleared(old(reelItems[i]))
      ensures forall i :: 0 <= i < numberOfSlots ==> !havePreviousWinner[i]
      ensures Settled()
      ensures shouldRemoveWinner == old(shouldRemoveWinner)
      ensures hooksCalled == old(hooksCalled) + if onNameListChanged then [NameListChanged] else []
    {
      nameList := names;
      for index := 0 to numberOfSlots
        modifies reelItems, havePreviousWinner
        invariant forall i :: 0 <= i < index ==> reelItems[i] == Cleared(old(reelItems[i])) && !havePreviousWinner[i]
        invariant forall i :: index <= i < numberOfSlots ==> reelItems[i] == old(reelItems[i])
      {
        if reelItems[index].Some? {
          reelItems[index] := Some([]);
        }
        havePreviousWinner[index] := false;
      }
      if onNameListChanged {
        hooksCalled := hooksCalled + [NameListChanged];
      }
    }

    /** The `shouldRemoveWinnerFromNameList` setter: the getter reads back what
        was set, and nothing else changes. */
    method SetShouldRemoveWinner(removeWinner: bool)
      modifies this`shouldRemoveWinner
      ensures ShouldRemoveWinner() == removeWinner
    {
      shouldRemoveWinner := removeWinner;
    }

    /** `spin` up to its `await`. With fewer names than reels nothing happens.
        Otherwise the winners are drawn, every reel with a container and an
        animation gets its filler appended, and, if winner removal is on (read
        once, before any reel is touched), each winner's first occurrence is
        removed from the list before the animations are awaited. */
    method StartSpin(winnerDraws: seq<nat>, reelDraws: seq<seq<nat>>) returns (started: bool, winners: seq<string>)
      requires Valid()
      requires ValidDraws(winnerDraws, |nameList|)
      requires |reelDraws| == numberOfSlots
      requires forall i :: 0 <= i < numberOfSlots ==> ValidDraws(reelDraws[i], |nameList|)
      modifies this, reelItems
      ensures Valid() && started == (|old(nameList)| >= numberOfSlots)
      ensures shouldRemoveWinner == old(shouldRemoveWinner)
      ensures !started ==> nameList == old(nameList) && unchanged(reelItems) && hooksCalled == old(hooksCalled)
      ensures started ==> hooksCalled == old(hooksCalled) + if onSpinStart then [SpinStart] else []
      ensures started ==> |winners| == numberOfSlots && multiset(winners) <= multiset(old(nameList))
      ensures started ==> nameList == if old(shouldRemoveWinner) then RemoveEach(old(nameList), winners) else old(nameList)
      ensures started && old(shouldRemoveWinner) ==>
                && |nameList| == |old(nameList)| - numberOfSlots
                && multiset(nameList) == multiset(old(nameList)) - multiset(winners)
      ensures forall i :: 0 <= i < numberOfSlots ==>
                if started && old(Spinnable(i))
                then reelItems[i].Some? &&
                     Mounted(old(reelItems[i]).value, reelItems[i].value, old(nameList),
                             maxReelItems, havePreviousWinner[i], winners[i])
                else reelItems[i] == old(reelItems[i])
      ensures started && old(Settled()) && maxReelItems >= 1 ==>
                forall i :: 0 <= i < numberOfSlots && old(Spinnable(i)) ==> |reelItems[i].value| == maxReelItems
    {
      if |nameList| < numberOfSlots {
        return false, [];
      }
      if onSpinStart {
        hooksCalled := hooksCalled + [SpinStart];
      }
      var removeWinner := shouldRemoveWinner;
      ghost var positions;
      winners, positions := DrawWinners(nameList, numberOfSlots, winnerDraws);
      MountReels(winners, reelDraws);
      if removeWinner {
        RemoveWinners(winners);
      }
      started := true;
    }

    /** The per-reel loop of `spin`: every reel with a container and an animation gets a
        filler for its winner appended to the items it already holds; the other
        reels are skipped. */
    method MountReels(winners: seq<string>, reelDraws: seq<seq<nat>>)
      requires Valid() && |winners| == numberOfSlots
      requires |reelDraws| == numberOfSlots
      requires forall i :: 0 <= i < numberOfSlots ==> ValidDraws(reelDraws[i], |nameList|)
      modifies reelItems
      ensures forall i :: 0 <= i < numberOfSlots ==>
                if old(Spinnable(i))
                then reelItems[i].Some? &&
                     Mounted(old(reelItems[i]).value, reelItems[i].value, nameList,
                             maxReelItems, havePreviousWinner[i], winners[i])
                else reelItems[i] == old(reelItems[i])
    {
      for slotIndex := 0 to numberOfSlots
        invariant forall i :: 0 <= i < slotIndex ==>
                    if old(Spinnable(i))
                    then reelItems[i].Some? &&
                         Mounted(old(reelItems[i]).value, reelItems[i].value, nameList,
                                 maxReelItems, havePreviousWinner[i], winners[i])
                    else reelItems[i] == old(reelItems[i])
        invariant forall i :: slotIndex <= i < numberOfSlots ==> reelItems[i] == old(reelItems[i])
      {
        if reelItems[slotIndex].None? || !reelAnimations[slotIndex] {
          continue;
        }
        ghost var shuffled, copies;
        var filler;
        filler, shuffled, copies := BuildReel(nameList, reelDraws[slotIndex], maxReelItems,
                                              havePreviousWinner[slotIndex], winners[slotIndex]);
        reelItems[slotIndex] := Some(reelItems[slotIndex].value + filler);
      }
    }

    /** The winner-removal `forEach` of `spin`: each winner in turn removes the first name equal to it. */
    method RemoveWinners(winners: seq<string>)
      modifies this`nameList
      ensures nameList == RemoveEach(old(nameList), winners)
      ensures multiset(winners) <= multiset(old(nameList)) ==>
                && |nameList| == |old(nameList)| - |winners|
                && multiset(nameList) == multiset(old(nameList)) - multiset(winners)
    {
      var j := 0;
      while j < |winners|
        invariant 0 <= j <= |winners|
        invariant nameList == RemoveEach(old(nameList), winners[..j])
      {
        var index := FindIndex(nameList, winners[j]);
        SpliceFound(nameList, winners[j]);
        RemoveEachStep(old(nameList), winners, j);
        if index != -1 {
          nameList := nameList[..index] + nameList[index + 1..];
        }
        j := j + 1;
      }
      assert winners[..|winners|] == winners;
      if multiset(winners) <= multiset(old(nameList)) {
        RemoveEachSubtracts(old(nameList), winners);
      }
    }

    /** `spin` after its `await`: every reel with a container and an animation
        keeps only its last mounted item and is marked as showing a previous
        winner; every other reel is left as it is. */
    method FinishSpin() returns (done: bool)
      requires Valid()
      modifies this, reelItems, havePreviousWinner
      ensures Valid() && done
      ensures nameList == old(nameList) && shouldRemoveWinner == old(shouldRemoveWinner)
      ensures hooksCalled == old(hooksCalled) + if onSpinEnd then [SpinEnd] else []
      ensures forall i :: 0 <= i < numberOfSlots ==>
                if old(Spinnable(i))
                then reelItems[i] == Some(KeepLast(old(reelItems[i]).value)) && havePreviousWinner[i]
                else reelItems[i] == old(reelItems[i]) && havePreviousWinner[i] == old(havePreviousWinner[i])
    {
      for index := 0 to numberOfSlots
        modifies reelItems, havePreviousWinner
        invariant forall i :: 0 <= i < index ==>
                    if old(Spinnable(i))
                    then reelItems[i] == Some(KeepLast(old(reelItems[i]).value)) && havePreviousWinner[i]
                    else reelItems[i] == old(reelItems[i]) && havePreviousWinner[i] == old(havePreviousWinner[i])
        invariant forall i :: index <= i < numberOfSlots ==>
                    reelItems[i] == old(reelItems[i]) && havePreviousWinner[i] == old(havePreviousWinner[i])
      {
        if reelItems[index].Some? && reelAnimations[index] {
          reelItems[index] := Some(KeepLast(reelItems[index].value));
          havePreviousWinner[index] := true;
        }
      }
      if onSpinEnd {
        hooksCalled := hooksCalled + [SpinEnd];
      }
      done := true;
    }

    /** The whole `spin`, with every animation finishing at the `await`. It
        succeeds exactly when there are at least as many names as reels; then
        every spinnable reel ends showing its own winner (whenever its filler
        is not empty) and is flagged, and the "one item per flagged reel"
        invariant is kept. A reel whose filler is empty (one item allowed and a
        previous winner still shown) is only trimmed, so it keeps showing the
        winner of the earlier spin. */
    method Spin(winnerDraws: seq<nat>, reelDraws: seq<seq<nat>>) returns (ok: bool, ghost winners: seq<string>)
      requires Valid()
      requires ValidDraws(winnerDraws, |nameList|)
      requires |reelDraws| == numberOfSlots
      requires forall i :: 0 <= i < numberOfSlots ==> ValidDraws(reelDraws[i], |nameList|)
      modifies this, reelItems, havePreviousWinner
      ensures Valid() && ok == (|old(nameList)| >= numberOfSlots)
      ensures shouldRemoveWinner == old(shouldRemoveWinner)
      ensures !ok ==> nameList == old(nameList) && unchanged(reelItems, havePreviousWinner) && hooksCalled == old(hooksCalled)
      ensures ok ==> |winners| == numberOfSlots && multiset(winners) <= multiset(old(nameList))
      ensures ok ==> nameList == if old(shouldRemoveWinner) then RemoveEach(old(nameList), winners) else old(nameList)
      ensures ok && old(shouldRemoveWinner) ==>
                && |nameList| == |old(nameList)| - numberOfSlots
                && multiset(nameList) == multiset(old(nameList)) - multiset(winners)
      ensures ok ==> hooksCalled == old(hooksCalled) + (if onSpinStart then [SpinStart] else [])
                                                    + (if onSpinEnd then [SpinEnd] else [])
      ensures ok ==> forall i :: 0 <= i < numberOfSlots ==>
                if old(Spinnable(i))
                then havePreviousWinner[i] &&
                     reelItems[i] == Some(if ReelLength(|old(nameList)|, maxReelItems, old(havePreviousWinner[i])) > 0
                                          then [winners[i]] else KeepLast(old(reelItems[i]).value))
                else reelItems[i] == old(reelItems[i]) && havePreviousWinner[i] == old(havePreviousWinner[i])
      ensures ok && old(Settled()) && maxReelItems >= 1 ==> Settled()
    {
      var w;
      ok, w := StartSpin(winnerDraws, reelDraws);
      winners := w;
      if ok {
        label Started:
        ok := FinishSpin();
        forall i | 0 <= i < numberOfSlots
          ensures if old(Spinnable(i))
                  then havePreviousWinner[i] &&
                       reelItems[i] == Some(if ReelLength(|old(nameList)|, maxReelItems, old(havePreviousWinner[i])) > 0
                                            then [winners[i]] else KeepLast(old(reelItems[i]).value))
                  else reelItems[i] == old(reelItems[i]) && havePreviousWinner[i] == old(havePreviousWinner[i])
          ensures old(Settled()) && maxReelItems >= 1 && reelItems[i].Some? ==>
                    |reelItems[i].value| == if havePreviousWinner[i] then 1 else 0
        {
          assert old@Started(Spinnable(i)) == old(Spinnable(i));
          if old(Spinnable(i)) {
            TrimMounted(old(reelItems[i]).value, old@Started(reelItems[i]).value, old(nameList),
                        maxReelItems, old(havePreviousWinner[i]), winners[i]);
          }
        }
      }
    }
  }

  /** Setting the same list twice leaves the reels and flags exactly as setting
      it once does. */
  method SetNamesTwice(slot: Slot, names: seq<string>)
    requires slot.Valid()
    modifies slot, slot.reelItems, slot.havePreviousWinner
    ensures slot.Valid() && slot.Names() == names
    ensures forall i :: 0 <= i < slot.numberOfSlots ==>
              slot.reelItems[i] == Cleared(old(slot.reelItems[i])) && !slot.havePreviousWinner[i]
  {
    slot.SetNames(names);
    slot.SetNames(names);
  }
}
