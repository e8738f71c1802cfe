# Slot: the reel machine of a random name picker

This project models the `Slot` class of a browser name picker. The class holds:

- a list of names;
- one reel per slot, each a page container plus an animation object;
- one flag per reel saying whether the winner of its last spin is still on show.

`spin` works in these steps:

1. It refuses when there are fewer names than reels.
2. It draws one winner per reel. It shuffles the whole list with an index-pool Fisher-Yates shuffle and takes the first `numberOfSlots` names.
3. It builds a filler for each reel and appends it to the reel:
   - reshuffle the names;
   - double the sequence until it holds `maxReelItems` names;
   - cut it to `maxReelItems`, one less when the reel still shows a previous winner;
   - overwrite its last item with the reel's winner.
4. When winner removal is on, it splices each winner's first occurrence out of the list.
5. Once the animations end, it trims every reel to its last item and sets the reel's flag.

The `names` setter installs a new list. It empties every container and clears every flag.

The modules are:

- `Selection`: the shuffle and the winner draw.
- `Reel`: the filler, the JavaScript `slice` and the final trim.
- `Removal`: `findIndex` plus `splice` for each winner.
- `SlotMachine`: the class itself.
- `Scenarios`: whole runs, checked against the class's contracts alone.

How the model stands in for the page and the runtime:

- **Randomness.** `Math.random` is replaced by caller-supplied draws. For one shuffle of `n` names, draw `k` is the index below `n - k` that `Math.random() * (n - k) | 0` would have produced. `spin` takes one draw sequence for the winners and one per reel. A reel that is skipped ignores its sequence.
- **Reels.** A reel's container is an `Option` of the names it shows. `None` stands for a selector that matched nothing. A reel's animation exists exactly when its container does.
- **Callbacks.** The three callbacks are recorded, in order, in a ghost log `hooksCalled`.
- **The `await`.** `spin` is split at its single `await` into `StartSpin` and `FinishSpin`. `Spin` runs one after the other, as if every animation ends at once.

Edge cases the source has and the model keeps:

- `slice(0, -1)` keeps all but the last element. This arises when `maxReelItems` is 0 and a previous winner is shown.
- Assigning at index `-1` of an empty array adds no element.
- An empty list would make the doubling loop spin forever. The `length &&` guard prevents that.
- With `maxReelItems == 1`, a reel that still shows a winner receives no filler, so it keeps showing the old winner. The winners are still drawn and, if removal is on, removed from the list. `Spin` states this as written: a reel shows its new winner when its filler is not empty (`ReelLength > 0`). Otherwise it is only trimmed to its last earlier item.
- The `names` setter can run while `spin` awaits its animations, that is, between `StartSpin` and `FinishSpin`. The setter empties the reels and clears their flags. The finish step then flags those same reels again, although each now shows nothing. The next spin then builds each filler one item short, for a previous winner that is not on show. The model keeps this: `SetNames` followed by `FinishSpin` leaves a flagged, empty reel, so the one-item-per-flagged-reel invariant (`Settled`) does not hold afterwards (`Scenarios.NamesSetMidSpin`).

## Model

| member | source | states |
|---|---|---|
| Selection.ShuffleNames | src/assets/js/Slot.ts:153-167 | The result has the input's length and multiset, so it is a permutation. Each result entry comes from a distinct input position, given by the ghost `order`. |
| Selection.PickStep | src/assets/js/Slot.ts:158-164 | One loop step keeps the shuffle invariant. The keys stay distinct and below the array length, which makes them a permutation of 0..n-1. The result so far is the keys picked, read from the end of the pool. The names left in the live pool are exactly those not yet output. |
| Selection.ResultStep | src/assets/js/Slot.ts:159-164 | The name appended to the result is the one behind the key that the exchange moves to the end of the live pool. The result stays the picked keys read from the end. |
| Selection.SwapKeepsKeys | src/assets/js/Slot.ts:161-164 | Exchanging `keys[i]` and `keys[n]` keeps the keys distinct, keeps them below the bound, and keeps their multiset. |
| Selection.SwapShrinksPool | src/assets/js/Slot.ts:159-164 | After the exchange, the names behind the live pool are the names before it, less the one picked. |
| Selection.SwapRemove | src/assets/js/Slot.ts:162-164 | Moving the last entry into slot i and dropping the last slot removes exactly the entry that was at i. |
| Selection.ReversedOrdering | src/assets/js/Slot.ts:156-166 | Read back to front, the keys picked are distinct positions. The result came from those positions in that order. |
| Selection.DrawWinners | src/assets/js/Slot.ts:186-187 | There are exactly `count` winners. They come from `count` distinct positions of the list, so their multiset is contained in the list's multiset. |
| Reel.SliceTo | src/assets/js/Slot.ts:207 | JavaScript `slice(0, end)` returns a prefix of its input. A negative end counts back from the end of the array. |
| Reel.RepeatAdd | src/assets/js/Slot.ts:203-205 | Doubling `copies` repetitions of the shuffle gives `2 * copies` repetitions. |
| Reel.RepeatMembers | src/assets/js/Slot.ts:203-205 | Every name in a repetition of the shuffle is in the shuffle. |
| Reel.PrefixMembers | src/assets/js/Slot.ts:201-207 | Every item of a prefix of a repeated shuffle of the names is one of the names. |
| Reel.BuildReel | src/assets/js/Slot.ts:201-210 | The loop terminates. The filler's length is `maxReelItems`, less one when a previous winner is shown. It is 0 for an empty list, and `|names| - 1` when that count would be negative. A non-empty filler ends with the winner. Every other item follows a fresh shuffle of the names, round and round, so it is one of the names. |
| Reel.KeepLast | src/assets/js/Slot.ts:277-280 | The trim leaves the reel's last item and nothing else: one item for a non-empty reel, none for an empty one. |
| Reel.TrimMounted | src/assets/js/Slot.ts:277-282 | Trimming a freshly filled reel leaves exactly its winner whenever the filler was not empty. An empty filler leaves the reel as it was. A reel that held only its previous winner (or nothing) holds `maxReelItems` items once filled, and one once trimmed. |
| Removal.FindIndex | src/assets/js/Slot.ts:256 | The result is -1 exactly when the winner is absent. Otherwise it is the first position holding the winner. |
| Removal.RemoveFirst | src/assets/js/Slot.ts:256-259 | An absent winner leaves the list unchanged. A present one is cut out at its first position, and the list loses one copy of it. |
| Removal.RemoveEachSubtracts | src/assets/js/Slot.ts:254-261 | Suppose the winners were drawn from the list. Then removing them shortens the list by their count and leaves exactly the old multiset minus the winners. |
| Removal.RemoveEach | src/assets/js/Slot.ts:255-260 | The winners are removed one after another, in order. For any winners, the list only loses names, and it keeps at least its length minus the winner count. |
| SlotMachine.Slot.constructor | src/assets/js/Slot.ts:60-105 | The list starts empty and every flag is false. The reels are the containers found, with animations exactly for the containers that exist. The configuration takes the defaults 30, true and 5. |
| SlotMachine.Slot.SetNames | src/assets/js/Slot.ts:111-132 | The getter returns the new list. Every present container is emptied and every flag is false, so the one-item-per-flagged-reel invariant holds. The removal setting is unchanged. `onNameListChanged` is called when configured. |
| SlotMachine.SetNamesTwice | src/assets/js/Slot.ts:111-122 | Setting the same list twice leaves the reels and flags exactly as setting it once does. |
| SlotMachine.Slot.Names | src/assets/js/Slot.ts:129-132 | The `names` getter returns the current list. The setter's contract and the whole-run scenarios read the list back through it. |
| SlotMachine.Slot.ShouldRemoveWinner | src/assets/js/Slot.ts:142-145 | The `shouldRemoveWinnerFromNameList` getter returns the current setting. The setter's contract reads it back. |
| SlotMachine.Slot.SetShouldRemoveWinner | src/assets/js/Slot.ts:138-145 | The getter returns what was set, and only that field changes. |
| SlotMachine.Slot.StartSpin | src/assets/js/Slot.ts:173-264 | With fewer names than reels it returns false and changes nothing, and no callback is called. Otherwise `onSpinStart` fires and the winners are drawn. Each spinnable reel has its filler appended, and every other reel is untouched. With removal on (read once, at the start), the list becomes the list minus the winners, one copy each, and shrinks by `numberOfSlots`. Under the invariant with `maxReelItems >= 1`, every filled reel holds `maxReelItems` items. |
| SlotMachine.Slot.MountReels | src/assets/js/Slot.ts:192-251 | A reel with both a container and an animation keeps its old items and gains the filler for its own winner. Every other reel is skipped. |
| SlotMachine.Slot.RemoveWinners | src/assets/js/Slot.ts:254-261 | The list is the old one with each winner's first occurrence removed, in order. For winners drawn from it, the list shrinks by their count and loses exactly their multiset. |
| SlotMachine.Slot.FinishSpin | src/assets/js/Slot.ts:270-290 | Each spinnable reel keeps only its last item and is flagged. Every other reel and flag is untouched. The list is unchanged. `onSpinEnd` fires when configured, and the result is true. |
| SlotMachine.Slot.Spin | src/assets/js/Slot.ts:173-291 | It succeeds exactly when there are at least `numberOfSlots` names. On failure nothing changes. On success, each spinnable reel is flagged. When its filler is not empty, the reel shows only its own winner. Otherwise it is only trimmed to its last earlier item. Every other reel is untouched. The list and the callback log change as in the two halves. The one-item-per-flagged-reel invariant is kept when `maxReelItems >= 1`. |
| Scenarios.SpinTakesAll | src/assets/js/Slot.ts:173-291 | With three reels, three names and removal on, the spin returns true and empties the list. |
| Scenarios.SpinRefused | src/assets/js/Slot.ts:174-177 | With an empty list, a spin over three reels returns false. The list stays empty, and no reel or flag changes. |
| Scenarios.SpinKeepsNames | src/assets/js/Slot.ts:173-291 | With removal off, a spin over two reels returns true and keeps the list and the setting. Its two winners are different names drawn from three different ones. |
| Scenarios.NamesSetMidSpin | src/assets/js/Slot.ts:111-122 | If the `names` setter runs during the `await` (between the start and the finish of a spin), the finish flags a reel the setter emptied. The reel ends flagged but empty, and the one-item-per-flagged-reel invariant is broken. The source's finish step, lines 270-284, does the same. |
| Scenarios.AtMostOnce | src/assets/js/Slot.ts:186-187 | A list of different names holds each name at most once. |
| Scenarios.TwiceCounted | src/assets/js/Slot.ts:186-187 | A name found at two positions of the winners occurs at least twice in their multiset. |
| Scenarios.DistinctWinners | src/assets/js/Slot.ts:186-187 | For any number of reels, winners drawn from a list of different names are pairwise different. |

## Left out

- Page rendering is not modelled: the `div` elements, `innerHTML`, document fragments, and the height measurements and keyframes of lines 212-242. A reel's container is modelled only as the sequence of names it shows.
- The Web Animations API is not modelled: `animate`, `cancel`, `play`, `finish`, `onfinish` and the promises of lines 245-250 and 267. Every animation is taken to finish. A spin that starts while another is still awaiting is not modelled.
- `console.error` and `console.info` output (lines 175, 222, 263-264) is not modelled.
- `Math.random` is replaced by explicit draws. The model covers every outcome the source can produce, but not the probability of each.
- The callbacks are recorded as a ghost log rather than called. What they do is code outside the class.
- `Object.keys` yields string keys, which index the array the same way as numbers. The model uses the numbers directly.
- `reelContainerSelector` and `document.querySelector` are replaced by the constructor's `containers` parameter.
- SlotMachine.Slot.StartSpin: the promise that every filled reel holds `maxReelItems` items is stated only for `maxReelItems >= 1`. With 0, the source's `slice(0, -1)` makes the count differ.
- Aliasing of the name list is not modelled. The setter stores the caller's array itself, the getter hands the same array out, and the winner removal splices it in place. So a caller holding that array sees the winners vanish, and can change the list without the reel and flag reset the setter performs. In the model, `nameList` is a value, so no other holder can observe or make such changes.
- `maxReelItems` is modelled as a natural number. The source takes any JavaScript `number`. Negative or fractional settings (for example 2.5, which the doubling loop compares against and `slice` truncates to 2) are not modelled. Nor are the 32-bit wrap of `Math.random() * n | 0` or non-integer `numberOfSlots`.
- The Python scripts `add_corner_dots.py`, `analyze_corners.py` and `final_verification.py` process images and are not part of this model.
