# Greeting-card scene: a model of the card state machine

script.js shows a deck of six photo cards in a 3D scene. It picks the deck at random from a
fixed catalogue of image files, creating one card per file as that file's texture loads. Each
card starts face-down, showing its decorative back. A start button moves the fanned-out cards
into a playable row. Hovering the mouse over a card lifts it. Clicking or tapping a face-down
card turns it face-up and shows the caption for its photo.

This project models that logic in Dafny 4.11. It has these parts:

- **Deck selection.** The files are deduplicated in first-occurrence order. Too few unique
  files is an error. The unique files go through the in-place Fisher–Yates shuffle
  (`shuffleArray`), and the first six are kept.
- **Card records.** Each loaded texture yields a `{id, filename, isFlipped, isAnimating}`
  record. A counter tracks how many cards exist.
- **Flip and caption.** A flip starts, and later completes. A file's caption is its entry in
  the message table, or the default "You are amazing".
- **Pointer handlers.** A hover move, an activation (click or touch end) and the hover re-check
  after a flip.
- **Arrangement.** The start of the arrangement, its row targets, and the completion of its
  timeline.

The modules mirror that structure:

- `Shuffle`: `shuffleArray` as an in-place array method. It is proved equal to a recursive
  specification function, and that function is proved to be a permutation.
- `Selection`: the catalogue (`AvailableImageFiles`), deduplication and the selection. The
  selection comes with its error case.
- `Captions`: the message table and the caption lookup.
- `Layout`: the fan angle given at creation and the game-row targets, computed on exact reals.
- `CardScene`:
  - a `Card` class holding the mutable `userData` flags, and a `Game` class holding script.js's
    module-level state. Its handlers are methods that change the fields they name;
  - every tween (gsap animation) request is appended to the `tweens` log, with its target
    values;
  - when a tween, the arrangement timeline or the 100 ms debounce timer finishes, that is an
    event method of its own;
  - a hit test is an input: either "no coordinates", or the index in `cards` of the nearest
    card under the ray (or none).
- `Scenarios`: event sequences (a touch end followed by its synthesized click, a whole flip,
  out-of-order loads, re-arranging) checked against the handlers' contracts alone.
- `Sequences`, `Wrappers`, `Settings`: generic facts about distinct sequences, Option/Result,
  and the constants `numberOfCards = 6`, `cardWidth = 1.5` and `initialYPosition = 0`.

Randomness is an input: a sequence `draws` of reals in [0, 1). The loop step for index `i`
uses the draw at position `n-1-i` and picks `j = floor(r·(i+1))`.

`isFlipped` keeps the source's meaning, which reads backwards: `true` means the card shows its
BACK.

Where the code does less or otherwise than its own comments say, the model follows the code:

- Mouse hover is not blocked while the game is not playable, although the comment at
  script.js:303 says hover applies only when the game is playable and the event is not a
  touch. A non-touch move first drops an idle card's hover, then falls through to the normal
  hover handling (script.js:305-313). `HandlePointerMove` states both steps.
- The arrangement can run again once its timeline completes, because the completion clears
  `isGameActive` (script.js:549). That completion also turns every card face-down again
  (script.js:546).
- Row positions follow the index in `cards`, which is the order in which the textures loaded.
  They do not follow `userData.id` (script.js:561).

## Model

| member | source | states |
|---|---|---|
| Shuffle.PickIndex | script.js:12 | the swap partner of step i is an index j with 0 <= j <= i |
| Shuffle.Swap | script.js:13 | positions i and j exchange their elements; every other position and the length are unchanged |
| Shuffle.ShuffleFrom | script.js:11-14 | the loop steps from i down to 1 keep the length and never touch the positions above i, which are already final |
| Shuffle.Shuffled | script.js:10-16 | the whole loop keeps the length, and leaves a list of zero or one elements as it is (the loop body never runs) |
| Shuffle.ShuffledLast | script.js:11-13 | the first step settles the last position: it ends up holding the element the first draw picks |
| Shuffle.ShuffleFromPermutes | script.js:11-14 | the steps from i down to 1 produce a permutation of the input (same length, same multiset) |
| Shuffle.ShuffledPermutes | script.js:10-16 | the whole Fisher–Yates shuffle is a permutation of its input |
| Shuffle.SwapStep | script.js:13 | one in-place swap advances the loop: the rest of the shuffle from i-1 on the new array yields the same final order as from i on the old |
| Shuffle.ShuffleArray | script.js:10-16 | shuffles the array in place, returns the same array, and leaves the arrangement of the shuffle function and the same multiset of elements |
| Selection.Dedup | script.js:219 | the result is duplicate-free, holds exactly the elements of the input, and is no longer than it |
| Selection.DedupOfDistinct | script.js:219 | deduplicating a list without duplicates leaves it unchanged |
| Selection.DedupLength | script.js:219-220 | the number of unique files is the size of the set of the input's elements |
| Selection.PrefixOfPermutation | script.js:225-226 | the first n files of a shuffled unique list are distinct members of the list, and all of it when n is its length |
| Selection.Select | script.js:219-226 | fails exactly when there are fewer unique files than cards, and then reports both counts; otherwise it yields exactly n pairwise distinct files of the catalogue, and every unique file when there are exactly n |
| Selection.SelectImageFiles | script.js:219-226 | the imperative selection (copy the unique files to an array, shuffle it in place, slice it) returns the selection function's result, errors included |
| Selection.AvailableCatalogSuffices | script.js:19-26 | the shipped 35-file catalogue always yields a deck of six, whatever the draws |
| Captions.Caption | script.js:428-429 | a file's caption is its table entry when it has one and the default message exactly when it has none; it is never empty |
| Captions.CaptionOfListedFile | script.js:42 | "37.jpg" reads "Family trip!!" |
| Captions.CaptionOfUnlistedFile | script.js:51 | "12.jpg", which has no entry, reads "You are amazing" |
| Layout.FanFraction | script.js:241 | a card's place on the fan lies in [0, 1], from 0 for the first card to 1 for the last, and is 0.5 for a one-card deck |
| Layout.FanAngle | script.js:242 | a card's fan angle lies within half the arc pi/1.8 of the centre |
| Layout.FanRotationY | script.js:246 | a card's rotation at creation lies within half the arc of pi |
| Layout.FanSymmetric | script.js:241-246 | mirrored cards on the fan get opposite angles, and rotations that add up to 2·pi |
| Layout.RowTarget | script.js:535-566 | every row target is at the base height, at z = 1.5, turned by pi |
| Layout.RowStart | script.js:572-575 | no card starts moving before 0.3 s into the timeline |
| Layout.RowEvenlySpaced | script.js:563 | neighbouring row targets are exactly 1.875 (1.25 card widths) apart, for every index and deck size |
| Layout.RowSymmetric | script.js:536-537 | the row is centred: x_i + x_(n-1-i) = 0 |
| Layout.RowOrdered | script.js:563 | row targets increase strictly with the list index, so no two cards share one |
| Layout.RowStaggered | script.js:572-575 | each card starts 0.1 s after the one before it |
| Layout.SixCardRow | script.js:535-537 | the six-card row runs from -4.6875 to 4.6875 |
| CardScene.Card.constructor | script.js:248 | a new card has its selection index and file, and is face-down and idle |
| CardScene.RestTweens | script.js:308-309 | the rest look (also at 324-325, 333-334 and 390-391): two hover tweens of the card itself, one back to scale 1 and one back to the base height |
| CardScene.HoverTweens | script.js:339-340 | the hover look (also at 492-493): two hover tweens of the card itself, one scaling to 1.05 and one lifting by 0.2, so above scale 1 and above the base height, none of them a rest tween |
| CardScene.FlipTweens | script.js:460-464 | the start of a flip is three requests on the card itself: both requests of the rest look (scale 1 and the base height) and nothing else of that kind, its only other request is the turn of rotation.y to 0, and that turn comes last |
| CardScene.RowTweensLayout | script.js:561-575 | the arrangement's requests in list order: 1.875 apart and started 0.1 s apart, all at the base height, z = 1.5 and rotation pi, and for the full deck symmetric about x = 0 |
| CardScene.Game.constructor | script.js:281-284 | the state before any texture loads: no cards, nothing hovered, not playable, no arrangement running, no debounce, no tweens |
| CardScene.Game.CardLoaded | script.js:248-253 | a texture callback appends one face-down idle card for its own file and counts it, keeping the ids distinct and the hovered card among the cards |
| CardScene.Game.AllCardsLoaded | script.js:252-253 | when the counter reaches the deck size, every selected file has its card, whatever order the loads finished in |
| CardScene.Game.CardsAreDistinct | script.js:248-250 | no card appears twice in the list |
| CardScene.Game.FlipCard | script.js:423-463 | a face-up card keeps its flags and shows its caption again; a face-down card in flight is untouched; a face-down idle card goes in flight, hides the caption and gets the rest tweens and the turn to 0; in no case does a card become face-down |
| CardScene.Game.FlipCompleted | script.js:465-477 | the card ends face-up and idle, with its file's caption shown; it is hovered, with the hover look, when the pointer is still over it, and otherwise it is no longer hovered and no tween is issued |
| CardScene.Game.HandleHoverAfterAnimation | script.js:483-499 | on a hit, the card becomes the hovered card, lifted only if it is idle; on a miss, the hover is cleared only if it was that card |
| CardScene.Game.HandlePointerMove | script.js:302-343 | a touch move, or a move while not playable, drops the hover of an idle hovered card; after a non-touch move with coordinates, the hovered card is the hit-test result; a change of hover sends the old card to rest and lifts the new one, each only if it is idle; every tween issued is a hover tween for an idle card; the hit is the nearest card under the ray, taken as an input index (script.js:337) |
| CardScene.Game.HandleInteractionEnd | script.js:346-394 | the hit is the nearest card under the ray, taken as an input index (script.js:370), so the membership guard at script.js:372 always holds; nothing changes when the game is not playable, during the debounce, or without coordinates; a hit on an idle card sets the debounce flag and flips that card (shows the caption again if it is face-up); a hit on a card in flight changes nothing; a miss drops the hover of an idle hovered card; no other card's flags change |
| CardScene.Game.DebounceExpired | script.js:377 | after the 100 ms timer, activations are accepted again |
| CardScene.Game.ArrangeForGame | script.js:502-577 | nothing changes while an arrangement runs or before every card exists; otherwise the arrangement is marked running, the game is not playable, the caption is hidden, and every card is in flight and the log grows by exactly `RowTweens(cards)`, card k to row target k from 0.3 + 0.1·k, with its side unchanged |
| CardScene.Game.ArrangeCompleted | script.js:542-550 | every card ends idle and face-down, then the game is playable and no arrangement is running |
| CardScene.Start | script.js:218-231 | the start succeeds exactly when the selection does; on too few unique images it fails with the selection's error and no state exists; on success a fresh, consistent state holds the selected files, with no cards, nothing hovered or playable, no tweens and the caption hidden |
| Scenarios.TouchThenClickFlipsOnce | script.js:375-379 | a touch end followed by the synthesized click starts exactly one flip, whether or not the debounce timer expires in between |
| Scenarios.FlipAndReveal | script.js:423-477 | an activation and the completion of its turn, with the pointer still over the card, leave it face-up, idle and hovered, with its caption; a later activation only shows the caption again |
| Scenarios.LoadsOutOfOrder | script.js:232-252 | cards appear in load-completion order, each with its own selection index and file |
| Scenarios.ArrangeTwice | script.js:541-566 | after a completed arrangement, another start request is accepted and runs again |
| Scenarios.EarlyStartIsDropped | script.js:503-519 | a start request before all cards exist is dropped: no arrangement runs and no tween is issued |

## Left out

- Rendering: the three.js scene, lights, bloom, particles, ground, camera controls and the
  render loop. They are a foreign library and have no effect on the state.
- Texture drawing: the canvas back pattern, the aspect-fit front image and the image requests.
  Only the "texture ready" callback is modelled (`CardLoaded`). It behaves the same whether
  the image loaded or a placeholder was used.
- Card positions in space: the fan places each card with `Math.sin`/`Math.cos` of its angle,
  and every tween moves the card smoothly. Only the fan angle and rotation (`Layout.FanAngle`,
  `Layout.FanRotationY`) and the tween target values are modelled. A card does not record its
  fan pose, so these functions are not tied to `CardLoaded`; no rule reads the pose back.
- Tween durations and easing, and the pointer coordinate conversion. The ray cast becomes the
  `PointerSample` input, and each timer becomes an event method.
- The order in which concurrent completions fire is not modelled. Each completion is an event
  the environment may call whenever the card is in the precondition's state.
- The caption element's opacity and position tweens are modelled as the `captionShown` flag.
  Its text before any flip is modelled as the empty string. A missing caption element (the
  source logs an error and goes on) is not modelled.
- The start button's "Loading..." and "Start Game" text and its disabled state, the 3 s
  re-enable timer, the title and button fades, the refresh button (page reload) and the
  window resize handler. These are DOM side effects that no rule reads back.
- Console logging.
- CardScene.MoveToRow: the arrangement issues two timeline requests per card, one for the
  position and one for the rotation (script.js:570-575). The model records them as one entry.
  That rotation request also targets rotation.x = 0 and rotation.z = 0, which the model does not
  record, since no rule reads those angles and no other request changes them.
- file.py is not part of this model. It renames files on disk and takes user input.
- Doubles: positions, angles and draws are exact reals. Math.PI is modelled by
  3.141592653589793, the shortest decimal that rounds to that double, not by its exact value.
- Shuffle.ShuffleArray: only the resulting order is stated. The uniform distribution of
  Fisher–Yates over the draws is not.
- Selection.Dedup: the ensures state the set of elements and the absence of duplicates. They
  do not state that first occurrences keep their order; the body does that.
