/** The card-interaction state machine of script.js: the card records created as the
    textures finish loading, the flip of one card, the pointer handlers, the debounce of a
    double activation and the arrangement of the deck into the game row.

    The renderer, the tweening engine, the ray caster and the timers are outside the
    model. A tween request is recorded as an entry of the `tweens` log (its target values
    only); the completion of a tween, of the timeline and of the 100 ms timer are events
    of their own; a hit test is an input naming the position in `cards` of the nearest
    card under the pointer. */
module CardScene {
  import opened Wrappers
  import opened Sequences
  import Shuffle
  import Selection
  import Captions
  import Layout
  import Settings

  /** A card mesh's userData. */
  class Card {
    /** The position of the card's file in the selection. */
    const id: nat
    const filename: string
    /** True while the card shows its BACK: the source's name reads the other way. */
    var isFlipped: bool
    /** Set while a flip or the arrangement is in flight: no flip starts meanwhile. */
    var isAnimating: bool

    constructor (id: nat, filename: string)
      ensures this.id == id && this.filename == filename
      ensures isFlipped && !isAnimating
    {
      this.id := id;
      this.filename := filename;
      isFlipped := true;
      isAnimating := false;
    }
  }

  /** A tween request and the values it animates towards. */
  datatype Tween =
    | ScaleTo(card: Card, factor: real)       // scale (x, y, z) to the same factor
    | RaiseTo(card: Card, y: real)            // position.y
    | TurnTo(card: Card, rotationY: real)     // rotation.y
    | MoveToRow(card: Card, target: Layout.Pose, startAt: real)  // position and rotation

  /** What a pointer event yields: no coordinates (the event had none), or the outcome
      of the ray cast against the cards, the position in `cards` of the nearest hit. */
  datatype PointerSample = NoCoordinates | Ray(hit: Option<nat>)

  /** Scale and lift of a hovered card. */
  const HoverScale: real := 1.05
  const HoverLift: real := 0.2

  /** The ids of a list of cards. */
  function Ids(cs: seq<Card>): (ids: seq<nat>)
    ensures |ids| == |cs| && forall k :: 0 <= k < |cs| ==> ids[k] == cs[k].id
  {
    seq(|cs|, k requires 0 <= k < |cs| => cs[k].id)
  }

  /** Back to rest: scale 1, base height. */
  function RestTweens(c: Card): (ts: seq<Tween>)
    ensures |ts| == 2 && forall t :: t in ts ==> IsHoverTween(t) && t.card == c
    ensures forall t :: t in ts && t.ScaleTo? ==> t.factor == 1.0
    ensures forall t :: t in ts && t.RaiseTo? ==> t.y == Settings.InitialYPosition
    ensures ScaleTo(c, 1.0) in ts && RaiseTo(c, Settings.InitialYPosition) in ts
  {
    [ScaleTo(c, 1.0), RaiseTo(c, Settings.InitialYPosition)]
  }

  /** The hover look: scale 1.05, lifted by 0.2. */
  function HoverTweens(c: Card): (ts: seq<Tween>)
    ensures |ts| == 2 && forall t :: t in ts ==> IsHoverTween(t) && t.card == c
    ensures forall t :: t in ts && t.ScaleTo? ==> t.factor > 1.0
    ensures forall t :: t in ts && t.RaiseTo? ==> t.y > Settings.InitialYPosition
    ensures forall t :: t in ts ==> t !in RestTweens(c)
    ensures ScaleTo(c, HoverScale) in ts && RaiseTo(c, Settings.InitialYPosition + HoverLift) in ts
  {
    [ScaleTo(c, HoverScale), RaiseTo(c, Settings.InitialYPosition + HoverLift)]
  }

  /** The start of a flip: back to rest, then turn the face (rotation 0) to the viewer. */
  function FlipTweens(c: Card): (ts: seq<Tween>)
    ensures |ts| == 3 && forall t :: t in ts ==> t.card == c
    ensures forall t :: t in ts && IsHoverTween(t) ==> t in RestTweens(c)
    ensures forall t :: t in ts && !IsHoverTween(t) ==> t == TurnTo(c, 0.0)
    ensures ts[|ts| - 1] == TurnTo(c, 0.0)
    ensures forall t :: t in RestTweens(c) ==> t in ts
  {
    [ScaleTo(c, 1.0), RaiseTo(c, Settings.InitialYPosition), TurnTo(c, 0.0)]
  }

  /** The arrangement: card k of the list moves to row position k, staggered. */
  function RowTweens(cs: seq<Card>): seq<Tween>
  {
    seq(|cs|, k requires 0 <= k < |cs| =>
      MoveToRow(cs[k], Layout.RowTarget(k, Settings.NumberOfCards), Layout.RowStart(k)))
  }

  /** The arrangement's requests, read as a layout: in list order the cards stand 1.875
      apart and start 0.1 s apart, all at the base height, at z = 1.5 and turned by pi; a
      full deck stands symmetric about x = 0. */
  lemma RowTweensLayout(cs: seq<Card>)
    ensures forall k :: 0 <= k < |cs| ==>
      var p := RowTweens(cs)[k].target;
      p.y == Settings.InitialYPosition && p.z == Layout.RowZ && p.rotationY == Layout.Pi
    ensures forall k :: 0 <= k < |cs| - 1 ==>
      && RowTweens(cs)[k + 1].target.x - RowTweens(cs)[k].target.x == 1.875
      && RowTweens(cs)[k + 1].startAt - RowTweens(cs)[k].startAt == 0.1
    ensures |cs| == Settings.NumberOfCards ==> forall k :: 0 <= k < |cs| ==>
      RowTweens(cs)[k].target.x + RowTweens(cs)[|cs| - 1 - k].target.x == 0.0
  {
    var ts := RowTweens(cs);
    forall k | 0 <= k < |cs| - 1
      ensures ts[k + 1].target.x - ts[k].target.x == 1.875
      ensures ts[k + 1].startAt - ts[k].startAt == 0.1
    {
      Layout.RowEvenlySpaced(k, Settings.NumberOfCards);
      Layout.RowStaggered(k);
    }
    if |cs| == Settings.NumberOfCards {
      forall k | 0 <= k < |cs|
        ensures ts[k].target.x + ts[|cs| - 1 - k].target.x == 0.0
      {
        Layout.RowSymmetric(k, Settings.NumberOfCards);
      }
    }
  }

  /** The rest tweens a hover change issues for c: none for no card or a card in flight. */
  ghost function Lower(c: Card?): seq<Tween>
    reads c
  {
    if c != null && !c.isAnimating then RestTweens(c) else []
  }

  /** The hover tweens a hover change issues for c: none for no card or a card in flight. */
  ghost function Lift(c: Card?): seq<Tween>
    reads c
  {
    if c != null && !c.isAnimating then HoverTweens(c) else []
  }

  /** Whether a tween only changes the hover look (scale or height). */
  predicate IsHoverTween(t: Tween) {
    t.ScaleTo? || t.RaiseTo?
  }

  /** The module-level state of script.js. */
  class Game {
    /** selectedImageFiles. */
    const selected: seq<string>
    /** The card meshes, in the order their textures finished loading. */
    var cards: seq<Card>
    var cardsCreated: nat
    /** The one card with the hover look, if any. */
    var currentlyHovered: Card?
    var isGamePlayable: bool
    var isGameActive: bool
    /** Set by an accepted activation until the 100 ms timer expires. */
    var interactionHasOccurred: bool
    /** The caption element's text and whether it is faded in. */
    var captionText: string
    var captionShown: bool
    /** Every tween requested so far, oldest first. */
    var tweens: seq<Tween>

    /** One card per loaded file, each file at most once, and the hovered card is one of
        the cards. */
    ghost predicate Valid()
      reads this
    {
      && cardsCreated == |cards| <= |selected|
      && Distinct(Ids(cards))
      && (forall k :: 0 <= k < |cards| ==>
            cards[k].id < |selected| && cards[k].filename == selected[cards[k].id])
      && (currentlyHovered != null ==> currentlyHovered in cards)
    }

    /** The card the ray hit, or null. A hit is always one of the cards, so the membership
        guard of an activation always holds. */
    function Target(hit: Option<nat>): (c: Card?)
      reads this
      requires hit.Some? ==> hit.value < |cards|
      ensures c != null ==> c in cards
    {
      if hit.Some? then cards[hit.value] else null
    }

    /** The state right after the selection, before any texture has loaded. */
    constructor (selected: seq<string>)
      ensures Valid() && this.selected == selected
      ensures cards == [] && cardsCreated == 0 && currentlyHovered == null
      ensures !isGamePlayable && !isGameActive && !interactionHasOccurred
      ensures captionText == "" && !captionShown && tweens == []
    {
      this.selected := selected;
      cards := [];
      cardsCreated := 0;
      currentlyHovered := null;
      isGamePlayable := false;
      isGameActive := false;
      interactionHasOccurred := false;
      captionText := "";
      captionShown := false;
      tweens := [];
    }

    /** The texture callback of the i-th selected file (a failed image load yields a
        placeholder texture and the same callback): a face-down, idle card for that file
        is appended to the cards and counted. The callbacks exist only when the
        selection has the deck size, and each runs once. */
    method CardLoaded(i: nat) returns (card: Card)
      requires Valid() && |selected| == Settings.NumberOfCards
      requires i < |selected| && i !in Ids(cards)
      modifies this`cards, this`cardsCreated
      ensures Valid() && fresh(card)
      ensures card.id == i && card.filename == selected[i]
      ensures card.isFlipped && !card.isAnimating
      ensures cards == old(cards) + [card]
      ensures cardsCreated == old(cardsCreated) + 1
    {
      DistinctBelowMissing(Ids(cards), |selected|, i);
      card := new Card(i, selected[i]);
      cards := cards + [card];
      cardsCreated := cardsCreated + 1;
      assert Ids(cards) == Ids(old(cards)) + [i];
      assert forall k :: 0 <= k < |old(cards)| ==> Ids(cards)[k] != i;
    }

    /** Once the counter reaches the deck size, every file of the selection has its card,
        whatever order the loads finished in. */
    lemma AllCardsLoaded()
      requires Valid() && |selected| == Settings.NumberOfCards
      requires cardsCreated == Settings.NumberOfCards
      ensures forall i :: 0 <= i < |selected| ==> i in Ids(cards)
    {
      DistinctBelowCoversRange(Ids(cards), |selected|);
    }

    /** flipCard. A face-up card keeps its flags and only has its caption shown again; a
        face-down card in flight is left alone; a face-down idle card is marked in flight,
        its caption hidden, and it is sent to rest and turned face-up. The card never
        becomes face-down here. */
    method FlipCard(card: Card)
      requires Valid() && card in cards
      modifies this`captionText, this`captionShown, this`tweens, card`isAnimating
      ensures Valid()
      ensures card.isFlipped == old(card.isFlipped)
      ensures !old(card.isFlipped) ==>
        && card.isAnimating == old(card.isAnimating)
        && captionText == Captions.Caption(card.filename) && captionShown
        && tweens == old(tweens)
      ensures old(card.isFlipped) && old(card.isAnimating) ==>
        && card.isAnimating
        && captionText == old(captionText) && captionShown == old(captionShown)
        && tweens == old(tweens)
      ensures old(card.isFlipped) && !old(card.isAnimating) ==>
        && card.isAnimating
        && captionText == old(captionText) && !captionShown
        && tweens == old(tweens) + FlipTweens(card)
    {
      var message := Captions.Caption(card.filename);
      if !card.isFlipped {
        captionText := message;
        captionShown := true;
        return;
      }
      if card.isAnimating {
        return;
      }
      card.isAnimating := true;
      captionShown := false;
      tweens := tweens + FlipTweens(card);
    }

    /** The completion of a flip's turn: the card is face-up and idle, its caption is shown,
        and the hover is checked again with the pointer's last ray (pointerOver: whether
        it still hits this card). */
    method FlipCompleted(card: Card, pointerOver: bool)
      requires Valid() && card in cards
      modifies card`isFlipped, card`isAnimating
      modifies this`captionText, this`captionShown, this`currentlyHovered, this`tweens
      ensures Valid()
      ensures !card.isFlipped && !card.isAnimating
      ensures captionText == Captions.Caption(card.filename) && captionShown
      ensures pointerOver ==> currentlyHovered == card && tweens == old(tweens) + HoverTweens(card)
      ensures !pointerOver ==> tweens == old(tweens)
      ensures !pointerOver ==>
        currentlyHovered == if old(currentlyHovered) == card then null else old(currentlyHovered)
    {
      card.isFlipped := false;
      card.isAnimating := false;
      captionText := Captions.Caption(card.filename);
      captionShown := true;
      HandleHoverAfterAnimation(card, pointerOver);
    }

    /** handleHoverAfterAnimation: a card still under the pointer becomes the hovered card
        (with the hover look unless it is in flight); otherwise it stops being the hovered
        card, without any tween. */
    method HandleHoverAfterAnimation(card: Card, pointerOver: bool)
      requires Valid() && card in cards
      modifies this`currentlyHovered, this`tweens
      ensures Valid()
      ensures pointerOver ==> currentlyHovered == card && tweens == old(tweens) + Lift(card)
      ensures !pointerOver ==> tweens == old(tweens)
      ensures !pointerOver ==>
        currentlyHovered == if old(currentlyHovered) == card then null else old(currentlyHovered)
    {
      if pointerOver {
        currentlyHovered := card;
        if !card.isAnimating {
          tweens := tweens + HoverTweens(card);
        }
      } else if currentlyHovered == card {
        currentlyHovered := null;
      }
    }

    /** handlePointerMove. A touch move, and any move while the game is not playable, first
        drops the hover of an idle hovered card; a touch move stops there. Otherwise the
        hovered card becomes the card under the pointer (none on a miss): the previous one
        is sent to rest and the new one lifted, each only when it is idle. Cards, flags and
        caption are untouched. */
    method HandlePointerMove(isTouch: bool, sample: PointerSample)
      requires Valid()
      requires sample.Ray? && sample.hit.Some? ==> sample.hit.value < |cards|
      modifies this`currentlyHovered, this`tweens
      ensures Valid()
      ensures forall k :: |old(tweens)| <= k < |tweens| ==>
        IsHoverTween(tweens[k]) && !tweens[k].card.isAnimating
      ensures (isTouch || (sample.NoCoordinates? && !isGamePlayable)) ==>
        && tweens == old(tweens) + Lower(old(currentlyHovered))
        && currentlyHovered == if Lower(old(currentlyHovered)) == [] then old(currentlyHovered) else null
      ensures !isTouch && sample.NoCoordinates? && isGamePlayable ==>
        tweens == old(tweens) && currentlyHovered == old(currentlyHovered)
      ensures !isTouch && sample.Ray? ==> currentlyHovered == Target(sample.hit)
      ensures !isTouch && sample.Ray? && Target(sample.hit) != old(currentlyHovered) ==>
        tweens == old(tweens) + Lower(old(currentlyHovered)) + Lift(Target(sample.hit))
      ensures !isTouch && sample.Ray? && Target(sample.hit) == old(currentlyHovered) ==>
        tweens == old(tweens) +
          (if isGamePlayable then [] else Lower(old(currentlyHovered)) + Lift(old(currentlyHovered)))
    {
      if !isGamePlayable || isTouch {
        if currentlyHovered != null && !currentlyHovered.isAnimating {
          tweens := tweens + RestTweens(currentlyHovered);
          currentlyHovered := null;
        }
        if isTouch {
          return;
        }
      }
      if sample.NoCoordinates? {
        return;
      }
      var target := Target(sample.hit);
      if currentlyHovered != null && (target == null || target != currentlyHovered) {
        if !currentlyHovered.isAnimating {
          tweens := tweens + RestTweens(currentlyHovered);
        }
        currentlyHovered := null;
      }
      if target != null && target != currentlyHovered {
        if currentlyHovered != null {
          // The source sends a previous hover to rest here too; the block above has
          // already dropped any hover other than the target, so this never happens.
          assert false;
        }
        currentlyHovered := target;
        if !target.isAnimating {
          tweens := tweens + HoverTweens(target);
        }
      }
    }

    /** handleInteractionEnd (click or touch end). Nothing happens while the game is not
        playable, while the debounce flag is set, or without coordinates. A hit on an idle
        card sets the debounce flag and flips that card; a hit on a card in flight does
        nothing; a miss drops the hover of an idle hovered card. */
    method HandleInteractionEnd(sample: PointerSample)
      requires Valid()
      requires sample.Ray? && sample.hit.Some? ==> sample.hit.value < |cards|
      modifies this`interactionHasOccurred, this`captionText, this`captionShown
      modifies this`currentlyHovered, this`tweens, cards
      ensures Valid()
      ensures forall k :: 0 <= k < |cards| ==> cards[k].isFlipped == old(cards[k].isFlipped)
      ensures forall k :: 0 <= k < |cards| && !(sample.Ray? && sample.hit == Some(k)) ==>
        cards[k].isAnimating == old(cards[k].isAnimating)
      ensures !old(isGamePlayable) || old(interactionHasOccurred) || sample.NoCoordinates? ==>
        && interactionHasOccurred == old(interactionHasOccurred)
        && captionText == old(captionText) && captionShown == old(captionShown)
        && currentlyHovered == old(currentlyHovered) && tweens == old(tweens)
        && forall k :: 0 <= k < |cards| ==> cards[k].isAnimating == old(cards[k].isAnimating)
      ensures old(isGamePlayable) && !old(interactionHasOccurred) && sample.Ray? && sample.hit.Some? ==>
        var card := cards[sample.hit.value];
        && currentlyHovered == old(currentlyHovered)
        && (old(card.isAnimating) ==>
              && card.isAnimating && !interactionHasOccurred
              && captionText == old(captionText) && captionShown == old(captionShown)
              && tweens == old(tweens))
        && (!old(card.isAnimating) && !old(card.isFlipped) ==>
              && !card.isAnimating && interactionHasOccurred
              && captionText == Captions.Caption(card.filename) && captionShown
              && tweens == old(tweens))
        && (!old(card.isAnimating) && old(card.isFlipped) ==>
              && card.isAnimating && interactionHasOccurred
              && captionText == old(captionText) && !captionShown
              && tweens == old(tweens) + FlipTweens(card))
      ensures old(isGamePlayable) && !old(interactionHasOccurred) && sample == Ray(None) ==>
        && interactionHasOccurred == old(interactionHasOccurred)
        && captionText == old(captionText) && captionShown == old(captionShown)
        && tweens == old(tweens) + Lower(old(currentlyHovered))
        && currentlyHovered == if Lower(old(currentlyHovered)) == [] then old(currentlyHovered) else null
    {
      if !isGamePlayable || interactionHasOccurred {
        return;
      }
      if sample.NoCoordinates? {
        return;
      }
      if sample.hit.Some? {
        var target := cards[sample.hit.value];
        if target in cards && !target.isAnimating {
          interactionHasOccurred := true;
          FlipCard(target);
        }
      }
      if sample.hit.None? && currentlyHovered != null && !currentlyHovered.isAnimating {
        tweens := tweens + RestTweens(currentlyHovered);
        currentlyHovered := null;
      }
    }

    /** The 100 ms timer set by an accepted activation: activations are accepted again. */
    method DebounceExpired()
      requires Valid()
      modifies this`interactionHasOccurred
      ensures Valid()
      ensures !interactionHasOccurred
    {
      interactionHasOccurred := false;
    }

    /** Distinct ids make distinct cards. */
    lemma CardsAreDistinct()
      requires Valid()
      ensures forall a, b :: 0 <= a < b < |cards| ==> cards[a] != cards[b]
    {
      forall a, b | 0 <= a < b < |cards| ensures cards[a] != cards[b] {
        assert Ids(cards)[a] != Ids(cards)[b];
      }
    }

    /** arrangeForGame. Nothing happens while an arrangement runs or before every card has
        loaded. Otherwise the arrangement is marked running and the game not playable, the
        caption is hidden, and every card is marked in flight and sent to its row target,
        keeping its side. */
    method ArrangeForGame()
      requires Valid()
      modifies this`isGameActive, this`isGamePlayable, this`captionShown, this`tweens, cards
      ensures Valid()
      ensures forall k :: 0 <= k < |cards| ==> cards[k].isFlipped == old(cards[k].isFlipped)
      ensures old(isGameActive) || |cards| != Settings.NumberOfCards ==>
        && isGameActive == old(isGameActive) && isGamePlayable == old(isGamePlayable)
        && captionShown == old(captionShown) && tweens == old(tweens)
        && forall k :: 0 <= k < |cards| ==> cards[k].isAnimating == old(cards[k].isAnimating)
      ensures !old(isGameActive) && |cards| == Settings.NumberOfCards ==>
        && isGameActive && !isGamePlayable && !captionShown
        && tweens == old(tweens) + RowTweens(cards)
        && forall k :: 0 <= k < |cards| ==> cards[k].isAnimating
    {
      if isGameActive {
        return;
      }
      if |cards| != Settings.NumberOfCards {
        return;
      }
      isGameActive := true;
      isGamePlayable := false;
      captionShown := false;
      CardsAreDistinct();
      for i := 0 to |cards|
        invariant |tweens| == |old(tweens)| + i && tweens[..|old(tweens)|] == old(tweens)
        invariant isGameActive && !isGamePlayable && !captionShown
        invariant forall k :: 0 <= k < i ==>
          tweens[|old(tweens)| + k] == RowTweens(cards)[k]
        invariant forall k :: 0 <= k < i ==> cards[k].isAnimating
        invariant forall k :: i <= k < |cards| ==> cards[k].isAnimating == old(cards[k].isAnimating)
        invariant forall k :: 0 <= k < |cards| ==> cards[k].isFlipped == old(cards[k].isFlipped)
      {
        cards[i].isAnimating := true;
        tweens := tweens +
          [MoveToRow(cards[i], Layout.RowTarget(i, Settings.NumberOfCards), Layout.RowStart(i))];
      }
      assert tweens == old(tweens) + RowTweens(cards);
    }

    /** The completion of the arrangement's timeline: every card is made idle and
        face-down, then the game is playable and no arrangement is running. */
    method ArrangeCompleted()
      requires Valid()
      modifies this`isGameActive, this`isGamePlayable, cards
      ensures Valid()
      ensures forall k :: 0 <= k < |cards| ==> cards[k].isFlipped && !cards[k].isAnimating
      ensures isGamePlayable && !isGameActive
    {
      CardsAreDistinct();
      for i := 0 to |cards|
        invariant forall k :: 0 <= k < i ==> cards[k].isFlipped && !cards[k].isAnimating
      {
        cards[i].isAnimating := false;
        cards[i].isFlipped := true;
      }
      isGamePlayable := true;
      isGameActive := false;
    }
  }

  /** The start of the page: select the deck from the catalog and set up the state before
      any texture has loaded; on too few unique images the start fails and no card or
      state exists. The shipped catalog is always large enough. */
  method Start(draws: seq<real>) returns (r: Result<Game, Selection.SelectionError>)
    requires Shuffle.EnoughDraws(|Selection.AvailableImageFiles|, draws)
    ensures r.Success? <==> Selection.Select(Selection.AvailableImageFiles, Settings.NumberOfCards, draws).Success?
    ensures r.Failure? ==>
      r == Failure(Selection.Select(Selection.AvailableImageFiles, Settings.NumberOfCards, draws).error)
    ensures r.Success? ==>
      var g := r.value;
      && fresh(g) && g.Valid()
      && Selection.Select(Selection.AvailableImageFiles, Settings.NumberOfCards, draws) == Success(g.selected)
      && g.cards == [] && g.cardsCreated == 0 && g.currentlyHovered == null && g.tweens == []
      && !g.isGamePlayable && !g.isGameActive && !g.interactionHasOccurred
      && g.captionText == "" && !g.captionShown
  {
    var selection := Selection.SelectImageFiles(Selection.AvailableImageFiles, Settings.NumberOfCards, draws);
    if selection.Failure? {
      return Failure(selection.error);
    }
    var g := new Game(selection.value);
    r := Success(g);
  }
}
