/** Event sequences that script.js goes through, checked against the handlers' contracts
    alone. */
module Scenarios {
  import opened Wrappers
  import opened CardScene
  import Captions
  import Settings

  /** A touch end followed by the click the browser synthesizes for it, with or without
      the 100 ms timer expiring in between: exactly one flip starts. */
  method TouchThenClickFlipsOnce(g: Game, k: nat, timerExpiresBetween: bool)
    requires g.Valid() && g.isGamePlayable && !g.interactionHasOccurred
    requires k < |g.cards| && g.cards[k].isFlipped && !g.cards[k].isAnimating
    modifies g, g.cards
    ensures g.cards == old(g.cards)
    ensures g.tweens == old(g.tweens) + FlipTweens(g.cards[k])
    ensures g.cards[k].isAnimating && g.cards[k].isFlipped
  {
    g.HandleInteractionEnd(Ray(Some(k)));
    if timerExpiresBetween {
      g.DebounceExpired();
    }
    g.HandleInteractionEnd(Ray(Some(k)));
  }

  /** A whole flip: the activation, the end of the turn with the pointer still on the
      card: the card is face-up and idle, hovered, and the caption is its file's. A second
      activation after the timer only shows the caption again. */
  method FlipAndReveal(g: Game, k: nat)
    requires g.Valid() && g.isGamePlayable && !g.interactionHasOccurred
    requires k < |g.cards| && g.cards[k].isFlipped && !g.cards[k].isAnimating
    modifies g, g.cards
    ensures g.cards == old(g.cards)
    ensures !g.cards[k].isFlipped && !g.cards[k].isAnimating
    ensures g.currentlyHovered == g.cards[k]
    ensures g.captionText == Captions.Caption(g.cards[k].filename) && g.captionShown
    ensures g.tweens == old(g.tweens) + FlipTweens(g.cards[k]) + HoverTweens(g.cards[k])
  {
    var card := g.cards[k];
    g.HandleInteractionEnd(Ray(Some(k)));
    g.FlipCompleted(card, true);
    g.DebounceExpired();
    g.HandleInteractionEnd(Ray(Some(k)));
  }

  /** Textures finish in any order: the card list follows the order of completion, and the
      ids follow the selection. */
  method LoadsOutOfOrder() returns (g: Game)
    ensures fresh(g) && g.Valid() && |g.cards| == 2
    ensures g.cards[0].id == 1 && g.cards[1].id == 0
    ensures g.cards[0].filename == "b.jpg" && g.cards[1].filename == "a.jpg"
  {
    g := new Game(["a.jpg", "b.jpg", "c.jpg", "d.jpg", "e.jpg", "f.jpg"]);
    var first := g.CardLoaded(1);
    var second := g.CardLoaded(0);
  }

  /** The arrangement turns every card face-down again when its timeline completes, and
      since it clears isGameActive a further start request is accepted once more. */
  method ArrangeTwice(g: Game)
    requires g.Valid() && !g.isGameActive && |g.cards| == Settings.NumberOfCards
    modifies g, g.cards
    ensures g.cards == old(g.cards)
    ensures g.isGameActive && !g.isGamePlayable
    ensures forall k :: 0 <= k < |g.cards| ==> g.cards[k].isFlipped && g.cards[k].isAnimating
  {
    g.ArrangeForGame();
    g.ArrangeCompleted();
    g.ArrangeForGame();
  }

  /** A start request before all textures have loaded is dropped, not queued. */
  method EarlyStartIsDropped(g: Game)
    requires g.Valid() && !g.isGameActive && |g.cards| < Settings.NumberOfCards
    modifies g, g.cards
    ensures g.cards == old(g.cards)
    ensures !g.isGameActive && g.tweens == old(g.tweens)
  {
    g.ArrangeForGame();
  }
}
