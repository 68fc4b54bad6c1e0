/** The card settings of script.js (deck size, card width, base height). */
module Settings {

  /** numberOfCards: the size of the deck. */
  const NumberOfCards: nat := 6

  /** cardWidth, in scene units. */
  const CardWidth: real := 1.5

  /** initialYPosition: the base height of every card. */
  const InitialYPosition: real := 0.0
}
