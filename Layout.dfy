/** The two layouts of the cards. At creation each card gets a place on a fan: its angle
    on an arc of pi/1.8, from its index in the selection, and a rotation that turns it
    towards the centre. arrangeForGame puts the cards in one line, evenly spaced by 1.25
    card widths, centred on x = 0, at z = 1.5 and the base height, turned by pi (back
    towards the viewer). Positions are exact reals. */
module Layout {
  import Settings

  /** Math.PI, as 3.141592653589793: the shortest decimal that rounds to that double, not its
      exact value. */
  const Pi: real := 3.141592653589793

  /** targetCardSpacingX. */
  const RowSpacing: real := Settings.CardWidth * 1.25

  /** targetZPosition. */
  const RowZ: real := 1.5

  /** A target position and rotation about the vertical axis. */
  datatype Pose = Pose(x: real, y: real, z: real, rotationY: real)

  /** initialLayoutAngle: the arc the fan spans. */
  const FanArc: real := Pi / 1.8

  /** Where on the fan, from 0 (left end) to 1 (right end), the card with index i of n
      goes; a deck of at most one card sits in the middle. */
  function FanFraction(i: nat, n: nat): (f: real)
    requires i < n
    ensures 0.0 <= f <= 1.0
    ensures n == 1 ==> f == 0.5
    ensures n > 1 && i == 0 ==> f == 0.0
    ensures n > 1 && i == n - 1 ==> f == 1.0
  {
    if n <= 1 then 0.5
    else
      var d := (n - 1) as real;
      assert i as real <= d;
      assert i as real / d <= 1.0 by {
        assert i as real / d * d == i as real;
      }
      i as real / d
  }

  /** The fan angle of the card with index i (currentAngle). */
  function FanAngle(i: nat, n: nat): (a: real)
    requires i < n
    ensures -FanArc / 2.0 <= a <= FanArc / 2.0
  {
    (FanFraction(i, n) - 0.5) * FanArc
  }

  /** The rotation about the vertical axis that a card gets at creation. */
  function FanRotationY(i: nat, n: nat): (r: real)
    requires i < n
    ensures Pi - FanArc / 2.0 <= r <= Pi + FanArc / 2.0
  {
    -FanAngle(i, n) + Pi
  }

  /** The fan is symmetric: the i-th card from the left and the i-th from the right make
      opposite angles, so their rotations average pi. */
  lemma FanSymmetric(i: nat, n: nat)
    requires i < n
    ensures FanAngle(i, n) + FanAngle(n - 1 - i, n) == 0.0
    ensures FanRotationY(i, n) + FanRotationY(n - 1 - i, n) == 2.0 * Pi
  {
    if n > 1 {
      var d := (n - 1) as real;
      assert FanFraction(i, n) + FanFraction(n - 1 - i, n) == (i as real + (n - 1 - i) as real) / d;
    }
  }

  /** The row target of the card at position i of the card list, for a deck of n cards. */
  function RowTarget(i: nat, n: nat): (p: Pose)
    ensures p.y == Settings.InitialYPosition && p.z == RowZ && p.rotationY == Pi
  {
    var rowWidth := ((n as int) - 1) as real * RowSpacing;
    Pose(i as real * RowSpacing + -rowWidth / 2.0, Settings.InitialYPosition, RowZ, Pi)
  }

  /** The time, in seconds after the timeline starts, at which the card at position i
      starts moving: the cards are staggered by a tenth of a second. */
  function RowStart(i: nat): (t: real)
    ensures t >= 0.3
  {
    0.3 + i as real * 0.1
  }

  /** Neighbours in the row are exactly 1.875 apart (whatever the deck size). */
  lemma RowEvenlySpaced(i: nat, n: nat)
    ensures RowTarget(i + 1, n).x - RowTarget(i, n).x == 1.875
  {
  }

  /** The row is symmetric about x = 0: the i-th card from the left mirrors the i-th
      from the right. */
  lemma RowSymmetric(i: nat, n: nat)
    requires i < n
    ensures RowTarget(i, n).x + RowTarget(n - 1 - i, n).x == 0.0
  {
  }

  /** The row runs from left to right in list order, so no two cards share a target. */
  lemma RowOrdered(i: nat, j: nat, n: nat)
    requires i < j < n
    ensures RowTarget(i, n).x < RowTarget(j, n).x
  {
  }

  /** Each card starts a tenth of a second after its left neighbour. */
  lemma RowStaggered(i: nat)
    ensures RowStart(i + 1) - RowStart(i) == 0.1
  {
  }

  /** For the six-card deck the targets are -4.6875, -2.8125, ..., 4.6875. */
  lemma SixCardRow()
    ensures RowTarget(0, Settings.NumberOfCards).x == -4.6875
    ensures RowTarget(5, Settings.NumberOfCards).x == 4.6875
  {
  }
}
