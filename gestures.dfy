/**
 * The landmark geometry classifier of gesture mode (Hybrid_Robot.py, lines 97-117):
 * the pixel positions of one hand become one of five gesture labels, by a
 * priority-ordered chain of comparisons with a fixed 50-pixel margin.
 */
module Gestures {

  /** The fixed margin, in pixels, that the index fingertip must clear. */
  const MARGIN: real := 50.0

  datatype Gesture = HandUp | HandDown | TiltLeft | TiltRight | Neutral

  /** The label the source uses for a gesture: shown on screen and used as the command-map key. */
  function Label(g: Gesture): string
  {
    match g
    case HandUp => "Hand Up"
    case HandDown => "Hand Down"
    case TiltLeft => "Tilt Left"
    case TiltRight => "Tilt Right"
    case Neutral => "Neutral"
  }

  /**
   * The landmarks the classifier reads, in pixels: the y coordinates of the wrist
   * and of the index fingertip (scaled by the frame height) and the x coordinates
   * of the thumb tip and of the index fingertip (scaled by the frame width).
   */
  datatype Hand = Hand(wristY: real, indexY: real, thumbX: real, indexX: real)

  /** The index fingertip is within the margin of the wrist vertically. */
  predicate InVerticalBand(h: Hand)
  {
    h.wristY - MARGIN <= h.indexY <= h.wristY + MARGIN
  }

  /** The index fingertip is within the margin of the thumb tip horizontally. */
  predicate InHorizontalBand(h: Hand)
  {
    h.thumbX - MARGIN <= h.indexX <= h.thumbX + MARGIN
  }

  /**
   * The part of landmark space each gesture stands for, stated region by region
   * and without an order of tests: the vertical gestures outside the vertical
   * band, the tilts inside it, Neutral inside both bands.
   */
  predicate InRegion(h: Hand, g: Gesture)
  {
    match g
    case HandUp => h.indexY < h.wristY - MARGIN
    case HandDown => h.indexY > h.wristY + MARGIN
    case TiltLeft => InVerticalBand(h) && h.indexX < h.thumbX - MARGIN
    case TiltRight => InVerticalBand(h) && h.indexX > h.thumbX + MARGIN
    case Neutral => InVerticalBand(h) && InHorizontalBand(h)
  }

  /** The if/elif chain: vertical tests against the wrist first, then horizontal tests against the thumb. */
  function Classify(h: Hand): (g: Gesture)
    ensures InRegion(h, g)
  {
    if h.indexY < h.wristY - MARGIN then HandUp
    else if h.indexY > h.wristY + MARGIN then HandDown
    else if h.indexX < h.thumbX - MARGIN then TiltLeft
    else if h.indexX > h.thumbX + MARGIN then TiltRight
    else Neutral
  }

  /** The regions partition landmark space: every hand lies in exactly one of them. */
  lemma RegionsPartition(h: Hand, g1: Gesture, g2: Gesture)
    ensures exists g :: InRegion(h, g)
    ensures InRegion(h, g1) && InRegion(h, g2) ==> g1 == g2
  {
    assert InRegion(h, Classify(h));
  }

  /** The classifier picks a gesture exactly when the hand lies in that gesture's region. */
  lemma ClassifyMatchesRegion(h: Hand, g: Gesture)
    ensures Classify(h) == g <==> InRegion(h, g)
  {
  }

  /** A raised index finger gives Hand Up whatever the horizontal coordinates are. */
  lemma HandUpIgnoresHorizontal(h: Hand, thumbX: real, indexX: real)
    requires h.indexY < h.wristY - MARGIN
    ensures Classify(h) == HandUp
    ensures Classify(h.(thumbX := thumbX, indexX := indexX)) == HandUp
  {
  }

  /** Hand Down is the result exactly when the finger is not raised and is lowered past the margin. */
  lemma HandDownWhenLowered(h: Hand)
    ensures Classify(h) == HandDown <==> !(h.indexY < h.wristY - MARGIN) && h.indexY > h.wristY + MARGIN
  {
  }

  /** A tilt is only ever reported inside the vertical band. */
  lemma TiltOnlyInVerticalBand(h: Hand)
    requires Classify(h) == TiltLeft || Classify(h) == TiltRight
    ensures InVerticalBand(h)
  {
  }

  /** Inside the vertical band the horizontal tests decide: left, right, or Neutral inside both margins. */
  lemma TiltWithinVerticalBand(h: Hand)
    requires InVerticalBand(h)
    ensures h.indexX < h.thumbX - MARGIN ==> Classify(h) == TiltLeft
    ensures h.indexX > h.thumbX + MARGIN ==> Classify(h) == TiltRight
    ensures InHorizontalBand(h) ==> Classify(h) == Neutral
  {
  }

  /** Neutral exactly when both coordinates are within the margin. */
  lemma NeutralIffWithinMargins(h: Hand)
    ensures Classify(h) == Neutral <==> InVerticalBand(h) && InHorizontalBand(h)
  {
  }

  /**
   * The gesture of one frame: Neutral when no hand is detected, otherwise the
   * classification of the last hand in the detector's list.
   */
  function FrameGesture(hands: seq<Hand>): Gesture
  {
    if hands == [] then Neutral else Classify(hands[|hands| - 1])
  }

  /** The per-frame loop over detected hands, each overwriting the gesture of the one before. */
  method ClassifyFrame(hands: seq<Hand>) returns (gesture: Gesture)
    ensures gesture == FrameGesture(hands)
  {
    gesture := Neutral;
    for i := 0 to |hands|
      invariant gesture == FrameGesture(hands[..i])
    {
      gesture := Classify(hands[i]);
      assert hands[..i + 1][i] == hands[i];
    }
    assert hands[..|hands|] == hands;
  }

  /** With several hands, the earlier ones have no effect: the last hand decides. */
  lemma LastHandWins(earlier: seq<Hand>, last: Hand)
    ensures FrameGesture(earlier + [last]) == Classify(last)
  {
  }
}
