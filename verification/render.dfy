/**
 * The integer rules the NewsCards render code applies to the stack: which
 * cards are mounted, which one accepts a drag, where a dismissed card flies
 * off to, the stacking order, and when the Back control and the empty-state
 * message appear.
 */
module Render {
  import opened Cards
  import opened CardStack

  /** Only cards at an index below this are mounted. */
  const MOUNT_LIMIT: nat := 4
  /** Stacking order of the expanded card. */
  const EXPANDED_Z: int := 50
  /** Horizontal distance of the exit animation. */
  const EXIT_DISTANCE: int := 200

  predicate IsMounted(index: nat) {
    index < MOUNT_LIMIT
  }

  /** The mounted cards: a prefix of the queue holding exactly the mounted indices. */
  function Mounted(cards: seq<CardData>): (r: seq<CardData>)
    ensures |r| <= MOUNT_LIMIT && |r| <= |cards|
    ensures forall i :: 0 <= i < |cards| ==> (i < |r| <==> IsMounted(i))
    ensures forall i :: 0 <= i < |r| ==> r[i] == cards[i]
  {
    if |cards| <= MOUNT_LIMIT then cards else cards[..MOUNT_LIMIT]
  }

  /** JavaScript's truncating integer quotient (`Math.trunc(a / b)`), the partner of `%`. */
  function JsQuot(a: int, b: int): int
    requires b != 0
  {
    var q := (if a < 0 then -a else a) / (if b < 0 then -b else b);
    if (a < 0) == (b < 0) then q else -q
  }

  /**
   * JavaScript's `%` on integers: the remainder of truncating division, so it
   * takes the sign of the dividend.
   */
  function JsRem(a: int, b: int): (r: int)
    requires b != 0
    ensures a >= 0 ==> 0 <= r < (if b < 0 then -b else b)
    ensures a < 0 ==> -(if b < 0 then -b else b) < r <= 0
    ensures a == b * JsQuot(a, b) + r
  {
    var aa, bb := (if a < 0 then -a else a), (if b < 0 then -b else b);
    var q, m := aa / bb, aa % bb;
    assert aa == bb * q + m;
    assert b * JsQuot(a, b) == (if a < 0 then -(bb * q) else bb * q) by {
      if b < 0 {
        assert b * JsQuot(a, b) == -(bb * JsQuot(a, b));
      }
    }
    if a < 0 then -m else m
  }

  /** The parity test written with JavaScript's `%` agrees with evenness for every integer, negative ones included. */
  lemma JsEvenIsEven(id: int)
    ensures JsRem(id, 2) == 0 <==> id % 2 == 0
  {
    if id < 0 {
      assert (-id) % 2 == 0 <==> id % 2 == 0;
    }
  }

  /** Exit x-offset of a dismissed card: right for even ids, left for odd ids; the swipe plays no part. */
  function ExitX(id: int): (x: int)
    ensures x == EXIT_DISTANCE <==> id % 2 == 0
    ensures x == -EXIT_DISTANCE <==> id % 2 != 0
  {
    JsEvenIsEven(id);
    if JsRem(id, 2) == 0 then EXIT_DISTANCE else -EXIT_DISTANCE
  }

  /** Every card has a swipe past the threshold after which it flies off to the opposite side. */
  lemma ExitCanOpposeSwipe(id: int)
    ensures var offset := if id % 2 == 0 then -150.0 else 150.0;
      DragDecision(offset).Some? && (DragDecision(offset) == Some(Right)) != (ExitX(id) > 0)
  {
  }

  /** Stacking order of the card at `index`: 50 when it is the expanded card, otherwise the number of cards from it to the back. */
  function ZIndex(cards: seq<CardData>, expanded: Option<int>, index: nat): (z: int)
    requires index < |cards|
    ensures z >= 1
    ensures expanded != Some(cards[index].id) ==> z <= |cards|
  {
    if expanded == Some(cards[index].id) then EXPANDED_Z else |cards| - index
  }

  /** Among cards that are not expanded, a card nearer the front is drawn above one further back. */
  lemma FrontDrawnAbove(cards: seq<CardData>, expanded: Option<int>, i: nat, j: nat)
    requires i < j < |cards|
    requires expanded != Some(cards[i].id) && expanded != Some(cards[j].id)
    ensures ZIndex(cards, expanded, i) > ZIndex(cards, expanded, j)
  {
  }

  /**
   * The expanded card is drawn above another card exactly when fewer than 50
   * cards separate that card from the back of the queue: with a queue of 50
   * or more cards the front card is not below the expanded one.
   */
  lemma ExpandedDrawnAbove(cards: seq<CardData>, expanded: Option<int>, e: nat, j: nat)
    requires e < |cards| && j < |cards|
    requires expanded == Some(cards[e].id) && expanded != Some(cards[j].id)
    ensures ZIndex(cards, expanded, e) > ZIndex(cards, expanded, j) <==> |cards| - j < EXPANDED_Z
  {
  }

  /**
   * The drag condition as written, `index === 0 && !expandedCard`: JavaScript's
   * `!` holds for null and also for the number 0, so an expanded card with id
   * 0 reads as "nothing expanded".
   */
  function DraggableAsWritten(index: nat, expanded: Option<int>): (r: bool)
    ensures r ==> index == 0
    ensures index == 0 && expanded == None ==> r
    ensures r && expanded.Some? ==> expanded.value == 0
  {
    index == 0 && (expanded == None || expanded == Some(0))
  }

  /** The drag condition as intended: the front card, and only while no card is expanded. */
  function Draggable(index: nat, expanded: Option<int>): (r: bool)
    ensures r ==> index == 0 && expanded == None
    ensures r ==> DraggableAsWritten(index, expanded)
  {
    index == 0 && expanded == None
  }

  /** Expanding the card with id 0 leaves the front card draggable under the condition as written. */
  lemma ExpandingIdZeroKeepsDrag(s: Stack)
    requires s.expanded == None
    ensures Toggle(s, 0).expanded == Some(0)
    ensures DraggableAsWritten(0, Toggle(s, 0).expanded)
    ensures !Draggable(0, Toggle(s, 0).expanded)
  {
  }

  /** With the intended condition, after a toggle a card accepts a drag exactly when it is the front one and the toggle collapsed. */
  lemma DragAfterToggle(s: Stack, id: int, index: nat)
    ensures Draggable(index, Toggle(s, id).expanded) <==> index == 0 && s.expanded == Some(id)
  {
  }

  /** The two drag conditions differ only when the marker holds id 0. */
  lemma DragConditionsAgree(index: nat, expanded: Option<int>)
    requires expanded != Some(0)
    ensures DraggableAsWritten(index, expanded) == Draggable(index, expanded)
  {
  }

  /** Number of Back controls on screen: each mounted card renders its own. */
  function BackControls(s: Stack): (n: nat)
    ensures n <= MOUNT_LIMIT
    ensures n == 0 <==> s.cards == []
  {
    |Mounted(s.cards)|
  }

  /** The Back control is enabled only while the undo stack holds a card. */
  function BackEnabled(s: Stack): (r: bool)
    ensures r <==> Restore(s) != s
  {
    |s.removed| > 0
  }

  /** The empty-state message is shown exactly when the queue is empty. */
  function ShowsEmptyState(s: Stack): (r: bool)
    ensures r <==> BackControls(s) == 0
    ensures r <==> Mounted(s.cards) == []
  {
    |s.cards| == 0
  }

  /**
   * Dismissing every card leaves the empty-state message and no Back control
   * on screen, although a restore would bring a card back: the undo stack is
   * unreachable from the interface.
   */
  lemma SwipingAllHidesBack(s: Stack, directions: seq<Direction>)
    requires 0 < |directions| == |s.cards|
    ensures ShowsEmptyState(Swipes(s, directions))
    ensures BackControls(Swipes(s, directions)) == 0
    ensures BackEnabled(Swipes(s, directions))
    ensures Restore(Swipes(s, directions)) != Swipes(s, directions)
  {
    var t := Swipes(s, directions);
    assert |t.removed| == |directions| + |s.removed|;
  }

  /** The marker is either cleared or holds the id of a mounted card. */
  predicate MarkerOnMounted(s: Stack) {
    s.expanded.Some? ==> HasId(Mounted(s.cards), s.expanded.value)
  }

  /**
   * Every operation keeps the marker on a mounted card, given that the
   * toggle is invoked with the id of a mounted card, as its button does.
   */
  lemma MarkerStaysOnMounted(s: Stack, direction: Direction, index: nat)
    requires MarkerOnMounted(s)
    ensures MarkerOnMounted(Initial(s.cards))
    ensures |s.cards| > 0 ==> MarkerOnMounted(Remove(s, direction))
    ensures MarkerOnMounted(Restore(s))
    ensures index < |Mounted(s.cards)| ==> MarkerOnMounted(Toggle(s, s.cards[index].id))
  {
    if index < |Mounted(s.cards)| {
      var t := Toggle(s, s.cards[index].id);
      if t.expanded.Some? {
        assert Mounted(s.cards)[index].id == t.expanded.value;
      }
    }
  }
}
